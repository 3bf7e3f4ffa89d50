/** What the derivation answers for a class that does not link: a fault of the
    class file, by its own name. */
module DeriveRefusals {
  import opened Bytes
  import opened ClassFile
  import opened ClassSpec
  import opened ConstantsExact
  import opened MembersExact
  import opened MethodsExact
  import opened SurveyExact
  import opened TableExact
  import Bytecode
  import Descriptor

  /** A class, a name and type, and a descriptor that is a string. */
  ghost predicate NamesMethod(cs: seq<Constant>, m: Constant)
    requires m.ConstMethod?
  {
    && m.cls < |cs| && cs[m.cls].ConstClass? && m.sig < |cs| && cs[m.sig].ConstNameAndType?
    && TextOf(cs, cs[m.sig].desc).Some?
  }

  /** A constant names a string that is not there. */
  ghost predicate NamesNothing(cs: seq<Constant>, c: Constant) {
    || (c.ConstClass? && TextOf(cs, c.name).None?)
    || (c.ConstNameAndType? && (TextOf(cs, c.name).None? || TextOf(cs, c.desc).None?))
  }

  /** Some code of the file is no legal code. */
  ghost predicate IllegalAt(t: Tail, p: nat, len: nat) {
    U32(t, p) == Some(len) && Reaches(t, p + 4 + len) && !CodeIsLegal(t.file[t.base + p + 4..t.base + p + 4 + len])
  }

  /** The entries of a `BootstrapMethods` attribute pass its end. */
  ghost predicate BootstrapsPass(t: Tail, at: nat, len: nat, args: seq<nat>, end: nat) {
    U16(t, at + 6) == Some(|args|) && BootstrapsLie(t, args, at + 8, end) && end > at + 6 + len
  }

  /** A member whose name or descriptor is no string. */
  ghost predicate Unnamed(cs: seq<Constant>, t: Tail, p: nat) {
    exists name: nat, desc: nat ::
      U16(t, p + 2) == Some(name) && U16(t, p + 4) == Some(desc) && (TextOf(cs, name).None? || TextOf(cs, desc).None?)
  }

  /** The class file has the fault that `e` names. */
  ghost predicate Fault(env: Env, cs: seq<Constant>, t: Tail, b: Body, e: LinkError) {
    match e
    case BadMethodref(i) => i < |cs| && cs[i].ConstMethod? && !NamesMethod(cs, cs[i])
    case BadDescriptor(i) =>
      i < |cs| && cs[i].ConstMethod? && NamesMethod(cs, cs[i]) && !exists n: nat :: TakesParams(cs, cs[i], n)
    case BadString(i) => i < |cs| && cs[i].ConstString? && TextOf(cs, cs[i].text).None?
    case BadUtf8(i) =>
      i < |cs| && ((cs[i].ConstText? && !env.isUtf8(cs[i].bytes)) || NamesNothing(cs, cs[i]))
    case BadThisClass => !NamesClass(env, cs, b.thisClass)
    case BadSuperClass => b.superClass != 0 && !NamesClass(env, cs, b.superClass)
    case BadInterface(j) => j < |b.ifaces| && !NamesClass(env, cs, b.ifaces[j])
    case BadMember(j) =>
      || (j < |b.fields| && Unnamed(cs, t, b.fields[j].at))
      || (j < |b.methods| && Unnamed(cs, t, b.methods[j].at))
    case ClassTooLarge =>
      || SlotsTo(cs, Members(b.fields, false), |Members(b.fields, false)|) > 0x0FFF
      || |Members(b.fields, true)| > 0x1000
    case BadBytecode(_) => exists p, len :: IllegalAt(t, p, len)
    case BadBootstrapMethods => exists at, len, args, end :: BootstrapsPass(t, at, len, args, end)
    case Truncated => true
    case _ => false
  }

  // ---- the constant pool -------------------------------------------------

  lemma MethodrefRefused(cls: seq<byte>, cp: CpView, cs: seq<Constant>, i: nat)
    requires Shows(cls, cp, cs) && i < |cs| <= 65535 && cs[i].ConstMethod? && MethodrefAt(cls, cp, i, cp.tags[i]).Err?
    ensures MethodrefAt(cls, cp, i, cp.tags[i]) == Err(if NamesMethod(cs, cs[i]) then BadDescriptor(i) else BadMethodref(i))
  {
    hide Descriptor.ArgCount;
    SmallAsU16(i);
    var m := cs[i];
    EntryShown(cls, cp, cs, i);
    MethodParts(cls, cp, cs, i);
    if m.sig < |cs| && cs[m.sig].ConstNameAndType? {
      EntryShown(cls, cp, cs, m.sig);
      TextShown(cls, cp, cs, cs[m.sig].desc);
    }
  }

  lemma {:induction false} MrefsRefused(env: Env, cls: seq<byte>, cp: CpView, cs: seq<Constant>, t: Tail, b: Body, n: Counts,
                                        l: Layout, i: nat)
    requires Shows(cls, cp, cs) && n.cpCount == |cs| <= 65535 && i <= |cs| && n.mrefs == MethodsAmong(cs, |cs|)
    requires DeriveMrefs(cls, cp, n, l, i, MethodsAmong(cs, i)).outcome.Err?
    ensures Fault(env, cs, t, b, DeriveMrefs(cls, cp, n, l, i, MethodsAmong(cs, i)).outcome.error)
    decreases |cs| - i
  {
    hide Shows, MethodrefAt, TakesParams, NamesMethod;
    EntryShown(cls, cp, cs, i);
    if cs[i].ConstMethod? && MethodrefAt(cls, cp, i, cp.tags[i]).Err? {
      MethodrefRefused(cls, cp, cs, i);
      MethodrefDerived(cls, cp, cs, i);
    } else {
      MrefsRefused(env, cls, cp, cs, t, b, n, l, i + 1);
    }
  }

  lemma {:induction false} StringsRefused(env: Env, cls: seq<byte>, cp: CpView, cs: seq<Constant>, t: Tail, b: Body, n: Counts,
                                          l: Layout, i: nat)
    requires Shows(cls, cp, cs) && n.cpCount == |cs| <= 65535 && i <= |cs| && n.strs == StringsAmong(cs, |cs|)
    requires DeriveStrs(cls, cp, n, l, i, StringsAmong(cs, i)).outcome.Err?
    ensures Fault(env, cs, t, b, DeriveStrs(cls, cp, n, l, i, StringsAmong(cs, i)).outcome.error)
    decreases |cs| - i
  {
    hide Shows, StringAt, TakesParams, NamesMethod;
    EntryShown(cls, cp, cs, i);
    if cs[i].ConstString? && StringAt(cls, cp, i).Err? {
      StringDerived(cls, cp, cs, i);
      StringRefused(cls, cp, cs, i);
    } else {
      StringsRefused(env, cls, cp, cs, t, b, n, l, i + 1);
    }
  }

  lemma StringRefused(cls: seq<byte>, cp: CpView, cs: seq<Constant>, i: nat)
    requires Shows(cls, cp, cs) && i < |cs| <= 65535 && cs[i].ConstString? && StringAt(cls, cp, i).Err?
    ensures StringAt(cls, cp, i) == Err(BadString(i))
  {
    SmallAsU16(i);
    EntryShown(cls, cp, cs, i);
    TextShown(cls, cp, cs, cs[i].text);
  }

  lemma NameRefused(env: Env, cls: seq<byte>, cp: CpView, cs: seq<Constant>, i: nat, ui: nat)
    requires Shows(cls, cp, cs) && i < |cs| <= 65535 && NameAt(env, cp, i, ui).Err?
    ensures TextOf(cs, ui).None? ==> NameAt(env, cp, i, ui) == Err(BadUtf8(i))
    ensures TextOf(cs, ui).Some? ==> ui < 0x1_0000 && !env.isUtf8(cs[ui].bytes) && NameAt(env, cp, i, ui) == Err(BadUtf8(ui))
  {
    SmallAsU16(i);
    TextShown(cls, cp, cs, ui);
    if ui < |cs| {
      SmallAsU16(ui);
    }
  }

  lemma {:induction false} NamesRefused(env: Env, cls: seq<byte>, cp: CpView, cs: seq<Constant>, t: Tail, b: Body, n: Counts, i: nat)
    requires Shows(cls, cp, cs) && n.cpCount == |cs| <= 65535 && i <= |cs| && CheckNames(env, cls, cp, n, i).Err?
    ensures Fault(env, cs, t, b, CheckNames(env, cls, cp, n, i).error)
    decreases |cs| - i
  {
    hide Shows, NameAt, TakesParams, NamesMethod;
    EntryShown(cls, cp, cs, i);
    match cs[i] {
      case ConstClass(name) =>
        if NameAt(env, cp, i, name).Err? {
          NameRefused(env, cls, cp, cs, i, name);
        } else {
          NamesRefused(env, cls, cp, cs, t, b, n, i + 1);
        }
      case ConstNameAndType(name, desc) =>
        if NameAt(env, cp, i, name).Err? {
          NameRefused(env, cls, cp, cs, i, name);
        } else if NameAt(env, cp, i, desc).Err? {
          NameRefused(env, cls, cp, cs, i, desc);
        } else {
          NamesRefused(env, cls, cp, cs, t, b, n, i + 1);
        }
      case _ => NamesRefused(env, cls, cp, cs, t, b, n, i + 1);
    }
  }

  // ---- the class and its interfaces --------------------------------------

  lemma ClassRefused(env: Env, cls: seq<byte>, cp: CpView, cs: seq<Constant>, i: nat)
    requires Shows(cls, cp, cs) && |cs| <= 65535 && ClassNameRef(env, cls, cp, i).Err?
    ensures !NamesClass(env, cs, i)
    ensures var e := ClassNameRef(env, cls, cp, i).error;
      e == BadThisClass || exists ui: u16 :: e == BadUtf8(ui) && ui < |cs| && cs[ui].ConstText? && !env.isUtf8(cs[ui].bytes)
  {
    EntryShown(cls, cp, cs, i);
    ClassNamed(env, cls, cp, cs, i);
    if i < |cs| && cs[i].ConstClass? {
      EntryShown(cls, cp, cs, cs[i].name);
      TextShown(cls, cp, cs, cs[i].name);
      if cs[i].name < |cs| {
        SmallAsU16(cs[i].name);
      }
    }
  }

  lemma HeadRefused(env: Env, cp: CpView, cs: seq<Constant>, t: Tail, b: Body)
    requires Shows(t.file, cp, cs) && |cs| <= 65535 && MembersPart(t, b) && HeadAt(env, t.file, cp, t.base).Err?
    ensures Fault(env, cs, t, b, HeadAt(env, t.file, cp, t.base).error)
  {
    hide Shows, ClassNameRef, NamesClass, MemberTable, TakesParams, NamesMethod;
    if ClassNameRef(env, t.file, cp, b.thisClass).Err? {
      ClassRefused(env, t.file, cp, cs, b.thisClass);
    } else if b.superClass != 0 && ClassNameRef(env, t.file, cp, b.superClass).Err? {
      ClassRefused(env, t.file, cp, cs, b.superClass);
    }
  }

  lemma {:induction false} IfacesRefused(env: Env, cp: CpView, cs: seq<Constant>, t: Tail, b: Body, l: Layout, j: nat)
    requires Shows(t.file, cp, cs) && |cs| <= 65535 && MembersPart(t, b) && j <= |b.ifaces|
    requires DeriveIfaces(env, t.file, cp, l, |b.ifaces|, j, t.base + 8 + 2 * j).outcome.Err?
    ensures Fault(env, cs, t, b, DeriveIfaces(env, t.file, cp, l, |b.ifaces|, j, t.base + 8 + 2 * j).outcome.error)
    decreases |b.ifaces| - j
  {
    hide Shows, ClassNameRef, NamesClass, MemberTable, TakesParams, NamesMethod, IfacePuts;
    IfacesCount(t, b);
    SmallAsU16(j);
    if ClassNameRef(env, t.file, cp, b.ifaces[j]).Err? {
      ClassRefused(env, t.file, cp, cs, b.ifaces[j]);
    } else {
      IfacesRefused(env, cp, cs, t, b, l, j + 1);
    }
  }

  lemma IfacesCount(t: Tail, b: Body)
    requires MembersPart(t, b)
    ensures |b.ifaces| < 0x1_0000 && |b.fields| < 0x1_0000 && |b.methods| < 0x1_0000
  {
    hide MembersLie;
  }

  // ---- fields ------------------------------------------------------------

  /** A string that is no UTF-8, named by its index. */
  ghost predicate NotUtf8(env: Env, cs: seq<Constant>, e: LinkError) {
    e.BadUtf8? && e.cp < |cs| && cs[e.cp].ConstText? && !env.isUtf8(cs[e.cp].bytes)
  }

  lemma NamedRefused(env: Env, cls: seq<byte>, cp: CpView, cs: seq<Constant>, i: nat)
    requires Shows(cls, cp, cs) && |cs| <= 65535
    ensures Utf8(cp, i).None? <==> TextOf(cs, i).None?
    ensures Utf8(cp, i).Some? && CheckUtf8(env, Utf8(cp, i).value, i).Err? ==>
      NotUtf8(env, cs, CheckUtf8(env, Utf8(cp, i).value, i).error)
  {
    TextShown(cls, cp, cs, i);
    if i < |cs| {
      SmallAsU16(i);
    }
  }

  lemma FieldRefused(env: Env, cp: CpView, cs: seq<Constant>, t: Tail, m: Member, j: nat)
    requires Shows(t.file, cp, cs) && |cs| <= 65535 && MemberLies(t, m) && FieldAt(env, t.file, cp, j, t.base + m.at).Err?
    ensures var e := FieldAt(env, t.file, cp, j, t.base + m.at).error;
      NotUtf8(env, cs, e) || (e == BadMember(AsU16(j)) && Unnamed(cs, t, m.at))
  {
    hide Shows, AttrTable, SkipAttrs, TextOf, Utf8, FieldKind, IsStatic, CheckUtf8, NotUtf8;
    AttrTableSkipped(t, m.attrs, m.at + 6, m.end);
    NamedRefused(env, t.file, cp, cs, m.name);
    NamedRefused(env, t.file, cp, cs, m.desc);
  }

  lemma FieldsTurn(env: Env, cp: CpView, t: Tail, l: Layout, count: nat, j: nat, at: FieldsEnd)
    requires j < count
    ensures var d := DeriveFields(env, t.file, cp, l, count, j, at).outcome;
      var f := FieldAt(env, t.file, cp, j, at.pos);
      && (f.Err? ==> d == Err(f.error))
      && (f.Ok? && (FieldSlot(f.value, at) > 0x0FFF || NextField(f.value, at).own > 0x0FFF) ==> d == Err(ClassTooLarge))
      && (f.Ok? && FieldSlot(f.value, at) <= 0x0FFF && NextField(f.value, at).own <= 0x0FFF ==>
            d == DeriveFields(env, t.file, cp, l, count, j + 1, NextField(f.value, at)).outcome)
  {
    hide FieldAt, FieldPuts, FieldSlot, NextField;
  }

  ghost predicate FieldsFault(env: Env, cs: seq<Constant>, t: Tail, ms: seq<Member>, j: nat, at: FieldsEnd, e: LinkError) {
    || NotUtf8(env, cs, e)
    || (e == ClassTooLarge && !SlotsOk(cs, ms, at.own, at.si))
    || exists k | 0 <= k < |ms| :: e == BadMember(AsU16(j + k)) && Unnamed(cs, t, ms[k].at)
  }

  lemma FaultLater(env: Env, cs: seq<Constant>, t: Tail, ms: seq<Member>, j: nat, at: FieldsEnd, e: LinkError)
    requires ms != [] && FieldsFault(env, cs, t, ms[1..], j + 1, Next(cs, t, ms[0], at), e)
    ensures FieldsFault(env, cs, t, ms, j, at, e)
  {
    hide SlotsOk, Unnamed, NotUtf8, Next;
    MembersStep(cs, t, ms, at, 0);
    if k :| 0 <= k < |ms[1..]| && e == BadMember(AsU16(j + 1 + k)) && Unnamed(cs, t, ms[1..][k].at) {
      assert ms[k + 1] == ms[1..][k] && j + (k + 1) == j + 1 + k;
    }
  }

  lemma {:induction false} FieldsRefused(env: Env, cp: CpView, cs: seq<Constant>, t: Tail, l: Layout, ms: seq<Member>,
                                         count: nat, j: nat, at: FieldsEnd, p: nat, end: nat)
    requires Shows(t.file, cp, cs) && |cs| <= 65535 && MembersLie(t, ms, p, end) && count == j + |ms| && at.pos == t.base + p
    requires at.own <= 0x0FFF && at.si <= 0x1000
    requires DeriveFields(env, t.file, cp, l, count, j, at).outcome.Err?
    ensures FieldsFault(env, cs, t, ms, j, at, DeriveFields(env, t.file, cp, l, count, j, at).outcome.error)
    decreases |ms|
  {
    hide Shows, MemberLies, StaticMember, Width, DeriveFields, SlotsOk, FieldAt, Unnamed, NotUtf8, IsName, StorageIn;
    if ms == [] {
      NoneLeft(env, cp, cs, t, l, count, at, end);
    } else {
      FirstMember(t, ms, p, end);
      FieldsTurn(env, cp, t, l, count, j, at);
      var f := FieldAt(env, t.file, cp, j, at.pos);
      if f.Err? {
        FieldRefused(env, cp, cs, t, ms[0], j);
        assert j + 0 == j;
      } else {
        FieldDerived(env, cp, cs, t, ms[0], j);
        var next := Next(cs, t, ms[0], at);
        MembersStep(cs, t, ms, at, end);
        if next.own <= 0x0FFF && next.si <= 0x1000 {
          FieldsRefused(env, cp, cs, t, l, ms[1..], count, j + 1, next, ms[0].end, end);
          FaultLater(env, cs, t, ms, j, at, DeriveFields(env, t.file, cp, l, count, j, at).outcome.error);
        } else {
          OverIsOver(cs, ms[1..], next.own, next.si);
        }
      }
    }
  }

  lemma AllFieldsRefused(env: Env, cp: CpView, cs: seq<Constant>, t: Tail, b: Body, l: Layout, e: LinkError)
    requires Shows(t.file, cp, cs) && |cs| <= 65535 && MembersPart(t, b)
    requires DeriveFields(env, t.file, cp, l, |b.fields|, 0, FieldsEnd(t.base + 8 + 2 * |b.ifaces| + 2, 0, 0, 0)).outcome == Err(e)
    ensures Fault(env, cs, t, b, e)
  {
    hide Shows, MembersLie, DeriveFields, SlotsTo, SlotsFrom, Members, Unnamed, TakesParams, NamesMethod;
    var p := 8 + 2 * |b.ifaces| + 2;
    var at := FieldsEnd(t.base + p, 0, 0, 0);
    FieldsRefused(env, cp, cs, t, l, b.fields, |b.fields|, 0, at, p, b.fieldsEnd);
    SlotsBothWays(cs, Members(b.fields, false));
    IfacesCount(t, b);
    if k :| 0 <= k < |b.fields| && e == BadMember(AsU16(0 + k)) && Unnamed(cs, t, b.fields[k].at) {
      SmallAsU16(k);
    }
  }

  // ---- methods -----------------------------------------------------------

  ghost predicate CodeFault(t: Tail, e: LinkError) {
    e == Truncated || (e.BadBytecode? && exists p, len :: IllegalAt(t, p, len))
  }

  lemma VerdictNames(code: seq<byte>)
    requires Bytecode.CodeVerdict(code).Err?
    ensures Bytecode.CodeVerdict(code).error.BadBytecode?
  {
    if 0 < |code| <= 65535 {
      VerdictFromNames(code, 0);
    }
  }

  lemma {:induction false} VerdictFromNames(code: seq<byte>, pc: nat)
    requires |code| <= 65535 && Bytecode.VerdictFrom(code, pc).Err?
    ensures Bytecode.VerdictFrom(code, pc).error.BadBytecode?
    decreases |code| - pc
  {
    hide Bytecode.Legal;
    if Bytecode.LegalSomewhere(code, pc) {
      var end :| Bytecode.Legal(code, pc, end) && Bytecode.VerdictFrom(code, pc) == Bytecode.VerdictFrom(code, end);
      LegalAdvances(code, pc, end);
      VerdictFromNames(code, end);
    }
  }

  lemma LegalAdvances(code: seq<byte>, pc: nat, end: nat)
    requires Bytecode.Legal(code, pc, end)
    ensures pc < end <= |code|
  {
  }

  lemma {:induction false} SubAttrsRefused(cp: CpView, cls: seq<byte>, n: nat, pos: nat, lnt: nat)
    requires SubAttrs(cls, cp, n, pos, lnt).Err?
    ensures SubAttrs(cls, cp, n, pos, lnt) == Err(Truncated)
    decreases n
  {
    hide Utf8;
    if ReadU16(cls, pos).Ok? && ReadU32(cls, pos + 2).Ok? {
      var name, len := ReadU16(cls, pos).value, ReadU32(cls, pos + 2).value;
      if Seek(cls, pos + 6 + len).Ok? {
        SubAttrsRefused(cp, cls, n - 1, pos + 6 + len, if lnt == 0 && Utf8(cp, name) == Some(LINE_NUMBER_TABLE) then pos + 6 else lnt);
      }
    }
  }

  lemma CodeRefused(cp: CpView, t: Tail, p: nat, lnt: nat)
    requires CodeAttr(t.file, cp, t.base + p, lnt).Err?
    ensures CodeFault(t, CodeAttr(t.file, cp, t.base + p, lnt).error)
  {
    hide SubAttrs, Bytecode.CodeVerdict, CodeIsLegal;
    if U32(t, p + 4).Some? && Reaches(t, p + 8 + U32(t, p + 4).value) {
      var len: nat := U32(t, p + 4).value;
      var code := t.file[t.base + p + 8..t.base + p + 8 + len];
      LegalAlike(code);
      if Bytecode.CodeVerdict(code).Err? {
        VerdictNames(code);
        assert IllegalAt(t, p + 4, len);
      } else {
        HandlersRefused(cp, t, p, len, lnt);
      }
    }
  }

  lemma HandlersRefused(cp: CpView, t: Tail, p: nat, len: nat, lnt: nat)
    requires U32(t, p + 4) == Some(len) && Reaches(t, p + 8 + len) && CodeAttr(t.file, cp, t.base + p, lnt).Err?
    requires Bytecode.CodeVerdict(t.file[t.base + p + 8..t.base + p + 8 + len]).Ok?
    ensures CodeAttr(t.file, cp, t.base + p, lnt) == Err(Truncated)
  {
    hide SubAttrs, Bytecode.CodeVerdict;
    var end := t.base + p + 8 + len;
    if ReadU16(t.file, end).Ok? {
      var at := end + 2 + 8 * ReadU16(t.file, end).value as int;
      if ReadU16(t.file, at).Ok? && SubAttrs(t.file, cp, ReadU16(t.file, at).value, at + 2, lnt).Err? {
        SubAttrsRefused(cp, t.file, ReadU16(t.file, at).value, at + 2, lnt);
      }
    }
  }

  lemma {:induction false} MethodAttrsRefused(cp: CpView, t: Tail, n: nat, p: nat, refs: CodeRefs)
    requires MethodAttrs(t.file, cp, n, t.base + p, refs).Err?
    ensures CodeFault(t, MethodAttrs(t.file, cp, n, t.base + p, refs).error)
    decreases n
  {
    hide Utf8, CodeAttr, IllegalAt;
    if ReadU16(t.file, t.base + p).Ok? && ReadU32(t.file, t.base + p + 2).Ok? {
      var name, len := ReadU16(t.file, t.base + p).value, ReadU32(t.file, t.base + p + 2).value;
      var after := MethodAttr(t.file, cp, name, t.base + p + 6, refs);
      if after.Err? {
        CodeRefused(cp, t, p + 6, refs.lnt);
      } else if Seek(t.file, t.base + p + 6 + len).Ok? {
        MethodAttrsRefused(cp, t, n - 1, p + 6 + len, after.value);
      }
    }
  }

  lemma MethodRefused(env: Env, cp: CpView, cs: seq<Constant>, t: Tail, m: Member, mi: nat)
    requires Shows(t.file, cp, cs) && |cs| <= 65535 && MemberLies(t, m) && MethodAt(env, t.file, cp, mi, t.base + m.at).Err?
    ensures var e := MethodAt(env, t.file, cp, mi, t.base + m.at).error;
      NotUtf8(env, cs, e) || CodeFault(t, e) || (e == BadMember(AsU16(mi)) && Unnamed(cs, t, m.at))
  {
    hide Shows, MethodAttrs, TextOf, Utf8, CheckUtf8, NotUtf8, CodeFault, AttrsLie;
    NamedRefused(env, t.file, cp, cs, m.name);
    NamedRefused(env, t.file, cp, cs, m.desc);
    var count := ReadU16(t.file, t.base + m.at + 6).value;
    if MethodAttrs(t.file, cp, count, t.base + (m.at + 8), CodeRefs(0, 0)).Err? {
      MethodAttrsRefused(cp, t, count, m.at + 8, CodeRefs(0, 0));
    }
  }

  ghost predicate MethodsFault(env: Env, cs: seq<Constant>, t: Tail, ms: seq<Member>, mi: nat, e: LinkError) {
    || NotUtf8(env, cs, e) || CodeFault(t, e)
    || exists k | 0 <= k < |ms| :: e == BadMember(AsU16(mi + k)) && Unnamed(cs, t, ms[k].at)
  }

  lemma {:induction false} MethodsRefused(env: Env, cp: CpView, cs: seq<Constant>, t: Tail, l: Layout, ms: seq<Member>,
                                          count: nat, mi: nat, p: nat, end: nat)
    requires Shows(t.file, cp, cs) && |cs| <= 65535 && MembersLie(t, ms, p, end) && count == mi + |ms|
    requires DeriveMethods(env, t.file, cp, l, count, mi, t.base + p).outcome.Err?
    ensures MethodsFault(env, cs, t, ms, mi, DeriveMethods(env, t.file, cp, l, count, mi, t.base + p).outcome.error)
    decreases |ms|
  {
    hide Shows, MethodAt, MemberLies, NotUtf8, CodeFault, Unnamed, MethodPuts;
    if ms != [] {
      FirstMember(t, ms, p, end);
      var m := MethodAt(env, t.file, cp, mi, t.base + p);
      if m.Err? {
        MethodRefused(env, cp, cs, t, ms[0], mi);
        assert mi + 0 == mi;
      } else {
        MethodEnds(env, cp, cs, t, ms[0], mi);
        MethodsRefused(env, cp, cs, t, l, ms[1..], count, mi + 1, ms[0].end, end);
        var e := DeriveMethods(env, t.file, cp, l, count, mi, t.base + p).outcome.error;
        if k :| 0 <= k < |ms[1..]| && e == BadMember(AsU16(mi + 1 + k)) && Unnamed(cs, t, ms[1..][k].at) {
          assert ms[k + 1] == ms[1..][k] && mi + (k + 1) == mi + 1 + k;
        }
      }
    }
  }

  lemma MethodEnds(env: Env, cp: CpView, cs: seq<Constant>, t: Tail, m: Member, mi: nat)
    requires Shows(t.file, cp, cs) && MemberLies(t, m) && m.access < 0x1_0000 && MethodAt(env, t.file, cp, mi, t.base + m.at).Ok?
    ensures MethodAt(env, t.file, cp, mi, t.base + m.at).value.next == t.base + m.end
  {
    hide Shows, MethodAt, MemberLies, MethodLinks, RefsFrom;
    var codes := MethodTaken(env, cp, cs, t, m, mi);
    MethodDerived(env, cp, cs, t, m, codes, mi);
  }

  // ---- class attributes --------------------------------------------------

  lemma {:induction false} BootstrapsRefused(cls: seq<byte>, n: nat, pos: nat)
    requires SkipBootstrap(cls, n, pos).Err?
    ensures SkipBootstrap(cls, n, pos) == Err(Truncated)
    decreases n
  {
    if ReadU16(cls, pos + 2).Ok? && Seek(cls, pos + 4 + 2 * ReadU16(cls, pos + 2).value as int).Ok? {
      BootstrapsRefused(cls, n - 1, pos + 4 + 2 * ReadU16(cls, pos + 2).value as int);
    }
  }

  ghost predicate AttrFault(t: Tail, e: LinkError) {
    e == Truncated || (e == BadBootstrapMethods && exists at, len, args, end :: BootstrapsPass(t, at, len, args, end))
  }

  lemma ClassAttrRefused(cp: CpView, t: Tail, name: nat, len: nat, at: nat, a: ClassAttrs)
    requires ClassAttr(t.file, cp, name, len, t.base + at + 6, a).Err?
    ensures AttrFault(t, ClassAttr(t.file, cp, name, len, t.base + at + 6, a).error)
  {
    hide Utf8, SkipBootstrap, BootstrapsLie;
    if Utf8(cp, name) == Some(BOOTSTRAP_METHODS) && U16(t, at + 6).Some? {
      var n := U16(t, at + 6).value;
      if SkipBootstrap(t.file, n, t.base + at + 8).Err? {
        BootstrapsRefused(t.file, n, t.base + at + 8);
      } else {
        var args, end := BootstrapsRead(t, n, at + 8);
        if end > at + 6 + len {
          assert BootstrapsPass(t, at, len, args, end);
        }
      }
    }
  }

  lemma {:induction false} ClassAttrsRefused(cp: CpView, t: Tail, n: nat, p: nat, a: ClassAttrs)
    requires ClassAttrsFrom(t.file, cp, n, t.base + p, a).Err?
    ensures AttrFault(t, ClassAttrsFrom(t.file, cp, n, t.base + p, a).error)
    decreases n
  {
    hide ClassAttr, BootstrapsPass;
    if ReadU16(t.file, t.base + p).Ok? && ReadU32(t.file, t.base + p + 2).Ok? {
      var name, len := ReadU16(t.file, t.base + p).value, ReadU32(t.file, t.base + p + 2).value;
      var after := ClassAttr(t.file, cp, name, len, t.base + p + 6, a);
      if after.Err? {
        ClassAttrRefused(cp, t, name, len, p, a);
      } else if Seek(t.file, t.base + p + 6 + len).Ok? {
        ClassAttrsRefused(cp, t, n - 1, p + 6 + len, after.value);
      }
    }
  }

  // ---- the whole derivation ----------------------------------------------

  lemma FaultKinds(env: Env, cs: seq<Constant>, t: Tail, b: Body, e: LinkError)
    requires NotUtf8(env, cs, e) || CodeFault(t, e) || AttrFault(t, e)
    ensures Fault(env, cs, t, b, e)
  {
    hide IllegalAt, BootstrapsPass;
  }

  lemma AllMethodsRefused(env: Env, cp: CpView, cs: seq<Constant>, t: Tail, b: Body, l: Layout, e: LinkError)
    requires Shows(t.file, cp, cs) && |cs| <= 65535 && MembersPart(t, b)
    requires DeriveMethods(env, t.file, cp, l, |b.methods|, 0, t.base + b.fieldsEnd + 2).outcome == Err(e)
    ensures Fault(env, cs, t, b, e)
  {
    hide Shows, MembersLie, DeriveMethods, Unnamed, TakesParams, NamesMethod, NotUtf8, CodeFault, AttrFault, Fault;
    MethodsRefused(env, cp, cs, t, l, b.methods, |b.methods|, 0, b.fieldsEnd + 2, b.methodsEnd);
    IfacesCount(t, b);
    if NotUtf8(env, cs, e) || CodeFault(t, e) {
      FaultKinds(env, cs, t, b, e);
    } else {
      var k :| 0 <= k < |b.methods| && e == BadMember(AsU16(0 + k)) && Unnamed(cs, t, b.methods[k].at);
      SmallAsU16(k);
      MemberFault(env, cs, t, b, k);
    }
  }

  lemma MemberFault(env: Env, cs: seq<Constant>, t: Tail, b: Body, k: nat)
    requires k < |b.methods| && k < 0x1_0000 && Unnamed(cs, t, b.methods[k].at)
    ensures Fault(env, cs, t, b, BadMember(k))
  {
    hide Unnamed;
  }

  lemma TailRefused(env: Env, cp: CpView, cs: seq<Constant>, t: Tail, b: Body, n: Counts, l: Layout, head: Head, own: nat, e: LinkError)
    requires DeriveTail(t.file, cp, n, l, head, own, t.base + b.methodsEnd).outcome == Err(e)
    ensures Fault(env, cs, t, b, e)
  {
    hide ClassAttrsFrom, HeaderPuts, PadPuts, BootstrapsPass, Fault;
    if ReadU16(t.file, t.base + b.methodsEnd).Ok? {
      ClassAttrsRefused(cp, t, ReadU16(t.file, t.base + b.methodsEnd).value, b.methodsEnd + 2, NOTHING);
    }
    FaultKinds(env, cs, t, b, e);
  }

  lemma FromMethodsRefused(env: Env, cp: CpView, cs: seq<Constant>, t: Tail, b: Body, n: Counts, l: Layout, head: Head, own: nat,
                           e: LinkError)
    requires Shows(t.file, cp, cs) && |cs| <= 65535 && MembersPart(t, b) && n.methods == |b.methods|
    requires DeriveFromMethods(env, t.file, cp, n, l, head, own, t.base + b.fieldsEnd).outcome == Err(e)
    ensures Fault(env, cs, t, b, e)
  {
    hide Shows, MembersLie, DeriveMethods, DeriveTail, Fault, MethodsLink;
    var d := DeriveMethods(env, t.file, cp, l, |b.methods|, 0, t.base + b.fieldsEnd + 2);
    if d.outcome.Err? {
      AllMethodsRefused(env, cp, cs, t, b, l, e);
    } else {
      var codes := MethodsTaken(env, cp, cs, t, l, b.methods, |b.methods|, 0, b.fieldsEnd + 2, b.methodsEnd);
      MethodsDerived(env, cp, cs, t, l, b.methods, codes, |b.methods|, 0, b.fieldsEnd + 2, b.methodsEnd);
      TailRefused(env, cp, cs, t, b, n, l, head, own, e);
    }
  }

  lemma FromFieldsRefused(env: Env, cp: CpView, cs: seq<Constant>, t: Tail, b: Body, n: Counts, l: Layout, head: Head, e: LinkError)
    requires Shows(t.file, cp, cs) && |cs| <= 65535 && MembersPart(t, b) && Counted(n, t, b)
    requires DeriveFromFields(env, t.file, cp, n, l, head, t.base + 8 + 2 * |b.ifaces|).outcome == Err(e)
    ensures Fault(env, cs, t, b, e)
  {
    hide Shows, MembersLie, DeriveFields, DeriveFromMethods, Fault, FieldsLink, Members, OwnSlots;
    FieldsCome(env, cp, cs, t, b, l);
    var d := DeriveFields(env, t.file, cp, l, |b.fields|, 0, FieldsEnd(t.base + 8 + 2 * |b.ifaces| + 2, 0, 0, 0));
    if d.outcome.Err? {
      AllFieldsRefused(env, cp, cs, t, b, l, e);
    } else {
      FromMethodsRefused(env, cp, cs, t, b, n, l, head, OwnSlots(cs, b), e);
    }
  }

  lemma MembersRefused(env: Env, cp: CpView, cs: seq<Constant>, t: Tail, b: Body, n: Counts, l: Layout, e: LinkError)
    requires Shows(t.file, cp, cs) && |cs| <= 65535 && MembersPart(t, b) && Counted(n, t, b)
    requires DeriveMembers(env, t.file, cp, n, l).outcome == Err(e)
    ensures Fault(env, cs, t, b, e)
  {
    hide Shows, MembersPart, HeadAt, DeriveIfaces, DeriveFromFields, Fault, NamesClass, HeadLinks;
    CountedParts(n, t, b);
    if HeadAt(env, t.file, cp, t.base).Err? {
      HeadRefused(env, cp, cs, t, b);
    } else {
      HeadDerived(env, cp, cs, t, b);
      var head := HeadAt(env, t.file, cp, t.base).value;
      var d := DeriveIfaces(env, t.file, cp, l, |b.ifaces|, 0, t.base + 8 + 2 * 0);
      if d.outcome.Err? {
        IfacesRefused(env, cp, cs, t, b, l, 0);
      } else {
        IfacesDerived(env, cp, cs, t, b, l, 0);
        FromFieldsRefused(env, cp, cs, t, b, n, l, head, e);
      }
    }
  }

  lemma ThenRefuses(first: Derived<()>, next: Derived<()>)
    ensures var d := Then(first, next);
      && (first.outcome.Err? ==> d.outcome == Err(first.outcome.error))
      && (first.outcome.Ok? ==> d.outcome == next.outcome)
  {
  }

  /** The first pass that fails says why. */
  lemma PassRefuses(env: Env, cls: seq<byte>, cp: CpView, n: Counts, l: Layout, e: LinkError)
    requires DeriveTable(env, cls, cp, n, l).outcome == Err(e) && DeriveCp(cp, n, l, 0, 0, 0, 0).outcome.Ok?
    ensures || DeriveMrefs(cls, cp, n, l, 0, 0).outcome == Err(e) || DeriveStrs(cls, cp, n, l, 0, 0).outcome == Err(e)
            || CheckNames(env, cls, cp, n, 0) == Err(e) || DeriveMembers(env, cls, cp, n, l).outcome == Err(e)
  {
    hide DeriveCp, DeriveMrefs, DeriveStrs, CheckNames, DeriveMembers, Then;
    var members := DeriveMembers(env, cls, cp, n, l);
    var checks := Derived([], CheckNames(env, cls, cp, n, 0));
    var strs, mrefs := DeriveStrs(cls, cp, n, l, 0, 0), DeriveMrefs(cls, cp, n, l, 0, 0);
    ThenRefuses(checks, members);
    ThenRefuses(strs, Then(checks, members));
    ThenRefuses(mrefs, Then(strs, Then(checks, members)));
    ThenRefuses(DeriveCp(cp, n, l, 0, 0, 0, 0), Then(mrefs, Then(strs, Then(checks, members))));
  }

  lemma NoneAmong(cs: seq<Constant>)
    ensures MethodsAmong(cs, 0) == 0 && StringsAmong(cs, 0) == 0
  {
  }

  /** A class that survey and layout take and `derive` refuses has the fault
      that the refusal names. */
  lemma RefusalNamesFault(env: Env, cp: CpView, cs: seq<Constant>, t: Tail, b: Body, l: Layout, e: LinkError)
    requires Shows(t.file, cp, cs) && |cs| <= 65535 && MembersPart(t, b)
    requires DeriveTable(env, t.file, cp, CountsOf(cp, |cs|, t, b), l).outcome == Err(e)
    ensures Fault(env, cs, t, b, e)
  {
    hide Shows, MembersPart, DeriveTable, DeriveCp, DeriveMrefs, DeriveStrs, CheckNames, DeriveMembers, Fault, MrefsUpTo, StrsUpTo,
         Members, MethodsAmong, StringsAmong, Counted;
    var n := CountsOf(cp, |cs|, t, b);
    MrefsCount(t.file, cp, cs, |cs|);
    NoneAmong(cs);
    CountsCounted(cp, |cs|, t, b);
    EntriesDerived(t.file, cp, cs, n, l, 0, 0, 0, 0);
    PassRefuses(env, t.file, cp, n, l, e);
    if DeriveMrefs(t.file, cp, n, l, 0, 0).outcome == Err(e) {
      MrefsRefused(env, t.file, cp, cs, t, b, n, l, 0);
    } else if DeriveStrs(t.file, cp, n, l, 0, 0).outcome == Err(e) {
      StringsRefused(env, t.file, cp, cs, t, b, n, l, 0);
    } else if CheckNames(env, t.file, cp, n, 0) == Err(e) {
      NamesRefused(env, t.file, cp, cs, t, b, n, 0);
    } else {
      MembersRefused(env, cp, cs, t, b, n, l, e);
    }
  }
}
