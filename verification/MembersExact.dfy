/** The class's own words, its interfaces, fields and attributes in the
    derivation, and with the passes over the constant pool and the methods the
    whole of it: it succeeds exactly on linkable classes, and a table that agrees
    with it says what the class file says. */
module MembersExact {
  import opened Bytes
  import opened ClassFile
  import opened ClassSpec
  import opened ConstantsExact
  import opened MethodsExact
  import opened Sinks
  import opened SurveyExact

  // ---- the class itself --------------------------------------------------

  ghost predicate HeadLinks(env: Env, cs: seq<Constant>, b: Body) {
    NamesClass(env, cs, b.thisClass) && (b.superClass == 0 || NamesClass(env, cs, b.superClass))
  }

  /** What is read of the class's own words. */
  ghost predicate HeadIs(env: Env, cp: CpView, cs: seq<Constant>, t: Tail, b: Body, head: Head) {
    && head.access == b.access && head.ifaces == |b.ifaces| && head.pos == t.base + 8
    && ClassNameRef(env, t.file, cp, b.thisClass) == Ok(head.name)
    && (if b.superClass == 0 then head.super == NameRef(0, 0)
        else ClassNameRef(env, t.file, cp, b.superClass) == Ok(head.super))
  }

  lemma HeadDerived(env: Env, cp: CpView, cs: seq<Constant>, t: Tail, b: Body)
    requires Shows(t.file, cp, cs) && MembersPart(t, b)
    ensures HeadAt(env, t.file, cp, t.base).Ok? <==> HeadLinks(env, cs, b)
    ensures HeadAt(env, t.file, cp, t.base).Ok? ==> HeadIs(env, cp, cs, t, b, HeadAt(env, t.file, cp, t.base).value)
  {
    hide Shows, ClassNameRef, NamesClass, MemberTable;
    ClassNamed(env, t.file, cp, cs, b.thisClass);
    ClassNamed(env, t.file, cp, cs, b.superClass);
  }

  // ---- interfaces --------------------------------------------------------

  lemma IfaceDerived(env: Env, cp: CpView, cs: seq<Constant>, t: Tail, p: nat, j: nat, i: nat)
    requires Shows(t.file, cp, cs) && U16(t, p) == Some(i)
    ensures IfaceAt(env, t.file, cp, j, t.base + p).Ok? <==> NamesClass(env, cs, i)
    ensures IfaceAt(env, t.file, cp, j, t.base + p).Ok? ==>
      IfaceAt(env, t.file, cp, j, t.base + p) == ClassNameRef(env, t.file, cp, i)
  {
    hide Shows, ClassNameRef, NamesClass;
    ClassNamed(env, t.file, cp, cs, i);
  }

  lemma {:induction false} IfacesDerived(env: Env, cp: CpView, cs: seq<Constant>, t: Tail, b: Body, l: Layout, j: nat)
    requires Shows(t.file, cp, cs) && MembersPart(t, b) && j <= |b.ifaces|
    ensures var d := DeriveIfaces(env, t.file, cp, l, |b.ifaces|, j, t.base + 8 + 2 * j);
      && (d.outcome.Ok? <==> forall k | j <= k < |b.ifaces| :: NamesClass(env, cs, b.ifaces[k]))
      && (d.outcome.Ok? ==> d.outcome == Ok(t.base + 8 + 2 * |b.ifaces|))
    decreases |b.ifaces| - j
  {
    hide Shows, IfaceAt, NamesClass, MemberTable;
    if j < |b.ifaces| {
      IfaceDerived(env, cp, cs, t, 8 + 2 * j, j, b.ifaces[j]);
      IfacesDerived(env, cp, cs, t, b, l, j + 1);
    }
  }

  /** A class named in a table: the ref its name's entry has, and its hash. */
  lemma ClassWordsHeld(env: Env, cp: CpView, cs: seq<Constant>, t: Tail, i: nat, words: seq<u16>, ref: nat, hash: nat)
    requires Shows(t.file, cp, cs) && ClassNameRef(env, t.file, cp, i).Ok?
    requires TextWords(cp, cs, words)
    requires var r := ClassNameRef(env, t.file, cp, i).value;
      ref < |words| && words[ref] == AsU16(r.r) && Holds32(words, hash, r.hash)
    ensures ClassWords(env, cs, i, words, ref, hash)
  {
    hide Shows, ClassNameRef;
    ClassNamed(env, t.file, cp, cs, i);
    EntryShown(t.file, cp, cs, cs[i].name);
  }

  /** The word of each `Utf8` is its ref. */
  ghost predicate TextWords(cp: CpView, cs: seq<Constant>, words: seq<u16>) {
    && |cp.offsets| == |cs|
    && forall i | 0 <= i < |cs| && cs[i].ConstText? :: 26 + i < |words| && Some(words[26 + i]) == cp.offsets[i]
  }

  lemma IfacePut(l: Layout, k: nat, r: NameRef, words: seq<u16>)
    requires Agrees(words, IfacePuts(l, k, r))
    ensures var w := l.ifacesOff + 3 * k; w < |words| && words[w] == AsU16(r.r) && Holds32(words, w + 1, r.hash)
  {
    var w := l.ifacesOff + 3 * k;
    var ps := IfacePuts(l, k, r);
    assert ps == [Put(w, AsU16(r.r))] + Put32(w + 1, r.hash);
    AgreesConcat(words, [Put(w, AsU16(r.r))], Put32(w + 1, r.hash));
    Put32Held(words, w + 1, r.hash);
    assert ps[0].word == w;
  }

  lemma {:induction false} IfacesHeld(
    env: Env, cp: CpView, cs: seq<Constant>, t: Tail, b: Body, l: Layout, j: nat, k: nat, words: seq<u16>)
    requires Shows(t.file, cp, cs) && MembersPart(t, b) && j <= k < |b.ifaces| && TextWords(cp, cs, words)
    requires var d := DeriveIfaces(env, t.file, cp, l, |b.ifaces|, j, t.base + 8 + 2 * j);
      d.outcome.Ok? && Agrees(words, d.puts)
    ensures ClassWords(env, cs, b.ifaces[k], words, l.ifacesOff + 3 * k, l.ifacesOff + 3 * k + 1)
    decreases k - j
  {
    hide Shows, IfaceAt, NamesClass, MemberTable, ClassNameRef, TextWords, Agrees, IfacePuts, ClassWords, Holds32;
    IfaceDerived(env, cp, cs, t, 8 + 2 * j, j, b.ifaces[j]);
    var r := IfaceAt(env, t.file, cp, j, t.base + 8 + 2 * j).value;
    AgreesConcat(words, IfacePuts(l, j, r), DeriveIfaces(env, t.file, cp, l, |b.ifaces|, j + 1, t.base + 8 + 2 * j + 2).puts);
    if j == k {
      IfacePut(l, k, r, words);
      ClassWordsHeld(env, cp, cs, t, b.ifaces[k], words, l.ifacesOff + 3 * k, l.ifacesOff + 3 * k + 1);
    } else {
      IfacesHeld(env, cp, cs, t, b, l, j + 1, k, words);
    }
  }

  // ---- fields ------------------------------------------------------------

  lemma KindAlike(desc: seq<byte>)
    ensures FieldKind(desc) == StorageOf(desc)
    ensures KindSlots(FieldKind(desc)) == if StorageOf(desc) in [3, 4] then 2 else 1
  {
  }

  function Width(cs: seq<Constant>, m: Member): nat { if StorageIn(cs, m) in [3, 4] then 2 else 1 }

  lemma FieldDerived(env: Env, cp: CpView, cs: seq<Constant>, t: Tail, m: Member, j: nat)
    requires Shows(t.file, cp, cs) && MemberLies(t, m)
    ensures FieldAt(env, t.file, cp, j, t.base + m.at).Ok? <==> IsName(env, cs, m.name) && IsName(env, cs, m.desc)
    ensures FieldAt(env, t.file, cp, j, t.base + m.at).Ok? ==>
      var f := FieldAt(env, t.file, cp, j, t.base + m.at).value;
      && f.isStatic == StaticMember(m) && f.name == m.name && f.desc == m.desc && f.next == t.base + m.end
      && f.kind == StorageIn(cs, m) && KindSlots(f.kind) == Width(cs, m)
  {
    hide Shows, AttrTable, SkipAttrs, TextOf, Utf8, FieldKind, StorageOf, KindSlots, IsStatic, StaticMember;
    AttrTableSkipped(t, m.attrs, m.at + 6, m.end);
    NameChecked(env, t.file, cp, cs, m.name, Internal);
    NameChecked(env, t.file, cp, cs, m.desc, Internal);
    TextShown(t.file, cp, cs, m.name);
    TextShown(t.file, cp, cs, m.desc);
    StaticAlike(m, U16(t, m.at).value);
    if TextOf(cs, m.desc).Some? {
      KindAlike(TextOf(cs, m.desc).value);
    }
  }

  /** Slots counted from the front. */
  function SlotsFrom(cs: seq<Constant>, ms: seq<Member>): nat {
    if ms == [] then 0 else Width(cs, ms[0]) + SlotsFrom(cs, ms[1..])
  }

  lemma {:induction false} SlotsToCons(cs: seq<Constant>, m: Member, ms: seq<Member>, k: nat)
    requires k <= |ms|
    ensures SlotsTo(cs, [m] + ms, k + 1) == Width(cs, m) + SlotsTo(cs, ms, k)
  {
    hide StorageIn;
    assert ([m] + ms)[k] == if k == 0 then m else ms[k - 1];
    if k > 0 {
      SlotsToCons(cs, m, ms, k - 1);
    }
  }

  lemma {:induction false} SlotsBothWays(cs: seq<Constant>, ms: seq<Member>)
    ensures SlotsTo(cs, ms, |ms|) == SlotsFrom(cs, ms)
  {
    if ms != [] {
      SlotsBothWays(cs, ms[1..]);
      SlotsToCons(cs, ms[0], ms[1..], |ms| - 1);
      assert [ms[0]] + ms[1..] == ms;
    }
  }

  ghost predicate NamesOk(env: Env, cs: seq<Constant>, ms: seq<Member>) {
    forall j | 0 <= j < |ms| :: IsName(env, cs, ms[j].name) && IsName(env, cs, ms[j].desc)
  }

  /** The slots and statics after these fields stay in bounds. */
  ghost predicate SlotsOk(cs: seq<Constant>, ms: seq<Member>, own: nat, si: nat) {
    own + SlotsFrom(cs, Members(ms, false)) <= 0x0FFF && si + |Members(ms, true)| <= 0x1000
  }

  /** What the field loop has counted after these fields. */
  function After(cs: seq<Constant>, t: Tail, ms: seq<Member>, at: FieldsEnd, end: nat): FieldsEnd {
    FieldsEnd(t.base + end, at.fi + |Members(ms, false)|, at.si + |Members(ms, true)|,
              at.own + SlotsFrom(cs, Members(ms, false)))
  }

  /** One turn of the field loop. */
  function Next(cs: seq<Constant>, t: Tail, m: Member, at: FieldsEnd): FieldsEnd {
    if StaticMember(m) then FieldsEnd(t.base + m.end, at.fi, at.si + 1, at.own)
    else FieldsEnd(t.base + m.end, at.fi + 1, at.si, at.own + Width(cs, m))
  }

  lemma FieldsStep(env: Env, cp: CpView, cs: seq<Constant>, t: Tail, l: Layout, m: Member, count: nat, j: nat, at: FieldsEnd)
    requires Shows(t.file, cp, cs) && MemberLies(t, m) && j < count && at.pos == t.base + m.at
    requires at.own <= 0x0FFF && at.si <= 0x1000
    ensures var d := DeriveFields(env, t.file, cp, l, count, j, at);
      var rest := DeriveFields(env, t.file, cp, l, count, j + 1, Next(cs, t, m, at));
      if IsName(env, cs, m.name) && IsName(env, cs, m.desc)
         && Next(cs, t, m, at).own <= 0x0FFF && Next(cs, t, m, at).si <= 0x1000 then
        && d.outcome == rest.outcome
        && (forall words: seq<u16> :: Agrees(words, d.puts) ==>
              Agrees(words, rest.puts)
              && FieldRecord(cs, m, if StaticMember(m) then at.si else at.own, words,
                             if StaticMember(m) then l.staticsOff + 3 * at.si else l.fieldsOff + 3 * at.fi))
      else d.outcome.Err?
  {
    hide Shows, MemberLies, StorageIn, IsName, StaticMember, KindSlots, Agrees, FieldRecord;
    FieldDerived(env, cp, cs, t, m, j);
    if FieldAt(env, t.file, cp, j, at.pos).Ok? {
      var f := FieldAt(env, t.file, cp, j, at.pos).value;
      var rest := DeriveFields(env, t.file, cp, l, count, j + 1, NextField(f, at));
      if FieldSlot(f, at) <= MAX_OWN_SLOTS && NextField(f, at).own <= MAX_OWN_SLOTS {
        forall words: seq<u16> | Agrees(words, FieldPuts(l, f, at) + rest.puts)
          ensures Agrees(words, rest.puts)
          ensures FieldRecord(cs, m, if StaticMember(m) then at.si else at.own, words,
                              if StaticMember(m) then l.staticsOff + 3 * at.si else l.fieldsOff + 3 * at.fi)
        {
          AgreesConcat(words, FieldPuts(l, f, at), rest.puts);
          FieldHeld(cs, m, l, f, at, words);
        }
      }
    }
  }

  lemma FieldHeld(cs: seq<Constant>, m: Member, l: Layout, f: Field, at: FieldsEnd, words: seq<u16>)
    requires f.isStatic == StaticMember(m) && f.name == m.name && f.desc == m.desc && f.kind == StorageIn(cs, m) < 16
    requires FieldSlot(f, at) <= 0x0FFF && Agrees(words, FieldPuts(l, f, at))
    ensures FieldRecord(cs, m, if StaticMember(m) then at.si else at.own, words,
                        if StaticMember(m) then l.staticsOff + 3 * at.si else l.fieldsOff + 3 * at.fi)
  {
    hide StaticMember, StorageIn;
    var w := if f.isStatic then l.staticsOff + 3 * at.si else l.fieldsOff + 3 * at.fi;
    var ps := FieldPuts(l, f, at);
    assert ps[0].word == w && ps[1].word == w + 1 && ps[2].word == w + 2;
    SmallAsU16(FieldSlot(f, at) + 0x1000 * f.kind);
  }

  lemma MembersStep(cs: seq<Constant>, t: Tail, ms: seq<Member>, at: FieldsEnd, end: nat)
    requires ms != []
    ensures After(cs, t, ms, at, end) == After(cs, t, ms[1..], Next(cs, t, ms[0], at), end)
    ensures forall own: nat, si: nat :: SlotsOk(cs, ms, own, si) ==> own + (if StaticMember(ms[0]) then 0 else Width(cs, ms[0])) <= 0x0FFF
    ensures SlotsOk(cs, ms, at.own, at.si) <==> SlotsOk(cs, ms[1..], Next(cs, t, ms[0], at).own, Next(cs, t, ms[0], at).si)
  {
    hide Width, StaticMember;
    var rest := Members(ms[1..], false);
    if !StaticMember(ms[0]) {
      assert ([ms[0]] + rest)[1..] == rest;
    } else {
      assert [] + rest == rest;
    }
  }

  lemma {:induction false} FieldsDerived(env: Env, cp: CpView, cs: seq<Constant>, t: Tail, l: Layout, ms: seq<Member>,
                                         count: nat, j: nat, at: FieldsEnd, p: nat, end: nat)
    requires Shows(t.file, cp, cs) && MembersLie(t, ms, p, end) && count == j + |ms| && at.pos == t.base + p
    requires at.own <= 0x0FFF && at.si <= 0x1000
    ensures var d := DeriveFields(env, t.file, cp, l, count, j, at);
      && (d.outcome.Ok? <==> NamesOk(env, cs, ms) && SlotsOk(cs, ms, at.own, at.si))
      && (d.outcome.Ok? ==> d.outcome == Ok(After(cs, t, ms, at, end)))
    decreases |ms|
  {
    hide Shows, MemberLies, IsName, StaticMember, Width, DeriveFields, Agrees, FieldRecord, SlotsOk, After;
    if ms == [] {
      NoneLeft(env, cp, cs, t, l, count, at, end);
    } else {
      FirstMember(t, ms, p, end);
      FieldsStep(env, cp, cs, t, l, ms[0], count, j, at);
      MembersStep(cs, t, ms, at, end);
      var next := Next(cs, t, ms[0], at);
      if next.own <= 0x0FFF && next.si <= 0x1000 {
        FieldsDerived(env, cp, cs, t, l, ms[1..], count, j + 1, next, ms[0].end, end);
      } else {
        OverIsOver(cs, ms[1..], next.own, next.si);
      }
      NamesFirst(env, cs, ms);
    }
  }

  lemma NamesFirst(env: Env, cs: seq<Constant>, ms: seq<Member>)
    requires ms != []
    ensures NamesOk(env, cs, ms) <==>
      IsName(env, cs, ms[0].name) && IsName(env, cs, ms[0].desc) && NamesOk(env, cs, ms[1..])
  {
    hide IsName;
    assert forall k | 0 <= k < |ms| - 1 :: ms[1..][k] == ms[k + 1];
    if IsName(env, cs, ms[0].name) && IsName(env, cs, ms[0].desc) && NamesOk(env, cs, ms[1..]) {
      forall k | 0 <= k < |ms|
        ensures IsName(env, cs, ms[k].name) && IsName(env, cs, ms[k].desc)
      {
        if k > 0 {
          assert ms[1..][k - 1] == ms[k];
        }
      }
    }
  }

  lemma NoneLeft(env: Env, cp: CpView, cs: seq<Constant>, t: Tail, l: Layout, count: nat, at: FieldsEnd, end: nat)
    requires at.pos == t.base + end && at.own <= 0x0FFF && at.si <= 0x1000
    ensures DeriveFields(env, t.file, cp, l, count, count, at).outcome == Ok(After(cs, t, [], at, end))
    ensures SlotsOk(cs, [], at.own, at.si) && NamesOk(env, cs, [])
  {
  }

  lemma OverIsOver(cs: seq<Constant>, ms: seq<Member>, own: nat, si: nat)
    requires own > 0x0FFF || si > 0x1000
    ensures !SlotsOk(cs, ms, own, si)
  {
  }

  lemma MembersFirst(ms: seq<Member>, stat: bool)
    requires ms != []
    ensures Members(ms, stat) == if StaticMember(ms[0]) == stat then [ms[0]] + Members(ms[1..], stat) else Members(ms[1..], stat)
  {
  }

  /** Each field's record, in an agreeing table: those of one kind among `ms`,
      the first of them the `from`th of its region, `base` slots before it. */
  ghost predicate Recorded(cs: seq<Constant>, ms: seq<Member>, inst: bool, words: seq<u16>, off: nat, from: nat, base: nat) {
    if inst then
      forall k | 0 <= k < |ms| :: FieldRecord(cs, ms[k], base + SlotsTo(cs, ms, k), words, off + 3 * (from + k))
    else forall k | 0 <= k < |ms| :: FieldRecord(cs, ms[k], base + k, words, off + 3 * (from + k))
  }

  lemma InstanceCons(cs: seq<Constant>, m: Member, ms: seq<Member>, words: seq<u16>, off: nat, from: nat, base: nat)
    requires FieldRecord(cs, m, base, words, off + 3 * from)
    requires Recorded(cs, ms, true, words, off, from + 1, base + Width(cs, m))
    ensures Recorded(cs, [m] + ms, true, words, off, from, base)
  {
    hide FieldRecord, Width, SlotsTo;
    var all := [m] + ms;
    forall k | 0 <= k < |all|
      ensures FieldRecord(cs, all[k], base + SlotsTo(cs, all, k), words, off + 3 * (from + k))
    {
      if k == 0 {
        NoSlots(cs, all);
      } else {
        SlotsToCons(cs, m, ms, k - 1);
        assert all[k] == ms[k - 1] && from + 1 + (k - 1) == from + k;
      }
    }
  }

  lemma NoSlots(cs: seq<Constant>, ms: seq<Member>)
    ensures SlotsTo(cs, ms, 0) == 0
  {
  }

  lemma StaticCons(cs: seq<Constant>, m: Member, ms: seq<Member>, words: seq<u16>, off: nat, from: nat, base: nat)
    requires FieldRecord(cs, m, base, words, off + 3 * from)
    requires Recorded(cs, ms, false, words, off, from + 1, base + 1)
    ensures Recorded(cs, [m] + ms, false, words, off, from, base)
  {
    hide FieldRecord, Width, SlotsTo;
    var all := [m] + ms;
    forall k | 0 < k < |all|
      ensures FieldRecord(cs, all[k], base + k, words, off + 3 * (from + k))
    {
      assert all[k] == ms[k - 1] && from + 1 + (k - 1) == from + k;
    }
  }

  lemma {:induction false} FieldsHeld(env: Env, cp: CpView, cs: seq<Constant>, t: Tail, l: Layout, ms: seq<Member>,
                                      count: nat, j: nat, at: FieldsEnd, p: nat, end: nat, words: seq<u16>)
    requires Shows(t.file, cp, cs) && MembersLie(t, ms, p, end) && count == j + |ms| && at.pos == t.base + p
    requires at.own <= 0x0FFF && at.si <= 0x1000
    requires var d := DeriveFields(env, t.file, cp, l, count, j, at); d.outcome.Ok? && Agrees(words, d.puts)
    ensures Recorded(cs, Members(ms, false), true, words, l.fieldsOff, at.fi, at.own)
    ensures Recorded(cs, Members(ms, true), false, words, l.staticsOff, at.si, at.si)
    decreases |ms|
  {
    hide Shows, MemberLies, IsName, StaticMember, Width, DeriveFields, Agrees, FieldRecord, Recorded;
    if ms == [] {
      NoneRecorded(cs, words, l, at);
    } else {
      FirstMember(t, ms, p, end);
      FieldsStep(env, cp, cs, t, l, ms[0], count, j, at);
      var next := Next(cs, t, ms[0], at);
      FieldsHeld(env, cp, cs, t, l, ms[1..], count, j + 1, next, ms[0].end, end, words);
      MembersFirst(ms, false);
      MembersFirst(ms, true);
      if StaticMember(ms[0]) {
        StaticCons(cs, ms[0], Members(ms[1..], true), words, l.staticsOff, at.si, at.si);
      } else {
        InstanceCons(cs, ms[0], Members(ms[1..], false), words, l.fieldsOff, at.fi, at.own);
      }
    }
  }

  lemma NoneRecorded(cs: seq<Constant>, words: seq<u16>, l: Layout, at: FieldsEnd)
    ensures Recorded(cs, Members([], false), true, words, l.fieldsOff, at.fi, at.own)
    ensures Recorded(cs, Members([], true), false, words, l.staticsOff, at.si, at.si)
  {
  }

  // ---- class attributes --------------------------------------------------

  lemma {:induction false} BootstrapsDerived(t: Tail, args: seq<nat>, p: nat, end: nat)
    requires BootstrapsLie(t, args, p, end)
    ensures SkipBootstrap(t.file, |args|, t.base + p) == Ok(t.base + end)
    decreases |args|
  {
    if args != [] {
      BootstrapsDerived(t, args[1..], p + 4 + 2 * args[0], end);
    }
  }

  lemma {:induction false} BootstrapsRead(t: Tail, n: nat, p: nat) returns (args: seq<nat>, end: nat)
    requires SkipBootstrap(t.file, n, t.base + p).Ok?
    ensures |args| == n && BootstrapsLie(t, args, p, end)
    ensures SkipBootstrap(t.file, n, t.base + p) == Ok(t.base + end)
  {
    if n == 0 {
      args, end := [], p;
    } else {
      var first: nat := ReadU16(t.file, t.base + p + 2).value;
      args, end := BootstrapsRead(t, n - 1, p + 4 + 2 * first);
      var all := [first] + args;
      assert all[1..] == args;
      args := all;
    }
  }

  /** The `Utf8` index in the last `SourceFile` found so far. */
  function SourceFrom(cs: seq<Constant>, t: Tail, attrs: seq<Attr>, w: u16): u16 {
    if attrs == [] then w
    else
      SourceFrom(cs, t, attrs[1..],
                 if IsSourceFile(cs, attrs[0]) && U16(t, attrs[0].at + 6).Some? then U16(t, attrs[0].at + 6).value else w)
  }

  function Found(cs: seq<Constant>, t: Tail, attrs: seq<Attr>, a: ClassAttrs): ClassAttrs {
    ClassAttrs(LastFrom(cs, t, attrs, BOOTSTRAP_ATTR, 6, a.bsm), SourceFrom(cs, t, attrs, a.sourceFile))
  }

  lemma TwoNames(cs: seq<Constant>, a: Attr)
    ensures !(Named(cs, a, BOOTSTRAP_ATTR) && Named(cs, a, SOURCE_ATTR))
  {
    assert |BOOTSTRAP_ATTR| != |SOURCE_ATTR|;
  }

  lemma FoundOne(cs: seq<Constant>, t: Tail, x: Attr, a: ClassAttrs)
    ensures Found(cs, t, [x], a)
            == ClassAttrs(if Named(cs, x, BOOTSTRAP_ATTR) then t.base + x.at + 6 else a.bsm,
                          if IsSourceFile(cs, x) && U16(t, x.at + 6).Some? then U16(t, x.at + 6).value else a.sourceFile)
  {
    hide Named, U16, IsSourceFile;
    var one := [x];
    assert one[0] == x && one[1..] == [];
    LastOne(cs, t, one, a.bsm);
    SourceOne(cs, t, one, a.sourceFile);
  }

  lemma LastOne(cs: seq<Constant>, t: Tail, attrs: seq<Attr>, w: nat)
    requires attrs != []
    ensures LastFrom(cs, t, attrs, BOOTSTRAP_ATTR, 6, w)
            == LastFrom(cs, t, attrs[1..], BOOTSTRAP_ATTR, 6,
                        if Named(cs, attrs[0], BOOTSTRAP_ATTR) then t.base + attrs[0].at + 6 else w)
    ensures forall v: nat :: LastFrom(cs, t, [], BOOTSTRAP_ATTR, 6, v) == v
  {
    hide Named;
  }

  lemma SourceOne(cs: seq<Constant>, t: Tail, attrs: seq<Attr>, w: u16)
    requires attrs != []
    ensures SourceFrom(cs, t, attrs, w)
            == SourceFrom(cs, t, attrs[1..],
                          if IsSourceFile(cs, attrs[0]) && U16(t, attrs[0].at + 6).Some? then U16(t, attrs[0].at + 6).value else w)
    ensures forall v: u16 :: SourceFrom(cs, t, [], v) == v
    ensures attrs[1..] == [] ==>
      SourceFrom(cs, t, attrs, w)
      == if IsSourceFile(cs, attrs[0]) && U16(t, attrs[0].at + 6).Some? then U16(t, attrs[0].at + 6).value else w
  {
    hide IsSourceFile, U16;
  }

  lemma ClassAttrDerived(cp: CpView, cs: seq<Constant>, t: Tail, x: Attr, a: ClassAttrs)
    requires Shows(t.file, cp, cs) && Reaches(t, x.at + 6 + x.len)
    ensures var r := ClassAttr(t.file, cp, x.name, x.len, t.base + x.at + 6, a);
      && (r.Ok? <==> AttrLinks(cs, t, x))
      && (r.Ok? ==> r == Ok(Found(cs, t, [x], a)))
  {
    hide Shows, Utf8, Named, SkipBootstrap, BootstrapsLie, Found;
    FoundOne(cs, t, x, a);
    NamedAlike(cp, cs, t.file, x, BOOTSTRAP_METHODS);
    NamedAlike(cp, cs, t.file, x, SOURCE_FILE);
    TwoNames(cs, x);
    if Named(cs, x, BOOTSTRAP_ATTR) {
      if U16(t, x.at + 6).Some? && SkipBootstrap(t.file, U16(t, x.at + 6).value, t.base + x.at + 8).Ok? {
        var args, end := BootstrapsRead(t, U16(t, x.at + 6).value, x.at + 8);
        if end <= x.at + 6 + x.len {
          assert BootstrapTable(t, x, args, end);
        }
      }
      if args, end :| BootstrapTable(t, x, args, end) {
        BootstrapsDerived(t, args, x.at + 8, end);
      }
    }
  }

  lemma FoundFirst(cs: seq<Constant>, t: Tail, attrs: seq<Attr>, a: ClassAttrs)
    requires attrs != []
    ensures Found(cs, t, attrs, a) == Found(cs, t, attrs[1..], Found(cs, t, [attrs[0]], a))
  {
    hide Named, IsSourceFile, U16;
    FoundOne(cs, t, attrs[0], a);
    LastOne(cs, t, attrs, a.bsm);
    SourceOne(cs, t, attrs, a.sourceFile);
  }

  lemma {:induction false} ClassAttrsDerived(
    cp: CpView, cs: seq<Constant>, t: Tail, attrs: seq<Attr>, p: nat, end: nat, a: ClassAttrs)
    requires Shows(t.file, cp, cs) && AttrsLie(t, attrs, p, end)
    ensures var r := ClassAttrsFrom(t.file, cp, |attrs|, t.base + p, a);
      && (r.Ok? <==> forall j | 0 <= j < |attrs| :: AttrLinks(cs, t, attrs[j]))
      && (r.Ok? ==> r == Ok(Found(cs, t, attrs, a)))
    decreases |attrs|
  {
    hide Shows, ClassAttr, AttrLinks, Found, U16, U32;
    if attrs == [] {
      FoundNone(cs, t, a);
    } else {
      var x := attrs[0];
      AttrFields(t, attrs, p, end);
      AttrReaches(t, attrs, p, end);
      ClassAttrDerived(cp, cs, t, x, a);
      FoundFirst(cs, t, attrs, a);
      LinksFirst(cs, t, attrs);
      ClassAttrsDerived(cp, cs, t, attrs[1..], p + 6 + x.len, end, Found(cs, t, [x], a));
    }
  }

  lemma AttrReaches(t: Tail, attrs: seq<Attr>, p: nat, end: nat)
    requires AttrsLie(t, attrs, p, end) && attrs != []
    ensures Reaches(t, attrs[0].at + 6 + attrs[0].len)
  {
  }

  lemma LinksFirst(cs: seq<Constant>, t: Tail, attrs: seq<Attr>)
    requires attrs != []
    ensures (forall j | 0 <= j < |attrs| :: AttrLinks(cs, t, attrs[j])) <==>
      AttrLinks(cs, t, attrs[0]) && forall j | 0 <= j < |attrs[1..]| :: AttrLinks(cs, t, attrs[1..][j])
  {
    hide AttrLinks;
    if AttrLinks(cs, t, attrs[0]) && forall j | 0 <= j < |attrs[1..]| :: AttrLinks(cs, t, attrs[1..][j]) {
      forall j | 0 < j < |attrs|
        ensures AttrLinks(cs, t, attrs[j])
      {
        assert attrs[1..][j - 1] == attrs[j];
      }
    }
  }

  lemma FoundNone(cs: seq<Constant>, t: Tail, a: ClassAttrs)
    ensures Found(cs, t, [], a) == a
  {
  }

  lemma {:induction false} ClassAttrsRead(cp: CpView, t: Tail, n: nat, p: nat, a: ClassAttrs) returns (attrs: seq<Attr>, end: nat)
    requires ClassAttrsFrom(t.file, cp, n, t.base + p, a).Ok?
    ensures |attrs| == n && AttrsLie(t, attrs, p, end)
  {
    hide ClassAttr;
    if n == 0 {
      attrs, end := [], p;
    } else {
      var name: nat := ReadU16(t.file, t.base + p).value;
      var len: nat := ReadU32(t.file, t.base + p + 2).value;
      var a' := ClassAttr(t.file, cp, name, len, t.base + p + 6, a).value;
      attrs, end := ClassAttrsRead(cp, t, n - 1, p + 6 + len, a');
      var all := [Attr(p, name, len)] + attrs;
      assert all[1..] == attrs;
      attrs := all;
    }
  }

  lemma {:induction false} SourceIs(cs: seq<Constant>, t: Tail, attrs: seq<Attr>, p: nat, end: nat, w: u16)
    requires AttrsLie(t, attrs, p, end)
    ensures (forall j | 0 <= j < |attrs| :: !IsSourceFile(cs, attrs[j])) ==> SourceFrom(cs, t, attrs, w) == w
    ensures forall k | 0 <= k < |attrs| && IsSourceFile(cs, attrs[k])
                       && (forall j | k < j < |attrs| :: !IsSourceFile(cs, attrs[j])) ::
      U16(t, attrs[k].at + 6) == Some(SourceFrom(cs, t, attrs, w))
    decreases |attrs|
  {
    hide Named;
    if attrs != [] {
      var rest := attrs[1..];
      AttrReaches(t, attrs, p, end);
      assert forall j | 0 <= j < |rest| :: rest[j] == attrs[j + 1];
      var w' := if IsSourceFile(cs, attrs[0]) && U16(t, attrs[0].at + 6).Some? then U16(t, attrs[0].at + 6).value else w;
      SourceIs(cs, t, rest, p + 6 + attrs[0].len, end, w');
      forall k | 0 <= k < |attrs| && IsSourceFile(cs, attrs[k]) && (forall j | k < j < |attrs| :: !IsSourceFile(cs, attrs[j]))
        ensures U16(t, attrs[k].at + 6) == Some(SourceFrom(cs, t, attrs, w))
      {
        if k > 0 {
          assert rest[k - 1] == attrs[k];
        }
      }
    }
  }
}
