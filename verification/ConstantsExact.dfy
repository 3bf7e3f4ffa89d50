/** The derivation's passes over the constant pool: they succeed exactly when
    every constant is what the linker needs of it, and put what the constants
    say. */
module ConstantsExact {
  import opened Bytes
  import opened ClassFile
  import opened ClassSpec
  import opened Sinks
  import Descriptor

  // ---- a view that shows these constants ---------------------------------

  ghost predicate ShowsEntry(cls: seq<byte>, cp: CpView, i: nat, c: Constant)
    requires i < |cp.tags| && i < |cp.offsets|
  {
    && cp.offsets[i].Some? && cp.offsets[i].value < 0x1_0000
    && var off := cp.offsets[i].value;
    match c
    case ConstText(bytes) => cp.tags[i] == 1 && PoolUtf8(cp.pool, off) == Some(bytes)
    case ConstClass(name) => cp.tags[i] == 7 && Be16(cls, off) == Some(name)
    case ConstString(text) => cp.tags[i] == 8 && Be16(cls, off) == Some(text)
    case ConstMethod(ofInterface, c, sig) =>
      && cp.tags[i] == (if ofInterface then 11 else 10)
      && Be16(cls, off) == Some(c) && Be16(cls, off + 2) == Some(sig)
    case ConstNameAndType(name, desc) =>
      cp.tags[i] == 12 && Be16(cls, off) == Some(name) && Be16(cls, off + 2) == Some(desc)
    case ConstOther => cp.tags[i] !in [1, 7, 8, 10, 11, 12]
  }

  ghost predicate Shows(cls: seq<byte>, cp: CpView, cs: seq<Constant>) {
    && |cp.tags| == |cp.offsets| == |cs|
    && forall i | 0 <= i < |cs| :: ShowsEntry(cls, cp, i, cs[i])
  }

  lemma EntryShown(cls: seq<byte>, cp: CpView, cs: seq<Constant>, i: nat)
    requires Shows(cls, cp, cs)
    ensures Tag(cp, i) == if i < |cs| then Some(cp.tags[i]) else None
    ensures i < |cs| ==> ShowsEntry(cls, cp, i, cs[i]) && Offset(cp, i) == cp.offsets[i]
    ensures i < |cs| ==>
      && (cs[i].ConstMethod? <==> IsMethodref(cp.tags[i])) && (cs[i].ConstString? <==> cp.tags[i] == TAG_STRING)
      && (cs[i].ConstClass? <==> cp.tags[i] == TAG_CLASS) && (cs[i].ConstNameAndType? <==> cp.tags[i] == TAG_NAME_AND_TYPE)
      && (cs[i].ConstText? <==> cp.tags[i] == TAG_UTF8)
  {
  }

  lemma TextShown(cls: seq<byte>, cp: CpView, cs: seq<Constant>, i: nat)
    requires Shows(cls, cp, cs)
    ensures Utf8(cp, i) == TextOf(cs, i)
  {
    EntryShown(cls, cp, cs, i);
  }

  lemma NameChecked(env: Env, cls: seq<byte>, cp: CpView, cs: seq<Constant>, i: nat, e: LinkError)
    requires Shows(cls, cp, cs)
    ensures Utf8(cp, i).Some? && CheckUtf8(env, Utf8(cp, i).value, i).Ok? <==> IsName(env, cs, i)
  {
    TextShown(cls, cp, cs, i);
  }

  /** The reference to a class by name. */
  lemma ClassNamed(env: Env, cls: seq<byte>, cp: CpView, cs: seq<Constant>, i: nat)
    requires Shows(cls, cp, cs)
    ensures ClassNameRef(env, cls, cp, i).Ok? <==> NamesClass(env, cs, i)
    ensures ClassNameRef(env, cls, cp, i).Ok? ==>
      && cs[i].name < |cs| && TextOf(cs, cs[i].name).Some?
      && ClassNameRef(env, cls, cp, i)
         == Ok(NameRef(cp.offsets[cs[i].name].value, env.nameHash(TextOf(cs, cs[i].name).value)))
  {
    EntryShown(cls, cp, cs, i);
    if i < |cs| && cs[i].ConstClass? {
      EntryShown(cls, cp, cs, cs[i].name);
      TextShown(cls, cp, cs, cs[i].name);
    }
  }

  // ---- Methodrefs --------------------------------------------------------

  lemma ParamsCounted(desc: seq<byte>)
    ensures Descriptor.ArgCount(desc).Some? <==> exists n: nat :: HasParams(desc, n)
    ensures forall n: nat :: HasParams(desc, n) <==> n <= 255 && Descriptor.ArgCount(desc) == Some(n)
  {
    forall n: nat
      ensures HasParams(desc, n) <==> n <= 255 && Descriptor.ArgCount(desc) == Some(n)
    {
      if n <= 255 {
        Descriptor.CountsExactlyTheParameters(desc, n);
      }
    }
    if Descriptor.ArgCount(desc).Some? {
      assert HasParams(desc, Descriptor.ArgCount(desc).value);
    }
  }

  lemma MethodParts(cls: seq<byte>, cp: CpView, cs: seq<Constant>, i: nat)
    requires Shows(cls, cp, cs) && i < |cs| && cs[i].ConstMethod?
    ensures cs[i].cls < |cs| && cs[i].sig < |cs| ==>
      (cs[cs[i].cls].ConstClass? <==> Tag(cp, cs[i].cls) == Some(TAG_CLASS))
      && (cs[cs[i].sig].ConstNameAndType? <==> Tag(cp, cs[i].sig) == Some(TAG_NAME_AND_TYPE))
    ensures cs[i].cls >= |cs| ==> Tag(cp, cs[i].cls).None?
    ensures cs[i].sig >= |cs| ==> Tag(cp, cs[i].sig).None?
  {
    EntryShown(cls, cp, cs, cs[i].cls);
    EntryShown(cls, cp, cs, cs[i].sig);
  }

  /** Entry `i`'s descriptor is put exactly when it names a class and a method
      descriptor. */
  lemma MethodrefDerived(cls: seq<byte>, cp: CpView, cs: seq<Constant>, i: nat)
    requires Shows(cls, cp, cs) && i < |cs| && cs[i].ConstMethod?
    ensures MethodrefAt(cls, cp, i, cp.tags[i]).Ok? <==> exists n: nat :: TakesParams(cs, cs[i], n)
    ensures MethodrefAt(cls, cp, i, cp.tags[i]).Ok? ==>
      var (off, argcFlags) := MethodrefAt(cls, cp, i, cp.tags[i]).value;
      && Some(off) == cp.offsets[i]
      && exists n: nat :: TakesParams(cs, cs[i], n) && argcFlags == n + (if cs[i].ofInterface then 0x100 else 0)
  {
    var m := cs[i];
    EntryShown(cls, cp, cs, i);
    MethodParts(cls, cp, cs, i);
    if m.cls < |cs| && cs[m.cls].ConstClass? && m.sig < |cs| && cs[m.sig].ConstNameAndType? {
      SigDerived(cls, cp, cs, i);
    }
  }

  lemma SigDerived(cls: seq<byte>, cp: CpView, cs: seq<Constant>, i: nat)
    requires Shows(cls, cp, cs) && i < |cs| && cs[i].ConstMethod?
    requires cs[i].cls < |cs| && cs[cs[i].cls].ConstClass? && cs[i].sig < |cs| && cs[cs[i].sig].ConstNameAndType?
    ensures MethodrefAt(cls, cp, i, cp.tags[i]).Ok? <==> exists n: nat :: TakesParams(cs, cs[i], n)
    ensures MethodrefAt(cls, cp, i, cp.tags[i]).Ok? ==>
      var (off, argcFlags) := MethodrefAt(cls, cp, i, cp.tags[i]).value;
      && Some(off) == cp.offsets[i]
      && exists n: nat :: TakesParams(cs, cs[i], n) && argcFlags == n + (if cs[i].ofInterface then 0x100 else 0)
  {
    hide HasParams, Descriptor.ArgCount;
    var m := cs[i];
    var text := TextOf(cs, cs[m.sig].desc);
    EntryShown(cls, cp, cs, i);
    MethodParts(cls, cp, cs, i);
    EntryShown(cls, cp, cs, m.sig);
    TextShown(cls, cp, cs, cs[m.sig].desc);
    if text.Some? {
      ParamsCounted(text.value);
      if Descriptor.ArgCount(text.value).Some? {
        var n: nat := Descriptor.ArgCount(text.value).value;
        assert TakesParams(cs, m, n);
      }
    }
  }

  lemma {:induction false} MrefsCount(cls: seq<byte>, cp: CpView, cs: seq<Constant>, i: nat)
    requires Shows(cls, cp, cs) && i <= |cs|
    ensures MrefsUpTo(cp, i) == MethodsAmong(cs, i) && StrsUpTo(cp, i) == StringsAmong(cs, i)
  {
    if i > 0 {
      EntryShown(cls, cp, cs, i - 1);
      MrefsCount(cls, cp, cs, i - 1);
    }
  }

  /** The Methodref pass from entry `i` on. */
  lemma {:induction false} MrefsDerived(cls: seq<byte>, cp: CpView, cs: seq<Constant>, n: Counts, l: Layout, i: nat)
    requires Shows(cls, cp, cs) && n.cpCount == |cs| && i <= |cs| && n.mrefs == MethodsAmong(cs, |cs|)
    ensures var d := DeriveMrefs(cls, cp, n, l, i, MethodsAmong(cs, i));
      d.outcome.Ok? <==> forall j | i <= j < |cs| && cs[j].ConstMethod? :: exists n: nat :: TakesParams(cs, cs[j], n)
    decreases |cs| - i
  {
    hide MethodrefAt, TakesParams;
    if i < |cs| {
      EntryShown(cls, cp, cs, i);
      MrefsDerived(cls, cp, cs, n, l, i + 1);
      if cs[i].ConstMethod? {
        MethodrefDerived(cls, cp, cs, i);
      }
    }
  }

  lemma {:induction false} MrefPut(
    cls: seq<byte>, cp: CpView, cs: seq<Constant>, n: Counts, l: Layout, i: nat, j: nat, words: seq<u16>)
    requires Shows(cls, cp, cs) && n.cpCount == |cs| && i <= j < |cs| && cs[j].ConstMethod?
    requires var d := DeriveMrefs(cls, cp, n, l, i, MethodsAmong(cs, i)); d.outcome.Ok? && Agrees(words, d.puts)
    ensures MrefRecord(cs, cs[j], cp.offsets[j].value, words, l.mrefsOff + 2 * MethodsAmong(cs, j))
    decreases j - i
  {
    hide MethodrefAt, TakesParams;
    EntryShown(cls, cp, cs, i);
    if cs[i].ConstMethod? {
      MethodrefDerived(cls, cp, cs, i);
      var (off, argcFlags) := MethodrefAt(cls, cp, i, cp.tags[i]).value;
      var w := l.mrefsOff + 2 * MethodsAmong(cs, i);
      var ps := [Put(w, AsU16(off)), Put(w + 1, argcFlags)];
      var rest := DeriveMrefs(cls, cp, n, l, i + 1, MethodsAmong(cs, i + 1));
      AgreesConcat(words, ps, rest.puts);
      if i == j {
        assert ps[0].word == w && ps[1].word == w + 1;
      } else {
        MrefPut(cls, cp, cs, n, l, i + 1, j, words);
      }
    } else {
      MrefPut(cls, cp, cs, n, l, i + 1, j, words);
    }
  }

  // ---- Strings -----------------------------------------------------------

  lemma StringDerived(cls: seq<byte>, cp: CpView, cs: seq<Constant>, i: nat)
    requires Shows(cls, cp, cs) && i < |cs| && cs[i].ConstString?
    ensures StringAt(cls, cp, i).Ok? <==> TextOf(cs, cs[i].text).Some?
    ensures StringAt(cls, cp, i).Ok? ==> Some(StringAt(cls, cp, i).value) == cp.offsets[i]
  {
    EntryShown(cls, cp, cs, i);
    TextShown(cls, cp, cs, cs[i].text);
  }

  lemma {:induction false} StringsDerived(cls: seq<byte>, cp: CpView, cs: seq<Constant>, n: Counts, l: Layout, i: nat)
    requires Shows(cls, cp, cs) && n.cpCount == |cs| && i <= |cs| && n.strs == StringsAmong(cs, |cs|)
    ensures DeriveStrs(cls, cp, n, l, i, StringsAmong(cs, i)).outcome.Ok? <==>
      forall j | i <= j < |cs| && cs[j].ConstString? :: TextOf(cs, cs[j].text).Some?
    decreases |cs| - i
  {
    hide StringAt;
    if i < |cs| {
      EntryShown(cls, cp, cs, i);
      StringsDerived(cls, cp, cs, n, l, i + 1);
      if cs[i].ConstString? {
        StringDerived(cls, cp, cs, i);
      }
    }
  }

  lemma {:induction false} StringPut(
    cls: seq<byte>, cp: CpView, cs: seq<Constant>, n: Counts, l: Layout, i: nat, j: nat, words: seq<u16>)
    requires Shows(cls, cp, cs) && n.cpCount == |cs| && i <= j < |cs| && cs[j].ConstString?
    requires var d := DeriveStrs(cls, cp, n, l, i, StringsAmong(cs, i)); d.outcome.Ok? && Agrees(words, d.puts)
    ensures var w := l.strsOff + 2 * StringsAmong(cs, j); w < |words| && words[w] == cp.offsets[j].value
    decreases j - i
  {
    hide StringAt;
    EntryShown(cls, cp, cs, i);
    if cs[i].ConstString? {
      StringDerived(cls, cp, cs, i);
      var w := l.strsOff + 2 * StringsAmong(cs, i);
      var ps := [Put(w, AsU16(StringAt(cls, cp, i).value)), PutExternal(w + 1, LIT_NONE)];
      var rest := DeriveStrs(cls, cp, n, l, i + 1, StringsAmong(cs, i + 1));
      AgreesConcat(words, ps, rest.puts);
      if i == j {
        assert ps[0].word == w;
      } else {
        StringPut(cls, cp, cs, n, l, i + 1, j, words);
      }
    } else {
      StringPut(cls, cp, cs, n, l, i + 1, j, words);
    }
  }

  // ---- names -------------------------------------------------------------

  ghost predicate NamesAreUtf8(env: Env, cs: seq<Constant>, c: Constant) {
    match c
    case ConstClass(name) => IsName(env, cs, name)
    case ConstNameAndType(name, desc) => IsName(env, cs, name) && IsName(env, cs, desc)
    case _ => true
  }

  lemma NameIs(env: Env, cls: seq<byte>, cp: CpView, cs: seq<Constant>, i: nat, ui: nat)
    requires Shows(cls, cp, cs)
    ensures NameAt(env, cp, i, ui).Ok? <==> IsName(env, cs, ui)
  {
    TextShown(cls, cp, cs, ui);
  }

  lemma {:induction false} NamesChecked(env: Env, cls: seq<byte>, cp: CpView, cs: seq<Constant>, n: Counts, i: nat)
    requires Shows(cls, cp, cs) && n.cpCount == |cs| && i <= |cs|
    ensures CheckNames(env, cls, cp, n, i).Ok? <==> forall j | i <= j < |cs| :: NamesAreUtf8(env, cs, cs[j])
    decreases |cs| - i
  {
    hide NameAt, IsName;
    if i < |cs| {
      EntryShown(cls, cp, cs, i);
      NamesChecked(env, cls, cp, cs, n, i + 1);
      match cs[i] {
        case ConstClass(name) => NameIs(env, cls, cp, cs, i, name);
        case ConstNameAndType(name, desc) =>
          NameIs(env, cls, cp, cs, i, name);
          NameIs(env, cls, cp, cs, i, desc);
        case _ =>
      }
    }
  }

  // ---- the words of the entries ------------------------------------------

  lemma {:induction false} EntriesDerived(cls: seq<byte>, cp: CpView, cs: seq<Constant>, n: Counts, l: Layout,
                                          i: nat, k: nat, ks: nat, lo: byte)
    requires Shows(cls, cp, cs) && n.cpCount == |cs|
    ensures DeriveCp(cp, n, l, i, k, ks, lo).outcome.Ok?
    decreases |cs| - i
  {
    if i < |cs| {
      EntryShown(cls, cp, cs, i);
      var tag := cp.tags[i];
      EntriesDerived(cls, cp, cs, n, l, i + 1, k + (if IsMethodref(tag) then 1 else 0),
                     ks + (if tag == TAG_STRING then 1 else 0), if i % 2 == 0 then tag else lo);
    }
  }

  /** All passes over the constant pool succeed exactly when every constant
      links. */
  lemma PassesSucceed(env: Env, cls: seq<byte>, cp: CpView, cs: seq<Constant>, n: Counts, l: Layout)
    requires Shows(cls, cp, cs) && n.cpCount == |cs|
    requires n.mrefs == MrefsUpTo(cp, |cs|) && n.strs == StrsUpTo(cp, |cs|)
    ensures DeriveCp(cp, n, l, 0, 0, 0, 0).outcome.Ok?
    ensures DeriveMrefs(cls, cp, n, l, 0, 0).outcome.Ok? && DeriveStrs(cls, cp, n, l, 0, 0).outcome.Ok?
            && CheckNames(env, cls, cp, n, 0).Ok?
            <==> forall i | 0 <= i < |cs| :: ConstantLinks(env, cs, cs[i])
  {
    hide TakesParams, IsName;
    MrefsCount(cls, cp, cs, |cs|);
    EntriesDerived(cls, cp, cs, n, l, 0, 0, 0, 0);
    MrefsDerived(cls, cp, cs, n, l, 0);
    StringsDerived(cls, cp, cs, n, l, 0);
    NamesChecked(env, cls, cp, cs, n, 0);
  }
}
