/** What every run of the derivation keeps, failed ones included: each word it
    puts lies in the table, the external words are exactly the section's, and
    `LinkError::Internal` never comes out. */
module DeriveFacts {
  import opened Bytes
  import opened ClassFile
  import Bytecode

  /** A view whose entries all have an offset a `u16` can hold. */
  ghost predicate FullView(cp: CpView) {
    && |cp.tags| == |cp.offsets|
    && forall i | 0 <= i < |cp.offsets| :: cp.offsets[i].Some? && cp.offsets[i].value < 0x1_0000
  }

  /** What the builder and the validator have established when they derive. */
  ghost predicate Prepared(cls: seq<byte>, cp: CpView, n: Counts, l: Layout) {
    && FullView(cp)
    && n.cpCount <= |cp.tags|
    && Survey(cls, cp, n.cpCount, n.posAfterCp) == Ok(n)
    && NewLayout(n) == Ok(l)
  }

  predicate ExternalWord(n: Counts, l: Layout, w: nat) {
    22 <= w <= 25 || (l.strsOff <= w < l.strsOff + 2 * n.strs && (w - l.strsOff) % 2 == 1)
  }

  /** What the builder leaves in an external word: the pool's place 0, any other
      name 65535. */
  function Placeholder(w: nat): u16 { if 23 <= w <= 25 then 0 else 65535 }

  predicate TypedPut(n: Counts, l: Layout, p: Put) {
    && p.word < l.totalWords && (p.PutExternal? <==> ExternalWord(n, l, p.word))
    && (p.PutExternal? ==> p.value == Placeholder(p.word))
  }

  /** Every word lies in the table, and the external ones are the section's. */
  ghost predicate Typed(n: Counts, l: Layout, puts: seq<Put>) {
    puts != [] ==> TypedPut(n, l, puts[0]) && Typed(n, l, puts[1..])
  }

  predicate NotInternal<T>(r: Result<T>) { r.Err? ==> r.error != Internal }

  lemma {:induction false} TypedAt(n: Counts, l: Layout, puts: seq<Put>, k: nat)
    requires Typed(n, l, puts) && k < |puts|
    ensures TypedPut(n, l, puts[k])
  {
    if k > 0 {
      TypedAt(n, l, puts[1..], k - 1);
    }
  }

  lemma {:induction false} TypedConcat(n: Counts, l: Layout, a: seq<Put>, b: seq<Put>)
    requires Typed(n, l, a) && Typed(n, l, b)
    ensures Typed(n, l, a + b)
    decreases |a|
  {
    if a == [] {
      assert a + b == b;
    } else {
      assert (a + b)[1..] == a[1..] + b;
      TypedConcat(n, l, a[1..], b);
    }
  }

  lemma {:induction false} AllTyped(n: Counts, l: Layout, puts: seq<Put>)
    requires forall k | 0 <= k < |puts| :: TypedPut(n, l, puts[k])
    ensures Typed(n, l, puts)
    decreases |puts|
  {
    if puts != [] {
      AllTyped(n, l, puts[1..]);
    }
  }

  /** Consecutive plain words outside the section's own. */
  lemma TypedRun(n: Counts, l: Layout, puts: seq<Put>, lo: nat)
    requires NewLayout(n) == Ok(l)
    requires forall k | 0 <= k < |puts| :: puts[k].Put? && puts[k].word == lo + k
    requires (HEADER_WORDS <= lo && lo + |puts| <= l.strsOff) || (l.strsOff + 2 * n.strs <= lo && lo + |puts| <= l.totalWords)
    ensures Typed(n, l, puts)
  {
    AllTyped(n, l, puts);
  }

  // ---- counts met along the way ------------------------------------------

  lemma {:induction false} MrefsGrow(cp: CpView, i: nat, j: nat)
    requires i <= j
    ensures MrefsUpTo(cp, i) <= MrefsUpTo(cp, j)
    decreases j - i
  {
    if i < j {
      MrefsGrow(cp, i, j - 1);
    }
  }

  lemma {:induction false} StrsGrow(cp: CpView, i: nat, j: nat)
    requires i <= j
    ensures StrsUpTo(cp, i) <= StrsUpTo(cp, j)
    decreases j - i
  {
    if i < j {
      StrsGrow(cp, i, j - 1);
    }
  }

  lemma {:induction false} FieldSplitGrows(cls: seq<byte>, n: nat, pos: nat, fields: nat, statics: nat)
    ensures SurveyFields(cls, n, pos, fields, statics).Ok? ==>
      var s := SurveyFields(cls, n, pos, fields, statics).value;
      fields <= s.fields && statics <= s.statics
    ensures NotInternal(SurveyFields(cls, n, pos, fields, statics))
    decreases n
  {
    if n > 0 && ReadU16(cls, pos).Ok? && Seek(cls, pos + 6).Ok? {
      SkipAttrsNotInternal(cls, pos + 6);
      if SkipAttrs(cls, pos + 6).Ok? {
        var next := SkipAttrs(cls, pos + 6).value;
        FieldSplitGrows(cls, n - 1, next, fields, statics + 1);
        FieldSplitGrows(cls, n - 1, next, fields + 1, statics);
      }
    }
  }

  lemma {:induction false} SkipAttrsFromNotInternal(cls: seq<byte>, n: nat, pos: nat)
    ensures NotInternal(SkipAttrsFrom(cls, n, pos))
    decreases n
  {
    if n > 0 && Seek(cls, pos + 2).Ok? && ReadU32(cls, pos + 2).Ok? {
      SkipAttrsFromNotInternal(cls, n - 1, pos + 6 + ReadU32(cls, pos + 2).value);
    }
  }

  lemma SkipAttrsNotInternal(cls: seq<byte>, pos: nat)
    ensures NotInternal(SkipAttrs(cls, pos))
  {
    if ReadU16(cls, pos).Ok? {
      SkipAttrsFromNotInternal(cls, ReadU16(cls, pos).value, pos + 2);
    }
  }

  lemma {:induction false} SurveyMethodsNotInternal(cls: seq<byte>, n: nat, pos: nat)
    ensures NotInternal(SurveyMethods(cls, n, pos))
    decreases n
  {
    if n > 0 && Seek(cls, pos + 6).Ok? {
      SkipAttrsNotInternal(cls, pos + 6);
      if SkipAttrs(cls, pos + 6).Ok? {
        SurveyMethodsNotInternal(cls, n - 1, SkipAttrs(cls, pos + 6).value);
      }
    }
  }

  lemma SurveyNotInternal(cls: seq<byte>, cp: CpView, cpCount: nat, posAfterCp: nat)
    ensures NotInternal(Survey(cls, cp, cpCount, posAfterCp))
    ensures Survey(cls, cp, cpCount, posAfterCp).Ok? ==>
      var n := Survey(cls, cp, cpCount, posAfterCp).value;
      && n.cpCount == cpCount && n.posAfterCp == posAfterCp
      && n.mrefs == MrefsUpTo(cp, cpCount) && n.strs == StrsUpTo(cp, cpCount)
  {
    SurveyRefusal(cls, cp, cpCount, posAfterCp);
  }

  lemma SurveyRefusal(cls: seq<byte>, cp: CpView, cpCount: nat, posAfterCp: nat)
    ensures NotInternal(Survey(cls, cp, cpCount, posAfterCp))
  {
    if Seek(cls, posAfterCp + 6).Ok? && ReadU16(cls, posAfterCp + 6).Ok? {
      var p := posAfterCp + 8 + 2 * ReadU16(cls, posAfterCp + 6).value as int;
      MembersNotInternal(cls, p);
    }
  }

  lemma MembersNotInternal(cls: seq<byte>, p: nat)
    ensures ReadU16(cls, p).Ok? ==>
      var split := SurveyFields(cls, ReadU16(cls, p).value, p + 2, 0, 0);
      && NotInternal(split)
      && (split.Ok? && ReadU16(cls, split.value.pos).Ok? ==>
            NotInternal(SurveyMethods(cls, ReadU16(cls, split.value.pos).value, split.value.pos + 2)))
  {
    if ReadU16(cls, p).Ok? {
      FieldSplitGrows(cls, ReadU16(cls, p).value, p + 2, 0, 0);
      var split := SurveyFields(cls, ReadU16(cls, p).value, p + 2, 0, 0);
      if split.Ok? {
        MethodsAfter(cls, split.value.pos);
      }
    }
  }

  lemma MethodsAfter(cls: seq<byte>, pos: nat)
    ensures ReadU16(cls, pos).Ok? ==> NotInternal(SurveyMethods(cls, ReadU16(cls, pos).value, pos + 2))
  {
    if ReadU16(cls, pos).Ok? {
      SurveyMethodsNotInternal(cls, ReadU16(cls, pos).value, pos + 2);
    }
  }

  // ---- region by region --------------------------------------------------

  lemma CpPutsTyped(n: Counts, l: Layout, i: nat, word: nat, lo: byte, tag: byte)
    requires NewLayout(n) == Ok(l) && i < n.cpCount
    ensures Typed(n, l, CpPuts(n, i, word, lo, tag))
  {
    var ps := CpPuts(n, i, word, lo, tag);
    TypedRun(n, l, ps[..1], HEADER_WORDS + i);
    TypedRun(n, l, ps[1..], HEADER_WORDS + n.cpCount + i / 2);
    assert ps == ps[..1] + ps[1..];
    TypedConcat(n, l, ps[..1], ps[1..]);
  }

  /** The puts of one entry before those of the rest. */
  lemma NextCp(cp: CpView, n: Counts, l: Layout, i: nat, k: nat, ks: nat, lo: byte)
    returns (tag: byte, word: nat, k': nat, ks': nat, lo': byte)
    requires FullView(cp) && i < n.cpCount <= |cp.tags|
    ensures DeriveCp(cp, n, l, i, k, ks, lo)
            == Emit(CpPuts(n, i, word, lo, tag), DeriveCp(cp, n, l, i + 1, k', ks', lo'))
    ensures tag == cp.tags[i] && lo' == if i % 2 == 0 then tag else lo
  {
    tag := cp.tags[i];
    word := CpWord(cp, l, i, tag, k, ks).value;
    k', ks' := k + (if IsMethodref(tag) then 1 else 0), ks + (if tag == TAG_STRING then 1 else 0);
    lo' := if i % 2 == 0 then tag else lo;
  }

  lemma {:induction false} CpTyped(cp: CpView, n: Counts, l: Layout, i: nat, k: nat, ks: nat, lo: byte)
    requires FullView(cp) && n.cpCount <= |cp.tags| && NewLayout(n) == Ok(l)
    requires i <= n.cpCount
    ensures Typed(n, l, DeriveCp(cp, n, l, i, k, ks, lo).puts)
    ensures DeriveCp(cp, n, l, i, k, ks, lo).outcome.Ok?
    decreases n.cpCount - i
  {
    if i == n.cpCount {
      CpEndTyped(cp, n, l, k, ks, lo);
    } else {
      var tag, word, k', ks', lo' := NextCp(cp, n, l, i, k, ks, lo);
      CpTyped(cp, n, l, i + 1, k', ks', lo');
      CpThenTyped(n, l, i, word, lo, tag, DeriveCp(cp, n, l, i + 1, k', ks', lo').puts);
    }
  }

  /** The last tag word, if the count is odd. */
  lemma CpEndTyped(cp: CpView, n: Counts, l: Layout, k: nat, ks: nat, lo: byte)
    requires NewLayout(n) == Ok(l)
    ensures Typed(n, l, DeriveCp(cp, n, l, n.cpCount, k, ks, lo).puts)
    ensures DeriveCp(cp, n, l, n.cpCount, k, ks, lo).outcome.Ok?
  {
    TypedRun(n, l, DeriveCp(cp, n, l, n.cpCount, k, ks, lo).puts, HEADER_WORDS + n.cpCount + n.cpCount / 2);
  }

  lemma CpThenTyped(n: Counts, l: Layout, i: nat, word: nat, lo: byte, tag: byte, rest: seq<Put>)
    requires NewLayout(n) == Ok(l) && i < n.cpCount && Typed(n, l, rest)
    ensures Typed(n, l, CpPuts(n, i, word, lo, tag) + rest)
  {
    CpPutsTyped(n, l, i, word, lo, tag);
    TypedConcat(n, l, CpPuts(n, i, word, lo, tag), rest);
  }

  lemma MethodrefNotInternal(cls: seq<byte>, cp: CpView, i: nat, tag: byte)
    requires FullView(cp) && i < |cp.tags|
    ensures NotInternal(MethodrefAt(cls, cp, i, tag))
  {
  }

  lemma {:induction false} MrefsNotInternal(cls: seq<byte>, cp: CpView, n: Counts, l: Layout, i: nat, k: nat)
    requires FullView(cp) && n.cpCount <= |cp.tags|
    requires i <= n.cpCount && k == MrefsUpTo(cp, i) && n.mrefs == MrefsUpTo(cp, n.cpCount)
    ensures NotInternal(DeriveMrefs(cls, cp, n, l, i, k).outcome)
    decreases n.cpCount - i
  {
    if i < n.cpCount {
      MethodrefNotInternal(cls, cp, i, cp.tags[i]);
      MrefsNotInternal(cls, cp, n, l, i + 1, MrefsUpTo(cp, i + 1));
    }
  }

  lemma MrefPutsTyped(n: Counts, l: Layout, k: nat, off: nat, argcFlags: u16)
    requires NewLayout(n) == Ok(l) && k < n.mrefs
    ensures Typed(n, l, [Put(l.mrefsOff + 2 * k, AsU16(off)), Put(l.mrefsOff + 2 * k + 1, argcFlags)])
  {
    TypedRun(n, l, [Put(l.mrefsOff + 2 * k, AsU16(off)), Put(l.mrefsOff + 2 * k + 1, argcFlags)], l.mrefsOff + 2 * k);
  }

  lemma MrefStep(cls: seq<byte>, cp: CpView, n: Counts, l: Layout, i: nat, k: nat, off: nat, argcFlags: u16, rest: Derived<()>)
    requires i < n.cpCount <= |cp.tags| && IsMethodref(cp.tags[i])
    requires MethodrefAt(cls, cp, i, cp.tags[i]) == Ok((off, argcFlags)) && rest == DeriveMrefs(cls, cp, n, l, i + 1, k + 1)
    ensures DeriveMrefs(cls, cp, n, l, i, k)
            == Derived([Put(l.mrefsOff + 2 * k, AsU16(off)), Put(l.mrefsOff + 2 * k + 1, argcFlags)] + rest.puts, rest.outcome)
  {
  }

  lemma {:induction false} MrefsTyped(cls: seq<byte>, cp: CpView, n: Counts, l: Layout, i: nat, k: nat)
    requires n.cpCount <= |cp.tags| && NewLayout(n) == Ok(l)
    requires i <= n.cpCount && k == MrefsUpTo(cp, i) && n.mrefs == MrefsUpTo(cp, n.cpCount)
    ensures Typed(n, l, DeriveMrefs(cls, cp, n, l, i, k).puts)
    decreases n.cpCount - i
  {
    if i < n.cpCount {
      var tag := cp.tags[i];
      if !IsMethodref(tag) {
        MrefsTyped(cls, cp, n, l, i + 1, k);
      } else if MethodrefAt(cls, cp, i, tag).Ok? {
        var (off, argcFlags) := MethodrefAt(cls, cp, i, tag).value;
        MrefsGrow(cp, i + 1, n.cpCount);
        var rest := DeriveMrefs(cls, cp, n, l, i + 1, k + 1);
        MrefsTyped(cls, cp, n, l, i + 1, k + 1);
        MrefPutsTyped(n, l, k, off, argcFlags);
        TypedConcat(n, l, [Put(l.mrefsOff + 2 * k, AsU16(off)), Put(l.mrefsOff + 2 * k + 1, argcFlags)], rest.puts);
        MrefStep(cls, cp, n, l, i, k, off, argcFlags, rest);
      }
    }
  }

  lemma StringNotInternal(cls: seq<byte>, cp: CpView, i: nat)
    requires FullView(cp) && i < |cp.tags|
    ensures NotInternal(StringAt(cls, cp, i))
  {
  }

  lemma {:induction false} StrsNotInternal(cls: seq<byte>, cp: CpView, n: Counts, l: Layout, i: nat, ks: nat)
    requires FullView(cp) && n.cpCount <= |cp.tags|
    requires i <= n.cpCount && ks == StrsUpTo(cp, i) && n.strs == StrsUpTo(cp, n.cpCount)
    ensures NotInternal(DeriveStrs(cls, cp, n, l, i, ks).outcome)
    decreases n.cpCount - i
  {
    if i < n.cpCount {
      StringNotInternal(cls, cp, i);
      StrsNotInternal(cls, cp, n, l, i + 1, StrsUpTo(cp, i + 1));
    }
  }

  lemma StrPutsTyped(n: Counts, l: Layout, ks: nat, off: nat)
    requires NewLayout(n) == Ok(l) && ks < n.strs
    ensures Typed(n, l, [Put(l.strsOff + 2 * ks, AsU16(off)), PutExternal(l.strsOff + 2 * ks + 1, LIT_NONE)])
  {
    assert ExternalWord(n, l, l.strsOff + 2 * ks + 1) && !ExternalWord(n, l, l.strsOff + 2 * ks);
    AllTyped(n, l, [Put(l.strsOff + 2 * ks, AsU16(off)), PutExternal(l.strsOff + 2 * ks + 1, LIT_NONE)]);
  }

  lemma {:induction false} StrsTyped(cls: seq<byte>, cp: CpView, n: Counts, l: Layout, i: nat, ks: nat)
    requires n.cpCount <= |cp.tags| && NewLayout(n) == Ok(l)
    requires i <= n.cpCount && ks == StrsUpTo(cp, i) && n.strs == StrsUpTo(cp, n.cpCount)
    ensures Typed(n, l, DeriveStrs(cls, cp, n, l, i, ks).puts)
    decreases n.cpCount - i
  {
    if i < n.cpCount {
      if Tag(cp, i) != Some(TAG_STRING) {
        StrsTyped(cls, cp, n, l, i + 1, ks);
      } else if StringAt(cls, cp, i).Ok? {
        var off := StringAt(cls, cp, i).value;
        var rest := DeriveStrs(cls, cp, n, l, i + 1, ks + 1);
        StrsGrow(cp, i + 1, n.cpCount);
        StrsTyped(cls, cp, n, l, i + 1, ks + 1);
        StrPutsTyped(n, l, ks, off);
        TypedConcat(n, l, [Put(l.strsOff + 2 * ks, AsU16(off)), PutExternal(l.strsOff + 2 * ks + 1, LIT_NONE)], rest.puts);
        StrStep(cls, cp, n, l, i, ks, off, rest);
      }
    }
  }

  lemma StrStep(cls: seq<byte>, cp: CpView, n: Counts, l: Layout, i: nat, ks: nat, off: nat, rest: Derived<()>)
    requires i < n.cpCount && Tag(cp, i) == Some(TAG_STRING) && StringAt(cls, cp, i) == Ok(off)
    requires rest == DeriveStrs(cls, cp, n, l, i + 1, ks + 1)
    ensures DeriveStrs(cls, cp, n, l, i, ks)
            == Derived([Put(l.strsOff + 2 * ks, AsU16(off)), PutExternal(l.strsOff + 2 * ks + 1, LIT_NONE)] + rest.puts, rest.outcome)
  {
  }

  lemma {:induction false} NamesNotInternal(env: Env, cls: seq<byte>, cp: CpView, n: Counts, i: nat)
    requires FullView(cp) && n.cpCount <= |cp.tags|
    ensures NotInternal(CheckNames(env, cls, cp, n, i))
    decreases n.cpCount - i
  {
    if i < n.cpCount {
      NamesNotInternal(env, cls, cp, n, i + 1);
    }
  }

  lemma IfacePutsTyped(n: Counts, l: Layout, j: nat, r: NameRef)
    requires NewLayout(n) == Ok(l) && j < n.ifaces
    ensures Typed(n, l, IfacePuts(l, j, r))
  {
    TypedRun(n, l, IfacePuts(l, j, r), l.ifacesOff + 3 * j);
  }

  lemma {:induction false} IfacesEnd(env: Env, cls: seq<byte>, cp: CpView, l: Layout, count: nat, j: nat, pos: nat)
    requires j <= count
    ensures var d := DeriveIfaces(env, cls, cp, l, count, j, pos);
      && NotInternal(d.outcome)
      && (d.outcome.Ok? ==> d.outcome.value == pos + 2 * (count - j))
    decreases count - j
  {
    if j < count && IfaceAt(env, cls, cp, j, pos).Ok? {
      IfacesEnd(env, cls, cp, l, count, j + 1, pos + 2);
    }
  }

  lemma {:induction false} IfacesTyped(env: Env, cls: seq<byte>, cp: CpView, n: Counts, l: Layout, j: nat, pos: nat)
    requires NewLayout(n) == Ok(l) && j <= n.ifaces
    ensures Typed(n, l, DeriveIfaces(env, cls, cp, l, n.ifaces, j, pos).puts)
    decreases n.ifaces - j
  {
    if j < n.ifaces && IfaceAt(env, cls, cp, j, pos).Ok? {
      var r := IfaceAt(env, cls, cp, j, pos).value;
      IfacesTyped(env, cls, cp, n, l, j + 1, pos + 2);
      IfacePutsTyped(n, l, j, r);
      TypedConcat(n, l, IfacePuts(l, j, r), DeriveIfaces(env, cls, cp, l, n.ifaces, j + 1, pos + 2).puts);
    }
  }

  /** The derivation reads a field where the survey did. */
  lemma FieldReadsAlike(env: Env, cls: seq<byte>, cp: CpView, j: nat, pos: nat)
    ensures NotInternal(FieldAt(env, cls, cp, j, pos))
    ensures FieldAt(env, cls, cp, j, pos).Ok? ==>
      var f := FieldAt(env, cls, cp, j, pos).value;
      && ReadU16(cls, pos).Ok? && f.isStatic == IsStatic(ReadU16(cls, pos).value)
      && Seek(cls, pos + 6).Ok? && SkipAttrs(cls, pos + 6) == Ok(f.next)
  {
    SkipAttrsNotInternal(cls, pos + 6);
  }

  lemma FieldPutsTyped(n: Counts, l: Layout, f: Field, at: FieldsEnd)
    requires NewLayout(n) == Ok(l)
    requires if f.isStatic then at.si < n.statics else at.fi < n.fields
    ensures Typed(n, l, FieldPuts(l, f, at))
  {
    TypedRun(n, l, FieldPuts(l, f, at), if f.isStatic then l.staticsOff + 3 * at.si else l.fieldsOff + 3 * at.fi);
  }

  /** One field further, in the survey as in the derivation. */
  lemma FieldSurveyed(env: Env, cls: seq<byte>, cp: CpView, count: nat, j: nat, at: FieldsEnd, split: FieldSplit)
    requires j < count && SurveyFields(cls, count - j, at.pos, at.fi, at.si) == Ok(split)
    ensures NotInternal(FieldAt(env, cls, cp, j, at.pos))
    ensures FieldAt(env, cls, cp, j, at.pos).Ok? ==>
      var next := NextField(FieldAt(env, cls, cp, j, at.pos).value, at);
      SurveyFields(cls, count - (j + 1), next.pos, next.fi, next.si) == Ok(split)
  {
    FieldReadsAlike(env, cls, cp, j, at.pos);
  }

  /** The derivation of the fields, whatever reads them. */
  function FieldsBy(read: (nat, nat) -> Result<Field>, l: Layout, count: nat, j: nat, at: FieldsEnd): Derived<FieldsEnd>
    decreases count - j
  {
    if j >= count then Return(at)
    else
      match read(j, at.pos)
      case Err(e) => Fail(e)
      case Ok(f) =>
        var next := NextField(f, at);
        if FieldSlot(f, at) > MAX_OWN_SLOTS || next.own > MAX_OWN_SLOTS then Fail(ClassTooLarge)
        else Emit(FieldPuts(l, f, at), FieldsBy(read, l, count, j + 1, next))
  }

  function FieldReader(env: Env, cls: seq<byte>, cp: CpView): (nat, nat) -> Result<Field> {
    (j: nat, pos: nat) => FieldAt(env, cls, cp, j, pos)
  }

  lemma {:induction false} FieldsAreBy(env: Env, cls: seq<byte>, cp: CpView, l: Layout, count: nat, j: nat, at: FieldsEnd)
    ensures DeriveFields(env, cls, cp, l, count, j, at) == FieldsBy(FieldReader(env, cls, cp), l, count, j, at)
    decreases count - j
  {
    if j < count && FieldAt(env, cls, cp, j, at.pos).Ok? {
      FieldsAreBy(env, cls, cp, l, count, j + 1, NextField(FieldAt(env, cls, cp, j, at.pos).value, at));
    }
  }

  /** The survey of the fields, whatever tells where each ends and of which kind
      it is. */
  function SurveyBy(one: nat -> Result<(nat, bool)>, n: nat, pos: nat, fields: nat, statics: nat): Result<FieldSplit> {
    if n == 0 then Ok(FieldSplit(pos, fields, statics))
    else
      match one(pos)
      case Err(e) => Err(e)
      case Ok((next, isStatic)) =>
        if isStatic then SurveyBy(one, n - 1, next, fields, statics + 1) else SurveyBy(one, n - 1, next, fields + 1, statics)
  }

  function SurveyOne(cls: seq<byte>): nat -> Result<(nat, bool)> { (pos: nat) => FieldSurveyAt(cls, pos) }

  function FieldSurveyAt(cls: seq<byte>, pos: nat): Result<(nat, bool)> {
    var access :- ReadU16(cls, pos);
    var p :- Seek(cls, pos + 6);
    var next :- SkipAttrs(cls, p);
    Ok((next, IsStatic(access)))
  }

  lemma {:induction false} SurveyIsBy(cls: seq<byte>, n: nat, pos: nat, fields: nat, statics: nat)
    ensures SurveyFields(cls, n, pos, fields, statics) == SurveyBy(SurveyOne(cls), n, pos, fields, statics)
    decreases n
  {
    if n > 0 && FieldSurveyAt(cls, pos).Ok? {
      var (next, isStatic) := FieldSurveyAt(cls, pos).value;
      SurveyIsBy(cls, n - 1, next, if isStatic then fields else fields + 1, if isStatic then statics + 1 else statics);
    }
  }

  /** A field that is read was surveyed alike, and reading is never at fault. */
  ghost predicate ReadAlike(read: (nat, nat) -> Result<Field>, one: nat -> Result<(nat, bool)>) {
    forall j: nat, pos: nat ::
      && NotInternal(read(j, pos))
      && (read(j, pos).Ok? ==> one(pos) == Ok((read(j, pos).value.next, read(j, pos).value.isStatic)))
  }

  lemma FieldsReadAlike(env: Env, cls: seq<byte>, cp: CpView)
    ensures ReadAlike(FieldReader(env, cls, cp), SurveyOne(cls))
  {
    forall j: nat, pos: nat
      ensures NotInternal(FieldAt(env, cls, cp, j, pos))
      ensures FieldAt(env, cls, cp, j, pos).Ok? ==>
        var f := FieldAt(env, cls, cp, j, pos).value;
        FieldSurveyAt(cls, pos) == Ok((f.next, f.isStatic))
    {
      FieldReadsAlike(env, cls, cp, j, pos);
    }
  }

  lemma {:induction false} EndsAlike(read: (nat, nat) -> Result<Field>, one: nat -> Result<(nat, bool)>, l: Layout, count: nat, j: nat,
                                     at: FieldsEnd, split: FieldSplit)
    requires ReadAlike(read, one) && j <= count && SurveyBy(one, count - j, at.pos, at.fi, at.si) == Ok(split)
    ensures var o := FieldsBy(read, l, count, j, at).outcome;
      && NotInternal(o)
      && (o.Ok? ==> o.value.pos == split.pos && o.value.fi == split.fields && o.value.si == split.statics)
    decreases count - j
  {
    if j < count && read(j, at.pos).Ok? {
      EndsAlike(read, one, l, count, j + 1, NextField(read(j, at.pos).value, at), split);
    }
  }

  /** The derivation counts the fields the survey counted, and ends where it did. */
  lemma FieldsEndAlike(env: Env, cls: seq<byte>, cp: CpView, l: Layout, count: nat, j: nat, at: FieldsEnd, split: FieldSplit)
    requires j <= count && SurveyFields(cls, count - j, at.pos, at.fi, at.si) == Ok(split)
    ensures var o := DeriveFields(env, cls, cp, l, count, j, at).outcome;
      && NotInternal(o)
      && (o.Ok? ==> o.value.pos == split.pos && o.value.fi == split.fields && o.value.si == split.statics)
  {
    FieldsAreBy(env, cls, cp, l, count, j, at);
    ReadersEndAlike(env, cls, cp, l, count, j, at, split);
  }

  lemma ReadersEndAlike(env: Env, cls: seq<byte>, cp: CpView, l: Layout, count: nat, j: nat, at: FieldsEnd, split: FieldSplit)
    requires j <= count && SurveyFields(cls, count - j, at.pos, at.fi, at.si) == Ok(split)
    ensures var o := FieldsBy(FieldReader(env, cls, cp), l, count, j, at).outcome;
      && NotInternal(o)
      && (o.Ok? ==> o.value.pos == split.pos && o.value.fi == split.fields && o.value.si == split.statics)
  {
    SurveyIsBy(cls, count - j, at.pos, at.fi, at.si);
    FieldsReadAlike(env, cls, cp);
    EndsAlike(FieldReader(env, cls, cp), SurveyOne(cls), l, count, j, at, split);
  }

  lemma {:induction false} FieldsTyped(
    env: Env, cls: seq<byte>, cp: CpView, n: Counts, l: Layout, count: nat, j: nat, at: FieldsEnd, split: FieldSplit)
    requires NewLayout(n) == Ok(l) && j <= count
    requires SurveyFields(cls, count - j, at.pos, at.fi, at.si) == Ok(split)
    requires split.fields == n.fields && split.statics == n.statics
    ensures Typed(n, l, DeriveFields(env, cls, cp, l, count, j, at).puts)
    decreases count - j
  {
    if j < count {
      FieldSurveyed(env, cls, cp, count, j, at, split);
      if FieldAt(env, cls, cp, j, at.pos).Ok? {
        var f := FieldAt(env, cls, cp, j, at.pos).value;
        var next := NextField(f, at);
        FieldSplitGrows(cls, count - (j + 1), next.pos, next.fi, next.si);
        FieldsTyped(env, cls, cp, n, l, count, j + 1, next, split);
        FieldPutsTyped(n, l, f, at);
        TypedConcat(n, l, FieldPuts(l, f, at), DeriveFields(env, cls, cp, l, count, j + 1, next).puts);
      }
    }
  }

  lemma {:induction false} SubAttrsNotInternal(cls: seq<byte>, cp: CpView, n: nat, pos: nat, lnt: nat)
    ensures NotInternal(SubAttrs(cls, cp, n, pos, lnt))
    decreases n
  {
    if n > 0 && ReadU16(cls, pos).Ok? && ReadU32(cls, pos + 2).Ok? {
      var start := pos + 6;
      var lnt' := if lnt == 0 && Utf8(cp, ReadU16(cls, pos).value) == Some(LINE_NUMBER_TABLE) then start else lnt;
      SubAttrsNotInternal(cls, cp, n - 1, start + ReadU32(cls, pos + 2).value, lnt');
    }
  }

  lemma {:induction false} VerdictNotInternal(code: seq<byte>, pc: nat)
    requires |code| <= 65535
    ensures NotInternal(Bytecode.VerdictFrom(code, pc))
    decreases |code| - pc
  {
    if pc < |code| && Bytecode.LegalSomewhere(code, pc) {
      var end :| Bytecode.Legal(code, pc, end) && Bytecode.VerdictFrom(code, pc) == Bytecode.VerdictFrom(code, end);
      VerdictNotInternal(code, end);
    }
  }

  lemma SubsNotInternal(cls: seq<byte>, cp: CpView, p: nat, lnt: nat)
    ensures ReadU16(cls, p).Ok? ==> NotInternal(SubAttrs(cls, cp, ReadU16(cls, p).value, p + 2, lnt))
  {
    if ReadU16(cls, p).Ok? {
      SubAttrsNotInternal(cls, cp, ReadU16(cls, p).value, p + 2, lnt);
    }
  }

  lemma CodeNotInternal(cls: seq<byte>, cp: CpView, start: nat, lnt: nat)
    ensures NotInternal(CodeAttr(cls, cp, start, lnt))
  {
    if ReadU32(cls, start + 4).Ok? {
      var code := start + 8;
      var end := code + ReadU32(cls, start + 4).value;
      if end <= |cls| {
        if |cls[code..end]| <= 65535 {
          VerdictNotInternal(cls[code..end], 0);
        }
        if ReadU16(cls, end).Ok? {
          var p := end + 2 + 8 * ReadU16(cls, end).value as int;
          SubsNotInternal(cls, cp, p, lnt);
        }
      }
    }
  }

  lemma {:induction false} MethodAttrsNotInternal(cls: seq<byte>, cp: CpView, n: nat, pos: nat, refs: CodeRefs)
    ensures NotInternal(MethodAttrs(cls, cp, n, pos, refs))
    decreases n
  {
    if n > 0 && ReadU16(cls, pos).Ok? && ReadU32(cls, pos + 2).Ok? {
      CodeNotInternal(cls, cp, pos + 6, refs.lnt);
      var refs' := MethodAttr(cls, cp, ReadU16(cls, pos).value, pos + 6, refs);
      if refs'.Ok? {
        MethodAttrsNotInternal(cls, cp, n - 1, pos + 6 + ReadU32(cls, pos + 2).value, refs'.value);
      }
    }
  }

  lemma MethodNotInternal(env: Env, cls: seq<byte>, cp: CpView, mi: nat, pos: nat)
    ensures NotInternal(MethodAt(env, cls, cp, mi, pos))
  {
    if ReadU16(cls, pos + 6).Ok? {
      MethodAttrsNotInternal(cls, cp, ReadU16(cls, pos + 6).value, pos + 8, CodeRefs(0, 0));
    }
  }

  lemma {:induction false} MethodsNotInternal(env: Env, cls: seq<byte>, cp: CpView, l: Layout, count: nat, mi: nat, pos: nat)
    ensures NotInternal(DeriveMethods(env, cls, cp, l, count, mi, pos).outcome)
    decreases count - mi
  {
    MethodNotInternal(env, cls, cp, mi, pos);
    if mi < count && MethodAt(env, cls, cp, mi, pos).Ok? {
      MethodsNotInternal(env, cls, cp, l, count, mi + 1, MethodAt(env, cls, cp, mi, pos).value.next);
    }
  }

  lemma MethodPutsTyped(n: Counts, l: Layout, mi: nat, pos: nat, m: Method)
    requires NewLayout(n) == Ok(l) && mi < n.methods
    ensures Typed(n, l, MethodPuts(l, mi, pos, m))
  {
    TypedRun(n, l, MethodPuts(l, mi, pos, m), l.methodsOff + 6 * mi);
  }

  lemma MethodThenTyped(n: Counts, l: Layout, mi: nat, pos: nat, m: Method, rest: seq<Put>)
    requires NewLayout(n) == Ok(l) && mi < n.methods && Typed(n, l, rest)
    ensures Typed(n, l, MethodPuts(l, mi, pos, m) + rest)
  {
    MethodPutsTyped(n, l, mi, pos, m);
    TypedConcat(n, l, MethodPuts(l, mi, pos, m), rest);
  }

  /** The derivation of the methods, whatever reads them. */
  function MethodsBy(read: (nat, nat) -> Result<Method>, l: Layout, count: nat, mi: nat, pos: nat): Derived<nat>
    decreases count - mi
  {
    if mi >= count then Return(pos)
    else
      match read(mi, pos)
      case Err(e) => Fail(e)
      case Ok(m) => Emit(MethodPuts(l, mi, pos, m), MethodsBy(read, l, count, mi + 1, m.next))
  }

  ghost function Reader(env: Env, cls: seq<byte>, cp: CpView): (nat, nat) -> Result<Method> {
    (mi: nat, pos: nat) => MethodAt(env, cls, cp, mi, pos)
  }

  lemma {:induction false} MethodsAreBy(env: Env, cls: seq<byte>, cp: CpView, l: Layout, count: nat, mi: nat, pos: nat)
    ensures DeriveMethods(env, cls, cp, l, count, mi, pos) == MethodsBy(Reader(env, cls, cp), l, count, mi, pos)
    decreases count - mi
  {
    if mi < count && MethodAt(env, cls, cp, mi, pos).Ok? {
      MethodsAreBy(env, cls, cp, l, count, mi + 1, MethodAt(env, cls, cp, mi, pos).value.next);
    }
  }

  lemma {:induction false} ReadMethodsTyped(read: (nat, nat) -> Result<Method>, n: Counts, l: Layout, mi: nat, pos: nat)
    requires NewLayout(n) == Ok(l)
    ensures Typed(n, l, MethodsBy(read, l, n.methods, mi, pos).puts)
    decreases n.methods - mi
  {
    if mi < n.methods && read(mi, pos).Ok? {
      var m := read(mi, pos).value;
      ReadMethodsTyped(read, n, l, mi + 1, m.next);
      MethodThenTyped(n, l, mi, pos, m, MethodsBy(read, l, n.methods, mi + 1, m.next).puts);
    }
  }

  lemma MethodsTyped(env: Env, cls: seq<byte>, cp: CpView, n: Counts, l: Layout, pos: nat)
    requires NewLayout(n) == Ok(l)
    ensures Typed(n, l, DeriveMethods(env, cls, cp, l, n.methods, 0, pos).puts)
  {
    MethodsAreBy(env, cls, cp, l, n.methods, 0, pos);
    ReadMethodsTyped(Reader(env, cls, cp), n, l, 0, pos);
  }

  lemma {:induction false} SkipBootstrapNotInternal(cls: seq<byte>, n: nat, pos: nat)
    ensures NotInternal(SkipBootstrap(cls, n, pos))
    decreases n
  {
    if n > 0 && ReadU16(cls, pos + 2).Ok? {
      SkipBootstrapNotInternal(cls, n - 1, pos + 4 + 2 * ReadU16(cls, pos + 2).value as int);
    }
  }

  lemma ClassAttrNotInternal(cls: seq<byte>, cp: CpView, attrName: nat, attrLen: nat, start: nat, a: ClassAttrs)
    ensures NotInternal(ClassAttr(cls, cp, attrName, attrLen, start, a))
  {
    if ReadU16(cls, start).Ok? {
      SkipBootstrapNotInternal(cls, ReadU16(cls, start).value, start + 2);
    }
  }

  lemma {:induction false} ClassAttrsNotInternal(cls: seq<byte>, cp: CpView, n: nat, pos: nat, a: ClassAttrs)
    ensures NotInternal(ClassAttrsFrom(cls, cp, n, pos, a))
    decreases n
  {
    if n > 0 && ReadU16(cls, pos).Ok? && ReadU32(cls, pos + 2).Ok? {
      var name, len := ReadU16(cls, pos).value, ReadU32(cls, pos + 2).value;
      ClassAttrNotInternal(cls, cp, name, len, pos + 6, a);
      var a' := ClassAttr(cls, cp, name, len, pos + 6, a);
      if a'.Ok? {
        ClassAttrsNotInternal(cls, cp, n - 1, pos + 6 + len, a'.value);
      }
    }
  }

  lemma HeaderTyped(cls: seq<byte>, n: Counts, l: Layout, head: Head, own: nat, a: ClassAttrs)
    requires NewLayout(n) == Ok(l)
    ensures Typed(n, l, HeaderPuts(cls, n, l, head, own, a))
  {
    var puts := HeaderPuts(cls, n, l, head, own, a);
    forall k | 0 <= k < |puts|
      ensures TypedPut(n, l, puts[k])
    {
      assert puts[k].word == k && (puts[k].PutExternal? <==> 22 <= k <= 25);
    }
    AllTyped(n, l, puts);
  }

  lemma TailTyped(cls: seq<byte>, cp: CpView, n: Counts, l: Layout, head: Head, own: nat, pos: nat)
    requires NewLayout(n) == Ok(l)
    ensures Typed(n, l, DeriveTail(cls, cp, n, l, head, own, pos).puts)
    ensures NotInternal(DeriveTail(cls, cp, n, l, head, own, pos).outcome)
  {
    if ReadU16(cls, pos).Ok? {
      var count := ReadU16(cls, pos).value;
      ClassAttrsNotInternal(cls, cp, count, pos + 2, ClassAttrs(0, 0));
      if ClassAttrsFrom(cls, cp, count, pos + 2, ClassAttrs(0, 0)).Ok? {
        var a := ClassAttrsFrom(cls, cp, count, pos + 2, ClassAttrs(0, 0)).value;
        HeaderTyped(cls, n, l, head, own, a);
        TypedRun(n, l, PadPuts(n, l), l.strsOff + 2 * n.strs);
        TypedConcat(n, l, HeaderPuts(cls, n, l, head, own, a), PadPuts(n, l));
      }
    }
  }

  // ---- put together ------------------------------------------------------

  lemma FromMethodsTyped(env: Env, cls: seq<byte>, cp: CpView, n: Counts, l: Layout, head: Head, own: nat, pos: nat)
    requires NewLayout(n) == Ok(l) && (ReadU16(cls, pos).Ok? ==> ReadU16(cls, pos).value == n.methods)
    ensures Typed(n, l, DeriveFromMethods(env, cls, cp, n, l, head, own, pos).puts)
    ensures NotInternal(DeriveFromMethods(env, cls, cp, n, l, head, own, pos).outcome)
  {
    if ReadU16(cls, pos).Ok? {
      var d := DeriveMethods(env, cls, cp, l, n.methods, 0, pos + 2);
      MethodsTyped(env, cls, cp, n, l, pos + 2);
      MethodsNotInternal(env, cls, cp, l, n.methods, 0, pos + 2);
      if d.outcome.Ok? {
        TailTyped(cls, cp, n, l, head, own, d.outcome.value);
        TypedConcat(n, l, d.puts, DeriveTail(cls, cp, n, l, head, own, d.outcome.value).puts);
      }
    }
  }

  /** Where the survey found the fields, and how many there are of each kind. */
  lemma SurveyedAt(cls: seq<byte>, cp: CpView, n: Counts) returns (pos: nat, split: FieldSplit)
    requires Survey(cls, cp, n.cpCount, n.posAfterCp) == Ok(n)
    ensures ReadU16(cls, n.posAfterCp + 6) == Ok(n.ifaces)
    ensures pos == n.posAfterCp + 8 + 2 * n.ifaces && ReadU16(cls, pos).Ok?
    ensures SurveyFields(cls, ReadU16(cls, pos).value, pos + 2, 0, 0) == Ok(split)
    ensures split.fields == n.fields && split.statics == n.statics
    ensures ReadU16(cls, split.pos) == Ok(n.methods)
  {
    pos := n.posAfterCp + 8 + 2 * n.ifaces;
    split := SurveyFields(cls, ReadU16(cls, pos).value, pos + 2, 0, 0).value;
  }

  lemma FromFieldsTyped(env: Env, cls: seq<byte>, cp: CpView, n: Counts, l: Layout, head: Head, pos: nat, split: FieldSplit)
    requires NewLayout(n) == Ok(l) && ReadU16(cls, pos).Ok?
    requires SurveyFields(cls, ReadU16(cls, pos).value, pos + 2, 0, 0) == Ok(split)
    requires split.fields == n.fields && split.statics == n.statics && ReadU16(cls, split.pos) == Ok(n.methods)
    ensures Typed(n, l, DeriveFromFields(env, cls, cp, n, l, head, pos).puts)
    ensures NotInternal(DeriveFromFields(env, cls, cp, n, l, head, pos).outcome)
  {
    var count, start := ReadU16(cls, pos).value, FieldsEnd(pos + 2, 0, 0, 0);
    var d := DeriveFields(env, cls, cp, l, count, 0, start);
    FieldsTyped(env, cls, cp, n, l, count, 0, start, split);
    FieldsEndAlike(env, cls, cp, l, count, 0, start, split);
    if d.outcome.Ok? {
      var end := d.outcome.value;
      FromMethodsTyped(env, cls, cp, n, l, head, end.own, end.pos);
      TypedConcat(n, l, d.puts, DeriveFromMethods(env, cls, cp, n, l, head, end.own, end.pos).puts);
    }
  }

  lemma FromHeadTyped(env: Env, cls: seq<byte>, cp: CpView, n: Counts, l: Layout, head: Head, pos: nat, split: FieldSplit)
    requires NewLayout(n) == Ok(l)
    requires head.ifaces == n.ifaces && pos == head.pos + 2 * n.ifaces && ReadU16(cls, pos).Ok?
    requires SurveyFields(cls, ReadU16(cls, pos).value, pos + 2, 0, 0) == Ok(split)
    requires split.fields == n.fields && split.statics == n.statics && ReadU16(cls, split.pos) == Ok(n.methods)
    ensures Typed(n, l, DeriveFromHead(env, cls, cp, n, l, head).puts)
    ensures NotInternal(DeriveFromHead(env, cls, cp, n, l, head).outcome)
  {
    IfacesTyped(env, cls, cp, n, l, 0, head.pos);
    IfacesEnd(env, cls, cp, l, n.ifaces, 0, head.pos);
    FromFieldsTyped(env, cls, cp, n, l, head, pos, split);
    TypedConcat(n, l, DeriveIfaces(env, cls, cp, l, n.ifaces, 0, head.pos).puts,
                DeriveFromFields(env, cls, cp, n, l, head, pos).puts);
  }

  lemma HeadReads(env: Env, cls: seq<byte>, cp: CpView, pos: nat)
    ensures NotInternal(HeadAt(env, cls, cp, pos))
    ensures HeadAt(env, cls, cp, pos).Ok? ==>
      var head := HeadAt(env, cls, cp, pos).value;
      head.pos == pos + 8 && ReadU16(cls, pos + 6) == Ok(head.ifaces)
  {
  }

  lemma MembersTyped(env: Env, cls: seq<byte>, cp: CpView, n: Counts, l: Layout)
    requires Prepared(cls, cp, n, l)
    ensures Typed(n, l, DeriveMembers(env, cls, cp, n, l).puts)
    ensures NotInternal(DeriveMembers(env, cls, cp, n, l).outcome)
  {
    var pos, split := SurveyedAt(cls, cp, n);
    HeadReads(env, cls, cp, n.posAfterCp);
    var h := HeadAt(env, cls, cp, n.posAfterCp);
    if h.Ok? {
      FromHeadTyped(env, cls, cp, n, l, h.value, pos, split);
    }
  }

  lemma ThenTyped(n: Counts, l: Layout, first: Derived<()>, next: Derived<()>)
    requires Typed(n, l, first.puts) && Typed(n, l, next.puts)
    requires NotInternal(first.outcome) && NotInternal(next.outcome)
    ensures Typed(n, l, Then(first, next).puts) && NotInternal(Then(first, next).outcome)
  {
    TypedConcat(n, l, first.puts, next.puts);
  }

  /** The theorem: once a class is surveyed, its derivation, whether it succeeds
      or fails, puts only words of the table, treats exactly the section's words
      as external, and never fails with `Internal`. */
  lemma DerivationTyped(env: Env, cls: seq<byte>, cp: CpView, n: Counts, l: Layout)
    requires Prepared(cls, cp, n, l)
    ensures Typed(n, l, DeriveTable(env, cls, cp, n, l).puts)
    ensures NotInternal(DeriveTable(env, cls, cp, n, l).outcome)
  {
    SurveyNotInternal(cls, cp, n.cpCount, n.posAfterCp);
    var members := DeriveMembers(env, cls, cp, n, l);
    var check: Derived<()> := Derived([], CheckNames(env, cls, cp, n, 0));
    var strs := DeriveStrs(cls, cp, n, l, 0, 0);
    var mrefs := DeriveMrefs(cls, cp, n, l, 0, 0);
    MembersTyped(env, cls, cp, n, l);
    NamesNotInternal(env, cls, cp, n, 0);
    StrsTyped(cls, cp, n, l, 0, 0);
    StrsNotInternal(cls, cp, n, l, 0, 0);
    MrefsTyped(cls, cp, n, l, 0, 0);
    MrefsNotInternal(cls, cp, n, l, 0, 0);
    CpTyped(cp, n, l, 0, 0, 0, 0);
    ThenTyped(n, l, check, members);
    ThenTyped(n, l, strs, Then(check, members));
    ThenTyped(n, l, mrefs, Then(strs, Then(check, members)));
    ThenTyped(n, l, DeriveCp(cp, n, l, 0, 0, 0, 0), Then(mrefs, Then(strs, Then(check, members))));
  }
}
