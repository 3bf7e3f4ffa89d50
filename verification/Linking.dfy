/** The translation and its validator: `link_pooled` of
    `crates/class-link/src/build.rs` and `Link::validate` of
    `crates/class-link/src/validate.rs` as functions, and the theorem that the
    validator accepts exactly the tables the builder writes, up to the words
    that name something in the section. */
module Linking {
  import opened Bytes
  import opened ClassFile
  import opened Coverage
  import opened DeriveFacts
  import opened LinkTable
  import opened Sinks

  // ---- the builder's view of a pooled class ------------------------------

  function VisitTags(visits: seq<Visit>): seq<byte> {
    seq(|visits|, k requires 0 <= k < |visits| => visits[k].tag)
  }

  /** The offsets the builder's visitor records: a `Utf8`'s next ref, any other
      entry's data offset. Running out of refs is `Internal`. */
  function ViewOffsets(visits: seq<Visit>, refs: seq<u16>): Result<seq<Option<nat>>>
    decreases |visits|
  {
    if visits == [] then Ok([])
    else if visits[0].tag == TAG_UTF8 then
      if refs == [] then Err(Internal)
      else
        var rest :- ViewOffsets(visits[1..], refs[1..]);
        Ok([Some(refs[0])] + rest)
    else
      var rest :- ViewOffsets(visits[1..], refs);
      Ok([Some(AsU16(visits[0].off))] + rest)
  }

  function Utf8Count(visits: seq<Visit>): nat {
    if visits == [] then 0 else (if visits[0].tag == TAG_UTF8 then 1 else 0) + Utf8Count(visits[1..])
  }

  datatype Plan = Plan(view: CpView, n: Counts, l: Layout)

  /** Everything `link_pooled` settles before it derives. */
  function PlanLink(cls: seq<byte>, refs: seq<u16>, pool: seq<byte>): Result<Plan> {
    var w := WalkCp(cls, Pooled);
    var offsets :- ViewOffsets(w.visits, refs);
    var counted :- w.outcome;
    var view := CpView(VisitTags(w.visits), offsets, pool);
    var n :- Survey(cls, view, counted.0, counted.1);
    var l :- NewLayout(n);
    Ok(Plan(view, n, l))
  }

  function EmptyTable(n: nat): seq<u16> { seq(n, _ => 0) }

  /** `link_pooled`: the table of a pooled class, the section's words at their
      placeholders. */
  ghost function LinkPooled(env: Env, cls: seq<byte>, refs: seq<u16>, pool: seq<byte>): Result<seq<u16>> {
    var p :- PlanLink(cls, refs, pool);
    WriteRun(EmptyTable(p.l.totalWords), DeriveTable(env, cls, p.view, p.n, p.l))
  }

  // ---- the validator -----------------------------------------------------

  /** What the validator's visitor checks of one constant-pool slot. */
  function CheckVisit(l: Link, v: Visit): Result<()>
    requires Valid(l)
  {
    if CpTag(l, v.index) != Some(v.tag) then Err(WordMismatch(AsU16(HEADER_WORDS + CpCount(l) + v.index / 2)))
    else if v.tag == TAG_UTF8 then
      var r :- OkOr(CpWordAt(l, v.index), Internal);
      if PoolUtf8(l.pool, r).None? then Err(BadOffset(AsU16(HEADER_WORDS + v.index))) else Ok(())
    else if CpOffset(l, v.index) != Some(v.off) then Err(WordMismatch(AsU16(HEADER_WORDS + v.index)))
    else Ok(())
  }

  function CheckVisits(l: Link, visits: seq<Visit>): Result<()>
    requires Valid(l)
  {
    if visits == [] then Ok(())
    else
      var _ :- CheckVisit(l, visits[0]);
      CheckVisits(l, visits[1..])
  }

  /** The part of `Link::validate` after the constant pool is checked. */
  ghost function ValidateWords(env: Env, l: Link, cls: seq<byte>, cpCount: nat, pos: nat): Result<()>
    requires Valid(l)
  {
    if cpCount != CpCount(l) then Err(WordMismatch(3))
    else
      var n :- Survey(cls, LinkView(l), cpCount, pos);
      var layout :- NewLayout(n);
      if layout.totalWords != |l.words| then Err(BadHeader)
      else
        var d := DeriveTable(env, cls, LinkView(l), n, layout);
        var _ :- CheckRun(l.words, d);
        if |d.puts| != layout.totalWords then Err(Internal) else Ok(())
  }

  /** `Link::validate` */
  ghost function ValidateLink(env: Env, l: Link, cls: seq<byte>): Result<()>
    requires Valid(l)
  {
    if ClassLen(l) != |cls| then Err(WordMismatch(2))
    else
      var w := WalkCp(cls, Pooled);
      var _ :- CheckVisits(l, w.visits);
      var counted :- w.outcome;
      ValidateWords(env, l, cls, counted.0, counted.1)
  }

  // ---- facts about the walk ----------------------------------------------

  lemma {:induction false} WalkVisitsInOrder(cls: seq<byte>, form: Utf8Form, count: nat, idx: nat, pos: nat)
    ensures var w := WalkFrom(cls, form, count, idx, pos);
      && (forall k | 0 <= k < |w.visits| :: w.visits[k].index == idx + k && w.visits[k].off <= |cls|)
      && (w.outcome.Ok? ==> |w.visits| == if idx < count then count - idx else 0)
      && NotInternal(w.outcome)
    decreases count - idx
  {
    if idx < count && pos < |cls| && EntryEnd(cls, form, idx, cls[pos], pos + 1).Ok? {
      WalkVisitsInOrder(cls, form, count, NextIndex(idx, cls[pos]), EntryEnd(cls, form, idx, cls[pos], pos + 1).value);
    }
  }

  lemma WalkVisits(cls: seq<byte>, form: Utf8Form)
    ensures var w := WalkCp(cls, form);
      && (forall k | 0 <= k < |w.visits| :: w.visits[k].index == k && w.visits[k].off < 0x1_0000)
      && (w.outcome.Ok? ==> |w.visits| == if w.outcome.value.0 == 0 then 1 else w.outcome.value.0)
      && NotInternal(w.outcome)
  {
    if ReadHeader(cls).Ok? {
      WalkVisitsInOrder(cls, form, ReadHeader(cls).value, 1, 10);
    }
  }

  lemma {:induction false} OffsetsAreFull(visits: seq<Visit>, refs: seq<u16>)
    ensures ViewOffsets(visits, refs).Ok? <==> Utf8Count(visits) <= |refs|
    ensures ViewOffsets(visits, refs).Ok? ==>
      var o := ViewOffsets(visits, refs).value;
      && |o| == |visits|
      && forall k | 0 <= k < |o| :: o[k].Some? && o[k].value < 0x1_0000
    decreases |visits|
  {
    if visits != [] {
      if visits[0].tag != TAG_UTF8 {
        OffsetsAreFull(visits[1..], refs);
      } else if refs != [] {
        OffsetsAreFull(visits[1..], refs[1..]);
      }
    }
  }

  /** A ref recorded for a `Utf8` is one of the refs given; any other entry's
      offset is its own. */
  lemma {:induction false} OffsetsComeFrom(visits: seq<Visit>, refs: seq<u16>, k: nat)
    requires ViewOffsets(visits, refs).Ok? && k < |visits|
    ensures |ViewOffsets(visits, refs).value| == |visits|
    ensures var o := ViewOffsets(visits, refs).value[k];
      && o.Some?
      && if visits[k].tag == TAG_UTF8 then o.value in refs else o.value == AsU16(visits[k].off)
    decreases |visits|
  {
    OffsetsAreFull(visits, refs);
    if k > 0 {
      OffsetsComeFrom(visits[1..], if visits[0].tag == TAG_UTF8 then refs[1..] else refs, k - 1);
    }
  }

  lemma PlanPrepared(cls: seq<byte>, refs: seq<u16>, pool: seq<byte>)
    requires PlanLink(cls, refs, pool).Ok?
    ensures var p := PlanLink(cls, refs, pool).value;
      Prepared(cls, p.view, p.n, p.l) && p.view.pool == pool
  {
    var w := WalkCp(cls, Pooled);
    WalkVisits(cls, Pooled);
    OffsetsAreFull(w.visits, refs);
    var view := PlanLink(cls, refs, pool).value.view;
    SurveyNotInternal(cls, view, w.outcome.value.0, w.outcome.value.1);
  }

  /** The builder never fails with `Internal` when it has a ref for every `Utf8`. */
  lemma BuilderNeverInternal(env: Env, cls: seq<byte>, refs: seq<u16>, pool: seq<byte>)
    requires Utf8Count(WalkCp(cls, Pooled).visits) <= |refs|
    ensures NotInternal(LinkPooled(env, cls, refs, pool))
  {
    var w := WalkCp(cls, Pooled);
    WalkVisits(cls, Pooled);
    OffsetsAreFull(w.visits, refs);
    if w.outcome.Ok? {
      var view := CpView(VisitTags(w.visits), ViewOffsets(w.visits, refs).value, pool);
      SurveyNotInternal(cls, view, w.outcome.value.0, w.outcome.value.1);
    }
    if PlanLink(cls, refs, pool).Ok? {
      var p := PlanLink(cls, refs, pool).value;
      PlanPrepared(cls, refs, pool);
      DerivationTyped(env, cls, p.view, p.n, p.l);
      var puts := DeriveTable(env, cls, p.view, p.n, p.l).puts;
      WritesFail(EmptyTable(p.l.totalWords), puts);
      forall k | 0 <= k < |puts|
        ensures puts[k].word < p.l.totalWords
      {
        TypedAt(p.n, p.l, puts, k);
      }
    }
  }

  // ---- a table that holds what is derived shows the same pool ------------

  /** The pieces of a successful derivation that a reader goes by. */
  lemma AgreesByParts(env: Env, cls: seq<byte>, p: Plan, words: seq<u16>) returns (head: Head, own: nat, a: ClassAttrs)
    requires var d := DeriveTable(env, cls, p.view, p.n, p.l); d.outcome.Ok? && Agrees(words, d.puts)
    ensures Agrees(words, DeriveCp(p.view, p.n, p.l, 0, 0, 0, 0).puts)
    ensures Agrees(words, DeriveMrefs(cls, p.view, p.n, p.l, 0, 0).puts)
    ensures Agrees(words, DeriveStrs(cls, p.view, p.n, p.l, 0, 0).puts)
    ensures DeriveCp(p.view, p.n, p.l, 0, 0, 0, 0).outcome.Ok?
    ensures DeriveMrefs(cls, p.view, p.n, p.l, 0, 0).outcome.Ok?
    ensures DeriveStrs(cls, p.view, p.n, p.l, 0, 0).outcome.Ok?
    ensures HeadAt(env, cls, p.view, p.n.posAfterCp) == Ok(head)
    ensures Agrees(words, HeaderPuts(cls, p.n, p.l, head, own, a))
  {
    var members := DeriveMembers(env, cls, p.view, p.n, p.l);
    var names := Then(Derived([], CheckNames(env, cls, p.view, p.n, 0)), members);
    var strs := Then(DeriveStrs(cls, p.view, p.n, p.l, 0, 0), names);
    var mrefs := Then(DeriveMrefs(cls, p.view, p.n, p.l, 0, 0), strs);
    AgreesThen(words, DeriveCp(p.view, p.n, p.l, 0, 0, 0, 0), mrefs);
    AgreesThen(words, DeriveMrefs(cls, p.view, p.n, p.l, 0, 0), strs);
    AgreesThen(words, DeriveStrs(cls, p.view, p.n, p.l, 0, 0), names);
    AgreesThen(words, Derived([], CheckNames(env, cls, p.view, p.n, 0)), members);
    head := HeadAt(env, cls, p.view, p.n.posAfterCp).value;
    own, a := HeaderAgrees(env, cls, p, words, head);
  }

  lemma CpAgrees(env: Env, cls: seq<byte>, p: Plan, words: seq<u16>)
    requires Holds(env, cls, p, words)
    ensures Agrees(words, DeriveCp(p.view, p.n, p.l, 0, 0, 0, 0).puts)
    ensures FullView(p.view) && p.n.cpCount <= |p.view.tags|
  {
    var head, own, a := AgreesByParts(env, cls, p, words);
  }

  lemma AgreesThen<T>(words: seq<u16>, first: Derived<()>, next: Derived<T>)
    requires Then(first, next).outcome.Ok? && Agrees(words, Then(first, next).puts)
    ensures first.outcome.Ok? && Agrees(words, first.puts)
    ensures next.outcome.Ok? && Agrees(words, next.puts)
  {
    AgreesConcat(words, first.puts, next.puts);
  }

  lemma HeaderAgrees(env: Env, cls: seq<byte>, p: Plan, words: seq<u16>, head: Head) returns (own: nat, a: ClassAttrs)
    requires var d := DeriveFromHead(env, cls, p.view, p.n, p.l, head); d.outcome.Ok? && Agrees(words, d.puts)
    ensures Agrees(words, HeaderPuts(cls, p.n, p.l, head, own, a))
  {
    var ifaces := DeriveIfaces(env, cls, p.view, p.l, head.ifaces, 0, head.pos);
    var pos := ifaces.outcome.value;
    AgreesConcat(words, ifaces.puts, DeriveFromFields(env, cls, p.view, p.n, p.l, head, pos).puts);
    var fields := DeriveFields(env, cls, p.view, p.l, ReadU16(cls, pos).value, 0, FieldsEnd(pos + 2, 0, 0, 0));
    var end := fields.outcome.value;
    own := end.own;
    AgreesConcat(words, fields.puts, DeriveFromMethods(env, cls, p.view, p.n, p.l, head, own, end.pos).puts);
    a := TailAgrees(env, cls, p, words, head, own, end.pos);
  }

  lemma TailAgrees(env: Env, cls: seq<byte>, p: Plan, words: seq<u16>, head: Head, own: nat, pos: nat)
    returns (a: ClassAttrs)
    requires var d := DeriveFromMethods(env, cls, p.view, p.n, p.l, head, own, pos); d.outcome.Ok? && Agrees(words, d.puts)
    ensures Agrees(words, HeaderPuts(cls, p.n, p.l, head, own, a))
  {
    var methods := DeriveMethods(env, cls, p.view, p.l, p.n.methods, 0, pos + 2);
    var end := methods.outcome.value;
    AgreesConcat(words, methods.puts, DeriveTail(cls, p.view, p.n, p.l, head, own, end).puts);
    a := ClassAttrsFrom(cls, p.view, ReadU16(cls, end).value, end + 2, ClassAttrs(0, 0)).value;
    AgreesConcat(words, HeaderPuts(cls, p.n, p.l, head, own, a), PadPuts(p.n, p.l));
  }

  /** The header words as put. */
  predicate RawHeader(cls: seq<byte>, p: Plan, words: seq<u16>) {
    && |words| >= HEADER_WORDS
    && words[0] == LINK_MAGIC && words[1] == AsU16(p.l.totalWords) && words[2] == AsU16(|cls|)
    && words[3] == AsU16(p.n.cpCount) && words[4] == AsU16(p.n.fields) && words[5] == AsU16(p.n.statics)
    && words[6] == AsU16(p.n.ifaces) && words[7] == AsU16(p.n.methods) && words[8] == AsU16(p.n.mrefs)
    && words[9] == AsU16(p.l.methodsOff) && words[10] == AsU16(p.l.mrefsOff) && words[20] == AsU16(p.n.strs)
  }

  lemma HeaderWordsHold(cls: seq<byte>, p: Plan, words: seq<u16>, head: Head, own: nat, a: ClassAttrs)
    requires Agrees(words, HeaderPuts(cls, p.n, p.l, head, own, a)) && |words| >= HEADER_WORDS
    ensures RawHeader(cls, p, words)
    ensures words[13] == AsU16(head.name.r) && words[14] == AsU16(head.super.r)
    ensures words[16] + words[17] as int * 0x1_0000 == head.name.hash
    ensures words[18] + words[19] as int * 0x1_0000 == head.super.hash
    ensures words[21] == AsU16(own)
  {
    var puts := HeaderPuts(cls, p.n, p.l, head, own, a);
    forall k | 0 <= k < 22
      ensures puts[k].word == k && words[k] == puts[k].value
    {
      assert puts[k].Put?;
    }
  }

  lemma {:induction false} CpWordHolds(
    words: seq<u16>, cp: CpView, n: Counts, l: Layout, i: nat, k: nat, ks: nat, lo: byte, j: nat)
    requires FullView(cp) && i <= j < n.cpCount <= |cp.tags| && k == MrefsUpTo(cp, i) && ks == StrsUpTo(cp, i)
    requires Agrees(words, DeriveCp(cp, n, l, i, k, ks, lo).puts)
    ensures HEADER_WORDS + j < |words|
    ensures words[HEADER_WORDS + j] == AsU16(CpWord(cp, l, j, cp.tags[j], MrefsUpTo(cp, j), StrsUpTo(cp, j)).value)
    decreases j - i
  {
    var tag := cp.tags[i];
    var ps := CpPuts(n, i, CpWord(cp, l, i, tag, k, ks).value, lo, tag);
    var k', ks' := MrefsUpTo(cp, i + 1), StrsUpTo(cp, i + 1);
    var lo' := if i % 2 == 0 then tag else lo;
    AgreesConcat(words, ps, DeriveCp(cp, n, l, i + 1, k', ks', lo').puts);
    if i < j {
      CpWordHolds(words, cp, n, l, i + 1, k', ks', lo', j);
    } else {
      assert ps[0] == Put(HEADER_WORDS + i, AsU16(CpWord(cp, l, i, tag, k, ks).value));
    }
  }

  /** Entries `2m` and `2m + 1` in one word. */
  function TagPair(cp: CpView, count: nat, m: nat): int
    requires 2 * m < count <= |cp.tags|
  {
    cp.tags[2 * m] + if 2 * m + 1 < count then 0x100 * cp.tags[2 * m + 1] as int else 0
  }

  /** An odd entry is left over for a word of its own. */
  lemma LastTagWord(words: seq<u16>, cp: CpView, n: Counts, l: Layout, k: nat, ks: nat, lo: byte, m: nat)
    requires FullView(cp) && n.cpCount <= |cp.tags| && n.cpCount == 2 * m + 1 && lo == cp.tags[2 * m]
    requires Agrees(words, DeriveCp(cp, n, l, n.cpCount, k, ks, lo).puts)
    ensures HEADER_WORDS + n.cpCount + m < |words| && words[HEADER_WORDS + n.cpCount + m] == TagPair(cp, n.cpCount, m)
  {
    assert n.cpCount / 2 == m && n.cpCount % 2 == 1;
    assert DeriveCp(cp, n, l, n.cpCount, k, ks, lo).puts[0] == Put(HEADER_WORDS + n.cpCount + m, lo);
  }

  /** The second entry of a pair completes its word. */
  lemma PairedTagWord(words: seq<u16>, cp: CpView, n: Counts, word: nat, lo: byte, tag: byte, m: nat)
    requires 2 * m + 1 < n.cpCount <= |cp.tags| && lo == cp.tags[2 * m] && tag == cp.tags[2 * m + 1]
    requires Agrees(words, CpPuts(n, 2 * m + 1, word, lo, tag))
    ensures HEADER_WORDS + n.cpCount + m < |words| && words[HEADER_WORDS + n.cpCount + m] == TagPair(cp, n.cpCount, m)
  {
    assert CpPuts(n, 2 * m + 1, word, lo, tag)[1] == Put(HEADER_WORDS + n.cpCount + m, lo + 0x100 * tag as int);
  }

  /** After an even entry its tag waits for the next. */
  lemma TagKept(cp: CpView, i: nat, lo: byte, tag: byte, lo': byte)
    requires i < |cp.tags| && tag == cp.tags[i] && lo' == if i % 2 == 0 then tag else lo
    ensures (i + 1) % 2 == 1 ==> lo' == cp.tags[i + 1 - 1]
  {
  }

  /** Tag word `m` holds entries `2m` and `2m + 1`. */
  lemma {:induction false} TagWordHolds(
    words: seq<u16>, cp: CpView, n: Counts, l: Layout, i: nat, k: nat, ks: nat, lo: byte, m: nat)
    requires FullView(cp) && n.cpCount <= |cp.tags| && 2 * m < n.cpCount
    requires i <= 2 * m + 1 && i <= n.cpCount && (i % 2 == 1 ==> lo == cp.tags[i - 1])
    requires Agrees(words, DeriveCp(cp, n, l, i, k, ks, lo).puts)
    ensures HEADER_WORDS + n.cpCount + m < |words|
    ensures words[HEADER_WORDS + n.cpCount + m]
            == TagPair(cp, n.cpCount, m)
    decreases n.cpCount - i
  {
    hide DeriveCp, CpPuts, TagPair, Agrees, FullView;
    if i == n.cpCount {
      LastTagWord(words, cp, n, l, k, ks, lo, m);
    } else {
      var tag, word, k', ks', lo' := NextCp(cp, n, l, i, k, ks, lo);
      var ps := CpPuts(n, i, word, lo, tag);
      AgreesConcat(words, ps, DeriveCp(cp, n, l, i + 1, k', ks', lo').puts);
      if i == 2 * m + 1 {
        PairedTagWord(words, cp, n, word, lo, tag, m);
      } else {
        TagKept(cp, i, lo, tag, lo');
        TagWordHolds(words, cp, n, l, i + 1, k', ks', lo', m);
      }
    }
  }

  lemma {:induction false} MrefHolds(words: seq<u16>, cls: seq<byte>, cp: CpView, n: Counts, l: Layout, i: nat, j: nat)
    requires n.cpCount <= |cp.tags| && i <= j < n.cpCount && IsMethodref(cp.tags[j])
    requires var d := DeriveMrefs(cls, cp, n, l, i, MrefsUpTo(cp, i)); d.outcome.Ok? && Agrees(words, d.puts)
    ensures Offset(cp, j).Some? && l.mrefsOff + 2 * MrefsUpTo(cp, j) < |words|
    ensures words[l.mrefsOff + 2 * MrefsUpTo(cp, j)] == AsU16(Offset(cp, j).value)
    decreases j - i
  {
    var k := MrefsUpTo(cp, i);
    if IsMethodref(cp.tags[i]) {
      var (off, argcFlags) := MethodrefAt(cls, cp, i, cp.tags[i]).value;
      var ps := [Put(l.mrefsOff + 2 * k, AsU16(off)), Put(l.mrefsOff + 2 * k + 1, argcFlags)];
      AgreesConcat(words, ps, DeriveMrefs(cls, cp, n, l, i + 1, k + 1).puts);
      assert ps[0] == Put(l.mrefsOff + 2 * k, AsU16(off));
    }
    if i < j {
      MrefHolds(words, cls, cp, n, l, i + 1, j);
    }
  }

  lemma {:induction false} StrHolds(words: seq<u16>, cls: seq<byte>, cp: CpView, n: Counts, l: Layout, i: nat, j: nat)
    requires n.cpCount <= |cp.tags| && i <= j < n.cpCount && cp.tags[j] == TAG_STRING
    requires var d := DeriveStrs(cls, cp, n, l, i, StrsUpTo(cp, i)); d.outcome.Ok? && Agrees(words, d.puts)
    ensures Offset(cp, j).Some? && l.strsOff + 2 * StrsUpTo(cp, j) < |words|
    ensures words[l.strsOff + 2 * StrsUpTo(cp, j)] == AsU16(Offset(cp, j).value)
    decreases j - i
  {
    var ks := StrsUpTo(cp, i);
    if cp.tags[i] == TAG_STRING {
      var off := StringAt(cls, cp, i).value;
      var ps := [Put(l.strsOff + 2 * ks, AsU16(off)), PutExternal(l.strsOff + 2 * ks + 1, LIT_NONE)];
      AgreesConcat(words, ps, DeriveStrs(cls, cp, n, l, i + 1, ks + 1).puts);
      assert ps[0] == Put(l.strsOff + 2 * ks, AsU16(off));
    }
    if i < j {
      StrHolds(words, cls, cp, n, l, i + 1, j);
    }
  }

  /** `words` is, up to the section's words, what the class derives to. */
  ghost predicate Holds(env: Env, cls: seq<byte>, p: Plan, words: seq<u16>) {
    && Prepared(cls, p.view, p.n, p.l)
    && DeriveTable(env, cls, p.view, p.n, p.l).outcome.Ok?
    && |words| == p.l.totalWords
    && Agrees(words, DeriveTable(env, cls, p.view, p.n, p.l).puts)
  }

  /** The header says what the layout says. */
  predicate ShowsHeader(p: Plan, words: seq<u16>) {
    && NewLayout(p.n) == Ok(p.l)
    && |words| == p.l.totalWords
    && words[0] == LINK_MAGIC && words[1] == p.l.totalWords
    && words[3] == p.n.cpCount && words[4] == p.n.fields && words[5] == p.n.statics
    && words[6] == p.n.ifaces && words[7] == p.n.methods && words[8] == p.n.mrefs
    && words[9] == p.l.methodsOff && words[10] == p.l.mrefsOff && words[20] == p.n.strs
  }

  lemma HeldHeader(env: Env, cls: seq<byte>, p: Plan, words: seq<u16>)
    requires Holds(env, cls, p, words)
    ensures ShowsHeader(p, words) && words[2] == AsU16(|cls|)
  {
    var head, own, a := AgreesByParts(env, cls, p, words);
    assert |words| >= HEADER_WORDS;
    HeaderWordsHold(cls, p, words, head, own, a);
    RawHeaderShows(cls, p, words);
  }

  lemma RawHeaderShows(cls: seq<byte>, p: Plan, words: seq<u16>)
    requires RawHeader(cls, p, words) && NewLayout(p.n) == Ok(p.l) && |words| == p.l.totalWords
    ensures ShowsHeader(p, words)
  {
    LayoutFits(p.n, p.l);
    SmallAsU16(p.l.totalWords);
    SmallAsU16(p.n.cpCount);
    SmallAsU16(p.n.fields);
    SmallAsU16(p.n.statics);
    SmallAsU16(p.n.ifaces);
    SmallAsU16(p.n.methods);
    SmallAsU16(p.n.mrefs);
    SmallAsU16(p.l.methodsOff);
    SmallAsU16(p.l.mrefsOff);
    SmallAsU16(p.n.strs);
  }

  /** Every count and offset of a layout that fits is a `u16`. */
  lemma LayoutFits(n: Counts, l: Layout)
    requires NewLayout(n) == Ok(l)
    ensures l.totalWords < 0x1_0000 && n.cpCount < 0x1_0000 && n.fields < 0x1_0000 && n.statics < 0x1_0000
    ensures n.ifaces < 0x1_0000 && n.methods < 0x1_0000 && n.mrefs < 0x1_0000 && n.strs < 0x1_0000
    ensures l.methodsOff < 0x1_0000 && l.mrefsOff + 2 * n.mrefs == l.strsOff && l.strsOff + 2 * n.strs < 0x1_0000
  {
  }

  lemma HeaderLinks(p: Plan, words: seq<u16>, pool: seq<byte>)
    requires ShowsHeader(p, words)
    ensures NewLink(words, pool) == Ok(Link(words, pool))
    ensures var l := Link(words, pool);
      && CpCount(l) == p.n.cpCount && MrefsLen(l) == p.n.mrefs && StrsLen(l) == p.n.strs
      && MrefsOff(l) == p.l.mrefsOff && StrsOff(l) == p.l.strsOff
      && FieldsLen(l) == p.n.fields && StaticsLen(l) == p.n.statics
      && FieldsOff(l) == p.l.fieldsOff && StaticsOff(l) == p.l.staticsOff
  {
  }

  lemma HeaderExternals(p: Plan, words: seq<u16>, pool: seq<byte>, w: nat)
    requires ShowsHeader(p, words)
    ensures External(Link(words, pool), w) <==> ExternalWord(p.n, p.l, w)
  {
    HeaderLinks(p, words, pool);
  }

  /** So `Link::new` accepts the table, and reads its regions where they are. */
  lemma HeaderShows(env: Env, cls: seq<byte>, p: Plan, words: seq<u16>)
    requires Holds(env, cls, p, words)
    ensures ShowsHeader(p, words)
    ensures Valid(Link(words, p.view.pool)) && ClassLen(Link(words, p.view.pool)) == AsU16(|cls|)
  {
    HeldHeader(env, cls, p, words);
    HeaderLinks(p, words, p.view.pool);
  }

  lemma TagRead(p: Plan, words: seq<u16>, j: nat)
    requires ShowsHeader(p, words) && j < p.n.cpCount <= |p.view.tags|
    requires var m := j / 2;
      words[HEADER_WORDS + p.n.cpCount + m]
      == TagPair(p.view, p.n.cpCount, m)
    ensures Valid(Link(words, p.view.pool)) && CpTag(Link(words, p.view.pool), j) == Some(p.view.tags[j])
  {
    HeaderLinks(p, words, p.view.pool);
  }

  lemma TagByte(p: Plan, words: seq<u16>, j: nat)
    requires FullView(p.view) && j < p.n.cpCount <= |p.view.tags| && ShowsHeader(p, words)
    requires Agrees(words, DeriveCp(p.view, p.n, p.l, 0, 0, 0, 0).puts)
    ensures Valid(Link(words, p.view.pool)) && CpTag(Link(words, p.view.pool), j) == Some(p.view.tags[j])
  {
    TagWordHolds(words, p.view, p.n, p.l, 0, 0, 0, 0, j / 2);
    TagRead(p, words, j);
  }

  lemma TagShown(env: Env, cls: seq<byte>, p: Plan, words: seq<u16>, j: nat)
    requires Holds(env, cls, p, words) && j < p.n.cpCount
    ensures Valid(Link(words, p.view.pool)) && CpTag(Link(words, p.view.pool), j) == Some(p.view.tags[j])
  {
    HeldHeader(env, cls, p, words);
    CpAgrees(env, cls, p, words);
    TagByte(p, words, j);
  }

  lemma PlainOffsetRead(l: Link, j: nat, off: nat)
    requires Valid(l) && j < CpCount(l) && off < 0x1_0000
    requires !IsMethodref(CpTag(l, j).value) && CpTag(l, j) != Some(TAG_STRING)
    requires l.words[HEADER_WORDS + j] == AsU16(off)
    ensures CpOffset(l, j) == Some(off) && CpWordAt(l, j) == Some(off)
  {
  }

  lemma TagIsThere(l: Link, j: nat)
    requires Valid(l) && j < CpCount(l)
    ensures CpTag(l, j).Some?
  {
  }

  lemma Evens(w: nat, base: nat, k: nat)
    requires w == base + 2 * k
    ensures (w - base) % 2 == 0 && (w - base) / 2 == k
  {
  }

  lemma MrefOffsetRead(l: Link, j: nat, k: nat, off: nat)
    requires Valid(l) && j < CpCount(l) && off < 0x1_0000 && k < MrefsLen(l)
    requires IsMethodref(CpTag(l, j).value)
    requires l.words[HEADER_WORDS + j] == MrefsOff(l) + 2 * k && l.words[MrefsOff(l) + 2 * k] == AsU16(off)
    ensures CpOffset(l, j) == Some(off)
  {
    hide CpTag, AsU16;
    TagIsThere(l, j);
    SmallAsU16(off);
    Evens(MrefsOff(l) + 2 * k, MrefsOff(l), k);
  }

  lemma StrOffsetRead(l: Link, j: nat, k: nat, off: nat)
    requires Valid(l) && j < CpCount(l) && off < 0x1_0000 && k < StrsLen(l)
    requires CpTag(l, j) == Some(TAG_STRING)
    requires l.words[HEADER_WORDS + j] == StrsOff(l) + 2 * k && l.words[StrsOff(l) + 2 * k] == AsU16(off)
    ensures CpOffset(l, j) == Some(off)
  {
    hide CpTag, AsU16;
    SmallAsU16(off);
    Evens(StrsOff(l) + 2 * k, StrsOff(l), k);
  }

  /** The word of entry `j`: below 65536 before the cast, so the cast keeps it. */
  lemma CpWordFits(p: Plan, j: nat)
    requires FullView(p.view) && j < p.n.cpCount <= |p.view.tags| && NewLayout(p.n) == Ok(p.l)
    requires p.n.mrefs == MrefsUpTo(p.view, p.n.cpCount) && p.n.strs == StrsUpTo(p.view, p.n.cpCount)
    ensures IsMethodref(p.view.tags[j]) ==>
      MrefsUpTo(p.view, j) < p.n.mrefs && AsU16(p.l.mrefsOff + 2 * MrefsUpTo(p.view, j)) == p.l.mrefsOff + 2 * MrefsUpTo(p.view, j)
    ensures p.view.tags[j] == TAG_STRING ==>
      StrsUpTo(p.view, j) < p.n.strs && AsU16(p.l.strsOff + 2 * StrsUpTo(p.view, j)) == p.l.strsOff + 2 * StrsUpTo(p.view, j)
  {
    if IsMethodref(p.view.tags[j]) {
      MrefWordFits(p, j);
    } else if p.view.tags[j] == TAG_STRING {
      StrWordFits(p, j);
    }
  }

  lemma MrefWordFits(p: Plan, j: nat)
    requires j < p.n.cpCount <= |p.view.tags| && NewLayout(p.n) == Ok(p.l) && p.n.mrefs == MrefsUpTo(p.view, p.n.cpCount)
    requires IsMethodref(p.view.tags[j])
    ensures MrefsUpTo(p.view, j) < p.n.mrefs && AsU16(p.l.mrefsOff + 2 * MrefsUpTo(p.view, j)) == p.l.mrefsOff + 2 * MrefsUpTo(p.view, j)
  {
    hide NewLayout;
    LayoutFits(p.n, p.l);
    MrefsGrow(p.view, j + 1, p.n.cpCount);
    SmallAsU16(p.l.mrefsOff + 2 * MrefsUpTo(p.view, j));
  }

  lemma StrWordFits(p: Plan, j: nat)
    requires j < p.n.cpCount <= |p.view.tags| && NewLayout(p.n) == Ok(p.l) && p.n.strs == StrsUpTo(p.view, p.n.cpCount)
    requires p.view.tags[j] == TAG_STRING
    ensures StrsUpTo(p.view, j) < p.n.strs && AsU16(p.l.strsOff + 2 * StrsUpTo(p.view, j)) == p.l.strsOff + 2 * StrsUpTo(p.view, j)
  {
    hide NewLayout;
    LayoutFits(p.n, p.l);
    StrsGrow(p.view, j + 1, p.n.cpCount);
    SmallAsU16(p.l.strsOff + 2 * StrsUpTo(p.view, j));
  }

  lemma CpWordShown(env: Env, cls: seq<byte>, p: Plan, words: seq<u16>, j: nat)
    requires Holds(env, cls, p, words) && j < p.n.cpCount
    ensures HEADER_WORDS + j < |words|
    ensures words[HEADER_WORDS + j]
            == AsU16(CpWord(p.view, p.l, j, p.view.tags[j], MrefsUpTo(p.view, j), StrsUpTo(p.view, j)).value)
  {
    CpAgrees(env, cls, p, words);
    CpWordHolds(words, p.view, p.n, p.l, 0, 0, 0, 0, j);
  }

  lemma MrefsHeld(env: Env, cls: seq<byte>, p: Plan, words: seq<u16>)
    requires Holds(env, cls, p, words)
    ensures p.n.cpCount <= |p.view.tags|
    ensures var d := DeriveMrefs(cls, p.view, p.n, p.l, 0, MrefsUpTo(p.view, 0)); d.outcome.Ok? && Agrees(words, d.puts)
  {
    var head, own, a := AgreesByParts(env, cls, p, words);
  }

  lemma StrsHeld(env: Env, cls: seq<byte>, p: Plan, words: seq<u16>)
    requires Holds(env, cls, p, words)
    ensures p.n.cpCount <= |p.view.tags|
    ensures var d := DeriveStrs(cls, p.view, p.n, p.l, 0, StrsUpTo(p.view, 0)); d.outcome.Ok? && Agrees(words, d.puts)
  {
    var head, own, a := AgreesByParts(env, cls, p, words);
  }

  lemma MrefWordHolds(cls: seq<byte>, p: Plan, words: seq<u16>, j: nat)
    requires j < p.n.cpCount <= |p.view.tags| == |p.view.offsets| && IsMethodref(p.view.tags[j])
    requires var d := DeriveMrefs(cls, p.view, p.n, p.l, 0, MrefsUpTo(p.view, 0)); d.outcome.Ok? && Agrees(words, d.puts)
    ensures p.view.offsets[j].Some? && p.l.mrefsOff + 2 * MrefsUpTo(p.view, j) < |words|
    ensures words[p.l.mrefsOff + 2 * MrefsUpTo(p.view, j)] == AsU16(p.view.offsets[j].value)
  {
    MrefHolds(words, cls, p.view, p.n, p.l, 0, j);
  }

  lemma MrefShown(env: Env, cls: seq<byte>, p: Plan, words: seq<u16>, j: nat)
    requires Holds(env, cls, p, words) && j < p.n.cpCount && IsMethodref(p.view.tags[j])
    ensures p.l.mrefsOff + 2 * MrefsUpTo(p.view, j) < |words|
    ensures words[p.l.mrefsOff + 2 * MrefsUpTo(p.view, j)] == AsU16(p.view.offsets[j].value)
  {
    MrefsHeld(env, cls, p, words);
    MrefWordHolds(cls, p, words, j);
  }

  lemma StrWordHolds(cls: seq<byte>, p: Plan, words: seq<u16>, j: nat)
    requires j < p.n.cpCount <= |p.view.tags| == |p.view.offsets| && p.view.tags[j] == TAG_STRING
    requires var d := DeriveStrs(cls, p.view, p.n, p.l, 0, StrsUpTo(p.view, 0)); d.outcome.Ok? && Agrees(words, d.puts)
    ensures p.view.offsets[j].Some? && p.l.strsOff + 2 * StrsUpTo(p.view, j) < |words|
    ensures words[p.l.strsOff + 2 * StrsUpTo(p.view, j)] == AsU16(p.view.offsets[j].value)
  {
    StrHolds(words, cls, p.view, p.n, p.l, 0, j);
  }

  lemma StrShown(env: Env, cls: seq<byte>, p: Plan, words: seq<u16>, j: nat)
    requires Holds(env, cls, p, words) && j < p.n.cpCount && p.view.tags[j] == TAG_STRING
    ensures p.l.strsOff + 2 * StrsUpTo(p.view, j) < |words|
    ensures words[p.l.strsOff + 2 * StrsUpTo(p.view, j)] == AsU16(p.view.offsets[j].value)
  {
    StrsHeld(env, cls, p, words);
    StrWordHolds(cls, p, words, j);
  }

  /** The word of entry `j`, by kind of entry. */
  ghost predicate WordByKind(p: Plan, words: seq<u16>, j: nat)
    requires j < |p.view.tags| && j < |p.view.offsets| && p.view.offsets[j].Some?
  {
    && HEADER_WORDS + j < |words|
    && (IsMethodref(p.view.tags[j]) ==>
          MrefsUpTo(p.view, j) < p.n.mrefs && words[HEADER_WORDS + j] == p.l.mrefsOff + 2 * MrefsUpTo(p.view, j))
    && (p.view.tags[j] == TAG_STRING ==>
          StrsUpTo(p.view, j) < p.n.strs && words[HEADER_WORDS + j] == p.l.strsOff + 2 * StrsUpTo(p.view, j))
    && (!IsMethodref(p.view.tags[j]) && p.view.tags[j] != TAG_STRING ==>
          words[HEADER_WORDS + j] == AsU16(p.view.offsets[j].value))
  }

  lemma WordIsByKind(p: Plan, words: seq<u16>, j: nat)
    requires j < |p.view.tags| && j < |p.view.offsets| && p.view.offsets[j].Some?
    requires HEADER_WORDS + j < |words|
    requires IsMethodref(p.view.tags[j]) ==>
      MrefsUpTo(p.view, j) < p.n.mrefs && AsU16(p.l.mrefsOff + 2 * MrefsUpTo(p.view, j)) == p.l.mrefsOff + 2 * MrefsUpTo(p.view, j)
    requires p.view.tags[j] == TAG_STRING ==>
      StrsUpTo(p.view, j) < p.n.strs && AsU16(p.l.strsOff + 2 * StrsUpTo(p.view, j)) == p.l.strsOff + 2 * StrsUpTo(p.view, j)
    requires words[HEADER_WORDS + j]
             == AsU16(CpWord(p.view, p.l, j, p.view.tags[j], MrefsUpTo(p.view, j), StrsUpTo(p.view, j)).value)
    ensures WordByKind(p, words, j)
  {
  }

  /** What a plan's survey counted. */
  lemma PlanFacts(env: Env, cls: seq<byte>, p: Plan, words: seq<u16>)
    requires Holds(env, cls, p, words)
    ensures FullView(p.view) && p.n.cpCount <= |p.view.tags| && NewLayout(p.n) == Ok(p.l)
    ensures p.n.mrefs == MrefsUpTo(p.view, p.n.cpCount) && p.n.strs == StrsUpTo(p.view, p.n.cpCount)
  {
    SurveyNotInternal(cls, p.view, p.n.cpCount, p.n.posAfterCp);
  }

  lemma CpWordByKind(env: Env, cls: seq<byte>, p: Plan, words: seq<u16>, j: nat)
    requires Holds(env, cls, p, words) && j < p.n.cpCount
    ensures WordByKind(p, words, j) && p.view.offsets[j].value < 0x1_0000
  {
    PlanFacts(env, cls, p, words);
    CpWordFits(p, j);
    CpWordShown(env, cls, p, words, j);
    WordIsByKind(p, words, j);
  }

  lemma OffsetShown(env: Env, cls: seq<byte>, p: Plan, words: seq<u16>, j: nat)
    requires Holds(env, cls, p, words) && j < p.n.cpCount
    ensures Valid(Link(words, p.view.pool)) && CpOffset(Link(words, p.view.pool), j) == p.view.offsets[j]
    ensures p.view.tags[j] == TAG_UTF8 ==> CpWordAt(Link(words, p.view.pool), j) == Some(p.view.offsets[j].value)
  {
    var l := Link(words, p.view.pool);
    HeaderShows(env, cls, p, words);
    TagShown(env, cls, p, words, j);
    CpWordByKind(env, cls, p, words, j);
    var tag, off := p.view.tags[j], p.view.offsets[j].value;
    if IsMethodref(tag) {
      MrefShown(env, cls, p, words, j);
    } else if tag == TAG_STRING {
      StrShown(env, cls, p, words, j);
    }
    OffsetRead(p, words, j, l, off);
  }

  lemma OffsetRead(p: Plan, words: seq<u16>, j: nat, l: Link, off: nat)
    requires ShowsHeader(p, words) && l == Link(words, p.view.pool) && j < p.n.cpCount
    requires j < |p.view.tags| && j < |p.view.offsets| && p.view.offsets[j] == Some(off) && off < 0x1_0000
    requires Valid(l) && CpTag(l, j) == Some(p.view.tags[j]) && WordByKind(p, words, j)
    requires IsMethodref(p.view.tags[j]) ==>
      p.l.mrefsOff + 2 * MrefsUpTo(p.view, j) < |words| && words[p.l.mrefsOff + 2 * MrefsUpTo(p.view, j)] == AsU16(off)
    requires p.view.tags[j] == TAG_STRING ==>
      p.l.strsOff + 2 * StrsUpTo(p.view, j) < |words| && words[p.l.strsOff + 2 * StrsUpTo(p.view, j)] == AsU16(off)
    ensures CpOffset(l, j) == Some(off)
    ensures p.view.tags[j] == TAG_UTF8 ==> CpWordAt(l, j) == Some(off)
  {
    HeaderLinks(p, words, p.view.pool);
    var tag := p.view.tags[j];
    if IsMethodref(tag) {
      MrefOffsetRead(l, j, MrefsUpTo(p.view, j), off);
    } else if tag == TAG_STRING {
      StrOffsetRead(l, j, StrsUpTo(p.view, j), off);
    } else {
      PlainOffsetRead(l, j, off);
    }
  }

  /** The two views are one: a table that holds what is derived shows the
      validator the constant pool the builder walked. */
  lemma ViewShown(env: Env, cls: seq<byte>, p: Plan, words: seq<u16>)
    requires Holds(env, cls, p, words) && |p.view.tags| == p.n.cpCount
    ensures Valid(Link(words, p.view.pool)) && LinkView(Link(words, p.view.pool)) == p.view
  {
    HeaderShows(env, cls, p, words);
    HeaderLinks(p, words, p.view.pool);
    var v := LinkView(Link(words, p.view.pool));
    forall j | 0 <= j < p.n.cpCount
      ensures v.tags[j] == p.view.tags[j] && v.offsets[j] == p.view.offsets[j]
    {
      TagShown(env, cls, p, words, j);
      OffsetShown(env, cls, p, words, j);
    }
    assert v.tags == p.view.tags && v.offsets == p.view.offsets;
  }

  /** A class that derives has a constant pool: `this_class` is an entry of it. */
  lemma DerivedHasPool(env: Env, cls: seq<byte>, refs: seq<u16>, pool: seq<byte>)
    requires PlanLink(cls, refs, pool).Ok?
    ensures var p := PlanLink(cls, refs, pool).value;
      DeriveTable(env, cls, p.view, p.n, p.l).outcome.Ok? ==> |p.view.tags| == p.n.cpCount > 0
  {
    var p := PlanLink(cls, refs, pool).value;
    var w := WalkCp(cls, Pooled);
    WalkVisits(cls, Pooled);
    PlanPrepared(cls, refs, pool);
    SurveyNotInternal(cls, p.view, w.outcome.value.0, w.outcome.value.1);
    assert w.visits[0] == Visit(0, 0, 0);
    if |p.view.tags| == 1 {
      assert p.view.tags == [0];
    }
    if DeriveTable(env, cls, p.view, p.n, p.l).outcome.Ok? {
      ThisClassIsTagged(env, cls, p);
    }
  }

  lemma ThisClassIsTagged(env: Env, cls: seq<byte>, p: Plan)
    requires DeriveTable(env, cls, p.view, p.n, p.l).outcome.Ok?
    ensures TAG_CLASS in p.view.tags
  {
    assert HeadAt(env, cls, p.view, p.n.posAfterCp).Ok?;
    var thisIdx := ReadU16(cls, p.n.posAfterCp + 2).value;
    assert ClassNameRef(env, cls, p.view, thisIdx).Ok?;
    assert Tag(p.view, thisIdx) == Some(TAG_CLASS);
  }

  // ---- soundness ---------------------------------------------------------

  /** The refs a table gives the `Utf8` entries visited. */
  function RefsOf(l: Link, visits: seq<Visit>): seq<u16>
    requires Valid(l)
  {
    if visits == [] then []
    else if visits[0].tag == TAG_UTF8 && CpWordAt(l, visits[0].index).Some? then
      [CpWordAt(l, visits[0].index).value] + RefsOf(l, visits[1..])
    else RefsOf(l, visits[1..])
  }

  ghost predicate RefsNameEntries(pool: seq<byte>, refs: seq<u16>) {
    forall r | r in refs :: PoolUtf8(pool, r).Some?
  }

  lemma {:induction false} CheckedVisitsMatch(l: Link, visits: seq<Visit>)
    requires Valid(l) && CheckVisits(l, visits).Ok?
    requires forall k | 0 <= k < |visits| :: visits[k].off < 0x1_0000
    ensures RefsNameEntries(l.pool, RefsOf(l, visits))
    ensures ViewOffsets(visits, RefsOf(l, visits)).Ok?
    ensures var o := ViewOffsets(visits, RefsOf(l, visits)).value;
      && |o| == |visits|
      && forall k | 0 <= k < |visits| ::
           CpTag(l, visits[k].index) == Some(visits[k].tag) && CpOffset(l, visits[k].index) == o[k]
    decreases |visits|
  {
    if visits != [] {
      CheckedVisitsMatch(l, visits[1..]);
      var rest := RefsOf(l, visits[1..]);
      var o, o' := ViewOffsets(visits, RefsOf(l, visits)), ViewOffsets(visits[1..], rest).value;
      if visits[0].tag == TAG_UTF8 {
        assert RefsOf(l, visits) == [CpWordAt(l, visits[0].index).value] + rest;
        assert RefsOf(l, visits)[1..] == rest;
      }
      assert o.Ok? && o.value[1..] == o';
      forall k | 0 <= k < |visits|
        ensures CpTag(l, visits[k].index) == Some(visits[k].tag) && CpOffset(l, visits[k].index) == o.value[k]
      {
        if k > 0 {
          assert visits[k] == visits[1..][k - 1] && o.value[k] == o'[k - 1];
        }
      }
    }
  }

  /** Once the visits are checked, the table's view is the builder's. */
  lemma CheckedViewIsBuilders(l: Link, cls: seq<byte>)
    requires Valid(l)
    requires var w := WalkCp(cls, Pooled);
      CheckVisits(l, w.visits).Ok? && w.outcome.Ok? && w.outcome.value.0 == CpCount(l)
    ensures var w := WalkCp(cls, Pooled);
      var refs := RefsOf(l, w.visits);
      && RefsNameEntries(l.pool, refs)
      && ViewOffsets(w.visits, refs).Ok?
      && LinkView(l) == CpView(VisitTags(w.visits), ViewOffsets(w.visits, refs).value, l.pool)
  {
    var w := WalkCp(cls, Pooled);
    WalkVisits(cls, Pooled);
    CheckedVisitsMatch(l, w.visits);
    assert w.visits[0].index == 0;
    var v, refs := LinkView(l), RefsOf(l, w.visits);
    assert v.tags == VisitTags(w.visits);
    assert v.offsets == ViewOffsets(w.visits, refs).value;
  }

  /** What acceptance means: the table holds what its class derives to, for
      refs that all name pool entries. */
  lemma AcceptedHolds(env: Env, l: Link, cls: seq<byte>) returns (refs: seq<u16>, p: Plan)
    requires Valid(l) && ValidateLink(env, l, cls).Ok?
    ensures RefsNameEntries(l.pool, refs)
    ensures PlanLink(cls, refs, l.pool) == Ok(p) && Holds(env, cls, p, l.words)
    ensures LinkView(l) == p.view
  {
    var w := WalkCp(cls, Pooled);
    refs := RefsOf(l, w.visits);
    assert ValidateWords(env, l, cls, w.outcome.value.0, w.outcome.value.1).Ok?;
    CheckedViewIsBuilders(l, cls);
    p := PlanLink(cls, refs, l.pool).value;
    PlanPrepared(cls, refs, l.pool);
    CheckMeansAgree(l.words, DeriveTable(env, cls, p.view, p.n, p.l).puts);
  }

  ghost predicate SameButExternal(words: seq<u16>, table: seq<u16>) {
    && |words| == |table| >= HEADER_WORDS
    && forall w | 0 <= w < |words| && !External(Link(table, []), w) :: words[w] == table[w]
  }

  /** What the builder writes holds what is derived. */
  lemma BuiltHolds(env: Env, cls: seq<byte>, refs: seq<u16>, pool: seq<byte>)
    requires LinkPooled(env, cls, refs, pool).Ok?
    ensures PlanLink(cls, refs, pool).Ok?
    ensures Holds(env, cls, PlanLink(cls, refs, pool).value, LinkPooled(env, cls, refs, pool).value)
  {
    var p := PlanLink(cls, refs, pool).value;
    PlanPrepared(cls, refs, pool);
    DerivesOncePerWord(env, cls, p.view, p.n, p.l);
    WritesStay(EmptyTable(p.l.totalWords), DeriveTable(env, cls, p.view, p.n, p.l).puts);
  }

  lemma PutInEmit<T>(x: Put, ps: seq<Put>, d: Derived<T>)
    requires x in d.puts
    ensures x in Emit(ps, d).puts
  {
  }

  const NO_SUPER := PutExternal(22, SUPER_NONE)

  lemma NoSuperInMethods(env: Env, cls: seq<byte>, p: Plan, head: Head, own: nat, pos: nat)
    requires DeriveFromMethods(env, cls, p.view, p.n, p.l, head, own, pos).outcome.Ok?
    ensures NO_SUPER in DeriveFromMethods(env, cls, p.view, p.n, p.l, head, own, pos).puts
  {
    var methods := DeriveMethods(env, cls, p.view, p.l, p.n.methods, 0, pos + 2);
    var end := methods.outcome.value;
    var a := ClassAttrsFrom(cls, p.view, ReadU16(cls, end).value, end + 2, ClassAttrs(0, 0)).value;
    var header := HeaderPuts(cls, p.n, p.l, head, own, a);
    assert header[22] == NO_SUPER;
    assert DeriveTail(cls, p.view, p.n, p.l, head, own, end).puts == header + PadPuts(p.n, p.l);
    PutInEmit(NO_SUPER, methods.puts, DeriveTail(cls, p.view, p.n, p.l, head, own, end));
  }

  lemma NoSuperInHead(env: Env, cls: seq<byte>, p: Plan, head: Head)
    requires DeriveFromHead(env, cls, p.view, p.n, p.l, head).outcome.Ok?
    ensures NO_SUPER in DeriveFromHead(env, cls, p.view, p.n, p.l, head).puts
  {
    var ifaces := DeriveIfaces(env, cls, p.view, p.l, head.ifaces, 0, head.pos);
    var pos := ifaces.outcome.value;
    var fields := DeriveFields(env, cls, p.view, p.l, ReadU16(cls, pos).value, 0, FieldsEnd(pos + 2, 0, 0, 0));
    var end := fields.outcome.value;
    NoSuperInMethods(env, cls, p, head, end.own, end.pos);
    PutInEmit(NO_SUPER, fields.puts, DeriveFromMethods(env, cls, p.view, p.n, p.l, head, end.own, end.pos));
    PutInEmit(NO_SUPER, ifaces.puts, DeriveFromFields(env, cls, p.view, p.n, p.l, head, pos));
  }

  lemma NoSuperPut(env: Env, cls: seq<byte>, p: Plan)
    requires DeriveTable(env, cls, p.view, p.n, p.l).outcome.Ok?
    ensures NO_SUPER in DeriveTable(env, cls, p.view, p.n, p.l).puts
  {
    var members := DeriveMembers(env, cls, p.view, p.n, p.l);
    NoSuperInHead(env, cls, p, HeadAt(env, cls, p.view, p.n.posAfterCp).value);
    var names := Then(Derived([], CheckNames(env, cls, p.view, p.n, 0)), members);
    var strs := Then(DeriveStrs(cls, p.view, p.n, p.l, 0, 0), names);
    var mrefs := Then(DeriveMrefs(cls, p.view, p.n, p.l, 0, 0), strs);
    PutInEmit(NO_SUPER, [], members);
    PutInEmit(NO_SUPER, DeriveStrs(cls, p.view, p.n, p.l, 0, 0).puts, names);
    PutInEmit(NO_SUPER, DeriveMrefs(cls, p.view, p.n, p.l, 0, 0).puts, strs);
    PutInEmit(NO_SUPER, DeriveCp(p.view, p.n, p.l, 0, 0, 0, 0).puts, mrefs);
  }

  /** The builder leaves `super_idx` at its placeholder. */
  lemma BuiltUnplaced(env: Env, cls: seq<byte>, refs: seq<u16>, pool: seq<byte>)
    requires LinkPooled(env, cls, refs, pool).Ok?
    ensures var table := LinkPooled(env, cls, refs, pool).value; |table| > 22 && table[22] == SUPER_NONE
  {
    var p := PlanLink(cls, refs, pool).value;
    PlanPrepared(cls, refs, pool);
    DerivesOncePerWord(env, cls, p.view, p.n, p.l);
    var puts := DeriveTable(env, cls, p.view, p.n, p.l).puts;
    WritesStay(EmptyTable(p.l.totalWords), puts);
    NoSuperPut(env, cls, p);
    var k :| 0 <= k < |puts| && puts[k] == NO_SUPER;
  }

  /** And all the section's words at theirs. */
  lemma BuiltPlaceholders(env: Env, cls: seq<byte>, refs: seq<u16>, pool: seq<byte>, w: nat)
    requires LinkPooled(env, cls, refs, pool).Ok?
    requires var table := LinkPooled(env, cls, refs, pool).value; |table| >= HEADER_WORDS && w < |table| && External(Link(table, []), w)
    ensures LinkPooled(env, cls, refs, pool).value[w] == if 23 <= w <= 25 then 0 else 65535
  {
    var p, table := PlanLink(cls, refs, pool).value, LinkPooled(env, cls, refs, pool).value;
    PlanPrepared(cls, refs, pool);
    BuiltHolds(env, cls, refs, pool);
    HeldHeader(env, cls, p, table);
    HeaderExternals(p, table, [], w);
    PlaceholderPut(env, cls, p, table, w);
  }

  lemma PlaceholderPut(env: Env, cls: seq<byte>, p: Plan, table: seq<u16>, w: nat)
    requires Prepared(cls, p.view, p.n, p.l) && DeriveTable(env, cls, p.view, p.n, p.l).outcome.Ok?
    requires WritePuts(EmptyTable(p.l.totalWords), DeriveTable(env, cls, p.view, p.n, p.l).puts) == Ok(table)
    requires w < p.l.totalWords && ExternalWord(p.n, p.l, w)
    ensures |table| == p.l.totalWords && table[w] == Placeholder(w)
  {
    hide DeriveTable;
    var puts := DeriveTable(env, cls, p.view, p.n, p.l).puts;
    DerivesOncePerWord(env, cls, p.view, p.n, p.l);
    DerivationTyped(env, cls, p.view, p.n, p.l);
    WritesStay(EmptyTable(p.l.totalWords), puts);
    assert PutsWord(puts, w);
    var k :| 0 <= k < |puts| && puts[k].word == w;
    TypedAt(p.n, p.l, puts, k);
  }

  /** A derivation that succeeds is a table that builds. */
  lemma DerivedBuilds(env: Env, cls: seq<byte>, refs: seq<u16>, pool: seq<byte>)
    requires PlanLink(cls, refs, pool).Ok?
    requires var p := PlanLink(cls, refs, pool).value; DeriveTable(env, cls, p.view, p.n, p.l).outcome.Ok?
    ensures LinkPooled(env, cls, refs, pool).Ok?
  {
    var p := PlanLink(cls, refs, pool).value;
    PlanPrepared(cls, refs, pool);
    DerivesOncePerWord(env, cls, p.view, p.n, p.l);
    WritesStay(EmptyTable(p.l.totalWords), DeriveTable(env, cls, p.view, p.n, p.l).puts);
  }

  lemma HeldWordIsPut(env: Env, cls: seq<byte>, p: Plan, table: seq<u16>, words: seq<u16>, w: nat)
    requires Holds(env, cls, p, table) && Holds(env, cls, p, words)
    requires w < |words| && !ExternalWord(p.n, p.l, w)
    ensures words[w] == table[w]
  {
    var puts := DeriveTable(env, cls, p.view, p.n, p.l).puts;
    DerivesOncePerWord(env, cls, p.view, p.n, p.l);
    DerivationTyped(env, cls, p.view, p.n, p.l);
    assert PutsWord(puts, w);
    var k :| 0 <= k < |puts| && puts[k].word == w;
    TypedAt(p.n, p.l, puts, k);
  }

  lemma CopyAgrees(p: Plan, puts: seq<Put>, table: seq<u16>, words: seq<u16>)
    requires Typed(p.n, p.l, puts) && Agrees(table, puts) && |words| == |table| == p.l.totalWords
    requires forall w | 0 <= w < |words| && !ExternalWord(p.n, p.l, w) :: words[w] == table[w]
    ensures Agrees(words, puts)
  {
    forall k | 0 <= k < |puts|
      ensures puts[k].word < |words| && (puts[k].Put? ==> words[puts[k].word] == puts[k].value)
    {
      TypedAt(p.n, p.l, puts, k);
    }
  }

  /** Two tables hold the same derivation exactly when they differ at most in
      the section's words. */
  lemma HoldersAgree(env: Env, cls: seq<byte>, p: Plan, table: seq<u16>, words: seq<u16>)
    requires Holds(env, cls, p, table)
    ensures Holds(env, cls, p, words) <==> SameButExternal(words, table)
  {
    HeldHeader(env, cls, p, table);
    forall w: nat
      ensures External(Link(table, []), w) <==> ExternalWord(p.n, p.l, w)
    {
      HeaderExternals(p, table, [], w);
    }
    if Holds(env, cls, p, words) {
      forall w | 0 <= w < |words| && !External(Link(table, []), w)
        ensures words[w] == table[w]
      {
        HeldWordIsPut(env, cls, p, table, words, w);
      }
    }
    if SameButExternal(words, table) {
      DerivationTyped(env, cls, p.view, p.n, p.l);
      CopyAgrees(p, DeriveTable(env, cls, p.view, p.n, p.l).puts, table, words);
    }
  }

  /** Soundness of the translation validator: a table it accepts equals, on
      every word but the section's, the one the builder writes for the same
      pooled class, the same refs and the same pool. */
  lemma ValidatorSound(env: Env, l: Link, cls: seq<byte>) returns (refs: seq<u16>)
    requires Valid(l) && ValidateLink(env, l, cls).Ok?
    ensures RefsNameEntries(l.pool, refs)
    ensures LinkPooled(env, cls, refs, l.pool).Ok?
    ensures SameButExternal(l.words, LinkPooled(env, cls, refs, l.pool).value)
  {
    var p: Plan;
    refs, p := AcceptedHolds(env, l, cls);
    DerivedBuilds(env, cls, refs, l.pool);
    BuiltHolds(env, cls, refs, l.pool);
    HoldersAgree(env, cls, p, LinkPooled(env, cls, refs, l.pool).value, l.words);
  }

  // ---- completeness ------------------------------------------------------

  lemma {:induction false} ShownVisitsCheck(l: Link, visits: seq<Visit>)
    requires Valid(l)
    requires forall k | 0 <= k < |visits| :: CheckVisit(l, visits[k]).Ok?
    ensures CheckVisits(l, visits).Ok?
    decreases |visits|
  {
    if visits != [] {
      ShownVisitsCheck(l, visits[1..]);
    }
  }

  lemma VisitRead(l: Link, v: Visit, refs: seq<u16>, off: nat)
    requires Valid(l) && RefsNameEntries(l.pool, refs)
    requires CpTag(l, v.index) == Some(v.tag) && CpOffset(l, v.index) == Some(off)
    requires if v.tag == TAG_UTF8 then off in refs && CpWordAt(l, v.index) == Some(off) else off == v.off
    ensures CheckVisit(l, v).Ok?
  {
  }

  lemma HeldVisitChecks(env: Env, cls: seq<byte>, refs: seq<u16>, p: Plan, words: seq<u16>, k: nat)
    requires PlanLink(cls, refs, p.view.pool) == Ok(p) && Holds(env, cls, p, words)
    requires RefsNameEntries(p.view.pool, refs) && |p.view.tags| == p.n.cpCount
    requires k < |WalkCp(cls, Pooled).visits|
    ensures Valid(Link(words, p.view.pool))
    ensures CheckVisit(Link(words, p.view.pool), WalkCp(cls, Pooled).visits[k]).Ok?
  {
    var visits := WalkCp(cls, Pooled).visits;
    WalkVisits(cls, Pooled);
    assert p.view.tags == VisitTags(visits) && p.view.offsets == ViewOffsets(visits, refs).value;
    TagShown(env, cls, p, words, k);
    OffsetShown(env, cls, p, words, k);
    OffsetsComeFrom(visits, refs, k);
    assert visits[k].index == k;
    SmallAsU16(visits[k].off);
    VisitRead(Link(words, p.view.pool), visits[k], refs, p.view.offsets[k].value);
  }

  lemma HeldVisitsCheck(env: Env, cls: seq<byte>, refs: seq<u16>, p: Plan, words: seq<u16>)
    requires PlanLink(cls, refs, p.view.pool) == Ok(p) && Holds(env, cls, p, words)
    requires RefsNameEntries(p.view.pool, refs) && |p.view.tags| == p.n.cpCount
    ensures Valid(Link(words, p.view.pool))
    ensures CheckVisits(Link(words, p.view.pool), WalkCp(cls, Pooled).visits).Ok?
  {
    var visits := WalkCp(cls, Pooled).visits;
    HeaderShows(env, cls, p, words);
    forall k | 0 <= k < |visits|
      ensures CheckVisit(Link(words, p.view.pool), visits[k]).Ok?
    {
      HeldVisitChecks(env, cls, refs, p, words, k);
    }
    ShownVisitsCheck(Link(words, p.view.pool), visits);
  }

  lemma HeldWordsValidate(env: Env, cls: seq<byte>, p: Plan, words: seq<u16>)
    requires Holds(env, cls, p, words) && |p.view.tags| == p.n.cpCount
    ensures Valid(Link(words, p.view.pool))
    ensures ValidateWords(env, Link(words, p.view.pool), cls, p.n.cpCount, p.n.posAfterCp).Ok?
  {
    HeaderShows(env, cls, p, words);
    HeaderLinks(p, words, p.view.pool);
    ViewShown(env, cls, p, words);
    DerivesOncePerWord(env, cls, p.view, p.n, p.l);
    CheckMeansAgree(words, DeriveTable(env, cls, p.view, p.n, p.l).puts);
  }

  lemma PlanCounts(cls: seq<byte>, refs: seq<u16>, pool: seq<byte>)
    requires PlanLink(cls, refs, pool).Ok?
    ensures WalkCp(cls, Pooled).outcome
            == Ok((PlanLink(cls, refs, pool).value.n.cpCount, PlanLink(cls, refs, pool).value.n.posAfterCp))
    ensures |cls| <= MAX_CLASS_BYTES
  {
    var w := WalkCp(cls, Pooled);
    SurveyNotInternal(cls, PlanLink(cls, refs, pool).value.view, w.outcome.value.0, w.outcome.value.1);
  }

  /** A table that holds what is derived, for refs that name pool entries, is accepted. */
  lemma HeldIsAccepted(env: Env, cls: seq<byte>, refs: seq<u16>, p: Plan, words: seq<u16>)
    requires PlanLink(cls, refs, p.view.pool) == Ok(p) && Holds(env, cls, p, words)
    requires RefsNameEntries(p.view.pool, refs)
    ensures Valid(Link(words, p.view.pool)) && ValidateLink(env, Link(words, p.view.pool), cls).Ok?
  {
    DerivedHasPool(env, cls, refs, p.view.pool);
    PlanCounts(cls, refs, p.view.pool);
    HeaderShows(env, cls, p, words);
    HeldVisitsCheck(env, cls, refs, p, words);
    HeldWordsValidate(env, cls, p, words);
    SmallAsU16(|cls|);
    AcceptedByParts(env, Link(words, p.view.pool), cls, p.n.cpCount, p.n.posAfterCp);
  }

  lemma AcceptedByParts(env: Env, l: Link, cls: seq<byte>, cpCount: nat, pos: nat)
    requires Valid(l) && ClassLen(l) == |cls| && WalkCp(cls, Pooled).outcome == Ok((cpCount, pos))
    requires CheckVisits(l, WalkCp(cls, Pooled).visits).Ok? && ValidateWords(env, l, cls, cpCount, pos).Ok?
    ensures ValidateLink(env, l, cls).Ok?
  {
  }

  /** Completeness: whatever the section writes into its own words, the
      validator accepts the builder's table, provided every ref names a pool
      entry. */
  lemma ValidatorComplete(env: Env, cls: seq<byte>, refs: seq<u16>, pool: seq<byte>, words: seq<u16>)
    requires LinkPooled(env, cls, refs, pool).Ok? && RefsNameEntries(pool, refs)
    requires SameButExternal(words, LinkPooled(env, cls, refs, pool).value)
    ensures Valid(Link(words, pool)) && ValidateLink(env, Link(words, pool), cls).Ok?
  {
    var p := PlanLink(cls, refs, pool).value;
    BuiltHolds(env, cls, refs, pool);
    PlanPrepared(cls, refs, pool);
    HoldersAgree(env, cls, p, LinkPooled(env, cls, refs, pool).value, words);
    HeldIsAccepted(env, cls, refs, p, words);
  }

  /** The theorem, in one line: acceptance is agreement with some build. */
  lemma ValidatorAcceptsExactlyBuilds(env: Env, l: Link, cls: seq<byte>)
    requires Valid(l)
    ensures ValidateLink(env, l, cls).Ok? <==>
      exists refs ::
        && RefsNameEntries(l.pool, refs)
        && LinkPooled(env, cls, refs, l.pool).Ok?
        && SameButExternal(l.words, LinkPooled(env, cls, refs, l.pool).value)
  {
    if ValidateLink(env, l, cls).Ok? {
      var refs := ValidatorSound(env, l, cls);
    }
    if refs :| && RefsNameEntries(l.pool, refs) && LinkPooled(env, cls, refs, l.pool).Ok?
               && SameButExternal(l.words, LinkPooled(env, cls, refs, l.pool).value) {
      ValidatorComplete(env, cls, refs, l.pool, l.words);
    }
  }

  /** The validator never fails with `Internal`. */
  lemma ValidatorNeverInternal(env: Env, l: Link, cls: seq<byte>)
    requires Valid(l)
    ensures NotInternal(ValidateLink(env, l, cls))
  {
    var w := WalkCp(cls, Pooled);
    WalkVisits(cls, Pooled);
    CheckVisitsNotInternal(l, w.visits);
    if CheckVisits(l, w.visits).Ok? && w.outcome.Ok? && w.outcome.value.0 == CpCount(l) {
      CheckedViewIsBuilders(l, cls);
      OffsetsAreFull(w.visits, RefsOf(l, w.visits));
      WordsNotInternal(env, l, cls, w.outcome.value.0, w.outcome.value.1);
    }
  }

  lemma WordsNotInternal(env: Env, l: Link, cls: seq<byte>, cpCount: nat, pos: nat)
    requires Valid(l) && FullView(LinkView(l)) && cpCount <= |LinkView(l).tags|
    ensures NotInternal(ValidateWords(env, l, cls, cpCount, pos))
  {
    var n := Survey(cls, LinkView(l), cpCount, pos);
    SurveyNotInternal(cls, LinkView(l), cpCount, pos);
    if n.Ok? && NewLayout(n.value).Ok? {
      RunNotInternal(env, cls, LinkView(l), n.value, NewLayout(n.value).value, l.words);
    }
  }

  /** Comparing a derivation never ends in `Internal`, and if it succeeds it
      compared every word. */
  lemma RunNotInternal(env: Env, cls: seq<byte>, cp: CpView, n: Counts, layout: Layout, words: seq<u16>)
    requires Prepared(cls, cp, n, layout)
    ensures var d := DeriveTable(env, cls, cp, n, layout);
      NotInternal(CheckRun(words, d)) && (d.outcome.Ok? ==> |d.puts| == layout.totalWords)
  {
    var d := DeriveTable(env, cls, cp, n, layout);
    DerivationTyped(env, cls, cp, n, layout);
    CheckMeansAgree(words, d.puts);
    if d.outcome.Ok? {
      DerivesOncePerWord(env, cls, cp, n, layout);
    }
  }

  lemma {:induction false} CheckVisitsNotInternal(l: Link, visits: seq<Visit>)
    requires Valid(l)
    ensures NotInternal(CheckVisits(l, visits))
    decreases |visits|
  {
    if visits != [] {
      CheckVisitsNotInternal(l, visits[1..]);
    }
  }

  // ---- what an accepted table says of names ------------------------------

  lemma NameRefNames(env: Env, cls: seq<byte>, cp: CpView, i: nat)
    requires FullView(cp) && ClassNameRef(env, cls, cp, i).Ok?
    ensures var r := ClassNameRef(env, cls, cp, i).value;
      && r.r < 0x1_0000
      && PoolUtf8(cp.pool, r.r).Some?
      && PoolUtf8(cp.pool, r.r).value != []
      && r.hash == env.nameHash(PoolUtf8(cp.pool, r.r).value)
  {
  }

  lemma HeldNames(env: Env, cls: seq<byte>, p: Plan, words: seq<u16>)
    requires Holds(env, cls, p, words)
    ensures Valid(Link(words, p.view.pool))
    ensures var l := Link(words, p.view.pool);
      && LinkedName(l).Some? && LinkedName(l).value != [] && NameHash(l) == env.nameHash(LinkedName(l).value)
      && (SuperRefOf(l) != 0 ==>
            LinkedSuperName(l).Some? && LinkedSuperName(l).value != []
            && SuperHash(l) == env.nameHash(LinkedSuperName(l).value))
  {
    HeaderShows(env, cls, p, words);
    var head := HeldHead(env, cls, p, words);
    SmallAsU16(head.name.r);
    SmallAsU16(head.super.r);
  }

  /** The name words of a table are those of the class's own name entries. */
  lemma HeldHead(env: Env, cls: seq<byte>, p: Plan, words: seq<u16>) returns (head: Head)
    requires Holds(env, cls, p, words)
    ensures HeadAt(env, cls, p.view, p.n.posAfterCp) == Ok(head)
    ensures |words| >= HEADER_WORDS
    ensures words[13] == AsU16(head.name.r) && words[14] == AsU16(head.super.r)
    ensures words[16] + words[17] as int * 0x1_0000 == head.name.hash
    ensures words[18] + words[19] as int * 0x1_0000 == head.super.hash
    ensures head.name.r < 0x1_0000 && PoolUtf8(p.view.pool, head.name.r).Some?
    ensures PoolUtf8(p.view.pool, head.name.r).value != []
    ensures head.name.hash == env.nameHash(PoolUtf8(p.view.pool, head.name.r).value)
    ensures head.super.r < 0x1_0000
    ensures head.super.r != 0 ==>
      && PoolUtf8(p.view.pool, head.super.r).Some? && PoolUtf8(p.view.pool, head.super.r).value != []
      && head.super.hash == env.nameHash(PoolUtf8(p.view.pool, head.super.r).value)
  {
    var h, own, a := AgreesByParts(env, cls, p, words);
    head := h;
    HeaderWordsHold(cls, p, words, head, own, a);
    HeadNames(env, cls, p, head);
  }

  lemma HeadNames(env: Env, cls: seq<byte>, p: Plan, head: Head)
    requires FullView(p.view) && HeadAt(env, cls, p.view, p.n.posAfterCp) == Ok(head)
    ensures head.name.r < 0x1_0000 && PoolUtf8(p.view.pool, head.name.r).Some?
    ensures PoolUtf8(p.view.pool, head.name.r).value != []
    ensures head.name.hash == env.nameHash(PoolUtf8(p.view.pool, head.name.r).value)
    ensures head.super.r < 0x1_0000
    ensures head.super.r != 0 ==>
      && PoolUtf8(p.view.pool, head.super.r).Some? && PoolUtf8(p.view.pool, head.super.r).value != []
      && head.super.hash == env.nameHash(PoolUtf8(p.view.pool, head.super.r).value)
  {
    var thisIdx, superIdx := ReadU16(cls, p.n.posAfterCp + 2).value, ReadU16(cls, p.n.posAfterCp + 4).value;
    assert ClassNameRef(env, cls, p.view, thisIdx) == Ok(head.name);
    NameRefNames(env, cls, p.view, thisIdx);
    assert SuperRef(env, cls, p.view, superIdx) == Ok(head.super);
    if superIdx != 0 {
      NameRefNames(env, cls, p.view, superIdx);
    }
  }

  /** An accepted table's name and superclass name are there and hash to the
      hashes beside them. */
  lemma AcceptedNames(env: Env, l: Link, cls: seq<byte>)
    requires Valid(l) && ValidateLink(env, l, cls).Ok?
    ensures LinkedName(l).Some? && LinkedName(l).value != [] && NameHash(l) == env.nameHash(LinkedName(l).value)
    ensures SuperRefOf(l) != 0 ==>
      && LinkedSuperName(l).Some? && LinkedSuperName(l).value != []
      && SuperHash(l) == env.nameHash(LinkedSuperName(l).value)
  {
    var refs, p := AcceptedHolds(env, l, cls);
    PlanPrepared(cls, refs, l.pool);
    HeldNames(env, cls, p, l.words);
  }

  // ---- what a table says of its String constants -------------------------

  /** The `k`th String of the constant pool. */
  lemma {:induction false} NthString(cp: CpView, n: nat, k: nat) returns (j: nat)
    requires k < StrsUpTo(cp, n)
    ensures j < n && Tag(cp, j) == Some(TAG_STRING) && StrsUpTo(cp, j) == k
  {
    if k < StrsUpTo(cp, n - 1) {
      j := NthString(cp, n - 1, k);
    } else {
      j := n - 1;
    }
  }

  /** Each String entry derived names a `Utf8`. */
  lemma {:induction false} StrChecked(cls: seq<byte>, cp: CpView, n: Counts, l: Layout, i: nat, ks: nat, j: nat)
    requires i <= j < n.cpCount && Tag(cp, j) == Some(TAG_STRING)
    requires DeriveStrs(cls, cp, n, l, i, ks).outcome.Ok?
    ensures StringAt(cls, cp, j).Ok?
    decreases j - i
  {
    if i < j {
      StrChecked(cls, cp, n, l, i + 1, if Tag(cp, i) == Some(TAG_STRING) then ks + 1 else ks, j);
    }
  }

  lemma StringEntry(env: Env, cls: seq<byte>, p: Plan, words: seq<u16>, k: nat) returns (j: nat)
    requires Holds(env, cls, p, words) && k < p.n.strs
    ensures j < p.n.cpCount && p.view.tags[j] == TAG_STRING && StrsUpTo(p.view, j) == k
    ensures StringAt(cls, p.view, j) == Ok(p.view.offsets[j].value)
  {
    PlanFacts(env, cls, p, words);
    j := NthString(p.view, p.n.cpCount, k);
    var head, own, a := AgreesByParts(env, cls, p, words);
    StrChecked(cls, p.view, p.n, p.l, 0, 0, j);
  }

  /** String descriptor `k` leads to a `Utf8` entry of the pool. */
  lemma HeldString(env: Env, cls: seq<byte>, p: Plan, words: seq<u16>, k: nat)
    requires Holds(env, cls, p, words) && k < p.n.strs && |p.view.tags| == p.n.cpCount
    ensures Valid(Link(words, p.view.pool)) && k < StrsLen(Link(words, p.view.pool))
    ensures StringBytes(Link(words, p.view.pool), cls, StringDescAt(Link(words, p.view.pool), k).cpOff).Some?
  {
    HeaderShows(env, cls, p, words);
    HeaderLinks(p, words, p.view.pool);
    PlanFacts(env, cls, p, words);
    var j := StringEntry(env, cls, p, words, k);
    StrShown(env, cls, p, words, j);
    var off := p.view.offsets[j].value;
    var ui := StringNames(cls, p.view, j);
    SmallAsU16(off);
    TagShown(env, cls, p, words, ui);
    OffsetShown(env, cls, p, words, ui);
    StringRead(Link(words, p.view.pool), cls, k, off, ui, p.view.offsets[ui].value);
  }

  /** The `Utf8` entry a String entry names. */
  lemma StringNames(cls: seq<byte>, cp: CpView, j: nat) returns (ui: u16)
    requires FullView(cp) && j < |cp.tags| && StringAt(cls, cp, j) == Ok(cp.offsets[j].value)
    ensures Be16(cls, cp.offsets[j].value) == Some(ui)
    ensures ui < |cp.tags| && cp.tags[ui] == TAG_UTF8 && PoolUtf8(cp.pool, cp.offsets[ui].value).Some?
  {
    ui := ReadU16(cls, cp.offsets[j].value).value;
    assert Utf8(cp, ui).Some?;
  }

  lemma StringRead(l: Link, cls: seq<byte>, k: nat, off: nat, ui: u16, r: nat)
    requires Valid(l) && k < StrsLen(l) && l.words[StrsOff(l) + 2 * k] == off && Be16(cls, off) == Some(ui)
    requires CpTag(l, ui) == Some(TAG_UTF8) && CpWordAt(l, ui) == Some(r) && PoolUtf8(l.pool, r).Some?
    ensures StringBytes(l, cls, StringDescAt(l, k).cpOff).Some?
  {
  }
}
