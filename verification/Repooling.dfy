/** Pooling undoes unpooling: the class file a section's class is unpooled to is
    pooled back to the bytes it came from, into any pool with room for its
    strings. This is what relinking a section's classes relies on. */
module Repooling {
  import opened Bytes
  import opened ClassFile
  import opened Linker
  import opened LinkTable
  import opened Linking
  import opened PooledSets
  import opened Pooling
  import opened Utf8Pool

  // ---- unpooling an accepted class succeeds ------------------------------

  lemma {:induction false} InsertsRead(l: Link, visits: seq<Visit>)
    requires Valid(l)
    requires forall k | 0 <= k < |visits| && visits[k].tag == TAG_UTF8 :: LinkedUtf8(l, visits[k].index).Some?
    ensures InsertsOf(l, visits).Ok?
    decreases |visits|
  {
    if visits != [] {
      forall k | 0 <= k < |visits[1..]| && visits[1..][k].tag == TAG_UTF8
        ensures LinkedUtf8(l, visits[1..][k].index).Some?
      {
        assert visits[1..][k] == visits[k + 1];
      }
      InsertsRead(l, visits[1..]);
    }
  }

  /** Every `Utf8` of an accepted class is in its section's pool. */
  lemma Unpools(env: Env, l: Link, cls: seq<byte>)
    requires Valid(l) && ValidateLink(env, l, cls).Ok?
    ensures WalkCp(cls, Pooled).outcome.Ok? && InsertsOf(l, WalkCp(cls, Pooled).visits).Ok?
  {
    var refs, p := AcceptedHolds(env, l, cls);
    var visits := WalkCp(cls, Pooled).visits;
    PlanCounts(cls, refs, l.pool);
    PlanHasPool(cls, refs, l.pool, p);
    VisitsShow(env, cls, refs, p, l.words);
    forall k | 0 <= k < |visits| && visits[k].tag == TAG_UTF8
      ensures LinkedUtf8(l, visits[k].index).Some?
    {
      OffsetsComeFrom(visits, refs, k);
    }
    InsertsRead(l, visits);
  }

  // ---- the walk of what was unpooled -------------------------------------

  /** The strings put back from entry `idx` of the class on. */
  ghost predicate PutBack(
    l: Link, cls: seq<byte>, count: nat, idx: nat, q: nat, inserts: seq<Insert>, out: seq<byte>, pos: nat)
    requires Valid(l)
  {
    && q <= |cls| && pos <= |out|
    && WalkFrom(cls, Pooled, count, idx, q).outcome.Ok?
    && InsertsOf(l, WalkFrom(cls, Pooled, count, idx, q).visits) == Ok(inserts)
    && out[pos..] == Splice(cls, inserts, q)
  }

  lemma PooledStep(l: Link, cls: seq<byte>, count: nat, idx: nat, q: nat, inserts: seq<Insert>)
    returns (qnext: nat, rest: seq<Insert>)
    requires Valid(l) && q <= |cls| && idx < count && WalkFrom(cls, Pooled, count, idx, q).outcome.Ok?
    requires InsertsOf(l, WalkFrom(cls, Pooled, count, idx, q).visits) == Ok(inserts)
    ensures q < qnext <= |cls| && EntryEnd(cls, Pooled, idx, cls[q], q + 1) == Ok(qnext)
    ensures WalkFrom(cls, Pooled, count, NextIndex(idx, cls[q]), qnext).outcome.Ok?
    ensures InsertsOf(l, WalkFrom(cls, Pooled, count, NextIndex(idx, cls[q]), qnext).visits) == Ok(rest)
    ensures rest != [] ==> qnext <= rest[0].off <= |cls|
    ensures cls[q] != TAG_UTF8 ==> rest == inserts
    ensures cls[q] == TAG_UTF8 ==>
      qnext == q + 1 && inserts != [] && inserts[1..] == rest && inserts[0].off == q + 1 && |inserts[0].bytes| <= 65535
  {
    var tag := cls[q];
    qnext := EntryEnd(cls, Pooled, idx, tag, q + 1).value;
    var after := WalkFrom(cls, Pooled, count, NextIndex(idx, tag), qnext);
    InsertsStep(l, count, idx, tag, q + 1, after.visits);
    rest := InsertsOf(l, after.visits).value;
    InsertsPlaced(l, cls, count, NextIndex(idx, tag), qnext);
    if tag == TAG_UTF8 {
      FirstInsert(l, count, idx, q + 1, after.visits, inserts);
    }
  }

  lemma FirstInsert(l: Link, count: nat, idx: nat, off: nat, rest: seq<Visit>, inserts: seq<Insert>)
    requires Valid(l) && InsertsOf(l, EntryVisits(count, idx, TAG_UTF8, off) + rest) == Ok(inserts)
    ensures inserts != [] && |inserts[0].bytes| <= 65535
  {
    var all := EntryVisits(count, idx, TAG_UTF8, off) + rest;
    assert all[0] == Visit(idx, TAG_UTF8, off);
    assert LinkedUtf8(l, idx).Some?;
  }

  /** Past a `Utf8` put back: its tag, its length, its bytes. */
  lemma PastUtf8(cls: seq<byte>, q: nat, insert: Insert, rest: seq<Insert>, out: seq<byte>, pos: nat, next: nat)
    requires q < |cls| && pos <= |out| && insert.off == q + 1 && |insert.bytes| <= 65535
    requires next == pos + 3 + |insert.bytes|
    requires out[pos..] == Splice(cls, [insert] + rest, q)
    ensures next <= |out| && out[pos] == cls[q] && Be16(out, pos + 1) == Some(|insert.bytes|)
    ensures out[next..] == Splice(cls, rest, q + 1)
  {
    var len, tail := Be16Bytes(|insert.bytes|), Splice(cls, rest, q + 1);
    SmallAsU16(|insert.bytes|);
    assert ([insert] + rest)[1..] == rest;
    var front := cls[q..q + 1] + len + insert.bytes;
    assert out[pos..] == front + tail;
    AfterPrefix(out, pos, front, tail);
    SliceOfSlice(out, pos, next, 1, 3);
    assert front[1..3] == len;
    Be16ReadsBack(out, pos + 1, |insert.bytes|);
  }

  /** Past any other entry: its bytes as they are. */
  lemma PastOther(cls: seq<byte>, q: nat, qnext: nat, inserts: seq<Insert>, out: seq<byte>, pos: nat)
    requires q < qnext <= |cls| && pos <= |out| && (inserts != [] ==> qnext <= inserts[0].off <= |cls|)
    requires out[pos..] == Splice(cls, inserts, q)
    ensures pos + (qnext - q) <= |out| && out[pos] == cls[q] && out[pos..pos + (qnext - q)] == cls[q..qnext]
    ensures out[pos + (qnext - q)..] == Splice(cls, inserts, qnext)
  {
    SpliceFromEarlier(cls, inserts, qnext, q);
    AfterPrefix(out, pos, cls[q..qnext], Splice(cls, inserts, qnext));
  }

  /** One `Utf8` further in both. */
  lemma PutBackUtf8(l: Link, cls: seq<byte>, count: nat, idx: nat, q: nat, inserts: seq<Insert>, out: seq<byte>, pos: nat)
    returns (next: nat, rest: seq<Insert>)
    requires Valid(l) && PutBack(l, cls, count, idx, q, inserts, out, pos) && idx < count && q < |cls| && cls[q] == TAG_UTF8
    ensures PutBack(l, cls, count, idx + 1, q + 1, rest, out, next)
    ensures pos + 3 <= next <= |out| && next - pos - 3 <= 65535
    ensures out[pos] == TAG_UTF8 && Be16(out, pos + 1) == Some(next - pos - 3)
  {
    var qnext, after := PooledStep(l, cls, count, idx, q, inserts);
    var first := inserts[0];
    next, rest := pos + 3 + |first.bytes|, after;
    assert inserts == [first] + rest;
    PastUtf8(cls, q, first, rest, out, pos, next);
  }

  /** Any other entry further in both. */
  lemma PutBackOther(l: Link, cls: seq<byte>, count: nat, idx: nat, q: nat, inserts: seq<Insert>, out: seq<byte>, pos: nat)
    returns (qnext: nat, next: nat)
    requires Valid(l) && PutBack(l, cls, count, idx, q, inserts, out, pos) && idx < count && q < |cls| && cls[q] != TAG_UTF8
    ensures q < qnext <= |cls| && EntryEnd(cls, Pooled, idx, cls[q], q + 1) == Ok(qnext)
    ensures next == pos + (qnext - q) <= |out| && out[pos] == cls[q] && out[pos..next] == cls[q..qnext]
    ensures PutBack(l, cls, count, NextIndex(idx, cls[q]), qnext, inserts, out, next)
  {
    var after, rest := PooledStep(l, cls, count, idx, q, inserts);
    qnext, next := after, pos + (after - q);
    PastOther(cls, q, qnext, inserts, out, pos);
  }

  /** What was put back walks as the class does: cutting the strings out again
      leaves the class. */
  lemma {:induction false} PutBackFollows(
    l: Link, cls: seq<byte>, count: nat, idx: nat, q: nat, inserts: seq<Insert>, out: seq<byte>, pos: nat)
    requires Valid(l) && PutBack(l, cls, count, idx, q, inserts, out, pos)
    ensures Following(out, count, idx, pos, cls, q)
    decreases count - idx
  {
    if idx >= count {
      assert inserts == [];
    } else if cls[q] == TAG_UTF8 {
      var next, rest := PutBackUtf8(l, cls, count, idx, q, inserts, out, pos);
      PutBackFollows(l, cls, count, idx + 1, q + 1, rest, out, next);
      FollowsUtf8(cls, q, out, count, idx, pos, next);
    } else {
      var qnext, next := PutBackOther(l, cls, count, idx, q, inserts, out, pos);
      PutBackFollows(l, cls, count, NextIndex(idx, cls[q]), qnext, inserts, out, next);
      FollowsOther(cls, q, qnext, out, count, idx, pos, next);
    }
  }

  lemma FollowsUtf8(cls: seq<byte>, q: nat, out: seq<byte>, count: nat, idx: nat, pos: nat, next: nat)
    requires q < |cls| && pos + 3 <= next <= |out| && next - pos - 3 <= 65535 && idx < count
    requires out[pos] == cls[q] == TAG_UTF8 && Be16(out, pos + 1) == Some(next - pos - 3)
    requires Following(out, count, idx + 1, next, cls, q + 1)
    ensures Following(out, count, idx, pos, cls, q)
  {
    assert EntryEnd(out, Inline, idx, TAG_UTF8, pos + 1) == Ok(next);
    var w, after := WalkFrom(out, Inline, count, idx, pos), WalkFrom(out, Inline, count, idx + 1, next);
    SpansStep(out, count, idx, pos, after.visits);
    var spans := SpansOf(out, after.visits).value;
    var all := [Span(pos + 1, next)] + spans;
    assert SpansOf(out, w.visits) == Ok(all) && all[1..] == spans;
    assert CutSpans(out, all, pos) == out[pos..pos + 1] + CutSpans(out, spans, next);
    assert cls[q..] == cls[q..q + 1] + cls[q + 1..];
  }

  lemma FollowsOther(cls: seq<byte>, q: nat, qnext: nat, out: seq<byte>, count: nat, idx: nat, pos: nat, next: nat)
    requires q < qnext <= |cls| && next == pos + (qnext - q) <= |out| && idx < count
    requires out[pos] == cls[q] != TAG_UTF8 && EntryEnd(cls, Pooled, idx, cls[q], q + 1) == Ok(qnext)
    requires out[pos..next] == cls[q..qnext]
    requires Following(out, count, NextIndex(idx, cls[q]), next, cls, qnext)
    ensures Following(out, count, idx, pos, cls, q)
  {
    assert EntryEnd(out, Inline, idx, cls[q], pos + 1) == Ok(next);
    var w, after := WalkFrom(out, Inline, count, idx, pos), WalkFrom(out, Inline, count, NextIndex(idx, cls[q]), next);
    SpansStep(out, count, idx, pos, after.visits);
    var spans := SpansOf(out, after.visits).value;
    assert SpansOf(out, w.visits) == Ok(spans) by {
      assert [] + spans == spans;
    }
    CutFromEarlier(out, spans, next, pos);
    SplitSlice(cls, q, qnext, |cls|);
  }

  // ---- the theorem -------------------------------------------------------

  lemma {:induction false} InternFailsFull(entries: seq<Text>, texts: seq<Text>)
    ensures InternAll(entries, texts).Err? ==> InternAll(entries, texts).error == PoolTooLarge
    decreases |texts|
  {
    if texts != [] && Interned(entries, texts[0]).Ok? {
      InternFailsFull(Interned(entries, texts[0]).value, texts[1..]);
    }
  }

  /** What follows the header, put back and cut out again. */
  lemma WholeFollows(l: Link, cls: seq<byte>)
    requires Valid(l) && WalkCp(cls, Pooled).outcome.Ok? && InsertsOf(l, WalkCp(cls, Pooled).visits).Ok?
    ensures Unpooled(l, cls).Ok?
    ensures var out := Unpooled(l, cls).value;
      && |out| >= 10 && |cls| >= 10 && out[..10] == cls[..10]
      && Following(out, WalkCp(cls, Pooled).outcome.value.0, 1, 10, cls, 10)
  {
    var w := WalkCp(cls, Pooled);
    var count := w.outcome.value.0;
    var entries := WalkFrom(cls, Pooled, count, 1, 10);
    assert w.visits[1..] == entries.visits;
    var inserts := InsertsOf(l, entries.visits).value;
    var out := Splice(cls, inserts, 0);
    InsertsPlaced(l, cls, count, 1, 10);
    SpliceFromEarlier(cls, inserts, 10, 0);
    AfterPrefix(out, 0, cls[0..10], Splice(cls, inserts, 10));
    assert out[0..] == out && out[..10] == out[0..10] && cls[..10] == cls[0..10];
    PutBackFollows(l, cls, count, 1, 10, inserts, out, 10);
  }

  /** A class file unpooled from an accepted class pools back to it. The one
      thing that can go wrong besides a full pool is that the class file with
      its strings passes the size a class file may have. */
  lemma UnpooledPoolsBack(env: Env, l: Link, cls: seq<byte>, entries: seq<Text>)
    requires Valid(l) && ValidateLink(env, l, cls).Ok?
    ensures Unpooled(l, cls).Ok?
    ensures var out := Unpooled(l, cls).value;
      && (|out| <= MAX_CLASS_BYTES ==>
            match PoolClass(out, entries)
            case Ok(pc) => pc.bytes == cls
            case Err(e) => e == PoolTooLarge)
      && (|out| > MAX_CLASS_BYTES ==> PoolClass(out, entries) == Err(ClassTooLarge))
  {
    Unpools(env, l, cls);
    WholeFollows(l, cls);
    var out := Unpooled(l, cls).value;
    if |out| <= MAX_CLASS_BYTES {
      PooledBack(out, cls, entries);
    }
  }

  lemma PooledBack(out: seq<byte>, cls: seq<byte>, entries: seq<Text>)
    requires WalkCp(cls, Pooled).outcome.Ok? && |out| <= MAX_CLASS_BYTES
    requires |out| >= 10 && |cls| >= 10 && out[..10] == cls[..10]
    requires Following(out, WalkCp(cls, Pooled).outcome.value.0, 1, 10, cls, 10)
    ensures PoolClass(out, entries).Ok? ==> PoolClass(out, entries).value.bytes == cls
    ensures PoolClass(out, entries).Err? ==> PoolClass(out, entries).error == PoolTooLarge
  {
    assert forall k | 0 <= k < 10 :: cls[k] == cls[..10][k] && out[k] == out[..10][k];
    assert ReadHeader(out) == ReadHeader(cls);
    var count := ReadHeader(cls).value;
    var w, body := WalkCp(out, Inline), WalkFrom(out, Inline, count, 1, 10);
    assert w.visits[1..] == body.visits;
    var spans := SpansOf(out, body.visits).value;
    assert SpansOf(out, w.visits) == Ok(spans);
    CutFromEarlier(out, spans, 10, 0);
    assert cls == cls[..10] + cls[10..] && out[0..10] == out[..10];
    InternFailsFull(entries, TextsOf(out, spans, 0));
  }
}
