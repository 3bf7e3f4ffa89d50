/** `pool_class` and `unpooled_class` of `crates/class-link/src/build.rs` as
    functions, and the theorem that the second undoes the first. */
module Pooling {
  import opened Bytes
  import opened ClassFile
  import opened LinkTable
  import opened Linking
  import opened Utf8Pool

  // ---- moving the strings out --------------------------------------------

  /** The `[u16 len][bytes]` of one `Utf8` entry: `start..end` in the class. */
  datatype Span = Span(start: nat, end: nat)

  /** What `pool_class`'s visitor collects. */
  function SpansOf(cls: seq<byte>, visits: seq<Visit>): Result<seq<Span>> {
    if visits == [] then Ok([])
    else if visits[0].tag == TAG_UTF8 then
      var len :- ReadU16(cls, visits[0].off);
      var rest :- SpansOf(cls, visits[1..]);
      Ok([Span(visits[0].off, visits[0].off + 2 + len)] + rest)
    else SpansOf(cls, visits[1..])
  }

  /** The spans lie in the class one after another, from `at` on. */
  predicate InOrder(cls: seq<byte>, spans: seq<Span>, at: nat) {
    if spans == [] then at <= |cls|
    else
      && at <= spans[0].start && spans[0].start + 2 <= spans[0].end <= |cls|
      && spans[0].end - spans[0].start - 2 <= 65535
      && InOrder(cls, spans[1..], spans[0].end)
  }

  function TextAt(cls: seq<byte>, span: Span): Text
    requires span.start + 2 <= span.end <= |cls| && span.end - span.start - 2 <= 65535
  {
    cls[span.start + 2..span.end]
  }

  function TextsOf(cls: seq<byte>, spans: seq<Span>, at: nat): seq<Text>
    requires InOrder(cls, spans, at)
  {
    if spans == [] then [] else [TextAt(cls, spans[0])] + TextsOf(cls, spans[1..], spans[0].end)
  }

  /** The pooled bytes, the refs of the strings moved out, and the pool after. */
  datatype PooledClass = PooledClass(bytes: seq<byte>, refs: seq<nat>, entries: seq<Text>)

  /** The class with its spans cut out. */
  function CutSpans(cls: seq<byte>, spans: seq<Span>, at: nat): seq<byte>
    requires InOrder(cls, spans, at)
  {
    if spans == [] then cls[at..] else cls[at..spans[0].start] + CutSpans(cls, spans[1..], spans[0].end)
  }

  /** Interning the strings one after another. */
  function InternAll(entries: seq<Text>, texts: seq<Text>): Result<(seq<Text>, seq<nat>)>
    decreases |texts|
  {
    if texts == [] then Ok((entries, []))
    else
      var e :- Interned(entries, texts[0]);
      InternedHolds(entries, texts[0]);
      var rest :- InternAll(e, texts[1..]);
      Ok((rest.0, [RefOf(e, texts[0])] + rest.1))
  }

  lemma InternedHolds(entries: seq<Text>, s: Text)
    ensures Interned(entries, s).Ok? ==> s in Interned(entries, s).value
  {
    if s !in entries {
      assert (entries + [s])[|entries|] == s;
    }
  }

  /** `pool_class` */
  function PoolClass(cls: seq<byte>, entries: seq<Text>): Result<PooledClass> {
    var w := WalkCp(cls, Inline);
    var spans :- SpansOf(cls, w.visits);
    var counted :- w.outcome;
    SpansInOrder(cls);
    var interned :- InternAll(entries, TextsOf(cls, spans, 0));
    Ok(PooledClass(CutSpans(cls, spans, 0), interned.1, interned.0))
  }

  // ---- the spans of a walk -----------------------------------------------

  lemma {:induction false} SpansFromInOrder(cls: seq<byte>, count: nat, idx: nat, pos: nat)
    requires pos <= |cls| && WalkFrom(cls, Inline, count, idx, pos).outcome.Ok?
    ensures var spans := SpansOf(cls, WalkFrom(cls, Inline, count, idx, pos).visits);
      spans.Ok? && InOrder(cls, spans.value, pos)
    decreases count - idx
  {
    if idx < count {
      var tag := cls[pos];
      var next := EntryEnd(cls, Inline, idx, tag, pos + 1).value;
      var rest := WalkFrom(cls, Inline, count, NextIndex(idx, tag), next);
      SpansFromInOrder(cls, count, NextIndex(idx, tag), next);
      SpansStep(cls, count, idx, pos, rest.visits);
      InOrderEarlier(cls, SpansOf(cls, rest.visits).value, next, if tag == TAG_UTF8 then next else pos);
    }
  }

  lemma {:induction false} InOrderEarlier(cls: seq<byte>, spans: seq<Span>, at: nat, earlier: nat)
    requires InOrder(cls, spans, at) && earlier <= at
    ensures InOrder(cls, spans, earlier)
  {
  }

  /** The spans of one entry's visits and of those after it. */
  lemma SpansStep(cls: seq<byte>, count: nat, idx: nat, pos: nat, rest: seq<Visit>)
    requires idx < count && pos < |cls| && EntryEnd(cls, Inline, idx, cls[pos], pos + 1).Ok?
    ensures var next := EntryEnd(cls, Inline, idx, cls[pos], pos + 1).value;
      var all := SpansOf(cls, EntryVisits(count, idx, cls[pos], pos + 1) + rest);
      && pos < next <= |cls|
      && (SpansOf(cls, rest).Err? ==> all == Err(SpansOf(cls, rest).error))
      && (SpansOf(cls, rest).Ok? ==>
            all == Ok((if cls[pos] == TAG_UTF8 then [Span(pos + 1, next)] else []) + SpansOf(cls, rest).value))
  {
    var ev := EntryVisits(count, idx, cls[pos], pos + 1);
    if |ev| == 2 {
      assert (ev + rest)[1..] == [ev[1]] + rest;
      assert ([ev[1]] + rest)[1..] == rest;
      assert SpansOf(cls, ev + rest) == SpansOf(cls, rest);
    } else {
      assert (ev + rest)[1..] == rest;
    }
    if SpansOf(cls, rest).Ok? {
      assert [] + SpansOf(cls, rest).value == SpansOf(cls, rest).value;
    }
  }

  lemma SpansInOrder(cls: seq<byte>)
    ensures var w := WalkCp(cls, Inline);
      w.outcome.Ok? ==> SpansOf(cls, w.visits).Ok? && InOrder(cls, SpansOf(cls, w.visits).value, 0)
  {
    var w := WalkCp(cls, Inline);
    if w.outcome.Ok? {
      var rest := WalkFrom(cls, Inline, w.outcome.value.0, 1, 10);
      SpansFromInOrder(cls, w.outcome.value.0, 1, 10);
      assert w.visits[1..] == rest.visits;
      InOrderEarlier(cls, SpansOf(cls, rest.visits).value, 10, 0);
    }
  }

  // ---- the pooled class is walked alike ----------------------------------

  lemma CutFromEarlier(cls: seq<byte>, spans: seq<Span>, at: nat, earlier: nat)
    requires InOrder(cls, spans, at) && earlier <= at
    ensures InOrder(cls, spans, earlier) && at <= |cls|
    ensures CutSpans(cls, spans, earlier) == cls[earlier..at] + CutSpans(cls, spans, at)
  {
    InOrderEarlier(cls, spans, at, earlier);
    if spans == [] {
      SplitSlice(cls, earlier, at, |cls|);
    } else {
      SplitSlice(cls, earlier, at, spans[0].start);
      ConcatAssoc(cls[earlier..at], cls[at..spans[0].start], CutSpans(cls, spans[1..], spans[0].end));
    }
  }

  /** The bytes moved out of one entry: a `Utf8`'s length and string. */
  function SpanLen(cls: seq<byte>, v: Visit): nat {
    if v.tag != TAG_UTF8 then 0
    else
      match ReadU16(cls, v.off)
      case Err(_) => 0
      case Ok(len) => 2 + len
  }

  /** The bytes moved out of the first `k` entries visited. */
  function Removed(cls: seq<byte>, visits: seq<Visit>, k: nat): nat
    requires k <= |visits|
    decreases k
  {
    if k == 0 then 0 else SpanLen(cls, visits[0]) + Removed(cls, visits[1..], k - 1)
  }

  /** The data bytes of an entry that stay in the class. */
  function DataLen(tag: byte): nat {
    match FixedEntryLen(tag)
    case None => 0
    case Some(n) => n
  }

  /** One slot in both walks: same index, same tag, the data `removed` bytes
      earlier in the pooled form and otherwise the same. Index 0 and pad slots
      have no data and offset 0. */
  ghost predicate MovedBy(cls: seq<byte>, pooled: seq<byte>, a: Visit, b: Visit, removed: nat) {
    && a.index == b.index && a.tag == b.tag
    && if a.tag == 0 then a.off == 0 == b.off
       else
         && a.off == b.off + removed
         && a.off + DataLen(a.tag) <= |cls| && b.off + DataLen(a.tag) <= |pooled|
         && pooled[b.off..b.off + DataLen(a.tag)] == cls[a.off..a.off + DataLen(a.tag)]
  }

  /** Slot after slot, each moved by what was removed before it. */
  ghost predicate Shifted(cls: seq<byte>, pooled: seq<byte>, a: seq<Visit>, b: seq<Visit>, removed: nat) {
    && |a| == |b|
    && (a != [] ==>
          && MovedBy(cls, pooled, a[0], b[0], removed)
          && Shifted(cls, pooled, a[1..], b[1..], removed + SpanLen(cls, a[0])))
  }

  lemma {:induction false} ShiftedAt(
    cls: seq<byte>, pooled: seq<byte>, a: seq<Visit>, b: seq<Visit>, removed: nat, k: nat)
    requires Shifted(cls, pooled, a, b, removed) && k < |a|
    ensures MovedBy(cls, pooled, a[k], b[k], removed + Removed(cls, a, k))
    decreases k
  {
    if k > 0 {
      ShiftedAt(cls, pooled, a[1..], b[1..], removed + SpanLen(cls, a[0]), k - 1);
    }
  }

  /** The rest of the pool walked from `pos` of the class and from `q` of its
      pooled form, when what follows `q` is what follows `pos` with the strings
      cut out. */
  ghost predicate Following(cls: seq<byte>, count: nat, idx: nat, pos: nat, pooled: seq<byte>, q: nat) {
    && pos <= |cls| && q <= |pooled|
    && var w := WalkFrom(cls, Inline, count, idx, pos);
    && w.outcome.Ok? && SpansOf(cls, w.visits).Ok? && InOrder(cls, SpansOf(cls, w.visits).value, pos)
    && pooled[q..] == CutSpans(cls, SpansOf(cls, w.visits).value, pos)
  }

  /** What follows an entry in the inline walk, and the spans there. */
  lemma InlineStep(cls: seq<byte>, count: nat, idx: nat, pos: nat)
    requires pos <= |cls| && idx < count && WalkFrom(cls, Inline, count, idx, pos).outcome.Ok?
    ensures pos < |cls| && EntryEnd(cls, Inline, idx, cls[pos], pos + 1).Ok?
    ensures var next := EntryEnd(cls, Inline, idx, cls[pos], pos + 1).value;
      var w, rest := WalkFrom(cls, Inline, count, idx, pos), WalkFrom(cls, Inline, count, NextIndex(idx, cls[pos]), next);
      && pos < next <= |cls| && rest.outcome.Ok?
      && w.visits == EntryVisits(count, idx, cls[pos], pos + 1) + rest.visits
      && SpansOf(cls, w.visits).Ok? && SpansOf(cls, rest.visits).Ok?
      && InOrder(cls, SpansOf(cls, rest.visits).value, next)
      && SpansOf(cls, w.visits).value
         == (if cls[pos] == TAG_UTF8 then [Span(pos + 1, next)] else []) + SpansOf(cls, rest.visits).value
  {
    var next := EntryEnd(cls, Inline, idx, cls[pos], pos + 1).value;
    SpansStep(cls, count, idx, pos, WalkFrom(cls, Inline, count, NextIndex(idx, cls[pos]), next).visits);
    SpansFromInOrder(cls, count, NextIndex(idx, cls[pos]), next);
  }

  lemma FollowUtf8(cls: seq<byte>, count: nat, idx: nat, pos: nat, pooled: seq<byte>, q: nat)
    requires Following(cls, count, idx, pos, pooled, q) && idx < count && pos < |cls| && cls[pos] == TAG_UTF8
    ensures EntryEnd(cls, Inline, idx, TAG_UTF8, pos + 1).Ok? && q < |pooled| && pooled[q] == TAG_UTF8
    ensures var next := EntryEnd(cls, Inline, idx, TAG_UTF8, pos + 1).value;
      && pos + 3 <= next <= |cls| && next - pos - 3 <= 65535
      && cls[pos + 1..pos + 3] == Be16Bytes(next - pos - 3)
      && Following(cls, count, idx + 1, next, pooled, q + 1)
  {
    InlineStep(cls, count, idx, pos);
    var next := EntryEnd(cls, Inline, idx, TAG_UTF8, pos + 1).value;
    var spans := SpansOf(cls, WalkFrom(cls, Inline, count, idx, pos).visits).value;
    var after := SpansOf(cls, WalkFrom(cls, Inline, count, idx + 1, next).visits).value;
    assert spans == [Span(pos + 1, next)] + after && spans[1..] == after;
    assert CutSpans(cls, spans, pos) == cls[pos..pos + 1] + CutSpans(cls, after, next);
    AfterPrefix(pooled, q, cls[pos..pos + 1], CutSpans(cls, after, next));
  }

  lemma FollowOther(cls: seq<byte>, count: nat, idx: nat, pos: nat, pooled: seq<byte>, q: nat)
    requires Following(cls, count, idx, pos, pooled, q) && idx < count && pos < |cls| && cls[pos] != TAG_UTF8
    ensures EntryEnd(cls, Inline, idx, cls[pos], pos + 1).Ok?
    ensures var next := EntryEnd(cls, Inline, idx, cls[pos], pos + 1).value;
      && pos < next <= |cls| && q + (next - pos) <= |pooled|
      && pooled[q..q + (next - pos)] == cls[pos..next] && pooled[q] == cls[pos]
      && EntryEnd(pooled, Pooled, idx, cls[pos], q + 1) == Ok(q + (next - pos))
      && Following(cls, count, NextIndex(idx, cls[pos]), next, pooled, q + (next - pos))
  {
    InlineStep(cls, count, idx, pos);
    var next := EntryEnd(cls, Inline, idx, cls[pos], pos + 1).value;
    var spans := SpansOf(cls, WalkFrom(cls, Inline, count, idx, pos).visits).value;
    var after := SpansOf(cls, WalkFrom(cls, Inline, count, NextIndex(idx, cls[pos]), next).visits).value;
    assert spans == after;
    CutFromEarlier(cls, after, next, pos);
    AfterPrefix(pooled, q, cls[pos..next], CutSpans(cls, after, next));
  }

  /** One entry further in both forms. */
  lemma FollowStep(cls: seq<byte>, count: nat, idx: nat, pos: nat, pooled: seq<byte>, q: nat)
    requires Following(cls, count, idx, pos, pooled, q) && idx < count
    ensures pos < |cls| && q < |pooled| && pooled[q] == cls[pos]
    ensures var tag := cls[pos];
      var next := EntryEnd(cls, Inline, idx, tag, pos + 1);
      var qnext := EntryEnd(pooled, Pooled, idx, tag, q + 1);
      && next.Ok? && qnext.Ok? && pos < next.value <= |cls| && q < qnext.value <= |pooled|
      && qnext.value == (if tag == TAG_UTF8 then q + 1 else q + (next.value - pos))
      && Following(cls, count, NextIndex(idx, tag), next.value, pooled, qnext.value)
  {
    InlineStep(cls, count, idx, pos);
    if cls[pos] == TAG_UTF8 {
      FollowUtf8(cls, count, idx, pos, pooled, q);
    } else {
      FollowOther(cls, count, idx, pos, pooled, q);
    }
  }

  lemma AfterPrefix(d: seq<byte>, q: nat, p: seq<byte>, rest: seq<byte>)
    requires q <= |d| && d[q..] == p + rest
    ensures q + |p| <= |d| && d[q..q + |p|] == p && d[q + |p|..] == rest
    ensures p != [] ==> d[q] == p[0]
  {
    assert |d[q..]| == |p| + |rest|;
    assert d[q..q + |p|] == d[q..][..|p|];
    assert d[q + |p|..] == d[q..][|p|..];
    if p != [] {
      assert d[q] == d[q..][0];
    }
  }

  lemma {:induction false} FollowWalk(cls: seq<byte>, count: nat, idx: nat, pos: nat, pooled: seq<byte>, q: nat)
    requires Following(cls, count, idx, pos, pooled, q)
    ensures var w, v := WalkFrom(cls, Inline, count, idx, pos), WalkFrom(pooled, Pooled, count, idx, q);
      && v.outcome.Ok?
      && Utf8Count(v.visits) == |SpansOf(cls, w.visits).value|
    decreases count - idx
  {
    if idx < count {
      FollowStep(cls, count, idx, pos, pooled, q);
      var tag := cls[pos];
      var next := EntryEnd(cls, Inline, idx, tag, pos + 1).value;
      var qnext := EntryEnd(pooled, Pooled, idx, tag, q + 1).value;
      FollowWalk(cls, count, NextIndex(idx, tag), next, pooled, qnext);
      SpansStep(cls, count, idx, pos, WalkFrom(cls, Inline, count, NextIndex(idx, tag), next).visits);
      CountStep(count, idx, tag, q, WalkFrom(pooled, Pooled, count, NextIndex(idx, tag), qnext).visits);
    }
  }

  /** The rest of both walks: every slot, and the end, moved by what was removed
      before it, and what follows the pool the same. */
  lemma {:induction false} FollowShift(
    cls: seq<byte>, count: nat, idx: nat, pos: nat, pooled: seq<byte>, q: nat, a: CpWalk<nat>, b: CpWalk<nat>)
    requires Following(cls, count, idx, pos, pooled, q) && q <= pos
    requires a == WalkFrom(cls, Inline, count, idx, pos) && b == WalkFrom(pooled, Pooled, count, idx, q)
    ensures b.outcome.Ok? && Shifted(cls, pooled, a.visits, b.visits, pos - q)
    ensures a.outcome.value == b.outcome.value + (pos - q) + Removed(cls, a.visits, |a.visits|)
    ensures a.outcome.value <= |cls| && b.outcome.value <= |pooled| && pooled[b.outcome.value..] == cls[a.outcome.value..]
    decreases count - idx
  {
    if idx < count {
      var next := NextFollows(cls, count, idx, pos, pooled, q);
      var tag := cls[pos];
      var qnext := if tag == TAG_UTF8 then q + 1 else q + (next - pos);
      var a', b' := WalkFrom(cls, Inline, count, NextIndex(idx, tag), next), WalkFrom(pooled, Pooled, count, NextIndex(idx, tag), qnext);
      EntryMoved(cls, count, idx, pos, pooled, q, next, qnext);
      FollowShift(cls, count, NextIndex(idx, tag), next, pooled, qnext, a', b');
      WalksOn(cls, pooled, count, idx, pos, q, next, qnext, a, b, a', b');
      ShiftOn(cls, pooled, count, idx, tag, pos, q, next, qnext, a, b, a', b');
    }
  }

  /** One entry moved, and the rest: the whole moved. */
  lemma ShiftOn(cls: seq<byte>, pooled: seq<byte>, count: nat, idx: nat, tag: byte, pos: nat, q: nat, next: nat, qnext: nat,
                a: CpWalk<nat>, b: CpWalk<nat>, a': CpWalk<nat>, b': CpWalk<nat>)
    requires q <= pos && qnext <= next
    requires a == CpWalk(EntryVisits(count, idx, tag, pos + 1) + a'.visits, a'.outcome)
    requires b == CpWalk(EntryVisits(count, idx, tag, q + 1) + b'.visits, b'.outcome)
    requires MovedBy(cls, pooled, Visit(idx, tag, pos + 1), Visit(idx, tag, q + 1), pos - q)
    requires next - qnext == pos - q + SpanLen(cls, Visit(idx, tag, pos + 1))
    requires Shifted(cls, pooled, a'.visits, b'.visits, next - qnext) && a'.outcome.Ok? && b'.outcome.Ok?
    requires a'.outcome.value == b'.outcome.value + (next - qnext) + Removed(cls, a'.visits, |a'.visits|)
    ensures Shifted(cls, pooled, a.visits, b.visits, pos - q)
    ensures a.outcome.value == b.outcome.value + (pos - q) + Removed(cls, a.visits, |a.visits|)
  {
    ShiftStep(cls, pooled, count, idx, tag, pos, q, a'.visits, b'.visits);
  }

  /** Both walks, one entry and the rest. */
  lemma WalksOn(cls: seq<byte>, pooled: seq<byte>, count: nat, idx: nat, pos: nat, q: nat, next: nat, qnext: nat,
                a: CpWalk<nat>, b: CpWalk<nat>, a': CpWalk<nat>, b': CpWalk<nat>)
    requires idx < count && pos < |cls| && q < |pooled| && pooled[q] == cls[pos]
    requires EntryEnd(cls, Inline, idx, cls[pos], pos + 1) == Ok(next)
    requires EntryEnd(pooled, Pooled, idx, cls[pos], q + 1) == Ok(qnext)
    requires a == WalkFrom(cls, Inline, count, idx, pos) && b == WalkFrom(pooled, Pooled, count, idx, q)
    requires a' == WalkFrom(cls, Inline, count, NextIndex(idx, cls[pos]), next)
    requires b' == WalkFrom(pooled, Pooled, count, NextIndex(idx, cls[pos]), qnext)
    ensures a == CpWalk(EntryVisits(count, idx, cls[pos], pos + 1) + a'.visits, a'.outcome)
    ensures b == CpWalk(EntryVisits(count, idx, cls[pos], q + 1) + b'.visits, b'.outcome)
  {
  }

  /** One entry in both walks. */
  lemma EntryMoved(cls: seq<byte>, count: nat, idx: nat, pos: nat, pooled: seq<byte>, q: nat, next: nat, qnext: nat)
    requires Following(cls, count, idx, pos, pooled, q) && idx < count && q <= pos < |cls|
    requires EntryEnd(cls, Inline, idx, cls[pos], pos + 1) == Ok(next)
    requires qnext == if cls[pos] == TAG_UTF8 then q + 1 else q + (next - pos)
    ensures q < |pooled| && pooled[q] == cls[pos] && EntryEnd(pooled, Pooled, idx, cls[pos], q + 1) == Ok(qnext)
    ensures MovedBy(cls, pooled, Visit(idx, cls[pos], pos + 1), Visit(idx, cls[pos], q + 1), pos - q)
    ensures next - qnext == pos - q + SpanLen(cls, Visit(idx, cls[pos], pos + 1))
  {
    if cls[pos] == TAG_UTF8 {
      FollowUtf8(cls, count, idx, pos, pooled, q);
    } else {
      FollowOther(cls, count, idx, pos, pooled, q);
      DataMoved(cls, idx, pos, pooled, q, next, qnext);
    }
  }

  /** The data of an entry that is no `Utf8`. */
  lemma DataMoved(cls: seq<byte>, idx: nat, pos: nat, pooled: seq<byte>, q: nat, next: nat, qnext: nat)
    requires q <= pos < next <= |cls| && q < qnext <= |pooled| && next - pos == qnext - q && cls[pos] != TAG_UTF8
    requires pooled[q..qnext] == cls[pos..next] && EntryEnd(cls, Inline, idx, cls[pos], pos + 1) == Ok(next)
    ensures MovedBy(cls, pooled, Visit(idx, cls[pos], pos + 1), Visit(idx, cls[pos], q + 1), pos - q)
  {
    var n := next - pos;
    SliceOfSlice(pooled, q, qnext, 1, n);
    SliceOfSlice(cls, pos, next, 1, n);
  }

  lemma ShiftStep(cls: seq<byte>, pooled: seq<byte>, count: nat, idx: nat, tag: byte, pos: nat, q: nat,
                  a: seq<Visit>, b: seq<Visit>)
    requires q <= pos
    requires MovedBy(cls, pooled, Visit(idx, tag, pos + 1), Visit(idx, tag, q + 1), pos - q)
    requires Shifted(cls, pooled, a, b, pos - q + SpanLen(cls, Visit(idx, tag, pos + 1)))
    ensures var a', b' := EntryVisits(count, idx, tag, pos + 1) + a, EntryVisits(count, idx, tag, q + 1) + b;
      && Shifted(cls, pooled, a', b', pos - q)
      && Removed(cls, a', |a'|) == SpanLen(cls, Visit(idx, tag, pos + 1)) + Removed(cls, a, |a|)
  {
    var x, y, pad := Visit(idx, tag, pos + 1), Visit(idx, tag, q + 1), Visit(idx + 1, 0, 0);
    if IsWide(tag) && idx + 1 < count {
      assert EntryVisits(count, idx, tag, pos + 1) == [x, pad] && EntryVisits(count, idx, tag, q + 1) == [y, pad];
      ShiftTwo(cls, pooled, x, y, pad, a, b, pos - q);
    } else {
      assert EntryVisits(count, idx, tag, pos + 1) == [x] && EntryVisits(count, idx, tag, q + 1) == [y];
      ShiftOne(cls, pooled, x, y, a, b, pos - q);
    }
  }

  lemma TwoInFront<T>(x: T, y: T, rest: seq<T>)
    ensures [x, y] + rest == [x] + ([y] + rest)
  {
  }

  /** An entry with no string and the pad slot after it. */
  lemma ShiftTwo(cls: seq<byte>, pooled: seq<byte>, x: Visit, y: Visit, pad: Visit, a: seq<Visit>, b: seq<Visit>, removed: nat)
    requires MovedBy(cls, pooled, x, y, removed) && x.tag != TAG_UTF8 && pad.tag == 0 == pad.off
    requires Shifted(cls, pooled, a, b, removed)
    ensures Shifted(cls, pooled, [x, pad] + a, [y, pad] + b, removed)
    ensures Removed(cls, [x, pad] + a, |a| + 2) == Removed(cls, a, |a|)
  {
    ShiftOne(cls, pooled, pad, pad, a, b, removed);
    ShiftOne(cls, pooled, x, y, [pad] + a, [pad] + b, removed);
    TwoInFront(x, pad, a);
    TwoInFront(y, pad, b);
  }

  lemma ShiftOne(cls: seq<byte>, pooled: seq<byte>, x: Visit, y: Visit, a: seq<Visit>, b: seq<Visit>, removed: nat)
    requires MovedBy(cls, pooled, x, y, removed) && Shifted(cls, pooled, a, b, removed + SpanLen(cls, x))
    ensures Shifted(cls, pooled, [x] + a, [y] + b, removed)
    ensures Removed(cls, [x] + a, |a| + 1) == SpanLen(cls, x) + Removed(cls, a, |a|)
  {
    var a', b' := [x] + a, [y] + b;
    assert a'[0] == x && b'[0] == y && a'[1..] == a && b'[1..] == b;
    ShiftMore(cls, pooled, a', b', removed);
  }

  lemma ShiftMore(cls: seq<byte>, pooled: seq<byte>, a: seq<Visit>, b: seq<Visit>, removed: nat)
    requires |a| == |b| > 0 && MovedBy(cls, pooled, a[0], b[0], removed)
    requires Shifted(cls, pooled, a[1..], b[1..], removed + SpanLen(cls, a[0]))
    ensures Shifted(cls, pooled, a, b, removed)
  {
  }

  lemma CountStep(count: nat, idx: nat, tag: byte, q: nat, b: seq<Visit>)
    ensures Utf8Count(EntryVisits(count, idx, tag, q + 1) + b)
            == (if tag == TAG_UTF8 then 1 else 0) + Utf8Count(b)
  {
    var ev := EntryVisits(count, idx, tag, q + 1);
    if |ev| == 2 {
      assert (ev + b)[1..] == [ev[1]] + b;
      assert ([ev[1]] + b)[1..] == b;
    } else {
      assert (ev + b)[1..] == b;
    }
  }

  /** Cutting starts after the file header, which the pooled class keeps. */
  lemma PooledFollows(cls: seq<byte>)
    requires WalkCp(cls, Inline).outcome.Ok?
    ensures var w := WalkCp(cls, Inline);
      && SpansOf(cls, w.visits).Ok? && InOrder(cls, SpansOf(cls, w.visits).value, 0)
      && var pooled := CutSpans(cls, SpansOf(cls, w.visits).value, 0);
      && |pooled| <= |cls| && |cls| >= 10 && |pooled| >= 10 && pooled[..10] == cls[..10]
      && ReadHeader(pooled) == ReadHeader(cls)
      && Following(cls, w.outcome.value.0, 1, 10, pooled, 10)
  {
    SpansInOrder(cls);
    var w := WalkCp(cls, Inline);
    var count := w.outcome.value.0;
    var rest := WalkFrom(cls, Inline, count, 1, 10);
    assert w.visits[1..] == rest.visits;
    SpansFromInOrder(cls, count, 1, 10);
    var spans := SpansOf(cls, rest.visits).value;
    CutFromEarlier(cls, spans, 10, 0);
    var pooled := CutSpans(cls, spans, 0);
    AfterPrefix(pooled, 0, cls[0..10], CutSpans(cls, spans, 10));
    assert pooled[..10] == pooled[0..10] == cls[..10];
    CutShortens(cls, spans, 0);
    SameHeader(cls, pooled);
  }

  lemma SameHeader(cls: seq<byte>, pooled: seq<byte>)
    requires |cls| >= 10 && |pooled| >= 10 && pooled[..10] == cls[..10] && |pooled| <= |cls| <= MAX_CLASS_BYTES
    ensures ReadHeader(pooled) == ReadHeader(cls)
  {
    assert forall k | 0 <= k < 10 :: pooled[k] == pooled[..10][k] && cls[k] == cls[..10][k];
  }

  lemma {:induction false} CutShortens(cls: seq<byte>, spans: seq<Span>, at: nat)
    requires InOrder(cls, spans, at) && at <= |cls|
    ensures |CutSpans(cls, spans, at)| <= |cls| - at
    decreases |spans|
  {
    if spans != [] {
      CutShortens(cls, spans[1..], spans[0].end);
    }
  }

  /** Slot by slot the same walk: same indexes, same tags, each offset and the
      position after the pool earlier by exactly the bytes removed before it,
      the data there and all that follows the pool the same. */
  ghost predicate WalkedAlike(cls: seq<byte>, pooled: seq<byte>) {
    var w, v := WalkCp(cls, Inline), WalkCp(pooled, Pooled);
    && w.outcome.Ok? && v.outcome.Ok? && |w.visits| == |v.visits|
    && (forall k | 0 <= k < |w.visits| :: MovedBy(cls, pooled, w.visits[k], v.visits[k], Removed(cls, w.visits, k)))
    && EndAlike(cls, pooled, w.outcome.value.1, v.outcome.value.1, Removed(cls, w.visits, |w.visits|))
  }

  ghost predicate EndAlike(cls: seq<byte>, pooled: seq<byte>, end: nat, pooledEnd: nat, removed: nat) {
    && end == pooledEnd + removed && end <= |cls| && pooledEnd <= |pooled|
    && pooled[pooledEnd..] == cls[end..]
  }

  /** The pooled class is walked as the class is, and has as many `Utf8`s as
      strings were moved out. */
  lemma PooledWalksAlike(cls: seq<byte>, entries: seq<Text>)
    requires PoolClass(cls, entries).Ok?
    ensures var pc := PoolClass(cls, entries).value;
      var w, v := WalkCp(cls, Inline), WalkCp(pc.bytes, Pooled);
      && w.outcome.Ok? && v.outcome.Ok? && w.outcome.value.0 == v.outcome.value.0
      && WalkedAlike(cls, pc.bytes)
      && Utf8Count(v.visits) == |pc.refs|
      && |pc.bytes| <= |cls|
  {
    var pc := PoolClass(cls, entries).value;
    var w := WalkCp(cls, Inline);
    var count := w.outcome.value.0;
    PooledFollows(cls);
    FollowWalk(cls, count, 1, 10, pc.bytes, 10);
    var a, b := WalkFrom(cls, Inline, count, 1, 10), WalkFrom(pc.bytes, Pooled, count, 1, 10);
    var v := WalkCp(pc.bytes, Pooled);
    assert w.visits[1..] == a.visits && v.visits[1..] == b.visits;
    FollowsAlike(cls, pc.bytes, count);
    TextsLength(cls, SpansOf(cls, w.visits).value, 0);
    InternAllLength(entries, TextsOf(cls, SpansOf(cls, w.visits).value, 0));
  }

  /** From the first entries on, and so as a whole. */
  lemma FollowsAlike(cls: seq<byte>, pooled: seq<byte>, count: nat)
    requires ReadHeader(cls) == ReadHeader(pooled) == Ok(count) && Following(cls, count, 1, 10, pooled, 10)
    ensures WalkedAlike(cls, pooled)
  {
    var a, b := WalkFrom(cls, Inline, count, 1, 10), WalkFrom(pooled, Pooled, count, 1, 10);
    var w, v := WalkCp(cls, Inline).visits, WalkCp(pooled, Pooled).visits;
    var first := Visit(0, 0, 0);
    FollowShift(cls, count, 1, 10, pooled, 10, a, b);
    ShiftOne(cls, pooled, first, first, a.visits, b.visits, 0);
    assert w == [first] + a.visits && v == [first] + b.visits;
    forall k | 0 <= k < |w|
      ensures MovedBy(cls, pooled, w[k], v[k], Removed(cls, w, k))
    {
      ShiftedAt(cls, pooled, w, v, 0, k);
    }
  }

  lemma {:induction false} TextsLength(cls: seq<byte>, spans: seq<Span>, at: nat)
    requires InOrder(cls, spans, at)
    ensures |TextsOf(cls, spans, at)| == |spans|
    decreases |spans|
  {
    if spans != [] {
      TextsLength(cls, spans[1..], spans[0].end);
    }
  }

  lemma {:induction false} InternAllLength(entries: seq<Text>, texts: seq<Text>)
    ensures InternAll(entries, texts).Ok? ==> |InternAll(entries, texts).value.1| == |texts|
    decreases |texts|
  {
    if texts != [] && Interned(entries, texts[0]).Ok? {
      InternAllLength(Interned(entries, texts[0]).value, texts[1..]);
    }
  }

  /** Interning keeps the pool well formed, only grows it, and gives each string
      a ref that reads back to it. */
  lemma {:induction false} InternAllReadsBack(entries: seq<Text>, texts: seq<Text>)
    requires WellFormed(entries) && InternAll(entries, texts).Ok?
    ensures var (all, refs) := InternAll(entries, texts).value;
      && WellFormed(all) && entries <= all && |refs| == |texts|
      && forall k | 0 <= k < |texts| ::
           texts[k] in all && refs[k] == RefOf(all, texts[k]) && refs[k] < 0x1_0000
    decreases |texts|
  {
    if texts != [] {
      var e := Interned(entries, texts[0]).value;
      InternedWellFormed(entries, texts[0]);
      InternAllReadsBack(e, texts[1..]);
      var (all, rest) := InternAll(e, texts[1..]).value;
      GrownReadsBack(e, all, texts[0]);
      RefsCons(all, texts, [RefOf(e, texts[0])] + rest, rest);
    }
  }

  lemma RefsCons(all: seq<Text>, texts: seq<Text>, refs: seq<nat>, rest: seq<nat>)
    requires texts != [] && |rest| == |texts| - 1 && |refs| == |texts| && refs[1..] == rest
    requires texts[0] in all && refs[0] == RefOf(all, texts[0]) && refs[0] < 0x1_0000
    requires forall k | 0 <= k < |texts[1..]| ::
      texts[1..][k] in all && rest[k] == RefOf(all, texts[1..][k]) && rest[k] < 0x1_0000
    ensures forall k | 0 <= k < |texts| :: texts[k] in all && refs[k] == RefOf(all, texts[k]) && refs[k] < 0x1_0000
  {
    forall k | 0 <= k < |texts|
      ensures texts[k] in all && refs[k] == RefOf(all, texts[k]) && refs[k] < 0x1_0000
    {
      if k > 0 {
        assert texts[k] == texts[1..][k - 1] && refs[k] == rest[k - 1];
      }
    }
  }

  lemma GrownReadsBack(e: seq<Text>, all: seq<Text>, s: Text)
    requires WellFormed(all) && e <= all && s in e
    ensures s in all && RefOf(all, s) == RefOf(e, s) && RefOf(e, s) < 0x1_0000
    ensures PoolUtf8(PoolBytes(all), RefOf(all, s)) == Some(s)
  {
    var more := all[|e|..];
    assert e + more == all;
    RefStays(e, more, s);
    InternedReadsBack(e, more, s);
  }

  // ---- putting the strings back ------------------------------------------

  datatype Insert = Insert(off: nat, bytes: seq<byte>)

  /** What `unpooled_class`'s visitor collects. */
  function InsertsOf(l: Link, visits: seq<Visit>): Result<seq<Insert>>
    requires Valid(l)
  {
    if visits == [] then Ok([])
    else if visits[0].tag == TAG_UTF8 then
      var bytes :- OkOr(LinkedUtf8(l, visits[0].index), BadOffset(AsU16(HEADER_WORDS + visits[0].index)));
      var rest :- InsertsOf(l, visits[1..]);
      Ok([Insert(visits[0].off, bytes)] + rest)
    else InsertsOf(l, visits[1..])
  }

  /** The source's splice; an insert past the class or before the last one
      cannot happen and is left out. */
  function Splice(cls: seq<byte>, inserts: seq<Insert>, at: nat): seq<byte>
    requires at <= |cls|
    decreases |inserts|
  {
    if inserts == [] then cls[at..]
    else if at <= inserts[0].off <= |cls| then
      cls[at..inserts[0].off] + Be16Bytes(AsU16(|inserts[0].bytes|)) + inserts[0].bytes
      + Splice(cls, inserts[1..], inserts[0].off)
    else cls[at..]
  }

  /** `unpooled_class` */
  function Unpooled(l: Link, cls: seq<byte>): Result<seq<byte>>
    requires Valid(l)
  {
    var w := WalkCp(cls, Pooled);
    var inserts :- InsertsOf(l, w.visits);
    var counted :- w.outcome;
    Ok(Splice(cls, inserts, 0))
  }

  /** The inserts of a walk whose `Utf8`s hold `texts` in order. */
  function InsertList(visits: seq<Visit>, texts: seq<Text>): seq<Insert>
    decreases |visits|
  {
    if visits == [] then []
    else if visits[0].tag == TAG_UTF8 then
      if texts == [] then [] else [Insert(visits[0].off, texts[0])] + InsertList(visits[1..], texts[1..])
    else InsertList(visits[1..], texts)
  }

  lemma InsertListStep(count: nat, idx: nat, tag: byte, q: nat, rest: seq<Visit>, texts: seq<Text>)
    ensures InsertList(EntryVisits(count, idx, tag, q + 1) + rest, texts)
            == if tag != TAG_UTF8 then InsertList(rest, texts)
               else if texts == [] then []
               else [Insert(q + 1, texts[0])] + InsertList(rest, texts[1..])
  {
    var ev := EntryVisits(count, idx, tag, q + 1);
    if |ev| == 2 {
      assert (ev + rest)[1..] == [ev[1]] + rest;
      assert ([ev[1]] + rest)[1..] == rest;
    } else {
      assert (ev + rest)[1..] == rest;
    }
  }

  lemma SpliceFromEarlier(cls: seq<byte>, inserts: seq<Insert>, at: nat, earlier: nat)
    requires earlier <= at <= |cls|
    requires inserts != [] ==> at <= inserts[0].off <= |cls|
    ensures Splice(cls, inserts, earlier) == cls[earlier..at] + Splice(cls, inserts, at)
  {
    if inserts == [] {
      SplitSlice(cls, earlier, at, |cls|);
    } else {
      var i := inserts[0];
      var len, tail := Be16Bytes(AsU16(|i.bytes|)), Splice(cls, inserts[1..], i.off);
      SplitSlice(cls, earlier, at, i.off);
      Regroup(cls[earlier..at], cls[at..i.off], len, i.bytes, tail);
    }
  }

  lemma Regroup(a: seq<byte>, b: seq<byte>, c: seq<byte>, d: seq<byte>, e: seq<byte>)
    ensures (a + b) + c + d + e == a + (b + c + d + e)
  {
  }

  /** The strings of the class's entries from `idx` on. */
  function TextsFrom(cls: seq<byte>, count: nat, idx: nat, pos: nat): seq<Text>
    requires pos <= |cls| && WalkFrom(cls, Inline, count, idx, pos).outcome.Ok?
  {
    SpansFromInOrder(cls, count, idx, pos);
    TextsOf(cls, SpansOf(cls, WalkFrom(cls, Inline, count, idx, pos).visits).value, pos)
  }

  /** What `unpooled_class` would put back from entry `idx` on. */
  function InsertsFrom(cls: seq<byte>, count: nat, idx: nat, pos: nat, pooled: seq<byte>, q: nat): seq<Insert>
    requires pos <= |cls| && WalkFrom(cls, Inline, count, idx, pos).outcome.Ok?
  {
    InsertList(WalkFrom(pooled, Pooled, count, idx, q).visits, TextsFrom(cls, count, idx, pos))
  }

  lemma InsertsAtUtf8(cls: seq<byte>, count: nat, idx: nat, pos: nat, pooled: seq<byte>, q: nat)
    requires Following(cls, count, idx, pos, pooled, q) && idx < count && pos < |cls| && cls[pos] == TAG_UTF8
    ensures EntryEnd(cls, Inline, idx, TAG_UTF8, pos + 1).Ok?
    ensures var next := EntryEnd(cls, Inline, idx, TAG_UTF8, pos + 1).value;
      && pos + 3 <= next <= |cls| && WalkFrom(cls, Inline, count, idx + 1, next).outcome.Ok?
      && InsertsFrom(cls, count, idx, pos, pooled, q)
         == [Insert(q + 1, cls[pos + 3..next])] + InsertsFrom(cls, count, idx + 1, next, pooled, q + 1)
  {
    FollowUtf8(cls, count, idx, pos, pooled, q);
    InlineStep(cls, count, idx, pos);
    var next := EntryEnd(cls, Inline, idx, TAG_UTF8, pos + 1).value;
    var after := SpansOf(cls, WalkFrom(cls, Inline, count, idx + 1, next).visits).value;
    var spans := [Span(pos + 1, next)] + after;
    assert spans[1..] == after;
    var texts := TextsFrom(cls, count, idx + 1, next);
    assert TextsFrom(cls, count, idx, pos) == [cls[pos + 3..next]] + texts;
    InsertListStep(count, idx, TAG_UTF8, q, WalkFrom(pooled, Pooled, count, idx + 1, q + 1).visits, [cls[pos + 3..next]] + texts);
    assert ([cls[pos + 3..next]] + texts)[1..] == texts;
  }

  lemma InsertsAtOther(cls: seq<byte>, count: nat, idx: nat, pos: nat, pooled: seq<byte>, q: nat, next: nat, qnext: nat)
    requires Following(cls, count, idx, pos, pooled, q) && idx < count && pos < |cls| && cls[pos] != TAG_UTF8
    requires EntryEnd(cls, Inline, idx, cls[pos], pos + 1) == Ok(next) && pos < next && qnext == q + (next - pos)
    ensures next <= |cls| && WalkFrom(cls, Inline, count, NextIndex(idx, cls[pos]), next).outcome.Ok?
    ensures InsertsFrom(cls, count, idx, pos, pooled, q) == InsertsFrom(cls, count, NextIndex(idx, cls[pos]), next, pooled, qnext)
  {
    var i' := NextIndex(idx, cls[pos]);
    TextsAtOther(cls, count, idx, pos, next);
    assert WalkFrom(pooled, Pooled, count, idx, q).visits
        == EntryVisits(count, idx, cls[pos], q + 1) + WalkFrom(pooled, Pooled, count, i', qnext).visits by {
      FollowOther(cls, count, idx, pos, pooled, q);
    }
    InsertListStep(count, idx, cls[pos], q, WalkFrom(pooled, Pooled, count, i', qnext).visits, TextsFrom(cls, count, i', next));
  }

  lemma TextsAtOther(cls: seq<byte>, count: nat, idx: nat, pos: nat, next: nat)
    requires pos < |cls| && idx < count && WalkFrom(cls, Inline, count, idx, pos).outcome.Ok? && cls[pos] != TAG_UTF8
    requires EntryEnd(cls, Inline, idx, cls[pos], pos + 1) == Ok(next)
    ensures pos < next <= |cls| && WalkFrom(cls, Inline, count, NextIndex(idx, cls[pos]), next).outcome.Ok?
    ensures TextsFrom(cls, count, idx, pos) == TextsFrom(cls, count, NextIndex(idx, cls[pos]), next)
  {
    InlineStep(cls, count, idx, pos);
    TextsFromEarlier(cls, SpansOf(cls, WalkFrom(cls, Inline, count, NextIndex(idx, cls[pos]), next).visits).value, next, pos);
  }

  /** The strings put back after `q` give what follows `pos` of the class. */
  ghost predicate Restored(cls: seq<byte>, pos: nat, pooled: seq<byte>, q: nat, inserts: seq<Insert>) {
    && pos <= |cls| && q <= |pooled|
    && (inserts != [] ==> q <= inserts[0].off <= |pooled|)
    && Splice(pooled, inserts, q) == cls[pos..]
  }

  lemma RestoreOther(cls: seq<byte>, pos: nat, next: nat, pooled: seq<byte>, q: nat, qnext: nat, inserts: seq<Insert>)
    requires pos < next <= |cls| && q < qnext <= |pooled| && pooled[q..qnext] == cls[pos..next]
    requires Restored(cls, next, pooled, qnext, inserts)
    ensures Restored(cls, pos, pooled, q, inserts)
  {
    SpliceFromEarlier(pooled, inserts, qnext, q);
    SplitSlice(cls, pos, next, |cls|);
  }

  lemma NextFollows(cls: seq<byte>, count: nat, idx: nat, pos: nat, pooled: seq<byte>, q: nat) returns (next: nat)
    requires Following(cls, count, idx, pos, pooled, q) && idx < count
    ensures pos < |cls| && EntryEnd(cls, Inline, idx, cls[pos], pos + 1) == Ok(next) && pos < next <= |cls|
    ensures Following(cls, count, NextIndex(idx, cls[pos]), next, pooled,
                      if cls[pos] == TAG_UTF8 then q + 1 else q + (next - pos))
  {
    FollowStep(cls, count, idx, pos, pooled, q);
    next := EntryEnd(cls, Inline, idx, cls[pos], pos + 1).value;
  }

  lemma {:induction false} FollowRestores(
    cls: seq<byte>, count: nat, idx: nat, pos: nat, pooled: seq<byte>, q: nat, inserts: seq<Insert>)
    requires Following(cls, count, idx, pos, pooled, q) && inserts == InsertsFrom(cls, count, idx, pos, pooled, q)
    ensures Restored(cls, pos, pooled, q, inserts)
    decreases count - idx
  {
    if idx >= count {
      assert inserts == [];
    } else {
      var next := NextFollows(cls, count, idx, pos, pooled, q);
      var qnext := if cls[pos] == TAG_UTF8 then q + 1 else q + (next - pos);
      var rest := InsertsFrom(cls, count, NextIndex(idx, cls[pos]), next, pooled, qnext);
      FollowRestores(cls, count, NextIndex(idx, cls[pos]), next, pooled, qnext, rest);
      if cls[pos] == TAG_UTF8 {
        RestoresAtUtf8(cls, count, idx, pos, pooled, q, next, inserts, rest);
      } else {
        RestoresAtOther(cls, count, idx, pos, pooled, q, next, qnext, inserts, rest);
        RestoreOther(cls, pos, next, pooled, q, qnext, rest);
      }
    }
  }

  lemma RestoresAtUtf8(cls: seq<byte>, count: nat, idx: nat, pos: nat, pooled: seq<byte>, q: nat, next: nat,
                       inserts: seq<Insert>, rest: seq<Insert>)
    requires Following(cls, count, idx, pos, pooled, q) && idx < count && pos < |cls| && cls[pos] == TAG_UTF8
    requires EntryEnd(cls, Inline, idx, TAG_UTF8, pos + 1) == Ok(next) && Restored(cls, next, pooled, q + 1, rest)
    requires WalkFrom(cls, Inline, count, idx + 1, next).outcome.Ok?
    requires inserts == InsertsFrom(cls, count, idx, pos, pooled, q)
    requires rest == InsertsFrom(cls, count, idx + 1, next, pooled, q + 1)
    ensures Restored(cls, pos, pooled, q, inserts)
  {
    InsertsAtUtf8(cls, count, idx, pos, pooled, q);
    FollowUtf8(cls, count, idx, pos, pooled, q);
    RestoreUtf8(cls, pos, next, pooled, q, rest);
  }

  lemma RestoresAtOther(cls: seq<byte>, count: nat, idx: nat, pos: nat, pooled: seq<byte>, q: nat, next: nat, qnext: nat,
                        inserts: seq<Insert>, rest: seq<Insert>)
    requires Following(cls, count, idx, pos, pooled, q) && idx < count && pos < |cls| && cls[pos] != TAG_UTF8
    requires EntryEnd(cls, Inline, idx, cls[pos], pos + 1) == Ok(next) && pos < next && qnext == q + (next - pos)
    requires inserts == InsertsFrom(cls, count, idx, pos, pooled, q)
    requires WalkFrom(cls, Inline, count, NextIndex(idx, cls[pos]), next).outcome.Ok? && next <= |cls|
    requires rest == InsertsFrom(cls, count, NextIndex(idx, cls[pos]), next, pooled, qnext)
    ensures inserts == rest && qnext <= |pooled| && pooled[q..qnext] == cls[pos..next]
  {
    assert inserts == rest by {
      InsertsAtOther(cls, count, idx, pos, pooled, q, next, qnext);
    }
    assert qnext <= |pooled| && pooled[q..qnext] == cls[pos..next] by {
      FollowOther(cls, count, idx, pos, pooled, q);
    }
  }

  lemma TextsFromEarlier(cls: seq<byte>, spans: seq<Span>, at: nat, earlier: nat)
    requires InOrder(cls, spans, at) && earlier <= at
    ensures InOrder(cls, spans, earlier) && TextsOf(cls, spans, earlier) == TextsOf(cls, spans, at)
  {
    InOrderEarlier(cls, spans, at, earlier);
  }

  lemma RestoreUtf8(cls: seq<byte>, pos: nat, next: nat, pooled: seq<byte>, q: nat, rest: seq<Insert>)
    requires pos + 3 <= next <= |cls| && next - pos - 3 <= 65535 && q < |pooled|
    requires pooled[q] == cls[pos] && cls[pos + 1..pos + 3] == Be16Bytes(next - pos - 3)
    requires Restored(cls, next, pooled, q + 1, rest)
    ensures Restored(cls, pos, pooled, q, [Insert(q + 1, cls[pos + 3..next])] + rest)
  {
    var s := cls[pos + 3..next];
    var inserts := [Insert(q + 1, s)] + rest;
    assert inserts[1..] == rest;
    SmallAsU16(|s|);
    assert pooled[q..q + 1] == cls[pos..pos + 1];
    assert cls[pos..] == cls[pos..pos + 1] + cls[pos + 1..pos + 3] + s + cls[next..];
  }

  /** Reinserting the strings where the pooled walk finds its `Utf8`s restores
      the class file byte for byte. */
  lemma SpliceRestores(cls: seq<byte>, entries: seq<Text>)
    requires PoolClass(cls, entries).Ok?
    ensures var pc := PoolClass(cls, entries).value;
      var spans := SpansOf(cls, WalkCp(cls, Inline).visits);
      && spans.Ok? && InOrder(cls, spans.value, 0)
      && InternAll(entries, TextsOf(cls, spans.value, 0)) == Ok((pc.entries, pc.refs))
      && Splice(pc.bytes, InsertList(WalkCp(pc.bytes, Pooled).visits, TextsOf(cls, spans.value, 0)), 0) == cls
  {
    var pc := PoolClass(cls, entries).value;
    var w, v := WalkCp(cls, Inline), WalkCp(pc.bytes, Pooled);
    var count := w.outcome.value.0;
    PooledFollows(cls);
    FollowRestores(cls, count, 1, 10, pc.bytes, 10, InsertsFrom(cls, count, 1, 10, pc.bytes, 10));
    var a, b := WalkFrom(cls, Inline, count, 1, 10), WalkFrom(pc.bytes, Pooled, count, 1, 10);
    assert w.visits[1..] == a.visits && v.visits[1..] == b.visits;
    SpansFromInOrder(cls, count, 1, 10);
    var spans := SpansOf(cls, a.visits).value;
    TextsFromEarlier(cls, spans, 10, 0);
    var inserts := InsertList(b.visits, TextsOf(cls, spans, 10));
    SpliceFromEarlier(pc.bytes, inserts, 10, 0);
    assert cls == cls[..10] + cls[10..];
    assert pc.bytes[0..10] == cls[..10];
  }

  /** A table whose `Utf8` entries name the strings collects exactly them. */
  lemma {:induction false} InsertsMatch(l: Link, visits: seq<Visit>, refs: seq<u16>, texts: seq<Text>)
    requires Valid(l) && |refs| == |texts|
    requires ViewOffsets(visits, refs).Ok?
    requires |ViewOffsets(visits, refs).value| == |visits|
    requires forall k | 0 <= k < |visits| && visits[k].tag == TAG_UTF8 ::
      && CpTag(l, visits[k].index) == Some(TAG_UTF8)
      && Some(CpWordAt(l, visits[k].index).value) == ViewOffsets(visits, refs).value[k]
    requires forall j | 0 <= j < |refs| :: PoolUtf8(l.pool, refs[j]) == Some(texts[j])
    ensures InsertsOf(l, visits) == Ok(InsertList(visits, texts))
    decreases |visits|
  {
    if visits != [] {
      var utf8 := visits[0].tag == TAG_UTF8;
      var refs', texts' := if utf8 then refs[1..] else refs, if utf8 then texts[1..] else texts;
      var o, o' := ViewOffsets(visits, refs).value, ViewOffsets(visits[1..], refs').value;
      OffsetsAreFull(visits[1..], refs');
      assert o[1..] == o';
      forall k | 0 <= k < |visits[1..]| && visits[1..][k].tag == TAG_UTF8
        ensures CpTag(l, visits[1..][k].index) == Some(TAG_UTF8)
        ensures Some(CpWordAt(l, visits[1..][k].index).value) == o'[k]
      {
        assert visits[1..][k] == visits[k + 1] && o'[k] == o[k + 1];
      }
      InsertsMatch(l, visits[1..], refs', texts');
    }
  }
}
