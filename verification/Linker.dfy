/** The builder's and the validator's work on one class as the source runs it:
    `pool_class`, `link_pooled` and `unpooled_class` of
    `crates/class-link/src/build.rs` and `Link::validate` of
    `crates/class-link/src/validate.rs`, each proved to compute the function its
    theorems are about. */
module Linker {
  import opened Bytes
  import opened ClassFile
  import opened Deriver
  import opened LinkTable
  import opened Linking
  import opened Pooling
  import opened Reader
  import opened Utf8Pool

  /** What was collected, then what is still to come. */
  function Prepend<T>(front: seq<T>, rest: Result<seq<T>>): Result<seq<T>> {
    match rest
    case Err(e) => Err(e)
    case Ok(s) => Ok(front + s)
  }

  lemma PrependNothing<T>(rest: Result<seq<T>>)
    ensures Prepend([], rest) == rest
  {
    if rest.Ok? {
      assert [] + rest.value == rest.value;
    }
  }

  lemma PrependAll<T>(front: seq<T>)
    ensures Prepend(front, Ok([])) == Ok(front)
  {
    assert front + [] == front;
  }

  lemma PrependOne<T>(front: seq<T>, x: T, rest: Result<seq<T>>)
    ensures Prepend(front, Prepend([x], rest)) == Prepend(front + [x], rest)
  {
    if rest.Ok? {
      ConcatAssoc(front, [x], rest.value);
    }
  }

  // ---- pooling -----------------------------------------------------------

  method CollectSpans(cls: seq<byte>, visits: seq<Visit>) returns (r: Result<seq<Span>>)
    ensures r == SpansOf(cls, visits)
  {
    var spans := [];
    var k := 0;
    PrependNothing(SpansOf(cls, visits));
    assert visits[0..] == visits;
    while k < |visits|
      invariant 0 <= k <= |visits|
      invariant SpansOf(cls, visits) == Prepend(spans, SpansOf(cls, visits[k..]))
    {
      assert visits[k..][1..] == visits[k + 1..];
      if visits[k].tag == TAG_UTF8 {
        var len :- ReadU16(cls, visits[k].off);
        var span := Span(visits[k].off, visits[k].off + 2 + len);
        PrependOne(spans, span, SpansOf(cls, visits[k + 1..]));
        spans := spans + [span];
      }
      k := k + 1;
    }
    PrependAll(spans);
    return Ok(spans);
  }

  /** `pool_class`: each string moved into `pool`, its tag left behind. */
  method PoolOne(cls: seq<byte>, pool: Pool) returns (r: Result<(seq<byte>, seq<nat>)>)
    requires pool.Valid()
    modifies pool
    ensures pool.Valid()
    ensures r.Ok? ==> PoolClass(cls, old(pool.entries)) == Ok(PooledClass(r.value.0, r.value.1, pool.entries))
    ensures r.Err? ==> PoolClass(cls, old(pool.entries)) == Err(r.error)
  {
    var walked, visits := WalkPool(cls, Inline);
    var spans :- CollectSpans(cls, visits);
    var _ :- walked;
    SpansInOrder(cls);
    var interned := InternSpans(cls, spans, pool);
    var refs :- interned;
    var out := CutOut(cls, spans);
    return Ok((out, refs));
  }

  /** The strings of the spans interned, in order. */
  method InternSpans(cls: seq<byte>, spans: seq<Span>, pool: Pool) returns (r: Result<seq<nat>>)
    requires pool.Valid() && InOrder(cls, spans, 0)
    modifies pool
    ensures pool.Valid()
    ensures r.Ok? ==> InternAll(old(pool.entries), TextsOf(cls, spans, 0)) == Ok((pool.entries, r.value))
    ensures r.Err? ==> InternAll(old(pool.entries), TextsOf(cls, spans, 0)) == Err(r.error)
  {
    var refs: seq<nat> := [];
    ghost var texts := TextsOf(cls, spans, 0);
    TextsLength(cls, spans, 0);
    InternedSoFarNothing(InternAll(pool.entries, texts));
    assert texts[0..] == texts;
    for k := 0 to |spans|
      invariant pool.Valid()
      invariant InternAll(old(pool.entries), texts) == InternedSoFar(refs, InternAll(pool.entries, texts[k..]))
    {
      SpanIsText(cls, spans, 0, k);
      InternStep(refs, pool.entries, texts, k);
      var ref :- pool.Intern(cls[spans[k].start + 2..spans[k].end]);
      refs := refs + [ref];
    }
    InternedAll(refs, pool.entries);
    return Ok(refs);
  }

  lemma {:induction false} SpanIsText(cls: seq<byte>, spans: seq<Span>, at: nat, k: nat)
    requires InOrder(cls, spans, at) && k < |spans|
    ensures spans[k].start + 2 <= spans[k].end <= |cls| && spans[k].end - spans[k].start - 2 <= 65535
    ensures k < |TextsOf(cls, spans, at)| && TextsOf(cls, spans, at)[k] == cls[spans[k].start + 2..spans[k].end]
    decreases k
  {
    if k > 0 {
      SpanIsText(cls, spans[1..], spans[0].end, k - 1);
    }
  }

  /** The class with the spans left out. */
  method CutOut(cls: seq<byte>, spans: seq<Span>) returns (out: seq<byte>)
    requires InOrder(cls, spans, 0)
    ensures out == CutSpans(cls, spans, 0)
  {
    out := [];
    var at: nat := 0;
    assert spans[0..] == spans;
    for k := 0 to |spans|
      invariant InOrder(cls, spans[k..], at) && CutSpans(cls, spans, 0) == out + CutSpans(cls, spans[k..], at)
    {
      assert spans[k..][1..] == spans[k + 1..];
      ConcatAssoc(out, cls[at..spans[k].start], CutSpans(cls, spans[k + 1..], spans[k].end));
      out := out + cls[at..spans[k].start];
      at := spans[k].end;
    }
    assert spans[|spans|..] == [];
    out := out + cls[at..];
  }

  /** Refs given so far, then what interning the rest gives. */
  function InternedSoFar(refs: seq<nat>, rest: Result<(seq<Text>, seq<nat>)>): Result<(seq<Text>, seq<nat>)> {
    match rest
    case Err(e) => Err(e)
    case Ok(p) => Ok((p.0, refs + p.1))
  }

  lemma InternedSoFarNothing(rest: Result<(seq<Text>, seq<nat>)>)
    ensures InternedSoFar([], rest) == rest
  {
    if rest.Ok? {
      assert [] + rest.value.1 == rest.value.1;
    }
  }

  lemma InternedAll(refs: seq<nat>, entries: seq<Text>)
    ensures InternedSoFar(refs, InternAll(entries, [])) == Ok((entries, refs))
  {
    assert refs + [] == refs;
  }

  lemma InternStep(refs: seq<nat>, entries: seq<Text>, texts: seq<Text>, k: nat)
    requires k < |texts|
    ensures var all, e := InternedSoFar(refs, InternAll(entries, texts[k..])), Interned(entries, texts[k]);
      && (e.Err? ==> all == Err(e.error))
      && (e.Ok? ==>
            texts[k] in e.value && all == InternedSoFar(refs + [RefOf(e.value, texts[k])], InternAll(e.value, texts[k + 1..])))
  {
    assert texts[k..][1..] == texts[k + 1..];
    InternedHolds(entries, texts[k]);
    var e := Interned(entries, texts[k]);
    if e.Ok? && InternAll(e.value, texts[k + 1..]).Ok? {
      ConcatAssoc(refs, [RefOf(e.value, texts[k])], InternAll(e.value, texts[k + 1..]).value.1);
    }
  }

  // ---- unpooling ---------------------------------------------------------

  method CollectInserts(l: Link, visits: seq<Visit>) returns (r: Result<seq<Insert>>)
    requires Valid(l)
    ensures r == InsertsOf(l, visits)
  {
    var inserts := [];
    var k := 0;
    PrependNothing(InsertsOf(l, visits));
    assert visits[0..] == visits;
    while k < |visits|
      invariant 0 <= k <= |visits|
      invariant InsertsOf(l, visits) == Prepend(inserts, InsertsOf(l, visits[k..]))
    {
      assert visits[k..][1..] == visits[k + 1..];
      if visits[k].tag == TAG_UTF8 {
        var bytes :- OkOr(LinkedUtf8(l, visits[k].index), BadOffset(AsU16(HEADER_WORDS + visits[k].index)));
        PrependOne(inserts, Insert(visits[k].off, bytes), InsertsOf(l, visits[k + 1..]));
        inserts := inserts + [Insert(visits[k].off, bytes)];
      }
      k := k + 1;
    }
    PrependAll(inserts);
    return Ok(inserts);
  }

  /** Inserts lie in the class one after another, from `at` on. */
  predicate Placed(cls: seq<byte>, inserts: seq<Insert>, at: nat) {
    if inserts == [] then at <= |cls|
    else at <= inserts[0].off <= |cls| && Placed(cls, inserts[1..], inserts[0].off)
  }

  lemma {:induction false} PlacedEarlier(cls: seq<byte>, inserts: seq<Insert>, at: nat, earlier: nat)
    requires Placed(cls, inserts, at) && earlier <= at
    ensures Placed(cls, inserts, earlier)
  {
  }

  lemma InsertsStep(l: Link, count: nat, idx: nat, tag: byte, off: nat, rest: seq<Visit>)
    requires Valid(l)
    ensures var all := InsertsOf(l, EntryVisits(count, idx, tag, off) + rest);
      && (tag != TAG_UTF8 ==> all == InsertsOf(l, rest))
      && (tag == TAG_UTF8 && all.Ok? ==>
            InsertsOf(l, rest).Ok? && |all.value| > 0 && all.value[0].off == off && all.value[1..] == InsertsOf(l, rest).value)
  {
    var ev := EntryVisits(count, idx, tag, off);
    if |ev| == 2 {
      assert (ev + rest)[1..] == [ev[1]] + rest && ([ev[1]] + rest)[1..] == rest;
    } else {
      assert (ev + rest)[1..] == rest;
    }
  }

  /** What a walk collects is in order. */
  lemma {:induction false} InsertsPlaced(l: Link, cls: seq<byte>, count: nat, idx: nat, pos: nat)
    requires Valid(l) && pos <= |cls| && WalkFrom(cls, Pooled, count, idx, pos).outcome.Ok?
    ensures var r := InsertsOf(l, WalkFrom(cls, Pooled, count, idx, pos).visits); r.Ok? ==> Placed(cls, r.value, pos)
    decreases count - idx
  {
    if idx < count {
      var tag := cls[pos];
      var next := EntryEnd(cls, Pooled, idx, tag, pos + 1).value;
      var rest := WalkFrom(cls, Pooled, count, NextIndex(idx, tag), next);
      InsertsPlaced(l, cls, count, NextIndex(idx, tag), next);
      InsertsStep(l, count, idx, tag, pos + 1, rest.visits);
      if InsertsOf(l, rest.visits).Ok? {
        PlacedEarlier(cls, InsertsOf(l, rest.visits).value, next, if tag == TAG_UTF8 then pos + 1 else pos);
      }
    }
  }

  /** `unpooled_class` */
  method Unpool(l: Link, cls: seq<byte>) returns (r: Result<seq<byte>>)
    requires Valid(l)
    ensures r == Unpooled(l, cls)
  {
    var walked, visits := WalkPool(cls, Pooled);
    var inserts :- CollectInserts(l, visits);
    var counted :- walked;
    WalkPlaced(l, cls);
    var out: seq<byte>, at: nat := [], 0;
    assert inserts[0..] == inserts;
    for k := 0 to |inserts|
      invariant Placed(cls, inserts[k..], at)
      invariant Splice(cls, inserts, 0) == out + Splice(cls, inserts[k..], at)
    {
      assert inserts[k..][1..] == inserts[k + 1..];
      var ins := inserts[k];
      Regroup(out, cls[at..ins.off], Be16Bytes(AsU16(|ins.bytes|)), ins.bytes, Splice(cls, inserts[k + 1..], ins.off));
      out := out + cls[at..ins.off] + Be16Bytes(AsU16(|ins.bytes|)) + ins.bytes;
      at := ins.off;
    }
    assert inserts[|inserts|..] == [];
    return Ok(out + cls[at..]);
  }

  lemma WalkPlaced(l: Link, cls: seq<byte>)
    requires Valid(l) && WalkCp(cls, Pooled).outcome.Ok?
    ensures var r := InsertsOf(l, WalkCp(cls, Pooled).visits); r.Ok? ==> Placed(cls, r.value, 0)
  {
    var w := WalkCp(cls, Pooled);
    var entries := WalkFrom(cls, Pooled, w.outcome.value.0, 1, 10);
    InsertsPlaced(l, cls, w.outcome.value.0, 1, 10);
    assert w.visits[1..] == entries.visits;
    if InsertsOf(l, entries.visits).Ok? {
      PlacedEarlier(cls, InsertsOf(l, entries.visits).value, 10, 0);
    }
  }

  // ---- linking -----------------------------------------------------------

  /** The builder's visitor: tags and data offsets, a `Utf8`'s the next ref. */
  method RecordView(visits: seq<Visit>, refs: seq<u16>) returns (r: Result<seq<Option<nat>>>, tags: seq<byte>)
    ensures r == ViewOffsets(visits, refs)
    ensures r.Ok? ==> tags == VisitTags(visits)
  {
    var offsets: seq<Option<nat>> := [];
    tags := [];
    var k, i := 0, 0;
    PrependNothing(ViewOffsets(visits, refs));
    assert visits[0..] == visits && refs[0..] == refs;
    while i < |visits|
      invariant 0 <= i <= |visits| && 0 <= k <= |refs|
      invariant tags == VisitTags(visits[..i])
      invariant ViewOffsets(visits, refs) == Prepend(offsets, ViewOffsets(visits[i..], refs[k..]))
    {
      var word: nat;
      assert visits[i..][1..] == visits[i + 1..];
      if visits[i].tag == TAG_UTF8 {
        if k >= |refs| {
          return Err(Internal), tags;
        }
        assert refs[k..][1..] == refs[k + 1..];
        word := refs[k];
        k := k + 1;
      } else {
        word := AsU16(visits[i].off);
      }
      PrependOne(offsets, Some(word), ViewOffsets(visits[i + 1..], refs[k..]));
      tags := tags + [visits[i].tag];
      offsets := offsets + [Some(word)];
      i := i + 1;
    }
    assert visits[..i] == visits;
    PrependAll(offsets);
    return Ok(offsets), tags;
  }

  /** `link_pooled` */
  method LinkOne(env: Env, cls: seq<byte>, refs: seq<u16>, pool: seq<byte>) returns (r: Result<seq<u16>>)
    ensures r == LinkPooled(env, cls, refs, pool)
  {
    var walked, visits := WalkPool(cls, Pooled);
    var recorded, tags := RecordView(visits, refs);
    var offsets :- recorded;
    var counted :- walked;
    var cp := CpView(tags, offsets, pool);
    var counts :- SurveyClass(cls, cp, counted.0, counted.1);
    var layout :- NewLayout(counts);
    var sink := new Sink(false, EmptyTable(layout.totalWords));
    FeedWrites(sink.State(), DeriveTable(env, cls, cp, counts, layout).puts);
    var _ :- Derive(env, cls, cp, counts, layout, sink);
    return Ok(sink.words);
  }

  // ---- validating --------------------------------------------------------

  /** The validator's visitor, slot by slot. */
  method CheckSlots(l: Link, visits: seq<Visit>) returns (r: Result<()>)
    requires Valid(l)
    ensures r == CheckVisits(l, visits)
  {
    var k := 0;
    while k < |visits|
      invariant 0 <= k <= |visits|
      invariant CheckVisits(l, visits) == CheckVisits(l, visits[k..])
    {
      assert visits[k..][1..] == visits[k + 1..];
      var _ :- CheckVisit(l, visits[k]);
      k := k + 1;
    }
    return Ok(());
  }

  /** `Link::validate` */
  method ValidateTable(env: Env, l: Link, cls: seq<byte>) returns (r: Result<()>)
    requires Valid(l)
    ensures r == ValidateLink(env, l, cls)
  {
    if ClassLen(l) != |cls| {
      return Err(WordMismatch(2));
    }
    var walked, visits := WalkPool(cls, Pooled);
    var _ :- CheckSlots(l, visits);
    var counted :- walked;
    if counted.0 != CpCount(l) {
      return Err(WordMismatch(3));
    }
    var counts :- SurveyClass(cls, LinkView(l), counted.0, counted.1);
    var layout :- NewLayout(counts);
    if layout.totalWords != |l.words| {
      return Err(BadHeader);
    }
    var sink := new Sink(true, l.words);
    FeedChecks(sink.State(), DeriveTable(env, cls, LinkView(l), counts, layout).puts);
    var _ :- Derive(env, cls, LinkView(l), counts, layout, sink);
    if sink.puts != layout.totalWords {
      return Err(Internal);
    }
    return Ok(());
  }
}
