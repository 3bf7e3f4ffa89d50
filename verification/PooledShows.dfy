/** A class file whose strings have moved into a set's pool shows the builder
    the constants the file has, and links exactly when the file is linkable. */
module PooledShows {
  import opened AcceptedTable
  import opened BuildSpec
  import opened Bytes
  import opened ClassFile
  import opened ClassGrammar
  import opened ClassSpec
  import opened ConstantsExact
  import opened OwnNames
  import opened PooledSets
  import opened Pooling
  import opened SameTail
  import opened SectionBuild
  import opened TableExact
  import opened Utf8Pool
  import opened WalkExact
  import Linking
  import Sinks
  import SurveyExact

  // ---- reading a class file in place -------------------------------------

  function TextOr(cls: seq<byte>, off: nat): seq<byte> {
    match Utf8At(cls, off)
    case None => []
    case Some(bytes) => bytes
  }

  function InPlaceConstants(cls: seq<byte>, visits: seq<Visit>): (cs: seq<Constant>)
    ensures |cs| == |visits|
  {
    seq(|visits|, i requires 0 <= i < |visits| => ConstantOf(cls, visits[i].tag, visits[i].off, TextOr(cls, visits[i].off)))
  }

  lemma InPlaceSays(cls: seq<byte>, e: Entry)
    requires ClassGrammar.EntryLies(cls, true, e)
    ensures Says(cls, e, ConstantOf(cls, cls[e.at], e.at + 1, TextOr(cls, e.at + 1)))
  {
    hide Sum;
    if cls[e.at] != 1 {
      EntrySays(cls, true, e, TextOr(cls, e.at + 1));
    }
  }

  lemma NothingSays(cls: seq<byte>, text: seq<byte>)
    ensures ConstantOf(cls, 0, 0, text) == ConstOther
  {
  }

  /** Whatever the walk reads, the format reads. */
  lemma WalkReads(cls: seq<byte>, count: nat, end: nat) returns (entries: seq<Entry>, cs: seq<Constant>)
    requires WalkCp(cls, Inline).outcome == Ok((count, end)) && count > 0
    ensures |cls| <= 65535 && |cs| == count && PoolLies(cls, true, count, entries, end) && SaysAll(cls, entries, count, cs)
  {
    hide WalkCp, ClassGrammar.EntryLies, PoolLies, Says, ConstantOf;
    WalksExactly(cls, Inline, count, end);
    entries :| PoolLies(cls, true, count, entries, end);
    EntriesVisited(cls, Inline, count, entries, end);
    var visits := WalkCp(cls, Inline).visits;
    cs := InPlaceConstants(cls, visits);
    forall e | e in entries
      ensures e.at < |cls| && e.index < |cs| && Says(cls, e, cs[e.index])
    {
      InPlaceSays(cls, e);
    }
    forall i | 0 <= i < |cs| && (forall e | e in entries :: e.index != i)
      ensures cs[i] == ConstOther
    {
      NothingSays(cls, TextOr(cls, 0));
    }
  }

  // ---- the pooled class --------------------------------------------------

  /** What the builder sees of a pooled class. */
  function ViewOf(pc: PooledClass, all: seq<Text>): (r: Result<CpView>) {
    var visits := WalkCp(pc.bytes, Pooled).visits;
    var offsets :- Linking.ViewOffsets(visits, Refs16(pc.refs));
    Ok(CpView(Linking.VisitTags(visits), offsets, PoolBytes(all)))
  }

  lemma PoolingFacts(cls: seq<byte>, pc: PooledClass, all: seq<Text>)
    requires PooledInto(cls, pc, all)
    ensures WalkedAlike(cls, pc.bytes) && ViewOf(pc, all).Ok?
    ensures WalkCp(cls, Inline).outcome.Ok? && WalkCp(pc.bytes, Pooled).outcome.Ok?
    ensures WalkCp(cls, Inline).outcome.value.0 == WalkCp(pc.bytes, Pooled).outcome.value.0
  {
    hide WalkCp, Linking.ViewOffsets, WalkedAlike;
    var before :| WellFormed(before) && PoolClass(cls, before) == Ok(pc) && pc.entries <= all;
    PooledWalksAlike(cls, before);
    Linking.OffsetsAreFull(WalkCp(pc.bytes, Pooled).visits, Refs16(pc.refs));
  }

  /** The string of entry `i`, through its ref. */
  lemma TextViewed(cls: seq<byte>, pc: PooledClass, all: seq<Text>, cp: CpView, i: nat)
    requires PooledInto(cls, pc, all) && WellFormed(all) && ViewOf(pc, all) == Ok(cp)
    requires i < |WalkCp(cls, Inline).visits| && WalkCp(cls, Inline).visits[i].tag == 1
    ensures i < |cp.offsets| && cp.offsets[i].Some?
    ensures PoolUtf8(cp.pool, cp.offsets[i].value) == Utf8At(cls, WalkCp(cls, Inline).visits[i].off)
  {
    hide WalkCp, Linking.ViewOffsets, PoolUtf8, Utf8At;
    var a, b := WalkCp(cls, Inline).visits, WalkCp(pc.bytes, Pooled).visits;
    PoolingFacts(cls, pc, all);
    SameTags(cls, pc.bytes, a, b);
    var spans := RefsReadAll(cls, pc, all);
    RefOfEntry(cls, PoolBytes(all), a, b, spans, 0, Refs16(pc.refs), i);
  }

  lemma PlainViewed(cls: seq<byte>, pc: PooledClass, all: seq<Text>, cp: CpView, i: nat)
    requires PooledInto(cls, pc, all) && ViewOf(pc, all) == Ok(cp) && i < |WalkCp(cls, Inline).visits|
    ensures |cp.tags| == |cp.offsets| == |WalkCp(cls, Inline).visits| == |WalkCp(pc.bytes, Pooled).visits|
    ensures cp.offsets[i].Some? && cp.offsets[i].value < 0x1_0000
    ensures var a, b := WalkCp(cls, Inline).visits[i], WalkCp(pc.bytes, Pooled).visits[i];
      && cp.tags[i] == a.tag && MovedBy(cls, pc.bytes, a, b, Removed(cls, WalkCp(cls, Inline).visits, i))
      && (a.tag != 1 ==> cp.offsets[i] == Some(b.off))
  {
    hide WalkCp, Linking.ViewOffsets, MovedBy, EndAlike, Removed;
    PoolingFacts(cls, pc, all);
    var visits := WalkCp(pc.bytes, Pooled).visits;
    Linking.WalkVisits(pc.bytes, Pooled);
    Linking.OffsetsAreFull(visits, Refs16(pc.refs));
    TagMoved(cls, pc.bytes, i);
    if visits[i].tag != 1 {
      PlainOffset(visits, Refs16(pc.refs), i);
      SmallAsU16(visits[i].off);
    }
  }

  lemma TagMoved(cls: seq<byte>, pooled: seq<byte>, i: nat)
    requires WalkedAlike(cls, pooled) && i < |WalkCp(cls, Inline).visits|
    ensures |WalkCp(pooled, Pooled).visits| == |WalkCp(cls, Inline).visits|
    ensures WalkCp(pooled, Pooled).visits[i].tag == WalkCp(cls, Inline).visits[i].tag
    ensures MovedBy(cls, pooled, WalkCp(cls, Inline).visits[i], WalkCp(pooled, Pooled).visits[i],
                    Removed(cls, WalkCp(cls, Inline).visits, i))
  {
    hide WalkCp, EndAlike, Removed;
  }

  /** The items of an entry that is no `Utf8`, read where they have moved. */
  lemma ItemsMoved(cls: seq<byte>, pooled: seq<byte>, a: Visit, b: Visit, removed: nat, n: nat)
    requires MovedBy(cls, pooled, a, b, removed) && a.tag != 0 && n + 2 <= DataLen(a.tag)
    ensures Be16(pooled, b.off + n) == Be16(cls, a.off + n)
  {
    SliceOfSlice(pooled, b.off, b.off + DataLen(a.tag), n, n + 2);
    SliceOfSlice(cls, a.off, a.off + DataLen(a.tag), n, n + 2);
    Be16Local(pooled, b.off + n, cls, a.off + n);
  }

  lemma DataOf(tag: byte)
    ensures tag in [7, 8] ==> DataLen(tag) == 2
    ensures tag in [10, 11, 12] ==> DataLen(tag) == 4
  {
  }

  /** Entry `e` of the class file, as the builder sees it. */
  lemma EntryStillShown(cls: seq<byte>, pooled: seq<byte>, cp: CpView, e: Entry, c: Constant, b: Visit, removed: nat)
    requires ClassGrammar.EntryLies(cls, true, e) && Says(cls, e, c) && e.index < |cp.tags| == |cp.offsets|
    requires MovedBy(cls, pooled, Visit(e.index, cls[e.at], e.at + 1), b, removed) && cp.tags[e.index] == cls[e.at]
    requires cp.offsets[e.index].Some? && cp.offsets[e.index].value < 0x1_0000
    requires if cls[e.at] == 1 then PoolUtf8(cp.pool, cp.offsets[e.index].value) == Utf8At(cls, e.at + 1)
             else cp.offsets[e.index] == Some(b.off)
    ensures ShowsEntry(pooled, cp, e.index, c)
  {
    hide Sum, MovedBy, PoolUtf8, DataLen;
    var a := Visit(e.index, cls[e.at], e.at + 1);
    DataOf(cls[e.at]);
    if cls[e.at] in [7, 8, 10, 11, 12] {
      ItemsMoved(cls, pooled, a, b, removed, 0);
    }
    if cls[e.at] in [10, 11, 12] {
      ItemsMoved(cls, pooled, a, b, removed, 2);
    }
  }

  lemma PoolShown(cls: seq<byte>, pc: PooledClass, all: seq<Text>, cp: CpView, entries: seq<Entry>, end: nat, cs: seq<Constant>)
    requires PooledInto(cls, pc, all) && WellFormed(all) && ViewOf(pc, all) == Ok(cp) && |cls| <= 65535 && |cs| > 0
    requires PoolLies(cls, true, |cs|, entries, end) && SaysAll(cls, entries, |cs|, cs)
    ensures Shows(pc.bytes, cp, cs)
  {
    hide WalkCp, PoolLies, ClassGrammar.EntryLies, Says, ShowsEntry, MovedBy, Removed, PoolUtf8, Utf8At, ViewOf;
    EntriesVisited(cls, Inline, |cs|, entries, end);
    var visits := WalkCp(cls, Inline).visits;
    PlainViewed(cls, pc, all, cp, 0);
    forall i | 0 <= i < |cs|
      ensures ShowsEntry(pc.bytes, cp, i, cs[i])
    {
      PlainViewed(cls, pc, all, cp, i);
      var b := WalkCp(pc.bytes, Pooled).visits[i];
      if e :| e in entries && e.index == i {
        if visits[i].tag == 1 {
          TextViewed(cls, pc, all, cp, i);
        }
        EntryStillShown(cls, pc.bytes, cp, e, cs[i], b, Removed(cls, visits, i));
      } else {
        NothingShown(cls, pc.bytes, cp, i, visits[i], b, Removed(cls, visits, i));
      }
    }
  }

  lemma NothingShown(cls: seq<byte>, pooled: seq<byte>, cp: CpView, i: nat, a: Visit, b: Visit, removed: nat)
    requires a == Visit(i, 0, 0) && MovedBy(cls, pooled, a, b, removed) && i < |cp.tags| == |cp.offsets|
    requires cp.tags[i] == a.tag && cp.offsets[i] == Some(b.off)
    ensures ShowsEntry(pooled, cp, i, ConstOther)
  {
  }

  // ---- linking -----------------------------------------------------------

  ghost predicate Links(env: Env, pc: PooledClass, all: seq<Text>) {
    Linking.LinkPooled(env, pc.bytes, Refs16(pc.refs), PoolBytes(all)).Ok?
  }

  lemma PlanDerives(env: Env, pc: PooledClass, all: seq<Text>, cp: CpView, count: nat, pos: nat)
    requires ViewOf(pc, all) == Ok(cp) && WalkCp(pc.bytes, Pooled).outcome == Ok((count, pos))
    ensures Links(env, pc, all) <==> Derives(env, pc.bytes, cp, count, pos)
    ensures Links(env, pc, all) ==> count > 0
    ensures Links(env, pc, all) ==>
      Linking.PlanLink(pc.bytes, Refs16(pc.refs), PoolBytes(all))
      == Ok(Linking.Plan(cp, Survey(pc.bytes, cp, count, pos).value, NewLayout(Survey(pc.bytes, cp, count, pos).value).value))
  {
    hide WalkCp, Linking.ViewOffsets, Survey, NewLayout, DeriveTable, Sinks.WritePuts;
    var refs, pool := Refs16(pc.refs), PoolBytes(all);
    var plan := Linking.PlanLink(pc.bytes, refs, pool);
    if Links(env, pc, all) {
      Linking.BuiltHolds(env, pc.bytes, refs, pool);
      Linking.DerivedHasPool(env, pc.bytes, refs, pool);
      Linking.PlanCounts(pc.bytes, refs, pool);
    }
    if Derives(env, pc.bytes, cp, count, pos) {
      assert plan.Ok?;
      Linking.DerivedBuilds(env, pc.bytes, refs, pool);
    }
  }

  lemma TailsAlike(cls: seq<byte>, pooled: seq<byte>, end: nat, pos: nat)
    requires WalkedAlike(cls, pooled)
    requires WalkCp(cls, Inline).outcome.value.1 == end && WalkCp(pooled, Pooled).outcome.value.1 == pos
    ensures Alike(Tail(cls, end), Tail(pooled, pos))
  {
    hide WalkCp, MovedBy, Removed;
  }

  lemma ReadingWalks(env: Env, cls: seq<byte>, r: Reading)
    requires ReadsAs(env, cls, r)
    ensures WalkCp(cls, Inline).outcome == Ok((|r.cs|, r.end)) && |r.cs| > 0
  {
    hide WalkCp, PoolLies, SaysAll, BodyLies, ConstantLinks, FieldsLink, MethodLinks, AttrLinks, IsName, TableEnd;
    assert PoolLies(cls, InPlace(Inline), |r.cs|, r.entries, r.end);
    WalksExactly(cls, Inline, |r.cs|, r.end);
  }

  /** A pooled class whose file is read so derives as that reading. */
  lemma ReadingDerives(env: Env, cls: seq<byte>, pc: PooledClass, all: seq<Text>, r: Reading) returns (cp: CpView, pos: nat)
    requires PooledInto(cls, pc, all) && WellFormed(all) && ReadsAs(env, cls, r)
    ensures ViewOf(pc, all) == Ok(cp) && WalkCp(pc.bytes, Pooled).outcome == Ok((|r.cs|, pos))
    ensures Shows(pc.bytes, cp, r.cs) && Linkable(env, r.cs, Tail(pc.bytes, pos), r.body, r.codes)
    ensures Derives(env, pc.bytes, cp, |r.cs|, pos)
    ensures Survey(pc.bytes, cp, |r.cs|, pos) == Ok(SurveyExact.CountsOf(cp, |r.cs|, Tail(pc.bytes, pos), r.body))
  {
    hide WalkCp, PoolLies, SaysAll, Linkable, ViewOf, WalkedAlike, Shows, Derives, Survey;
    ReadingWalks(env, cls, r);
    PoolingFacts(cls, pc, all);
    cp, pos := ViewOf(pc, all).value, WalkCp(pc.bytes, Pooled).outcome.value.1;
    PoolShown(cls, pc, all, cp, r.entries, r.end, r.cs);
    TailsAlike(cls, pc.bytes, r.end, pos);
    LinkAlike(env, r.cs, Tail(cls, r.end), Tail(pc.bytes, pos), r.body, r.codes);
    LinkableDerives(env, cp, r.cs, Tail(pc.bytes, pos), r.body, r.codes);
  }

  lemma DerivedReads(env: Env, cls: seq<byte>, pc: PooledClass, all: seq<Text>) returns (r: Reading)
    requires PooledInto(cls, pc, all) && WellFormed(all) && Links(env, pc, all)
    ensures ReadsAs(env, cls, r)
  {
    hide WalkCp, PoolLies, SaysAll, Linkable, ViewOf, WalkedAlike, Shows, Derives, Survey, Links;
    PoolingFacts(cls, pc, all);
    var cp := ViewOf(pc, all).value;
    var (count, pos) := WalkCp(pc.bytes, Pooled).outcome.value;
    var end := WalkCp(cls, Inline).outcome.value.1;
    PlanDerives(env, pc, all, cp, count, pos);
    var entries, cs := WalkReads(cls, count, end);
    PoolShown(cls, pc, all, cp, entries, end, cs);
    var b, codes := DerivesLinkable(env, cp, cs, Tail(pc.bytes, pos));
    TailsAlike(cls, pc.bytes, end, pos);
    LinkAlike(env, cs, Tail(cls, end), Tail(pc.bytes, pos), b, codes);
    r := Reading(entries, end, cs, b, codes);
  }

  /** The builder links a class of a set exactly when the format reads it as
      linkable. */
  lemma LinksExactly(env: Env, cls: seq<byte>, pc: PooledClass, all: seq<Text>)
    requires PooledInto(cls, pc, all) && WellFormed(all)
    ensures Links(env, pc, all) <==> exists r :: ReadsAs(env, cls, r)
  {
    hide PooledInto, WellFormed, Links, ReadsAs, ViewOf, WalkCp, Shows, Linkable, Derives, Survey;
    if Links(env, pc, all) {
      var r := DerivedReads(env, cls, pc, all);
    }
    if r :| ReadsAs(env, cls, r) {
      var cp, pos := ReadingDerives(env, cls, pc, all, r);
      PlanDerives(env, pc, all, cp, |r.cs|, pos);
    }
  }
}
