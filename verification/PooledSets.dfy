/** A whole set pooled into one pool: every class's refs read back its strings
    from the finished pool, and every class comes back byte for byte. */
module PooledSets {
  import opened Bytes
  import opened ClassFile
  import opened LinkTable
  import opened Pooling
  import opened SectionBuild
  import opened Utf8Pool
  import Linking

  /** `pc` is `cls` pooled into what later grew into `all`. */
  ghost predicate PooledInto(cls: seq<byte>, pc: PooledClass, all: seq<Text>) {
    exists before :: WellFormed(before) && PoolClass(cls, before) == Ok(pc) && pc.entries <= all
  }

  /** Pooling one class keeps the pool well formed and only grows it. */
  lemma PoolClassGrows(cls: seq<byte>, before: seq<Text>)
    requires WellFormed(before) && PoolClass(cls, before).Ok?
    ensures var pc := PoolClass(cls, before).value; WellFormed(pc.entries) && before <= pc.entries
  {
    SpansInOrder(cls);
    InternAllReadsBack(before, TextsOf(cls, SpansOf(cls, WalkCp(cls, Inline).visits).value, 0));
  }

  lemma {:induction false} PoolAllHolds(classes: seq<seq<byte>>, before: seq<Text>)
    requires WellFormed(before) && PoolAll(classes, before).Ok?
    ensures var set_ := PoolAll(classes, before).value;
      && WellFormed(set_.entries) && before <= set_.entries && |set_.classes| == |classes|
      && forall i | 0 <= i < |classes| :: PooledInto(classes[i], set_.classes[i], set_.entries)
    decreases |classes|
  {
    if classes != [] {
      var pc := PoolClass(classes[0], before).value;
      PoolClassGrows(classes[0], before);
      PoolAllHolds(classes[1..], pc.entries);
      var set_, rest := PoolAll(classes, before).value, PoolAll(classes[1..], pc.entries).value;
      assert PooledInto(classes[0], pc, rest.entries);
      PooledCons(classes, set_.classes, rest.classes, rest.entries);
    }
  }

  lemma PooledCons(classes: seq<seq<byte>>, pooled: seq<PooledClass>, rest: seq<PooledClass>, all: seq<Text>)
    requires classes != [] && |pooled| == |classes| && pooled[1..] == rest && PooledInto(classes[0], pooled[0], all)
    requires forall i | 0 <= i < |rest| :: PooledInto(classes[1..][i], rest[i], all)
    ensures forall i | 0 <= i < |classes| :: PooledInto(classes[i], pooled[i], all)
  {
    forall i | 0 <= i < |classes|
      ensures PooledInto(classes[i], pooled[i], all)
    {
      if i > 0 {
        assert classes[i] == classes[1..][i - 1] && pooled[i] == rest[i - 1];
      }
    }
  }

  /** The strings of the class, in constant-pool order. */
  function Texts(cls: seq<byte>): seq<Text>
    requires WalkCp(cls, Inline).outcome.Ok?
  {
    SpansInOrder(cls);
    TextsOf(cls, SpansOf(cls, WalkCp(cls, Inline).visits).value, 0)
  }

  /** Every ref a class was given reads its string from the finished pool. */
  lemma RefsRead(cls: seq<byte>, pc: PooledClass, all: seq<Text>)
    requires PooledInto(cls, pc, all) && WellFormed(all)
    ensures WalkCp(cls, Inline).outcome.Ok? && |pc.refs| == |Texts(cls)|
    ensures forall j | 0 <= j < |pc.refs| ::
      pc.refs[j] < 0x1_0000 && PoolUtf8(PoolBytes(all), pc.refs[j]) == Some(Texts(cls)[j])
  {
    var before :| WellFormed(before) && PoolClass(cls, before) == Ok(pc) && pc.entries <= all;
    InternAllReadsBack(before, Texts(cls));
    forall j | 0 <= j < |pc.refs|
      ensures pc.refs[j] < 0x1_0000 && PoolUtf8(PoolBytes(all), pc.refs[j]) == Some(Texts(cls)[j])
    {
      GrownReadsBack(pc.entries, all, Texts(cls)[j]);
    }
  }

  lemma RefsNameAll(cls: seq<byte>, pc: PooledClass, all: seq<Text>)
    requires PooledInto(cls, pc, all) && WellFormed(all)
    ensures Linking.RefsNameEntries(PoolBytes(all), Refs16(pc.refs))
    ensures forall j | 0 <= j < |pc.refs| :: Refs16(pc.refs)[j] == pc.refs[j]
  {
    RefsRead(cls, pc, all);
    forall j | 0 <= j < |pc.refs|
      ensures Refs16(pc.refs)[j] == pc.refs[j]
    {
      SmallAsU16(pc.refs[j]);
    }
  }

  /** The texts of a class, put back into its pooled bytes, give the class. */
  lemma PooledSplices(cls: seq<byte>, pc: PooledClass, all: seq<Text>)
    requires PooledInto(cls, pc, all)
    ensures WalkCp(cls, Inline).outcome.Ok? && WalkCp(pc.bytes, Pooled).outcome.Ok?
    ensures Splice(pc.bytes, InsertList(WalkCp(pc.bytes, Pooled).visits, Texts(cls)), 0) == cls
  {
    var before :| WellFormed(before) && PoolClass(cls, before) == Ok(pc) && pc.entries <= all;
    PooledWalksAlike(cls, before);
    SpliceRestores(cls, before);
  }

  /** A table that shows a class's constant pool, with its strings in `all`,
      gives the class back. */
  lemma TableRestores(env: Env, cls: seq<byte>, pc: PooledClass, all: seq<Text>, p: Linking.Plan, words: seq<u16>)
    requires PooledInto(cls, pc, all) && WellFormed(all)
    requires Linking.PlanLink(pc.bytes, Refs16(pc.refs), PoolBytes(all)) == Ok(p) && Linking.Holds(env, pc.bytes, p, words)
    ensures Valid(Link(words, PoolBytes(all)))
    ensures Unpooled(Link(words, PoolBytes(all)), pc.bytes) == Ok(cls)
  {
    var l := Link(words, PoolBytes(all));
    PlanHasPool(pc.bytes, Refs16(pc.refs), PoolBytes(all), p);
    Linking.HeaderShows(env, pc.bytes, p, words);
    InsertsRead(env, cls, pc, all, Refs16(pc.refs), p, words, l);
    PooledSplices(cls, pc, all);
  }

  lemma PlanHasPool(cls: seq<byte>, refs: seq<u16>, pool: seq<byte>, p: Linking.Plan)
    requires Linking.PlanLink(cls, refs, pool) == Ok(p)
    ensures p.view.pool == pool
  {
  }

  lemma InsertsRead(env: Env, cls: seq<byte>, pc: PooledClass, all: seq<Text>, refs: seq<u16>, p: Linking.Plan, words: seq<u16>, l: Link)
    requires PooledInto(cls, pc, all) && WellFormed(all)
    requires refs == Refs16(pc.refs) && l == Link(words, PoolBytes(all)) && l.pool == p.view.pool
    requires Linking.PlanLink(pc.bytes, refs, p.view.pool) == Ok(p) && Linking.Holds(env, pc.bytes, p, words) && Valid(l)
    ensures WalkCp(cls, Inline).outcome.Ok?
    ensures InsertsOf(l, WalkCp(pc.bytes, Pooled).visits) == Ok(InsertList(WalkCp(pc.bytes, Pooled).visits, Texts(cls)))
  {
    RefsRead(cls, pc, all);
    RefsNameAll(cls, pc, all);
    VisitsShow(env, pc.bytes, refs, p, words);
    InsertsMatch(l, WalkCp(pc.bytes, Pooled).visits, refs, Texts(cls));
  }

  lemma VisitsShow(env: Env, cls: seq<byte>, refs: seq<u16>, p: Linking.Plan, words: seq<u16>)
    requires Linking.PlanLink(cls, refs, p.view.pool) == Ok(p) && Linking.Holds(env, cls, p, words)
    ensures Valid(Link(words, p.view.pool))
    ensures var l, visits := Link(words, p.view.pool), WalkCp(cls, Pooled).visits;
      && Linking.ViewOffsets(visits, refs).Ok? && |Linking.ViewOffsets(visits, refs).value| == |visits|
      && forall k | 0 <= k < |visits| && visits[k].tag == TAG_UTF8 ::
           && CpTag(l, visits[k].index) == Some(TAG_UTF8)
           && Some(CpWordAt(l, visits[k].index).value) == Linking.ViewOffsets(visits, refs).value[k]
  {
    var visits := WalkCp(cls, Pooled).visits;
    Linking.HeaderShows(env, cls, p, words);
    Linking.WalkVisits(cls, Pooled);
    Linking.OffsetsAreFull(visits, refs);
    Linking.DerivedHasPool(env, cls, refs, p.view.pool);
    forall k | 0 <= k < |visits| && visits[k].tag == TAG_UTF8
      ensures CpTag(Link(words, p.view.pool), visits[k].index) == Some(TAG_UTF8)
      ensures Some(CpWordAt(Link(words, p.view.pool), visits[k].index).value) == Linking.ViewOffsets(visits, refs).value[k]
    {
      Linking.TagShown(env, cls, p, words, k);
      Linking.OffsetShown(env, cls, p, words, k);
    }
  }
}
