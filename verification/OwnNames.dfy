/** The names a class file gives itself and its superclass, read from the file
    as it is (section 4.1 of the Java Virtual Machine Specification), and the
    theorem that its table in a section carries those names. */
module OwnNames {
  import opened Bytes
  import opened ClassFile
  import opened LinkTable
  import opened Linking
  import opened PooledSets
  import opened Pooling
  import opened SectionBuild
  import opened Utf8Pool

  /** The name `Class` entry `i` of a class file leads to. */
  function ConstantName(cls: seq<byte>, i: nat): Option<seq<byte>> {
    var visits := WalkCp(cls, Inline).visits;
    if i >= |visits| || visits[i].tag != TAG_CLASS then None
    else
      match Be16(cls, visits[i].off)
      case None => None
      case Some(ui) =>
        if ui < |visits| && visits[ui].tag == TAG_UTF8 then Utf8At(cls, visits[ui].off) else None
  }

  /** The name `this_class` leads to. */
  function OwnName(cls: seq<byte>): Option<seq<byte>> {
    match WalkCp(cls, Inline).outcome
    case Err(_) => None
    case Ok((_, end)) =>
      match Be16(cls, end + 2)
      case None => None
      case Some(i) => ConstantName(cls, i)
  }

  /** The name `super_class` leads to; none for zero. */
  function OwnSuper(cls: seq<byte>): Option<seq<byte>> {
    match WalkCp(cls, Inline).outcome
    case Err(_) => None
    case Ok((_, end)) =>
      match Be16(cls, end + 4)
      case None => None
      case Some(i) => if i == 0 then None else ConstantName(cls, i)
  }

  // ---- the string of an entry --------------------------------------------

  /** The ref recorded for a `Utf8` entry reads the string at that entry. */
  lemma {:induction false} RefOfEntry(
    cls: seq<byte>, pool: seq<byte>, a: seq<Visit>, b: seq<Visit>, spans: seq<Span>, at: nat, refs: seq<u16>, k: nat)
    requires SpansOf(cls, a) == Ok(spans) && InOrder(cls, spans, at)
    requires |a| == |b| && forall j | 0 <= j < |a| :: a[j].tag == b[j].tag
    requires |refs| == |TextsOf(cls, spans, at)|
    requires forall j | 0 <= j < |refs| :: PoolUtf8(pool, refs[j]) == Some(TextsOf(cls, spans, at)[j])
    requires ViewOffsets(b, refs).Ok? && k < |a| && a[k].tag == TAG_UTF8
    ensures var offsets := ViewOffsets(b, refs).value;
      && k < |offsets| && offsets[k].Some?
      && PoolUtf8(pool, offsets[k].value) == Utf8At(cls, a[k].off)
    decreases k
  {
    var texts := TextsOf(cls, spans, at);
    if a[0].tag != TAG_UTF8 {
      RefOfEntry(cls, pool, a[1..], b[1..], spans, at, refs, k - 1);
    } else {
      FirstSpanText(cls, a, spans, at);
      if k > 0 {
        assert texts[1..] == TextsOf(cls, spans[1..], spans[0].end);
        RefOfEntry(cls, pool, a[1..], b[1..], spans[1..], spans[0].end, refs[1..], k - 1);
      }
    }
  }

  lemma {:induction false} FirstSpanText(cls: seq<byte>, a: seq<Visit>, spans: seq<Span>, at: nat)
    requires SpansOf(cls, a) == Ok(spans) && InOrder(cls, spans, at) && a != [] && a[0].tag == TAG_UTF8
    ensures spans != [] && SpansOf(cls, a[1..]) == Ok(spans[1..])
    ensures Utf8At(cls, a[0].off) == Some(TextsOf(cls, spans, at)[0])
  {
  }

  /** The string of a `Utf8` entry, where the builder's view has it. */
  lemma EntryText(cls: seq<byte>, pc: PooledClass, all: seq<Text>, p: Plan, i: nat)
    requires PooledInto(cls, pc, all) && WellFormed(all)
    requires PlanLink(pc.bytes, Refs16(pc.refs), PoolBytes(all)) == Ok(p)
    requires i < |p.view.tags| && p.view.tags[i] == TAG_UTF8
    ensures i < |WalkCp(cls, Inline).visits| && WalkCp(cls, Inline).visits[i].tag == TAG_UTF8
    ensures Utf8(p.view, i) == Utf8At(cls, WalkCp(cls, Inline).visits[i].off)
    ensures Offset(p.view, i).Some? && Utf8(p.view, i) == PoolUtf8(PoolBytes(all), Offset(p.view, i).value)
  {
    var a, b := WalkCp(cls, Inline).visits, WalkCp(pc.bytes, Pooled).visits;
    WalksAlike(cls, pc, all);
    SameTags(cls, pc.bytes, a, b);
    var spans := RefsReadAll(cls, pc, all);
    RefOfEntry(cls, PoolBytes(all), a, b, spans, 0, Refs16(pc.refs), i);
    OffsetPlanned(pc, p, PoolBytes(all), i, b);
  }

  lemma OffsetPlanned(pc: PooledClass, p: Plan, pool: seq<byte>, i: nat, b: seq<Visit>)
    requires PlanLink(pc.bytes, Refs16(pc.refs), pool) == Ok(p) && b == WalkCp(pc.bytes, Pooled).visits
    requires i < |p.view.tags| && p.view.tags[i] == TAG_UTF8
    ensures i < |b| && b[i].tag == TAG_UTF8 && ViewOffsets(b, Refs16(pc.refs)) == Ok(p.view.offsets)
    ensures i < |p.view.offsets| && p.view.offsets[i].Some? ==> Utf8(p.view, i) == PoolUtf8(pool, p.view.offsets[i].value)
  {
  }

  lemma SameTags(cls: seq<byte>, pooled: seq<byte>, a: seq<Visit>, b: seq<Visit>)
    requires WalkedAlike(cls, pooled) && a == WalkCp(cls, Inline).visits && b == WalkCp(pooled, Pooled).visits
    ensures |a| == |b| && forall j | 0 <= j < |a| :: a[j].tag == b[j].tag
  {
    forall j | 0 <= j < |a|
      ensures a[j].tag == b[j].tag
    {
      SlotMoved(cls, pooled, j);
    }
  }

  /** The refs of a class read its strings, span by span. */
  lemma RefsReadAll(cls: seq<byte>, pc: PooledClass, all: seq<Text>) returns (spans: seq<Span>)
    requires PooledInto(cls, pc, all) && WellFormed(all)
    ensures SpansOf(cls, WalkCp(cls, Inline).visits) == Ok(spans) && InOrder(cls, spans, 0)
    ensures |Refs16(pc.refs)| == |TextsOf(cls, spans, 0)|
    ensures forall j | 0 <= j < |Refs16(pc.refs)| ::
      PoolUtf8(PoolBytes(all), Refs16(pc.refs)[j]) == Some(TextsOf(cls, spans, 0)[j])
  {
    RefsRead(cls, pc, all);
    RefsNameAll(cls, pc, all);
    SpansInOrder(cls);
    spans := SpansOf(cls, WalkCp(cls, Inline).visits).value;
  }

  /** Both walks of a class pooled into what grew into `all`. */
  lemma WalksAlike(cls: seq<byte>, pc: PooledClass, all: seq<Text>)
    requires PooledInto(cls, pc, all)
    ensures WalkedAlike(cls, pc.bytes)
  {
    var before :| WellFormed(before) && PoolClass(cls, before) == Ok(pc) && pc.entries <= all;
    PooledWalksAlike(cls, before);
  }

  // ---- the name of a Class entry -----------------------------------------

  /** What a `Class` entry names in the file is what the builder's view reads. */
  lemma EntryNames(env: Env, cls: seq<byte>, pc: PooledClass, all: seq<Text>, p: Plan, i: nat)
    requires PooledInto(cls, pc, all) && WellFormed(all)
    requires PlanLink(pc.bytes, Refs16(pc.refs), PoolBytes(all)) == Ok(p)
    requires ClassNameRef(env, pc.bytes, p.view, i).Ok?
    ensures var r := ClassNameRef(env, pc.bytes, p.view, i).value;
      PoolUtf8(PoolBytes(all), r.r).Some? && ConstantName(cls, i) == PoolUtf8(PoolBytes(all), r.r)
  {
    var ui := RefIs(env, pc.bytes, p.view, i);
    var visits := WalkCp(cls, Inline).visits;
    assert i < |visits| && visits[i].tag == TAG_CLASS && Be16(cls, visits[i].off) == Some(ui) by {
      WalksAlike(cls, pc, all);
      PlanHasPool(pc.bytes, Refs16(pc.refs), PoolBytes(all), p);
      ClassDataSame(cls, pc, p, i, ui);
    }
    EntryText(cls, pc, all, p, ui);
  }

  lemma RefIs(env: Env, cls: seq<byte>, cp: CpView, i: nat) returns (ui: u16)
    requires ClassNameRef(env, cls, cp, i).Ok?
    ensures ClassUtf8Index(cls, cp, i) == Some(ui) && ui < |cp.tags| && cp.tags[ui] == TAG_UTF8
    ensures Utf8(cp, ui).Some? && Offset(cp, ui) == Some(ClassNameRef(env, cls, cp, i).value.r)
  {
    ui := ClassUtf8Index(cls, cp, i).value;
  }

  lemma ClassDataSame(cls: seq<byte>, pc: PooledClass, p: Plan, i: nat, ui: u16)
    requires PlanLink(pc.bytes, Refs16(pc.refs), p.view.pool) == Ok(p)
    requires ClassUtf8Index(pc.bytes, p.view, i) == Some(ui) && WalkedAlike(cls, pc.bytes)
    ensures var a := WalkCp(cls, Inline).visits;
      i < |a| && a[i].tag == TAG_CLASS && Be16(cls, a[i].off) == Some(ui)
  {
    var b := PlannedOffset(pc, p, i);
    SlotMoved(cls, pc.bytes, i);
    var a := WalkCp(cls, Inline).visits;
    ClassEntryMoved(cls, pc.bytes, a[i], b, Removed(cls, a, i));
  }

  lemma ClassEntryMoved(cls: seq<byte>, pooled: seq<byte>, a: Visit, b: Visit, removed: nat)
    requires MovedBy(cls, pooled, a, b, removed) && a.tag == TAG_CLASS
    ensures Be16(cls, a.off) == Be16(pooled, b.off)
  {
    Be16Local(cls, a.off, pooled, b.off);
  }

  /** The offset recorded for an entry that is no `Utf8` is its visit's. */
  lemma PlannedOffset(pc: PooledClass, p: Plan, i: nat) returns (b: Visit)
    requires PlanLink(pc.bytes, Refs16(pc.refs), p.view.pool) == Ok(p)
    requires i < |p.view.tags| && p.view.tags[i] != TAG_UTF8
    ensures i < |WalkCp(pc.bytes, Pooled).visits| && b == WalkCp(pc.bytes, Pooled).visits[i]
    ensures b.tag == p.view.tags[i] && Offset(p.view, i) == Some(b.off)
  {
    var visits := WalkCp(pc.bytes, Pooled).visits;
    WalkVisits(pc.bytes, Pooled);
    b := visits[i];
    PlainOffset(visits, Refs16(pc.refs), i);
    SmallAsU16(b.off);
  }

  lemma SlotMoved(cls: seq<byte>, pooled: seq<byte>, i: nat)
    requires WalkedAlike(cls, pooled) && i < |WalkCp(cls, Inline).visits|
    ensures i < |WalkCp(pooled, Pooled).visits|
    ensures var a := WalkCp(cls, Inline).visits;
      MovedBy(cls, pooled, a[i], WalkCp(pooled, Pooled).visits[i], Removed(cls, a, i))
  {
  }

  lemma {:induction false} PlainOffset(b: seq<Visit>, refs: seq<u16>, k: nat)
    requires ViewOffsets(b, refs).Ok? && k < |b| && b[k].tag != TAG_UTF8
    ensures k < |ViewOffsets(b, refs).value| && ViewOffsets(b, refs).value[k] == Some(AsU16(b[k].off))
    decreases k
  {
    if k > 0 {
      PlainOffset(b[1..], if b[0].tag == TAG_UTF8 then refs[1..] else refs, k - 1);
    }
  }

  // ---- the theorem -------------------------------------------------------

  /** A table that holds what a pooled class derives to names the class and its
      superclass as the class file does. */
  lemma NamesCarried(env: Env, cls: seq<byte>, pc: PooledClass, all: seq<Text>, p: Plan, words: seq<u16>)
    requires PooledInto(cls, pc, all) && WellFormed(all)
    requires PlanLink(pc.bytes, Refs16(pc.refs), PoolBytes(all)) == Ok(p) && Holds(env, pc.bytes, p, words)
    ensures Valid(Link(words, PoolBytes(all)))
    ensures LinkedName(Link(words, PoolBytes(all))) == OwnName(cls) && OwnName(cls).Some?
    ensures LinkedSuperName(Link(words, PoolBytes(all))) == OwnSuper(cls)
  {
    PlanHasPool(pc.bytes, Refs16(pc.refs), PoolBytes(all), p);
    HeaderShows(env, pc.bytes, p, words);
    var head := HeldHead(env, pc.bytes, p, words);
    SmallAsU16(head.name.r);
    SmallAsU16(head.super.r);
    HeadNamed(env, cls, pc, all, p, head);
  }

  lemma HeadNamed(env: Env, cls: seq<byte>, pc: PooledClass, all: seq<Text>, p: Plan, head: Head)
    requires PooledInto(cls, pc, all) && WellFormed(all)
    requires PlanLink(pc.bytes, Refs16(pc.refs), PoolBytes(all)) == Ok(p)
    requires HeadAt(env, pc.bytes, p.view, p.n.posAfterCp) == Ok(head)
    ensures OwnName(cls).Some? && OwnName(cls) == PoolUtf8(PoolBytes(all), head.name.r)
    ensures OwnSuper(cls) == if head.super.r == 0 then None else PoolUtf8(PoolBytes(all), head.super.r)
  {
    var thisIdx, superIdx := HeadIndexes(env, cls, pc, all, p, head);
    EntryNames(env, cls, pc, all, p, thisIdx);
    if superIdx != 0 {
      EntryNames(env, cls, pc, all, p, superIdx);
      NamedIsNotFirst(env, pc.bytes, p.view, superIdx, all);
    }
  }

  /** Ref 0 is the empty string's, which names no class. */
  lemma NamedIsNotFirst(env: Env, cls: seq<byte>, cp: CpView, i: nat, all: seq<Text>)
    requires WellFormed(all) && cp.pool == PoolBytes(all) && ClassNameRef(env, cls, cp, i).Ok?
    ensures ClassNameRef(env, cls, cp, i).value.r != 0
  {
    EmptyIsFirst(all);
  }

  lemma EmptyIsFirst(all: seq<Text>)
    requires WellFormed(all)
    ensures PoolUtf8(PoolBytes(all), 0) == Some([])
  {
    assert all + [] == all && all[0] in all;
    InternedReadsBack(all, [], []);
    assert IndexIn(all, []) == 0 && all[..0] == [];
  }

  /** `this_class` and `super_class` read alike from both files. */
  lemma HeadIndexes(env: Env, cls: seq<byte>, pc: PooledClass, all: seq<Text>, p: Plan, head: Head)
    returns (thisIdx: nat, superIdx: nat)
    requires PooledInto(cls, pc, all)
    requires PlanLink(pc.bytes, Refs16(pc.refs), PoolBytes(all)) == Ok(p)
    requires HeadAt(env, pc.bytes, p.view, p.n.posAfterCp) == Ok(head)
    ensures p.view.pool == PoolBytes(all)
    ensures ClassNameRef(env, pc.bytes, p.view, thisIdx) == Ok(head.name)
    ensures SuperRef(env, pc.bytes, p.view, superIdx) == Ok(head.super)
    ensures OwnName(cls) == ConstantName(cls, thisIdx)
    ensures OwnSuper(cls) == if superIdx == 0 then None else ConstantName(cls, superIdx)
  {
    var at := p.n.posAfterCp;
    thisIdx, superIdx := ReadU16(pc.bytes, at + 2).value, ReadU16(pc.bytes, at + 4).value;
    PlanHasPool(pc.bytes, Refs16(pc.refs), PoolBytes(all), p);
    assert WalkCp(pc.bytes, Pooled).outcome == Ok((p.n.cpCount, at)) by {
      PlanCounts(pc.bytes, Refs16(pc.refs), PoolBytes(all));
    }
    WalksAlike(cls, pc, all);
    OwnIndexes(cls, pc.bytes, at, thisIdx, superIdx);
  }

  lemma OwnIndexes(cls: seq<byte>, pooled: seq<byte>, at: nat, thisIdx: nat, superIdx: nat)
    requires WalkedAlike(cls, pooled) && WalkCp(pooled, Pooled).outcome.value.1 == at
    requires Be16(pooled, at + 2) == Some(thisIdx) && Be16(pooled, at + 4) == Some(superIdx)
    ensures OwnName(cls) == ConstantName(cls, thisIdx)
    ensures OwnSuper(cls) == if superIdx == 0 then None else ConstantName(cls, superIdx)
  {
    var end := WalkCp(cls, Inline).outcome.value.1;
    TailWord(cls, end, pooled, at, 2);
    TailWord(cls, end, pooled, at, 4);
  }

  lemma TailWord(cls: seq<byte>, end: nat, pooled: seq<byte>, pooledEnd: nat, n: nat)
    requires end <= |cls| && pooledEnd <= |pooled| && pooled[pooledEnd..] == cls[end..]
    ensures Be16(cls, end + n) == Be16(pooled, pooledEnd + n)
  {
    assert |cls| - end == |pooled| - pooledEnd;
    if end + n + 2 <= |cls| {
      assert cls[end + n] == cls[end..][n] && cls[end + n + 1] == cls[end..][n + 1];
      assert pooled[pooledEnd + n] == pooled[pooledEnd..][n] && pooled[pooledEnd + n + 1] == pooled[pooledEnd..][n + 1];
    }
  }
}
