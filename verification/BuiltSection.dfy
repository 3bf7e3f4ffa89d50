/** The end-to-end theorem: what `build_section` writes parses, passes the deep
    check, and gives every class back by position and by name. */
module BuiltSection {
  import opened Bytes
  import opened ClassFile
  import opened ExternalWords
  import opened LinkTable
  import opened Numbering
  import opened PooledSets
  import opened Section
  import opened SectionBuild
  import opened SectionLayout
  import opened Utf8Pool
  import Linking
  import SuperChains

  // ---- what the builder computes on the way ------------------------------

  datatype Build = Build(
    pooled: PooledSet, links: seq<seq<u16>>, names: seq<seq<byte>>, patched: seq<seq<u16>>, parts: Parts)

  ghost predicate BuiltFrom(env: Env, classes: seq<seq<byte>>, expected: Option<seq<seq<byte>>>, b: Build) {
    var pool := b.parts.pool;
    && |classes| <= MAX_CLASSES
    && PoolAll(classes, [[]]) == Ok(b.pooled) && pool == PoolBytes(b.pooled.entries)
    && LinkAll(env, b.pooled.classes, pool) == Ok(b.links)
    && NamesOf(b.links, pool, expected) == Ok(b.names)
    && ClassIndex(env, b.names) == Ok(b.parts.index)
    && PatchSupers(b.links, pool, b.names) == Ok(b.patched)
    && SuperChains.Closed(SupersIn(b.patched, pool)) && SuperChains.Verdict(SupersIn(b.patched, pool), 0).Ok?
    && b.parts.classes == BytesOf(b.pooled.classes) && |b.patched| == |b.parts.classes|
    && NumberAll(b.patched, pool, b.parts.classes, []) == Ok(NumberedSet(b.parts.rows, b.parts.tables))
  }

  lemma PreparedFrom(env: Env, classes: seq<seq<byte>>, expected: Option<seq<seq<byte>>>) returns (b: Build)
    requires Prepare(env, classes, expected).Ok?
    ensures BuiltFrom(env, classes, expected, b) && Prepare(env, classes, expected) == Ok(b.parts)
  {
    var parts := Prepare(env, classes, expected).value;
    var pooled := PoolAll(classes, [[]]).value;
    var pool := PoolBytes(pooled.entries);
    var links := LinkAll(env, pooled.classes, pool).value;
    LinkedUnplaced(env, pooled.classes, pool);
    var names, patched := AssembledFrom(env, BytesOf(pooled.classes), links, pool, expected);
    b := Build(pooled, links, names, patched, parts);
  }

  lemma AssembledFrom(env: Env, classes: seq<seq<byte>>, links: seq<seq<u16>>, pool: seq<byte>,
                      expected: Option<seq<seq<byte>>>) returns (names: seq<seq<byte>>, patched: seq<seq<u16>>)
    requires |classes| == |links| && Unplaced(links) && Assemble(env, classes, links, pool, expected).Ok?
    ensures var parts := Assemble(env, classes, links, pool, expected).value;
      && NamesOf(links, pool, expected) == Ok(names) && ClassIndex(env, names) == Ok(parts.index)
      && PatchSupers(links, pool, names) == Ok(patched) && |patched| == |links|
      && SuperChains.Closed(SupersIn(patched, pool)) && SuperChains.Verdict(SupersIn(patched, pool), 0).Ok?
      && NumberAll(patched, pool, classes, []) == Ok(NumberedSet(parts.rows, parts.tables))
      && parts.classes == classes && parts.pool == pool
  {
    names := NamesOf(links, pool, expected).value;
    CollectOk(NameEach(links, pool, expected));
    PatchedSupersClosed(links, pool, names);
    patched := PatchSupers(links, pool, names).value;
  }

  // ---- one class ---------------------------------------------------------

  /** What the build establishes of class `i`. */
  ghost predicate ClassBuilt(env: Env, classes: seq<seq<byte>>, b: Build, i: nat) {
    var pool := b.parts.pool;
    && i < |classes| && i < |b.pooled.classes| && i < |b.links| && i < |b.names| && i < |b.patched| && i < |b.parts.tables|
    && i < |b.parts.classes| && b.parts.classes[i] == b.pooled.classes[i].bytes
    && PooledInto(classes[i], b.pooled.classes[i], b.pooled.entries)
    && Linking.LinkPooled(env, b.pooled.classes[i].bytes, Refs16(b.pooled.classes[i].refs), pool) == Ok(b.links[i])
    && Valid(Link(b.links[i], pool)) && LinkedName(Link(b.links[i], pool)) == Some(b.names[i])
    && PatchSuper(b.links[i], pool, b.names) == Ok(b.patched[i])
    && NumberedTable(b.parts.tables[i], b.patched[i], pool, b.parts.classes[i], b.parts.rows)
  }

  lemma SetSizes(env: Env, classes: seq<seq<byte>>, expected: Option<seq<seq<byte>>>, b: Build)
    requires BuiltFrom(env, classes, expected, b)
    ensures WellFormed(b.pooled.entries) && GoodRows(b.parts.rows, b.parts.pool)
    ensures |b.pooled.classes| == |classes| && |b.links| == |classes| && |b.names| == |classes| && |b.patched| == |classes|
    ensures |b.parts.tables| == |classes| && |b.parts.classes| == |classes|
    ensures |b.parts.index| == |classes| <= MAX_CLASSES
  {
    FreshPool();
    PoolAllHolds(classes, [[]]);
    LinkedUnplaced(env, b.pooled.classes, b.parts.pool);
    CollectOk(NameEach(b.links, b.parts.pool, expected));
    NumberAllHolds(b.patched, b.parts.pool, b.parts.classes, []);
    SortSorts(UnsortedIndex(env, b.names));
  }

  lemma EachClassBuilt(env: Env, classes: seq<seq<byte>>, expected: Option<seq<seq<byte>>>, b: Build, i: nat)
    requires BuiltFrom(env, classes, expected, b) && i < |classes|
    ensures ClassBuilt(env, classes, b, i)
  {
    SetSizes(env, classes, expected, b);
    FreshPool();
    PoolAllHolds(classes, [[]]);
    LinkedUnplaced(env, b.pooled.classes, b.parts.pool);
    NameBuilt(env, expected, b, i);
    PatchBuilt(b, i);
    NumberAllHolds(b.patched, b.parts.pool, b.parts.classes, []);
  }

  lemma NameBuilt(env: Env, expected: Option<seq<seq<byte>>>, b: Build, i: nat)
    requires NamesOf(b.links, b.parts.pool, expected) == Ok(b.names) && i < |b.links|
    ensures i < |b.names| && Valid(Link(b.links[i], b.parts.pool))
    ensures LinkedName(Link(b.links[i], b.parts.pool)) == Some(b.names[i])
  {
    var checks := NameEach(b.links, b.parts.pool, expected);
    CollectOk(checks);
    assert checks[i] == Ok(b.names[i]);
  }

  lemma PatchBuilt(b: Build, i: nat)
    requires PatchSupers(b.links, b.parts.pool, b.names) == Ok(b.patched) && i < |b.links|
    ensures i < |b.patched| && PatchSuper(b.links[i], b.parts.pool, b.names) == Ok(b.patched[i])
  {
    var patches := PatchEach(b.links, b.parts.pool, b.names);
    CollectOk(patches);
    assert patches[i] == Ok(b.patched[i]);
  }

  /** The numbered table differs from the linked one in the section's words alone. */
  lemma TableSame(env: Env, classes: seq<seq<byte>>, b: Build, i: nat)
    requires ClassBuilt(env, classes, b, i)
    ensures Linking.SameButExternal(b.patched[i], b.links[i]) && Linking.SameButExternal(b.parts.tables[i], b.links[i])
  {
    var pool := b.parts.pool;
    if SuperPosition(Link(b.links[i], pool), b.names).Some? {
      PatchSame(b.links[i], 22, b.patched[i][22]);
    }
    SameTrans(b.parts.tables[i], b.patched[i], b.links[i], pool);
  }

  /** The builder's plan of class `i`. */
  ghost function PlanOf(b: Build, i: nat): Result<Linking.Plan>
    requires i < |b.pooled.classes|
  {
    Linking.PlanLink(b.pooled.classes[i].bytes, Refs16(b.pooled.classes[i].refs), b.parts.pool)
  }

  lemma LinkHolds(env: Env, classes: seq<seq<byte>>, b: Build, i: nat)
    requires ClassBuilt(env, classes, b, i)
    ensures PlanOf(b, i).Ok? && PlanOf(b, i).value.view.pool == b.parts.pool
    ensures Linking.Holds(env, b.parts.classes[i], PlanOf(b, i).value, b.links[i])
    ensures |b.parts.classes[i]| <= MAX_CLASS_BYTES && ClassLen(Link(b.links[i], b.parts.pool)) == |b.parts.classes[i]|
  {
    var pc := b.pooled.classes[i];
    Linking.BuiltHolds(env, pc.bytes, Refs16(pc.refs), b.parts.pool);
    Linking.PlanPrepared(pc.bytes, Refs16(pc.refs), b.parts.pool);
    Linking.PlanCounts(pc.bytes, Refs16(pc.refs), b.parts.pool);
    Linking.HeaderShows(env, pc.bytes, PlanOf(b, i).value, b.links[i]);
    SmallAsU16(|pc.bytes|);
  }

  // ---- its size ----------------------------------------------------------

  /** No class file passes 65535 bytes, and no table 65535 words. */
  ghost predicate SmallRecords(p: Parts) {
    && |p.tables| == |p.classes|
    && forall i | 0 <= i < |p.classes| :: |p.classes[i]| <= 65535 && HEADER_WORDS <= |p.tables[i]| <= 65535
  }

  lemma PadBound(n: nat, bound: nat)
    requires n <= bound && bound % 4 == 0
    ensures Align4(n) <= bound
  {
  }

  lemma {:induction false} ClassOffBound(p: Parts, i: nat)
    requires SmallRecords(p) && Tabled(p) && i <= |p.classes|
    ensures ClassOff(p, i) <= 16 + 8 * |p.classes| + 196608 * i
    decreases i
  {
    if i > 0 {
      ClassOffBound(p, i - 1);
      PadBound(|p.classes[i - 1]|, 65536);
      PadBound(2 * |p.tables[i - 1]|, 131072);
    }
  }

  lemma {:induction false} ClassOffGrows(p: Parts, i: nat, j: nat)
    requires Tabled(p) && i <= j <= |p.classes|
    ensures ClassOff(p, i) <= ClassOff(p, j)
    decreases j
  {
    if i < j {
      ClassOffGrows(p, i, j - 1);
    }
  }

  lemma OffsetsInside(p: Parts, i: nat)
    requires Tabled(p) && i < |p.classes|
    ensures ClassOff(p, i) <= LinkOff(p, i) <= PoolStart(p)
  {
    ClassOffGrows(p, i + 1, |p.classes|);
  }

  lemma PoolStartBound(p: Parts)
    requires SmallRecords(p) && Tabled(p) && |p.classes| == |p.index| <= MAX_CLASSES && |p.rows| <= MAX_LITERALS
    ensures PoolStart(p) < 0xF000_0000
  {
    ClassOffBound(p, |p.classes|);
  }

  lemma BuiltIsSmall(env: Env, classes: seq<seq<byte>>, expected: Option<seq<seq<byte>>>, b: Build)
    requires BuiltFrom(env, classes, expected, b)
    ensures SmallRecords(b.parts) && Tabled(b.parts)
  {
    SetSizes(env, classes, expected, b);
    forall i | 0 <= i < |b.parts.classes|
      ensures |b.parts.classes[i]| <= 65535 && HEADER_WORDS <= |b.parts.tables[i]| <= 65535
    {
      EachClassBuilt(env, classes, expected, b, i);
      TableSame(env, classes, b, i);
      LinkHolds(env, classes, b, i);
    }
  }

  /** Nothing a set can hold overflows the 32-bit offsets: `BadSection` is never
      what building ends in. */
  lemma BuiltIsSized(env: Env, classes: seq<seq<byte>>, expected: Option<seq<seq<byte>>>, b: Build)
    requires BuiltFrom(env, classes, expected, b)
    ensures Sized(b.parts)
  {
    SetSizes(env, classes, expected, b);
    BuiltIsSmall(env, classes, expected, b);
    PoolStartBound(b.parts);
    forall i | 0 <= i < |b.parts.classes|
      ensures LinkOff(b.parts, i) <= PoolStart(b.parts) && ClassOff(b.parts, i) <= PoolStart(b.parts)
    {
      OffsetsInside(b.parts, i);
    }
    PoolAligned(b.pooled.entries);
    PoolNotEmpty(b.pooled.entries);
  }

  lemma PoolNotEmpty(entries: seq<Text>)
    requires |entries| > 0
    ensures |PoolBytes(entries)| >= 4
  {
    EntryLen(entries[|entries| - 1]);
  }

  // ---- each class reads back ---------------------------------------------

  lemma PlacedSame(p: Parts, i: nat)
    requires Sized(p) && i < |p.classes|
    ensures var t := PlacedTable(p, i);
      && Linking.SameButExternal(t, p.tables[i]) && t[22] == p.tables[i][22]
      && t[23] + t[24] as int * 0x1_0000 == PoolStart(p) - LinkOff(p, i)
      && 4 * t[25] as int == |p.pool|
      && forall w | 26 <= w < |t| :: t[w] == p.tables[i][w]
  {
    SmallAsU16(|p.pool| / 4);
  }

  /** The final table of class `i` shows what the linked one does. */
  lemma FinalSame(env: Env, classes: seq<seq<byte>>, b: Build, i: nat)
    requires ClassBuilt(env, classes, b, i) && Sized(b.parts)
    ensures Linking.SameButExternal(PlacedTable(b.parts, i), b.links[i])
    ensures Valid(Link(PlacedTable(b.parts, i), b.parts.pool))
    ensures SameShown(Link(PlacedTable(b.parts, i), b.parts.pool), Link(b.links[i], b.parts.pool))
  {
    var pool := b.parts.pool;
    TableSame(env, classes, b, i);
    HeaderSame(b.parts.tables[i], b.links[i], pool);
    PlacedSame(b.parts, i);
    SameTrans(PlacedTable(b.parts, i), b.parts.tables[i], b.links[i], pool);
    HeaderSame(PlacedTable(b.parts, i), b.links[i], pool);
  }

  lemma ReadsLinked(env: Env, p: Parts, i: nat)
    requires Sized(p) && i < |p.classes|
    requires Valid(Link(PlacedTable(p, i), p.pool)) && ClassLen(Link(PlacedTable(p, i), p.pool)) == |p.classes[i]|
    ensures ReadLinked(SectionBytes(env, p), ClassOff(p, i), LinkOff(p, i), p.pool)
            == Ok(Linked(p.classes[i], Link(PlacedTable(p, i), p.pool)))
  {
    var d, t, at := SectionBytes(env, p), PlacedTable(p, i), LinkOff(p, i);
    ClassReads(env, p, i);
    WordsRead(d, at, t);
    WordReads(d, at, t, 1, at + 2);
    WordReads(d, at, t, 2, at + 4);
    ReadLinkedIs(d, ClassOff(p, i), at, p.pool, p.classes[i], t);
  }

  lemma ReadLinkedIs(d: seq<byte>, classOff: nat, linkOff: nat, pool: seq<byte>, cls: seq<byte>, t: seq<u16>)
    requires Valid(Link(t, pool)) && ClassLen(Link(t, pool)) == |cls| && Slice(d, classOff, |cls|) == Some(cls)
    requires Le16(d, linkOff + 2) == Some(t[1]) && Le16(d, linkOff + 4) == Some(t[2])
    requires linkOff + 2 * |t| <= |d| && LeWords(d, linkOff, |t|) == t
    ensures ReadLinked(d, classOff, linkOff, pool) == Ok(Linked(cls, Link(t, pool)))
  {
  }

  /** `class(i)` is the pooled class with its final table. */
  lemma ClassReadsBack(env: Env, classes: seq<seq<byte>>, b: Build, i: nat)
    requires ClassBuilt(env, classes, b, i) && Sized(b.parts)
    ensures Parsed(SectionOf(env, b.parts))
    ensures ClassChecked(SectionOf(env, b.parts), i)
            == Ok(Linked(b.parts.classes[i], Link(PlacedTable(b.parts, i), b.parts.pool)))
    ensures Valid(Link(PlacedTable(b.parts, i), b.parts.pool))
  {
    var p := b.parts;
    LinkHolds(env, classes, b, i);
    FinalSame(env, classes, b, i);
    ReadsLinked(env, p, i);
    PlacedSame(p, i);
    OffsetsInside(p, i);
    CheckedIs(env, p, i);
  }

  lemma CheckedIs(env: Env, p: Parts, i: nat)
    requires Sized(p) && i < |p.classes|
    requires Valid(Link(PlacedTable(p, i), p.pool))
    requires var t := PlacedTable(p, i);
      && t[23] + t[24] as int * 0x1_0000 == PoolStart(p) - LinkOff(p, i) >= 0 && 4 * t[25] as int == |p.pool|
    requires ReadLinked(SectionBytes(env, p), ClassOff(p, i), LinkOff(p, i), p.pool)
             == Ok(Linked(p.classes[i], Link(PlacedTable(p, i), p.pool)))
    ensures Parsed(SectionOf(env, p))
    ensures ClassChecked(SectionOf(env, p), i) == Ok(Linked(p.classes[i], Link(PlacedTable(p, i), p.pool)))
  {
    var s := SectionOf(env, p);
    PoolReads(env, p);
    DirectoryReads(env, p, i);
    ClassOffAligned(p, i);
    SumAligned(ClassOff(p, i), Align4(|p.classes[i]|));
    ClassCheckedIs(s, i, ClassOff(p, i), LinkOff(p, i), Linked(p.classes[i], Link(PlacedTable(p, i), p.pool)));
  }

  lemma ClassCheckedIs(s: ClassSection, i: nat, classOff: nat, linkOff: nat, linked: Linked)
    requires Parsed(s) && i < s.count && Valid(linked.link)
    requires Le32(s.data, 16 + 8 * i) == Some(classOff) && Le32(s.data, 16 + 8 * i + 4) == Some(linkOff)
    requires classOff % 4 == 0 && linkOff % 4 == 0
    requires ReadLinked(s.data, classOff, linkOff, PoolOf(s)) == Ok(linked) && NamesPool(s, linked.link, linkOff)
    ensures ClassChecked(s, i) == Ok(linked)
  {
  }
}
