/** Every part of the deep check passes on a built section. */
module BuiltIsAccepted {
  import opened AcceptedSection
  import opened BuiltSection
  import opened Bytes
  import opened ClassFile
  import opened ExternalWords
  import opened LinkTable
  import opened Numbering
  import opened OwnNames
  import opened PooledSets
  import opened Pooling
  import opened Regions
  import opened Section
  import opened SectionBuild
  import opened SectionLayout
  import opened Utf8Pool
  import Linking
  import SuperChains

  /** A finished build of `classes`. */
  ghost predicate Done(env: Env, classes: seq<seq<byte>>, expected: Option<seq<seq<byte>>>, b: Build) {
    && BuiltFrom(env, classes, expected, b) && Sized(b.parts)
    && |b.names| == |classes| == |b.parts.classes| && Parsed(SectionOf(env, b.parts))
  }

  lemma BuiltIsDone(env: Env, classes: seq<seq<byte>>, expected: Option<seq<seq<byte>>>, b: Build)
    requires BuiltFrom(env, classes, expected, b)
    ensures Done(env, classes, expected, b)
  {
    SetSizes(env, classes, expected, b);
    BuiltIsSized(env, classes, expected, b);
    LaidOutParsed(env, b.parts);
  }

  // ---- the pool and the literals -----------------------------------------

  lemma PoolPasses(env: Env, classes: seq<seq<byte>>, expected: Option<seq<seq<byte>>>, b: Build)
    requires Done(env, classes, expected, b)
    ensures CheckPool(PoolOf(SectionOf(env, b.parts))).Ok?
  {
    PoolReads(env, b.parts);
    SetSizes(env, classes, expected, b);
    PoolCheckExact(b.parts.pool);
  }

  lemma LitBytesRead(env: Env, p: Parts, k: nat)
    requires Sized(p) && k < |p.rows| && PoolUtf8(p.pool, p.rows[k].r) == Some(p.rows[k].bytes)
    ensures Parsed(SectionOf(env, p)) && LitBytes(SectionOf(env, p), k) == Some(p.rows[k].bytes)
  {
    RowReads(env, p, k);
    RegionsLie(env, p);
    var row := p.rows[k];
    Utf8Lies(SectionBytes(env, p), PoolStart(p), p.pool, row.r, row.bytes);
    LitBytesAre(SectionOf(env, p), k, LiteralOf(env, p, k), row.bytes);
  }

  /** The bytes a ref names, in the section that holds the pool. */
  lemma Utf8Lies(d: seq<byte>, at: nat, pool: seq<byte>, r: u16, bytes: seq<byte>)
    requires LiesAt(d, at, pool) && PoolUtf8(pool, r) == Some(bytes)
    ensures LiesAt(d, at + 4 * r as int + 2, bytes) && AsU16(|bytes|) == |bytes|
  {
    var off := 4 * r as int + 2;
    SmallAsU16(|bytes|);
    assert LiesAt(pool, off, bytes);
    PartOfRegion(d, at, pool, off, bytes, at + off);
  }

  lemma LitBytesAre(s: ClassSection, k: nat, lit: Literal, bytes: seq<byte>)
    requires Parsed(s) && LitRow(s, k) == Some(lit) && lit.len == |bytes| && LiesAt(s.data, lit.off, bytes)
    ensures LitBytes(s, k) == Some(bytes)
  {
  }

  lemma LiteralsPass(env: Env, classes: seq<seq<byte>>, expected: Option<seq<seq<byte>>>, b: Build)
    requires Done(env, classes, expected, b)
    ensures CheckLiterals(env, SectionOf(env, b.parts)).Ok?
  {
    SetSizes(env, classes, expected, b);
    forall k | 0 <= k < |b.parts.rows|
      ensures CheckLiteral(env, SectionOf(env, b.parts), k).Ok?
    {
      LitBytesRead(env, b.parts, k);
      RowReads(env, b.parts, k);
    }
    AllLiteralsPass(env, SectionOf(env, b.parts));
  }

  lemma AllLiteralsPass(env: Env, s: ClassSection)
    requires Parsed(s) && forall k | 0 <= k < s.litCount :: CheckLiteral(env, s, k).Ok?
    ensures CheckLiterals(env, s).Ok?
  {
    FirstErrOk(LiteralVerdicts(env, s));
  }

  // ---- the index ---------------------------------------------------------

  lemma IndexEntries(env: Env, names: seq<seq<byte>>, index: seq<IndexEntry>)
    requires ClassIndex(env, names) == Ok(index)
    ensures |names| <= MAX_CLASSES && |index| == |names| && SortedIndex(index)
    ensures forall e | e in index :: e.idx < |names| && e == IndexEntry(env.nameHash(names[e.idx]), e.idx, 0)
    ensures FirstErr(PairVerdicts(names, index)).Ok?
  {
    SortSorts(UnsortedIndex(env, names));
    SortedNamesInRange(env, names);
  }

  lemma NeighboursAscend(names: seq<seq<byte>>, index: seq<IndexEntry>, k: nat)
    requires forall e | e in index :: e.idx < |names|
    requires SortedIndex(index) && FirstErr(PairVerdicts(names, index)).Ok? && 0 < k < |index|
    ensures index[k - 1].hash < index[k].hash
  {
    FirstErrOk(PairVerdicts(names, index));
    assert PairVerdicts(names, index)[k - 1].Ok?;
    assert Before(index[k - 1], index[k]);
  }

  /** The built index: ascending, one entry a class. */
  lemma IndexAscends(env: Env, names: seq<seq<byte>>, index: seq<IndexEntry>)
    requires ClassIndex(env, names) == Ok(index)
    ensures |names| <= MAX_CLASSES && |index| == |names| && Ascending(index)
    ensures forall e | e in index :: e.idx < |names| && e == IndexEntry(env.nameHash(names[e.idx]), e.idx, 0)
  {
    IndexEntries(env, names, index);
    var hashes := seq(|index|, k requires 0 <= k < |index| => index[k].hash);
    forall k | 0 < k < |index|
      ensures hashes[k - 1] < hashes[k]
    {
      NeighboursAscend(names, index, k);
    }
    forall j, k | 0 <= j < k < |index|
      ensures index[j].hash < index[k].hash
    {
      StepsAscend(hashes, j, k);
    }
  }

  lemma IndexHas(env: Env, names: seq<seq<byte>>, index: seq<IndexEntry>, i: nat) returns (k: nat)
    requires ClassIndex(env, names) == Ok(index) && i < |names|
    ensures k < |index| && index[k] == IndexEntry(env.nameHash(names[i]), AsU16(i), 0)
  {
    var u := UnsortedIndex(env, names);
    SortedIsThere(u, u[i]);
    k :| 0 <= k < |index| && index[k] == u[i];
  }

  lemma IndexOfIs(env: Env, p: Parts)
    requires Sized(p)
    ensures Parsed(SectionOf(env, p)) && IndexOf(SectionOf(env, p)) == p.index
  {
    LaidOutParsed(env, p);
    forall k | 0 <= k < |p.index|
      ensures IndexAt(SectionOf(env, p), k) == p.index[k]
    {
      IndexReads(env, p, k);
    }
  }

  // ---- names -------------------------------------------------------------

  lemma NamesRead(env: Env, classes: seq<seq<byte>>, expected: Option<seq<seq<byte>>>, b: Build, i: nat)
    requires Done(env, classes, expected, b) && i < |classes|
    ensures ClassName(SectionOf(env, b.parts), i) == Some(b.names[i])
    ensures ClassChecked(SectionOf(env, b.parts), i).Ok?
    ensures var link := ClassChecked(SectionOf(env, b.parts), i).value.link;
      Valid(link) && NameHash(link) == env.nameHash(b.names[i])
  {
    EachClassBuilt(env, classes, expected, b, i);
    ClassReadsBack(env, classes, b, i);
    FinalSame(env, classes, b, i);
    LinkHolds(env, classes, b, i);
    Linking.HeldNames(env, b.parts.classes[i], PlanOf(b, i).value, b.links[i]);
  }

  /** Searching the section for a name finds the first class the builder saw
      under it. */
  lemma SearchFinds(env: Env, classes: seq<seq<byte>>, expected: Option<seq<seq<byte>>>, b: Build, name: seq<byte>)
    requires Done(env, classes, expected, b)
    ensures FirstNamed(SectionOf(env, b.parts), Find(b.parts.index, env.nameHash(name)), name) == Position(b.names, name)
  {
    var s := SectionOf(env, b.parts);
    IndexAscends(env, b.names, b.parts.index);
    match Position(b.names, name) {
      case Some(j) =>
        var k := IndexHas(env, b.names, b.parts.index, j);
        SmallAsU16(j);
        FindsEntry(b.parts.index, k);
        NamesRead(env, classes, expected, b, j);
        OneEntry(s, b.parts.index[k], name);
      case None =>
        FirstNamedIsClass(s, Find(b.parts.index, env.nameHash(name)), name);
        var found := FirstNamed(s, Find(b.parts.index, env.nameHash(name)), name);
        if found.Some? {
          NamesRead(env, classes, expected, b, found.value);
        }
    }
  }

  lemma OneEntry(s: ClassSection, e: IndexEntry, name: seq<byte>)
    requires Parsed(s) && ClassName(s, e.idx) == Some(name)
    ensures FirstNamed(s, [e], name) == Some(e.idx)
  {
  }

  // ---- each class --------------------------------------------------------

  lemma SuperPlaced(env: Env, classes: seq<seq<byte>>, expected: Option<seq<seq<byte>>>, b: Build, i: nat)
    requires Done(env, classes, expected, b) && i < |classes|
    ensures ClassBuilt(env, classes, b, i)
    ensures var link := Link(PlacedTable(b.parts, i), b.parts.pool);
      && Valid(link) && SuperIdx(link) == SuperPosition(Link(b.links[i], b.parts.pool), b.names)
      && SuperIdx(link) == SuperOf(b.patched[i], b.parts.pool)
  {
    EachClassBuilt(env, classes, expected, b, i);
    LinkedUnplaced(env, b.pooled.classes, b.parts.pool);
    FinalSame(env, classes, b, i);
    PlacedSame(b.parts, i);
    SuperKept(b.links[i], b.patched[i], PlacedTable(b.parts, i), b.parts.pool, b.names);
  }

  /** A table with the patched superclass word shows the patched superclass. */
  lemma SuperKept(words: seq<u16>, patched: seq<u16>, final: seq<u16>, pool: seq<byte>, names: seq<seq<byte>>)
    requires |words| > 22 && words[22] == SUPER_NONE && |names| <= MAX_CLASSES && PatchSuper(words, pool, names) == Ok(patched)
    requires Valid(Link(final, pool)) && |patched| > 22 && final[22] == patched[22]
    ensures Valid(Link(words, pool)) && SuperIdx(Link(final, pool)) == SuperPosition(Link(words, pool), names)
    ensures SuperIdx(Link(final, pool)) == SuperOf(patched, pool)
  {
    PatchedSuper(words, pool, names);
  }

  lemma SuperPasses(env: Env, classes: seq<seq<byte>>, expected: Option<seq<seq<byte>>>, b: Build, i: nat)
    requires Done(env, classes, expected, b) && i < |classes|
    ensures var link := Link(PlacedTable(b.parts, i), b.parts.pool);
      Valid(link) && SuperIdx(link) == ExpectedSuper(SectionOf(env, b.parts), link)
  {
    SuperPlaced(env, classes, expected, b, i);
    FinalSame(env, classes, b, i);
    LinkHolds(env, classes, b, i);
    Linking.HeldNames(env, b.parts.classes[i], PlanOf(b, i).value, b.links[i]);
    IndexOfIs(env, b.parts);
    var link := Link(b.links[i], b.parts.pool);
    if LinkedSuperName(link).Some? {
      SearchFinds(env, classes, expected, b, LinkedSuperName(link).value);
    }
  }

  /** The constant a descriptor stands for is the `Utf8` a reader finds. */
  lemma ConstantIsString(l: Link, cls: seq<byte>, k: nat)
    requires Valid(l) && k < StrsLen(l) && ConstantAt(l, cls, k).Ok?
    requires StringBytes(l, cls, StringDescAt(l, k).cpOff).Some?
    ensures StringBytes(l, cls, StringDescAt(l, k).cpOff) == Some(ConstantAt(l, cls, k).value.bytes)
  {
  }

  /** A String constant reads alike from two tables of one class. */
  lemma StringSame(words: seq<u16>, table: seq<u16>, pool: seq<byte>, cls: seq<byte>, k: nat)
    requires Valid(Link(table, pool)) && Linking.SameButExternal(words, table) && k < StrsLen(Link(table, pool))
    ensures Valid(Link(words, pool)) && k < StrsLen(Link(words, pool))
    ensures StringBytes(Link(words, pool), cls, StringDescAt(Link(words, pool), k).cpOff)
            == StringBytes(Link(table, pool), cls, StringDescAt(Link(table, pool), k).cpOff)
  {
    StringOffSame(words, table, pool, k);
    var ui := Be16(cls, StringDescAt(Link(table, pool), k).cpOff);
    if ui.Some? {
      EntrySame(words, table, pool, ui.value);
    }
  }

  lemma StringKept(env: Env, classes: seq<seq<byte>>, b: Build, i: nat, k: nat)
    requires ClassBuilt(env, classes, b, i) && k < StrsLen(Link(b.links[i], b.parts.pool))
    ensures StringBytes(Link(b.links[i], b.parts.pool), b.parts.classes[i], StringDescAt(Link(b.links[i], b.parts.pool), k).cpOff).Some?
  {
    var pc := b.pooled.classes[i];
    LinkHolds(env, classes, b, i);
    var plan := PlanOf(b, i).value;
    Linking.DerivedHasPool(env, pc.bytes, Refs16(pc.refs), b.parts.pool);
    Linking.HeaderShows(env, pc.bytes, plan, b.links[i]);
    Linking.HeaderLinks(plan, b.links[i], b.parts.pool);
    Linking.HeldString(env, pc.bytes, plan, b.links[i], k);
  }

  lemma PlacedLit(p: Parts, i: nat, k: nat)
    requires Sized(p) && i < |p.classes| && Valid(Link(p.tables[i], p.pool)) && k < StrsLen(Link(p.tables[i], p.pool))
    ensures Valid(Link(PlacedTable(p, i), p.pool)) && k < StrsLen(Link(PlacedTable(p, i), p.pool))
    ensures StringDescAt(Link(PlacedTable(p, i), p.pool), k).lit == StringDescAt(Link(p.tables[i], p.pool), k).lit
  {
    PlacedSame(p, i);
    HeaderSame(PlacedTable(p, i), p.tables[i], p.pool);
  }

  /** String descriptor `k` of the final table: its bytes are there, and its row holds them. */
  lemma StringNumbered(env: Env, classes: seq<seq<byte>>, b: Build, i: nat, k: nat)
    requires ClassBuilt(env, classes, b, i) && Sized(b.parts)
    requires Valid(Link(PlacedTable(b.parts, i), b.parts.pool)) && k < StrsLen(Link(PlacedTable(b.parts, i), b.parts.pool))
    ensures var l := Link(PlacedTable(b.parts, i), b.parts.pool);
      var d := StringDescAt(l, k);
      && d.lit < |b.parts.rows|
      && StringBytes(l, b.parts.classes[i], d.cpOff) == Some(b.parts.rows[d.lit].bytes)
  {
    var pool, cls := b.parts.pool, b.parts.classes[i];
    TableSame(env, classes, b, i);
    FinalSame(env, classes, b, i);
    HeaderSame(b.patched[i], b.links[i], pool);
    HeaderSame(b.parts.tables[i], b.links[i], pool);
    StringKept(env, classes, b, i, k);
    StringSame(PlacedTable(b.parts, i), b.links[i], pool, cls, k);
    StringSame(b.patched[i], b.links[i], pool, cls, k);
    ConstantIsString(Link(b.patched[i], pool), cls, k);
    PlacedLit(b.parts, i, k);
  }

  lemma StringsPass(env: Env, classes: seq<seq<byte>>, expected: Option<seq<seq<byte>>>, b: Build, i: nat)
    requires Done(env, classes, expected, b) && i < |classes|
    ensures var linked := Linked(b.parts.classes[i], Link(PlacedTable(b.parts, i), b.parts.pool));
      Valid(linked.link) && CheckStrings(SectionOf(env, b.parts), linked).Ok?
  {
    var s, linked := SectionOf(env, b.parts), Linked(b.parts.classes[i], Link(PlacedTable(b.parts, i), b.parts.pool));
    EachClassBuilt(env, classes, expected, b, i);
    FinalSame(env, classes, b, i);
    SetSizes(env, classes, expected, b);
    forall k | 0 <= k < StrsLen(linked.link)
      ensures CheckString(s, linked, k).Ok?
    {
      StringPasses(env, classes, expected, b, i, k);
    }
    AllStringsPass(s, linked);
  }

  lemma AllStringsPass(s: ClassSection, linked: Linked)
    requires Parsed(s) && Valid(linked.link)
    requires forall k | 0 <= k < StrsLen(linked.link) :: CheckString(s, linked, k).Ok?
    ensures CheckStrings(s, linked).Ok?
  {
    var verdicts := StringVerdicts(s, linked);
    assert forall k | 0 <= k < |verdicts| :: verdicts[k] == CheckString(s, linked, k);
    FirstErrOk(verdicts);
  }

  lemma StringPasses(env: Env, classes: seq<seq<byte>>, expected: Option<seq<seq<byte>>>, b: Build, i: nat, k: nat)
    requires Done(env, classes, expected, b) && ClassBuilt(env, classes, b, i)
    requires GoodRows(b.parts.rows, b.parts.pool)
    requires Valid(Link(PlacedTable(b.parts, i), b.parts.pool)) && k < StrsLen(Link(PlacedTable(b.parts, i), b.parts.pool))
    ensures CheckString(SectionOf(env, b.parts), Linked(b.parts.classes[i], Link(PlacedTable(b.parts, i), b.parts.pool)), k).Ok?
  {
    StringNumbered(env, classes, b, i, k);
    LitBytesRead(env, b.parts, StringDescAt(Link(PlacedTable(b.parts, i), b.parts.pool), k).lit);
  }

  lemma TablePasses(env: Env, classes: seq<seq<byte>>, expected: Option<seq<seq<byte>>>, b: Build, i: nat)
    requires Done(env, classes, expected, b) && i < |classes|
    ensures var link := Link(PlacedTable(b.parts, i), b.parts.pool);
      Valid(link) && Linking.ValidateLink(env, link, b.parts.classes[i]).Ok?
  {
    EachClassBuilt(env, classes, expected, b, i);
    FinalSame(env, classes, b, i);
    var pc := b.pooled.classes[i];
    SetSizes(env, classes, expected, b);
    RefsNameAll(classes[i], pc, b.pooled.entries);
    Linking.ValidatorComplete(env, pc.bytes, Refs16(pc.refs), b.parts.pool, PlacedTable(b.parts, i));
  }

  lemma ClassPasses(env: Env, classes: seq<seq<byte>>, expected: Option<seq<seq<byte>>>, b: Build, i: nat)
    requires Done(env, classes, expected, b) && i < |classes|
    ensures CheckClass(env, SectionOf(env, b.parts), i).Ok?
  {
    var s := SectionOf(env, b.parts);
    EachClassBuilt(env, classes, expected, b, i);
    ClassReadsBack(env, classes, b, i);
    TablePasses(env, classes, expected, b, i);
    NamesRead(env, classes, expected, b, i);
    StringsPass(env, classes, expected, b, i);
    SuperPasses(env, classes, expected, b, i);
  }

  // ---- the whole ---------------------------------------------------------

  lemma ChainsPass(env: Env, classes: seq<seq<byte>>, expected: Option<seq<seq<byte>>>, b: Build)
    requires Done(env, classes, expected, b)
    ensures SupersOf(SectionOf(env, b.parts)) == SupersIn(b.patched, b.parts.pool)
  {
    var s := SectionOf(env, b.parts);
    SetSizes(env, classes, expected, b);
    forall i | 0 <= i < |classes|
      ensures SuperIdxAt(s, i) == SuperOf(b.patched[i], b.parts.pool)
    {
      SuperPlaced(env, classes, expected, b, i);
      ClassReadsBack(env, classes, b, i);
    }
  }

  lemma {:induction false} SeenOnlyBefore(s: ClassSection, n: nat, x: nat)
    requires Parsed(s) && n <= s.count && x in SeenBefore(s, n)
    ensures exists j :: 0 <= j < n && IndexAt(s, j).idx == x
    decreases n
  {
    if x != IndexAt(s, n - 1).idx {
      SeenOnlyBefore(s, n - 1, x);
    }
  }

  lemma EntryPassesCheck(env: Env, classes: seq<seq<byte>>, expected: Option<seq<seq<byte>>>, b: Build, k: nat)
    requires Done(env, classes, expected, b) && k < |classes|
    ensures CheckEntry(SectionOf(env, b.parts), k, SeenBefore(SectionOf(env, b.parts), k)).Ok?
  {
    var s, index := SectionOf(env, b.parts), b.parts.index;
    IndexAscends(env, b.names, index);
    IndexOfIs(env, b.parts);
    NamesRead(env, classes, expected, b, index[k].idx);
    EntryStands(env, b.names, s, index, k);
    assert index[k] in index;
    EntryIsGood(s, k, index[k], ClassChecked(s, index[k].idx).value);
  }

  /** What the index check needs to know of entry `k`. */
  ghost predicate Stands(s: ClassSection, k: nat, e: IndexEntry)
    requires Parsed(s)
  {
    && k < s.count && IndexAt(s, k) == e && e.idx < s.count && e.pad == 0 && e.idx !in SeenBefore(s, k)
    && (k > 0 ==> IndexAt(s, k - 1).hash < e.hash)
  }

  lemma EntryStands(env: Env, names: seq<seq<byte>>, s: ClassSection, index: seq<IndexEntry>, k: nat)
    requires Parsed(s) && IndexOf(s) == index && k < |index| && Ascending(index) && |names| == |index|
    requires forall e | e in index :: e.idx < |names| && e == IndexEntry(env.nameHash(names[e.idx]), e.idx, 0)
    ensures Stands(s, k, index[k])
  {
    assert index[k] in index;
    NotSeen(env, names, s, index, k);
    AtIndex(s, index, k);
    if k > 0 {
      AtIndex(s, index, k - 1);
    }
  }

  /** An entry that stands passes when its class carries its hash. */
  lemma EntryIsGood(s: ClassSection, k: nat, e: IndexEntry, linked: Linked)
    requires Parsed(s) && Stands(s, k, e)
    requires ClassChecked(s, e.idx) == Ok(linked) && Valid(linked.link) && NameHash(linked.link) == e.hash
    ensures CheckEntry(s, k, SeenBefore(s, k)).Ok?
  {
    if k > 0 {
      LaterIsGood(s, k, IndexAt(s, k - 1).hash, e, SeenBefore(s, k), linked);
    } else {
      FirstIsGood(s, e, SeenBefore(s, 0), linked);
    }
  }

  lemma NotSeen(env: Env, names: seq<seq<byte>>, s: ClassSection, index: seq<IndexEntry>, k: nat)
    requires Parsed(s) && IndexOf(s) == index && k < |index|
    requires Ascending(index)
    requires forall e | e in index :: e.idx < |names| && e == IndexEntry(env.nameHash(names[e.idx]), e.idx, 0)
    ensures index[k].idx !in SeenBefore(s, k)
  {
    forall j | 0 <= j < k
      ensures IndexAt(s, j).idx != index[k].idx
    {
      assert IndexOf(s)[j].hash < index[k].hash && index[j] in index && index[k] in index;
    }
    if index[k].idx in SeenBefore(s, k) {
      SeenOnlyBefore(s, k, index[k].idx);
    }
  }

  lemma AtIndex(s: ClassSection, index: seq<IndexEntry>, k: nat)
    requires Parsed(s) && IndexOf(s) == index && k < |index|
    ensures k < s.count && IndexAt(s, k) == index[k]
  {
    assert IndexOf(s)[k] == IndexAt(s, k);
  }

  lemma LaterIsGood(s: ClassSection, k: nat, before: u32, e: IndexEntry, seen: set<nat>, linked: Linked)
    requires Parsed(s) && 0 < k < s.count && IndexAt(s, k) == e && e.idx < s.count && e.pad == 0 && e.idx !in seen
    requires ClassChecked(s, e.idx) == Ok(linked) && Valid(linked.link) && NameHash(linked.link) == e.hash
    requires before == IndexAt(s, k - 1).hash && before < e.hash
    ensures CheckEntry(s, k, seen).Ok?
  {
  }

  lemma FirstIsGood(s: ClassSection, e: IndexEntry, seen: set<nat>, linked: Linked)
    requires Parsed(s) && 0 < s.count && IndexAt(s, 0) == e && e.idx < s.count && e.pad == 0 && e.idx !in seen
    requires ClassChecked(s, e.idx) == Ok(linked) && Valid(linked.link) && NameHash(linked.link) == e.hash
    ensures CheckEntry(s, 0, seen).Ok?
  {
  }

  /** A built section passes the deep check. */
  lemma SectionPasses(env: Env, classes: seq<seq<byte>>, expected: Option<seq<seq<byte>>>, b: Build)
    requires Done(env, classes, expected, b)
    ensures Validate(env, SectionOf(env, b.parts)).Ok?
  {
    var s := SectionOf(env, b.parts);
    PoolPasses(env, classes, expected, b);
    LiteralsPass(env, classes, expected, b);
    ClassesPass(env, classes, expected, b);
    ChainsPass(env, classes, expected, b);
    EntriesPass(env, classes, expected, b);
    ValidByParts(env, s);
  }

  lemma ValidByParts(env: Env, s: ClassSection)
    requires Parsed(s) && CheckPool(PoolOf(s)).Ok? && CheckLiterals(env, s).Ok? && FirstErr(ClassVerdicts(env, s)).Ok?
    requires SuperChains.Closed(SupersOf(s)) && SuperChains.Verdict(SupersOf(s), 0).Ok?
    requires IndexPasses(s)
    ensures Validate(env, s).Ok?
  {
  }

  lemma ClassesPass(env: Env, classes: seq<seq<byte>>, expected: Option<seq<seq<byte>>>, b: Build)
    requires Done(env, classes, expected, b)
    ensures FirstErr(ClassVerdicts(env, SectionOf(env, b.parts))).Ok?
  {
    var verdicts := ClassVerdicts(env, SectionOf(env, b.parts));
    forall i | 0 <= i < |verdicts|
      ensures verdicts[i].Ok?
    {
      ClassPasses(env, classes, expected, b, i);
    }
    FirstErrOk(verdicts);
  }

  lemma EntriesPass(env: Env, classes: seq<seq<byte>>, expected: Option<seq<seq<byte>>>, b: Build)
    requires Done(env, classes, expected, b)
    ensures IndexPasses(SectionOf(env, b.parts))
  {
    var verdicts := IndexVerdicts(SectionOf(env, b.parts));
    forall k | 0 <= k < |verdicts|
      ensures verdicts[k].Ok?
    {
      EntryPassesCheck(env, classes, expected, b, k);
    }
    FirstErrOk(verdicts);
  }

  // ---- the theorem -------------------------------------------------------

  /** Class `i` of the section is the class given: byte for byte, found by the
      name the class file gives itself, and named as expected. */
  ghost predicate Delivers(env: Env, s: ClassSection, cls: seq<byte>, expected: Option<seq<seq<byte>>>, i: nat)
    requires Parsed(s)
  {
    && ClassChecked(s, i).Ok? && Valid(ClassChecked(s, i).value.link)
    && Unpooled(ClassChecked(s, i).value.link, ClassChecked(s, i).value.cls) == Ok(cls)
    && OwnName(cls).Some? && FindClass(env, s, OwnName(cls).value) == Some(i)
    && ClassName(s, i) == OwnName(cls) && LinkedSuperName(ClassChecked(s, i).value.link) == OwnSuper(cls)
    && (expected.Some? ==> i < |expected.value| && ClassName(s, i) == Some(expected.value[i]))
  }

  lemma ClassDelivered(env: Env, classes: seq<seq<byte>>, expected: Option<seq<seq<byte>>>, b: Build, i: nat)
    requires Done(env, classes, expected, b) && Accepted(env, SectionOf(env, b.parts)) && i < |classes|
    ensures Delivers(env, SectionOf(env, b.parts), classes[i], expected, i)
  {
    SetSizes(env, classes, expected, b);
    NamesRead(env, classes, expected, b, i);
    FindClassExact(env, SectionOf(env, b.parts), b.names[i], i);
    ClassComesBack(env, classes, expected, b, i);
    ClassOwnNamed(env, classes, expected, b, i);
    ExpectedNamed(env, expected, b, i);
  }

  /** If `build_section` succeeds, its bytes at any 4-aligned address parse and
      validate, hold exactly the classes given, in order, byte for byte, and
      find each by its own name; and with names expected, they are those. */
  lemma BuiltSectionDelivers(env: Env, classes: seq<seq<byte>>, expected: Option<seq<seq<byte>>>, addr: nat)
    returns (s: ClassSection)
    requires BuildSection(env, classes, expected).Ok? && addr % 4 == 0
    ensures Parse(BuildSection(env, classes, expected).value, addr) == Ok(s)
    ensures Accepted(env, s) && s.count == |classes|
    ensures forall i | 0 <= i < |classes| :: Delivers(env, s, classes[i], expected, i)
  {
    var b := PreparedFrom(env, classes, expected);
    BuiltIsDone(env, classes, expected, b);
    s := SectionOf(env, b.parts);
    LaidOutParses(env, b.parts, addr);
    SectionPasses(env, classes, expected, b);
    forall i | 0 <= i < |classes|
      ensures Delivers(env, s, classes[i], expected, i)
    {
      ClassDelivered(env, classes, expected, b, i);
    }
  }

  lemma ClassComesBack(env: Env, classes: seq<seq<byte>>, expected: Option<seq<seq<byte>>>, b: Build, i: nat)
    requires Done(env, classes, expected, b) && i < |classes|
    ensures ClassChecked(SectionOf(env, b.parts), i).Ok?
    ensures var linked := ClassChecked(SectionOf(env, b.parts), i).value;
      Valid(linked.link) && Unpooled(linked.link, linked.cls) == Ok(classes[i])
  {
    EachClassBuilt(env, classes, expected, b, i);
    ClassReadsBack(env, classes, b, i);
    FinalSame(env, classes, b, i);
    LinkHolds(env, classes, b, i);
    SetSizes(env, classes, expected, b);
    var pc := b.pooled.classes[i];
    Linking.HoldersAgree(env, pc.bytes, PlanOf(b, i).value, b.links[i], PlacedTable(b.parts, i));
    TableRestores(env, classes[i], pc, b.pooled.entries, PlanOf(b, i).value, PlacedTable(b.parts, i));
  }

  /** Its table names it and its superclass as the class file does. */
  lemma ClassOwnNamed(env: Env, classes: seq<seq<byte>>, expected: Option<seq<seq<byte>>>, b: Build, i: nat)
    requires Done(env, classes, expected, b) && i < |classes|
    ensures ClassChecked(SectionOf(env, b.parts), i).Ok? && Valid(ClassChecked(SectionOf(env, b.parts), i).value.link)
    ensures var link := ClassChecked(SectionOf(env, b.parts), i).value.link;
      LinkedName(link) == OwnName(classes[i]) && LinkedSuperName(link) == OwnSuper(classes[i])
  {
    EachClassBuilt(env, classes, expected, b, i);
    ClassReadsBack(env, classes, b, i);
    FinalSame(env, classes, b, i);
    LinkHolds(env, classes, b, i);
    SetSizes(env, classes, expected, b);
    var pc := b.pooled.classes[i];
    Linking.HoldersAgree(env, pc.bytes, PlanOf(b, i).value, b.links[i], PlacedTable(b.parts, i));
    NamesCarried(env, classes[i], pc, b.pooled.entries, PlanOf(b, i).value, PlacedTable(b.parts, i));
  }

  lemma ExpectedNamed(env: Env, expected: Option<seq<seq<byte>>>, b: Build, i: nat)
    requires NamesOf(b.links, b.parts.pool, expected) == Ok(b.names) && i < |b.links|
    ensures i < |b.names|
    ensures expected.Some? ==> i < |expected.value| && b.names[i] == expected.value[i]
  {
    var checks := NameEach(b.links, b.parts.pool, expected);
    CollectOk(checks);
    assert checks[i] == Ok(b.names[i]);
  }
}
