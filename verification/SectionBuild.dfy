/** `build_section` of `crates/class-link/src/build.rs` as functions: every
    string of the set into one pool, each class linked against it, the index,
    the superclass positions, the literal numbers, and the bytes of the whole. */
module SectionBuild {
  import opened Bytes
  import opened ClassFile
  import opened LinkTable
  import opened Pooling
  import opened Regions
  import opened Section
  import opened Utf8Pool
  import Linking
  import SuperChains

  // ---- pooling and linking -----------------------------------------------

  datatype PooledSet = PooledSet(classes: seq<PooledClass>, entries: seq<Text>)

  /** Every class pooled, one after another, into one pool. */
  function PoolAll(classes: seq<seq<byte>>, entries: seq<Text>): Result<PooledSet>
    decreases |classes|
  {
    if classes == [] then Ok(PooledSet([], entries))
    else
      var pc :- PoolClass(classes[0], entries);
      var rest :- PoolAll(classes[1..], pc.entries);
      Ok(PooledSet([pc] + rest.classes, rest.entries))
  }

  function Refs16(refs: seq<nat>): seq<u16> {
    seq(|refs|, k requires 0 <= k < |refs| => AsU16(refs[k]))
  }

  ghost function LinkEach(env: Env, pooled: seq<PooledClass>, pool: seq<byte>): seq<Result<seq<u16>>> {
    seq(|pooled|, i requires 0 <= i < |pooled| =>
      Linking.LinkPooled(env, pooled[i].bytes, Refs16(pooled[i].refs), pool))
  }

  ghost function LinkAll(env: Env, pooled: seq<PooledClass>, pool: seq<byte>): Result<seq<seq<u16>>> {
    Collect(LinkEach(env, pooled, pool))
  }

  // ---- names and the index -----------------------------------------------

  function NameOf(words: seq<u16>, pool: seq<byte>): Result<seq<byte>> {
    var l :- NewLink(words, pool);
    OkOr(PoolUtf8(pool, NameRefOf(l)), Internal)
  }

  /** Class `i`'s name, which must be the one expected if one is. */
  function CheckName(words: seq<u16>, pool: seq<byte>, expected: Option<seq<seq<byte>>>, i: nat): Result<seq<byte>> {
    var name :- NameOf(words, pool);
    if expected.Some? && !(i < |expected.value| && expected.value[i] == name) then Err(NameMismatch(AsU16(i)))
    else Ok(name)
  }

  function NameEach(links: seq<seq<u16>>, pool: seq<byte>, expected: Option<seq<seq<byte>>>): seq<Result<seq<byte>>> {
    seq(|links|, i requires 0 <= i < |links| => CheckName(links[i], pool, expected, i))
  }

  function NamesOf(links: seq<seq<u16>>, pool: seq<byte>, expected: Option<seq<seq<byte>>>): Result<seq<seq<byte>>> {
    Collect(NameEach(links, pool, expected))
  }

  function UnsortedIndex(env: Env, names: seq<seq<byte>>): seq<IndexEntry> {
    seq(|names|, i requires 0 <= i < |names| => IndexEntry(env.nameHash(names[i]), AsU16(i), 0))
  }

  /** The order of `(hash, idx)` keys. */
  predicate Before(a: IndexEntry, b: IndexEntry) {
    a.hash < b.hash || (a.hash == b.hash && a.idx <= b.idx)
  }

  ghost predicate SortedIndex(index: seq<IndexEntry>) {
    forall j, k | 0 <= j < k < |index| :: Before(index[j], index[k])
  }

  /** `e` put in its place among entries in order. */
  function InsertEntry(index: seq<IndexEntry>, e: IndexEntry): seq<IndexEntry> {
    if index == [] || Before(e, index[0]) then [e] + index else [index[0]] + InsertEntry(index[1..], e)
  }

  function SortIndex(index: seq<IndexEntry>): seq<IndexEntry> {
    if index == [] then [] else InsertEntry(SortIndex(index[..|index| - 1]), index[|index| - 1])
  }

  /** Two neighbours of the sorted index must not share a hash. */
  function PairVerdict(names: seq<seq<byte>>, a: IndexEntry, b: IndexEntry): Result<()>
    requires a.idx < |names| && b.idx < |names|
  {
    if a.hash != b.hash then Ok(())
    else if names[a.idx] == names[b.idx] then Err(DuplicateClass(a.idx, b.idx))
    else Err(HashCollision(a.idx, b.idx))
  }

  function PairVerdicts(names: seq<seq<byte>>, index: seq<IndexEntry>): seq<Result<()>>
    requires forall e | e in index :: e.idx < |names|
  {
    seq(if index == [] then 0 else |index| - 1,
        k requires 0 <= k < |index| - 1 => PairVerdict(names, index[k], index[k + 1]))
  }

  /** `class_index` */
  function ClassIndex(env: Env, names: seq<seq<byte>>): Result<seq<IndexEntry>> {
    if |names| > MAX_CLASSES then Err(TooManyClasses)
    else
      var index := SortIndex(UnsortedIndex(env, names));
      SortedNamesInRange(env, names);
      var _ :- FirstErr(PairVerdicts(names, index));
      Ok(index)
  }

  lemma {:induction false} InsertKeeps(index: seq<IndexEntry>, e: IndexEntry)
    ensures multiset(InsertEntry(index, e)) == multiset(index) + multiset{e}
    ensures SortedIndex(index) ==> SortedIndex(InsertEntry(index, e))
  {
    if index != [] && !Before(e, index[0]) {
      InsertKeeps(index[1..], e);
      assert index == [index[0]] + index[1..];
      var rest := InsertEntry(index[1..], e);
      if SortedIndex(index) {
        forall k | 0 <= k < |rest|
          ensures Before(index[0], rest[k])
        {
          assert rest[k] in multiset(rest);
          assert rest[k] in index[1..] || rest[k] == e;
        }
      }
    } else if index != [] && SortedIndex(index) {
      var all := [e] + index;
      forall k | 0 < k < |all|
        ensures Before(e, all[k])
      {
        assert all[k] == index[k - 1];
      }
    }
  }

  /** The sort is one: its result is in order and holds the same entries. */
  lemma {:induction false} SortSorts(index: seq<IndexEntry>)
    ensures SortedIndex(SortIndex(index))
    ensures multiset(SortIndex(index)) == multiset(index) && |SortIndex(index)| == |index|
    decreases |index|
  {
    if index != [] {
      SortSorts(index[..|index| - 1]);
      InsertKeeps(SortIndex(index[..|index| - 1]), index[|index| - 1]);
      assert index == index[..|index| - 1] + [index[|index| - 1]];
    }
    assert |multiset(SortIndex(index))| == |multiset(index)|;
  }

  lemma SortedIsThere(index: seq<IndexEntry>, e: IndexEntry)
    ensures e in SortIndex(index) <==> e in index
  {
    SortSorts(index);
    assert e in SortIndex(index) <==> e in multiset(SortIndex(index));
    assert e in index <==> e in multiset(index);
  }

  lemma UnsortedEntry(env: Env, names: seq<seq<byte>>, e: IndexEntry)
    requires |names| <= MAX_CLASSES && e in UnsortedIndex(env, names)
    ensures e.idx < |names| && e == IndexEntry(env.nameHash(names[e.idx]), e.idx, 0)
  {
  }

  lemma SortedNamesInRange(env: Env, names: seq<seq<byte>>)
    requires |names| <= MAX_CLASSES
    ensures forall e | e in SortIndex(UnsortedIndex(env, names)) ::
      e.idx < |names| && e == IndexEntry(env.nameHash(names[e.idx]), e.idx, 0)
  {
    forall e | e in SortIndex(UnsortedIndex(env, names))
      ensures e.idx < |names| && e == IndexEntry(env.nameHash(names[e.idx]), e.idx, 0)
    {
      SortedIsThere(UnsortedIndex(env, names), e);
      UnsortedEntry(env, names, e);
    }
  }

  // ---- superclasses ------------------------------------------------------

  /** The first class named `s`. */
  function Position(names: seq<seq<byte>>, s: seq<byte>): (p: Option<nat>)
    ensures p.Some? ==> p.value < |names| && names[p.value] == s
    ensures p.None? ==> s !in names
  {
    if names == [] then None
    else if names[0] == s then Some(0)
    else
      match Position(names[1..], s)
      case None => None
      case Some(k) => Some(k + 1)
  }

  function SuperPosition(l: Link, names: seq<seq<byte>>): Option<nat>
    requires Valid(l)
  {
    match LinkedSuperName(l)
    case None => None
    case Some(s) => Position(names, s)
  }

  function PatchSuper(words: seq<u16>, pool: seq<byte>, names: seq<seq<byte>>): Result<seq<u16>> {
    var l :- NewLink(words, pool);
    match SuperPosition(l, names)
    case None => Ok(words)
    case Some(j) => Ok(words[22 := AsU16(j)])
  }

  function PatchEach(links: seq<seq<u16>>, pool: seq<byte>, names: seq<seq<byte>>): seq<Result<seq<u16>>> {
    seq(|links|, i requires 0 <= i < |links| => PatchSuper(links[i], pool, names))
  }

  function PatchSupers(links: seq<seq<u16>>, pool: seq<byte>, names: seq<seq<byte>>): Result<seq<seq<u16>>> {
    Collect(PatchEach(links, pool, names))
  }

  function SuperOf(words: seq<u16>, pool: seq<byte>): Option<nat> {
    match NewLink(words, pool)
    case Err(_) => None
    case Ok(l) => SuperIdx(l)
  }

  /** Tables as `link_pooled` leaves them: no superclass position yet. */
  ghost predicate Unplaced(links: seq<seq<u16>>) {
    forall i | 0 <= i < |links| :: |links[i]| > 22 && links[i][22] == SUPER_NONE
  }

  /** Patching leaves every word but the superclass's alone, and the patched
      table reads the first class of the superclass's name, or none. */
  lemma PatchedSuper(words: seq<u16>, pool: seq<byte>, names: seq<seq<byte>>)
    requires |words| > 22 && words[22] == SUPER_NONE && |names| <= MAX_CLASSES
    requires PatchSuper(words, pool, names).Ok?
    ensures |PatchSuper(words, pool, names).value| == |words|
    ensures forall w | 0 <= w < |words| && w != 22 :: PatchSuper(words, pool, names).value[w] == words[w]
    ensures Valid(Link(words, pool)) && Valid(Link(PatchSuper(words, pool, names).value, pool))
    ensures SuperOf(PatchSuper(words, pool, names).value, pool) == SuperPosition(Link(words, pool), names)
  {
  }

  lemma PatchedSupersClosed(links: seq<seq<u16>>, pool: seq<byte>, names: seq<seq<byte>>)
    requires Unplaced(links) && |names| == |links| <= MAX_CLASSES && PatchSupers(links, pool, names).Ok?
    ensures |PatchSupers(links, pool, names).value| == |links|
    ensures SuperChains.Closed(SupersIn(PatchSupers(links, pool, names).value, pool))
  {
    var patches := PatchEach(links, pool, names);
    CollectOk(patches);
    forall i | 0 <= i < |links|
      ensures SuperOf(PatchSupers(links, pool, names).value[i], pool) == SuperPosition(Link(links[i], pool), names)
    {
      assert patches[i].Ok?;
      PatchedSuper(links[i], pool, names);
    }
  }

  function SupersIn(links: seq<seq<u16>>, pool: seq<byte>): SuperChains.Supers {
    seq(|links|, i requires 0 <= i < |links| => SuperOf(links[i], pool))
  }

  // ---- literals ----------------------------------------------------------

  /** A literal: its bytes and where the pool holds them. */
  datatype Row = Row(bytes: seq<byte>, r: u16)

  function RowOf(rows: seq<Row>, bytes: seq<byte>): (id: Option<nat>)
    ensures id.Some? ==> id.value < |rows| && rows[id.value].bytes == bytes
    ensures id.None? ==> forall k | 0 <= k < |rows| :: rows[k].bytes != bytes
  {
    if rows == [] then None
    else if rows[0].bytes == bytes then Some(0)
    else
      match RowOf(rows[1..], bytes)
      case None => None
      case Some(k) => Some(k + 1)
  }

  function AddRow(rows: seq<Row>, row: Row): Result<seq<Row>> {
    if RowOf(rows, row.bytes).Some? then Ok(rows)
    else if |rows| >= MAX_LITERALS then Err(TooManyLiterals)
    else Ok(rows + [row])
  }

  /** The constant String descriptor `k` stands for. */
  function ConstantAt(l: Link, cls: seq<byte>, k: nat): Result<Row>
    requires Valid(l) && k < StrsLen(l)
  {
    var ui :- OkOr(Be16(cls, StringDescAt(l, k).cpOff), Internal);
    var r :- OkOr(CpWordAt(l, ui), Internal);
    var bytes :- OkOr(PoolUtf8(l.pool, r), Internal);
    Ok(Row(bytes, r))
  }

  datatype Numbered = Numbered(rows: seq<Row>, ids: seq<nat>)

  /** The constants of a class's descriptors, in constant-pool order. */
  function ConstantEach(l: Link, cls: seq<byte>): seq<Result<Row>>
    requires Valid(l)
  {
    seq(StrsLen(l), k requires 0 <= k < StrsLen(l) => ConstantAt(l, cls, k))
  }

  /** The rows after these constants, and each one's row number. */
  function NumberRows(rows: seq<Row>, constants: seq<Result<Row>>): Result<Numbered>
    decreases |constants|
  {
    if constants == [] then Ok(Numbered(rows, []))
    else
      var row :- constants[0];
      var rows' :- AddRow(rows, row);
      AddedHolds(rows, row);
      var rest :- NumberRows(rows', constants[1..]);
      Ok(Numbered(rest.rows, [RowOf(rows', row.bytes).value] + rest.ids))
  }

  lemma AddedHolds(rows: seq<Row>, row: Row)
    ensures AddRow(rows, row).Ok? ==> RowOf(AddRow(rows, row).value, row.bytes).Some?
  {
    if RowOf(rows, row.bytes).None? {
      assert (rows + [row])[|rows|].bytes == row.bytes;
    }
  }

  /** The ids in the descriptors' literal words, from the `k`th. */
  function PatchLits(words: seq<u16>, strsOff: nat, ids: seq<nat>, k: nat): (r: seq<u16>)
    requires strsOff + 2 * (k + |ids|) <= |words|
    ensures |r| == |words|
    decreases |ids|
  {
    if ids == [] then words
    else PatchLits(words[strsOff + 2 * k + 1 := AsU16(ids[0])], strsOff, ids[1..], k + 1)
  }

  lemma {:induction false} NumberedLength(rows: seq<Row>, constants: seq<Result<Row>>)
    ensures NumberRows(rows, constants).Ok? ==> |NumberRows(rows, constants).value.ids| == |constants|
    decreases |constants|
  {
    if constants != [] && constants[0].Ok? && AddRow(rows, constants[0].value).Ok? {
      NumberedLength(AddRow(rows, constants[0].value).value, constants[1..]);
    }
  }

  datatype NumberedSet = NumberedSet(rows: seq<Row>, tables: seq<seq<u16>>)

  /** One class's table with its literals numbered. */
  function NumberClass(words: seq<u16>, pool: seq<byte>, cls: seq<byte>, rows: seq<Row>): Result<(seq<Row>, seq<u16>)> {
    var l :- NewLink(words, pool);
    var num :- NumberRows(rows, ConstantEach(l, cls));
    NumberedLength(rows, ConstantEach(l, cls));
    Ok((num.rows, PatchLits(words, StrsOff(l), num.ids, 0)))
  }

  function NumberAll(links: seq<seq<u16>>, pool: seq<byte>, classes: seq<seq<byte>>, rows: seq<Row>): Result<NumberedSet>
    requires |classes| == |links|
    decreases |links|
  {
    if links == [] then Ok(NumberedSet(rows, []))
    else
      var first :- NumberClass(links[0], pool, classes[0], rows);
      var rest :- NumberAll(links[1..], pool, classes[1..], first.0);
      Ok(NumberedSet(rest.rows, [first.1] + rest.tables))
  }

  // ---- the set before it is laid out -------------------------------------

  /** The classes pooled, their tables but for the pool's place, the index, the
      literals and the pool. */
  datatype Parts = Parts(
    classes: seq<seq<byte>>, tables: seq<seq<u16>>, index: seq<IndexEntry>, rows: seq<Row>, pool: seq<byte>)

  function BytesOf(pooled: seq<PooledClass>): seq<seq<byte>> {
    seq(|pooled|, i requires 0 <= i < |pooled| => pooled[i].bytes)
  }

  /** Everything from the linked tables on that can be refused. */
  ghost function Assemble(env: Env, classes: seq<seq<byte>>, links: seq<seq<u16>>, pool: seq<byte>,
                          expected: Option<seq<seq<byte>>>): Result<Parts>
    requires |classes| == |links| && Unplaced(links)
  {
    CollectOk(NameEach(links, pool, expected));
    var names :- NamesOf(links, pool, expected);
    var index :- ClassIndex(env, names);
    var patched :- PatchSupers(links, pool, names);
    PatchedSupersClosed(links, pool, names);
    var _ :- SuperChains.Verdict(SupersIn(patched, pool), 0);
    var numbered :- NumberAll(patched, pool, classes, []);
    Ok(Parts(classes, numbered.tables, index, numbered.rows, pool))
  }

  // ---- the bytes of the whole --------------------------------------------

  /** `link_bytes` */
  function WordBytes(words: seq<u16>): seq<byte> {
    seq(2 * |words|, k requires 0 <= k < 2 * |words| =>
      if k % 2 == 0 then words[k / 2] % 0x100 else words[k / 2] / 0x100)
  }

  /** A set whose every class has a table, with a header at least. */
  predicate Tabled(p: Parts) {
    && |p.tables| == |p.classes|
    && forall i | 0 <= i < |p.tables| :: |p.tables[i]| >= HEADER_WORDS
  }

  function RecordLen(p: Parts, i: nat): nat
    requires Tabled(p) && i < |p.classes|
  {
    Align4(|p.classes[i]|) + Align4(2 * |p.tables[i]|)
  }

  /** Where record `i` starts, and the last one ends. */
  function ClassOff(p: Parts, i: nat): nat
    requires Tabled(p) && i <= |p.classes|
  {
    if i == 0 then SECTION_HEADER_LEN + 8 * |p.classes| else ClassOff(p, i - 1) + RecordLen(p, i - 1)
  }

  function LinkOff(p: Parts, i: nat): nat
    requires Tabled(p) && i < |p.classes|
  {
    ClassOff(p, i) + Align4(|p.classes[i]|)
  }

  function IndexOff(p: Parts): nat
    requires Tabled(p)
  {
    Align8(ClassOff(p, |p.classes|))
  }

  function PoolStart(p: Parts): nat
    requires Tabled(p)
  {
    IndexOff(p) + 8 * |p.index| + 4 + 12 * |p.rows|
  }

  /** Every offset and length written fits its 32 bits. */
  predicate Fits32(p: Parts)
    requires Tabled(p)
  {
    && PoolStart(p) < 0x1_0000_0000 && |p.pool| < 0x1_0000_0000 && |p.rows| < 0x1_0000_0000
    && |p.classes| < 0x1_0000_0000
    && (forall i | 0 <= i < |p.classes| :: LinkOff(p, i) <= PoolStart(p) && ClassOff(p, i) <= PoolStart(p))
    && forall k | 0 <= k < |p.rows| :: PoolStart(p) + 4 * p.rows[k].r as int + 2 < 0x1_0000_0000
  }

  /** Table `i` with the pool's place in it. */
  function PlacedTable(p: Parts, i: nat): (t: seq<u16>)
    requires Tabled(p) && Fits32(p) && i < |p.classes|
    ensures |t| == |p.tables[i]|
  {
    var rel: u32 := PoolStart(p) - LinkOff(p, i);
    p.tables[i][23 := rel % 0x1_0000][24 := rel / 0x1_0000][25 := AsU16(|p.pool| / 4)]
  }

  function HeaderBytes(p: Parts): seq<byte>
    requires Tabled(p) && Fits32(p)
  {
    Le32Bytes(|p.classes|) + Le32Bytes(IndexOff(p)) + Le32Bytes(PoolStart(p)) + Le32Bytes(|p.pool|)
  }

  function DirEntry(p: Parts, i: nat): (b: seq<byte>)
    requires Tabled(p) && Fits32(p) && i < |p.classes|
    ensures |b| == 8
  {
    Le32Bytes(ClassOff(p, i)) + Le32Bytes(LinkOff(p, i))
  }

  function Record(p: Parts, i: nat): seq<byte>
    requires Tabled(p) && Fits32(p) && i < |p.classes|
  {
    p.classes[i] + Zeros(PadLen(|p.classes[i]|))
    + (WordBytes(PlacedTable(p, i)) + Zeros(PadLen(2 * |p.tables[i]|)))
  }

  function EntryBytes(e: IndexEntry): (b: seq<byte>)
    ensures |b| == 8
  {
    Le32Bytes(e.hash) + Le16Bytes(e.idx) + Le16Bytes(e.pad)
  }

  function RowBytes(env: Env, p: Parts, k: nat): (b: seq<byte>)
    requires Tabled(p) && Fits32(p) && k < |p.rows|
    ensures |b| == 12
  {
    var row := p.rows[k];
    Le32Bytes(env.stringHash(row.bytes)) + Le32Bytes(PoolStart(p) + 4 * row.r as int + 2)
    + Le16Bytes(AsU16(|row.bytes|)) + Le16Bytes(LitFlags(env, row.bytes))
  }

  function Directory(p: Parts): seq<seq<byte>>
    requires Tabled(p) && Fits32(p)
  {
    seq(|p.classes|, i requires 0 <= i < |p.classes| => DirEntry(p, i))
  }

  function Records(p: Parts): seq<seq<byte>>
    requires Tabled(p) && Fits32(p)
  {
    seq(|p.classes|, i requires 0 <= i < |p.classes| => Record(p, i))
  }

  function IndexBytes(p: Parts): seq<seq<byte>> {
    seq(|p.index|, k requires 0 <= k < |p.index| => EntryBytes(p.index[k]))
  }

  function LiteralBytes(env: Env, p: Parts): seq<seq<byte>>
    requires Tabled(p) && Fits32(p)
  {
    seq(|p.rows|, k requires 0 <= k < |p.rows| => RowBytes(env, p, k))
  }

  /** The regions of the section, in order. */
  function RegionsOf(env: Env, p: Parts): seq<seq<byte>>
    requires Tabled(p) && Fits32(p)
  {
    [HeaderBytes(p), Flat(Directory(p)), Flat(Records(p)), Zeros(IndexOff(p) - ClassOff(p, |p.classes|)),
     Flat(IndexBytes(p)), Le32Bytes(|p.rows|), Flat(LiteralBytes(env, p)), p.pool]
  }

  function SectionBytes(env: Env, p: Parts): seq<byte>
    requires Tabled(p) && Fits32(p)
  {
    Flat(RegionsOf(env, p))
  }

  /** The set before its bytes are laid out. */
  ghost function Prepare(env: Env, classes: seq<seq<byte>>, expected: Option<seq<seq<byte>>>): Result<Parts> {
    if |classes| > MAX_CLASSES then Err(TooManyClasses)
    else
      var pooled :- PoolAll(classes, [[]]);
      var pool := PoolBytes(pooled.entries);
      var links :- LinkAll(env, pooled.classes, pool);
      LinkedUnplaced(env, pooled.classes, pool);
      Assemble(env, BytesOf(pooled.classes), links, pool, expected)
  }

  lemma LinkedUnplaced(env: Env, pooled: seq<PooledClass>, pool: seq<byte>)
    requires LinkAll(env, pooled, pool).Ok?
    ensures |LinkAll(env, pooled, pool).value| == |pooled| && Unplaced(LinkAll(env, pooled, pool).value)
    ensures forall i | 0 <= i < |pooled| ::
      Linking.LinkPooled(env, pooled[i].bytes, Refs16(pooled[i].refs), pool) == Ok(LinkAll(env, pooled, pool).value[i])
  {
    var links := LinkEach(env, pooled, pool);
    CollectOk(links);
    forall i | 0 <= i < |pooled|
      ensures links[i].Ok? && |links[i].value| > 22 && links[i].value[22] == SUPER_NONE
    {
      assert links[i].Ok?;
      Linking.BuiltUnplaced(env, pooled[i].bytes, Refs16(pooled[i].refs), pool);
    }
  }

  /** `build_section_impl` */
  ghost function BuildSection(env: Env, classes: seq<seq<byte>>, expected: Option<seq<seq<byte>>>): Result<seq<byte>> {
    var p :- Prepare(env, classes, expected);
    if !Tabled(p) || !Fits32(p) then Err(BadSection) else Ok(SectionBytes(env, p))
  }
}
