/** `build_section_impl` of `crates/class-link/src/build.rs` as the source runs
    it, and the end-to-end theorem restated for what it returns. */
module SectionBuilder {
  import opened AcceptedSection
  import opened BuiltIsAccepted
  import opened BuiltSection
  import opened Bytes
  import opened ClassFile
  import opened LinkTable
  import opened Linker
  import opened Pooling
  import opened Section
  import opened SectionBuild
  import opened SectionWriter
  import opened Utf8Pool
  import BuildExact
  import BuildSpec
  import SuperChains

  // ---- pooling and linking -----------------------------------------------

  /** Classes pooled so far, then what pooling the rest gives. */
  function PooledSoFar(done: seq<PooledClass>, rest: Result<PooledSet>): Result<PooledSet> {
    match rest
    case Err(e) => Err(e)
    case Ok(s) => Ok(PooledSet(done + s.classes, s.entries))
  }

  lemma PoolStep(done: seq<PooledClass>, entries: seq<Text>, classes: seq<seq<byte>>, i: nat)
    requires i < |classes|
    ensures var whole, pc := PooledSoFar(done, PoolAll(classes[i..], entries)), PoolClass(classes[i], entries);
      && (pc.Err? ==> whole == Err(pc.error))
      && (pc.Ok? ==> whole == PooledSoFar(done + [pc.value], PoolAll(classes[i + 1..], pc.value.entries)))
  {
    assert classes[i..][1..] == classes[i + 1..];
    var pc := PoolClass(classes[i], entries);
    if pc.Ok? && PoolAll(classes[i + 1..], pc.value.entries).Ok? {
      ConcatAssoc(done, [pc.value], PoolAll(classes[i + 1..], pc.value.entries).value.classes);
    }
  }

  lemma PoolEnds(done: seq<PooledClass>, entries: seq<Text>, whole: Result<PooledSet>)
    ensures PooledSoFar(done, PoolAll([], entries)) == Ok(PooledSet(done, entries))
    ensures PooledSoFar([], whole) == whole
  {
    assert done + [] == done;
    if whole.Ok? {
      assert [] + whole.value.classes == whole.value.classes;
    }
  }

  /** The bytes and refs the builder keeps of each pooled class. */
  ghost predicate Keeps(kept: seq<(seq<byte>, seq<nat>)>, pooled: seq<PooledClass>) {
    |kept| == |pooled| && forall i | 0 <= i < |kept| :: kept[i] == (pooled[i].bytes, pooled[i].refs)
  }

  /** Every Utf8 of the set into one pool first. */
  method PoolClasses(classes: seq<seq<byte>>)
    returns (r: Result<seq<(seq<byte>, seq<nat>)>>, pool: Pool, ghost pooled: seq<PooledClass>)
    ensures fresh(pool) && pool.Valid()
    ensures r.Ok? ==> PoolAll(classes, [[]]) == Ok(PooledSet(pooled, pool.entries)) && Keeps(r.value, pooled)
    ensures r.Err? ==> PoolAll(classes, [[]]) == Err(r.error)
  {
    pool := new Pool();
    pooled := [];
    var kept := [];
    PoolEnds([], [], PoolAll(classes, [[]]));
    assert classes[0..] == classes;
    for i := 0 to |classes|
      invariant fresh(pool) && pool.Valid() && Keeps(kept, pooled)
      invariant PoolAll(classes, [[]]) == PooledSoFar(pooled, PoolAll(classes[i..], pool.entries))
    {
      PoolStep(pooled, pool.entries, classes, i);
      var one :- PoolOne(classes[i], pool);
      kept := kept + [one];
      pooled := pooled + [PooledClass(one.0, one.1, pool.entries)];
    }
    PoolEnds(pooled, pool.entries, Ok(PooledSet(pooled, pool.entries)));
    return Ok(kept), pool, pooled;
  }

  lemma CollectStep<T>(done: seq<T>, rs: seq<Result<T>>, i: nat)
    requires i < |rs|
    ensures var whole := Prepend(done, Collect(rs[i..]));
      && (rs[i].Err? ==> whole == Err(rs[i].error))
      && (rs[i].Ok? ==> whole == Prepend(done + [rs[i].value], Collect(rs[i + 1..])))
  {
    assert rs[i..][1..] == rs[i + 1..];
    if rs[i].Ok? {
      PrependOne(done, rs[i].value, Collect(rs[i + 1..]));
    }
  }

  /** Then each class linked against the finished pool. */
  method LinkClasses(env: Env, kept: seq<(seq<byte>, seq<nat>)>, ghost pooled: seq<PooledClass>, pool: seq<byte>)
    returns (r: Result<seq<seq<u16>>>)
    requires Keeps(kept, pooled)
    ensures r == LinkAll(env, pooled, pool)
  {
    ghost var each := LinkEach(env, pooled, pool);
    var links := [];
    PrependNothing(Collect(each));
    assert each[0..] == each;
    for i := 0 to |kept|
      invariant Collect(each) == Prepend(links, Collect(each[i..]))
    {
      CollectStep(links, each, i);
      var words :- LinkOne(env, kept[i].0, Refs16(kept[i].1), pool);
      links := links + [words];
    }
    PrependAll(links);
    return Ok(links);
  }

  // ---- names, index and superclasses -------------------------------------

  method NameClasses(links: seq<seq<u16>>, pool: seq<byte>, expected: Option<seq<seq<byte>>>) returns (r: Result<seq<seq<byte>>>)
    ensures r == NamesOf(links, pool, expected)
  {
    ghost var each := NameEach(links, pool, expected);
    var names := [];
    PrependNothing(Collect(each));
    assert each[0..] == each;
    for i := 0 to |links|
      invariant Collect(each) == Prepend(names, Collect(each[i..]))
    {
      CollectStep(names, each, i);
      var name :- CheckName(links[i], pool, expected, i);
      names := names + [name];
    }
    PrependAll(names);
    return Ok(names);
  }

  /** `class_index`: sorted, then every neighbour compared. */
  method IndexClasses(env: Env, names: seq<seq<byte>>) returns (r: Result<seq<IndexEntry>>)
    ensures r == ClassIndex(env, names)
  {
    if |names| > MAX_CLASSES {
      return Err(TooManyClasses);
    }
    var index := SortIndex(UnsortedIndex(env, names));
    SortedNamesInRange(env, names);
    ghost var pairs := PairVerdicts(names, index);
    assert pairs[0..] == pairs;
    var k := 0;
    while k + 1 < |index|
      invariant 0 <= k <= |pairs|
      invariant FirstErr(pairs) == FirstErr(pairs[k..])
    {
      assert pairs[k..][1..] == pairs[k + 1..];
      var _ :- PairVerdict(names, index[k], index[k + 1]);
      k := k + 1;
    }
    return Ok(index);
  }

  /** Where the section holds one class's superclass, if it does. */
  method PlaceSuper(words: seq<u16>, pool: seq<byte>, names: seq<seq<byte>>) returns (r: Result<seq<u16>>)
    ensures r == PatchSuper(words, pool, names)
  {
    var l :- NewLink(words, pool);
    var sup := SuperPosition(l, names);
    if sup.Some? {
      return Ok(words[22 := AsU16(sup.value)]);
    }
    return Ok(words);
  }

  /** The first `i` elements replaced, the others as they were. */
  ghost predicate Replaced<T>(all: seq<T>, done: seq<T>, now: seq<T>, i: nat) {
    |done| == i <= |all| && now == done + all[i..]
  }

  lemma ReplacedAt<T>(all: seq<T>, done: seq<T>, now: seq<T>, i: nat)
    requires Replaced(all, done, now, i) && i < |all|
    ensures |now| == |all| && now[i] == all[i]
  {
  }

  /** One element replaced, behind those already replaced. */
  lemma ReplaceNext<T>(all: seq<T>, done: seq<T>, now: seq<T>, i: nat, x: T)
    requires Replaced(all, done, now, i) && i < |all|
    ensures |now| == |all| && Replaced(all, done + [x], now[i := x], i + 1)
  {
    assert (done + all[i..])[i := x] == done + [x] + all[i + 1..];
  }

  /** Each superclass position written into its table. */
  method PlaceSupers(links: seq<seq<u16>>, pool: seq<byte>, names: seq<seq<byte>>) returns (r: Result<seq<seq<u16>>>)
    ensures r == PatchSupers(links, pool, names)
  {
    ghost var each, done := PatchEach(links, pool, names), [];
    var patched := links;
    PrependNothing(Collect(each));
    assert each[0..] == each;
    for i := 0 to |links|
      invariant Replaced(links, done, patched, i)
      invariant Collect(each) == Prepend(done, Collect(each[i..]))
    {
      CollectStep(done, each, i);
      ReplacedAt(links, done, patched, i);
      var words :- PlaceSuper(patched[i], pool, names);
      ReplaceNext(links, done, patched, i, words);
      patched := patched[i := words];
      done := done + [words];
    }
    PrependAll(patched);
    return Ok(patched);
  }

  // ---- literals ----------------------------------------------------------

  /** Every literal seen, by its bytes. */
  ghost predicate Seen(seen: map<seq<byte>, nat>, rows: seq<Row>) {
    && (forall b :: b in seen <==> RowOf(rows, b).Some?)
    && forall b | b in seen :: RowOf(rows, b) == Some(seen[b])
  }

  lemma {:induction false} RowAdded(rows: seq<Row>, row: Row, b: seq<byte>)
    ensures RowOf(rows + [row], b)
            == if RowOf(rows, b).Some? then RowOf(rows, b) else if row.bytes == b then Some(|rows|) else None
  {
    if rows != [] {
      assert (rows + [row])[1..] == rows[1..] + [row];
      RowAdded(rows[1..], row, b);
    }
  }

  lemma SeenGrows(seen: map<seq<byte>, nat>, rows: seq<Row>, row: Row)
    requires Seen(seen, rows) && row.bytes !in seen
    ensures Seen(seen[row.bytes := |rows|], rows + [row])
  {
    forall b: seq<byte>
      ensures RowOf(rows + [row], b)
              == if RowOf(rows, b).Some? then RowOf(rows, b) else if row.bytes == b then Some(|rows|) else None
    {
      RowAdded(rows, row, b);
    }
  }

  /** Ids so far, then what numbering the rest gives. */
  function NumberedSoFar(ids: seq<nat>, rest: Result<Numbered>): Result<Numbered> {
    match rest
    case Err(e) => Err(e)
    case Ok(n) => Ok(Numbered(n.rows, ids + n.ids))
  }

  lemma NumberedEnds(ids: seq<nat>, rows: seq<Row>, whole: Result<Numbered>)
    ensures NumberedSoFar(ids, NumberRows(rows, [])) == Ok(Numbered(rows, ids))
    ensures NumberedSoFar([], whole) == whole
  {
    assert ids + [] == ids;
    if whole.Ok? {
      assert [] + whole.value.ids == whole.value.ids;
    }
  }

  lemma NumberOne(ids: seq<nat>, rows: seq<Row>, constants: seq<Result<Row>>, k: nat)
    requires k < |constants|
    ensures var whole, c := NumberedSoFar(ids, NumberRows(rows, constants[k..])), constants[k];
      && (c.Err? ==> whole == Err(c.error))
      && (c.Ok? ==>
            var added := AddRow(rows, c.value);
            && (added.Err? ==> whole == Err(added.error))
            && (added.Ok? ==>
                  && RowOf(added.value, c.value.bytes).Some?
                  && whole == NumberedSoFar(ids + [RowOf(added.value, c.value.bytes).value], NumberRows(added.value, constants[k + 1..]))))
  {
    assert constants[k..][1..] == constants[k + 1..];
    if constants[k].Ok? {
      var row := constants[k].value;
      AddedHolds(rows, row);
      var added := AddRow(rows, row);
      if added.Ok? && NumberRows(added.value, constants[k + 1..]).Ok? {
        ConcatAssoc(ids, [RowOf(added.value, row.bytes).value], NumberRows(added.value, constants[k + 1..]).value.ids);
      }
    }
  }

  class Literals {
    var rows: seq<Row>
    var seen: map<seq<byte>, nat>

    ghost predicate Valid()
      reads this
    {
      Seen(seen, rows)
    }

    constructor ()
      ensures Valid() && rows == []
    {
      rows, seen := [], map[];
    }

    /** The row of a constant, added if it is new. */
    method Number(row: Row) returns (r: Result<nat>)
      requires Valid()
      modifies this
      ensures Valid()
      ensures r.Err? ==> AddRow(old(rows), row) == Err(r.error)
      ensures r.Ok? ==> AddRow(old(rows), row) == Ok(rows) && RowOf(rows, row.bytes) == Some(r.value)
    {
      if row.bytes in seen {
        return Ok(seen[row.bytes]);
      }
      if |rows| >= MAX_LITERALS {
        return Err(TooManyLiterals);
      }
      var id := |rows|;
      SeenGrows(seen, rows, row);
      rows := rows + [row];
      seen := seen[row.bytes := id];
      return Ok(id);
    }

    /** The constants of one class, numbered in table order. */
    method NumberEach(l: Link, cls: seq<byte>) returns (r: Result<seq<nat>>)
      requires Valid() && LinkTable.Valid(l)
      modifies this
      ensures Valid()
      ensures r.Err? ==> NumberRows(old(rows), ConstantEach(l, cls)) == Err(r.error)
      ensures r.Ok? ==> NumberRows(old(rows), ConstantEach(l, cls)) == Ok(Numbered(rows, r.value))
    {
      ghost var constants := ConstantEach(l, cls);
      var ids := [];
      NumberedEnds([], [], NumberRows(rows, constants));
      assert constants[0..] == constants;
      for k := 0 to StrsLen(l)
        invariant Valid()
        invariant NumberRows(old(rows), constants) == NumberedSoFar(ids, NumberRows(rows, constants[k..]))
      {
        NumberOne(ids, rows, constants, k);
        var constant :- ConstantAt(l, cls, k);
        var id :- Number(constant);
        ids := ids + [id];
      }
      NumberedEnds(ids, rows, Ok(Numbered(rows, ids)));
      return Ok(ids);
    }
  }

  /** The ids into the literal words of one table. */
  method WriteIds(words: seq<u16>, strsOff: nat, ids: seq<nat>) returns (r: seq<u16>)
    requires strsOff + 2 * |ids| <= |words|
    ensures r == PatchLits(words, strsOff, ids, 0)
  {
    r := words;
    assert ids[0..] == ids;
    for k := 0 to |ids|
      invariant |r| == |words| && PatchLits(words, strsOff, ids, 0) == PatchLits(r, strsOff, ids[k..], k)
    {
      assert ids[k..][1..] == ids[k + 1..];
      r := r[strsOff + 2 * k + 1 := AsU16(ids[k])];
    }
  }

  /** Tables numbered so far, then what numbering the rest gives. */
  function SetSoFar(tables: seq<seq<u16>>, rest: Result<NumberedSet>): Result<NumberedSet> {
    match rest
    case Err(e) => Err(e)
    case Ok(n) => Ok(NumberedSet(n.rows, tables + n.tables))
  }

  lemma SetEnds(tables: seq<seq<u16>>, pool: seq<byte>, rows: seq<Row>, whole: Result<NumberedSet>)
    ensures SetSoFar(tables, NumberAll([], pool, [], rows)) == Ok(NumberedSet(rows, tables))
    ensures SetSoFar([], whole) == whole
  {
    assert tables + [] == tables;
    if whole.Ok? {
      assert [] + whole.value.tables == whole.value.tables;
    }
  }

  lemma SetStep(tables: seq<seq<u16>>, links: seq<seq<u16>>, pool: seq<byte>, classes: seq<seq<byte>>, rows: seq<Row>, i: nat)
    requires |classes| == |links| && i < |links|
    ensures var whole, one := SetSoFar(tables, NumberAll(links[i..], pool, classes[i..], rows)), NumberClass(links[i], pool, classes[i], rows);
      && (one.Err? ==> whole == Err(one.error))
      && (one.Ok? ==> whole == SetSoFar(tables + [one.value.1], NumberAll(links[i + 1..], pool, classes[i + 1..], one.value.0)))
  {
    assert links[i..][1..] == links[i + 1..] && classes[i..][1..] == classes[i + 1..];
    var one := NumberClass(links[i], pool, classes[i], rows);
    if one.Ok? {
      var rest := NumberAll(links[i + 1..], pool, classes[i + 1..], one.value.0);
      if rest.Ok? {
        ConcatAssoc(tables, [one.value.1], rest.value.tables);
      }
    }
  }

  /** Every String constant of the set numbered, each table patched with its ids. */
  method NumberLiterals(links: seq<seq<u16>>, pool: seq<byte>, classes: seq<seq<byte>>) returns (r: Result<NumberedSet>)
    requires |classes| == |links|
    ensures r == NumberAll(links, pool, classes, [])
  {
    var literals := new Literals();
    var tables := [];
    SetEnds([], pool, [], NumberAll(links, pool, classes, []));
    assert links[0..] == links && classes[0..] == classes;
    for i := 0 to |links|
      invariant literals.Valid()
      invariant NumberAll(links, pool, classes, []) == SetSoFar(tables, NumberAll(links[i..], pool, classes[i..], literals.rows))
    {
      SetStep(tables, links, pool, classes, literals.rows, i);
      var l :- NewLink(links[i], pool);
      NumberedLength(literals.rows, ConstantEach(l, classes[i]));
      var ids :- literals.NumberEach(l, classes[i]);
      var table := WriteIds(links[i], StrsOff(l), ids);
      tables := tables + [table];
    }
    SetEnds(tables, pool, literals.rows, Ok(NumberedSet(literals.rows, tables)));
    return Ok(NumberedSet(literals.rows, tables));
  }

  // ---- the whole ---------------------------------------------------------

  method AssembleParts(env: Env, classes: seq<seq<byte>>, links: seq<seq<u16>>, pool: seq<byte>, expected: Option<seq<seq<byte>>>)
    returns (r: Result<Parts>)
    requires |classes| == |links| && Unplaced(links)
    ensures r == Assemble(env, classes, links, pool, expected)
  {
    CollectOk(NameEach(links, pool, expected));
    var names :- NameClasses(links, pool, expected);
    var index :- IndexClasses(env, names);
    var patched :- PlaceSupers(links, pool, names);
    PatchedSupersClosed(links, pool, names);
    var _ :- SuperChains.CheckSuperChains(SupersIn(patched, pool));
    var numbered :- NumberLiterals(patched, pool, classes);
    return Ok(Parts(classes, numbered.tables, index, numbered.rows, pool));
  }

  /** `build_section` (nothing expected) and `build_section_named`: what it
      returns parses, validates and gives every class back. */
  method BuildBytes(env: Env, classes: seq<seq<byte>>, expected: Option<seq<seq<byte>>>) returns (r: Result<seq<byte>>)
    ensures r == BuildSection(env, classes, expected)
    ensures r.Ok? <==> exists rs :: BuildSpec.Buildable(env, classes, expected, rs)
    ensures r.Ok? ==> forall addr: nat | addr % 4 == 0 :: Parse(r.value, addr).Ok?
    ensures r.Ok? ==>
      var s := Parse(r.value, 0).value;
      && Accepted(env, s) && s.count == |classes|
      && forall i | 0 <= i < |classes| :: Delivers(env, s, classes[i], expected, i)
  {
    hide BuildSpec.Buildable, Delivers, Accepted, Parse, Tabled, Fits32, SectionBytes, PoolAll, Assemble, Unplaced;
    BuildExact.BuildsExactly(env, classes, expected);
    if |classes| > MAX_CLASSES {
      return Err(TooManyClasses);
    }
    var kept, pool;
    ghost var pooled;
    kept, pool, pooled := PoolClasses(classes);
    var each :- kept;
    var links :- LinkClasses(env, each, pooled, pool.bytes);
    LinkedUnplaced(env, pooled, pool.bytes);
    var bytes := seq(|each|, i requires 0 <= i < |each| => each[i].0);
    assert bytes == BytesOf(pooled);
    var parts :- AssembleParts(env, bytes, links, pool.bytes, expected);
    ghost var b := PreparedFrom(env, classes, expected);
    BuiltIsSized(env, classes, expected, b);
    var out := WriteSection(env, parts);
    BytesDeliver(env, classes, expected, out);
    return Ok(out);
  }

  /** The bytes built parse at any aligned address, and deliver. */
  lemma BytesDeliver(env: Env, classes: seq<seq<byte>>, expected: Option<seq<seq<byte>>>, out: seq<byte>)
    requires BuildSection(env, classes, expected) == Ok(out)
    ensures forall addr: nat | addr % 4 == 0 :: Parse(out, addr).Ok?
    ensures var s := Parse(out, 0).value;
      && Accepted(env, s) && s.count == |classes|
      && forall i | 0 <= i < |classes| :: Delivers(env, s, classes[i], expected, i)
  {
    forall addr: nat | addr % 4 == 0
      ensures Parse(out, addr).Ok?
    {
      var s := BuiltSectionDelivers(env, classes, expected, addr);
    }
    var s := BuiltSectionDelivers(env, classes, expected, 0);
  }
}
