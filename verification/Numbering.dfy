/** The literal numbering of a section: rows are distinct and in first-appearance
    order, each reads its bytes from the pool, and every String descriptor is
    given the one row that holds its constant. */
module Numbering {
  import opened Bytes
  import opened ClassFile
  import opened ExternalWords
  import opened LinkTable
  import opened Linking
  import opened Section
  import opened SectionBuild

  /** What the rows keep while they are collected. */
  ghost predicate GoodRows(rows: seq<Row>, pool: seq<byte>) {
    && |rows| <= MAX_LITERALS
    && (forall j, k | 0 <= j < k < |rows| :: rows[j].bytes != rows[k].bytes)
    && forall k | 0 <= k < |rows| :: PoolUtf8(pool, rows[k].r) == Some(rows[k].bytes)
  }

  lemma {:induction false} RowIsUnique(rows: seq<Row>, pool: seq<byte>, k: nat)
    requires GoodRows(rows, pool) && k < |rows|
    ensures RowOf(rows, rows[k].bytes) == Some(k)
  {
    var id := RowOf(rows, rows[k].bytes);
    assert id.Some?;
  }

  lemma AddKeepsGood(rows: seq<Row>, pool: seq<byte>, row: Row)
    requires GoodRows(rows, pool) && PoolUtf8(pool, row.r) == Some(row.bytes) && AddRow(rows, row).Ok?
    ensures GoodRows(AddRow(rows, row).value, pool) && rows <= AddRow(rows, row).value
    ensures RowOf(AddRow(rows, row).value, row.bytes).Some?
  {
    AddedHolds(rows, row);
  }

  /** Every constant reads its bytes from the pool. */
  ghost predicate FromPool(constants: seq<Result<Row>>, pool: seq<byte>) {
    forall j | 0 <= j < |constants| && constants[j].Ok? ::
      PoolUtf8(pool, constants[j].value.r) == Some(constants[j].value.bytes)
  }

  /** Each constant's number is the row that holds its bytes. */
  ghost predicate Numbers(constants: seq<Result<Row>>, ids: seq<nat>, rows: seq<Row>) {
    && |ids| == |constants|
    && forall j | 0 <= j < |ids| ::
         ids[j] < |rows| && constants[j].Ok? && constants[j].value.bytes == rows[ids[j]].bytes
  }

  lemma NumbersCons(first: Result<Row>, rest: seq<Result<Row>>, id: nat, ids: seq<nat>, rows: seq<Row>)
    requires Numbers(rest, ids, rows) && id < |rows| && first.Ok? && first.value.bytes == rows[id].bytes
    ensures Numbers([first] + rest, [id] + ids, rows)
  {
  }

  lemma {:induction false} NumberedHolds(rows: seq<Row>, constants: seq<Result<Row>>, pool: seq<byte>, num: Numbered)
    requires GoodRows(rows, pool) && FromPool(constants, pool) && NumberRows(rows, constants) == Ok(num)
    ensures GoodRows(num.rows, pool) && rows <= num.rows && Numbers(constants, num.ids, num.rows)
    decreases |constants|
  {
    if constants != [] {
      var row := constants[0].value;
      var rows' := AddRow(rows, row).value;
      AddKeepsGood(rows, pool, row);
      var rest := NumberRows(rows', constants[1..]).value;
      NumberedHolds(rows', constants[1..], pool, rest);
      NumbersCons(constants[0], constants[1..], RowOf(rows', row.bytes).value, rest.ids, rest.rows);
      assert [constants[0]] + constants[1..] == constants;
    }
  }

  lemma ConstantsFromPool(l: Link, cls: seq<byte>)
    requires Valid(l)
    ensures FromPool(ConstantEach(l, cls), l.pool)
  {
  }

  /** Patching touches the literal words alone, and leaves each its id. */
  lemma {:induction false} PatchedLits(words: seq<u16>, strsOff: nat, ids: seq<nat>, k: nat)
    requires strsOff + 2 * (k + |ids|) <= |words|
    ensures var r := PatchLits(words, strsOff, ids, k);
      && (forall j | 0 <= j < |ids| :: r[strsOff + 2 * (k + j) + 1] == AsU16(ids[j]))
      && forall w | 0 <= w < |words| && (w < strsOff + 2 * k || w >= strsOff + 2 * (k + |ids|) || (w - strsOff) % 2 == 0) ::
           r[w] == words[w]
    decreases |ids|
  {
    if ids != [] {
      var words' := words[strsOff + 2 * k + 1 := AsU16(ids[0])];
      PatchedLits(words', strsOff, ids[1..], k + 1);
      var r := PatchLits(words, strsOff, ids, k);
      forall j | 0 <= j < |ids|
        ensures r[strsOff + 2 * (k + j) + 1] == AsU16(ids[j])
      {
        if j == 0 {
          assert r[strsOff + 2 * k + 1] == words'[strsOff + 2 * k + 1];
        } else {
          assert ids[j] == ids[1..][j - 1] && k + j == k + 1 + (j - 1);
        }
      }
    }
  }

  lemma PatchedIsSame(words: seq<u16>, pool: seq<byte>, ids: seq<nat>)
    requires Valid(Link(words, pool)) && |ids| == StrsLen(Link(words, pool))
    ensures var table := PatchLits(words, StrsOff(Link(words, pool)), ids, 0);
      SameButExternal(table, words) && table[22] == words[22]
  {
    PatchedLits(words, StrsOff(Link(words, pool)), ids, 0);
  }

  lemma PatchedLit(words: seq<u16>, pool: seq<byte>, ids: seq<nat>, k: nat)
    requires Valid(Link(words, pool)) && |ids| == StrsLen(Link(words, pool)) && k < |ids|
    ensures var table := PatchLits(words, StrsOff(Link(words, pool)), ids, 0);
      && Valid(Link(table, pool)) && k < StrsLen(Link(table, pool))
      && StringDescAt(Link(table, pool), k).lit == AsU16(ids[k])
  {
    var off := StrsOff(Link(words, pool));
    var table := PatchLits(words, off, ids, 0);
    assert off + 2 * k + 1 < |table| && table[off + 2 * k + 1] == AsU16(ids[k]) by {
      PatchedLits(words, off, ids, 0);
      assert off + 2 * (0 + k) + 1 == off + 2 * k + 1;
    }
    PatchedIsSame(words, pool, ids);
    HeaderSame(table, words, pool);
    LitAt(Link(table, pool), off, k);
  }

  lemma LitAt(l: Link, off: nat, k: nat)
    requires Valid(l) && k < StrsLen(l) && off == StrsOff(l)
    ensures off + 2 * k + 1 < |l.words| && StringDescAt(l, k).lit == l.words[off + 2 * k + 1]
  {
  }

  /** What numbering does to one class: every descriptor gets the row of its
      constant, and nothing but literal words changes. */
  ghost predicate NumberedTable(table: seq<u16>, words: seq<u16>, pool: seq<byte>, cls: seq<byte>, rows: seq<Row>) {
    && Valid(Link(words, pool)) && Valid(Link(table, pool))
    && SameButExternal(table, words) && table[22] == words[22]
    && forall k | 0 <= k < StrsLen(Link(words, pool)) ::
         && k < StrsLen(Link(table, pool))
         && StringDescAt(Link(table, pool), k).lit < |rows|
         && ConstantAt(Link(words, pool), cls, k).Ok?
         && ConstantAt(Link(words, pool), cls, k).value.bytes == rows[StringDescAt(Link(table, pool), k).lit].bytes
  }

  /** The row a descriptor names is the only one with its constant's bytes. */
  lemma EachConstantHasOneRow(table: seq<u16>, words: seq<u16>, pool: seq<byte>, cls: seq<byte>, rows: seq<Row>, k: nat)
    requires GoodRows(rows, pool) && NumberedTable(table, words, pool, cls, rows) && k < StrsLen(Link(words, pool))
    ensures k < StrsLen(Link(table, pool)) && ConstantAt(Link(words, pool), cls, k).Ok?
    ensures var lit, bytes := StringDescAt(Link(table, pool), k).lit, ConstantAt(Link(words, pool), cls, k).value.bytes;
      && RowOf(rows, bytes) == Some(lit)
      && forall j | 0 <= j < |rows| :: rows[j].bytes == bytes <==> j == lit
  {
    RowIsUnique(rows, pool, StringDescAt(Link(table, pool), k).lit);
  }

  lemma NumberClassHolds(words: seq<u16>, pool: seq<byte>, cls: seq<byte>, rows: seq<Row>)
    requires GoodRows(rows, pool) && NumberClass(words, pool, cls, rows).Ok?
    ensures var (rows', table) := NumberClass(words, pool, cls, rows).value;
      && GoodRows(rows', pool) && rows <= rows' && NumberedTable(table, words, pool, cls, rows')
  {
    var l := Link(words, pool);
    var constants := ConstantEach(l, cls);
    var num := NumberRows(rows, constants).value;
    ConstantsFromPool(l, cls);
    NumberedHolds(rows, constants, pool, num);
    PatchedIsSame(words, pool, num.ids);
    var table := PatchLits(words, StrsOff(l), num.ids, 0);
    HeaderSame(table, words, pool);
    forall k | 0 <= k < StrsLen(l)
      ensures k < StrsLen(Link(table, pool)) && StringDescAt(Link(table, pool), k).lit == num.ids[k]
      ensures num.ids[k] < |num.rows| && ConstantAt(l, cls, k).Ok?
      ensures ConstantAt(l, cls, k).value.bytes == num.rows[num.ids[k]].bytes
    {
      assert constants[k] == ConstantAt(l, cls, k);
      PatchedLit(words, pool, num.ids, k);
      SmallAsU16(num.ids[k]);
    }
  }

  lemma NumberedGrows(table: seq<u16>, words: seq<u16>, pool: seq<byte>, cls: seq<byte>, rows: seq<Row>, more: seq<Row>)
    requires NumberedTable(table, words, pool, cls, rows) && rows <= more
    ensures NumberedTable(table, words, pool, cls, more)
  {
  }

  lemma {:induction false} NumberAllHolds(links: seq<seq<u16>>, pool: seq<byte>, classes: seq<seq<byte>>, rows: seq<Row>)
    requires |classes| == |links| && GoodRows(rows, pool) && NumberAll(links, pool, classes, rows).Ok?
    ensures var n := NumberAll(links, pool, classes, rows).value;
      && GoodRows(n.rows, pool) && rows <= n.rows && |n.tables| == |links|
      && forall i | 0 <= i < |links| :: NumberedTable(n.tables[i], links[i], pool, classes[i], n.rows)
    decreases |links|
  {
    if links != [] {
      var (rows', table) := NumberClass(links[0], pool, classes[0], rows).value;
      NumberClassHolds(links[0], pool, classes[0], rows);
      NumberAllHolds(links[1..], pool, classes[1..], rows');
      var n, rest := NumberAll(links, pool, classes, rows).value, NumberAll(links[1..], pool, classes[1..], rows').value;
      forall i | 0 <= i < |links|
        ensures NumberedTable(n.tables[i], links[i], pool, classes[i], n.rows)
      {
        if i == 0 {
          NumberedGrows(table, links[0], pool, classes[0], rows', n.rows);
        } else {
          assert n.tables[i] == rest.tables[i - 1] && links[i] == links[1..][i - 1] && classes[i] == classes[1..][i - 1];
        }
      }
    }
  }

  // ---- the order of the rows ---------------------------------------------

  /** `known`, then each of `texts` not there yet, in order of first appearance. */
  function Firsts(known: seq<seq<byte>>, texts: seq<seq<byte>>): seq<seq<byte>>
    decreases |texts|
  {
    if texts == [] then known
    else Firsts(if texts[0] in known then known else known + [texts[0]], texts[1..])
  }

  function TextsOfRows(rows: seq<Row>): seq<seq<byte>> {
    seq(|rows|, k requires 0 <= k < |rows| => rows[k].bytes)
  }

  /** The bytes of these constants, as far as they can be read. */
  function ConstantTexts(constants: seq<Result<Row>>): seq<seq<byte>> {
    if constants == [] || constants[0].Err? then []
    else [constants[0].value.bytes] + ConstantTexts(constants[1..])
  }

  /** The constants of every class of the set, class after class. */
  function SetTexts(links: seq<seq<u16>>, pool: seq<byte>, classes: seq<seq<byte>>): seq<seq<byte>>
    requires |classes| == |links|
    decreases |links|
  {
    if links == [] then []
    else
      (match NewLink(links[0], pool)
       case Err(_) => []
       case Ok(l) => ConstantTexts(ConstantEach(l, classes[0])))
      + SetTexts(links[1..], pool, classes[1..])
  }

  lemma {:induction false} FirstsConcat(known: seq<seq<byte>>, a: seq<seq<byte>>, b: seq<seq<byte>>)
    ensures Firsts(known, a + b) == Firsts(Firsts(known, a), b)
    decreases |a|
  {
    if a == [] {
      assert a + b == b;
    } else {
      assert (a + b)[1..] == a[1..] + b;
      FirstsConcat(if a[0] in known then known else known + [a[0]], a[1..], b);
    }
  }

  lemma AddRowTexts(rows: seq<Row>, row: Row)
    requires AddRow(rows, row).Ok?
    ensures var known := TextsOfRows(rows);
      TextsOfRows(AddRow(rows, row).value) == if row.bytes in known then known else known + [row.bytes]
  {
    var known := TextsOfRows(rows);
    var id := RowOf(rows, row.bytes);
    if id.Some? {
      assert known[id.value] == row.bytes;
    } else {
      assert TextsOfRows(rows + [row]) == known + [row.bytes];
    }
  }

  lemma FirstsStep(known: seq<seq<byte>>, t: seq<byte>, texts: seq<seq<byte>>)
    ensures Firsts(known, [t] + texts) == Firsts(if t in known then known else known + [t], texts)
  {
    assert ([t] + texts)[1..] == texts;
  }

  lemma {:induction false} NumberedInOrder(rows: seq<Row>, constants: seq<Result<Row>>, num: Numbered)
    requires NumberRows(rows, constants) == Ok(num)
    ensures TextsOfRows(num.rows) == Firsts(TextsOfRows(rows), ConstantTexts(constants))
    decreases |constants|
  {
    if constants != [] {
      var row := constants[0].value;
      var rows' := AddRow(rows, row).value;
      AddRowTexts(rows, row);
      NumberedInOrder(rows', constants[1..], NumberRows(rows', constants[1..]).value);
      FirstsStep(TextsOfRows(rows), row.bytes, ConstantTexts(constants[1..]));
    }
  }

  /** The rows are the set's constants, each once, in order of first appearance. */
  lemma {:induction false} RowsInOrder(links: seq<seq<u16>>, pool: seq<byte>, classes: seq<seq<byte>>, rows: seq<Row>)
    requires |classes| == |links| && NumberAll(links, pool, classes, rows).Ok?
    ensures TextsOfRows(NumberAll(links, pool, classes, rows).value.rows)
            == Firsts(TextsOfRows(rows), SetTexts(links, pool, classes))
    decreases |links|
  {
    if links != [] {
      var constants := ConstantEach(Link(links[0], pool), classes[0]);
      var num := NumberRows(rows, constants).value;
      NumberedInOrder(rows, constants, num);
      RowsInOrder(links[1..], pool, classes[1..], num.rows);
      FirstsConcat(TextsOfRows(rows), ConstantTexts(constants), SetTexts(links[1..], pool, classes[1..]));
    }
  }
}
