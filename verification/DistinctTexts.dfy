/** Lists of distinct strings that grow one by one under a bound: the section's
    pool and its literals. Whether they fit depends on the strings alone, not on
    the order they come in. */
module DistinctTexts {
  import opened Bytes
  import opened BuildSpec
  import opened ClassFile
  import opened LinkTable
  import opened Numbering
  import opened Pooling
  import opened PooledSets
  import opened Section
  import opened SectionBuild
  import opened Utf8Pool

  // ---- distinct lists ----------------------------------------------------

  lemma {:induction false} FirstsHold(known: seq<seq<byte>>, texts: seq<seq<byte>>)
    requires Distinct(known)
    ensures Distinct(Firsts(known, texts)) && known <= Firsts(known, texts)
    ensures forall s :: s in Firsts(known, texts) <==> s in known || s in texts
    decreases |texts|
  {
    if texts != [] {
      var more := if texts[0] in known then known else known + [texts[0]];
      FirstsHold(more, texts[1..]);
      assert texts == [texts[0]] + texts[1..];
    }
  }

  function Without<T>(s: seq<T>, k: nat): seq<T>
    requires k < |s|
  {
    s[..k] + s[k + 1..]
  }

  lemma WithoutHolds<T(!new)>(s: seq<T>, k: nat)
    requires k < |s| && Distinct(s)
    ensures Distinct(Without(s, k)) && forall x :: x in Without(s, k) <==> x in s && x != s[k]
  {
    var w := Without(s, k);
    forall x
      ensures x in w <==> x in s && x != s[k]
    {
      if x in s && x != s[k] {
        var i :| 0 <= i < |s| && s[i] == x;
        assert w[if i < k then i else i - 1] == x;
      }
    }
  }

  lemma {:induction false} SizeWithout(s: seq<seq<byte>>, k: nat)
    requires k < |s|
    ensures PoolSize(s) == (2 + |s[k]| + 3) / 4 * 4 + PoolSize(Without(s, k))
    decreases k
  {
    if k == 0 {
      assert Without(s, 0) == s[1..];
    } else {
      SizeWithout(s[1..], k - 1);
      assert Without(s, k)[1..] == Without(s[1..], k - 1);
    }
  }

  lemma HasNone(s: seq<seq<byte>>)
    ensures (forall x :: x !in s) ==> s == []
  {
    if s != [] {
      assert s[0] in s;
    }
  }

  /** Distinct lists of the same strings are of one length and one size. */
  lemma {:induction false} SameStrings(a: seq<seq<byte>>, b: seq<seq<byte>>)
    requires Distinct(a) && Distinct(b) && forall s :: s in a <==> s in b
    ensures |a| == |b| && PoolSize(a) == PoolSize(b)
    decreases |a|
  {
    if a == [] {
      HasNone(b);
    } else {
      assert a[0] in a;
      var k: nat :| k < |b| && b[k] == a[0];
      WithoutHolds(a, 0);
      WithoutHolds(b, k);
      SameStrings(Without(a, 0), Without(b, k));
      SizeWithout(a, 0);
      SizeWithout(b, k);
    }
  }

  lemma {:induction false} SizeConcat(a: seq<seq<byte>>, b: seq<seq<byte>>)
    ensures PoolSize(a + b) == PoolSize(a) + PoolSize(b)
    decreases |a|
  {
    if a == [] {
      assert a + b == b;
    } else {
      assert (a + b)[1..] == a[1..] + b;
      SizeConcat(a[1..], b);
    }
  }

  lemma SizeOfOne(s: seq<byte>)
    ensures PoolSize([s]) == (2 + |s| + 3) / 4 * 4
  {
    assert [s][1..] == [];
  }

  // ---- the pool ----------------------------------------------------------

  lemma {:induction false} PoolBytesSize(entries: seq<Text>)
    ensures |PoolBytes(entries)| == PoolSize(entries)
    decreases |entries|
  {
    if entries != [] {
      var front, last := entries[..|entries| - 1], entries[|entries| - 1];
      PoolBytesSize(front);
      EntryLen(last);
      SizeConcat(front, [last]);
      SizeOfOne(last);
      assert entries == front + [last];
    }
  }

  /** Interning one more string: refused exactly when the pool with it is too long. */
  lemma InternedFits(entries: seq<Text>, s: Text)
    requires PoolSize(entries) <= MAX_POOL_BYTES
    ensures s in entries ==> Interned(entries, s) == Ok(entries)
    ensures s !in entries ==>
      (Interned(entries, s).Ok? <==> PoolSize(entries + [s]) <= 4 * 65535)
      && (Interned(entries, s).Ok? ==> Interned(entries, s) == Ok(entries + [s]))
  {
    PoolBytesSize(entries);
    PoolAligned(entries);
    AlignShift(|PoolBytes(entries)|, 2 + |s|);
    SizeConcat(entries, [s]);
    SizeOfOne(s);
  }

  lemma PrefixSize(a: seq<seq<byte>>, b: seq<seq<byte>>)
    requires a <= b
    ensures PoolSize(a) <= PoolSize(b)
  {
    SizeConcat(a, b[|a|..]);
    assert a + b[|a|..] == b;
  }

  lemma {:induction false} InternsExactly(entries: seq<Text>, texts: seq<Text>)
    requires Distinct(entries) && PoolSize(entries) <= 4 * 65535
    ensures InternAll(entries, texts).Ok? <==> PoolSize(Firsts(entries, texts)) <= 4 * 65535
    ensures InternAll(entries, texts).Ok? ==> InternAll(entries, texts).value.0 == Firsts(entries, texts)
    decreases |texts|
  {
    if texts != [] {
      var s := texts[0];
      var more: seq<Text> := if s in entries then entries else entries + [s];
      InternedFits(entries, s);
      FirstsHold(more, texts[1..]);
      PrefixSize(more, Firsts(more, texts[1..]));
      if Interned(entries, s).Ok? {
        InternsExactly(more, texts[1..]);
      }
    }
  }

  /** The strings of every class, class after class. */
  function AllTexts(classes: seq<seq<byte>>): seq<Text> {
    if classes == [] then []
    else (if WalkCp(classes[0], Inline).outcome.Ok? then Texts(classes[0]) else []) + AllTexts(classes[1..])
  }

  ghost predicate AllWalk(classes: seq<seq<byte>>) {
    forall i | 0 <= i < |classes| :: WalkCp(classes[i], Inline).outcome.Ok?
  }

  lemma PoolsOne(cls: seq<byte>, entries: seq<Text>)
    ensures PoolClass(cls, entries).Ok? <==> WalkCp(cls, Inline).outcome.Ok? && InternAll(entries, Texts(cls)).Ok?
    ensures PoolClass(cls, entries).Ok? ==> PoolClass(cls, entries).value.entries == InternAll(entries, Texts(cls)).value.0
  {
    hide WalkCp, InternAll, CutSpans;
    if WalkCp(cls, Inline).outcome.Ok? {
      SpansInOrder(cls);
    }
  }

  lemma {:induction false} PoolsExactly(classes: seq<seq<byte>>, entries: seq<Text>)
    requires Distinct(entries) && PoolSize(entries) <= 4 * 65535
    ensures PoolAll(classes, entries).Ok? <==> AllWalk(classes) && PoolSize(Firsts(entries, AllTexts(classes))) <= 4 * 65535
    ensures PoolAll(classes, entries).Ok? ==> PoolAll(classes, entries).value.entries == Firsts(entries, AllTexts(classes))
    decreases |classes|
  {
    hide WalkCp, PoolClass, Texts, InternAll;
    if classes != [] {
      var cls := classes[0];
      PoolsOne(cls, entries);
      WalkCons(classes);
      if WalkCp(cls, Inline).outcome.Ok? {
        var texts, rest := Texts(cls), AllTexts(classes[1..]);
        FirstsHold(entries, texts);
        var more := StillTexts(entries, texts);
        InternsExactly(entries, texts);
        FirstsConcat(entries, texts, rest);
        FirstsHold(more, rest);
        PrefixSize(more, Firsts(more, rest));
        if PoolSize(more) <= 4 * 65535 {
          PoolsExactly(classes[1..], more);
        }
      }
    }
  }

  lemma {:induction false} StillTexts(entries: seq<Text>, texts: seq<Text>) returns (more: seq<Text>)
    ensures more == Firsts(entries, texts)
    decreases |texts|
  {
    if texts == [] {
      more := entries;
    } else {
      more := StillTexts(if texts[0] in entries then entries else entries + [texts[0]], texts[1..]);
    }
  }

  lemma WalkCons(classes: seq<seq<byte>>)
    requires classes != []
    ensures AllWalk(classes) <==> WalkCp(classes[0], Inline).outcome.Ok? && AllWalk(classes[1..])
  {
    hide WalkCp;
    if WalkCp(classes[0], Inline).outcome.Ok? && AllWalk(classes[1..]) {
      forall i | 0 <= i < |classes|
        ensures WalkCp(classes[i], Inline).outcome.Ok?
      {
        assert i > 0 ==> classes[i] == classes[1..][i - 1];
      }
    }
  }

  // ---- the literals ------------------------------------------------------

  ghost predicate AllRead(constants: seq<Result<Row>>) { forall k | 0 <= k < |constants| :: constants[k].Ok? }

  lemma {:induction false} NumbersExactly(rows: seq<Row>, constants: seq<Result<Row>>)
    requires AllRead(constants) && |rows| <= 0x3000 && Distinct(TextsOfRows(rows))
    ensures NumberRows(rows, constants).Ok? <==> |Firsts(TextsOfRows(rows), ConstantTexts(constants))| <= 0x3000
    ensures NumberRows(rows, constants).Ok? ==>
      TextsOfRows(NumberRows(rows, constants).value.rows) == Firsts(TextsOfRows(rows), ConstantTexts(constants))
    decreases |constants|
  {
    if constants != [] {
      var row, known := constants[0].value, TextsOfRows(rows);
      var more := if row.bytes in known then known else known + [row.bytes];
      FirstsStep(known, row.bytes, ConstantTexts(constants[1..]));
      FirstsHold(more, ConstantTexts(constants[1..]));
      RowKnown(rows, row.bytes);
      if AddRow(rows, row).Ok? {
        AddRowTexts(rows, row);
        NumbersExactly(AddRow(rows, row).value, constants[1..]);
      }
    }
  }

  lemma RowKnown(rows: seq<Row>, bytes: seq<byte>)
    ensures RowOf(rows, bytes).Some? <==> bytes in TextsOfRows(rows)
  {
    var known := TextsOfRows(rows);
    if RowOf(rows, bytes).Some? {
      assert known[RowOf(rows, bytes).value] == bytes;
    }
  }

  /** Every table reads all its constants. */
  ghost predicate AllNumberable(links: seq<seq<u16>>, pool: seq<byte>, classes: seq<seq<byte>>) {
    && |classes| == |links|
    && forall i | 0 <= i < |links| :: NewLink(links[i], pool).Ok? && AllRead(ConstantEach(Link(links[i], pool), classes[i]))
  }

  lemma {:induction false} NumbersAllExactly(links: seq<seq<u16>>, pool: seq<byte>, classes: seq<seq<byte>>, rows: seq<Row>)
    requires AllNumberable(links, pool, classes) && |rows| <= 0x3000 && Distinct(TextsOfRows(rows))
    ensures NumberAll(links, pool, classes, rows).Ok? <==> |Firsts(TextsOfRows(rows), SetTexts(links, pool, classes))| <= 0x3000
    decreases |links|
  {
    hide ConstantEach, NewLink, AllRead, NumberRows, Firsts;
    if links == [] {
      NothingMore(TextsOfRows(rows));
    } else {
      var constants := ConstantEach(Link(links[0], pool), classes[0]);
      var known, texts := TextsOfRows(rows), SetTexts(links[1..], pool, classes[1..]);
      LinkIs(links[0], pool);
      NumbersExactly(rows, constants);
      FirstsConcat(known, ConstantTexts(constants), texts);
      FirstsHold(known, ConstantTexts(constants));
      FirstsHold(Firsts(known, ConstantTexts(constants)), texts);
      if NumberRows(rows, constants).Ok? {
        NumbersAllExactly(links[1..], pool, classes[1..], NumberRows(rows, constants).value.rows);
      }
    }
  }

  lemma NothingMore(known: seq<seq<byte>>)
    ensures Firsts(known, []) == known
  {
  }

  lemma LinkIs(words: seq<u16>, pool: seq<byte>)
    ensures NewLink(words, pool).Ok? ==> NewLink(words, pool) == Ok(Link(words, pool)) && Valid(Link(words, pool))
  {
  }
}
