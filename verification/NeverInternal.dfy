/** `LinkError::Internal` is unreachable: neither building a section nor
    validating one ends in it, whatever the input. */
module NeverInternal {
  import opened BuiltIsAccepted
  import opened BuiltSection
  import opened Bytes
  import opened ClassFile
  import opened DeriveFacts
  import opened ExternalWords
  import opened LinkTable
  import opened PooledSets
  import opened Pooling
  import opened Section
  import opened SectionBuild
  import opened Utf8Pool
  import Linking
  import SuperChains

  lemma {:induction false} FirstErrNotInternal(checks: seq<Result<()>>)
    requires forall k | 0 <= k < |checks| :: NotInternal(checks[k])
    ensures NotInternal(FirstErr(checks))
    decreases |checks|
  {
    if checks != [] {
      FirstErrNotInternal(checks[1..]);
    }
  }

  lemma CollectNotInternal<T>(rs: seq<Result<T>>)
    requires forall k | 0 <= k < |rs| :: NotInternal(rs[k])
    ensures NotInternal(Collect(rs))
  {
    CollectOk(rs);
  }

  // ---- validating --------------------------------------------------------

  lemma {:induction false} TilesNotInternal(pool: seq<byte>, at: nat)
    ensures NotInternal(CheckTiles(pool, at))
    decreases |pool| - at
  {
    if at < |pool| && Be16(pool, at).Some? {
      TilesNotInternal(pool, Align4(at + 2 + Be16(pool, at).value));
    }
  }

  lemma ClassCheckNotInternal(env: Env, s: ClassSection, i: nat)
    requires Parsed(s)
    ensures NotInternal(CheckClass(env, s, i))
  {
    if ClassChecked(s, i).Ok? {
      var linked := ClassChecked(s, i).value;
      CheckedIsValid(s, i);
      LinkedCheckNotInternal(env, s, i, linked);
    }
  }

  lemma LinkedCheckNotInternal(env: Env, s: ClassSection, i: nat, linked: Linked)
    requires Parsed(s) && Valid(linked.link)
    ensures NotInternal(CheckLinked(env, s, i, linked))
  {
    Linking.ValidatorNeverInternal(env, linked.link, linked.cls);
    StringsNotInternal(s, linked);
  }

  lemma StringsNotInternal(s: ClassSection, linked: Linked)
    requires Parsed(s) && Valid(linked.link)
    ensures NotInternal(CheckStrings(s, linked))
  {
    FirstErrNotInternal(StringVerdicts(s, linked));
  }

  lemma {:induction false} VerdictNotInternal(s: SuperChains.Supers, i: nat)
    requires SuperChains.Closed(s) && i <= |s|
    ensures NotInternal(SuperChains.Verdict(s, i))
    decreases |s| - i
  {
    if i < |s| {
      VerdictNotInternal(s, i + 1);
    }
  }

  lemma EntryNotInternal(s: ClassSection, k: nat)
    requires Parsed(s) && k < s.count
    ensures NotInternal(CheckEntry(s, k, SeenBefore(s, k)))
  {
    var e := IndexAt(s, k);
    CheckedNotInternal(s, e.idx);
    if k > 0 && ClassChecked(s, e.idx).Ok? {
      CheckedIsValid(s, e.idx);
      AscentNotInternal(s, k, LinkedName(ClassChecked(s, e.idx).value.link));
    }
  }

  lemma CheckedNotInternal(s: ClassSection, i: nat)
    requires Parsed(s)
    ensures NotInternal(ClassChecked(s, i))
  {
  }

  lemma AscentNotInternal(s: ClassSection, k: nat, name: Option<seq<byte>>)
    requires Parsed(s) && 0 < k < s.count
    ensures NotInternal(CheckAscent(s, k, name))
  {
    CheckedNotInternal(s, IndexAt(s, k - 1).idx);
  }

  /** Validating never ends in `Internal`. */
  lemma ValidateNeverInternal(env: Env, s: ClassSection)
    requires Parsed(s)
    ensures NotInternal(Validate(env, s))
  {
    TilesNotInternal(PoolOf(s), 0);
    FirstErrNotInternal(LiteralVerdicts(env, s));
    forall i | 0 <= i < s.count
      ensures NotInternal(ClassVerdicts(env, s)[i])
    {
      ClassCheckNotInternal(env, s, i);
    }
    FirstErrNotInternal(ClassVerdicts(env, s));
    if FirstErr(ClassVerdicts(env, s)).Ok? {
      CheckedSupersClosed(env, s);
      VerdictNotInternal(SupersOf(s), 0);
    }
    forall k | 0 <= k < s.count
      ensures NotInternal(IndexVerdicts(s)[k])
    {
      EntryNotInternal(s, k);
    }
    FirstErrNotInternal(IndexVerdicts(s));
  }

  // ---- building ----------------------------------------------------------

  lemma {:induction false} InternAllNotInternal(entries: seq<Text>, texts: seq<Text>)
    ensures NotInternal(InternAll(entries, texts))
    decreases |texts|
  {
    if texts != [] && Interned(entries, texts[0]).Ok? {
      InternAllNotInternal(Interned(entries, texts[0]).value, texts[1..]);
    }
  }

  lemma {:induction false} SpansNotInternal(cls: seq<byte>, visits: seq<Visit>)
    ensures NotInternal(SpansOf(cls, visits))
    decreases |visits|
  {
    if visits != [] {
      SpansNotInternal(cls, visits[1..]);
    }
  }

  lemma PoolClassNotInternal(cls: seq<byte>, entries: seq<Text>)
    ensures NotInternal(PoolClass(cls, entries))
  {
    var w := WalkCp(cls, Inline);
    Linking.WalkVisits(cls, Inline);
    SpansNotInternal(cls, w.visits);
    if w.outcome.Ok? {
      SpansInOrder(cls);
      InternAllNotInternal(entries, TextsOf(cls, SpansOf(cls, w.visits).value, 0));
    }
  }

  lemma {:induction false} PoolAllNotInternal(classes: seq<seq<byte>>, entries: seq<Text>)
    ensures NotInternal(PoolAll(classes, entries))
    decreases |classes|
  {
    if classes != [] {
      PoolClassNotInternal(classes[0], entries);
      if PoolClass(classes[0], entries).Ok? {
        PoolAllNotInternal(classes[1..], PoolClass(classes[0], entries).value.entries);
      }
    }
  }

  /** The inline walk that pooled a class and the walk of its pooled form see
      as many `Utf8`s, so the refs never run out. */
  lemma LinkNotInternal(env: Env, cls: seq<byte>, pc: PooledClass, all: seq<Text>, pool: seq<byte>)
    requires PooledInto(cls, pc, all)
    ensures NotInternal(Linking.LinkPooled(env, pc.bytes, Refs16(pc.refs), pool))
  {
    var before :| WellFormed(before) && PoolClass(cls, before) == Ok(pc) && pc.entries <= all;
    PooledWalksAlike(cls, before);
    Linking.BuilderNeverInternal(env, pc.bytes, Refs16(pc.refs), pool);
  }

  lemma NameNotInternal(env: Env, cls: seq<byte>, refs: seq<u16>, pool: seq<byte>, expected: Option<seq<seq<byte>>>, i: nat)
    requires Linking.LinkPooled(env, cls, refs, pool).Ok?
    ensures NotInternal(CheckName(Linking.LinkPooled(env, cls, refs, pool).value, pool, expected, i))
  {
    Linking.BuiltHolds(env, cls, refs, pool);
    var p := Linking.PlanLink(cls, refs, pool).value;
    Linking.PlanPrepared(cls, refs, pool);
    Linking.HeldNames(env, cls, p, Linking.LinkPooled(env, cls, refs, pool).value);
  }

  lemma {:induction false} NumberRowsNotInternal(rows: seq<Row>, constants: seq<Result<Row>>)
    requires forall j | 0 <= j < |constants| :: constants[j].Ok?
    ensures NotInternal(NumberRows(rows, constants))
    decreases |constants|
  {
    if constants != [] && AddRow(rows, constants[0].value).Ok? {
      NumberRowsNotInternal(AddRow(rows, constants[0].value).value, constants[1..]);
    }
  }

  /** Every descriptor of the table leads to its constant. */
  ghost predicate Numberable(words: seq<u16>, pool: seq<byte>, cls: seq<byte>) {
    Valid(Link(words, pool)) && forall j | 0 <= j < StrsLen(Link(words, pool)) :: ConstantAt(Link(words, pool), cls, j).Ok?
  }

  lemma {:induction false} NumberAllNotInternal(links: seq<seq<u16>>, pool: seq<byte>, classes: seq<seq<byte>>, rows: seq<Row>)
    requires |classes| == |links| && forall i | 0 <= i < |links| :: Numberable(links[i], pool, classes[i])
    ensures NotInternal(NumberAll(links, pool, classes, rows))
    decreases |links|
  {
    if links != [] {
      assert Numberable(links[0], pool, classes[0]);
      NumberRowsNotInternal(rows, ConstantEach(Link(links[0], pool), classes[0]));
      if NumberClass(links[0], pool, classes[0], rows).Ok? {
        forall i | 0 <= i < |links[1..]|
          ensures Numberable(links[1..][i], pool, classes[1..][i])
        {
          assert links[1..][i] == links[i + 1] && classes[1..][i] == classes[i + 1];
        }
        NumberAllNotInternal(links[1..], pool, classes[1..], NumberClass(links[0], pool, classes[0], rows).value.0);
      }
    }
  }

  lemma StringIsConstant(l: Link, cls: seq<byte>, k: nat)
    requires Valid(l) && k < StrsLen(l) && StringBytes(l, cls, StringDescAt(l, k).cpOff).Some?
    ensures ConstantAt(l, cls, k).Ok?
  {
  }

  /** A linked table, its superclass position patched or not, can be numbered. */
  lemma LinkedNumbers(env: Env, cls: seq<byte>, refs: seq<u16>, pool: seq<byte>, words: seq<u16>)
    requires Linking.LinkPooled(env, cls, refs, pool).Ok?
    requires Linking.SameButExternal(words, Linking.LinkPooled(env, cls, refs, pool).value)
    ensures Numberable(words, pool, cls)
  {
    var table := Linking.LinkPooled(env, cls, refs, pool).value;
    var p := Linking.PlanLink(cls, refs, pool).value;
    Linking.BuiltHolds(env, cls, refs, pool);
    Linking.PlanPrepared(cls, refs, pool);
    Linking.DerivedHasPool(env, cls, refs, pool);
    Linking.HeaderShows(env, cls, p, table);
    Linking.HeaderLinks(p, table, pool);
    HeaderSame(words, table, pool);
    forall k | 0 <= k < StrsLen(Link(words, pool))
      ensures ConstantAt(Link(words, pool), cls, k).Ok?
    {
      Linking.HeldString(env, cls, p, table, k);
      StringSame(words, table, pool, cls, k);
      StringIsConstant(Link(words, pool), cls, k);
    }
  }

  lemma PatchKeepsSame(words: seq<u16>, pool: seq<byte>, names: seq<seq<byte>>)
    requires Valid(Link(words, pool))
    ensures PatchSuper(words, pool, names).Ok?
    ensures Linking.SameButExternal(PatchSuper(words, pool, names).value, words)
  {
    if SuperPosition(Link(words, pool), names).Some? {
      PatchSame(words, 22, PatchSuper(words, pool, names).value[22]);
    }
  }

  lemma LinkedIsValid(env: Env, cls: seq<byte>, refs: seq<u16>, pool: seq<byte>)
    requires Linking.LinkPooled(env, cls, refs, pool).Ok?
    ensures Valid(Link(Linking.LinkPooled(env, cls, refs, pool).value, pool))
  {
    Linking.BuiltHolds(env, cls, refs, pool);
    Linking.PlanPrepared(cls, refs, pool);
    Linking.HeaderShows(env, cls, Linking.PlanLink(cls, refs, pool).value, Linking.LinkPooled(env, cls, refs, pool).value);
  }

  lemma IndexNotInternal(env: Env, names: seq<seq<byte>>)
    ensures NotInternal(ClassIndex(env, names))
  {
    if |names| <= MAX_CLASSES {
      SortedNamesInRange(env, names);
      FirstErrNotInternal(PairVerdicts(names, SortIndex(UnsortedIndex(env, names))));
    }
  }

  lemma PatchedNumbers(env: Env, pooled: seq<PooledClass>, pool: seq<byte>, links: seq<seq<u16>>, names: seq<seq<byte>>)
    requires LinkAll(env, pooled, pool) == Ok(links)
    ensures |links| == |pooled| && PatchSupers(links, pool, names).Ok? && |PatchSupers(links, pool, names).value| == |links|
    ensures forall i | 0 <= i < |links| :: Numberable(PatchSupers(links, pool, names).value[i], pool, pooled[i].bytes)
  {
    LinkedUnplaced(env, pooled, pool);
    forall i | 0 <= i < |links|
      ensures PatchEach(links, pool, names)[i].Ok?
      ensures Numberable(PatchEach(links, pool, names)[i].value, pool, pooled[i].bytes)
    {
      LinkedIsValid(env, pooled[i].bytes, Refs16(pooled[i].refs), pool);
      PatchKeepsSame(links[i], pool, names);
      LinkedNumbers(env, pooled[i].bytes, Refs16(pooled[i].refs), pool, PatchEach(links, pool, names)[i].value);
    }
    CollectOk(PatchEach(links, pool, names));
  }

  lemma AssembleNotInternal(env: Env, pooled: seq<PooledClass>, pool: seq<byte>, links: seq<seq<u16>>, expected: Option<seq<seq<byte>>>)
    requires LinkAll(env, pooled, pool) == Ok(links) && |BytesOf(pooled)| == |links| && Unplaced(links)
    ensures NotInternal(Assemble(env, BytesOf(pooled), links, pool, expected))
  {
    LinkedUnplaced(env, pooled, pool);
    forall i | 0 <= i < |links|
      ensures NotInternal(NameEach(links, pool, expected)[i])
    {
      NameNotInternal(env, pooled[i].bytes, Refs16(pooled[i].refs), pool, expected, i);
    }
    CollectNotInternal(NameEach(links, pool, expected));
    if NamesOf(links, pool, expected).Ok? {
      var names := NamesOf(links, pool, expected).value;
      CollectOk(NameEach(links, pool, expected));
      IndexNotInternal(env, names);
      PatchedNumbers(env, pooled, pool, links, names);
      if ClassIndex(env, names).Ok? {
        var patched := PatchSupers(links, pool, names).value;
        PatchedSupersClosed(links, pool, names);
        VerdictNotInternal(SupersIn(patched, pool), 0);
        NumberAllNotInternal(patched, pool, BytesOf(pooled), []);
      }
    }
  }

  /** Building never ends in `Internal`. */
  lemma BuildNeverInternal(env: Env, classes: seq<seq<byte>>, expected: Option<seq<seq<byte>>>)
    ensures NotInternal(BuildSection(env, classes, expected))
  {
    PoolAllNotInternal(classes, [[]]);
    if |classes| <= MAX_CLASSES && PoolAll(classes, [[]]).Ok? {
      var pooled := PoolAll(classes, [[]]).value;
      var pool := PoolBytes(pooled.entries);
      FreshPool();
      PoolAllHolds(classes, [[]]);
      forall i | 0 <= i < |pooled.classes|
        ensures NotInternal(LinkEach(env, pooled.classes, pool)[i])
      {
        LinkNotInternal(env, classes[i], pooled.classes[i], pooled.entries, pool);
      }
      CollectNotInternal(LinkEach(env, pooled.classes, pool));
      if LinkAll(env, pooled.classes, pool).Ok? {
        LinkedUnplaced(env, pooled.classes, pool);
        AssembleNotInternal(env, pooled.classes, pool, LinkAll(env, pooled.classes, pool).value, expected);
      }
    }
  }

  /** Laying a set out never fails: no offset it writes passes 32 bits. */
  lemma LayingOutNeverFails(env: Env, classes: seq<seq<byte>>, expected: Option<seq<seq<byte>>>)
    ensures BuildSection(env, classes, expected).Ok? <==> Prepare(env, classes, expected).Ok?
  {
    if Prepare(env, classes, expected).Ok? {
      var b := PreparedFrom(env, classes, expected);
      BuiltIsSized(env, classes, expected, b);
    }
  }
}
