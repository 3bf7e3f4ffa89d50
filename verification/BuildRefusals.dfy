/** What `build_section` answers when it does not build a set whose every class
    can be read: the first thing wrong, by its own name. */
module BuildRefusals {
  import opened BuildExact
  import opened BuildSpec
  import opened Bytes
  import opened ClassFile
  import opened DistinctTexts
  import opened LinkTable
  import opened PooledSets
  import opened Pooling
  import opened Section
  import opened SectionBuild
  import opened Utf8Pool
  import Linking
  import NeverInternal
  import SuperChains

  // ---- the first refusal -------------------------------------------------

  lemma {:induction false} CollectFirst<T>(rs: seq<Result<T>>) returns (i: nat)
    requires Collect(rs).Err?
    ensures i < |rs| && rs[i].Err? && Collect(rs).error == rs[i].error && forall j | 0 <= j < i :: rs[j].Ok?
    decreases |rs|
  {
    if rs[0].Err? {
      i := 0;
    } else {
      var k := CollectFirst(rs[1..]);
      i := k + 1;
      forall j | 0 <= j < i
        ensures rs[j].Ok?
      {
        assert j > 0 ==> rs[j] == rs[1..][j - 1];
      }
    }
  }

  // ---- names -------------------------------------------------------------

  predicate NotExpected(rs: seq<Reading>, expected: Option<seq<seq<byte>>>, i: nat)
    requires i < |rs|
  {
    expected.Some? && !(i < |expected.value| && NameIn(rs[i]) == Some(expected.value[i]))
  }

  lemma MismatchNamed(env: Env, classes: seq<seq<byte>>, pooled: seq<PooledClass>, all: seq<Utf8Pool.Text>, links: seq<seq<u16>>,
                      rs: seq<Reading>, expected: Option<seq<seq<byte>>>) returns (i: nat)
    requires SetLinked(env, classes, pooled, all, links, rs) && !AsExpected(rs, expected)
    ensures i < |rs| && NamesOf(links, PoolBytes(all), expected) == Err(NameMismatch(i))
    ensures NotExpected(rs, expected, i) && forall j | 0 <= j < i :: !NotExpected(rs, expected, j)
  {
    hide LinkedAs, CheckName, NameIn;
    var each := NameEach(links, PoolBytes(all), expected);
    NamesExactly(env, classes, pooled, all, links, rs, expected);
    i := CollectFirst(each);
    forall j | 0 <= j < |rs|
      ensures each[j].Err? <==> NotExpected(rs, expected, j)
      ensures each[j].Err? ==> each[j] == Err(NameMismatch(AsU16(j)))
    {
      NameChecks(env, classes[j], pooled[j], all, links[j], rs[j], expected, j);
    }
    SmallAsU16(i);
  }

  // ---- hashes ------------------------------------------------------------

  lemma {:induction false} InsertKeepsDistinct(index: seq<IndexEntry>, e: IndexEntry)
    requires Distinct(index) && e !in index
    ensures Distinct(InsertEntry(index, e)) && forall x :: x in InsertEntry(index, e) <==> x in index || x == e
    decreases |index|
  {
    if index != [] && !Before(e, index[0]) {
      InsertKeepsDistinct(index[1..], e);
      assert index == [index[0]] + index[1..];
      assert index[0] !in InsertEntry(index[1..], e);
    }
  }

  lemma {:induction false} SortKeepsDistinct(index: seq<IndexEntry>)
    requires Distinct(index)
    ensures Distinct(SortIndex(index)) && forall x :: x in SortIndex(index) <==> x in index
    decreases |index|
  {
    if index != [] {
      var front, last := index[..|index| - 1], index[|index| - 1];
      SortKeepsDistinct(front);
      InsertKeepsDistinct(SortIndex(front), last);
      assert index == front + [last];
    }
  }

  /** Two classes share a hash, and the refusal says whether a name too. */
  lemma ClashNamed(env: Env, names: seq<seq<byte>>) returns (a: nat, b: nat)
    requires |names| <= 4096 && !Apart(env, names)
    ensures a < b < |names| && env.nameHash(names[a]) == env.nameHash(names[b])
    ensures ClassIndex(env, names) == Err(if names[a] == names[b] then DuplicateClass(a, b) else HashCollision(a, b))
  {
    var unsorted := UnsortedIndex(env, names);
    var index := SortIndex(unsorted);
    IndexesExactly(env, names);
    SortedNamesInRange(env, names);
    SortSorts(unsorted);
    forall i, j | 0 <= i < j < |unsorted|
      ensures unsorted[i] != unsorted[j]
    {
      SmallAsU16(i);
      SmallAsU16(j);
    }
    SortKeepsDistinct(unsorted);
    var k := FirstErrAt(PairVerdicts(names, index));
    assert Before(index[k], index[k + 1]) && index[k] != index[k + 1];
    assert index[k] in index && index[k + 1] in index;
    a, b := index[k].idx, index[k + 1].idx;
  }

  // ---- superclasses ------------------------------------------------------

  /** One can climb from class `i` for `n` steps. */
  ghost predicate CanClimb(rs: seq<Reading>, i: nat, n: nat) { exists way :: |way| == n + 1 && Climbs(rs, way, i) }

  ghost predicate ClimbsForever(rs: seq<Reading>, i: nat) { forall n: nat :: CanClimb(rs, i, n) }

  lemma ClimbIsAncestor(rs: seq<Reading>, supers: SuperChains.Supers, i: nat, n: nat)
    requires SuperChains.Closed(supers) && Placed(rs, supers) && i < |rs|
    ensures SuperChains.Ancestor(supers, i, n).Some? <==> CanClimb(rs, i, n)
  {
    hide NameIn, SuperIn;
    if SuperChains.Ancestor(supers, i, n).Some? {
      ChainIsWay(rs, supers, i, n);
    }
    if way :| |way| == n + 1 && Climbs(rs, way, i) {
      WayIsAncestors(rs, supers, way, n);
    }
  }

  lemma ForeverIsNever(rs: seq<Reading>, supers: SuperChains.Supers, i: nat)
    requires SuperChains.Closed(supers) && Placed(rs, supers) && i < |rs|
    ensures SuperChains.NeverLeaves(supers, i) <==> ClimbsForever(rs, i)
  {
    hide CanClimb, SuperChains.Ancestor, Placed;
    PlacedSize(rs, supers);
    forall n: nat
      ensures SuperChains.Ancestor(supers, i, n).Some? <==> CanClimb(rs, i, n)
    {
      ClimbIsAncestor(rs, supers, i, n);
    }
  }

  lemma CycleNamed(rs: seq<Reading>, supers: SuperChains.Supers) returns (i: nat)
    requires SuperChains.Closed(supers) && Placed(rs, supers) && |rs| <= 4096 && SuperChains.Verdict(supers, 0).Err?
    ensures i < |rs| && SuperChains.Verdict(supers, 0) == Err(SuperCycle(i))
    ensures ClimbsForever(rs, i) && forall j | 0 <= j < i :: !ClimbsForever(rs, j)
  {
    hide SuperChains.NeverLeaves, ClimbsForever, Placed;
    SuperChains.RefusalNamesLeast(supers);
    i :| 0 <= i < |supers| && SuperChains.Verdict(supers, 0) == Err(SuperCycle(AsU16(i)))
         && SuperChains.NeverLeaves(supers, i) && forall k | 0 <= k < i :: !SuperChains.NeverLeaves(supers, k);
    PlacedSize(rs, supers);
    SmallAsU16(i);
    forall j | 0 <= j <= i
      ensures SuperChains.NeverLeaves(supers, j) <==> ClimbsForever(rs, j)
    {
      ForeverIsNever(rs, supers, j);
    }
  }

  lemma PlacedSize(rs: seq<Reading>, supers: SuperChains.Supers)
    requires Placed(rs, supers)
    ensures |rs| == |supers|
  {
    hide NameIn, SuperIn;
  }

  // ---- bounds ------------------------------------------------------------

  lemma {:induction false} RowsRefused(rows: seq<Row>, constants: seq<Result<Row>>)
    requires AllRead(constants) && NumberRows(rows, constants).Err?
    ensures NumberRows(rows, constants) == Err(TooManyLiterals)
    decreases |constants|
  {
    if AddRow(rows, constants[0].value).Ok? {
      RowsRefused(AddRow(rows, constants[0].value).value, constants[1..]);
    }
  }

  lemma {:induction false} NumbersRefused(links: seq<seq<u16>>, pool: seq<byte>, classes: seq<seq<byte>>, rows: seq<Row>)
    requires AllNumberable(links, pool, classes) && NumberAll(links, pool, classes, rows).Err?
    ensures NumberAll(links, pool, classes, rows) == Err(TooManyLiterals)
    decreases |links|
  {
    hide ConstantEach, NewLink, AllRead, NumberRows;
    var constants := ConstantEach(Link(links[0], pool), classes[0]);
    LinkIs(links[0], pool);
    if NumberRows(rows, constants).Err? {
      RowsRefused(rows, constants);
    } else {
      NumbersRefused(links[1..], pool, classes[1..], NumberRows(rows, constants).value.rows);
    }
  }

  lemma {:induction false} InternsRefused(entries: seq<Utf8Pool.Text>, texts: seq<Utf8Pool.Text>)
    requires InternAll(entries, texts).Err?
    ensures InternAll(entries, texts) == Err(PoolTooLarge)
    decreases |texts|
  {
    if Interned(entries, texts[0]).Ok? {
      InternsRefused(Interned(entries, texts[0]).value, texts[1..]);
    }
  }

  lemma {:induction false} PoolRefused(classes: seq<seq<byte>>, entries: seq<Utf8Pool.Text>)
    requires AllWalk(classes) && PoolAll(classes, entries).Err?
    ensures PoolAll(classes, entries) == Err(PoolTooLarge)
    decreases |classes|
  {
    hide WalkCp, InternAll, Texts;
    WalkCons(classes);
    if PoolClass(classes[0], entries).Ok? {
      PoolRefused(classes[1..], PoolClass(classes[0], entries).value.entries);
    } else {
      PoolsOne(classes[0], entries);
      InternsRefused(entries, Texts(classes[0]));
      ClassRefused(classes[0], entries);
    }
  }

  lemma ClassRefused(cls: seq<byte>, entries: seq<Utf8Pool.Text>)
    requires WalkCp(cls, Inline).outcome.Ok? && InternAll(entries, Texts(cls)) == Err(PoolTooLarge)
    ensures PoolClass(cls, entries) == Err(PoolTooLarge)
  {
    hide WalkCp, InternAll;
    SpansInOrder(cls);
  }

  // ---- the theorem -------------------------------------------------------

  /** What a set is refused for, once its classes are pooled: the first of these. */
  ghost predicate RefusedFor(env: Env, expected: Option<seq<seq<byte>>>, rs: seq<Reading>, e: LinkError) {
    if !AsExpected(rs, expected) then
      exists i: nat ::
        i < |rs| && e == NameMismatch(AsU16(i)) && NotExpected(rs, expected, i) && forall j | 0 <= j < i :: !NotExpected(rs, expected, j)
    else if !HashesDiffer(env, rs) then exists a: nat, b: nat :: Clash(env, rs, a, b, e)
    else if exists way :: Circle(rs, way) then
      exists i: nat ::
        i < |rs| && e == SuperCycle(AsU16(i)) && ClimbsForever(rs, i) && forall j | 0 <= j < i :: !ClimbsForever(rs, j)
    else e == TooManyLiterals
  }

  /** Classes `a` and `b` have names of one hash; `e` says whether of one spelling. */
  ghost predicate Clash(env: Env, rs: seq<Reading>, a: nat, b: nat, e: LinkError) {
    && a < b < |rs| <= 4096 && NameIn(rs[a]).Some? && NameIn(rs[b]).Some?
    && env.nameHash(NameIn(rs[a]).value) == env.nameHash(NameIn(rs[b]).value)
    && e == if NameIn(rs[a]) == NameIn(rs[b]) then DuplicateClass(a, b) else HashCollision(a, b)
  }

  lemma MismatchRefuses(env: Env, classes: seq<seq<byte>>, pooled: seq<PooledClass>, all: seq<Utf8Pool.Text>, links: seq<seq<u16>>,
                        rs: seq<Reading>, expected: Option<seq<seq<byte>>>)
    requires SetLinked(env, classes, pooled, all, links, rs) && !AsExpected(rs, expected)
    ensures NamesOf(links, PoolBytes(all), expected).Err?
    ensures RefusedFor(env, expected, rs, NamesOf(links, PoolBytes(all), expected).error)
  {
    hide LinkedAs, NotExpected, HashesDiffer, Circle, ClimbsForever, NamesOf, AsExpected, SetLinked;
    var i := MismatchNamed(env, classes, pooled, all, links, rs, expected);
    SmallAsU16(i);
  }

  lemma ClashRefuses(env: Env, expected: Option<seq<seq<byte>>>, rs: seq<Reading>)
    requires AsExpected(rs, expected) && (forall r | r in rs :: NameIn(r).Some?) && |rs| <= 4096 && !HashesDiffer(env, rs)
    ensures ClassIndex(env, NamesIn(rs)).Err? && RefusedFor(env, expected, rs, ClassIndex(env, NamesIn(rs)).error)
  {
    hide NameIn, AsExpected, HashesDiffer, Circle, ClimbsForever, ClassIndex;
    NamesApart(env, rs);
    var a, b := ClashNamed(env, NamesIn(rs));
    assert Clash(env, rs, a, b, ClassIndex(env, NamesIn(rs)).error);
  }

  lemma CycleRefuses(env: Env, expected: Option<seq<seq<byte>>>, rs: seq<Reading>, supers: SuperChains.Supers)
    requires AsExpected(rs, expected) && HashesDiffer(env, rs) && |rs| <= 4096
    requires SuperChains.Closed(supers) && Placed(rs, supers) && SuperChains.Verdict(supers, 0).Err?
    ensures RefusedFor(env, expected, rs, SuperChains.Verdict(supers, 0).error)
  {
    hide NameIn, AsExpected, HashesDiffer, Circle, ClimbsForever, SuperChains.Verdict, Placed, SuperChains.Closed, SuperChains.HasCycle;
    CyclesAreCircles(rs, supers);
    SuperChains.PassesExactlyAcyclic(supers);
    var i := CycleNamed(rs, supers);
    SmallAsU16(i);
  }

  lemma LiteralsRefuse(env: Env, classes: seq<seq<byte>>, pooled: seq<PooledClass>, all: seq<Utf8Pool.Text>, links: seq<seq<u16>>,
                       patched: seq<seq<u16>>, rs: seq<Reading>)
    requires SetLinked(env, classes, pooled, all, links, rs) && |patched| == |links|
    requires forall i | 0 <= i < |links| :: Linking.SameButExternal(patched[i], links[i])
    requires NumberAll(patched, PoolBytes(all), BytesOf(pooled), []).Err?
    ensures NumberAll(patched, PoolBytes(all), BytesOf(pooled), []) == Err(TooManyLiterals)
  {
    hide LinkedAs, Linking.SameButExternal, ConstantEach, AllRead, NewLink, Valid, NumberAll;
    var pool, bytes := PoolBytes(all), BytesOf(pooled);
    forall i | 0 <= i < |links|
      ensures NewLink(patched[i], pool).Ok? && Valid(Link(patched[i], pool))
      ensures AllRead(ConstantEach(Link(patched[i], pool), bytes[i]))
    {
      LiteralsLinked(env, classes[i], pooled[i], all, links[i], patched[i], rs[i]);
    }
    NumbersRefused(patched, pool, bytes, []);
  }

  lemma AssembleRefuses(env: Env, classes: seq<seq<byte>>, pooled: seq<PooledClass>, all: seq<Utf8Pool.Text>, links: seq<seq<u16>>,
                        rs: seq<Reading>, expected: Option<seq<seq<byte>>>)
    requires SetLinked(env, classes, pooled, all, links, rs)
    ensures Unplaced(links) && |BytesOf(pooled)| == |links|
    ensures var r := Assemble(env, BytesOf(pooled), links, PoolBytes(all), expected);
      r.Err? ==> RefusedFor(env, expected, rs, r.error)
  {
    hide LinkedAs, NameIn, SuperIn, NamesOf, ClassIndex, PatchSupers, NumberAll, AsExpected, HashesDiffer, Circle, RefusedFor,
         SuperChains.Closed, SuperChains.HasCycle, SuperChains.Verdict, Apart, NamesIn, SupersIn, Linking.SameButExternal, Placed,
         Distinct;
    var pool := PoolBytes(all);
    LinkedUnplacedYet(env, classes, pooled, all, links, rs);
    NamesExactly(env, classes, pooled, all, links, rs, expected);
    NamesCount(rs);
    if !AsExpected(rs, expected) {
      MismatchRefuses(env, classes, pooled, all, links, rs, expected);
    } else if !HashesDiffer(env, rs) {
      ClashRefuses(env, expected, rs);
    } else {
      IndexesExactly(env, NamesIn(rs));
      NamesApart(env, rs);
      var patched := SupersPlaced(env, classes, pooled, all, links, rs);
      if SuperChains.Verdict(SupersIn(patched, pool), 0).Err? {
        CycleRefuses(env, expected, rs, SupersIn(patched, pool));
      } else {
        NoCircleLeft(env, expected, rs, SupersIn(patched, pool));
        if NumberAll(patched, pool, BytesOf(pooled), []).Err? {
          LiteralsRefuse(env, classes, pooled, all, links, patched, rs);
        }
      }
    }
  }

  lemma NoCircleLeft(env: Env, expected: Option<seq<seq<byte>>>, rs: seq<Reading>, supers: SuperChains.Supers)
    requires AsExpected(rs, expected) && HashesDiffer(env, rs)
    requires SuperChains.Closed(supers) && Placed(rs, supers) && SuperChains.Verdict(supers, 0).Ok?
    ensures RefusedFor(env, expected, rs, TooManyLiterals)
  {
    hide NameIn, AsExpected, HashesDiffer, Circle, ClimbsForever, SuperChains.Verdict, Placed, SuperChains.Closed, SuperChains.HasCycle;
    CyclesAreCircles(rs, supers);
    SuperChains.PassesExactlyAcyclic(supers);
  }

  /** A set whose every class can be read is refused for its size, its pool, or
      the first thing that its classes do not agree on. */
  lemma RefusalsExactly(env: Env, classes: seq<seq<byte>>, expected: Option<seq<seq<byte>>>, rs: seq<Reading>)
    requires AllReadAs(env, classes, rs) && BuildSection(env, classes, expected).Err?
    ensures var e := BuildSection(env, classes, expected).error;
      if |classes| > 4096 then e == TooManyClasses
      else if !(exists strings :: PoolFits(rs, strings)) then e == PoolTooLarge
      else RefusedFor(env, expected, rs, e)
  {
    hide ReadsAs, PoolAll, PoolFits, LinkAll, Assemble, SetLinked, PooledInto, WellFormed, AllReadAs, RefusedFor, Tabled, Fits32,
         SectionBytes, AllWalk;
    NeverInternal.LayingOutNeverFails(env, classes, expected);
    if |classes| <= 4096 {
      PoolChosen(env, classes, rs);
      if PoolAll(classes, [[]]).Err? {
        ReadsWalk(env, classes, rs);
        PoolRefused(classes, [[]]);
      } else {
        var set_ := PooledAll(classes);
        var pool := PoolBytes(set_.entries);
        EachRead(env, classes, rs);
        SetLinks(env, classes, set_);
        var links := LinkAll(env, set_.classes, pool).value;
        SetIsLinked(env, classes, set_, links, rs);
        LinkedUnplaced(env, set_.classes, pool);
        AssembleRefuses(env, classes, set_.classes, set_.entries, links, rs, expected);
      }
    }
  }

  lemma ReadsWalk(env: Env, classes: seq<seq<byte>>, rs: seq<Reading>)
    requires AllReadAs(env, classes, rs)
    ensures AllWalk(classes)
  {
    hide ReadsAs, WalkCp;
    AllTextsRead(env, classes, rs, []);
  }
}
