/** When `build_section` builds: the theorem that it does exactly on the sets
    that `BuildSpec` describes. */
module BuildExact {
  import opened AcceptedTable
  import opened BuildSpec
  import opened Bytes
  import opened ClassFile
  import opened ClassGrammar
  import opened ClassSpec
  import opened ConstantsExact
  import opened DistinctTexts
  import opened LinkTable
  import opened Numbering
  import opened OwnNames
  import opened PooledSets
  import opened PooledShows
  import opened Pooling
  import opened Section
  import opened SectionBuild
  import opened TableExact
  import opened Utf8Pool
  import BuiltIsAccepted
  import Linking
  import NeverInternal
  import SuperChains
  import SurveyExact

  // ---- names -------------------------------------------------------------

  /** The entry of a constant that says something. */
  lemma EntryOf(cls: seq<byte>, entries: seq<Entry>, cs: seq<Constant>, i: nat) returns (e: Entry)
    requires SaysAll(cls, entries, |cs|, cs) && i < |cs| && cs[i] != ConstOther
    ensures e in entries && e.index == i && e.at < |cls| && Says(cls, e, cs[i])
  {
    hide Says;
    e :| e in entries && e.index == i;
  }

  lemma ClassVisited(cls: seq<byte>, entries: seq<Entry>, cs: seq<Constant>, visits: seq<Visit>, i: nat)
    requires SaysAll(cls, entries, |cs|, cs) && Visited(cls, entries, visits, |cs|) && i < |cs| && cs[i].ConstClass?
    ensures i < |visits| && visits[i].tag == 7 && Be16(cls, visits[i].off) == Some(cs[i].name)
  {
    hide SaysAll;
    var e := EntryOf(cls, entries, cs, i);
  }

  lemma TextVisited(cls: seq<byte>, entries: seq<Entry>, cs: seq<Constant>, visits: seq<Visit>, i: nat)
    requires SaysAll(cls, entries, |cs|, cs) && Visited(cls, entries, visits, |cs|) && i < |cs| && cs[i].ConstText?
    requires forall e | e in entries :: ClassGrammar.EntryLies(cls, true, e)
    ensures i < |visits| && visits[i].tag == 1 && Utf8At(cls, visits[i].off) == Some(cs[i].bytes)
  {
    hide SaysAll, Visited, ClassGrammar.EntryLies;
    var e := EntryOf(cls, entries, cs, i);
    EntryIsVisited(cls, entries, visits, |cs|, e);
    TextLies(cls, e, cs[i].bytes);
  }

  lemma EntryIsVisited(cls: seq<byte>, entries: seq<Entry>, visits: seq<Visit>, count: nat, e: Entry)
    requires Visited(cls, entries, visits, count) && e in entries
    ensures e.at < |cls| && e.index < |visits| && visits[e.index] == Visit(e.index, cls[e.at], e.at + 1)
  {
  }

  lemma TextLies(cls: seq<byte>, e: Entry, bytes: seq<byte>)
    requires ClassGrammar.EntryLies(cls, true, e) && e.at < |cls| && Says(cls, e, ConstText(bytes))
    ensures Utf8At(cls, e.at + 1) == Some(bytes) && cls[e.at] == 1
  {
    hide Sum;
  }

  /** The name a `Class` entry leads to is what the format reads. */
  lemma ConstantNameRead(cls: seq<byte>, entries: seq<Entry>, cs: seq<Constant>, i: nat)
    requires SaysAll(cls, entries, |cs|, cs) && Visited(cls, entries, WalkCp(cls, Inline).visits, |cs|)
    requires forall e | e in entries :: ClassGrammar.EntryLies(cls, true, e)
    requires ClassText(cs, i).Some?
    ensures ConstantName(cls, i) == ClassText(cs, i)
  {
    hide SaysAll, Visited, WalkCp, ClassGrammar.EntryLies, Utf8At;
    var visits := WalkCp(cls, Inline).visits;
    ClassVisited(cls, entries, cs, visits, i);
    TextVisited(cls, entries, cs, visits, cs[i].name);
  }

  lemma ReadingNames(env: Env, cls: seq<byte>, r: Reading)
    requires ReadsAs(env, cls, r)
    ensures NameIn(r).Some? && NameIn(r).value != [] && OwnName(cls) == NameIn(r)
    ensures OwnSuper(cls) == SuperIn(r) && (SuperIn(r).Some? <==> r.body.superClass != 0)
  {
    hide SaysAll, Visited, WalkCp, PoolLies, ClassGrammar.EntryLies, ConstantName, ConstantLinks, FieldsLink, MethodLinks, AttrLinks,
         TableEnd, MemberTable, AttrTable;
    ReadingWalks(env, cls, r);
    EntriesVisited(cls, Inline, |r.cs|, r.entries, r.end);
    ConstantNameRead(cls, r.entries, r.cs, r.body.thisClass);
    if r.body.superClass != 0 {
      ConstantNameRead(cls, r.entries, r.cs, r.body.superClass);
    }
  }

  // ---- literals ----------------------------------------------------------

  /** The descriptor of `String` entry `j` stands for its text. */
  lemma ConstantIs(env: Env, cls: seq<byte>, p: Linking.Plan, words: seq<u16>, cs: seq<Constant>, j: nat)
    requires Linking.Holds(env, cls, p, words) && Shows(cls, p.view, cs) && |cs| == p.n.cpCount
    requires j < |cs| && cs[j].ConstString? && TextOf(cs, cs[j].text).Some?
    ensures Valid(Link(words, p.view.pool)) && StringsAmong(cs, j) < StrsLen(Link(words, p.view.pool))
    ensures var row := ConstantAt(Link(words, p.view.pool), cls, StringsAmong(cs, j));
      row.Ok? && row.value.bytes == TextOf(cs, cs[j].text).value
  {
    hide Linking.Holds, Shows, StringsAmong, StrsUpTo, Linking.ShowsHeader, Linking.WordByKind, PoolUtf8;
    var l, k, ui := Link(words, p.view.pool), StringsAmong(cs, j), cs[j].text;
    EntryShown(cls, p.view, cs, j);
    EntryShown(cls, p.view, cs, ui);
    MrefsCount(cls, p.view, cs, j);
    Linking.HeaderShows(env, cls, p, words);
    Linking.HeaderLinks(p, words, p.view.pool);
    Linking.CpWordByKind(env, cls, p, words, j);
    StringCounted(p, words, j);
    Linking.StrShown(env, cls, p, words, j);
    Linking.OffsetShown(env, cls, p, words, ui);
    SmallAsU16(p.view.offsets[j].value);
    ConstantReads(l, cls, k, p.view.offsets[j].value, ui, p.view.offsets[ui].value, TextOf(cs, ui).value);
  }

  lemma StringCounted(p: Linking.Plan, words: seq<u16>, j: nat)
    requires j < |p.view.tags| && j < |p.view.offsets| && p.view.offsets[j].Some? && p.view.tags[j] == TAG_STRING
    requires Linking.WordByKind(p, words, j)
    ensures StrsUpTo(p.view, j) < p.n.strs
  {
  }

  lemma ConstantReads(l: Link, cls: seq<byte>, k: nat, off: nat, ui: nat, r: nat, bytes: seq<byte>)
    requires Valid(l) && k < StrsLen(l) && StrsOff(l) + 2 * k < |l.words| && l.words[StrsOff(l) + 2 * k] == off
    requires Be16(cls, off) == Some(ui) && CpWordAt(l, ui) == Some(r) && PoolUtf8(l.pool, r) == Some(bytes)
    ensures ConstantAt(l, cls, k).Ok? && ConstantAt(l, cls, k).value.bytes == bytes
  {
    hide PoolUtf8;
  }

  lemma {:induction false} TextsAt(constants: seq<Result<Row>>)
    requires AllRead(constants)
    ensures |ConstantTexts(constants)| == |constants|
    ensures forall k | 0 <= k < |constants| :: ConstantTexts(constants)[k] == constants[k].value.bytes
    decreases |constants|
  {
    if constants != [] {
      TextsAt(constants[1..]);
      forall k | 0 <= k < |constants|
        ensures ConstantTexts(constants)[k] == constants[k].value.bytes
      {
        if k > 0 {
          assert constants[1..][k - 1] == constants[k];
        }
      }
    }
  }

  /** The `k`th `String` constant. */
  lemma {:induction false} NthLiteral(cs: seq<Constant>, n: nat, k: nat) returns (j: nat)
    requires n <= |cs| && k < StringsAmong(cs, n)
    ensures j < n && cs[j].ConstString? && StringsAmong(cs, j) == k
  {
    if k < StringsAmong(cs, n - 1) {
      j := NthLiteral(cs, n - 1, k);
    } else {
      j := n - 1;
    }
  }

  /** The constants a table's descriptors stand for are the file's `String`s. */
  lemma LiteralsAre(env: Env, cls: seq<byte>, p: Linking.Plan, words: seq<u16>, cs: seq<Constant>)
    requires Linking.Holds(env, cls, p, words) && Shows(cls, p.view, cs) && |cs| == p.n.cpCount
    requires forall j | 0 <= j < |cs| && cs[j].ConstString? :: TextOf(cs, cs[j].text).Some?
    ensures Valid(Link(words, p.view.pool)) && AllRead(ConstantEach(Link(words, p.view.pool), cls))
    ensures forall s :: s in ConstantTexts(ConstantEach(Link(words, p.view.pool), cls)) <==> HasLiteral(cs, s)
  {
    hide Linking.Holds, Shows, StringsAmong, StrsUpTo, ConstantAt, TextOf, Linking.ShowsHeader;
    var l := Link(words, p.view.pool);
    Linking.HeaderShows(env, cls, p, words);
    Linking.HeaderLinks(p, words, p.view.pool);
    StringsCounted(env, cls, p, words, cs);
    var constants := ConstantEach(l, cls);
    forall k | 0 <= k < |constants|
      ensures constants[k].Ok? && HasLiteral(cs, constants[k].value.bytes)
    {
      var j := NthLiteral(cs, |cs|, k);
      ConstantIs(env, cls, p, words, cs, j);
    }
    TextsAt(constants);
    forall s | HasLiteral(cs, s)
      ensures s in ConstantTexts(constants)
    {
      var j :| 0 <= j < |cs| && cs[j].ConstString? && TextOf(cs, cs[j].text) == Some(s);
      ConstantIs(env, cls, p, words, cs, j);
      assert ConstantTexts(constants)[StringsAmong(cs, j)] == s;
    }
  }

  lemma StringsCounted(env: Env, cls: seq<byte>, p: Linking.Plan, words: seq<u16>, cs: seq<Constant>)
    requires Linking.Holds(env, cls, p, words) && Shows(cls, p.view, cs) && |cs| == p.n.cpCount
    ensures p.n.strs == StringsAmong(cs, |cs|)
  {
    hide Linking.Holds, Shows;
    Linking.PlanFacts(env, cls, p, words);
    MrefsCount(cls, p.view, cs, |cs|);
  }

  // ---- the index ---------------------------------------------------------

  /** No two names share a hash. */
  ghost predicate Apart(env: Env, names: seq<seq<byte>>) {
    forall i, j | 0 <= i < j < |names| :: env.nameHash(names[i]) != env.nameHash(names[j])
  }

  ghost predicate HashedApart(index: seq<IndexEntry>) {
    forall i, j | 0 <= i < j < |index| :: index[i].hash != index[j].hash
  }

  lemma {:induction false} InsertKeepsApart(index: seq<IndexEntry>, e: IndexEntry)
    requires HashedApart(index) && forall x | x in index :: x.hash != e.hash
    ensures HashedApart(InsertEntry(index, e))
    ensures forall x :: x in InsertEntry(index, e) <==> x in index || x == e
    decreases |index|
  {
    if index != [] && !Before(e, index[0]) {
      var rest := InsertEntry(index[1..], e);
      InsertKeepsApart(index[1..], e);
      assert index == [index[0]] + index[1..];
      forall k | 0 <= k < |rest|
        ensures rest[k].hash != index[0].hash
      {
        assert rest[k] in rest;
      }
    }
  }

  lemma {:induction false} SortKeepsApart(index: seq<IndexEntry>)
    requires HashedApart(index)
    ensures HashedApart(SortIndex(index)) && forall x :: x in SortIndex(index) <==> x in index
    decreases |index|
  {
    if index != [] {
      var front, last := index[..|index| - 1], index[|index| - 1];
      SortKeepsApart(front);
      InsertKeepsApart(SortIndex(front), last);
      assert index == front + [last];
    }
  }

  /** The index is made exactly when no two names share a hash. */
  lemma IndexesExactly(env: Env, names: seq<seq<byte>>)
    requires |names| <= 4096
    ensures ClassIndex(env, names).Ok? <==> Apart(env, names)
  {
    var unsorted := UnsortedIndex(env, names);
    var index := SortIndex(unsorted);
    SortedNamesInRange(env, names);
    FirstErrOk(PairVerdicts(names, index));
    if Apart(env, names) {
      SortKeepsApart(unsorted);
      forall k | 0 <= k < |PairVerdicts(names, index)|
        ensures PairVerdicts(names, index)[k].Ok?
      {
        assert index[k].hash != index[k + 1].hash;
      }
    }
    if ClassIndex(env, names).Ok? {
      BuiltIsAccepted.IndexAscends(env, names, index);
      forall i, j | 0 <= i < j < |names|
        ensures env.nameHash(names[i]) != env.nameHash(names[j])
      {
        var a := BuiltIsAccepted.IndexHas(env, names, index, i);
        var b := BuiltIsAccepted.IndexHas(env, names, index, j);
        SmallAsU16(i);
        SmallAsU16(j);
      }
    }
  }

  // ---- superclasses ------------------------------------------------------

  function NamesIn(rs: seq<Reading>): seq<seq<byte>>
    requires forall r | r in rs :: NameIn(r).Some?
  {
    seq(|rs|, i requires 0 <= i < |rs| => NameIn(rs[i]).value)
  }

  /** Where each superclass is in the set, if there. */
  ghost predicate Placed(rs: seq<Reading>, supers: SuperChains.Supers) {
    && |supers| == |rs|
    && forall i, j: nat | 0 <= i < |rs| && j < |rs| ::
         supers[i] == Some(j) <==> SuperIn(rs[i]).Some? && SuperIn(rs[i]) == NameIn(rs[j])
  }

  lemma {:induction false} PositionIs(names: seq<seq<byte>>, s: seq<byte>, j: nat)
    requires Distinct(names) && j < |names|
    ensures Position(names, s) == Some(j) <==> names[j] == s
    decreases |names|
  {
    if j > 0 {
      PositionIs(names[1..], s, j - 1);
    }
  }

  /** `way` follows the ancestors of its first class. */
  lemma {:induction false} WayIsAncestors(rs: seq<Reading>, supers: SuperChains.Supers, way: seq<nat>, k: nat)
    requires SuperChains.Closed(supers) && Placed(rs, supers) && k < |way| && Climbs(rs, way, way[0])
    ensures SuperChains.Ancestor(supers, way[0], k) == Some(way[k])
    decreases k
  {
    if k > 0 {
      WayIsAncestors(rs, supers, way, k - 1);
      assert SuperIn(rs[way[k - 1]]) == NameIn(rs[way[k - 1 + 1]]);
    }
  }

  function AncestorsTo(supers: SuperChains.Supers, i: nat, k: nat): seq<nat>
    requires SuperChains.Closed(supers) && i < |supers|
  {
    seq(k + 1, m requires 0 <= m <= k =>
      match SuperChains.Ancestor(supers, i, m)
      case Some(j) => j
      case None => 0)
  }

  /** A cycle of the superclass positions is a way that comes back. */
  lemma CyclesAreCircles(rs: seq<Reading>, supers: SuperChains.Supers)
    requires SuperChains.Closed(supers) && Placed(rs, supers)
    ensures SuperChains.HasCycle(supers) <==> exists way :: Circle(rs, way)
  {
    hide NameIn, SuperIn;
    if SuperChains.HasCycle(supers) {
      var i: nat, k: nat :| i < |supers| && k > 0 && SuperChains.Ancestor(supers, i, k) == Some(i);
      ChainIsWay(rs, supers, i, k);
      assert Circle(rs, AncestorsTo(supers, i, k));
    }
    if way :| Circle(rs, way) {
      WayIsAncestors(rs, supers, way, |way| - 1);
    }
  }

  lemma ChainIsWay(rs: seq<Reading>, supers: SuperChains.Supers, i: nat, n: nat)
    requires SuperChains.Closed(supers) && Placed(rs, supers) && i < |rs| && SuperChains.Ancestor(supers, i, n).Some?
    ensures Climbs(rs, AncestorsTo(supers, i, n), i)
  {
    hide NameIn, SuperIn;
    var way := AncestorsTo(supers, i, n);
    forall m | 0 <= m <= n
      ensures SuperChains.Ancestor(supers, i, m) == Some(way[m]) && way[m] < |rs|
    {
      if SuperChains.Ancestor(supers, i, m).None? {
        SuperChains.LeftStaysLeft(supers, i, m, n);
      }
    }
    forall m | 0 <= m < n
      ensures SuperIn(rs[way[m]]).Some? && SuperIn(rs[way[m]]) == NameIn(rs[way[m + 1]])
    {
      assert SuperChains.Ancestor(supers, i, m + 1) == supers[way[m]];
    }
  }

  // ---- the linked set ----------------------------------------------------

  /** One class of a set: pooled, linked and read. */
  ghost predicate LinkedAs(env: Env, cls: seq<byte>, pc: PooledClass, all: seq<Utf8Pool.Text>, words: seq<u16>, r: Reading) {
    && PooledInto(cls, pc, all) && WellFormed(all) && ReadsAs(env, cls, r)
    && Linking.LinkPooled(env, pc.bytes, Refs16(pc.refs), PoolBytes(all)) == Ok(words)
  }

  /** What a class's table says of its names. */
  lemma NamesLinked(env: Env, cls: seq<byte>, pc: PooledClass, all: seq<Utf8Pool.Text>, words: seq<u16>, r: Reading)
    requires LinkedAs(env, cls, pc, all, words, r)
    ensures Valid(Link(words, PoolBytes(all))) && NewLink(words, PoolBytes(all)) == Ok(Link(words, PoolBytes(all)))
    ensures NameIn(r).Some? && LinkedName(Link(words, PoolBytes(all))) == NameIn(r)
    ensures LinkedSuperName(Link(words, PoolBytes(all))) == SuperIn(r)
  {
    hide Linking.LinkPooled, Linking.PlanLink, Linking.Holds, PooledInto, WellFormed, ReadsAs, OwnName, OwnSuper, NameIn, SuperIn;
    var refs, pool := Refs16(pc.refs), PoolBytes(all);
    Linking.BuiltHolds(env, pc.bytes, refs, pool);
    var p := Linking.PlanLink(pc.bytes, refs, pool).value;
    NamesCarried(env, cls, pc, all, p, words);
    ReadingNames(env, cls, r);
  }

  /** And of its literals, whatever the section's words are. */
  lemma LiteralsLinked(env: Env, cls: seq<byte>, pc: PooledClass, all: seq<Utf8Pool.Text>, table: seq<u16>, words: seq<u16>, r: Reading)
    requires LinkedAs(env, cls, pc, all, table, r) && Linking.SameButExternal(words, table)
    ensures Valid(Link(words, PoolBytes(all))) && NewLink(words, PoolBytes(all)).Ok?
    ensures AllRead(ConstantEach(Link(words, PoolBytes(all)), pc.bytes))
    ensures forall s :: s in ConstantTexts(ConstantEach(Link(words, PoolBytes(all)), pc.bytes)) <==> HasLiteral(r.cs, s)
  {
    hide Linking.LinkPooled, Linking.PlanLink, Linking.Holds, PooledInto, WellFormed, ReadsAs, Shows, Linkable, Derives, Survey,
         ViewOf, WalkCp, AllRead, ConstantEach, ConstantTexts, HasLiteral, NewLayout, SurveyExact.CountsOf;
    var refs, pool := Refs16(pc.refs), PoolBytes(all);
    Linking.BuiltHolds(env, pc.bytes, refs, pool);
    var cp, pos := ReadingDerives(env, cls, pc, all, r);
    PlanDerives(env, pc, all, cp, |r.cs|, pos);
    var p := Linking.PlanLink(pc.bytes, refs, pool).value;
    CountsEntriesOf(cp, r, Tail(pc.bytes, pos));
    Linking.HoldersAgree(env, pc.bytes, p, table, words);
    ViewPool(pc, all, cp);
    ReadingStrings(env, cls, r);
    LiteralsAre(env, pc.bytes, p, words, r.cs);
    NewLinkIs(env, pc.bytes, p, words);
  }

  lemma CountsEntriesOf(cp: CpView, r: Reading, t: Tail)
    ensures SurveyExact.CountsOf(cp, |r.cs|, t, r.body).cpCount == |r.cs|
  {
  }

  lemma ViewPool(pc: PooledClass, all: seq<Utf8Pool.Text>, cp: CpView)
    requires ViewOf(pc, all) == Ok(cp)
    ensures cp.pool == PoolBytes(all)
  {
  }

  lemma NewLinkIs(env: Env, cls: seq<byte>, p: Linking.Plan, words: seq<u16>)
    requires Linking.Holds(env, cls, p, words)
    ensures NewLink(words, p.view.pool) == Ok(Link(words, p.view.pool))
  {
    hide Linking.Holds, Linking.ShowsHeader;
    Linking.HeaderShows(env, cls, p, words);
    Linking.HeaderLinks(p, words, p.view.pool);
  }

  lemma ReadingStrings(env: Env, cls: seq<byte>, r: Reading)
    requires ReadsAs(env, cls, r)
    ensures forall j | 0 <= j < |r.cs| && r.cs[j].ConstString? :: TextOf(r.cs, r.cs[j].text).Some?
  {
    hide PoolLies, SaysAll, BodyLies, FieldsLink, MethodLinks, AttrLinks, IsName, TableEnd, NamesClass, TextOf;
    forall j | 0 <= j < |r.cs| && r.cs[j].ConstString?
      ensures TextOf(r.cs, r.cs[j].text).Some?
    {
      assert ConstantLinks(env, r.cs, r.cs[j]);
    }
  }

  // ---- assembling --------------------------------------------------------

  ghost predicate SetLinked(
    env: Env, classes: seq<seq<byte>>, pooled: seq<PooledClass>, all: seq<Utf8Pool.Text>, links: seq<seq<u16>>, rs: seq<Reading>)
  {
    && |classes| == |pooled| == |links| == |rs| <= 4096
    && forall i | 0 <= i < |rs| :: LinkedAs(env, classes[i], pooled[i], all, links[i], rs[i])
  }

  lemma NameChecks(env: Env, cls: seq<byte>, pc: PooledClass, all: seq<Utf8Pool.Text>, words: seq<u16>, r: Reading,
                   expected: Option<seq<seq<byte>>>, i: nat)
    requires LinkedAs(env, cls, pc, all, words, r)
    ensures NameIn(r).Some?
    ensures CheckName(words, PoolBytes(all), expected, i)
            == if expected.Some? && !(i < |expected.value| && NameIn(r) == Some(expected.value[i])) then Err(NameMismatch(AsU16(i)))
               else Ok(NameIn(r).value)
  {
    hide LinkedAs, PoolUtf8, NewLink, Valid, NameIn;
    NamesLinked(env, cls, pc, all, words, r);
  }

  /** The names are those of the files, and taken when they are as expected. */
  lemma NamesExactly(env: Env, classes: seq<seq<byte>>, pooled: seq<PooledClass>, all: seq<Utf8Pool.Text>, links: seq<seq<u16>>,
                     rs: seq<Reading>, expected: Option<seq<seq<byte>>>)
    requires SetLinked(env, classes, pooled, all, links, rs)
    ensures forall r | r in rs :: NameIn(r).Some?
    ensures NamesOf(links, PoolBytes(all), expected).Ok? <==> AsExpected(rs, expected)
    ensures NamesOf(links, PoolBytes(all), expected).Ok? ==> NamesOf(links, PoolBytes(all), expected).value == NamesIn(rs)
  {
    hide LinkedAs, CheckName, NameIn;
    var each := NameEach(links, PoolBytes(all), expected);
    CollectOk(each);
    forall i | 0 <= i < |rs|
      ensures NameIn(rs[i]).Some?
      ensures each[i].Ok? <==> (expected.Some? ==> i < |expected.value| && NameIn(rs[i]) == Some(expected.value[i]))
      ensures each[i].Ok? ==> each[i].value == NameIn(rs[i]).value
    {
      NameChecks(env, classes[i], pooled[i], all, links[i], rs[i], expected, i);
    }
    if NamesOf(links, PoolBytes(all), expected).Ok? {
      assert NamesOf(links, PoolBytes(all), expected).value == NamesIn(rs);
    }
  }

  lemma LinkedUnplacedYet(env: Env, classes: seq<seq<byte>>, pooled: seq<PooledClass>, all: seq<Utf8Pool.Text>, links: seq<seq<u16>>,
                          rs: seq<Reading>)
    requires SetLinked(env, classes, pooled, all, links, rs)
    ensures Unplaced(links)
  {
    hide Linking.LinkPooled, PooledInto, WellFormed, ReadsAs;
    forall i | 0 <= i < |links|
      ensures |links[i]| > 22 && links[i][22] == SUPER_NONE
    {
      assert LinkedAs(env, classes[i], pooled[i], all, links[i], rs[i]);
      Linking.BuiltUnplaced(env, pooled[i].bytes, Refs16(pooled[i].refs), PoolBytes(all));
    }
  }

  lemma SupersPlaced(env: Env, classes: seq<seq<byte>>, pooled: seq<PooledClass>, all: seq<Utf8Pool.Text>, links: seq<seq<u16>>,
                     rs: seq<Reading>) returns (patched: seq<seq<u16>>)
    requires SetLinked(env, classes, pooled, all, links, rs)
    requires (forall r | r in rs :: NameIn(r).Some?) && Distinct(NamesIn(rs))
    ensures PatchSupers(links, PoolBytes(all), NamesIn(rs)) == Ok(patched) && |patched| == |links|
    ensures Placed(rs, SupersIn(patched, PoolBytes(all))) && SuperChains.Closed(SupersIn(patched, PoolBytes(all)))
    ensures forall i | 0 <= i < |links| :: Linking.SameButExternal(patched[i], links[i])
  {
    hide LinkedAs, NameIn, SuperIn, PatchSuper, Linking.SameButExternal, SuperChains.Closed, Valid, SuperOf, Position, NewLink;
    var pool, names := PoolBytes(all), NamesIn(rs);
    var each := PatchEach(links, pool, names);
    LinkedUnplacedYet(env, classes, pooled, all, links, rs);
    CollectOk(each);
    forall i | 0 <= i < |links|
      ensures each[i].Ok? && Linking.SameButExternal(each[i].value, links[i])
      ensures SuperOf(each[i].value, pool) == if SuperIn(rs[i]).None? then None else Position(names, SuperIn(rs[i]).value)
    {
      NamesLinked(env, classes[i], pooled[i], all, links[i], rs[i]);
      NeverInternal.PatchKeepsSame(links[i], pool, names);
      PatchedSuper(links[i], pool, names);
    }
    patched := Collect(each).value;
    PatchedSupersClosed(links, pool, names);
    forall i, j: nat | 0 <= i < |rs| && j < |rs|
      ensures SupersIn(patched, pool)[i] == Some(j) <==> SuperIn(rs[i]).Some? && SuperIn(rs[i]) == NameIn(rs[j])
    {
      assert each[i].value == patched[i];
      if SuperIn(rs[i]).Some? {
        PositionIs(names, SuperIn(rs[i]).value, j);
      }
    }
  }

  lemma {:induction false} SetTextsHave(links: seq<seq<u16>>, pool: seq<byte>, classes: seq<seq<byte>>, s: seq<byte>)
    requires AllNumberable(links, pool, classes)
    ensures s in SetTexts(links, pool, classes) <==>
      exists i | 0 <= i < |links| :: Valid(Link(links[i], pool)) && s in ConstantTexts(ConstantEach(Link(links[i], pool), classes[i]))
    decreases |links|
  {
    hide NewLink, Valid, ConstantEach, ConstantTexts, AllRead;
    if links != [] {
      LinkIs(links[0], pool);
      SetTextsHave(links[1..], pool, classes[1..], s);
      if s in SetTexts(links[1..], pool, classes[1..]) {
        var i :| 0 <= i < |links[1..]| && Valid(Link(links[1..][i], pool))
                 && s in ConstantTexts(ConstantEach(Link(links[1..][i], pool), classes[1..][i]));
        assert links[i + 1] == links[1..][i] && classes[i + 1] == classes[1..][i];
      }
      if i :| 0 <= i < |links| && Valid(Link(links[i], pool)) && s in ConstantTexts(ConstantEach(Link(links[i], pool), classes[i])) {
        assert i > 0 ==> links[i] == links[1..][i - 1] && classes[i] == classes[1..][i - 1];
      }
    }
  }

  lemma LiteralsExactly(env: Env, classes: seq<seq<byte>>, pooled: seq<PooledClass>, all: seq<Utf8Pool.Text>, links: seq<seq<u16>>,
                        patched: seq<seq<u16>>, rs: seq<Reading>)
    requires SetLinked(env, classes, pooled, all, links, rs) && |patched| == |links|
    requires forall i | 0 <= i < |links| :: Linking.SameButExternal(patched[i], links[i])
    ensures NumberAll(patched, PoolBytes(all), BytesOf(pooled), []).Ok? <==> exists literals :: LiteralsFit(rs, literals)
  {
    hide LinkedAs, Linking.SameButExternal, HasLiteral, ConstantEach, ConstantTexts, AllRead, NewLink, Valid, Firsts, NumberAll, SetTexts;
    var pool, bytes := PoolBytes(all), BytesOf(pooled);
    forall i | 0 <= i < |links|
      ensures Valid(Link(patched[i], pool)) && NewLink(patched[i], pool).Ok? && AllRead(ConstantEach(Link(patched[i], pool), bytes[i]))
      ensures forall s :: s in ConstantTexts(ConstantEach(Link(patched[i], pool), bytes[i])) <==> HasLiteral(rs[i].cs, s)
    {
      LiteralsLinked(env, classes[i], pooled[i], all, links[i], patched[i], rs[i]);
    }
    var texts := SetTexts(patched, pool, bytes);
    forall s
      ensures s in texts <==> exists r | r in rs :: HasLiteral(r.cs, s)
    {
      SetTextsHave(patched, pool, bytes, s);
    }
    NoRows();
    NumbersAllExactly(patched, pool, bytes, []);
    LiteralsChosen(rs, texts);
  }

  lemma NoRows()
    ensures TextsOfRows([]) == []
  {
  }

  /** The literals fit when those met, each once, do. */
  lemma LiteralsChosen(rs: seq<Reading>, texts: seq<seq<byte>>)
    requires forall s :: s in texts <==> exists r | r in rs :: HasLiteral(r.cs, s)
    ensures |Firsts([], texts)| <= 0x3000 <==> exists literals :: LiteralsFit(rs, literals)
  {
    hide HasLiteral;
    FirstsHold([], texts);
    if |Firsts([], texts)| <= 0x3000 {
      assert LiteralsFit(rs, Firsts([], texts));
    }
    if literals :| LiteralsFit(rs, literals) {
      SameStrings(literals, Firsts([], texts));
    }
  }

  lemma NamesApart(env: Env, rs: seq<Reading>)
    requires forall r | r in rs :: NameIn(r).Some?
    ensures Apart(env, NamesIn(rs)) <==> HashesDiffer(env, rs)
    ensures Apart(env, NamesIn(rs)) ==> Distinct(NamesIn(rs))
  {
    hide NameIn;
    var names := NamesIn(rs);
    assert forall i | 0 <= i < |rs| :: NameIn(rs[i]) == Some(names[i]);
    if HashesDiffer(env, rs) {
      forall i, j | 0 <= i < j < |names|
        ensures env.nameHash(names[i]) != env.nameHash(names[j])
      {
        assert env.nameHash(NameIn(rs[i]).value) != env.nameHash(NameIn(rs[j]).value);
      }
    }
  }

  /** From the linked tables on, a set assembles exactly when what must hold
      between its classes does. */
  lemma AssemblesExactly(env: Env, classes: seq<seq<byte>>, pooled: seq<PooledClass>, all: seq<Utf8Pool.Text>, links: seq<seq<u16>>,
                         rs: seq<Reading>, expected: Option<seq<seq<byte>>>)
    requires SetLinked(env, classes, pooled, all, links, rs)
    ensures Unplaced(links) && |BytesOf(pooled)| == |links|
    ensures Assemble(env, BytesOf(pooled), links, PoolBytes(all), expected).Ok? <==>
      && AsExpected(rs, expected) && HashesDiffer(env, rs) && !(exists way :: Circle(rs, way))
      && exists literals :: LiteralsFit(rs, literals)
  {
    hide LinkedAs, NameIn, SuperIn, NamesOf, ClassIndex, PatchSupers, NumberAll, AsExpected, HashesDiffer, Circle, LiteralsFit,
         SuperChains.Closed, SuperChains.HasCycle, SuperChains.Verdict, Apart, NamesIn, SupersIn, Linking.SameButExternal, Placed,
         Distinct;
    var pool := PoolBytes(all);
    LinkedUnplacedYet(env, classes, pooled, all, links, rs);
    NamesExactly(env, classes, pooled, all, links, rs, expected);
    NamesCount(rs);
    if AsExpected(rs, expected) {
      IndexesExactly(env, NamesIn(rs));
      NamesApart(env, rs);
      if Apart(env, NamesIn(rs)) {
        var patched := SupersPlaced(env, classes, pooled, all, links, rs);
        CyclesAreCircles(rs, SupersIn(patched, pool));
        SuperChains.PassesExactlyAcyclic(SupersIn(patched, pool));
        LiteralsExactly(env, classes, pooled, all, links, patched, rs);
      }
    }
  }

  lemma NamesCount(rs: seq<Reading>)
    requires forall r | r in rs :: NameIn(r).Some?
    ensures |NamesIn(rs)| == |rs|
  {
    hide NameIn;
  }

  // ---- the strings -------------------------------------------------------

  /** The strings of these visits, where the file has them. */
  lemma {:induction false} TextsOfVisits(cls: seq<byte>, visits: seq<Visit>, spans: seq<Span>, at: nat, s: seq<byte>)
    requires SpansOf(cls, visits) == Ok(spans) && InOrder(cls, spans, at)
    ensures s in TextsOf(cls, spans, at) <==>
      exists k | 0 <= k < |visits| :: visits[k].tag == 1 && Utf8At(cls, visits[k].off) == Some(s)
    decreases |visits|
  {
    if visits != [] {
      var more := visits[1..];
      if visits[0].tag == 1 {
        FirstSpanText(cls, visits, spans, at);
        TextsOfVisits(cls, more, spans[1..], spans[0].end, s);
      } else {
        TextsOfVisits(cls, more, spans, at, s);
      }
      VisitsOfBoth(cls, visits, s);
    }
  }

  lemma VisitsOfBoth(cls: seq<byte>, visits: seq<Visit>, s: seq<byte>)
    requires visits != []
    ensures (exists k | 0 <= k < |visits| :: visits[k].tag == 1 && Utf8At(cls, visits[k].off) == Some(s)) <==>
      || (visits[0].tag == 1 && Utf8At(cls, visits[0].off) == Some(s))
      || exists k | 0 <= k < |visits[1..]| :: visits[1..][k].tag == 1 && Utf8At(cls, visits[1..][k].off) == Some(s)
  {
    hide Utf8At;
    if k :| 0 <= k < |visits[1..]| && visits[1..][k].tag == 1 && Utf8At(cls, visits[1..][k].off) == Some(s) {
      assert visits[k + 1] == visits[1..][k];
    }
    if k :| 0 <= k < |visits| && visits[k].tag == 1 && Utf8At(cls, visits[k].off) == Some(s) {
      assert k > 0 ==> visits[k] == visits[1..][k - 1];
    }
  }

  lemma TaggedIsText(cls: seq<byte>, entries: seq<Entry>, cs: seq<Constant>, visits: seq<Visit>, k: nat)
    requires SaysAll(cls, entries, |cs|, cs) && Visited(cls, entries, visits, |cs|) && k < |visits| && visits[k].tag == 1
    requires |cs| > 0
    ensures k < |cs| && cs[k].ConstText?
  {
    var e :| e in entries && e.index == k;
    assert Says(cls, e, cs[k]);
  }

  /** The strings a class is pooled with are the texts of its constants. */
  lemma TextsRead(env: Env, cls: seq<byte>, r: Reading)
    requires ReadsAs(env, cls, r)
    ensures WalkCp(cls, Inline).outcome.Ok? && forall s :: s in Texts(cls) <==> HasText(r.cs, s)
  {
    hide SaysAll, Visited, WalkCp, PoolLies, ClassGrammar.EntryLies, Linkable, SpansOf, TextsOf, Utf8At;
    ReadingWalks(env, cls, r);
    EntriesVisited(cls, Inline, |r.cs|, r.entries, r.end);
    SpansInOrder(cls);
    var visits := WalkCp(cls, Inline).visits;
    VisitsCount(cls, r.entries, visits, |r.cs|);
    forall s
      ensures s in Texts(cls) <==> HasText(r.cs, s)
    {
      TextsOfVisits(cls, visits, SpansOf(cls, visits).value, 0, s);
      if k :| 0 <= k < |visits| && visits[k].tag == 1 && Utf8At(cls, visits[k].off) == Some(s) {
        TaggedIsText(cls, r.entries, r.cs, visits, k);
        TextVisited(cls, r.entries, r.cs, visits, k);
        assert r.cs[k] == ConstText(s);
      }
      if HasText(r.cs, s) {
        var k :| 0 <= k < |r.cs| && r.cs[k] == ConstText(s);
        TextVisited(cls, r.entries, r.cs, visits, k);
      }
    }
  }

  lemma VisitsCount(cls: seq<byte>, entries: seq<Entry>, visits: seq<Visit>, count: nat)
    requires Visited(cls, entries, visits, count) && count > 0
    ensures |visits| == count
  {
  }

  ghost predicate Readable(env: Env, cls: seq<byte>) { exists r :: ReadsAs(env, cls, r) }

  ghost predicate AllReadAs(env: Env, classes: seq<seq<byte>>, rs: seq<Reading>) {
    |rs| == |classes| && forall i | 0 <= i < |classes| :: ReadsAs(env, classes[i], rs[i])
  }

  lemma {:induction false} AllTextsRead(env: Env, classes: seq<seq<byte>>, rs: seq<Reading>, s: seq<byte>)
    requires AllReadAs(env, classes, rs)
    ensures AllWalk(classes)
    ensures s in AllTexts(classes) <==> exists r | r in rs :: HasText(r.cs, s)
    decreases |classes|
  {
    hide ReadsAs, WalkCp, Texts, HasText;
    if classes != [] {
      TextsRead(env, classes[0], rs[0]);
      AllTextsRead(env, classes[1..], rs[1..], s);
      WalkCons(classes);
      assert rs == [rs[0]] + rs[1..];
    }
  }

  /** The pool of the set fits exactly when its strings, each once, do. */
  lemma PoolChosen(env: Env, classes: seq<seq<byte>>, rs: seq<Reading>)
    requires AllReadAs(env, classes, rs)
    ensures PoolAll(classes, [[]]).Ok? <==> exists strings :: PoolFits(rs, strings)
  {
    hide ReadsAs, WalkCp, Texts, HasText, PoolAll, AllTexts, Firsts, AllReadAs;
    var texts := AllTexts(classes);
    forall s
      ensures s in texts <==> exists r | r in rs :: HasText(r.cs, s)
    {
      AllTextsRead(env, classes, rs, s);
    }
    AllTextsRead(env, classes, rs, []);
    EmptyPool();
    PoolsExactly(classes, [[]]);
    FirstsHold([[]], texts);
    var all := Firsts([[]], texts);
    assert forall s :: s in all <==> s == [] || s in texts;
    if PoolSize(all) <= 4 * 65535 {
      assert PoolFits(rs, all);
    }
    if strings :| PoolFits(rs, strings) {
      SameStrings(strings, all);
    }
  }

  lemma EmptyPool()
    ensures PoolSize([[]]) == 4
  {
    SizeOfOne([]);
  }

  // ---- the theorem -------------------------------------------------------

  lemma {:induction false} ChooseReadings(env: Env, classes: seq<seq<byte>>) returns (rs: seq<Reading>)
    requires forall i | 0 <= i < |classes| :: Readable(env, classes[i])
    ensures AllReadAs(env, classes, rs)
    decreases |classes|
  {
    hide ReadsAs;
    if classes == [] {
      rs := [];
    } else {
      assert Readable(env, classes[0]);
      var r :| ReadsAs(env, classes[0], r);
      forall i | 0 <= i < |classes[1..]|
        ensures Readable(env, classes[1..][i])
      {
        assert classes[1..][i] == classes[i + 1];
      }
      var rest := ChooseReadings(env, classes[1..]);
      rs := [r] + rest;
      forall i | 0 <= i < |classes|
        ensures ReadsAs(env, classes[i], rs[i])
      {
        assert i > 0 ==> classes[i] == classes[1..][i - 1];
      }
    }
  }

  /** A set whose every class pools: the pool and the pooled classes. */
  lemma PooledAll(classes: seq<seq<byte>>) returns (set_: PooledSet)
    requires PoolAll(classes, [[]]).Ok?
    ensures PoolAll(classes, [[]]) == Ok(set_) && |set_.classes| == |classes| && WellFormed(set_.entries)
    ensures forall i | 0 <= i < |classes| :: PooledInto(classes[i], set_.classes[i], set_.entries)
  {
    hide PoolAll, WellFormed, PooledInto;
    FreshPool();
    PoolAllHolds(classes, [[]]);
    set_ := PoolAll(classes, [[]]).value;
  }

  /** Every class of a pooled set links exactly when it can be read. */
  lemma SetLinks(env: Env, classes: seq<seq<byte>>, set_: PooledSet)
    requires |set_.classes| == |classes| && WellFormed(set_.entries)
    requires forall i | 0 <= i < |classes| :: PooledInto(classes[i], set_.classes[i], set_.entries)
    ensures LinkAll(env, set_.classes, PoolBytes(set_.entries)).Ok? <==>
      forall i | 0 <= i < |classes| :: Readable(env, classes[i])
  {
    hide WellFormed, PooledInto, ReadsAs, Linking.LinkPooled;
    var each := LinkEach(env, set_.classes, PoolBytes(set_.entries));
    CollectOk(each);
    forall i | 0 <= i < |classes|
      ensures each[i].Ok? <==> Readable(env, classes[i])
    {
      LinksExactly(env, classes[i], set_.classes[i], set_.entries);
    }
  }

  lemma SetIsLinked(env: Env, classes: seq<seq<byte>>, set_: PooledSet, links: seq<seq<u16>>, rs: seq<Reading>)
    requires |set_.classes| == |classes| <= 4096 && WellFormed(set_.entries) && AllReadAs(env, classes, rs)
    requires forall i | 0 <= i < |classes| :: PooledInto(classes[i], set_.classes[i], set_.entries)
    requires LinkAll(env, set_.classes, PoolBytes(set_.entries)) == Ok(links)
    ensures SetLinked(env, classes, set_.classes, set_.entries, links, rs)
  {
    hide WellFormed, PooledInto, ReadsAs, Linking.LinkPooled;
    LinkedUnplaced(env, set_.classes, PoolBytes(set_.entries));
  }

  /** What must hold between the classes of a set. */
  ghost predicate Together(env: Env, expected: Option<seq<seq<byte>>>, rs: seq<Reading>) {
    && AsExpected(rs, expected) && HashesDiffer(env, rs) && !(exists way :: Circle(rs, way))
    && exists literals :: LiteralsFit(rs, literals)
  }

  /** A set that pools and links prepares exactly when its classes go together. */
  lemma PreparesExactly(env: Env, classes: seq<seq<byte>>, expected: Option<seq<seq<byte>>>, rs: seq<Reading>)
    requires |classes| <= 4096 && AllReadAs(env, classes, rs)
    ensures Prepare(env, classes, expected).Ok? <==> (exists strings :: PoolFits(rs, strings)) && Together(env, expected, rs)
  {
    hide ReadsAs, Readable, PoolAll, PoolFits, LinkAll, Assemble, Together, SetLinked, PooledInto, WellFormed, AllReadAs;
    PoolChosen(env, classes, rs);
    if PoolAll(classes, [[]]).Ok? {
      var set_ := PooledAll(classes);
      var pool := PoolBytes(set_.entries);
      EachRead(env, classes, rs);
      SetLinks(env, classes, set_);
      var links := LinkAll(env, set_.classes, pool).value;
      SetIsLinked(env, classes, set_, links, rs);
      LinkedUnplaced(env, set_.classes, pool);
      Assembles(env, classes, set_.classes, set_.entries, links, rs, expected);
    }
  }

  lemma EachRead(env: Env, classes: seq<seq<byte>>, rs: seq<Reading>)
    requires AllReadAs(env, classes, rs)
    ensures forall i | 0 <= i < |classes| :: Readable(env, classes[i])
  {
    hide ReadsAs;
    forall i | 0 <= i < |classes|
      ensures Readable(env, classes[i])
    {
      assert ReadsAs(env, classes[i], rs[i]);
    }
  }

  lemma Assembles(env: Env, classes: seq<seq<byte>>, pooled: seq<PooledClass>, all: seq<Utf8Pool.Text>, links: seq<seq<u16>>,
                  rs: seq<Reading>, expected: Option<seq<seq<byte>>>)
    requires SetLinked(env, classes, pooled, all, links, rs)
    ensures Unplaced(links) && |BytesOf(pooled)| == |links|
    ensures Assemble(env, BytesOf(pooled), links, PoolBytes(all), expected).Ok? <==> Together(env, expected, rs)
  {
    hide SetLinked, AsExpected, HashesDiffer, Circle, LiteralsFit, Assemble, Unplaced;
    AssemblesExactly(env, classes, pooled, all, links, rs, expected);
  }

  /** `build_section` builds a set exactly when the class file format can read
      each of its classes and they go together. */
  lemma BuildsExactly(env: Env, classes: seq<seq<byte>>, expected: Option<seq<seq<byte>>>)
    ensures BuildSection(env, classes, expected).Ok? <==> exists rs :: Buildable(env, classes, expected, rs)
  {
    hide BuildSection, ReadsAs, Readable, PoolAll, PoolFits, LinkAll, Assemble, AsExpected, HashesDiffer, Circle, LiteralsFit, PooledInto,
         WellFormed, BytesOf;
    NeverInternal.LayingOutNeverFails(env, classes, expected);
    if Prepare(env, classes, expected).Ok? {
      var set_ := PooledAll(classes);
      SetLinks(env, classes, set_);
      var rs := ChooseReadings(env, classes);
      PreparesExactly(env, classes, expected, rs);
      assert Buildable(env, classes, expected, rs);
    }
    if rs :| Buildable(env, classes, expected, rs) {
      PreparesExactly(env, classes, expected, rs);
    }
  }
}
