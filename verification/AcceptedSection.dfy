/** What a section that `ClassSection::validate` accepts promises the runtime. */
module AcceptedSection {
  import opened Bytes
  import opened ClassFile
  import opened LinkTable
  import opened Section
  import Linking
  import SuperChains

  // ---- the index ---------------------------------------------------------

  /** What the index check establishes of entry `k`. */
  ghost predicate EntryHolds(s: ClassSection, k: nat)
    requires Parsed(s) && k < s.count
  {
    var e := IndexAt(s, k);
    && e.idx < s.count && e.pad == 0
    && ClassChecked(s, e.idx).Ok?
    && Valid(ClassChecked(s, e.idx).value.link)
    && NameHash(ClassChecked(s, e.idx).value.link) == e.hash
    && (k > 0 ==> IndexAt(s, k - 1).hash < e.hash)
  }

  lemma CheckedAt(s: ClassSection, k: nat)
    requires Parsed(s) && IndexPasses(s) && k < s.count
    ensures EntryHolds(s, k) && IndexAt(s, k).idx !in SeenBefore(s, k)
  {
    FirstErrOk(IndexVerdicts(s));
    assert IndexVerdicts(s)[k].Ok?;
    CheckedIsValid(s, IndexAt(s, k).idx);
  }

  lemma {:induction false} SeenAfter(s: ClassSection, j: nat, n: nat)
    requires Parsed(s) && j < n <= s.count
    ensures IndexAt(s, j).idx in SeenBefore(s, n)
    decreases n
  {
    if j < n - 1 {
      SeenAfter(s, j, n - 1);
    }
  }

  /** The index ascends strictly by hash. */
  ghost predicate Ascending(index: seq<IndexEntry>) {
    forall j, k | 0 <= j < k < |index| :: index[j].hash < index[k].hash
  }

  lemma {:induction false} StepsAscend(hashes: seq<u32>, j: nat, k: nat)
    requires forall m | 0 < m < |hashes| :: hashes[m - 1] < hashes[m]
    requires j < k < |hashes|
    ensures hashes[j] < hashes[k]
    decreases k
  {
    if j < k - 1 {
      StepsAscend(hashes, j, k - 1);
    }
  }

  lemma EntryAscends(s: ClassSection, k: nat)
    requires Parsed(s) && IndexPasses(s) && 0 < k < s.count
    ensures IndexAt(s, k - 1).hash < IndexAt(s, k).hash
  {
    CheckedAt(s, k);
  }

  /** The hashes of the index, in order. */
  function Hashes(s: ClassSection): (r: seq<u32>)
    requires Parsed(s)
    ensures |r| == s.count && forall k | 0 <= k < s.count :: r[k] == IndexAt(s, k).hash
  {
    seq(s.count, k requires 0 <= k < s.count => IndexAt(s, k).hash)
  }

  lemma HashesAscend(s: ClassSection)
    requires Parsed(s) && IndexPasses(s)
    ensures forall m | 0 < m < |Hashes(s)| :: Hashes(s)[m - 1] < Hashes(s)[m]
  {
    forall m | 0 < m < |Hashes(s)|
      ensures Hashes(s)[m - 1] < Hashes(s)[m]
    {
      EntryAscends(s, m);
    }
  }

  lemma IndexAscends(s: ClassSection)
    requires Parsed(s) && IndexPasses(s)
    ensures Ascending(IndexOf(s))
  {
    HashesAscend(s);
    forall j, k | 0 <= j < k < s.count
      ensures IndexOf(s)[j].hash < IndexOf(s)[k].hash
    {
      StepsAscend(Hashes(s), j, k);
    }
  }

  /** Some entry of the index names class `i`. */
  ghost predicate Indexed(s: ClassSection, i: nat)
    requires Parsed(s)
  {
    exists k :: 0 <= k < s.count && IndexAt(s, k).idx == i
  }

  lemma EveryClassIndexed(s: ClassSection, i: nat)
    requires Parsed(s) && IndexPasses(s) && i < s.count
    ensures Indexed(s, i)
  {
    var idxs: seq<nat> := seq(s.count, k requires 0 <= k < s.count => IndexAt(s, k).idx);
    forall k | 0 <= k < s.count
      ensures idxs[k] < s.count
    {
      CheckedAt(s, k);
    }
    forall j, k | 0 <= j < k < s.count
      ensures idxs[j] != idxs[k]
    {
      SeenAfter(s, j, k);
      CheckedAt(s, k);
    }
    SuperChains.AllMet(idxs, i);
    var k :| 0 <= k < |idxs| && idxs[k] == i;
    assert IndexAt(s, k).idx == i;
  }

  /** The index of an accepted section: strictly ascending, and a permutation
      of the directory. */
  lemma IndexIsSortedPermutation(s: ClassSection)
    requires Parsed(s) && IndexPasses(s)
    ensures Ascending(IndexOf(s))
    ensures forall i | 0 <= i < s.count :: Indexed(s, i)
    ensures forall j, k | 0 <= j < k < s.count :: IndexAt(s, j).idx != IndexAt(s, k).idx
  {
    IndexAscends(s);
    forall j, k | 0 <= j < k < s.count
      ensures IndexAt(s, j).idx != IndexAt(s, k).idx
    {
      SeenAfter(s, j, k);
      CheckedAt(s, k);
    }
    forall i | 0 <= i < s.count
      ensures Indexed(s, i)
    {
      EveryClassIndexed(s, i);
    }
  }

  // ---- searching it ------------------------------------------------------

  lemma {:induction false} PartitionPointSplits(index: seq<IndexEntry>, below: IndexEntry -> bool, lo: nat, hi: nat, at: nat)
    requires lo <= at <= hi <= |index|
    requires forall k | lo <= k < hi :: below(index[k]) <==> k < at
    ensures PartitionPoint(index, below, lo, hi) == at
    decreases hi - lo
  {
    if lo < hi {
      var mid := (lo + hi) / 2;
      if below(index[mid]) {
        PartitionPointSplits(index, below, mid + 1, hi, at);
      } else {
        PartitionPointSplits(index, below, lo, mid, at);
      }
    }
  }

  /** In an ascending index a hash that is there is found, alone. */
  lemma FindsEntry(index: seq<IndexEntry>, k: nat)
    requires Ascending(index) && k < |index|
    ensures Find(index, index[k].hash) == [index[k]]
  {
    var hash := index[k].hash;
    PartitionPointSplits(index, (e: IndexEntry) => e.hash < hash, 0, |index|, k);
    PartitionPointSplits(index, (e: IndexEntry) => e.hash == hash, k, |index|, k + 1);
  }

  // ---- what acceptance promises ------------------------------------------

  ghost predicate Accepted(env: Env, s: ClassSection) { Parsed(s) && Validate(env, s).Ok? }

  /** Every class record reads, and its name hashes to the hash its table keeps. */
  lemma AcceptedClass(env: Env, s: ClassSection, i: nat)
    requires Accepted(env, s) && i < s.count
    ensures ClassChecked(s, i).Ok? && Valid(ClassChecked(s, i).value.link)
    ensures var link := ClassChecked(s, i).value.link;
      && ClassName(s, i).Some? && ClassName(s, i) == LinkedName(link)
      && NameHash(link) == env.nameHash(ClassName(s, i).value)
      && SuperIdx(link) == ExpectedSuper(s, link)
      && (SuperRefOf(link) != 0 ==>
            LinkedSuperName(link).Some? && SuperHash(link) == env.nameHash(LinkedSuperName(link).value))
  {
    EachClassChecked(env, s, i);
    CheckedClass(env, s, i);
    var linked := ClassChecked(s, i).value;
    Linking.AcceptedNames(env, linked.link, linked.cls);
  }

  lemma FindsNamed(env: Env, s: ClassSection, name: seq<byte>, i: nat)
    requires Accepted(env, s) && i < s.count && ClassName(s, i) == Some(name)
    ensures FindClass(env, s, name) == Some(i)
  {
    var e := NamedEntry(env, s, name, i);
    assert [e][1..] == [];
  }

  lemma NamedEntry(env: Env, s: ClassSection, name: seq<byte>, i: nat) returns (e: IndexEntry)
    requires Accepted(env, s) && i < s.count && ClassName(s, i) == Some(name)
    ensures Find(IndexOf(s), env.nameHash(name)) == [e] && e.idx == i
  {
    AcceptedClass(env, s, i);
    IndexIsSortedPermutation(s);
    EveryClassIndexed(s, i);
    var k :| 0 <= k < s.count && IndexAt(s, k).idx == i;
    CheckedAt(s, k);
    e := IndexAt(s, k);
    assert IndexOf(s)[k] == e;
    FindsEntry(IndexOf(s), k);
  }

  /** `find_class` finds exactly the class of that name. */
  lemma FindClassExact(env: Env, s: ClassSection, name: seq<byte>, i: nat)
    requires Accepted(env, s)
    ensures FindClass(env, s, name) == Some(i) <==> i < s.count && ClassName(s, i) == Some(name)
  {
    FirstNamedIsClass(s, Find(IndexOf(s), env.nameHash(name)), name);
    if i < s.count && ClassName(s, i) == Some(name) {
      FindsNamed(env, s, name, i);
    }
  }

  /** No two classes share a name. */
  lemma NamesDistinct(env: Env, s: ClassSection, i: nat, j: nat)
    requires Accepted(env, s) && i < s.count && j < s.count && ClassName(s, i) == ClassName(s, j)
    ensures i == j
  {
    AcceptedClass(env, s, i);
    FindClassExact(env, s, ClassName(s, i).value, i);
    FindClassExact(env, s, ClassName(s, i).value, j);
  }

  /** `super_idx` is there exactly when the section holds the class the
      superclass name spells, and then it is that class. */
  lemma SuperIdxExact(env: Env, s: ClassSection, i: nat, j: nat)
    requires Accepted(env, s) && i < s.count
    ensures ClassChecked(s, i).Ok? && Valid(ClassChecked(s, i).value.link)
    ensures SuperIdxAt(s, i) == Some(j) <==>
      var super := LinkedSuperName(ClassChecked(s, i).value.link);
      super.Some? && j < s.count && ClassName(s, j) == super
  {
    AcceptedClass(env, s, i);
    var link := ClassChecked(s, i).value.link;
    if LinkedSuperName(link).Some? {
      FindClassExact(env, s, LinkedSuperName(link).value, j);
    }
  }

  /** No superclass chain of the set comes back to where it was. */
  lemma ChainsLeave(env: Env, s: ClassSection)
    requires Accepted(env, s)
    ensures SuperChains.Closed(SupersOf(s)) && !SuperChains.HasCycle(SupersOf(s))
  {
    CheckedSupersClosed(env, s);
    SuperChains.PassesExactlyAcyclic(SupersOf(s));
  }

  lemma CheckedString(s: ClassSection, linked: Linked, k: nat)
    requires Parsed(s) && Valid(linked.link) && CheckStrings(s, linked).Ok? && k < StrsLen(linked.link)
    ensures CheckString(s, linked, k).Ok?
  {
    FirstErrOk(StringVerdicts(s, linked));
    assert StringVerdicts(s, linked)[k].Ok?;
  }

  lemma CheckedLiteral(env: Env, s: ClassSection, i: nat)
    requires Parsed(s) && CheckLiterals(env, s).Ok? && i < s.litCount
    ensures CheckLiteral(env, s, i).Ok?
  {
    FirstErrOk(LiteralVerdicts(env, s));
    assert LiteralVerdicts(env, s)[i].Ok?;
  }

  /** Every String descriptor names a literal row that holds its constant's
      bytes and their hash, flagged 1 exactly when they are UTF-8. */
  lemma StringsNameTheirRows(env: Env, s: ClassSection, i: nat, k: nat)
    requires Accepted(env, s) && i < s.count
    requires ClassChecked(s, i).Ok? && Valid(ClassChecked(s, i).value.link)
    requires k < StrsLen(ClassChecked(s, i).value.link)
    ensures var linked := ClassChecked(s, i).value;
      var d := StringDescAt(linked.link, k);
      var bytes := StringBytes(linked.link, linked.cls, d.cpOff);
      && bytes.Some? && LitBytes(s, d.lit) == bytes
      && LitRow(s, d.lit).Some?
      && LitRow(s, d.lit).value.hash == env.stringHash(bytes.value)
      && LitRow(s, d.lit).value.flags == (if env.isUtf8(bytes.value) then 1 else 0)
  {
    EachClassChecked(env, s, i);
    CheckedClass(env, s, i);
    var linked := ClassChecked(s, i).value;
    CheckedString(s, linked, k);
    CheckedLiteral(env, s, StringDescAt(linked.link, k).lit);
  }
}
