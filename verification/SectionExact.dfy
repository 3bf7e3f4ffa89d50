/** When `ClassSection::validate` accepts: exactly the sections whose pool is
    tiled, whose rows and tables say what they should, and whose index leads to
    each class by its name. */
module SectionExact {
  import opened AcceptedSection
  import opened AcceptedTable
  import opened BuiltIsAccepted
  import opened Bytes
  import opened ClassFile
  import opened LinkTable
  import opened Section
  import Linking
  import SuperChains
  import TableComplete
  import Utf8Pool

  /** The pool is entries one after another, the empty string first. */
  ghost predicate PoolTiled(pool: seq<byte>) {
    exists entries :: |entries| > 0 && entries[0] == [] && Utf8Pool.PoolBytes(entries) == pool
  }

  /** A literal row leads to bytes with its hash; flag 1 exactly when they are UTF-8. */
  ghost predicate RowSound(env: Env, s: ClassSection, i: nat)
    requires Parsed(s) && i < s.litCount
  {
    && LitBytes(s, i).Some? && LitRow(s, i).Some?
    && LitRow(s, i).value.hash == env.stringHash(LitBytes(s, i).value)
    && LitRow(s, i).value.flags == if env.isUtf8(LitBytes(s, i).value) then 1 else 0
  }

  /** A class's table says what its class file says, and each of its String
      descriptors leads to a row of its bytes. */
  ghost predicate ClassSound(env: Env, s: ClassSection, i: nat)
    requires Parsed(s) && i < s.count
  {
    && ClassChecked(s, i).Ok? && Valid(ClassChecked(s, i).value.link)
    && var linked := ClassChecked(s, i).value;
    && (exists entries, end, cs, b, codes :: TableOf(env, linked.cls, linked.link, entries, end, cs, b, codes))
    && forall k | 0 <= k < StrsLen(linked.link) :: StringSound(s, linked, k)
  }

  ghost predicate StringSound(s: ClassSection, linked: Linked, k: nat)
    requires Parsed(s) && Valid(linked.link) && k < StrsLen(linked.link)
  {
    var d := StringDescAt(linked.link, k);
    StringBytes(linked.link, linked.cls, d.cpOff).Some? && LitBytes(s, d.lit) == StringBytes(linked.link, linked.cls, d.cpOff)
  }

  function SuperName(s: ClassSection, i: nat): Option<seq<byte>>
    requires Parsed(s)
  {
    match ClassChecked(s, i)
    case Err(_) => None
    case Ok(linked) => CheckedIsValid(s, i); LinkedSuperName(linked.link)
  }

  /** `super_idx` names the class of the superclass's name, if the set has one. */
  ghost predicate SuperSound(s: ClassSection, i: nat)
    requires Parsed(s)
  {
    forall j: nat :: SuperIdxAt(s, i) == Some(j) <==>
      j < s.count && SuperName(s, i).Some? && ClassName(s, j) == SuperName(s, i)
  }

  /** Index entry `k`: a class of the set, with the hash of its name. */
  ghost predicate EntrySound(env: Env, s: ClassSection, k: nat)
    requires Parsed(s) && k < s.count
  {
    var e := IndexAt(s, k);
    e.idx < s.count && e.pad == 0 && ClassName(s, e.idx).Some? && e.hash == env.nameHash(ClassName(s, e.idx).value)
  }

  ghost predicate IndexSound(env: Env, s: ClassSection)
    requires Parsed(s)
  {
    && (forall k | 0 <= k < s.count :: EntrySound(env, s, k))
    && (forall j, k | 0 <= j < k < s.count :: IndexAt(s, j).hash < IndexAt(s, k).hash)
    && forall j, k | 0 <= j < k < s.count :: IndexAt(s, j).idx != IndexAt(s, k).idx
  }

  ghost predicate Sound(env: Env, s: ClassSection)
    requires Parsed(s)
  {
    && PoolTiled(PoolOf(s))
    && (forall i | 0 <= i < s.litCount :: RowSound(env, s, i))
    && (forall i | 0 <= i < s.count :: ClassSound(env, s, i) && SuperSound(s, i))
    && SuperChains.Closed(SupersOf(s)) && !SuperChains.HasCycle(SupersOf(s))
    && IndexSound(env, s)
  }

  // ---- accepted sections are sound ---------------------------------------

  lemma RowChecks(env: Env, s: ClassSection, i: nat)
    requires Parsed(s) && i < s.litCount
    ensures CheckLiteral(env, s, i).Ok? <==> RowSound(env, s, i)
  {
  }

  lemma StringChecks(s: ClassSection, linked: Linked, k: nat)
    requires Parsed(s) && Valid(linked.link) && k < StrsLen(linked.link)
    ensures CheckString(s, linked, k).Ok? <==> StringSound(s, linked, k)
  {
    hide NewLink;
  }

  lemma AcceptedIsSound(env: Env, s: ClassSection)
    requires Accepted(env, s)
    ensures Sound(env, s)
  {
    hide TableOf, Linking.ValidateLink, ClassChecked, CheckClass, CheckEntry, StringSound, IndexSound, SuperSound;
    Utf8Pool.PoolCheckExact(PoolOf(s));
    forall i | 0 <= i < s.litCount
      ensures RowSound(env, s, i)
    {
      CheckedLiteral(env, s, i);
      RowChecks(env, s, i);
    }
    forall i | 0 <= i < s.count
      ensures ClassSound(env, s, i) && SuperSound(s, i)
    {
      AcceptedClassSound(env, s, i);
    }
    ChainsLeave(env, s);
    AcceptedIndexSound(env, s);
  }

  lemma AcceptedClassSound(env: Env, s: ClassSection, i: nat)
    requires Accepted(env, s) && i < s.count
    ensures ClassSound(env, s, i) && SuperSound(s, i)
  {
    hide TableOf, Linking.ValidateLink, StringSound, Validate, NewLink, Accepted, ClassChecked, CheckClass, CheckStrings,
         ExpectedSuper, SuperSound;
    AllClassesPass(env, s);
    EachClassChecked(env, s, i);
    CheckedClass(env, s, i);
    var linked := ClassChecked(s, i).value;
    TableComplete.AcceptsExactlyWhatTheClassSays(env, linked.link, linked.cls);
    StringsSound(s, linked);
    AcceptedSuperSound(env, s, i);
  }

  lemma StringsSound(s: ClassSection, linked: Linked)
    requires Parsed(s) && Valid(linked.link) && CheckStrings(s, linked).Ok?
    ensures forall k | 0 <= k < StrsLen(linked.link) :: StringSound(s, linked, k)
  {
    hide StringSound, CheckStrings;
    forall k | 0 <= k < StrsLen(linked.link)
      ensures StringSound(s, linked, k)
    {
      CheckedString(s, linked, k);
      StringChecks(s, linked, k);
    }
  }

  lemma AcceptedSuperSound(env: Env, s: ClassSection, i: nat)
    requires Accepted(env, s) && i < s.count
    ensures SuperSound(s, i)
  {
    hide Accepted, ClassChecked, NewLink, ClassName;
    AcceptedParsed(env, s);
    forall j: nat
      ensures SuperIdxAt(s, i) == Some(j) <==> j < s.count && SuperName(s, i).Some? && ClassName(s, j) == SuperName(s, i)
    {
      SuperIdxExact(env, s, i, j);
    }
  }

  lemma AcceptedParsed(env: Env, s: ClassSection)
    requires Accepted(env, s)
    ensures Parsed(s)
  {
  }

  lemma AllClassesPass(env: Env, s: ClassSection)
    requires Accepted(env, s)
    ensures Parsed(s) && FirstErr(ClassVerdicts(env, s)).Ok? && IndexPasses(s)
  {
  }

  lemma AcceptedIndexSound(env: Env, s: ClassSection)
    requires Accepted(env, s)
    ensures IndexSound(env, s)
  {
    hide Validate, ClassChecked;
    AllClassesPass(env, s);
    IndexIsSortedPermutation(s);
    forall k | 0 <= k < s.count
      ensures EntrySound(env, s, k)
    {
      CheckedAt(s, k);
      AcceptedClass(env, s, IndexAt(s, k).idx);
    }
    forall j, k | 0 <= j < k < s.count
      ensures IndexAt(s, j).hash < IndexAt(s, k).hash
    {
      assert IndexOf(s)[j].hash < IndexOf(s)[k].hash;
    }
  }

  // ---- sound sections are accepted ---------------------------------------

  lemma SoundAscends(env: Env, s: ClassSection)
    requires Parsed(s) && IndexSound(env, s)
    ensures Ascending(IndexOf(s))
  {
  }

  /** In a sound index the hash of a class's name leads to that class. */
  lemma SoundFinds(env: Env, s: ClassSection, j: nat) returns (e: IndexEntry)
    requires Parsed(s) && IndexSound(env, s) && j < s.count && ClassName(s, j).Some?
    ensures Find(IndexOf(s), env.nameHash(ClassName(s, j).value)) == [e] && e.idx == j
  {
    hide ClassName;
    var idxs: seq<nat> := seq(s.count, k requires 0 <= k < s.count => IndexAt(s, k).idx);
    forall k | 0 <= k < s.count
      ensures idxs[k] < s.count
    {
      assert EntrySound(env, s, k);
    }
    SuperChains.AllMet(idxs, j);
    var k :| 0 <= k < |idxs| && idxs[k] == j;
    assert EntrySound(env, s, k);
    e := IndexAt(s, k);
    SoundAscends(env, s);
    assert IndexOf(s)[k] == e;
    FindsEntry(IndexOf(s), k);
  }

  lemma OneNamed(s: ClassSection, e: IndexEntry, name: seq<byte>)
    requires Parsed(s)
    ensures FirstNamed(s, [e], name) == if ClassName(s, e.idx) == Some(name) then Some(e.idx as nat) else None
  {
    assert [e][1..] == [];
  }

  /** Searching by a name finds the class so named, or none. */
  lemma SoundSearch(env: Env, s: ClassSection, name: seq<byte>, found: Option<nat>)
    requires Parsed(s) && IndexSound(env, s)
    requires found == FirstNamed(s, Find(IndexOf(s), env.nameHash(name)), name)
    ensures forall j: nat :: found == Some(j) <==> j < s.count && ClassName(s, j) == Some(name)
  {
    hide ClassName, Find;
    FirstNamedIsClass(s, Find(IndexOf(s), env.nameHash(name)), name);
    forall j: nat | j < s.count && ClassName(s, j) == Some(name)
      ensures found == Some(j)
    {
      var e := SoundFinds(env, s, j);
      OneNamed(s, e, name);
    }
  }

  lemma SoundSuper(env: Env, s: ClassSection, i: nat)
    requires Parsed(s) && IndexSound(env, s) && i < s.count && SuperSound(s, i)
    requires ClassChecked(s, i).Ok? && Valid(ClassChecked(s, i).value.link)
    requires Linking.ValidateLink(env, ClassChecked(s, i).value.link, ClassChecked(s, i).value.cls).Ok?
    ensures SuperIdx(ClassChecked(s, i).value.link) == ExpectedSuper(s, ClassChecked(s, i).value.link)
    ensures ClassName(s, i) == LinkedName(ClassChecked(s, i).value.link) && ClassName(s, i).Some?
    ensures NameHash(ClassChecked(s, i).value.link) == env.nameHash(ClassName(s, i).value)
  {
    hide Linking.ValidateLink, IndexSound, NewLink, Find, FirstNamed;
    var linked := ClassChecked(s, i).value;
    Linking.AcceptedNames(env, linked.link, linked.cls);
    var super := LinkedSuperName(linked.link);
    assert SuperName(s, i) == super && SuperIdxAt(s, i) == SuperIdx(linked.link);
    if super.Some? {
      SuperHasRef(linked.link);
      SoundSearch(env, s, super.value, ExpectedSuper(s, linked.link));
    }
    OptionsAgree(SuperIdxAt(s, i), ExpectedSuper(s, linked.link));
  }

  lemma SuperHasRef(l: Link)
    requires Valid(l) && LinkedSuperName(l).Some?
    ensures SuperRefOf(l) != 0
  {
  }

  lemma OptionsAgree(a: Option<nat>, b: Option<nat>)
    ensures (forall j: nat :: a == Some(j) <==> b == Some(j)) ==> a == b
  {
    if a.Some? {
      assert a == Some(a.value);
    }
    if b.Some? {
      assert b == Some(b.value);
    }
  }

  lemma SoundClassPasses(env: Env, s: ClassSection, i: nat)
    requires Parsed(s) && Sound(env, s) && i < s.count
    ensures CheckClass(env, s, i).Ok? && ClassChecked(s, i).Ok? && Valid(ClassChecked(s, i).value.link)
    ensures ClassName(s, i).Some? && NameHash(ClassChecked(s, i).value.link) == env.nameHash(ClassName(s, i).value)
  {
    hide TableOf, Linking.ValidateLink, StringSound, NewLink, IndexSound, SuperSound, ClassChecked, ExpectedSuper, RowSound,
         SuperChains.HasCycle, SuperChains.Closed, PoolTiled, ClassName;
    assert ClassSound(env, s, i) && SuperSound(s, i);
    var linked := ClassChecked(s, i).value;
    TableComplete.AcceptsExactlyWhatTheClassSays(env, linked.link, linked.cls);
    SoundSuper(env, s, i);
    forall k | 0 <= k < |StringVerdicts(s, linked)|
      ensures StringVerdicts(s, linked)[k].Ok?
    {
      StringChecks(s, linked, k);
    }
    FirstErrOk(StringVerdicts(s, linked));
  }

  lemma SoundEntryPasses(env: Env, s: ClassSection, k: nat)
    requires Parsed(s) && Sound(env, s) && k < s.count
    ensures CheckEntry(s, k, SeenBefore(s, k)).Ok?
  {
    hide Sound, ClassChecked, CheckEntry, ClassName;
    assert IndexSound(env, s) by {
      IndexOfSound(env, s);
    }
    var e := IndexAt(s, k);
    assert EntrySound(env, s, k);
    SoundClassPasses(env, s, e.idx);
    if e.idx in SeenBefore(s, k) {
      SeenOnlyBefore(s, k, e.idx);
    }
    assert Stands(s, k, e);
    EntryIsGood(s, k, e, ClassChecked(s, e.idx).value);
  }

  lemma IndexOfSound(env: Env, s: ClassSection)
    requires Parsed(s) && Sound(env, s)
    ensures IndexSound(env, s)
  {
    hide IndexSound;
  }

  lemma SoundPasses(env: Env, s: ClassSection)
    requires Parsed(s) && Sound(env, s)
    ensures Validate(env, s).Ok?
  {
    hide ClassChecked, CheckClass, CheckEntry, IndexSound, ClassSound, SuperSound, RowSound, SuperChains.HasCycle,
         SuperChains.Closed, SuperChains.Verdict, CheckLiteral;
    Utf8Pool.PoolCheckExact(PoolOf(s));
    forall i | 0 <= i < s.litCount
      ensures LiteralVerdicts(env, s)[i].Ok?
    {
      RowChecks(env, s, i);
    }
    FirstErrOk(LiteralVerdicts(env, s));
    forall i | 0 <= i < s.count
      ensures ClassVerdicts(env, s)[i].Ok?
    {
      SoundClassPasses(env, s, i);
    }
    FirstErrOk(ClassVerdicts(env, s));
    SuperChains.PassesExactlyAcyclic(SupersOf(s));
    forall k | 0 <= k < s.count
      ensures IndexVerdicts(s)[k].Ok?
    {
      SoundEntryPasses(env, s, k);
    }
    FirstErrOk(IndexVerdicts(s));
  }

  /** The deep check passes exactly the sound sections. */
  lemma ValidatesExactly(env: Env, s: ClassSection)
    requires Parsed(s)
    ensures Validate(env, s).Ok? <==> Sound(env, s)
  {
    hide Validate, Sound;
    if Validate(env, s).Ok? {
      AcceptedIsSound(env, s);
    }
    if Sound(env, s) {
      SoundPasses(env, s);
    }
  }
}
