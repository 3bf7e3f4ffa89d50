/** What `ClassSection::validate` answers for a section that is not sound: the
    first thing wrong, in the order of its checks. */
module SectionRefusals {
  import opened AcceptedSection
  import opened AcceptedTable
  import opened Bytes
  import opened ClassFile
  import opened LinkTable
  import opened Section
  import opened SectionExact
  import Linking
  import SuperChains
  import TableComplete
  import Utf8Pool

  /** The table says what its class file says. */
  ghost predicate TableSound(env: Env, linked: Linked) {
    exists entries, end, cs, b, codes :: TableOf(env, linked.cls, linked.link, entries, end, cs, b, codes)
  }

  ghost predicate StringsAllSound(s: ClassSection, linked: Linked)
    requires Parsed(s) && Valid(linked.link)
  {
    forall k | 0 <= k < StrsLen(linked.link) :: StringSound(s, linked, k)
  }

  /** Class `i` is refused with `e`: for its record, its table, a String of its
      or its superclass. */
  ghost predicate ClassRefusedFor(env: Env, s: ClassSection, i: nat, e: LinkError)
    requires Parsed(s) && i < s.count
  {
    match ClassChecked(s, i)
    case Err(x) => e == x
    case Ok(linked) =>
      Valid(linked.link)
      && if !TableSound(env, linked) then Linking.ValidateLink(env, linked.link, linked.cls) == Err(e)
         else if !StringsAllSound(s, linked) then e == BadLiteral
         else e == BadSuperIndex(AsU16(i))
  }

  /** Entry `k` names a class no earlier entry names, by the hash of its name. */
  ghost predicate EntryFits(env: Env, s: ClassSection, k: nat)
    requires Parsed(s) && k < s.count
  {
    EntrySound(env, s, k) && forall j | 0 <= j < k :: IndexAt(s, j).idx != IndexAt(s, k).idx
  }

  /** Entry `k` is refused with `e`: an entry that does not fit, or is below the
      one before it, or shares its hash, and then perhaps its name. */
  ghost predicate EntryRefusedFor(env: Env, s: ClassSection, k: nat, e: LinkError)
    requires Parsed(s) && k < s.count
  {
    if !EntryFits(env, s, k) || k == 0 || IndexAt(s, k - 1).hash != IndexAt(s, k).hash then e == BadIndex
    else
      var a, b := IndexAt(s, k - 1).idx, IndexAt(s, k).idx;
      e == if ClassName(s, a) == ClassName(s, b) then DuplicateClass(a, b) else HashCollision(a, b)
  }

  lemma PoolRefused(pool: seq<byte>)
    ensures Utf8Pool.CheckPool(pool).Err? ==> Utf8Pool.CheckPool(pool) == Err(BadPool)
  {
    if Utf8Pool.CheckPool(pool).Err? {
      TilesRefused(pool, 0);
    }
  }

  lemma {:induction false} TilesRefused(pool: seq<byte>, at: nat)
    ensures Utf8Pool.CheckTiles(pool, at).Err? ==> Utf8Pool.CheckTiles(pool, at) == Err(BadPool)
    decreases |pool| - at
  {
    if at < |pool| && Be16(pool, at).Some? {
      TilesRefused(pool, Align4(at + 2 + Be16(pool, at).value));
    }
  }

  lemma RowsRefused(env: Env, s: ClassSection)
    requires Parsed(s) && CheckLiterals(env, s).Err?
    ensures CheckLiterals(env, s) == Err(BadLiteral) && exists i | 0 <= i < s.litCount :: !RowSound(env, s, i)
  {
    hide RowSound;
    var i := FirstErrAt(LiteralVerdicts(env, s));
    RowChecks(env, s, i);
    assert !RowSound(env, s, i);
    RowRefused(env, s, i);
  }

  lemma RowRefused(env: Env, s: ClassSection, i: nat)
    requires Parsed(s) && CheckLiteral(env, s, i).Err?
    ensures CheckLiteral(env, s, i) == Err(BadLiteral)
  {
  }

  lemma StringsRefused(s: ClassSection, linked: Linked)
    requires Parsed(s) && Valid(linked.link)
    ensures CheckStrings(s, linked).Ok? <==> StringsAllSound(s, linked)
    ensures CheckStrings(s, linked).Err? ==> CheckStrings(s, linked) == Err(BadLiteral)
  {
    hide StringSound, NewLink, CheckString;
    LinkIsLong(linked.link);
    FirstErrOk(StringVerdicts(s, linked));
    forall k | 0 <= k < StrsLen(linked.link)
      ensures StringVerdicts(s, linked)[k].Ok? <==> StringSound(s, linked, k)
    {
      StringChecks(s, linked, k);
    }
    if CheckStrings(s, linked).Err? {
      var k := FirstErrAt(StringVerdicts(s, linked));
      StringRefused(s, linked, k);
    }
  }

  lemma LinkIsLong(l: Link)
    requires Valid(l)
    ensures |l.words| >= HEADER_WORDS
  {
  }

  lemma StringRefused(s: ClassSection, linked: Linked, k: nat)
    requires Parsed(s) && Valid(linked.link) && k < StrsLen(linked.link) && CheckString(s, linked, k).Err?
    ensures CheckString(s, linked, k) == Err(BadLiteral)
  {
    hide NewLink;
  }

  lemma ClassRefused(env: Env, s: ClassSection, i: nat, e: LinkError)
    requires Parsed(s) && i < s.count && CheckClass(env, s, i) == Err(e)
    ensures ClassRefusedFor(env, s, i, e)
  {
    hide TableOf, Linking.ValidateLink, NewLink, ClassChecked, StringsAllSound, CheckStrings, ExpectedSuper, TableSound;
    if ClassChecked(s, i).Ok? {
      var linked := ClassChecked(s, i).value;
      CheckedIsValid(s, i);
      TableIsSound(env, linked);
      StringsRefused(s, linked);
      if Linking.ValidateLink(env, linked.link, linked.cls).Ok? {
        Linking.AcceptedNames(env, linked.link, linked.cls);
      }
    }
  }

  lemma TableIsSound(env: Env, linked: Linked)
    requires Valid(linked.link)
    ensures Linking.ValidateLink(env, linked.link, linked.cls).Ok? <==> TableSound(env, linked)
  {
    hide TableOf, Linking.ValidateLink;
    TableComplete.AcceptsExactlyWhatTheClassSays(env, linked.link, linked.cls);
  }

  lemma {:induction false} SeenExactly(s: ClassSection, n: nat, x: nat)
    requires Parsed(s) && n <= s.count
    ensures x in SeenBefore(s, n) <==> exists j :: 0 <= j < n && IndexAt(s, j).idx == x
    decreases n
  {
    if n > 0 {
      SeenExactly(s, n - 1, x);
    }
  }

  lemma EntryRefused(env: Env, s: ClassSection, k: nat, e: LinkError)
    requires Parsed(s) && k < s.count && FirstErr(ClassVerdicts(env, s)).Ok?
    requires CheckEntry(s, k, SeenBefore(s, k)) == Err(e) && (k > 0 ==> IndexAt(s, k - 1).idx < s.count)
    ensures EntryRefusedFor(env, s, k, e)
  {
    hide ClassChecked, CheckClass, NewLink;
    var x := IndexAt(s, k);
    SeenExactly(s, k, x.idx);
    if x.idx < s.count {
      NamedByHash(env, s, x.idx);
    }
    if k > 0 {
      NamedByHash(env, s, IndexAt(s, k - 1).idx);
    }
  }

  /** A class that passed reads, with the hash of its name. */
  lemma NamedByHash(env: Env, s: ClassSection, i: nat)
    requires Parsed(s) && i < s.count && FirstErr(ClassVerdicts(env, s)).Ok?
    ensures ClassChecked(s, i).Ok? && Valid(ClassChecked(s, i).value.link)
    ensures ClassName(s, i) == LinkedName(ClassChecked(s, i).value.link) && ClassName(s, i).Some?
    ensures NameHash(ClassChecked(s, i).value.link) == env.nameHash(ClassName(s, i).value)
  {
    hide Linking.ValidateLink;
    EachClassChecked(env, s, i);
    CheckedClass(env, s, i);
    var linked := ClassChecked(s, i).value;
    Linking.AcceptedNames(env, linked.link, linked.cls);
  }

  /** The deep check refuses an unsound section for the first of these. */
  ghost predicate RefusedFor(env: Env, s: ClassSection, e: LinkError)
    requires Parsed(s)
  {
    if !PoolTiled(PoolOf(s)) then e == BadPool
    else if exists i | 0 <= i < s.litCount :: !RowSound(env, s, i) then e == BadLiteral
    else if FirstErr(ClassVerdicts(env, s)).Err? then
      exists i | 0 <= i < s.count :: ClassRefusedFor(env, s, i, e) && forall j | 0 <= j < i :: CheckClass(env, s, j).Ok?
    else if !SuperChains.Closed(SupersOf(s)) || SuperChains.HasCycle(SupersOf(s)) then
      SuperChains.Closed(SupersOf(s))
      && exists i | 0 <= i < s.count ::
           && e == SuperCycle(AsU16(i)) && SuperChains.NeverLeaves(SupersOf(s), i)
           && forall j | 0 <= j < i :: !SuperChains.NeverLeaves(SupersOf(s), j)
    else exists k | 0 <= k < s.count :: EntryRefusedFor(env, s, k, e)
  }

  lemma RowsAllPass(env: Env, s: ClassSection)
    requires Parsed(s) && CheckLiterals(env, s).Ok?
    ensures forall i | 0 <= i < s.litCount :: RowSound(env, s, i)
  {
    hide RowSound;
    forall i | 0 <= i < s.litCount
      ensures RowSound(env, s, i)
    {
      CheckedLiteral(env, s, i);
      RowChecks(env, s, i);
    }
  }

  lemma ClassesRefused(env: Env, s: ClassSection) returns (i: nat)
    requires Parsed(s) && FirstErr(ClassVerdicts(env, s)).Err?
    ensures i < s.count && ClassRefusedFor(env, s, i, FirstErr(ClassVerdicts(env, s)).error)
    ensures forall j | 0 <= j < i :: CheckClass(env, s, j).Ok?
  {
    hide ClassRefusedFor, CheckClass;
    i := FirstErrAt(ClassVerdicts(env, s));
    assert forall j | 0 <= j < i :: ClassVerdicts(env, s)[j] == CheckClass(env, s, j);
    ClassRefused(env, s, i, FirstErr(ClassVerdicts(env, s)).error);
  }

  lemma PassedInRange(s: ClassSection, k: nat)
    requires Parsed(s) && k < s.count && CheckEntry(s, k, SeenBefore(s, k)).Ok?
    ensures IndexAt(s, k).idx < s.count
  {
    hide ClassChecked;
  }

  lemma EntriesRefused(env: Env, s: ClassSection) returns (k: nat)
    requires Parsed(s) && FirstErr(ClassVerdicts(env, s)).Ok? && FirstErr(IndexVerdicts(s)).Err?
    ensures k < s.count && EntryRefusedFor(env, s, k, FirstErr(IndexVerdicts(s)).error)
  {
    hide EntryRefusedFor, CheckEntry, CheckClass, IndexVerdicts, SeenBefore, ClassVerdicts, IndexAt, Parsed;
    k := FirstErrAt(IndexVerdicts(s));
    VerdictIs(s, k);
    if k > 0 {
      VerdictIs(s, k - 1);
      PassedInRange(s, k - 1);
    }
    EntryRefused(env, s, k, FirstErr(IndexVerdicts(s)).error);
  }

  lemma VerdictIs(s: ClassSection, k: nat)
    requires Parsed(s) && k < |IndexVerdicts(s)|
    ensures k < s.count && IndexVerdicts(s)[k] == CheckEntry(s, k, SeenBefore(s, k))
  {
    hide CheckEntry, SeenBefore;
  }

  /** The deep check names what is wrong first. */
  lemma RefusalNamesFirst(env: Env, s: ClassSection, e: LinkError)
    requires Parsed(s) && Validate(env, s) == Err(e)
    ensures RefusedFor(env, s, e)
  {
    hide RowSound, ClassRefusedFor, EntryRefusedFor, PoolTiled, CheckClass, CheckEntry, SuperChains.Closed, SuperChains.HasCycle,
         SuperChains.Verdict, SuperChains.NeverLeaves, CheckLiteral, CheckLiterals, Utf8Pool.CheckPool, ClassVerdicts, IndexVerdicts;
    Utf8Pool.PoolCheckExact(PoolOf(s));
    PoolIs(s);
    PoolRefused(PoolOf(s));
    if Utf8Pool.CheckPool(PoolOf(s)).Ok? {
      if CheckLiterals(env, s).Err? {
        RowsRefused(env, s);
      } else {
        RowsAllPass(env, s);
        if FirstErr(ClassVerdicts(env, s)).Err? {
          var i := ClassesRefused(env, s);
        } else {
          CheckedSupersClosed(env, s);
          SuperChains.PassesExactlyAcyclic(SupersOf(s));
          if SuperChains.Verdict(SupersOf(s), 0).Err? {
            SuperChains.RefusalNamesLeast(SupersOf(s));
          } else {
            var k := EntriesRefused(env, s);
          }
        }
      }
    }
  }

  lemma PoolIs(s: ClassSection)
    requires Parsed(s)
    ensures PoolTiled(PoolOf(s)) <==> Utf8Pool.CheckPool(PoolOf(s)).Ok?
  {
    Utf8Pool.PoolCheckExact(PoolOf(s));
  }
}
