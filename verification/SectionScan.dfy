/** The loops of `crates/class-link/src/section.rs`: the deep check, and the
    merge pass over two indexes. */
module SectionScan {
  import opened Bytes
  import opened ClassFile
  import opened LinkTable
  import opened Linker
  import opened Section
  import SectionBuild
  import SuperChains
  import Utf8Pool

  // ---- the deep check ----------------------------------------------------

  /** The tiling loop: zero-padded entries, the first the empty string. */
  method CheckPoolTiles(pool: seq<byte>) returns (r: Result<()>)
    ensures r == Utf8Pool.CheckPool(pool)
  {
    if Be16(pool, 0) != Some(0) {
      return Err(BadPool);
    }
    var at: nat := 0;
    while at < |pool|
      invariant Utf8Pool.CheckTiles(pool, 0) == Utf8Pool.CheckTiles(pool, at)
      decreases |pool| - at
    {
      var len :- OkOr(Be16(pool, at), BadPool);
      var end: nat := at + 2 + len;
      var next: nat := Align4(end);
      assert at < end <= next;
      if next > |pool| || !Utf8Pool.AllZero(pool[end..next]) {
        return Err(BadPool);
      }
      at := next;
    }
    return Ok(());
  }

  method CheckEachLiteral(env: Env, s: ClassSection) returns (r: Result<()>)
    requires Parsed(s)
    ensures r == CheckLiterals(env, s)
  {
    ghost var verdicts := LiteralVerdicts(env, s);
    assert verdicts[0..] == verdicts;
    for i := 0 to s.litCount
      invariant FirstErr(verdicts) == FirstErr(verdicts[i..])
    {
      assert verdicts[i..][1..] == verdicts[i + 1..];
      var _ :- CheckLiteral(env, s, i);
    }
    return Ok(());
  }

  method CheckEachString(s: ClassSection, linked: Linked) returns (r: Result<()>)
    requires Parsed(s) && Valid(linked.link)
    ensures r == CheckStrings(s, linked)
  {
    ghost var verdicts := StringVerdicts(s, linked);
    assert verdicts[0..] == verdicts;
    for k := 0 to StrsLen(linked.link)
      invariant FirstErr(verdicts) == FirstErr(verdicts[k..])
    {
      assert verdicts[k..][1..] == verdicts[k + 1..];
      var _ :- CheckString(s, linked, k);
    }
    return Ok(());
  }

  method CheckOneClass(env: Env, s: ClassSection, i: nat) returns (r: Result<()>)
    requires Parsed(s)
    ensures r == CheckClass(env, s, i)
  {
    var linked :- ClassChecked(s, i);
    CheckedIsValid(s, i);
    var _ :- ValidateTable(env, linked.link, linked.cls);
    if LinkedName(linked.link).None? {
      return Err(BadOffset(13));
    }
    var _ :- CheckEachString(s, linked);
    if SuperIdx(linked.link) != ExpectedSuper(s, linked.link) {
      return Err(BadSuperIndex(AsU16(i)));
    }
    return Ok(());
  }

  method CheckEachClass(env: Env, s: ClassSection) returns (r: Result<()>)
    requires Parsed(s)
    ensures r == FirstErr(ClassVerdicts(env, s))
  {
    ghost var verdicts := ClassVerdicts(env, s);
    assert verdicts[0..] == verdicts;
    for i := 0 to s.count
      invariant FirstErr(verdicts) == FirstErr(verdicts[i..])
    {
      assert verdicts[i..][1..] == verdicts[i + 1..] && verdicts[i..][0] == CheckClass(env, s, i);
      var _ :- CheckOneClass(env, s, i);
    }
    return Ok(());
  }

  /** The array marks exactly the classes the first `n` entries name. */
  ghost predicate Marks(seen: array<bool>, s: ClassSection, n: nat)
    requires Parsed(s) && n <= s.count
    reads seen
  {
    seen.Length == s.count && forall x | 0 <= x < s.count :: seen[x] <==> x in SeenBefore(s, n)
  }

  /** The index, entry by entry, with a mark for every class met. */
  method CheckEachEntry(s: ClassSection) returns (r: Result<()>)
    requires Parsed(s)
    ensures r == FirstErr(IndexVerdicts(s))
  {
    var seen := new bool[s.count](_ => false);
    ghost var verdicts := IndexVerdicts(s);
    assert verdicts[0..] == verdicts;
    for n := 0 to s.count
      invariant Marks(seen, s, n)
      invariant FirstErr(verdicts) == FirstErr(verdicts[n..])
    {
      assert verdicts[n..][1..] == verdicts[n + 1..] && verdicts[n..][0] == CheckEntry(s, n, SeenBefore(s, n));
      var _ :- CheckIndexEntry(s, n, seen);
    }
    return Ok(());
  }

  method CheckIndexEntry(s: ClassSection, n: nat, seen: array<bool>) returns (r: Result<()>)
    requires Parsed(s) && n < s.count && Marks(seen, s, n)
    modifies seen
    ensures r == CheckEntry(s, n, SeenBefore(s, n))
    ensures r.Ok? ==> Marks(seen, s, n + 1)
  {
    var e := IndexAt(s, n);
    if e.idx >= s.count || e.pad != 0 {
      return Err(BadIndex);
    }
    if seen[e.idx] {
      return Err(BadIndex);
    }
    seen[e.idx] := true;
    var linked :- ClassChecked(s, e.idx);
    CheckedIsValid(s, e.idx);
    if NameHash(linked.link) != e.hash {
      return Err(BadIndex);
    }
    if n > 0 {
      var _ :- CheckAscent(s, n, LinkedName(linked.link));
    }
    return Ok(());
  }

  /** `ClassSection::validate` */
  method ValidateSection(env: Env, s: ClassSection) returns (r: Result<()>)
    requires Parsed(s)
    ensures r == Validate(env, s)
  {
    var _ :- CheckPoolTiles(PoolOf(s));
    var _ :- CheckEachLiteral(env, s);
    var _ :- CheckEachClass(env, s);
    CheckedSupersClosed(env, s);
    var _ :- SuperChains.CheckSuperChains(SupersOf(s));
    r := CheckEachEntry(s);
  }

  // ---- two indexes -------------------------------------------------------

  /** Entries `i` of one index and `j` of the other share a hash, and no pair
      earlier in either does. */
  ghost predicate FirstShared(a: seq<IndexEntry>, b: seq<IndexEntry>, i: nat, j: nat)
    requires i < |a| && j < |b|
  {
    && a[i].hash == b[j].hash
    && forall x, y | 0 <= x < |a| && 0 <= y < |b| && a[x].hash == b[y].hash :: i <= x && j <= y
  }

  /** `cross_collisions`: over sorted indexes it answers the first pair that
      shares a hash, and `None` exactly when the hashes are disjoint. */
  method CrossCollisions(a: seq<IndexEntry>, b: seq<IndexEntry>) returns (r: Option<(u16, u16)>)
    requires SectionBuild.SortedIndex(a) && SectionBuild.SortedIndex(b)
    ensures r.None? <==> forall x, y | 0 <= x < |a| && 0 <= y < |b| :: a[x].hash != b[y].hash
    ensures r.Some? ==> exists i: nat, j: nat ::
      i < |a| && j < |b| && FirstShared(a, b, i, j) && r.value == (a[i].idx, b[j].idx)
  {
    var i: nat, j: nat := 0, 0;
    while i < |a| && j < |b|
      invariant i <= |a| && j <= |b|
      invariant forall x, y | 0 <= x < |a| && 0 <= y < |b| && (x < i || y < j) :: a[x].hash != b[y].hash
    {
      assert forall x | i <= x < |a| :: SectionBuild.Before(a[i], a[x]) || x == i;
      assert forall y | j <= y < |b| :: SectionBuild.Before(b[j], b[y]) || y == j;
      if a[i].hash < b[j].hash {
        i := i + 1;
      } else if a[i].hash > b[j].hash {
        j := j + 1;
      } else {
        assert FirstShared(a, b, i, j);
        return Some((a[i].idx, b[j].idx));
      }
    }
    return None;
  }
}
