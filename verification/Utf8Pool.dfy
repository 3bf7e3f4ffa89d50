/** The `Utf8` pool of a section: `Pool` of `crates/class-link/src/build.rs`,
    and the tiling that `ClassSection::validate` checks. */
module Utf8Pool {
  import opened Bytes
  import opened ClassFile

  // ---- what a pool is ----------------------------------------------------

  function PadLen(n: nat): nat { Align4(n) - n }

  /** A string a class file can hold: its length is a `u16`. */
  type Text = s: seq<byte> | |s| <= 65535 witness []

  /** One entry: big-endian length, the bytes, zeros up to a multiple of four. */
  function Entry(s: Text): seq<byte> {
    Be16Bytes(|s|) + s + Zeros(PadLen(2 + |s|))
  }

  /** The entries one after another. */
  function PoolBytes(entries: seq<Text>): seq<byte>
  {
    if entries == [] then [] else PoolBytes(entries[..|entries| - 1]) + Entry(entries[|entries| - 1])
  }

  /** Where entry `k` starts, in units of four bytes. */
  function RefAt(entries: seq<Text>, k: nat): nat
    requires k <= |entries|
  {
    |PoolBytes(entries[..k])| / 4
  }

  function IndexIn(entries: seq<Text>, s: Text): (k: nat)
    requires s in entries
    ensures k < |entries| && entries[k] == s
  {
    if entries[0] == s then 0 else IndexIn(entries[1..], s) + 1
  }

  /** The ref of a string the pool holds. */
  function RefOf(entries: seq<Text>, s: Text): nat
    requires s in entries
  {
    RefAt(entries, IndexIn(entries, s))
  }

  /** The entries after interning `s`: unchanged if it is there, else with it
      at the end, unless the bytes would pass what refs reach. */
  function Interned(entries: seq<Text>, s: Text): Result<seq<Text>>
  {
    if s in entries then Ok(entries)
    else if Align4(|PoolBytes(entries)| + 2 + |s|) > MAX_POOL_BYTES then Err(PoolTooLarge)
    else Ok(entries + [s])
  }

  /** What every pool under construction keeps. */
  ghost predicate WellFormed(entries: seq<Text>) {
    && |entries| > 0 && entries[0] == []
    && (forall i, j | 0 <= i < j < |entries| :: entries[i] != entries[j])
    && |PoolBytes(entries)| <= MAX_POOL_BYTES
  }

  // ---- the builder's pool ------------------------------------------------

  class Pool {
    var bytes: seq<byte>
    var seen: map<Text, nat>
    ghost var entries: seq<Text>

    ghost predicate Valid()
      reads this
    {
      && WellFormed(entries)
      && bytes == PoolBytes(entries)
      && (forall s :: s in seen <==> s in entries)
      && forall s | s in seen :: seen[s] == RefOf(entries, s)
    }

    /** `Pool::new` */
    constructor ()
      ensures Valid() && entries == [[]]
    {
      bytes := Zeros(4);
      seen := map[[] := 0];
      entries := [[]];
      new;
      FreshPool();
    }

    /** `Pool::intern` */
    method Intern(s: Text) returns (r: Result<nat>)
      requires Valid()
      modifies this
      ensures Valid()
      ensures r.Ok? <==> Interned(old(entries), s).Ok?
      ensures r.Ok? ==> Interned(old(entries), s) == Ok(entries) && s in entries && r.value == RefOf(entries, s)
      ensures r.Err? ==> Interned(old(entries), s) == Err(r.error) && entries == old(entries)
    {
      if s in seen {
        return Ok(seen[s]);
      }
      var at := |bytes|;
      if Align4(at + 2 + |s|) > MAX_POOL_BYTES {
        return Err(PoolTooLarge);
      }
      var ref := at / 4;
      InternedWellFormed(entries, s);
      RefsStay(entries, s);
      bytes := bytes + Be16Bytes(|s|) + s;
      AlignedEntry(entries, s);
      bytes := bytes + Zeros(PadLen(|bytes|));
      seen := seen[s := ref];
      entries := entries + [s];
      return Ok(ref);
    }
  }

  lemma FreshPool()
    ensures WellFormed([[]]) && PoolBytes([[]]) == Zeros(4) && RefOf([[]], []) == 0
  {
    var one: seq<Text> := [[]];
    assert one[..0] == [];
    assert Entry([]) == Zeros(4);
    assert PoolBytes(one) == PoolBytes(one[..0]) + Entry([]);
  }

  // ---- the tiling --------------------------------------------------------

  lemma EntryLen(s: Text)
    ensures |Entry(s)| == Align4(2 + |s|) && |Entry(s)| % 4 == 0 && |Entry(s)| >= 4
  {
  }

  lemma {:induction false} PoolAligned(entries: seq<Text>)
    ensures |PoolBytes(entries)| % 4 == 0
    decreases |entries|
  {
    if entries != [] {
      PoolAligned(entries[..|entries| - 1]);
      EntryLen(entries[|entries| - 1]);
      SumAligned(|PoolBytes(entries[..|entries| - 1])|, |Entry(entries[|entries| - 1])|);
    }
  }

  lemma PoolExtends(entries: seq<Text>, s: Text)
    ensures PoolBytes(entries + [s]) == PoolBytes(entries) + Entry(s)
  {
    assert (entries + [s])[..|entries|] == entries;
  }

  lemma {:induction false} PoolIsPrefix(entries: seq<Text>, k: nat)
    requires k <= |entries|
    ensures |PoolBytes(entries[..k])| <= |PoolBytes(entries)|
    ensures PoolBytes(entries)[..|PoolBytes(entries[..k])|] == PoolBytes(entries[..k])
    decreases |entries|
  {
    if k < |entries| {
      var front := entries[..|entries| - 1];
      assert front[..k] == entries[..k];
      PoolIsPrefix(front, k);
    } else {
      assert entries[..k] == entries;
    }
  }

  /** The bytes of entry `k`, where its ref says. */
  lemma EntryLies(entries: seq<Text>, k: nat)
    requires k < |entries|
    ensures var at := |PoolBytes(entries[..k])|;
      && at == 4 * RefAt(entries, k)
      && at + |Entry(entries[k])| <= |PoolBytes(entries)|
      && PoolBytes(entries)[at..at + |Entry(entries[k])|] == Entry(entries[k])
  {
    var whole, before, upto := PoolBytes(entries), PoolBytes(entries[..k]), PoolBytes(entries[..k + 1]);
    assert entries[..k + 1][..k] == entries[..k];
    assert upto == before + Entry(entries[k]);
    PoolAligned(entries[..k]);
    PoolIsPrefix(entries, k + 1);
    assert whole[|before|..|upto|] == upto[|before|..];
  }

  lemma Utf8OfEntry(pool: seq<byte>, at: nat, s: Text)
    requires at + |Entry(s)| <= |pool| && pool[at..at + |Entry(s)|] == Entry(s)
    ensures Utf8At(pool, at) == Some(s) && Be16(pool, at) == Some(|s|)
  {
    var e := Entry(s);
    assert e[0..2] == Be16Bytes(|s|) && e[2..2 + |s|] == s;
    SliceOfSlice(pool, at, at + |e|, 0, 2);
    SliceOfSlice(pool, at, at + |e|, 2, 2 + |s|);
    Be16ReadsBack(pool, at, |s|);
  }

  lemma {:induction false} IndexUnique(entries: seq<Text>, k: nat)
    requires k < |entries| && forall i | 0 <= i < k :: entries[i] != entries[k]
    ensures IndexIn(entries, entries[k]) == k
  {
    if k > 0 {
      IndexUnique(entries[1..], k - 1);
    }
  }

  lemma {:induction false} IndexStays(entries: seq<Text>, more: seq<Text>, s: Text)
    requires s in entries
    ensures IndexIn(entries + more, s) == IndexIn(entries, s)
  {
    if entries[0] != s {
      assert (entries + more)[1..] == entries[1..] + more;
      IndexStays(entries[1..], more, s);
    }
  }

  /** A ref, once given, stays: later entries never move an earlier one. */
  lemma RefStays(entries: seq<Text>, more: seq<Text>, s: Text)
    requires s in entries
    ensures s in entries + more && RefOf(entries + more, s) == RefOf(entries, s)
  {
    assert forall e | e in entries :: e in entries + more;
    IndexStays(entries, more, s);
    assert (entries + more)[..IndexIn(entries, s)] == entries[..IndexIn(entries, s)];
  }

  lemma RefsStay(entries: seq<Text>, s: Text)
    requires s !in entries
    ensures forall t | t in entries :: t in entries + [s] && RefOf(entries + [s], t) == RefOf(entries, t)
    ensures s in entries + [s] && RefOf(entries + [s], s) == |PoolBytes(entries)| / 4
  {
    forall t | t in entries
      ensures t in entries + [s] && RefOf(entries + [s], t) == RefOf(entries, t)
    {
      RefStays(entries, [s], t);
    }
    assert (entries + [s])[|entries|] == s;
    IndexUnique(entries + [s], |entries|);
    assert (entries + [s])[..|entries|] == entries;
  }

  /** Padding the whole pads the entry, because all before it is aligned. */
  lemma AlignedEntry(entries: seq<Text>, s: Text)
    ensures var b := PoolBytes(entries) + Be16Bytes(|s|) + s;
      && b + Zeros(PadLen(|b|)) == PoolBytes(entries + [s])
      && |PoolBytes(entries + [s])| == Align4(|PoolBytes(entries)| + 2 + |s|)
  {
    PoolExtends(entries, s);
    PoolAligned(entries);
    EntryLen(s);
    PadAfterAligned(|PoolBytes(entries)|, 2 + |s|);
    AppendParts(PoolBytes(entries), Be16Bytes(|s|), s, Zeros(PadLen(2 + |s|)));
  }

  lemma PadAfterAligned(at: nat, n: nat)
    requires at % 4 == 0
    ensures PadLen(at + n) == PadLen(n) && Align4(at + n) == at + Align4(n)
  {
    AlignShift(at, n);
  }

  lemma AppendParts(p: seq<byte>, h: seq<byte>, s: seq<byte>, z: seq<byte>)
    ensures p + (h + s + z) == p + h + s + z
  {
  }

  lemma InternedWellFormed(entries: seq<Text>, s: Text)
    requires WellFormed(entries) && Interned(entries, s).Ok?
    ensures WellFormed(Interned(entries, s).value)
    ensures s in Interned(entries, s).value
    ensures entries <= Interned(entries, s).value
  {
    if s !in entries {
      AlignedEntry(entries, s);
      assert (entries + [s])[|entries|] == s;
    }
  }

  /** The theorem about one pool: every string it holds is read back at its
      ref, which fits in 16 bits, from this pool and from any it grows into. */
  lemma InternedReadsBack(entries: seq<Text>, more: seq<Text>, s: Text)
    requires WellFormed(entries + more) && s in entries
    ensures PoolUtf8(PoolBytes(entries + more), RefOf(entries, s)) == Some(s)
    ensures RefOf(entries, s) < 0x1_0000
  {
    RefStays(entries, more, s);
    var all := entries + more;
    var k := IndexIn(all, s);
    EntryLies(all, k);
    EntryLen(all[k]);
    Utf8OfEntry(PoolBytes(all), 4 * RefAt(all, k), s);
  }

  /** Distinct strings have distinct refs. */
  lemma RefsAreDistinct(entries: seq<Text>, s: seq<byte>, t: Text)
    requires WellFormed(entries) && s in entries && t in entries
    ensures RefOf(entries, s) == RefOf(entries, t) <==> s == t
  {
    assert entries + [] == entries;
    InternedReadsBack(entries, [], s);
    InternedReadsBack(entries, [], t);
  }

  // ---- the validator's check ---------------------------------------------

  predicate AllZero(bytes: seq<byte>) { forall b | b in bytes :: b == 0 }

  /** The tiling loop of `ClassSection::validate`, from byte `at` on. */
  function CheckTiles(pool: seq<byte>, at: nat): Result<()>
    decreases |pool| - at
  {
    if at >= |pool| then Ok(())
    else
      match Be16(pool, at)
      case None => Err(BadPool)
      case Some(len) =>
        var end := at + 2 + len;
        var next := Align4(end);
        if next > |pool| || !AllZero(pool[end..next]) then Err(BadPool) else CheckTiles(pool, next)
  }

  function CheckPool(pool: seq<byte>): Result<()> {
    if Be16(pool, 0) != Some(0) then Err(BadPool) else CheckTiles(pool, 0)
  }

  lemma PoolStep(entries: seq<Text>, k: nat)
    requires k < |entries|
    ensures |PoolBytes(entries[..k + 1])| == |PoolBytes(entries[..k])| + |Entry(entries[k])|
  {
    assert entries[..k + 1][..k] == entries[..k];
  }

  lemma {:induction false} TilesCheck(pool: seq<byte>, entries: seq<Text>, k: nat, at: nat, verdict: Result<()>)
    requires pool == PoolBytes(entries) && k <= |entries| && at == |PoolBytes(entries[..k])|
    requires verdict == CheckTiles(pool, at)
    ensures verdict.Ok?
    decreases |entries| - k
  {
    if k == |entries| {
      assert entries[..k] == entries;
    } else {
      var next := at + |Entry(entries[k])|;
      TileLies(pool, entries, k, at, next);
      EntryPasses(pool, at, entries[k], next);
      TilesCheck(pool, entries, k + 1, next, CheckTiles(pool, next));
    }
  }

  lemma TileLies(pool: seq<byte>, entries: seq<Text>, k: nat, at: nat, next: nat)
    requires pool == PoolBytes(entries) && k < |entries| && at == |PoolBytes(entries[..k])|
    requires next == at + |Entry(entries[k])|
    ensures next == |PoolBytes(entries[..k + 1])| && at % 4 == 0
    ensures next <= |pool| && pool[at..next] == Entry(entries[k])
  {
    PoolStep(entries, k);
    PoolAligned(entries[..k]);
    EntryLies(entries, k);
  }

  lemma EntryPasses(pool: seq<byte>, at: nat, s: Text, next: nat)
    requires at % 4 == 0 && next == at + |Entry(s)| <= |pool| && pool[at..next] == Entry(s)
    ensures CheckTiles(pool, at) == CheckTiles(pool, next)
  {
    var end := at + 2 + |s|;
    Utf8OfEntry(pool, at, s);
    PadLies(pool, at, s, end, next);
    EntryLen(s);
  }

  lemma PadLies(pool: seq<byte>, at: nat, s: Text, end: nat, next: nat)
    requires at % 4 == 0 && next == at + |Entry(s)| <= |pool| && pool[at..next] == Entry(s) && end == at + 2 + |s|
    ensures end <= next == Align4(end) && AllZero(pool[end..next])
  {
    var e := Entry(s);
    EntryLen(s);
    AlignShift(at, 2 + |s|);
    SliceOfSlice(pool, at, next, 2 + |s|, |e|);
    assert e[2 + |s|..|e|] == Zeros(PadLen(2 + |s|));
  }

  lemma PassedIsEntry(pool: seq<byte>, at: nat, len: u16)
    requires at % 4 == 0 && Be16(pool, at) == Some(len) && Align4(at + 2 + len) <= |pool|
    requires AllZero(pool[at + 2 + len..Align4(at + 2 + len)])
    ensures pool[at..Align4(at + 2 + len)] == Entry(pool[at + 2..at + 2 + len])
  {
    var next := Align4(at + 2 + len);
    AlignShift(at, 2 + len);
    EntryLen(pool[at + 2..at + 2 + len]);
    var pad := pool[at + 2 + len..next];
    assert pad == Zeros(|pad|) by {
      assert forall i | 0 <= i < |pad| :: pad[i] in pad;
    }
    assert pool[at..at + 2] == Be16Bytes(len);
    assert pool[at..next] == pool[at..at + 2] + pool[at + 2..at + 2 + len] + pad;
  }

  lemma {:induction false} CheckedTiles(pool: seq<byte>, entries: seq<Text>) returns (all: seq<Text>)
    requires |PoolBytes(entries)| <= |pool|
    requires pool[..|PoolBytes(entries)|] == PoolBytes(entries)
    requires CheckTiles(pool, |PoolBytes(entries)|).Ok?
    ensures entries <= all && PoolBytes(all) == pool
    decreases |pool| - |PoolBytes(entries)|
  {
    var at := |PoolBytes(entries)|;
    if at == |pool| {
      assert pool[..at] == pool;
      all := entries;
    } else {
      var len := Be16(pool, at).value;
      var s: Text := pool[at + 2..at + 2 + len];
      var next := Align4(at + 2 + len);
      PoolAligned(entries);
      PassedIsEntry(pool, at, len);
      AlignShift(at, 2 + len);
      EntryLen(s);
      PoolExtends(entries, s);
      assert pool[..next] == pool[..at] + pool[at..next];
      all := CheckedTiles(pool, entries + [s]);
    }
  }

  /** The validator's pool check accepts exactly the tilings by zero-padded
      entries that start with the empty string. */
  lemma PoolCheckExact(pool: seq<byte>)
    ensures CheckPool(pool).Ok? <==>
      exists entries :: |entries| > 0 && entries[0] == [] && PoolBytes(entries) == pool
  {
    if CheckPool(pool).Ok? {
      assert PoolBytes([]) == [] == pool[..0];
      var all := CheckedTiles(pool, []);
      FirstEntry(all);
    }
    if entries :| |entries| > 0 && entries[0] == [] && PoolBytes(entries) == pool {
      assert entries[..0] == [];
      TilesCheck(pool, entries, 0, 0, CheckTiles(pool, 0));
      FirstEntry(entries);
    }
  }

  lemma FirstEntry(entries: seq<Text>)
    requires PoolBytes(entries) != []
    ensures |entries| > 0 && (Be16(PoolBytes(entries), 0) == Some(0) <==> entries[0] == [])
  {
    FirstLies(entries, PoolBytes(entries), entries[0]);
    FirstReads(PoolBytes(entries), entries[0]);
  }

  lemma FirstLies(entries: seq<Text>, pool: seq<byte>, first: Text)
    requires |entries| > 0 && pool == PoolBytes(entries) && first == entries[0]
    ensures |Entry(first)| <= |pool| && pool[..|Entry(first)|] == Entry(first)
  {
    assert entries[..0] == [] && |PoolBytes([])| == 0;
    EntryLies(entries, 0);
  }

  lemma FirstReads(pool: seq<byte>, s: Text)
    requires |Entry(s)| <= |pool| && pool[..|Entry(s)|] == Entry(s)
    ensures Be16(pool, 0) == Some(|s|)
  {
    assert pool[0..0 + |Entry(s)|] == pool[..|Entry(s)|];
    Utf8OfEntry(pool, 0, s);
  }
}
