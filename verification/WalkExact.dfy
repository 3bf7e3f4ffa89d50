/** `walk_cp` visits exactly the entries that the class file format puts into a
    constant pool, in either form. */
module WalkExact {
  import opened Bytes
  import opened ClassFile
  import opened ClassGrammar

  predicate InPlace(form: Utf8Form) { form == Inline }

  /** The visits of these entries, with the pad slot after each `Long` or
      `Double` that the pool reaches. */
  function VisitsOf(cls: seq<byte>, count: nat, entries: seq<Entry>): seq<Visit>
    requires forall e | e in entries :: e.at < |cls|
  {
    if entries == [] then []
    else
      var e := entries[0];
      [Visit(e.index, cls[e.at], e.at + 1)]
      + (if Indexes(cls[e.at]) == 2 && e.index + 1 < count then [Visit(e.index + 1, 0, 0)] else [])
      + VisitsOf(cls, count, entries[1..])
  }

  lemma DataLengths(tag: byte)
    ensures tag != 1 ==> (ItemWidths(tag).Some? <==> FixedEntryLen(tag).Some?)
    ensures tag != 1 && ItemWidths(tag).Some? ==> FixedEntryLen(tag) == Some(Sum(ItemWidths(tag).value))
    ensures IsWide(tag) <==> Indexes(tag) == 2
    ensures tag == 1 ==> ItemWidths(tag).None?
  {
    assert Sum([4]) == 4 && Sum([2]) == 2;
    assert [4, 4][1..] == [4] && [2, 2][1..] == [2] && [1, 2][1..] == [2];
    assert Sum([4, 4]) == 8 && Sum([2, 2]) == 4 && Sum([1, 2]) == 3;
  }

  /** The walk's step over an entry is the format's. */
  lemma EndsAlike(cls: seq<byte>, form: Utf8Form, idx: nat, at: nat, end: nat)
    requires at < |cls|
    ensures EntryLies(cls, InPlace(form), Entry(idx, at, end)) <==> EntryEnd(cls, form, idx, cls[at], at + 1) == Ok(end)
    ensures EntryEnd(cls, form, idx, cls[at], at + 1).Err? ==>
      EntryEnd(cls, form, idx, cls[at], at + 1).error
      == if NoEntry(cls, at) then UnknownTag(AsU16(idx), cls[at]) else Truncated
  {
    DataLengths(cls[at]);
  }

  lemma {:induction false} ChainInside(
    cls: seq<byte>, inPlace: bool, count: nat, entries: seq<Entry>, idx: nat, at: nat, idx': nat, at': nat)
    requires Chain(cls, inPlace, count, entries, idx, at, idx', at')
    ensures forall e | e in entries :: e.at < |cls|
    decreases |entries|
  {
    if entries != [] {
      ChainInside(cls, inPlace, count, entries[1..], idx + Indexes(cls[at]), entries[0].end, idx', at');
      assert entries == [entries[0]] + entries[1..];
    }
  }

  /** A turn of the walk over an entry, and the visits it makes. */
  lemma WalkOver(cls: seq<byte>, form: Utf8Form, count: nat, e: Entry)
    requires e.index < count && e.at < |cls| && EntryLies(cls, InPlace(form), e)
    ensures var rest := WalkFrom(cls, form, count, e.index + Indexes(cls[e.at]), e.end);
      WalkFrom(cls, form, count, e.index, e.at)
      == CpWalk(EntryVisits(count, e.index, cls[e.at], e.at + 1) + rest.visits, rest.outcome)
  {
    hide ItemWidths, FixedEntryLen, EntryVisits, EntryLies, EntryEnd;
    EndsAlike(cls, form, e.index, e.at, e.end);
    DataLengths(cls[e.at]);
  }

  lemma FirstEntry(cls: seq<byte>, inPlace: bool, count: nat, entries: seq<Entry>, idx: nat, at: nat, idx': nat, at': nat)
    requires Chain(cls, inPlace, count, entries, idx, at, idx', at') && entries != []
    ensures var e := entries[0];
      && idx == e.index < count && at == e.at < |cls| && EntryLies(cls, inPlace, e)
      && Chain(cls, inPlace, count, entries[1..], idx + Indexes(cls[at]), e.end, idx', at')
  {
  }

  lemma FirstVisits(cls: seq<byte>, count: nat, entries: seq<Entry>)
    requires entries != [] && forall e | e in entries :: e.at < |cls|
    ensures forall e | e in entries[1..] :: e.at < |cls|
    ensures var e := entries[0];
      VisitsOf(cls, count, entries)
      == EntryVisits(count, e.index, cls[e.at], e.at + 1) + VisitsOf(cls, count, entries[1..])
  {
    DataLengths(cls[entries[0].at]);
  }

  /** Along entries the walk makes their visits and goes on after them. */
  lemma {:induction false} WalksAlong(
    cls: seq<byte>, form: Utf8Form, count: nat, entries: seq<Entry>, idx: nat, at: nat, idx': nat, at': nat)
    requires Chain(cls, InPlace(form), count, entries, idx, at, idx', at')
    ensures forall e | e in entries :: e.at < |cls|
    ensures var w, rest := WalkFrom(cls, form, count, idx, at), WalkFrom(cls, form, count, idx', at');
      w == CpWalk(VisitsOf(cls, count, entries) + rest.visits, rest.outcome)
    decreases |entries|
  {
    hide EntryLies, WalkFrom, EntryVisits, InPlace;
    ChainInside(cls, InPlace(form), count, entries, idx, at, idx', at');
    var rest := WalkFrom(cls, form, count, idx', at');
    if entries == [] {
      assert VisitsOf(cls, count, entries) + rest.visits == rest.visits;
    } else {
      var e, more := entries[0], entries[1..];
      FirstEntry(cls, InPlace(form), count, entries, idx, at, idx', at');
      WalkOver(cls, form, count, e);
      WalksAlong(cls, form, count, more, idx + Indexes(cls[at]), e.end, idx', at');
      FirstVisits(cls, count, entries);
      ConcatAssoc(EntryVisits(count, idx, cls[at], at + 1), VisitsOf(cls, count, more), rest.visits);
    }
  }

  /** One turn of the walk. */
  lemma WalkTurn(cls: seq<byte>, form: Utf8Form, count: nat, idx: nat, at: nat)
    ensures var w := WalkFrom(cls, form, count, idx, at).outcome;
      && (idx >= count ==> w == Ok(at))
      && (idx < count && at >= |cls| ==> w == Err(Truncated))
      && (idx < count && at < |cls| ==>
            var next := EntryEnd(cls, form, idx, cls[at], at + 1);
            && (next.Err? ==> w == Err(next.error))
            && (next.Ok? ==> w == WalkFrom(cls, form, count, NextIndex(idx, cls[at]), next.value).outcome))
    ensures at >= |cls| ==> !NoEntry(cls, at) && forall end: nat :: !EntryLies(cls, InPlace(form), Entry(idx, at, end))
  {
    hide EntryEnd, ItemWidths;
  }

  /** Where the walk stops: after entries that lie in the file, at the end of
      the pool, at a tag that is none, or where the file ends too early. */
  lemma {:induction false} WalkStops(cls: seq<byte>, form: Utf8Form, count: nat, idx: nat, at: nat)
    returns (entries: seq<Entry>, idx': nat, at': nat)
    ensures Chain(cls, InPlace(form), count, entries, idx, at, idx', at')
    ensures var w := WalkFrom(cls, form, count, idx, at).outcome;
      if idx' >= count then w == Ok(at')
      else
        && (forall end: nat :: !EntryLies(cls, InPlace(form), Entry(idx', at', end)))
        && w == Err(if NoEntry(cls, at') then UnknownTag(AsU16(idx'), cls[at']) else Truncated)
    decreases count - idx
  {
    hide EntryLies, EntryEnd, ItemWidths, FixedEntryLen, WalkFrom;
    WalkTurn(cls, form, count, idx, at);
    if idx >= count || at >= |cls| {
      entries, idx', at' := [], idx, at;
    } else {
      forall end: nat
        ensures EntryLies(cls, InPlace(form), Entry(idx, at, end)) <==> EntryEnd(cls, form, idx, cls[at], at + 1) == Ok(end)
      {
        EndsAlike(cls, form, idx, at, end);
      }
      EndsAlike(cls, form, idx, at, 0);
      match EntryEnd(cls, form, idx, cls[at], at + 1) {
        case Err(_) => entries, idx', at' := [], idx, at;
        case Ok(end) =>
          DataLengths(cls[at]);
          entries, idx', at' := WalkStops(cls, form, count, NextIndex(idx, cls[at]), end);
          var all := [Entry(idx, at, end)] + entries;
          assert all[1..] == entries;
          entries := all;
      }
    }
  }

  lemma HeaderReads(cls: seq<byte>, count: nat)
    requires |cls| <= MAX_CLASS_BYTES
    ensures ReadHeader(cls) == Ok(count) <==> Headed(cls, count)
  {
    if |cls| >= 4 {
      var b := cls[..4];
      assert b[0] == cls[0] && b[1] == cls[1] && b[2] == cls[2] && b[3] == cls[3];
      MagicBytes(b);
    }
  }

  lemma MagicBytes(b: seq<byte>)
    requires |b| == 4
    ensures b == [0xca, 0xfe, 0xba, 0xbe] <==>
      b[0] as int * 0x100_0000 + b[1] as int * 0x1_0000 + b[2] as int * 0x100 + b[3] == 0xCAFE_BABE
  {
  }

  /** A walk succeeds exactly when the file is headed so and entries of the
      format tile its pool, and ends where they do. */
  lemma WalksExactly(cls: seq<byte>, form: Utf8Form, count: nat, end: nat)
    ensures WalkCp(cls, form).outcome == Ok((count, end)) <==>
      |cls| <= 65535 && exists entries :: PoolLies(cls, InPlace(form), count, entries, end)
  {
    if |cls| <= 65535 {
      HeaderReads(cls, count);
      if WalkCp(cls, form).outcome == Ok((count, end)) {
        var entries, idx, at := WalkStops(cls, form, count, 1, 10);
        assert PoolLies(cls, InPlace(form), count, entries, end);
      }
      if entries :| PoolLies(cls, InPlace(form), count, entries, end) {
        var idx :| idx >= count && Chain(cls, InPlace(form), count, entries, 1, 10, idx, end);
        WalksAlong(cls, form, count, entries, 1, 10, idx, end);
      }
    }
  }

  /** And its visits are index 0 and the entries, each at its data. */
  lemma VisitsAreEntries(cls: seq<byte>, form: Utf8Form, count: nat, entries: seq<Entry>, end: nat)
    requires |cls| <= 65535 && PoolLies(cls, InPlace(form), count, entries, end)
    ensures forall e | e in entries :: e.at < |cls|
    ensures WalkCp(cls, form).visits == [Visit(0, 0, 0)] + VisitsOf(cls, count, entries)
  {
    HeaderReads(cls, count);
    var idx :| idx >= count && Chain(cls, InPlace(form), count, entries, 1, 10, idx, end);
    WalksAlong(cls, form, count, entries, 1, 10, idx, end);
    assert VisitsOf(cls, count, entries) + [] == VisitsOf(cls, count, entries);
  }

  /** A walk that is refused has read entries of the format up to one that is
      none, named by its index and tag, or that the file cuts short. */
  lemma WalkRefusedAt(cls: seq<byte>, form: Utf8Form, count: nat) returns (entries: seq<Entry>, idx: nat, at: nat)
    requires |cls| <= 65535 && Headed(cls, count) && WalkCp(cls, form).outcome.Err?
    ensures idx < count && Chain(cls, InPlace(form), count, entries, 1, 10, idx, at)
    ensures forall end: nat :: !EntryLies(cls, InPlace(form), Entry(idx, at, end))
    ensures WalkCp(cls, form).outcome.error == if NoEntry(cls, at) then UnknownTag(AsU16(idx), cls[at]) else Truncated
  {
    HeaderReads(cls, count);
    entries, idx, at := WalkStops(cls, form, count, 1, 10);
  }
}
