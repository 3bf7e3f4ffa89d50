/** Byte strings laid one after another, and where each of them lies. */
module Regions {
  import opened Bytes

  function Flat(parts: seq<seq<byte>>): seq<byte> {
    if parts == [] then [] else Flat(parts[..|parts| - 1]) + parts[|parts| - 1]
  }

  /** Where part `k` starts, and the last one ends. */
  function Start(parts: seq<seq<byte>>, k: nat): nat
    requires k <= |parts|
  {
    |Flat(parts[..k])|
  }

  lemma FlatExtends(parts: seq<seq<byte>>, p: seq<byte>)
    ensures Flat(parts + [p]) == Flat(parts) + p
  {
    assert (parts + [p])[..|parts|] == parts;
  }

  lemma StartStep(parts: seq<seq<byte>>, k: nat)
    requires k < |parts|
    ensures Start(parts, k + 1) == Start(parts, k) + |parts[k]|
    ensures Flat(parts[..k + 1]) == Flat(parts[..k]) + parts[k]
  {
    assert parts[..k + 1][..k] == parts[..k];
  }

  lemma {:induction false} FlatPrefix(parts: seq<seq<byte>>, k: nat)
    requires k <= |parts|
    ensures Start(parts, k) <= |Flat(parts)| && Flat(parts)[..Start(parts, k)] == Flat(parts[..k])
    decreases |parts|
  {
    if k < |parts| {
      var front := parts[..|parts| - 1];
      assert front[..k] == parts[..k];
      FlatPrefix(front, k);
    } else {
      assert parts[..k] == parts;
    }
  }

  /** `part` lies in `data` at `at`. */
  predicate LiesAt(data: seq<byte>, at: nat, part: seq<byte>) {
    at + |part| <= |data| && data[at..at + |part|] == part
  }

  /** Part `k` lies where it starts. */
  lemma PartLies(parts: seq<seq<byte>>, k: nat)
    requires k < |parts|
    ensures LiesAt(Flat(parts), Start(parts, k), parts[k])
  {
    var whole, before, upto := Flat(parts), Flat(parts[..k]), Flat(parts[..k + 1]);
    StartStep(parts, k);
    FlatPrefix(parts, k + 1);
    assert whole[|before|..|upto|] == upto[|before|..];
  }

  /** Parts of one length start at its multiples. */
  lemma {:induction false} EvenStart(parts: seq<seq<byte>>, len: nat, k: nat)
    requires k <= |parts| && forall i | 0 <= i < |parts| :: |parts[i]| == len
    ensures Start(parts, k) == k * len
    decreases k
  {
    if k == 0 {
      assert parts[..0] == [];
    } else {
      EvenStart(parts, len, k - 1);
      StartStep(parts, k - 1);
      assert (k - 1) * len + len == k * len;
    }
  }

  lemma EvenLength(parts: seq<seq<byte>>, len: nat)
    requires forall i | 0 <= i < |parts| :: |parts[i]| == len
    ensures |Flat(parts)| == |parts| * len
  {
    EvenStart(parts, len, |parts|);
    assert parts[..|parts|] == parts;
  }

  /** A part of a region of `data`. */
  lemma PartInData(data: seq<byte>, at: nat, parts: seq<seq<byte>>, k: nat, partAt: nat)
    requires LiesAt(data, at, Flat(parts)) && k < |parts| && partAt == at + Start(parts, k)
    ensures LiesAt(data, partAt, parts[k])
  {
    var region, start, part := Flat(parts), Start(parts, k), parts[k];
    assert LiesAt(region, start, part) by {
      PartLies(parts, k);
    }
    PartOfRegion(data, at, region, start, part, partAt);
  }

  lemma PartOfRegion(data: seq<byte>, at: nat, region: seq<byte>, start: nat, part: seq<byte>, partAt: nat)
    requires LiesAt(data, at, region) && LiesAt(region, start, part) && partAt == at + start
    ensures LiesAt(data, partAt, part)
  {
    SliceOfSlice(data, at, at + |region|, start, start + |part|);
  }

  lemma EvenPartInData(data: seq<byte>, at: nat, parts: seq<seq<byte>>, len: nat, k: nat, partAt: nat)
    requires forall i | 0 <= i < |parts| :: |parts[i]| == len
    requires LiesAt(data, at, Flat(parts)) && k < |parts| && partAt == at + k * len
    ensures LiesAt(data, partAt, parts[k])
  {
    EvenStart(parts, len, k);
    PartInData(data, at, parts, k, partAt);
  }
}
