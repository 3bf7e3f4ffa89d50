/** Protocol Buffers wire primitives, as the Java runtime classes
    `CodedInputStream` and `CodedOutputStream` promise them and as the reference
    decoder of `crates/fuzz-targets/src/protobuf.rs` reads them: base-128
    varints, fixed-width values, zigzag, length prefixes. */
module Wire {
  import opened Bytes

  type u64 = w: int | 0 <= w < 0x1_0000_0000_0000_0000
  type i32 = w: int | -0x8000_0000 <= w < 0x8000_0000
  type i64 = w: int | -0x8000_0000_0000_0000 <= w < 0x8000_0000_0000_0000

  /** Two's complement: a Java `int` or `long` as the bits it is stored in. */
  function Bits32(i: i32): u32 { if i < 0 then i + 0x1_0000_0000 else i }

  function Bits64(i: i64): u64 { if i < 0 then i + 0x1_0000_0000_0000_0000 else i }

  function Int32(w: u32): i32 { if w < 0x8000_0000 then w else w - 0x1_0000_0000 }

  function Int64(w: u64): i64 { if w < 0x8000_0000_0000_0000 then w else w - 0x1_0000_0000_0000_0000 }

  /** `encodeZigZag32` and `encodeZigZag64` */
  function ZigZag32(i: i32): u32 { if i < 0 then -2 * i - 1 else 2 * i }

  function ZigZag64(i: i64): u64 { if i < 0 then -2 * i - 1 else 2 * i }

  /** `decodeZigZag32` and `decodeZigZag64` */
  function UnZigZag32(w: u32): i32 { if w % 2 == 0 then w / 2 else -(w / 2) - 1 }

  function UnZigZag64(w: u64): i64 { if w % 2 == 0 then w / 2 else -(w / 2) - 1 }

  // ---- varints -----------------------------------------------------------

  /** Seven bits a byte, least significant first, the top bit on all but the last. */
  function Varint(v: nat): seq<byte> {
    if v < 0x80 then [v] else [v % 0x80 + 0x80] + Varint(v / 0x80)
  }

  /** The groups of a varint from byte `i` of `d` on, unreduced, and the bytes
      consumed from the start; none if `d` ends first or ten bytes pass. */
  function VarintFrom(d: seq<byte>, i: nat): Option<(nat, nat)>
    decreases 10 - i
  {
    if i >= 10 || i >= |d| then None
    else if d[i] < 0x80 then Some((d[i], i + 1))
    else
      match VarintFrom(d, i + 1)
      case None => None
      case Some((v, n)) => Some((d[i] - 0x80 + 0x80 * v, n))
  }

  /** The varint at `pos`, low 64 bits, and the position after it. */
  function ReadVarint(d: seq<byte>, pos: nat, limit: nat): Option<(u64, nat)>
    requires pos <= limit <= |d|
  {
    match VarintFrom(d[pos..limit], 0)
    case None => None
    case Some((v, n)) => Some((v % 0x1_0000_0000_0000_0000, pos + n))
  }

  lemma {:induction false} VarintFromEnds(d: seq<byte>, i: nat)
    ensures VarintFrom(d, i).Some? ==> i < VarintFrom(d, i).value.1 <= |d| && VarintFrom(d, i).value.1 <= 10
    decreases 10 - i
  {
    if i < 10 && i < |d| && d[i] >= 0x80 {
      VarintFromEnds(d, i + 1);
    }
  }

  /** A varint read consumes something, and nothing past the limit. */
  lemma ReadVarintEnds(d: seq<byte>, pos: nat, limit: nat)
    requires pos <= limit <= |d|
    ensures ReadVarint(d, pos, limit).Some? ==> pos < ReadVarint(d, pos, limit).value.1 <= limit
  {
    VarintFromEnds(d[pos..limit], 0);
  }

  // ---- their length ------------------------------------------------------

  /** Largest value of `k` groups, plus one. */
  function Groups(k: nat): nat { if k == 0 then 1 else 0x80 * Groups(k - 1) }

  lemma {:induction false} VarintLength(v: nat, k: nat)
    requires k > 0
    ensures |Varint(v)| <= k <==> v < Groups(k)
    decreases k
  {
    if k == 1 {
      assert Groups(1) == 0x80 * Groups(0);
    } else if v >= 0x80 {
      VarintLength(v / 0x80, k - 1);
      assert v / 0x80 < Groups(k - 1) <==> v < 0x80 * Groups(k - 1);
    } else {
      GroupsGrow(k);
    }
  }

  lemma {:induction false} GroupsGrow(k: nat)
    requires k > 0
    ensures Groups(k) >= 0x80
  {
    if k > 1 {
      GroupsGrow(k - 1);
    } else {
      assert Groups(1) == 0x80 * Groups(0);
    }
  }

  lemma TenGroups()
    ensures Groups(9) == 0x8000_0000_0000_0000 && Groups(10) == 0x80 * 0x8000_0000_0000_0000
  {
    assert Groups(2) == 0x4000;
    assert Groups(4) == 0x1000_0000;
    assert Groups(6) == 0x400_0000_0000;
    assert Groups(8) == 0x100_0000_0000_0000;
    assert Groups(9) == 0x8000_0000_0000_0000;
  }

  /** No 64-bit value takes more than ten bytes, and a negative `int32`, sign
      extended, takes exactly ten. */
  lemma TenBytesAtMost(v: u64)
    ensures 1 <= |Varint(v)| <= 10 && (|Varint(v)| == 10 <==> v >= 0x8000_0000_0000_0000)
  {
    TenGroups();
    VarintLength(v, 10);
    VarintLength(v, 9);
  }

  /** `varint_len`: the loop that shifts seven bits away. */
  method VarintLen(value: u64) returns (n: nat)
    ensures n == |Varint(value)| <= 10
  {
    TenBytesAtMost(value);
    var v: nat := value;
    n := 1;
    while v >= 0x80
      invariant |Varint(value)| == n - 1 + |Varint(v)|
      decreases v
    {
      v := v / 0x80;
      n := n + 1;
    }
  }

  // ---- the reference reader ----------------------------------------------

  /** The reference decoder's loop: at most ten bytes, the value kept to 64 bits. */
  method ReferenceVarint(bytes: seq<byte>) returns (r: Option<(u64, nat)>)
    ensures r == ReadVarint(bytes, 0, |bytes|)
  {
    assert bytes[0..|bytes|] == bytes;
    var v: nat, unit: nat, i: nat := 0, 1, 0;
    while i < |bytes| && i < 10
      invariant i <= |bytes| && i <= 10
      invariant VarintFrom(bytes, 0) == Above(v, unit, VarintFrom(bytes, i))
    {
      var b := bytes[i];
      var w := Placed(v, unit, b % 0x80);
      GroupStep(v, unit, bytes, i);
      if b < 0x80 {
        return Some((w % 0x1_0000_0000_0000_0000, i + 1));
      }
      v, unit, i := w, unit * 0x80, i + 1;
    }
    return None;
  }

  /** One more group above those read so far. */
  function Placed(v: nat, unit: nat, group: nat): nat { v + unit * group }

  /** Groups still to come, above those read so far. */
  function Above(v: nat, unit: nat, rest: Option<(nat, nat)>): Option<(nat, nat)> {
    match rest
    case None => None
    case Some((w, n)) => Some((Placed(v, unit, w), n))
  }

  lemma GroupStep(v: nat, unit: nat, d: seq<byte>, i: nat)
    requires i < |d| && i < 10
    ensures var whole := Above(v, unit, VarintFrom(d, i));
      if d[i] < 0x80 then whole == Some((Placed(v, unit, d[i] % 0x80), i + 1))
      else whole == Above(Placed(v, unit, d[i] % 0x80), unit * 0x80, VarintFrom(d, i + 1))
  {
    if d[i] >= 0x80 && VarintFrom(d, i + 1).Some? {
      assert d[i] % 0x80 == d[i] - 0x80;
      Distribute(unit, d[i] - 0x80, VarintFrom(d, i + 1).value.0);
    }
  }

  lemma Distribute(unit: nat, low: nat, rest: nat)
    ensures unit * (low + 0x80 * rest) == unit * low + unit * 0x80 * rest
  {
  }

  // ---- reading back ------------------------------------------------------

  lemma {:induction false} VarintFromReads(d: seq<byte>, i: nat, v: nat)
    requires i + |Varint(v)| <= |d| && i + |Varint(v)| <= 10 && d[i..i + |Varint(v)|] == Varint(v)
    ensures VarintFrom(d, i) == Some((v, i + |Varint(v)|))
    decreases v
  {
    assert d[i] == d[i..i + |Varint(v)|][0];
    if v >= 0x80 {
      var rest := Varint(v / 0x80);
      assert d[i + 1..i + 1 + |rest|] == d[i..i + |Varint(v)|][1..] == rest;
      VarintFromReads(d, i + 1, v / 0x80);
    }
  }

  /** A varint written is read back, whatever follows it before the limit. */
  lemma VarintReads(d: seq<byte>, pos: nat, limit: nat, v: u64)
    requires pos + |Varint(v)| <= limit <= |d| && d[pos..pos + |Varint(v)|] == Varint(v)
    ensures ReadVarint(d, pos, limit) == Some((v, pos + |Varint(v)|))
  {
    var rest, n := d[pos..limit], |Varint(v)|;
    TenBytesAtMost(v);
    SliceOfSlice(d, pos, limit, 0, n);
    assert rest[0..0 + n] == Varint(v);
    VarintFromReads(rest, 0, v);
    Below64(v);
  }

  lemma Below64(v: u64)
    ensures v % 0x1_0000_0000_0000_0000 == v
  {
  }

  // ---- fixed-width values ------------------------------------------------

  function Le64Bytes(w: u64): seq<byte> {
    Le32Bytes(w % 0x1_0000_0000) + Le32Bytes(w / 0x1_0000_0000)
  }

  function ReadFixed32(d: seq<byte>, pos: nat, limit: nat): Option<(u32, nat)>
    requires pos <= limit <= |d|
  {
    if pos + 4 > limit then None else Some((Le32(d, pos).value, pos + 4))
  }

  function ReadFixed64(d: seq<byte>, pos: nat, limit: nat): Option<(u64, nat)>
    requires pos <= limit <= |d|
  {
    if pos + 8 > limit then None
    else Some((Le32(d, pos).value + 0x1_0000_0000 * Le32(d, pos + 4).value as int, pos + 8))
  }

  /** Zigzag is undone. */
  lemma ZigZagUndone(i: i32, l: i64)
    ensures UnZigZag32(ZigZag32(i)) == i && UnZigZag64(ZigZag64(l)) == l
  {
  }
}
