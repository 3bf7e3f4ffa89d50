/** What the emitted readers take and refuse, whoever wrote the bytes: each
    primitive of `CodedInputStream` succeeds exactly on what the encoding
    specification lets stand there, and means what it says. */
module ProtoExact {
  import opened Bytes
  import opened Proto
  import opened ProtoReads
  import opened Wire
  import opened WireFormat

  // ---- what may stand there ----------------------------------------------

  /** A tag: a varint whose low 32 bits name a field other than zero. */
  ghost predicate TakenAsTag(b: seq<byte>, tag: nat) {
    IsVarint(b) && tag == Base128(b) % TWO_32 && tag / 8 != 0
  }

  /** A length: a varint whose low 32 bits count what follows. */
  ghost predicate TakenAsLength(b: seq<byte>, len: nat) { IsVarint(b) && len == Base128(b) % TWO_32 }

  /** The bits of a float, one pattern for all that are no number. */
  ghost predicate FloatBits(w: nat, bits: nat) {
    var exponent, fraction := w / 0x80_0000 % 0x100, w % 0x80_0000;
    bits == if exponent == 0xff && fraction != 0 then 0x7fc0_0000 else w
  }

  /** A varint as a value of type `k`: `int`s keep 32 bits, `long`s 64, a `bool`
      is true unless they are all zero. */
  ghost predicate VarintAs(k: Kind, w: nat, v: Value) {
    match k
    case TypeBool => v.VBool? && v.b == (w % TWO_64 != 0)
    case TypeInt32 => v.VInt? && Unsigned(v.i, TWO_32) == w % TWO_32
    case TypeUInt32 => v.VInt? && Unsigned(v.i, TWO_32) == w % TWO_32
    case TypeEnum => v.VInt? && Unsigned(v.i, TWO_32) == w % TWO_32
    case TypeSInt32 => v.VInt? && ZigZag(v.i) == w % TWO_32
    case TypeInt64 => v.VLong? && Unsigned(v.l, TWO_64) == w % TWO_64
    case TypeUInt64 => v.VLong? && Unsigned(v.l, TWO_64) == w % TWO_64
    case TypeSInt64 => v.VLong? && ZigZag(v.l) == w % TWO_64
    case _ => false
  }

  /** A length and as many bytes, fewer than an `int` can count. */
  ghost predicate TakenAsBytes(b: seq<byte>, bytes: seq<byte>) {
    |bytes| < 0x8000_0000 && exists n: nat :: 0 < n <= |b| && TakenAsLength(b[..n], |bytes|) && b[n..] == bytes
  }

  /** `b` is taken as the scalar `v` of type `k`. */
  ghost predicate TakenAs(k: Kind, b: seq<byte>, v: Value) {
    match k
    case TypeString => v.VBytes? && TakenAsBytes(b, v.bytes)
    case TypeBytes => v.VBytes? && TakenAsBytes(b, v.bytes)
    case TypeFloat => |b| == 4 && v.VFloat? && FloatBits(LittleEndian(b), v.bits32)
    case TypeFixed32 => |b| == 4 && v.VInt? && Unsigned(v.i, TWO_32) == LittleEndian(b)
    case TypeSFixed32 => |b| == 4 && v.VInt? && Unsigned(v.i, TWO_32) == LittleEndian(b)
    case TypeDouble => |b| == 8 && v.VDouble? && v.bits64 == LittleEndian(b)
    case TypeFixed64 => |b| == 8 && v.VLong? && Unsigned(v.l, TWO_64) == LittleEndian(b)
    case TypeSFixed64 => |b| == 8 && v.VLong? && Unsigned(v.l, TWO_64) == LittleEndian(b)
    case _ => IsVarint(b) && VarintAs(k, Base128(b), v)
  }

  /** `b` is passed over after a tag of wire type `wire`. */
  ghost predicate PassedOver(wire: nat, b: seq<byte>) {
    || (wire == 0 && IsVarint(b))
    || (wire == 1 && |b| == 8)
    || (wire == 2 && exists n: nat :: 0 < n <= |b| && TakenAsLength(b[..n], |b| - n))
    || (wire == 5 && |b| == 4)
  }

  // ---- varints -----------------------------------------------------------

  lemma {:induction false} GroupsSpell(r: seq<byte>, i: nat, n: nat)
    requires VarintFrom(r, i).Some? && VarintFrom(r, i).value.1 == n
    ensures i < n <= |r| && n <= 10 && r[n - 1] < 0x80 && forall j | i <= j < n - 1 :: r[j] >= 0x80
    decreases 10 - i
  {
    if r[i] >= 0x80 {
      GroupsSpell(r, i + 1, n);
    }
  }

  /** A varint is read exactly where one stands, to 64 bits. */
  lemma VarintsExactly(d: seq<byte>, pos: nat, limit: nat, w: u64, end: nat)
    requires pos <= limit <= |d|
    ensures ReadVarint(d, pos, limit) == Some((w, end)) <==>
      pos < end <= limit && IsVarint(d[pos..end]) && w == Base128(d[pos..end]) % TWO_64
  {
    hide Base128;
    if ReadVarint(d, pos, limit) == Some((w, end)) {
      var r := d[pos..limit];
      GroupsSpell(r, 0, end - pos);
      SliceOfSlice(d, pos, limit, 0, end - pos);
      var b := d[pos..end];
      assert forall j | 0 <= j < |b| :: b[j] == r[j];
      VarintSpelledReads(b, d, pos, limit);
    }
    if pos < end <= limit && IsVarint(d[pos..end]) {
      VarintSpelledReads(d[pos..end], d, pos, limit);
    }
  }

  lemma Low32(n: nat)
    ensures n % TWO_64 % TWO_32 == n % TWO_32
  {
    assert TWO_64 == TWO_32 * TWO_32;
    var q := n / TWO_64;
    assert n == q * TWO_64 + n % TWO_64;
    assert n % TWO_32 == (q * TWO_32 * TWO_32 + n % TWO_64) % TWO_32;
    Multiples(q * TWO_32, n % TWO_64);
  }

  lemma Multiples(k: nat, r: nat)
    ensures (k * TWO_32 + r) % TWO_32 == r % TWO_32
  {
    if k > 0 {
      Multiples(k - 1, r);
    }
  }

  /** Some varint is read, or none stands there. */
  lemma VarintOrNone(d: seq<byte>, pos: nat, limit: nat)
    requires pos <= limit <= |d|
    ensures ReadVarint(d, pos, limit).None? ==> forall end: nat | pos < end <= limit :: !IsVarint(d[pos..end])
  {
    forall end: nat | pos < end <= limit && IsVarint(d[pos..end])
      ensures ReadVarint(d, pos, limit).Some?
    {
      VarintsExactly(d, pos, limit, Base128(d[pos..end]) % TWO_64, end);
    }
  }

  // ---- tags and lengths --------------------------------------------------

  lemma TagsExactly(d: seq<byte>, pos: nat, limit: nat, tag: nat, end: nat)
    requires pos <= limit <= |d|
    ensures ReadTag(d, pos, limit) == Some((tag, end)) <==> pos < end <= limit && TakenAsTag(d[pos..end], tag)
  {
    hide ReadVarint, Base128, IsVarint;
    VarintOrNone(d, pos, limit);
    if ReadVarint(d, pos, limit).Some? {
      var (w, at) := ReadVarint(d, pos, limit).value;
      VarintsExactly(d, pos, limit, w, at);
      Low32(Base128(d[pos..at]));
    }
    if pos < end <= limit && IsVarint(d[pos..end]) {
      VarintsExactly(d, pos, limit, Base128(d[pos..end]) % TWO_64, end);
      Low32(Base128(d[pos..end]));
    }
  }

  /** A length is taken unless it has the sign bit of an `int`, or passes the limit. */
  lemma LengthsExactly(d: seq<byte>, pos: nat, limit: nat, start: nat, end: nat)
    requires pos <= limit <= |d|
    ensures ReadLength(d, pos, limit) == Some((start, end)) <==>
      && pos < start <= end <= limit && end - start < 0x8000_0000 && TakenAsLength(d[pos..start], end - start)
  {
    hide ReadVarint, Base128, IsVarint;
    VarintOrNone(d, pos, limit);
    if ReadVarint(d, pos, limit).Some? {
      var (w, at) := ReadVarint(d, pos, limit).value;
      VarintsExactly(d, pos, limit, w, at);
      Low32(Base128(d[pos..at]));
    }
    if pos < start <= limit && IsVarint(d[pos..start]) {
      VarintsExactly(d, pos, limit, Base128(d[pos..start]) % TWO_64, start);
      Low32(Base128(d[pos..start]));
    }
  }

  // ---- skipping ----------------------------------------------------------

  lemma Within(d: seq<byte>, pos: nat, end: nat, n: nat)
    requires pos <= end <= |d| && n <= end - pos
    ensures d[pos..end][..n] == d[pos..pos + n] && d[pos..end][n..] == d[pos + n..end]
  {
  }

  lemma LengthSkipped(d: seq<byte>, pos: nat, limit: nat, end: nat)
    requires pos <= limit <= |d|
    ensures pos <= end <= limit && PassedOver(2, d[pos..end]) <==>
      var read := ReadVarint(d, pos, limit);
      read.Some? && read.value.1 + read.value.0 % 0x1_0000_0000 == end && end <= limit
  {
    hide ReadVarint, Base128, IsVarint;
    ReadVarintEnds(d, pos, limit);
    VarintOrNone(d, pos, limit);
    if ReadVarint(d, pos, limit).Some? {
      var (w, at) := ReadVarint(d, pos, limit).value;
      VarintsExactly(d, pos, limit, w, at);
      Low32(Base128(d[pos..at]));
      if at <= end <= limit {
        Within(d, pos, end, at - pos);
      }
    }
    if pos <= end <= limit && PassedOver(2, d[pos..end]) {
      var b := d[pos..end];
      var n: nat :| 0 < n <= |b| && TakenAsLength(b[..n], |b| - n);
      Within(d, pos, end, n);
      VarintsExactly(d, pos, limit, Base128(d[pos..pos + n]) % TWO_64, pos + n);
      Low32(Base128(d[pos..pos + n]));
    }
  }

  /** An unknown field is passed over exactly when its wire type lets its bytes
      stand there. */
  lemma SkipsExactly(d: seq<byte>, pos: nat, limit: nat, tag: nat, end: nat)
    requires pos <= limit <= |d|
    ensures SkipField(d, pos, limit, tag) == Some(end) <==> pos <= end <= limit && PassedOver(tag % 8, d[pos..end])
  {
    hide ReadVarint, Base128, IsVarint, TakenAsLength;
    ReadVarintEnds(d, pos, limit);
    if tag % 8 == 0 {
      VarintOrNone(d, pos, limit);
      if ReadVarint(d, pos, limit).Some? {
        var (w, at) := ReadVarint(d, pos, limit).value;
        VarintsExactly(d, pos, limit, w, at);
      }
      if pos <= end <= limit && IsVarint(d[pos..end]) {
        VarintIsLong(d[pos..end]);
        VarintsExactly(d, pos, limit, Base128(d[pos..end]) % TWO_64, end);
      }
    } else if tag % 8 == 2 {
      LengthSkipped(d, pos, limit, end);
    }
  }

  lemma VarintIsLong(b: seq<byte>)
    requires IsVarint(b)
    ensures |b| > 0
  {
  }

  // ---- scalars -----------------------------------------------------------

  lemma BytesExactly(d: seq<byte>, pos: nat, limit: nat, bytes: seq<byte>, end: nat)
    requires pos <= limit <= |d|
    ensures (ReadLength(d, pos, limit).Some? && ReadLength(d, pos, limit).value.1 == end
             && d[ReadLength(d, pos, limit).value.0..end] == bytes)
            <==> pos <= end <= limit && TakenAsBytes(d[pos..end], bytes)
  {
    hide ReadLength, TakenAsLength;
    if ReadLength(d, pos, limit).Some? {
      var (start, stop) := ReadLength(d, pos, limit).value;
      LengthsExactly(d, pos, limit, start, stop);
      if stop == end && d[start..end] == bytes {
        Within(d, pos, end, start - pos);
        assert TakenAsLength(d[pos..end][..start - pos], |bytes|);
      }
    }
    if pos <= end <= limit && TakenAsBytes(d[pos..end], bytes) {
      var b := d[pos..end];
      var n: nat :| 0 < n <= |b| && TakenAsLength(b[..n], |bytes|) && b[n..] == bytes;
      Within(d, pos, end, n);
      LengthsExactly(d, pos, limit, pos + n, end);
    }
  }

  lemma FixedExactly(d: seq<byte>, pos: nat, limit: nat)
    requires pos <= limit <= |d|
    ensures ReadFixed32(d, pos, limit)
            == if pos + 4 <= limit then Some((LittleEndian(d[pos..pos + 4]), pos + 4)) else None
    ensures ReadFixed64(d, pos, limit)
            == if pos + 8 <= limit then Some((LittleEndian(d[pos..pos + 8]), pos + 8)) else None
  {
    if pos + 4 <= limit {
      FixedSpelledReads(d[pos..pos + 4], d, pos, limit);
    }
    if pos + 8 <= limit {
      FixedSpelledReads(d[pos..pos + 8], d, pos, limit);
    }
  }

  lemma FloatAgrees(w: u32)
    ensures FloatBits(w, OneNaNBits(w))
  {
    var sign, exponent, fraction := w / 0x8000_0000, w / 0x80_0000 % 0x100, w % 0x80_0000;
    assert w == sign * 0x8000_0000 + exponent * 0x80_0000 + fraction;
    assert w % 0x8000_0000 == exponent * 0x80_0000 + fraction;
  }

  lemma VarintAsExactly(k: Kind, n: nat, v: Value)
    requires WireOf(k) == 0
    ensures FromVarint(k, n % TWO_64) == v <==> VarintAs(k, n, v)
  {
    hide Int32, Int64, UnZigZag32, UnZigZag64;
    Low32(n);
    SignedBack(n % TWO_32, n % TWO_64, v);
  }

  /** Signed numbers and their bits, both ways. */
  lemma SignedBack(w: u32, l: u64, v: Value)
    ensures v.VInt? ==> (Unsigned(v.i, TWO_32) == w <==> v.i == Int32(w)) && (ZigZag(v.i) == w <==> v.i == UnZigZag32(w))
    ensures v.VLong? ==> (Unsigned(v.l, TWO_64) == l <==> v.l == Int64(l)) && (ZigZag(v.l) == l <==> v.l == UnZigZag64(l))
  {
    hide UnZigZag32, UnZigZag64, ZigZag;
    if v.VInt? {
      ZigZagBack(v.i, w, UnZigZag32(w));
      Halves(w);
    } else if v.VLong? {
      ZigZagBack(v.l, l, UnZigZag64(l));
      Halves(l);
    }
  }

  lemma Halves(w: u64)
    ensures w < TWO_32 ==> UnZigZag32(w) == (if w % 2 == 0 then w / 2 else -(w / 2) - 1)
    ensures UnZigZag64(w) == (if w % 2 == 0 then w / 2 else -(w / 2) - 1)
  {
  }

  lemma ZigZagBack(i: int, w: nat, u: int)
    ensures u == (if w % 2 == 0 then w / 2 else -(w / 2) - 1) ==> (ZigZag(i) == w <==> i == u)
  {
    assert w == 2 * (w / 2) + w % 2;
  }

  lemma FixedAsExactly(k: Kind, w: u32, l: u64, v: Value)
    ensures k == TypeFloat ==> (v.VFloat? && FloatBits(w, v.bits32) <==> v == VFloat(OneNaNBits(w)))
    ensures v.VInt? && Unsigned(v.i, TWO_32) == w <==> v == VInt(Int32(w))
    ensures v.VLong? && Unsigned(v.l, TWO_64) == l <==> v == VLong(Int64(l))
  {
    FloatAgrees(w);
    SignedBack(w, l, v);
  }

  /** A scalar is read exactly where one may stand, and is the one it is taken as. */
  lemma ScalarsExactly(k: Kind, d: seq<byte>, pos: nat, limit: nat, v: Value, end: nat)
    requires pos <= limit <= |d| && !k.TypeMessage?
    ensures ReadScalar(k, d, pos, limit) == Some((v, end)) <==> pos <= end <= limit && TakenAs(k, d[pos..end], v)
  {
    if WireOf(k) == 0 {
      VarintKindsExactly(k, d, pos, limit, v, end);
    } else if WireOf(k) == 2 {
      if v.VBytes? {
        BytesExactly(d, pos, limit, v.bytes, end);
      }
    } else {
      FixedKindsExactly(k, d, pos, limit, v, end);
    }
  }

  lemma VarintKindsExactly(k: Kind, d: seq<byte>, pos: nat, limit: nat, v: Value, end: nat)
    requires pos <= limit <= |d| && WireOf(k) == 0
    ensures ReadScalar(k, d, pos, limit) == Some((v, end)) <==> pos <= end <= limit && TakenAs(k, d[pos..end], v)
  {
    hide ReadVarint, Base128, IsVarint, FromVarint, VarintAs;
    VarintOrNone(d, pos, limit);
    if ReadVarint(d, pos, limit).Some? {
      var (w, at) := ReadVarint(d, pos, limit).value;
      VarintsExactly(d, pos, limit, w, at);
      VarintAsExactly(k, Base128(d[pos..at]), v);
    }
    if pos <= end <= limit && IsVarint(d[pos..end]) {
      VarintIsLong(d[pos..end]);
      VarintsExactly(d, pos, limit, Base128(d[pos..end]) % TWO_64, end);
      VarintAsExactly(k, Base128(d[pos..end]), v);
    }
  }

  lemma FixedKindsExactly(k: Kind, d: seq<byte>, pos: nat, limit: nat, v: Value, end: nat)
    requires pos <= limit <= |d| && WireOf(k) in {1, 5}
    ensures ReadScalar(k, d, pos, limit) == Some((v, end)) <==> pos <= end <= limit && TakenAs(k, d[pos..end], v)
  {
    hide ReadFixed32, ReadFixed64, LittleEndian, Int32, Int64, OneNaNBits, FloatBits;
    FixedExactly(d, pos, limit);
    if WireOf(k) == 5 && pos + 4 <= limit {
      FixedAsExactly(k, LittleEndian(d[pos..pos + 4]), 0, v);
    } else if WireOf(k) == 1 && pos + 8 <= limit {
      FixedAsExactly(k, 0, LittleEndian(d[pos..pos + 8]), v);
    }
  }
}
