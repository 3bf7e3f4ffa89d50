/** The wire format of the Protocol Buffers encoding specification, as a grammar
    of byte strings: what bytes spell a value, a record and a message. Nothing
    here is shared with the writer or the reader of `Proto`; that both follow
    it is proved in `ProtoWire`. */
module WireFormat {
  import opened Bytes
  import opened Proto
  import opened Regions

  // ---- "Base 128 Varints" and fixed-width numbers ------------------------

  /** Groups of seven bits, least significant first. */
  function Base128(b: seq<byte>): nat {
    if b == [] then 0 else b[0] % 0x80 + 0x80 * Base128(b[1..])
  }

  /** The top bit stands on every byte but the last; ten bytes at most. */
  ghost predicate IsVarint(b: seq<byte>) {
    && 1 <= |b| <= 10
    && b[|b| - 1] < 0x80
    && forall i | 0 <= i < |b| - 1 :: b[i] >= 0x80
  }

  ghost predicate VarintOf(b: seq<byte>, v: nat) { IsVarint(b) && Base128(b) == v }

  /** Least significant byte first. */
  function LittleEndian(b: seq<byte>): nat {
    if b == [] then 0 else b[0] + 0x100 * LittleEndian(b[1..])
  }

  /** The number the two's complement bits of `i`, `modulus` values wide, stand for. */
  function Unsigned(i: int, modulus: nat): int { if i < 0 then i + modulus else i }

  const TWO_32 := 0x1_0000_0000
  const TWO_64 := 0x1_0000_0000_0000_0000

  function ZigZag(i: int): int { if i < 0 then 2 * -i - 1 else 2 * i }

  // ---- "Message Structure" -----------------------------------------------

  /** VARINT 0, I64 1, LEN 2, I32 5. */
  function WireOf(k: Kind): nat {
    match k
    case TypeDouble => 1
    case TypeFixed64 => 1
    case TypeSFixed64 => 1
    case TypeString => 2
    case TypeBytes => 2
    case TypeMessage(_) => 2
    case TypeFloat => 5
    case TypeFixed32 => 5
    case TypeSFixed32 => 5
    case TypeInt32 => 0
    case TypeInt64 => 0
    case TypeUInt32 => 0
    case TypeUInt64 => 0
    case TypeSInt32 => 0
    case TypeSInt64 => 0
    case TypeBool => 0
    case TypeEnum => 0
  }

  /** A length and as many bytes. */
  ghost predicate Delimited(b: seq<byte>, prefix: seq<byte>, body: seq<byte>) {
    b == prefix + body && VarintOf(prefix, |body|)
  }

  /** Field number and wire type, then the payload. */
  ghost predicate Record(b: seq<byte>, num: nat, wire: nat, tag: seq<byte>, payload: seq<byte>) {
    b == tag + payload && VarintOf(tag, 8 * num + wire)
  }

  /** A payload of the length its wire type dictates. */
  ghost predicate PayloadOf(wire: nat, b: seq<byte>) {
    || (wire == 0 && IsVarint(b))
    || (wire == 1 && |b| == 8)
    || (wire == 2 && exists prefix, body :: Delimited(b, prefix, body))
    || (wire == 5 && |b| == 4)
  }

  ghost predicate IsRecord(b: seq<byte>) {
    exists num, wire, tag, payload :: num >= 1 && Record(b, num, wire, tag, payload) && PayloadOf(wire, payload)
  }

  /** Records one after another, and nothing else. */
  ghost predicate IsRecords(b: seq<byte>) {
    exists records :: Flat(records) == b && forall j | 0 <= j < |records| :: IsRecord(records[j])
  }

  // ---- values ------------------------------------------------------------

  /** `b` spells the scalar `v` of proto type `k`. */
  ghost predicate SpellsScalar(k: Kind, v: Value, b: seq<byte>) {
    match k
    case TypeDouble => v.VDouble? && |b| == 8 && LittleEndian(b) == v.bits64
    case TypeFloat => v.VFloat? && |b| == 4 && LittleEndian(b) == v.bits32
    case TypeFixed64 => v.VLong? && |b| == 8 && LittleEndian(b) == Unsigned(v.l, TWO_64)
    case TypeSFixed64 => v.VLong? && |b| == 8 && LittleEndian(b) == Unsigned(v.l, TWO_64)
    case TypeFixed32 => v.VInt? && |b| == 4 && LittleEndian(b) == Unsigned(v.i, TWO_32)
    case TypeSFixed32 => v.VInt? && |b| == 4 && LittleEndian(b) == Unsigned(v.i, TWO_32)
    case TypeString => v.VBytes? && exists prefix :: Delimited(b, prefix, v.bytes)
    case TypeBytes => v.VBytes? && exists prefix :: Delimited(b, prefix, v.bytes)
    case TypeInt32 => v.VInt? && VarintOf(b, Unsigned(v.i, TWO_64))
    case TypeEnum => v.VInt? && VarintOf(b, Unsigned(v.i, TWO_64))
    case TypeInt64 => v.VLong? && VarintOf(b, Unsigned(v.l, TWO_64))
    case TypeUInt64 => v.VLong? && VarintOf(b, Unsigned(v.l, TWO_64))
    case TypeUInt32 => v.VInt? && VarintOf(b, Unsigned(v.i, TWO_32))
    case TypeSInt32 => v.VInt? && VarintOf(b, ZigZag(v.i))
    case TypeSInt64 => v.VLong? && VarintOf(b, ZigZag(v.l))
    case TypeBool => v.VBool? && VarintOf(b, if v.b then 1 else 0)
    case TypeMessage(_) => false
  }

  /** Zero, false or empty, as a Java `!=` against the default sees it. */
  predicate IsZero(v: Value) {
    match v
    case VInt(i) => i == 0
    case VLong(l) => l == 0
    case VBool(b) => !b
    case VFloat(bits) => bits == 0 || bits == 0x8000_0000
    case VDouble(bits) => bits == 0 || bits == 0x8000_0000_0000_0000
    case VBytes(bytes) => |bytes| == 0
    case VMessage(_) => false
  }

  /** `b` spells one element of type `k`, scalar or message. */
  ghost predicate SpellsValue(s: Schema, k: Kind, v: Value, b: seq<byte>)
    decreases v, 0
  {
    if k.TypeMessage? then v.VMessage? && exists prefix, body :: Delimited(b, prefix, body) && SpellsMessage(s, k.of, v.m, body)
    else SpellsScalar(k, v, b)
  }

  /** `b` is one record of field `f` with the element `v`. */
  ghost predicate SpellsElement(s: Schema, f: FieldSpec, v: Value, b: seq<byte>)
    decreases v, 1
  {
    exists tag, payload :: Record(b, f.num, WireOf(f.kind), tag, payload) && SpellsValue(s, f.kind, v, payload)
  }

  /** "Packed Repeated Fields": one record of wire type 2 with every element. */
  ghost predicate SpellsPacked(f: FieldSpec, vs: seq<Value>, b: seq<byte>) {
    exists tag, payload, prefix, parts ::
      && Record(b, f.num, 2, tag, payload) && Delimited(payload, prefix, Flat(parts))
      && |parts| == |vs| && forall j | 0 <= j < |vs| :: SpellsScalar(f.kind, vs[j], parts[j])
  }

  /** `b` is what field `f` with storage `x` has on the wire. */
  ghost predicate SpellsSlot(s: Schema, f: FieldSpec, x: FieldSlot, b: seq<byte>)
    decreases x, 0
  {
    match x
    case One(v) => if IsZero(v) then b == [] else SpellsElement(s, f, v, b)
    case Opt(has, v) => if has then SpellsElement(s, f, v, b) else b == []
    case Sub(None) => b == []
    case Sub(Some(m)) =>
      && f.kind.TypeMessage?
      && exists tag, payload, prefix, body ::
           Record(b, f.num, 2, tag, payload) && Delimited(payload, prefix, body) && SpellsMessage(s, f.kind.of, m, body)
    case Many(vs) =>
      if WireOf(f.kind) != 2 then (if vs == [] then b == [] else SpellsPacked(f, vs, b))
      else
        exists parts ::
          && Flat(parts) == b && |parts| == |vs|
          && forall j | 0 <= j < |vs| :: SpellsElement(s, f, vs[j], parts[j])
  }

  /** `b` is the fields of `m`, in the order of their numbers, nothing between. */
  ghost predicate SpellsMessage(s: Schema, t: nat, m: Message, b: seq<byte>)
    decreases m, 1
  {
    && t < |s| && |m.slots| == |s[t]|
    && exists parts ::
         && Flat(parts) == b && |parts| == |m.slots|
         && forall i | 0 <= i < |m.slots| :: SpellsSlot(s, s[t][i], m.slots[i], parts[i])
  }
}
