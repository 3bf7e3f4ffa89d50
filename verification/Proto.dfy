/** What the classes emitted by `tools/protoc-gen-picodroid/protoc_gen_picodroid.py`
    mean: for a proto3 schema, the bytes `writeTo` emits, the number
    `getSerializedSize` answers, and the message `mergeFrom` makes of a stream. */
module Proto {
  import opened Bytes
  import opened Wire

  // ---- schemas -----------------------------------------------------------

  datatype Kind =
    | TypeDouble | TypeFloat | TypeInt64 | TypeUInt64 | TypeInt32 | TypeFixed64 | TypeFixed32 | TypeBool
    | TypeString | TypeBytes | TypeUInt32 | TypeEnum | TypeSFixed32 | TypeSFixed64 | TypeSInt32 | TypeSInt64
    | TypeMessage(of: nat)

  const WT_VARINT := 0
  const WT_FIXED64 := 1
  const WT_LEN := 2
  const WT_FIXED32 := 5

  function WireType(k: Kind): nat {
    match k
    case TypeDouble => WT_FIXED64
    case TypeFixed64 => WT_FIXED64
    case TypeSFixed64 => WT_FIXED64
    case TypeFloat => WT_FIXED32
    case TypeFixed32 => WT_FIXED32
    case TypeSFixed32 => WT_FIXED32
    case TypeString => WT_LEN
    case TypeBytes => WT_LEN
    case TypeMessage(_) => WT_LEN
    case _ => WT_VARINT
  }

  datatype Rule = Singular | Optional | Repeated

  datatype FieldSpec = FieldSpec(num: nat, kind: Kind, rule: Rule)

  /** Message types by number, the fields of each sorted by field number. */
  type Schema = seq<seq<FieldSpec>>

  /** A packed field: repeated, of any type that is not length-delimited. */
  predicate Packs(f: FieldSpec) { f.rule == Repeated && WireType(f.kind) != WT_LEN }

  function MakeTag(num: nat, wt: nat): nat { 8 * num + wt }

  function TagOf(f: FieldSpec): nat { MakeTag(f.num, WireType(f.kind)) }

  const MAX_FIELD_NUMBER := 0x1FFF_FFFF

  /** What `protoc` has checked: field numbers in range and distinct (the
      generator sorts by them), message types known. */
  ghost predicate SchemaOk(s: Schema) {
    forall t | 0 <= t < |s| ::
      && (forall i | 0 <= i < |s[t]| ::
            1 <= s[t][i].num <= MAX_FIELD_NUMBER && (s[t][i].kind.TypeMessage? ==> s[t][i].kind.of < |s|))
      && forall i, j | 0 <= i < j < |s[t]| :: s[t][i].num < s[t][j].num
  }

  // ---- messages ----------------------------------------------------------

  /** A Java value: an `int` or a `long`; a `float` by its `floatToIntBits`, so
      that there is one NaN; a `double` by its raw bits; a string or a `byte[]`. */
  datatype Value =
    | VInt(i: i32)
    | VLong(l: i64)
    | VBool(b: bool)
    | VFloat(bits32: u32)
    | VDouble(bits64: u64)
    | VBytes(bytes: seq<byte>)
    | VMessage(m: Message)

  /** The storage of one field: a scalar, an `optional` scalar with its flag, a
      message reference, or an array with its count. */
  datatype FieldSlot =
    | One(v: Value)
    | Opt(has: bool, v: Value)
    | Sub(sub: Option<Message>)
    | Many(vs: seq<Value>)

  datatype Message = Message(slots: seq<FieldSlot>)

  predicate OneNaN(bits: u32) {
    var magnitude := bits % 0x8000_0000;
    magnitude <= 0x7F80_0000 || bits == 0x7FC0_0000
  }

  /** `floatToIntBits(intBitsToFloat(bits))` */
  function OneNaNBits(bits: u32): (r: u32)
    ensures OneNaN(r) && (OneNaN(bits) ==> r == bits)
  {
    if OneNaN(bits) then bits else 0x7FC0_0000
  }

  predicate ScalarFits(k: Kind, v: Value) {
    match k
    case TypeDouble => v.VDouble?
    case TypeFloat => v.VFloat? && OneNaN(v.bits32)
    case TypeBool => v.VBool?
    case TypeString => v.VBytes?
    case TypeBytes => v.VBytes?
    case TypeInt64 => v.VLong?
    case TypeUInt64 => v.VLong?
    case TypeFixed64 => v.VLong?
    case TypeSFixed64 => v.VLong?
    case TypeSInt64 => v.VLong?
    case TypeMessage(_) => false
    case _ => v.VInt?
  }

  function Default(k: Kind): (v: Value)
    requires !k.TypeMessage?
    ensures ScalarFits(k, v)
  {
    match k
    case TypeDouble => VDouble(0)
    case TypeFloat => VFloat(0)
    case TypeBool => VBool(false)
    case TypeString => VBytes([])
    case TypeBytes => VBytes([])
    case TypeInt64 => VLong(0)
    case TypeUInt64 => VLong(0)
    case TypeFixed64 => VLong(0)
    case TypeSFixed64 => VLong(0)
    case TypeSInt64 => VLong(0)
    case TypeInt32 => VInt(0)
    case TypeUInt32 => VInt(0)
    case TypeSInt32 => VInt(0)
    case TypeFixed32 => VInt(0)
    case TypeSFixed32 => VInt(0)
    case TypeEnum => VInt(0)
  }

  /** A message the emitted class for type `t` can hold: every slot of its
      field's type, and an `optional` that is not set back at its default. */
  predicate Fits(s: Schema, t: nat, m: Message)
    decreases m, 1
  {
    && t < |s| && |m.slots| == |s[t]|
    && forall i | 0 <= i < |m.slots| :: SlotFits(s, s[t][i], m.slots[i])
  }

  predicate SlotFits(s: Schema, f: FieldSpec, x: FieldSlot)
    decreases x, 0
  {
    if f.rule == Repeated then x.Many? && forall k | 0 <= k < |x.vs| :: ValueFits(s, f.kind, x.vs[k])
    else if f.kind.TypeMessage? then x.Sub? && (x.sub.Some? ==> Fits(s, f.kind.of, x.sub.value))
    else if f.rule == Optional then x.Opt? && ScalarFits(f.kind, x.v) && (!x.has ==> x.v == Default(f.kind))
    else x.One? && ScalarFits(f.kind, x.v)
  }

  predicate ValueFits(s: Schema, k: Kind, v: Value)
    decreases v, 0
  {
    if k.TypeMessage? then v.VMessage? && Fits(s, k.of, v.m) else ScalarFits(k, v)
  }

  function FreshSlot(f: FieldSpec): FieldSlot {
    if f.rule == Repeated then Many([])
    else if f.kind.TypeMessage? then Sub(None)
    else if f.rule == Optional then Opt(false, Default(f.kind))
    else One(Default(f.kind))
  }

  /** `new M()` */
  function Fresh(s: Schema, t: nat): (m: Message)
    requires t < |s|
    ensures |m.slots| == |s[t]|
  {
    Message(seq(|s[t]|, i requires 0 <= i < |s[t]| => FreshSlot(s[t][i])))
  }

  /** `present`: a singular scalar without a flag is on the wire when it differs
      from its default, as Java compares it: both zeros of a `float` or a
      `double` equal `0.0`. */
  predicate Shows(k: Kind, v: Value)
    requires ScalarFits(k, v)
  {
    match k
    case TypeDouble => v.bits64 != 0 && v.bits64 != 0x8000_0000_0000_0000
    case TypeFloat => v.bits32 != 0 && v.bits32 != 0x8000_0000
    case TypeBool => v.b
    case TypeString => v.bytes != []
    case TypeBytes => v.bytes != []
    case TypeInt64 => v.l != 0
    case TypeUInt64 => v.l != 0
    case TypeFixed64 => v.l != 0
    case TypeSFixed64 => v.l != 0
    case TypeSInt64 => v.l != 0
    case TypeInt32 => v.i != 0
    case TypeUInt32 => v.i != 0
    case TypeSInt32 => v.i != 0
    case TypeFixed32 => v.i != 0
    case TypeSFixed32 => v.i != 0
    case TypeEnum => v.i != 0
  }

  lemma PackedFits(s: Schema, f: FieldSpec, x: FieldSlot)
    requires SlotFits(s, f, x) && Packs(f)
    ensures x.Many? && forall k | 0 <= k < |x.vs| :: ScalarFits(f.kind, x.vs[k])
  {
    forall k | 0 <= k < |x.vs|
      ensures ScalarFits(f.kind, x.vs[k])
    {
      assert ValueFits(s, f.kind, x.vs[k]);
    }
  }

  // ---- writing -----------------------------------------------------------

  function WriteTag(num: nat, wt: nat): seq<byte> { Varint(MakeTag(num, wt)) }

  function LengthPrefixed(b: seq<byte>): seq<byte> { Varint(|b|) + b }

  /** `writeXxxNoTag` */
  function WriteScalar(k: Kind, v: Value): seq<byte>
    requires ScalarFits(k, v)
  {
    match k
    case TypeDouble => Le64Bytes(v.bits64)
    case TypeFloat => Le32Bytes(v.bits32)
    case TypeBool => [if v.b then 1 else 0]
    case TypeString => LengthPrefixed(v.bytes)
    case TypeBytes => LengthPrefixed(v.bytes)
    case TypeInt64 => Varint(Bits64(v.l))
    case TypeUInt64 => Varint(Bits64(v.l))
    case TypeSInt64 => Varint(ZigZag64(v.l))
    case TypeFixed64 => Le64Bytes(Bits64(v.l))
    case TypeSFixed64 => Le64Bytes(Bits64(v.l))
    case TypeInt32 => Varint(Bits64(v.i))
    case TypeEnum => Varint(Bits64(v.i))
    case TypeUInt32 => Varint(Bits32(v.i))
    case TypeSInt32 => Varint(ZigZag32(v.i))
    case TypeFixed32 => Le32Bytes(Bits32(v.i))
    case TypeSFixed32 => Le32Bytes(Bits32(v.i))
  }

  /** `writeTo` */
  function Write(s: Schema, t: nat, m: Message): seq<byte>
    requires Fits(s, t, m)
    decreases m, |m.slots| + 1
  {
    WriteFrom(s, t, m, 0)
  }

  /** The fields from the `i`th on. */
  function WriteFrom(s: Schema, t: nat, m: Message, i: nat): seq<byte>
    requires Fits(s, t, m) && i <= |m.slots|
    decreases m, |m.slots| - i
  {
    if i == |m.slots| then [] else WriteSlot(s, s[t][i], m.slots[i]) + WriteFrom(s, t, m, i + 1)
  }

  function WriteSlot(s: Schema, f: FieldSpec, x: FieldSlot): seq<byte>
    requires SlotFits(s, f, x)
    decreases x, 0
  {
    match x
    case Many(vs) =>
      if Packs(f) then
        PackedFits(s, f, x);
        if vs == [] then [] else WriteTag(f.num, WT_LEN) + LengthPrefixed(PackedBytes(f.kind, vs))
      else WriteEach(s, f, vs)
    case Sub(sub) => if sub.None? then [] else WriteTag(f.num, WT_LEN) + LengthPrefixed(Write(s, f.kind.of, sub.value))
    case Opt(has, v) => if has then WriteTag(f.num, WireType(f.kind)) + WriteScalar(f.kind, v) else []
    case One(v) => if Shows(f.kind, v) then WriteTag(f.num, WireType(f.kind)) + WriteScalar(f.kind, v) else []
  }

  /** One element of a repeated field that is not packed, with its tag. */
  function WriteElement(s: Schema, f: FieldSpec, v: Value): seq<byte>
    requires ValueFits(s, f.kind, v)
    decreases v, 1
  {
    WriteTag(f.num, WireType(f.kind))
    + if f.kind.TypeMessage? then LengthPrefixed(Write(s, f.kind.of, v.m)) else WriteScalar(f.kind, v)
  }

  function WriteEach(s: Schema, f: FieldSpec, vs: seq<Value>): seq<byte>
    requires forall k | 0 <= k < |vs| :: ValueFits(s, f.kind, vs[k])
    decreases vs, 0
  {
    if vs == [] then [] else WriteElement(s, f, vs[0]) + WriteEach(s, f, vs[1..])
  }

  function PackedBytes(k: Kind, vs: seq<Value>): seq<byte>
    requires forall j | 0 <= j < |vs| :: ScalarFits(k, vs[j])
  {
    if vs == [] then [] else WriteScalar(k, vs[0]) + PackedBytes(k, vs[1..])
  }

  // ---- sizing ------------------------------------------------------------

  /** `computeUInt32SizeNoTag` and `computeUInt64SizeNoTag` */
  function VarintSize(v: nat): nat { if v < 0x80 then 1 else 1 + VarintSize(v / 0x80) }

  /** `computeTagSize`: measured with a wire type of zero. */
  function TagSize(num: nat): nat { VarintSize(MakeTag(num, 0)) }

  /** `computeInt32SizeNoTag` */
  function Int32Size(i: i32): nat { if i >= 0 then VarintSize(i) else 10 }

  /** `computeXxxSizeNoTag` */
  function ScalarSize(k: Kind, v: Value): nat
    requires ScalarFits(k, v)
  {
    match k
    case TypeDouble => 8
    case TypeFloat => 4
    case TypeBool => 1
    case TypeString => VarintSize(|v.bytes|) + |v.bytes|
    case TypeBytes => VarintSize(|v.bytes|) + |v.bytes|
    case TypeInt64 => VarintSize(Bits64(v.l))
    case TypeUInt64 => VarintSize(Bits64(v.l))
    case TypeSInt64 => VarintSize(ZigZag64(v.l))
    case TypeFixed64 => 8
    case TypeSFixed64 => 8
    case TypeInt32 => Int32Size(v.i)
    case TypeEnum => Int32Size(v.i)
    case TypeUInt32 => VarintSize(Bits32(v.i))
    case TypeSInt32 => VarintSize(ZigZag32(v.i))
    case TypeFixed32 => 4
    case TypeSFixed32 => 4
  }

  /** `getSerializedSize` */
  function Size(s: Schema, t: nat, m: Message): nat
    requires Fits(s, t, m)
    decreases m, |m.slots| + 1
  {
    SizeFrom(s, t, m, 0)
  }

  function SizeFrom(s: Schema, t: nat, m: Message, i: nat): nat
    requires Fits(s, t, m) && i <= |m.slots|
    decreases m, |m.slots| - i
  {
    if i == |m.slots| then 0 else SlotSize(s, s[t][i], m.slots[i]) + SizeFrom(s, t, m, i + 1)
  }

  function SlotSize(s: Schema, f: FieldSpec, x: FieldSlot): nat
    requires SlotFits(s, f, x)
    decreases x, 0
  {
    match x
    case Many(vs) =>
      if Packs(f) then
        PackedFits(s, f, x);
        var packed := PackedSize(f.kind, vs);
        if vs == [] then 0 else TagSize(f.num) + VarintSize(packed) + packed
      else EachSize(s, f, vs)
    case Sub(sub) =>
      if sub.None? then 0
      else
        var size := Size(s, f.kind.of, sub.value);
        TagSize(f.num) + (VarintSize(size) + size)
    case Opt(has, v) => if has then TagSize(f.num) + ScalarSize(f.kind, v) else 0
    case One(v) => if Shows(f.kind, v) then TagSize(f.num) + ScalarSize(f.kind, v) else 0
  }

  function ElementSize(s: Schema, f: FieldSpec, v: Value): nat
    requires ValueFits(s, f.kind, v)
    decreases v, 1
  {
    if f.kind.TypeMessage? then
      var size := Size(s, f.kind.of, v.m);
      TagSize(f.num) + (VarintSize(size) + size)
    else TagSize(f.num) + ScalarSize(f.kind, v)
  }

  function EachSize(s: Schema, f: FieldSpec, vs: seq<Value>): nat
    requires forall k | 0 <= k < |vs| :: ValueFits(s, f.kind, vs[k])
    decreases vs, 0
  {
    if vs == [] then 0 else ElementSize(s, f, vs[0]) + EachSize(s, f, vs[1..])
  }

  function PackedSize(k: Kind, vs: seq<Value>): nat
    requires forall j | 0 <= j < |vs| :: ScalarFits(k, vs[j])
  {
    if vs == [] then 0 else ScalarSize(k, vs[0]) + PackedSize(k, vs[1..])
  }

  // ---- the size is the length --------------------------------------------

  lemma {:induction false} VarintSizeIsLength(v: nat)
    ensures VarintSize(v) == |Varint(v)|
  {
    if v >= 0x80 {
      VarintSizeIsLength(v / 0x80);
    }
  }

  /** The wire type never makes a tag longer. */
  lemma TagSizeIsLength(num: nat, wt: nat)
    requires wt < 8
    ensures TagSize(num) == |WriteTag(num, wt)|
  {
    VarintSizeIsLength(8 * num);
    if num >= 16 {
      assert (8 * num + wt) / 0x80 == 8 * num / 0x80;
    }
  }

  lemma Int32SizeIsLength(i: i32)
    ensures Int32Size(i) == |Varint(Bits64(i))|
  {
    TenBytesAtMost(Bits64(i));
    VarintSizeIsLength(Bits64(i));
  }

  lemma ScalarSizeIsLength(k: Kind, v: Value)
    requires ScalarFits(k, v)
    ensures ScalarSize(k, v) == |WriteScalar(k, v)|
  {
    match k {
      case TypeInt32 => Int32SizeIsLength(v.i);
      case TypeEnum => Int32SizeIsLength(v.i);
      case TypeUInt32 => VarintSizeIsLength(Bits32(v.i));
      case TypeSInt32 => VarintSizeIsLength(ZigZag32(v.i));
      case TypeInt64 => VarintSizeIsLength(Bits64(v.l));
      case TypeUInt64 => VarintSizeIsLength(Bits64(v.l));
      case TypeSInt64 => VarintSizeIsLength(ZigZag64(v.l));
      case TypeString => VarintSizeIsLength(|v.bytes|);
      case TypeBytes => VarintSizeIsLength(|v.bytes|);
      case _ =>
    }
  }

  lemma {:induction false} PackedSizeIsLength(k: Kind, vs: seq<Value>)
    requires forall j | 0 <= j < |vs| :: ScalarFits(k, vs[j])
    ensures PackedSize(k, vs) == |PackedBytes(k, vs)|
  {
    if vs != [] {
      ScalarSizeIsLength(k, vs[0]);
      PackedSizeIsLength(k, vs[1..]);
    }
  }

  /** `getSerializedSize()` is the number of bytes `writeTo` emits. */
  lemma {:induction false} SizeIsLength(s: Schema, t: nat, m: Message)
    requires Fits(s, t, m)
    ensures Size(s, t, m) == |Write(s, t, m)|
    decreases m, |m.slots| + 1
  {
    SizeFromIsLength(s, t, m, 0);
  }

  lemma {:induction false} SizeFromIsLength(s: Schema, t: nat, m: Message, i: nat)
    requires Fits(s, t, m) && i <= |m.slots|
    ensures SizeFrom(s, t, m, i) == |WriteFrom(s, t, m, i)|
    decreases m, |m.slots| - i
  {
    if i < |m.slots| {
      SlotSizeIsLength(s, s[t][i], m.slots[i]);
      SizeFromIsLength(s, t, m, i + 1);
    }
  }

  lemma {:induction false} SlotSizeIsLength(s: Schema, f: FieldSpec, x: FieldSlot)
    requires SlotFits(s, f, x)
    ensures SlotSize(s, f, x) == |WriteSlot(s, f, x)|
    decreases x, 0
  {
    TagSizeIsLength(f.num, WireType(f.kind));
    TagSizeIsLength(f.num, WT_LEN);
    match x {
      case Many(vs) =>
        if Packs(f) {
          PackedFits(s, f, x);
          PackedSizeIsLength(f.kind, vs);
          VarintSizeIsLength(|PackedBytes(f.kind, vs)|);
        } else {
          EachSizeIsLength(s, f, vs);
        }
      case Sub(sub) =>
        if sub.Some? {
          SizeIsLength(s, f.kind.of, sub.value);
          VarintSizeIsLength(|Write(s, f.kind.of, sub.value)|);
        }
      case Opt(has, v) => ScalarSizeIsLength(f.kind, v);
      case One(v) => ScalarSizeIsLength(f.kind, v);
    }
  }

  lemma {:induction false} EachSizeIsLength(s: Schema, f: FieldSpec, vs: seq<Value>)
    requires forall k | 0 <= k < |vs| :: ValueFits(s, f.kind, vs[k])
    ensures EachSize(s, f, vs) == |WriteEach(s, f, vs)|
    decreases vs, 0
  {
    if vs != [] {
      ElementSizeIsLength(s, f, vs[0]);
      EachSizeIsLength(s, f, vs[1..]);
    }
  }

  lemma {:induction false} ElementSizeIsLength(s: Schema, f: FieldSpec, v: Value)
    requires ValueFits(s, f.kind, v)
    ensures ElementSize(s, f, v) == |WriteElement(s, f, v)|
    decreases v, 1
  {
    TagSizeIsLength(f.num, WireType(f.kind));
    if f.kind.TypeMessage? {
      SizeIsLength(s, f.kind.of, v.m);
      VarintSizeIsLength(|Write(s, f.kind.of, v.m)|);
    } else {
      ScalarSizeIsLength(f.kind, v);
    }
  }

  // ---- reading -----------------------------------------------------------

  /** A length prefix: where the bytes it counts start and end. A length with
      the sign bit set, or past the limit, is refused. */
  function ReadLength(d: seq<byte>, pos: nat, limit: nat): (r: Option<(nat, nat)>)
    requires pos <= limit <= |d|
    ensures r.Some? ==> pos < r.value.0 <= r.value.1 <= limit
  {
    ReadVarintEnds(d, pos, limit);
    match ReadVarint(d, pos, limit)
    case None => None
    case Some((v, start)) =>
      var len := v % 0x1_0000_0000;
      if len >= 0x8000_0000 || start + len > limit then None else Some((start, start + len))
  }

  /** `readXxx` */
  function ReadScalar(k: Kind, d: seq<byte>, pos: nat, limit: nat): Option<(Value, nat)>
    requires pos <= limit <= |d| && !k.TypeMessage?
  {
    if k == TypeString || k == TypeBytes then
      match ReadLength(d, pos, limit)
      case None => None
      case Some((start, end)) => Some((VBytes(d[start..end]), end))
    else if WireType(k) == WT_FIXED32 then
      match ReadFixed32(d, pos, limit)
      case None => None
      case Some((w, end)) => Some((if k == TypeFloat then VFloat(OneNaNBits(w)) else VInt(Int32(w)), end))
    else if WireType(k) == WT_FIXED64 then
      match ReadFixed64(d, pos, limit)
      case None => None
      case Some((w, end)) => Some((if k == TypeDouble then VDouble(w) else VLong(Int64(w)), end))
    else
      match ReadVarint(d, pos, limit)
      case None => None
      case Some((w, end)) => Some((FromVarint(k, w), end))
  }

  /** A varint as the Java side sees it: an `int` keeps the low 32 bits. */
  function FromVarint(k: Kind, w: u64): Value {
    var low := w % 0x1_0000_0000;
    if k == TypeBool then VBool(w != 0)
    else if k == TypeInt64 || k == TypeUInt64 then VLong(Int64(w))
    else if k == TypeSInt64 then VLong(UnZigZag64(w))
    else if k == TypeSInt32 then VInt(UnZigZag32(low))
    else VInt(Int32(low))
  }

  /** `readTag` where the limit is not reached: field number zero is refused. */
  function ReadTag(d: seq<byte>, pos: nat, limit: nat): (r: Option<(nat, nat)>)
    requires pos <= limit <= |d|
    ensures r.Some? ==> pos < r.value.1 <= limit
  {
    ReadVarintEnds(d, pos, limit);
    match ReadVarint(d, pos, limit)
    case None => None
    case Some((v, end)) => if v % 0x1_0000_0000 / 8 == 0 then None else Some((v % 0x1_0000_0000, end))
  }

  /** `skipField`: the position after the value of an unknown field. */
  function SkipField(d: seq<byte>, pos: nat, limit: nat, tag: nat): (r: Option<nat>)
    requires pos <= limit <= |d|
    ensures r.Some? ==> pos <= r.value <= limit
  {
    ReadVarintEnds(d, pos, limit);
    if tag % 8 == WT_VARINT then
      match ReadVarint(d, pos, limit)
      case None => None
      case Some((_, end)) => Some(end)
    else if tag % 8 == WT_FIXED64 then if pos + 8 <= limit then Some(pos + 8) else None
    else if tag % 8 == WT_FIXED32 then if pos + 4 <= limit then Some(pos + 4) else None
    else if tag % 8 == WT_LEN then
      match ReadVarint(d, pos, limit)
      case None => None
      case Some((v, start)) => if start + v % 0x1_0000_0000 <= limit then Some(start + v % 0x1_0000_0000) else None
    else None
  }

  /** The `case` of the emitted `switch` a tag falls into. */
  datatype Case = Plain(i: nat) | Packed(i: nat) | Unknown

  function CaseOf(fields: seq<FieldSpec>, tag: nat, i: nat): (c: Case)
    requires i <= |fields|
    ensures !c.Unknown? ==> i <= c.i < |fields|
    ensures c.Packed? ==> Packs(fields[c.i])
    decreases |fields| - i
  {
    if i == |fields| then Unknown
    else if tag == TagOf(fields[i]) then Plain(i)
    else if Packs(fields[i]) && tag == MakeTag(fields[i].num, WT_LEN) then Packed(i)
    else CaseOf(fields, tag, i + 1)
  }

  /** The value read into its slot: stored, flagged, or added. */
  function StoreIn(x: FieldSlot, v: Value): FieldSlot {
    match x
    case One(_) => One(v)
    case Opt(_, _) => Opt(true, v)
    case Sub(_) => if v.VMessage? then Sub(Some(v.m)) else x
    case Many(vs) => Many(vs + [v])
  }

  function Store(m: Message, i: nat, v: Value): Message
    requires i < |m.slots|
  {
    Message(m.slots[i := StoreIn(m.slots[i], v)])
  }

  /** The elements of a packed payload, `pos` to `limit`. */
  function ReadPacked(k: Kind, d: seq<byte>, pos: nat, limit: nat): Option<seq<Value>>
    requires pos <= limit <= |d| && !k.TypeMessage?
    decreases limit - pos
  {
    if pos == limit then Some([])
    else
      match ReadScalar(k, d, pos, limit)
      case None => None
      case Some((v, end)) =>
        ReadScalarEnds(k, d, pos, limit);
        match ReadPacked(k, d, end, limit)
        case None => None
        case Some(vs) => Some([v] + vs)
  }

  lemma ReadScalarEnds(k: Kind, d: seq<byte>, pos: nat, limit: nat)
    requires pos <= limit <= |d| && !k.TypeMessage?
    ensures ReadScalar(k, d, pos, limit).Some? ==> pos < ReadScalar(k, d, pos, limit).value.1 <= limit
  {
    ReadVarintEnds(d, pos, limit);
  }

  function AddAll(m: Message, i: nat, vs: seq<Value>): Message
    requires i < |m.slots|
    decreases |vs|
  {
    if vs == [] then m else AddAll(Store(m, i, vs[0]), i, vs[1..])
  }

  lemma {:induction false} AddAllKeepsSize(m: Message, i: nat, vs: seq<Value>)
    requires i < |m.slots|
    ensures |AddAll(m, i, vs).slots| == |m.slots|
    decreases |vs|
  {
    if vs != [] {
      AddAllKeepsSize(Store(m, i, vs[0]), i, vs[1..]);
    }
  }

  /** `mergeFrom` on the bytes `pos..limit`, on top of what `m` holds; none for
      the exceptions. */
  function MergeFrom(s: Schema, t: nat, m: Message, d: seq<byte>, pos: nat, limit: nat): Option<Message>
    requires SchemaOk(s) && t < |s| && |m.slots| == |s[t]| && pos <= limit <= |d|
    decreases limit - pos
  {
    if pos == limit then Some(m)
    else
      match ReadTag(d, pos, limit)
      case None => None
      case Some((tag, at)) =>
        match CaseOf(s[t], tag, 0)
        case Unknown =>
          (match SkipField(d, at, limit, tag)
           case None => None
           case Some(end) => MergeFrom(s, t, m, d, end, limit))
        case Packed(i) =>
          (match ReadLength(d, at, limit)
           case None => None
           case Some((start, end)) =>
             match ReadPacked(s[t][i].kind, d, start, end)
             case None => None
             case Some(vs) =>
               AddAllKeepsSize(m, i, vs);
               MergeFrom(s, t, AddAll(m, i, vs), d, end, limit))
        case Plain(i) =>
          var k := s[t][i].kind;
          if k.TypeMessage? then
            match ReadLength(d, at, limit)
            case None => None
            case Some((start, end)) =>
              match MergeFrom(s, k.of, Fresh(s, k.of), d, start, end)
              case None => None
              case Some(sub) => MergeFrom(s, t, Store(m, i, VMessage(sub)), d, end, limit)
          else
            ReadScalarEnds(k, d, at, limit);
            match ReadScalar(k, d, at, limit)
            case None => None
            case Some((v, end)) => MergeFrom(s, t, Store(m, i, v), d, end, limit)
  }

  /** `parseFrom` */
  function ParseFrom(s: Schema, t: nat, d: seq<byte>): Option<Message>
    requires SchemaOk(s) && t < |s|
  {
    MergeFrom(s, t, Fresh(s, t), d, 0, |d|)
  }
}
