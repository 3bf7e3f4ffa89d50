/** What the emitted classes put on the wire is the format of the encoding
    specification, and what the specification spells they read. */
module ProtoWire {
  import opened Bytes
  import opened Proto
  import opened Regions
  import opened Wire
  import opened WireFormat

  // ---- numbers -----------------------------------------------------------

  lemma {:induction false} VarintGroups(v: nat)
    ensures Base128(Varint(v)) == v
    ensures var b := Varint(v); |b| >= 1 && b[|b| - 1] < 0x80 && forall i | 0 <= i < |b| - 1 :: b[i] >= 0x80
  {
    if v >= 0x80 {
      VarintGroups(v / 0x80);
      assert Varint(v)[1..] == Varint(v / 0x80);
    } else {
      assert Varint(v)[1..] == [];
    }
  }

  lemma WritesVarint(v: u64)
    ensures VarintOf(Varint(v), v)
  {
    TenBytesAtMost(v);
    VarintGroups(v);
  }

  lemma FourLittle(b: seq<byte>)
    requires |b| == 4
    ensures LittleEndian(b) == b[0] + 0x100 * b[1] as int + 0x1_0000 * b[2] as int + 0x100_0000 * b[3] as int
  {
    assert b[1..][1..] == b[2..] && b[2..][1..] == b[3..] && b[3..][1..] == [];
    assert LittleEndian(b[3..]) == b[3];
    assert LittleEndian(b[2..]) == b[2] + 0x100 * b[3] as int;
    assert LittleEndian(b[1..]) == b[1] + 0x100 * LittleEndian(b[2..]);
  }

  lemma WritesLe32(w: u32)
    ensures |Le32Bytes(w)| == 4 && LittleEndian(Le32Bytes(w)) == w
  {
    FourLittle(Le32Bytes(w));
    FourBytes(w, w / 0x100, w / 0x1_0000, w / 0x100_0000);
  }

  lemma {:induction false} LittleConcat(a: seq<byte>, b: seq<byte>)
    requires |a| == 4
    ensures LittleEndian(a + b) == LittleEndian(a) + 0x1_0000_0000 * LittleEndian(b)
  {
    var d := a + b;
    FourLittle(a);
    assert d[1..][1..] == d[2..] && d[2..][1..] == d[3..] && d[3..][1..] == b;
    assert LittleEndian(d[3..]) == a[3] + 0x100 * LittleEndian(b);
    assert LittleEndian(d[2..]) == a[2] + 0x100 * LittleEndian(d[3..]);
    assert LittleEndian(d[1..]) == a[1] + 0x100 * LittleEndian(d[2..]);
  }

  lemma WritesLe64(w: u64)
    ensures |Le64Bytes(w)| == 8 && LittleEndian(Le64Bytes(w)) == w
  {
    var lo, hi := w % 0x1_0000_0000, w / 0x1_0000_0000;
    WritesLe32(lo);
    WritesLe32(hi);
    LittleConcat(Le32Bytes(lo), Le32Bytes(hi));
  }

  // ---- writing -----------------------------------------------------------

  lemma WritesDelimited(body: seq<byte>)
    requires |body| < TWO_64
    ensures Delimited(LengthPrefixed(body), Varint(|body|), body)
  {
    WritesVarint(|body|);
  }

  lemma WritesScalar(k: Kind, v: Value)
    requires ScalarFits(k, v) && |WriteScalar(k, v)| < TWO_64
    ensures SpellsScalar(k, v, WriteScalar(k, v))
  {
    match k {
      case TypeDouble => WritesLe64(v.bits64);
      case TypeFloat => WritesLe32(v.bits32);
      case TypeBool => WritesVarint(if v.b then 1 else 0);
      case TypeString => WritesDelimited(v.bytes);
      case TypeBytes => WritesDelimited(v.bytes);
      case TypeInt64 => WritesVarint(Bits64(v.l));
      case TypeUInt64 => WritesVarint(Bits64(v.l));
      case TypeSInt64 => WritesVarint(ZigZag64(v.l));
      case TypeFixed64 => WritesLe64(Bits64(v.l));
      case TypeSFixed64 => WritesLe64(Bits64(v.l));
      case TypeInt32 => WritesVarint(Bits64(v.i));
      case TypeEnum => WritesVarint(Bits64(v.i));
      case TypeUInt32 => WritesVarint(Bits32(v.i));
      case TypeSInt32 => WritesVarint(ZigZag32(v.i));
      case TypeFixed32 => WritesLe32(Bits32(v.i));
      case TypeSFixed32 => WritesLe32(Bits32(v.i));
    }
  }

  lemma WireTypes(k: Kind)
    ensures WireType(k) == WireOf(k)
  {
  }

  lemma WritesRecord(num: nat, k: Kind, payload: seq<byte>)
    requires 1 <= num <= MAX_FIELD_NUMBER
    ensures Record(WriteTag(num, WireType(k)) + payload, num, WireOf(k), WriteTag(num, WireType(k)), payload)
    ensures Record(WriteTag(num, WT_LEN) + payload, num, 2, WriteTag(num, WT_LEN), payload)
  {
    WireTypes(k);
    WritesVarint(8 * num + WireOf(k));
    WritesVarint(8 * num + 2);
  }

  lemma ShowsUnlessZero(k: Kind, v: Value)
    requires ScalarFits(k, v)
    ensures Shows(k, v) <==> !IsZero(v)
  {
  }

  /** The elements of a packed payload, one after another. */
  lemma {:induction false} WritesPackedParts(k: Kind, vs: seq<Value>) returns (parts: seq<seq<byte>>)
    requires forall j | 0 <= j < |vs| :: ScalarFits(k, vs[j])
    requires |PackedBytes(k, vs)| < TWO_64
    ensures |parts| == |vs| && Flat(parts) == PackedBytes(k, vs)
    ensures forall j | 0 <= j < |vs| :: SpellsScalar(k, vs[j], parts[j])
  {
    hide WriteScalar, SpellsScalar, ScalarFits;
    if vs == [] {
      parts := [];
    } else {
      WritesScalar(k, vs[0]);
      var rest := WritesPackedParts(k, vs[1..]);
      parts := [WriteScalar(k, vs[0])] + rest;
      FlatCons(WriteScalar(k, vs[0]), rest);
    }
  }

  lemma {:induction false} FlatCons(p: seq<byte>, rest: seq<seq<byte>>)
    ensures Flat([p] + rest) == p + Flat(rest)
  {
    var all := [p] + rest;
    if rest == [] {
      assert all[..0] == [];
    } else {
      assert all[..|all| - 1] == [p] + rest[..|rest| - 1];
      FlatCons(p, rest[..|rest| - 1]);
    }
  }

  lemma WritesPacked(s: Schema, f: FieldSpec, vs: seq<Value>)
    requires SlotFits(s, f, Many(vs)) && Packs(f) && vs != [] && 1 <= f.num <= MAX_FIELD_NUMBER
    requires |WriteSlot(s, f, Many(vs))| < TWO_64
    ensures SpellsPacked(f, vs, WriteSlot(s, f, Many(vs)))
  {
    PackedFits(s, f, Many(vs));
    var body := PackedBytes(f.kind, vs);
    WritesRecord(f.num, f.kind, LengthPrefixed(body));
    WritesDelimited(body);
    var parts := WritesPackedParts(f.kind, vs);
    assert Record(WriteSlot(s, f, Many(vs)), f.num, 2, WriteTag(f.num, WT_LEN), LengthPrefixed(body));
    assert Delimited(LengthPrefixed(body), Varint(|body|), Flat(parts));
  }

  /** The bytes of any message are what the encoding specification says they are. */
  lemma {:induction false} WritesMessage(s: Schema, t: nat, m: Message)
    requires SchemaOk(s) && Fits(s, t, m) && |Write(s, t, m)| < TWO_64
    ensures SpellsMessage(s, t, m, Write(s, t, m))
    decreases m, |m.slots| + 1
  {
    var parts := WritesFields(s, t, m, 0);
    assert parts[0..] == parts;
    forall i | 0 <= i < |m.slots|
      ensures SpellsSlot(s, s[t][i], m.slots[i], parts[i])
    {
      assert 0 <= i && SpellsSlot(s, s[t][0 + i], m.slots[0 + i], parts[i]);
    }
  }

  lemma SlotWritten(s: Schema, t: nat, m: Message, i: nat)
    requires SchemaOk(s) && Fits(s, t, m) && i <= |m.slots|
    ensures t < |s| && |m.slots| == |s[t]|
    ensures i == |m.slots| ==> WriteFrom(s, t, m, i) == []
    ensures i < |m.slots| ==>
      && SlotFits(s, s[t][i], m.slots[i]) && 1 <= s[t][i].num <= MAX_FIELD_NUMBER
      && WriteFrom(s, t, m, i) == WriteSlot(s, s[t][i], m.slots[i]) + WriteFrom(s, t, m, i + 1)
  {
    hide SlotFits, WriteSlot;
  }

  lemma {:induction false} WritesFields(s: Schema, t: nat, m: Message, i: nat) returns (parts: seq<seq<byte>>)
    requires SchemaOk(s) && Fits(s, t, m) && i <= |m.slots| && |WriteFrom(s, t, m, i)| < TWO_64
    ensures |parts| == |m.slots| - i && Flat(parts) == WriteFrom(s, t, m, i)
    ensures forall j | 0 <= j < |parts| :: SpellsSlot(s, s[t][i + j], m.slots[i + j], parts[j])
    decreases m, |m.slots| - i
  {
    hide SchemaOk, Fits, WriteFrom, WriteSlot, SpellsSlot, SlotFits;
    SlotWritten(s, t, m, i);
    if i == |m.slots| {
      parts := [];
    } else {
      var f, x := s[t][i], m.slots[i];
      WritesSlot(s, f, x);
      var rest := WritesFields(s, t, m, i + 1);
      parts := [WriteSlot(s, f, x)] + rest;
      FlatCons(WriteSlot(s, f, x), rest);
      forall j | 0 <= j < |parts|
        ensures SpellsSlot(s, s[t][i + j], m.slots[i + j], parts[j])
      {
        if j > 0 {
          assert parts[j] == rest[j - 1] && i + j == (i + 1) + (j - 1);
        }
      }
    }
  }

  lemma {:induction false} WritesSlot(s: Schema, f: FieldSpec, x: FieldSlot)
    requires SchemaOk(s) && SlotFits(s, f, x) && 1 <= f.num <= MAX_FIELD_NUMBER && |WriteSlot(s, f, x)| < TWO_64
    ensures SpellsSlot(s, f, x, WriteSlot(s, f, x))
    decreases x, 0
  {
    WireTypes(f.kind);
    match x {
      case Many(vs) =>
        if Packs(f) {
          if vs != [] {
            WritesPacked(s, f, vs);
          }
        } else {
          var parts := WritesEach(s, f, vs);
        }
      case Sub(sub) =>
        if sub.Some? {
          WritesMessage(s, f.kind.of, sub.value);
          WritesSub(s, f, sub.value);
        }
      case Opt(has, v) =>
        if has {
          WritesScalarRecord(s, f, v);
        }
      case One(v) =>
        ShowsUnlessZero(f.kind, v);
        if Shows(f.kind, v) {
          WritesScalarRecord(s, f, v);
        }
    }
  }

  lemma WritesSub(s: Schema, f: FieldSpec, m: Message)
    requires f.kind.TypeMessage? && Fits(s, f.kind.of, m) && 1 <= f.num <= MAX_FIELD_NUMBER
    requires |Write(s, f.kind.of, m)| < TWO_64 && SpellsMessage(s, f.kind.of, m, Write(s, f.kind.of, m))
    ensures var body := Write(s, f.kind.of, m);
      && Record(WriteTag(f.num, WT_LEN) + LengthPrefixed(body), f.num, 2, WriteTag(f.num, WT_LEN), LengthPrefixed(body))
      && Delimited(LengthPrefixed(body), Varint(|body|), body)
  {
    var body := Write(s, f.kind.of, m);
    WritesRecord(f.num, f.kind, LengthPrefixed(body));
    WritesDelimited(body);
  }

  lemma WritesScalarRecord(s: Schema, f: FieldSpec, v: Value)
    requires ScalarFits(f.kind, v) && 1 <= f.num <= MAX_FIELD_NUMBER && |WriteScalar(f.kind, v)| < TWO_64
    ensures SpellsElement(s, f, v, WriteTag(f.num, WireType(f.kind)) + WriteScalar(f.kind, v))
  {
    WritesRecord(f.num, f.kind, WriteScalar(f.kind, v));
    WritesScalar(f.kind, v);
  }

  lemma {:induction false} WritesEach(s: Schema, f: FieldSpec, vs: seq<Value>) returns (parts: seq<seq<byte>>)
    requires SchemaOk(s) && 1 <= f.num <= MAX_FIELD_NUMBER
    requires forall k | 0 <= k < |vs| :: ValueFits(s, f.kind, vs[k])
    requires |WriteEach(s, f, vs)| < TWO_64
    ensures |parts| == |vs| && Flat(parts) == WriteEach(s, f, vs)
    ensures forall j | 0 <= j < |vs| :: SpellsElement(s, f, vs[j], parts[j])
    decreases vs, 1
  {
    if vs == [] {
      parts := [];
    } else {
      WritesElement(s, f, vs[0]);
      var rest := WritesEach(s, f, vs[1..]);
      parts := [WriteElement(s, f, vs[0])] + rest;
      FlatCons(WriteElement(s, f, vs[0]), rest);
    }
  }

  lemma {:induction false} WritesElement(s: Schema, f: FieldSpec, v: Value)
    requires SchemaOk(s) && ValueFits(s, f.kind, v) && 1 <= f.num <= MAX_FIELD_NUMBER
    requires |WriteElement(s, f, v)| < TWO_64
    ensures SpellsElement(s, f, v, WriteElement(s, f, v))
    decreases v, 1
  {
    if f.kind.TypeMessage? {
      WritesMessage(s, f.kind.of, v.m);
      WritesMessageRecord(s, f, v);
    } else {
      WritesScalarRecord(s, f, v);
    }
  }

  lemma WritesMessageRecord(s: Schema, f: FieldSpec, v: Value)
    requires f.kind.TypeMessage? && ValueFits(s, f.kind, v) && 1 <= f.num <= MAX_FIELD_NUMBER
    requires |Write(s, f.kind.of, v.m)| < TWO_64 && SpellsMessage(s, f.kind.of, v.m, Write(s, f.kind.of, v.m))
    ensures SpellsElement(s, f, v, WriteElement(s, f, v))
  {
    hide Write, SpellsMessage, WriteTag, LengthPrefixed, Record, Delimited;
    var body := Write(s, f.kind.of, v.m);
    WritesSub(s, f, v.m);
    WireTypes(f.kind);
    assert SpellsValue(s, f.kind, v, LengthPrefixed(body));
  }

  // ---- a stream of records -----------------------------------------------

  lemma {:induction false} FlatConcat(a: seq<seq<byte>>, b: seq<seq<byte>>)
    ensures Flat(a + b) == Flat(a) + Flat(b)
  {
    if b == [] {
      assert a + b == a;
    } else {
      assert (a + b)[..|a + b| - 1] == a + b[..|b| - 1];
      FlatConcat(a, b[..|b| - 1]);
    }
  }

  lemma {:induction false} AllRecords(parts: seq<seq<byte>>)
    requires forall j | 0 <= j < |parts| :: IsRecords(parts[j])
    ensures IsRecords(Flat(parts))
    decreases |parts|
  {
    if parts == [] {
      assert Flat([]) == Flat(parts);
    } else {
      AllRecords(parts[..|parts| - 1]);
      JoinedRecords(Flat(parts[..|parts| - 1]), parts[|parts| - 1]);
    }
  }

  lemma JoinedRecords(a: seq<byte>, b: seq<byte>)
    requires IsRecords(a) && IsRecords(b)
    ensures IsRecords(a + b)
  {
    hide IsRecord;
    var x :| Flat(x) == a && forall j | 0 <= j < |x| :: IsRecord(x[j]);
    var y :| Flat(y) == b && forall j | 0 <= j < |y| :: IsRecord(y[j]);
    FlatConcat(x, y);
    assert forall j | 0 <= j < |x + y| :: IsRecord((x + y)[j]);
  }

  lemma OneRecord(b: seq<byte>)
    ensures b == [] || IsRecord(b) ==> IsRecords(b)
  {
    hide IsRecord;
    var none: seq<seq<byte>> := [];
    assert Flat(none) == [];
    assert [b][..0] == none && Flat([b]) == b;
  }

  lemma ScalarIsPayload(k: Kind, v: Value, b: seq<byte>)
    requires SpellsScalar(k, v, b)
    ensures PayloadOf(WireOf(k), b)
  {
  }

  lemma ElementIsRecord(s: Schema, f: FieldSpec, v: Value, b: seq<byte>)
    requires SpellsElement(s, f, v, b) && f.num >= 1
    ensures IsRecord(b)
  {
    hide SpellsScalar, SpellsMessage;
    var tag, payload :| Record(b, f.num, WireOf(f.kind), tag, payload) && SpellsValue(s, f.kind, v, payload);
    if !f.kind.TypeMessage? {
      ScalarIsPayload(f.kind, v, payload);
    }
  }

  lemma SlotIsRecords(s: Schema, f: FieldSpec, x: FieldSlot, b: seq<byte>)
    requires SpellsSlot(s, f, x, b) && f.num >= 1
    ensures IsRecords(b)
  {
    hide SpellsElement, SpellsMessage, SpellsScalar, IsRecord, IsRecords;
    OneRecord(b);
    match x {
      case One(v) =>
        if !IsZero(v) {
          ElementIsRecord(s, f, v, b);
        }
      case Opt(has, v) =>
        if has {
          ElementIsRecord(s, f, v, b);
        }
      case Sub(sub) =>
        if sub.Some? {
          SubIsRecord(s, f, sub.value, b);
        }
      case Many(vs) =>
        if WireOf(f.kind) != 2 {
          if vs != [] {
            PackedIsRecord(f, vs, b);
          }
        } else {
          var parts :| Flat(parts) == b && |parts| == |vs| && forall j | 0 <= j < |vs| :: SpellsElement(s, f, vs[j], parts[j]);
          forall j | 0 <= j < |parts|
            ensures IsRecords(parts[j])
          {
            ElementIsRecord(s, f, vs[j], parts[j]);
            OneRecord(parts[j]);
          }
          AllRecords(parts);
        }
    }
  }

  lemma SubIsRecord(s: Schema, f: FieldSpec, m: Message, b: seq<byte>)
    requires SpellsSlot(s, f, Sub(Some(m)), b) && f.num >= 1
    ensures IsRecord(b)
  {
    hide SpellsMessage;
    var tag, payload, prefix, body :|
      Record(b, f.num, 2, tag, payload) && Delimited(payload, prefix, body) && SpellsMessage(s, f.kind.of, m, body);
    assert PayloadOf(2, payload);
  }

  lemma PackedIsRecord(f: FieldSpec, vs: seq<Value>, b: seq<byte>)
    requires SpellsPacked(f, vs, b) && f.num >= 1
    ensures IsRecord(b)
  {
    hide SpellsScalar;
    var tag, payload, prefix, parts :| Record(b, f.num, 2, tag, payload) && Delimited(payload, prefix, Flat(parts))
      && |parts| == |vs| && forall j | 0 <= j < |vs| :: SpellsScalar(f.kind, vs[j], parts[j]);
    assert PayloadOf(2, payload);
  }

  /** What `writeTo` emits is records of field number, wire type 0, 1, 2 or 5,
      and a payload of the length the wire type dictates, nothing between them. */
  lemma WritesRecords(s: Schema, t: nat, m: Message)
    requires SchemaOk(s) && Fits(s, t, m) && |Write(s, t, m)| < TWO_64
    ensures IsRecords(Write(s, t, m))
  {
    hide Write, SpellsSlot, IsRecords;
    WritesMessage(s, t, m);
    var parts :| Flat(parts) == Write(s, t, m) && |parts| == |m.slots|
              && forall i | 0 <= i < |m.slots| :: SpellsSlot(s, s[t][i], m.slots[i], parts[i]);
    forall i | 0 <= i < |parts|
      ensures IsRecords(parts[i])
    {
      SlotIsRecords(s, s[t][i], m.slots[i], parts[i]);
    }
    AllRecords(parts);
  }
}
