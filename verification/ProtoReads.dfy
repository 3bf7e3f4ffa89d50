/** What the encoding specification spells, the emitted classes read: each record
    into its field, and a whole message into the message spelled, whoever wrote
    the bytes. */
module ProtoReads {
  import opened Bytes
  import opened Proto
  import opened ProtoNormal
  import opened ProtoWire
  import opened Regions
  import opened Wire
  import opened WireFormat

  // ---- numbers -----------------------------------------------------------

  lemma {:induction false} GroupsRead(b: seq<byte>, r: seq<byte>, i: nat)
    requires IsVarint(b) && i < |b| <= |r| && r[..|b|] == b
    ensures VarintFrom(r, i) == Some((Base128(b[i..]), |b|))
    decreases |b| - i
  {
    assert r[i] == r[..|b|][i] == b[i];
    assert b[i..][1..] == b[i + 1..];
    if i + 1 < |b| {
      GroupsRead(b, r, i + 1);
    } else {
      assert b[i + 1..] == [];
    }
  }

  /** A varint spelled is the number read, to 64 bits. */
  lemma VarintSpelledReads(b: seq<byte>, d: seq<byte>, pos: nat, limit: nat)
    requires IsVarint(b) && LiesAt(d, pos, b) && pos + |b| <= limit <= |d|
    ensures ReadVarint(d, pos, limit) == Some((Base128(b) % TWO_64, pos + |b|))
  {
    var r := d[pos..limit];
    SliceOfSlice(d, pos, limit, 0, |b|);
    GroupsRead(b, r, 0);
    assert b[0..] == b;
  }

  lemma FixedSpelledReads(b: seq<byte>, d: seq<byte>, pos: nat, limit: nat)
    requires LiesAt(d, pos, b) && pos + |b| <= limit <= |d|
    ensures |b| == 4 ==> ReadFixed32(d, pos, limit) == Some((LittleEndian(b), pos + 4))
    ensures |b| == 8 ==> ReadFixed64(d, pos, limit) == Some((LittleEndian(b), pos + 8))
  {
    forall i | 0 <= i < |b|
      ensures d[pos + i] == b[i]
    {
      assert d[pos..pos + |b|][i] == b[i];
    }
    if |b| == 4 {
      FourLittle(b);
    } else if |b| == 8 {
      FourLittle(b[..4]);
      FourLittle(b[4..]);
      assert b == b[..4] + b[4..];
      LittleConcat(b[..4], b[4..]);
    }
  }

  lemma LengthSpelledReads(b: seq<byte>, prefix: seq<byte>, body: seq<byte>, d: seq<byte>, pos: nat, limit: nat)
    requires Delimited(b, prefix, body) && LiesAt(d, pos, b) && pos + |b| <= limit <= |d| < 0x8000_0000
    ensures ReadLength(d, pos, limit) == Some((pos + |prefix|, pos + |b|))
    ensures d[pos + |prefix|..pos + |b|] == body
  {
    hide ReadVarint, Base128;
    PrefixLies(d, pos, prefix, body);
    VarintSpelledReads(prefix, d, pos, limit);
  }

  lemma TagNumber(num: nat, wire: nat, v: nat)
    requires 1 <= num <= MAX_FIELD_NUMBER && wire < 8 && v == 8 * num + wire
    ensures v % TWO_64 == v && v % TWO_32 == v && v / 8 == num && v % 8 == wire
  {
  }

  lemma TagSpelledReads(tag: seq<byte>, num: nat, wire: nat, d: seq<byte>, pos: nat, limit: nat)
    requires 1 <= num <= MAX_FIELD_NUMBER && wire < 8 && VarintOf(tag, 8 * num + wire)
    requires LiesAt(d, pos, tag) && pos + |tag| <= limit <= |d|
    ensures tag != [] && ReadTag(d, pos, limit) == Some((8 * num + wire, pos + |tag|))
  {
    hide Base128, ReadVarint;
    TagNumber(num, wire, Base128(tag));
    VarintSpelledReads(tag, d, pos, limit);
  }

  /** A record's tag, and where its payload lies. */
  lemma RecordTagReads(b: seq<byte>, num: nat, wire: nat, tag: seq<byte>, payload: seq<byte>,
                       d: seq<byte>, pos: nat, limit: nat, at: nat)
    requires 1 <= num <= MAX_FIELD_NUMBER && wire < 8 && Record(b, num, wire, tag, payload)
    requires LiesAt(d, pos, b) && pos + |b| <= limit <= |d| && at == pos + |tag|
    ensures pos < at && at + |payload| == pos + |b|
    ensures ReadTag(d, pos, limit) == Some((8 * num + wire, at)) && LiesAt(d, at, payload)
  {
    hide ReadTag;
    PrefixLies(d, pos, tag, payload);
    TagSpelledReads(tag, num, wire, d, pos, limit);
  }

  // ---- scalars -----------------------------------------------------------

  lemma LowBits(i: i32, l: i64)
    ensures Unsigned(i, TWO_64) % TWO_32 == Unsigned(i, TWO_32) && Unsigned(i, TWO_32) % TWO_32 == Unsigned(i, TWO_32)
    ensures ZigZag(i) % TWO_32 == ZigZag(i) && 0 <= ZigZag(l) < TWO_64
    ensures Int32(Unsigned(i, TWO_32)) == i && Int64(Unsigned(l, TWO_64)) == l
  {
  }

  lemma VarintMeans(k: Kind, v: Value, b: seq<byte>)
    requires ScalarFits(k, v) && SpellsScalar(k, v, b) && WireOf(k) == 0
    ensures IsVarint(b) && Base128(b) < TWO_64 && FromVarint(k, Base128(b)) == v
  {
    hide IsVarint, Base128, Int32, Int64;
    if v.VInt? {
      LowBits(v.i, 0);
      ZigZagUndone(v.i, 0);
    } else if v.VLong? {
      LowBits(0, v.l);
      ZigZagUndone(0, v.l);
    }
  }

  lemma VarintKindSpelledReads(k: Kind, v: Value, b: seq<byte>, d: seq<byte>, pos: nat, limit: nat)
    requires ScalarFits(k, v) && SpellsScalar(k, v, b) && WireOf(k) == 0
    requires LiesAt(d, pos, b) && pos + |b| <= limit <= |d|
    ensures ReadScalar(k, d, pos, limit) == Some((v, pos + |b|))
  {
    VarintMeans(k, v, b);
    VarintRead(k, Base128(b), b, d, pos, limit);
  }

  lemma VarintRead(k: Kind, w: u64, b: seq<byte>, d: seq<byte>, pos: nat, limit: nat)
    requires WireOf(k) == 0 && VarintOf(b, w) && LiesAt(d, pos, b) && pos + |b| <= limit <= |d|
    ensures ReadScalar(k, d, pos, limit) == Some((FromVarint(k, w), pos + |b|))
  {
    hide Base128, ReadVarint, FromVarint;
    VarintSpelledReads(b, d, pos, limit);
    Below64(w);
    WireTypes(k);
  }

  lemma FixedKindSpelledReads(k: Kind, v: Value, b: seq<byte>, d: seq<byte>, pos: nat, limit: nat)
    requires ScalarFits(k, v) && SpellsScalar(k, v, b) && (WireOf(k) == 1 || WireOf(k) == 5)
    requires LiesAt(d, pos, b) && pos + |b| <= limit <= |d|
    ensures ReadScalar(k, d, pos, limit) == Some((v, pos + |b|))
  {
    FixedSpelledReads(b, d, pos, limit);
    WireTypes(k);
  }

  lemma ScalarSpelledReads(k: Kind, v: Value, b: seq<byte>, d: seq<byte>, pos: nat, limit: nat)
    requires ScalarFits(k, v) && SpellsScalar(k, v, b)
    requires LiesAt(d, pos, b) && pos + |b| <= limit <= |d| < 0x8000_0000
    ensures b != [] && ReadScalar(k, d, pos, limit) == Some((v, pos + |b|))
  {
    if WireOf(k) == 0 {
      VarintKindSpelledReads(k, v, b, d, pos, limit);
    } else if WireOf(k) == 2 {
      var prefix :| Delimited(b, prefix, v.bytes);
      LengthSpelledReads(b, prefix, v.bytes, d, pos, limit);
    } else {
      FixedKindSpelledReads(k, v, b, d, pos, limit);
    }
  }

  // ---- records -----------------------------------------------------------

  /** What storing `v` makes of a slot: the last value of a singular field
      stands, an `optional` one is flagged, a message is replaced, a repeated
      field has it at its end. */
  ghost predicate Takes(x: FieldSlot, v: Value, y: FieldSlot) {
    match x
    case One(_) => y == One(v)
    case Opt(_, _) => y == Opt(true, v)
    case Sub(_) => v.VMessage? && y == Sub(Some(v.m))
    case Many(vs) => y == Many(vs + [v])
  }

  lemma StoreTakes(x: Message, i: nat, v: Value, y: FieldSlot)
    requires i < |x.slots| && Takes(x.slots[i], v, y)
    ensures Store(x, i, v) == Message(x.slots[i := y])
  {
  }

  /** A record of a scalar field is read into that field and no other. */
  lemma ScalarRecordReads(s: Schema, t: nat, x: Message, i: nat, v: Value, b: seq<byte>, y: FieldSlot,
                          d: seq<byte>, pos: nat, limit: nat)
    requires Reading(s, t, x, i, d, pos, limit) && ScalarFits(s[t][i].kind, v)
    requires SpellsElement(s, s[t][i], v, b) && LiesAt(d, pos, b) && pos + |b| <= limit
    requires Takes(x.slots[i], v, y)
    ensures MergeFrom(s, t, x, d, pos, limit) == MergeFrom(s, t, Message(x.slots[i := y]), d, pos + |b|, limit)
  {
    hide MergeFrom, SpellsScalar, ReadScalar, ReadTag;
    var f := s[t][i];
    var tag, payload :| Record(b, f.num, WireOf(f.kind), tag, payload) && SpellsValue(s, f.kind, v, payload);
    var at := pos + |tag|;
    WireTypes(f.kind);
    RecordTagReads(b, f.num, WireOf(f.kind), tag, payload, d, pos, limit, at);
    ScalarSpelledReads(f.kind, v, payload, d, at, limit);
    ScalarStep(s, t, x, i, v, d, pos, limit, at, pos + |b|);
    StoreTakes(x, i, v, y);
  }

  /** The last of two values of a singular field stands. */
  lemma LastWins(s: Schema, t: nat, x: Message, i: nat, v: Value, b: seq<byte>, w: Value, c: seq<byte>,
                 d: seq<byte>, pos: nat, limit: nat)
    requires Reading(s, t, x, i, d, pos, limit) && ScalarFits(s[t][i].kind, v) && ScalarFits(s[t][i].kind, w)
    requires SpellsElement(s, s[t][i], v, b) && SpellsElement(s, s[t][i], w, c)
    requires LiesAt(d, pos, b + c) && pos + |b + c| <= limit && x.slots[i].One?
    ensures MergeFrom(s, t, x, d, pos, limit) == MergeFrom(s, t, Message(x.slots[i := One(w)]), d, pos + |b + c|, limit)
  {
    hide MergeFrom;
    PrefixLies(d, pos, b, c);
    ScalarRecordReads(s, t, x, i, v, b, One(v), d, pos, limit);
    var x1 := Message(x.slots[i := One(v)]);
    ScalarRecordReads(s, t, x1, i, w, c, One(w), d, pos + |b|, limit);
    assert x1.slots[i := One(w)] == x.slots[i := One(w)];
  }

  lemma LaterPart(parts: seq<seq<byte>>, d: seq<byte>, pos: nat)
    requires parts != [] && LiesAt(d, pos, Flat(parts))
    ensures Flat(parts) == parts[0] + Flat(parts[1..])
    ensures LiesAt(d, pos, parts[0]) && LiesAt(d, pos + |parts[0]|, Flat(parts[1..]))
  {
    assert parts == [parts[0]] + parts[1..];
    FlatCons(parts[0], parts[1..]);
    PrefixLies(d, pos, parts[0], Flat(parts[1..]));
  }

  lemma {:induction false} PackedSpelledReads(
    k: Kind, vs: seq<Value>, parts: seq<seq<byte>>, d: seq<byte>, pos: nat, limit: nat)
    requires !k.TypeMessage? && |parts| == |vs| && limit <= |d| < 0x8000_0000
    requires forall j | 0 <= j < |vs| :: ScalarFits(k, vs[j]) && SpellsScalar(k, vs[j], parts[j])
    requires LiesAt(d, pos, Flat(parts)) && limit == pos + |Flat(parts)|
    ensures ReadPacked(k, d, pos, limit) == Some(vs)
    decreases |vs|
  {
    hide SpellsScalar, ReadScalar;
    if vs != [] {
      LaterPart(parts, d, pos);
      var next := pos + |parts[0]|;
      ScalarSpelledReads(k, vs[0], parts[0], d, pos, limit);
      PackedSpelledReads(k, vs[1..], parts[1..], d, next, limit);
      PackedGoesOn(k, d, pos, limit, vs[0], next, vs[1..]);
      assert vs == [vs[0]] + vs[1..];
    }
  }

  /** A packed record is read into its field, every element of it. */
  lemma PackedRecordReads(s: Schema, t: nat, x: Message, i: nat, vs: seq<Value>, b: seq<byte>,
                          d: seq<byte>, pos: nat, limit: nat)
    requires Reading(s, t, x, i, d, pos, limit) && s[t][i].rule == Repeated && WireOf(s[t][i].kind) != 2
    requires forall j | 0 <= j < |vs| :: ScalarFits(s[t][i].kind, vs[j])
    requires SpellsPacked(s[t][i], vs, b) && LiesAt(d, pos, b) && pos + |b| <= limit && x.slots[i].Many?
    ensures MergeFrom(s, t, x, d, pos, limit)
            == MergeFrom(s, t, Message(x.slots[i := Many(x.slots[i].vs + vs)]), d, pos + |b|, limit)
  {
    hide MergeFrom, SpellsScalar, ReadTag, ReadLength, ReadPacked;
    var f := s[t][i];
    var tag, payload, prefix, parts :|
      && Record(b, f.num, 2, tag, payload) && Delimited(payload, prefix, Flat(parts))
      && |parts| == |vs| && forall j | 0 <= j < |vs| :: SpellsScalar(f.kind, vs[j], parts[j]);
    WireTypes(f.kind);
    var at := pos + |tag|;
    RecordTagReads(b, f.num, 2, tag, payload, d, pos, limit, at);
    LengthSpelledReads(payload, prefix, Flat(parts), d, at, limit);
    PrefixLies(d, at, prefix, Flat(parts));
    PackedSpelledReads(f.kind, vs, parts, d, at + |prefix|, pos + |b|);
    PackedStep(s, t, x, i, vs, d, pos, limit, at, at + |prefix|, pos + |b|);
    AddAllIs(x, i, vs);
  }

  /** An embedded message's record is read into its field, given what its bytes
      read as on their own. */
  lemma MessageRecordReads(s: Schema, t: nat, x: Message, i: nat, b: seq<byte>, prefix: seq<byte>, body: seq<byte>,
                           tag: seq<byte>, payload: seq<byte>, sub: Message, y: FieldSlot,
                           d: seq<byte>, pos: nat, limit: nat)
    requires Reading(s, t, x, i, d, pos, limit) && s[t][i].kind.TypeMessage?
    requires Record(b, s[t][i].num, 2, tag, payload) && Delimited(payload, prefix, body)
    requires LiesAt(d, pos, b) && pos + |b| <= limit
    requires MergeFrom(s, s[t][i].kind.of, Fresh(s, s[t][i].kind.of), d, pos + |tag| + |prefix|, pos + |b|) == Some(sub)
    requires Takes(x.slots[i], VMessage(sub), y)
    ensures MergeFrom(s, t, x, d, pos, limit) == MergeFrom(s, t, Message(x.slots[i := y]), d, pos + |b|, limit)
  {
    hide MergeFrom, ReadTag, ReadLength;
    var at := pos + |tag|;
    RecordTagReads(b, s[t][i].num, 2, tag, payload, d, pos, limit, at);
    LengthSpelledReads(payload, prefix, body, d, at, limit);
    MessageStep(s, t, x, i, sub, d, pos, limit, at, at + |prefix|, pos + |b|);
    StoreTakes(x, i, VMessage(sub), y);
  }

  // ---- which records are known -------------------------------------------

  /** A tag is a field's exactly when it has its number and the wire type of its
      proto type, or of a packed payload if it may be packed. */
  lemma {:induction false} KnownExactly(fields: seq<FieldSpec>, num: nat, wire: nat, from: nat)
    requires from <= |fields| && wire < 8
    requires forall a, b | 0 <= a < b < |fields| :: fields[a].num < fields[b].num
    ensures forall i | from <= i < |fields| ::
      && (CaseOf(fields, 8 * num + wire, from) == Plain(i) <==> fields[i].num == num && wire == WireOf(fields[i].kind))
      && (CaseOf(fields, 8 * num + wire, from) == Packed(i) <==>
            fields[i].num == num && wire == 2 && fields[i].rule == Repeated && WireOf(fields[i].kind) != 2)
    decreases |fields| - from
  {
    if from < |fields| {
      WireTypes(fields[from].kind);
      KnownExactly(fields, num, wire, from + 1);
    }
  }

  /** A record of a field the schema lacks is stepped over whole; a wire type
      that is none of the four is refused. */
  lemma UnknownRecordSkipped(s: Schema, t: nat, x: Message, b: seq<byte>, num: nat, wire: nat, tag: seq<byte>,
                             payload: seq<byte>, d: seq<byte>, pos: nat, limit: nat)
    requires SchemaOk(s) && t < |s| && |x.slots| == |s[t]| && limit <= |d| < 0x8000_0000
    requires 1 <= num <= MAX_FIELD_NUMBER && wire < 8 && forall j | 0 <= j < |s[t]| :: s[t][j].num != num
    requires Record(b, num, wire, tag, payload) && LiesAt(d, pos, b) && pos + |b| <= limit
    ensures PayloadOf(wire, payload) ==> MergeFrom(s, t, x, d, pos, limit) == MergeFrom(s, t, x, d, pos + |b|, limit)
    ensures wire !in {0, 1, 2, 5} ==> MergeFrom(s, t, x, d, pos, limit).None?
  {
    hide ReadTag, PayloadOf, SkipField;
    var at := pos + |tag|;
    RecordTagReads(b, num, wire, tag, payload, d, pos, limit, at);
    CaseMisses(s[t], num, wire, 0);
    TagNumber(num, wire, 8 * num + wire);
    if PayloadOf(wire, payload) {
      PayloadSkipped(wire, 8 * num + wire, payload, d, at, limit);
      SkipStep(s, t, x, 8 * num + wire, d, pos, limit, at, pos + |b|);
    }
    if wire !in {0, 1, 2, 5} {
      OtherWireTypes(8 * num + wire, d, at, limit);
    }
  }

  lemma OtherWireTypes(tag: nat, d: seq<byte>, at: nat, limit: nat)
    requires tag % 8 !in {0, 1, 2, 5} && at <= limit <= |d|
    ensures SkipField(d, at, limit, tag).None?
  {
  }

  lemma PayloadSkipped(wire: nat, tag: nat, payload: seq<byte>, d: seq<byte>, at: nat, limit: nat)
    requires PayloadOf(wire, payload) && tag % 8 == wire
    requires LiesAt(d, at, payload) && at + |payload| <= limit <= |d| < 0x8000_0000
    ensures SkipField(d, at, limit, tag) == Some(at + |payload|)
  {
    hide ReadVarint, Base128;
    if wire == 0 {
      VarintSpelledReads(payload, d, at, limit);
    } else if wire == 2 {
      var prefix, body :| Delimited(payload, prefix, body);
      PrefixLies(d, at, prefix, body);
      VarintSpelledReads(prefix, d, at, limit);
      LengthKept(|body|);
    }
  }

  lemma LengthKept(n: nat)
    requires n < 0x8000_0000
    ensures n % TWO_64 % TWO_32 == n
  {
  }

  // ---- the whole message -------------------------------------------------

  /** Bytes that spell a message are read as that message, with what its own
      writer would not send at its default. */
  lemma {:induction false} SpelledReads(s: Schema, t: nat, m: Message, b: seq<byte>, d: seq<byte>, pos: nat, limit: nat)
    requires SchemaOk(s) && Fits(s, t, m) && SpellsMessage(s, t, m, b) && limit <= |d| < 0x8000_0000
    requires LiesAt(d, pos, b) && limit == pos + |b|
    ensures MergeFrom(s, t, Fresh(s, t), d, pos, limit) == Some(Normal(s, t, m))
    decreases m, |m.slots| + 1
  {
    hide MergeFrom;
    var parts :| Flat(parts) == b && |parts| == |m.slots|
              && forall i | 0 <= i < |m.slots| :: SpellsSlot(s, s[t][i], m.slots[i], parts[i]);
    assert Partial(s, t, m, 0) == Fresh(s, t);
    assert parts[0..] == parts;
    SpelledFieldsRead(s, t, m, parts, 0, d, pos, limit);
  }

  lemma {:induction false} SpelledFieldsRead(
    s: Schema, t: nat, m: Message, parts: seq<seq<byte>>, i: nat, d: seq<byte>, pos: nat, limit: nat)
    requires SchemaOk(s) && Fits(s, t, m) && i <= |m.slots| == |parts| && limit <= |d| < 0x8000_0000
    requires forall j | 0 <= j < |m.slots| :: SpellsSlot(s, s[t][j], m.slots[j], parts[j])
    requires LiesAt(d, pos, Flat(parts[i..])) && limit == pos + |Flat(parts[i..])|
    ensures MergeFrom(s, t, Partial(s, t, m, i), d, pos, limit) == Some(Normal(s, t, m))
    decreases m, |m.slots| - i, 1
  {
    hide MergeFrom, Normal, SpellsSlot, SlotFits, SchemaOk;
    if i == |m.slots| {
      AllRead(s, t, m, d, pos);
    } else {
      assert parts[i..][1..] == parts[i + 1..] && parts[i..][0] == parts[i];
      LaterPart(parts[i..], d, pos);
      SpelledFieldReads(s, t, m, parts[i], i, d, pos, limit);
      SpelledFieldsRead(s, t, m, parts, i + 1, d, pos + |parts[i]|, limit);
    }
  }

  lemma AllRead(s: Schema, t: nat, m: Message, d: seq<byte>, pos: nat)
    requires SchemaOk(s) && Fits(s, t, m) && pos <= |d|
    ensures MergeFrom(s, t, Partial(s, t, m, |m.slots|), d, pos, pos) == Some(Normal(s, t, m))
  {
    assert Partial(s, t, m, |m.slots|) == Normal(s, t, m);
  }

  lemma {:induction false} SpelledFieldReads(
    s: Schema, t: nat, m: Message, b: seq<byte>, i: nat, d: seq<byte>, pos: nat, limit: nat)
    requires SchemaOk(s) && Fits(s, t, m) && i < |m.slots| && SpellsSlot(s, s[t][i], m.slots[i], b)
    requires LiesAt(d, pos, b) && pos + |b| <= limit <= |d| < 0x8000_0000
    ensures MergeFrom(s, t, Partial(s, t, m, i), d, pos, limit) == MergeFrom(s, t, Partial(s, t, m, i + 1), d, pos + |b|, limit)
    decreases m, |m.slots| - i, 0
  {
    hide MergeFrom, Normal, NormalSlot, Partial, SpellsSlot, SlotFits, SchemaOk, FreshSlot;
    PartialStep(s, t, m, i);
    SpelledSlotReads(s, t, m.slots[i], b, Partial(s, t, m, i), i, d, pos, limit);
  }

  lemma {:induction false} SpelledSlotReads(
    s: Schema, t: nat, slot: FieldSlot, b: seq<byte>, x: Message, i: nat, d: seq<byte>, pos: nat, limit: nat)
    requires Reading(s, t, x, i, d, pos, limit) && SlotFits(s, s[t][i], slot) && x.slots[i] == FreshSlot(s[t][i])
    requires SpellsSlot(s, s[t][i], slot, b) && LiesAt(d, pos, b) && pos + |b| <= limit
    ensures MergeFrom(s, t, x, d, pos, limit)
            == MergeFrom(s, t, Message(x.slots[i := NormalSlot(s, s[t][i], slot)]), d, pos + |b|, limit)
    decreases slot, 0
  {
    hide MergeFrom, SpellsElement, SpellsMessage, SpellsPacked, Normal, NormalEach, Fits, ScalarFits, LiesAt, SchemaOk;
    var f := s[t][i];
    match slot {
      case Many(vs) => SpelledManyReads(s, t, vs, b, x, i, d, pos, limit);
      case Sub(sub) =>
        if sub.None? {
          Unchanged(x, i);
        } else {
          SpelledSubReads(s, t, sub.value, b, x, i, d, pos, limit);
        }
      case Opt(has, v) => SpelledOneReads(s, t, slot, v, b, x, i, d, pos, limit);
      case One(v) => SpelledOneReads(s, t, slot, v, b, x, i, d, pos, limit);
    }
  }

  lemma SpelledOneReads(
    s: Schema, t: nat, slot: FieldSlot, v: Value, b: seq<byte>, x: Message, i: nat, d: seq<byte>, pos: nat, limit: nat)
    requires Reading(s, t, x, i, d, pos, limit) && SlotFits(s, s[t][i], slot) && x.slots[i] == FreshSlot(s[t][i])
    requires (slot.One? || slot.Opt?) && slot.v == v
    requires SpellsSlot(s, s[t][i], slot, b) && LiesAt(d, pos, b) && pos + |b| <= limit
    ensures MergeFrom(s, t, x, d, pos, limit)
            == MergeFrom(s, t, Message(x.slots[i := NormalSlot(s, s[t][i], slot)]), d, pos + |b|, limit)
  {
    hide MergeFrom, SpellsElement, LiesAt, SchemaOk;
    ShowsUnlessZero(s[t][i].kind, v);
    if (slot.One? && IsZero(v)) || (slot.Opt? && !slot.has) {
      Unchanged(x, i);
    } else {
      ScalarRecordReads(s, t, x, i, v, b, slot, d, pos, limit);
    }
  }

  lemma {:induction false} SpelledManyReads(
    s: Schema, t: nat, vs: seq<Value>, b: seq<byte>, x: Message, i: nat, d: seq<byte>, pos: nat, limit: nat)
    requires Reading(s, t, x, i, d, pos, limit) && SlotFits(s, s[t][i], Many(vs)) && x.slots[i] == FreshSlot(s[t][i])
    requires SpellsSlot(s, s[t][i], Many(vs), b) && LiesAt(d, pos, b) && pos + |b| <= limit
    ensures MergeFrom(s, t, x, d, pos, limit)
            == MergeFrom(s, t, Message(x.slots[i := Many(NormalEach(s, s[t][i].kind, vs))]), d, pos + |b|, limit)
    decreases vs, 2
  {
    hide MergeFrom, SpellsElement, SpellsPacked, NormalEach, ValueFits, LiesAt, SchemaOk, ScalarFits;
    var f := s[t][i];
    WireTypes(f.kind);
    assert [] + NormalEach(s, f.kind, vs) == NormalEach(s, f.kind, vs);
    if Packs(f) {
      SpelledPackedReads(s, t, vs, b, x, i, d, pos, limit);
    } else {
      var parts :| Flat(parts) == b && |parts| == |vs| && forall j | 0 <= j < |vs| :: SpellsElement(s, f, vs[j], parts[j]);
      SpelledEachReads(s, t, vs, parts, x, i, d, pos, limit);
    }
  }

  lemma SpelledPackedReads(
    s: Schema, t: nat, vs: seq<Value>, b: seq<byte>, x: Message, i: nat, d: seq<byte>, pos: nat, limit: nat)
    requires Reading(s, t, x, i, d, pos, limit) && SlotFits(s, s[t][i], Many(vs)) && x.slots[i] == Many([])
    requires SpellsSlot(s, s[t][i], Many(vs), b) && Packs(s[t][i]) && LiesAt(d, pos, b) && pos + |b| <= limit
    ensures MergeFrom(s, t, x, d, pos, limit)
            == MergeFrom(s, t, Message(x.slots[i := Many(NormalEach(s, s[t][i].kind, vs))]), d, pos + |b|, limit)
  {
    hide MergeFrom, SpellsPacked, NormalEach, ValueFits, LiesAt, SchemaOk, ScalarFits;
    var k := s[t][i].kind;
    WireTypes(k);
    PackedFits(s, s[t][i], Many(vs));
    NormalScalars(s, k, vs);
    if vs == [] {
      Unchanged(x, i);
    } else {
      PackedRecordReads(s, t, x, i, vs, b, d, pos, limit);
      assert [] + vs == vs;
    }
  }

  lemma {:induction false} NormalScalars(s: Schema, k: Kind, vs: seq<Value>)
    requires !k.TypeMessage? && forall j | 0 <= j < |vs| :: ValueFits(s, k, vs[j])
    ensures NormalEach(s, k, vs) == vs
  {
    if vs != [] {
      NormalScalars(s, k, vs[1..]);
    }
  }

  lemma {:induction false} SpelledSubReads(
    s: Schema, t: nat, m: Message, b: seq<byte>, x: Message, i: nat, d: seq<byte>, pos: nat, limit: nat)
    requires Reading(s, t, x, i, d, pos, limit) && s[t][i].kind.TypeMessage? && s[t][i].rule != Repeated
    requires Fits(s, s[t][i].kind.of, m) && SpellsSlot(s, s[t][i], Sub(Some(m)), b) && x.slots[i].Sub?
    requires LiesAt(d, pos, b) && pos + |b| <= limit
    ensures MergeFrom(s, t, x, d, pos, limit)
            == MergeFrom(s, t, Message(x.slots[i := Sub(Some(Normal(s, s[t][i].kind.of, m)))]), d, pos + |b|, limit)
    decreases m, |m.slots| + 3
  {
    hide MergeFrom, Normal, SpellsMessage, Fits, ReadTag, SchemaOk;
    var f := s[t][i];
    var tag, payload, prefix, body :|
      Record(b, f.num, 2, tag, payload) && Delimited(payload, prefix, body) && SpellsMessage(s, f.kind.of, m, body);
    EmbeddedSpelledReads(s, f.kind.of, m, b, f.num, tag, payload, prefix, body, d, pos, limit);
    var sub := Normal(s, f.kind.of, m);
    MessageRecordReads(s, t, x, i, b, prefix, body, tag, payload, sub, Sub(Some(sub)), d, pos, limit);
  }

  lemma {:induction false} EmbeddedSpelledReads(
    s: Schema, t: nat, m: Message, b: seq<byte>, num: nat, tag: seq<byte>, payload: seq<byte>, prefix: seq<byte>, body: seq<byte>,
    d: seq<byte>, pos: nat, limit: nat)
    requires SchemaOk(s) && Fits(s, t, m) && SpellsMessage(s, t, m, body)
    requires Record(b, num, 2, tag, payload) && Delimited(payload, prefix, body)
    requires LiesAt(d, pos, b) && pos + |b| <= limit <= |d| < 0x8000_0000
    ensures MergeFrom(s, t, Fresh(s, t), d, pos + |tag| + |prefix|, pos + |b|) == Some(Normal(s, t, m))
    decreases m, |m.slots| + 2
  {
    hide MergeFrom, Normal, SpellsMessage, Fits, SchemaOk, Fresh, VarintOf;
    PrefixLies(d, pos, tag, payload);
    PrefixLies(d, pos + |tag|, prefix, body);
    SpelledReads(s, t, m, body, d, pos + |tag| + |prefix|, pos + |b|);
  }

  lemma {:induction false} SpelledEachReads(
    s: Schema, t: nat, vs: seq<Value>, parts: seq<seq<byte>>, x: Message, i: nat, d: seq<byte>, pos: nat, limit: nat)
    requires Reading(s, t, x, i, d, pos, limit) && x.slots[i].Many? && |parts| == |vs|
    requires forall j | 0 <= j < |vs| :: ValueFits(s, s[t][i].kind, vs[j]) && SpellsElement(s, s[t][i], vs[j], parts[j])
    requires LiesAt(d, pos, Flat(parts)) && pos + |Flat(parts)| <= limit
    ensures MergeFrom(s, t, x, d, pos, limit)
            == MergeFrom(s, t, Message(x.slots[i := Many(x.slots[i].vs + NormalEach(s, s[t][i].kind, vs))]), d,
                         pos + |Flat(parts)|, limit)
    decreases vs, 1
  {
    hide MergeFrom, SpellsElement, ValueFits, Fits, SchemaOk, NormalValue;
    var k := s[t][i].kind;
    if vs == [] {
      assert x.slots[i].vs + [] == x.slots[i].vs;
      Unchanged(x, i);
    } else {
      LaterPart(parts, d, pos);
      var v := NormalValue(s, k, vs[0]);
      var y := Message(x.slots[i := Many(x.slots[i].vs + [v])]);
      SpelledElementReads(s, t, vs[0], parts[0], x, i, d, pos, limit);
      SpelledEachReads(s, t, vs[1..], parts[1..], y, i, d, pos + |parts[0]|, limit);
      assert x.slots[i].vs + [v] + NormalEach(s, k, vs[1..]) == x.slots[i].vs + NormalEach(s, k, vs);
      assert y.slots[i := Many(x.slots[i].vs + NormalEach(s, k, vs))] == x.slots[i := Many(x.slots[i].vs + NormalEach(s, k, vs))];
    }
  }

  lemma {:induction false} SpelledElementReads(
    s: Schema, t: nat, v: Value, b: seq<byte>, x: Message, i: nat, d: seq<byte>, pos: nat, limit: nat)
    requires Reading(s, t, x, i, d, pos, limit) && x.slots[i].Many? && ValueFits(s, s[t][i].kind, v)
    requires SpellsElement(s, s[t][i], v, b) && LiesAt(d, pos, b) && pos + |b| <= limit
    ensures MergeFrom(s, t, x, d, pos, limit)
            == MergeFrom(s, t, Message(x.slots[i := Many(x.slots[i].vs + [NormalValue(s, s[t][i].kind, v)])]), d, pos + |b|, limit)
    decreases v, 0
  {
    hide MergeFrom, Normal, SpellsMessage, SpellsScalar, Fits, ScalarFits, ReadTag, SchemaOk;
    var f := s[t][i];
    if f.kind.TypeMessage? {
      var tag, payload :| Record(b, f.num, WireOf(f.kind), tag, payload) && SpellsValue(s, f.kind, v, payload);
      var prefix, body :| Delimited(payload, prefix, body) && SpellsMessage(s, f.kind.of, v.m, body);
      EmbeddedSpelledReads(s, f.kind.of, v.m, b, f.num, tag, payload, prefix, body, d, pos, limit);
      var sub := Normal(s, f.kind.of, v.m);
      MessageRecordReads(s, t, x, i, b, prefix, body, tag, payload, sub, Many(x.slots[i].vs + [VMessage(sub)]), d, pos, limit);
    } else {
      ScalarRecordReads(s, t, x, i, v, b, Many(x.slots[i].vs + [v]), d, pos, limit);
    }
  }

  /** Whatever spells a message, parsing gives that message. */
  lemma ParsesSpelled(s: Schema, t: nat, m: Message, b: seq<byte>)
    requires SchemaOk(s) && Fits(s, t, m) && SpellsMessage(s, t, m, b) && |b| < 0x8000_0000
    ensures ParseFrom(s, t, b) == Some(Normal(s, t, m))
  {
    SpelledReads(s, t, m, b, b, 0, |b|);
  }
}
