/** Round trips through the wire: what `writeTo` emits, `mergeFrom` into a fresh
    message restores, through every nested limit; the one value lost is a
    negative zero that `present` takes for the default. */
module ProtoRoundTrip {
  import opened Bytes
  import opened Proto
  import opened ProtoNormal
  import opened ProtoReads
  import opened ProtoWire
  import opened Regions
  import opened WireFormat

  /** Parsing what a message serialises to: its bytes are what the encoding
      specification says, and what that spells is read. */
  lemma ParsesToNormal(s: Schema, t: nat, m: Message)
    requires SchemaOk(s) && Fits(s, t, m) && |Write(s, t, m)| < 0x8000_0000
    ensures ParseFrom(s, t, Write(s, t, m)) == Some(Normal(s, t, m))
  {
    WritesMessage(s, t, m);
    ParsesSpelled(s, t, m, Write(s, t, m));
  }

  // ---- what is restored --------------------------------------------------

  /** The one value `present` takes for the default without it being the default. */
  predicate NegativeZero(k: Kind, v: Value)
    requires ScalarFits(k, v)
  {
    (k == TypeFloat && v.bits32 == 0x8000_0000) || (k == TypeDouble && v.bits64 == 0x8000_0000_0000_0000)
  }

  predicate KeepsZeros(s: Schema, t: nat, m: Message)
    requires Fits(s, t, m)
    decreases m, 1
  {
    forall i | 0 <= i < |m.slots| :: SlotKeepsZeros(s, s[t][i], m.slots[i])
  }

  /** No singular `float` or `double` without a flag is negative zero, here or in
      a nested message. */
  predicate SlotKeepsZeros(s: Schema, f: FieldSpec, x: FieldSlot)
    requires SlotFits(s, f, x)
    decreases x, 0
  {
    match x
    case One(v) => !NegativeZero(f.kind, v)
    case Opt(_, _) => true
    case Sub(sub) => sub.Some? ==> KeepsZeros(s, f.kind.of, sub.value)
    case Many(vs) => EachKeepsZeros(s, f.kind, vs)
  }

  predicate EachKeepsZeros(s: Schema, k: Kind, vs: seq<Value>)
    requires forall j | 0 <= j < |vs| :: ValueFits(s, k, vs[j])
    decreases vs, 0
  {
    vs == [] || (ValueKeepsZeros(s, k, vs[0]) && EachKeepsZeros(s, k, vs[1..]))
  }

  predicate ValueKeepsZeros(s: Schema, k: Kind, v: Value)
    requires ValueFits(s, k, v)
    decreases v, 1
  {
    k.TypeMessage? ==> KeepsZeros(s, k.of, v.m)
  }

  lemma HiddenIsDefault(k: Kind, v: Value)
    requires ScalarFits(k, v)
    ensures !Shows(k, v) <==> v == Default(k) || NegativeZero(k, v)
    ensures NegativeZero(k, v) ==> v != Default(k)
  {
    match k {
      case TypeMessage(_) =>
      case _ =>
    }
  }

  lemma {:induction false} NormalExactly(s: Schema, t: nat, m: Message)
    requires Fits(s, t, m)
    ensures Normal(s, t, m) == m <==> KeepsZeros(s, t, m)
    decreases m, 1
  {
    var n := Normal(s, t, m).slots;
    forall i | 0 <= i < |m.slots|
      ensures n[i] == m.slots[i] <==> SlotKeepsZeros(s, s[t][i], m.slots[i])
    {
      NormalFromAt(s, t, m, 0, i);
      SlotNormalExactly(s, s[t][i], m.slots[i]);
    }
    if KeepsZeros(s, t, m) {
      assert n == m.slots;
    }
  }

  lemma {:induction false} SlotNormalExactly(s: Schema, f: FieldSpec, x: FieldSlot)
    requires SlotFits(s, f, x)
    ensures NormalSlot(s, f, x) == x <==> SlotKeepsZeros(s, f, x)
    decreases x, 0
  {
    match x {
      case One(v) => HiddenIsDefault(f.kind, v);
      case Opt(_, _) =>
      case Sub(sub) =>
        if sub.Some? {
          NormalExactly(s, f.kind.of, sub.value);
        }
      case Many(vs) => EachNormalExactly(s, f.kind, vs);
    }
  }

  lemma {:induction false} EachNormalExactly(s: Schema, k: Kind, vs: seq<Value>)
    requires forall j | 0 <= j < |vs| :: ValueFits(s, k, vs[j])
    ensures NormalEach(s, k, vs) == vs <==> EachKeepsZeros(s, k, vs)
    decreases vs, 0
  {
    if vs != [] {
      var first, rest := NormalValue(s, k, vs[0]), NormalEach(s, k, vs[1..]);
      EachNormalExactly(s, k, vs[1..]);
      ValueNormalExactly(s, k, vs[0]);
      ConsEqual(first, rest, vs);
    }
  }

  lemma ConsEqual<T>(first: T, rest: seq<T>, whole: seq<T>)
    requires whole != []
    ensures [first] + rest == whole <==> first == whole[0] && rest == whole[1..]
  {
    if [first] + rest == whole {
      assert rest == ([first] + rest)[1..];
    }
  }

  lemma {:induction false} ValueNormalExactly(s: Schema, k: Kind, v: Value)
    requires ValueFits(s, k, v)
    ensures NormalValue(s, k, v) == v <==> ValueKeepsZeros(s, k, v)
    decreases v, 1
  {
    if k.TypeMessage? {
      NormalExactly(s, k.of, v.m);
    }
  }

  /** Serialising and parsing restores a message exactly when no singular
      `float` or `double` without a flag holds negative zero. */
  lemma RestoredExactly(s: Schema, t: nat, m: Message)
    requires SchemaOk(s) && Fits(s, t, m) && |Write(s, t, m)| < 0x8000_0000
    ensures ParseFrom(s, t, Write(s, t, m)) == Some(m) <==> KeepsZeros(s, t, m)
  {
    ParsesToNormal(s, t, m);
    NormalExactly(s, t, m);
  }

  /** The loss is real: a message holding only a negative zero serialises to
      nothing and comes back holding zero. */
  lemma NegativeZeroIsLost() returns (s: Schema, m: Message)
    ensures SchemaOk(s) && Fits(s, 0, m) && Write(s, 0, m) == []
    ensures m == Message([One(VDouble(0x8000_0000_0000_0000))])
    ensures ParseFrom(s, 0, Write(s, 0, m)) == Some(Message([One(VDouble(0))]))
  {
    s := [[FieldSpec(1, TypeDouble, Singular)]];
    m := Message([One(VDouble(0x8000_0000_0000_0000))]);
    assert Fresh(s, 0) == Message([One(VDouble(0))]);
    assert WriteFrom(s, 0, m, 1) == [] && WriteSlot(s, s[0][0], m.slots[0]) == [];
  }

  // ---- packed or not -----------------------------------------------------

  /** The elements of a packable field, spelled one record each or as one packed
      record, are added to the same list. */
  lemma PackedOrNot(s: Schema, t: nat, x: Message, i: nat, vs: seq<Value>, parts: seq<seq<byte>>, packed: seq<byte>,
                    d: seq<byte>, pos: nat, limit: nat, d': seq<byte>, pos': nat, limit': nat)
    requires Reading(s, t, x, i, d, pos, limit) && Reading(s, t, x, i, d', pos', limit')
    requires Packs(s[t][i]) && x.slots[i].Many? && forall j | 0 <= j < |vs| :: ScalarFits(s[t][i].kind, vs[j])
    requires |parts| == |vs| && forall j | 0 <= j < |vs| :: SpellsElement(s, s[t][i], vs[j], parts[j])
    requires LiesAt(d, pos, Flat(parts)) && pos + |Flat(parts)| <= limit
    requires SpellsPacked(s[t][i], vs, packed) && LiesAt(d', pos', packed) && pos' + |packed| <= limit'
    ensures var y := Message(x.slots[i := Many(x.slots[i].vs + vs)]);
      && MergeFrom(s, t, x, d, pos, limit) == MergeFrom(s, t, y, d, pos + |Flat(parts)|, limit)
      && MergeFrom(s, t, x, d', pos', limit') == MergeFrom(s, t, y, d', pos' + |packed|, limit')
  {
    hide MergeFrom, SpellsElement, SpellsPacked, ScalarFits;
    var k := s[t][i].kind;
    WireTypes(k);
    ScalarsFit(s, k, vs);
    NormalScalars(s, k, vs);
    SpelledEachReads(s, t, vs, parts, x, i, d, pos, limit);
    PackedRecordReads(s, t, x, i, vs, packed, d', pos', limit');
  }

  lemma ScalarsFit(s: Schema, k: Kind, vs: seq<Value>)
    requires !k.TypeMessage? && forall j | 0 <= j < |vs| :: ScalarFits(k, vs[j])
    ensures forall j | 0 <= j < |vs| :: ValueFits(s, k, vs[j])
  {
  }
}
