/** The writing half of the emitted classes as it runs: sizes added up in loops,
    and a cursor over an array allocated at that size, which the fields must
    fill exactly. Every embedded message is preceded by the size it answers, not
    by a count of what was written, so a message that mis-sized itself would
    corrupt whatever holds it. */
module ProtoOutput {
  import opened Bytes
  import opened Proto
  import opened Wire

  // ---- sizing ------------------------------------------------------------

  lemma SumNext(total: nat, part: nat, rest: nat)
    ensures total + (part + rest) == (total + part) + rest
  {
  }

  /** `packedXSize` */
  method PackedTotal(k: Kind, vs: seq<Value>) returns (size: nat)
    requires forall j | 0 <= j < |vs| :: ScalarFits(k, vs[j])
    ensures size == PackedSize(k, vs)
  {
    size := 0;
    for i := 0 to |vs|
      invariant PackedSize(k, vs) == size + PackedSize(k, vs[i..])
    {
      assert vs[i..][1..] == vs[i + 1..];
      size := size + ScalarSize(k, vs[i]);
    }
  }

  /** `computeMessageSize` and `computeXxxSize`: an element with its tag. */
  method ElementTotal(s: Schema, f: FieldSpec, v: Value) returns (size: nat)
    requires ValueFits(s, f.kind, v)
    ensures size == ElementSize(s, f, v)
    decreases v, 2
  {
    if f.kind.TypeMessage? {
      var inner := SerializedSize(s, f.kind.of, v.m);
      size := TagSize(f.num) + (VarintSize(inner) + inner);
    } else {
      size := TagSize(f.num) + ScalarSize(f.kind, v);
    }
  }

  method EachTotal(s: Schema, f: FieldSpec, vs: seq<Value>) returns (size: nat)
    requires forall k | 0 <= k < |vs| :: ValueFits(s, f.kind, vs[k])
    ensures size == EachSize(s, f, vs)
    decreases vs, 0
  {
    size := 0;
    for i := 0 to |vs|
      invariant EachSize(s, f, vs) == size + EachSize(s, f, vs[i..])
    {
      assert vs[i..][1..] == vs[i + 1..];
      var part := ElementTotal(s, f, vs[i]);
      size := size + part;
    }
  }

  /** What one field adds to the size. */
  method FieldTotal(s: Schema, f: FieldSpec, x: FieldSlot) returns (size: nat)
    requires SlotFits(s, f, x)
    ensures size == SlotSize(s, f, x)
    decreases x, 0
  {
    match x {
      case Many(vs) =>
        if Packs(f) {
          PackedFits(s, f, x);
          if |vs| > 0 {
            var packed := PackedTotal(f.kind, vs);
            size := TagSize(f.num) + VarintSize(packed) + packed;
          } else {
            size := 0;
          }
        } else {
          size := EachTotal(s, f, vs);
        }
      case Sub(sub) =>
        if sub.Some? {
          var inner := SerializedSize(s, f.kind.of, sub.value);
          size := TagSize(f.num) + (VarintSize(inner) + inner);
        } else {
          size := 0;
        }
      case Opt(has, v) => size := if has then TagSize(f.num) + ScalarSize(f.kind, v) else 0;
      case One(v) => size := if Shows(f.kind, v) then TagSize(f.num) + ScalarSize(f.kind, v) else 0;
    }
  }

  /** `getSerializedSize` */
  method SerializedSize(s: Schema, t: nat, m: Message) returns (size: nat)
    requires Fits(s, t, m)
    ensures size == Size(s, t, m) == |Write(s, t, m)|
    decreases m, |m.slots| + 1
  {
    SizeIsLength(s, t, m);
    size := 0;
    for i := 0 to |m.slots|
      invariant Size(s, t, m) == size + SizeFrom(s, t, m, i)
    {
      var part := FieldTotal(s, s[t][i], m.slots[i]);
      SumNext(size, part, SizeFrom(s, t, m, i + 1));
      size := size + part;
    }
  }

  // ---- writing -----------------------------------------------------------

  /** `CodedOutputStream`: a cursor over a window of an array. */
  class CodedOutput {
    const buf: array<byte>
    const start: nat
    const limit: nat
    var pos: nat

    ghost predicate Valid()
      reads this
    {
      start <= pos <= limit <= buf.Length
    }

    /** The bytes written since the stream was created. */
    ghost function Written(): (w: seq<byte>)
      reads this, buf
      requires Valid()
    {
      buf[start..pos]
    }

    /** After `was`, the bytes `b` were written whole, or they do not fit. */
    ghost predicate Emitted(was: seq<byte>, b: seq<byte>, ok: bool)
      reads this, buf
      requires Valid()
    {
      if ok then Written() == was + b else |was| + |b| > limit - start
    }

    /** `newInstance` */
    constructor (buf: array<byte>, off: nat, len: nat)
      requires off + len <= buf.Length
      ensures Valid() && this.buf == buf && Written() == [] && start == off && limit == off + len
    {
      this.buf, start, limit, pos := buf, off, off + len, off;
    }

    /** `spaceLeft` */
    method SpaceLeft() returns (left: nat)
      requires Valid()
      ensures left == limit - start - |Written()|
    {
      left := limit - pos;
    }

    /** `writeRawBytes`; nothing is written when it does not fit. */
    method Put(b: seq<byte>) returns (ok: bool)
      requires Valid()
      modifies this`pos, buf
      ensures Valid() && Emitted(old(Written()), b, ok)
      ensures !ok ==> Written() == old(Written())
      ensures forall k | 0 <= k < start || limit <= k < buf.Length :: buf[k] == old(buf[k])
    {
      if |b| > limit - pos {
        return false;
      }
      forall k | 0 <= k < |b| {
        buf[pos + k] := b[k];
      }
      assert buf[pos..pos + |b|] == b;
      pos := pos + |b|;
      return true;
    }

    /** Two writes in a row, the second only after the first. */
    lemma EmittedBoth(was: seq<byte>, first: seq<byte>, second: seq<byte>, ok: bool)
      requires Valid() && Emitted(was + first, second, ok)
      ensures Emitted(was, first + second, ok)
    {
      ConcatAssoc(was, first, second);
    }

    /** `writeTag` */
    method PutTag(num: nat, wt: nat) returns (ok: bool)
      requires Valid()
      modifies this`pos, buf
      ensures Valid() && Emitted(old(Written()), WriteTag(num, wt), ok)
    {
      ok := Put(Varint(MakeTag(num, wt)));
    }

    /** `writeXxx`: a scalar after its tag. */
    method PutTagged(num: nat, k: Kind, v: Value) returns (ok: bool)
      requires Valid() && ScalarFits(k, v)
      modifies this`pos, buf
      ensures Valid() && Emitted(old(Written()), WriteTag(num, WireType(k)) + WriteScalar(k, v), ok)
    {
      ghost var was := Written();
      ok := PutTag(num, WireType(k));
      if ok {
        ok := Put(WriteScalar(k, v));
        EmittedBoth(was, WriteTag(num, WireType(k)), WriteScalar(k, v), ok);
      }
    }

    /** `writeMessage`: the tag, the size the message answers, its fields. */
    method PutMessage(s: Schema, num: nat, t: nat, m: Message) returns (ok: bool)
      requires Valid() && Fits(s, t, m)
      modifies this`pos, buf
      ensures Valid() && Emitted(old(Written()), WriteTag(num, WT_LEN) + LengthPrefixed(Write(s, t, m)), ok)
      decreases m, |m.slots| + 2
    {
      ghost var was, tag, body := Written(), WriteTag(num, WT_LEN), Write(s, t, m);
      ghost var prefix := Varint(|body|);
      ok := PutTag(num, WT_LEN);
      if ok {
        var size := SerializedSize(s, t, m);
        ok := Put(Varint(size));
        if ok {
          ok := WriteTo(s, t, m);
          EmittedBoth(was + tag, prefix, body, ok);
        } else {
          assert |prefix + body| >= |prefix|;
        }
        EmittedBoth(was, tag, prefix + body, ok);
      }
    }

    /** The loop over a packed field's elements. */
    method PutPacked(k: Kind, vs: seq<Value>) returns (ok: bool)
      requires Valid() && forall j | 0 <= j < |vs| :: ScalarFits(k, vs[j])
      modifies this`pos, buf
      ensures Valid() && Emitted(old(Written()), PackedBytes(k, vs), ok)
    {
      ghost var was, done := Written(), [];
      assert vs[0..] == vs;
      for i := 0 to |vs|
        invariant Valid() && Written() == was + done
        invariant PackedBytes(k, vs) == done + PackedBytes(k, vs[i..])
      {
        ghost var one, rest := WriteScalar(k, vs[i]), PackedBytes(k, vs[i + 1..]);
        assert vs[i..][1..] == vs[i + 1..];
        ConcatAssoc(done, one, rest);
        ConcatAssoc(was, done, one);
        ok := Put(WriteScalar(k, vs[i]));
        if !ok {
          return;
        }
        done := done + one;
      }
      return true;
    }

    /** One element of a repeated field that is not packed. */
    method PutElement(s: Schema, f: FieldSpec, v: Value) returns (ok: bool)
      requires Valid() && ValueFits(s, f.kind, v)
      modifies this`pos, buf
      ensures Valid() && Emitted(old(Written()), WriteElement(s, f, v), ok)
      decreases v, 2
    {
      if f.kind.TypeMessage? {
        ok := PutMessage(s, f.num, f.kind.of, v.m);
      } else {
        ok := PutTagged(f.num, f.kind, v);
      }
    }

    /** The loop over the elements of a repeated field that is not packed. */
    method PutEach(s: Schema, f: FieldSpec, vs: seq<Value>) returns (ok: bool)
      requires Valid() && forall k | 0 <= k < |vs| :: ValueFits(s, f.kind, vs[k])
      modifies this`pos, buf
      ensures Valid() && Emitted(old(Written()), WriteEach(s, f, vs), ok)
      decreases vs, 0
    {
      ghost var was, done := Written(), [];
      assert vs[0..] == vs;
      for i := 0 to |vs|
        invariant Valid() && Written() == was + done
        invariant WriteEach(s, f, vs) == done + WriteEach(s, f, vs[i..])
      {
        ghost var one, rest := WriteElement(s, f, vs[i]), WriteEach(s, f, vs[i + 1..]);
        assert vs[i..][1..] == vs[i + 1..];
        ConcatAssoc(done, one, rest);
        ConcatAssoc(was, done, one);
        ok := PutElement(s, f, vs[i]);
        if !ok {
          return;
        }
        done := done + one;
      }
      return true;
    }

    /** What the emitted `writeTo` does for one field. */
    method PutField(s: Schema, f: FieldSpec, x: FieldSlot) returns (ok: bool)
      requires Valid() && SlotFits(s, f, x)
      modifies this`pos, buf
      ensures Valid() && Emitted(old(Written()), WriteSlot(s, f, x), ok)
      decreases x, 0
    {
      ok := true;
      match x {
        case Many(vs) =>
          if Packs(f) {
            PackedFits(s, f, x);
            if |vs| > 0 {
              ok := PutPackedField(f.num, f.kind, vs);
            }
          } else {
            ok := PutEach(s, f, vs);
          }
        case Sub(sub) =>
          if sub.Some? {
            ok := PutMessage(s, f.num, f.kind.of, sub.value);
          }
        case Opt(has, v) =>
          if has {
            ok := PutTagged(f.num, f.kind, v);
          }
        case One(v) =>
          if Shows(f.kind, v) {
            ok := PutTagged(f.num, f.kind, v);
          }
      }
    }

    /** A packed field: the tag, the size of the payload, the payload. */
    method PutPackedField(num: nat, k: Kind, vs: seq<Value>) returns (ok: bool)
      requires Valid() && forall j | 0 <= j < |vs| :: ScalarFits(k, vs[j])
      modifies this`pos, buf
      ensures Valid() && Emitted(old(Written()), WriteTag(num, WT_LEN) + LengthPrefixed(PackedBytes(k, vs)), ok)
    {
      ghost var was, tag, body := Written(), WriteTag(num, WT_LEN), PackedBytes(k, vs);
      ghost var prefix := Varint(|body|);
      ok := PutTag(num, WT_LEN);
      if ok {
        PackedSizeIsLength(k, vs);
        var size := PackedTotal(k, vs);
        ok := Put(Varint(size));
        if ok {
          ok := PutPacked(k, vs);
          EmittedBoth(was + tag, prefix, body, ok);
        } else {
          assert |prefix + body| >= |prefix|;
        }
        EmittedBoth(was, tag, prefix + body, ok);
      }
    }

    /** `writeTo`: it succeeds exactly when the message fits what is left. */
    method WriteTo(s: Schema, t: nat, m: Message) returns (ok: bool)
      requires Valid() && Fits(s, t, m)
      modifies this`pos, buf
      ensures Valid() && Emitted(old(Written()), Write(s, t, m), ok)
      decreases m, |m.slots| + 1
    {
      ghost var was, done := Written(), [];
      for i := 0 to |m.slots|
        invariant Valid() && Written() == was + done
        invariant Write(s, t, m) == done + WriteFrom(s, t, m, i)
      {
        ghost var one, rest := WriteSlot(s, s[t][i], m.slots[i]), WriteFrom(s, t, m, i + 1);
        ConcatAssoc(done, one, rest);
        ConcatAssoc(was, done, one);
        ok := PutField(s, s[t][i], m.slots[i]);
        if !ok {
          return;
        }
        done := done + one;
      }
      return true;
    }
  }

  /** `toByteArray`: none for its exceptions, neither of which happens: the
      array has room for every field, and the fields fill it. */
  method ToByteArray(s: Schema, t: nat, m: Message) returns (r: Option<array<byte>>)
    requires Fits(s, t, m)
    ensures r.Some? && fresh(r.value) && r.value[..] == Write(s, t, m)
  {
    var size := SerializedSize(s, t, m);
    var result := new byte[size](_ => 0);
    var output := new CodedOutput(result, 0, size);
    var ok := output.WriteTo(s, t, m);
    if !ok {
      return None;
    }
    var left := output.SpaceLeft();
    if left != 0 {
      return None;
    }
    assert result[..] == output.Written();
    return Some(result);
  }
}
