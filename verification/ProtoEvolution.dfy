/** Old readers of new messages: what a schema makes of any stream, when it lacks
    some of the fields of the schema the stream was written under, packed,
    embedded and repeated ones included, at every depth. */
module ProtoEvolution {
  import opened Bytes
  import opened Proto
  import opened ProtoNormal
  import ProtoRoundTrip

  // ---- the known part of a message ---------------------------------------

  /** Every field of `r` is a field of `w`, of the same message type. */
  ghost predicate Narrower(r: Schema, w: Schema) {
    |r| == |w| && forall t, i | 0 <= t < |r| && 0 <= i < |r[t]| :: r[t][i] in w[t]
  }

  function FieldIndex(fields: seq<FieldSpec>, f: FieldSpec): (j: nat)
    requires f in fields
    ensures j < |fields| && fields[j] == f
  {
    if fields[0] == f then 0 else 1 + FieldIndex(fields[1..], f)
  }

  /** The fields of a message that the narrower schema has. */
  ghost function Known(r: Schema, w: Schema, t: nat, m: Message): Message
    requires Narrower(r, w)
    decreases m, 2
  {
    if t < |w| && |m.slots| == |w[t]| then
      Message(seq(|r[t]|, i requires 0 <= i < |r[t]| => KnownSlot(r, w, r[t][i], m.slots[FieldIndex(w[t], r[t][i])])))
    else m
  }

  ghost function KnownSlot(r: Schema, w: Schema, f: FieldSpec, x: FieldSlot): FieldSlot
    requires Narrower(r, w)
    decreases x, 1
  {
    match x
    case One(v) => One(KnownValue(r, w, f.kind, v))
    case Opt(has, v) => Opt(has, KnownValue(r, w, f.kind, v))
    case Sub(sub) => if sub.Some? && f.kind.TypeMessage? then Sub(Some(Known(r, w, f.kind.of, sub.value))) else x
    case Many(vs) => Many(KnownEach(r, w, f.kind, vs))
  }

  ghost function KnownEach(r: Schema, w: Schema, k: Kind, vs: seq<Value>): (o: seq<Value>)
    requires Narrower(r, w)
    ensures |o| == |vs|
    decreases vs, 0
  {
    if vs == [] then [] else [KnownValue(r, w, k, vs[0])] + KnownEach(r, w, k, vs[1..])
  }

  ghost function KnownValue(r: Schema, w: Schema, k: Kind, v: Value): Value
    requires Narrower(r, w)
    decreases v, 1
  {
    if k.TypeMessage? && v.VMessage? then VMessage(Known(r, w, k.of, v.m)) else v
  }

  lemma {:induction false} KnownEachAppends(r: Schema, w: Schema, k: Kind, vs: seq<Value>, v: Value)
    requires Narrower(r, w)
    ensures KnownEach(r, w, k, vs + [v]) == KnownEach(r, w, k, vs) + [KnownValue(r, w, k, v)]
    decreases |vs|
  {
    if vs == [] {
      assert vs + [v] == [v] && [v][1..] == [];
    } else {
      assert (vs + [v])[1..] == vs[1..] + [v];
      KnownEachAppends(r, w, k, vs[1..], v);
    }
  }

  lemma StoreInKnown(r: Schema, w: Schema, f: FieldSpec, x: FieldSlot, v: Value)
    requires Narrower(r, w) && (f.kind.TypeMessage? <==> v.VMessage?)
    ensures KnownSlot(r, w, f, StoreIn(x, v)) == StoreIn(KnownSlot(r, w, f, x), KnownValue(r, w, f.kind, v))
  {
    if x.Many? {
      KnownEachAppends(r, w, f.kind, x.vs, v);
    }
  }

  lemma KnownAt(r: Schema, w: Schema, t: nat, m: Message, i: nat)
    requires Narrower(r, w) && t < |w| && |m.slots| == |w[t]| && i < |r[t]|
    ensures |Known(r, w, t, m).slots| == |r[t]|
    ensures Known(r, w, t, m).slots[i] == KnownSlot(r, w, r[t][i], m.slots[FieldIndex(w[t], r[t][i])])
  {
  }

  lemma KnownSize(r: Schema, w: Schema, t: nat, m: Message)
    requires Narrower(r, w) && t < |w| && |m.slots| == |w[t]|
    ensures |Known(r, w, t, m).slots| == |r[t]|
  {
  }

  /** Fields of one number are one field. */
  lemma SameIndex(s: Schema, t: nat, i: nat, j: nat)
    requires SchemaOk(s) && t < |s| && i < |s[t]| && j < |s[t]| && s[t][i].num == s[t][j].num
    ensures i == j
  {
  }

  /** Storing a known field's value, in the whole message or in its known part. */
  lemma StoreKnown(r: Schema, w: Schema, t: nat, m: Message, i: nat, j: nat, v: Value)
    requires Narrower(r, w) && SchemaOk(r) && SchemaOk(w) && t < |w| && |m.slots| == |w[t]|
    requires i < |r[t]| && j < |w[t]| && r[t][i] == w[t][j] && (w[t][j].kind.TypeMessage? <==> v.VMessage?)
    ensures |Known(r, w, t, m).slots| == |r[t]|
    ensures Known(r, w, t, Store(m, j, v)) == Store(Known(r, w, t, m), i, KnownValue(r, w, w[t][j].kind, v))
  {
    KnownSize(r, w, t, m);
    KnownSize(r, w, t, Store(m, j, v));
    var a, b := Known(r, w, t, Store(m, j, v)).slots, Store(Known(r, w, t, m), i, KnownValue(r, w, w[t][j].kind, v)).slots;
    forall k | 0 <= k < |r[t]|
      ensures a[k] == b[k]
    {
      var at := FieldIndex(w[t], r[t][k]);
      KnownAt(r, w, t, m, k);
      KnownAt(r, w, t, Store(m, j, v), k);
      if k == i {
        SameIndex(w, t, at, j);
        StoreInKnown(r, w, r[t][i], m.slots[j], v);
      } else if at == j {
        SameIndex(r, t, k, i);
      }
    }
    assert a == b;
  }

  /** Storing a field the narrower schema lacks leaves the known part alone. */
  lemma StoreUnknown(r: Schema, w: Schema, t: nat, m: Message, j: nat, v: Value)
    requires Narrower(r, w) && t < |w| && |m.slots| == |w[t]| && j < |w[t]| && w[t][j] !in r[t]
    ensures Known(r, w, t, Store(m, j, v)) == Known(r, w, t, m)
  {
    KnownSize(r, w, t, m);
    KnownSize(r, w, t, Store(m, j, v));
    var a, b := Known(r, w, t, Store(m, j, v)).slots, Known(r, w, t, m).slots;
    forall k | 0 <= k < |r[t]|
      ensures a[k] == b[k]
    {
      KnownAt(r, w, t, m, k);
      KnownAt(r, w, t, Store(m, j, v), k);
      assert FieldIndex(w[t], r[t][k]) != j;
    }
    assert a == b;
  }

  lemma {:induction false} AddAllKnown(r: Schema, w: Schema, t: nat, m: Message, i: nat, j: nat, vs: seq<Value>)
    requires Narrower(r, w) && SchemaOk(r) && SchemaOk(w) && t < |w| && |m.slots| == |w[t]|
    requires i < |r[t]| && j < |w[t]| && r[t][i] == w[t][j] && !w[t][j].kind.TypeMessage?
    requires forall k | 0 <= k < |vs| :: !vs[k].VMessage?
    ensures |Known(r, w, t, m).slots| == |r[t]|
    ensures Known(r, w, t, AddAll(m, j, vs)) == AddAll(Known(r, w, t, m), i, vs)
    decreases |vs|
  {
    KnownSize(r, w, t, m);
    if vs != [] {
      StoreKnown(r, w, t, m, i, j, vs[0]);
      AddAllKnown(r, w, t, Store(m, j, vs[0]), i, j, vs[1..]);
    }
  }

  lemma {:induction false} AddAllUnknown(r: Schema, w: Schema, t: nat, m: Message, j: nat, vs: seq<Value>)
    requires Narrower(r, w) && t < |w| && |m.slots| == |w[t]| && j < |w[t]| && w[t][j] !in r[t]
    ensures Known(r, w, t, AddAll(m, j, vs)) == Known(r, w, t, m)
    decreases |vs|
  {
    if vs != [] {
      StoreUnknown(r, w, t, m, j, vs[0]);
      AddAllUnknown(r, w, t, Store(m, j, vs[0]), j, vs[1..]);
    }
  }

  lemma FreshKnown(r: Schema, w: Schema, t: nat)
    requires Narrower(r, w) && t < |w|
    ensures Known(r, w, t, Fresh(w, t)) == Fresh(r, t)
  {
    KnownSize(r, w, t, Fresh(w, t));
    var a, b := Known(r, w, t, Fresh(w, t)).slots, Fresh(r, t).slots;
    forall k | 0 <= k < |r[t]|
      ensures a[k] == b[k]
    {
      KnownAt(r, w, t, Fresh(w, t), k);
    }
    assert a == b;
  }

  // ---- the cases of a tag ------------------------------------------------

  /** What the case found says of the tag. */
  lemma {:induction false} CaseMeans(fields: seq<FieldSpec>, tag: nat, from: nat)
    requires from <= |fields|
    ensures var c := CaseOf(fields, tag, from);
      && (c.Plain? ==> tag == TagOf(fields[c.i]))
      && (c.Packed? ==> Packs(fields[c.i]) && tag == MakeTag(fields[c.i].num, WT_LEN))
      && (c.Unknown? ==> forall k | from <= k < |fields| ::
            tag != TagOf(fields[k]) && !(Packs(fields[k]) && tag == MakeTag(fields[k].num, WT_LEN)))
    decreases |fields| - from
  {
    if from < |fields| {
      CaseMeans(fields, tag, from + 1);
    }
  }

  lemma {:induction false} NoCase(fields: seq<FieldSpec>, tag: nat, from: nat)
    requires from <= |fields|
    requires forall k | from <= k < |fields| ::
      tag != TagOf(fields[k]) && !(Packs(fields[k]) && tag == MakeTag(fields[k].num, WT_LEN))
    ensures CaseOf(fields, tag, from) == Unknown
    decreases |fields| - from
  {
    if from < |fields| {
      NoCase(fields, tag, from + 1);
    }
  }

  /** A tag unknown to the wider schema is unknown to the narrower. */
  lemma StillUnknown(r: Schema, w: Schema, t: nat, tag: nat)
    requires Narrower(r, w) && t < |w| && CaseOf(w[t], tag, 0) == Unknown
    ensures CaseOf(r[t], tag, 0) == Unknown
  {
    CaseMeans(w[t], tag, 0);
    forall k | 0 <= k < |r[t]|
      ensures tag != TagOf(r[t][k]) && !(Packs(r[t][k]) && tag == MakeTag(r[t][k].num, WT_LEN))
    {
      var j := FieldIndex(w[t], r[t][k]);
    }
    NoCase(r[t], tag, 0);
  }

  /** The tag of a field the narrower schema lacks is unknown to it. */
  lemma NowUnknown(r: Schema, w: Schema, t: nat, tag: nat, j: nat, wt: nat)
    requires Narrower(r, w) && SchemaOk(w) && t < |w| && j < |w[t]| && w[t][j] !in r[t]
    requires wt < 8 && tag == MakeTag(w[t][j].num, wt)
    ensures CaseOf(r[t], tag, 0) == Unknown
  {
    forall k | 0 <= k < |r[t]|
      ensures tag != TagOf(r[t][k]) && !(Packs(r[t][k]) && tag == MakeTag(r[t][k].num, WT_LEN))
    {
      var at := FieldIndex(w[t], r[t][k]);
      if r[t][k].num == w[t][j].num {
        SameIndex(w, t, at, j);
      }
    }
    NoCase(r[t], tag, 0);
  }

  /** A field both have falls into the same case. */
  lemma SameCase(r: Schema, w: Schema, t: nat, tag: nat, i: nat, j: nat)
    requires SchemaOk(r) && t < |r| && t < |w| && i < |r[t]| && j < |w[t]| && r[t][i] == w[t][j]
    ensures CaseOf(w[t], tag, 0) == Plain(j) ==> CaseOf(r[t], tag, 0) == Plain(i)
    ensures CaseOf(w[t], tag, 0) == Packed(j) && tag != TagOf(w[t][j]) ==> CaseOf(r[t], tag, 0) == Packed(i)
  {
    CaseMeans(w[t], tag, 0);
    CaseFinds(r[t], 0, i);
  }

  /** A packed case is not also the plain one. */
  lemma {:induction false} PackedIsNotPlain(fields: seq<FieldSpec>, tag: nat, from: nat)
    requires from <= |fields| && CaseOf(fields, tag, from).Packed?
    ensures tag != TagOf(fields[CaseOf(fields, tag, from).i])
    decreases |fields| - from
  {
    if from < |fields| && tag != TagOf(fields[from]) && !(Packs(fields[from]) && tag == MakeTag(fields[from].num, WT_LEN)) {
      PackedIsNotPlain(fields, tag, from + 1);
    }
  }

  // ---- skipping ends where reading does ----------------------------------

  lemma TagWireType(f: FieldSpec)
    ensures TagOf(f) == MakeTag(f.num, WireType(f.kind)) && TagOf(f) % 8 == WireType(f.kind) < 8
    ensures MakeTag(f.num, WT_LEN) % 8 == WT_LEN
    ensures f.kind.TypeMessage? ==> TagOf(f) == MakeTag(f.num, WT_LEN)
    ensures Packs(f) ==> !f.kind.TypeMessage?
  {
  }

  lemma SkipsWhatIsRead(k: Kind, d: seq<byte>, pos: nat, limit: nat, tag: nat)
    requires pos <= limit <= |d| && !k.TypeMessage? && tag % 8 == WireType(k) && ReadScalar(k, d, pos, limit).Some?
    ensures SkipField(d, pos, limit, tag) == Some(ReadScalar(k, d, pos, limit).value.1)
    ensures !ReadScalar(k, d, pos, limit).value.0.VMessage?
  {
    if WireType(k) == WT_LEN {
      SkipsLength(d, pos, limit, tag);
    }
  }

  lemma SkipsLength(d: seq<byte>, pos: nat, limit: nat, tag: nat)
    requires pos <= limit <= |d| && tag % 8 == WT_LEN && ReadLength(d, pos, limit).Some?
    ensures SkipField(d, pos, limit, tag) == Some(ReadLength(d, pos, limit).value.1)
  {
  }

  lemma {:induction false} PackedHoldsScalars(k: Kind, d: seq<byte>, pos: nat, limit: nat)
    requires pos <= limit <= |d| && !k.TypeMessage? && ReadPacked(k, d, pos, limit).Some?
    ensures forall i | 0 <= i < |ReadPacked(k, d, pos, limit).value| :: !ReadPacked(k, d, pos, limit).value[i].VMessage?
    decreases limit - pos
  {
    if pos < limit {
      ReadScalarEnds(k, d, pos, limit);
      PackedHoldsScalars(k, d, ReadScalar(k, d, pos, limit).value.1, limit);
    }
  }

  // ---- one field ---------------------------------------------------------

  lemma SkippedField(s: Schema, t: nat, x: Message, d: seq<byte>, pos: nat, limit: nat, tag: nat, at: nat, end: nat)
    requires SchemaOk(s) && t < |s| && |x.slots| == |s[t]| && pos < at <= limit <= |d|
    requires ReadTag(d, pos, limit) == Some((tag, at)) && CaseOf(s[t], tag, 0) == Unknown
    requires SkipField(d, at, limit, tag) == Some(end)
    ensures at <= end <= limit && MergeFrom(s, t, x, d, pos, limit) == MergeFrom(s, t, x, d, end, limit)
  {
  }

  lemma ScalarField(s: Schema, t: nat, x: Message, d: seq<byte>, pos: nat, limit: nat, tag: nat, at: nat, i: nat, v: Value, end: nat)
    requires SchemaOk(s) && t < |s| && |x.slots| == |s[t]| && pos < at <= limit <= |d|
    requires ReadTag(d, pos, limit) == Some((tag, at)) && CaseOf(s[t], tag, 0) == Plain(i)
    requires !s[t][i].kind.TypeMessage? && ReadScalar(s[t][i].kind, d, at, limit) == Some((v, end))
    ensures at < end <= limit && MergeFrom(s, t, x, d, pos, limit) == MergeFrom(s, t, Store(x, i, v), d, end, limit)
  {
    ReadScalarEnds(s[t][i].kind, d, at, limit);
  }

  lemma MessageField(s: Schema, t: nat, x: Message, d: seq<byte>, pos: nat, limit: nat, tag: nat, at: nat, i: nat,
                     start: nat, end: nat, sub: Message)
    requires SchemaOk(s) && t < |s| && |x.slots| == |s[t]| && pos < at <= limit <= |d|
    requires ReadTag(d, pos, limit) == Some((tag, at)) && CaseOf(s[t], tag, 0) == Plain(i) && s[t][i].kind.TypeMessage?
    requires ReadLength(d, at, limit) == Some((start, end))
    requires MergeFrom(s, s[t][i].kind.of, Fresh(s, s[t][i].kind.of), d, start, end) == Some(sub)
    ensures MergeFrom(s, t, x, d, pos, limit) == MergeFrom(s, t, Store(x, i, VMessage(sub)), d, end, limit)
  {
  }

  lemma PackedField(s: Schema, t: nat, x: Message, d: seq<byte>, pos: nat, limit: nat, tag: nat, at: nat, i: nat,
                    start: nat, end: nat, vs: seq<Value>)
    requires SchemaOk(s) && t < |s| && |x.slots| == |s[t]| && pos < at <= limit <= |d|
    requires ReadTag(d, pos, limit) == Some((tag, at)) && CaseOf(s[t], tag, 0) == Packed(i)
    requires ReadLength(d, at, limit) == Some((start, end)) && ReadPacked(s[t][i].kind, d, start, end) == Some(vs)
    ensures |AddAll(x, i, vs).slots| == |s[t]|
    ensures MergeFrom(s, t, x, d, pos, limit) == MergeFrom(s, t, AddAll(x, i, vs), d, end, limit)
  {
    AddAllKeepsSize(x, i, vs);
  }

  // ---- the theorem -------------------------------------------------------

  /** The two readers at one position. */
  ghost predicate ReadAlike(r: Schema, w: Schema, t: nat, x: Message, d: seq<byte>, pos: nat, limit: nat)
    requires Narrower(r, w) && SchemaOk(r) && SchemaOk(w) && t < |w| && |x.slots| == |w[t]| && pos <= limit <= |d|
  {
    KnownSize(r, w, t, x);
    MergeFrom(w, t, x, d, pos, limit).Some? ==>
      && |MergeFrom(w, t, x, d, pos, limit).value.slots| == |w[t]|
      && MergeFrom(r, t, Known(r, w, t, x), d, pos, limit) == Some(Known(r, w, t, MergeFrom(w, t, x, d, pos, limit).value))
  }

  /** On every stream the wider schema accepts, whoever wrote it, the narrower
      reads the known part of what the wider reads. */
  lemma {:induction false} NarrowReadsKnown(r: Schema, w: Schema, t: nat, x: Message, d: seq<byte>, pos: nat, limit: nat)
    requires Narrower(r, w) && SchemaOk(r) && SchemaOk(w) && t < |w| && |x.slots| == |w[t]| && pos <= limit <= |d|
    ensures ReadAlike(r, w, t, x, d, pos, limit)
    decreases limit - pos
  {
    if pos < limit && MergeFrom(w, t, x, d, pos, limit).Some? {
      var (tag, at) := ReadTag(d, pos, limit).value;
      CaseMeans(w[t], tag, 0);
      match CaseOf(w[t], tag, 0) {
        case Unknown =>
          var end := SkipField(d, at, limit, tag).value;
          NarrowReadsKnown(r, w, t, x, d, end, limit);
          UnknownToBoth(r, w, t, x, d, pos, limit, tag, at, end);
        case Packed(j) =>
          TagWireType(w[t][j]);
          var (start, end) := ReadLength(d, at, limit).value;
          var vs := ReadPacked(w[t][j].kind, d, start, end).value;
          AddAllKeepsSize(x, j, vs);
          NarrowReadsKnown(r, w, t, AddAll(x, j, vs), d, end, limit);
          PackedAlike(r, w, t, x, d, pos, limit, tag, at, j, start, end, vs);
        case Plain(j) =>
          var k := w[t][j].kind;
          TagWireType(w[t][j]);
          if k.TypeMessage? {
            var (start, end) := ReadLength(d, at, limit).value;
            var sub := MergeFrom(w, k.of, Fresh(w, k.of), d, start, end).value;
            NarrowReadsKnown(r, w, k.of, Fresh(w, k.of), d, start, end);
            NarrowReadsKnown(r, w, t, Store(x, j, VMessage(sub)), d, end, limit);
            MessageAlike(r, w, t, x, d, pos, limit, tag, at, j, start, end, sub);
          } else {
            ReadScalarEnds(k, d, at, limit);
            var (v, end) := ReadScalar(k, d, at, limit).value;
            NarrowReadsKnown(r, w, t, Store(x, j, v), d, end, limit);
            ScalarAlike(r, w, t, x, d, pos, limit, tag, at, j, v, end);
          }
      }
    }
  }

  /** Two readers that take the same step are alike if they are after it. */
  lemma StepAlike(r: Schema, w: Schema, t: nat, x: Message, y: Message, d: seq<byte>, pos: nat, end: nat, limit: nat)
    requires Narrower(r, w) && SchemaOk(r) && SchemaOk(w) && t < |w| && |x.slots| == |w[t]| && |y.slots| == |w[t]|
    requires pos <= limit <= |d| && end <= limit && |Known(r, w, t, x).slots| == |r[t]| && |Known(r, w, t, y).slots| == |r[t]|
    requires MergeFrom(w, t, x, d, pos, limit) == MergeFrom(w, t, y, d, end, limit)
    requires MergeFrom(r, t, Known(r, w, t, x), d, pos, limit) == MergeFrom(r, t, Known(r, w, t, y), d, end, limit)
    requires ReadAlike(r, w, t, y, d, end, limit)
    ensures ReadAlike(r, w, t, x, d, pos, limit)
  {
  }

  /** The narrower reader passes over a field it lacks. */
  lemma PassedOver(r: Schema, w: Schema, t: nat, x: Message, d: seq<byte>, pos: nat, limit: nat, tag: nat, at: nat, j: nat,
                   wt: nat, end: nat)
    requires Narrower(r, w) && SchemaOk(r) && SchemaOk(w) && t < |w| && |x.slots| == |r[t]| && pos < at <= limit <= |d|
    requires j < |w[t]| && w[t][j] !in r[t] && wt < 8 && tag == MakeTag(w[t][j].num, wt)
    requires ReadTag(d, pos, limit) == Some((tag, at)) && SkipField(d, at, limit, tag) == Some(end)
    ensures at <= end <= limit && MergeFrom(r, t, x, d, pos, limit) == MergeFrom(r, t, x, d, end, limit)
  {
    NowUnknown(r, w, t, tag, j, wt);
    SkippedField(r, t, x, d, pos, limit, tag, at, end);
  }

  lemma UnknownToBoth(r: Schema, w: Schema, t: nat, x: Message, d: seq<byte>, pos: nat, limit: nat, tag: nat, at: nat, end: nat)
    requires Narrower(r, w) && SchemaOk(r) && SchemaOk(w) && t < |w| && |x.slots| == |w[t]| && pos < at <= limit <= |d|
    requires ReadTag(d, pos, limit) == Some((tag, at)) && CaseOf(w[t], tag, 0) == Unknown
    requires SkipField(d, at, limit, tag) == Some(end) && ReadAlike(r, w, t, x, d, end, limit)
    ensures ReadAlike(r, w, t, x, d, pos, limit)
  {
    KnownSize(r, w, t, x);
    StillUnknown(r, w, t, tag);
    SkippedField(w, t, x, d, pos, limit, tag, at, end);
    SkippedField(r, t, Known(r, w, t, x), d, pos, limit, tag, at, end);
  }

  lemma ScalarAlike(r: Schema, w: Schema, t: nat, x: Message, d: seq<byte>, pos: nat, limit: nat, tag: nat, at: nat, j: nat,
                    v: Value, end: nat)
    requires Narrower(r, w) && SchemaOk(r) && SchemaOk(w) && t < |w| && |x.slots| == |w[t]| && pos < at <= limit <= |d|
    requires ReadTag(d, pos, limit) == Some((tag, at)) && CaseOf(w[t], tag, 0) == Plain(j)
    requires tag == MakeTag(w[t][j].num, WireType(w[t][j].kind)) && tag % 8 == WireType(w[t][j].kind) < 8
    requires !w[t][j].kind.TypeMessage? && ReadScalar(w[t][j].kind, d, at, limit) == Some((v, end))
    requires at < end <= limit && ReadAlike(r, w, t, Store(x, j, v), d, end, limit)
    ensures ReadAlike(r, w, t, x, d, pos, limit)
  {
    var y := Store(x, j, v);
    KnownSize(r, w, t, x);
    KnownSize(r, w, t, y);
    ScalarField(w, t, x, d, pos, limit, tag, at, j, v, end);
    SkipsWhatIsRead(w[t][j].kind, d, at, limit, tag);
    if w[t][j] in r[t] {
      var i := FieldIndex(r[t], w[t][j]);
      SameCase(r, w, t, tag, i, j);
      StoreKnown(r, w, t, x, i, j, v);
      ScalarField(r, t, Known(r, w, t, x), d, pos, limit, tag, at, i, v, end);
    } else {
      StoreUnknown(r, w, t, x, j, v);
      PassedOver(r, w, t, Known(r, w, t, x), d, pos, limit, tag, at, j, WireType(w[t][j].kind), end);
    }
    StepAlike(r, w, t, x, y, d, pos, end, limit);
  }

  /** An embedded message is read at its known part. */
  lemma EmbeddedKnown(r: Schema, w: Schema, of: nat, d: seq<byte>, start: nat, end: nat, sub: Message)
    requires Narrower(r, w) && SchemaOk(r) && SchemaOk(w) && of < |w| && start <= end <= |d|
    requires MergeFrom(w, of, Fresh(w, of), d, start, end) == Some(sub) && ReadAlike(r, w, of, Fresh(w, of), d, start, end)
    ensures MergeFrom(r, of, Fresh(r, of), d, start, end) == Some(Known(r, w, of, sub))
  {
    FreshKnown(r, w, of);
  }

  lemma MessageKnown(r: Schema, w: Schema, t: nat, x: Message, d: seq<byte>, pos: nat, limit: nat, tag: nat, at: nat,
                     i: nat, j: nat, start: nat, end: nat, sub: Message)
    requires Narrower(r, w) && SchemaOk(r) && SchemaOk(w) && t < |w| && |x.slots| == |w[t]| && pos < at <= limit <= |d|
    requires ReadTag(d, pos, limit) == Some((tag, at)) && CaseOf(w[t], tag, 0) == Plain(j)
    requires i < |r[t]| && r[t][i] == w[t][j] && w[t][j].kind.TypeMessage? && ReadLength(d, at, limit) == Some((start, end))
    requires var of := w[t][j].kind.of; MergeFrom(r, of, Fresh(r, of), d, start, end) == Some(Known(r, w, of, sub))
    ensures |Known(r, w, t, x).slots| == |Known(r, w, t, Store(x, j, VMessage(sub))).slots| == |r[t]|
    ensures MergeFrom(r, t, Known(r, w, t, x), d, pos, limit)
         == MergeFrom(r, t, Known(r, w, t, Store(x, j, VMessage(sub))), d, end, limit)
  {
    SameCase(r, w, t, tag, i, j);
    StoreKnown(r, w, t, x, i, j, VMessage(sub));
    MessageField(r, t, Known(r, w, t, x), d, pos, limit, tag, at, i, start, end, Known(r, w, w[t][j].kind.of, sub));
  }

  lemma PackedKnown(r: Schema, w: Schema, t: nat, x: Message, d: seq<byte>, pos: nat, limit: nat, tag: nat, at: nat,
                    i: nat, j: nat, start: nat, end: nat, vs: seq<Value>)
    requires Narrower(r, w) && SchemaOk(r) && SchemaOk(w) && t < |w| && |x.slots| == |w[t]| && pos < at <= limit <= |d|
    requires ReadTag(d, pos, limit) == Some((tag, at)) && CaseOf(w[t], tag, 0) == Packed(j)
    requires i < |r[t]| && r[t][i] == w[t][j] && !w[t][j].kind.TypeMessage? && |AddAll(x, j, vs).slots| == |w[t]|
    requires ReadLength(d, at, limit) == Some((start, end)) && ReadPacked(w[t][j].kind, d, start, end) == Some(vs)
    ensures |Known(r, w, t, x).slots| == |Known(r, w, t, AddAll(x, j, vs)).slots| == |r[t]|
    ensures MergeFrom(r, t, Known(r, w, t, x), d, pos, limit) == MergeFrom(r, t, Known(r, w, t, AddAll(x, j, vs)), d, end, limit)
  {
    PackedIsNotPlain(w[t], tag, 0);
    SameCase(r, w, t, tag, i, j);
    PackedHoldsScalars(w[t][j].kind, d, start, end);
    AddAllKnown(r, w, t, x, i, j, vs);
    PackedField(r, t, Known(r, w, t, x), d, pos, limit, tag, at, i, start, end, vs);
  }

  lemma MessageAlike(r: Schema, w: Schema, t: nat, x: Message, d: seq<byte>, pos: nat, limit: nat, tag: nat, at: nat, j: nat,
                     start: nat, end: nat, sub: Message)
    requires Narrower(r, w) && SchemaOk(r) && SchemaOk(w) && t < |w| && |x.slots| == |w[t]| && pos < at <= limit <= |d|
    requires ReadTag(d, pos, limit) == Some((tag, at)) && CaseOf(w[t], tag, 0) == Plain(j)
    requires tag == MakeTag(w[t][j].num, WT_LEN) && tag % 8 == WT_LEN
    requires w[t][j].kind.TypeMessage? && ReadLength(d, at, limit) == Some((start, end))
    requires var of := w[t][j].kind.of;
      && MergeFrom(w, of, Fresh(w, of), d, start, end) == Some(sub) && ReadAlike(r, w, of, Fresh(w, of), d, start, end)
    requires ReadAlike(r, w, t, Store(x, j, VMessage(sub)), d, end, limit)
    ensures ReadAlike(r, w, t, x, d, pos, limit)
  {
    var y := Store(x, j, VMessage(sub));
    KnownSize(r, w, t, x);
    KnownSize(r, w, t, y);
    MessageField(w, t, x, d, pos, limit, tag, at, j, start, end, sub);
    SkipsLength(d, at, limit, tag);
    if w[t][j] in r[t] {
      EmbeddedKnown(r, w, w[t][j].kind.of, d, start, end, sub);
      MessageKnown(r, w, t, x, d, pos, limit, tag, at, FieldIndex(r[t], w[t][j]), j, start, end, sub);
    } else {
      StoreUnknown(r, w, t, x, j, VMessage(sub));
      PassedOver(r, w, t, Known(r, w, t, x), d, pos, limit, tag, at, j, WT_LEN, end);
    }
    StepAlike(r, w, t, x, y, d, pos, end, limit);
  }

  lemma PackedAlike(r: Schema, w: Schema, t: nat, x: Message, d: seq<byte>, pos: nat, limit: nat, tag: nat, at: nat, j: nat,
                    start: nat, end: nat, vs: seq<Value>)
    requires Narrower(r, w) && SchemaOk(r) && SchemaOk(w) && t < |w| && |x.slots| == |w[t]| && pos < at <= limit <= |d|
    requires ReadTag(d, pos, limit) == Some((tag, at)) && CaseOf(w[t], tag, 0) == Packed(j)
    requires Packs(w[t][j]) && !w[t][j].kind.TypeMessage? && tag == MakeTag(w[t][j].num, WT_LEN) && tag % 8 == WT_LEN
    requires ReadLength(d, at, limit) == Some((start, end)) && ReadPacked(w[t][j].kind, d, start, end) == Some(vs)
    requires |AddAll(x, j, vs).slots| == |w[t]| && ReadAlike(r, w, t, AddAll(x, j, vs), d, end, limit)
    ensures ReadAlike(r, w, t, x, d, pos, limit)
  {
    var y := AddAll(x, j, vs);
    KnownSize(r, w, t, x);
    KnownSize(r, w, t, y);
    PackedField(w, t, x, d, pos, limit, tag, at, j, start, end, vs);
    SkipsLength(d, at, limit, tag);
    if w[t][j] in r[t] {
      PackedKnown(r, w, t, x, d, pos, limit, tag, at, FieldIndex(r[t], w[t][j]), j, start, end, vs);
    } else {
      AddAllUnknown(r, w, t, x, j, vs);
      PassedOver(r, w, t, Known(r, w, t, x), d, pos, limit, tag, at, j, WT_LEN, end);
    }
    StepAlike(r, w, t, x, y, d, pos, end, limit);
  }

  /** So a message written under the wider schema and parsed under the narrower
      gives its known part, the unsent negative zeros at zero. */
  lemma OldReaderGetsKnown(r: Schema, w: Schema, t: nat, m: Message)
    requires Narrower(r, w) && SchemaOk(r) && SchemaOk(w) && Fits(w, t, m) && |Write(w, t, m)| < 0x8000_0000
    ensures ParseFrom(r, t, Write(w, t, m)) == Some(Known(r, w, t, Normal(w, t, m)))
  {
    var d := Write(w, t, m);
    ProtoRoundTrip.ParsesToNormal(w, t, m);
    NarrowReadsKnown(r, w, t, Fresh(w, t), d, 0, |d|);
    FreshKnown(r, w, t);
  }
}
