/** What is left of a message that goes over the wire, and the single steps of
    `mergeFrom` over a stream of records. */
module ProtoNormal {
  import opened Bytes
  import opened Proto
  import opened Regions

  // ---- what survives -----------------------------------------------------

  function NormalSlot(s: Schema, f: FieldSpec, x: FieldSlot): FieldSlot
    requires SlotFits(s, f, x)
    decreases x, 0
  {
    match x
    case One(v) => if Shows(f.kind, v) then x else One(Default(f.kind))
    case Opt(_, _) => x
    case Sub(sub) => if sub.None? then x else Sub(Some(Normal(s, f.kind.of, sub.value)))
    case Many(vs) => Many(NormalEach(s, f.kind, vs))
  }

  function NormalEach(s: Schema, k: Kind, vs: seq<Value>): (r: seq<Value>)
    requires forall j | 0 <= j < |vs| :: ValueFits(s, k, vs[j])
    ensures |r| == |vs|
    decreases vs, 0
  {
    if vs == [] then [] else [NormalValue(s, k, vs[0])] + NormalEach(s, k, vs[1..])
  }

  function NormalValue(s: Schema, k: Kind, v: Value): Value
    requires ValueFits(s, k, v)
    decreases v, 1
  {
    if k.TypeMessage? then VMessage(Normal(s, k.of, v.m)) else v
  }

  /** The message with every negative zero that is not on the wire at zero. */
  function Normal(s: Schema, t: nat, m: Message): (r: Message)
    requires Fits(s, t, m)
    ensures |r.slots| == |m.slots|
    decreases m, |m.slots| + 1
  {
    Message(NormalFrom(s, t, m, 0))
  }

  function NormalFrom(s: Schema, t: nat, m: Message, i: nat): (r: seq<FieldSlot>)
    requires Fits(s, t, m) && i <= |m.slots|
    ensures |r| == |m.slots| - i
    decreases m, |m.slots| - i
  {
    if i == |m.slots| then [] else [NormalSlot(s, s[t][i], m.slots[i])] + NormalFrom(s, t, m, i + 1)
  }

  lemma {:induction false} NormalFromAt(s: Schema, t: nat, m: Message, i: nat, j: nat)
    requires Fits(s, t, m) && i <= j < |m.slots|
    ensures NormalFrom(s, t, m, i)[j - i] == NormalSlot(s, s[t][j], m.slots[j])
    decreases j - i
  {
    if i < j {
      NormalFromAt(s, t, m, i + 1, j);
    }
  }

  // ---- tags and cases ----------------------------------------------------

  /** Two strings one after the other. */
  lemma PrefixLies(d: seq<byte>, pos: nat, a: seq<byte>, b: seq<byte>)
    requires LiesAt(d, pos, a + b)
    ensures LiesAt(d, pos, a) && LiesAt(d, pos + |a|, b)
  {
    var all := a + b;
    assert all[0..|a|] == a && all[|a|..|a| + |b|] == b;
    SliceOfSlice(d, pos, pos + |all|, 0, |a|);
    SliceOfSlice(d, pos, pos + |all|, |a|, |a| + |b|);
  }

  lemma TagsDiffer(f: FieldSpec, g: FieldSpec)
    requires f.num != g.num
    ensures TagOf(f) != TagOf(g) && TagOf(f) != MakeTag(g.num, WT_LEN) && MakeTag(f.num, WT_LEN) != TagOf(g)
    ensures MakeTag(f.num, WT_LEN) != MakeTag(g.num, WT_LEN)
  {
  }

  lemma {:induction false} CaseFinds(fields: seq<FieldSpec>, from: nat, i: nat)
    requires from <= i < |fields| && forall a, b | 0 <= a < b < |fields| :: fields[a].num < fields[b].num
    ensures CaseOf(fields, TagOf(fields[i]), from) == Plain(i)
    ensures Packs(fields[i]) ==> CaseOf(fields, MakeTag(fields[i].num, WT_LEN), from) == Packed(i)
    decreases i - from
  {
    if from < i {
      TagsDiffer(fields[from], fields[i]);
      CaseFinds(fields, from + 1, i);
    }
  }

  lemma {:induction false} CaseMisses(fields: seq<FieldSpec>, num: nat, wt: nat, i: nat)
    requires i <= |fields| && wt < 8 && forall j | 0 <= j < |fields| :: fields[j].num != num
    ensures CaseOf(fields, MakeTag(num, wt), i) == Unknown
    decreases |fields| - i
  {
    if i < |fields| {
      CaseMisses(fields, num, wt, i + 1);
    }
  }

  // ---- one turn of the loop ----------------------------------------------

  /** Any message being read. */
  ghost predicate Reading(s: Schema, t: nat, x: Message, i: nat, d: seq<byte>, pos: nat, limit: nat) {
    && SchemaOk(s) && t < |s| && |x.slots| == |s[t]| && i < |s[t]|
    && pos <= limit <= |d| < 0x8000_0000
  }

  lemma ScalarStep(s: Schema, t: nat, x: Message, i: nat, v: Value, d: seq<byte>, pos: nat, limit: nat, at: nat, end: nat)
    requires Reading(s, t, x, i, d, pos, limit) && !s[t][i].kind.TypeMessage?
    requires pos < at <= limit && ReadTag(d, pos, limit) == Some((TagOf(s[t][i]), at))
    requires ReadScalar(s[t][i].kind, d, at, limit) == Some((v, end))
    ensures end <= limit && MergeFrom(s, t, x, d, pos, limit) == MergeFrom(s, t, Store(x, i, v), d, end, limit)
  {
    CaseFinds(s[t], 0, i);
    ReadScalarEnds(s[t][i].kind, d, at, limit);
  }

  lemma PackedGoesOn(k: Kind, d: seq<byte>, pos: nat, limit: nat, v: Value, next: nat, rest: seq<Value>)
    requires !k.TypeMessage? && pos < next <= limit <= |d|
    requires ReadScalar(k, d, pos, limit) == Some((v, next)) && ReadPacked(k, d, next, limit) == Some(rest)
    ensures ReadPacked(k, d, pos, limit) == Some([v] + rest)
  {
  }

  lemma PackedStep(s: Schema, t: nat, x: Message, i: nat, vs: seq<Value>, d: seq<byte>, pos: nat, limit: nat, at: nat, start: nat, end: nat)
    requires Reading(s, t, x, i, d, pos, limit) && Packs(s[t][i])
    requires pos < at <= start <= end <= limit && ReadTag(d, pos, limit) == Some((MakeTag(s[t][i].num, WT_LEN), at))
    requires ReadLength(d, at, limit) == Some((start, end)) && ReadPacked(s[t][i].kind, d, start, end) == Some(vs)
    ensures |AddAll(x, i, vs).slots| == |s[t]|
    ensures MergeFrom(s, t, x, d, pos, limit) == MergeFrom(s, t, AddAll(x, i, vs), d, end, limit)
  {
    CaseFinds(s[t], 0, i);
    AddAllKeepsSize(x, i, vs);
  }

  lemma MessageStep(s: Schema, t: nat, x: Message, i: nat, sub: Message, d: seq<byte>, pos: nat, limit: nat, at: nat, start: nat, end: nat)
    requires Reading(s, t, x, i, d, pos, limit) && s[t][i].kind.TypeMessage?
    requires pos < at <= start <= end <= limit && ReadTag(d, pos, limit) == Some((TagOf(s[t][i]), at))
    requires ReadLength(d, at, limit) == Some((start, end))
    requires MergeFrom(s, s[t][i].kind.of, Fresh(s, s[t][i].kind.of), d, start, end) == Some(sub)
    ensures MergeFrom(s, t, x, d, pos, limit) == MergeFrom(s, t, Store(x, i, VMessage(sub)), d, end, limit)
  {
    CaseFinds(s[t], 0, i);
  }

  lemma SkipStep(s: Schema, t: nat, x: Message, tag: nat, d: seq<byte>, pos: nat, limit: nat, at: nat, end: nat)
    requires SchemaOk(s) && t < |s| && |x.slots| == |s[t]| && pos < at <= limit <= |d|
    requires ReadTag(d, pos, limit) == Some((tag, at)) && CaseOf(s[t], tag, 0) == Unknown
    requires SkipField(d, at, limit, tag) == Some(end)
    ensures end <= limit && MergeFrom(s, t, x, d, pos, limit) == MergeFrom(s, t, x, d, end, limit)
  {
  }

  // ---- the message so far ------------------------------------------------

  lemma {:induction false} AddAllIs(x: Message, i: nat, vs: seq<Value>)
    requires i < |x.slots| && x.slots[i].Many?
    ensures AddAll(x, i, vs) == Message(x.slots[i := Many(x.slots[i].vs + vs)])
    decreases |vs|
  {
    if vs == [] {
      assert x.slots[i].vs + [] == x.slots[i].vs;
      assert x.slots[i := x.slots[i]] == x.slots;
    } else {
      var y := Store(x, i, vs[0]);
      AddAllIs(y, i, vs[1..]);
      assert x.slots[i].vs + [vs[0]] + vs[1..] == x.slots[i].vs + vs;
      assert y.slots[i := Many(x.slots[i].vs + vs)] == x.slots[i := Many(x.slots[i].vs + vs)];
    }
  }

  lemma Unchanged(x: Message, i: nat)
    requires i < |x.slots|
    ensures Message(x.slots[i := x.slots[i]]) == x
  {
    assert x.slots[i := x.slots[i]] == x.slots;
  }

  /** The fields before the `i`th read, those after still fresh. */
  function Partial(s: Schema, t: nat, m: Message, i: nat): (x: Message)
    requires Fits(s, t, m) && i <= |m.slots|
    ensures |x.slots| == |s[t]|
  {
    Message(Normal(s, t, m).slots[..i] + Fresh(s, t).slots[i..])
  }

  lemma PartialStep(s: Schema, t: nat, m: Message, i: nat)
    requires Fits(s, t, m) && i < |m.slots|
    ensures Partial(s, t, m, i).slots[i] == FreshSlot(s[t][i])
    ensures Message(Partial(s, t, m, i).slots[i := NormalSlot(s, s[t][i], m.slots[i])]) == Partial(s, t, m, i + 1)
  {
    NormalFromAt(s, t, m, 0, i);
    SpliceStep(Normal(s, t, m).slots, Fresh(s, t).slots, i);
  }

  lemma SpliceStep<T>(a: seq<T>, b: seq<T>, i: nat)
    requires |a| == |b| && i < |a|
    ensures (a[..i] + b[i..])[i] == b[i]
    ensures (a[..i] + b[i..])[i := a[i]] == a[..i + 1] + b[i + 1..]
  {
    var x, y := (a[..i] + b[i..])[i := a[i]], a[..i + 1] + b[i + 1..];
    assert |x| == |y|;
    forall k | 0 <= k < |x|
      ensures x[k] == y[k]
    {
      if k < i {
        assert x[k] == a[k] == y[k];
      } else if k > i {
        assert x[k] == b[k] == y[k];
      }
    }
  }
}
