/** Field slots: in an accepted table every instance field of the class file
    owns its own slots, in declaration order and without a gap, and every static
    is numbered by its position. */
module Slots {
  import opened Bytes
  import opened ClassFile
  import opened LinkTable
  import opened Linking
  import opened Sinks

  /** The fields the class file declares, from the `j`th at `pos`. */
  function Declared(env: Env, cls: seq<byte>, cp: CpView, count: nat, j: nat, pos: nat): seq<Field>
    decreases count - j
  {
    if j >= count then []
    else
      match FieldAt(env, cls, cp, j, pos)
      case Err(_) => []
      case Ok(f) => [f] + Declared(env, cls, cp, count, j + 1, f.next)
  }

  /** Those that are static, or those that are not, in order. */
  function Those(fields: seq<Field>, isStatic: bool): seq<Field> {
    if fields == [] then []
    else if fields[0].isStatic == isStatic then [fields[0]] + Those(fields[1..], isStatic)
    else Those(fields[1..], isStatic)
  }

  /** Slots the first `k` of these fields take. */
  function SlotsBefore(fields: seq<Field>, k: nat): nat
    requires k <= |fields|
  {
    if k == 0 then 0 else SlotsBefore(fields, k - 1) + KindSlots(fields[k - 1].kind)
  }

  /** The records at `base`, from the `k`th on, are these instance fields, the
      first at slot `own`. */
  predicate InstancesAt(words: seq<u16>, base: nat, fields: seq<Field>, k: nat, own: nat) {
    if fields == [] then true
    else
      var w := base + 3 * k;
      && w + 2 < |words| && own < 0x1000 && fields[0].kind < 16
      && words[w] == fields[0].name && words[w + 1] == fields[0].desc && words[w + 2] == own + 0x1000 * fields[0].kind
      && InstancesAt(words, base, fields[1..], k + 1, own + KindSlots(fields[0].kind))
  }

  /** The records at `base`, from the `k`th on, are these static fields. */
  predicate StaticsAt(words: seq<u16>, base: nat, fields: seq<Field>, k: nat) {
    if fields == [] then true
    else
      var w := base + 3 * k;
      && w + 2 < |words| && k < 0x1000 && fields[0].kind < 16
      && words[w] == fields[0].name && words[w + 1] == fields[0].desc && words[w + 2] == k + 0x1000 * fields[0].kind
      && StaticsAt(words, base, fields[1..], k + 1)
  }

  lemma PutsAt(words: seq<u16>, l: Layout, f: Field, at: FieldsEnd)
    requires Agrees(words, FieldPuts(l, f, at)) && FieldSlot(f, at) <= MAX_OWN_SLOTS && f.kind < 16
    ensures var w := if f.isStatic then l.staticsOff + 3 * at.si else l.fieldsOff + 3 * at.fi;
      && w + 2 < |words| && words[w] == f.name && words[w + 1] == f.desc
      && words[w + 2] == FieldSlot(f, at) + 0x1000 * f.kind
  {
    var ps := FieldPuts(l, f, at);
    SmallAsU16(FieldSlot(f, at) + 0x1000 * f.kind);
    assert ps[0].Put? && ps[1].Put? && ps[2].Put?;
  }

  /** What a derivation of fields from `at` on puts. */
  ghost predicate FieldsPut(words: seq<u16>, l: Layout, fields: seq<Field>, at: FieldsEnd, end: FieldsEnd) {
    var inst, stat := Those(fields, false), Those(fields, true);
    && InstancesAt(words, l.fieldsOff, inst, at.fi, at.own) && StaticsAt(words, l.staticsOff, stat, at.si)
    && end.fi == at.fi + |inst| && end.si == at.si + |stat| && end.own == at.own + SlotsBefore(inst, |inst|)
  }

  lemma {:induction false} SlotsCons(f: Field, rest: seq<Field>, k: nat)
    requires k <= |rest|
    ensures SlotsBefore([f] + rest, k + 1) == KindSlots(f.kind) + SlotsBefore(rest, k)
    decreases k
  {
    if k > 0 {
      SlotsCons(f, rest, k - 1);
      assert ([f] + rest)[k] == rest[k - 1];
    } else {
      assert SlotsBefore([f] + rest, 1) == SlotsBefore([f] + rest, 0) + KindSlots(f.kind);
    }
  }

  lemma FieldsPutCons(words: seq<u16>, l: Layout, f: Field, rest: seq<Field>, at: FieldsEnd, end: FieldsEnd)
    requires Agrees(words, FieldPuts(l, f, at)) && FieldSlot(f, at) <= MAX_OWN_SLOTS && f.kind < 16
    requires FieldsPut(words, l, rest, NextField(f, at), end)
    ensures FieldsPut(words, l, [f] + rest, at, end)
  {
    PutsAt(words, l, f, at);
    var all := [f] + rest;
    assert all[1..] == rest;
    var inst, stat := Those(rest, false), Those(rest, true);
    if f.isStatic {
      assert Those(all, true) == [f] + stat && ([f] + stat)[1..] == stat;
    } else {
      assert Those(all, false) == [f] + inst && ([f] + inst)[1..] == inst;
      SlotsCons(f, inst, |inst|);
    }
  }

  lemma {:induction false} DerivedFieldsPut(
    env: Env, cls: seq<byte>, cp: CpView, l: Layout, count: nat, j: nat, at: FieldsEnd, words: seq<u16>, end: FieldsEnd)
    requires DeriveFields(env, cls, cp, l, count, j, at).outcome == Ok(end) && j <= count
    requires Agrees(words, DeriveFields(env, cls, cp, l, count, j, at).puts)
    ensures |Declared(env, cls, cp, count, j, at.pos)| == count - j
    ensures FieldsPut(words, l, Declared(env, cls, cp, count, j, at.pos), at, end)
    decreases count - j
  {
    if j < count {
      var f := FieldAt(env, cls, cp, j, at.pos).value;
      var next := NextField(f, at);
      AgreesConcat(words, FieldPuts(l, f, at), DeriveFields(env, cls, cp, l, count, j + 1, next).puts);
      DerivedFieldsPut(env, cls, cp, l, count, j + 1, next, words, end);
      FieldsPutCons(words, l, f, Declared(env, cls, cp, count, j + 1, f.next), at, end);
    }
  }

  lemma {:induction false} InstanceAt(words: seq<u16>, base: nat, fields: seq<Field>, from: nat, own: nat, k: nat)
    requires InstancesAt(words, base, fields, from, own) && k < |fields|
    ensures var w := base + 3 * (from + k);
      && w + 2 < |words| && words[w] == fields[k].name && words[w + 1] == fields[k].desc
      && own + SlotsBefore(fields, k) < 0x1000 && fields[k].kind < 16
      && words[w + 2] == own + SlotsBefore(fields, k) + 0x1000 * fields[k].kind
    decreases k
  {
    if k > 0 {
      InstanceAt(words, base, fields[1..], from + 1, own + KindSlots(fields[0].kind), k - 1);
      assert [fields[0]] + fields[1..] == fields;
      SlotsCons(fields[0], fields[1..], k - 1);
    }
  }

  lemma {:induction false} StaticAt(words: seq<u16>, base: nat, fields: seq<Field>, from: nat, k: nat)
    requires StaticsAt(words, base, fields, from) && k < |fields|
    ensures var w := base + 3 * (from + k);
      && w + 2 < |words| && words[w] == fields[k].name && words[w + 1] == fields[k].desc
      && from + k < 0x1000 && fields[k].kind < 16 && words[w + 2] == from + k + 0x1000 * fields[k].kind
    decreases k
  {
    if k > 0 {
      StaticAt(words, base, fields[1..], from + 1, k - 1);
    }
  }

  /** `slot()` and `kind()` undo the packing. */
  lemma Unpacks(slot: nat, kind: nat)
    requires slot < 0x1000 && kind < 16
    ensures var f := FieldInfo(0, 0, slot + 0x1000 * kind); Slot(f) == slot && Kind(f) == kind
  {
  }

  /** Record `info` describes field `f` at `slot`. */
  ghost predicate Describes(info: FieldInfo, f: Field, slot: nat) {
    info.name == f.name && info.desc == f.desc && Kind(info) == f.kind && Slot(info) == slot
  }

  // ---- the whole table ---------------------------------------------------

  lemma HeldFields(env: Env, cls: seq<byte>, p: Plan, words: seq<u16>)
    returns (count: nat, pos: nat, end: FieldsEnd)
    requires Holds(env, cls, p, words)
    ensures FieldsPut(words, p.l, Declared(env, cls, p.view, count, 0, pos), FieldsEnd(pos, 0, 0, 0), end)
    ensures |Declared(env, cls, p.view, count, 0, pos)| == count
    ensures end.fi == p.n.fields && end.si == p.n.statics
    ensures |words| > 21 && words[21] == AsU16(end.own) && end.own <= MAX_OWN_SLOTS
    ensures FieldsBegin(cls, p.n) == (count, pos)
  {
    AgreesMembers(env, cls, p, words);
    var head := HeadAt(env, cls, p.view, p.n.posAfterCp).value;
    assert |words| >= HEADER_WORDS by {
      HeaderShows(env, cls, p, words);
    }
    var at := AfterIfaces(env, cls, p, words, head);
    count, pos := ReadU16(cls, at).value, at + 2;
    BeginsAt(cls, p.n, at, count);
    end := FieldsOfFields(env, cls, p, words, head, at, count, pos);
  }

  /** Where the class file's fields are: how many, and the first one's position. */
  function FieldsBegin(cls: seq<byte>, n: Counts): (nat, nat) {
    var at := n.posAfterCp + 8 + 2 * n.ifaces;
    match ReadU16(cls, at)
    case Err(_) => (0, at + 2)
    case Ok(count) => (count, at + 2)
  }

  lemma AgreesMembers(env: Env, cls: seq<byte>, p: Plan, words: seq<u16>)
    requires Holds(env, cls, p, words)
    ensures HeadAt(env, cls, p.view, p.n.posAfterCp).Ok?
    ensures var d := DeriveFromHead(env, cls, p.view, p.n, p.l, HeadAt(env, cls, p.view, p.n.posAfterCp).value);
      d.outcome.Ok? && Agrees(words, d.puts)
  {
    var members := DeriveMembers(env, cls, p.view, p.n, p.l);
    var names := Then(Derived([], CheckNames(env, cls, p.view, p.n, 0)), members);
    var strs := Then(DeriveStrs(cls, p.view, p.n, p.l, 0, 0), names);
    var mrefs := Then(DeriveMrefs(cls, p.view, p.n, p.l, 0, 0), strs);
    AgreesThen(words, DeriveCp(p.view, p.n, p.l, 0, 0, 0, 0), mrefs);
    AgreesThen(words, DeriveMrefs(cls, p.view, p.n, p.l, 0, 0), strs);
    AgreesThen(words, DeriveStrs(cls, p.view, p.n, p.l, 0, 0), names);
    AgreesThen(words, Derived([], CheckNames(env, cls, p.view, p.n, 0)), members);
  }

  lemma {:induction false} IfacesEnd(env: Env, cls: seq<byte>, cp: CpView, l: Layout, count: nat, j: nat, pos: nat)
    requires DeriveIfaces(env, cls, cp, l, count, j, pos).outcome.Ok? && j <= count
    ensures DeriveIfaces(env, cls, cp, l, count, j, pos).outcome == Ok(pos + 2 * (count - j))
    decreases count - j
  {
    hide IfaceAt, IfacePuts;
    if j < count {
      IfacesEnd(env, cls, cp, l, count, j + 1, pos + 2);
    }
  }

  lemma BeginsAt(cls: seq<byte>, n: Counts, at: nat, count: nat)
    requires at == n.posAfterCp + 8 + 2 * n.ifaces && ReadU16(cls, at) == Ok(count)
    ensures FieldsBegin(cls, n) == (count, at + 2)
  {
  }

  lemma AfterIfaces(env: Env, cls: seq<byte>, p: Plan, words: seq<u16>, head: Head) returns (at: nat)
    requires HeadAt(env, cls, p.view, p.n.posAfterCp) == Ok(head)
    requires var d := DeriveFromHead(env, cls, p.view, p.n, p.l, head); d.outcome.Ok? && Agrees(words, d.puts)
    ensures at == p.n.posAfterCp + 8 + 2 * p.n.ifaces && ReadU16(cls, at).Ok?
    ensures var d := DeriveFromFields(env, cls, p.view, p.n, p.l, head, at); d.outcome.Ok? && Agrees(words, d.puts)
  {
    var ifaces := DeriveIfaces(env, cls, p.view, p.l, head.ifaces, 0, head.pos);
    at := ifaces.outcome.value;
    AgreesConcat(words, ifaces.puts, DeriveFromFields(env, cls, p.view, p.n, p.l, head, at).puts);
    IfacesEnd(env, cls, p.view, p.l, head.ifaces, 0, head.pos);
    HeadEnds(env, cls, p, head);
  }

  lemma HeadEnds(env: Env, cls: seq<byte>, p: Plan, head: Head)
    requires HeadAt(env, cls, p.view, p.n.posAfterCp) == Ok(head)
    ensures head.pos == p.n.posAfterCp + 8
  {
  }

  lemma FieldsOfFields(env: Env, cls: seq<byte>, p: Plan, words: seq<u16>, head: Head, at: nat, count: nat, pos: nat)
    returns (end: FieldsEnd)
    requires |words| >= HEADER_WORDS && ReadU16(cls, at) == Ok(count) && pos == at + 2
    requires var d := DeriveFromFields(env, cls, p.view, p.n, p.l, head, at); d.outcome.Ok? && Agrees(words, d.puts)
    ensures FieldsPut(words, p.l, Declared(env, cls, p.view, count, 0, pos), FieldsEnd(pos, 0, 0, 0), end)
    ensures |Declared(env, cls, p.view, count, 0, pos)| == count
    ensures end.fi == p.n.fields && end.si == p.n.statics
    ensures words[21] == AsU16(end.own) && end.own <= MAX_OWN_SLOTS
  {
    var start := FieldsEnd(pos, 0, 0, 0);
    var fields := DeriveFields(env, cls, p.view, p.l, count, 0, start);
    end := fields.outcome.value;
    AgreesConcat(words, fields.puts, DeriveFromMethods(env, cls, p.view, p.n, p.l, head, end.own, end.pos).puts);
    DerivedFieldsPut(env, cls, p.view, p.l, count, 0, start, words, end);
    OwnFits(env, cls, p.view, p.l, count, 0, start);
    OwnWordHolds(env, cls, p, words, head, end);
  }

  lemma OwnWordHolds(env: Env, cls: seq<byte>, p: Plan, words: seq<u16>, head: Head, end: FieldsEnd)
    requires |words| >= HEADER_WORDS
    requires var d := DeriveFromMethods(env, cls, p.view, p.n, p.l, head, end.own, end.pos); d.outcome.Ok? && Agrees(words, d.puts)
    ensures words[21] == AsU16(end.own)
  {
    var a := TailAgrees(env, cls, p, words, head, end.own, end.pos);
    HeaderWordsHold(cls, p, words, head, end.own, a);
  }

  lemma {:induction false} OwnFits(env: Env, cls: seq<byte>, cp: CpView, l: Layout, count: nat, j: nat, at: FieldsEnd)
    requires DeriveFields(env, cls, cp, l, count, j, at).outcome.Ok? && at.own <= MAX_OWN_SLOTS
    ensures DeriveFields(env, cls, cp, l, count, j, at).outcome.value.own <= MAX_OWN_SLOTS
    decreases count - j
  {
    if j < count {
      OwnFits(env, cls, cp, l, count, j + 1, NextField(FieldAt(env, cls, cp, j, at.pos).value, at));
    }
  }

  /** In an accepted table: one record an instance field of the class file, in
      order, its first slot the sum of the slots before it, `own_slots` the sum
      of them all; one record a static, numbered by position. */
  lemma SlotsAllocated(env: Env, l: Link, cls: seq<byte>) returns (fields: seq<Field>, n: Counts)
    requires Valid(l) && ValidateLink(env, l, cls).Ok?
    ensures var (count, pos) := FieldsBegin(cls, n);
      fields == Declared(env, cls, LinkView(l), count, 0, pos) && |fields| == count
    ensures var w := WalkCp(cls, Pooled).outcome; w.Ok? && Survey(cls, LinkView(l), w.value.0, w.value.1) == Ok(n)
    ensures var inst := Those(fields, false);
      && FieldsLen(l) == |inst| && OwnSlots(l) == SlotsBefore(inst, |inst|)
      && forall k | 0 <= k < |inst| :: Describes(FieldInfoAt(l, k), inst[k], SlotsBefore(inst, k))
    ensures var stat := Those(fields, true);
      && StaticsLen(l) == |stat|
      && forall k | 0 <= k < |stat| :: Describes(StaticInfoAt(l, k), stat[k], k)
  {
    var refs, p := AcceptedHolds(env, l, cls);
    PlanPrepared(cls, refs, l.pool);
    PlanCounts(cls, refs, l.pool);
    n := p.n;
    var count, pos, end := HeldFields(env, cls, p, l.words);
    fields := Declared(env, cls, p.view, count, 0, pos);
    HeldHeader(env, cls, p, l.words);
    HeaderLinks(p, l.words, l.pool);
    SmallAsU16(end.own);
    InstancesRead(l, Those(fields, false));
    StaticsRead(l, Those(fields, true));
  }

  lemma InstancesRead(l: Link, inst: seq<Field>)
    requires Valid(l) && FieldsLen(l) == |inst| && InstancesAt(l.words, FieldsOff(l), inst, 0, 0)
    ensures forall k | 0 <= k < |inst| :: Describes(FieldInfoAt(l, k), inst[k], SlotsBefore(inst, k))
  {
    forall k | 0 <= k < |inst|
      ensures Describes(FieldInfoAt(l, k), inst[k], SlotsBefore(inst, k))
    {
      InstanceAt(l.words, FieldsOff(l), inst, 0, 0, k);
      Unpacks(SlotsBefore(inst, k), inst[k].kind);
    }
  }

  lemma StaticsRead(l: Link, stat: seq<Field>)
    requires Valid(l) && StaticsLen(l) == |stat| && StaticsAt(l.words, StaticsOff(l), stat, 0)
    ensures forall k | 0 <= k < |stat| :: Describes(StaticInfoAt(l, k), stat[k], k)
  {
    forall k | 0 <= k < |stat|
      ensures Describes(StaticInfoAt(l, k), stat[k], k)
    {
      StaticAt(l.words, StaticsOff(l), stat, 0, k);
      Unpacks(k, stat[k].kind);
    }
  }

  // ---- what the sums mean ------------------------------------------------

  ghost predicate Owns(fields: seq<Field>, k: nat, x: nat)
    requires k < |fields|
  {
    SlotsBefore(fields, k) <= x < SlotsBefore(fields, k) + KindSlots(fields[k].kind)
  }

  lemma {:induction false} SlotsGrow(fields: seq<Field>, j: nat, k: nat)
    requires j <= k <= |fields|
    ensures SlotsBefore(fields, j) <= SlotsBefore(fields, k)
    decreases k
  {
    if j < k {
      SlotsGrow(fields, j, k - 1);
    }
  }

  /** Every slot below the total is owned by exactly one field. */
  lemma {:induction false} EachSlotOwnedOnce(fields: seq<Field>, n: nat, x: nat) returns (k: nat)
    requires n <= |fields| && x < SlotsBefore(fields, n)
    ensures k < n && Owns(fields, k, x) && forall j | 0 <= j < n && Owns(fields, j, x) :: j == k
    decreases n
  {
    if x < SlotsBefore(fields, n - 1) {
      k := EachSlotOwnedOnce(fields, n - 1, x);
      assert !Owns(fields, n - 1, x);
    } else {
      k := n - 1;
      forall j | 0 <= j < n && Owns(fields, j, x)
        ensures j == k
      {
        if j < k {
          SlotsGrow(fields, j + 1, k);
        }
      }
    }
  }
}
