/** Every successful derivation puts each word of the table exactly once. */
module Coverage {
  import opened Bytes
  import opened ClassFile

  /** How many of the puts are of word `w`. */
  ghost function Count(puts: seq<Put>, w: nat): nat {
    if puts == [] then 0 else (if puts[0].word == w then 1 else 0) + Count(puts[1..], w)
  }

  ghost function Below(hi: nat, w: nat): int { if w < hi then 1 else 0 }

  /** Once inside `lo..hi`, not at all outside. */
  ghost function In(lo: nat, hi: nat, w: nat): int { Below(hi, w) - Below(lo, w) }

  lemma {:induction false} CountConcat(a: seq<Put>, b: seq<Put>, w: nat)
    ensures Count(a + b, w) == Count(a, w) + Count(b, w)
    decreases |a|
  {
    if a == [] {
      assert a + b == b;
    } else {
      assert (a + b)[1..] == a[1..] + b;
      CountConcat(a[1..], b, w);
    }
  }

  lemma {:induction false} Consecutive(puts: seq<Put>, lo: nat, w: nat)
    requires forall k | 0 <= k < |puts| :: puts[k].word == lo + k
    ensures Count(puts, w) == In(lo, lo + |puts|, w)
    decreases |puts|
  {
    if puts != [] {
      Consecutive(puts[1..], lo + 1, w);
    }
  }

  lemma EmitCounts<T>(ps: seq<Put>, lo: nat, d: Derived<T>, w: nat)
    requires forall k | 0 <= k < |ps| :: ps[k].word == lo + k
    ensures Count(Emit(ps, d).puts, w) == In(lo, lo + |ps|, w) + Count(d.puts, w)
  {
    CountConcat(ps, d.puts, w);
    Consecutive(ps, lo, w);
  }

  // ---- region by region: how often word `w` is put, and how many puts ----

  lemma {:induction false} CpCovered(cp: CpView, n: Counts, l: Layout, i: nat, k: nat, ks: nat, lo: byte, w: nat)
    requires i <= n.cpCount && DeriveCp(cp, n, l, i, k, ks, lo).outcome.Ok?
    ensures var tags := HEADER_WORDS + n.cpCount;
      var puts := DeriveCp(cp, n, l, i, k, ks, lo).puts;
      && Count(puts, w) == In(HEADER_WORDS + i, tags, w) + In(tags + i / 2, tags + TagWords(n.cpCount), w)
      && |puts| == n.cpCount - i + TagWords(n.cpCount) - i / 2
    decreases n.cpCount - i
  {
    var d := DeriveCp(cp, n, l, i, k, ks, lo);
    var tags := HEADER_WORDS + n.cpCount;
    if i == n.cpCount {
      Consecutive(d.puts, tags + i / 2, w);
    } else {
      var tag := Tag(cp, i).value;
      var word := CpWord(cp, l, i, tag, k, ks).value;
      var ps := CpPuts(n, i, word, lo, tag);
      var k', ks' := k + (if IsMethodref(tag) then 1 else 0), ks + (if tag == TAG_STRING then 1 else 0);
      var lo' := if i % 2 == 0 then tag else lo;
      var rest := DeriveCp(cp, n, l, i + 1, k', ks', lo');
      CpCovered(cp, n, l, i + 1, k', ks', lo', w);
      CountConcat(ps, rest.puts, w);
      CountConcat(ps[..1], ps[1..], w);
      assert ps == ps[..1] + ps[1..];
      Consecutive(ps[..1], HEADER_WORDS + i, w);
      Consecutive(ps[1..], tags + i / 2, w);
    }
  }

  lemma {:induction false} MrefsCovered(cls: seq<byte>, cp: CpView, n: Counts, l: Layout, i: nat, k: nat, w: nat)
    requires DeriveMrefs(cls, cp, n, l, i, k).outcome.Ok?
    ensures var puts := DeriveMrefs(cls, cp, n, l, i, k).puts;
      && k <= n.mrefs
      && Count(puts, w) == In(l.mrefsOff + 2 * k, l.mrefsOff + 2 * n.mrefs, w)
      && |puts| == 2 * (n.mrefs - k)
    decreases n.cpCount - i
  {
    if i < n.cpCount {
      var tag := Tag(cp, i).value;
      if !IsMethodref(tag) {
        MrefsCovered(cls, cp, n, l, i + 1, k, w);
      } else {
        var (off, argcFlags) := MethodrefAt(cls, cp, i, tag).value;
        var lo := l.mrefsOff + 2 * k;
        MrefsCovered(cls, cp, n, l, i + 1, k + 1, w);
        EmitCounts([Put(lo, AsU16(off)), Put(lo + 1, argcFlags)], lo, DeriveMrefs(cls, cp, n, l, i + 1, k + 1), w);
      }
    }
  }

  lemma {:induction false} StrsCovered(cls: seq<byte>, cp: CpView, n: Counts, l: Layout, i: nat, ks: nat, w: nat)
    requires DeriveStrs(cls, cp, n, l, i, ks).outcome.Ok?
    ensures var puts := DeriveStrs(cls, cp, n, l, i, ks).puts;
      && ks <= n.strs
      && Count(puts, w) == In(l.strsOff + 2 * ks, l.strsOff + 2 * n.strs, w)
      && |puts| == 2 * (n.strs - ks)
    decreases n.cpCount - i
  {
    if i < n.cpCount {
      if Tag(cp, i) != Some(TAG_STRING) {
        StrsCovered(cls, cp, n, l, i + 1, ks, w);
      } else {
        var off := StringAt(cls, cp, i).value;
        var lo := l.strsOff + 2 * ks;
        StrsCovered(cls, cp, n, l, i + 1, ks + 1, w);
        EmitCounts([Put(lo, AsU16(off)), PutExternal(lo + 1, LIT_NONE)], lo, DeriveStrs(cls, cp, n, l, i + 1, ks + 1), w);
      }
    }
  }

  lemma {:induction false} IfacesCovered(
    env: Env, cls: seq<byte>, cp: CpView, l: Layout, count: nat, j: nat, pos: nat, w: nat)
    requires j <= count && DeriveIfaces(env, cls, cp, l, count, j, pos).outcome.Ok?
    ensures var puts := DeriveIfaces(env, cls, cp, l, count, j, pos).puts;
      && Count(puts, w) == In(l.ifacesOff + 3 * j, l.ifacesOff + 3 * count, w)
      && |puts| == 3 * (count - j)
    decreases count - j
  {
    if j < count {
      var r := IfaceAt(env, cls, cp, j, pos).value;
      var lo := l.ifacesOff + 3 * j;
      IfacesCovered(env, cls, cp, l, count, j + 1, pos + 2, w);
      EmitCounts(IfacePuts(l, j, r), lo, DeriveIfaces(env, cls, cp, l, count, j + 1, pos + 2), w);
    }
  }

  /** Words of the two field regions from the members at `at` up to those at `end`. */
  ghost function FieldRegions(l: Layout, at: FieldsEnd, end: FieldsEnd, w: nat): int {
    In(l.fieldsOff + 3 * at.fi, l.fieldsOff + 3 * end.fi, w) + In(l.staticsOff + 3 * at.si, l.staticsOff + 3 * end.si, w)
  }

  lemma FieldPutsCount(l: Layout, f: Field, at: FieldsEnd, end: FieldsEnd, w: nat)
    ensures Count(FieldPuts(l, f, at), w) + FieldRegions(l, NextField(f, at), end, w) == FieldRegions(l, at, end, w)
  {
    Consecutive(FieldPuts(l, f, at), if f.isStatic then l.staticsOff + 3 * at.si else l.fieldsOff + 3 * at.fi, w);
  }

  lemma {:induction false} FieldsCovered(
    env: Env, cls: seq<byte>, cp: CpView, l: Layout, count: nat, j: nat, at: FieldsEnd, w: nat)
    requires DeriveFields(env, cls, cp, l, count, j, at).outcome.Ok?
    ensures var d := DeriveFields(env, cls, cp, l, count, j, at);
      var end := d.outcome.value;
      && at.fi <= end.fi && at.si <= end.si
      && Count(d.puts, w) == FieldRegions(l, at, end, w)
      && |d.puts| == 3 * (end.fi - at.fi) + 3 * (end.si - at.si)
    decreases count - j
  {
    if j < count {
      var f := FieldAt(env, cls, cp, j, at.pos).value;
      var rest := DeriveFields(env, cls, cp, l, count, j + 1, NextField(f, at));
      FieldsCovered(env, cls, cp, l, count, j + 1, NextField(f, at), w);
      CountConcat(FieldPuts(l, f, at), rest.puts, w);
      FieldPutsCount(l, f, at, rest.outcome.value, w);
    }
  }

  lemma MethodStep(env: Env, cls: seq<byte>, cp: CpView, l: Layout, count: nat, mi: nat, pos: nat) returns (m: Method)
    requires mi < count && DeriveMethods(env, cls, cp, l, count, mi, pos).outcome.Ok?
    ensures DeriveMethods(env, cls, cp, l, count, mi, pos)
            == Emit(MethodPuts(l, mi, pos, m), DeriveMethods(env, cls, cp, l, count, mi + 1, m.next))
  {
    m := MethodAt(env, cls, cp, mi, pos).value;
  }

  lemma {:induction false} MethodsCovered(
    env: Env, cls: seq<byte>, cp: CpView, l: Layout, count: nat, mi: nat, pos: nat, w: nat)
    requires mi <= count && DeriveMethods(env, cls, cp, l, count, mi, pos).outcome.Ok?
    ensures var puts := DeriveMethods(env, cls, cp, l, count, mi, pos).puts;
      && Count(puts, w) == In(l.methodsOff + 6 * mi, l.methodsOff + 6 * count, w)
      && |puts| == 6 * (count - mi)
    decreases count - mi
  {
    if mi < count {
      var m := MethodStep(env, cls, cp, l, count, mi, pos);
      var lo := l.methodsOff + 6 * mi;
      MethodsCovered(env, cls, cp, l, count, mi + 1, m.next, w);
      EmitCounts(MethodPuts(l, mi, pos, m), lo, DeriveMethods(env, cls, cp, l, count, mi + 1, m.next), w);
    }
  }

  lemma TailCovered(cls: seq<byte>, cp: CpView, n: Counts, l: Layout, head: Head, own: nat, pos: nat, w: nat)
    requires DeriveTail(cls, cp, n, l, head, own, pos).outcome.Ok? && NewLayout(n) == Ok(l)
    ensures var puts := DeriveTail(cls, cp, n, l, head, own, pos).puts;
      && Count(puts, w) == In(0, HEADER_WORDS, w) + In(l.strsOff + 2 * n.strs, l.totalWords, w)
      && |puts| == HEADER_WORDS + l.totalWords - l.strsOff - 2 * n.strs
  {
    var a := ClassAttrsFrom(cls, cp, ReadU16(cls, pos).value, pos + 2, ClassAttrs(0, 0)).value;
    var header, pad := HeaderPuts(cls, n, l, head, own, a), PadPuts(n, l);
    CountConcat(header, pad, w);
    HeaderInOrder(cls, n, l, head, own, a);
    Consecutive(header, 0, w);
    Consecutive(pad, l.strsOff + 2 * n.strs, w);
  }

  lemma HeaderInOrder(cls: seq<byte>, n: Counts, l: Layout, head: Head, own: nat, a: ClassAttrs)
    ensures var puts := HeaderPuts(cls, n, l, head, own, a);
      && |puts| == HEADER_WORDS
      && forall k | 0 <= k < |puts| :: puts[k].word == k
  {
  }

  lemma FromHeadCovered(env: Env, cls: seq<byte>, cp: CpView, n: Counts, l: Layout, head: Head, w: nat)
    requires DeriveFromHead(env, cls, cp, n, l, head).outcome.Ok? && NewLayout(n) == Ok(l)
    ensures var puts := DeriveFromHead(env, cls, cp, n, l, head).puts;
      && Count(puts, w) == In(0, HEADER_WORDS, w) + In(l.fieldsOff, l.mrefsOff, w)
                         + In(l.strsOff + 2 * n.strs, l.totalWords, w)
      && |puts| == HEADER_WORDS + l.mrefsOff - l.fieldsOff + l.totalWords - l.strsOff - 2 * n.strs
  {
    var ifaces := DeriveIfaces(env, cls, cp, l, head.ifaces, 0, head.pos);
    var pos := ifaces.outcome.value;
    IfacesCovered(env, cls, cp, l, head.ifaces, 0, head.pos, w);
    FromFieldsCovered(env, cls, cp, n, l, head, pos, w);
    CountConcat(ifaces.puts, DeriveFromFields(env, cls, cp, n, l, head, pos).puts, w);
  }

  lemma WholeFieldRegions(n: Counts, l: Layout, start: FieldsEnd, end: FieldsEnd, w: nat)
    requires NewLayout(n) == Ok(l)
    requires start.fi == start.si == 0 && end.fi == n.fields && end.si == n.statics
    ensures FieldRegions(l, start, end, w) == In(l.fieldsOff, l.ifacesOff, w)
    ensures 3 * end.fi + 3 * end.si == l.ifacesOff - l.fieldsOff
  {
  }

  lemma FromFieldsCovered(env: Env, cls: seq<byte>, cp: CpView, n: Counts, l: Layout, head: Head, pos: nat, w: nat)
    requires DeriveFromFields(env, cls, cp, n, l, head, pos).outcome.Ok? && NewLayout(n) == Ok(l)
    ensures var puts := DeriveFromFields(env, cls, cp, n, l, head, pos).puts;
      && Count(puts, w) == In(0, HEADER_WORDS, w) + In(l.fieldsOff, l.ifacesOff, w)
                         + In(l.methodsOff, l.mrefsOff, w) + In(l.strsOff + 2 * n.strs, l.totalWords, w)
      && |puts| == HEADER_WORDS + l.ifacesOff - l.fieldsOff + l.mrefsOff - l.methodsOff
                 + l.totalWords - l.strsOff - 2 * n.strs
  {
    var count := ReadU16(cls, pos).value;
    var start := FieldsEnd(pos + 2, 0, 0, 0);
    var fields := DeriveFields(env, cls, cp, l, count, 0, start);
    var end := fields.outcome.value;
    FieldsCovered(env, cls, cp, l, count, 0, start, w);
    WholeFieldRegions(n, l, start, end, w);
    FromMethodsCovered(env, cls, cp, n, l, head, end.own, end.pos, w);
    CountConcat(fields.puts, DeriveFromMethods(env, cls, cp, n, l, head, end.own, end.pos).puts, w);
  }

  lemma FromMethodsCovered(
    env: Env, cls: seq<byte>, cp: CpView, n: Counts, l: Layout, head: Head, own: nat, pos: nat, w: nat)
    requires DeriveFromMethods(env, cls, cp, n, l, head, own, pos).outcome.Ok? && NewLayout(n) == Ok(l)
    ensures var puts := DeriveFromMethods(env, cls, cp, n, l, head, own, pos).puts;
      && Count(puts, w) == In(0, HEADER_WORDS, w) + In(l.methodsOff, l.mrefsOff, w)
                         + In(l.strsOff + 2 * n.strs, l.totalWords, w)
      && |puts| == HEADER_WORDS + l.mrefsOff - l.methodsOff + l.totalWords - l.strsOff - 2 * n.strs
  {
    var methods := DeriveMethods(env, cls, cp, l, n.methods, 0, pos + 2);
    var end := methods.outcome.value;
    MethodsCovered(env, cls, cp, l, n.methods, 0, pos + 2, w);
    TailCovered(cls, cp, n, l, head, own, end, w);
    CountConcat(methods.puts, DeriveTail(cls, cp, n, l, head, own, end).puts, w);
  }

  lemma ThenCounts<T>(first: Derived<()>, next: Derived<T>, w: nat)
    requires Then(first, next).outcome.Ok?
    ensures first.outcome.Ok? && next.outcome.Ok?
    ensures Count(Then(first, next).puts, w) == Count(first.puts, w) + Count(next.puts, w)
    ensures |Then(first, next).puts| == |first.puts| + |next.puts|
  {
    CountConcat(first.puts, next.puts, w);
  }

  lemma EachWordCounted(env: Env, cls: seq<byte>, cp: CpView, n: Counts, l: Layout, w: nat)
    requires NewLayout(n) == Ok(l) && DeriveTable(env, cls, cp, n, l).outcome.Ok?
    ensures var puts := DeriveTable(env, cls, cp, n, l).puts;
      Count(puts, w) == In(0, l.totalWords, w) && |puts| == l.totalWords
  {
    var members := DeriveMembers(env, cls, cp, n, l);
    var names := Then(Derived([], CheckNames(env, cls, cp, n, 0)), members);
    var strs := Then(DeriveStrs(cls, cp, n, l, 0, 0), names);
    var mrefs := Then(DeriveMrefs(cls, cp, n, l, 0, 0), strs);
    ThenCounts(DeriveCp(cp, n, l, 0, 0, 0, 0), mrefs, w);
    ThenCounts(DeriveMrefs(cls, cp, n, l, 0, 0), strs, w);
    ThenCounts(DeriveStrs(cls, cp, n, l, 0, 0), names, w);
    ThenCounts(Derived([], CheckNames(env, cls, cp, n, 0)), members, w);
    CpCovered(cp, n, l, 0, 0, 0, 0, w);
    MrefsCovered(cls, cp, n, l, 0, 0, w);
    StrsCovered(cls, cp, n, l, 0, 0, w);
    FromHeadCovered(env, cls, cp, n, l, HeadAt(env, cls, cp, n.posAfterCp).value, w);
  }

  // ---- exactly once ------------------------------------------------------

  lemma {:induction false} PutIsCounted(puts: seq<Put>, k: nat)
    requires k < |puts|
    ensures Count(puts, puts[k].word) > 0
    decreases |puts|
  {
    if k > 0 {
      PutIsCounted(puts[1..], k - 1);
    }
  }

  lemma {:induction false} TwoPutsCountTwice(puts: seq<Put>, j: nat, k: nat)
    requires j < k < |puts| && puts[j].word == puts[k].word
    ensures Count(puts, puts[j].word) > 1
    decreases |puts|
  {
    if j > 0 {
      TwoPutsCountTwice(puts[1..], j - 1, k - 1);
    } else {
      PutIsCounted(puts[1..], k - 1);
    }
  }

  lemma {:induction false} CountedIsPut(puts: seq<Put>, w: nat)
    requires Count(puts, w) > 0
    ensures PutsWord(puts, w)
    decreases |puts|
  {
    if puts[0].word != w {
      CountedIsPut(puts[1..], w);
      var k :| 0 <= k < |puts[1..]| && puts[1..][k].word == w;
      assert puts[k + 1].word == w;
    }
  }

  ghost predicate PutsWord(puts: seq<Put>, w: nat) {
    exists k :: 0 <= k < |puts| && puts[k].word == w
  }

  /** No word twice, every word of the table, nothing past it. */
  ghost predicate OncePerWord(puts: seq<Put>, total: nat) {
    && |puts| == total
    && (forall k | 0 <= k < |puts| :: puts[k].word < total)
    && (forall j, k | 0 <= j < k < |puts| :: puts[j].word != puts[k].word)
    && forall w | 0 <= w < total :: PutsWord(puts, w)
  }

  /** The theorem: a derivation that succeeds puts each word of its table
      exactly once, so that counting `totalWords` comparisons means every word
      was compared. */
  lemma DerivesOncePerWord(env: Env, cls: seq<byte>, cp: CpView, n: Counts, l: Layout)
    requires NewLayout(n) == Ok(l) && DeriveTable(env, cls, cp, n, l).outcome.Ok?
    ensures OncePerWord(DeriveTable(env, cls, cp, n, l).puts, l.totalWords)
  {
    var puts := DeriveTable(env, cls, cp, n, l).puts;
    EachWordCounted(env, cls, cp, n, l, 0);
    forall k | 0 <= k < |puts|
      ensures puts[k].word < l.totalWords
    {
      PutIsCounted(puts, k);
      EachWordCounted(env, cls, cp, n, l, puts[k].word);
    }
    forall j, k | 0 <= j < k < |puts|
      ensures puts[j].word != puts[k].word
    {
      EachWordCounted(env, cls, cp, n, l, puts[j].word);
      if puts[j].word == puts[k].word {
        TwoPutsCountTwice(puts, j, k);
      }
    }
    forall w | 0 <= w < l.totalWords
      ensures PutsWord(puts, w)
    {
      EachWordCounted(env, cls, cp, n, l, w);
      CountedIsPut(puts, w);
    }
  }
}
