/** A table that says of its class file what the format says is accepted: with
    `AcceptedSaysTheClass`, the validator accepts exactly those. */
module TableComplete {
  import opened AcceptedTable
  import opened Bytes
  import opened ClassFile
  import opened ClassGrammar
  import opened ClassSpec
  import opened ConstantsExact
  import opened LinkTable
  import opened MembersExact
  import opened SurveyExact
  import opened TableContents
  import opened TableExact
  import opened WalkExact
  import Coverage
  import DeriveFacts
  import Linking
  import Sinks

  // ---- one table at most -------------------------------------------------

  /** What is said of every entry, by its data's place. */
  ghost predicate EachSaid(cs: seq<Constant>, b: Body, data: seq<nat>, tags: seq<byte>, words: seq<u16>) {
    && |data| == |tags| == |cs|
    && (forall i | 0 <= i < |cs| ::
          && EntryWords(cs, b, i, data[i], words) && ClassSpec.TagByte(words, |cs|, i, tags[i])
          && (cs[i].ConstText? ==> words[26 + i] == data[i]))
    && LastTagAlone(words, |cs|)
  }

  lemma {:induction false} LastNamedOr(cs: seq<Constant>, attrs: seq<Attr>, name: seq<byte>) returns (k: nat)
    ensures LastNamed(cs, attrs, name, k) || forall j | 0 <= j < |attrs| :: !Named(cs, attrs[j], name)
    decreases |attrs|
  {
    hide Named;
    k := 0;
    if attrs != [] {
      k := |attrs| - 1;
      if !Named(cs, attrs[k], name) {
        var front := attrs[..k];
        k := LastNamedOr(cs, front, name);
        if LastNamed(cs, front, name, k) {
          assert forall j | 0 <= j < |front| :: front[j] == attrs[j];
        } else {
          assert forall j | 0 <= j < |front| :: front[j] == attrs[j];
        }
      }
    }
  }

  lemma {:induction false} FirstNamedOr(cs: seq<Constant>, attrs: seq<Attr>, name: seq<byte>) returns (k: nat)
    ensures FirstNamed(cs, attrs, name, k) || forall j | 0 <= j < |attrs| :: !Named(cs, attrs[j], name)
    decreases |attrs|
  {
    hide Named;
    k := 0;
    if attrs != [] && !Named(cs, attrs[0], name) {
      var rest := attrs[1..];
      assert forall j | 0 <= j < |rest| :: rest[j] == attrs[j + 1];
      var m := FirstNamedOr(cs, rest, name);
      k := m + 1;
      if FirstNamed(cs, rest, name, m) {
        forall j | 0 <= j < k
          ensures !Named(cs, attrs[j], name)
        {
          if j > 0 {
            assert rest[j - 1] == attrs[j];
          }
        }
      }
    }
  }

  lemma {:induction false} LastSourceOr(cs: seq<Constant>, attrs: seq<Attr>) returns (k: nat)
    ensures || (k < |attrs| && IsSourceFile(cs, attrs[k]) && forall j | k < j < |attrs| :: !IsSourceFile(cs, attrs[j]))
            || forall j | 0 <= j < |attrs| :: !IsSourceFile(cs, attrs[j])
    decreases |attrs|
  {
    hide IsSourceFile;
    k := 0;
    if attrs != [] {
      k := |attrs| - 1;
      if !IsSourceFile(cs, attrs[k]) {
        var front := attrs[..k];
        assert forall j | 0 <= j < |front| :: front[j] == attrs[j];
        k := LastSourceOr(cs, front);
      }
    }
  }

  /** Where an attribute search points is one place. */
  lemma OnePlace(cs: seq<Constant>, t: Tail, attrs: seq<Attr>, name: seq<byte>, into: nat, v: nat, w: nat)
    ensures PointsToLast(cs, t, attrs, name, into, v) && PointsToLast(cs, t, attrs, name, into, w) ==> v == w
    ensures PointsToFirst(cs, t, attrs, name, into, v) && PointsToFirst(cs, t, attrs, name, into, w) ==> v == w
  {
    hide Named;
    var last := LastNamedOr(cs, attrs, name);
    var first := FirstNamedOr(cs, attrs, name);
  }

  lemma OneSource(cs: seq<Constant>, t: Tail, attrs: seq<Attr>, v: nat, w: nat)
    requires SourceFileSays(cs, t, attrs, v) && SourceFileSays(cs, t, attrs, w)
    ensures v == w
  {
    hide IsSourceFile;
    var k := LastSourceOr(cs, attrs);
  }

  lemma OneWord32(a: seq<u16>, b: seq<u16>, w: nat, v: u32)
    requires Holds32(a, w, v) && Holds32(b, w, v)
    ensures a[w] == b[w] && a[w + 1] == b[w + 1]
  {
  }

  lemma OneClassWord(env: Env, cs: seq<Constant>, i: nat, a: seq<u16>, b: seq<u16>, ref: nat, hash: nat)
    requires ClassWords(env, cs, i, a, ref, hash) && ClassWords(env, cs, i, b, ref, hash)
    requires a[26 + cs[i].name] == b[26 + cs[i].name]
    ensures a[ref] == b[ref] && a[hash] == b[hash] && a[hash + 1] == b[hash + 1]
  {
    OneWord32(a, b, hash, env.nameHash(TextOf(cs, cs[i].name).value));
  }

  lemma OneMref(cs: seq<Constant>, c: Constant, data: nat, a: seq<u16>, b: seq<u16>, w: nat)
    requires MrefRecord(cs, c, data, a, w) && MrefRecord(cs, c, data, b, w)
    ensures a[w] == b[w] && a[w + 1] == b[w + 1]
  {
    hide HasParams;
    var n: nat :| TakesParams(cs, c, n) && a[w + 1] == n + (if c.ofInterface then 0x100 else 0);
    var m: nat :| TakesParams(cs, c, m) && b[w + 1] == m + (if c.ofInterface then 0x100 else 0);
    ParamsCounted(TextOf(cs, cs[c.sig].desc).value);
  }

  lemma OneMethod(env: Env, cs: seq<Constant>, t: Tail, m: Member, codes: seq<Option<Code>>, a: seq<u16>, b: seq<u16>, w: nat, r: nat)
    requires MethodRecord(env, cs, t, m, codes, a, w) && MethodRecord(env, cs, t, m, codes, b, w) && r < 6
    ensures a[w + r] == b[w + r]
  {
    hide PointsToLast, PointsToFirst, TextOf;
    OnePlace(cs, t, m.attrs, CODE_ATTR, 14, a[w + 1], b[w + 1]);
    OnePlace(cs, t, SubAttrsOf(codes), LINES_ATTR, 6, a[w + 3], b[w + 3]);
    OneWord32(a, b, w + 4, env.sigHash(TextOf(cs, m.name).value, TextOf(cs, m.desc).value));
    assert r == 0 || r == 1 || r == 2 || r == 3 || r == 4 || r == 5;
  }

  // ---- region by region --------------------------------------------------

  /** Both tables say what the class file says. */
  ghost predicate BothSay(env: Env, cs: seq<Constant>, t: Tail, b: Body, codes: seq<seq<Option<Code>>>, data: seq<nat>,
                          tags: seq<byte>, x: seq<u16>, y: seq<u16>)
  {
    && TableSays(env, cs, t, b, codes, x) && TableSays(env, cs, t, b, codes, y)
    && EachSaid(cs, b, data, tags, x) && EachSaid(cs, b, data, tags, y)
  }

  lemma SameEntry(cs: seq<Constant>, b: Body, data: seq<nat>, tags: seq<byte>, x: seq<u16>, y: seq<u16>, i: nat)
    requires EachSaid(cs, b, data, tags, x) && EachSaid(cs, b, data, tags, y) && i < |cs|
    ensures 26 + i < |x| && 26 + i < |y| && x[26 + i] == y[26 + i]
  {
    hide MrefRecord, ClassSpec.TagByte, MrefsAt, StringsAt, MethodsAmong, StringsAmong;
    assert EntryWords(cs, b, i, data[i], x) && EntryWords(cs, b, i, data[i], y);
  }

  lemma SameTags(cs: seq<Constant>, b: Body, data: seq<nat>, tags: seq<byte>, x: seq<u16>, y: seq<u16>, m: nat)
    requires EachSaid(cs, b, data, tags, x) && EachSaid(cs, b, data, tags, y) && 2 * m < |cs|
    ensures 26 + |cs| + m < |x| && 26 + |cs| + m < |y| && x[26 + |cs| + m] == y[26 + |cs| + m]
  {
    hide EntryWords;
    assert ClassSpec.TagByte(x, |cs|, 2 * m, tags[2 * m]) && ClassSpec.TagByte(y, |cs|, 2 * m, tags[2 * m]);
    if 2 * m + 1 < |cs| {
      assert ClassSpec.TagByte(x, |cs|, 2 * m + 1, tags[2 * m + 1]) && ClassSpec.TagByte(y, |cs|, 2 * m + 1, tags[2 * m + 1]);
    }
  }

  lemma SameHeader(env: Env, cs: seq<Constant>, t: Tail, b: Body, data: seq<nat>, tags: seq<byte>, x: seq<u16>, y: seq<u16>, w: nat)
    requires HeaderSays(env, cs, t, b, x) && HeaderSays(env, cs, t, b, y)
    requires EachSaid(cs, b, data, tags, x) && EachSaid(cs, b, data, tags, y) && w < 22
    ensures x[w] == y[w]
  {
    hide ClassWords, PointsToLast, SourceFileSays, Holds32, Members, MethodsAmong, StringsAmong, EachSaid, SlotsTo;
    OnePlace(cs, t, b.attrs, BOOTSTRAP_ATTR, 6, x[11], y[11]);
    OneSource(cs, t, b.attrs, x[15], y[15]);
    SameClass(env, cs, b, data, tags, x, y, b.thisClass, 13, 16);
    if b.superClass == 0 {
      OneWord32(x, y, 18, 0);
    } else {
      SameClass(env, cs, b, data, tags, x, y, b.superClass, 14, 18);
    }
    Below22(w);
  }

  lemma Below22(w: nat)
    requires w < 22
    ensures w in {0, 1, 2, 3, 4, 5, 6, 7, 8, 9, 10, 11, 12, 13, 14, 15, 16, 17, 18, 19, 20, 21}
  {
  }

  lemma SameClass(env: Env, cs: seq<Constant>, b: Body, data: seq<nat>, tags: seq<byte>, x: seq<u16>, y: seq<u16>,
                  i: nat, ref: nat, hash: nat)
    requires EachSaid(cs, b, data, tags, x) && EachSaid(cs, b, data, tags, y)
    requires ClassWords(env, cs, i, x, ref, hash) && ClassWords(env, cs, i, y, ref, hash)
    ensures ref < |x| && ref < |y| && hash + 1 < |x| && hash + 1 < |y|
    ensures x[ref] == y[ref] && x[hash] == y[hash] && x[hash + 1] == y[hash + 1]
  {
    hide EachSaid, Holds32;
    ClassNameIn(env, cs, i, x, ref, hash);
    SameEntry(cs, b, data, tags, x, y, cs[i].name);
    OneClassWord(env, cs, i, x, y, ref, hash);
    HashFits(x, hash, env.nameHash(TextOf(cs, cs[i].name).value));
    HashFits(y, hash, env.nameHash(TextOf(cs, cs[i].name).value));
  }

  lemma ClassNameIn(env: Env, cs: seq<Constant>, i: nat, x: seq<u16>, ref: nat, hash: nat)
    requires ClassWords(env, cs, i, x, ref, hash)
    ensures i < |cs| && cs[i].ConstClass? && cs[i].name < |cs|
  {
    hide Holds32;
  }

  lemma HashFits(x: seq<u16>, w: nat, v: u32)
    requires Holds32(x, w, v)
    ensures w + 1 < |x|
  {
  }

  lemma Thirds(w: nat, off: nat, n: nat) returns (k: nat, r: nat)
    requires off <= w < off + 3 * n
    ensures k < n && r < 3 && w == off + 3 * k + r
  {
    k, r := (w - off) / 3, (w - off) % 3;
  }

  lemma SameField(cs: seq<Constant>, m: Member, slot: nat, x: seq<u16>, y: seq<u16>, at: nat, r: nat)
    requires FieldRecord(cs, m, slot, x, at) && FieldRecord(cs, m, slot, y, at) && r < 3
    ensures x[at + r] == y[at + r]
  {
    hide StorageIn;
    assert r == 0 || r == 1 || r == 2;
  }

  lemma SameMembers(env: Env, cs: seq<Constant>, t: Tail, b: Body, codes: seq<seq<Option<Code>>>, data: seq<nat>,
                    tags: seq<byte>, x: seq<u16>, y: seq<u16>, w: nat)
    requires BothSay(env, cs, t, b, codes, data, tags, x, y) && FieldsAt(cs) <= w < MrefsAt(cs, b)
    ensures w < |x| && w < |y| && x[w] == y[w]
  {
    hide FieldRecord, ClassWords, MethodRecord, HeaderSays, EachSaid, SlotsTo, Members;
    var inst, stat := Members(b.fields, false), Members(b.fields, true);
    if w < StaticsAt(cs, b) {
      var k, r := Thirds(w, FieldsAt(cs), |inst|);
      SameField(cs, inst[k], SlotsTo(cs, inst, k), x, y, FieldsAt(cs) + 3 * k, r);
      FieldInside(cs, inst[k], SlotsTo(cs, inst, k), x, FieldsAt(cs) + 3 * k);
      FieldInside(cs, inst[k], SlotsTo(cs, inst, k), y, FieldsAt(cs) + 3 * k);
    } else if w < IfacesAt(cs, b) {
      var k, r := Thirds(w, StaticsAt(cs, b), |stat|);
      SameField(cs, stat[k], k, x, y, StaticsAt(cs, b) + 3 * k, r);
      FieldInside(cs, stat[k], k, x, StaticsAt(cs, b) + 3 * k);
      FieldInside(cs, stat[k], k, y, StaticsAt(cs, b) + 3 * k);
    } else if w < MethodsAt(cs, b) {
      var k, r := Thirds(w, IfacesAt(cs, b), |b.ifaces|);
      var at := IfacesAt(cs, b) + 3 * k;
      SameClass(env, cs, b, data, tags, x, y, b.ifaces[k], at, at + 1);
      assert w == at || w == at + 1 || w == at + 1 + 1;
    } else {
      var k, r := (w - MethodsAt(cs, b)) / 6, (w - MethodsAt(cs, b)) % 6;
      var at := MethodsAt(cs, b) + 6 * k;
      assert w == at + r;
      OneMethod(env, cs, t, b.methods[k], codes[k], x, y, at, r);
      MethodInside(env, cs, t, b.methods[k], codes[k], x, at);
      MethodInside(env, cs, t, b.methods[k], codes[k], y, at);
    }
  }

  lemma FieldInside(cs: seq<Constant>, m: Member, slot: nat, x: seq<u16>, at: nat)
    requires FieldRecord(cs, m, slot, x, at)
    ensures at + 2 < |x|
  {
  }

  lemma MethodInside(env: Env, cs: seq<Constant>, t: Tail, m: Member, codes: seq<Option<Code>>, x: seq<u16>, at: nat)
    requires MethodRecord(env, cs, t, m, codes, x, at)
    ensures at + 5 < |x|
  {
  }

  lemma {:induction false} NthMethod(cs: seq<Constant>, n: nat, k: nat) returns (j: nat)
    requires n <= |cs| && k < MethodsAmong(cs, n)
    ensures j < n && cs[j].ConstMethod? && MethodsAmong(cs, j) == k
  {
    if k < MethodsAmong(cs, n - 1) {
      j := NthMethod(cs, n - 1, k);
    } else {
      j := n - 1;
    }
  }

  lemma {:induction false} NthString(cs: seq<Constant>, n: nat, k: nat) returns (j: nat)
    requires n <= |cs| && k < StringsAmong(cs, n)
    ensures j < n && cs[j].ConstString? && StringsAmong(cs, j) == k
  {
    if k < StringsAmong(cs, n - 1) {
      j := NthString(cs, n - 1, k);
    } else {
      j := n - 1;
    }
  }

  /** The words the section fills in. */
  predicate SectionWord(cs: seq<Constant>, b: Body, w: nat) {
    22 <= w <= 25 || (StringsAt(cs, b) <= w < TableEnd(cs, b) && (w - StringsAt(cs, b)) % 2 == 1)
  }

  lemma SameDescriptors(env: Env, cs: seq<Constant>, t: Tail, b: Body, codes: seq<seq<Option<Code>>>, data: seq<nat>,
                        tags: seq<byte>, x: seq<u16>, y: seq<u16>, w: nat)
    requires EachSaid(cs, b, data, tags, x) && EachSaid(cs, b, data, tags, y)
    requires MrefsAt(cs, b) <= w < TableEnd(cs, b) && !SectionWord(cs, b, w)
    ensures w < |x| && w < |y| && x[w] == y[w]
  {
    hide MrefRecord, ClassSpec.TagByte, MethodsAmong, StringsAmong, LastTagAlone, MrefsAt;
    if w < StringsAt(cs, b) {
      var k := (w - MrefsAt(cs, b)) / 2;
      var j := NthMethod(cs, |cs|, k);
      assert EntryWords(cs, b, j, data[j], x) && EntryWords(cs, b, j, data[j], y);
      MrefInside(cs, cs[j], data[j], x, MrefsAt(cs, b) + 2 * k);
      MrefInside(cs, cs[j], data[j], y, MrefsAt(cs, b) + 2 * k);
      OneMref(cs, cs[j], data[j], x, y, MrefsAt(cs, b) + 2 * k);
      assert w == MrefsAt(cs, b) + 2 * k || w == MrefsAt(cs, b) + 2 * k + 1;
    } else {
      var k := (w - StringsAt(cs, b)) / 2;
      var j := NthString(cs, |cs|, k);
      assert EntryWords(cs, b, j, data[j], x) && EntryWords(cs, b, j, data[j], y);
      assert w == StringsAt(cs, b) + 2 * k;
    }
  }

  lemma MrefInside(cs: seq<Constant>, c: Constant, data: nat, x: seq<u16>, at: nat)
    requires MrefRecord(cs, c, data, x, at)
    ensures at + 1 < |x|
  {
  }

  /** Two tables that say it differ at most in the section's words. */
  lemma SameTable(env: Env, cs: seq<Constant>, t: Tail, b: Body, codes: seq<seq<Option<Code>>>, data: seq<nat>,
                  tags: seq<byte>, x: seq<u16>, y: seq<u16>, w: nat)
    requires BothSay(env, cs, t, b, codes, data, tags, x, y) && w < |x| && !SectionWord(cs, b, w)
    ensures |x| == |y| == TableEnd(cs, b) + TableEnd(cs, b) % 2 && x[w] == y[w]
  {
    hide TableSays, HeaderSays, EachSaid, FieldsAt, MrefsAt, StringsAt, TableEnd;
    SaysParts(env, cs, t, b, codes, x);
    SaysParts(env, cs, t, b, codes, y);
    TableSize(env, cs, t, b, x);
    TableSize(env, cs, t, b, y);
    InOrder(cs, b);
    if w < 22 {
      SameHeader(env, cs, t, b, data, tags, x, y, w);
    } else if w < 26 + |cs| {
      SameEntry(cs, b, data, tags, x, y, w - 26);
    } else if w < FieldsAt(cs) {
      SameTags(cs, b, data, tags, x, y, w - 26 - |cs|);
    } else if w < MrefsAt(cs, b) {
      SameMembers(env, cs, t, b, codes, data, tags, x, y, w);
    } else if w < TableEnd(cs, b) {
      SameDescriptors(env, cs, t, b, codes, data, tags, x, y, w);
    }
  }

  lemma SaysParts(env: Env, cs: seq<Constant>, t: Tail, b: Body, codes: seq<seq<Option<Code>>>, x: seq<u16>)
    requires TableSays(env, cs, t, b, codes, x)
    ensures HeaderSays(env, cs, t, b, x) && (TableEnd(cs, b) % 2 == 1 ==> TableEnd(cs, b) < |x| && x[TableEnd(cs, b)] == 0)
  {
    hide FieldRecord, ClassWords, MethodRecord, SlotsTo, Members, MethodsAmong, StringsAmong, PointsToLast, SourceFileSays, Holds32,
         TableEnd;
  }

  lemma InOrder(cs: seq<Constant>, b: Body)
    ensures FieldsAt(cs) == 26 + |cs| + (|cs| + 1) / 2 && FieldsAt(cs) <= MrefsAt(cs, b) <= StringsAt(cs, b) <= TableEnd(cs, b)
  {
    hide Members, MethodsAmong, StringsAmong;
  }

  lemma TableSize(env: Env, cs: seq<Constant>, t: Tail, b: Body, x: seq<u16>)
    requires HeaderSays(env, cs, t, b, x)
    ensures |x| == TableEnd(cs, b) + TableEnd(cs, b) % 2
  {
    hide ClassWords, PointsToLast, SourceFileSays, Holds32, Members, MethodsAmong, StringsAmong, SlotsTo;
  }

  // ---- what the validator reads of it ------------------------------------

  lemma HeaderReads(env: Env, cs: seq<Constant>, t: Tail, b: Body, l: Link)
    requires Valid(l) && HeaderSays(env, cs, t, b, l.words)
    ensures CpCount(l) == |cs| && ClassLen(l) == |t.file|
    ensures MrefsOff(l) == MrefsAt(cs, b) && MrefsLen(l) == MethodsAmong(cs, |cs|)
    ensures StrsOff(l) == StringsAt(cs, b) && StrsLen(l) == StringsAmong(cs, |cs|)
  {
    hide ClassWords, PointsToLast, SourceFileSays, Holds32, Members, MethodsAmong, StringsAmong, SlotsTo, NewLink;
  }

  lemma TagIs(l: Link, n: nat, i: nat, tag: byte)
    requires Valid(l) && CpCount(l) == n && i < n && ClassSpec.TagByte(l.words, n, i, tag)
    ensures CpTag(l, i) == Some(tag)
  {
  }

  /** The kind of a constant is its tag's. */
  predicate KindIs(c: Constant, tag: byte) {
    && (c.ConstText? <==> tag == 1) && (c.ConstString? <==> tag == 8) && (c.ConstMethod? <==> tag == 10 || tag == 11)
  }

  lemma OffsetIs(l: Link, cs: seq<Constant>, b: Body, i: nat, tag: byte, data: nat)
    requires Valid(l) && CpCount(l) == |cs| && i < |cs| && CpTag(l, i) == Some(tag) && KindIs(cs[i], tag)
    requires MrefsOff(l) == MrefsAt(cs, b) && MrefsLen(l) == MethodsAmong(cs, |cs|)
    requires StrsOff(l) == StringsAt(cs, b) && StrsLen(l) == StringsAmong(cs, |cs|)
    requires EntryWords(cs, b, i, data, l.words)
    ensures CpOffset(l, i) == Some(if cs[i].ConstText? then l.words[26 + i] else data)
    ensures CpWordAt(l, i) == Some(l.words[26 + i])
  {
    hide MrefsAt, StringsAt, MethodsAmong, StringsAmong, NewLink, TakesParams, CpTag;
    AmongBelow(cs, i, |cs|);
  }

  /** Entry `i`, through the table. */
  ghost predicate EntryRead(cls: seq<byte>, l: Link, c: Constant, v: Visit)
    requires Valid(l) && v.index < CpCount(l)
  {
    && CpTag(l, v.index) == Some(v.tag) && CpOffset(l, v.index).Some? && Linking.CheckVisit(l, v).Ok?
    && CpOffset(l, v.index).value < 0x1_0000
    && (v.tag != 1 ==> CpOffset(l, v.index) == Some(v.off)) && (c.ConstText? <==> v.tag == 1)
    && (c.ConstText? ==> PoolUtf8(l.pool, CpOffset(l, v.index).value) == Some(c.bytes)
                         && CpOffset(l, v.index) == Some(l.words[26 + v.index]))
  }

  lemma EntryKind(cls: seq<byte>, e: Entry, c: Constant)
    requires e.at < |cls| && cls[e.at] != 1 && Says(cls, e, c)
    ensures KindIs(c, cls[e.at])
  {
  }

  lemma PoolHeld(pool: seq<byte>, ref: nat, bytes: seq<byte>)
    requires PoolHolds(pool, ref, bytes)
    ensures PoolUtf8(pool, ref) == Some(bytes)
  {
  }

  lemma EntryIsRead(cls: seq<byte>, l: Link, cs: seq<Constant>, b: Body, e: Entry)
    requires |cls| <= 65535 && Valid(l) && CpCount(l) == |cs| && e.at < |cls| && e.index < |cs|
    requires MrefsOff(l) == MrefsAt(cs, b) && MrefsLen(l) == MethodsAmong(cs, |cs|)
    requires StrsOff(l) == StringsAt(cs, b) && StrsLen(l) == StringsAmong(cs, |cs|)
    requires 26 + e.index < |l.words| && ClassSpec.TagByte(l.words, |cs|, e.index, cls[e.at])
    requires if cls[e.at] == 1 then cs[e.index].ConstText? && PoolHolds(l.pool, l.words[26 + e.index], cs[e.index].bytes)
             else Says(cls, e, cs[e.index])
    requires EntryWords(cs, b, e.index, e.at + 1, l.words)
    ensures EntryRead(cls, l, cs[e.index], Visit(e.index, cls[e.at], e.at + 1))
  {
    hide MrefsAt, StringsAt, MethodsAmong, StringsAmong, NewLink, EntryWords, ClassSpec.TagByte, Says, PoolHolds, PoolUtf8, CpTag,
         CpOffset, CpWordAt;
    TagIs(l, |cs|, e.index, cls[e.at]);
    if cls[e.at] != 1 {
      EntryKind(cls, e, cs[e.index]);
    } else {
      PoolHeld(l.pool, l.words[26 + e.index], cs[e.index].bytes);
    }
    OffsetIs(l, cs, b, e.index, cls[e.at], e.at + 1);
  }

  lemma NothingIsRead(cls: seq<byte>, l: Link, cs: seq<Constant>, b: Body, i: nat)
    requires Valid(l) && CpCount(l) == |cs| && i < |cs| && cs[i] == ConstOther
    requires MrefsOff(l) == MrefsAt(cs, b) && MrefsLen(l) == MethodsAmong(cs, |cs|)
    requires StrsOff(l) == StringsAt(cs, b) && StrsLen(l) == StringsAmong(cs, |cs|)
    requires EntryWords(cs, b, i, 0, l.words) && ClassSpec.TagByte(l.words, |cs|, i, 0)
    ensures EntryRead(cls, l, cs[i], Visit(i, 0, 0))
  {
    hide MrefsAt, StringsAt, MethodsAmong, StringsAmong, NewLink, EntryWords, ClassSpec.TagByte, CpTag, CpOffset, CpWordAt;
    TagIs(l, |cs|, i, 0);
    OffsetIs(l, cs, b, i, 0, 0);
  }

  /** Every entry is read as the format reads it. */
  lemma EntriesRead(env: Env, cls: seq<byte>, l: Link, entries: seq<Entry>, end: nat, cs: seq<Constant>, b: Body,
                    codes: seq<seq<Option<Code>>>, visits: seq<Visit>)
    requires Valid(l) && TableOf(env, cls, l, entries, end, cs, b, codes) && Visited(cls, entries, visits, |cs|) && |cs| > 0
    ensures CpCount(l) == |cs| == |visits| && ClassLen(l) == |cls|
    ensures forall i | 0 <= i < |cs| :: visits[i].index == i && EntryRead(cls, l, cs[i], visits[i])
  {
    hide PoolLies, Linkable, EntryWords, ClassSpec.TagByte, Says, PoolHolds, EntryRead, HeaderSays, FieldRecord, ClassWords,
         MethodRecord, SlotsTo, Members, TableEnd, NewLink, LastTagAlone, MethodsAmong, StringsAmong, MrefsAt, StringsAt;
    HeaderReads(env, cs, Tail(cls, end), b, l);
    forall i | 0 <= i < |cs|
      ensures visits[i].index == i && EntryRead(cls, l, cs[i], visits[i])
    {
      if e :| e in entries && e.index == i {
        EntryIsRead(cls, l, cs, b, e);
      } else {
        NothingIsRead(cls, l, cs, b, i);
      }
    }
  }

  lemma ShownFrom(cls: seq<byte>, cp: CpView, e: Entry, c: Constant)
    requires |cls| <= 65535 && e.at < |cls| && e.index < |cp.tags| == |cp.offsets|
    requires cls[e.at] != 1 && Says(cls, e, c)
    requires cp.tags[e.index] == cls[e.at] && cp.offsets[e.index] == Some(e.at + 1)
    ensures ShowsEntry(cls, cp, e.index, c)
  {
    if c != ConstOther {
      EntryFits(cls, e, c);
    }
  }

  lemma EntryFits(cls: seq<byte>, e: Entry, c: Constant)
    requires e.at < |cls| && cls[e.at] != 1 && Says(cls, e, c) && c != ConstOther
    ensures e.at + 1 < |cls|
  {
  }

  /** The table shows the derivation the constants of the class file. */
  lemma ViewIsShown(env: Env, cls: seq<byte>, l: Link, entries: seq<Entry>, end: nat, cs: seq<Constant>, b: Body,
                    codes: seq<seq<Option<Code>>>, visits: seq<Visit>)
    requires Valid(l) && TableOf(env, cls, l, entries, end, cs, b, codes) && Visited(cls, entries, visits, |cs|) && |cs| > 0
    requires CpCount(l) == |cs| == |visits|
    requires forall i | 0 <= i < |cs| :: visits[i].index == i && EntryRead(cls, l, cs[i], visits[i])
    ensures Shows(cls, LinkView(l), cs)
  {
    hide PoolLies, Linkable, TableSays, EntriesSay, Says, PoolHolds, HeaderSays, NewLink, CpTag, CpOffset, CpWordAt, PoolUtf8;
    var cp := LinkView(l);
    forall i | 0 <= i < |cs|
      ensures ShowsEntry(cls, cp, i, cs[i])
    {
      assert EntryRead(cls, l, cs[i], visits[i]);
      assert cp.tags[i] == visits[i].tag && cp.offsets[i] == CpOffset(l, i);
      if e :| e in entries && e.index == i {
        if cls[e.at] != 1 {
          ShownFrom(cls, cp, e, cs[i]);
        }
      }
    }
  }

  /** The table the builder's sink would write of a derivation. */
  lemma Written(env: Env, cls: seq<byte>, cp: CpView, n: Counts, l: Layout) returns (table: seq<u16>)
    requires NewLayout(n) == Ok(l) && DeriveTable(env, cls, cp, n, l).outcome.Ok?
    ensures |table| == l.totalWords && Sinks.Agrees(table, DeriveTable(env, cls, cp, n, l).puts)
    ensures |DeriveTable(env, cls, cp, n, l).puts| == l.totalWords
  {
    hide DeriveTable, NewLayout;
    var puts := DeriveTable(env, cls, cp, n, l).puts;
    Coverage.DerivesOncePerWord(env, cls, cp, n, l);
    Sinks.WritesStay(Linking.EmptyTable(l.totalWords), puts);
    table := Sinks.WritePuts(Linking.EmptyTable(l.totalWords), puts).value;
  }

  function DataOf(cp: CpView): seq<nat> {
    seq(|cp.offsets|, i requires 0 <= i < |cp.offsets| => if cp.offsets[i].Some? then cp.offsets[i].value else 0)
  }

  lemma ViewSaid(cs: seq<Constant>, b: Body, cp: CpView, words: seq<u16>)
    requires |cp.tags| == |cp.offsets| == |cs| && TextWords(cp, cs, words) && LastTagAlone(words, |cs|)
    requires forall i | 0 <= i < |cs| ::
      cp.offsets[i].Some? && EntryWords(cs, b, i, cp.offsets[i].value, words) && ClassSpec.TagByte(words, |cs|, i, cp.tags[i])
    ensures EachSaid(cs, b, DataOf(cp), cp.tags, words)
  {
    hide ClassSpec.TagByte, LastTagAlone, MrefRecord, MrefsAt, StringsAt, MethodsAmong, StringsAmong;
    forall i | 0 <= i < |cs|
      ensures EntryWords(cs, b, i, DataOf(cp)[i], words) && ClassSpec.TagByte(words, |cs|, i, cp.tags[i])
      ensures cs[i].ConstText? ==> words[26 + i] == DataOf(cp)[i]
    {
      assert EntryWords(cs, b, i, cp.offsets[i].value, words);
    }
  }

  /** The same of the table itself. */
  lemma TableSaid(env: Env, cls: seq<byte>, l: Link, entries: seq<Entry>, end: nat, cs: seq<Constant>, b: Body,
                  codes: seq<seq<Option<Code>>>, visits: seq<Visit>)
    requires Valid(l) && TableOf(env, cls, l, entries, end, cs, b, codes) && Visited(cls, entries, visits, |cs|) && |cs| > 0
    requires CpCount(l) == |cs| == |visits|
    requires forall i | 0 <= i < |cs| :: visits[i].index == i && EntryRead(cls, l, cs[i], visits[i])
    ensures EachSaid(cs, b, DataOf(LinkView(l)), LinkView(l).tags, l.words)
  {
    hide PoolLies, Linkable, TableSays, Says, PoolHolds, ClassSpec.TagByte, HeaderSays, NewLink, CpTag, CpOffset, CpWordAt, PoolUtf8,
         LastTagAlone, EntryWords, Linking.CheckVisit;
    var cp := LinkView(l);
    var data := DataOf(cp);
    forall i | 0 <= i < |cs|
      ensures EntryWords(cs, b, i, data[i], l.words) && ClassSpec.TagByte(l.words, |cs|, i, cp.tags[i])
      ensures cs[i].ConstText? ==> l.words[26 + i] == data[i]
    {
      assert EntryRead(cls, l, cs[i], visits[i]);
      assert cp.tags[i] == visits[i].tag && cp.offsets[i] == CpOffset(l, i);
      if e :| e in entries && e.index == i {
        if cs[i].ConstText? {
          TextAnywhere(cs, b, i, e.at + 1, data[i], l.words);
        }
      }
    }
  }

  lemma TextAnywhere(cs: seq<Constant>, b: Body, i: nat, data: nat, other: nat, words: seq<u16>)
    requires i < |cs| && cs[i].ConstText? && EntryWords(cs, b, i, data, words)
    ensures EntryWords(cs, b, i, other, words)
  {
  }

  lemma ExternalAlike(cls: seq<byte>, cp: CpView, cs: seq<Constant>, t: Tail, b: Body, w: nat)
    requires Shows(cls, cp, cs)
    ensures DeriveFacts.ExternalWord(CountsOf(cp, |cs|, t, b), LayoutOf(cs, b), w) <==> SectionWord(cs, b, w)
  {
    hide Shows, Members, MethodsAmong, StringsAmong, MrefsUpTo, StrsUpTo;
    MrefsCount(cls, cp, cs, |cs|);
  }

  lemma AgreesAsSaid(env: Env, cls: seq<byte>, cp: CpView, cs: seq<Constant>, t: Tail, b: Body, codes: seq<seq<Option<Code>>>,
                     n: Counts, lay: Layout, words: seq<u16>)
    requires t.file == cls && |cls| <= 65535 && Shows(cls, cp, cs) && Linkable(env, cs, t, b, codes)
    requires n == CountsOf(cp, |cs|, t, b) && lay == LayoutOf(cs, b) && NewLayout(n) == Ok(lay) && lay.totalWords <= 65535
    requires Survey(cls, cp, |cs|, t.base) == Ok(n) && DeriveTable(env, cls, cp, n, lay).outcome.Ok?
    requires TableSays(env, cs, t, b, codes, words) && EachSaid(cs, b, DataOf(cp), cp.tags, words)
    ensures Sinks.Agrees(words, DeriveTable(env, cls, cp, n, lay).puts) && |DeriveTable(env, cls, cp, n, lay).puts| == lay.totalWords
    ensures |words| == lay.totalWords
  {
    hide Shows, Linkable, DeriveTable, NewLayout, Survey, TableSays, EachSaid, LayoutOf, CountsOf, Sinks.Agrees, SectionWord,
         DeriveFacts.ExternalWord, TableEnd, EntryWords, ClassSpec.TagByte, DataOf, LastTagAlone, TextWords, DeriveFacts.Typed;
    var table := Written(env, cls, cp, n, lay);
    TableHeld(env, cp, cs, t, b, codes, n, lay, table);
    ViewSaid(cs, b, cp, table);
    var p := Linking.Plan(cp, n, lay);
    SizeSaid(env, cs, t, b, codes, words, lay);
    forall w | 0 <= w < |words| && !DeriveFacts.ExternalWord(n, lay, w)
      ensures words[w] == table[w]
    {
      ExternalAlike(cls, cp, cs, t, b, w);
      SameTable(env, cs, t, b, codes, DataOf(cp), cp.tags, words, table, w);
    }
    ShownIsFull(cls, cp, cs);
    ShownSize(cls, cp, cs);
    IsPrepared(cls, cp, cs, t, b, n, lay);
    DeriveFacts.DerivationTyped(env, cls, cp, n, lay);
    Linking.CopyAgrees(p, DeriveTable(env, cls, cp, n, lay).puts, table, words);
  }

  lemma IsPrepared(cls: seq<byte>, cp: CpView, cs: seq<Constant>, t: Tail, b: Body, n: Counts, lay: Layout)
    requires Shows(cls, cp, cs) && n == CountsOf(cp, |cs|, t, b)
    requires Survey(cls, cp, |cs|, t.base) == Ok(n) && NewLayout(n) == Ok(lay) && DeriveFacts.FullView(cp) && |cp.tags| == |cs|
    ensures DeriveFacts.Prepared(cls, cp, n, lay)
  {
    hide Shows, NewLayout, Survey;
  }

  lemma SizeSaid(env: Env, cs: seq<Constant>, t: Tail, b: Body, codes: seq<seq<Option<Code>>>, words: seq<u16>, lay: Layout)
    requires TableSays(env, cs, t, b, codes, words) && lay == LayoutOf(cs, b)
    ensures |words| == lay.totalWords
  {
    hide HeaderSays, TableSays, TableEnd;
    SaysParts(env, cs, t, b, codes, words);
    TableSize(env, cs, t, b, words);
    LayoutParts(cs, b, lay);
  }

  lemma WordsValidate(env: Env, l: Link, cls: seq<byte>, cpCount: nat, pos: nat, n: Counts, lay: Layout)
    requires Valid(l) && cpCount == CpCount(l) && Survey(cls, LinkView(l), cpCount, pos) == Ok(n) && NewLayout(n) == Ok(lay)
    requires lay.totalWords == |l.words| && DeriveTable(env, cls, LinkView(l), n, lay).outcome.Ok?
    requires Sinks.Agrees(l.words, DeriveTable(env, cls, LinkView(l), n, lay).puts)
    requires |DeriveTable(env, cls, LinkView(l), n, lay).puts| == lay.totalWords
    ensures Linking.ValidateWords(env, l, cls, cpCount, pos).Ok?
  {
    hide Survey, NewLayout, DeriveTable, LinkView, Sinks.Agrees, NewLink;
    Sinks.CheckMeansAgree(l.words, DeriveTable(env, cls, LinkView(l), n, lay).puts);
  }

  lemma LinkableHasPool(env: Env, cs: seq<Constant>, t: Tail, b: Body, codes: seq<seq<Option<Code>>>)
    requires Linkable(env, cs, t, b, codes)
    ensures |cs| > 0
  {
    hide BodyLies, TableEnd, ConstantLinks, FieldsLink, MethodLinks, AttrLinks, IsName;
  }

  /** A table that says what its class file says is accepted. */
  lemma SaidIsAccepted(env: Env, l: Link, cls: seq<byte>, entries: seq<Entry>, end: nat, cs: seq<Constant>, b: Body,
                       codes: seq<seq<Option<Code>>>)
    requires Valid(l) && TableOf(env, cls, l, entries, end, cs, b, codes)
    ensures Linking.ValidateLink(env, l, cls).Ok?
  {
    hide WalkCp, PoolLies, SaysPooled, Linkable, TableSays, EntriesSay, EntryRead, Shows, Derives, Survey, NewLayout, DeriveTable,
         EachSaid, LinkView, Visited, NewLink, ClassGrammar.EntryLies, LayoutOf, CountsOf, Linking.ValidateWords, Linking.CheckVisit;
    var t := Tail(cls, end);
    LinkableHasPool(env, cs, t, b, codes);
    assert PoolLies(cls, InPlace(Pooled), |cs|, entries, end);
    WalksExactly(cls, Pooled, |cs|, end);
    EntriesVisited(cls, Pooled, |cs|, entries, end);
    var visits := WalkCp(cls, Pooled).visits;
    EntriesRead(env, cls, l, entries, end, cs, b, codes, visits);
    VisitsPass(cls, l, cs, visits);
    ViewIsShown(env, cls, l, entries, end, cs, b, codes, visits);
    TableSaid(env, cls, l, entries, end, cs, b, codes, visits);
    var cp := LinkView(l);
    LinkableDerives(env, cp, cs, t, b, codes);
    var n, lay := CountsOf(cp, |cs|, t, b), LayoutOf(cs, b);
    DerivesAsSaid(env, cls, cp, cs, t, b, codes);
    AgreesAsSaid(env, cls, cp, cs, t, b, codes, n, lay, l.words);
    WordsValidate(env, l, cls, |cs|, end, n, lay);
    Linking.AcceptedByParts(env, l, cls, |cs|, end);
  }

  lemma VisitsPass(cls: seq<byte>, l: Link, cs: seq<Constant>, visits: seq<Visit>)
    requires Valid(l) && CpCount(l) == |cs| == |visits|
    requires forall i | 0 <= i < |cs| :: visits[i].index == i && EntryRead(cls, l, cs[i], visits[i])
    ensures Linking.CheckVisits(l, visits).Ok?
  {
    hide CpTag, CpOffset, NewLink, PoolUtf8, Linking.CheckVisit;
    forall k | 0 <= k < |visits|
      ensures Linking.CheckVisit(l, visits[k]).Ok?
    {
      assert EntryRead(cls, l, cs[k], visits[k]);
    }
    Linking.ShownVisitsCheck(l, visits);
  }

  lemma DerivesAsSaid(env: Env, cls: seq<byte>, cp: CpView, cs: seq<Constant>, t: Tail, b: Body, codes: seq<seq<Option<Code>>>)
    requires t.file == cls && Shows(cls, cp, cs) && Linkable(env, cs, t, b, codes)
    requires Derives(env, cls, cp, |cs|, t.base) && Survey(cls, cp, |cs|, t.base) == Ok(CountsOf(cp, |cs|, t, b))
    ensures var n, lay := CountsOf(cp, |cs|, t, b), LayoutOf(cs, b);
      NewLayout(n) == Ok(lay) && lay.totalWords <= 65535 && DeriveTable(env, cls, cp, n, lay).outcome.Ok?
  {
    hide Shows, Linkable, Survey, NewLayout, DeriveTable, LayoutOf, CountsOf;
    LayoutIs(cp, cs, t, b);
    LinkableEnds(env, cs, t, b, codes);
    LayoutNamed(cs, b, NewLayout(CountsOf(cp, |cs|, t, b)).value);
    LayoutParts(cs, b, LayoutOf(cs, b));
  }

  /** The theorem: the validator accepts exactly the tables that say of their
      class files what the class file format says of them. */
  lemma AcceptsExactlyWhatTheClassSays(env: Env, l: Link, cls: seq<byte>)
    requires Valid(l)
    ensures Linking.ValidateLink(env, l, cls).Ok? <==>
      exists entries, end, cs, b, codes :: TableOf(env, cls, l, entries, end, cs, b, codes)
  {
    hide TableOf, Linking.ValidateLink;
    if Linking.ValidateLink(env, l, cls).Ok? {
      var entries, end, cs, b, codes := AcceptedSaysTheClass(env, l, cls);
    }
    if entries, end, cs, b, codes :| TableOf(env, cls, l, entries, end, cs, b, codes) {
      SaidIsAccepted(env, l, cls, entries, end, cs, b, codes);
    }
  }
}
