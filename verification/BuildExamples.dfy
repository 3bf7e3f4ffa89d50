/** Consequences of `BuildsExactly`: expecting the names the files have changes
    nothing, and a minimal class builds. */
module BuildExamples {
  import opened BuildExact
  import opened BuildSpec
  import opened Bytes
  import opened ClassGrammar
  import opened ClassSpec
  import opened SectionBuild
  import OwnNames

  /** A build that expects the classes' own names has the verdict of one that
      expects none. */
  lemma ExpectingOwnNames(env: Env, classes: seq<seq<byte>>, names: seq<seq<byte>>)
    requires |names| == |classes| && forall i | 0 <= i < |classes| :: OwnNames.OwnName(classes[i]) == Some(names[i])
    ensures BuildSection(env, classes, Some(names)).Ok? <==> BuildSection(env, classes, None).Ok?
  {
    hide BuildSection, ReadsAs, PoolFits, HashesDiffer, Circle, LiteralsFit, OwnNames.OwnName, NameIn;
    BuildsExactly(env, classes, None);
    BuildsExactly(env, classes, Some(names));
    if rs :| Buildable(env, classes, None, rs) {
      forall i | 0 <= i < |rs|
        ensures NameIn(rs[i]) == Some(names[i])
      {
        ReadingNames(env, classes[i], rs[i]);
      }
      assert Buildable(env, classes, Some(names), rs);
    }
    if rs :| Buildable(env, classes, Some(names), rs) {
      assert Buildable(env, classes, None, rs);
    }
  }

  // ---- a minimal class ---------------------------------------------------

  const OBJECT: seq<byte> := // java/lang/Object
    [0x6a, 0x61, 0x76, 0x61, 0x2f, 0x6c, 0x61, 0x6e, 0x67, 0x2f, 0x4f, 0x62, 0x6a, 0x65, 0x63, 0x74]

  const FRONT: seq<byte> := [0xca, 0xfe, 0xba, 0xbe, 0, 0, 0, 0x34, 0, 5, 7, 0, 2, 1]
  const MIDDLE: seq<byte> := [7, 0, 4, 1, 0, 16]
  const BACK: seq<byte> := [0, 0x21, 0, 1, 0, 3, 0, 0, 0, 0, 0, 0, 0, 0]

  /** `minimal_class`: a public class that extends `java/lang/Object`, empty. */
  function MinimalClass(name: seq<byte>): seq<byte>
    requires |name| <= 65483
  {
    FRONT + [|name| / 0x100, |name| % 0x100] + name + MIDDLE + OBJECT + BACK
  }

  lemma MinimalBytes(name: seq<byte>)
    requires |name| <= 65483
    ensures var cls, m := MinimalClass(name), 16 + |name|;
      && |cls| == m + 36 <= 65535
      && cls[..14] == FRONT && cls[14] as int * 0x100 + cls[15] == |name| && cls[16..m] == name
      && cls[m..m + 6] == MIDDLE && cls[m + 6..m + 22] == OBJECT && cls[m + 22..] == BACK
  {
  }

  function MinimalReading(n: nat, name: seq<byte>): Reading {
    var m := 16 + n;
    Reading([Entry(1, 10, 13), Entry(2, 13, m), Entry(3, m, m + 3), Entry(4, m + 3, m + 22)], m + 22,
            [ConstOther, ConstClass(2), ConstText(name), ConstClass(4), ConstText(OBJECT)],
            Body(0x21, 1, 3, [], [], 10, [], 12, [], 14), [])
  }

  /** The bytes that say which entry is which. */
  lemma MinimalItems(name: seq<byte>)
    requires |name| <= 65483
    ensures var cls, m := MinimalClass(name), 16 + |name|;
      && |cls| == m + 36
      && cls[..4] == [0xca, 0xfe, 0xba, 0xbe] && Be16(cls, 8) == Some(5)
      && cls[10] == 7 && Be16(cls, 11) == Some(2) && cls[13] == 1 && Be16(cls, 14) == Some(|name|)
      && cls[m] == 7 && Be16(cls, m + 1) == Some(4) && cls[m + 3] == 1 && Be16(cls, m + 4) == Some(16)
  {
    var cls, m := MinimalClass(name), 16 + |name|;
    MinimalBytes(name);
    var front, middle := cls[..14], cls[m..m + 6];
    assert front[8] == cls[8] && front[9] == cls[9] && front[10] == cls[10] && front[11] == cls[11] && front[12] == cls[12];
    assert front[13] == cls[13] && cls[..4] == front[..4];
    assert middle[0] == cls[m] && middle[1] == cls[m + 1] && middle[2] == cls[m + 2] && middle[3] == cls[m + 3];
    assert middle[4] == cls[m + 4] && middle[5] == cls[m + 5];
  }

  lemma MinimalPool(name: seq<byte>)
    requires |name| <= 65483
    ensures var r := MinimalReading(|name|, name); PoolLies(MinimalClass(name), true, 5, r.entries, r.end)
  {
    hide MinimalClass, Be16, Chain;
    MinimalItems(name);
    MinimalChain(MinimalClass(name), 16 + |name|, MinimalReading(|name|, name).entries);
  }

  lemma MinimalSays(name: seq<byte>)
    requires |name| <= 65483
    ensures var r := MinimalReading(|name|, name); SaysAll(MinimalClass(name), r.entries, 5, r.cs)
  {
    hide MinimalClass, Be16;
    MinimalItems(name);
    var m, r := 16 + |name|, MinimalReading(|name|, name);
    MinimalStrings(name);
    assert r.entries[0] in r.entries && r.entries[1] in r.entries && r.entries[2] in r.entries && r.entries[3] in r.entries;
  }

  lemma MinimalStrings(name: seq<byte>)
    requires |name| <= 65483
    ensures var cls, m := MinimalClass(name), 16 + |name|; |cls| == m + 36 && cls[16..m] == name && cls[m + 6..m + 22] == OBJECT
  {
    MinimalBytes(name);
  }

  lemma MinimalChain(cls: seq<byte>, m: nat, entries: seq<Entry>)
    requires |cls| == m + 36 && m >= 16 && cls[10] == 7 && cls[13] == 1 && Be16(cls, 14) == Some(m - 16)
    requires cls[m] == 7 && cls[m + 3] == 1 && Be16(cls, m + 4) == Some(16)
    requires entries == [Entry(1, 10, 13), Entry(2, 13, m), Entry(3, m, m + 3), Entry(4, m + 3, m + 22)]
    ensures Chain(cls, true, 5, entries, 1, 10, 5, m + 22)
  {
    assert Sum([2]) == 2;
    assert Chain(cls, true, 5, entries[4..], 5, m + 22, 5, m + 22);
    assert Chain(cls, true, 5, entries[3..], 4, m + 3, 5, m + 22);
    assert Chain(cls, true, 5, entries[2..], 3, m, 5, m + 22);
    assert Chain(cls, true, 5, entries[1..], 2, 13, 5, m + 22);
  }

  lemma MinimalTail(name: seq<byte>)
    requires |name| <= 65483
    ensures var r := MinimalReading(|name|, name); BodyLies(Tail(MinimalClass(name), r.end), r.body)
  {
    var cls, at := MinimalClass(name), 38 + |name|;
    MinimalBytes(name);
    var back := cls[at..];
    assert back == BACK && |back| == 14;
    EmptyBody(Tail(cls, at), back);
  }

  lemma EmptyBody(t: Tail, back: seq<byte>)
    requires t.base <= |t.file| && t.file[t.base..] == back && back == BACK
    ensures BodyLies(t, Body(0x21, 1, 3, [], [], 10, [], 12, [], 14))
  {
    WordAt(t, back, 0);
    WordAt(t, back, 2);
    WordAt(t, back, 4);
    WordAt(t, back, 6);
    WordAt(t, back, 8);
    WordAt(t, back, 10);
    WordAt(t, back, 12);
  }

  lemma WordAt(t: Tail, back: seq<byte>, p: nat)
    requires t.base <= |t.file| && t.file[t.base..] == back && p + 2 <= |back|
    ensures U16(t, p) == Some(back[p] as int * 0x100 + back[p + 1])
  {
    assert back[p] == t.file[t.base + p] && back[p + 1] == t.file[t.base + (p + 1)];
  }

  lemma MinimalLinks(env: Env, name: seq<byte>)
    requires 0 < |name| <= 65483 && env.isUtf8(name) && env.isUtf8(OBJECT)
    ensures ReadsAs(env, MinimalClass(name), MinimalReading(|name|, name))
  {
    hide PoolLies, SaysAll, BodyLies;
    MinimalBytes(name);
    MinimalPool(name);
    MinimalSays(name);
    MinimalTail(name);
    MinimalFits(MinimalReading(|name|, name));
  }

  lemma MinimalFits(r: Reading)
    requires |r.cs| == 5 && r.body == Body(0x21, 1, 3, [], [], 10, [], 12, [], 14)
    requires forall c | c in r.cs :: !c.ConstMethod? && !c.ConstString?
    ensures TableEnd(r.cs, r.body) == 34
  {
    var cs := r.cs;
    assert cs[0] in cs && cs[1] in cs && cs[2] in cs && cs[3] in cs && cs[4] in cs;
    assert MethodsAmong(cs, 1) == 0 && MethodsAmong(cs, 2) == 0 && MethodsAmong(cs, 3) == 0 && MethodsAmong(cs, 4) == 0;
    assert StringsAmong(cs, 1) == 0 && StringsAmong(cs, 2) == 0 && StringsAmong(cs, 3) == 0 && StringsAmong(cs, 4) == 0;
  }

  lemma MinimalPoolFits(r: Reading, name: seq<byte>)
    requires 0 < |name| <= 65483 && name != OBJECT
    requires r.cs == [ConstOther, ConstClass(2), ConstText(name), ConstClass(4), ConstText(OBJECT)]
    ensures PoolFits([r], [[], name, OBJECT])
  {
    var strings: seq<seq<byte>> := [[], name, OBJECT];
    assert strings[1..] == [name, OBJECT] && strings[2..] == [OBJECT] && strings[3..] == [];
    assert strings[1..][1..] == strings[2..] && strings[2..][1..] == strings[3..];
    assert PoolSize(strings[2..]) == 20;
    assert PoolSize(strings[1..]) == (2 + |name| + 3) / 4 * 4 + 20;
    assert r.cs[2] == ConstText(name) && r.cs[4] == ConstText(OBJECT);
    forall s
      ensures s in strings <==> s == [] || exists x | x in [r] :: HasText(x.cs, s)
    {
      assert HasText(r.cs, s) <==> s == name || s == OBJECT;
      assert r in [r];
      assert strings[0] == [] && strings[1] == name && strings[2] == OBJECT;
    }
  }

  lemma NoCircle(r: Reading, way: seq<nat>)
    requires SuperIn(r) != NameIn(r)
    ensures !Circle([r], way)
  {
    if |way| >= 2 && way[0] == 0 && way[1] == 0 {
      assert [r][way[0]] == r && [r][way[0 + 1]] == r;
    }
  }

  /** A minimal class builds, whatever is hashed how, unless it is to be its own
      superclass. */
  lemma MinimalClassBuilds(env: Env, name: seq<byte>)
    requires 0 < |name| <= 65483 && env.isUtf8(name) && env.isUtf8(OBJECT) && name != OBJECT
    ensures BuildSection(env, [MinimalClass(name)], None).Ok?
  {
    hide BuildSection, ReadsAs;
    var r := MinimalReading(|name|, name);
    MinimalLinks(env, name);
    MinimalPoolFits(r, name);
    assert LiteralsFit([r], []);
    forall way
      ensures !Circle([r], way)
    {
      NoCircle(r, way);
    }
    assert Buildable(env, [MinimalClass(name)], None, [r]);
    BuildsExactly(env, [MinimalClass(name)], None);
  }
}
