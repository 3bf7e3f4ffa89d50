/** Words the section fills into a linked table leave everything else a reader
    sees of it unchanged. */
module ExternalWords {
  import opened Bytes
  import opened ClassFile
  import opened LinkTable
  import opened Linking

  /** What two tables of one class agree on, whatever the section wrote. */
  ghost predicate SameShown(a: Link, b: Link)
    requires Valid(a) && Valid(b)
  {
    && a.pool == b.pool
    && CpCount(a) == CpCount(b) && ClassLen(a) == ClassLen(b)
    && StrsOff(a) == StrsOff(b) && StrsLen(a) == StrsLen(b) && MrefsOff(a) == MrefsOff(b)
    && NameRefOf(a) == NameRefOf(b) && SuperRefOf(a) == SuperRefOf(b)
    && NameHash(a) == NameHash(b) && SuperHash(a) == SuperHash(b)
  }

  lemma HeaderSame(words: seq<u16>, table: seq<u16>, pool: seq<byte>)
    requires Valid(Link(table, pool)) && SameButExternal(words, table)
    ensures Valid(Link(words, pool)) && SameShown(Link(words, pool), Link(table, pool))
  {
    forall w: nat | w < 22
      ensures words[w] == table[w]
    {
      assert !External(Link(table, []), w);
    }
  }

  lemma EntrySame(words: seq<u16>, table: seq<u16>, pool: seq<byte>, i: nat)
    requires Valid(Link(table, pool)) && SameButExternal(words, table)
    ensures Valid(Link(words, pool))
    ensures CpTag(Link(words, pool), i) == CpTag(Link(table, pool), i)
    ensures CpWordAt(Link(words, pool), i) == CpWordAt(Link(table, pool), i)
  {
    HeaderSame(words, table, pool);
    var l := Link(table, pool);
    if i < CpCount(l) {
      assert !External(Link(table, []), HEADER_WORDS + i);
      assert !External(Link(table, []), HEADER_WORDS + CpCount(l) + i / 2);
    }
  }

  lemma StringOffSame(words: seq<u16>, table: seq<u16>, pool: seq<byte>, k: nat)
    requires Valid(Link(table, pool)) && SameButExternal(words, table) && k < StrsLen(Link(table, pool))
    ensures Valid(Link(words, pool)) && k < StrsLen(Link(words, pool))
    ensures StringDescAt(Link(words, pool), k).cpOff == StringDescAt(Link(table, pool), k).cpOff
  {
    HeaderSame(words, table, pool);
    assert !External(Link(table, []), StrsOff(Link(table, pool)) + 2 * k);
  }

  lemma ExternalSame(words: seq<u16>, table: seq<u16>, pool: seq<byte>, w: nat)
    requires Valid(Link(table, pool)) && SameButExternal(words, table)
    ensures External(Link(words, []), w) <==> External(Link(table, []), w)
  {
    HeaderSame(words, table, pool);
  }

  lemma SameTrans(a: seq<u16>, b: seq<u16>, c: seq<u16>, pool: seq<byte>)
    requires Valid(Link(c, pool)) && SameButExternal(b, c) && SameButExternal(a, b)
    ensures SameButExternal(a, c)
  {
    forall w | 0 <= w < |a| && !External(Link(c, []), w)
      ensures a[w] == c[w]
    {
      ExternalSame(b, c, pool, w);
    }
  }

  lemma PatchSame(words: seq<u16>, w: nat, v: u16)
    requires |words| >= HEADER_WORDS && w < |words| && External(Link(words, []), w)
    ensures SameButExternal(words[w := v], words)
  {
  }
}
