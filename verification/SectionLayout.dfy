/** A section laid out reads back: every offset the header, the directory and
    the rows give finds the bytes it was written for. */
module SectionLayout {
  import opened Bytes
  import opened ClassFile
  import opened Regions
  import opened Section
  import opened SectionBuild
  import opened Utf8Pool

  /** The sizes every assembled set keeps. */
  ghost predicate Sized(p: Parts) {
    && Tabled(p) && Fits32(p)
    && |p.index| == |p.classes| <= MAX_CLASSES
    && |p.rows| <= MAX_LITERALS
    && 4 <= |p.pool| <= MAX_POOL_BYTES && |p.pool| % 4 == 0
  }

  /** What `parse` makes of the bytes. */
  function SectionOf(env: Env, p: Parts): ClassSection
    requires Tabled(p) && Fits32(p)
  {
    ClassSection(SectionBytes(env, p), |p.classes|, IndexOff(p), |p.rows|, PoolStart(p), |p.pool|)
  }

  // ---- where the regions lie ---------------------------------------------

  lemma RecordAligned(p: Parts, i: nat)
    requires Tabled(p) && i < |p.classes|
    ensures RecordLen(p, i) % 4 == 0
  {
    SumAligned(Align4(|p.classes[i]|), Align4(2 * |p.tables[i]|));
  }

  lemma DirectoryAligned(n: nat)
    ensures (16 + 8 * n) % 4 == 0
  {
    assert 16 + 8 * n == 4 * (4 + 2 * n);
  }

  lemma {:induction false} ClassOffAligned(p: Parts, i: nat)
    requires Tabled(p) && i <= |p.classes|
    ensures ClassOff(p, i) % 4 == 0 && SECTION_HEADER_LEN + 8 * |p.classes| <= ClassOff(p, i)
    decreases i
  {
    if i == 0 {
      DirectoryAligned(|p.classes|);
    } else {
      ClassOffAligned(p, i - 1);
      RecordAligned(p, i - 1);
      SumAligned(ClassOff(p, i - 1), RecordLen(p, i - 1));
    }
  }

  lemma RecordSize(p: Parts, i: nat)
    requires Tabled(p) && Fits32(p) && i < |p.classes|
    ensures |Record(p, i)| == RecordLen(p, i)
  {
  }

  lemma {:induction false} RecordStarts(p: Parts, i: nat)
    requires Tabled(p) && Fits32(p) && i <= |p.classes|
    ensures Start(Records(p), i) == ClassOff(p, i) - ClassOff(p, 0)
    decreases i
  {
    if i == 0 {
      assert Records(p)[..0] == [];
    } else {
      var records := Records(p);
      RecordStarts(p, i - 1);
      StartStep(records, i - 1);
      RecordSize(p, i - 1);
    }
  }

  lemma RegionSizes(env: Env, p: Parts)
    requires Sized(p)
    ensures |Flat(Directory(p))| == 8 * |p.classes|
    ensures |Flat(Records(p))| == ClassOff(p, |p.classes|) - ClassOff(p, 0)
    ensures |Flat(IndexBytes(p))| == 8 * |p.classes|
    ensures |Flat(LiteralBytes(env, p))| == 12 * |p.rows|
  {
    EvenLength(Directory(p), 8);
    EvenLength(IndexBytes(p), 8);
    EvenLength(LiteralBytes(env, p), 12);
    RecordStarts(p, |p.classes|);
    assert Records(p)[..|p.classes|] == Records(p);
  }

  function RegionStart(p: Parts, k: nat): nat
    requires Tabled(p) && k <= 8
  {
    match k
    case 0 => 0
    case 1 => SECTION_HEADER_LEN
    case 2 => ClassOff(p, 0)
    case 3 => ClassOff(p, |p.classes|)
    case 4 => IndexOff(p)
    case 5 => IndexOff(p) + 8 * |p.index|
    case 6 => IndexOff(p) + 8 * |p.index| + 4
    case 7 => PoolStart(p)
    case 8 => PoolStart(p) + |p.pool|
  }

  lemma RegionLens(env: Env, p: Parts)
    requires Sized(p)
    ensures var r := RegionsOf(env, p);
      && |r| == 8 && |r[0]| == 16 && |r[1]| == 8 * |p.classes|
      && |r[2]| == ClassOff(p, |p.classes|) - ClassOff(p, 0) && |r[3]| == IndexOff(p) - ClassOff(p, |p.classes|)
      && |r[4]| == 8 * |p.index| && |r[5]| == 4 && |r[6]| == 12 * |p.rows| && r[7] == p.pool
  {
    var r := RegionsOf(env, p);
    RegionSizes(env, p);
    assert r[1] == Flat(Directory(p)) && r[2] == Flat(Records(p)) && r[4] == Flat(IndexBytes(p)) && r[6] == Flat(LiteralBytes(env, p));
    assert r[0] == HeaderBytes(p) && r[3] == Zeros(IndexOff(p) - ClassOff(p, |p.classes|)) && r[5] == Le32Bytes(|p.rows|);
  }

  lemma RegionFills(env: Env, p: Parts, k: nat)
    requires Sized(p) && k < 8
    ensures RegionStart(p, k + 1) == RegionStart(p, k) + |RegionsOf(env, p)[k]|
  {
    RegionLens(env, p);
    match k {
      case 0 =>
      case 1 =>
      case 2 =>
      case 3 =>
      case 4 =>
      case 5 =>
      case 6 =>
      case 7 =>
    }
  }

  lemma {:induction false} RegionStarts(env: Env, p: Parts, k: nat)
    requires Sized(p) && k <= 8
    ensures Start(RegionsOf(env, p), k) == RegionStart(p, k)
    decreases k
  {
    var parts := RegionsOf(env, p);
    if k == 0 {
      assert parts[..0] == [];
    } else {
      RegionStarts(env, p, k - 1);
      StartStep(parts, k - 1);
      RegionFills(env, p, k - 1);
    }
  }

  lemma SectionSize(env: Env, p: Parts)
    requires Sized(p)
    ensures |SectionBytes(env, p)| == PoolStart(p) + |p.pool|
  {
    RegionStarts(env, p, 8);
    assert RegionsOf(env, p)[..8] == RegionsOf(env, p);
  }

  /** Region `k` lies where it should. */
  lemma RegionLies(env: Env, p: Parts, k: nat)
    requires Sized(p) && k < 8
    ensures LiesAt(SectionBytes(env, p), RegionStart(p, k), RegionsOf(env, p)[k])
  {
    RegionStarts(env, p, k);
    PartLies(RegionsOf(env, p), k);
  }

  lemma RegionsLie(env: Env, p: Parts)
    requires Sized(p)
    ensures var d := SectionBytes(env, p);
      && LiesAt(d, 0, HeaderBytes(p)) && LiesAt(d, SECTION_HEADER_LEN, Flat(Directory(p)))
      && LiesAt(d, ClassOff(p, 0), Flat(Records(p))) && LiesAt(d, IndexOff(p), Flat(IndexBytes(p)))
      && LiesAt(d, IndexOff(p) + 8 * |p.index|, Le32Bytes(|p.rows|))
      && LiesAt(d, IndexOff(p) + 8 * |p.index| + 4, Flat(LiteralBytes(env, p)))
      && LiesAt(d, PoolStart(p), p.pool)
  {
    var r := RegionsOf(env, p);
    assert r[0] == HeaderBytes(p) && r[1] == Flat(Directory(p)) && r[2] == Flat(Records(p));
    FrontLies(env, p, r);
    assert r[4] == Flat(IndexBytes(p)) && r[5] == Le32Bytes(|p.rows|) && r[6] == Flat(LiteralBytes(env, p)) && r[7] == p.pool;
    TailLies(env, p, r);
  }

  lemma FrontLies(env: Env, p: Parts, r: seq<seq<byte>>)
    requires Sized(p) && r == RegionsOf(env, p)
    ensures |r| == 8
    ensures var d := SectionBytes(env, p);
      LiesAt(d, 0, r[0]) && LiesAt(d, SECTION_HEADER_LEN, r[1]) && LiesAt(d, ClassOff(p, 0), r[2])
  {
    RegionLies(env, p, 0);
    RegionLies(env, p, 1);
    RegionLies(env, p, 2);
  }

  lemma TailLies(env: Env, p: Parts, r: seq<seq<byte>>)
    requires Sized(p) && r == RegionsOf(env, p)
    ensures |r| == 8
    ensures var d, at := SectionBytes(env, p), IndexOff(p);
      && LiesAt(d, at, r[4]) && LiesAt(d, at + 8 * |p.index|, r[5]) && LiesAt(d, at + 8 * |p.index| + 4, r[6])
      && LiesAt(d, PoolStart(p), r[7])
  {
    RegionLies(env, p, 4);
    RegionLies(env, p, 5);
    RegionLies(env, p, 6);
    RegionLies(env, p, 7);
  }

  // ---- reading them ------------------------------------------------------

  /** Two little-endian words one after another. */
  lemma TwoLe32(d: seq<byte>, at: nat, a: u32, b: u32)
    requires at + 8 <= |d| && d[at..at + 8] == Le32Bytes(a) + Le32Bytes(b)
    ensures Le32(d, at) == Some(a) && Le32(d, at + 4) == Some(b)
  {
    SliceOfSlice(d, at, at + 8, 0, 4);
    SliceOfSlice(d, at, at + 8, 4, 8);
    Le32ReadsBack(d, at, a);
    Le32ReadsBack(d, at + 4, b);
  }

  lemma HeaderReads(env: Env, p: Parts)
    requires Sized(p)
    ensures var d := SectionBytes(env, p);
      && Le32(d, 0) == Some(|p.classes|) && Le32(d, 4) == Some(IndexOff(p))
      && Le32(d, 8) == Some(PoolStart(p)) && Le32(d, 12) == Some(|p.pool|)
      && Le32(d, IndexOff(p) + 8 * |p.classes|) == Some(|p.rows|)
  {
    RegionsLie(env, p);
    HeaderWords(p, SectionBytes(env, p));
  }

  lemma HeaderWords(p: Parts, d: seq<byte>)
    requires Sized(p) && LiesAt(d, 0, HeaderBytes(p)) && LiesAt(d, IndexOff(p) + 8 * |p.index|, Le32Bytes(|p.rows|))
    ensures Le32(d, 0) == Some(|p.classes|) && Le32(d, 4) == Some(IndexOff(p))
    ensures Le32(d, 8) == Some(PoolStart(p)) && Le32(d, 12) == Some(|p.pool|)
    ensures Le32(d, IndexOff(p) + 8 * |p.classes|) == Some(|p.rows|)
  {
    FourLe32(d, |p.classes|, IndexOff(p), PoolStart(p), |p.pool|);
    WordLies(d, IndexOff(p) + 8 * |p.classes|, |p.rows|);
  }

  lemma WordLies(d: seq<byte>, at: nat, w: u32)
    requires LiesAt(d, at, Le32Bytes(w))
    ensures Le32(d, at) == Some(w)
  {
    Le32ReadsBack(d, at, w);
  }

  lemma FourLe32(d: seq<byte>, a: u32, b: u32, c: u32, e: u32)
    requires LiesAt(d, 0, Le32Bytes(a) + Le32Bytes(b) + Le32Bytes(c) + Le32Bytes(e))
    ensures Le32(d, 0) == Some(a) && Le32(d, 4) == Some(b) && Le32(d, 8) == Some(c) && Le32(d, 12) == Some(e)
  {
    var h := Le32Bytes(a) + Le32Bytes(b) + Le32Bytes(c) + Le32Bytes(e);
    assert |h| == 16 && d[0..16] == h;
    assert h[0..8] == Le32Bytes(a) + Le32Bytes(b) && h[8..16] == Le32Bytes(c) + Le32Bytes(e);
    SliceOfSlice(d, 0, 16, 0, 8);
    SliceOfSlice(d, 0, 16, 8, 16);
    TwoLe32(d, 0, a, b);
    TwoLe32(d, 8, c, e);
  }

  lemma LaidOutParsed(env: Env, p: Parts)
    requires Sized(p)
    ensures Parsed(SectionOf(env, p))
  {
    SectionSize(env, p);
    ClassOffAligned(p, |p.classes|);
    OffsetsAligned(p);
  }

  lemma OffsetsAligned(p: Parts)
    requires Tabled(p) && |p.index| == |p.classes|
    ensures IndexOff(p) % 4 == 0 && PoolStart(p) % 4 == 0
  {
    EightIsFour(IndexOff(p));
    FoursAfter(IndexOff(p), |p.index|, |p.rows|);
  }

  lemma EightIsFour(n: nat)
    requires n % 8 == 0
    ensures n % 4 == 0
  {
  }

  lemma FoursAfter(n: nat, a: nat, b: nat)
    requires n % 4 == 0
    ensures (n + 8 * a + 4 + 12 * b) % 4 == 0
  {
    var k := n / 4;
    assert n + 8 * a + 4 + 12 * b == 4 * (k + 2 * a + 1 + 3 * b);
  }

  /** What is laid out parses, at any aligned address. */
  lemma LaidOutParses(env: Env, p: Parts, addr: nat)
    requires Sized(p) && addr % 4 == 0
    ensures Parse(SectionBytes(env, p), addr) == Ok(SectionOf(env, p))
  {
    LaidOutParsed(env, p);
    HeaderReads(env, p);
    ParseExact(SectionBytes(env, p), addr, SectionOf(env, p));
  }

  lemma DirectoryReads(env: Env, p: Parts, i: nat)
    requires Sized(p) && i < |p.classes|
    ensures var d := SectionBytes(env, p);
      Le32(d, 16 + 8 * i) == Some(ClassOff(p, i)) && Le32(d, 16 + 8 * i + 4) == Some(LinkOff(p, i))
  {
    RegionsLie(env, p);
    DirectoryInData(SectionBytes(env, p), p, i, 16 + 8 * i);
  }

  lemma DirectoryInData(d: seq<byte>, p: Parts, i: nat, at: nat)
    requires Tabled(p) && Fits32(p) && i < |p.classes|
    requires LiesAt(d, 16, Flat(Directory(p))) && at == 16 + 8 * i
    ensures Le32(d, at) == Some(ClassOff(p, i)) && Le32(d, at + 4) == Some(LinkOff(p, i))
  {
    EvenPartInData(d, 16, Directory(p), 8, i, at);
    TwoLe32(d, at, ClassOff(p, i), LinkOff(p, i));
  }

  lemma RecordLies(env: Env, p: Parts, i: nat)
    requires Sized(p) && i < |p.classes|
    ensures LiesAt(SectionBytes(env, p), ClassOff(p, i), Record(p, i))
  {
    RegionsLie(env, p);
    RecordStarts(p, i);
    PartInData(SectionBytes(env, p), ClassOff(p, 0), Records(p), i, ClassOff(p, i));
  }

  lemma ClassReads(env: Env, p: Parts, i: nat)
    requires Sized(p) && i < |p.classes|
    ensures var d := SectionBytes(env, p);
      && Slice(d, ClassOff(p, i), |p.classes[i]|) == Some(p.classes[i])
      && LiesAt(d, LinkOff(p, i), WordBytes(PlacedTable(p, i)))
  {
    RecordLies(env, p, i);
    RecordPlaces(SectionBytes(env, p), ClassOff(p, i), p.classes[i], PlacedTable(p, i), Record(p, i), LinkOff(p, i));
  }

  lemma RecordPlaces(d: seq<byte>, at: nat, cls: seq<byte>, table: seq<u16>, rec: seq<byte>, linkAt: nat)
    requires rec == cls + Zeros(PadLen(|cls|)) + (WordBytes(table) + Zeros(PadLen(2 * |table|)))
    requires LiesAt(d, at, rec) && linkAt == at + Align4(|cls|)
    ensures Slice(d, at, |cls|) == Some(cls)
    ensures LiesAt(d, linkAt, WordBytes(table))
  {
    var xpad, ypad := Zeros(PadLen(|cls|)), Zeros(PadLen(2 * |table|));
    Padded(|cls|);
    PairInData(d, at, cls, xpad, WordBytes(table), ypad, linkAt, linkAt + 2 * |table|);
  }

  lemma Padded(n: nat)
    ensures n + |Zeros(PadLen(n))| == Align4(n)
  {
  }

  /** Two strings with something after each. */
  lemma PairInData(d: seq<byte>, at: nat, x: seq<byte>, xpad: seq<byte>, y: seq<byte>, ypad: seq<byte>, yAt: nat, yEnd: nat)
    requires var all := x + xpad + (y + ypad); at + |all| <= |d| && d[at..at + |all|] == all
    requires yAt == at + |x| + |xpad| && yEnd == yAt + |y|
    ensures at + |x| <= |d| && d[at..at + |x|] == x && yEnd <= |d| && d[yAt..yEnd] == y
  {
    var all := x + xpad + (y + ypad);
    assert all[0..|x|] == x && all[|x| + |xpad|..|x| + |xpad| + |y|] == y;
    SliceOfSlice(d, at, at + |all|, 0, |x|);
    SliceOfSlice(d, at, at + |all|, |x| + |xpad|, |x| + |xpad| + |y|);
  }

  lemma WordReads(d: seq<byte>, at: nat, words: seq<u16>, i: nat, wordAt: nat)
    requires LiesAt(d, at, WordBytes(words)) && i < |words| && wordAt == at + 2 * i
    ensures d[wordAt] == words[i] % 0x100 && d[wordAt + 1] == words[i] / 0x100
    ensures Le16(d, wordAt) == Some(words[i])
  {
    var b := WordBytes(words);
    assert d[at + 2 * i] == b[2 * i] && d[at + 2 * i + 1] == b[2 * i + 1];
    assert 2 * i % 2 == 0 && (2 * i + 1) % 2 == 1 && 2 * i / 2 == i && (2 * i + 1) / 2 == i;
  }

  lemma WordsRead(d: seq<byte>, at: nat, words: seq<u16>)
    requires LiesAt(d, at, WordBytes(words))
    ensures at + 2 * |words| <= |d| && LeWords(d, at, |words|) == words
  {
    forall i | 0 <= i < |words|
      ensures LeWords(d, at, |words|)[i] == words[i]
    {
      WordReads(d, at, words, i, at + 2 * i);
    }
  }

  lemma PoolReads(env: Env, p: Parts)
    requires Sized(p)
    ensures Parsed(SectionOf(env, p)) && PoolOf(SectionOf(env, p)) == p.pool
  {
    LaidOutParsed(env, p);
    RegionsLie(env, p);
  }

  lemma IndexReads(env: Env, p: Parts, k: nat)
    requires Sized(p) && k < |p.index|
    ensures Parsed(SectionOf(env, p)) && IndexAt(SectionOf(env, p), k) == p.index[k]
  {
    var d, indexAt := SectionBytes(env, p), IndexOff(p);
    LaidOutParsed(env, p);
    assert LiesAt(d, indexAt, Flat(IndexBytes(p))) by {
      RegionsLie(env, p);
    }
    IndexInData(d, indexAt, p, k, indexAt + 8 * k);
  }

  lemma IndexInData(d: seq<byte>, indexAt: nat, p: Parts, k: nat, at: nat)
    requires LiesAt(d, indexAt, Flat(IndexBytes(p))) && k < |p.index| && at == indexAt + 8 * k
    ensures var e := p.index[k];
      Le32(d, at) == Some(e.hash) && Le16(d, at + 4) == Some(e.idx) && Le16(d, at + 6) == Some(e.pad)
  {
    EvenPartInData(d, indexAt, IndexBytes(p), 8, k, at);
    EntryReads(d, at, p.index[k]);
  }

  lemma EntryReads(d: seq<byte>, at: nat, e: IndexEntry)
    requires at + 8 <= |d| && d[at..at + 8] == EntryBytes(e)
    ensures Le32(d, at) == Some(e.hash) && Le16(d, at + 4) == Some(e.idx) && Le16(d, at + 6) == Some(e.pad)
  {
    SliceOfSlice(d, at, at + 8, 0, 4);
    SliceOfSlice(d, at, at + 8, 4, 6);
    SliceOfSlice(d, at, at + 8, 6, 8);
    Le32ReadsBack(d, at, e.hash);
    Le16ReadsBack(d, at + 4, e.idx);
    Le16ReadsBack(d, at + 6, e.pad);
  }

  function LiteralOf(env: Env, p: Parts, k: nat): Literal
    requires Tabled(p) && Fits32(p) && k < |p.rows|
  {
    var row := p.rows[k];
    Literal(env.stringHash(row.bytes), PoolStart(p) + 4 * row.r as int + 2, AsU16(|row.bytes|), LitFlags(env, row.bytes))
  }

  ghost predicate LiteralAt(d: seq<byte>, at: nat, lit: Literal) {
    && Le32(d, at) == Some(lit.hash) && Le32(d, at + 4) == Some(lit.off)
    && Le16(d, at + 8) == Some(lit.len) && Le16(d, at + 10) == Some(lit.flags)
  }

  lemma LiteralsLie(env: Env, p: Parts, at: nat)
    requires Sized(p) && at == IndexOff(p) + 8 * |p.index| + 4
    ensures LiesAt(SectionBytes(env, p), at, Flat(LiteralBytes(env, p)))
  {
    RegionsLie(env, p);
  }

  lemma RowReads(env: Env, p: Parts, k: nat)
    requires Sized(p) && k < |p.rows|
    ensures Parsed(SectionOf(env, p)) && LitRow(SectionOf(env, p), k) == Some(LiteralOf(env, p, k))
  {
    var d, at := SectionBytes(env, p), IndexOff(p) + 8 * |p.index| + 4;
    LaidOutParsed(env, p);
    LiteralsLie(env, p, at);
    RowInData(env, d, at, p, k, at + 12 * k);
    LitRowIs(SectionOf(env, p), k, at + 12 * k, LiteralOf(env, p, k));
  }

  lemma LitRowIs(s: ClassSection, k: nat, at: nat, lit: Literal)
    requires Parsed(s) && k < s.litCount && at == s.indexOff + 8 * s.count + 4 + 12 * k
    requires LiteralAt(s.data, at, lit)
    ensures LitRow(s, k) == Some(lit)
  {
  }

  lemma RowInData(env: Env, d: seq<byte>, rowsAt: nat, p: Parts, k: nat, at: nat)
    requires Tabled(p) && Fits32(p) && k < |p.rows| && at == rowsAt + 12 * k
    requires LiesAt(d, rowsAt, Flat(LiteralBytes(env, p)))
    ensures LiteralAt(d, at, LiteralOf(env, p, k))
  {
    EvenPartInData(d, rowsAt, LiteralBytes(env, p), 12, k, at);
    var lit := LiteralOf(env, p, k);
    LiteralReads(d, at, lit.hash, lit.off, lit.len, lit.flags);
  }

  lemma LiteralReads(d: seq<byte>, at: nat, hash: u32, off: u32, len: u16, flags: u16)
    requires at + 12 <= |d|
    requires d[at..at + 12] == Le32Bytes(hash) + Le32Bytes(off) + Le16Bytes(len) + Le16Bytes(flags)
    ensures Le32(d, at) == Some(hash) && Le32(d, at + 4) == Some(off)
    ensures Le16(d, at + 8) == Some(len) && Le16(d, at + 10) == Some(flags)
  {
    SliceOfSlice(d, at, at + 12, 0, 4);
    SliceOfSlice(d, at, at + 12, 4, 8);
    SliceOfSlice(d, at, at + 12, 8, 10);
    SliceOfSlice(d, at, at + 12, 10, 12);
    Le32ReadsBack(d, at, hash);
    Le32ReadsBack(d, at + 4, off);
    Le16ReadsBack(d, at + 8, len);
    Le16ReadsBack(d, at + 10, flags);
  }
}
