/** Laying out a section as `build_section_impl` of
    `crates/class-link/src/build.rs` does it: a buffer appended to record after
    record, and patched where an offset is known only later. */
module SectionWriter {
  import opened Bytes
  import opened ClassFile
  import opened Regions
  import opened SectionBuild
  import opened SectionLayout
  import opened Utf8Pool

  // ---- patching ----------------------------------------------------------

  /** `out[at..at + b.len()].copy_from_slice(b)` */
  function Patch(out: seq<byte>, at: nat, b: seq<byte>): (r: seq<byte>)
    requires at + |b| <= |out|
    ensures |r| == |out|
  {
    out[..at] + b + out[at + |b|..]
  }

  lemma {:induction false} FlatConcat(a: seq<seq<byte>>, b: seq<seq<byte>>)
    ensures Flat(a + b) == Flat(a) + Flat(b)
    decreases |b|
  {
    if b == [] {
      assert a + b == a;
    } else {
      var front, last := b[..|b| - 1], b[|b| - 1];
      assert a + b == (a + front) + [last];
      FlatConcat(a, front);
      FlatExtends(a + front, last);
      ConcatAssoc(Flat(a), Flat(front), last);
    }
  }

  lemma FlatOne(p: seq<byte>)
    ensures Flat([p]) == p
  {
    assert [p][..0] == [];
    assert Flat([p]) == Flat([]) + p;
  }

  lemma SplitAt<T>(s: seq<T>, k: nat) returns (a: seq<T>, b: T, c: seq<T>)
    requires k < |s|
    ensures s == a + [b] + c && |a| == k && a == s[..k] && b == s[k]
  {
    a, b, c := s[..k], s[k], s[k + 1..];
  }

  lemma FlatThree(a: seq<seq<byte>>, b: seq<byte>, c: seq<seq<byte>>)
    ensures Flat(a + [b] + c) == Flat(a) + b + Flat(c)
  {
    FlatConcat(a + [b], c);
    FlatExtends(a, b);
  }

  lemma PatchMiddle(out: seq<byte>, x: seq<byte>, y: seq<byte>, z: seq<byte>, off: nat, b: seq<byte>, at: nat)
    requires out == x + y + z && off + |b| <= |y| && at == |x| + off
    ensures at + |b| <= |out| && Patch(out, at, b) == x + Patch(y, off, b) + z
  {
    assert out[..at] == x + y[..off];
    assert out[at + |b|..] == y[off + |b|..] + z;
  }

  /** Patching inside one part of a list changes that part alone. */
  lemma PatchPart(parts: seq<seq<byte>>, out: seq<byte>, k: nat, off: nat, b: seq<byte>, at: nat)
    requires out == Flat(parts) && k < |parts| && off + |b| <= |parts[k]| && at == Start(parts, k) + off
    ensures at + |b| <= |out|
    ensures Patch(out, at, b) == Flat(parts[k := Patch(parts[k], off, b)])
  {
    var front, y, rest := SplitAt(parts, k);
    FlatThree(front, y, rest);
    FlatThree(front, Patch(y, off, b), rest);
    PatchMiddle(out, Flat(front), y, Flat(rest), off, b, at);
    ReplacedAt(front, y, rest, Patch(y, off, b));
  }

  lemma ReplacedAt<T>(a: seq<T>, b: T, c: seq<T>, x: T)
    ensures (a + [b] + c)[|a| := x] == a + [x] + c
  {
  }

  /** Two patches one after the other inside one part. */
  lemma TwoPatches(parts: seq<seq<byte>>, out: seq<byte>, k: nat, off: nat, a: seq<byte>, b: seq<byte>, at: nat, next: nat)
    requires out == Flat(parts) && k < |parts| && off + |a| + |b| <= |parts[k]|
    requires at == Start(parts, k) + off && next == at + |a|
    ensures next + |b| <= |out|
    ensures Patch(Patch(out, at, a), next, b) == Flat(parts[k := Patch(Patch(parts[k], off, a), off + |a|, b)])
  {
    var once := Patch(parts[k], off, a);
    var half := parts[k := once];
    PatchPart(parts, out, k, off, a, at);
    SameStart(parts, k, once);
    PatchPart(half, Patch(out, at, a), k, off + |a|, b, next);
    ReplacedTwice(parts, k, once, Patch(once, off + |a|, b));
  }

  /** The same with something before and after the list. */
  lemma TwoPatchesBetween(x: seq<byte>, parts: seq<seq<byte>>, z: seq<byte>, k: nat, off: nat,
                          a: seq<byte>, b: seq<byte>, at: nat, next: nat)
    requires k < |parts| && off + |a| + |b| <= |parts[k]|
    requires at == |x| + Start(parts, k) + off && next == at + |a|
    ensures next + |b| <= |x + Flat(parts) + z|
    ensures Patch(Patch(x + Flat(parts) + z, at, a), next, b)
            == x + Flat(parts[k := Patch(Patch(parts[k], off, a), off + |a|, b)]) + z
  {
    var y, i, j := Flat(parts), at - |x|, next - |x|;
    TwoPatches(parts, y, k, off, a, b, i, j);
    PatchMiddle(x + y + z, x, y, z, i, a, at);
    var once := Patch(y, i, a);
    PatchMiddle(x + once + z, x, once, z, j, b, next);
  }

  lemma SameStart(parts: seq<seq<byte>>, k: nat, x: seq<byte>)
    requires k < |parts|
    ensures Start(parts[k := x], k) == Start(parts, k)
  {
    assert parts[k := x][..k] == parts[..k];
  }

  lemma ReplacedTwice<T>(s: seq<T>, k: nat, x: T, y: T)
    requires k < |s|
    ensures s[k := x][k := y] == s[k := y]
  {
  }

  // ---- appending ---------------------------------------------------------

  function Aligned(n: nat, align: nat): nat { if align == 4 then Align4(n) else Align8(n) }

  /** `pad_to` */
  method PadTo(out: seq<byte>, align: nat) returns (r: seq<byte>)
    requires align == 4 || align == 8
    ensures r == out + Zeros(Aligned(|out|, align) - |out|)
  {
    r := out;
    ghost var end := Aligned(|out|, align);
    while |r| % align != 0
      invariant |out| <= |r| <= end
      invariant r == out + Zeros(|r| - |out|)
      decreases end - |r|
    {
      NextMultiple(|out|, |r|, align);
      OneMoreZero(|r| - |out|);
      r := r + [0];
    }
    NextMultiple(|out|, |r|, align);
  }

  /** The first multiple from `n` on. */
  lemma NextMultiple(n: nat, k: nat, align: nat)
    requires (align == 4 || align == 8) && n <= k <= Aligned(n, align)
    ensures k % align == 0 <==> k == Aligned(n, align)
  {
    if align == 4 {
      assert Align4(n) % 4 == 0 && Align4(n) < n + 4;
    } else {
      assert Align8(n) % 8 == 0 && Align8(n) < n + 8;
    }
  }

  lemma OneMoreZero(n: nat)
    ensures Zeros(n + 1) == Zeros(n) + [0]
  {
  }

  /** `link_bytes` */
  method LinkBytes(words: seq<u16>) returns (out: seq<byte>)
    ensures out == WordBytes(words)
  {
    out := [];
    for i := 0 to |words|
      invariant out == WordBytes(words[..i])
    {
      WordBytesExtend(words, i);
      out := out + Le16Bytes(words[i]);
    }
    assert words[..|words|] == words;
  }

  lemma WordBytesExtend(words: seq<u16>, i: nat)
    requires i < |words|
    ensures WordBytes(words[..i + 1]) == WordBytes(words[..i]) + Le16Bytes(words[i])
  {
    var a, b := WordBytes(words[..i + 1]), WordBytes(words[..i]) + Le16Bytes(words[i]);
    assert |a| == |b|;
    forall k | 0 <= k < |a|
      ensures a[k] == b[k]
    {
      if k < 2 * i {
        assert k / 2 < i;
      } else {
        assert k == 2 * i || k == 2 * i + 1;
      }
    }
  }

  /** A record before the pool's place is written into its table. */
  function RawRecord(cls: seq<byte>, table: seq<u16>): seq<byte> {
    cls + Zeros(PadLen(|cls|)) + (WordBytes(table) + Zeros(PadLen(2 * |table|)))
  }

  function RawRecords(p: Parts): seq<seq<byte>>
    requires Tabled(p)
  {
    seq(|p.classes|, i requires 0 <= i < |p.classes| => RawRecord(p.classes[i], p.tables[i]))
  }

  /** One record at the end of the buffer: where its table starts. */
  method AppendRecord(out: seq<byte>, cls: seq<byte>, table: seq<u16>) returns (r: seq<byte>, linkOff: nat)
    requires |out| % 4 == 0
    ensures r == out + RawRecord(cls, table) && linkOff == |out| + Align4(|cls|)
  {
    r := PadTo(out, 4);
    AlignedStays(|out|);
    r := r + cls;
    r := PadTo(r, 4);
    AlignShift(|out|, |cls|);
    linkOff := |r|;
    AlignShift(linkOff, 2 * |table|);
    var bytes := LinkBytes(table);
    r := r + bytes;
    r := PadTo(r, 4);
    RegroupRecord(out, cls, Zeros(PadLen(|cls|)), WordBytes(table), Zeros(PadLen(2 * |table|)));
  }

  lemma AlignedStays(n: nat)
    requires n % 4 == 0
    ensures Align4(n) == n && Zeros(Align4(n) - n) == []
  {
  }

  lemma RegroupRecord(a: seq<byte>, b: seq<byte>, c: seq<byte>, d: seq<byte>, e: seq<byte>)
    ensures a + [] + b + c + d + e == a + (b + c + (d + e))
  {
  }

  // ---- records and directory ---------------------------------------------

  function BlankHeader(p: Parts): seq<byte>
    requires |p.classes| < 0x1_0000_0000
  {
    Le32Bytes(|p.classes|) + Zeros(12)
  }

  function BlankDirectory(n: nat): seq<seq<byte>> { seq(n, _ => Zeros(8)) }

  /** The first `i` entries written, the others blank. */
  function DirectorySoFar(p: Parts, i: nat): (d: seq<seq<byte>>)
    requires Tabled(p) && Fits32(p) && i <= |p.classes|
    ensures |d| == |p.classes| && forall k | 0 <= k < |d| :: |d[k]| == 8
  {
    seq(|p.classes|, k requires 0 <= k < |p.classes| => if k < i then DirEntry(p, k) else Zeros(8))
  }

  lemma BlankFlat(n: nat)
    ensures Flat(BlankDirectory(n)) == Zeros(8 * n)
    decreases n
  {
    if n > 0 {
      BlankFlat(n - 1);
      assert BlankDirectory(n)[..n - 1] == BlankDirectory(n - 1);
      assert Zeros(8 * n) == Zeros(8 * (n - 1)) + Zeros(8);
    }
  }

  /** Entry `i` of the directory patched in two halves. */
  lemma EntryPatched(p: Parts, i: nat, rest: seq<byte>, out: seq<byte>)
    requires Sized(p) && i < |p.classes|
    requires out == BlankHeader(p) + Flat(DirectorySoFar(p, i)) + rest
    ensures 16 + 8 * i + 8 <= |out|
    ensures Patch(Patch(out, 16 + 8 * i, Le32Bytes(ClassOff(p, i))), 16 + 8 * i + 4, Le32Bytes(LinkOff(p, i)))
            == BlankHeader(p) + Flat(DirectorySoFar(p, i + 1)) + rest
  {
    var d, a, b := DirectorySoFar(p, i), Le32Bytes(ClassOff(p, i)), Le32Bytes(LinkOff(p, i));
    EvenStart(d, 8, i);
    TwoPatchesBetween(BlankHeader(p), d, rest, i, 0, a, b, 16 + 8 * i, 16 + 8 * i + 4);
    EntryHalves(a, b);
    NextEntry(p, i);
  }

  lemma NextEntry(p: Parts, i: nat)
    requires Tabled(p) && Fits32(p) && i < |p.classes|
    ensures DirectorySoFar(p, i)[i] == Zeros(8)
    ensures DirectorySoFar(p, i)[i := DirEntry(p, i)] == DirectorySoFar(p, i + 1)
  {
  }

  lemma EntryHalves(a: seq<byte>, b: seq<byte>)
    requires |a| == 4 && |b| == 4
    ensures Patch(Patch(Zeros(8), 0, a), 4, b) == a + b
  {
  }

  lemma RecordAppended(p: Parts, i: nat)
    requires Tabled(p) && i < |p.classes|
    ensures Flat(RawRecords(p)[..i + 1]) == Flat(RawRecords(p)[..i]) + RawRecord(p.classes[i], p.tables[i])
  {
    StartStep(RawRecords(p), i);
  }

  lemma BlankStart(p: Parts)
    requires Sized(p)
    ensures WrittenUpTo(p, 0, Le32Bytes(|p.classes|) + Zeros(12) + Zeros(8 * |p.classes|))
  {
    assert DirectorySoFar(p, 0) == BlankDirectory(|p.classes|);
    BlankFlat(|p.classes|);
    assert Flat(RawRecords(p)[..0]) == [];
  }

  /** The buffer after `i` records. */
  ghost predicate WrittenUpTo(p: Parts, i: nat, out: seq<byte>)
    requires Tabled(p) && Fits32(p) && i <= |p.classes|
  {
    out == BlankHeader(p) + Flat(DirectorySoFar(p, i)) + Flat(RawRecords(p)[..i]) && |out| == ClassOff(p, i)
  }

  /** Record `i`, its directory entry patched in as soon as its offsets are known. */
  method WriteRecord(p: Parts, i: nat, out: seq<byte>) returns (r: seq<byte>, linkOff: nat)
    requires Sized(p) && i < |p.classes| && WrittenUpTo(p, i, out)
    ensures WrittenUpTo(p, i + 1, r) && linkOff == LinkOff(p, i)
  {
    ClassOffAligned(p, i);
    OffsetsFit(p, i);
    var classOff := |out|;
    r, linkOff := AppendRecord(out, p.classes[i], p.tables[i]);
    RecordWritten(p, i, out, r);
    r := Patch(r, 16 + 8 * i, Le32Bytes(classOff));
    r := Patch(r, 16 + 8 * i + 4, Le32Bytes(linkOff));
  }

  /** A record appended and its directory entry patched in. */
  lemma RecordWritten(p: Parts, i: nat, out: seq<byte>, longer: seq<byte>)
    requires Sized(p) && i < |p.classes| && WrittenUpTo(p, i, out) && longer == out + RawRecord(p.classes[i], p.tables[i])
    ensures 16 + 8 * i + 8 <= |longer|
    ensures WrittenUpTo(p, i + 1, Patch(Patch(longer, 16 + 8 * i, Le32Bytes(ClassOff(p, i))), 16 + 8 * i + 4,
                                        Le32Bytes(LinkOff(p, i))))
  {
    var front, records, record := BlankHeader(p) + Flat(DirectorySoFar(p, i)), Flat(RawRecords(p)[..i]), RawRecord(p.classes[i], p.tables[i]);
    var more := Flat(RawRecords(p)[..i + 1]);
    assert more == records + record by {
      RecordAppended(p, i);
    }
    ConcatAssoc(front, records, record);
    EntryPatched(p, i, more, longer);
    assert |longer| == ClassOff(p, i + 1) by {
      RawRecordSize(p, i);
    }
  }

  /** Header and directory blank, then record after record. */
  method WriteRecords(p: Parts) returns (out: seq<byte>, linkOffs: seq<nat>)
    requires Sized(p)
    ensures out == BlankHeader(p) + Flat(Directory(p)) + Flat(RawRecords(p)) && |out| == ClassOff(p, |p.classes|)
    ensures |linkOffs| == |p.classes| && forall i | 0 <= i < |linkOffs| :: linkOffs[i] == LinkOff(p, i)
  {
    var n := |p.classes|;
    BlankStart(p);
    out := Le32Bytes(n) + Zeros(12) + Zeros(8 * n);
    linkOffs := [];
    for i := 0 to n
      invariant WrittenUpTo(p, i, out)
      invariant |linkOffs| == i && forall k | 0 <= k < i :: linkOffs[k] == LinkOff(p, k)
    {
      var linkOff;
      out, linkOff := WriteRecord(p, i, out);
      linkOffs := linkOffs + [linkOff];
    }
    assert DirectorySoFar(p, n) == Directory(p) && RawRecords(p)[..n] == RawRecords(p);
  }

  lemma RawRecordSize(p: Parts, i: nat)
    requires Tabled(p) && i < |p.classes|
    ensures |RawRecord(p.classes[i], p.tables[i])| == RecordLen(p, i)
  {
  }

  lemma OffsetsFit(p: Parts, i: nat)
    requires Sized(p) && i < |p.classes|
    ensures ClassOff(p, i) < 0x1_0000_0000 && LinkOff(p, i) <= PoolStart(p) < 0x1_0000_0000
  {
  }

  // ---- index, literals and pool ------------------------------------------

  method AppendIndex(out: seq<byte>, p: Parts) returns (r: seq<byte>)
    ensures r == out + Flat(IndexBytes(p))
  {
    ghost var parts := IndexBytes(p);
    r := out;
    for k := 0 to |p.index|
      invariant r == out + Flat(parts[..k])
    {
      StartStep(parts, k);
      ConcatAssoc(out, Flat(parts[..k]), parts[k]);
      r := r + EntryBytes(p.index[k]);
    }
    assert parts[..|p.index|] == parts;
  }

  method AppendRows(env: Env, out: seq<byte>, p: Parts) returns (r: seq<byte>)
    requires Tabled(p) && Fits32(p)
    ensures r == out + Flat(LiteralBytes(env, p))
  {
    ghost var parts := LiteralBytes(env, p);
    r := out;
    for k := 0 to |p.rows|
      invariant r == out + Flat(parts[..k])
    {
      StartStep(parts, k);
      ConcatAssoc(out, Flat(parts[..k]), parts[k]);
      r := r + RowBytes(env, p, k);
    }
    assert parts[..|p.rows|] == parts;
  }

  /** Everything after the records. */
  function TailBytes(env: Env, p: Parts): seq<byte>
    requires Tabled(p) && Fits32(p)
  {
    Zeros(IndexOff(p) - ClassOff(p, |p.classes|)) + Flat(IndexBytes(p)) + Le32Bytes(|p.rows|)
    + Flat(LiteralBytes(env, p)) + p.pool
  }

  method AppendTail(env: Env, out: seq<byte>, p: Parts) returns (r: seq<byte>, indexOff: nat, poolOff: nat)
    requires Sized(p) && |out| == ClassOff(p, |p.classes|)
    ensures r == out + TailBytes(env, p) && indexOff == IndexOff(p) && poolOff == PoolStart(p)
  {
    r := PadTo(out, 8);
    indexOff := |r|;
    EvenLength(IndexBytes(p), 8);
    r := AppendIndex(r, p);
    poolOff := |r| + 4 + 12 * |p.rows|;
    r := r + Le32Bytes(|p.rows|);
    r := AppendRows(env, r, p);
    r := r + p.pool;
    RegroupTail(out, Zeros(IndexOff(p) - ClassOff(p, |p.classes|)), Flat(IndexBytes(p)), Le32Bytes(|p.rows|),
                Flat(LiteralBytes(env, p)), p.pool);
  }

  lemma RegroupTail(a: seq<byte>, b: seq<byte>, c: seq<byte>, d: seq<byte>, e: seq<byte>, f: seq<byte>)
    ensures a + b + c + d + e + f == a + (b + c + d + e + f)
  {
  }

  // ---- the last patches --------------------------------------------------

  lemma PatchFront(h: seq<byte>, rest: seq<byte>, off: nat, b: seq<byte>)
    requires off + |b| <= |h|
    ensures Patch(h + rest, off, b) == Patch(h, off, b) + rest
  {
    PatchMiddle([] + h + rest, [], h, rest, off, b, off);
    assert [] + h + rest == h + rest && [] + Patch(h, off, b) + rest == Patch(h, off, b) + rest;
  }

  lemma HeaderPatched(p: Parts, rest: seq<byte>, out: seq<byte>)
    requires Sized(p) && out == BlankHeader(p) + rest
    ensures 16 <= |out|
    ensures Patch(Patch(Patch(out, 4, Le32Bytes(IndexOff(p))), 8, Le32Bytes(PoolStart(p))), 12, Le32Bytes(|p.pool|))
            == HeaderBytes(p) + rest
  {
    var h, a, b, c := BlankHeader(p), Le32Bytes(IndexOff(p)), Le32Bytes(PoolStart(p)), Le32Bytes(|p.pool|);
    PatchFront(h, rest, 4, a);
    PatchFront(Patch(h, 4, a), rest, 8, b);
    PatchFront(Patch(Patch(h, 4, a), 8, b), rest, 12, c);
    assert Patch(Patch(Patch(h, 4, a), 8, b), 12, c) == HeaderBytes(p);
  }

  lemma StartsAtZero(parts: seq<seq<byte>>)
    ensures Start(parts, 0) == 0
  {
    assert Flat(parts[..0]) == [];
  }

  /** The first `i` records with the pool's place in their tables. */
  function RecordsSoFar(p: Parts, i: nat): (d: seq<seq<byte>>)
    requires Tabled(p) && Fits32(p) && i <= |p.classes|
    ensures |d| == |p.classes|
  {
    seq(|p.classes|, k requires 0 <= k < |p.classes| => if k < i then Record(p, k) else RawRecord(p.classes[k], p.tables[k]))
  }

  /** The pool words of a table, patched into its bytes. */
  lemma TablePatched(table: seq<u16>, rel: u32, words: u16)
    requires |table| >= HEADER_WORDS
    ensures Patch(Patch(WordBytes(table), 46, Le32Bytes(rel)), 50, Le16Bytes(words))
            == WordBytes(table[23 := rel % 0x1_0000][24 := rel / 0x1_0000][25 := words])
  {
    var t := table[23 := rel % 0x1_0000][24 := rel / 0x1_0000][25 := words];
    var a, b := Patch(Patch(WordBytes(table), 46, Le32Bytes(rel)), 50, Le16Bytes(words)), WordBytes(t);
    assert |a| == |b|;
    forall k | 0 <= k < |a|
      ensures a[k] == b[k]
    {
      if k < 46 || k >= 52 {
        assert a[k] == WordBytes(table)[k];
        assert k / 2 < 23 || k / 2 > 25;
      } else if k < 50 {
        PatchedRel(rel);
        assert k == 46 || k == 47 || k == 48 || k == 49;
      } else {
        assert k == 50 || k == 51;
      }
    }
  }

  lemma PatchedRel(rel: u32)
    ensures Le32Bytes(rel) == [rel % 0x1_0000 % 0x100, rel % 0x1_0000 / 0x100, rel / 0x1_0000 % 0x100, rel / 0x1_0000 / 0x100]
  {
    var lo, hi := rel % 0x1_0000, rel / 0x1_0000;
    var b0, b1, b2, b3 := lo % 0x100, lo / 0x100, hi % 0x100, hi / 0x100;
    Divides(0x100 * (0x100 * b3 + b2) + b1, b0);
    assert rel == 0x100 * (0x100 * (0x100 * b3 + b2) + b1) + b0;
    Divides(0x100 * b3 + b2, b1);
    Divides(b3, b2);
    assert rel / 0x100_0000 == b3 by {
      assert rel == 0x100_0000 * b3 + (0x1_0000 * b2 + 0x100 * b1 + b0);
    }
  }

  lemma Divides(q: nat, r: nat)
    requires r < 0x100
    ensures (0x100 * q + r) / 0x100 == q && (0x100 * q + r) % 0x100 == r
  {
  }

  lemma RecordPatched(p: Parts, i: nat, at: nat, rel: seq<byte>, words: seq<byte>)
    requires Sized(p) && i < |p.classes| && LinkOff(p, i) == ClassOff(p, i) + at
    requires rel == Le32Bytes(PoolStart(p) - LinkOff(p, i)) && words == Le16Bytes(AsU16(|p.pool| / 4))
    ensures var raw := RawRecord(p.classes[i], p.tables[i]);
      at + 52 <= |raw| && Patch(Patch(raw, at + 46, rel), at + 50, words) == Record(p, i)
  {
    var cls, t := p.classes[i], p.tables[i];
    Padded(|cls|);
    TablePatched(t, PoolStart(p) - LinkOff(p, i), AsU16(|p.pool| / 4));
    RecordInPieces(cls + Zeros(PadLen(|cls|)), WordBytes(t), Zeros(PadLen(2 * |t|)), at, rel, words);
  }

  lemma RecordInPieces(x: seq<byte>, y: seq<byte>, z: seq<byte>, at: nat, rel: seq<byte>, words: seq<byte>)
    requires |x| == at && |y| >= 52 && |rel| == 4 && |words| == 2
    ensures x + (y + z) == x + y + z
    ensures Patch(Patch(x + (y + z), at + 46, rel), at + 50, words) == x + (Patch(Patch(y, 46, rel), 50, words) + z)
  {
    assert x + (y + z) == x + y + z;
    PatchMiddle(x + y + z, x, y, z, 46, rel, at + 46);
    PatchMiddle(x + Patch(y, 46, rel) + z, x, Patch(y, 46, rel), z, 50, words, at + 50);
    ConcatAssoc(x, Patch(Patch(y, 46, rel), 50, words), z);
  }

  lemma {:induction false} SameStarts(a: seq<seq<byte>>, b: seq<seq<byte>>, k: nat)
    requires |a| == |b| && k <= |a| && forall j | 0 <= j < |a| :: |a[j]| == |b[j]|
    ensures Start(a, k) == Start(b, k)
    decreases k
  {
    if k == 0 {
      StartsAtZero(a);
      StartsAtZero(b);
    } else {
      SameStarts(a, b, k - 1);
      StartStep(a, k - 1);
      StartStep(b, k - 1);
    }
  }

  lemma RecordSoFarStart(p: Parts, i: nat, k: nat)
    requires Sized(p) && i <= |p.classes| && k <= |p.classes|
    ensures Start(RecordsSoFar(p, i), k) == ClassOff(p, k) - ClassOff(p, 0)
  {
    forall j | 0 <= j < |p.classes|
      ensures |RecordsSoFar(p, i)[j]| == |Records(p)[j]|
    {
      RawRecordSize(p, j);
      RecordSize(p, j);
    }
    SameStarts(RecordsSoFar(p, i), Records(p), k);
    RecordStarts(p, k);
  }

  /** Table `i` patched where it lies in the buffer. */
  lemma PlacePatched(p: Parts, i: nat, head: seq<byte>, records: seq<seq<byte>>, tail: seq<byte>, out: seq<byte>,
                     linkOff: nat, rel: seq<byte>, words: seq<byte>)
    requires Sized(p) && i < |p.classes| && linkOff == LinkOff(p, i) && |head| == ClassOff(p, 0)
    requires rel == Le32Bytes(PoolStart(p) - LinkOff(p, i)) && words == Le16Bytes(AsU16(|p.pool| / 4))
    requires out == head + Flat(records) + tail && i < |records| && records[i] == RawRecord(p.classes[i], p.tables[i])
    requires Start(records, i) == ClassOff(p, i) - ClassOff(p, 0)
    ensures linkOff + 52 <= |out|
    ensures Patch(Patch(out, linkOff + 46, rel), linkOff + 50, words) == head + Flat(records[i := Record(p, i)]) + tail
  {
    var at := linkOff - ClassOff(p, i);
    RecordPatched(p, i, at, rel, words);
    TwoPatchesBetween(head, records, tail, i, at + 46, rel, words, linkOff + 46, linkOff + 50);
  }

  lemma Flat3(a: seq<byte>, b: seq<byte>, c: seq<byte>)
    ensures Flat([a, b, c]) == a + b + c
  {
    FlatOne(a);
    FlatExtends([a], b);
    FlatExtends([a, b], c);
    assert [a] + [b] == [a, b] && [a, b] + [c] == [a, b, c];
  }

  lemma WholeIsSection(env: Env, p: Parts)
    requires Sized(p)
    ensures HeaderBytes(p) + Flat(Directory(p)) + Flat(Records(p)) + TailBytes(env, p) == SectionBytes(env, p)
  {
    var h, d, r := HeaderBytes(p), Flat(Directory(p)), Flat(Records(p));
    TailRegions(env, p);
    Flat3(h, d, r);
    FlatConcat([h, d, r], RegionsOf(env, p)[3..]);
    assert RegionsOf(env, p) == [h, d, r] + RegionsOf(env, p)[3..];
  }

  lemma TailRegions(env: Env, p: Parts)
    requires Sized(p)
    ensures Flat(RegionsOf(env, p)[3..]) == TailBytes(env, p)
  {
    var pad, index := Zeros(IndexOff(p) - ClassOff(p, |p.classes|)), Flat(IndexBytes(p));
    var count, lits := Le32Bytes(|p.rows|), Flat(LiteralBytes(env, p));
    Flat3(pad, index, count);
    FlatExtends([pad, index, count], lits);
    FlatExtends([pad, index, count, lits], p.pool);
    assert RegionsOf(env, p)[3..] == [pad, index, count, lits] + [p.pool];
    assert [pad, index, count] + [lits] == [pad, index, count, lits];
  }

  lemma NextRecord(p: Parts, i: nat)
    requires Tabled(p) && Fits32(p) && i < |p.classes|
    ensures RecordsSoFar(p, i)[i] == RawRecord(p.classes[i], p.tables[i])
    ensures RecordsSoFar(p, i)[i := Record(p, i)] == RecordsSoFar(p, i + 1)
  {
  }

  /** Each table's pool words, now that the pool has its place. */
  method PlacePools(p: Parts, linkOffs: seq<nat>, poolOff: nat, ghost head: seq<byte>, ghost tail: seq<byte>, out: seq<byte>)
    returns (r: seq<byte>)
    requires Sized(p) && poolOff == PoolStart(p) && |linkOffs| == |p.classes| && |head| == ClassOff(p, 0)
    requires forall i | 0 <= i < |linkOffs| :: linkOffs[i] == LinkOff(p, i)
    requires out == head + Flat(RawRecords(p)) + tail
    ensures r == head + Flat(Records(p)) + tail
  {
    var poolWords := AsU16(|p.pool| / 4);
    ghost var records := RecordsSoFar(p, 0);
    assert records == RawRecords(p);
    r := out;
    for i := 0 to |linkOffs|
      invariant records == RecordsSoFar(p, i) && r == head + Flat(records) + tail
    {
      RecordSoFarStart(p, i, i);
      NextRecord(p, i);
      r := PlacePool(p, i, linkOffs[i], poolOff, poolWords, head, records, tail, r);
      records := records[i := Record(p, i)];
    }
    assert records == Records(p);
  }

  /** The pool words of the table at `linkOff`. */
  method PlacePool(p: Parts, ghost i: nat, linkOff: nat, poolOff: nat, poolWords: u16,
                   ghost head: seq<byte>, ghost records: seq<seq<byte>>, ghost tail: seq<byte>, out: seq<byte>)
    returns (r: seq<byte>)
    requires Sized(p) && i < |p.classes| && linkOff == LinkOff(p, i) && poolOff == PoolStart(p)
    requires poolWords == AsU16(|p.pool| / 4) && |head| == ClassOff(p, 0)
    requires out == head + Flat(records) + tail && i < |records| && records[i] == RawRecord(p.classes[i], p.tables[i])
    requires Start(records, i) == ClassOff(p, i) - ClassOff(p, 0)
    ensures r == head + Flat(records[i := Record(p, i)]) + tail
  {
    OffsetsFit(p, i);
    var rel, words := Le32Bytes(poolOff - linkOff), Le16Bytes(poolWords);
    PlacePatched(p, i, head, records, tail, out, linkOff, rel, words);
    r := Patch(out, linkOff + 46, rel);
    r := Patch(r, linkOff + 50, words);
  }

  /** The section of an assembled set, as the builder writes it. */
  method WriteSection(env: Env, p: Parts) returns (out: seq<byte>)
    requires Sized(p)
    ensures out == SectionBytes(env, p)
  {
    var linkOffs, indexOff, poolOff;
    ghost var dir, raw, tail := Flat(Directory(p)), Flat(RawRecords(p)), TailBytes(env, p);
    out, linkOffs := WriteRecords(p);
    out, indexOff, poolOff := AppendTail(env, out, p);
    RegroupFour(BlankHeader(p), dir, raw, tail);
    HeaderPatched(p, dir + raw + tail, out);
    out := Patch(out, 4, Le32Bytes(indexOff));
    out := Patch(out, 8, Le32Bytes(poolOff));
    out := Patch(out, 12, Le32Bytes(|p.pool|));
    RegroupFour(HeaderBytes(p), dir, raw, tail);
    EvenLength(Directory(p), 8);
    out := PlacePools(p, linkOffs, poolOff, HeaderBytes(p) + dir, tail, out);
    WholeIsSection(env, p);
  }

  lemma RegroupFour(a: seq<byte>, b: seq<byte>, c: seq<byte>, d: seq<byte>)
    ensures a + b + c + d == a + (b + c + d)
  {
  }
}
