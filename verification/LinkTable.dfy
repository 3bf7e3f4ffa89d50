/** `crates/class-link/src/layout.rs`: reading one class's link table in place.
    An accessor here requires what `Link::new` checked, and no more: that its
    reads then stay inside the table is what Dafny proves of each body. */
module LinkTable {
  import opened Bytes
  import opened ClassFile

  /** A table and the pool of its section. */
  datatype Link = Link(words: seq<u16>, pool: seq<byte>)

  function CpCount(l: Link): nat requires |l.words| >= HEADER_WORDS { l.words[3] }
  function FieldsLen(l: Link): nat requires |l.words| >= HEADER_WORDS { l.words[4] }
  function StaticsLen(l: Link): nat requires |l.words| >= HEADER_WORDS { l.words[5] }
  function IfacesLen(l: Link): nat requires |l.words| >= HEADER_WORDS { l.words[6] }
  function MethodsLen(l: Link): nat requires |l.words| >= HEADER_WORDS { l.words[7] }
  function MrefsLen(l: Link): nat requires |l.words| >= HEADER_WORDS { l.words[8] }
  function MethodsOff(l: Link): nat requires |l.words| >= HEADER_WORDS { l.words[9] }
  function MrefsOff(l: Link): nat requires |l.words| >= HEADER_WORDS { l.words[10] }
  function StrsLen(l: Link): nat requires |l.words| >= HEADER_WORDS { l.words[20] }
  function StrsOff(l: Link): nat requires |l.words| >= HEADER_WORDS { MrefsOff(l) + 2 * MrefsLen(l) }
  function FieldsOff(l: Link): nat requires |l.words| >= HEADER_WORDS {
    HEADER_WORDS + CpCount(l) + TagWords(CpCount(l))
  }
  function StaticsOff(l: Link): nat requires |l.words| >= HEADER_WORDS { FieldsOff(l) + 3 * FieldsLen(l) }
  function IfacesOff(l: Link): nat requires |l.words| >= HEADER_WORDS { StaticsOff(l) + 3 * StaticsLen(l) }

  /** `Link::new` */
  function NewLink(words: seq<u16>, pool: seq<byte>): Result<Link> {
    var l := Link(words, pool);
    if |words| < HEADER_WORDS || words[0] != LINK_MAGIC || words[1] != |words| then Err(BadHeader)
    else if IfacesOff(l) + 3 * IfacesLen(l) != MethodsOff(l)
         || MethodsOff(l) + 6 * MethodsLen(l) != MrefsOff(l)
         || StrsOff(l) + 2 * StrsLen(l) > |words| then Err(BadHeader)
    else Ok(l)
  }

  /** A table `Link::new` accepts. */
  predicate Valid(l: Link) { NewLink(l.words, l.pool).Ok? }

  /** Words `start` up to `end`. */
  datatype WordRange = WordRange(start: nat, end: nat)

  /** Header, pool words, tag words, fields, statics, interfaces, methods,
      Methodref descriptors, String descriptors: each from where its accessor
      starts to where its count ends it. */
  function TableRegions(l: Link): seq<WordRange>
    requires |l.words| >= HEADER_WORDS
  {
    [WordRange(0, HEADER_WORDS),
     WordRange(HEADER_WORDS, HEADER_WORDS + CpCount(l)),
     WordRange(HEADER_WORDS + CpCount(l), HEADER_WORDS + CpCount(l) + TagWords(CpCount(l))),
     WordRange(FieldsOff(l), FieldsOff(l) + 3 * FieldsLen(l)),
     WordRange(StaticsOff(l), StaticsOff(l) + 3 * StaticsLen(l)),
     WordRange(IfacesOff(l), IfacesOff(l) + 3 * IfacesLen(l)),
     WordRange(MethodsOff(l), MethodsOff(l) + 6 * MethodsLen(l)),
     WordRange(MrefsOff(l), MrefsOff(l) + 2 * MrefsLen(l)),
     WordRange(StrsOff(l), StrsOff(l) + 2 * StrsLen(l))]
  }

  /** One after another, from word 0 on. */
  ghost predicate Consecutive(rs: seq<WordRange>) {
    && (|rs| > 0 ==> rs[0].start == 0)
    && (forall k | 0 <= k < |rs| :: rs[k].start <= rs[k].end)
    && forall k | 0 < k < |rs| :: rs[k].start == rs[k - 1].end
  }

  predicate Within(r: WordRange, w: nat) { r.start <= w < r.end }

  /** `Link::new` accepts exactly the tables whose header names them and whose
      regions tile a prefix of them in order. */
  lemma NewLinkExact(words: seq<u16>, pool: seq<byte>)
    ensures NewLink(words, pool).Ok? <==>
      && |words| >= HEADER_WORDS && words[0] == LINK_MAGIC && words[1] == |words|
      && var rs := TableRegions(Link(words, pool)); Consecutive(rs) && rs[|rs| - 1].end <= |words|
  {
    if |words| >= HEADER_WORDS {
      var l := Link(words, pool);
      var rs := TableRegions(l);
      if Consecutive(rs) {
        assert rs[6].start == rs[5].end && rs[7].start == rs[6].end;
      }
    }
  }

  lemma {:induction false} RangesStart(rs: seq<WordRange>, j: nat, k: nat)
    requires Consecutive(rs) && j < k < |rs|
    ensures rs[j].end <= rs[k].start
    decreases k
  {
    assert rs[k].start == rs[k - 1].end && rs[k - 1].start <= rs[k - 1].end;
    if j < k - 1 {
      RangesStart(rs, j, k - 1);
    }
  }

  lemma {:induction false} RangeHolding(rs: seq<WordRange>, w: nat, n: nat) returns (k: nat)
    requires Consecutive(rs) && 0 < n <= |rs| && w < rs[n - 1].end
    ensures k < n && Within(rs[k], w)
  {
    if rs[n - 1].start <= w {
      k := n - 1;
    } else {
      assert n > 1 && rs[n - 1].start == rs[n - 2].end;
      k := RangeHolding(rs, w, n - 1);
    }
  }

  /** So every word up to the last descriptor's is one region's, inside the
      table, and no other's. */
  lemma EachWordInOneRegion(l: Link, w: nat) returns (k: nat)
    requires Valid(l) && w < StrsOff(l) + 2 * StrsLen(l)
    ensures var rs := TableRegions(l);
      && w < |l.words| && k < |rs| && Within(rs[k], w)
      && forall j | 0 <= j < |rs| && j != k :: !Within(rs[j], w)
  {
    var rs := TableRegions(l);
    NewLinkExact(l.words, l.pool);
    k := RangeHolding(rs, w, |rs|);
    forall j | 0 <= j < |rs| && j != k
      ensures !Within(rs[j], w)
    {
      if j < k {
        RangesStart(rs, j, k);
      } else {
        RangesStart(rs, k, j);
      }
    }
  }

  function Word32(l: Link, w: nat): u32
    requires w + 1 < |l.words|
  {
    l.words[w] + l.words[w + 1] as int * 0x1_0000
  }

  function ClassLen(l: Link): nat requires Valid(l) { l.words[2] }
  function NameRefOf(l: Link): nat requires Valid(l) { l.words[13] }
  function SuperRefOf(l: Link): nat requires Valid(l) { l.words[14] }
  function NameHash(l: Link): u32 requires Valid(l) { Word32(l, 16) }
  function SuperHash(l: Link): u32 requires Valid(l) { Word32(l, 18) }
  function OwnSlots(l: Link): nat requires Valid(l) { l.words[21] }
  function PoolRel(l: Link): u32 requires Valid(l) { Word32(l, 23) }
  function PoolLen(l: Link): nat requires Valid(l) { 4 * l.words[25] as int }

  function SuperIdx(l: Link): Option<nat>
    requires Valid(l)
  {
    if l.words[22] == SUPER_NONE then None else Some(l.words[22])
  }

  /** Word 22, with 65535 for none. */
  lemma SuperIdxIs(l: Link)
    requires Valid(l)
    ensures SuperIdx(l) == if l.words[22] == 65535 then None else Some(l.words[22])
  {
  }

  function CpTag(l: Link, i: nat): Option<byte>
    requires Valid(l)
  {
    if i >= CpCount(l) then None
    else
      var w := l.words[HEADER_WORDS + CpCount(l) + i / 2];
      Some(if i % 2 == 0 then w % 0x100 else w / 0x100)
  }

  function CpWordAt(l: Link, i: nat): Option<u16>
    requires Valid(l)
  {
    if i >= CpCount(l) then None else Some(l.words[HEADER_WORDS + i])
  }

  /** `desc_at_word`: the data offset the descriptor at word `w` holds. */
  function DescAtWord(l: Link, w: nat): Option<u16>
    requires Valid(l)
  {
    var base := MrefsOff(l);
    if w < base || (w - base) % 2 != 0 || (w - base) / 2 >= MrefsLen(l) then None else Some(l.words[w])
  }

  datatype StringDesc = StringDesc(cpOff: u16, lit: u16)

  function StringAtWord(l: Link, w: nat): Option<StringDesc>
    requires Valid(l)
  {
    var base := StrsOff(l);
    if w < base || (w - base) % 2 != 0 || (w - base) / 2 >= StrsLen(l) then None
    else Some(StringDesc(l.words[w], l.words[w + 1]))
  }

  /** `cp_offset` */
  function CpOffset(l: Link, i: nat): Option<nat>
    requires Valid(l)
  {
    match CpTag(l, i)
    case None => None
    case Some(tag) =>
      var w := l.words[HEADER_WORDS + i];
      if IsMethodref(tag) then
        match DescAtWord(l, w)
        case None => None
        case Some(off) => Some(off)
      else if tag == TAG_STRING then
        match StringAtWord(l, w)
        case None => None
        case Some(d) => Some(d.cpOff)
      else Some(w)
  }

  /** String descriptor `k`, in constant-pool order. */
  function StringDescAt(l: Link, k: nat): StringDesc
    requires Valid(l) && k < StrsLen(l)
  {
    StringDesc(l.words[StrsOff(l) + 2 * k], l.words[StrsOff(l) + 2 * k + 1])
  }

  /** A word leads to a String descriptor exactly when it is where one starts,
      and then to that one. */
  lemma StringAtWordExact(l: Link, w: nat, d: StringDesc)
    requires Valid(l)
    ensures StringAtWord(l, w) == Some(d) <==>
      exists k :: 0 <= k < StrsLen(l) && w == StrsOff(l) + 2 * k && d == StringDescAt(l, k)
  {
    if StringAtWord(l, w) == Some(d) {
      var k := (w - StrsOff(l)) / 2;
      assert w == StrsOff(l) + 2 * k && d == StringDescAt(l, k);
    }
  }

  datatype FieldInfo = FieldInfo(name: u16, desc: u16, slotKind: u16)

  function Slot(f: FieldInfo): nat { f.slotKind % 0x1000 }
  function Kind(f: FieldInfo): nat { f.slotKind / 0x1000 }

  /** Instance field `k` of the table. */
  function FieldInfoAt(l: Link, k: nat): FieldInfo
    requires Valid(l) && k < FieldsLen(l)
  {
    var w := FieldsOff(l) + 3 * k;
    FieldInfo(l.words[w], l.words[w + 1], l.words[w + 2])
  }

  /** Static field `k` of the table. */
  function StaticInfoAt(l: Link, k: nat): FieldInfo
    requires Valid(l) && k < StaticsLen(l)
  {
    var w := StaticsOff(l) + 3 * k;
    FieldInfo(l.words[w], l.words[w + 1], l.words[w + 2])
  }

  /** The constant pool as the table shows it to the derivation. */
  function LinkView(l: Link): CpView
    requires Valid(l)
  {
    CpView(seq(CpCount(l), i requires 0 <= i < CpCount(l) => CpTag(l, i).value),
           seq(CpCount(l), i requires 0 <= i < CpCount(l) => CpOffset(l, i)),
           l.pool)
  }

  /** The bytes of `Utf8` entry `i` (`Linked::utf8`). */
  function LinkedUtf8(l: Link, i: nat): Option<seq<byte>>
    requires Valid(l)
  {
    if CpTag(l, i) == Some(TAG_UTF8) then PoolUtf8(l.pool, CpWordAt(l, i).value) else None
  }

  function LinkedName(l: Link): Option<seq<byte>>
    requires Valid(l)
  {
    PoolUtf8(l.pool, NameRefOf(l))
  }

  function LinkedSuperName(l: Link): Option<seq<byte>>
    requires Valid(l)
  {
    if SuperRefOf(l) == 0 then None else PoolUtf8(l.pool, SuperRefOf(l))
  }

  /** The bytes of the constant of the `String` entry with data at `cpOff`. */
  function StringBytes(l: Link, cls: seq<byte>, cpOff: nat): Option<seq<byte>>
    requires Valid(l)
  {
    match Be16(cls, cpOff)
    case None => None
    case Some(ui) => LinkedUtf8(l, ui)
  }

  /** The words that name something in the section: literal ids, `super_idx`,
      the pool's place. */
  predicate External(l: Link, w: nat)
    requires |l.words| >= HEADER_WORDS
  {
    22 <= w <= 25 || (StrsOff(l) <= w < StrsOff(l) + 2 * StrsLen(l) && (w - StrsOff(l)) % 2 == 1)
  }
}
