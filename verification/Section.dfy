/** `crates/class-link/src/section.rs`: a class section read in place, its deep
    check, and what an accepted section promises the runtime. */
module Section {
  import opened Bytes
  import opened ClassFile
  import opened LinkTable
  import Linking
  import SuperChains
  import Utf8Pool

  const SECTION_HEADER_LEN := 16
  const MAX_CLASSES := 4096
  const MAX_LITERALS := 0x3000
  const LIT_UTF8: u16 := 1

  datatype ClassSection = ClassSection(
    data: seq<byte>, count: nat, indexOff: nat, litCount: nat, poolOff: nat, poolLen: nat)

  /** `ClassSection::parse` of `data` at address `addr`. */
  function Parse(data: seq<byte>, addr: nat): Result<ClassSection> {
    if addr % 4 != 0 then Err(Misaligned)
    else
      var count :- OkOr(Le32(data, 0), BadSection);
      var indexOff :- OkOr(Le32(data, 4), BadSection);
      var poolOff :- OkOr(Le32(data, 8), BadSection);
      var poolLen :- OkOr(Le32(data, 12), BadSection);
      if count > MAX_CLASSES then Err(TooManyClasses)
      else
        var dirEnd := SECTION_HEADER_LEN + 8 * count;
        var indexEnd := indexOff + 8 * count;
        if dirEnd > |data| || indexOff < dirEnd || indexEnd > |data| then Err(BadSection)
        else if indexOff % 4 != 0 then Err(Misaligned)
        else
          var litCount :- OkOr(Le32(data, indexEnd), BadSection);
          if litCount > MAX_LITERALS then Err(TooManyLiterals)
          else
            var litsEnd := indexEnd + 4 + 12 * litCount;
            if litsEnd > |data| then Err(BadSection)
            else if poolOff % 4 != 0 || poolLen % 4 != 0 then Err(Misaligned)
            else if poolLen > MAX_POOL_BYTES then Err(PoolTooLarge)
            else if poolOff < litsEnd || poolLen < 4 || poolOff + poolLen != |data| then Err(BadSection)
            else Ok(ClassSection(data, count, indexOff, litCount, poolOff, poolLen))
  }

  /** Every region lies in the section, one after another: what the accessors
      below rely on. */
  predicate Parsed(s: ClassSection) {
    && s.count <= MAX_CLASSES && s.litCount <= MAX_LITERALS
    && SECTION_HEADER_LEN + 8 * s.count <= s.indexOff
    && s.indexOff + 8 * s.count + 4 + 12 * s.litCount <= s.poolOff
    && 4 <= s.poolLen <= MAX_POOL_BYTES
    && s.poolOff + s.poolLen == |s.data|
    && s.indexOff % 4 == 0 && s.poolOff % 4 == 0 && s.poolLen % 4 == 0
  }

  /** Any bytes `parse` accepts make every accessor's reads land in them, and
      it accepts exactly the bytes whose header describes such a layout. */
  lemma ParseExact(data: seq<byte>, addr: nat, s: ClassSection)
    ensures Parse(data, addr) == Ok(s) <==>
      && addr % 4 == 0
      && s.data == data && Parsed(s)
      && Le32(data, 0) == Some(s.count) && Le32(data, 4) == Some(s.indexOff)
      && Le32(data, 8) == Some(s.poolOff) && Le32(data, 12) == Some(s.poolLen)
      && Le32(data, s.indexOff + 8 * s.count) == Some(s.litCount)
  {
  }

  /** And what it refuses the others for. */
  lemma ParseRefusal(data: seq<byte>, addr: nat, e: LinkError)
    requires Parse(data, addr) == Err(e)
    ensures var count, indexOff, poolOff, poolLen := Le32(data, 0), Le32(data, 4), Le32(data, 8), Le32(data, 12);
      match e
      case Misaligned =>
        || addr % 4 != 0 || (indexOff.Some? && indexOff.value % 4 != 0) || (poolOff.Some? && poolOff.value % 4 != 0)
        || (poolLen.Some? && poolLen.value % 4 != 0)
      case TooManyClasses => count.Some? && count.value > 4096
      case PoolTooLarge => poolLen.Some? && poolLen.value > 4 * 65535
      case TooManyLiterals =>
        && count.Some? && indexOff.Some? && Le32(data, indexOff.value + 8 * count.value as int).Some?
        && Le32(data, indexOff.value + 8 * count.value as int).value > 0x3000
      case BadSection =>
        count.None? || indexOff.None? || poolOff.None? || poolLen.None? || !Fitting(data, count.value, indexOff.value, poolOff.value, poolLen.value)
      case _ => false
  {
  }

  /** The directory, the index, the literals and the pool lie one after another
      in the data, the pool last, and it is not empty. */
  predicate Fitting(data: seq<byte>, count: nat, indexOff: nat, poolOff: nat, poolLen: nat) {
    var lits := Le32(data, indexOff + 8 * count);
    && 16 + 8 * count <= indexOff && lits.Some?
    && indexOff + 8 * count + 4 + 12 * lits.value as int <= poolOff && poolLen >= 4 && poolOff + poolLen == |data|
  }

  function PoolOf(s: ClassSection): seq<byte>
    requires Parsed(s)
  {
    s.data[s.poolOff..s.poolOff + s.poolLen]
  }

  // ---- classes -----------------------------------------------------------

  datatype Linked = Linked(cls: seq<byte>, link: Link)

  /** The `n` words at byte `at`. */
  function LeWords(d: seq<byte>, at: nat, n: nat): seq<u16>
    requires at + 2 * n <= |d|
  {
    seq(n, i requires 0 <= i < n => d[at + 2 * i] + d[at + 2 * i + 1] as int * 0x100)
  }

  function Slice(d: seq<byte>, at: nat, len: nat): Option<seq<byte>> {
    if at + len <= |d| then Some(d[at..at + len]) else None
  }

  /** The table at `linkOff` and the class bytes at `classOff`, as long as the
      table's header says. */
  function ReadLinked(data: seq<byte>, classOff: nat, linkOff: nat, pool: seq<byte>): Result<Linked> {
    var totalWords :- OkOr(Le16(data, linkOff + 2), BadSection);
    var classLen :- OkOr(Le16(data, linkOff + 4), BadSection);
    var cls :- OkOr(Slice(data, classOff, classLen), BadSection);
    if linkOff + 2 * totalWords as int > |data| then Err(BadSection)
    else
      var link :- NewLink(LeWords(data, linkOff, totalWords), pool);
      Ok(Linked(cls, link))
  }

  /** `class_checked` */
  function ClassChecked(s: ClassSection, i: nat): Result<Linked>
    requires Parsed(s)
  {
    if i >= s.count then Err(BadSection)
    else
      var classOff :- OkOr(Le32(s.data, 16 + 8 * i), BadSection);
      var linkOff :- OkOr(Le32(s.data, 16 + 8 * i + 4), BadSection);
      if classOff % 4 != 0 || linkOff % 4 != 0 then Err(Misaligned)
      else
        var linked :- ReadLinked(s.data, classOff, linkOff, PoolOf(s));
        ReadIsValid(s.data, classOff, linkOff, PoolOf(s));
        if !NamesPool(s, linked.link, linkOff) then Err(BadPool) else Ok(linked)
  }

  lemma ReadIsValid(data: seq<byte>, classOff: nat, linkOff: nat, pool: seq<byte>)
    ensures ReadLinked(data, classOff, linkOff, pool).Ok? ==>
      var linked := ReadLinked(data, classOff, linkOff, pool).value;
      && Valid(linked.link) && linked.link.pool == pool
  {
  }

  /** The table's own words say where the section's pool is. */
  predicate NamesPool(s: ClassSection, link: Link, linkOff: nat)
    requires Parsed(s) && Valid(link)
  {
    linkOff <= s.poolOff && PoolRel(link) == s.poolOff - linkOff && PoolLen(link) == s.poolLen
  }

  /** Class `i` as the directory leads to it: both parts 4-aligned, the table as
      long as its second word and the class bytes as its third say, and the
      table's words 23 to 25 naming the section's pool. */
  ghost predicate HandedOut(s: ClassSection, i: nat, classOff: nat, linkOff: nat, linked: Linked)
    requires Parsed(s)
  {
    var words := linked.link.words;
    && i < s.count && Le32(s.data, 16 + 8 * i) == Some(classOff) && Le32(s.data, 20 + 8 * i) == Some(linkOff)
    && classOff % 4 == 0 && linkOff % 4 == 0
    && Le16(s.data, linkOff + 2) == Some(|words|) && Le16(s.data, linkOff + 4) == Some(|linked.cls|)
    && classOff + |linked.cls| <= |s.data| && linked.cls == s.data[classOff..classOff + |linked.cls|]
    && (forall w | 0 <= w < |words| :: Le16(s.data, linkOff + 2 * w) == Some(words[w]))
    && linked.link.pool == s.data[s.poolOff..] && Valid(linked.link)
    && words[23] + words[24] as int * 0x1_0000 + linkOff == s.poolOff && 4 * words[25] as int == s.poolLen
  }

  lemma WordsAre(d: seq<byte>, at: nat, words: seq<u16>)
    requires at + 2 * |words| <= |d|
    ensures words == LeWords(d, at, |words|) <==> forall w | 0 <= w < |words| :: Le16(d, at + 2 * w) == Some(words[w])
  {
    var read := LeWords(d, at, |words|);
    assert forall w | 0 <= w < |words| :: Le16(d, at + 2 * w) == Some(read[w]);
    if forall w | 0 <= w < |words| :: Le16(d, at + 2 * w) == Some(words[w]) {
      assert forall w | 0 <= w < |words| :: Some(words[w]) == Some(read[w]);
      assert words == read;
    }
  }

  /** A class is handed out exactly when the section has it so. */
  lemma ClassCheckedExact(s: ClassSection, i: nat, linked: Linked)
    requires Parsed(s)
    ensures ClassChecked(s, i) == Ok(linked) <==> exists classOff, linkOff :: HandedOut(s, i, classOff, linkOff, linked)
  {
    hide NewLink, LeWords;
    assert s.data[s.poolOff..] == PoolOf(s);
    if ClassChecked(s, i) == Ok(linked) {
      var classOff, linkOff := Le32(s.data, 16 + 8 * i).value, Le32(s.data, 16 + 8 * i + 4).value;
      CheckedParts(s, i, classOff, linkOff, linked);
    }
    if classOff, linkOff :| HandedOut(s, i, classOff, linkOff, linked) {
      PartsChecked(s, i, classOff, linkOff, linked);
    }
  }

  lemma CheckedParts(s: ClassSection, i: nat, classOff: nat, linkOff: nat, linked: Linked)
    requires Parsed(s) && ClassChecked(s, i) == Ok(linked)
    requires Le32(s.data, 16 + 8 * i) == Some(classOff) && Le32(s.data, 16 + 8 * i + 4) == Some(linkOff)
    ensures HandedOut(s, i, classOff, linkOff, linked)
  {
    hide NewLink;
    assert s.data[s.poolOff..] == PoolOf(s);
    CheckedIsValid(s, i);
    ReadIsLong(s.data, classOff, linkOff, PoolOf(s), linked);
    WordsAre(s.data, linkOff, linked.link.words);
  }

  lemma ReadIsLong(data: seq<byte>, classOff: nat, linkOff: nat, pool: seq<byte>, linked: Linked)
    requires ReadLinked(data, classOff, linkOff, pool) == Ok(linked)
    ensures |linked.link.words| >= HEADER_WORDS && linkOff + 2 * |linked.link.words| <= |data|
    ensures linked.link.words == LeWords(data, linkOff, |linked.link.words|)
    ensures Le16(data, linkOff + 2) == Some(|linked.link.words|) && Le16(data, linkOff + 4) == Some(|linked.cls|)
    ensures classOff + |linked.cls| <= |data| && linked.cls == data[classOff..classOff + |linked.cls|]
  {
  }

  lemma TableReads(data: seq<byte>, classOff: nat, linkOff: nat, linked: Linked)
    requires linkOff + 2 * |linked.link.words| <= |data| && Valid(linked.link)
    requires linked.link.words == LeWords(data, linkOff, |linked.link.words|)
    requires Le16(data, linkOff + 2) == Some(|linked.link.words|) && Le16(data, linkOff + 4) == Some(|linked.cls|)
    requires classOff + |linked.cls| <= |data| && linked.cls == data[classOff..classOff + |linked.cls|]
    ensures ReadLinked(data, classOff, linkOff, linked.link.pool) == Ok(linked)
  {
    hide LeWords;
    LinkRead(linked.link);
  }

  lemma LinkRead(l: Link)
    requires Valid(l)
    ensures NewLink(l.words, l.pool) == Ok(l) && |l.words| >= HEADER_WORDS
  {
  }

  lemma PartsChecked(s: ClassSection, i: nat, classOff: nat, linkOff: nat, linked: Linked)
    requires Parsed(s) && HandedOut(s, i, classOff, linkOff, linked)
    ensures ClassChecked(s, i) == Ok(linked)
  {
    hide NewLink, LeWords, ReadLinked, Le16, Le32;
    var words := linked.link.words;
    LinkRead(linked.link);
    LastWord(s.data, linkOff + 2 * (|words| - 1), words[|words| - 1]);
    WordsAre(s.data, linkOff, words);
    TableReads(s.data, classOff, linkOff, linked);
    assert s.data[s.poolOff..] == PoolOf(s);
  }

  lemma LastWord(d: seq<byte>, at: nat, w: u16)
    requires Le16(d, at) == Some(w)
    ensures at + 2 <= |d|
  {
  }

  lemma CheckedIsValid(s: ClassSection, i: nat)
    requires Parsed(s) && ClassChecked(s, i).Ok?
    ensures i < s.count && Valid(ClassChecked(s, i).value.link) && ClassChecked(s, i).value.link.pool == PoolOf(s)
  {
    ReadIsValid(s.data, Le32(s.data, 16 + 8 * i).value, Le32(s.data, 16 + 8 * i + 4).value, PoolOf(s));
  }

  /** `Link::from_raw`: the table at byte `at` and its pool, found through the
      table's own words. */
  function FromRaw(data: seq<byte>, at: nat): Option<Link> {
    match Le16(data, at + 2)
    case None => None
    case Some(total) =>
      if at + 2 * total as int > |data| || total < HEADER_WORDS then None
      else
        var words := LeWords(data, at, total);
        var rel := words[23] + words[24] as int * 0x1_0000;
        var len := 4 * words[25] as int;
        if at + rel + len > |data| then None else Some(Link(words, data[at + rel..at + rel + len]))
  }

  /** What the runtime finds from a table's address alone is what the section
      handed out: the same words and the same pool. */
  lemma CheckedFoundByAddress(s: ClassSection, i: nat)
    requires Parsed(s) && ClassChecked(s, i).Ok?
    ensures FromRaw(s.data, Le32(s.data, 16 + 8 * i + 4).value) == Some(ClassChecked(s, i).value.link)
  {
    var at := Le32(s.data, 16 + 8 * i + 4).value;
    CheckedIsValid(s, i);
    AddressFinds(s, Le32(s.data, 16 + 8 * i).value, at, ClassChecked(s, i).value.link);
  }

  lemma AddressFinds(s: ClassSection, classOff: nat, at: nat, link: Link)
    requires Parsed(s) && ReadLinked(s.data, classOff, at, PoolOf(s)).Ok?
    requires ReadLinked(s.data, classOff, at, PoolOf(s)).value.link == link && Valid(link) && NamesPool(s, link, at)
    ensures FromRaw(s.data, at) == Some(link)
  {
    assert link.words == LeWords(s.data, at, |link.words|);
    RawFinds(s.data, at, link, s.poolOff - at, s.poolLen);
  }

  lemma RawFinds(data: seq<byte>, at: nat, link: Link, rel: nat, len: nat)
    requires Valid(link) && Le16(data, at + 2) == Some(|link.words|) && at + 2 * |link.words| <= |data|
    requires link.words == LeWords(data, at, |link.words|) && PoolRel(link) == rel && PoolLen(link) == len
    requires at + rel + len <= |data| && link.pool == data[at + rel..at + rel + len]
    ensures FromRaw(data, at) == Some(link)
  {
  }

  /** The superclass position of each class (`class(i)?.link.super_idx()`). */
  function SuperIdxAt(s: ClassSection, i: nat): Option<nat>
    requires Parsed(s)
  {
    match ClassChecked(s, i)
    case Err(_) => None
    case Ok(linked) => CheckedIsValid(s, i); SuperIdx(linked.link)
  }

  function SupersOf(s: ClassSection): SuperChains.Supers
    requires Parsed(s)
  {
    seq(s.count, i requires 0 <= i < s.count => SuperIdxAt(s, i))
  }

  /** `class(i)?.name()` */
  function ClassName(s: ClassSection, i: nat): Option<seq<byte>>
    requires Parsed(s)
  {
    match ClassChecked(s, i)
    case Err(_) => None
    case Ok(linked) => CheckedIsValid(s, i); LinkedName(linked.link)
  }

  // ---- the index ---------------------------------------------------------

  datatype IndexEntry = IndexEntry(hash: u32, idx: u16, pad: u16)

  function IndexAt(s: ClassSection, k: nat): IndexEntry
    requires Parsed(s) && k < s.count
  {
    var at := s.indexOff + 8 * k;
    IndexEntry(Le32(s.data, at).value, Le16(s.data, at + 4).value, Le16(s.data, at + 6).value)
  }

  function IndexOf(s: ClassSection): seq<IndexEntry>
    requires Parsed(s)
  {
    seq(s.count, k requires 0 <= k < s.count => IndexAt(s, k))
  }

  /** `partition_point` by binary search between `lo` and `hi`: where `below`
      stops holding, if it holds on a prefix. */
  function PartitionPoint(index: seq<IndexEntry>, below: IndexEntry -> bool, lo: nat, hi: nat): (p: nat)
    requires lo <= hi <= |index|
    ensures lo <= p <= hi
    decreases hi - lo
  {
    if lo == hi then lo
    else
      var mid := (lo + hi) / 2;
      if below(index[mid]) then PartitionPoint(index, below, mid + 1, hi)
      else PartitionPoint(index, below, lo, mid)
  }

  /** `find`: the entries whose hash is `hash`. */
  function Find(index: seq<IndexEntry>, hash: u32): seq<IndexEntry> {
    var lo := PartitionPoint(index, (e: IndexEntry) => e.hash < hash, 0, |index|);
    var hi := PartitionPoint(index, (e: IndexEntry) => e.hash == hash, lo, |index|);
    index[lo..hi]
  }

  /** The first of `entries` whose class is named `name`. */
  function FirstNamed(s: ClassSection, entries: seq<IndexEntry>, name: seq<byte>): Option<nat>
    requires Parsed(s)
  {
    if entries == [] then None
    else if ClassName(s, entries[0].idx) == Some(name) then Some(entries[0].idx)
    else FirstNamed(s, entries[1..], name)
  }

  /** `find_class` */
  function FindClass(env: Env, s: ClassSection, name: seq<byte>): Option<nat>
    requires Parsed(s)
  {
    FirstNamed(s, Find(IndexOf(s), env.nameHash(name)), name)
  }

  // ---- the literals ------------------------------------------------------

  datatype Literal = Literal(hash: u32, off: u32, len: u16, flags: u16)

  function LitRow(s: ClassSection, i: nat): Option<Literal>
    requires Parsed(s)
  {
    if i >= s.litCount then None
    else
      var at := s.indexOff + 8 * s.count + 4 + 12 * i;
      Some(Literal(Le32(s.data, at).value, Le32(s.data, at + 4).value,
                   Le16(s.data, at + 8).value, Le16(s.data, at + 10).value))
  }

  function LitBytes(s: ClassSection, i: nat): Option<seq<byte>>
    requires Parsed(s)
  {
    match LitRow(s, i)
    case None => None
    case Some(row) => Slice(s.data, row.off, row.len)
  }

  function LitFlags(env: Env, bytes: seq<byte>): u16 { if env.isUtf8(bytes) then LIT_UTF8 else 0 }

  // ---- the deep check ----------------------------------------------------

  function CheckLiteral(env: Env, s: ClassSection, i: nat): Result<()>
    requires Parsed(s)
  {
    var bytes :- OkOr(LitBytes(s, i), BadLiteral);
    var row :- OkOr(LitRow(s, i), BadLiteral);
    if row.hash != env.stringHash(bytes) || row.flags != LitFlags(env, bytes) then Err(BadLiteral) else Ok(())
  }

  function LiteralVerdicts(env: Env, s: ClassSection): seq<Result<()>>
    requires Parsed(s)
  {
    seq(s.litCount, i requires 0 <= i < s.litCount => CheckLiteral(env, s, i))
  }

  function CheckLiterals(env: Env, s: ClassSection): Result<()>
    requires Parsed(s)
  {
    FirstErr(LiteralVerdicts(env, s))
  }

  /** String descriptor `k` of a class names the row that holds its bytes. */
  function CheckString(s: ClassSection, linked: Linked, k: nat): Result<()>
    requires Parsed(s) && Valid(linked.link) && k < StrsLen(linked.link)
  {
    var d := StringDescAt(linked.link, k);
    var bytes :- OkOr(StringBytes(linked.link, linked.cls, d.cpOff), BadLiteral);
    if LitBytes(s, d.lit) != Some(bytes) then Err(BadLiteral) else Ok(())
  }

  function StringVerdicts(s: ClassSection, linked: Linked): seq<Result<()>>
    requires Parsed(s) && Valid(linked.link)
  {
    seq(StrsLen(linked.link), k requires 0 <= k < StrsLen(linked.link) => CheckString(s, linked, k))
  }

  function CheckStrings(s: ClassSection, linked: Linked): Result<()>
    requires Parsed(s) && Valid(linked.link)
  {
    FirstErr(StringVerdicts(s, linked))
  }

  /** Where the section holds a class's superclass, searched by the hash the
      table carries. */
  function ExpectedSuper(s: ClassSection, link: Link): Option<nat>
    requires Parsed(s) && Valid(link)
  {
    match LinkedSuperName(link)
    case None => None
    case Some(name) => FirstNamed(s, Find(IndexOf(s), SuperHash(link)), name)
  }

  ghost function CheckClass(env: Env, s: ClassSection, i: nat): Result<()>
    requires Parsed(s)
  {
    var linked :- ClassChecked(s, i);
    CheckedIsValid(s, i);
    CheckLinked(env, s, i, linked)
  }

  /** The checks of one class once it is read. */
  ghost function CheckLinked(env: Env, s: ClassSection, i: nat, linked: Linked): Result<()>
    requires Parsed(s) && Valid(linked.link)
  {
    var _ :- Linking.ValidateLink(env, linked.link, linked.cls);
    if LinkedName(linked.link).None? then Err(BadOffset(13))
    else
      var _ :- CheckStrings(s, linked);
      if SuperIdx(linked.link) != ExpectedSuper(s, linked.link) then Err(BadSuperIndex(AsU16(i))) else Ok(())
  }

  ghost function ClassVerdicts(env: Env, s: ClassSection): seq<Result<()>>
    requires Parsed(s)
  {
    seq(s.count, i requires 0 <= i < s.count => CheckClass(env, s, i))
  }

  /** The two entries at `n - 1` and `n` must ascend by hash. */
  function CheckAscent(s: ClassSection, n: nat, name: Option<seq<byte>>): Result<()>
    requires Parsed(s) && 0 < n < s.count
  {
    var prev, e := IndexAt(s, n - 1), IndexAt(s, n);
    if prev.hash > e.hash then Err(BadIndex)
    else if prev.hash == e.hash then
      var a :- ClassChecked(s, prev.idx);
      CheckedIsValid(s, prev.idx);
      if LinkedName(a.link) == name then Err(DuplicateClass(prev.idx, e.idx)) else Err(HashCollision(prev.idx, e.idx))
    else Ok(())
  }

  /** Entry `n`: a class of the set not met before, with its own hash, above
      the entry before it. */
  function CheckEntry(s: ClassSection, n: nat, seen: set<nat>): Result<()>
    requires Parsed(s) && n < s.count
  {
    var e := IndexAt(s, n);
    if e.idx >= s.count || e.pad != 0 then Err(BadIndex)
    else if e.idx in seen then Err(BadIndex)
    else
      var linked :- ClassChecked(s, e.idx);
      CheckedIsValid(s, e.idx);
      if NameHash(linked.link) != e.hash then Err(BadIndex)
      else if n > 0 then CheckAscent(s, n, LinkedName(linked.link))
      else Ok(())
  }

  /** The classes the first `n` entries name. */
  function SeenBefore(s: ClassSection, n: nat): set<nat>
    requires Parsed(s) && n <= s.count
  {
    if n == 0 then {} else SeenBefore(s, n - 1) + {IndexAt(s, n - 1).idx}
  }

  function IndexVerdicts(s: ClassSection): seq<Result<()>>
    requires Parsed(s)
  {
    seq(s.count, k requires 0 <= k < s.count => CheckEntry(s, k, SeenBefore(s, k)))
  }

  ghost predicate IndexPasses(s: ClassSection)
    requires Parsed(s)
  {
    FirstErr(IndexVerdicts(s)).Ok?
  }

  /** `ClassSection::validate` */
  ghost function Validate(env: Env, s: ClassSection): Result<()>
    requires Parsed(s)
  {
    var _ :- Utf8Pool.CheckPool(PoolOf(s));
    var _ :- CheckLiterals(env, s);
    var _ :- FirstErr(ClassVerdicts(env, s));
    CheckedSupersClosed(env, s);
    var _ :- SuperChains.Verdict(SupersOf(s), 0);
    FirstErr(IndexVerdicts(s))
  }

  /** What passing means for one class. */
  lemma CheckedClass(env: Env, s: ClassSection, i: nat)
    requires Parsed(s) && CheckClass(env, s, i).Ok?
    ensures ClassChecked(s, i).Ok? && i < s.count && Valid(ClassChecked(s, i).value.link)
    ensures var linked := ClassChecked(s, i).value;
      && Linking.ValidateLink(env, linked.link, linked.cls).Ok?
      && LinkedName(linked.link).Some?
      && CheckStrings(s, linked).Ok?
      && SuperIdx(linked.link) == ExpectedSuper(s, linked.link)
  {
    CheckedIsValid(s, i);
  }

  lemma EachClassChecked(env: Env, s: ClassSection, i: nat)
    requires Parsed(s) && FirstErr(ClassVerdicts(env, s)).Ok? && i < s.count
    ensures CheckClass(env, s, i).Ok?
  {
    FirstErrOk(ClassVerdicts(env, s));
    assert ClassVerdicts(env, s)[i].Ok?;
  }

  lemma {:induction false} FirstNamedIsClass(s: ClassSection, entries: seq<IndexEntry>, name: seq<byte>)
    requires Parsed(s)
    ensures FirstNamed(s, entries, name).Some? ==>
      var j := FirstNamed(s, entries, name).value;
      j < s.count && ClassName(s, j) == Some(name) && exists k :: 0 <= k < |entries| && entries[k].idx == j
    decreases |entries|
  {
    if entries != [] && ClassName(s, entries[0].idx) != Some(name) {
      FirstNamedIsClass(s, entries[1..], name);
      if FirstNamed(s, entries, name).Some? {
        var k :| 0 <= k < |entries[1..]| && entries[1..][k].idx == FirstNamed(s, entries, name).value;
        assert entries[k + 1].idx == FirstNamed(s, entries, name).value;
      }
    }
  }

  lemma CheckedSupersClosed(env: Env, s: ClassSection)
    requires Parsed(s) && FirstErr(ClassVerdicts(env, s)).Ok?
    ensures SuperChains.Closed(SupersOf(s))
  {
    forall i | 0 <= i < s.count && SupersOf(s)[i].Some?
      ensures SupersOf(s)[i].value < s.count
    {
      EachClassChecked(env, s, i);
      CheckedClass(env, s, i);
      ExpectedSuperIsClass(s, ClassChecked(s, i).value.link);
    }
  }

  lemma ExpectedSuperIsClass(s: ClassSection, link: Link)
    requires Parsed(s) && Valid(link)
    ensures ExpectedSuper(s, link).Some? ==> ExpectedSuper(s, link).value < s.count
  {
    if LinkedSuperName(link).Some? {
      FirstNamedIsClass(s, Find(IndexOf(s), SuperHash(link)), LinkedSuperName(link).value);
    }
  }
}
