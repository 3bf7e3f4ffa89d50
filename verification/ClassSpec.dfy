/** What a class file must be for the linker to take it, and what its link table
    must then say, read off the file by the class file format alone. Positions
    are counted from the end of the constant pool, so that they are the same
    whether the strings are in place or have moved out. */
module ClassSpec {
  import opened Bytes
  import opened ClassGrammar
  import Bytecode
  import ClassFile
  import Descriptor

  type Env = ClassFile.Env

  // ---- constants ---------------------------------------------------------

  /** What an entry says, as far as the linker asks. */
  datatype Constant =
    | ConstText(bytes: seq<byte>)
    | ConstClass(name: nat)
    | ConstString(text: nat)
    | ConstMethod(ofInterface: bool, cls: nat, sig: nat)
    | ConstNameAndType(name: nat, desc: nat)
    | ConstOther

  function TextOf(cs: seq<Constant>, i: nat): Option<seq<byte>> {
    if i < |cs| && cs[i].ConstText? then Some(cs[i].bytes) else None
  }

  /** Entry `e`, whose data starts after its tag, says `c`. A `Utf8`'s bytes
      are read in place only. */
  ghost predicate Says(cls: seq<byte>, e: Entry, c: Constant)
    requires e.at < |cls|
  {
    match c
    case ConstText(bytes) => cls[e.at] == 1 && e.at + 3 <= e.end <= |cls| && bytes == cls[e.at + 3..e.end]
    case ConstClass(name) => cls[e.at] == 7 && Be16(cls, e.at + 1) == Some(name)
    case ConstString(text) => cls[e.at] == 8 && Be16(cls, e.at + 1) == Some(text)
    case ConstMethod(ofInterface, c, sig) =>
      && cls[e.at] == (if ofInterface then 11 else 10)
      && Be16(cls, e.at + 1) == Some(c) && Be16(cls, e.at + 3) == Some(sig)
    case ConstNameAndType(name, desc) =>
      cls[e.at] == 12 && Be16(cls, e.at + 1) == Some(name) && Be16(cls, e.at + 3) == Some(desc)
    case ConstOther => cls[e.at] !in [1, 7, 8, 10, 11, 12]
  }

  /** The constants of a class file, index by index; index 0 and the second
      index of a `Long` or `Double` say nothing. */
  ghost predicate SaysAll(cls: seq<byte>, entries: seq<Entry>, count: nat, cs: seq<Constant>) {
    && |cs| == (if count == 0 then 1 else count)
    && (forall e | e in entries :: e.at < |cls| && e.index < |cs| && Says(cls, e, cs[e.index]))
    && forall i | 0 <= i < |cs| && (forall e | e in entries :: e.index != i) :: cs[i] == ConstOther
  }

  /** A section's pool has `bytes` at `ref`, which counts units of four bytes:
      big-endian length first. */
  ghost predicate PoolHolds(pool: seq<byte>, ref: nat, bytes: seq<byte>) {
    && Be16(pool, 4 * ref) == Some(|bytes|) && 4 * ref + 2 + |bytes| <= |pool|
    && pool[4 * ref + 2..4 * ref + 2 + |bytes|] == bytes
  }

  /** The constants of a class file whose strings have moved to `pool`, where
      the word of each `Utf8` leads. */
  ghost predicate SaysPooled(
    cls: seq<byte>, pool: seq<byte>, words: seq<u16>, entries: seq<Entry>, count: nat, cs: seq<Constant>)
  {
    && |cs| == count
    && (forall e | e in entries ::
          && e.at < |cls| && e.index < |cs| && 26 + e.index < |words|
          && if cls[e.at] == 1 then cs[e.index].ConstText? && PoolHolds(pool, words[26 + e.index], cs[e.index].bytes)
             else Says(cls, e, cs[e.index]))
    && forall i | 0 <= i < |cs| && (forall e | e in entries :: e.index != i) :: cs[i] == ConstOther
  }

  // ---- after the constant pool: sections 4.1, 4.5 to 4.7 ------------------

  /** The file from `base` on. */
  datatype Tail = Tail(file: seq<byte>, base: nat)

  function U16(t: Tail, p: nat): Option<u16> { Be16(t.file, t.base + p) }

  function U32(t: Tail, p: nat): Option<u32> { Be32(t.file, t.base + p) }

  predicate Reaches(t: Tail, p: nat) { t.base + p <= |t.file| }

  /** An `attribute_info`: where it starts, its name's index, its length. */
  datatype Attr = Attr(at: nat, name: nat, len: nat)

  ghost predicate AttrsLie(t: Tail, attrs: seq<Attr>, p: nat, end: nat) {
    if attrs == [] then end == p
    else
      var a := attrs[0];
      && a.at == p && U16(t, p) == Some(a.name) && U32(t, p + 2) == Some(a.len) && Reaches(t, p + 6 + a.len)
      && AttrsLie(t, attrs[1..], p + 6 + a.len, end)
  }

  /** A count and as many attributes. */
  ghost predicate AttrTable(t: Tail, attrs: seq<Attr>, p: nat, end: nat) {
    U16(t, p) == Some(|attrs|) && AttrsLie(t, attrs, p + 2, end)
  }

  /** A `field_info` or a `method_info`, from `at` to `end`. */
  datatype Member = Member(at: nat, access: nat, name: nat, desc: nat, attrs: seq<Attr>, end: nat)

  ghost predicate MemberLies(t: Tail, m: Member) {
    && U16(t, m.at) == Some(m.access) && U16(t, m.at + 2) == Some(m.name) && U16(t, m.at + 4) == Some(m.desc)
    && AttrTable(t, m.attrs, m.at + 6, m.end)
  }

  ghost predicate MembersLie(t: Tail, ms: seq<Member>, p: nat, end: nat) {
    if ms == [] then end == p
    else ms[0].at == p && MemberLies(t, ms[0]) && MembersLie(t, ms[1..], ms[0].end, end)
  }

  ghost predicate MemberTable(t: Tail, ms: seq<Member>, p: nat, end: nat) {
    U16(t, p) == Some(|ms|) && MembersLie(t, ms, p + 2, end)
  }

  /** Everything after the constant pool. */
  datatype Body = Body(
    access: nat, thisClass: nat, superClass: nat, ifaces: seq<nat>,
    fields: seq<Member>, fieldsEnd: nat, methods: seq<Member>, methodsEnd: nat, attrs: seq<Attr>, end: nat)

  ghost predicate MembersPart(t: Tail, b: Body) {
    && U16(t, 0) == Some(b.access) && U16(t, 2) == Some(b.thisClass) && U16(t, 4) == Some(b.superClass)
    && U16(t, 6) == Some(|b.ifaces|)
    && (forall j | 0 <= j < |b.ifaces| :: U16(t, 8 + 2 * j) == Some(b.ifaces[j]))
    && MemberTable(t, b.fields, 8 + 2 * |b.ifaces|, b.fieldsEnd)
    && MemberTable(t, b.methods, b.fieldsEnd, b.methodsEnd)
  }

  ghost predicate BodyLies(t: Tail, b: Body) {
    MembersPart(t, b) && AttrTable(t, b.attrs, b.methodsEnd, b.end)
  }

  // The attribute names the linker asks for, in ASCII.
  const CODE_ATTR: seq<byte> := // Code
    [0x43, 0x6f, 0x64, 0x65]
  const LINES_ATTR: seq<byte> := // LineNumberTable
    [0x4c, 0x69, 0x6e, 0x65, 0x4e, 0x75, 0x6d, 0x62, 0x65, 0x72, 0x54, 0x61, 0x62, 0x6c, 0x65]
  const BOOTSTRAP_ATTR: seq<byte> := // BootstrapMethods
    [0x42, 0x6f, 0x6f, 0x74, 0x73, 0x74, 0x72, 0x61, 0x70, 0x4d, 0x65, 0x74, 0x68, 0x6f, 0x64, 0x73]
  const SOURCE_ATTR: seq<byte> := // SourceFile
    [0x53, 0x6f, 0x75, 0x72, 0x63, 0x65, 0x46, 0x69, 0x6c, 0x65]

  predicate Named(cs: seq<Constant>, a: Attr, name: seq<byte>) { TextOf(cs, a.name) == Some(name) }

  /** The body of a `Code` attribute: `code_length`, `exception_table_length`
      and the attributes after the table. The code itself starts 14 bytes into
      the attribute. */
  datatype Code = Code(len: nat, handlers: nat, subs: seq<Attr>, end: nat)

  ghost predicate CodeLies(t: Tail, a: Attr, c: Code) {
    && U32(t, a.at + 10) == Some(c.len)
    && U16(t, a.at + 14 + c.len) == Some(c.handlers)
    && AttrTable(t, c.subs, a.at + 14 + c.len + 2 + 8 * c.handlers, c.end)
  }

  function CodeBytes(t: Tail, a: Attr, c: Code): seq<byte>
    requires Reaches(t, a.at + 14 + c.len)
  {
    t.file[t.base + a.at + 14..t.base + a.at + 14 + c.len]
  }

  /** Section 4.9.1: 1 to 65535 bytes that whole legal instructions tile. */
  ghost predicate CodeIsLegal(code: seq<byte>) {
    0 < |code| <= 65535 && exists cuts :: Bytecode.Tiles(code, cuts, |code|)
  }

  /** The entries of a `BootstrapMethods` attribute, with their argument counts. */
  ghost predicate BootstrapsLie(t: Tail, args: seq<nat>, p: nat, end: nat) {
    if args == [] then end == p
    else
      && U16(t, p + 2) == Some(args[0]) && Reaches(t, p + 4 + 2 * args[0])
      && BootstrapsLie(t, args[1..], p + 4 + 2 * args[0], end)
  }

  ghost predicate BootstrapTable(t: Tail, a: Attr, args: seq<nat>, end: nat) {
    U16(t, a.at + 6) == Some(|args|) && BootstrapsLie(t, args, a.at + 8, end) && end <= a.at + 6 + a.len
  }

  // ---- what must hold for the class to link ------------------------------

  /** A `Utf8` that is UTF-8. */
  ghost predicate IsName(env: Env, cs: seq<Constant>, i: nat) {
    TextOf(cs, i).Some? && env.isUtf8(TextOf(cs, i).value)
  }

  /** A `Class` with a name. */
  ghost predicate NamesClass(env: Env, cs: seq<Constant>, i: nat) {
    i < |cs| && cs[i].ConstClass? && IsName(env, cs, cs[i].name) && TextOf(cs, cs[i].name) != Some([])
  }

  ghost predicate HasParams(desc: seq<byte>, n: nat) {
    n <= 255 && exists params :: |params| == n && Descriptor.Describes(desc, params)
  }

  /** A Methodref's class, its name and type, and a descriptor of `n` parameters. */
  ghost predicate TakesParams(cs: seq<Constant>, m: Constant, n: nat)
    requires m.ConstMethod?
  {
    && m.cls < |cs| && cs[m.cls].ConstClass?
    && m.sig < |cs| && cs[m.sig].ConstNameAndType?
    && TextOf(cs, cs[m.sig].desc).Some? && HasParams(TextOf(cs, cs[m.sig].desc).value, n)
  }

  ghost predicate ConstantLinks(env: Env, cs: seq<Constant>, c: Constant) {
    match c
    case ConstClass(name) => IsName(env, cs, name)
    case ConstString(text) => TextOf(cs, text).Some?
    case ConstNameAndType(name, desc) => IsName(env, cs, name) && IsName(env, cs, desc)
    case ConstMethod(_, _, _) => exists n: nat :: TakesParams(cs, c, n)
    case _ => true
  }

  /** Section 4.5: `ACC_STATIC` is 0x0008. */
  predicate StaticMember(m: Member) { m.access / 0x0008 % 2 == 1 }

  function Members(ms: seq<Member>, statics: bool): seq<Member> {
    if ms == [] then []
    else (if StaticMember(ms[0]) == statics then [ms[0]] else []) + Members(ms[1..], statics)
  }

  /** How the runtime stores a field of this descriptor: a reference 0, an int
      1 (`B C I S Z`), a float 2, a long 3, a double 4. */
  function StorageOf(desc: seq<byte>): nat {
    if desc == [] then 0
    else if desc[0] in [0x42, 0x43, 0x49, 0x53, 0x5a] then 1
    else if desc[0] == 0x46 then 2
    else if desc[0] == 0x4a then 3
    else if desc[0] == 0x44 then 4
    else 0
  }

  function StorageIn(cs: seq<Constant>, m: Member): nat {
    match TextOf(cs, m.desc)
    case None => 0
    case Some(desc) => StorageOf(desc)
  }

  /** The slots of the first `k` fields; a long or a double takes two. */
  function SlotsTo(cs: seq<Constant>, ms: seq<Member>, k: nat): nat
    requires k <= |ms|
  {
    if k == 0 then 0 else SlotsTo(cs, ms, k - 1) + (if StorageIn(cs, ms[k - 1]) in [3, 4] then 2 else 1)
  }

  ghost predicate FieldsLink(env: Env, cs: seq<Constant>, fields: seq<Member>) {
    && (forall j | 0 <= j < |fields| :: IsName(env, cs, fields[j].name) && IsName(env, cs, fields[j].desc))
    && SlotsTo(cs, Members(fields, false), |Members(fields, false)|) <= 0x0FFF
    && |Members(fields, true)| <= 0x1000
  }

  /** The `Code` attributes of a method, each with its body; `None` for others. */
  ghost predicate CodesLie(cs: seq<Constant>, t: Tail, attrs: seq<Attr>, codes: seq<Option<Code>>) {
    && |codes| == |attrs|
    && forall j | 0 <= j < |attrs| ::
         && (codes[j].Some? <==> Named(cs, attrs[j], CODE_ATTR))
         && (codes[j].Some? ==>
               && CodeLies(t, attrs[j], codes[j].value)
               && Reaches(t, attrs[j].at + 14 + codes[j].value.len)
               && CodeIsLegal(CodeBytes(t, attrs[j], codes[j].value)))
  }

  ghost predicate MethodLinks(env: Env, cs: seq<Constant>, t: Tail, m: Member, codes: seq<Option<Code>>) {
    IsName(env, cs, m.name) && IsName(env, cs, m.desc) && CodesLie(cs, t, m.attrs, codes)
  }

  ghost predicate AttrLinks(cs: seq<Constant>, t: Tail, a: Attr) {
    Named(cs, a, BOOTSTRAP_ATTR) ==> exists args, end :: BootstrapTable(t, a, args, end)
  }

  function MethodsAmong(cs: seq<Constant>, n: nat): nat
    requires n <= |cs|
  {
    if n == 0 then 0 else MethodsAmong(cs, n - 1) + if cs[n - 1].ConstMethod? then 1 else 0
  }

  function StringsAmong(cs: seq<Constant>, n: nat): nat
    requires n <= |cs|
  {
    if n == 0 then 0 else StringsAmong(cs, n - 1) + if cs[n - 1].ConstString? then 1 else 0
  }

  /** Where the regions of the table start: after 26 words of header, a word an
      entry and a byte an entry, 3 words a field, a static and an interface, 6 a
      method, 2 a Methodref and a String. */
  function FieldsAt(cs: seq<Constant>): nat { 26 + |cs| + (|cs| + 1) / 2 }

  function StaticsAt(cs: seq<Constant>, b: Body): nat { FieldsAt(cs) + 3 * |Members(b.fields, false)| }

  function IfacesAt(cs: seq<Constant>, b: Body): nat { StaticsAt(cs, b) + 3 * |Members(b.fields, true)| }

  function MethodsAt(cs: seq<Constant>, b: Body): nat { IfacesAt(cs, b) + 3 * |b.ifaces| }

  function MrefsAt(cs: seq<Constant>, b: Body): nat { MethodsAt(cs, b) + 6 * |b.methods| }

  function StringsAt(cs: seq<Constant>, b: Body): nat { MrefsAt(cs, b) + 2 * MethodsAmong(cs, |cs|) }

  function TableEnd(cs: seq<Constant>, b: Body): nat { StringsAt(cs, b) + 2 * StringsAmong(cs, |cs|) }

  /** Everything `derive` asks of a class. */
  ghost predicate Linkable(env: Env, cs: seq<Constant>, t: Tail, b: Body, codes: seq<seq<Option<Code>>>) {
    && BodyLies(t, b) && TableEnd(cs, b) <= 65534
    && (forall i | 0 <= i < |cs| :: ConstantLinks(env, cs, cs[i]))
    && NamesClass(env, cs, b.thisClass) && (b.superClass == 0 || NamesClass(env, cs, b.superClass))
    && (forall j | 0 <= j < |b.ifaces| :: NamesClass(env, cs, b.ifaces[j]))
    && FieldsLink(env, cs, b.fields)
    && |codes| == |b.methods| && (forall j | 0 <= j < |b.methods| :: MethodLinks(env, cs, t, b.methods[j], codes[j]))
    && forall j | 0 <= j < |b.attrs| :: AttrLinks(cs, t, b.attrs[j])
  }

  // ---- what its table says -----------------------------------------------

  ghost predicate FirstNamed(cs: seq<Constant>, attrs: seq<Attr>, name: seq<byte>, k: nat) {
    k < |attrs| && Named(cs, attrs[k], name) && forall j | 0 <= j < k :: !Named(cs, attrs[j], name)
  }

  ghost predicate LastNamed(cs: seq<Constant>, attrs: seq<Attr>, name: seq<byte>, k: nat) {
    k < |attrs| && Named(cs, attrs[k], name) && forall j | k < j < |attrs| :: !Named(cs, attrs[j], name)
  }

  /** `w` is where the last attribute so named starts, `into` it; 0 if none is. */
  ghost predicate PointsToLast(cs: seq<Constant>, t: Tail, attrs: seq<Attr>, name: seq<byte>, into: nat, w: nat) {
    && ((forall j | 0 <= j < |attrs| :: !Named(cs, attrs[j], name)) ==> w == 0)
    && forall k: nat | LastNamed(cs, attrs, name, k) :: w == t.base + attrs[k].at + into
  }

  ghost predicate PointsToFirst(cs: seq<Constant>, t: Tail, attrs: seq<Attr>, name: seq<byte>, into: nat, w: nat) {
    && ((forall j | 0 <= j < |attrs| :: !Named(cs, attrs[j], name)) ==> w == 0)
    && forall k: nat | FirstNamed(cs, attrs, name, k) :: w == t.base + attrs[k].at + into
  }

  /** The attributes inside the `Code` attributes, in file order. */
  function SubAttrsOf(codes: seq<Option<Code>>): seq<Attr> {
    if codes == [] then [] else (if codes[0].Some? then codes[0].value.subs else []) + SubAttrsOf(codes[1..])
  }

  ghost predicate Holds32(words: seq<u16>, w: nat, v: u32) {
    w + 1 < |words| && words[w] + 0x1_0000 * words[w + 1] as int == v
  }

  /** Six words of a method: its `method_info`, its bytecode, its access flags,
      its first `LineNumberTable`, the hash of its name and descriptor. */
  ghost predicate MethodRecord(
    env: Env, cs: seq<Constant>, t: Tail, m: Member, codes: seq<Option<Code>>, words: seq<u16>, w: nat)
  {
    && w + 5 < |words|
    && words[w] == t.base + m.at
    && PointsToLast(cs, t, m.attrs, CODE_ATTR, 14, words[w + 1])
    && words[w + 2] == m.access
    && PointsToFirst(cs, t, SubAttrsOf(codes), LINES_ATTR, 6, words[w + 3])
    && TextOf(cs, m.name).Some? && TextOf(cs, m.desc).Some?
    && Holds32(words, w + 4, env.sigHash(TextOf(cs, m.name).value, TextOf(cs, m.desc).value))
  }

  /** A class by its `Class` constant: the table's ref of its name, and its hash. */
  ghost predicate ClassWords(env: Env, cs: seq<Constant>, i: nat, words: seq<u16>, ref: nat, hash: nat) {
    && i < |cs| && cs[i].ConstClass? && TextOf(cs, cs[i].name).Some?
    && ref < |words| && 26 + cs[i].name < |words| && words[ref] == words[26 + cs[i].name]
    && Holds32(words, hash, env.nameHash(TextOf(cs, cs[i].name).value))
  }

  /** Three words of a field: name, descriptor, slot and kind. */
  ghost predicate FieldRecord(cs: seq<Constant>, m: Member, slot: nat, words: seq<u16>, w: nat) {
    && w + 2 < |words| && words[w] == m.name && words[w + 1] == m.desc
    && words[w + 2] == slot + 0x1000 * StorageIn(cs, m)
  }

  /** Two words of a Methodref: where its data is, its parameters and whether it
      is an interface's. */
  ghost predicate MrefRecord(cs: seq<Constant>, c: Constant, data: nat, words: seq<u16>, w: nat) {
    && c.ConstMethod? && w + 1 < |words| && words[w] == data
    && exists n: nat :: TakesParams(cs, c, n) && words[w + 1] == n + (if c.ofInterface then 0x100 else 0)
  }

  /** The word of an entry, and its descriptor if it is a Methodref or String. */
  ghost predicate EntryWords(cs: seq<Constant>, b: Body, i: nat, data: nat, words: seq<u16>)
    requires i < |cs|
  {
    && 26 + i < |words|
    && match cs[i]
       case ConstMethod(_, _, _) =>
         var w := MrefsAt(cs, b) + 2 * MethodsAmong(cs, i);
         words[26 + i] == w && MrefRecord(cs, cs[i], data, words, w)
       case ConstString(_) =>
         var w := StringsAt(cs, b) + 2 * StringsAmong(cs, i);
         words[26 + i] == w && w < |words| && words[w] == data
       case ConstText(_) => true
       case _ => words[26 + i] == data
  }

  ghost predicate TagByte(words: seq<u16>, n: nat, i: nat, tag: byte) {
    && 26 + n + i / 2 < |words|
    && tag == if i % 2 == 0 then words[26 + n + i / 2] % 0x100 else words[26 + n + i / 2] / 0x100
  }

  /** The header, but for what the section fills in. */
  ghost predicate HeaderSays(env: Env, cs: seq<Constant>, t: Tail, b: Body, words: seq<u16>) {
    var inst, stat := Members(b.fields, false), Members(b.fields, true);
    && |words| >= 26
    && words[0] == 0x4B03 && words[1] == |words| == TableEnd(cs, b) + TableEnd(cs, b) % 2
    && words[2] == |t.file| && words[3] == |cs|
    && words[4] == |inst| && words[5] == |stat| && words[6] == |b.ifaces| && words[7] == |b.methods|
    && words[8] == MethodsAmong(cs, |cs|) && words[9] == MethodsAt(cs, b) && words[10] == MrefsAt(cs, b)
    && PointsToLast(cs, t, b.attrs, BOOTSTRAP_ATTR, 6, words[11])
    && words[12] == b.access
    && ClassWords(env, cs, b.thisClass, words, 13, 16)
    && (if b.superClass == 0 then words[14] == 0 && Holds32(words, 18, 0)
        else ClassWords(env, cs, b.superClass, words, 14, 18))
    && SourceFileSays(cs, t, b.attrs, words[15])
    && words[20] == StringsAmong(cs, |cs|) && words[21] == SlotsTo(cs, inst, |inst|)
  }

  /** The `Utf8` index in the last two-byte `SourceFile` attribute; 0 if none. */
  ghost predicate SourceFileSays(cs: seq<Constant>, t: Tail, attrs: seq<Attr>, w: nat) {
    && ((forall j | 0 <= j < |attrs| :: !IsSourceFile(cs, attrs[j])) ==> w == 0)
    && forall k | 0 <= k < |attrs| && IsSourceFile(cs, attrs[k])
                  && (forall j | k < j < |attrs| :: !IsSourceFile(cs, attrs[j])) ::
         U16(t, attrs[k].at + 6) == Some(w)
  }

  predicate IsSourceFile(cs: seq<Constant>, a: Attr) { a.len == 2 && Named(cs, a, SOURCE_ATTR) }

  /** The whole table, but for what the section fills in and for the words of
      the constant pool, which `EntryWords` describes. */
  ghost predicate TableSays(
    env: Env, cs: seq<Constant>, t: Tail, b: Body, codes: seq<seq<Option<Code>>>, words: seq<u16>)
  {
    var inst, stat := Members(b.fields, false), Members(b.fields, true);
    && HeaderSays(env, cs, t, b, words)
    && (forall k | 0 <= k < |inst| :: FieldRecord(cs, inst[k], SlotsTo(cs, inst, k), words, FieldsAt(cs) + 3 * k))
    && (forall k | 0 <= k < |stat| :: FieldRecord(cs, stat[k], k, words, StaticsAt(cs, b) + 3 * k))
    && (forall k | 0 <= k < |b.ifaces| ::
          ClassWords(env, cs, b.ifaces[k], words, IfacesAt(cs, b) + 3 * k, IfacesAt(cs, b) + 3 * k + 1))
    && (TableEnd(cs, b) % 2 == 1 ==> words[TableEnd(cs, b)] == 0)
    && |codes| == |b.methods|
    && forall k | 0 <= k < |b.methods| ::
         MethodRecord(env, cs, t, b.methods[k], codes[k], words, MethodsAt(cs, b) + 6 * k)
  }
}
