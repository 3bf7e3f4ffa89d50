/** `crates/class-link/src/classfile.rs` as functions of the class bytes: the
    constant-pool walk, the survey, the layout and the derivation of a link
    table. The source's loops over the same data are the methods of the
    modules `Reader` and `Deriver`, proved equal to these functions.

    A closure-driven walk is modelled by the list of visits it makes, and a
    derivation that writes through a sink by the list of words it puts: what a
    visitor or a sink then does with the list, and where it stops the run, is
    said where it is defined. */
module ClassFile {
  import opened Bytes
  import Bytecode
  import Descriptor

  /** What the linker takes from elsewhere: its hash functions and UTF-8
      validity. Every theorem holds whatever they are. */
  datatype Env = Env(
    nameHash: seq<byte> -> u32,
    sigHash: (seq<byte>, seq<byte>) -> u32,
    stringHash: seq<byte> -> u32,
    isUtf8: seq<byte> -> bool)

  const MAX_CLASS_BYTES := 65535
  const HEADER_WORDS := 26
  const LINK_MAGIC: u16 := 0x4B03
  const LIT_NONE: u16 := 65535
  const SUPER_NONE: u16 := 65535
  const MAX_OWN_SLOTS := 0x0FFF
  const MAX_POOL_BYTES := 4 * 65535

  const TAG_UTF8: byte := 1
  const TAG_LONG: byte := 5
  const TAG_DOUBLE: byte := 6
  const TAG_CLASS: byte := 7
  const TAG_STRING: byte := 8
  const TAG_METHODREF: byte := 10
  const TAG_INTERFACE_METHODREF: byte := 11
  const TAG_NAME_AND_TYPE: byte := 12

  const CODE: seq<byte> := [0x43, 0x6f, 0x64, 0x65]
  const LINE_NUMBER_TABLE: seq<byte> :=
    [0x4c, 0x69, 0x6e, 0x65, 0x4e, 0x75, 0x6d, 0x62, 0x65, 0x72, 0x54, 0x61, 0x62, 0x6c, 0x65]
  const BOOTSTRAP_METHODS: seq<byte> :=
    [0x42, 0x6f, 0x6f, 0x74, 0x73, 0x74, 0x72, 0x61, 0x70, 0x4d, 0x65, 0x74, 0x68, 0x6f, 0x64, 0x73]
  const SOURCE_FILE: seq<byte> := [0x53, 0x6f, 0x75, 0x72, 0x63, 0x65, 0x46, 0x69, 0x6c, 0x65]

  predicate IsMethodref(tag: byte) { tag == TAG_METHODREF || tag == TAG_INTERFACE_METHODREF }

  predicate IsWide(tag: byte) { tag == TAG_LONG || tag == TAG_DOUBLE }

  /** ACC_STATIC */
  predicate IsStatic(access: u16) { access / 8 % 2 == 1 }

  function FixedEntryLen(tag: byte): Option<nat> {
    if tag == 3 || tag == 4 then Some(4)
    else if tag == 5 || tag == 6 then Some(8)
    else if tag == 7 || tag == 8 then Some(2)
    else if 9 <= tag <= 12 then Some(4)
    else if tag == 15 then Some(3)
    else if tag == 16 then Some(2)
    else if tag == 17 || tag == 18 then Some(4)
    else if tag == 19 || tag == 20 then Some(2)
    else None
  }

  // ---- cursor reads ------------------------------------------------------

  function ReadU16(d: seq<byte>, pos: nat): Result<u16> { OkOr(Be16(d, pos), Truncated) }

  function ReadU32(d: seq<byte>, pos: nat): Result<u32> { OkOr(Be32(d, pos), Truncated) }

  function Seek(d: seq<byte>, pos: nat): Result<nat> {
    if pos <= |d| then Ok(pos) else Err(Truncated)
  }

  // ---- the constant-pool walk --------------------------------------------

  datatype Utf8Form = Inline | Pooled

  datatype Visit = Visit(index: nat, tag: byte, off: nat)

  /** The visits of a walk, in order, and how it ended: the position after the
      last entry, or a refusal. A visitor that refuses a visit ends the walk
      there, with its own refusal. */
  datatype CpWalk<T> = CpWalk(visits: seq<Visit>, outcome: Result<T>)

  /** The position after the entry `idx` with tag `tag` and data at `off`. */
  function EntryEnd(cls: seq<byte>, form: Utf8Form, idx: nat, tag: byte, off: nat): Result<nat> {
    if tag == TAG_UTF8 then
      if form == Pooled then Ok(off)
      else
        var len :- ReadU16(cls, off);
        Seek(cls, off + 2 + len)
    else if IsWide(tag) then Seek(cls, off + 8)
    else
      var n :- OkOr(FixedEntryLen(tag), UnknownTag(AsU16(idx), tag));
      Seek(cls, off + n)
  }

  /** What is visited for the entry at `idx`: itself, and the pad slot after a
      `Long` or `Double` if the pool reaches it. */
  function EntryVisits(count: nat, idx: nat, tag: byte, off: nat): seq<Visit> {
    [Visit(idx, tag, off)] + if IsWide(tag) && idx + 1 < count then [Visit(idx + 1, 0, 0)] else []
  }

  function NextIndex(idx: nat, tag: byte): nat { if IsWide(tag) then idx + 2 else idx + 1 }

  function WalkFrom(cls: seq<byte>, form: Utf8Form, count: nat, idx: nat, pos: nat): CpWalk<nat>
    decreases count - idx
  {
    if idx >= count then CpWalk([], Ok(pos))
    else if pos >= |cls| then CpWalk([], Err(Truncated))
    else
      var tag := cls[pos];
      match EntryEnd(cls, form, idx, tag, pos + 1)
      case Err(e) => CpWalk([Visit(idx, tag, pos + 1)], Err(e))
      case Ok(next) =>
        var rest := WalkFrom(cls, form, count, NextIndex(idx, tag), next);
        CpWalk(EntryVisits(count, idx, tag, pos + 1) + rest.visits, rest.outcome)
  }

  /** The file header: magic, versions, `constant_pool_count`. */
  function ReadHeader(cls: seq<byte>): Result<u16> {
    if |cls| > MAX_CLASS_BYTES then Err(ClassTooLarge)
    else
      var magic :- ReadU32(cls, 0);
      if magic != 0xCAFE_BABE then Err(BadMagic)
      else
        var pos :- Seek(cls, 8);
        ReadU16(cls, pos)
  }

  /** `walk_cp`: the outcome is the count and the position after the pool. */
  function WalkCp(cls: seq<byte>, form: Utf8Form): CpWalk<(nat, nat)> {
    match ReadHeader(cls)
    case Err(e) => CpWalk([], Err(e))
    case Ok(count) =>
      var w := WalkFrom(cls, form, count, 1, 10);
      CpWalk([Visit(0, 0, 0)] + w.visits,
             match w.outcome case Err(e) => Err(e) case Ok(pos) => Ok((count, pos)))
  }

  // ---- views of a constant pool ------------------------------------------

  /** The tags and data offsets of a constant pool, and the pool its `Utf8`
      refs name: the builder's walk of a class, or a table being validated. */
  datatype CpView = CpView(tags: seq<byte>, offsets: seq<Option<nat>>, pool: seq<byte>)

  function Tag(cp: CpView, i: nat): Option<byte> {
    if i < |cp.tags| then Some(cp.tags[i]) else None
  }

  function Offset(cp: CpView, i: nat): Option<nat> {
    if i < |cp.offsets| then cp.offsets[i] else None
  }

  function Utf8At(d: seq<byte>, off: nat): Option<seq<byte>> {
    match Be16(d, off)
    case None => None
    case Some(len) => if off + 2 + len <= |d| then Some(d[off + 2..off + 2 + len]) else None
  }

  function PoolUtf8(pool: seq<byte>, r: nat): Option<seq<byte>> { Utf8At(pool, 4 * r) }

  function Utf8(cp: CpView, i: nat): Option<seq<byte>> {
    if Tag(cp, i) == Some(TAG_UTF8) && Offset(cp, i).Some? then PoolUtf8(cp.pool, Offset(cp, i).value)
    else None
  }

  function CheckUtf8(env: Env, bytes: seq<byte>, cpIndex: nat): Result<()> {
    if env.isUtf8(bytes) then Ok(()) else Err(BadUtf8(AsU16(cpIndex)))
  }

  function ClassUtf8Index(cls: seq<byte>, cp: CpView, i: nat): Option<u16> {
    if Tag(cp, i) == Some(TAG_CLASS) && Offset(cp, i).Some? then Be16(cls, Offset(cp, i).value)
    else None
  }

  datatype NameRef = NameRef(r: nat, hash: u32)

  function ClassNameRef(env: Env, cls: seq<byte>, cp: CpView, i: nat): Result<NameRef> {
    var ui :- OkOr(ClassUtf8Index(cls, cp, i), BadThisClass);
    var r :- OkOr(Offset(cp, ui), BadThisClass);
    var bytes :- OkOr(Utf8(cp, ui), BadThisClass);
    if bytes == [] then Err(BadThisClass)
    else
      var _ :- CheckUtf8(env, bytes, ui);
      Ok(NameRef(r, env.nameHash(bytes)))
  }

  // ---- the survey --------------------------------------------------------

  datatype Counts = Counts(
    cpCount: nat, posAfterCp: nat, ifaces: nat, fields: nat, statics: nat, methods: nat, mrefs: nat, strs: nat)

  /** How many of the first `i` entries are `Methodref`s of either kind. */
  function MrefsUpTo(cp: CpView, i: nat): nat {
    if i == 0 then 0
    else MrefsUpTo(cp, i - 1) + if Tag(cp, i - 1).Some? && IsMethodref(Tag(cp, i - 1).value) then 1 else 0
  }

  /** How many of the first `i` entries are `String`s. */
  function StrsUpTo(cp: CpView, i: nat): nat {
    if i == 0 then 0 else StrsUpTo(cp, i - 1) + if Tag(cp, i - 1) == Some(TAG_STRING) then 1 else 0
  }

  function SkipAttrsFrom(cls: seq<byte>, n: nat, pos: nat): Result<nat> {
    if n == 0 then Ok(pos)
    else
      var p :- Seek(cls, pos + 2);
      var len :- ReadU32(cls, p);
      var next :- Seek(cls, p + 4 + len);
      SkipAttrsFrom(cls, n - 1, next)
  }

  function SkipAttrs(cls: seq<byte>, pos: nat): Result<nat> {
    var n :- ReadU16(cls, pos);
    SkipAttrsFrom(cls, n, pos + 2)
  }

  datatype FieldSplit = FieldSplit(pos: nat, fields: nat, statics: nat)

  function SurveyFields(cls: seq<byte>, n: nat, pos: nat, fields: nat, statics: nat): Result<FieldSplit> {
    if n == 0 then Ok(FieldSplit(pos, fields, statics))
    else
      var access :- ReadU16(cls, pos);
      var p :- Seek(cls, pos + 6);
      var next :- SkipAttrs(cls, p);
      if IsStatic(access) then SurveyFields(cls, n - 1, next, fields, statics + 1)
      else SurveyFields(cls, n - 1, next, fields + 1, statics)
  }

  function SurveyMethods(cls: seq<byte>, n: nat, pos: nat): Result<nat> {
    if n == 0 then Ok(pos)
    else
      var p :- Seek(cls, pos + 6);
      var next :- SkipAttrs(cls, p);
      SurveyMethods(cls, n - 1, next)
  }

  /** `survey` */
  function Survey(cls: seq<byte>, cp: CpView, cpCount: nat, posAfterCp: nat): Result<Counts> {
    var p :- Seek(cls, posAfterCp + 6);
    var ifaces :- ReadU16(cls, p);
    var p :- Seek(cls, p + 2 + 2 * ifaces);
    var fieldCount :- ReadU16(cls, p);
    var split :- SurveyFields(cls, fieldCount, p + 2, 0, 0);
    var methods :- ReadU16(cls, split.pos);
    var _ :- SurveyMethods(cls, methods, split.pos + 2);
    Ok(Counts(cpCount, posAfterCp, ifaces, split.fields, split.statics, methods,
              MrefsUpTo(cp, cpCount), StrsUpTo(cp, cpCount)))
  }

  // ---- the layout --------------------------------------------------------

  datatype Layout = Layout(
    fieldsOff: nat, staticsOff: nat, ifacesOff: nat, methodsOff: nat, mrefsOff: nat, strsOff: nat, totalWords: nat)

  function TagWords(cpCount: nat): nat { (cpCount + 1) / 2 }

  function Fits(v: nat): bool { v <= 65535 }

  /** `Layout::new` */
  function NewLayout(n: Counts): Result<Layout> {
    var fieldsOff := HEADER_WORDS + n.cpCount + TagWords(n.cpCount);
    var staticsOff := fieldsOff + 3 * n.fields;
    var ifacesOff := staticsOff + 3 * n.statics;
    var methodsOff := ifacesOff + 3 * n.ifaces;
    var mrefsOff := methodsOff + 6 * n.methods;
    var strsOff := mrefsOff + 2 * n.mrefs;
    var end := strsOff + 2 * n.strs;
    var totalWords := end + end % 2;
    if Fits(totalWords) && Fits(n.fields) && Fits(n.statics) && Fits(n.ifaces)
       && Fits(n.methods) && Fits(n.mrefs) && Fits(n.strs)
    then Ok(Layout(fieldsOff, staticsOff, ifacesOff, methodsOff, mrefsOff, strsOff, totalWords))
    else Err(ClassTooLarge)
  }

  // ---- the derivation ----------------------------------------------------

  /** A word put into the table: one the class bytes determine, or one that
      names something in the section, with the builder's placeholder. */
  datatype Put = Put(word: nat, value: u16) | PutExternal(word: nat, value: u16)

  /** The words a derivation puts, in order, and how it ended. A sink that
      refuses a word ends the run there, with its own refusal. */
  datatype Derived<T> = Derived(puts: seq<Put>, outcome: Result<T>)

  function Return<T>(x: T): Derived<T> { Derived([], Ok(x)) }

  function Fail<T>(e: LinkError): Derived<T> { Derived([], Err(e)) }

  /** Put `ps`, then go on as `d`. */
  function Emit<T>(ps: seq<Put>, d: Derived<T>): Derived<T> { Derived(ps + d.puts, d.outcome) }

  /** Go on as `next` after `first`, unless `first` failed. */
  function Then<T>(first: Derived<()>, next: Derived<T>): Derived<T> {
    match first.outcome
    case Err(e) => Derived(first.puts, Err(e))
    case Ok(_) => Emit(first.puts, next)
  }

  function Put32(word: nat, v: u32): seq<Put> { [Put(word, v % 0x1_0000), Put(word + 1, v / 0x1_0000)] }

  /** Constant-pool words and packed tags, from entry `i`; `k` and `ks` count
      the Methodrefs and Strings met, `lo` is the tag of the even entry before. */
  function DeriveCp(cp: CpView, n: Counts, l: Layout, i: nat, k: nat, ks: nat, lo: byte): Derived<()>
    decreases n.cpCount - i
  {
    if i >= n.cpCount then
      if n.cpCount % 2 == 1 then Derived([Put(HEADER_WORDS + n.cpCount + n.cpCount / 2, lo)], Ok(()))
      else Return(())
    else
      match Tag(cp, i)
      case None => Fail(Internal)
      case Some(tag) =>
        match CpWord(cp, l, i, tag, k, ks)
        case None => Fail(Internal)
        case Some(word) =>
          Emit(CpPuts(n, i, word, lo, tag),
               DeriveCp(cp, n, l, i + 1, k + (if IsMethodref(tag) then 1 else 0),
                        ks + (if tag == TAG_STRING then 1 else 0), if i % 2 == 0 then tag else lo))
  }

  function CpWord(cp: CpView, l: Layout, i: nat, tag: byte, k: nat, ks: nat): Option<nat> {
    if IsMethodref(tag) then Some(l.mrefsOff + 2 * k)
    else if tag == TAG_STRING then Some(l.strsOff + 2 * ks)
    else Offset(cp, i)
  }

  function CpPuts(n: Counts, i: nat, word: nat, lo: byte, tag: byte): seq<Put> {
    [Put(HEADER_WORDS + i, AsU16(word))]
    + if i % 2 == 0 then [] else [Put(HEADER_WORDS + n.cpCount + i / 2, lo + 0x100 * tag as int)]
  }

  /** The descriptor of Methodref entry `i`: its offset and `argc | flags << 8`. */
  function MethodrefAt(cls: seq<byte>, cp: CpView, i: nat, tag: byte): Result<(nat, u16)> {
    var bad := BadMethodref(AsU16(i));
    var off :- OkOr(Offset(cp, i), Internal);
    var classIdx :- ReadU16(cls, off);
    if Tag(cp, classIdx) != Some(TAG_CLASS) then Err(bad)
    else
      var nat_ :- ReadU16(cls, off + 2);
      if Tag(cp, nat_) != Some(TAG_NAME_AND_TYPE) then Err(bad)
      else
        var natOff :- OkOr(Offset(cp, nat_), Internal);
        var descIdx :- ReadU16(cls, natOff + 2);
        var desc :- OkOr(Utf8(cp, descIdx), bad);
        var argc :- OkOr(Descriptor.ArgCount(desc), BadDescriptor(AsU16(i)));
        Ok((off, argc as int + if tag == TAG_INTERFACE_METHODREF then 0x100 else 0))
  }

  function DeriveMrefs(cls: seq<byte>, cp: CpView, n: Counts, l: Layout, i: nat, k: nat): Derived<()>
    decreases n.cpCount - i
  {
    if i >= n.cpCount then
      if k != n.mrefs then Fail(Internal) else Return(())
    else
      match Tag(cp, i)
      case None => Fail(Internal)
      case Some(tag) =>
        if !IsMethodref(tag) then DeriveMrefs(cls, cp, n, l, i + 1, k)
        else
          match MethodrefAt(cls, cp, i, tag)
          case Err(e) => Fail(e)
          case Ok((off, argcFlags)) =>
            Emit([Put(l.mrefsOff + 2 * k, AsU16(off)), Put(l.mrefsOff + 2 * k + 1, argcFlags)],
                 DeriveMrefs(cls, cp, n, l, i + 1, k + 1))
  }

  /** The offset of String entry `i`, which must name a `Utf8`. */
  function StringAt(cls: seq<byte>, cp: CpView, i: nat): Result<nat> {
    var off :- OkOr(Offset(cp, i), Internal);
    var ui :- ReadU16(cls, off);
    var _ :- OkOr(Utf8(cp, ui), BadString(AsU16(i)));
    Ok(off)
  }

  function DeriveStrs(cls: seq<byte>, cp: CpView, n: Counts, l: Layout, i: nat, ks: nat): Derived<()>
    decreases n.cpCount - i
  {
    if i >= n.cpCount then
      if ks != n.strs then Fail(Internal) else Return(())
    else if Tag(cp, i) != Some(TAG_STRING) then DeriveStrs(cls, cp, n, l, i + 1, ks)
    else
      match StringAt(cls, cp, i)
      case Err(e) => Fail(e)
      case Ok(off) =>
        Emit([Put(l.strsOff + 2 * ks, AsU16(off)), PutExternal(l.strsOff + 2 * ks + 1, LIT_NONE)],
             DeriveStrs(cls, cp, n, l, i + 1, ks + 1))
  }

  /** The `Utf8` an entry's index names must be valid UTF-8. */
  function NameAt(env: Env, cp: CpView, i: nat, ui: nat): Result<()> {
    var bytes :- OkOr(Utf8(cp, ui), BadUtf8(AsU16(i)));
    CheckUtf8(env, bytes, ui)
  }

  function CheckNames(env: Env, cls: seq<byte>, cp: CpView, n: Counts, i: nat): Result<()>
    decreases n.cpCount - i
  {
    if i >= n.cpCount then Ok(())
    else if Tag(cp, i) == Some(TAG_CLASS) then
      var ui :- OkOr(ClassUtf8Index(cls, cp, i), Truncated);
      var _ :- NameAt(env, cp, i, ui);
      CheckNames(env, cls, cp, n, i + 1)
    else if Tag(cp, i) == Some(TAG_NAME_AND_TYPE) then
      var off :- OkOr(Offset(cp, i), Internal);
      var name :- ReadU16(cls, off);
      var _ :- NameAt(env, cp, i, name);
      var desc :- ReadU16(cls, off + 2);
      var _ :- NameAt(env, cp, i, desc);
      CheckNames(env, cls, cp, n, i + 1)
    else CheckNames(env, cls, cp, n, i + 1)
  }

  /** The class itself: access flags, name, superclass, interface count. */
  datatype Head = Head(access: u16, name: NameRef, super: NameRef, ifaces: nat, pos: nat)

  function HeadAt(env: Env, cls: seq<byte>, cp: CpView, pos: nat): Result<Head> {
    var access :- ReadU16(cls, pos);
    var thisIdx :- ReadU16(cls, pos + 2);
    var superIdx :- ReadU16(cls, pos + 4);
    var name :- ClassNameRef(env, cls, cp, thisIdx);
    var super :- SuperRef(env, cls, cp, superIdx);
    var ifaces :- ReadU16(cls, pos + 6);
    Ok(Head(access, name, super, ifaces, pos + 8))
  }

  function SuperRef(env: Env, cls: seq<byte>, cp: CpView, superIdx: nat): Result<NameRef> {
    if superIdx == 0 then Ok(NameRef(0, 0))
    else
      match ClassNameRef(env, cls, cp, superIdx)
      case Err(_) => Err(BadSuperClass)
      case Ok(r) => Ok(r)
  }

  function IfaceAt(env: Env, cls: seq<byte>, cp: CpView, j: nat, pos: nat): Result<NameRef> {
    var idx :- ReadU16(cls, pos);
    match ClassNameRef(env, cls, cp, idx)
    case Err(_) => Err(BadInterface(AsU16(j)))
    case Ok(r) => Ok(r)
  }

  function DeriveIfaces(env: Env, cls: seq<byte>, cp: CpView, l: Layout, count: nat, j: nat, pos: nat): Derived<nat>
    decreases count - j
  {
    if j >= count then Return(pos)
    else
      match IfaceAt(env, cls, cp, j, pos)
      case Err(e) => Fail(e)
      case Ok(r) =>
        Emit(IfacePuts(l, j, r), DeriveIfaces(env, cls, cp, l, count, j + 1, pos + 2))
  }

  function IfacePuts(l: Layout, j: nat, r: NameRef): seq<Put> {
    [Put(l.ifacesOff + 3 * j, AsU16(r.r))] + Put32(l.ifacesOff + 3 * j + 1, r.hash)
  }

  const KIND_REF := 0
  const KIND_INT := 1
  const KIND_FLOAT := 2
  const KIND_LONG := 3
  const KIND_DOUBLE := 4

  /** `field_kind` */
  function FieldKind(desc: seq<byte>): (k: nat)
    ensures k < 16
  {
    if desc == [] then KIND_REF
    else if desc[0] == 0x49 || desc[0] == 0x53 || desc[0] == 0x42 || desc[0] == 0x43 || desc[0] == 0x5a then KIND_INT
    else if desc[0] == 0x46 then KIND_FLOAT
    else if desc[0] == 0x4a then KIND_LONG
    else if desc[0] == 0x44 then KIND_DOUBLE
    else KIND_REF
  }

  /** `kind_slots` */
  function KindSlots(kind: nat): nat { if kind == KIND_LONG || kind == KIND_DOUBLE then 2 else 1 }

  datatype Field = Field(isStatic: bool, name: u16, desc: u16, kind: nat, next: nat)

  function FieldAt(env: Env, cls: seq<byte>, cp: CpView, j: nat, pos: nat): (r: Result<Field>)
    ensures r.Ok? ==> r.value.kind < 16
  {
    var access :- ReadU16(cls, pos);
    var name :- ReadU16(cls, pos + 2);
    var desc :- ReadU16(cls, pos + 4);
    var next :- SkipAttrs(cls, pos + 6);
    var bad := BadMember(AsU16(j));
    var nameB :- OkOr(Utf8(cp, name), bad);
    var _ :- CheckUtf8(env, nameB, name);
    var descB :- OkOr(Utf8(cp, desc), bad);
    var _ :- CheckUtf8(env, descB, desc);
    Ok(Field(IsStatic(access), name, desc, FieldKind(descB), next))
  }

  /** Where the fields end, and the slots and members met on the way. */
  datatype FieldsEnd = FieldsEnd(pos: nat, fi: nat, si: nat, own: nat)

  /** Fields from the `j`th: `fi` instance and `si` static fields and `own`
      slots so far. */
  function DeriveFields(env: Env, cls: seq<byte>, cp: CpView, l: Layout, count: nat, j: nat, at: FieldsEnd)
    : Derived<FieldsEnd>
    decreases count - j
  {
    if j >= count then Return(at)
    else
      match FieldAt(env, cls, cp, j, at.pos)
      case Err(e) => Fail(e)
      case Ok(f) =>
        var next := NextField(f, at);
        if FieldSlot(f, at) > MAX_OWN_SLOTS || next.own > MAX_OWN_SLOTS then Fail(ClassTooLarge)
        else Emit(FieldPuts(l, f, at), DeriveFields(env, cls, cp, l, count, j + 1, next))
  }

  function FieldSlot(f: Field, at: FieldsEnd): nat { if f.isStatic then at.si else at.own }

  function FieldPuts(l: Layout, f: Field, at: FieldsEnd): seq<Put> {
    var base := if f.isStatic then l.staticsOff + 3 * at.si else l.fieldsOff + 3 * at.fi;
    [Put(base, f.name), Put(base + 1, f.desc), Put(base + 2, AsU16(FieldSlot(f, at) + 0x1000 * f.kind))]
  }

  function NextField(f: Field, at: FieldsEnd): FieldsEnd {
    if f.isStatic then FieldsEnd(f.next, at.fi, at.si + 1, at.own)
    else FieldsEnd(f.next, at.fi + 1, at.si, at.own + KindSlots(f.kind))
  }

  /** The first `LineNumberTable` among `n` sub-attributes, unless one is known. */
  function SubAttrs(cls: seq<byte>, cp: CpView, n: nat, pos: nat, lnt: nat): Result<nat> {
    if n == 0 then Ok(lnt)
    else
      var subName :- ReadU16(cls, pos);
      var subLen :- ReadU32(cls, pos + 2);
      var start := pos + 6;
      var lnt' := if lnt == 0 && Utf8(cp, subName) == Some(LINE_NUMBER_TABLE) then start else lnt;
      var next :- Seek(cls, start + subLen);
      SubAttrs(cls, cp, n - 1, next, lnt')
  }

  /** Where a method's bytecode and line numbers start. */
  datatype CodeRefs = CodeRefs(code: nat, lnt: nat)

  /** The body of a `Code` attribute, starting at `start`. */
  ghost function CodeAttr(cls: seq<byte>, cp: CpView, start: nat, lnt: nat): Result<CodeRefs> {
    var p :- Seek(cls, start + 4);
    var codeLen :- ReadU32(cls, p);
    var code := p + 4;
    var end :- Seek(cls, code + codeLen);
    var _ :- Bytecode.CodeVerdict(cls[code..end]);
    var exc :- ReadU16(cls, end);
    var p :- Seek(cls, end + 2 + 8 * exc);
    var subs :- ReadU16(cls, p);
    var lnt' :- SubAttrs(cls, cp, subs, p + 2, lnt);
    Ok(CodeRefs(code, lnt'))
  }

  datatype MethodBody = MethodBody(pos: nat, refs: CodeRefs)

  ghost function MethodAttrs(cls: seq<byte>, cp: CpView, n: nat, pos: nat, refs: CodeRefs): Result<MethodBody> {
    if n == 0 then Ok(MethodBody(pos, refs))
    else
      var attrName :- ReadU16(cls, pos);
      var attrLen :- ReadU32(cls, pos + 2);
      var start := pos + 6;
      var refs' :- MethodAttr(cls, cp, attrName, start, refs);
      var next :- Seek(cls, start + attrLen);
      MethodAttrs(cls, cp, n - 1, next, refs')
  }

  ghost function MethodAttr(cls: seq<byte>, cp: CpView, attrName: nat, start: nat, refs: CodeRefs): Result<CodeRefs> {
    if Utf8(cp, attrName) == Some(CODE) then CodeAttr(cls, cp, start, refs.lnt) else Ok(refs)
  }

  datatype Method = Method(access: u16, refs: CodeRefs, hash: u32, next: nat)

  ghost function MethodAt(env: Env, cls: seq<byte>, cp: CpView, mi: nat, pos: nat): Result<Method> {
    var access :- ReadU16(cls, pos);
    var name :- ReadU16(cls, pos + 2);
    var desc :- ReadU16(cls, pos + 4);
    var attrCount :- ReadU16(cls, pos + 6);
    var bad := BadMember(AsU16(mi));
    var nameB :- OkOr(Utf8(cp, name), bad);
    var descB :- OkOr(Utf8(cp, desc), bad);
    var _ :- CheckUtf8(env, nameB, name);
    var _ :- CheckUtf8(env, descB, desc);
    var body :- MethodAttrs(cls, cp, attrCount, pos + 8, CodeRefs(0, 0));
    Ok(Method(access, body.refs, env.sigHash(nameB, descB), body.pos))
  }

  function MethodPuts(l: Layout, mi: nat, pos: nat, m: Method): seq<Put> {
    var base := l.methodsOff + 6 * mi;
    [Put(base, AsU16(pos)), Put(base + 1, AsU16(m.refs.code)), Put(base + 2, m.access), Put(base + 3, AsU16(m.refs.lnt))]
    + Put32(base + 4, m.hash)
  }

  ghost function DeriveMethods(env: Env, cls: seq<byte>, cp: CpView, l: Layout, count: nat, mi: nat, pos: nat)
    : Derived<nat>
    decreases count - mi
  {
    if mi >= count then Return(pos)
    else
      match MethodAt(env, cls, cp, mi, pos)
      case Err(e) => Fail(e)
      case Ok(m) =>
        Emit(MethodPuts(l, mi, pos, m), DeriveMethods(env, cls, cp, l, count, mi + 1, m.next))
  }

  /** `n` entries of a `BootstrapMethods` body. */
  function SkipBootstrap(cls: seq<byte>, n: nat, pos: nat): Result<nat> {
    if n == 0 then Ok(pos)
    else
      var p :- Seek(cls, pos + 2);
      var args :- ReadU16(cls, p);
      var next :- Seek(cls, p + 2 + 2 * args);
      SkipBootstrap(cls, n - 1, next)
  }

  datatype ClassAttrs = ClassAttrs(bsm: nat, sourceFile: u16)

  function ClassAttr(cls: seq<byte>, cp: CpView, attrName: nat, attrLen: nat, start: nat, a: ClassAttrs)
    : Result<ClassAttrs>
  {
    if Utf8(cp, attrName) == Some(BOOTSTRAP_METHODS) then
      var n :- ReadU16(cls, start);
      var end :- SkipBootstrap(cls, n, start + 2);
      if end > start + attrLen then Err(BadBootstrapMethods) else Ok(a.(bsm := start))
    else if attrLen == 2 && Utf8(cp, attrName) == Some(SOURCE_FILE) then
      var idx :- ReadU16(cls, start);
      Ok(a.(sourceFile := idx))
    else Ok(a)
  }

  function ClassAttrsFrom(cls: seq<byte>, cp: CpView, n: nat, pos: nat, a: ClassAttrs): Result<ClassAttrs> {
    if n == 0 then Ok(a)
    else
      var attrName :- ReadU16(cls, pos);
      var attrLen :- ReadU32(cls, pos + 2);
      var a' :- ClassAttr(cls, cp, attrName, attrLen, pos + 6, a);
      var next :- Seek(cls, pos + 6 + attrLen);
      ClassAttrsFrom(cls, cp, n - 1, next, a')
  }

  function HeaderPuts(cls: seq<byte>, n: Counts, l: Layout, head: Head, own: nat, a: ClassAttrs): seq<Put> {
    [Put(0, LINK_MAGIC), Put(1, AsU16(l.totalWords)), Put(2, AsU16(|cls|)), Put(3, AsU16(n.cpCount)),
     Put(4, AsU16(n.fields)), Put(5, AsU16(n.statics)), Put(6, AsU16(n.ifaces)), Put(7, AsU16(n.methods)),
     Put(8, AsU16(n.mrefs)), Put(9, AsU16(l.methodsOff)), Put(10, AsU16(l.mrefsOff)), Put(11, AsU16(a.bsm)),
     Put(12, head.access), Put(13, AsU16(head.name.r)), Put(14, AsU16(head.super.r)), Put(15, a.sourceFile)]
    + Put32(16, head.name.hash) + Put32(18, head.super.hash)
    + [Put(20, AsU16(n.strs)), Put(21, AsU16(own)), PutExternal(22, SUPER_NONE),
       PutExternal(23, 0), PutExternal(24, 0), PutExternal(25, 0)]
  }

  function PadPuts(n: Counts, l: Layout): seq<Put> {
    if l.strsOff + 2 * n.strs < l.totalWords then [Put(l.strsOff + 2 * n.strs, 0)] else []
  }

  /** The class attributes at `pos`, then the header and the pad word. */
  function DeriveTail(cls: seq<byte>, cp: CpView, n: Counts, l: Layout, head: Head, own: nat, pos: nat): Derived<()> {
    match ReadU16(cls, pos)
    case Err(e) => Fail(e)
    case Ok(count) =>
      match ClassAttrsFrom(cls, cp, count, pos + 2, ClassAttrs(0, 0))
      case Err(e) => Fail(e)
      case Ok(a) => Derived(HeaderPuts(cls, n, l, head, own, a) + PadPuts(n, l), Ok(()))
  }

  /** Methods at `pos` and everything after. */
  ghost function DeriveFromMethods(env: Env, cls: seq<byte>, cp: CpView, n: Counts, l: Layout, head: Head, own: nat, pos: nat)
    : Derived<()>
  {
    match ReadU16(cls, pos)
    case Err(e) => Fail(e)
    case Ok(count) =>
      if count != n.methods then Fail(Internal)
      else
        var d := DeriveMethods(env, cls, cp, l, count, 0, pos + 2);
        match d.outcome
        case Err(e) => Derived(d.puts, Err(e))
        case Ok(end) => Emit(d.puts, DeriveTail(cls, cp, n, l, head, own, end))
  }

  /** Fields at `pos` and everything after. */
  ghost function DeriveFromFields(env: Env, cls: seq<byte>, cp: CpView, n: Counts, l: Layout, head: Head, pos: nat)
    : Derived<()>
  {
    match ReadU16(cls, pos)
    case Err(e) => Fail(e)
    case Ok(count) =>
      var d := DeriveFields(env, cls, cp, l, count, 0, FieldsEnd(pos + 2, 0, 0, 0));
      match d.outcome
      case Err(e) => Derived(d.puts, Err(e))
      case Ok(end) =>
        Emit(d.puts,
             if end.fi != n.fields || end.si != n.statics then Fail(Internal)
             else DeriveFromMethods(env, cls, cp, n, l, head, end.own, end.pos))
  }

  /** Interfaces and everything after, once the class's own words are read. */
  ghost function DeriveFromHead(env: Env, cls: seq<byte>, cp: CpView, n: Counts, l: Layout, head: Head): Derived<()> {
    if head.ifaces != n.ifaces then Fail(Internal)
    else
      var d := DeriveIfaces(env, cls, cp, l, head.ifaces, 0, head.pos);
      match d.outcome
      case Err(e) => Derived(d.puts, Err(e))
      case Ok(pos) => Emit(d.puts, DeriveFromFields(env, cls, cp, n, l, head, pos))
  }

  /** The class's own records: interfaces, fields, methods, attributes, header. */
  ghost function DeriveMembers(env: Env, cls: seq<byte>, cp: CpView, n: Counts, l: Layout): Derived<()> {
    match HeadAt(env, cls, cp, n.posAfterCp)
    case Err(e) => Fail(e)
    case Ok(head) => DeriveFromHead(env, cls, cp, n, l, head)
  }

  /** `derive` */
  ghost function DeriveTable(env: Env, cls: seq<byte>, cp: CpView, n: Counts, l: Layout): Derived<()> {
    Then(DeriveCp(cp, n, l, 0, 0, 0, 0),
      Then(DeriveMrefs(cls, cp, n, l, 0, 0),
        Then(DeriveStrs(cls, cp, n, l, 0, 0),
          Then(Derived([], CheckNames(env, cls, cp, n, 0)),
            DeriveMembers(env, cls, cp, n, l)))))
  }
}
