/** `derive` of `crates/class-link/src/classfile.rs` as the source runs it: loops
    over a cursor that put word after word into a sink. The source's two sinks
    are one class here, told apart by a flag; each phase is proved to leave the
    sink where the words of its function in `ClassFile` would. */
module Deriver {
  import opened Bytes
  import opened ClassFile
  import opened Reader
  import opened Sinks
  import Bytecode
  import Descriptor

  // ---- sinks -------------------------------------------------------------

  datatype SinkState = SinkState(checking: bool, words: seq<u16>, puts: nat)

  function Accept(s: SinkState, p: Put): Result<SinkState> {
    if s.checking then
      var _ :- CheckPut(s.words, p);
      Ok(s.(puts := s.puts + 1))
    else
      var t :- WritePut(s.words, p);
      Ok(s.(words := t))
  }

  function Feed(s: SinkState, puts: seq<Put>): Result<SinkState>
    decreases |puts|
  {
    if puts == [] then Ok(s)
    else
      var next :- Accept(s, puts[0]);
      Feed(next, puts[1..])
  }

  /** A derivation run into a sink: the first refused put, or how it ended. */
  function RunInto<T>(s: SinkState, d: Derived<T>): Result<(SinkState, T)> {
    var after :- Feed(s, d.puts);
    var x :- d.outcome;
    Ok((after, x))
  }

  /** `VecSink` (`checking` off) and `CheckSink` (`checking` on). */
  class Sink {
    const checking: bool
    var words: seq<u16>
    var puts: nat

    function State(): SinkState
      reads this
    {
      SinkState(checking, words, puts)
    }

    constructor (checking: bool, words: seq<u16>)
      ensures State() == SinkState(checking, words, 0)
    {
      this.checking := checking;
      this.words := words;
      this.puts := 0;
    }

    method Take(p: Put) returns (r: Result<()>)
      modifies this
      ensures r.Ok? ==> Accept(old(State()), p) == Ok(State())
      ensures r.Err? ==> Accept(old(State()), p) == Err(r.error)
    {
      if checking {
        if p.word >= |words| {
          return Err(BadOffset(AsU16(p.word)));
        }
        if p.Put? && words[p.word] != p.value {
          return Err(WordMismatch(AsU16(p.word)));
        }
        puts := puts + 1;
      } else {
        if p.word >= |words| {
          return Err(Internal);
        }
        words := words[p.word := p.value];
      }
      return Ok(());
    }

    /** One put after another, as far as they go. */
    method TakeAll(ps: seq<Put>) returns (r: Result<()>)
      modifies this
      ensures r.Ok? ==> Feed(old(State()), ps) == Ok(State())
      ensures r.Err? ==> Feed(old(State()), ps) == Err(r.error)
    {
      var k := 0;
      while k < |ps|
        invariant 0 <= k <= |ps|
        invariant Feed(old(State()), ps) == Feed(State(), ps[k..])
      {
        assert ps[k..][1..] == ps[k + 1..];
        var _ :- Take(ps[k]);
        k := k + 1;
      }
      return Ok(());
    }
  }

  lemma {:induction false} FeedConcat(s: SinkState, a: seq<Put>, b: seq<Put>)
    ensures Feed(s, a).Err? ==> Feed(s, a + b) == Feed(s, a)
    ensures Feed(s, a).Ok? ==> Feed(s, a + b) == Feed(Feed(s, a).value, b)
    decreases |a|
  {
    if a == [] {
      assert a + b == b;
    } else {
      assert (a + b)[1..] == a[1..] + b;
      if Accept(s, a[0]).Ok? {
        FeedConcat(Accept(s, a[0]).value, a[1..], b);
      }
    }
  }

  lemma RunEmit<T>(s: SinkState, ps: seq<Put>, d: Derived<T>)
    ensures Feed(s, ps).Err? ==> RunInto(s, Emit(ps, d)) == Err(Feed(s, ps).error)
    ensures Feed(s, ps).Ok? ==> RunInto(s, Emit(ps, d)) == RunInto(Feed(s, ps).value, d)
  {
    FeedConcat(s, ps, d.puts);
  }

  /** `d`, and on success `next`. */
  function Bound<T, U>(d: Derived<T>, next: Derived<U>): Derived<U> {
    match d.outcome
    case Err(e) => Derived(d.puts, Err(e))
    case Ok(_) => Emit(d.puts, next)
  }

  lemma RunBound<T, U>(s: SinkState, d: Derived<T>, next: Derived<U>)
    ensures RunInto(s, d).Err? ==> RunInto(s, Bound(d, next)) == Err(RunInto(s, d).error)
    ensures RunInto(s, d).Ok? ==> RunInto(s, Bound(d, next)) == RunInto(RunInto(s, d).value.0, next)
  {
    if d.outcome.Ok? {
      RunEmit(s, d.puts, next);
    }
  }

  lemma {:induction false} FeedWrites(s: SinkState, puts: seq<Put>)
    requires !s.checking
    ensures WritePuts(s.words, puts).Err? ==> Feed(s, puts) == Err(WritePuts(s.words, puts).error)
    ensures WritePuts(s.words, puts).Ok? ==> Feed(s, puts) == Ok(s.(words := WritePuts(s.words, puts).value))
    decreases |puts|
  {
    if puts != [] && WritePut(s.words, puts[0]).Ok? {
      FeedWrites(s.(words := WritePut(s.words, puts[0]).value), puts[1..]);
    }
  }

  lemma {:induction false} FeedChecks(s: SinkState, puts: seq<Put>)
    requires s.checking
    ensures CheckPuts(s.words, puts).Err? ==> Feed(s, puts) == Err(CheckPuts(s.words, puts).error)
    ensures CheckPuts(s.words, puts).Ok? ==> Feed(s, puts) == Ok(s.(puts := s.puts + |puts|))
    decreases |puts|
  {
    if puts != [] && CheckPut(s.words, puts[0]).Ok? {
      FeedChecks(s.(puts := s.puts + 1), puts[1..]);
    }
  }

  /** What a method that runs `d` into a sink promises. */
  ghost predicate Ran<T>(before: SinkState, after: SinkState, d: Derived<T>, r: Result<T>) {
    && (r.Ok? ==> RunInto(before, d) == Ok((after, r.value)))
    && (r.Err? ==> RunInto(before, d) == Err(r.error))
  }

  // ---- the constant pool -------------------------------------------------

  method DeriveConstants(cp: CpView, n: Counts, l: Layout, sink: Sink) returns (r: Result<()>)
    modifies sink
    ensures Ran(old(sink.State()), sink.State(), DeriveCp(cp, n, l, 0, 0, 0, 0), r)
  {
    var i: nat, k: nat, ks: nat, lo: byte := 0, 0, 0, 0;
    while i < n.cpCount
      invariant i <= n.cpCount
      invariant RunInto(old(sink.State()), DeriveCp(cp, n, l, 0, 0, 0, 0)) == RunInto(sink.State(), DeriveCp(cp, n, l, i, k, ks, lo))
    {
      var tag :- OkOr(Tag(cp, i), Internal);
      var word :- OkOr(CpWord(cp, l, i, tag, k, ks), Internal);
      var k', ks', lo' := k + (if IsMethodref(tag) then 1 else 0), ks + (if tag == TAG_STRING then 1 else 0), if i % 2 == 0 then tag else lo;
      RunEmit(sink.State(), CpPuts(n, i, word, lo, tag), DeriveCp(cp, n, l, i + 1, k', ks', lo'));
      var _ :- sink.TakeAll(CpPuts(n, i, word, lo, tag));
      i, k, ks, lo := i + 1, k', ks', lo';
    }
    if n.cpCount % 2 == 1 {
      var last := [Put(HEADER_WORDS + n.cpCount + n.cpCount / 2, lo)];
      var _ :- sink.TakeAll(last);
    }
    return Ok(());
  }

  /** A Methodref entry must lead to a class and to a name and type whose
      descriptor parses. */
  method ReadMethodref(cls: seq<byte>, cp: CpView, i: nat, tag: byte) returns (r: Result<(nat, u16)>)
    ensures r == MethodrefAt(cls, cp, i, tag)
  {
    var bad := BadMethodref(AsU16(i));
    var off :- OkOr(Offset(cp, i), Internal);
    var classIdx :- ReadU16(cls, off);
    if Tag(cp, classIdx) != Some(TAG_CLASS) {
      return Err(bad);
    }
    var nat_ :- ReadU16(cls, off + 2);
    if Tag(cp, nat_) != Some(TAG_NAME_AND_TYPE) {
      return Err(bad);
    }
    var natOff :- OkOr(Offset(cp, nat_), Internal);
    var descIdx :- ReadU16(cls, natOff + 2);
    var desc :- OkOr(Utf8(cp, descIdx), bad);
    var counted := Descriptor.CountArgs(desc);
    var argc :- OkOr(counted, BadDescriptor(AsU16(i)));
    return Ok((off, argc as int + if tag == TAG_INTERFACE_METHODREF then 0x100 else 0));
  }

  method DeriveMethodrefs(cls: seq<byte>, cp: CpView, n: Counts, l: Layout, sink: Sink) returns (r: Result<()>)
    modifies sink
    ensures Ran(old(sink.State()), sink.State(), DeriveMrefs(cls, cp, n, l, 0, 0), r)
  {
    var i: nat, k: nat := 0, 0;
    while i < n.cpCount
      invariant i <= n.cpCount
      invariant RunInto(old(sink.State()), DeriveMrefs(cls, cp, n, l, 0, 0)) == RunInto(sink.State(), DeriveMrefs(cls, cp, n, l, i, k))
    {
      var tag :- OkOr(Tag(cp, i), Internal);
      if IsMethodref(tag) {
        var desc :- ReadMethodref(cls, cp, i, tag);
        var ps := [Put(l.mrefsOff + 2 * k, AsU16(desc.0)), Put(l.mrefsOff + 2 * k + 1, desc.1)];
        RunEmit(sink.State(), ps, DeriveMrefs(cls, cp, n, l, i + 1, k + 1));
        var _ :- sink.TakeAll(ps);
        k := k + 1;
      }
      i := i + 1;
    }
    if k != n.mrefs {
      return Err(Internal);
    }
    return Ok(());
  }

  method DeriveStrings(cls: seq<byte>, cp: CpView, n: Counts, l: Layout, sink: Sink) returns (r: Result<()>)
    modifies sink
    ensures Ran(old(sink.State()), sink.State(), DeriveStrs(cls, cp, n, l, 0, 0), r)
  {
    var i: nat, ks: nat := 0, 0;
    while i < n.cpCount
      invariant i <= n.cpCount
      invariant RunInto(old(sink.State()), DeriveStrs(cls, cp, n, l, 0, 0)) == RunInto(sink.State(), DeriveStrs(cls, cp, n, l, i, ks))
    {
      if Tag(cp, i) == Some(TAG_STRING) {
        var off :- StringAt(cls, cp, i);
        var ps := [Put(l.strsOff + 2 * ks, AsU16(off)), PutExternal(l.strsOff + 2 * ks + 1, LIT_NONE)];
        RunEmit(sink.State(), ps, DeriveStrs(cls, cp, n, l, i + 1, ks + 1));
        var _ :- sink.TakeAll(ps);
        ks := ks + 1;
      }
      i := i + 1;
    }
    if ks != n.strs {
      return Err(Internal);
    }
    return Ok(());
  }

  /** Every name the runtime decodes without checking again is UTF-8. */
  method CheckDecodedNames(env: Env, cls: seq<byte>, cp: CpView, n: Counts) returns (r: Result<()>)
    ensures r == CheckNames(env, cls, cp, n, 0)
  {
    var i: nat := 0;
    while i < n.cpCount
      invariant i <= n.cpCount
      invariant CheckNames(env, cls, cp, n, 0) == CheckNames(env, cls, cp, n, i)
    {
      if Tag(cp, i) == Some(TAG_CLASS) {
        var ui :- OkOr(ClassUtf8Index(cls, cp, i), Truncated);
        var _ :- NameAt(env, cp, i, ui);
      } else if Tag(cp, i) == Some(TAG_NAME_AND_TYPE) {
        var off :- OkOr(Offset(cp, i), Internal);
        var name :- ReadU16(cls, off);
        var _ :- NameAt(env, cp, i, name);
        var desc :- ReadU16(cls, off + 2);
        var _ :- NameAt(env, cp, i, desc);
      }
      i := i + 1;
    }
    return Ok(());
  }

  // ---- the class's own records -------------------------------------------

  /** Access flags, name, superclass and interface count, in file order. */
  method ReadOwnNames(env: Env, c: Cursor, cp: CpView) returns (r: Result<Head>)
    modifies c`pos
    ensures r == HeadAt(env, c.data, cp, old(c.pos))
    ensures r.Ok? ==> c.pos == r.value.pos
  {
    var access :- c.U16();
    var thisIdx :- c.U16();
    var superIdx :- c.U16();
    var name :- ClassNameRef(env, c.data, cp, thisIdx);
    var super :- SuperRef(env, c.data, cp, superIdx);
    var ifaces :- c.U16();
    return Ok(Head(access, name, super, ifaces, c.pos));
  }

  method DeriveInterfaces(env: Env, c: Cursor, cp: CpView, l: Layout, count: nat, sink: Sink) returns (r: Result<nat>)
    modifies c`pos, sink
    ensures Ran(old(sink.State()), sink.State(), DeriveIfaces(env, c.data, cp, l, count, 0, old(c.pos)), r)
    ensures r.Ok? ==> c.pos == r.value
  {
    var j: nat := 0;
    while j < count
      invariant j <= count
      invariant RunInto(old(sink.State()), DeriveIfaces(env, c.data, cp, l, count, 0, old(c.pos)))
                == RunInto(sink.State(), DeriveIfaces(env, c.data, cp, l, count, j, c.pos))
    {
      ghost var pos := c.pos;
      var named := IfaceAt(env, c.data, cp, j, c.pos);
      var _ :- c.U16();
      var name :- named;
      RunEmit(sink.State(), IfacePuts(l, j, name), DeriveIfaces(env, c.data, cp, l, count, j + 1, pos + 2));
      var _ :- sink.TakeAll(IfacePuts(l, j, name));
      j := j + 1;
    }
    return Ok(c.pos);
  }

  method ReadField(env: Env, c: Cursor, cp: CpView, j: nat) returns (r: Result<Field>)
    modifies c`pos
    ensures r == FieldAt(env, c.data, cp, j, old(c.pos))
    ensures r.Ok? ==> c.pos == r.value.next
  {
    var access :- c.U16();
    var name :- c.U16();
    var desc :- c.U16();
    var _ :- SkipAttributes(c);
    var bad := BadMember(AsU16(j));
    var nameB :- OkOr(Utf8(cp, name), bad);
    var _ :- CheckUtf8(env, nameB, name);
    var descB :- OkOr(Utf8(cp, desc), bad);
    var _ :- CheckUtf8(env, descB, desc);
    return Ok(Field(IsStatic(access), name, desc, FieldKind(descB), c.pos));
  }

  /** One field into its region: where the next one starts, and its slot. */
  method DeriveField(env: Env, c: Cursor, cp: CpView, l: Layout, j: nat, at: FieldsEnd, sink: Sink)
    returns (r: Result<FieldsEnd>)
    requires c.pos == at.pos
    modifies c`pos, sink
    ensures r.Ok? ==> c.pos == r.value.pos
    ensures var f := FieldAt(env, c.data, cp, j, at.pos);
      && (f.Err? ==> r == Err(f.error))
      && (f.Ok? ==>
            var next := NextField(f.value, at);
            if FieldSlot(f.value, at) > MAX_OWN_SLOTS || next.own > MAX_OWN_SLOTS then r == Err(ClassTooLarge)
            else
              var fed := Feed(old(sink.State()), FieldPuts(l, f.value, at));
              (fed.Err? ==> r == Err(fed.error)) && (fed.Ok? ==> r == Ok(next) && sink.State() == fed.value))
  {
    var f :- ReadField(env, c, cp, j);
    var fi, si, own := at.fi, at.si, at.own;
    var base, slot;
    if f.isStatic {
      si := si + 1;
      base, slot := l.staticsOff + 3 * (si - 1), si - 1;
    } else {
      fi := fi + 1;
      slot := own;
      own := own + KindSlots(f.kind);
      base := l.fieldsOff + 3 * (fi - 1);
    }
    if slot > MAX_OWN_SLOTS || own > MAX_OWN_SLOTS {
      return Err(ClassTooLarge);
    }
    var _ :- sink.TakeAll([Put(base, f.name), Put(base + 1, f.desc), Put(base + 2, AsU16(slot + 0x1000 * f.kind))]);
    return Ok(FieldsEnd(c.pos, fi, si, own));
  }

  /** Instance and static fields into their regions, slots counted on the way. */
  method DeriveFieldRecords(env: Env, c: Cursor, cp: CpView, l: Layout, count: nat, sink: Sink) returns (r: Result<FieldsEnd>)
    modifies c`pos, sink
    ensures Ran(old(sink.State()), sink.State(), DeriveFields(env, c.data, cp, l, count, 0, FieldsEnd(old(c.pos), 0, 0, 0)), r)
    ensures r.Ok? ==> c.pos == r.value.pos
  {
    var j: nat, at := 0, FieldsEnd(c.pos, 0, 0, 0);
    while j < count
      invariant j <= count && at.pos == c.pos
      invariant RunInto(old(sink.State()), DeriveFields(env, c.data, cp, l, count, 0, FieldsEnd(old(c.pos), 0, 0, 0)))
                == RunInto(sink.State(), DeriveFields(env, c.data, cp, l, count, j, at))
    {
      FieldStep(sink.State(), env, c.data, cp, l, count, j, at);
      at :- DeriveField(env, c, cp, l, j, at, sink);
      j := j + 1;
    }
    return Ok(at);
  }

  lemma FieldStep(s: SinkState, env: Env, cls: seq<byte>, cp: CpView, l: Layout, count: nat, j: nat, at: FieldsEnd)
    requires j < count
    ensures var whole, f := RunInto(s, DeriveFields(env, cls, cp, l, count, j, at)), FieldAt(env, cls, cp, j, at.pos);
      && (f.Err? ==> whole == Err(f.error))
      && (f.Ok? ==>
            var next := NextField(f.value, at);
            if FieldSlot(f.value, at) > MAX_OWN_SLOTS || next.own > MAX_OWN_SLOTS then whole == Err(ClassTooLarge)
            else
              var fed := Feed(s, FieldPuts(l, f.value, at));
              && (fed.Err? ==> whole == Err(fed.error))
              && (fed.Ok? ==> whole == RunInto(fed.value, DeriveFields(env, cls, cp, l, count, j + 1, next))))
  {
    var f := FieldAt(env, cls, cp, j, at.pos);
    if f.Ok? {
      RunEmit(s, FieldPuts(l, f.value, at), DeriveFields(env, cls, cp, l, count, j + 1, NextField(f.value, at)));
    }
  }

  method ReadSubAttributes(c: Cursor, cp: CpView, n: nat, known: nat) returns (r: Result<nat>)
    modifies c`pos
    ensures r == SubAttrs(c.data, cp, n, old(c.pos), known)
  {
    var i: nat, lnt := 0, known;
    while i < n
      invariant i <= n
      invariant SubAttrs(c.data, cp, n, old(c.pos), known) == SubAttrs(c.data, cp, n - i, c.pos, lnt)
    {
      var name :- c.U16();
      var len :- c.U32();
      var start := c.pos;
      if lnt == 0 && Utf8(cp, name) == Some(LINE_NUMBER_TABLE) {
        lnt := start;
      }
      var _ :- c.SeekTo(start + len);
      i := i + 1;
    }
    return Ok(lnt);
  }

  /** The body of a `Code` attribute; its bytecode is checked here. */
  method ReadCode(c: Cursor, cp: CpView, lnt: nat) returns (r: Result<CodeRefs>)
    modifies c`pos
    ensures r == CodeAttr(c.data, cp, old(c.pos), lnt)
  {
    hide Bytecode.CodeVerdict, SubAttrs;
    var _ :- c.Skip(4);
    var codeLen :- c.U32();
    var code := c.pos;
    var _ :- c.Skip(codeLen);
    var _ :- Bytecode.CheckCode(c.data[code..c.pos]);
    var exc :- c.U16();
    var _ :- c.Skip(8 * exc as int);
    var subs :- c.U16();
    var lnt' :- ReadSubAttributes(c, cp, subs, lnt);
    return Ok(CodeRefs(code, lnt'));
  }

  /** One attribute of a method: where it ends, and what it told. */
  ghost function NextMethodAttr(cls: seq<byte>, cp: CpView, pos: nat, refs: CodeRefs): Result<MethodBody> {
    var attrName :- ReadU16(cls, pos);
    var attrLen :- ReadU32(cls, pos + 2);
    var refs' :- MethodAttr(cls, cp, attrName, pos + 6, refs);
    var next :- Seek(cls, pos + 6 + attrLen);
    Ok(MethodBody(next, refs'))
  }

  lemma MethodAttrsStep(cls: seq<byte>, cp: CpView, n: nat, pos: nat, refs: CodeRefs)
    requires n > 0
    ensures MethodAttrs(cls, cp, n, pos, refs)
            == match NextMethodAttr(cls, cp, pos, refs)
               case Err(e) => Err(e)
               case Ok(body) => MethodAttrs(cls, cp, n - 1, body.pos, body.refs)
  {
  }

  method ReadMethodAttribute(c: Cursor, cp: CpView, before: CodeRefs) returns (r: Result<CodeRefs>)
    modifies c`pos
    ensures r == match NextMethodAttr(c.data, cp, old(c.pos), before)
                 case Err(e) => Err(e)
                 case Ok(body) => Ok(body.refs)
    ensures r.Ok? ==> NextMethodAttr(c.data, cp, old(c.pos), before) == Ok(MethodBody(c.pos, r.value))
  {
    var name :- c.U16();
    var len :- c.U32();
    var start := c.pos;
    var refs :- ReadIfCode(c, cp, name, before);
    var _ :- c.SeekTo(start + len);
    return Ok(refs);
  }

  method ReadIfCode(c: Cursor, cp: CpView, name: nat, before: CodeRefs) returns (r: Result<CodeRefs>)
    modifies c`pos
    ensures r == MethodAttr(c.data, cp, name, old(c.pos), before)
  {
    if Utf8(cp, name) == Some(CODE) {
      r := ReadCode(c, cp, before.lnt);
    } else {
      r := Ok(before);
    }
  }

  method ReadMethodAttributes(c: Cursor, cp: CpView, n: nat) returns (r: Result<MethodBody>)
    modifies c`pos
    ensures r == MethodAttrs(c.data, cp, n, old(c.pos), CodeRefs(0, 0))
    ensures r.Ok? ==> c.pos == r.value.pos
  {
    var i: nat, refs := 0, CodeRefs(0, 0);
    while i < n
      invariant i <= n
      invariant MethodAttrs(c.data, cp, n, old(c.pos), CodeRefs(0, 0)) == MethodAttrs(c.data, cp, n - i, c.pos, refs)
    {
      MethodAttrsStep(c.data, cp, n - i, c.pos, refs);
      refs :- ReadMethodAttribute(c, cp, refs);
      i := i + 1;
    }
    return Ok(MethodBody(c.pos, refs));
  }

  method ReadMethod(env: Env, c: Cursor, cp: CpView, mi: nat) returns (r: Result<Method>)
    modifies c`pos
    ensures r == MethodAt(env, c.data, cp, mi, old(c.pos))
    ensures r.Ok? ==> c.pos == r.value.next
  {
    var access :- c.U16();
    var name :- c.U16();
    var desc :- c.U16();
    var attrCount :- c.U16();
    var bad := BadMember(AsU16(mi));
    var nameB :- OkOr(Utf8(cp, name), bad);
    var descB :- OkOr(Utf8(cp, desc), bad);
    var _ :- CheckUtf8(env, nameB, name);
    var _ :- CheckUtf8(env, descB, desc);
    var body :- ReadMethodAttributes(c, cp, attrCount);
    return Ok(Method(access, body.refs, env.sigHash(nameB, descB), c.pos));
  }

  method DeriveMethodRecords(env: Env, c: Cursor, cp: CpView, l: Layout, count: nat, sink: Sink) returns (r: Result<nat>)
    modifies c`pos, sink
    ensures Ran(old(sink.State()), sink.State(), DeriveMethods(env, c.data, cp, l, count, 0, old(c.pos)), r)
    ensures r.Ok? ==> c.pos == r.value
  {
    var mi: nat := 0;
    while mi < count
      invariant mi <= count
      invariant RunInto(old(sink.State()), DeriveMethods(env, c.data, cp, l, count, 0, old(c.pos)))
                == RunInto(sink.State(), DeriveMethods(env, c.data, cp, l, count, mi, c.pos))
    {
      var pos := c.pos;
      var m :- ReadMethod(env, c, cp, mi);
      RunEmit(sink.State(), MethodPuts(l, mi, pos, m), DeriveMethods(env, c.data, cp, l, count, mi + 1, m.next));
      var _ :- sink.TakeAll(MethodPuts(l, mi, pos, m));
      mi := mi + 1;
    }
    return Ok(c.pos);
  }

  // ---- the class attributes and the header -------------------------------

  method SkipBootstrapEntries(c: Cursor, n: nat) returns (r: Result<nat>)
    modifies c`pos
    ensures r == SkipBootstrap(c.data, n, old(c.pos))
    ensures r.Ok? ==> c.pos == r.value
  {
    var i: nat := 0;
    while i < n
      invariant i <= n
      invariant SkipBootstrap(c.data, n, old(c.pos)) == SkipBootstrap(c.data, n - i, c.pos)
    {
      var _ :- c.Skip(2);
      var args :- c.U16();
      var _ :- c.Skip(2 * args as int);
      i := i + 1;
    }
    return Ok(c.pos);
  }

  /** The two class attributes the table records. */
  method ReadClassAttribute(c: Cursor, cp: CpView, name: nat, len: nat, a: ClassAttrs) returns (r: Result<ClassAttrs>)
    modifies c`pos
    ensures r == ClassAttr(c.data, cp, name, len, old(c.pos), a)
  {
    var start := c.pos;
    if Utf8(cp, name) == Some(BOOTSTRAP_METHODS) {
      var methods :- c.U16();
      var _ :- SkipBootstrapEntries(c, methods);
      if c.pos > start + len {
        return Err(BadBootstrapMethods);
      }
      return Ok(a.(bsm := start));
    } else if len == 2 && Utf8(cp, name) == Some(SOURCE_FILE) {
      var idx :- c.U16();
      return Ok(a.(sourceFile := idx));
    }
    return Ok(a);
  }

  /** One attribute of the class: where it ends, and what is known after it. */
  function NextClassAttr(cls: seq<byte>, cp: CpView, pos: nat, a: ClassAttrs): Result<(nat, ClassAttrs)> {
    var attrName :- ReadU16(cls, pos);
    var attrLen :- ReadU32(cls, pos + 2);
    var a' :- ClassAttr(cls, cp, attrName, attrLen, pos + 6, a);
    var next :- Seek(cls, pos + 6 + attrLen);
    Ok((next, a'))
  }

  lemma ClassAttrsStep(cls: seq<byte>, cp: CpView, n: nat, pos: nat, a: ClassAttrs)
    requires n > 0
    ensures ClassAttrsFrom(cls, cp, n, pos, a)
            == match NextClassAttr(cls, cp, pos, a)
               case Err(e) => Err(e)
               case Ok((next, a')) => ClassAttrsFrom(cls, cp, n - 1, next, a')
  {
  }

  method ReadNextClassAttribute(c: Cursor, cp: CpView, a: ClassAttrs) returns (r: Result<ClassAttrs>)
    modifies c`pos
    ensures r == match NextClassAttr(c.data, cp, old(c.pos), a)
                 case Err(e) => Err(e)
                 case Ok((_, a')) => Ok(a')
    ensures r.Ok? ==> NextClassAttr(c.data, cp, old(c.pos), a) == Ok((c.pos, r.value))
  {
    var name :- c.U16();
    var len :- c.U32();
    var start := c.pos;
    var a' :- ReadClassAttribute(c, cp, name, len, a);
    var _ :- c.SeekTo(start + len);
    return Ok(a');
  }

  method ReadClassAttributes(c: Cursor, cp: CpView, n: nat) returns (r: Result<ClassAttrs>)
    modifies c`pos
    ensures r == ClassAttrsFrom(c.data, cp, n, old(c.pos), ClassAttrs(0, 0))
  {
    var i: nat, a := 0, ClassAttrs(0, 0);
    while i < n
      invariant i <= n
      invariant ClassAttrsFrom(c.data, cp, n, old(c.pos), ClassAttrs(0, 0)) == ClassAttrsFrom(c.data, cp, n - i, c.pos, a)
    {
      ClassAttrsStep(c.data, cp, n - i, c.pos, a);
      a :- ReadNextClassAttribute(c, cp, a);
      i := i + 1;
    }
    return Ok(a);
  }

  /** Class attributes, header and pad word. */
  method DeriveEnd(c: Cursor, cp: CpView, n: Counts, l: Layout, head: Head, own: nat, sink: Sink) returns (r: Result<()>)
    modifies c`pos, sink
    ensures Ran(old(sink.State()), sink.State(), DeriveTail(c.data, cp, n, l, head, own, old(c.pos)), r)
  {
    var count :- c.U16();
    var a :- ReadClassAttributes(c, cp, count);
    var _ :- sink.TakeAll(HeaderPuts(c.data, n, l, head, own, a) + PadPuts(n, l));
    return Ok(());
  }

  method DeriveMethodsAndEnd(env: Env, c: Cursor, cp: CpView, n: Counts, l: Layout, head: Head, own: nat, sink: Sink)
    returns (r: Result<()>)
    modifies c`pos, sink
    ensures Ran(old(sink.State()), sink.State(), DeriveFromMethods(env, c.data, cp, n, l, head, own, old(c.pos)), r)
  {
    ghost var pos := c.pos;
    var count :- c.U16();
    if count != n.methods {
      return Err(Internal);
    }
    ghost var methods := DeriveMethods(env, c.data, cp, l, count, 0, pos + 2);
    if methods.outcome.Ok? {
      RunBound(sink.State(), methods, DeriveTail(c.data, cp, n, l, head, own, methods.outcome.value));
    }
    var _ :- DeriveMethodRecords(env, c, cp, l, count, sink);
    r := DeriveEnd(c, cp, n, l, head, own, sink);
  }

  method DeriveFieldsAndOn(env: Env, c: Cursor, cp: CpView, n: Counts, l: Layout, head: Head, sink: Sink)
    returns (r: Result<()>)
    modifies c`pos, sink
    ensures Ran(old(sink.State()), sink.State(), DeriveFromFields(env, c.data, cp, n, l, head, old(c.pos)), r)
  {
    ghost var pos := c.pos;
    var count :- c.U16();
    ghost var fields := DeriveFields(env, c.data, cp, l, count, 0, FieldsEnd(pos + 2, 0, 0, 0));
    ghost var next :=
      if fields.outcome.Err? then Fail(Internal)
      else if fields.outcome.value.fi != n.fields || fields.outcome.value.si != n.statics then Fail(Internal)
      else DeriveFromMethods(env, c.data, cp, n, l, head, fields.outcome.value.own, fields.outcome.value.pos);
    RunBound(sink.State(), fields, next);
    var end :- DeriveFieldRecords(env, c, cp, l, count, sink);
    if end.fi != n.fields || end.si != n.statics {
      return Err(Internal);
    }
    r := DeriveMethodsAndEnd(env, c, cp, n, l, head, end.own, sink);
  }

  method DeriveOwn(env: Env, cls: seq<byte>, cp: CpView, n: Counts, l: Layout, sink: Sink) returns (r: Result<()>)
    modifies sink
    ensures Ran(old(sink.State()), sink.State(), DeriveMembers(env, cls, cp, n, l), r)
  {
    var c := new Cursor.At(cls, n.posAfterCp);
    var head :- ReadOwnNames(env, c, cp);
    if head.ifaces != n.ifaces {
      return Err(Internal);
    }
    ghost var ifaces := DeriveIfaces(env, cls, cp, l, head.ifaces, 0, head.pos);
    if ifaces.outcome.Ok? {
      RunBound(sink.State(), ifaces, DeriveFromFields(env, cls, cp, n, l, head, ifaces.outcome.value));
    }
    var _ :- DeriveInterfaces(env, c, cp, l, head.ifaces, sink);
    r := DeriveFieldsAndOn(env, c, cp, n, l, head, sink);
  }

  lemma RunThen<T>(s: SinkState, first: Derived<()>, next: Derived<T>)
    ensures RunInto(s, first).Err? ==> RunInto(s, Then(first, next)) == Err(RunInto(s, first).error)
    ensures RunInto(s, first).Ok? ==> RunInto(s, Then(first, next)) == RunInto(RunInto(s, first).value.0, next)
  {
    RunBound(s, first, next);
  }

  /** `derive` */
  method Derive(env: Env, cls: seq<byte>, cp: CpView, n: Counts, l: Layout, sink: Sink) returns (r: Result<()>)
    modifies sink
    ensures Ran(old(sink.State()), sink.State(), DeriveTable(env, cls, cp, n, l), r)
  {
    ghost var members := DeriveMembers(env, cls, cp, n, l);
    ghost var names := Then(Derived([], CheckNames(env, cls, cp, n, 0)), members);
    ghost var strs := Then(DeriveStrs(cls, cp, n, l, 0, 0), names);
    ghost var mrefs := Then(DeriveMrefs(cls, cp, n, l, 0, 0), strs);
    RunThen(sink.State(), DeriveCp(cp, n, l, 0, 0, 0, 0), mrefs);
    var _ :- DeriveConstants(cp, n, l, sink);
    RunThen(sink.State(), DeriveMrefs(cls, cp, n, l, 0, 0), strs);
    var _ :- DeriveMethodrefs(cls, cp, n, l, sink);
    RunThen(sink.State(), DeriveStrs(cls, cp, n, l, 0, 0), names);
    var _ :- DeriveStrings(cls, cp, n, l, sink);
    RunThen(sink.State(), Derived([], CheckNames(env, cls, cp, n, 0)), members);
    var _ :- CheckDecodedNames(env, cls, cp, n);
    r := DeriveOwn(env, cls, cp, n, l, sink);
  }
}
