/** Methods in the derivation: it succeeds exactly when their names are names
    and their `Code` attributes legal, and puts for each where the file has it. */
module MethodsExact {
  import opened Bytes
  import opened ClassFile
  import opened ClassSpec
  import opened ConstantsExact
  import opened Sinks
  import Bytecode

  // ---- searching attributes ----------------------------------------------

  lemma NamedAlike(cp: CpView, cs: seq<Constant>, cls: seq<byte>, a: Attr, name: seq<byte>)
    requires Shows(cls, cp, cs)
    ensures Named(cs, a, name) <==> Utf8(cp, a.name) == Some(name)
  {
    TextShown(cls, cp, cs, a.name);
  }

  /** What a search keeps that takes every attribute so named: `w` before. */
  function LastFrom(cs: seq<Constant>, t: Tail, attrs: seq<Attr>, name: seq<byte>, into: nat, w: nat): nat {
    if attrs == [] then w
    else LastFrom(cs, t, attrs[1..], name, into, if Named(cs, attrs[0], name) then t.base + attrs[0].at + into else w)
  }

  /** What a search keeps that takes the first: `w` before, 0 if none yet. */
  function FirstFrom(cs: seq<Constant>, t: Tail, attrs: seq<Attr>, name: seq<byte>, into: nat, w: nat): nat {
    if attrs == [] then w
    else
      FirstFrom(cs, t, attrs[1..], name, into,
                if w == 0 && Named(cs, attrs[0], name) then t.base + attrs[0].at + into else w)
  }

  lemma {:induction false} LastIs(cs: seq<Constant>, t: Tail, attrs: seq<Attr>, name: seq<byte>, into: nat, w: nat)
    ensures var r := LastFrom(cs, t, attrs, name, into, w);
      && ((forall j | 0 <= j < |attrs| :: !Named(cs, attrs[j], name)) ==> r == w)
      && forall k: nat | LastNamed(cs, attrs, name, k) :: r == t.base + attrs[k].at + into
    decreases |attrs|
  {
    hide Named;
    if attrs != [] {
      var w' := if Named(cs, attrs[0], name) then t.base + attrs[0].at + into else w;
      LastIs(cs, t, attrs[1..], name, into, w');
      forall k: nat | LastNamed(cs, attrs, name, k)
        ensures LastFrom(cs, t, attrs, name, into, w) == t.base + attrs[k].at + into
      {
        if k > 0 {
          assert LastNamed(cs, attrs[1..], name, k - 1);
        } else {
          assert forall j | 0 <= j < |attrs[1..]| :: attrs[1..][j] == attrs[j + 1];
        }
      }
      if forall j | 0 <= j < |attrs| :: !Named(cs, attrs[j], name) {
        assert forall j | 0 <= j < |attrs[1..]| :: attrs[1..][j] == attrs[j + 1];
      }
    }
  }

  lemma {:induction false} FirstStays(cs: seq<Constant>, t: Tail, attrs: seq<Attr>, name: seq<byte>, into: nat, w: nat)
    requires w != 0
    ensures FirstFrom(cs, t, attrs, name, into, w) == w
    decreases |attrs|
  {
    if attrs != [] {
      FirstStays(cs, t, attrs[1..], name, into, w);
    }
  }

  lemma {:induction false} FirstIs(cs: seq<Constant>, t: Tail, attrs: seq<Attr>, name: seq<byte>, into: nat)
    requires into > 0
    ensures PointsToFirst(cs, t, attrs, name, into, FirstFrom(cs, t, attrs, name, into, 0))
    decreases |attrs|
  {
    hide Named;
    if attrs != [] {
      var rest := attrs[1..];
      assert forall j | 0 <= j < |rest| :: rest[j] == attrs[j + 1];
      if Named(cs, attrs[0], name) {
        FirstStays(cs, t, rest, name, into, t.base + attrs[0].at + into);
      } else {
        FirstIs(cs, t, rest, name, into);
        forall k: nat | FirstNamed(cs, attrs, name, k)
          ensures FirstFrom(cs, t, attrs, name, into, 0) == t.base + attrs[k].at + into
        {
          assert FirstNamed(cs, rest, name, k - 1);
        }
      }
    }
  }

  lemma {:induction false} FirstOfBoth(
    cs: seq<Constant>, t: Tail, a: seq<Attr>, b: seq<Attr>, name: seq<byte>, into: nat, w: nat)
    ensures FirstFrom(cs, t, a + b, name, into, w) == FirstFrom(cs, t, b, name, into, FirstFrom(cs, t, a, name, into, w))
    decreases |a|
  {
    if a == [] {
      assert a + b == b;
    } else {
      assert (a + b)[1..] == a[1..] + b;
      FirstOfBoth(cs, t, a[1..], b, name, into, if w == 0 && Named(cs, a[0], name) then t.base + a[0].at + into else w);
    }
  }

  // ---- Code attributes ---------------------------------------------------

  lemma {:induction false} SubAttrsDerived(cp: CpView, cs: seq<Constant>, t: Tail, subs: seq<Attr>, p: nat, end: nat, lnt: nat)
    requires Shows(t.file, cp, cs) && AttrsLie(t, subs, p, end)
    ensures SubAttrs(t.file, cp, |subs|, t.base + p, lnt) == Ok(FirstFrom(cs, t, subs, LINES_ATTR, 6, lnt))
    decreases |subs|
  {
    hide Shows, Named, Utf8;
    if subs != [] {
      var a := subs[0];
      NamedAlike(cp, cs, t.file, a, LINE_NUMBER_TABLE);
      SubAttrsDerived(cp, cs, t, subs[1..], p + 6 + a.len, end,
                      if lnt == 0 && Named(cs, a, LINES_ATTR) then t.base + a.at + 6 else lnt);
    }
  }

  lemma {:induction false} SubAttrsRead(cp: CpView, t: Tail, n: nat, p: nat, lnt: nat) returns (subs: seq<Attr>, end: nat)
    requires SubAttrs(t.file, cp, n, t.base + p, lnt).Ok?
    ensures |subs| == n && AttrsLie(t, subs, p, end)
  {
    hide Utf8;
    if n == 0 {
      subs, end := [], p;
    } else {
      var name: nat := ReadU16(t.file, t.base + p).value;
      var len: nat := ReadU32(t.file, t.base + p + 2).value;
      var start := t.base + p + 6;
      subs, end := SubAttrsRead(cp, t, n - 1, p + 6 + len,
                                if lnt == 0 && Utf8(cp, name) == Some(LINE_NUMBER_TABLE) then start else lnt);
      var all := [Attr(p, name, len)] + subs;
      assert all[1..] == subs;
      subs := all;
    }
  }

  lemma LegalAlike(code: seq<byte>)
    ensures Bytecode.CodeVerdict(code).Ok? <==> CodeIsLegal(code)
  {
    Bytecode.AcceptsExactlyTiledCode(code);
  }

  /** A `Code` attribute that lies there, legal, is read so. */
  lemma CodeDerived(cp: CpView, cs: seq<Constant>, t: Tail, a: Attr, c: Code, lnt: nat)
    requires Shows(t.file, cp, cs) && CodeLies(t, a, c)
    ensures Reaches(t, a.at + 14 + c.len)
    ensures CodeIsLegal(CodeBytes(t, a, c)) ==>
      CodeAttr(t.file, cp, t.base + a.at + 6, lnt)
      == Ok(CodeRefs(t.base + a.at + 14, FirstFrom(cs, t, c.subs, LINES_ATTR, 6, lnt)))
  {
    hide Shows, SubAttrs, FirstFrom, CodeIsLegal, Bytecode.CodeVerdict, AttrsLie;
    var subsAt := a.at + 14 + c.len + 2 + 8 * c.handlers;
    LegalAlike(CodeBytes(t, a, c));
    SubAttrsDerived(cp, cs, t, c.subs, subsAt + 2, c.end, lnt);
  }

  lemma CodeRead(cp: CpView, t: Tail, a: Attr, lnt: nat) returns (c: Code)
    requires CodeAttr(t.file, cp, t.base + a.at + 6, lnt).Ok?
    ensures CodeLies(t, a, c) && Reaches(t, a.at + 14 + c.len) && CodeIsLegal(CodeBytes(t, a, c))
  {
    hide SubAttrs, CodeIsLegal, Bytecode.CodeVerdict, AttrsLie;
    var len: nat := ReadU32(t.file, t.base + a.at + 10).value;
    var handlers: nat := ReadU16(t.file, t.base + a.at + 14 + len).value;
    var subsAt := a.at + 14 + len + 2 + 8 * handlers;
    var count := ReadU16(t.file, t.base + subsAt).value;
    var subs, end := SubAttrsRead(cp, t, count, subsAt + 2, lnt);
    c := Code(len, handlers, subs, end);
    LegalAlike(CodeBytes(t, a, c));
  }

  // ---- a method's attributes ---------------------------------------------

  /** The refs a method's attributes leave, after `refs`. */
  function RefsFrom(cs: seq<Constant>, t: Tail, attrs: seq<Attr>, codes: seq<Option<Code>>, refs: CodeRefs): CodeRefs {
    CodeRefs(LastFrom(cs, t, attrs, CODE_ATTR, 14, refs.code),
             FirstFrom(cs, t, SubAttrsOf(codes), LINES_ATTR, 6, refs.lnt))
  }

  lemma CodesTail(cs: seq<Constant>, t: Tail, attrs: seq<Attr>, codes: seq<Option<Code>>)
    requires CodesLie(cs, t, attrs, codes) && attrs != []
    ensures CodesLie(cs, t, attrs[1..], codes[1..])
    ensures codes[0].Some? <==> Named(cs, attrs[0], CODE_ATTR)
    ensures codes[0].Some? ==>
      && CodeLies(t, attrs[0], codes[0].value) && Reaches(t, attrs[0].at + 14 + codes[0].value.len)
      && CodeIsLegal(CodeBytes(t, attrs[0], codes[0].value))
  {
    hide Named, CodeLies, CodeIsLegal;
  }

  lemma AttrDerived(cp: CpView, cs: seq<Constant>, t: Tail, a: Attr, code: Option<Code>, refs: CodeRefs)
    requires Shows(t.file, cp, cs) && (code.Some? <==> Named(cs, a, CODE_ATTR))
    requires code.Some? ==>
      CodeLies(t, a, code.value) && Reaches(t, a.at + 14 + code.value.len) && CodeIsLegal(CodeBytes(t, a, code.value))
    ensures MethodAttr(t.file, cp, a.name, t.base + a.at + 6, refs)
            == Ok(CodeRefs(if code.Some? then t.base + a.at + 14 else refs.code,
                           FirstFrom(cs, t, if code.Some? then code.value.subs else [], LINES_ATTR, 6, refs.lnt)))
  {
    hide Shows, CodeAttr, CodeIsLegal, CodeLies, Utf8, Named;
    NamedAlike(cp, cs, t.file, a, CODE);
    if code.Some? {
      CodeDerived(cp, cs, t, a, code.value, refs.lnt);
    }
  }

  lemma {:induction false} AttrsDerived(cp: CpView, cs: seq<Constant>, t: Tail, attrs: seq<Attr>,
                                        codes: seq<Option<Code>>, p: nat, end: nat, refs: CodeRefs)
    requires Shows(t.file, cp, cs) && AttrsLie(t, attrs, p, end) && CodesLie(cs, t, attrs, codes)
    ensures MethodAttrs(t.file, cp, |attrs|, t.base + p, refs)
            == Ok(MethodBody(t.base + end, RefsFrom(cs, t, attrs, codes, refs)))
    decreases |attrs|
  {
    hide Shows, MethodAttr, CodesLie, Named, U16, U32, FirstFrom;
    CodesLength(cs, t, attrs, codes);
    if attrs == [] {
      assert codes == [];
      NoLines(cs, t, refs.lnt);
    } else {
      var a := attrs[0];
      AttrFields(t, attrs, p, end);
      CodesTail(cs, t, attrs, codes);
      AttrDerived(cp, cs, t, a, codes[0], refs);
      var subs := if codes[0].Some? then codes[0].value.subs else [];
      FirstOfBoth(cs, t, subs, SubAttrsOf(codes[1..]), LINES_ATTR, 6, refs.lnt);
      AttrsDerived(cp, cs, t, attrs[1..], codes[1..], p + 6 + a.len, end,
                   MethodAttr(t.file, cp, a.name, t.base + a.at + 6, refs).value);
    }
  }

  lemma NoLines(cs: seq<Constant>, t: Tail, w: nat)
    ensures FirstFrom(cs, t, [], LINES_ATTR, 6, w) == w
  {
  }

  lemma AttrFields(t: Tail, attrs: seq<Attr>, p: nat, end: nat)
    requires AttrsLie(t, attrs, p, end) && attrs != []
    ensures attrs[0].at == p && AttrsLie(t, attrs[1..], p + 6 + attrs[0].len, end)
    ensures ReadU16(t.file, t.base + p) == Ok(attrs[0].name) && ReadU32(t.file, t.base + p + 2) == Ok(attrs[0].len)
    ensures Seek(t.file, t.base + p + 6 + attrs[0].len) == Ok(t.base + p + 6 + attrs[0].len)
  {
  }

  lemma CodesLength(cs: seq<Constant>, t: Tail, attrs: seq<Attr>, codes: seq<Option<Code>>)
    requires CodesLie(cs, t, attrs, codes)
    ensures |codes| == |attrs|
  {
  }

  lemma AttrRead(cp: CpView, cs: seq<Constant>, t: Tail, a: Attr, refs: CodeRefs) returns (code: Option<Code>)
    requires Shows(t.file, cp, cs) && MethodAttr(t.file, cp, a.name, t.base + a.at + 6, refs).Ok?
    ensures CodesLie(cs, t, [a], [code])
  {
    hide Shows, CodeAttr, CodeIsLegal, CodeLies, Utf8, Named;
    NamedAlike(cp, cs, t.file, a, CODE);
    if Named(cs, a, CODE_ATTR) {
      var c := CodeRead(cp, t, a, refs.lnt);
      code := Some(c);
    } else {
      code := None;
    }
  }

  lemma CodesCons(cs: seq<Constant>, t: Tail, a: Attr, code: Option<Code>, attrs: seq<Attr>, codes: seq<Option<Code>>)
    requires CodesLie(cs, t, [a], [code]) && CodesLie(cs, t, attrs, codes)
    ensures CodesLie(cs, t, [a] + attrs, [code] + codes)
  {
    hide CodeLies, CodeIsLegal, Named;
    assert [a][0] == a && [code][0] == code;
    forall j | 0 < j < |attrs| + 1
      ensures ([a] + attrs)[j] == attrs[j - 1] && ([code] + codes)[j] == codes[j - 1]
    {
    }
  }

  lemma {:induction false} AttrsTake(cp: CpView, cs: seq<Constant>, t: Tail, attrs: seq<Attr>, p: nat, end: nat, refs: CodeRefs)
    returns (codes: seq<Option<Code>>)
    requires Shows(t.file, cp, cs) && AttrsLie(t, attrs, p, end)
    requires MethodAttrs(t.file, cp, |attrs|, t.base + p, refs).Ok?
    ensures CodesLie(cs, t, attrs, codes)
    decreases |attrs|
  {
    hide Shows, MethodAttr, CodesLie, Named;
    if attrs == [] {
      codes := [];
      NoCodes(cs, t);
    } else {
      var a := attrs[0];
      var code := AttrRead(cp, cs, t, a, refs);
      codes := AttrsTake(cp, cs, t, attrs[1..], p + 6 + a.len, end, MethodAttr(t.file, cp, a.name, t.base + a.at + 6, refs).value);
      CodesCons(cs, t, a, code, attrs[1..], codes);
      assert [a] + attrs[1..] == attrs;
      codes := [code] + codes;
    }
  }

  lemma NoCodes(cs: seq<Constant>, t: Tail)
    ensures CodesLie(cs, t, [], [])
  {
  }

  // ---- methods -----------------------------------------------------------

  /** What the derivation makes of a method that links. */
  function MethodFrom(env: Env, cs: seq<Constant>, t: Tail, m: Member, codes: seq<Option<Code>>): Method
    requires TextOf(cs, m.name).Some? && TextOf(cs, m.desc).Some? && m.access < 0x1_0000
  {
    Method(m.access, RefsFrom(cs, t, m.attrs, codes, CodeRefs(0, 0)),
           env.sigHash(TextOf(cs, m.name).value, TextOf(cs, m.desc).value), t.base + m.end)
  }

  lemma MethodDerived(env: Env, cp: CpView, cs: seq<Constant>, t: Tail, m: Member, codes: seq<Option<Code>>, mi: nat)
    requires Shows(t.file, cp, cs) && MemberLies(t, m) && MethodLinks(env, cs, t, m, codes)
    ensures MethodAt(env, t.file, cp, mi, t.base + m.at) == Ok(MethodFrom(env, cs, t, m, codes))
  {
    hide Shows, MethodAttrs, RefsFrom, CodesLie, Utf8, TextOf, AttrsLie;
    NameChecked(env, t.file, cp, cs, m.name, Internal);
    NameChecked(env, t.file, cp, cs, m.desc, Internal);
    TextShown(t.file, cp, cs, m.name);
    TextShown(t.file, cp, cs, m.desc);
    AttrsDerived(cp, cs, t, m.attrs, codes, m.at + 8, m.end, CodeRefs(0, 0));
  }

  lemma MethodTaken(env: Env, cp: CpView, cs: seq<Constant>, t: Tail, m: Member, mi: nat) returns (codes: seq<Option<Code>>)
    requires Shows(t.file, cp, cs) && MemberLies(t, m) && MethodAt(env, t.file, cp, mi, t.base + m.at).Ok?
    ensures MethodLinks(env, cs, t, m, codes)
  {
    hide Shows, MethodAttrs, CodesLie, Utf8, TextOf, AttrsLie;
    NameChecked(env, t.file, cp, cs, m.name, Internal);
    NameChecked(env, t.file, cp, cs, m.desc, Internal);
    codes := AttrsTake(cp, cs, t, m.attrs, m.at + 8, m.end, CodeRefs(0, 0));
  }

  ghost predicate MethodsLink(env: Env, cs: seq<Constant>, t: Tail, ms: seq<Member>, codes: seq<seq<Option<Code>>>) {
    |codes| == |ms| && forall j | 0 <= j < |ms| :: MethodLinks(env, cs, t, ms[j], codes[j])
  }

  lemma FirstMember(t: Tail, ms: seq<Member>, p: nat, end: nat)
    requires MembersLie(t, ms, p, end) && ms != []
    ensures ms[0].at == p && MemberLies(t, ms[0]) && MembersLie(t, ms[1..], ms[0].end, end)
    ensures ms[0].access < 0x1_0000
  {
    hide MemberLies;
    AccessFits(t, ms[0]);
  }

  lemma AccessFits(t: Tail, m: Member)
    ensures MemberLies(t, m) ==> m.access < 0x1_0000
  {
  }

  lemma MethodsStep(env: Env, cp: CpView, t: Tail, l: Layout, count: nat, mi: nat, pos: nat)
    requires mi < count
    ensures var d := DeriveMethods(env, t.file, cp, l, count, mi, pos);
      match MethodAt(env, t.file, cp, mi, pos)
      case Err(e) => d.outcome.Err?
      case Ok(m) =>
        var rest := DeriveMethods(env, t.file, cp, l, count, mi + 1, m.next);
        d.outcome == rest.outcome && d.puts == MethodPuts(l, mi, pos, m) + rest.puts
  {
    hide MethodAt, MethodPuts;
  }

  /** Methods that link are derived, up to where the last one ends. */
  lemma {:induction false} MethodsDerived(env: Env, cp: CpView, cs: seq<Constant>, t: Tail, l: Layout, ms: seq<Member>,
                                          codes: seq<seq<Option<Code>>>, count: nat, mi: nat, p: nat, end: nat)
    requires Shows(t.file, cp, cs) && MembersLie(t, ms, p, end) && count == mi + |ms| && MethodsLink(env, cs, t, ms, codes)
    ensures DeriveMethods(env, t.file, cp, l, count, mi, t.base + p).outcome == Ok(t.base + end)
    decreases |ms|
  {
    hide Shows, MethodAt, MethodLinks, MemberLies, RefsFrom;
    if ms != [] {
      FirstMember(t, ms, p, end);
      MethodsStep(env, cp, t, l, count, mi, t.base + p);
      MethodDerived(env, cp, cs, t, ms[0], codes[0], mi);
      MethodsDerived(env, cp, cs, t, l, ms[1..], codes[1..], count, mi + 1, ms[0].end, end);
    }
  }

  lemma {:induction false} MethodsTaken(env: Env, cp: CpView, cs: seq<Constant>, t: Tail, l: Layout, ms: seq<Member>,
                                        count: nat, mi: nat, p: nat, end: nat) returns (codes: seq<seq<Option<Code>>>)
    requires Shows(t.file, cp, cs) && MembersLie(t, ms, p, end) && count == mi + |ms|
    requires DeriveMethods(env, t.file, cp, l, count, mi, t.base + p).outcome.Ok?
    ensures MethodsLink(env, cs, t, ms, codes)
    decreases |ms|
  {
    hide Shows, MethodAt, MethodLinks, MemberLies, RefsFrom;
    if ms == [] {
      codes := [];
    } else {
      FirstMember(t, ms, p, end);
      MethodsStep(env, cp, t, l, count, mi, t.base + p);
      var first := MethodTaken(env, cp, cs, t, ms[0], mi);
      MethodDerived(env, cp, cs, t, ms[0], first, mi);
      var rest := MethodsTaken(env, cp, cs, t, l, ms[1..], count, mi + 1, ms[0].end, end);
      codes := [first] + rest;
      assert codes[1..] == rest;
    }
  }

  // ---- their records -----------------------------------------------------

  lemma Put32Held(words: seq<u16>, w: nat, v: u32)
    requires Agrees(words, Put32(w, v))
    ensures Holds32(words, w, v)
  {
    var ps := Put32(w, v);
    assert ps[0].word == w && ps[1].word == w + 1;
  }

  lemma RefsPoint(cs: seq<Constant>, t: Tail, attrs: seq<Attr>, codes: seq<Option<Code>>)
    ensures var refs := RefsFrom(cs, t, attrs, codes, CodeRefs(0, 0));
      && PointsToLast(cs, t, attrs, CODE_ATTR, 14, refs.code)
      && PointsToFirst(cs, t, SubAttrsOf(codes), LINES_ATTR, 6, refs.lnt)
  {
    hide Named;
    LastIs(cs, t, attrs, CODE_ATTR, 14, 0);
    FirstIs(cs, t, SubAttrsOf(codes), LINES_ATTR, 6);
  }

  /** Positions of the file that a table can hold. */
  lemma RefsInFile(env: Env, cp: CpView, cs: seq<Constant>, t: Tail, m: Member, codes: seq<Option<Code>>, mi: nat)
    requires MethodAt(env, t.file, cp, mi, t.base + m.at).Ok? && |t.file| <= 65535
    ensures t.base + m.at < 0x1_0000
    ensures var refs := MethodAt(env, t.file, cp, mi, t.base + m.at).value.refs; refs.code < 0x1_0000 && refs.lnt < 0x1_0000
  {
    hide MethodAttrs, Utf8;
    var count := ReadU16(t.file, t.base + m.at + 6).value;
    AttrRefsInFile(cp, t, count, t.base + m.at + 8, CodeRefs(0, 0));
  }

  lemma {:induction false} SubRefsInFile(cp: CpView, t: Tail, n: nat, pos: nat, lnt: nat)
    requires SubAttrs(t.file, cp, n, pos, lnt).Ok? && |t.file| <= 65535 && lnt < 0x1_0000
    ensures SubAttrs(t.file, cp, n, pos, lnt).value < 0x1_0000
    decreases n
  {
    hide Utf8;
    if n > 0 {
      var name := ReadU16(t.file, pos).value;
      var len := ReadU32(t.file, pos + 2).value;
      SubRefsInFile(cp, t, n - 1, pos + 6 + len, if lnt == 0 && Utf8(cp, name) == Some(LINE_NUMBER_TABLE) then pos + 6 else lnt);
    }
  }

  lemma CodeRefsInFile(cp: CpView, t: Tail, start: nat, lnt: nat)
    requires CodeAttr(t.file, cp, start, lnt).Ok? && |t.file| <= 65535 && lnt < 0x1_0000
    ensures var r := CodeAttr(t.file, cp, start, lnt).value; r.code < 0x1_0000 && r.lnt < 0x1_0000
  {
    hide SubAttrs, Bytecode.CodeVerdict;
    var len := ReadU32(t.file, start + 4).value;
    var end := start + 8 + len;
    var exc := ReadU16(t.file, end).value;
    var subsAt: nat := end + 2 + 8 * exc as int;
    SubRefsInFile(cp, t, ReadU16(t.file, subsAt).value, subsAt + 2, lnt);
  }

  lemma {:induction false} AttrRefsInFile(cp: CpView, t: Tail, n: nat, pos: nat, refs: CodeRefs)
    requires MethodAttrs(t.file, cp, n, pos, refs).Ok? && |t.file| <= 65535 && refs.code < 0x1_0000 && refs.lnt < 0x1_0000
    ensures var r := MethodAttrs(t.file, cp, n, pos, refs).value.refs; r.code < 0x1_0000 && r.lnt < 0x1_0000
    decreases n
  {
    hide Utf8, CodeAttr;
    if n > 0 {
      var name := ReadU16(t.file, pos).value;
      var len := ReadU32(t.file, pos + 2).value;
      if Utf8(cp, name) == Some(CODE) {
        CodeRefsInFile(cp, t, pos + 6, refs.lnt);
      }
      AttrRefsInFile(cp, t, n - 1, pos + 6 + len, MethodAttr(t.file, cp, name, pos + 6, refs).value);
    }
  }

  lemma MethodHeld(env: Env, cp: CpView, cs: seq<Constant>, t: Tail, l: Layout, m: Member, codes: seq<Option<Code>>,
                   mi: nat, words: seq<u16>)
    requires Shows(t.file, cp, cs) && MemberLies(t, m) && MethodLinks(env, cs, t, m, codes) && |t.file| <= 65535
    requires m.access < 0x1_0000
    requires Agrees(words, MethodPuts(l, mi, t.base + m.at, MethodFrom(env, cs, t, m, codes)))
    ensures MethodRecord(env, cs, t, m, codes, words, l.methodsOff + 6 * mi)
  {
    hide Shows, MethodAt, CodesLie, TextOf, RefsFrom, PointsToLast, PointsToFirst, AttrTable;
    MethodDerived(env, cp, cs, t, m, codes, mi);
    RefsInFile(env, cp, cs, t, m, codes, mi);
    RefsPoint(cs, t, m.attrs, codes);
    var x, w := MethodFrom(env, cs, t, m, codes), l.methodsOff + 6 * mi;
    var ps := MethodPuts(l, mi, t.base + m.at, x);
    AgreesConcat(words, ps[..4], Put32(w + 4, x.hash));
    assert ps == ps[..4] + Put32(w + 4, x.hash);
    Put32Held(words, w + 4, x.hash);
    assert ps[0].word == w && ps[1].word == w + 1 && ps[2].word == w + 2 && ps[3].word == w + 3;
    SmallAsU16(t.base + m.at);
    SmallAsU16(x.refs.code);
    SmallAsU16(x.refs.lnt);
  }

  /** Each method's record, in an agreeing table. */
  lemma {:induction false} MethodsHeld(env: Env, cp: CpView, cs: seq<Constant>, t: Tail, l: Layout, ms: seq<Member>,
                                       codes: seq<seq<Option<Code>>>, count: nat, mi: nat, p: nat, end: nat, words: seq<u16>)
    requires Shows(t.file, cp, cs) && MembersLie(t, ms, p, end) && count == mi + |ms| && MethodsLink(env, cs, t, ms, codes)
    requires |t.file| <= 65535 && Agrees(words, DeriveMethods(env, t.file, cp, l, count, mi, t.base + p).puts)
    ensures forall k | 0 <= k < |ms| :: MethodRecord(env, cs, t, ms[k], codes[k], words, l.methodsOff + 6 * (mi + k))
    decreases |ms|
  {
    hide Shows, MethodAt, MethodLinks, MemberLies, MethodFrom, MethodPuts, MethodRecord, Agrees, DeriveMethods;
    if ms != [] {
      FirstMember(t, ms, p, end);
      FirstHeld(env, cp, cs, t, l, ms[0], codes[0], count, mi, words);
      MethodsHeld(env, cp, cs, t, l, ms[1..], codes[1..], count, mi + 1, ms[0].end, end, words);
      forall k | 0 < k < |ms|
        ensures MethodRecord(env, cs, t, ms[k], codes[k], words, l.methodsOff + 6 * (mi + k))
      {
        assert ms[1..][k - 1] == ms[k] && codes[1..][k - 1] == codes[k] && mi + 1 + (k - 1) == mi + k;
      }
    }
  }

  lemma FirstHeld(env: Env, cp: CpView, cs: seq<Constant>, t: Tail, l: Layout, m: Member, codes: seq<Option<Code>>,
                  count: nat, mi: nat, words: seq<u16>)
    requires Shows(t.file, cp, cs) && MemberLies(t, m) && MethodLinks(env, cs, t, m, codes) && |t.file| <= 65535
    requires mi < count && m.access < 0x1_0000
    requires Agrees(words, DeriveMethods(env, t.file, cp, l, count, mi, t.base + m.at).puts)
    ensures MethodRecord(env, cs, t, m, codes, words, l.methodsOff + 6 * mi)
    ensures Agrees(words, DeriveMethods(env, t.file, cp, l, count, mi + 1, t.base + m.end).puts)
  {
    hide Shows, MethodAt, MemberLies, MethodPuts, MethodRecord, Agrees, CodesLie, RefsFrom;
    MethodsStep(env, cp, t, l, count, mi, t.base + m.at);
    MethodDerived(env, cp, cs, t, m, codes, mi);
    var rest := DeriveMethods(env, t.file, cp, l, count, mi + 1, t.base + m.end);
    AgreesConcat(words, MethodPuts(l, mi, t.base + m.at, MethodFrom(env, cs, t, m, codes)), rest.puts);
    MethodHeld(env, cp, cs, t, l, m, codes, mi, words);
  }
}
