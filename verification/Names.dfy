/** `crates/build_support/names.rs`: the shrinker's rewriting of the class
    references in a descriptor. Strings are their bytes: `L` and `;` are ASCII,
    so they never occur inside a longer UTF-8 sequence. */
module Names {
  import opened Bytes
  import opened Descriptor

  /** Where a class goes; `None` leaves it alone. */
  type ClassMap = seq<byte> -> Option<seq<byte>>

  function Renamed(m: ClassMap, name: seq<byte>): seq<byte> {
    match m(name)
    case Some(t) => t
    case None => name
  }

  /** What `rewrite_descriptor` makes of what is left of the string. */
  function Rewrite(s: seq<byte>, m: ClassMap): seq<byte>
    decreases |s|
  {
    if s == [] then []
    else if s[0] != CLASS then [s[0]] + Rewrite(s[1..], m)
    else
      match IndexOf(s, SEMI)
      case None => s
      case Some(end) => [CLASS] + Renamed(m, s[1..end]) + [SEMI] + Rewrite(s[end + 1..], m)
  }

  /** The names `class_refs` lists. */
  function Refs(s: seq<byte>): seq<seq<byte>>
    decreases |s|
  {
    if s == [] then []
    else if s[0] == CLASS && IndexOf(s, SEMI).Some? then
      var end := IndexOf(s, SEMI).value;
      [s[1..end]] + Refs(s[end + 1..])
    else Refs(s[1..])
  }

  function RenamedAll(m: ClassMap, names: seq<seq<byte>>): seq<seq<byte>> {
    seq(|names|, i requires 0 <= i < |names| => Renamed(m, names[i]))
  }

  /** No class named in `s` is sent to a name with a `;` in it. */
  ghost predicate CleanTargets(s: seq<byte>, m: ClassMap) {
    forall n | n in Refs(s) :: SEMI !in Renamed(m, n)
  }

  // ---- the source's loops ------------------------------------------------

  /** `rewrite_descriptor` */
  method RewriteDescriptor(desc: seq<byte>, m: ClassMap) returns (out: seq<byte>)
    ensures out == Rewrite(desc, m)
  {
    out := [];
    var rest := desc;
    while IndexOf(rest, CLASS).Some?
      invariant out + Rewrite(rest, m) == Rewrite(desc, m)
      decreases |rest|
    {
      var pos := IndexOf(rest, CLASS).value;
      var head, tail := rest[..pos], rest[pos..];
      HeadCopied(out, rest, pos, m);
      out := out + head;
      var end := IndexOf(tail, SEMI);
      if end.None? {
        return out + tail;
      }
      RefRewritten(out, tail, end.value, m);
      out := out + ([CLASS] + Renamed(m, tail[1..end.value]) + [SEMI]);
      rest := tail[end.value + 1..];
    }
    IndexIsFirst(rest, CLASS);
    RewriteSkips(rest, |rest|, m);
    out := out + rest;
  }

  lemma HeadCopied(out: seq<byte>, rest: seq<byte>, pos: nat, m: ClassMap)
    requires IndexOf(rest, CLASS) == Some(pos)
    ensures out + Rewrite(rest, m) == (out + rest[..pos]) + Rewrite(rest[pos..], m)
  {
    IndexIsFirst(rest, CLASS);
    RewriteSkips(rest, pos, m);
  }

  lemma RefRewritten(out: seq<byte>, tail: seq<byte>, end: nat, m: ClassMap)
    requires tail != [] && tail[0] == CLASS && IndexOf(tail, SEMI) == Some(end)
    ensures end > 0
    ensures out + Rewrite(tail, m)
            == (out + ([CLASS] + Renamed(m, tail[1..end]) + [SEMI])) + Rewrite(tail[end + 1..], m)
  {
  }

  lemma {:induction false} RewriteSkips(s: seq<byte>, pos: nat, m: ClassMap)
    requires pos <= |s| && CLASS !in s[..pos]
    ensures Rewrite(s, m) == s[..pos] + Rewrite(s[pos..], m)
  {
    if pos == 0 {
      assert s[0..] == s;
    } else {
      assert s[..pos][0] == s[0] && s[..pos] == [s[0]] + s[1..][..pos - 1];
      assert s[1..][pos - 1..] == s[pos..];
      RewriteSkips(s[1..], pos - 1, m);
    }
  }

  /** `class_refs` */
  method ClassRefs(desc: seq<byte>) returns (out: seq<seq<byte>>)
    ensures out == Refs(desc)
  {
    out := [];
    var i := 0;
    while i < |desc|
      invariant 0 <= i <= |desc|
      invariant out + Refs(desc[i..]) == Refs(desc)
    {
      var rest := desc[i..];
      if desc[i] == CLASS {
        var end := IndexOf(rest, SEMI);
        if end.Some? {
          assert rest[1..end.value] == desc[i + 1..i + end.value];
          assert rest[end.value + 1..] == desc[i + end.value + 1..];
          var name := desc[i + 1..i + end.value];
          assert out + ([name] + Refs(rest[end.value + 1..])) == (out + [name]) + Refs(rest[end.value + 1..]);
          out := out + [name];
          i := i + end.value + 1;
          continue;
        }
      }
      assert rest[1..] == desc[i + 1..];
      i := i + 1;
    }
  }

  // ---- what rewriting keeps ----------------------------------------------

  lemma NameRead(name: seq<byte>, rest: seq<byte>)
    requires SEMI !in name
    ensures IndexOf([CLASS] + name + [SEMI] + rest, SEMI) == Some(|name| + 1)
    ensures ([CLASS] + name + [SEMI] + rest)[1..|name| + 1] == name
    ensures ([CLASS] + name + [SEMI] + rest)[|name| + 2..] == rest
    ensures AfterName(name + [SEMI] + rest) == Some(rest)
  {
    var s := [CLASS] + name + [SEMI] + rest;
    assert s[..|name| + 1] == [CLASS] + name;
    FirstIndex(s, SEMI, |name| + 1);
    var u := name + [SEMI] + rest;
    assert u[..|name|] == name && u[|name| + 1..] == rest;
    FirstIndex(u, SEMI, |name|);
  }

  /** Without a `;` there is nothing to rewrite and no reference to list. */
  lemma {:induction false} NoSemiUntouched(s: seq<byte>, m: ClassMap)
    requires IndexOf(s, SEMI).None?
    ensures Rewrite(s, m) == s && Refs(s) == []
    decreases |s|
  {
    if s != [] {
      NoSemiUntouched(s[1..], m);
    }
  }

  /** A reference, its name and what follows it. */
  lemma ClassSplits(s: seq<byte>, end: nat)
    requires s != [] && s[0] == CLASS && IndexOf(s, SEMI) == Some(end)
    ensures end > 0 && Refs(s) == [s[1..end]] + Refs(s[end + 1..])
    ensures s == [CLASS] + s[1..end] + [SEMI] + s[end + 1..]
  {
  }

  lemma NameHasNoSemi(s: seq<byte>, end: nat)
    requires s != [] && s[0] == CLASS && IndexOf(s, SEMI) == Some(end) && end > 0
    ensures SEMI !in s[1..end]
  {
    IndexIsFirst(s, SEMI);
    assert s[1..end] == s[..end][1..];
  }

  lemma CleanSplits(m: ClassMap, s: seq<byte>, name: seq<byte>, rest: seq<byte>)
    requires CleanTargets(s, m) && Refs(s) == [name] + Refs(rest)
    ensures SEMI !in Renamed(m, name) && CleanTargets(rest, m)
  {
    assert Refs(s)[0] == name;
    assert Refs(s)[1..] == Refs(rest);
  }

  lemma RefsOfRewrittenClass(s: seq<byte>, m: ClassMap, end: nat)
    requires s != [] && s[0] == CLASS && IndexOf(s, SEMI) == Some(end)
    requires CleanTargets(s, m)
    ensures end > 0 && Refs(s) == [s[1..end]] + Refs(s[end + 1..])
    ensures SEMI !in Renamed(m, s[1..end])
    ensures CleanTargets(s[end + 1..], m)
    ensures s == [CLASS] + s[1..end] + [SEMI] + s[end + 1..]
    ensures SEMI !in s[1..end]
  {
    ClassSplits(s, end);
    NameHasNoSemi(s, end);
    CleanSplits(m, s, s[1..end], s[end + 1..]);
  }

  lemma SkippedTargetsStayClean(s: seq<byte>, m: ClassMap)
    requires s != [] && s[0] != CLASS && CleanTargets(s, m)
    ensures Refs(s) == Refs(s[1..]) && CleanTargets(s[1..], m)
  {
  }

  lemma RefsSkip(b: byte, rest: seq<byte>)
    requires b != CLASS
    ensures Refs([b] + rest) == Refs(rest)
  {
    assert ([b] + rest)[1..] == rest;
  }

  /** `class_refs` of the rewritten string is `class_refs` of the original,
      each name sent through the map. */
  lemma {:induction false} RefsAreRenamed(s: seq<byte>, m: ClassMap)
    requires CleanTargets(s, m)
    ensures Refs(Rewrite(s, m)) == RenamedAll(m, Refs(s))
    decreases |s|
  {
    if s == [] {
    } else if s[0] != CLASS {
      SkippedTargetsStayClean(s, m);
      RefsAreRenamed(s[1..], m);
      RefsSkip(s[0], Rewrite(s[1..], m));
    } else if IndexOf(s, SEMI).None? {
      NoSemiUntouched(s, m);
    } else {
      var end := IndexOf(s, SEMI).value;
      RefsOfRewrittenClass(s, m, end);
      RefsAreRenamed(s[end + 1..], m);
      NameRead(Renamed(m, s[1..end]), Rewrite(s[end + 1..], m));
    }
  }

  /** Rewriting twice is rewriting through the composition. */
  lemma {:induction false} RewriteComposes(s: seq<byte>, m: ClassMap, back: ClassMap)
    requires CleanTargets(s, m)
    ensures Rewrite(Rewrite(s, m), back) == Rewrite(s, n => Some(Renamed(back, Renamed(m, n))))
    decreases |s|
  {
    var both: ClassMap := n => Some(Renamed(back, Renamed(m, n)));
    if s == [] {
    } else if s[0] != CLASS {
      SkippedTargetsStayClean(s, m);
      RewriteComposes(s[1..], m, back);
      assert ([s[0]] + Rewrite(s[1..], m))[1..] == Rewrite(s[1..], m);
    } else if IndexOf(s, SEMI).None? {
    } else {
      var end := IndexOf(s, SEMI).value;
      RefsOfRewrittenClass(s, m, end);
      RewriteComposes(s[end + 1..], m, back);
      NameRead(Renamed(m, s[1..end]), Rewrite(s[end + 1..], m));
    }
  }

  lemma {:induction false} FixedNamesRewriteToThemselves(s: seq<byte>, m: ClassMap)
    requires forall n | n in Refs(s) :: Renamed(m, n) == n
    ensures Rewrite(s, m) == s
    decreases |s|
  {
    if s == [] {
    } else if s[0] != CLASS {
      FixedNamesRewriteToThemselves(s[1..], m);
    } else if IndexOf(s, SEMI).Some? {
      var end := IndexOf(s, SEMI).value;
      ClassSplits(s, end);
      assert Refs(s)[0] == s[1..end];
      FixedNamesRewriteToThemselves(s[end + 1..], m);
    }
  }

  /** Rewriting is undone by rewriting back exactly when the second map takes
      every class the string names back to itself. */
  lemma RewriteUndone(s: seq<byte>, m: ClassMap, back: ClassMap)
    requires CleanTargets(s, m) && CleanTargets(Rewrite(s, m), back)
    ensures Rewrite(Rewrite(s, m), back) == s <==>
            forall n | n in Refs(s) :: Renamed(back, Renamed(m, n)) == n
  {
    var both: ClassMap := n => Some(Renamed(back, Renamed(m, n)));
    RewriteComposes(s, m, back);
    if forall n | n in Refs(s) :: Renamed(back, Renamed(m, n)) == n {
      FixedNamesRewriteToThemselves(s, both);
    }
    if Rewrite(s, both) == s {
      RefsAreRenamed(s, m);
      RefsAreRenamed(Rewrite(s, m), back);
      assert Refs(s) == RenamedAll(back, RenamedAll(m, Refs(s)));
      forall n | n in Refs(s)
        ensures Renamed(back, Renamed(m, n)) == n
      {
        var i :| 0 <= i < |Refs(s)| && Refs(s)[i] == n;
        assert RenamedAll(back, RenamedAll(m, Refs(s)))[i] == n;
      }
    }
  }

  lemma ClassParamRead(name: seq<byte>, rest: seq<byte>)
    requires SEMI !in name
    ensures AfterParam([CLASS] + name + [SEMI] + rest) == Some(rest)
  {
    NameRead(name, rest);
    assert ([CLASS] + name + [SEMI] + rest)[1..] == name + [SEMI] + rest;
  }

  lemma AfterClassRewritten(s: seq<byte>, m: ClassMap, end: nat)
    requires CleanTargets(s, m) && s != [] && s[0] == CLASS && IndexOf(s, SEMI) == Some(end)
    ensures CleanTargets(s[end + 1..], m)
    ensures AfterParam(s) == Some(s[end + 1..])
    ensures AfterParam(Rewrite(s, m)) == Some(Rewrite(s[end + 1..], m))
  {
    RefsOfRewrittenClass(s, m, end);
    ClassParamRead(s[1..end], s[end + 1..]);
    ClassParamRead(Renamed(m, s[1..end]), Rewrite(s[end + 1..], m));
  }

  lemma {:induction false} AfterParamRewritten(s: seq<byte>, m: ClassMap)
    requires CleanTargets(s, m)
    ensures AfterParam(s).None? ==> AfterParam(Rewrite(s, m)).None?
    ensures AfterParam(s).Some? ==>
      CleanTargets(AfterParam(s).value, m) && AfterParam(Rewrite(s, m)) == Some(Rewrite(AfterParam(s).value, m))
    decreases |s|
  {
    if s == [] {
    } else if s[0] == CLASS {
      if IndexOf(s, SEMI).Some? {
        AfterClassRewritten(s, m, IndexOf(s, SEMI).value);
      }
    } else {
      SkippedTargetsStayClean(s, m);
      assert Rewrite(s, m)[1..] == Rewrite(s[1..], m);
      if s[0] == ARRAY {
        AfterParamRewritten(s[1..], m);
      }
    }
  }

  lemma {:induction false} ParamsRewritten(s: seq<byte>, m: ClassMap)
    requires CleanTargets(s, m)
    ensures Params(s).None? ==> Params(Rewrite(s, m)).None?
    ensures Params(s).Some? ==>
      Params(Rewrite(s, m)) == Some((Params(s).value.0, Rewrite(Params(s).value.1, m)))
    decreases |s|
  {
    if s != [] {
      if s[0] == CLOSE {
        assert Rewrite(s, m)[1..] == Rewrite(s[1..], m);
      } else {
        AfterParamShortens(s);
        AfterParamRewritten(s, m);
        if AfterParam(s).Some? {
          ParamsRewritten(AfterParam(s).value, m);
        }
      }
    }
  }

  lemma RewriteKeepsEmptiness(s: seq<byte>, m: ClassMap)
    ensures Rewrite(s, m) == [] <==> s == []
    ensures s != [] ==> Rewrite(s, m)[0] == s[0]
  {
  }

  /** `count_args` reads the same of a string and of its rewriting, well-formed
      or not. */
  lemma RewriteKeepsArgCount(d: seq<byte>, m: ClassMap)
    requires CleanTargets(d, m)
    ensures ArgCount(Rewrite(d, m)) == ArgCount(d)
  {
    RewriteKeepsEmptiness(d, m);
    if d != [] && d[0] == OPEN {
      SkippedTargetsStayClean(d, m);
      assert Rewrite(d, m)[1..] == Rewrite(d[1..], m);
      ParamsRewritten(d[1..], m);
      if Params(d[1..]).Some? {
        RewriteKeepsEmptiness(Params(d[1..]).value.1, m);
      }
    }
  }

  // ---- which maps keep it ------------------------------------------------

  function Ref(name: seq<byte>): seq<byte> { [CLASS] + name + [SEMI] }

  /** Past a reference whose name may hold a `;`: the first one ends it. */
  lemma ParamsPastRef(t: seq<byte>, k: nat, rest: seq<byte>)
    requires IndexOf(t + [SEMI], SEMI) == Some(k)
    ensures k <= |t|
    ensures var after := (t + [SEMI])[k + 1..] + rest;
      Params(Ref(t) + rest) == match Params(after) case None => None case Some((n, ret)) => Some((n + 1, ret))
  {
    var s, whole := t + [SEMI], Ref(t) + rest;
    IndexIsFirst(s, SEMI);
    assert whole[1..] == s + rest && (s + rest)[..k] == s[..k];
    FirstIndex(whole[1..], SEMI, k);
    assert whole[1..][k + 1..] == s[k + 1..] + rest;
  }

  lemma ParamsPastName(name: seq<byte>, rest: seq<byte>)
    requires SEMI !in name
    ensures Params(Ref(name) + rest) == match Params(rest) case None => None case Some((n, ret)) => Some((n + 1, ret))
  {
    assert (name + [SEMI])[..|name|] == name;
    FirstIndex(name + [SEMI], SEMI, |name|);
    ParamsPastRef(name, |name|, rest);
    assert (name + [SEMI])[|name| + 1..] + rest == rest;
  }

  lemma RewriteOfRef(name: seq<byte>, rest: seq<byte>, m: ClassMap)
    requires SEMI !in name
    ensures Rewrite(Ref(name) + rest, m) == Ref(Renamed(m, name)) + Rewrite(rest, m)
  {
    NameRead(name, rest);
  }

  const VOID: seq<byte> := [CLOSE, 0x56]

  lemma VoidReads(m: ClassMap)
    ensures Rewrite(VOID, m) == VOID && Params(VOID) == Some((0, [0x56]))
  {
    assert VOID[1..] == [0x56] && [0x56][1..] == [];
    assert Rewrite([0x56], m) == [0x56] + Rewrite([], m);
  }

  /** A method of one class parameter, and one of two. */
  function OneClass(n: seq<byte>): seq<byte> { [OPEN] + (Ref(n) + VOID) }

  function TwoClasses(n: seq<byte>): seq<byte> { [OPEN] + (Ref(n) + (Ref(n) + VOID)) }

  /** A name sent to one with a `;` in it changes the count of one of the two. */
  lemma SemicolonBreaksCount(n: seq<byte>, m: ClassMap)
    requires SEMI !in n && SEMI in Renamed(m, n)
    ensures ArgCount(Rewrite(OneClass(n), m)) != ArgCount(OneClass(n))
            || ArgCount(Rewrite(TwoClasses(n), m)) != ArgCount(TwoClasses(n))
  {
    var t := Renamed(m, n);
    VoidReads(m);
    ParamsPastName(n, VOID);
    ParamsPastName(n, Ref(n) + VOID);
    RewriteOfRef(n, VOID, m);
    RewriteOfRef(n, Ref(n) + VOID, m);
    CountOf(Ref(n) + VOID);
    CountOf(Ref(n) + (Ref(n) + VOID));
    assert ArgCount(OneClass(n)) == Some(1) && ArgCount(TwoClasses(n)) == Some(2);
    var one, two := Ref(t) + VOID, Ref(t) + (Ref(t) + VOID);
    assert Rewrite(OneClass(n), m) == [OPEN] + one by { FirstKept(Ref(n) + VOID, m); }
    assert Rewrite(TwoClasses(n), m) == [OPEN] + two by { FirstKept(Ref(n) + (Ref(n) + VOID), m); }
    CountOf(one);
    CountOf(two);
    IndexIsFirst(t + [SEMI], SEMI);
    var k := IndexOf(t + [SEMI], SEMI).value;
    assert k < |t|;
    ParamsPastRef(t, k, VOID);
    ParamsPastRef(t, k, Ref(t) + VOID);
    var b := (t + [SEMI])[k + 1..];
    assert b != [];
    CountedNoneAfter(b, VOID, Ref(t) + VOID);
  }

  /** Where nothing is counted, a `)` comes first, whatever follows. */
  lemma CountedNoneAfter(b: seq<byte>, rest: seq<byte>, other: seq<byte>)
    requires b != []
    ensures Params(b + rest).Some? && Params(b + rest).value.0 == 0 ==>
      Params(b + other).Some? && Params(b + other).value.0 == 0
  {
  }

  lemma CountOf(s: seq<byte>)
    ensures ArgCount([OPEN] + s)
            == match Params(s) case None => None case Some((n, ret)) => if |ret| > 0 && n <= 255 then Some(n) else None
  {
    assert ([OPEN] + s)[1..] == s;
  }

  lemma FirstKept(s: seq<byte>, m: ClassMap)
    ensures Rewrite([OPEN] + s, m) == [OPEN] + Rewrite(s, m)
  {
    assert ([OPEN] + s)[1..] == s;
  }

  /** Rewriting through a map leaves every string's `count_args` as it was
      exactly when the map sends no name to one with a `;` in it. */
  lemma ArgCountKeptExactly(m: ClassMap)
    ensures (forall d :: ArgCount(Rewrite(d, m)) == ArgCount(d))
            <==> forall n | SEMI !in n :: SEMI !in Renamed(m, n)
  {
    if n :| SEMI !in n && SEMI in Renamed(m, n) {
      SemicolonBreaksCount(n, m);
    } else {
      forall d
        ensures ArgCount(Rewrite(d, m)) == ArgCount(d)
      {
        NamesHaveNoSemi(d);
        RewriteKeepsArgCount(d, m);
      }
    }
  }

  lemma {:induction false} NamesHaveNoSemi(s: seq<byte>)
    ensures forall n | n in Refs(s) :: SEMI !in n
    decreases |s|
  {
    if s != [] {
      if s[0] == CLASS && IndexOf(s, SEMI).Some? {
        var end := IndexOf(s, SEMI).value;
        NameHasNoSemi(s, end);
        NamesHaveNoSemi(s[end + 1..]);
      } else {
        NamesHaveNoSemi(s[1..]);
      }
    }
  }

  /** So it is with `(LA;)V` when `A` is sent to `;I`: what comes out no longer reads. */
  lemma SemicolonInTargetBreaksArgCount()
    ensures var d := [OPEN, CLASS, 0x41, SEMI, CLOSE, 0x56];
      var m: ClassMap := n => if n == [0x41] then Some([SEMI, 0x49]) else None;
      ArgCount(d) == Some(1) && ArgCount(Rewrite(d, m)).None?
  {
    var m: ClassMap := n => if n == [0x41] then Some([SEMI, 0x49]) else None;
    assert OneClass([0x41]) == [OPEN, CLASS, 0x41, SEMI, CLOSE, 0x56];
    BrokenCount([0x41], [SEMI, 0x49], m);
  }

  lemma BrokenCount(n: seq<byte>, t: seq<byte>, m: ClassMap)
    requires SEMI !in n && t == [SEMI, 0x49] && Renamed(m, n) == t
    ensures ArgCount(OneClass(n)) == Some(1) && ArgCount(Rewrite(OneClass(n), m)).None?
  {
    VoidReads(m);
    ParamsPastName(n, VOID);
    CountOf(Ref(n) + VOID);
    FirstKept(Ref(n) + VOID, m);
    RewriteOfRef(n, VOID, m);
    CountOf(Ref(t) + VOID);
    ParamsPastRef(t, 0, VOID);
    StraySemicolon((t + [SEMI])[1..] + VOID, t);
  }

  lemma StraySemicolon(after: seq<byte>, t: seq<byte>)
    requires t == [SEMI, 0x49] && after == (t + [SEMI])[1..] + VOID
    ensures Params(after).None?
  {
    var rest := after[1..];
    assert after[0] == 0x49 && rest[0] == SEMI;
    assert AfterParam(after) == Some(rest) && Params(rest).None?;
  }

  // ---- what comes out, byte for byte --------------------------------------

  /** Bytes with no `L` among them, then a reference `L` name `;`. */
  datatype Piece = Piece(plain: seq<byte>, name: seq<byte>)

  /** The string spelled by `pieces`, the `i`th reference with `names[i]` in it. */
  function Spelled(pieces: seq<Piece>, names: seq<seq<byte>>): seq<byte>
    requires |names| == |pieces|
  {
    if pieces == [] then []
    else pieces[0].plain + [0x4c] + names[0] + [0x3b] + Spelled(pieces[1..], names[1..])
  }

  function NamesIn(pieces: seq<Piece>): seq<seq<byte>> {
    seq(|pieces|, i requires 0 <= i < |pieces| => pieces[i].name)
  }

  /** `s` is its references with what stands between them, and a rest in which
      no `;` follows an `L`. */
  ghost predicate Splits(s: seq<byte>, pieces: seq<Piece>, rest: seq<byte>) {
    && s == Spelled(pieces, NamesIn(pieces)) + rest
    && (forall i | 0 <= i < |pieces| :: 0x4c !in pieces[i].plain && 0x3b !in pieces[i].name)
    && forall i, j | 0 <= i < j < |rest| :: !(rest[i] == 0x4c && rest[j] == 0x3b)
  }

  /** Where the map sends each name: what it answers, or the name itself. */
  ghost predicate Sent(m: ClassMap, names: seq<seq<byte>>, targets: seq<seq<byte>>) {
    && |targets| == |names|
    && forall i | 0 <= i < |names| ::
         && (m(names[i]).Some? ==> targets[i] == m(names[i]).value)
         && (m(names[i]).None? ==> targets[i] == names[i])
  }

  lemma SplitsOn(first: Piece, tail: seq<byte>, pieces: seq<Piece>, rest: seq<byte>)
    requires Splits(tail, pieces, rest) && 0x4c !in first.plain && 0x3b !in first.name
    ensures Splits(first.plain + [0x4c] + first.name + [0x3b] + tail, [first] + pieces, rest)
  {
    var all := [first] + pieces;
    assert all[1..] == pieces && NamesIn(all)[1..] == NamesIn(pieces);
    var front := first.plain + [0x4c] + first.name + [0x3b];
    assert Spelled(all, NamesIn(all)) == front + Spelled(pieces, NamesIn(pieces));
    ConcatAssoc(front, Spelled(pieces, NamesIn(pieces)), rest);
  }

  lemma PlainOn(b: byte, tail: seq<byte>, pieces: seq<Piece>, rest: seq<byte>)
    returns (all: seq<Piece>, after: seq<byte>)
    requires b != 0x4c && Splits(tail, pieces, rest)
    ensures Splits([b] + tail, all, after) && NamesIn(all) == NamesIn(pieces)
  {
    if pieces == [] {
      all, after := [], [b] + rest;
      assert tail == rest;
    } else {
      var first := Piece([b] + pieces[0].plain, pieces[0].name);
      all, after := [first] + pieces[1..], rest;
      assert all[1..] == pieces[1..] && NamesIn(all)[1..] == NamesIn(pieces)[1..];
      var more := Spelled(pieces[1..], NamesIn(pieces)[1..]);
      assert Spelled(all, NamesIn(all)) == [b] + Spelled(pieces, NamesIn(pieces));
    }
  }

  /** Every string splits so, and `class_refs` lists the names. */
  lemma {:induction false} EachStringSplits(s: seq<byte>) returns (pieces: seq<Piece>, rest: seq<byte>)
    ensures Splits(s, pieces, rest) && Refs(s) == NamesIn(pieces)
    decreases |s|
  {
    hide Splits, NamesIn;
    if s == [] {
      pieces, rest := [], [];
      NoneSplits([]);
    } else if s[0] != CLASS {
      pieces, rest := EachStringSplits(s[1..]);
      assert s == [s[0]] + s[1..];
      pieces, rest := PlainOn(s[0], s[1..], pieces, rest);
    } else if IndexOf(s, SEMI).None? {
      pieces, rest := [], s;
      NoneSplits(s);
    } else {
      var end := IndexOf(s, SEMI).value;
      ClassSplits(s, end);
      NameHasNoSemi(s, end);
      pieces, rest := EachStringSplits(s[end + 1..]);
      SplitsOn(Piece([], s[1..end]), s[end + 1..], pieces, rest);
      WholeAgain(s, end);
      NamesCons(Piece([], s[1..end]), pieces);
      pieces := [Piece([], s[1..end])] + pieces;
    }
  }

  /** A string without a `;` has no reference. */
  lemma NoneSplits(s: seq<byte>)
    requires IndexOf(s, SEMI).None?
    ensures Splits(s, [], s) && Refs(s) == NamesIn([])
  {
    NoSemiUntouched(s, n => None);
    IndexIsFirst(s, SEMI);
  }

  lemma WholeAgain(s: seq<byte>, end: nat)
    requires 0 < end < |s| && s[0] == 0x4c && s[end] == 0x3b
    ensures [] + [0x4c] + s[1..end] + [0x3b] + s[end + 1..] == s
  {
  }

  lemma NamesCons(p: Piece, pieces: seq<Piece>)
    ensures NamesIn([p] + pieces) == [p.name] + NamesIn(pieces)
  {
  }

  lemma {:induction false} RestUntouched(rest: seq<byte>, m: ClassMap)
    requires forall i, j | 0 <= i < j < |rest| :: !(rest[i] == 0x4c && rest[j] == 0x3b)
    ensures Rewrite(rest, m) == rest && Refs(rest) == []
    decreases |rest|
  {
    if rest != [] {
      if rest[0] == CLASS {
        assert forall j | 0 <= j < |rest| :: rest[j] != 0x3b;
        IndexIsFirst(rest, SEMI);
        NoSemiUntouched(rest, m);
      } else {
        RestUntouched(rest[1..], m);
      }
    }
  }

  /** Whatever a string splits into, rewriting keeps the bytes outside the
      references, in order, and puts in each reference what the map answers
      for its name, or the name where it answers nothing. */
  lemma {:induction false} RewrittenExactly(
    s: seq<byte>, pieces: seq<Piece>, rest: seq<byte>, m: ClassMap, targets: seq<seq<byte>>)
    requires Splits(s, pieces, rest) && Sent(m, NamesIn(pieces), targets)
    ensures Rewrite(s, m) == Spelled(pieces, targets) + rest
    decreases |pieces|
  {
    hide Rewrite, Splits;
    if pieces == [] {
      NothingSplit(s, pieces, rest);
      RestUntouched(rest, m);
    } else {
      var tail := SplitTail(s, pieces, rest);
      SentTail(m, pieces, targets);
      RewrittenExactly(tail, pieces[1..], rest, m, targets[1..]);
      PieceRewritten(pieces[0], tail, m);
      ConcatAssoc(pieces[0].plain + Ref(targets[0]), Spelled(pieces[1..], targets[1..]), rest);
      assert Spelled(pieces, targets) == pieces[0].plain + Ref(targets[0]) + Spelled(pieces[1..], targets[1..]);
    }
  }

  lemma NothingSplit(s: seq<byte>, pieces: seq<Piece>, rest: seq<byte>)
    requires Splits(s, pieces, rest) && pieces == []
    ensures s == rest && forall i, j | 0 <= i < j < |rest| :: !(rest[i] == 0x4c && rest[j] == 0x3b)
  {
  }

  lemma SentTail(m: ClassMap, pieces: seq<Piece>, targets: seq<seq<byte>>)
    requires Sent(m, NamesIn(pieces), targets) && pieces != []
    ensures |targets| == |pieces| && Sent(m, NamesIn(pieces[1..]), targets[1..]) && Renamed(m, pieces[0].name) == targets[0]
  {
    assert NamesIn(pieces[1..]) == NamesIn(pieces)[1..] && NamesIn(pieces)[0] == pieces[0].name;
  }

  lemma SplitTail(s: seq<byte>, pieces: seq<Piece>, rest: seq<byte>) returns (tail: seq<byte>)
    requires Splits(s, pieces, rest) && pieces != []
    ensures Splits(tail, pieces[1..], rest) && s == pieces[0].plain + (Ref(pieces[0].name) + tail)
    ensures 0x4c !in pieces[0].plain && 0x3b !in pieces[0].name
  {
    tail := Spelled(pieces[1..], NamesIn(pieces[1..])) + rest;
    assert NamesIn(pieces)[1..] == NamesIn(pieces[1..]) && NamesIn(pieces)[0] == pieces[0].name;
  }

  lemma PieceRewritten(p: Piece, tail: seq<byte>, m: ClassMap)
    requires 0x4c !in p.plain && 0x3b !in p.name
    ensures Rewrite(p.plain + (Ref(p.name) + tail), m) == p.plain + Ref(Renamed(m, p.name)) + Rewrite(tail, m)
  {
    var s := p.plain + (Ref(p.name) + tail);
    assert s[..|p.plain|] == p.plain && s[|p.plain|..] == Ref(p.name) + tail;
    RewriteSkips(s, |p.plain|, m);
    RewriteOfRef(p.name, tail, m);
  }

  /** A string none of whose classes the map names is left as it is. */
  lemma UnnamedUntouched(s: seq<byte>, m: ClassMap)
    requires forall n | n in Refs(s) :: m(n).None?
    ensures Rewrite(s, m) == s
  {
    FixedNamesRewriteToThemselves(s, m);
  }

  /** The references of what comes out, one by one. */
  lemma RefsFollowTheMap(s: seq<byte>, m: ClassMap)
    requires forall n | n in Refs(s) && m(n).Some? :: 0x3b !in m(n).value
    ensures Sent(m, Refs(s), Refs(Rewrite(s, m)))
  {
    NamesHaveNoSemi(s);
    RefsAreRenamed(s, m);
  }
}
