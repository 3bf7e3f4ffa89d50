/** `crates/class-link/src/descriptor.rs`: counting the parameters of a method
    descriptor (JVMS section 4.3.3). */
module Descriptor {
  import opened Bytes

  const OPEN: byte := 0x28     // (
  const CLOSE: byte := 0x29    // )
  const SEMI: byte := 0x3b     // ;
  const CLASS: byte := 0x4c    // L
  const ARRAY: byte := 0x5b    // [

  /** `B C D F I J S Z` */
  predicate IsBase(b: byte) {
    b == 0x42 || b == 0x43 || b == 0x44 || b == 0x46 || b == 0x49 || b == 0x4a || b == 0x53 || b == 0x5a
  }

  /** The first position of `b` in `s`, if any. */
  function IndexOf(s: seq<byte>, b: byte): (r: Option<nat>)
    ensures r.Some? ==> r.value < |s| && s[r.value] == b
  {
    if s == [] then None
    else if s[0] == b then Some(0)
    else
      match IndexOf(s[1..], b)
      case None => None
      case Some(k) => Some(k + 1)
  }

  lemma {:induction false} IndexIsFirst(s: seq<byte>, b: byte)
    ensures IndexOf(s, b).Some? ==> b !in s[..IndexOf(s, b).value]
    ensures IndexOf(s, b).None? <==> b !in s
  {
    if s != [] && s[0] != b {
      IndexIsFirst(s[1..], b);
      if IndexOf(s, b).Some? {
        assert s[..IndexOf(s, b).value] == [s[0]] + s[1..][..IndexOf(s, b).value - 1];
      }
    }
  }

  lemma {:induction false} FirstIndex(s: seq<byte>, b: byte, k: nat)
    requires k < |s| && s[k] == b && b !in s[..k]
    ensures IndexOf(s, b) == Some(k)
  {
    if k > 0 {
      assert s[..k][0] == s[0] && s[..k][1..] == s[1..][..k - 1];
      FirstIndex(s[1..], b, k - 1);
    }
  }

  // ---- the grammar -------------------------------------------------------

  /** `p` is one parameter descriptor: one of `B C D F I J S Z`, `L` name `;`,
      or `[` and another. */
  ghost predicate IsParam(p: seq<byte>) {
    && |p| > 0
    && ((|p| == 1 && p[0] in [0x42, 0x43, 0x44, 0x46, 0x49, 0x4a, 0x53, 0x5a])
        || (p[0] == 0x4c && |p| >= 2 && p[|p| - 1] == 0x3b && 0x3b !in p[1..|p| - 1])
        || (p[0] == 0x5b && IsParam(p[1..])))
  }

  function Concat(ps: seq<seq<byte>>): seq<byte> {
    if ps == [] then [] else ps[0] + Concat(ps[1..])
  }

  /** `d` is a method descriptor with the parameters `params` and something
      after its `)`. */
  ghost predicate Describes(d: seq<byte>, params: seq<seq<byte>>) {
    && (forall p | p in params :: IsParam(p))
    && exists ret: seq<byte> :: |ret| > 0 && d == [0x28] + Concat(params) + [0x29] + ret
  }

  // ---- the parser, over what is left of the descriptor -------------------

  /** Past the name that starts here: what follows its `;`. */
  function AfterName(s: seq<byte>): Option<seq<byte>> {
    match IndexOf(s, SEMI)
    case None => None
    case Some(k) => Some(s[k + 1..])
  }

  /** Past one parameter. */
  function AfterParam(s: seq<byte>): Option<seq<byte>> {
    if s == [] then None
    else if s[0] == ARRAY then AfterParam(s[1..])
    else if s[0] == CLASS then AfterName(s[1..])
    else if IsBase(s[0]) then Some(s[1..])
    else None
  }

  lemma {:induction false} AfterParamShortens(s: seq<byte>)
    ensures AfterParam(s).Some? ==> |AfterParam(s).value| < |s| && AfterParam(s).value == s[|s| - |AfterParam(s).value|..]
  {
    if s != [] && s[0] == ARRAY {
      AfterParamShortens(s[1..]);
    }
  }

  /** How many parameters stand before the `)`, and what stands after it. */
  function Params(s: seq<byte>): Option<(nat, seq<byte>)>
    decreases |s|
  {
    if s == [] then None
    else if s[0] == CLOSE then Some((0, s[1..]))
    else
      AfterParamShortens(s);
      match AfterParam(s)
      case None => None
      case Some(rest) =>
        match Params(rest)
        case None => None
        case Some((n, ret)) => Some((n + 1, ret))
  }

  function ArgCount(d: seq<byte>): Option<byte> {
    if d == [] || d[0] != OPEN then None
    else
      match Params(d[1..])
      case None => None
      case Some((n, ret)) => if |ret| > 0 && n <= 255 then Some(n) else None
  }

  // ---- the source's loops ------------------------------------------------

  /** `skip_object`: past an `Lname;` whose `L` is at `i`. */
  method SkipObject(d: seq<byte>, i: nat) returns (r: Option<nat>)
    requires i < |d|
    ensures r.Some? ==> i < r.value <= |d| && AfterName(d[i + 1..]) == Some(d[r.value..])
    ensures r.None? ==> AfterName(d[i + 1..]).None?
  {
    var j := i + 1;
    while j < |d| && d[j] != SEMI
      invariant i < j <= |d|
      invariant SEMI !in d[i + 1..j]
    {
      j := j + 1;
    }
    assert d[i + 1..] == d[i + 1..j] + d[j..];
    if j == |d| {
      IndexIsFirst(d[i + 1..], SEMI);
      return None;
    }
    FirstIndex(d[i + 1..], SEMI, j - i - 1);
    assert d[i + 1..][j - i..] == d[j + 1..];
    return Some(j + 1);
  }

  /** One parameter, from its first character at `i`. */
  method SkipParam(d: seq<byte>, i: nat) returns (r: Option<nat>)
    requires i < |d|
    ensures r.Some? ==> i < r.value <= |d| && AfterParam(d[i..]) == Some(d[r.value..])
    ensures r.None? ==> AfterParam(d[i..]).None?
  {
    var j := i;
    while j < |d| && d[j] == ARRAY
      invariant i <= j <= |d|
      invariant AfterParam(d[i..]) == AfterParam(d[j..])
    {
      assert d[j..][1..] == d[j + 1..];
      j := j + 1;
    }
    if j == |d| {
      return None;
    }
    assert d[j..][1..] == d[j + 1..];
    if d[j] == CLASS {
      r := SkipObject(d, j);
    } else if IsBase(d[j]) {
      r := Some(j + 1);
    } else {
      r := None;
    }
  }

  /** `count_args` */
  method CountArgs(descriptor: seq<byte>) returns (r: Option<byte>)
    ensures r == ArgCount(descriptor)
  {
    if descriptor == [] || descriptor[0] != OPEN {
      return None;
    }
    var i := 1;
    var n: nat := 0;
    ghost var whole := Params(descriptor[1..]);
    while true
      invariant 1 <= i <= |descriptor|
      invariant match Params(descriptor[i..])
                case None => whole.None?
                case Some((m, ret)) => whole == Some((n + m, ret))
      decreases |descriptor| - i
    {
      if i >= |descriptor| {
        return None;
      }
      if descriptor[i] == CLOSE {
        break;
      }
      var next := SkipParam(descriptor, i);
      if next.None? {
        return None;
      }
      i := next.value;
      n := n + 1;
    }
    assert descriptor[i..][1..] == descriptor[i + 1..];
    if i + 1 >= |descriptor| {
      return None;
    }
    return if n <= 255 then Some(n) else None;
  }

  // ---- the parser reads the grammar --------------------------------------

  lemma {:induction false} ParamIsRead(p: seq<byte>, rest: seq<byte>)
    requires IsParam(p)
    ensures AfterParam(p + rest) == Some(rest)
    ensures p[0] != CLOSE
    decreases |p|
  {
    assert (p + rest)[1..] == p[1..] + rest;
    if p[0] == ARRAY {
      ParamIsRead(p[1..], rest);
    } else if p[0] == CLASS {
      var s := p[1..] + rest;
      assert s[..|p| - 2] == p[1..|p| - 1];
      FirstIndex(s, SEMI, |p| - 2);
      assert s[|p| - 1..] == rest;
    }
  }

  lemma {:induction false} ReadIsParam(s: seq<byte>)
    requires AfterParam(s).Some?
    ensures |AfterParam(s).value| < |s| && s == s[..|s| - |AfterParam(s).value|] + AfterParam(s).value
    ensures IsParam(s[..|s| - |AfterParam(s).value|])
    decreases |s|
  {
    AfterParamShortens(s);
    var p := s[..|s| - |AfterParam(s).value|];
    if s[0] == ARRAY {
      ReadIsParam(s[1..]);
      assert p[1..] == s[1..][..|s| - 1 - |AfterParam(s).value|];
    } else if s[0] == CLASS {
      ClassIsParam(s, p);
    }
  }

  lemma ClassIsParam(s: seq<byte>, p: seq<byte>)
    requires s != [] && s[0] == CLASS && AfterParam(s).Some? && |AfterParam(s).value| < |s|
    requires p == s[..|s| - |AfterParam(s).value|]
    ensures IsParam(p)
  {
    var k := IndexOf(s[1..], SEMI).value;
    IndexIsFirst(s[1..], SEMI);
    assert p[1..|p| - 1] == s[1..][..k];
  }

  lemma {:induction false} ParamsAreRead(params: seq<seq<byte>>, ret: seq<byte>)
    requires forall p | p in params :: IsParam(p)
    ensures Params(Concat(params) + [CLOSE] + ret) == Some((|params|, ret))
    decreases |params|
  {
    var s := Concat(params) + [CLOSE] + ret;
    if params == [] {
      assert s[1..] == ret;
    } else {
      var rest := Concat(params[1..]) + [CLOSE] + ret;
      assert s == params[0] + rest;
      ParamIsRead(params[0], rest);
      ParamsAreRead(params[1..], ret);
    }
  }

  lemma {:induction false} ReadAreParams(s: seq<byte>) returns (params: seq<seq<byte>>)
    requires Params(s).Some?
    ensures forall p | p in params :: IsParam(p)
    ensures |params| == Params(s).value.0
    ensures s == Concat(params) + [CLOSE] + Params(s).value.1
    decreases |s|
  {
    if s[0] == CLOSE {
      params := [];
    } else {
      AfterParamShortens(s);
      ReadIsParam(s);
      var rest := AfterParam(s).value;
      var tail := ReadAreParams(rest);
      params := [s[..|s| - |rest|]] + tail;
      assert params[1..] == tail;
    }
  }

  /** `count_args` answers `n` exactly on the well-formed descriptors of `n`
      parameters, `n` at most 255. */
  lemma CountsExactlyTheParameters(d: seq<byte>, n: byte)
    ensures ArgCount(d) == Some(n) <==> exists params :: |params| == n && Describes(d, params)
  {
    if ArgCount(d) == Some(n) {
      var params := ReadAreParams(d[1..]);
      assert d == [OPEN] + Concat(params) + [CLOSE] + Params(d[1..]).value.1;
      assert Describes(d, params);
    }
    if params :| |params| == n && Describes(d, params) {
      var ret: seq<byte> :| |ret| > 0 && d == [0x28] + Concat(params) + [0x29] + ret;
      assert d[1..] == Concat(params) + [CLOSE] + ret;
      ParamsAreRead(params, ret);
    }
  }
}
