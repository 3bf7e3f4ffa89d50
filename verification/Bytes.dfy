/** Machine integers, options and refusals, and the big- and little-endian
    reads every other module is written over. Integers are unbounded in Dafny,
    so each truncating cast of the source is spelled out (`AsU16`). */
module Bytes {
  type byte = b: int | 0 <= b < 0x100
  type u16 = w: int | 0 <= w < 0x1_0000
  type u32 = w: int | 0 <= w < 0x1_0000_0000

  datatype Option<+T> = None | Some(value: T)

  /** Why a class, a table or a section is refused. */
  datatype LinkError =
    | Truncated
    | BadMagic
    | ClassTooLarge
    | UnknownTag(cp: u16, tag: byte)
    | BadThisClass
    | BadSuperClass
    | BadInterface(index: u16)
    | BadMember(index: u16)
    | BadMethodref(cp: u16)
    | BadString(cp: u16)
    | BadDescriptor(cp: u16)
    | BadBootstrapMethods
    | BadUtf8(cp: u16)
    | BadHeader
    | WordMismatch(word: u16)
    | BadOffset(word: u16)
    | BadSection
    | Misaligned
    | BadIndex
    | NameMismatch(idx: u16)
    | DuplicateClass(a: u16, b: u16)
    | HashCollision(a: u16, b: u16)
    | TooManyClasses
    | BadLiteral
    | BadSuperIndex(idx: u16)
    | TooManyLiterals
    | PoolTooLarge
    | BadPool
    | BadBytecode(pc: u16)
    | SuperCycle(idx: u16)
    | Internal

  datatype Result<+T> = Ok(value: T) | Err(error: LinkError) {
    predicate IsFailure() { Err? }

    function PropagateFailure<U>(): Result<U>
      requires Err?
    {
      Err(error)
    }

    function Extract(): T
      requires Ok?
    {
      value
    }
  }

  function OkOr<T>(o: Option<T>, e: LinkError): Result<T> {
    match o
    case Some(v) => Ok(v)
    case None => Err(e)
  }

  /** The first refusal among checks made in order. */
  function FirstErr(checks: seq<Result<()>>): Result<()> {
    if checks == [] then Ok(())
    else
      var _ :- checks[0];
      FirstErr(checks[1..])
  }

  lemma {:induction false} FirstErrOk(checks: seq<Result<()>>)
    ensures FirstErr(checks).Ok? <==> forall i | 0 <= i < |checks| :: checks[i].Ok?
    decreases |checks|
  {
    if checks != [] {
      FirstErrOk(checks[1..]);
      if FirstErr(checks).Ok? {
        forall i | 0 <= i < |checks|
          ensures checks[i].Ok?
        {
          if i > 0 {
            assert checks[1..][i - 1] == checks[i];
          }
        }
      }
    }
  }

  /** Where the first refusal is. */
  lemma {:induction false} FirstErrAt(rs: seq<Result<()>>) returns (i: nat)
    requires FirstErr(rs).Err?
    ensures i < |rs| && rs[i] == FirstErr(rs) && forall j | 0 <= j < i :: rs[j].Ok?
    decreases |rs|
  {
    if rs[0].Err? {
      i := 0;
    } else {
      var k := FirstErrAt(rs[1..]);
      i := k + 1;
      forall j | 0 <= j < i
        ensures rs[j].Ok?
      {
        assert j > 0 ==> rs[j] == rs[1..][j - 1];
      }
    }
  }

  /** Every value, or the first refusal. */
  function Collect<T>(rs: seq<Result<T>>): Result<seq<T>> {
    if rs == [] then Ok([])
    else
      var first :- rs[0];
      var rest :- Collect(rs[1..]);
      Ok([first] + rest)
  }

  lemma {:induction false} CollectOk<T>(rs: seq<Result<T>>)
    ensures Collect(rs).Ok? <==> forall i | 0 <= i < |rs| :: rs[i].Ok?
    ensures Collect(rs).Ok? ==>
      |Collect(rs).value| == |rs| && forall i | 0 <= i < |rs| :: rs[i] == Ok(Collect(rs).value[i])
    ensures Collect(rs).Err? ==> exists i :: 0 <= i < |rs| && rs[i].Err? && rs[i].error == Collect(rs).error
    decreases |rs|
  {
    if rs != [] {
      CollectOk(rs[1..]);
      if Collect(rs).Ok? {
        forall i | 0 <= i < |rs|
          ensures rs[i] == Ok(Collect(rs).value[i])
        {
          if i > 0 {
            assert rs[1..][i - 1] == rs[i];
          }
        }
      } else if rs[0].Ok? {
        var i :| 0 <= i < |rs[1..]| && rs[1..][i].Err? && rs[1..][i].error == Collect(rs[1..]).error;
        assert rs[i + 1] == rs[1..][i];
      }
    }
  }

  /** The source's `as u16`. */
  function AsU16(n: nat): u16 { n % 0x1_0000 }

  lemma SmallAsU16(n: nat)
    requires n < 0x1_0000
    ensures AsU16(n) == n
  {
  }

  function Min(a: nat, b: nat): nat { if a < b then a else b }

  /** `n.next_multiple_of(4)` */
  function Align4(n: nat): (r: nat)
    ensures r % 4 == 0 && n <= r < n + 4
  {
    (n + 3) / 4 * 4
  }

  /** `n.next_multiple_of(8)` */
  function Align8(n: nat): (r: nat)
    ensures r % 8 == 0 && n <= r < n + 8
  {
    (n + 7) / 8 * 8
  }

  lemma AlignShift(at: nat, n: nat)
    requires at % 4 == 0
    ensures Align4(at + n) == at + Align4(n)
  {
  }

  lemma SumAligned(a: nat, b: nat)
    requires a % 4 == 0 && b % 4 == 0
    ensures (a + b) % 4 == 0
  {
  }

  lemma ConcatAssoc<T>(a: seq<T>, b: seq<T>, c: seq<T>)
    ensures (a + b) + c == a + (b + c)
  {
  }

  lemma SplitSlice<T>(d: seq<T>, a: nat, b: nat, c: nat)
    requires a <= b <= c <= |d|
    ensures d[a..c] == d[a..b] + d[b..c]
    ensures d[a..] == d[a..b] + d[b..]
  {
  }

  lemma SliceOfSlice<T>(d: seq<T>, a: nat, b: nat, i: nat, j: nat)
    requires a <= b <= |d| && i <= j <= b - a
    ensures d[a..b][i..j] == d[a + i..a + j]
  {
    var x, y := d[a..b][i..j], d[a + i..a + j];
    assert |x| == |y| && forall k | 0 <= k < |x| :: x[k] == y[k];
  }

  function Zeros(n: nat): seq<byte> { seq(n, _ => 0) }

  // ---- big-endian, as class files are ------------------------------------

  function Be16(d: seq<byte>, off: nat): Option<u16> {
    if off + 2 <= |d| then Some(d[off] as int * 0x100 + d[off + 1]) else None
  }

  function Be32(d: seq<byte>, off: nat): Option<u32> {
    if off + 4 <= |d| then
      Some(d[off] as int * 0x100_0000 + d[off + 1] as int * 0x1_0000
           + d[off + 2] as int * 0x100 + d[off + 3])
    else None
  }

  function Be16Bytes(w: u16): seq<byte> { [w / 0x100, w % 0x100] }

  // ---- little-endian, as tables and sections are -------------------------

  function Le16(d: seq<byte>, off: nat): Option<u16> {
    if off + 2 <= |d| then Some(d[off] + d[off + 1] as int * 0x100) else None
  }

  function Le32(d: seq<byte>, off: nat): Option<u32> {
    if off + 4 <= |d| then
      Some(d[off] + d[off + 1] as int * 0x100
           + d[off + 2] as int * 0x1_0000 + d[off + 3] as int * 0x100_0000)
    else None
  }

  function Le16Bytes(w: u16): seq<byte> { [w % 0x100, w / 0x100] }

  function Le32Bytes(w: u32): seq<byte> {
    [w % 0x100, w / 0x100 % 0x100, w / 0x1_0000 % 0x100, w / 0x100_0000]
  }

  lemma Be16ReadsBack(d: seq<byte>, off: nat, w: u16)
    requires off + 2 <= |d| && d[off..off + 2] == Be16Bytes(w)
    ensures Be16(d, off) == Some(w)
  {
    assert d[off] == d[off..off + 2][0] && d[off + 1] == d[off..off + 2][1];
  }

  lemma Le16ReadsBack(d: seq<byte>, off: nat, w: u16)
    requires off + 2 <= |d| && d[off..off + 2] == Le16Bytes(w)
    ensures Le16(d, off) == Some(w)
  {
    assert d[off] == d[off..off + 2][0] && d[off + 1] == d[off..off + 2][1];
  }

  lemma Le32ReadsBack(d: seq<byte>, off: nat, w: u32)
    requires off + 4 <= |d| && d[off..off + 4] == Le32Bytes(w)
    ensures Le32(d, off) == Some(w)
  {
    var b := d[off..off + 4];
    assert d[off] == b[0] && d[off + 1] == b[1] && d[off + 2] == b[2] && d[off + 3] == b[3];
    FourBytes(w, w / 0x100, w / 0x1_0000, w / 0x100_0000);
  }

  lemma FourBytes(w: nat, a: nat, b: nat, c: nat)
    requires a == w / 0x100 && b == w / 0x1_0000 && c == w / 0x100_0000
    ensures w % 0x100 + a % 0x100 * 0x100 + b % 0x100 * 0x1_0000 + c * 0x100_0000 == w
  {
    assert b == a / 0x100 && c == b / 0x100;
    assert w == a * 0x100 + w % 0x100 && a == b * 0x100 + a % 0x100 && b == c * 0x100 + b % 0x100;
  }

  /** What the reads mean, digit by digit: most significant byte first, and least. */
  lemma BigEndianDigits(d: seq<byte>, off: nat)
    ensures Be16(d, off).Some? <==> off + 2 <= |d|
    ensures Be16(d, off).Some? ==> Be16(d, off).value / 0x100 == d[off] && Be16(d, off).value % 0x100 == d[off + 1]
    ensures Be32(d, off).Some? <==> off + 4 <= |d|
    ensures Be32(d, off).Some? ==>
      Be32(d, off).value / 0x1_0000 == Be16(d, off).value && Be32(d, off).value % 0x1_0000 == Be16(d, off + 2).value
  {
  }

  lemma LittleEndianDigits(d: seq<byte>, off: nat)
    ensures Le16(d, off).Some? <==> off + 2 <= |d|
    ensures Le16(d, off).Some? ==> Le16(d, off).value / 0x100 == d[off + 1] && Le16(d, off).value % 0x100 == d[off]
    ensures Le32(d, off).Some? <==> off + 4 <= |d|
    ensures Le32(d, off).Some? ==>
      Le32(d, off).value / 0x1_0000 == Le16(d, off + 2).value && Le32(d, off).value % 0x1_0000 == Le16(d, off).value
  {
  }

  /** A read depends on the bytes it covers alone. */
  lemma Be16Local(d: seq<byte>, off: nat, e: seq<byte>, off': nat)
    requires off + 2 <= |d| && off' + 2 <= |e| && d[off..off + 2] == e[off'..off' + 2]
    ensures Be16(d, off) == Be16(e, off')
  {
    assert d[off] == d[off..off + 2][0] && d[off + 1] == d[off..off + 2][1];
    assert e[off'] == e[off'..off' + 2][0] && e[off' + 1] == e[off'..off' + 2][1];
  }
}
