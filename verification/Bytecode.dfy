/** `crates/class-link/src/bytecode.rs`: the pack-time check of one method's
    bytecode. The specification (`Legal`, `Tiles`) reads the instruction
    formats of JVMS section 6.5 declaratively; `CheckCode` is the source's loop,
    proved against it. `usize` is taken to hold any `i32` count. */
module Bytecode {
  import opened Bytes

  // ---- specification: what a legal instruction is ------------------------

  /** Operand formats of JVMS section 6.5. */
  datatype Format =
    | Plain(operands: nat)
    | Branch16
    | Branch32
    | InvokeInterface
    | InvokeDynamic
    | NewArray
    | MultiNewArray
    | TableSwitch
    | LookupSwitch
    | Wide
    | NotInClassFiles

  function FormatOf(op: byte): Format {
    if op == 0xaa then TableSwitch
    else if op == 0xab then LookupSwitch
    else if op == 0xc4 then Wide
    else if op > 0xc9 then NotInClassFiles
    else if 0x99 <= op <= 0xa8 || op == 0xc6 || op == 0xc7 then Branch16
    else if op == 0xc8 || op == 0xc9 then Branch32
    else if op == 0xb9 then InvokeInterface
    else if op == 0xba then InvokeDynamic
    else if op == 0xbc then NewArray
    else if op == 0xc5 then MultiNewArray
    else if op == 0x11 || op == 0x13 || op == 0x14 || op == 0x84 then Plain(2)
    else if 0xb2 <= op <= 0xb8 || op == 0xbb || op == 0xbd || op == 0xc0 || op == 0xc1 then Plain(2)
    else if op == 0x10 || op == 0x12 || 0x15 <= op <= 0x19 || 0x36 <= op <= 0x3a || op == 0xa9 then Plain(1)
    else Plain(0)
  }

  /** The instructions `wide` may modify, `iinc` apart. */
  predicate Widenable(op: byte) {
    0x15 <= op <= 0x19 || 0x36 <= op <= 0x3a || op == 0xa9
  }

  /** `iload`, `lload`, `fload`, `dload`, `aload`, their stores, and `ret`. */
  lemma WidenableAre(op: byte)
    ensures Widenable(op) <==> op in [0x15, 0x16, 0x17, 0x18, 0x19, 0x36, 0x37, 0x38, 0x39, 0x3a, 0xa9]
  {
  }

  function I16At(code: seq<byte>, at: nat): int
    requires at + 2 <= |code|
  {
    var v := Be16(code, at).value;
    if v < 0x8000 then v else v - 0x1_0000
  }

  function I32At(code: seq<byte>, at: nat): int
    requires at + 4 <= |code|
  {
    var v := Be32(code, at).value;
    if v < 0x8000_0000 then v else v - 0x1_0000_0000
  }

  /** Both are two's complement: the first byte is the signed one. */
  lemma OffsetsAreSigned(code: seq<byte>, at: nat)
    ensures at + 2 <= |code| ==>
      var hi := if code[at] >= 0x80 then code[at] - 0x100 else code[at] as int;
      I16At(code, at) / 0x100 == hi && I16At(code, at) % 0x100 == code[at + 1]
    ensures at + 4 <= |code| ==>
      I32At(code, at) / 0x1_0000 == I16At(code, at) && I32At(code, at) % 0x1_0000 == Be16(code, at + 2).value
  {
  }

  /** Where a switch's operands start: the first multiple of four past `pc`. */
  function SwitchBase(pc: nat): (base: nat)
    ensures base % 4 == 0 && pc < base <= pc + 4
  {
    (pc / 4 + 1) * 4
  }

  predicate Inside(code: seq<byte>, target: int) { 0 <= target < |code| }

  /** A whole legal instruction occupies `code[pc..end]` and every place it
      may jump to lies inside the code. */
  ghost predicate Legal(code: seq<byte>, pc: nat, end: nat) {
    && pc < end <= |code|
    && match FormatOf(code[pc])
       case Plain(n) => end == pc + 1 + n
       case Branch16 => end == pc + 3 && Inside(code, pc + I16At(code, pc + 1))
       case Branch32 => end == pc + 5 && Inside(code, pc + I32At(code, pc + 1))
       case InvokeInterface => end == pc + 5 && code[pc + 3] != 0 && code[pc + 4] == 0
       case InvokeDynamic => end == pc + 5 && code[pc + 3] == 0 && code[pc + 4] == 0
       case NewArray => end == pc + 2 && 4 <= code[pc + 1] <= 11
       case MultiNewArray => end == pc + 4 && code[pc + 3] != 0
       case TableSwitch => LegalTable(code, pc, end)
       case LookupSwitch => LegalLookup(code, pc, end)
       case Wide =>
         && pc + 1 < |code|
         && ((end == pc + 4 && Widenable(code[pc + 1])) || (end == pc + 6 && code[pc + 1] == 0x84))
       case NotInClassFiles => false
  }

  ghost predicate LegalTable(code: seq<byte>, pc: nat, end: nat)
    requires end <= |code|
  {
    var base := SwitchBase(pc);
    && base + 12 <= |code|
    && var low, high := I32At(code, base + 4), I32At(code, base + 8);
    && low <= high
    && end == base + 12 + 4 * (high - low + 1)
    && Inside(code, pc + I32At(code, base))
    && forall i | 0 <= i <= high - low :: Inside(code, pc + I32At(code, base + 12 + 4 * i))
  }

  ghost predicate LegalLookup(code: seq<byte>, pc: nat, end: nat)
    requires end <= |code|
  {
    var base := SwitchBase(pc);
    && base + 8 <= |code|
    && var npairs := I32At(code, base + 4);
    && 0 <= npairs
    && end == base + 8 + 8 * npairs
    && Inside(code, pc + I32At(code, base))
    && PairsLegal(code, pc, base, npairs)
  }

  /** The first `n` pairs have ascending keys and targets inside the code. */
  ghost predicate PairsLegal(code: seq<byte>, pc: nat, base: nat, n: nat)
    requires base + 8 + 8 * n <= |code|
  {
    && (forall i, j | 0 <= i < j < n :: KeyAt(code, base, i) < KeyAt(code, base, j))
    && forall i | 0 <= i < n :: Inside(code, pc + I32At(code, base + 12 + 8 * i))
  }

  /** The match value of pair `i` of the `lookupswitch` whose operands start at `base`. */
  function KeyAt(code: seq<byte>, base: nat, i: nat): int
    requires base + 12 + 8 * i <= |code|
  {
    I32At(code, base + 8 + 8 * i)
  }

  /** `cuts` divides `code[..upto]` into whole legal instructions. */
  ghost predicate Tiles(code: seq<byte>, cuts: seq<nat>, upto: nat) {
    && |cuts| > 0
    && cuts[0] == 0
    && cuts[|cuts| - 1] == upto
    && forall k | 0 <= k < |cuts| - 1 :: Legal(code, cuts[k], cuts[k + 1])
  }

  ghost predicate LegalSomewhere(code: seq<byte>, pc: nat) {
    exists end :: Legal(code, pc, end)
  }

  /** What the check must answer from instruction `pc` on. */
  ghost function VerdictFrom(code: seq<byte>, pc: nat): Result<()>
    requires |code| <= 65535
    decreases |code| - pc
  {
    if pc >= |code| then Ok(())
    else if LegalSomewhere(code, pc) then
      var end :| Legal(code, pc, end);
      VerdictFrom(code, end)
    else Err(BadBytecode(pc))
  }

  ghost function CodeVerdict(code: seq<byte>): Result<()> {
    if 0 < |code| <= 65535 then VerdictFrom(code, 0) else Err(BadBytecode(0))
  }

  // ---- the source's check ------------------------------------------------

  const SPECIAL := 0xFF

  /** Operand bytes after each opcode, `SPECIAL` for the variable ones. */
  function OperandLen(op: byte): Option<nat> {
    if op <= 0x0f then Some(0)
    else if op == 0x10 then Some(1)
    else if op == 0x11 then Some(2)
    else if op == 0x12 then Some(1)
    else if op <= 0x14 then Some(2)
    else if op <= 0x19 then Some(1)
    else if op <= 0x35 then Some(0)
    else if op <= 0x3a then Some(1)
    else if op <= 0x83 then Some(0)
    else if op == 0x84 then Some(2)
    else if op <= 0x98 then Some(0)
    else if op <= 0xa8 then Some(2)
    else if op == 0xa9 then Some(1)
    else if op <= 0xab then Some(SPECIAL)
    else if op <= 0xb1 then Some(0)
    else if op <= 0xb8 then Some(2)
    else if op <= 0xba then Some(4)
    else if op == 0xbb then Some(2)
    else if op == 0xbc then Some(1)
    else if op == 0xbd then Some(2)
    else if op <= 0xbf then Some(0)
    else if op <= 0xc1 then Some(2)
    else if op <= 0xc3 then Some(0)
    else if op == 0xc4 then Some(SPECIAL)
    else if op == 0xc5 then Some(3)
    else if op <= 0xc7 then Some(2)
    else if op <= 0xc9 then Some(4)
    else None
  }

  function BranchOffset32(code: seq<byte>, at: nat): Option<int> {
    if at + 4 <= |code| then Some(I32At(code, at)) else None
  }

  function CheckTarget(code: seq<byte>, pc: nat, offset: int): Result<()>
    requires pc < 65535
  {
    var target := pc + offset;
    if target < 0 || target >= |code| then Err(BadBytecode(pc)) else Ok(())
  }

  /** One instruction that is not variable-length. */
  method CheckFixed(code: seq<byte>, pc: nat, operands: nat) returns (r: Result<nat>)
    requires pc < |code| <= 65535
    requires OperandLen(code[pc]) == Some(operands) && operands != SPECIAL
    ensures r.Ok? ==> Legal(code, pc, r.value)
    ensures r.Err? ==> r.error == BadBytecode(pc) && !LegalSomewhere(code, pc)
  {
    var bad := BadBytecode(pc);
    var op := code[pc];
    var next := pc + 1 + operands;
    if next > |code| {
      return Err(bad);
    }
    if 0x99 <= op <= 0xa8 || op == 0xc6 || op == 0xc7 {
      // `next <= |code|`: the source's read cannot come up short here
      var _ :- CheckTarget(code, pc, I16At(code, pc + 1));
    } else if op == 0xc8 || op == 0xc9 {
      var _ :- CheckTarget(code, pc, I32At(code, pc + 1));
    } else if op == 0xb9 && (code[pc + 3] == 0 || code[pc + 4] != 0) {
      return Err(bad);
    } else if op == 0xba && (code[pc + 3] != 0 || code[pc + 4] != 0) {
      return Err(bad);
    } else if op == 0xbc && !(4 <= code[pc + 1] <= 11) {
      return Err(bad);
    } else if op == 0xc5 && code[pc + 3] == 0 {
      return Err(bad);
    }
    return Ok(next);
  }

  method CheckTableSwitch(code: seq<byte>, pc: nat) returns (r: Result<nat>)
    requires pc < |code| <= 65535 && code[pc] == 0xaa
    ensures r.Ok? ==> Legal(code, pc, r.value)
    ensures r.Err? ==> r.error == BadBytecode(pc) && !LegalSomewhere(code, pc)
  {
    var bad := BadBytecode(pc);
    var start := (pc + 4) / 4 * 4;
    assert start == SwitchBase(pc);
    var default :- OkOr(BranchOffset32(code, start), bad);
    var low :- OkOr(BranchOffset32(code, start + 4), bad);
    var high :- OkOr(BranchOffset32(code, start + 8), bad);
    if low > high {
      return Err(bad);
    }
    var count := high - low + 1;
    var table := start + 12;
    var end := 4 * count + table;
    if end > |code| {
      return Err(bad);
    }
    var _ :- CheckTarget(code, pc, default);
    var i := 0;
    while i < count
      invariant 0 <= i <= count
      invariant forall k | 0 <= k < i :: Inside(code, pc + I32At(code, table + 4 * k))
    {
      var _ :- CheckTarget(code, pc, I32At(code, table + 4 * i));
      i := i + 1;
    }
    return Ok(end);
  }

  /** The `tableswitch` arm where a `usize` has `words` values: the count is
      cast, the end computed with overflow checks. */
  ghost predicate TableArm(code: seq<byte>, pc: nat, words: nat, end: nat)
    requires words > 0
  {
    var base := SwitchBase(pc);
    && base + 12 <= |code|
    && var low, high := I32At(code, base + 4), I32At(code, base + 8);
    && low <= high
    && var count := (high - low + 1) % words;
    && 4 * count + base + 12 < words && end == 4 * count + base + 12 <= |code|
    && Inside(code, pc + I32At(code, base))
    && forall i | 0 <= i < count :: Inside(code, pc + I32At(code, base + 12 + 4 * i))
  }

  /** A table from -2^31 to 2^31 - 1. */
  predicate FullRange(code: seq<byte>, pc: nat) {
    var base := SwitchBase(pc);
    base + 12 <= |code| && I32At(code, base + 4) == -0x8000_0000 && I32At(code, base + 8) == 0x7FFF_FFFF
  }

  /** With a wider `usize` the arm is legality; with one of 32 bits it also lets
      the full range through, as a table of no entries, and nothing else. */
  lemma TableArmExact(code: seq<byte>, pc: nat, words: nat, end: nat)
    requires pc < |code| <= 65535 && code[pc] == 0xaa && words >= 0x1_0000_0000
    ensures TableArm(code, pc, words, end) <==>
      || (end <= |code| && LegalTable(code, pc, end))
      || (words == 0x1_0000_0000 && FullRange(code, pc) && end == SwitchBase(pc) + 12
          && Inside(code, pc + I32At(code, SwitchBase(pc))))
  {
    var base := SwitchBase(pc);
    if base + 12 <= |code| {
      var n := I32At(code, base + 8) - I32At(code, base + 4) + 1;
      assert n == 0x1_0000_0000 <==> FullRange(code, pc);
      if 0 < n < words {
        Unwrapped(n, words);
      } else if n == words {
        assert n % words == 0;
      }
    }
  }

  lemma Unwrapped(n: nat, words: nat)
    requires n < words
    ensures n % words == n
  {
  }

  /** One more pair: its key above the last, its target inside. */
  lemma NextPair(code: seq<byte>, pc: nat, start: nat, i: nat)
    requires start + 16 + 8 * i <= |code| && PairsLegal(code, pc, start, i)
    ensures PairsLegal(code, pc, start, i + 1) <==>
      && (i > 0 ==> KeyAt(code, start, i - 1) < KeyAt(code, start, i))
      && Inside(code, pc + I32At(code, start + 12 + 8 * i))
  {
  }

  /** The loop over the pairs of a `lookupswitch` whose operands start at `start`. */
  method CheckPairs(code: seq<byte>, pc: nat, start: nat, npairs: nat) returns (r: Result<()>)
    requires pc < 65535 && start + 8 + 8 * npairs <= |code|
    ensures r.Ok? <==> PairsLegal(code, pc, start, npairs)
    ensures r.Err? ==> r.error == BadBytecode(pc)
  {
    var prev: Option<int> := None;
    var i := 0;
    while i < npairs
      invariant 0 <= i <= npairs
      invariant prev == if i == 0 then None else Some(KeyAt(code, start, i - 1))
      invariant PairsLegal(code, pc, start, i)
    {
      NextPair(code, pc, start, i);
      var key := I32At(code, start + 8 + 8 * i);
      if prev.Some? && prev.value >= key {
        return Err(BadBytecode(pc));
      }
      prev := Some(key);
      var _ :- CheckTarget(code, pc, I32At(code, start + 12 + 8 * i));
      i := i + 1;
    }
    return Ok(());
  }

  method CheckLookupSwitch(code: seq<byte>, pc: nat) returns (r: Result<nat>)
    requires pc < |code| <= 65535 && code[pc] == 0xab
    ensures r.Ok? ==> Legal(code, pc, r.value)
    ensures r.Err? ==> r.error == BadBytecode(pc) && !LegalSomewhere(code, pc)
  {
    var bad := BadBytecode(pc);
    var start := (pc + 4) / 4 * 4;
    assert start == SwitchBase(pc);
    var default :- OkOr(BranchOffset32(code, start), bad);
    var npairs :- OkOr(BranchOffset32(code, start + 4), bad);
    if npairs < 0 {
      return Err(bad);
    }
    var table := start + 8;
    var end := 8 * npairs + table;
    if end > |code| {
      return Err(bad);
    }
    var _ :- CheckTarget(code, pc, default);
    var _ :- CheckPairs(code, pc, start, npairs);
    return Ok(end);
  }

  method CheckWide(code: seq<byte>, pc: nat) returns (r: Result<nat>)
    requires pc < |code| <= 65535 && code[pc] == 0xc4
    ensures r.Ok? ==> Legal(code, pc, r.value)
    ensures r.Err? ==> r.error == BadBytecode(pc) && !LegalSomewhere(code, pc)
  {
    var bad := BadBytecode(pc);
    if pc + 1 >= |code| {
      return Err(bad);
    }
    var widened := code[pc + 1];
    var next;
    if 0x15 <= widened <= 0x19 || 0x36 <= widened <= 0x3a || widened == 0xa9 {
      next := pc + 4;
    } else if widened == 0x84 {
      next := pc + 6;
    } else {
      return Err(bad);
    }
    if next > |code| {
      return Err(bad);
    }
    return Ok(next);
  }

  lemma VerdictStep(code: seq<byte>, pc: nat, end: nat)
    requires |code| <= 65535 && Legal(code, pc, end)
    ensures VerdictFrom(code, pc) == VerdictFrom(code, end)
  {
    assert LegalSomewhere(code, pc);
    var end' :| Legal(code, pc, end') && VerdictFrom(code, pc) == VerdictFrom(code, end');
  }

  /** `check_code`: the source's loop over the instructions. */
  method CheckCode(code: seq<byte>) returns (r: Result<()>)
    ensures r == CodeVerdict(code)
  {
    var len := |code|;
    if len == 0 || len > 65535 {
      return Err(BadBytecode(0));
    }
    var pc: nat := 0;
    while pc < len
      invariant pc <= len
      invariant VerdictFrom(code, pc) == CodeVerdict(code)
    {
      var operands := OperandLen(code[pc]);
      var step: Result<nat>;
      if operands.None? {
        step := Err(BadBytecode(pc));
      } else if operands.value != SPECIAL {
        step := CheckFixed(code, pc, operands.value);
      } else if code[pc] == 0xaa {
        step := CheckTableSwitch(code, pc);
      } else if code[pc] == 0xab {
        step := CheckLookupSwitch(code, pc);
      } else {
        step := CheckWide(code, pc);
      }
      if step.Err? {
        return Err(step.error);
      }
      VerdictStep(code, pc, step.value);
      pc := step.value;
    }
    return Ok(());
  }

  // ---- what the check establishes ----------------------------------------

  lemma {:induction false} AcceptedIsTiled(code: seq<byte>, cuts: seq<nat>) returns (full: seq<nat>)
    requires |code| <= 65535
    requires |cuts| > 0 && cuts[|cuts| - 1] <= |code|
    requires Tiles(code, cuts, cuts[|cuts| - 1])
    requires VerdictFrom(code, cuts[|cuts| - 1]).Ok?
    ensures Tiles(code, full, |code|)
    decreases |code| - cuts[|cuts| - 1]
  {
    var pc := cuts[|cuts| - 1];
    if pc == |code| {
      full := cuts;
    } else {
      var end :| Legal(code, pc, end) && VerdictFrom(code, pc) == VerdictFrom(code, end);
      full := AcceptedIsTiled(code, cuts + [end]);
    }
  }

  lemma {:induction false} RefusedAfterTiles(code: seq<byte>, cuts: seq<nat>) returns (full: seq<nat>)
    requires |code| <= 65535
    requires |cuts| > 0 && cuts[|cuts| - 1] <= |code|
    requires Tiles(code, cuts, cuts[|cuts| - 1])
    requires VerdictFrom(code, cuts[|cuts| - 1]).Err?
    ensures |full| > 0
    ensures var pc := full[|full| - 1];
      && pc < |code| && Tiles(code, full, pc) && !LegalSomewhere(code, pc)
      && VerdictFrom(code, cuts[|cuts| - 1]) == Err(BadBytecode(pc))
    decreases |code| - cuts[|cuts| - 1]
  {
    var pc := cuts[|cuts| - 1];
    if LegalSomewhere(code, pc) {
      var end :| Legal(code, pc, end) && VerdictFrom(code, pc) == VerdictFrom(code, end);
      full := RefusedAfterTiles(code, cuts + [end]);
    } else {
      full := cuts;
    }
  }

  /** The verdict at the start is the verdict at any instruction reached. */
  lemma {:induction false} VerdictAlongTiles(code: seq<byte>, cuts: seq<nat>, upto: nat)
    requires |code| <= 65535 && Tiles(code, cuts, upto)
    ensures VerdictFrom(code, 0) == VerdictFrom(code, upto)
    decreases |cuts|
  {
    if |cuts| > 1 {
      var n := |cuts| - 1;
      VerdictAlongTiles(code, cuts[..n], cuts[n - 1]);
      VerdictStep(code, cuts[n - 1], cuts[n]);
    }
  }

  /** `check_code` accepts exactly the codes of legal length that whole legal
      instructions tile. */
  lemma AcceptsExactlyTiledCode(code: seq<byte>)
    ensures CodeVerdict(code).Ok? <==>
            0 < |code| <= 65535 && exists cuts :: Tiles(code, cuts, |code|)
  {
    if 0 < |code| <= 65535 {
      if CodeVerdict(code).Ok? {
        var cuts := AcceptedIsTiled(code, [0]);
      }
      if cuts :| Tiles(code, cuts, |code|) {
        VerdictAlongTiles(code, cuts, |code|);
      }
    }
  }

  /** A refusal names the first instruction that is not legal: legal ones tile
      everything before it. */
  lemma RefusalNamesFirstIllegal(code: seq<byte>, pc: nat)
    requires 0 < |code| <= 65535
    ensures pc < |code| ==>
      (CodeVerdict(code) == Err(BadBytecode(pc)) <==>
       !LegalSomewhere(code, pc) && exists cuts :: Tiles(code, cuts, pc))
    ensures CodeVerdict(code).Err? ==>
      exists at :: 0 <= at < |code| && CodeVerdict(code) == Err(BadBytecode(at))
  {
    if CodeVerdict(code).Err? {
      var cuts := RefusedAfterTiles(code, [0]);
      assert CodeVerdict(code) == Err(BadBytecode(cuts[|cuts| - 1]));
    }
    if pc < |code| && !LegalSomewhere(code, pc) {
      if cuts :| Tiles(code, cuts, pc) {
        VerdictAlongTiles(code, cuts, pc);
      }
    }
  }
}
