/** `crates/fuzz-targets/src/interp.rs`: `terminates`, the control-flow filter
    over bytecode, and what it buys together with `check_code`. */
module Interp {
  import opened Bytes
  import opened Bytecode

  // ---- specification -----------------------------------------------------

  /** What the filter reads at one instruction: its length and its targets. */
  datatype Scan = Scan(len: nat, targets: seq<int>)

  /** Where target `i` of a switch lies: every 4 bytes from `first` on in a
      `tableswitch`, every 8 in a `lookupswitch` (`pairs`). */
  function TargetAt(first: nat, pairs: bool, i: nat): nat {
    if pairs then first + 8 * i else first + 4 * i
  }

  /** The first `count` switch targets of the instruction at `pc`; `None` when
      the code ends before the last. */
  function SwitchTargets(code: seq<byte>, pc: nat, first: nat, pairs: bool, count: nat): Option<seq<int>> {
    if count == 0 then Some([])
    else
      var rest := SwitchTargets(code, pc, first, pairs, count - 1);
      var at := TargetAt(first, pairs, count - 1);
      if rest.None? || at + 4 > |code| then None
      else Some(rest.value + [pc + I32At(code, at)])
  }

  /** How many table entries or pairs the switch at `pc` says it has; `None`
      when its fixed operands are cut short or say a table that cannot be. */
  function SwitchCount(code: seq<byte>, pc: nat): Option<nat>
    requires pc < |code|
  {
    var base := SwitchBase(pc);
    if code[pc] == 0xaa then
      if base + 12 > |code| || I32At(code, base + 8) < I32At(code, base + 4) then None
      else Some(I32At(code, base + 8) - I32At(code, base + 4) + 1)
    else
      if base + 8 > |code| || I32At(code, base + 4) < 0 then None
      else Some(I32At(code, base + 4))
  }

  function ScanSwitch(code: seq<byte>, pc: nat): Option<Scan>
    requires pc < |code|
  {
    var base := SwitchBase(pc);
    var pairs := code[pc] != 0xaa;
    match SwitchCount(code, pc)
    case None => None
    case Some(count) =>
      if count > |code| || SwitchTargets(code, pc, base + 12, pairs, count).None? then None
      else
        var len := TargetAt(base + 12, pairs, count) - pc - (if pairs then 4 else 0);
        Some(Scan(len, [pc + I32At(code, base)] + SwitchTargets(code, pc, base + 12, pairs, count).value))
  }

  function ScanAt(code: seq<byte>, pc: nat): Option<Scan>
    requires pc < |code|
  {
    var op := code[pc];
    if op == 0x10 || op == 0x12 || 0x15 <= op <= 0x19 || 0x36 <= op <= 0x3a || op == 0xbc then
      Some(Scan(2, []))
    else if op == 0x11 || op == 0x13 || op == 0x14 || op == 0x84 || 0xb2 <= op <= 0xb8
         || op == 0xbb || op == 0xbd || op == 0xc0 || op == 0xc1 then
      Some(Scan(3, []))
    else if 0x99 <= op <= 0xa7 || op == 0xc6 || op == 0xc7 then
      if pc + 3 <= |code| then Some(Scan(3, [pc + I16At(code, pc + 1)])) else None
    else if op == 0xc8 then
      if pc + 5 <= |code| then Some(Scan(5, [pc + I32At(code, pc + 1)])) else None
    else if op == 0xb9 || op == 0xba then Some(Scan(5, []))
    else if op == 0xc5 then Some(Scan(4, []))
    else if op == 0xc4 then
      if pc + 1 < |code| && code[pc + 1] == 0x84 then Some(Scan(6, []))
      else if pc + 1 < |code| && (0x15 <= code[pc + 1] <= 0x19 || 0x36 <= code[pc + 1] <= 0x3a) then
        Some(Scan(4, []))
      else None
    else if op == 0xaa || op == 0xab then ScanSwitch(code, pc)
    else if op == 0xa8 || op == 0xa9 || op == 0xc9 then None
    else Some(Scan(1, []))
  }

  predicate Forward(pc: nat, targets: seq<int>) { forall t | t in targets :: t > pc }

  /** `cuts` divides the code as the filter decodes it, and every target of
      every instruction is a later cut inside the code. */
  ghost predicate ForwardTiled(code: seq<byte>, cuts: seq<nat>) {
    && Scanned(code, cuts, |code|)
    && forall t | t in AllTargets(code, cuts) :: 0 <= t < |code| && t in cuts
  }

  /** `cuts` divides `code[..upto]` as the filter decodes it, forward targets only. */
  ghost predicate Scanned(code: seq<byte>, cuts: seq<nat>, upto: nat) {
    && |cuts| > 0
    && cuts[0] == 0
    && cuts[|cuts| - 1] == upto
    && forall k | 0 <= k < |cuts| - 1 :: ScanStep(code, cuts[k], cuts[k + 1])
  }

  ghost predicate ScanStep(code: seq<byte>, pc: nat, next: nat) {
    && pc < |code|
    && ScanAt(code, pc).Some?
    && next == pc + ScanAt(code, pc).value.len
    && Forward(pc, ScanAt(code, pc).value.targets)
  }

  /** The targets of every instruction `cuts` delimits, in code order. */
  ghost function AllTargets(code: seq<byte>, cuts: seq<nat>): seq<int> {
    if |cuts| < 2 then []
    else
      var pc := cuts[|cuts| - 2];
      AllTargets(code, cuts[..|cuts| - 1])
      + if pc < |code| && ScanAt(code, pc).Some? then ScanAt(code, pc).value.targets else []
  }

  // ---- the source's filter -----------------------------------------------

  /** The loop that pushes a switch's targets after its default. */
  method ReadTargets(code: seq<byte>, pc: nat, first: nat, pairs: bool, count: nat, default: int)
    returns (r: Option<seq<int>>)
    ensures r == match SwitchTargets(code, pc, first, pairs, count)
                 case None => None
                 case Some(ts) => Some([default] + ts)
  {
    var targets := [default];
    var i: nat := 0;
    while i < count
      invariant i <= count
      invariant SwitchTargets(code, pc, first, pairs, i).Some?
      invariant targets == [default] + SwitchTargets(code, pc, first, pairs, i).value
    {
      var off := BranchOffset32(code, TargetAt(first, pairs, i));
      if off.None? {
        ShortSwitch(code, pc, first, pairs, i + 1, count);
        return None;
      }
      targets := targets + [pc + off.value];
      i := i + 1;
    }
    return Some(targets);
  }

  lemma {:induction false} ShortSwitch(code: seq<byte>, pc: nat, first: nat, pairs: bool, m: nat, n: nat)
    requires m <= n && SwitchTargets(code, pc, first, pairs, m).None?
    ensures SwitchTargets(code, pc, first, pairs, n).None?
  {
    if m < n {
      ShortSwitch(code, pc, first, pairs, m, n - 1);
    }
  }

  /** The switch arm. */
  method ReadSwitch(code: seq<byte>, pc: nat) returns (r: Option<Scan>)
    requires pc < |code| && (code[pc] == 0xaa || code[pc] == 0xab)
    ensures r == ScanSwitch(code, pc)
  {
    var base := (pc + 4) / 4 * 4;
    assert base == SwitchBase(pc);
    var default := BranchOffset32(code, base);
    if default.None? {
      return None;
    }
    var count: nat;
    var pairs := code[pc] != 0xaa;
    if !pairs {
      var lo, hi := BranchOffset32(code, base + 4), BranchOffset32(code, base + 8);
      if lo.None? || hi.None? || hi.value < lo.value {
        return None;
      }
      count := hi.value - lo.value + 1;
    } else {
      var n := BranchOffset32(code, base + 4);
      if n.None? || n.value < 0 {
        return None;
      }
      count := n.value;
    }
    if count > |code| {
      return None;
    }
    assert SwitchCount(code, pc) == Some(count);
    var targets := ReadTargets(code, pc, base + 12, pairs, count, pc + default.value);
    if targets.None? {
      return None;
    }
    var len := TargetAt(base + 12, pairs, count) - pc - (if pairs then 4 else 0);
    return Some(Scan(len, targets.value));
  }

  /** The filter's length-and-targets `match`, and its refusal of a target
      that is not ahead. */
  method ReadForward(code: seq<byte>, pc: nat) returns (r: Option<Scan>)
    requires pc < |code|
    ensures r == if ScanAt(code, pc).Some? && Forward(pc, ScanAt(code, pc).value.targets)
                 then ScanAt(code, pc) else None
  {
    if code[pc] == 0xaa || code[pc] == 0xab {
      r := ReadSwitch(code, pc);
    } else {
      r := ScanAt(code, pc);
    }
    if r.Some? && exists t | t in r.value.targets :: t <= pc {
      r := None;
    }
  }

  method AllStart(targets: seq<int>, starts: array<bool>, len: nat) returns (b: bool)
    requires starts.Length == len + 1
    ensures b <==> forall t | t in targets :: 0 <= t < len && starts[t]
  {
    b := forall t | t in targets :: 0 <= t < len && starts[t];
  }

  /** `terminates`: whether the code certainly ends. */
  method Terminates(code: seq<byte>) returns (b: bool)
    ensures b <==> exists cuts :: ForwardTiled(code, cuts)
  {
    var starts := new bool[|code| + 1](_ => false);
    var targets: seq<int> := [];
    var pc: nat := 0;
    ghost var before: seq<nat> := [];
    while pc < |code|
      invariant ScannedTo(code, before, pc, targets)
      invariant starts.Length == |code| + 1
      invariant forall p | 0 <= p <= |code| :: starts[p] <==> p in before
      decreases |code| - pc
    {
      starts[pc] := true;
      var scan := ReadForward(code, pc);
      if scan.None? {
        StuckScan(code, before + [pc], pc);
        return false;
      }
      ScanOn(code, before, pc, targets);
      targets := targets + scan.value.targets;
      before := before + [pc];
      pc := pc + scan.value.len;
    }
    ScanEnds(code, before, pc, targets);
    b := AllStart(targets, starts, |code|);
    b := pc == |code| && b;
  }

  /** Everything before `pc` scanned, its targets collected. */
  ghost predicate ScannedTo(code: seq<byte>, before: seq<nat>, pc: nat, targets: seq<int>) {
    Scanned(code, before + [pc], pc) && targets == AllTargets(code, before + [pc])
  }

  lemma ScanOn(code: seq<byte>, before: seq<nat>, pc: nat, targets: seq<int>)
    requires ScannedTo(code, before, pc, targets)
    requires pc < |code| && ScanAt(code, pc).Some? && Forward(pc, ScanAt(code, pc).value.targets)
    ensures var scan := ScanAt(code, pc).value;
      scan.len > 0 && ScannedTo(code, before + [pc], pc + scan.len, targets + scan.targets)
  {
    ExtendScan(code, before, pc);
  }

  /** A scan that is through decides: it ends at the end, all targets at cuts. */
  lemma ScanEnds(code: seq<byte>, before: seq<nat>, pc: nat, targets: seq<int>)
    requires pc >= |code| && ScannedTo(code, before, pc, targets)
    ensures (exists full :: ForwardTiled(code, full)) <==>
            pc == |code| && forall t | t in targets :: 0 <= t < |code| && t in before
  {
    var cuts := before + [pc];
    if full :| ForwardTiled(code, full) {
      ScannedIsPrefix(code, cuts, pc, full);
      CutSteps(code, full, |cuts| - 1);
      assert full == cuts;
    }
    if pc == |code| && forall t | t in targets :: 0 <= t < |code| && t in before {
      assert ForwardTiled(code, cuts);
    }
  }

  lemma ExtendScan(code: seq<byte>, before: seq<nat>, pc: nat)
    requires Scanned(code, before + [pc], pc)
    requires pc < |code| && ScanAt(code, pc).Some? && Forward(pc, ScanAt(code, pc).value.targets)
    ensures var scan := ScanAt(code, pc).value;
      && scan.len > 0
      && Scanned(code, before + [pc] + [pc + scan.len], pc + scan.len)
      && AllTargets(code, before + [pc] + [pc + scan.len])
         == AllTargets(code, before + [pc]) + scan.targets
  {
    var cuts := before + [pc];
    var next := pc + ScanAt(code, pc).value.len;
    assert (cuts + [next])[..|cuts|] == cuts;
    forall k | 0 <= k < |cuts|
      ensures ScanStep(code, (cuts + [next])[k], (cuts + [next])[k + 1])
    {
      if k < |cuts| - 1 {
        assert ScanStep(code, cuts[k], cuts[k + 1]);
      }
    }
  }

  /** A full scan steps from every cut but its last. */
  lemma CutSteps(code: seq<byte>, full: seq<nat>, k: nat)
    requires Scanned(code, full, |code|) && k < |full|
    ensures k < |full| - 1 <==> full[k] < |code|
    ensures k < |full| - 1 ==> ScanStep(code, full[k], full[k + 1])
  {
  }

  /** A scan that meets an instruction it refuses is no start of an accepted one. */
  lemma StuckScan(code: seq<byte>, cuts: seq<nat>, pc: nat)
    requires pc < |code| && Scanned(code, cuts, pc)
    requires ScanAt(code, pc).None? || !Forward(pc, ScanAt(code, pc).value.targets)
    ensures !exists full :: ForwardTiled(code, full)
  {
    forall full | ForwardTiled(code, full)
      ensures false
    {
      ScannedIsPrefix(code, cuts, pc, full);
      CutSteps(code, full, |cuts| - 1);
    }
  }

  /** Decoding is deterministic: what has been scanned starts every full scan. */
  lemma {:induction false} ScannedIsPrefix(code: seq<byte>, cuts: seq<nat>, upto: nat, full: seq<nat>)
    requires Scanned(code, cuts, upto) && Scanned(code, full, |code|)
    ensures cuts <= full
    decreases |cuts|
  {
    if |cuts| > 1 {
      var n := |cuts| - 1;
      assert Scanned(code, cuts[..n], cuts[n - 1]);
      ScannedIsPrefix(code, cuts[..n], cuts[n - 1], full);
      assert full[n - 1] == cuts[n - 1];
      assert ScanStep(code, cuts[n - 1], cuts[n]);
      assert ScanStep(code, full[n - 1], full[n]);
    }
  }

  // ---- runs --------------------------------------------------------------

  /** The instruction at `pc` may continue with the one after it. A `jsr` may:
      that is where the `ret` of its subroutine continues, so a `ret` has no
      step of its own. */
  predicate FallsThrough(code: seq<byte>, pc: nat)
    requires pc < |code|
  {
    var op := code[pc];
    !(op == 0xa7 || op == 0xc8 || op == 0xaa || op == 0xab || 0xac <= op <= 0xb1 || op == 0xbf
      || op == 0xa9 || (op == 0xc4 && pc + 1 < |code| && code[pc + 1] == 0xa9))
  }

  /** The instruction at `pc` may jump to `target` (JVMS section 6.5). */
  ghost predicate Jumps(code: seq<byte>, pc: nat, target: int)
    requires pc < |code|
  {
    match FormatOf(code[pc])
    case Branch16 => pc + 3 <= |code| && target == pc + I16At(code, pc + 1)
    case Branch32 => pc + 5 <= |code| && target == pc + I32At(code, pc + 1)
    case TableSwitch =>
      var base := SwitchBase(pc);
      && base + 12 <= |code|
      && (target == pc + I32At(code, base)
          || exists i :: 0 <= i <= I32At(code, base + 8) - I32At(code, base + 4)
                      && base + 16 + 4 * i <= |code| && target == pc + I32At(code, TargetAt(base + 12, false, i)))
    case LookupSwitch =>
      var base := SwitchBase(pc);
      && base + 8 <= |code|
      && (target == pc + I32At(code, base)
          || exists i :: 0 <= i < I32At(code, base + 4)
                      && base + 16 + 8 * i <= |code| && target == pc + I32At(code, TargetAt(base + 12, true, i)))
    case _ => false
  }

  /** One step of execution, whatever the operands on the stack decide. */
  ghost predicate Step(code: seq<byte>, pc: nat, next: nat) {
    && pc < |code|
    && ((FallsThrough(code, pc) && Legal(code, pc, next)) || Jumps(code, pc, next))
  }

  /** `run` lists the positions of an execution from the start of the code;
      reaching `|code|` is running off its end. */
  ghost predicate IsRun(code: seq<byte>, run: seq<nat>) {
    && |run| > 0
    && run[0] == 0
    && forall k | 0 <= k < |run| - 1 :: Step(code, run[k], run[k + 1])
  }

  lemma {:induction false} SwitchTargetsHolds(code: seq<byte>, pc: nat, first: nat, pairs: bool, count: nat, i: nat)
    requires i < count && SwitchTargets(code, pc, first, pairs, count).Some?
    ensures TargetAt(first, pairs, i) + 4 <= |code|
    ensures pc + I32At(code, TargetAt(first, pairs, i)) in SwitchTargets(code, pc, first, pairs, count).value
  {
    if i < count - 1 {
      SwitchTargetsHolds(code, pc, first, pairs, count - 1, i);
    }
  }

  /** On an instruction both accept, the two decoders agree on where it ends,
      and the filter has seen every place it may jump to. */
  lemma DecodersAgree(code: seq<byte>, pc: nat, end: nat)
    requires Legal(code, pc, end) && ScanAt(code, pc).Some?
    ensures end == pc + ScanAt(code, pc).value.len
    ensures forall t: nat | Jumps(code, pc, t) :: t in ScanAt(code, pc).value.targets
  {
    forall t: nat | Jumps(code, pc, t)
      ensures t in ScanAt(code, pc).value.targets
    {
      if code[pc] == 0xaa || code[pc] == 0xab {
        JumpIsScanned(code, pc, t);
      }
    }
  }

  lemma SwitchFormats()
    ensures FormatOf(0xaa) == TableSwitch && FormatOf(0xab) == LookupSwitch
  {
  }

  lemma JumpIsScanned(code: seq<byte>, pc: nat, t: nat)
    requires pc < |code| && (code[pc] == 0xaa || code[pc] == 0xab)
    requires ScanSwitch(code, pc).Some? && Jumps(code, pc, t)
    ensures t in ScanSwitch(code, pc).value.targets
  {
    hide I32At, FormatOf, SwitchTargets;
    SwitchFormats();
    var base, count := SwitchBase(pc), SwitchCount(code, pc).value;
    var pairs := code[pc] != 0xaa;
    var ts := SwitchTargets(code, pc, base + 12, pairs, count).value;
    assert ScanSwitch(code, pc).value.targets == [pc + I32At(code, base)] + ts;
    if t != pc + I32At(code, base) {
      var i :| 0 <= i < count && TargetAt(base + 12, pairs, i) + 4 <= |code|
            && t == pc + I32At(code, TargetAt(base + 12, pairs, i));
      SwitchTargetsHolds(code, pc, base + 12, pairs, count, i);
    }
  }

  lemma {:induction false} SameCutsUpTo(code: seq<byte>, cuts: seq<nat>, full: seq<nat>, k: nat)
    requires Tiles(code, cuts, |code|) && Scanned(code, full, |code|)
    requires k < |cuts| && k < |full|
    ensures cuts[k] == full[k]
  {
    if k > 0 {
      SameCutsUpTo(code, cuts, full, k - 1);
      CutSteps(code, full, k - 1);
      assert Legal(code, cuts[k - 1], cuts[k]);
      DecodersAgree(code, cuts[k - 1], cuts[k]);
    }
  }

  lemma LegalCutSteps(code: seq<byte>, cuts: seq<nat>, k: nat)
    requires Tiles(code, cuts, |code|) && k < |cuts|
    ensures k < |cuts| - 1 ==> cuts[k] < |code| && Legal(code, cuts[k], cuts[k + 1])
  {
  }

  /** Code both accept has one set of instruction boundaries. */
  lemma BoundariesCoincide(code: seq<byte>, cuts: seq<nat>, full: seq<nat>)
    requires Tiles(code, cuts, |code|) && Scanned(code, full, |code|)
    ensures cuts == full
  {
    var m := Min(|cuts|, |full|) - 1;
    SameCutsUpTo(code, cuts, full, m);
    CutSteps(code, full, m);
    LegalCutSteps(code, cuts, m);
    forall k | 0 <= k <= m
      ensures cuts[k] == full[k]
    {
      SameCutsUpTo(code, cuts, full, k);
    }
  }

  lemma {:induction false} TargetsCollected(code: seq<byte>, cuts: seq<nat>, k: nat, t: int)
    requires k + 1 < |cuts| && cuts[k] < |code| && ScanAt(code, cuts[k]).Some?
    requires t in ScanAt(code, cuts[k]).value.targets
    ensures t in AllTargets(code, cuts)
    decreases |cuts|
  {
    if k + 2 < |cuts| {
      TargetsCollected(code, cuts[..|cuts| - 1], k, t);
    }
  }

  lemma {:induction false} CutsIncrease(code: seq<byte>, cuts: seq<nat>, i: nat, j: nat)
    requires Tiles(code, cuts, |code|) && i < j < |cuts|
    ensures cuts[i] < cuts[j]
  {
    LegalCutSteps(code, cuts, j - 1);
    if i < j - 1 {
      CutsIncrease(code, cuts, i, j - 1);
    }
  }

  /** One step of a run from a boundary lands on a later one. */
  lemma StepLandsLater(code: seq<byte>, cuts: seq<nat>, m: nat, next: nat) returns (m': nat)
    requires Tiles(code, cuts, |code|) && ForwardTiled(code, cuts)
    requires m < |cuts| && Step(code, cuts[m], next)
    ensures m < m' < |cuts| && next == cuts[m'] && cuts[m] < next
  {
    CutSteps(code, cuts, m);
    LegalCutSteps(code, cuts, m);
    DecodersAgree(code, cuts[m], cuts[m + 1]);
    if Jumps(code, cuts[m], next) {
      TargetsCollected(code, cuts, m, next);
      m' := LaterCut(code, cuts, m, next);
    } else {
      m' := m + 1;
    }
  }

  /** A cut beyond cut `m` is a later cut. */
  lemma LaterCut(code: seq<byte>, cuts: seq<nat>, m: nat, next: nat) returns (m': nat)
    requires Tiles(code, cuts, |code|) && m < |cuts| && next in cuts && cuts[m] < next
    ensures m < m' < |cuts| && cuts[m'] == next
  {
    m' :| 0 <= m' < |cuts| && cuts[m'] == next;
    if m' < m {
      CutsIncrease(code, cuts, m', m);
    }
  }

  lemma {:induction false} RunPositionIsCut(code: seq<byte>, cuts: seq<nat>, run: seq<nat>, k: nat) returns (m: nat)
    requires Tiles(code, cuts, |code|) && ForwardTiled(code, cuts)
    requires IsRun(code, run) && k < |run|
    ensures k <= m < |cuts| && run[k] == cuts[m]
    ensures k > 0 ==> run[k - 1] < run[k]
  {
    if k == 0 {
      m := 0;
    } else {
      var m0 := RunPositionIsCut(code, cuts, run, k - 1);
      m := StepLandsLater(code, cuts, m0, run[k]);
    }
  }

  /** The theorem. On code that `check_code` accepts and the filter passes,
      every run stays on instruction boundaries, has each instruction it meets
      whole inside the code, strictly advances, and takes no more steps than
      there are instructions. */
  lemma AcceptedRunsHalt(code: seq<byte>, cuts: seq<nat>, run: seq<nat>)
    requires CodeVerdict(code).Ok? && exists full :: ForwardTiled(code, full)
    requires Tiles(code, cuts, |code|)
    requires IsRun(code, run)
    ensures forall k | 0 <= k < |run| ::
              && run[k] in cuts
              && (run[k] < |code| ==> exists end :: run[k] < end <= |code| && Legal(code, run[k], end))
    ensures forall k | 0 < k < |run| :: run[k - 1] < run[k]
    ensures |run| <= |cuts|
  {
    var full :| ForwardTiled(code, full);
    BoundariesCoincide(code, cuts, full);
    forall k | 0 <= k < |run|
      ensures run[k] in cuts && (k > 0 ==> run[k - 1] < run[k])
      ensures run[k] < |code| ==> exists end :: run[k] < end <= |code| && Legal(code, run[k], end)
    {
      var m := RunPositionIsCut(code, cuts, run, k);
      LegalCutSteps(code, cuts, m);
      CutSteps(code, full, m);
    }
    var last := RunPositionIsCut(code, cuts, run, |run| - 1);
  }

  /** `check_code` alone does not keep a run on boundaries: it accepts a jump
      into the operand of a `bipush`, and the step from there is not a whole
      instruction. */
  lemma CheckAloneLetsRunsLeaveBoundaries()
    ensures var code := [0xa7, 0x00, 0x04, 0x10, 0x10];
      && CodeVerdict(code).Ok?
      && IsRun(code, [0, 4])
      && !LegalSomewhere(code, 4)
  {
    var code: seq<byte> := [0xa7, 0x00, 0x04, 0x10, 0x10];
    assert I16At(code, 1) == 4;
    assert Legal(code, 0, 3);
    assert Legal(code, 3, 5);
    VerdictStep(code, 0, 3);
    VerdictStep(code, 3, 5);
    assert Step(code, 0, 4);
  }

  // ---- exactly what the filter passes ------------------------------------

  /** `jsr`, `ret`, `jsr_w` and the wide `ret`. */
  predicate IsSubroutine(code: seq<byte>, pc: nat) {
    && pc < |code|
    && (code[pc] in [0xa8, 0xa9, 0xc9]
        || (code[pc] == 0xc4 && pc + 1 < |code| && code[pc + 1] == 0xa9))
  }

  /** Targets that lie inside the code read. */
  lemma {:induction false} LegalTargetsRead(code: seq<byte>, pc: nat, first: nat, pairs: bool, count: nat)
    requires first + (if pairs then 8 else 4) * count <= |code| + (if pairs then 4 else 0)
    ensures SwitchTargets(code, pc, first, pairs, count).Some?
  {
    if count > 0 {
      LegalTargetsRead(code, pc, first, pairs, count - 1);
    }
  }

  lemma LegalSwitchScans(code: seq<byte>, pc: nat, end: nat)
    requires Legal(code, pc, end) && (code[pc] == 0xaa || code[pc] == 0xab)
    ensures ScanSwitch(code, pc).Some?
  {
    var base, pairs := SwitchBase(pc), code[pc] != 0xaa;
    LegalTargetsRead(code, pc, base + 12, pairs, SwitchCount(code, pc).value);
  }

  /** The filter reads every legal instruction but those of subroutines. */
  lemma ScansExactlyTheOthers(code: seq<byte>, pc: nat, end: nat)
    requires Legal(code, pc, end)
    ensures ScanAt(code, pc).Some? <==> !IsSubroutine(code, pc)
  {
    if code[pc] == 0xaa || code[pc] == 0xab {
      LegalSwitchScans(code, pc, end);
    }
  }

  lemma {:induction false} EntryIsTarget(code: seq<byte>, pc: nat, first: nat, pairs: bool, count: nat, t: int)
    requires SwitchTargets(code, pc, first, pairs, count).Some?
    requires t in SwitchTargets(code, pc, first, pairs, count).value
    ensures exists i :: 0 <= i < count && TargetAt(first, pairs, i) + 4 <= |code|
                     && t == pc + I32At(code, TargetAt(first, pairs, i))
  {
    if t in SwitchTargets(code, pc, first, pairs, count - 1).value {
      EntryIsTarget(code, pc, first, pairs, count - 1, t);
    } else {
      assert t == pc + I32At(code, TargetAt(first, pairs, count - 1));
    }
  }

  /** What the filter takes for a target is a place the instruction may jump to. */
  lemma ScannedIsJump(code: seq<byte>, pc: nat, end: nat, t: int)
    requires Legal(code, pc, end) && ScanAt(code, pc).Some? && t in ScanAt(code, pc).value.targets
    ensures Jumps(code, pc, t)
  {
    if code[pc] == 0xaa || code[pc] == 0xab {
      var base, count := SwitchBase(pc), SwitchCount(code, pc).value;
      var pairs := code[pc] != 0xaa;
      if t != pc + I32At(code, base) {
        EntryIsTarget(code, pc, base + 12, pairs, count, t);
      }
    }
  }

  /** Every instruction `cuts` delimits is none of a subroutine's, and all the
      places it may jump to are later cuts inside the code. */
  ghost predicate OnlyForward(code: seq<byte>, cuts: seq<nat>)
    requires Tiles(code, cuts, |code|)
  {
    forall k | 0 <= k < |cuts| - 1 ::
      && cuts[k] < |code| && !IsSubroutine(code, cuts[k])
      && forall t: int | Jumps(code, cuts[k], t) :: cuts[k] < t < |code| && t in cuts
  }

  lemma {:induction false} TargetIsSomeones(code: seq<byte>, cuts: seq<nat>, t: int) returns (k: nat)
    requires t in AllTargets(code, cuts)
    ensures k < |cuts| - 1 && cuts[k] < |code| && ScanAt(code, cuts[k]).Some?
    ensures t in ScanAt(code, cuts[k]).value.targets
    decreases |cuts|
  {
    if t in AllTargets(code, cuts[..|cuts| - 1]) {
      k := TargetIsSomeones(code, cuts[..|cuts| - 1], t);
    } else {
      k := |cuts| - 2;
    }
  }

  lemma ForwardCutScans(code: seq<byte>, cuts: seq<nat>, k: nat)
    requires Tiles(code, cuts, |code|) && OnlyForward(code, cuts) && k < |cuts| - 1
    ensures ScanStep(code, cuts[k], cuts[k + 1])
  {
    LegalCutSteps(code, cuts, k);
    ScansExactlyTheOthers(code, cuts[k], cuts[k + 1]);
    DecodersAgree(code, cuts[k], cuts[k + 1]);
    ForwardJumps(code, cuts[k], cuts[k + 1], ScanAt(code, cuts[k]).value.targets);
  }

  lemma ForwardJumps(code: seq<byte>, pc: nat, end: nat, targets: seq<int>)
    requires Legal(code, pc, end) && ScanAt(code, pc).Some? && targets == ScanAt(code, pc).value.targets
    requires forall t: int | Jumps(code, pc, t) :: pc < t
    ensures Forward(pc, targets)
  {
    forall t: int | t in targets
      ensures t > pc
    {
      ScannedIsJump(code, pc, end, t);
      assert Jumps(code, pc, t);
    }
  }

  lemma ForwardTargetLands(code: seq<byte>, cuts: seq<nat>, t: int)
    requires Tiles(code, cuts, |code|) && OnlyForward(code, cuts) && t in AllTargets(code, cuts)
    ensures 0 <= t < |code| && t in cuts
  {
    var k := TargetIsSomeones(code, cuts, t);
    LegalCutSteps(code, cuts, k);
    ScannedIsJump(code, cuts[k], cuts[k + 1], t);
  }

  lemma PassedCutIsForward(code: seq<byte>, cuts: seq<nat>, k: nat)
    requires Tiles(code, cuts, |code|) && ForwardTiled(code, cuts) && k < |cuts| - 1
    ensures cuts[k] < |code| && !IsSubroutine(code, cuts[k])
    ensures forall t: int | Jumps(code, cuts[k], t) :: cuts[k] < t < |code| && t in cuts
  {
    LegalCutSteps(code, cuts, k);
    CutSteps(code, cuts, k);
    ScansExactlyTheOthers(code, cuts[k], cuts[k + 1]);
    forall t: int | Jumps(code, cuts[k], t)
      ensures cuts[k] < t < |code| && t in cuts
    {
      JumpIsInside(code, cuts[k], cuts[k + 1], t);
      DecodersAgree(code, cuts[k], cuts[k + 1]);
      TargetsCollected(code, cuts, k, t);
    }
  }

  lemma JumpIsInside(code: seq<byte>, pc: nat, end: nat, t: int)
    requires Legal(code, pc, end) && Jumps(code, pc, t)
    ensures 0 <= t < |code|
  {
  }

  /** Of code that `check_code` accepts, the filter passes exactly what has no
      subroutine and jumps only ahead, to instructions. */
  lemma PassesExactlyForwardCode(code: seq<byte>, cuts: seq<nat>)
    requires Tiles(code, cuts, |code|)
    ensures (exists full :: ForwardTiled(code, full)) <==> OnlyForward(code, cuts)
  {
    if full :| ForwardTiled(code, full) {
      BoundariesCoincide(code, cuts, full);
      forall k | 0 <= k < |cuts| - 1
        ensures cuts[k] < |code| && !IsSubroutine(code, cuts[k])
        ensures forall t: int | Jumps(code, cuts[k], t) :: cuts[k] < t < |code| && t in cuts
      {
        PassedCutIsForward(code, cuts, k);
      }
    }
    if OnlyForward(code, cuts) {
      forall k | 0 <= k < |cuts| - 1
        ensures ScanStep(code, cuts[k], cuts[k + 1])
      {
        ForwardCutScans(code, cuts, k);
      }
      forall t | t in AllTargets(code, cuts)
        ensures 0 <= t < |code| && t in cuts
      {
        ForwardTargetLands(code, cuts, t);
      }
      assert ForwardTiled(code, cuts);
    }
  }
}
