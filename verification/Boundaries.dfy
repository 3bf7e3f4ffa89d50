/** Where runs of code that `check_code` accepts may go when nothing else has
    filtered it: exactly which codes keep every run on instruction boundaries,
    exactly which keep every operand a run reads inside the code, and exactly
    which keep every instruction a run meets legal. */
module Boundaries {
  import opened Bytes
  import opened Bytecode
  import opened Interp
  import opened Reachability

  // ---- boundaries --------------------------------------------------------

  ghost function StepsOf(code: seq<byte>): Steps<int> { (p, next) => 0 <= p && 0 <= next && Step(code, p, next) }

  /** A run of the code is a run of its steps; its positions are never negative. */
  lemma RunOfSteps(code: seq<byte>, run: seq<int>) returns (same: seq<nat>)
    requires IsRunOf(StepsOf(code), 0, run)
    ensures same == run && IsRun(code, same)
  {
    forall k | 0 <= k < |run|
      ensures run[k] >= 0
    {
      if k > 0 {
        assert StepsOf(code)(run[k - 1], run[(k - 1) + 1]);
      }
    }
    same := run;
    forall k | 0 <= k < |same| - 1
      ensures Step(code, same[k], same[k + 1])
    {
      assert StepsOf(code)(run[k], run[k + 1]);
    }
  }

  lemma StepsOfRun(code: seq<byte>, run: seq<nat>)
    requires IsRun(code, run)
    ensures IsRunOf(StepsOf(code), 0, run)
  {
    var same: seq<int> := run;
    forall k | 0 <= k < |same| - 1
      ensures StepsOf(code)(same[k], same[k + 1])
    {
      assert Step(code, run[k], run[k + 1]);
    }
  }

  lemma RunsOfCodeStayExactly(code: seq<byte>, allowed: set<int>)
    requires 0 in allowed
    ensures (forall run: seq<nat> | IsRun(code, run) :: StaysIn(run, allowed)) <==> KeepsIn(StepsOf(code), 0, allowed)
  {
    RunsStayExactly(StepsOf(code), 0, allowed);
    if KeepsIn(StepsOf(code), 0, allowed) {
      forall run: seq<nat> | IsRun(code, run)
        ensures StaysIn(run, allowed)
      {
        StepsOfRun(code, run);
      }
    }
    if forall run: seq<nat> | IsRun(code, run) :: StaysIn(run, allowed) {
      forall run | IsRunOf(StepsOf(code), 0, run)
        ensures StaysIn(run, allowed)
      {
        var same := RunOfSteps(code, run);
        assert StaysIn(same, allowed);
      }
    }
  }

  ghost function CutSet(cuts: seq<nat>): set<int> { set p | p in cuts }

  /** The boundaries that steps from boundary to boundary reach from the start. */
  ghost function ReachedCuts(code: seq<byte>, cuts: seq<nat>): set<int> {
    Reach(StepsOf(code), 0, CutSet(cuts), |CutSet(cuts)|)
  }

  /** Every place the instruction at `p` may jump to is a boundary. */
  ghost predicate JumpsToCuts(code: seq<byte>, cuts: seq<nat>, p: nat) {
    p < |code| ==> forall t: nat | Jumps(code, p, t) :: t in cuts
  }

  /** Every run of an accepted code stays on its instruction boundaries exactly
      when each boundary reached through boundaries has only boundaries for its
      targets: the step to the next instruction never leaves them. */
  lemma RunsStayOnBoundariesExactly(code: seq<byte>, cuts: seq<nat>)
    requires Tiles(code, cuts, |code|)
    ensures (forall run: seq<nat> | IsRun(code, run) :: StaysIn(run, CutSet(cuts))) <==>
            forall p: nat | p in ReachedCuts(code, cuts) :: JumpsToCuts(code, cuts, p)
  {
    var allowed := CutSet(cuts);
    assert cuts[0] in allowed;
    RunsOfCodeStayExactly(code, allowed);
    ReachAllowed(StepsOf(code), 0, allowed, |allowed|);
    forall p: nat, next: nat | p in ReachedCuts(code, cuts) && Step(code, p, next)
      ensures next in cuts || Jumps(code, p, next)
    {
      var k :| 0 <= k < |cuts| && cuts[k] == p;
      StepOrCut(code, cuts, k, next);
    }
    if forall p: nat | p in ReachedCuts(code, cuts) :: JumpsToCuts(code, cuts, p) {
      forall p, next | p in ReachedCuts(code, cuts) && StepsOf(code)(p, next)
        ensures next in allowed
      {
        assert JumpsToCuts(code, cuts, p);
      }
    }
    if KeepsIn(StepsOf(code), 0, allowed) {
      forall p: nat | p in ReachedCuts(code, cuts)
        ensures JumpsToCuts(code, cuts, p)
      {
        forall t: nat | p < |code| && Jumps(code, p, t)
          ensures t in cuts
        {
          assert StepsOf(code)(p, t);
        }
      }
    }
  }

  lemma StepOrCut(code: seq<byte>, cuts: seq<nat>, k: nat, next: nat)
    requires Tiles(code, cuts, |code|) && k < |cuts| && Step(code, cuts[k], next)
    ensures next in cuts || Jumps(code, cuts[k], next)
  {
    LegalCutSteps(code, cuts, k);
    if !Jumps(code, cuts[k], next) {
      assert Legal(code, cuts[k], cuts[k + 1]);
      assert next == cuts[k + 1];
    }
  }

  /** So code whose every target is a boundary keeps every run on boundaries,
      whether or not it ends; backward branches and subroutines included. */
  lemma BoundaryTargetsKeepRuns(code: seq<byte>, cuts: seq<nat>, run: seq<nat>)
    requires Tiles(code, cuts, |code|) && IsRun(code, run)
    requires forall p | p in cuts :: JumpsToCuts(code, cuts, p)
    ensures StaysIn(run, CutSet(cuts))
    ensures forall k | 0 <= k < |run| && run[k] < |code| :: LegalSomewhere(code, run[k])
  {
    var allowed := CutSet(cuts);
    assert cuts[0] in allowed;
    ReachAllowed(StepsOf(code), 0, allowed, |allowed|);
    RunsStayOnBoundariesExactly(code, cuts);
    forall k | 0 <= k < |run| && run[k] < |code|
      ensures LegalSomewhere(code, run[k])
    {
      assert run[k] in allowed;
      var m :| 0 <= m < |cuts| && cuts[m] == run[k];
      LegalCutSteps(code, cuts, m);
    }
  }

  /** Boundaries can be kept by code that never ends: `goto` to itself. */
  lemma BoundariesWithoutEnd()
    ensures var code := [0xa7, 0x00, 0x00];
      && CodeVerdict(code).Ok? && Tiles(code, [0, 3], 3)
      && (forall run: seq<nat> | IsRun(code, run) :: StaysIn(run, CutSet([0, 3])))
      && !exists full :: ForwardTiled(code, full)
  {
    var code: seq<byte> := [0xa7, 0x00, 0x00];
    var cuts: seq<nat> := [0, 3];
    assert I16At(code, 1) == 0;
    assert Legal(code, 0, 3);
    VerdictStep(code, 0, 3);
    forall run: seq<nat> | IsRun(code, run)
      ensures StaysIn(run, CutSet(cuts))
    {
      BoundaryTargetsKeepRuns(code, cuts, run);
    }
    assert ScanAt(code, 0) == Some(Scan(3, [0]));
    assert 0 in ScanAt(code, 0).value.targets;
    assert Scanned(code, [0], 0);
    StuckScan(code, [0], 0);
  }

  // ---- operands ----------------------------------------------------------

  /** Past the last byte the instruction at `pc` may read, whatever its values
      are; `None` when that is outside the code. A switch may read its table, as
      long as its header says: an empty range has none, and a negative pair count
      is, as a `usize`, past any code. An opcode with no format reads nothing
      more. */
  function Extent(code: seq<byte>, pc: nat): (end: Option<nat>)
    requires pc < |code|
    ensures end.Some? ==> pc < end.value <= |code|
  {
    match FormatOf(code[pc])
    case Plain(n) => Within(code, pc + 1 + n)
    case Branch16 => Within(code, pc + 3)
    case Branch32 => Within(code, pc + 5)
    case InvokeInterface => Within(code, pc + 5)
    case InvokeDynamic => Within(code, pc + 5)
    case NewArray => Within(code, pc + 2)
    case MultiNewArray => Within(code, pc + 4)
    case TableSwitch =>
      var base := SwitchBase(pc);
      if base + 12 > |code| then None
      else
        var low, high := I32At(code, base + 4), I32At(code, base + 8);
        Within(code, base + 12 + if low <= high then 4 * (high - low + 1) else 0)
    case LookupSwitch =>
      var base := SwitchBase(pc);
      if base + 8 > |code| || I32At(code, base + 4) < 0 then None
      else Within(code, base + 8 + 8 * I32At(code, base + 4))
    case Wide =>
      if pc + 1 >= |code| then None else Within(code, pc + if code[pc + 1] == 0x84 then 6 else 4)
    case NotInClassFiles => Some(pc + 1)
  }

  function Within(code: seq<byte>, end: nat): Option<nat> { if end <= |code| then Some(end) else None }

  /** The interpreter refuses an opcode no class file may hold, and a `wide` that
      widens nothing: no step follows. */
  predicate Executes(code: seq<byte>, pc: nat)
    requires pc < |code|
  {
    match FormatOf(code[pc])
    case NotInClassFiles => false
    case Wide => pc + 1 < |code| && (Widenable(code[pc + 1]) || code[pc + 1] == 0x84)
    case _ => true
  }

  /** One step from any position, boundary or not, past operands that lie in the
      code but need not be legal. Outside the code there is none: the interpreter
      leaves the method there without reading. */
  ghost predicate FreeStep(code: seq<byte>, p: int, next: int) {
    && 0 <= p < |code| && Extent(code, p).Some? && Executes(code, p)
    && ((FallsThrough(code, p) && next == Extent(code, p).value) || Jumps(code, p, next))
  }

  ghost function FreeSteps(code: seq<byte>): Steps<int> { (p, next) => FreeStep(code, p, next) }

  /** Nothing outside the code is read at `p`. */
  ghost predicate ReadsInside(code: seq<byte>, p: int) { 0 <= p < |code| ==> Extent(code, p).Some? }

  /** The positions inside the code whose operands are. */
  ghost function WholeAt(code: seq<byte>): set<int> { set p: int | 0 <= p < |code| && Extent(code, p).Some? }

  /** The steps that do not leave the code. */
  ghost function InnerSteps(code: seq<byte>): Steps<int> {
    (p, next) => FreeStep(code, p, next) && 0 <= next < |code|
  }

  /** The positions that steps inside the code, from operands in the code to
      operands in the code, reach from the start. */
  ghost function ReachedWhole(code: seq<byte>): set<int> {
    Reach(InnerSteps(code), 0, WholeAt(code), |WholeAt(code)|)
  }

  /** A legal instruction's bytes are its extent. */
  lemma LegalHasExtent(code: seq<byte>, pc: nat, end: nat)
    requires Legal(code, pc, end)
    ensures Extent(code, pc) == Some(end) && Executes(code, pc)
  {
  }

  /** Every legal step is a free one. */
  lemma StepIsFree(code: seq<byte>, p: nat, next: nat)
    requires Step(code, p, next) && LegalSomewhere(code, p)
    ensures FreeStep(code, p, next)
  {
    var end :| Legal(code, p, end);
    LegalHasExtent(code, p, end);
    if !Jumps(code, p, next) {
      LegalHasExtent(code, p, next);
    }
  }

  /** Of a run, only the last position may be outside the code. */
  lemma InnerRun(code: seq<byte>, run: seq<int>, k: nat)
    requires IsRunOf(FreeSteps(code), 0, run) && k < |run| && 0 <= run[k] < |code|
    ensures IsRunOf(InnerSteps(code), 0, run[..k + 1])
  {
    var inner := run[..k + 1];
    forall j | 0 <= j < |inner| - 1
      ensures InnerSteps(code)(inner[j], inner[j + 1])
    {
      assert FreeSteps(code)(run[j], run[j + 1]);
      if j + 1 < k {
        assert FreeSteps(code)(run[j + 1], run[j + 2]);
      }
    }
  }

  lemma InnerIsFree(code: seq<byte>, run: seq<int>)
    requires IsRunOf(InnerSteps(code), 0, run)
    ensures IsRunOf(FreeSteps(code), 0, run)
    ensures |code| > 0 ==> forall k | 0 <= k < |run| :: 0 <= run[k] < |code|
  {
    forall k, next | 0 <= k < |run| - 1 && next == run[k + 1]
      ensures FreeSteps(code)(run[k], next) && 0 <= next < |code|
    {
      assert InnerSteps(code)(run[k], run[k + 1]);
    }
    forall k | 0 <= k < |run| && |code| > 0
      ensures 0 <= run[k] < |code|
    {
      if k > 0 {
        assert FreeSteps(code)(run[k - 1], run[(k - 1) + 1]);
      }
    }
  }

  /** The runs read only inside the code. */
  ghost predicate RunsReadInside(code: seq<byte>) {
    forall run | IsRunOf(FreeSteps(code), 0, run) :: forall k | 0 <= k < |run| :: ReadsInside(code, run[k])
  }

  lemma RunsReadInsideMeans(code: seq<byte>)
    requires |code| > 0
    ensures RunsReadInside(code) <==> forall run | IsRunOf(InnerSteps(code), 0, run) :: StaysIn(run, WholeAt(code))
  {
    if RunsReadInside(code) {
      forall run | IsRunOf(InnerSteps(code), 0, run)
        ensures StaysIn(run, WholeAt(code))
      {
        InnerIsFree(code, run);
        assert forall k | 0 <= k < |run| :: ReadsInside(code, run[k]);
      }
    }
    if forall run | IsRunOf(InnerSteps(code), 0, run) :: StaysIn(run, WholeAt(code)) {
      forall run | IsRunOf(FreeSteps(code), 0, run)
        ensures forall k | 0 <= k < |run| :: ReadsInside(code, run[k])
      {
        forall k | 0 <= k < |run|
          ensures ReadsInside(code, run[k])
        {
          if 0 <= run[k] < |code| {
            InnerRun(code, run, k);
            assert run[..k + 1][k] in WholeAt(code);
          }
        }
      }
    }
  }

  /** Every run of an accepted code, on boundaries or off them, reads only inside
      the code exactly when no step leads from a position so reached to one in
      the code whose operands are not. */
  lemma OperandsStayInsideExactly(code: seq<byte>)
    requires CodeVerdict(code).Ok?
    ensures RunsReadInside(code) <==>
            forall p, next | p in ReachedWhole(code) && FreeStep(code, p, next) :: ReadsInside(code, next)
  {
    AcceptsExactlyTiledCode(code);
    var cuts :| Tiles(code, cuts, |code|);
    LegalCutSteps(code, cuts, 0);
    LegalHasExtent(code, 0, cuts[1]);
    assert 0 in WholeAt(code);
    RunsReadInsideMeans(code);
    RunsStayExactly(InnerSteps(code), 0, WholeAt(code));
    ReadsKept(code);
  }

  lemma ReadsKept(code: seq<byte>)
    ensures KeepsIn(InnerSteps(code), 0, WholeAt(code)) <==>
            forall p, next | p in ReachedWhole(code) && FreeStep(code, p, next) :: ReadsInside(code, next)
  {
    if KeepsIn(InnerSteps(code), 0, WholeAt(code)) {
      forall p, next | p in ReachedWhole(code) && FreeStep(code, p, next)
        ensures ReadsInside(code, next)
      {
        if 0 <= next < |code| {
          assert InnerSteps(code)(p, next);
          assert next in WholeAt(code);
        }
      }
    }
    if forall p, next | p in ReachedWhole(code) && FreeStep(code, p, next) :: ReadsInside(code, next) {
      forall p, next | p in ReachedWhole(code) && InnerSteps(code)(p, next)
        ensures next in WholeAt(code)
      {
        assert FreeStep(code, p, next) && ReadsInside(code, next);
      }
    }
  }

  lemma LegalTargetInside(code: seq<byte>, pc: nat, end: nat, target: int)
    requires Legal(code, pc, end) && Jumps(code, pc, target)
    ensures 0 <= target < |code|
  {
  }

  /** From a legal instruction a free step is a step, and stays in the code. */
  lemma FreeStepIsLegal(code: seq<byte>, pc: nat, end: nat, next: int)
    requires Legal(code, pc, end) && FreeStep(code, pc, next)
    ensures 0 <= next <= |code| && (next == end || (next < |code| && Jumps(code, pc, next)))
  {
    LegalHasExtent(code, pc, end);
    if Jumps(code, pc, next) {
      LegalTargetInside(code, pc, end, next);
    }
  }

  /** Targets on boundaries keep every operand a run reads inside the code. */
  lemma BoundaryTargetsReadInside(code: seq<byte>, cuts: seq<nat>)
    requires Tiles(code, cuts, |code|)
    requires forall p | p in cuts :: JumpsToCuts(code, cuts, p)
    ensures RunsReadInside(code)
  {
    var allowed := CutSet(cuts);
    forall p, next | p in allowed && FreeSteps(code)(p, next)
      ensures next in allowed
    {
      var k :| 0 <= k < |cuts| && cuts[k] == p;
      LegalCutSteps(code, cuts, k);
      FreeStepIsLegal(code, cuts[k], cuts[k + 1], next);
      assert JumpsToCuts(code, cuts, cuts[k]);
    }
    forall run, k | IsRunOf(FreeSteps(code), 0, run) && 0 <= k < |run|
      ensures ReadsInside(code, run[k])
    {
      assert cuts[0] in allowed;
      RunStaysAmong(FreeSteps(code), 0, allowed, run, k);
      var m :| 0 <= m < |cuts| && cuts[m] == run[k];
      LegalCutSteps(code, cuts, m);
      if m < |cuts| - 1 {
        LegalHasExtent(code, cuts[m], cuts[m + 1]);
      }
    }
  }

  /** The claim fails of an accepted code: its run reaches a `bipush` whose
      operand is past the end. */
  lemma OperandPastTheEnd()
    ensures var code := [0xa7, 0x00, 0x04, 0x10, 0x10];
      CodeVerdict(code).Ok? && IsRunOf(FreeSteps(code), 0, [0, 4]) && Extent(code, 4).None? && !RunsReadInside(code)
  {
    var code: seq<byte> := [0xa7, 0x00, 0x04, 0x10, 0x10];
    CheckAloneLetsRunsLeaveBoundaries();
    assert I16At(code, 1) == 4;
    assert FreeSteps(code)(0, 4);
    var run: seq<int> := [0, 4];
    assert IsRunOf(FreeSteps(code), 0, run);
    assert !ReadsInside(code, run[1]);
  }

  // ---- legality ----------------------------------------------------------

  /** The positions where a legal instruction stands, and the end. */
  ghost function LegalAt(code: seq<byte>): set<int> {
    set p: int | 0 <= p <= |code| && (p == |code| || LegalSomewhere(code, p))
  }

  /** Every instruction any run meets is legal, its values and targets included,
      exactly when no step leads from a reached legal instruction to a place
      where none is. */
  lemma LegalityIsKeptExactly(code: seq<byte>)
    requires CodeVerdict(code).Ok?
    ensures (forall run: seq<nat> | IsRun(code, run) ::
               forall k | 0 <= k < |run| :: run[k] == |code| || LegalSomewhere(code, run[k]))
            <==> KeepsIn(StepsOf(code), 0, LegalAt(code))
  {
    AcceptsExactlyTiledCode(code);
    var cuts :| Tiles(code, cuts, |code|);
    LegalCutSteps(code, cuts, 0);
    var allowed := LegalAt(code);
    assert 0 in allowed;
    RunsOfCodeStayExactly(code, allowed);
    forall run: seq<nat> | IsRun(code, run)
      ensures StaysIn(run, allowed) <==> forall k | 0 <= k < |run| :: run[k] == |code| || LegalSomewhere(code, run[k])
    {
      forall k | 0 <= k < |run|
        ensures run[k] in allowed <==> run[k] == |code| || LegalSomewhere(code, run[k])
      {
        if LegalSomewhere(code, run[k]) {
          assert run[k] < |code|;
        }
      }
    }
  }

  /** Legality is more than operand safety: an accepted code jumps to a `newarray`
      of no type, whose one operand byte is inside the code, as all it reads is. */
  lemma SafeButNotLegal()
    ensures var code := [0xa7, 0x00, 0x04, 0x11, 0xbc, 0x00, 0xb1];
      && CodeVerdict(code).Ok? && RunsReadInside(code)
      && IsRun(code, [0, 4]) && !LegalSomewhere(code, 4)
  {
    var code: seq<byte> := [0xa7, 0x00, 0x04, 0x11, 0xbc, 0x00, 0xb1];
    TypelessArrayAccepted(code);
    TypelessArraySteps(code);
    forall run | IsRunOf(FreeSteps(code), 0, run)
      ensures forall k | 0 <= k < |run| :: ReadsInside(code, run[k])
    {
      forall k | 0 <= k < |run|
        ensures ReadsInside(code, run[k])
      {
        RunStaysAmong(FreeSteps(code), 0, {0, 4, 6}, run, k);
      }
    }
  }

  lemma TypelessArrayAccepted(code: seq<byte>)
    requires code == [0xa7, 0x00, 0x04, 0x11, 0xbc, 0x00, 0xb1]
    ensures CodeVerdict(code).Ok? && IsRun(code, [0, 4]) && !LegalSomewhere(code, 4)
  {
    assert I16At(code, 1) == 4;
    assert Legal(code, 0, 3) && Legal(code, 3, 6) && Legal(code, 6, 7);
    VerdictStep(code, 0, 3);
    VerdictStep(code, 3, 6);
    VerdictStep(code, 6, 7);
    assert Step(code, 0, 4);
  }

  lemma TypelessArraySteps(code: seq<byte>)
    requires code == [0xa7, 0x00, 0x04, 0x11, 0xbc, 0x00, 0xb1]
    ensures forall p | p in {0, 4, 6} :: ReadsInside(code, p)
    ensures forall p, next: int | p in {0, 4, 6} && FreeSteps(code)(p, next) :: next in {0, 4, 6}
  {
    assert I16At(code, 1) == 4;
    assert Extent(code, 0) == Some(3) && Extent(code, 4) == Some(6) && Extent(code, 6) == Some(7);
    forall p, next: int | p in {0, 4, 6} && FreeStep(code, p, next)
      ensures next in {0, 4, 6}
    {
    }
  }

  lemma {:induction false} RunStaysAmong(step: Steps<int>, start: int, closed: set<int>, run: seq<int>, k: nat)
    requires IsRunOf(step, start, run) && start in closed && k < |run|
    requires forall p, next | p in closed && step(p, next) :: next in closed
    ensures run[k] in closed
  {
    if k > 0 {
      RunStaysAmong(step, start, closed, run, k - 1);
      assert step(run[k - 1], run[(k - 1) + 1]);
    }
  }
}
