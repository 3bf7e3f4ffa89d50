/** `check_super_chains` of `crates/class-link/src/section.rs`: every superclass
    chain must leave the set. */
module SuperChains {
  import opened Bytes
  import Reachability

  /** Superclass of each class of the set: its position, or `None` outside it. */
  type Supers = seq<Option<nat>>

  /** Every superclass in the set is a class of the set. */
  ghost predicate Closed(s: Supers) {
    forall i | 0 <= i < |s| && s[i].Some? :: s[i].value < |s|
  }

  /** The `k`th ancestor of class `i`, if the chain is still in the set there. */
  function Ancestor(s: Supers, i: nat, k: nat): (r: Option<nat>)
    requires Closed(s) && i < |s|
    ensures r.Some? ==> r.value < |s|
  {
    if k == 0 then Some(i)
    else
      match Ancestor(s, i, k - 1)
      case None => None
      case Some(j) => s[j]
  }

  ghost predicate NeverLeaves(s: Supers, i: nat)
    requires Closed(s) && i < |s|
  {
    forall k: nat :: Ancestor(s, i, k).Some?
  }

  /** Some class is its own proper ancestor. */
  ghost predicate HasCycle(s: Supers)
    requires Closed(s)
  {
    exists i: nat, k: nat :: i < |s| && k > 0 && Ancestor(s, i, k) == Some(i)
  }

  /** What the check must answer: the least class whose chain never leaves. */
  ghost function Verdict(s: Supers, i: nat): Result<()>
    requires Closed(s) && i <= |s|
    decreases |s| - i
  {
    if i == |s| then Ok(())
    else if NeverLeaves(s, i) then Err(SuperCycle(AsU16(i)))
    else Verdict(s, i + 1)
  }

  // ---- pigeonhole --------------------------------------------------------

  function SetUpTo(n: nat): (s: set<nat>)
    ensures |s| == n && forall k: nat :: k in s <==> k < n
  {
    if n == 0 then {} else SetUpTo(n - 1) + {n - 1}
  }

  /** Distinct numbers below `bound` are at most `bound` many. */
  lemma {:induction false} FewDistinct(s: seq<nat>, bound: nat) returns (members: set<nat>)
    requires forall i | 0 <= i < |s| :: s[i] < bound
    requires forall i, j | 0 <= i < j < |s| :: s[i] != s[j]
    ensures |s| <= bound
    ensures |members| == |s| && forall x :: x in members <==> x in s
  {
    if s == [] {
      members := {};
    } else {
      var front := s[..|s| - 1];
      var rest := FewDistinct(front, bound);
      members := rest + {s[|s| - 1]};
      assert forall x :: x in s <==> x in front || x == s[|s| - 1];
      var all := SetUpTo(bound);
      assert members <= all;
      Reachability.SetSize(members, all);
    }
  }

  /** As many distinct numbers below `|s|` as there can be: all of them. */
  lemma AllMet(s: seq<nat>, x: nat)
    requires forall i | 0 <= i < |s| :: s[i] < |s|
    requires forall i, j | 0 <= i < j < |s| :: s[i] != s[j]
    requires x < |s|
    ensures x in s
  {
    if x !in s {
      var members := FewDistinct(s + [x], |s|);
    }
  }

  /** More numbers below `bound` than `bound`: two of them are equal. */
  lemma TwoEqual(s: seq<nat>, bound: nat) returns (i: nat, j: nat)
    requires forall k | 0 <= k < |s| :: s[k] < bound
    requires |s| > bound
    ensures i < j < |s| && s[i] == s[j]
  {
    if forall a, b | 0 <= a < b < |s| :: s[a] != s[b] {
      var members := FewDistinct(s, bound);
    }
    i, j :| 0 <= i < j < |s| && s[i] == s[j];
  }

  // ---- chains ------------------------------------------------------------

  lemma {:induction false} AncestorOfAncestor(s: Supers, i: nat, a: nat, b: nat)
    requires Closed(s) && i < |s| && Ancestor(s, i, a).Some?
    ensures Ancestor(s, i, a + b) == Ancestor(s, Ancestor(s, i, a).value, b)
    decreases b
  {
    if b > 0 {
      AncestorOfAncestor(s, i, a, b - 1);
      assert a + b - 1 == a + (b - 1);
    }
  }

  lemma {:induction false} LeftStaysLeft(s: Supers, i: nat, a: nat, b: nat)
    requires Closed(s) && i < |s| && Ancestor(s, i, a).None? && a <= b
    ensures Ancestor(s, i, b).None?
    decreases b
  {
    if a < b {
      LeftStaysLeft(s, i, a, b - 1);
    }
  }

  lemma {:induction false} CycleNeverLeaves(s: Supers, i: nat, k: nat, n: nat)
    requires Closed(s) && i < |s| && k > 0 && Ancestor(s, i, k) == Some(i)
    ensures Ancestor(s, i, n).Some?
    decreases n
  {
    if Ancestor(s, i, n).None? {
      if n <= k {
        LeftStaysLeft(s, i, n, k);
      } else {
        AncestorOfAncestor(s, i, k, n - k);
        CycleNeverLeaves(s, i, k, n - k);
      }
    }
  }

  /** A chain of more than `|s|` steps has met a class twice. */
  lemma LongChainCycles(s: Supers, i: nat, steps: nat) returns (c: nat, period: nat)
    requires Closed(s) && i < |s| && steps >= |s| && Ancestor(s, i, steps).Some?
    ensures c < |s| && period > 0 && Ancestor(s, c, period) == Some(c)
    ensures NeverLeaves(s, i)
  {
    forall k: nat | k <= steps
      ensures Ancestor(s, i, k).Some?
    {
      if Ancestor(s, i, k).None? {
        LeftStaysLeft(s, i, k, steps);
      }
    }
    var met := seq(|s| + 1, k requires 0 <= k <= |s| => Ancestor(s, i, k).value);
    var a, b := TwoEqual(met, |s|);
    c, period := met[a], b - a;
    AncestorOfAncestor(s, i, a, b - a);
    forall n: nat
      ensures Ancestor(s, i, n).Some?
    {
      if n > a {
        AncestorOfAncestor(s, i, a, n - a);
        CycleNeverLeaves(s, c, period, n - a);
      }
    }
  }

  // ---- the source's loops ------------------------------------------------

  /** `check_super_chains` */
  method CheckSuperChains(s: Supers) returns (r: Result<()>)
    requires Closed(s)
    ensures r == Verdict(s, 0)
  {
    var n := |s|;
    var i := 0;
    while i < n
      invariant 0 <= i <= n
      invariant Verdict(s, 0) == Verdict(s, i)
    {
      var cur := i;
      var steps: nat := 0;
      while s[cur].Some?
        invariant cur < n && steps <= n
        invariant Ancestor(s, i, steps) == Some(cur)
        decreases n - steps
      {
        var sup := s[cur].value;
        steps := steps + 1;
        if steps > n {
          var c, period := LongChainCycles(s, i, steps);
          return Err(SuperCycle(AsU16(i)));
        }
        cur := sup;
      }
      assert Ancestor(s, i, steps + 1).None?;
      i := i + 1;
    }
    return Ok(());
  }

  // ---- what it establishes -----------------------------------------------

  lemma {:induction false} VerdictOk(s: Supers, i: nat)
    requires Closed(s) && i <= |s|
    ensures Verdict(s, i).Ok? <==> forall j | i <= j < |s| :: !NeverLeaves(s, j)
    ensures Verdict(s, i).Err? ==>
      exists j | i <= j < |s| ::
        && Verdict(s, i) == Err(SuperCycle(AsU16(j)))
        && NeverLeaves(s, j) && forall k | i <= k < j :: !NeverLeaves(s, k)
    decreases |s| - i
  {
    if i < |s| && !NeverLeaves(s, i) {
      VerdictOk(s, i + 1);
    }
  }

  /** The check passes exactly the sets without a cycle. */
  lemma PassesExactlyAcyclic(s: Supers)
    requires Closed(s)
    ensures Verdict(s, 0).Ok? <==> !HasCycle(s)
  {
    VerdictOk(s, 0);
    if HasCycle(s) {
      var i: nat, k: nat :| i < |s| && k > 0 && Ancestor(s, i, k) == Some(i);
      forall n: nat
        ensures Ancestor(s, i, n).Some?
      {
        CycleNeverLeaves(s, i, k, n);
      }
      assert NeverLeaves(s, i);
    }
    if j :| 0 <= j < |s| && NeverLeaves(s, j) {
      assert Ancestor(s, j, |s|).Some?;
      var c, period := LongChainCycles(s, j, |s|);
      assert HasCycle(s);
    }
  }

  /** A refusal names the least class whose chain never leaves the set. */
  lemma RefusalNamesLeast(s: Supers)
    requires Closed(s) && Verdict(s, 0).Err?
    ensures exists j | 0 <= j < |s| ::
      && Verdict(s, 0) == Err(SuperCycle(AsU16(j)))
      && NeverLeaves(s, j) && forall k | 0 <= k < j :: !NeverLeaves(s, k)
  {
    VerdictOk(s, 0);
  }
}
