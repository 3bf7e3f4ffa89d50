/** Runs of any step relation: all of them stay in a finite set exactly when no
    step leaves it from what as many steps as it has members reach. */
module Reachability {
  type Steps<!T> = (T, T) -> bool

  /** `run` starts at `start` and takes a step between neighbours. */
  ghost predicate IsRunOf<T(!new)>(step: Steps<T>, start: T, run: seq<T>) {
    && |run| > 0
    && run[0] == start
    && forall k | 0 <= k < |run| - 1 :: step(run[k], run[k + 1])
  }

  /** Every position of `run` is allowed. */
  ghost predicate StaysIn<T(!new)>(run: seq<T>, allowed: set<T>) { forall k | 0 <= k < |run| :: run[k] in allowed }

  /** The allowed positions that `n` steps through allowed positions reach. */
  ghost function Reach<T(!new)>(step: Steps<T>, start: T, allowed: set<T>, n: nat): set<T> {
    Iterate(Further(step, allowed), start, n)
  }

  ghost function Further<T(!new)>(step: Steps<T>, allowed: set<T>): set<T> -> set<T> {
    from => OneFurther(step, allowed, from)
  }

  ghost function OneFurther<T(!new)>(step: Steps<T>, allowed: set<T>, from: set<T>): set<T> {
    from + set next | next in allowed && StepFrom(step, from, next)
  }

  ghost predicate StepFrom<T(!new)>(step: Steps<T>, from: set<T>, next: T) { exists p :: p in from && step(p, next) }

  /** No step leads from what is reached to what is not allowed. */
  ghost predicate KeepsIn<T(!new)>(step: Steps<T>, start: T, allowed: set<T>) {
    forall p, next | p in Reach(step, start, allowed, |allowed|) && step(p, next) :: next in allowed
  }

  // ---- iterating a growing function --------------------------------------

  /** `f` applied `n` times to the set of the start alone. */
  ghost function Iterate<T(!new)>(f: set<T> -> set<T>, start: T, n: nat): set<T> {
    if n == 0 then {start} else f(Iterate(f, start, n - 1))
  }

  ghost predicate Grows<T(!new)>(f: set<T> -> set<T>) { forall s :: s <= f(s) }

  ghost predicate StaysWithin<T(!new)>(f: set<T> -> set<T>, bound: set<T>) { forall s | s <= bound :: f(s) <= bound }

  lemma {:induction false} IterateWithin<T(!new)>(f: set<T> -> set<T>, start: T, bound: set<T>, n: nat)
    requires StaysWithin(f, bound) && start in bound
    ensures Iterate(f, start, n) <= bound
  {
    if n > 0 {
      IterateWithin(f, start, bound, n - 1);
    }
  }

  lemma {:induction false} IterateMore<T(!new)>(f: set<T> -> set<T>, start: T, n: nat, m: nat)
    requires Grows(f) && n <= m
    ensures Iterate(f, start, n) <= Iterate(f, start, m)
    decreases m
  {
    if n < m {
      IterateMore(f, start, n, m - 1);
    }
  }

  lemma {:induction false} IterateStable<T(!new)>(f: set<T> -> set<T>, start: T, n: nat, m: nat)
    requires n <= m && f(Iterate(f, start, n)) == Iterate(f, start, n)
    ensures Iterate(f, start, m) == Iterate(f, start, n)
    decreases m
  {
    if m > n {
      IterateStable(f, start, n, m - 1);
    }
  }

  lemma {:induction false} StableOrLarge<T(!new)>(f: set<T> -> set<T>, start: T, n: nat) returns (stable: bool, at: nat)
    requires Grows(f)
    ensures if stable then at < n && f(Iterate(f, start, at)) == Iterate(f, start, at) else |Iterate(f, start, n)| > n
  {
    stable, at := false, 0;
    if n > 0 {
      stable, at := StableOrLarge(f, start, n - 1);
      if !stable {
        var before := Iterate(f, start, n - 1);
        at := n - 1;
        stable := f(before) == before;
        if !stable {
          LargerSet(before, f(before));
        }
      }
    }
  }

  lemma LargerSet<T>(a: set<T>, b: set<T>)
    requires a <= b && a != b
    ensures |a| < |b|
  {
    var x :| x in b && x !in a;
    assert |a + {x}| == |a| + 1;
    SetSize(a + {x}, b);
  }

  lemma {:induction false} SetSize<T>(a: set<T>, b: set<T>)
    requires a <= b
    ensures |a| <= |b|
  {
    if a != {} {
      var x :| x in a;
      SetSize(a - {x}, b - {x});
    }
  }

  /** As many applications as the bound has members reach all that any number
      reaches. */
  lemma IterateComplete<T(!new)>(f: set<T> -> set<T>, start: T, bound: set<T>, n: nat)
    requires Grows(f) && StaysWithin(f, bound) && start in bound
    ensures Iterate(f, start, n) <= Iterate(f, start, |bound|)
  {
    var stable, at := StableOrLarge(f, start, |bound|);
    IterateWithin(f, start, bound, |bound|);
    if !stable {
      SetSize(Iterate(f, start, |bound|), bound);
    } else if n >= at {
      IterateStable(f, start, at, |bound|);
      IterateStable(f, start, at, n);
    } else {
      IterateMore(f, start, n, |bound|);
    }
  }

  lemma FurtherGrows<T(!new)>(step: Steps<T>, allowed: set<T>)
    ensures Grows(Further(step, allowed)) && StaysWithin(Further(step, allowed), allowed)
  {
  }

  lemma ReachAllowed<T(!new)>(step: Steps<T>, start: T, allowed: set<T>, n: nat)
    requires start in allowed
    ensures Reach(step, start, allowed, n) <= allowed
  {
    FurtherGrows(step, allowed);
    IterateWithin(Further(step, allowed), start, allowed, n);
  }

  lemma ReachComplete<T(!new)>(step: Steps<T>, start: T, allowed: set<T>, n: nat)
    requires start in allowed
    ensures Reach(step, start, allowed, n) <= Reach(step, start, allowed, |allowed|)
  {
    FurtherGrows(step, allowed);
    IterateComplete(Further(step, allowed), start, allowed, n);
  }

  lemma ReachNext<T(!new)>(step: Steps<T>, start: T, allowed: set<T>, n: nat)
    requires n > 0
    ensures Reach(step, start, allowed, n) == OneFurther(step, allowed, Reach(step, start, allowed, n - 1))
  {
  }

  // ---- runs and reachable positions --------------------------------------

  ghost predicate RunsTo<T(!new)>(step: Steps<T>, start: T, run: seq<T>, p: T) {
    IsRunOf(step, start, run) && run[|run| - 1] == p
  }

  /** Some run ends at `p`. */
  ghost predicate Arrives<T(!new)>(step: Steps<T>, start: T, p: T) { exists run :: RunsTo(step, start, run, p) }

  lemma {:induction false} ReachedArrives<T(!new)>(step: Steps<T>, start: T, allowed: set<T>, n: nat)
    ensures forall p | p in Reach(step, start, allowed, n) :: Arrives(step, start, p)
  {
    if n == 0 {
      assert RunsTo(step, start, [start], start);
    } else {
      ReachedArrives(step, start, allowed, n - 1);
      FurtherArrives(step, start, allowed, Reach(step, start, allowed, n - 1));
    }
  }

  lemma FurtherArrives<T(!new)>(step: Steps<T>, start: T, allowed: set<T>, from: set<T>)
    requires forall p | p in from :: Arrives(step, start, p)
    ensures forall p | p in OneFurther(step, allowed, from) :: Arrives(step, start, p)
  {
    forall p | p in OneFurther(step, allowed, from)
      ensures Arrives(step, start, p)
    {
      if p !in from {
        var before :| before in from && step(before, p);
        var run :| RunsTo(step, start, run, before);
        var longer := RunOn(step, start, run, before, p);
      }
    }
  }

  lemma RunOn<T(!new)>(step: Steps<T>, start: T, run: seq<T>, p: T, next: T) returns (longer: seq<T>)
    requires RunsTo(step, start, run, p) && step(p, next)
    ensures RunsTo(step, start, longer, next)
  {
    longer := run + [next];
    forall k | 0 <= k < |longer| - 1
      ensures step(longer[k], longer[k + 1])
    {
      if k < |run| - 1 {
        assert longer[k] == run[k] && longer[k + 1] == run[k + 1];
      }
    }
  }

  lemma {:induction false} RunIsReached<T(!new)>(step: Steps<T>, start: T, allowed: set<T>, run: seq<T>, k: nat)
    requires start in allowed && KeepsIn(step, start, allowed) && IsRunOf(step, start, run) && k < |run|
    ensures run[k] in Reach(step, start, allowed, k) && run[k] in allowed
  {
    if k > 0 {
      RunIsReached(step, start, allowed, run, k - 1);
      ReachNext(step, start, allowed, k);
      ReachComplete(step, start, allowed, k - 1);
      assert step(run[k - 1], run[k]);
      assert StepFrom(step, Reach(step, start, allowed, k - 1), run[k]);
    }
  }

  /** Every run stays where it is allowed exactly when no step leaves it from
      the positions that finitely many steps through it reach. */
  lemma RunsStayExactly<T(!new)>(step: Steps<T>, start: T, allowed: set<T>)
    requires start in allowed
    ensures (forall run | IsRunOf(step, start, run) :: StaysIn(run, allowed)) <==> KeepsIn(step, start, allowed)
  {
    if KeepsIn(step, start, allowed) {
      forall run | IsRunOf(step, start, run)
        ensures StaysIn(run, allowed)
      {
        forall k | 0 <= k < |run|
          ensures run[k] in allowed
        {
          RunIsReached(step, start, allowed, run, k);
        }
      }
    } else {
      var p, next :| p in Reach(step, start, allowed, |allowed|) && step(p, next) && next !in allowed;
      ReachedArrives(step, start, allowed, |allowed|);
      var run :| RunsTo(step, start, run, p);
      var longer := RunOn(step, start, run, p, next);
      assert longer[|longer| - 1] !in allowed;
      assert !StaysIn(longer, allowed);
    }
  }
}
