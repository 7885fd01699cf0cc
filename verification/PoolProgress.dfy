/**
 * Why the lock-free loops of `BytePool` end: a compare-and-set fails only because another call's has succeeded, and
 * each call succeeds at most twice. Once no new calls begin, the number of steps that can follow is bounded.
 */
module PoolProgress {
  import opened BytePool

  function Sum(xs: seq<nat>): nat {
    if xs == [] then 0 else Sum(xs[..|xs| - 1]) + xs[|xs| - 1]
  }

  /** One number changes in its own way, the others grow by at most `d`. */
  lemma {:induction false} SumBound(xs: seq<nat>, ys: seq<nat>, i: nat, d: nat)
    requires |xs| == |ys| && forall k :: 0 <= k < |xs| && k != i ==> ys[k] <= xs[k] + d
    ensures Sum(ys) <= Sum(xs) + d * |xs| + if i < |xs| then ys[i] - xs[i] - d else 0
  {
    if xs != [] {
      var n := |xs| - 1;
      SumBound(xs[..n], ys[..n], i, d);
      assert d * |xs| == d * n + d;
    }
  }

  // ----- how much a call still has to do -----

  /** Steps an `alloc` takes from here if its compare-and-set succeeds, and two more if it is bound to fail. */
  function AllocCost(a: Alloc, pool: int): nat {
    match a
    case Reading(_) => 4
    case Swapping(_, was) => if was == pool then 3 else 5
    case Storing(_, _) => 2
    case Checking(_, _, _) => 1
    case _ => 0
  }

  function ShrinkCost(c: Shrink, allocs: seq<Alloc>, pool: int): nat {
    match c.at
    case Comparing => 5
    case Loading => 4
    case GivingUp(was) => if IsAmount(allocs, c.alloc, was) then 3 else 5
    case Fetching(_) => 2
    case Returning(_, seen) => if seen == pool then 1 else 3
    case _ => 0
  }

  predicate IsAmount(allocs: seq<Alloc>, i: nat, was: int) {
    i < |allocs| && allocs[i].Owned? && allocs[i].amount == was
  }

  /** How often a call can still succeed with a compare-and-set. */
  function AllocCredit(a: Alloc): nat { if a.Reading? || a.Swapping? then 1 else 0 }

  function ShrinkCredit(c: Shrink): nat {
    match c.at
    case Comparing => 2
    case Loading => 2
    case GivingUp(_) => 2
    case Fetching(_) => 1
    case Returning(_, _) => 1
    case _ => 0
  }

  function AllocCosts(s: State): (xs: seq<nat>)
    ensures |xs| == |s.allocs| && forall k :: 0 <= k < |xs| ==> xs[k] == AllocCost(s.allocs[k], s.pool)
  {
    seq(|s.allocs|, k requires 0 <= k < |s.allocs| => AllocCost(s.allocs[k], s.pool))
  }

  function ShrinkCosts(s: State): (xs: seq<nat>)
    ensures |xs| == |s.shrinks| && forall k :: 0 <= k < |xs| ==> xs[k] == ShrinkCost(s.shrinks[k], s.allocs, s.pool)
  {
    seq(|s.shrinks|, k requires 0 <= k < |s.shrinks| => ShrinkCost(s.shrinks[k], s.allocs, s.pool))
  }

  function AllocCredits(s: State): (xs: seq<nat>)
    ensures |xs| == |s.allocs| && forall k :: 0 <= k < |xs| ==> xs[k] == AllocCredit(s.allocs[k])
  {
    seq(|s.allocs|, k requires 0 <= k < |s.allocs| => AllocCredit(s.allocs[k]))
  }

  function ShrinkCredits(s: State): (xs: seq<nat>)
    ensures |xs| == |s.shrinks| && forall k :: 0 <= k < |xs| ==> xs[k] == ShrinkCredit(s.shrinks[k])
  {
    seq(|s.shrinks|, k requires 0 <= k < |s.shrinks| => ShrinkCredit(s.shrinks[k]))
  }

  function Calls(s: State): nat { |s.allocs| + |s.shrinks| }

  function Cost(s: State): nat { Sum(AllocCosts(s)) + Sum(ShrinkCosts(s)) }

  function Credit(s: State): nat { Sum(AllocCredits(s)) + Sum(ShrinkCredits(s)) }

  /** A success may make every other call fail once, which costs it two steps. */
  function Effort(s: State): nat { Cost(s) + 2 * Calls(s) * Credit(s) }

  predicate IsGo(e: Step) { e.GoAlloc? || e.GoShrink? }

  // ----- every step spends some of it -----

  /** Whether the step is a compare-and-set that succeeds. */
  predicate Succeeds(s: State, e: Step)
    requires Enabled(s, e)
  {
    match e
    case GoAlloc(i) => s.allocs[i].Swapping? && s.allocs[i].oldVal == s.pool
    case GoShrink(j) =>
      var c := s.shrinks[j];
      || (c.at.GivingUp? && s.allocs[c.alloc].amount == c.at.oldVal)
      || (c.at.Returning? && c.at.seen == s.pool)
    case _ => false
  }

  /** The two fields change by nothing else. */
  lemma OnlySuccessChanges(s: State, e: Step)
    requires Enabled(s, e) && IsGo(e) && !Succeeds(s, e)
    ensures Apply(s, e).pool == s.pool
    ensures forall i, was :: IsAmount(s.allocs, i, was) ==> IsAmount(Apply(s, e).allocs, i, was)
  {
  }

  /** What a step does to its own call: one step less to do, and a success less if it is one. */
  lemma OwnAlloc(s: State, i: nat)
    requires Enabled(s, GoAlloc(i))
    ensures var t, won := AfterAlloc(s, i), if Succeeds(s, GoAlloc(i)) then 1 else 0;
            && t.shrinks == s.shrinks && |t.allocs| == |s.allocs| && t.allocs == s.allocs[i := t.allocs[i]]
            && AllocCost(t.allocs[i], t.pool) < AllocCost(s.allocs[i], s.pool)
            && AllocCredit(t.allocs[i]) + won <= AllocCredit(s.allocs[i])
            && (won == 0 ==> t.pool == s.pool)
  {
    hide ToInt, ToLong;
  }

  lemma OwnShrink(s: State, j: nat)
    requires Enabled(s, GoShrink(j))
    ensures var t, won := AfterShrink(s, j), if Succeeds(s, GoShrink(j)) then 1 else 0;
            && |t.shrinks| == |s.shrinks| && t.shrinks == s.shrinks[j := t.shrinks[j]]
            && |t.allocs| == |s.allocs| && (won == 0 ==> t.allocs == s.allocs && t.pool == s.pool)
            && (forall k :: 0 <= k < |s.allocs| ==>
                  AllocCredit(t.allocs[k]) == AllocCredit(s.allocs[k])
                  && AllocCost(t.allocs[k], s.pool) == AllocCost(s.allocs[k], s.pool))
            && ShrinkCost(t.shrinks[j], t.allocs, t.pool) < ShrinkCost(s.shrinks[j], s.allocs, s.pool)
            && ShrinkCredit(t.shrinks[j]) + won <= ShrinkCredit(s.shrinks[j])
  {
    hide ToInt, ToLong;
  }

  /** Another call's cost grows by at most two, and not at all unless a compare-and-set has succeeded. */
  lemma OtherAlloc(a: Alloc, pool: int, after: int)
    ensures AllocCost(a, after) <= AllocCost(a, pool) + if pool == after then 0 else 2
  {
  }

  lemma OtherShrink(c: Shrink, allocs: seq<Alloc>, pool: int, allocs': seq<Alloc>, pool': int)
    ensures ShrinkCost(c, allocs', pool') <= ShrinkCost(c, allocs, pool) + 2
    ensures pool' == pool && (forall i, was :: IsAmount(allocs, i, was) ==> IsAmount(allocs', i, was)) ==>
              ShrinkCost(c, allocs', pool') <= ShrinkCost(c, allocs, pool)
  {
  }

  lemma GoAllocSpends(s: State, i: nat)
    requires Enabled(s, GoAlloc(i))
    ensures var t, won := AfterAlloc(s, i), if Succeeds(s, GoAlloc(i)) then 1 else 0;
            Calls(t) == Calls(s) && Cost(t) < Cost(s) + 2 * Calls(s) * won && Credit(t) + won <= Credit(s)
  {
    var t, won := AfterAlloc(s, i), if Succeeds(s, GoAlloc(i)) then 1 else 0;
    OwnAlloc(s, i);
    OnlySuccessChangesIf(s, GoAlloc(i));
    hide AfterAlloc, Sum, AllocCost, ShrinkCost, AllocCredit, ShrinkCredit, IsAmount, Enabled, Succeeds;
    forall k | 0 <= k < |s.allocs| && k != i
      ensures AllocCosts(t)[k] <= AllocCosts(s)[k] + 2 * won
    {
      OtherAlloc(s.allocs[k], s.pool, t.pool);
    }
    forall k | 0 <= k < |s.shrinks|
      ensures ShrinkCosts(t)[k] <= ShrinkCosts(s)[k] + 2 * won
    {
      OtherShrink(s.shrinks[k], s.allocs, s.pool, t.allocs, t.pool);
    }
    SumBound(AllocCosts(s), AllocCosts(t), i, 2 * won);
    SumBound(ShrinkCosts(s), ShrinkCosts(t), |s.shrinks|, 2 * won);
    SumBound(AllocCredits(s), AllocCredits(t), i, 0);
    SumBound(ShrinkCredits(s), ShrinkCredits(t), |s.shrinks|, 0);
    Together(won, |s.allocs|, |s.shrinks|);
  }

  lemma Together(won: nat, a: nat, b: nat)
    ensures 2 * won * a + 2 * won * b == 2 * (a + b) * won
  {
  }

  lemma OnlySuccessChangesIf(s: State, e: Step)
    requires Enabled(s, e) && IsGo(e)
    ensures !Succeeds(s, e) ==>
              && Apply(s, e).pool == s.pool
              && forall i, was :: IsAmount(s.allocs, i, was) ==> IsAmount(Apply(s, e).allocs, i, was)
  {
    if !Succeeds(s, e) {
      OnlySuccessChanges(s, e);
    }
  }

  lemma GoShrinkSpends(s: State, j: nat)
    requires Enabled(s, GoShrink(j))
    ensures var t, won := AfterShrink(s, j), if Succeeds(s, GoShrink(j)) then 1 else 0;
            Calls(t) == Calls(s) && Cost(t) < Cost(s) + 2 * Calls(s) * won && Credit(t) + won <= Credit(s)
  {
    hide Sum, AllocCost, ShrinkCost, AllocCredit, ShrinkCredit, IsAmount, Succeeds, ToInt, ToLong;
    var t, won := AfterShrink(s, j), if Succeeds(s, GoShrink(j)) then 1 else 0;
    OwnShrink(s, j);
    OnlySuccessChangesIf(s, GoShrink(j));
    hide AfterShrink, Enabled;
    forall k | 0 <= k < |s.allocs|
      ensures AllocCosts(t)[k] <= AllocCosts(s)[k] + 2 * won
    {
      OtherAlloc(t.allocs[k], s.pool, t.pool);
    }
    forall k | 0 <= k < |s.shrinks| && k != j
      ensures ShrinkCosts(t)[k] <= ShrinkCosts(s)[k] + 2 * won
    {
      OtherShrink(s.shrinks[k], s.allocs, s.pool, t.allocs, t.pool);
    }
    SumBound(AllocCosts(s), AllocCosts(t), |s.allocs|, 2 * won);
    SumBound(ShrinkCosts(s), ShrinkCosts(t), j, 2 * won);
    SumBound(AllocCredits(s), AllocCredits(t), |s.allocs|, 0);
    SumBound(ShrinkCredits(s), ShrinkCredits(t), j, 0);
    Together(won, |s.allocs|, |s.shrinks|);
  }

  /** Every step of a call lowers the effort, the step that loses a race and has to start over included. */
  lemma StepSpends(s: State, e: Step)
    requires Enabled(s, e) && IsGo(e)
    ensures Effort(Apply(s, e)) < Effort(s) && Calls(Apply(s, e)) == Calls(s)
  {
    hide AfterAlloc, AfterShrink, Cost, Credit, Enabled, Succeeds;
    var won := if Succeeds(s, e) then 1 else 0;
    match e {
      case GoAlloc(i) => GoAllocSpends(s, i);
      case GoShrink(j) => GoShrinkSpends(s, j);
    }
    var t := Apply(s, e);
    CreditPays(Calls(s), Credit(t), Credit(s), won);
  }

  lemma CreditPays(n: nat, after: nat, before: nat, won: nat)
    requires after + won <= before
    ensures 2 * n * after + 2 * n * won <= 2 * n * before
  {
    assert 2 * n * (after + won) == 2 * n * after + 2 * n * won;
    var k: nat := before - (after + won);
    assert 2 * n * before == 2 * n * (after + won) + 2 * n * k;
  }

  /** Once no new calls begin, all that are under way end, however they interleave: there is a bound on their steps. */
  lemma {:induction false} StepsAreBounded(s: State, steps: seq<Step>, t: State)
    requires Runs(s, steps, t) && forall e :: e in steps ==> IsGo(e)
    ensures |steps| + Effort(t) <= Effort(s)
    decreases |steps|
  {
    hide Effort, Enabled, Apply;
    if steps != [] {
      assert IsGo(steps[0]);
      StepSpends(s, steps[0]);
      StepsAreBounded(Apply(s, steps[0]), steps[1..], t);
    }
  }

  /** No call is under way. */
  predicate AllEnded(s: State) {
    && (forall i :: 0 <= i < |s.allocs| ==> s.allocs[i].Owned? || s.allocs[i].Moron?)
    && forall j :: 0 <= j < |s.shrinks| ==> s.shrinks[j].at.Finished? || s.shrinks[j].at.Illegal?
  }

  /** At any time a call may begin, and every call under way can take a step: none waits for another. */
  lemma EveryCallGoesOn(s: State)
    requires Inv(s)
    ensures forall n :: -2147483648 <= n <= 2147483647 ==>
              && Enabled(s, CallAlloc(n))
              && forall i: nat :: i < |s.allocs| && s.allocs[i].Owned? ==> Enabled(s, CallShrink(i, n))
    ensures forall i: nat :: i < |s.allocs| && !s.allocs[i].Owned? && !s.allocs[i].Moron? ==> Enabled(s, GoAlloc(i))
    ensures forall j: nat :: j < |s.shrinks| && !s.shrinks[j].at.Finished? && !s.shrinks[j].at.Illegal? ==>
              Enabled(s, GoShrink(j))
    ensures !AllEnded(s) ==> exists e :: IsGo(e) && Enabled(s, e)
  {
    hide Worths, Flights, Telescopes;
    assert forall j: nat :: j < |s.shrinks| ==> ShrinkOk(s.allocs, s.shrinks[j]);
    if i: nat :| i < |s.allocs| && !s.allocs[i].Owned? && !s.allocs[i].Moron? {
      assert Enabled(s, GoAlloc(i));
    } else if j: nat :| j < |s.shrinks| && !s.shrinks[j].at.Finished? && !s.shrinks[j].at.Illegal? {
      assert Enabled(s, GoShrink(j));
    }
  }

  // ----- who loses a race -----

  /** The state after the first `k` steps. */
  function After(s: State, steps: seq<Step>, k: nat): State
    requires k <= |steps|
    decreases k
  {
    if k == 0 then s
    else
      var u := After(s, steps, k - 1);
      if Enabled(u, steps[k - 1]) then Apply(u, steps[k - 1]) else u
  }

  predicate WonAt(s: State, steps: seq<Step>, k: nat) {
    && k < |steps|
    && Enabled(After(s, steps, k), steps[k]) && IsGo(steps[k]) && Succeeds(After(s, steps, k), steps[k])
    && Apply(After(s, steps, k), steps[k]).pool != After(s, steps, k).pool
  }

  /** The pool differs from what it was only because some compare-and-set on it has succeeded in between. */
  lemma {:induction false} SomebodyWon(s: State, steps: seq<Step>, n: nat)
    requires n <= |steps| && After(s, steps, n).pool != s.pool
    ensures exists k: nat :: k < n && WonAt(s, steps, k)
  {
    hide Succeeds, AfterAlloc, AfterShrink, Enabled;
    if n > 0 {
      var u, e := After(s, steps, n - 1), steps[n - 1];
      if u.pool != s.pool {
        SomebodyWon(s, steps, n - 1);
      } else {
        assert Enabled(u, e);
        if IsGo(e) {
          OnlySuccessChangesIf(u, e);
          assert WonAt(s, steps, n - 1);
        }
      }
    }
  }
}
