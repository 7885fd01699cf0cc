/** What an allocation of `BytePool` owns after any number of concurrent calls of `shrinkTo` and `close`. */
module PoolAmounts {
  import opened BytePool

  /** The call has lowered the amount, or found nothing to lower. */
  predicate HasShrunk(c: Shrink, i: nat) {
    c.alloc == i && (c.at.Fetching? || c.at.Returning? || c.at.Finished?)
  }

  /** The least of `top` and the lengths of those calls on allocation `i` that have shrunk it. */
  function Least(shrinks: seq<Shrink>, i: nat, top: int): int {
    if shrinks == [] then top
    else
      var n := |shrinks| - 1;
      var earlier := Least(shrinks[..n], i, top);
      if HasShrunk(shrinks[n], i) && shrinks[n].newLength < earlier then shrinks[n].newLength else earlier
  }

  /** It is a lower bound, and it is one of them. */
  lemma {:induction false} LeastIsLeast(shrinks: seq<Shrink>, i: nat, top: int)
    ensures Least(shrinks, i, top) <= top
    ensures forall j: nat :: j < |shrinks| && HasShrunk(shrinks[j], i) ==>
              Least(shrinks, i, top) <= shrinks[j].newLength
    ensures Least(shrinks, i, top) == top
            || exists j: nat :: j < |shrinks| && HasShrunk(shrinks[j], i)
                                && shrinks[j].newLength == Least(shrinks, i, top)
  {
    if shrinks != [] {
      var n := |shrinks| - 1;
      LeastIsLeast(shrinks[..n], i, top);
      var l := Least(shrinks[..n], i, top);
      forall j: nat | j < |shrinks| && HasShrunk(shrinks[j], i)
        ensures Least(shrinks, i, top) <= shrinks[j].newLength
      {
        if j < n {
          assert shrinks[..n][j] == shrinks[j];
        }
      }
      if l != top && Least(shrinks, i, top) == l {
        var j: nat :| j < n && HasShrunk(shrinks[..n][j], i) && shrinks[..n][j].newLength == l;
        assert HasShrunk(shrinks[j], i) && shrinks[j].newLength == l;
      } else if l != Least(shrinks, i, top) {
        assert HasShrunk(shrinks[n], i);
      }
    }
  }

  /** Every allocation owns exactly that. */
  ghost predicate Exact(s: State) {
    forall i: nat :: i < |s.allocs| && s.allocs[i].Owned? ==>
                       s.allocs[i].amount == Least(s.shrinks, i, s.allocs[i].amountLong)
  }

  lemma LeastMore(shrinks: seq<Shrink>, c: Shrink, i: nat, top: int)
    requires !HasShrunk(c, i)
    ensures Least(shrinks + [c], i, top) == Least(shrinks, i, top)
  {
    assert (shrinks + [c])[..|shrinks|] == shrinks;
  }

  lemma {:induction false} LeastUpdate(shrinks: seq<Shrink>, j: nat, c: Shrink, i: nat, top: int)
    requires j < |shrinks| && c.alloc == shrinks[j].alloc && c.newLength == shrinks[j].newLength
    requires HasShrunk(shrinks[j], i) ==> HasShrunk(c, i)
    ensures var l := Least(shrinks, i, top);
            Least(shrinks[j := c], i, top) == if HasShrunk(c, i) && c.newLength < l then c.newLength else l
  {
    var n := |shrinks| - 1;
    if j == n {
      assert shrinks[j := c][..n] == shrinks[..n];
    } else {
      LeastUpdate(shrinks[..n], j, c, i, top);
      assert shrinks[j := c][..n] == shrinks[..n][j := c];
    }
  }

  lemma {:induction false} LeastOfNone(shrinks: seq<Shrink>, i: nat, top: int)
    requires forall j: nat :: j < |shrinks| ==> shrinks[j].alloc != i
    ensures Least(shrinks, i, top) == top
  {
    if shrinks != [] {
      LeastOfNone(shrinks[..|shrinks| - 1], i, top);
    }
  }

  /** An allocation that is not owned yet has not been shrunk. */
  lemma NotShrunkYet(s: State, i: nat, top: int)
    requires Inv(s) && (i < |s.allocs| ==> !s.allocs[i].Owned?)
    ensures Least(s.shrinks, i, top) == top
  {
    forall j: nat | j < |s.shrinks|
      ensures s.shrinks[j].alloc != i
    {
      assert ShrinkOk(s.allocs, s.shrinks[j]);
    }
    LeastOfNone(s.shrinks, i, top);
  }

  lemma AllocKeepsExact(s: State, i: nat)
    requires Inv(s) && Exact(s) && Enabled(s, GoAlloc(i))
    ensures Exact(AfterAlloc(s, i))
  {
    AllocStep(s, i);
    var t := AfterAlloc(s, i);
    NotShrunkYet(s, i, if t.allocs[i].Owned? then t.allocs[i].amountLong else 0);
    hide AfterAlloc, Enabled, Least, Inv;
  }

  /** What one step does to the call and to the amount. */
  lemma ShrinkStepExact(s: State, j: nat)
    requires Inv(s) && Enabled(s, GoShrink(j))
    ensures var t, c := AfterShrink(s, j), s.shrinks[j];
            var d := t.shrinks[j];
            && d.alloc == c.alloc && d.newLength == c.newLength && (HasShrunk(c, c.alloc) ==> HasShrunk(d, c.alloc))
            && t.allocs[c.alloc].amountLong == s.allocs[c.alloc].amountLong
            && t.allocs[c.alloc].amount
               == if HasShrunk(d, c.alloc) && d.newLength < s.allocs[c.alloc].amount then d.newLength
                  else s.allocs[c.alloc].amount
  {
    ShrinkStep(s, j);
    assert ShrinkOk(s.allocs, s.shrinks[j]);
    hide Inv, ToInt, ToLong;
  }

  lemma ShrinkKeepsExact(s: State, j: nat)
    requires Inv(s) && Exact(s) && Enabled(s, GoShrink(j))
    ensures Exact(AfterShrink(s, j))
  {
    ShrinkStep(s, j);
    ShrinkStepExact(s, j);
    var t, a := AfterShrink(s, j), s.shrinks[j].alloc;
    hide AfterShrink, Enabled, Least, Inv;
    forall i: nat | i < |t.allocs| && t.allocs[i].Owned?
      ensures t.allocs[i].amount == Least(t.shrinks, i, t.allocs[i].amountLong)
    {
      LeastUpdate(s.shrinks, j, t.shrinks[j], i, s.allocs[i].amountLong);
    }
  }

  lemma StepKeepsExact(s: State, e: Step)
    requires Inv(s) && Exact(s) && Enabled(s, e) && Asks(e)
    ensures Exact(Apply(s, e))
  {
    hide Inv, AfterAlloc, AfterShrink, Least;
    match e
    case CallAlloc(requested) =>
    case GoAlloc(i) => AllocKeepsExact(s, i);
    case CallShrink(alloc, newLength) =>
      forall i: nat | i < |s.allocs| && s.allocs[i].Owned?
        ensures s.allocs[i].amount == Least(Apply(s, e).shrinks, i, s.allocs[i].amountLong)
      {
        LeastMore(s.shrinks, Shrink(alloc, newLength, Comparing), i, s.allocs[i].amountLong);
      }
    case GoShrink(j) => ShrinkKeepsExact(s, j);
  }

  lemma {:induction false} RunKeepsExact(s: State, steps: seq<Step>, t: State)
    requires Inv(s) && Exact(s) && Runs(s, steps, t) && forall e :: e in steps ==> Asks(e)
    ensures Exact(t)
    decreases |steps|
  {
    hide Inv, Exact, Apply, Enabled;
    if steps != [] {
      assert Asks(steps[0]);
      StepKeeps(s, steps[0]);
      StepKeepsExact(s, steps[0]);
      RunKeepsExact(Apply(s, steps[0]), steps[1..], t);
    }
  }

  /**
   * Whatever calls interleave in whatever way: each allocation owns what it was granted, or the least length that one
   * of the calls on it has shrunk it to, if that is less.
   */
  lemma EveryAmountIsLeast(maxBytes: int, steps: seq<Step>, s: State)
    requires 0 <= maxBytes <= LONG_MAX
    requires Runs(Fresh(maxBytes), steps, s) && forall e :: e in steps ==> Asks(e)
    ensures forall i: nat :: i < |s.allocs| && s.allocs[i].Owned? ==>
              s.allocs[i].amount == Least(s.shrinks, i, s.allocs[i].amountLong)
  {
    hide Runs;
    RunKeepsExact(Fresh(maxBytes), steps, s);
  }

  // ----- a call on its own -----

  /** The steps of call number `j` from its begin to its end when nobody interferes. */
  function Alone(j: nat, differs: bool): seq<Step> {
    if differs then [GoShrink(j), GoShrink(j), GoShrink(j), GoShrink(j), GoShrink(j)] else [GoShrink(j)]
  }

  predicate LeadsTo(s: State, e: Step, t: State) { Enabled(s, e) && Apply(s, e) == t }

  /** The state with one more call of `shrinkTo`. */
  function Calling(s: State, i: nat, n: int, at: Stage): State {
    s.(shrinks := s.shrinks + [Shrink(i, n, at)])
  }

  lemma OneStage(s: State, i: nat, n: int, at: Stage, next: Stage)
    requires i < |s.allocs| && s.allocs[i].Owned? && !at.Finished? && !at.Illegal?
    ensures var c, j := Calling(s, i, n, at), |s.shrinks|;
            Enabled(c, GoShrink(j)) && c.shrinks[j] == Shrink(i, n, at) && At(c, j, next) == Calling(s, i, n, next)
  {
  }

  /** The two steps that read the amount. */
  lemma LoadsAlone(s: State, i: nat, n: int)
    requires i < |s.allocs| && s.allocs[i].Owned? && 0 <= n != s.allocs[i].amount && ToInt(s.allocs[i].amount - n) >= 0
    ensures LeadsTo(Calling(s, i, n, Comparing), GoShrink(|s.shrinks|), Calling(s, i, n, Loading))
    ensures var seen := s.allocs[i].amount;
            LeadsTo(Calling(s, i, n, Loading), GoShrink(|s.shrinks|), Calling(s, i, n, GivingUp(seen)))
  {
    hide ToInt;
    OneStage(s, i, n, Comparing, Loading);
    OneStage(s, i, n, Loading, GivingUp(s.allocs[i].amount));
    hide At, Calling;
  }

  lemma GivesUpAlone(s: State, i: nat, n: int, t: State)
    requires i < |s.allocs| && s.allocs[i].Owned? && t == s.(allocs := s.allocs[i := Lowered(s.allocs[i], n)])
    ensures var was := s.allocs[i].amount;
            LeadsTo(Calling(s, i, n, GivingUp(was)), GoShrink(|s.shrinks|), Calling(t, i, n, Fetching(ToInt(was - n))))
  {
    hide ToInt;
    OneStage(s, i, n, GivingUp(s.allocs[i].amount), Fetching(ToInt(s.allocs[i].amount - n)));
    hide At;
  }

  /** The two steps that give the difference back. */
  lemma ReturnsAlone(s: State, i: nat, n: int, d: int)
    requires i < |s.allocs| && s.allocs[i].Owned? && ToLong(s.pool + d) == s.pool + d
    ensures LeadsTo(Calling(s, i, n, Fetching(d)), GoShrink(|s.shrinks|), Calling(s, i, n, Returning(d, s.pool)))
    ensures LeadsTo(Calling(s, i, n, Returning(d, s.pool)), GoShrink(|s.shrinks|),
                    Calling(s.(pool := s.pool + d), i, n, Finished(d)))
  {
    hide ToLong;
    OneStage(s, i, n, Fetching(d), Returning(d, s.pool));
    OneStage(s, i, n, Returning(d, s.pool), Finished(d));
    hide At;
  }

  lemma NothingToShrink(s: State, i: nat, n: int)
    requires i < |s.allocs| && s.allocs[i].Owned? && 0 <= n == s.allocs[i].amount
    ensures LeadsTo(Calling(s, i, n, Comparing), GoShrink(|s.shrinks|), Calling(s, i, n, Finished(0)))
  {
    OneStage(s, i, n, Comparing, Finished(0));
    hide At, Calling;
  }

  lemma FiveSteps(s1: State, s2: State, s3: State, s4: State, s5: State, t: State, go: Step)
    requires LeadsTo(s1, go, s2) && LeadsTo(s2, go, s3) && LeadsTo(s3, go, s4) && LeadsTo(s4, go, s5)
    requires LeadsTo(s5, go, t)
    ensures Runs(s1, [go, go, go, go, go], t)
  {
    hide Apply, Enabled, Runs;
    assert [go] + [go] == [go, go] && [go] + [go, go] == [go, go, go] && [go] + [go, go, go] == [go, go, go, go];
    assert [go] + [go, go, go, go] == [go, go, go, go, go];
    RunsOne(s5, go, [], t);
    RunsOne(s4, go, [go], t);
    RunsOne(s3, go, [go, go], t);
    RunsOne(s2, go, [go, go, go], t);
    RunsOne(s1, go, [go, go, go, go], t);
  }

  /**
   * `shrinkTo(n)` with 0 <= n <= amount, undisturbed: the allocation then owns n bytes, the others are in the pool, and
   * nothing else has changed.
   */
  lemma LoneShrink(s: State, i: nat, n: int) returns (t: State)
    requires Inv(s) && i < |s.allocs| && s.allocs[i].Owned? && 0 <= n <= s.allocs[i].amount
    ensures var steps := [CallShrink(i, n)] + Alone(|s.shrinks|, n != s.allocs[i].amount);
            Runs(s, steps, t)
    ensures t.pool == s.pool + (s.allocs[i].amount - n)
    ensures t.allocs == s.allocs[i := Owned(s.allocs[i].requested, s.allocs[i].amountLong, n)]
    ensures t.shrinks == s.shrinks + [Shrink(i, n, Finished(s.allocs[i].amount - n))]
  {
    WholeFits(s, i);
    hide Inv;
    var go, d := GoShrink(|s.shrinks|), s.allocs[i].amount - n;
    IntFits(d);
    LongFits(s.pool + d);
    hide ToInt, ToLong, Runs;
    assert LeadsTo(s, CallShrink(i, n), Calling(s, i, n, Comparing));
    var s' := s.(allocs := s.allocs[i := Lowered(s.allocs[i], n)]);
    t := Calling(s'.(pool := s.pool + d), i, n, Finished(d));
    assert t.pool == s.pool + d && t.allocs == s'.allocs && t.shrinks == s.shrinks + [Shrink(i, n, Finished(d))];
    hide Apply, Enabled, Calling;
    if d == 0 {
      assert s' == s && s.(pool := s.pool + d) == s;
      NothingToShrink(s, i, n);
      RunsOne(Calling(s, i, n, Comparing), go, [], t);
    } else {
      LoadsAlone(s, i, n);
      GivesUpAlone(s, i, n, s');
      ReturnsAlone(s', i, n, d);
      FiveSteps(Calling(s, i, n, Comparing), Calling(s, i, n, Loading), Calling(s, i, n, GivingUp(n + d)),
                Calling(s', i, n, Fetching(d)), Calling(s', i, n, Returning(d, s.pool)), t, go);
    }
    RunsOne(s, CallShrink(i, n), Alone(|s.shrinks|, d != 0), t);
  }

  /** Any other length is refused, and nothing else has changed. */
  lemma LoneIllegal(s: State, i: nat, n: int) returns (t: State)
    requires Inv(s) && i < |s.allocs| && s.allocs[i].Owned? && -INT_MAX - 1 <= n <= INT_MAX
    requires n < 0 || n > s.allocs[i].amount
    ensures var j := |s.shrinks|;
            Runs(s, [CallShrink(i, n)] + (if n < 0 then [GoShrink(j)] else [GoShrink(j), GoShrink(j)]), t)
    ensures t == s.(shrinks := s.shrinks + [Shrink(i, n, Illegal)])
  {
    assert AllocOk(s.allocs[i]);
    WholeFits(s, i);
    var mine, j := s.allocs[i], |s.shrinks|;
    if n >= 0 {
      IntFits(mine.amount - n);
    }
    hide Inv, ToInt, ToLong, Runs;
    var s1 := Apply(s, CallShrink(i, n));
    assert s1.shrinks == s.shrinks + [Shrink(i, n, Comparing)];
    t := s.(shrinks := s.shrinks + [Shrink(i, n, Illegal)]);
    if n < 0 {
      assert Enabled(s1, GoShrink(j)) && Apply(s1, GoShrink(j)) == t;
      RunsOne(s1, GoShrink(j), [], t);
      RunsOne(s, CallShrink(i, n), [GoShrink(j)], t);
    } else {
      var s2 := s1.(shrinks := s.shrinks + [Shrink(i, n, Loading)]);
      assert Enabled(s1, GoShrink(j)) && Apply(s1, GoShrink(j)) == s2;
      assert Enabled(s2, GoShrink(j)) && Apply(s2, GoShrink(j)) == t;
      RunsOne(s2, GoShrink(j), [], t);
      RunsOne(s1, GoShrink(j), [GoShrink(j)], t);
      RunsOne(s, CallShrink(i, n), [GoShrink(j), GoShrink(j)], t);
    }
  }

  /** The state with one more allocation. */
  function With(s: State, a: Alloc, pool: int): State { s.(allocs := s.allocs + [a], pool := pool) }

  lemma SwapAlone(s: State, r: int, got: int)
    requires 0 <= r <= INT_MAX && 0 <= s.pool <= LONG_MAX && got == if r <= s.pool then r else s.pool
    ensures NewPool(s.pool, r) == s.pool - got && ToLong(s.pool - (s.pool - got)) == got && ToInt(got) == got
  {
    LongFits(s.pool - r);
    LongFits(got);
    IntFits(got);
    hide ToInt, ToLong;
  }

  lemma ReadsAlone(s: State, r: int, pool: int)
    ensures LeadsTo(With(s, Reading(r), pool), GoAlloc(|s.allocs|), With(s, Swapping(r, pool), pool))
  {
    OneReplaced(s.allocs, Reading(r), Swapping(r, pool));
  }

  lemma SwapsAlone(s: State, r: int, got: int)
    requires NewPool(s.pool, r) == s.pool - got && ToLong(s.pool - (s.pool - got)) == got
    ensures LeadsTo(With(s, Swapping(r, s.pool), s.pool), GoAlloc(|s.allocs|), With(s, Storing(r, got), s.pool - got))
  {
    hide ToLong, NewPool;
    OneReplaced(s.allocs, Swapping(r, s.pool), Storing(r, got));
  }

  lemma StoresAlone(s: State, r: int, got: int, pool: int)
    requires ToInt(got) == got
    ensures LeadsTo(With(s, Storing(r, got), pool), GoAlloc(|s.allocs|), With(s, Checking(r, got, got), pool))
  {
    hide ToInt;
    OneReplaced(s.allocs, Storing(r, got), Checking(r, got, got));
  }

  lemma ChecksAlone(s: State, r: int, got: int, pool: int)
    ensures LeadsTo(With(s, Checking(r, got, got), pool), GoAlloc(|s.allocs|), With(s, Owned(r, got, got), pool))
  {
    OneReplaced(s.allocs, Checking(r, got, got), Owned(r, got, got));
  }

  lemma OneReplaced(allocs: seq<Alloc>, a: Alloc, b: Alloc)
    ensures (allocs + [a])[|allocs|] == a && (allocs + [a])[|allocs| := b] == allocs + [b]
  {
  }

  /** `alloc(r)`, undisturbed: the new allocation owns all it asked for, or all there was in the pool. */
  lemma LoneAlloc(s: State, r: int) returns (t: State)
    requires Inv(s) && 0 <= r <= INT_MAX
    ensures var go := GoAlloc(|s.allocs|);
            Runs(s, [CallAlloc(r)] + ([go] + ([go] + ([go] + [go]))), t)
    ensures var got := if r <= s.pool then r else s.pool;
            t.pool == s.pool - got && t.allocs == s.allocs + [Owned(r, got, got)] && t.shrinks == s.shrinks
  {
    Bounds(s);
    var go, got := GoAlloc(|s.allocs|), if r <= s.pool then r else s.pool;
    SwapAlone(s, r, got);
    ReadsAlone(s, r, s.pool);
    SwapsAlone(s, r, got);
    StoresAlone(s, r, got, s.pool - got);
    ChecksAlone(s, r, got, s.pool - got);
    assert LeadsTo(s, CallAlloc(r), With(s, Reading(r), s.pool));
    t := With(s, Owned(r, got, got), s.pool - got);
    hide Inv, Apply, Enabled, Runs, NewPool, ToInt, ToLong;
    RunsOne(With(s, Checking(r, got, got), s.pool - got), go, [], t);
    RunsOne(With(s, Storing(r, got), s.pool - got), go, [go], t);
    RunsOne(With(s, Swapping(r, s.pool), s.pool), go, [go] + [go], t);
    RunsOne(With(s, Reading(r), s.pool), go, [go] + ([go] + [go]), t);
    RunsOne(s, CallAlloc(r), [go] + ([go] + ([go] + [go])), t);
  }

  lemma WholeFits(s: State, i: nat)
    requires Inv(s) && i < |s.allocs| && s.allocs[i].Owned?
    ensures 0 <= s.allocs[i].amount <= INT_MAX && 0 <= s.pool && s.pool + s.allocs[i].amount <= LONG_MAX
  {
    WorthsNonNegative(s.allocs);
    FlightsNonNegative(s.allocs, s.shrinks);
    assert AllocOk(s.allocs[i]) && Worth(s.allocs[i]) == s.allocs[i].amount;
  }

  lemma RunsOne(s: State, e: Step, steps: seq<Step>, t: State)
    requires Enabled(s, e)
    requires (steps == [] && t == Apply(s, e)) || Runs(Apply(s, e), steps, t)
    ensures Runs(s, [e] + steps, t)
    ensures steps == [] ==> Runs(s, [e], t)
  {
    assert ([e] + steps)[0] == e && ([e] + steps)[1..] == steps;
    assert steps == [] ==> [e] + steps == [e];
  }
}
