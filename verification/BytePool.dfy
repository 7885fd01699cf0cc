/**
 * The lock-free byte allocator: every read, compare-and-set and store of the two atomic fields is one step, and the
 * steps of any number of concurrent `alloc`, `shrinkTo` and `close` calls interleave freely.
 */
module BytePool {
  import opened Sequences

  const INT_MAX: int := 0x7FFF_FFFF
  const LONG_MAX: int := 0x7FFF_FFFF_FFFF_FFFF

  /** Java's narrowing to 32 and to 64 bits. */
  function ToInt(x: int): int { (x + 0x8000_0000) % 0x1_0000_0000 - 0x8000_0000 }

  function ToLong(x: int): int { (x + 0x8000_0000_0000_0000) % 0x1_0000_0000_0000_0000 - 0x8000_0000_0000_0000 }

  /** Both stay in their range and drop whole multiples of its size only. */
  lemma Narrowed(x: int)
    ensures -0x8000_0000 <= ToInt(x) <= 0x7FFF_FFFF && (x - ToInt(x)) % 0x1_0000_0000 == 0
    ensures -0x8000_0000_0000_0000 <= ToLong(x) <= 0x7FFF_FFFF_FFFF_FFFF
    ensures (x - ToLong(x)) % 0x1_0000_0000_0000_0000 == 0
  {
  }

  /** An `AllocatedBytes`, or the `alloc` call that is still building it. */
  datatype Alloc =
    | Reading(requested: int)
    | Swapping(requested: int, oldVal: int)
    | Storing(requested: int, amountLong: int)
    | Checking(requested: int, amountLong: int, amount: int)
    | Owned(requested: int, amountLong: int, amount: int)
    | Moron(requested: int, amountLong: int, amount: int)

  /** One call of `shrinkTo`; `Finished` notes what the call returned to the pool. */
  datatype Stage =
    | Comparing
    | Loading
    | GivingUp(oldVal: int)
    | Fetching(diff: int)
    | Returning(diff: int, seen: int)
    | Finished(diff: int)
    | Illegal

  datatype Shrink = Shrink(alloc: nat, newLength: int, at: Stage)

  datatype State = State(poolSize: int, pool: int, allocs: seq<Alloc>, shrinks: seq<Shrink>)

  /** `close()` is a `ShrinkTo` to zero. */
  datatype Step =
    | CallAlloc(requested: int)
    | GoAlloc(i: nat)
    | CallShrink(alloc: nat, newLength: int)
    | GoShrink(j: nat)

  function Fresh(maxBytes: int): State { State(maxBytes, maxBytes, [], []) }

  /** Only an allocation that `alloc` has returned can be shrunk; a call that has ended takes no more steps. */
  predicate Enabled(s: State, e: Step) {
    match e
    case CallAlloc(requested) => -INT_MAX - 1 <= requested <= INT_MAX
    case GoAlloc(i) => i < |s.allocs| && !s.allocs[i].Owned? && !s.allocs[i].Moron?
    case CallShrink(alloc, newLength) =>
      alloc < |s.allocs| && s.allocs[alloc].Owned? && -INT_MAX - 1 <= newLength <= INT_MAX
    case GoShrink(j) =>
      && j < |s.shrinks| && !s.shrinks[j].at.Finished? && !s.shrinks[j].at.Illegal?
      && s.shrinks[j].alloc < |s.allocs| && s.allocs[s.shrinks[j].alloc].Owned?
  }

  function NewPool(oldVal: int, requested: int): int { Max(0, ToLong(oldVal - requested)) }

  function AfterAlloc(s: State, i: nat): State
    requires Enabled(s, GoAlloc(i))
  {
    match s.allocs[i]
    case Reading(r) => s.(allocs := s.allocs[i := Swapping(r, s.pool)])
    case Swapping(r, was) =>
      if s.pool == was
      then s.(pool := NewPool(was, r), allocs := s.allocs[i := Storing(r, ToLong(was - NewPool(was, r)))])
      else s.(allocs := s.allocs[i := Reading(r)])
    case Storing(r, long) => s.(allocs := s.allocs[i := Checking(r, long, ToInt(long))])
    case Checking(r, long, amount) =>
      s.(allocs := s.allocs[i := if amount != long then Moron(r, long, amount) else Owned(r, long, amount)])
    case _ => s
  }

  function AfterShrink(s: State, j: nat): State
    requires Enabled(s, GoShrink(j))
  {
    var call := s.shrinks[j];
    var mine := s.allocs[call.alloc];
    match call.at
    case Comparing =>
      At(s, j, if call.newLength < 0 then Illegal else if mine.amount == call.newLength then Finished(0) else Loading)
    case Loading =>
      At(s, j, if ToInt(mine.amount - call.newLength) < 0 then Illegal else GivingUp(mine.amount))
    case GivingUp(was) =>
      if mine.amount == was
      then At(s, j, Fetching(ToInt(was - call.newLength)))
           .(allocs := s.allocs[call.alloc := Lowered(mine, call.newLength)])
      else At(s, j, Loading)
    case Fetching(diff) => At(s, j, Returning(diff, s.pool))
    case Returning(diff, seen) =>
      if s.pool == seen then At(s, j, Finished(diff)).(pool := ToLong(seen + diff)) else At(s, j, Fetching(diff))
    case _ => s
  }

  function Lowered(a: Alloc, amount: int): Alloc
    requires a.Owned?
  {
    Owned(a.requested, a.amountLong, amount)
  }

  function At(s: State, j: nat, at: Stage): State
    requires j < |s.shrinks|
  {
    s.(shrinks := s.shrinks[j := s.shrinks[j].(at := at)])
  }

  function Apply(s: State, e: Step): State
    requires Enabled(s, e)
  {
    match e
    case CallAlloc(requested) => s.(allocs := s.allocs + [Reading(requested)])
    case GoAlloc(i) => AfterAlloc(s, i)
    case CallShrink(alloc, newLength) => s.(shrinks := s.shrinks + [Shrink(alloc, newLength, Comparing)])
    case GoShrink(j) => AfterShrink(s, j)
  }

  /** What an allocation owns, or has taken from the pool without having stored it yet. */
  function Worth(a: Alloc): int {
    match a
    case Storing(_, long) => long
    case Checking(_, _, amount) => amount
    case Owned(_, _, amount) => amount
    case _ => 0
  }

  /** What a call has given up without having put it back yet. */
  function InFlight(c: Shrink): int {
    match c.at
    case Fetching(diff) => diff
    case Returning(diff, _) => diff
    case _ => 0
  }

  /** What a call has taken away from allocation `i`, back in the pool already or not. */
  function TakenFrom(c: Shrink, i: nat): int {
    if c.alloc != i then 0 else InFlight(c) + if c.at.Finished? then c.at.diff else 0
  }

  function Worths(allocs: seq<Alloc>): int {
    if allocs == [] then 0 else Worths(allocs[..|allocs| - 1]) + Worth(allocs[|allocs| - 1])
  }

  function Flights(shrinks: seq<Shrink>): int {
    if shrinks == [] then 0 else Flights(shrinks[..|shrinks| - 1]) + InFlight(shrinks[|shrinks| - 1])
  }

  function Taken(shrinks: seq<Shrink>, i: nat): int {
    if shrinks == [] then 0 else Taken(shrinks[..|shrinks| - 1], i) + TakenFrom(shrinks[|shrinks| - 1], i)
  }

  /** Requests and grants are non-negative, and nobody was granted more than requested. */
  predicate AllocOk(a: Alloc) {
    && 0 <= a.requested <= INT_MAX
    && match a
       case Reading(_) => true
       case Swapping(_, was) => 0 <= was <= LONG_MAX
       case Storing(r, long) => 0 <= long <= r
       case Checking(r, long, amount) => 0 <= amount == long <= r
       case Owned(r, long, amount) => 0 <= amount <= long <= r
       case Moron(_, _, _) => false
  }

  /** Once a call has lowered the amount, the amount is at most the call's new length; a close never fails. */
  predicate ShrinkOk(allocs: seq<Alloc>, c: Shrink) {
    && c.alloc < |allocs| && allocs[c.alloc].Owned?
    && -INT_MAX - 1 <= c.newLength <= INT_MAX
    && match c.at
       case Comparing => true
       case Loading => 0 <= c.newLength
       case GivingUp(was) => 0 <= c.newLength <= was <= INT_MAX
       case Fetching(diff) => 0 <= diff <= INT_MAX && allocs[c.alloc].amount <= c.newLength
       case Returning(diff, seen) =>
         0 <= diff <= INT_MAX && allocs[c.alloc].amount <= c.newLength && 0 <= seen <= LONG_MAX
       case Finished(diff) => 0 <= diff <= INT_MAX && allocs[c.alloc].amount <= c.newLength
       case Illegal => c.newLength != 0
  }

  ghost predicate Inv(s: State) {
    && 0 <= s.poolSize <= LONG_MAX && 0 <= s.pool
    && s.pool + Worths(s.allocs) + Flights(s.shrinks) == s.poolSize
    && (forall i: nat :: i < |s.allocs| ==> AllocOk(s.allocs[i]))
    && (forall j: nat :: j < |s.shrinks| ==> ShrinkOk(s.allocs, s.shrinks[j]))
    && (forall i: nat :: i < |s.allocs| ==> Telescopes(s, i))
  }

  /** Of what was granted, all is still owned, in flight or back in the pool. */
  predicate Telescopes(s: State, i: nat)
    requires i < |s.allocs|
  {
    if s.allocs[i].Owned? then s.allocs[i].amountLong == s.allocs[i].amount + Taken(s.shrinks, i)
    else Taken(s.shrinks, i) == 0
  }

  lemma {:induction false} WorthsUpdate(allocs: seq<Alloc>, i: nat, a: Alloc)
    requires i < |allocs|
    ensures Worths(allocs[i := a]) == Worths(allocs) - Worth(allocs[i]) + Worth(a)
  {
    var n := |allocs| - 1;
    if i == n {
      assert allocs[i := a][..n] == allocs[..n];
    } else {
      WorthsUpdate(allocs[..n], i, a);
      assert allocs[i := a][..n] == allocs[..n][i := a];
    }
  }

  lemma {:induction false} FlightsUpdate(shrinks: seq<Shrink>, j: nat, c: Shrink)
    requires j < |shrinks|
    ensures Flights(shrinks[j := c]) == Flights(shrinks) - InFlight(shrinks[j]) + InFlight(c)
  {
    var n := |shrinks| - 1;
    if j == n {
      assert shrinks[j := c][..n] == shrinks[..n];
    } else {
      FlightsUpdate(shrinks[..n], j, c);
      assert shrinks[j := c][..n] == shrinks[..n][j := c];
    }
  }

  lemma {:induction false} TakenUpdate(shrinks: seq<Shrink>, j: nat, c: Shrink, i: nat)
    requires j < |shrinks|
    ensures Taken(shrinks[j := c], i) == Taken(shrinks, i) - TakenFrom(shrinks[j], i) + TakenFrom(c, i)
  {
    var n := |shrinks| - 1;
    if j == n {
      assert shrinks[j := c][..n] == shrinks[..n];
    } else {
      TakenUpdate(shrinks[..n], j, c, i);
      assert shrinks[j := c][..n] == shrinks[..n][j := c];
    }
  }

  lemma {:induction false} WorthsNonNegative(allocs: seq<Alloc>)
    requires forall i: nat :: i < |allocs| ==> AllocOk(allocs[i])
    ensures Worths(allocs) >= 0
    ensures forall i: nat :: i < |allocs| ==> Worth(allocs[i]) <= Worths(allocs)
  {
    if allocs != [] {
      var n := |allocs| - 1;
      WorthsNonNegative(allocs[..n]);
      assert Worth(allocs[n]) >= 0;
      forall i: nat | i < n
        ensures Worth(allocs[i]) <= Worths(allocs[..n])
      {
        assert allocs[..n][i] == allocs[i];
      }
    }
  }

  lemma {:induction false} FlightsNonNegative(allocs: seq<Alloc>, shrinks: seq<Shrink>)
    requires forall j: nat :: j < |shrinks| ==> ShrinkOk(allocs, shrinks[j])
    ensures Flights(shrinks) >= 0
    ensures forall j: nat :: j < |shrinks| ==> InFlight(shrinks[j]) <= Flights(shrinks)
  {
    if shrinks != [] {
      var n := |shrinks| - 1;
      FlightsNonNegative(allocs, shrinks[..n]);
      assert InFlight(shrinks[n]) >= 0;
      forall j: nat | j < n
        ensures InFlight(shrinks[j]) <= Flights(shrinks[..n])
      {
        assert shrinks[..n][j] == shrinks[j];
      }
    }
  }

  lemma IntFits(x: int)
    requires -INT_MAX - 1 <= x <= INT_MAX
    ensures ToInt(x) == x
  {
  }

  lemma LongFits(x: int)
    requires -LONG_MAX - 1 <= x <= LONG_MAX
    ensures ToLong(x) == x
  {
  }

  lemma Bounds(s: State)
    requires Inv(s)
    ensures 0 <= s.pool <= s.poolSize
    ensures forall j: nat :: j < |s.shrinks| ==> s.pool + InFlight(s.shrinks[j]) <= s.poolSize
  {
    WorthsNonNegative(s.allocs);
    FlightsNonNegative(s.allocs, s.shrinks);
  }

  lemma CallAllocKeeps(s: State, requested: int)
    requires Inv(s) && 0 <= requested <= INT_MAX
    ensures Inv(Apply(s, CallAlloc(requested)))
  {
    var t := Apply(s, CallAlloc(requested));
    assert t.allocs[..|s.allocs|] == s.allocs;
    NothingTaken(s, |s.allocs|);
    forall i: nat | i < |t.allocs|
      ensures AllocOk(t.allocs[i]) && Telescopes(t, i)
    {
      assert i < |s.allocs| ==> Telescopes(s, i);
    }
    forall j: nat | j < |t.shrinks|
      ensures ShrinkOk(t.allocs, t.shrinks[j])
    {
      assert ShrinkOk(s.allocs, s.shrinks[j]);
    }
  }

  lemma {:induction false} NoneTaken(shrinks: seq<Shrink>, i: nat)
    requires forall j: nat :: j < |shrinks| ==> shrinks[j].alloc != i
    ensures Taken(shrinks, i) == 0
  {
    if shrinks != [] {
      NoneTaken(shrinks[..|shrinks| - 1], i);
    }
  }

  lemma NothingTaken(s: State, i: nat)
    requires Inv(s) && (i < |s.allocs| ==> !s.allocs[i].Owned?)
    ensures Taken(s.shrinks, i) == 0
  {
    forall j: nat | j < |s.shrinks|
      ensures s.shrinks[j].alloc != i
    {
      assert ShrinkOk(s.allocs, s.shrinks[j]);
    }
    NoneTaken(s.shrinks, i);
  }

  lemma CallShrinkKeeps(s: State, alloc: nat, newLength: int)
    requires Inv(s) && Enabled(s, CallShrink(alloc, newLength))
    ensures Inv(Apply(s, CallShrink(alloc, newLength)))
  {
    var c := Shrink(alloc, newLength, Comparing);
    var t := s.(shrinks := s.shrinks + [c]);
    OneMoreCall(s.shrinks, c);
    hide Worths, Flights, Taken;
    forall i: nat | i < |t.allocs|
      ensures Telescopes(t, i)
    {
      OneMoreTaker(s.shrinks, c, i);
      assert Telescopes(s, i);
    }
    forall j: nat | j < |t.shrinks|
      ensures ShrinkOk(t.allocs, t.shrinks[j])
    {
      assert j < |s.shrinks| ==> ShrinkOk(s.allocs, s.shrinks[j]);
    }
  }

  /** A call adds what it has in flight, and what it has taken, to all the others. */
  lemma OneMoreCall(shrinks: seq<Shrink>, c: Shrink)
    ensures Flights(shrinks + [c]) == Flights(shrinks) + InFlight(c)
  {
    assert (shrinks + [c])[..|shrinks|] == shrinks;
  }

  lemma OneMoreTaker(shrinks: seq<Shrink>, c: Shrink, i: nat)
    ensures Taken(shrinks + [c], i) == Taken(shrinks, i) + TakenFrom(c, i)
  {
    assert (shrinks + [c])[..|shrinks|] == shrinks;
  }

  /** What an `alloc` step does to its own allocation and to the pool. */
  lemma AllocStep(s: State, i: nat)
    requires Inv(s) && Enabled(s, GoAlloc(i))
    ensures var t := AfterAlloc(s, i);
            && t.poolSize == s.poolSize && t.shrinks == s.shrinks && |t.allocs| == |s.allocs|
            && t.allocs == s.allocs[i := t.allocs[i]]
            && AllocOk(t.allocs[i]) && 0 <= t.pool
            && t.pool + Worth(t.allocs[i]) == s.pool + Worth(s.allocs[i])
            && (t.allocs[i].Owned? ==> t.allocs[i].amountLong == t.allocs[i].amount)
  {
    Bounds(s);
    assert AllocOk(s.allocs[i]);
    hide Worths, Flights, Taken;
    match s.allocs[i] {
      case Swapping(r, was) =>
        LongFits(was - r);
        LongFits(was - NewPool(was, r));
      case Storing(r, long) => IntFits(long);
      case _ =>
    }
  }

  /** A request gets all it asked for, or all there was at the moment of its compare-and-set. */
  lemma GrantsWhatIsLeft(s: State, i: nat)
    requires Inv(s) && Enabled(s, GoAlloc(i)) && s.allocs[i].Swapping? && s.allocs[i].oldVal == s.pool
    ensures var t, r := AfterAlloc(s, i), s.allocs[i].requested;
            t.allocs[i] == Storing(r, Min(r, s.pool)) && t.pool == s.pool - Min(r, s.pool)
  {
    Bounds(s);
    assert AllocOk(s.allocs[i]);
    var r := s.allocs[i].requested;
    LongFits(s.pool - r);
    LongFits(s.pool - NewPool(s.pool, r));
    hide Inv, ToInt, ToLong;
  }

  lemma GoAllocKeeps(s: State, i: nat)
    requires Inv(s) && Enabled(s, GoAlloc(i))
    ensures Inv(AfterAlloc(s, i))
  {
    AllocStep(s, i);
    NothingTaken(s, i);
    var t := AfterAlloc(s, i);
    WorthsUpdate(s.allocs, i, t.allocs[i]);
    hide AfterAlloc, Enabled, Worths, Flights, Taken, Worth;
    forall k: nat | k < |t.allocs|
      ensures AllocOk(t.allocs[k]) && Telescopes(t, k)
    {
      assert AllocOk(s.allocs[k]) && Telescopes(s, k);
    }
    forall j: nat | j < |t.shrinks|
      ensures ShrinkOk(t.allocs, t.shrinks[j])
    {
      assert ShrinkOk(s.allocs, s.shrinks[j]);
    }
  }

  /** What a `shrinkTo` step does to its call, to the allocation it works on and to the pool. */
  lemma ShrinkStep(s: State, j: nat)
    requires Inv(s) && Enabled(s, GoShrink(j))
    ensures var t, c := AfterShrink(s, j), s.shrinks[j];
            && t.poolSize == s.poolSize && |t.shrinks| == |s.shrinks| && |t.allocs| == |s.allocs|
            && t.shrinks == s.shrinks[j := t.shrinks[j]]
            && t.allocs == s.allocs[c.alloc := Lowered(s.allocs[c.alloc], t.allocs[c.alloc].amount)]
            && t.shrinks[j] == c.(at := t.shrinks[j].at)
            && t.allocs[c.alloc].amount <= s.allocs[c.alloc].amount
            && AllocOk(t.allocs[c.alloc]) && ShrinkOk(t.allocs, t.shrinks[j]) && 0 <= t.pool
            && t.pool + t.allocs[c.alloc].amount + InFlight(t.shrinks[j])
               == s.pool + s.allocs[c.alloc].amount + InFlight(c)
            && t.allocs[c.alloc].amount + TakenFrom(t.shrinks[j], c.alloc)
               == s.allocs[c.alloc].amount + TakenFrom(c, c.alloc)
  {
    var c := s.shrinks[j];
    var mine := s.allocs[c.alloc];
    assert AllocOk(mine) && ShrinkOk(s.allocs, c);
    Bounds(s);
    assert s.pool + InFlight(c) <= s.poolSize;
    hide Inv, ToInt, ToLong;
    match c.at {
      case Loading => IntFits(mine.amount - c.newLength);
      case GivingUp(was) => IntFits(was - c.newLength);
      case Returning(diff, seen) => if seen == s.pool { LongFits(seen + diff); }
      case _ =>
    }
  }

  lemma StillTelescopes(s: State, j: nat, i: nat)
    requires Inv(s) && Enabled(s, GoShrink(j)) && i < |s.allocs|
    ensures var t := AfterShrink(s, j);
            |t.allocs| == |s.allocs| && AllocOk(t.allocs[i]) && Telescopes(t, i)
  {
    hide Worths, Flights;
    ShrinkStep(s, j);
    assert AllocOk(s.allocs[i]) && Telescopes(s, i);
    hide AfterShrink, Inv, Taken;
    TakenUpdate(s.shrinks, j, AfterShrink(s, j).shrinks[j], i);
  }

  lemma StillOk(s: State, j: nat, k: nat)
    requires Inv(s) && Enabled(s, GoShrink(j)) && k < |s.shrinks|
    ensures var t := AfterShrink(s, j);
            |t.shrinks| == |s.shrinks| && ShrinkOk(t.allocs, t.shrinks[k])
  {
    hide Worths, Flights, Telescopes;
    ShrinkStep(s, j);
    assert ShrinkOk(s.allocs, s.shrinks[k]);
    hide AfterShrink, Inv;
  }

  lemma GoShrinkKeeps(s: State, j: nat)
    requires Inv(s) && Enabled(s, GoShrink(j))
    ensures Inv(AfterShrink(s, j))
  {
    hide ToInt, ToLong, AllocOk, Telescopes, ShrinkOk, Worths, Flights, Taken;
    ShrinkStep(s, j);
    var t, a := AfterShrink(s, j), s.shrinks[j].alloc;
    WorthsUpdate(s.allocs, a, t.allocs[a]);
    FlightsUpdate(s.shrinks, j, t.shrinks[j]);
    forall i: nat | i < |t.allocs|
      ensures AllocOk(t.allocs[i]) && Telescopes(t, i)
    {
      StillTelescopes(s, j, i);
    }
    forall k: nat | k < |t.shrinks|
      ensures ShrinkOk(t.allocs, t.shrinks[k])
    {
      StillOk(s, j, k);
    }
  }

  predicate Asks(e: Step) { e.CallAlloc? ==> e.requested >= 0 }

  lemma StepKeeps(s: State, e: Step)
    requires Inv(s) && Enabled(s, e) && Asks(e)
    ensures Inv(Apply(s, e))
  {
    hide Inv, AfterAlloc, AfterShrink;
    match e
    case CallAlloc(requested) => CallAllocKeeps(s, requested);
    case GoAlloc(i) => GoAllocKeeps(s, i);
    case CallShrink(alloc, newLength) => CallShrinkKeeps(s, alloc, newLength);
    case GoShrink(j) => GoShrinkKeeps(s, j);
  }

  /** `steps`, of any number of calls in any interleaving, lead from `s` to `t`. */
  ghost predicate Runs(s: State, steps: seq<Step>, t: State)
    decreases |steps|
  {
    if steps == [] then t == s else Enabled(s, steps[0]) && Runs(Apply(s, steps[0]), steps[1..], t)
  }

  lemma {:induction false} RunKeeps(s: State, steps: seq<Step>, t: State)
    requires Inv(s) && Runs(s, steps, t) && forall e :: e in steps ==> Asks(e)
    ensures Inv(t) && t.poolSize == s.poolSize
    decreases |steps|
  {
    if steps != [] {
      assert Asks(steps[0]);
      StepKeeps(s, steps[0]);
      assert Apply(s, steps[0]).poolSize == s.poolSize;
      hide Inv, Apply;
      RunKeeps(Apply(s, steps[0]), steps[1..], t);
    }
  }

  /**
   * Whatever calls interleave in whatever way: no byte is lost or made up, the pool stays within its size, no request
   * is granted more than it asked for, and the narrowing to 32 bits never goes wrong.
   */
  lemma EveryRunConserves(maxBytes: int, steps: seq<Step>, s: State)
    requires 0 <= maxBytes <= LONG_MAX
    requires Runs(Fresh(maxBytes), steps, s) && forall e :: e in steps ==> Asks(e)
    ensures s.pool + Worths(s.allocs) + Flights(s.shrinks) == maxBytes
    ensures 0 <= s.pool <= maxBytes
    ensures forall i: nat :: i < |s.allocs| ==> AllocOk(s.allocs[i]) && Telescopes(s, i)
  {
    RunKeeps(Fresh(maxBytes), steps, s);
    Bounds(s);
  }

  /** All calls have ended and every allocation has been closed. */
  ghost predicate AllClosed(s: State) {
    && (forall i: nat :: i < |s.allocs| ==> s.allocs[i].Owned? && Closed(s, i))
    && (forall j: nat :: j < |s.shrinks| ==> s.shrinks[j].at.Finished? || s.shrinks[j].at.Illegal?)
  }

  ghost predicate Closed(s: State, i: nat) {
    exists j: nat :: j < |s.shrinks| && IsClose(s.shrinks[j], i) && s.shrinks[j].at.Finished?
  }

  predicate IsClose(c: Shrink, i: nat) { c.alloc == i && c.newLength == 0 }

  lemma {:induction false} NothingOwned(allocs: seq<Alloc>)
    requires forall i: nat :: i < |allocs| ==> Worth(allocs[i]) == 0
    ensures Worths(allocs) == 0
  {
    if allocs != [] {
      NothingOwned(allocs[..|allocs| - 1]);
    }
  }

  lemma {:induction false} NothingInFlight(shrinks: seq<Shrink>)
    requires forall j: nat :: j < |shrinks| ==> InFlight(shrinks[j]) == 0
    ensures Flights(shrinks) == 0
  {
    if shrinks != [] {
      NothingInFlight(shrinks[..|shrinks| - 1]);
    }
  }

  /** Once all is closed the pool is full again, however many calls shrank or closed the same allocation. */
  lemma FullWhenAllClosed(maxBytes: int, steps: seq<Step>, s: State)
    requires 0 <= maxBytes <= LONG_MAX
    requires Runs(Fresh(maxBytes), steps, s) && forall e :: e in steps ==> Asks(e)
    requires AllClosed(s)
    ensures s.pool == maxBytes
    ensures forall i: nat :: i < |s.allocs| ==> Taken(s.shrinks, i) == s.allocs[i].amountLong
  {
    RunKeeps(Fresh(maxBytes), steps, s);
    hide Runs, Taken, Worths, Flights;
    forall i: nat | i < |s.allocs|
      ensures Worth(s.allocs[i]) == 0 && Taken(s.shrinks, i) == s.allocs[i].amountLong
    {
      assert Closed(s, i) && AllocOk(s.allocs[i]) && Telescopes(s, i);
      var j: nat :| j < |s.shrinks| && IsClose(s.shrinks[j], i) && s.shrinks[j].at.Finished?;
      assert ShrinkOk(s.allocs, s.shrinks[j]);
    }
    NothingOwned(s.allocs);
    forall j: nat | j < |s.shrinks|
      ensures InFlight(s.shrinks[j]) == 0
    {
      assert s.shrinks[j].at.Finished? || s.shrinks[j].at.Illegal?;
    }
    NothingInFlight(s.shrinks);
  }

  /**
   * In whatever state the compare-and-set of a request succeeds: the pool stays within its size exactly if the request
   * is no less than minus the bytes missing in the pool, or the sum does not fit 64 bits and empties the pool.
   */
  lemma SwapKeepsBoundIff(s: State, i: nat)
    requires 0 <= s.pool <= s.poolSize <= LONG_MAX && Enabled(s, GoAlloc(i))
    requires s.allocs[i].Swapping? && s.allocs[i].oldVal == s.pool && -INT_MAX - 1 <= s.allocs[i].requested <= INT_MAX
    ensures var r := s.allocs[i].requested;
            AfterAlloc(s, i).pool <= s.poolSize <==> r >= s.pool - s.poolSize || s.pool - r > LONG_MAX
  {
    var r := s.allocs[i].requested;
    if s.pool - r <= LONG_MAX {
      LongFits(s.pool - r);
      hide ToLong;
    } else {
      LongWraps(s.pool - r);
      hide ToLong;
    }
  }

  lemma LongWraps(x: int)
    requires LONG_MAX < x <= 2 * LONG_MAX
    ensures ToLong(x) < 0
  {
  }

  /**
   * The pool's bound needs a non-negative request: alone on a full pool, `alloc` keeps it exactly for those (or where
   * the sum does not even fit 64 bits and the pool is emptied instead).
   */
  lemma BoundKeptIff(maxBytes: int, requested: int) returns (s: State)
    requires 0 <= maxBytes <= LONG_MAX && -INT_MAX - 1 <= requested <= INT_MAX
    ensures Runs(Fresh(maxBytes), [CallAlloc(requested), GoAlloc(0), GoAlloc(0)], s)
    ensures s.pool <= maxBytes <==> requested >= 0 || maxBytes - requested > LONG_MAX
  {
    var steps := [CallAlloc(requested), GoAlloc(0), GoAlloc(0)];
    var s1 := Apply(Fresh(maxBytes), steps[0]);
    var s2 := Apply(s1, steps[1]);
    s := Apply(s2, steps[2]);
    assert Runs(s, [], s);
    assert steps[2..][1..] == [] && steps[1..][1..] == steps[2..];
    assert Runs(s2, steps[2..], s);
    assert Runs(s1, steps[1..], s);
    if maxBytes - requested <= LONG_MAX {
      LongFits(maxBytes - requested);
    }
  }
}
