/**
 * Why every run of LogMerge ends: each step of any worker or of the event loop descends in a lexicographic
 * rank. Re-doing a round for a source that needs more is paid for by what that round must achieve for it.
 */
module LogProgress {
  import opened LogText
  import opened Sequences
  import opened LogMerge
  import opened LogBarrier

  // ----- what a pool task achieves -----

  /** Octets of a file that no consumed entry covers yet. */
  function Unconsumed(s: Src): nat { Max(0, |s.text| - s.beg + |s.unread|) }

  /** Octets not read yet, and the end of file not noticed yet. */
  function InputLeft(s: Src): nat { |s.unread| + if s.isEof then 0 else 1 }

  /** A need-more flag is stale once the file has ended; before, a missing one can still be raised. */
  function Stale(s: Src): nat { if s.isEof == s.needMore then 1 else 0 }

  /** Progress of one source: less input, or as much input and fewer stale flags. */
  predicate Further(s: Src, t: Src) {
    InputLeft(t) < InputLeft(s) || (InputLeft(t) == InputLeft(s) && Stale(t) < Stale(s))
  }

  lemma {:induction false} RefillProgress(s: Src, r: Read)
    requires Operable(s)
    ensures Unconsumed(Refill(s, r).src) == Unconsumed(s)
    ensures Further(s, Refill(s, r).src)
            || (InputLeft(Refill(s, r).src) == InputLeft(s) && Stale(Refill(s, r).src) == Stale(s)
                && Refill(s, r).src.needMore == s.needMore)
    ensures s.needMore && Refill(s, r).Reported? ==> Further(s, Refill(s, r).src)
    decreases s.needMore
  {
    hide TakeIn;
    var c := Compact(s);
    CompactProgress(s);
    if c.cap > |c.text| && !c.isEof {
      TakeInProgress(c, r);
    } else if c.needMore && |c.text| - c.beg <= ENTRY_LIMIT {
      var g := c.(needMore := false, cap := c.cap + GROW_STEP);
      CompactProgress(g);
      assert Refill(s, r) == Refill(g, r);
      if !c.isEof {
        TakeInProgress(g, r);
      }
    }
  }

  lemma CompactProgress(s: Src)
    requires Operable(s)
    ensures var c := Compact(s);
            && Operable(c) && Unconsumed(c) == Unconsumed(s) && InputLeft(c) == InputLeft(s) && Stale(c) == Stale(s)
            && c.needMore == s.needMore && c.isEof == s.isEof && Compact(c) == c
  {
  }

  lemma TakeInProgress(c: Src, r: Read)
    requires Operable(c) && c.cap > |c.text| && !c.isEof
    ensures InputLeft(TakeIn(c, r)) < InputLeft(c) && Unconsumed(TakeIn(c, r)) == Unconsumed(c)
  {
  }

  lemma MarkProgress(s: Src)
    requires Operable(s)
    ensures Unconsumed(Mark(s)) == Unconsumed(s) && InputLeft(Mark(s)) == InputLeft(s) && Stale(Mark(s)) <= Stale(s)
  {
  }

  /** Every entry is long enough that consuming it consumes something. */
  lemma ConsumeProgress(s: Src, file: Text, rest: Log)
    requires Settled(s, file, rest) && !s.noMore && Stamped(rest)
    ensures Unconsumed(Consume(s)) < Unconsumed(s)
  {
    hide Rest;
    assert |rest[0]| >= 19;
  }

  // ----- sums over sources -----

  function Total(f: Src -> nat, srcs: seq<Src>): nat {
    if srcs == [] then 0 else f(srcs[0]) + Total(f, srcs[1..])
  }

  lemma {:induction false} TotalUpdate(f: Src -> nat, srcs: seq<Src>, i: nat, s: Src)
    requires i < |srcs|
    ensures Total(f, srcs[i := s]) == Total(f, srcs) - f(srcs[i]) + f(s)
  {
    if i == 0 {
      assert srcs[i := s][1..] == srcs[1..];
    } else {
      assert srcs[i := s][1..] == srcs[1..][i - 1 := s];
      TotalUpdate(f, srcs[1..], i - 1, s);
    }
  }

  /** The three sums after one source has changed. */
  lemma TotalsUpdate(srcs: seq<Src>, i: nat, s: Src)
    requires i < |srcs|
    ensures Total(Unconsumed, srcs[i := s]) == Total(Unconsumed, srcs) - Unconsumed(srcs[i]) + Unconsumed(s)
    ensures Total(InputLeft, srcs[i := s]) == Total(InputLeft, srcs) - InputLeft(srcs[i]) + InputLeft(s)
    ensures Total(Stale, srcs[i := s]) == Total(Stale, srcs) - Stale(srcs[i]) + Stale(s)
  {
    TotalUpdate(Unconsumed, srcs, i, s);
    TotalUpdate(InputLeft, srcs, i, s);
    TotalUpdate(Stale, srcs, i, s);
  }

  // ----- the rank -----

  /** What is still to happen for source `i`: a task starts, finishes, and is reported. */
  function PendingAt(items: multiset<Item>, i: nat): nat {
    3 * (items[Task(DoRefill, i, false)] + items[Task(DoMark, i, false)])
    + 2 * (items[Task(DoRefill, i, true)] + items[Task(DoMark, i, true)])
    + items[Report(DoRefill, i)] + items[Report(DoMark, i)]
  }

  function Pending(items: multiset<Item>, n: nat): nat {
    if n == 0 then 0 else Pending(items, n - 1) + PendingAt(items, n - 1)
  }

  function ToLaunch(st: State): nat {
    match st.pc
    case Idle => 0
    case Launching(_, next, enqueued) => Max(0, 5 * (|st.srcs| - next) - if enqueued then 4 else 0)
  }

  predicate Refilling(st: State) {
    (st.pc.Launching? && st.pc.op == DoRefill) || (st.pc.Idle? && st.refills > 0)
  }

  predicate Marking(st: State) {
    (st.pc.Launching? && st.pc.op == DoMark) || (st.pc.Idle? && st.marks > 0)
  }

  /** Steps left in the current round. */
  function Micro(st: State): nat {
    var n := |st.srcs|;
    if Refilling(st) then 5 + 5 * n + ToLaunch(st) + Pending(st.items, n)
    else if Marking(st) then 3 + ToLaunch(st) + Pending(st.items, n)
    else if Call(RefillAll) in st.items then 6 + 10 * n
    else if Call(MarkAll) in st.items then 4 + 5 * n
    else if Call(FindOldest) in st.items then 2
    else if Call(WriteLowest) in st.items then 1
    else 0
  }

  /** Some source that needs more is still to be refilled in this round. */
  ghost predicate Armed(st: State) {
    && st.exit == 0
    && (Refilling(st) || Call(RefillAll) in st.items)
    && exists i: nat :: i < |st.srcs| && st.srcs[i].needMore && (Refilling(st) ==> st.finished[i] == 0)
  }

  datatype Rank = Rank(running: nat, unconsumed: nat, inputLeft: nat, stale: nat, unarmed: nat, micro: nat)

  ghost function RankOf(st: State): Rank {
    Rank(if st.exit == 0 then 1 else 0, Total(Unconsumed, st.srcs), Total(InputLeft, st.srcs),
         Total(Stale, st.srcs), if Armed(st) then 0 else 1, Micro(st))
  }

  predicate Below(a: Rank, b: Rank) {
    || a.running < b.running
    || (a.running == b.running
        && (|| a.unconsumed < b.unconsumed
            || (a.unconsumed == b.unconsumed
                && (|| a.inputLeft < b.inputLeft
                    || (a.inputLeft == b.inputLeft
                        && (|| a.stale < b.stale
                            || (a.stale == b.stale
                                && (|| a.unarmed < b.unarmed
                                    || (a.unarmed == b.unarmed && a.micro < b.micro)))))))))
  }

  lemma {:induction false} PendingMove(items: multiset<Item>, after: multiset<Item>, n: nat, i: nat)
    requires forall j: nat :: j < n && j != i ==> PendingAt(after, j) == PendingAt(items, j)
    ensures Pending(after, n) == Pending(items, n) + if i < n then PendingAt(after, i) - PendingAt(items, i) else 0
  {
    if n > 0 {
      PendingMove(items, after, n - 1, i);
    }
  }

  lemma {:induction false} NothingPending(n: nat)
    ensures Pending(multiset{}, n) == 0
  {
    if n > 0 {
      NothingPending(n - 1);
    }
  }

  /** Taking out one item of source `i` and putting another of it in moves only what is pending for `i`. */
  lemma PendingSwap(items: multiset<Item>, x: Item, y: Item, n: nat)
    requires x in items && !x.Call? && !y.Call? && y.src == x.src
    ensures Pending(items - multiset{x} + multiset{y}, n) - Pending(items, n)
            == if x.src < n then PendingAt(multiset{y}, x.src) - PendingAt(multiset{x}, x.src) else 0
  {
    var after := items - multiset{x} + multiset{y};
    forall j: nat | j < n && j != x.src
      ensures PendingAt(after, j) == PendingAt(items, j)
    {
      SwapAt(items, x, y, j);
    }
    SwapAt(items, x, y, x.src);
    hide PendingAt, Pending;
    PendingMove(items, after, n, x.src);
  }

  lemma SwapAt(items: multiset<Item>, x: Item, y: Item, j: nat)
    requires x in items && !x.Call? && !y.Call? && y.src == x.src
    ensures PendingAt(items - multiset{x} + multiset{y}, j) - PendingAt(items, j)
            == if j == x.src then PendingAt(multiset{y}, j) - PendingAt(multiset{x}, j) else 0
  {
  }

  lemma PendingDrop(items: multiset<Item>, x: Item, n: nat)
    requires x in items && !x.Call?
    ensures Pending(items - multiset{x}, n)
         == Pending(items, n) - if x.src < n then PendingAt(multiset{x}, x.src) else 0
  {
    PendingMove(items, items - multiset{x}, n, x.src);
  }

  // ----- every step descends -----

  lemma LaunchMicro(st: State)
    requires st.pc.Launching? && Phase(st, st.pc.op)
    ensures Micro(LaunchStep(st)) < Micro(st) && (Armed(LaunchStep(st)) <==> Armed(st))
  {
    LaunchBasics(st);
    LaunchPending(st);
    hide Phase, ItemsOf, LaunchStep, Pending, ToLaunch;
  }

  lemma LaunchBasics(st: State)
    requires st.pc.Launching? && Phase(st, st.pc.op)
    ensures var after := LaunchStep(st);
            && after.srcs == st.srcs && after.finished == st.finished && after.exit == st.exit
            && (Refilling(after) <==> Refilling(st)) && (Marking(after) <==> Marking(st))
            && ToLaunch(after) + (if st.pc.enqueued then 0 else 3) < ToLaunch(st)
  {
    hide Accounted, ItemsOf;
  }

  lemma LaunchPending(st: State)
    requires st.pc.Launching? && Phase(st, st.pc.op)
    ensures var after, n := LaunchStep(st), |st.srcs|;
            Pending(after.items, n) == Pending(st.items, n) + if st.pc.enqueued then 0 else 3
  {
    hide Accounted, ItemsOf;
    if !st.pc.enqueued {
      PendingMove(st.items, LaunchStep(st).items, |st.srcs|, st.pc.next);
    }
  }

  lemma LaunchDescends(cfg: Config, st: State)
    requires Inv(cfg, st) && Enabled(st, Launch)
    ensures Below(RankOf(LaunchStep(st)), RankOf(st))
  {
    hide DataInv, MarkedSoFar, AllSettled, Micro, Armed, ItemsOf, Accounted;
    var rests :| InvWith(cfg, st, rests);
    assert Phase(st, st.pc.op);
    LaunchMicro(st);
  }

  /** Which phase is under way, by the counters and the program counter. */
  lemma PhaseKind(st: State, op: Op)
    requires Phase(st, op)
    ensures (Refilling(st) <==> op == DoRefill) && (Marking(st) <==> op == DoMark)
    ensures Launched(st) <= |st.srcs| && forall cb :: Call(cb) !in st.items
    ensures forall x :: x in st.items ==> x.op == op && x.src < |st.srcs|
  {
    hide Accounted;
  }

  lemma TaskPhase(cfg: Config, st: State, op: Op, i: nat, started: bool)
    requires Inv(cfg, st) && Task(op, i, started) in st.items
    ensures Phase(st, op)
  {
    hide DataInv, MarkedSoFar, AllSettled, OnceEach, Accounted;
    var rests :| InvWith(cfg, st, rests);
  }

  lemma BeginDescends(cfg: Config, st: State, op: Op, i: nat)
    requires Inv(cfg, st) && Enabled(st, Begin(op, i))
    ensures Below(RankOf(Apply(cfg, st, Begin(op, i))), RankOf(st))
  {
    hide Inv, Phase, Pending, Total;
    TaskPhase(cfg, st, op, i, false);
    PhaseKind(st, op);
    PendingSwap(st.items, Task(op, i, false), Task(op, i, true), |st.srcs|);
    assert Armed(st) <==> Armed(Apply(cfg, st, Begin(op, i)));
  }

  lemma FinishMicro(st: State, op: Op, i: nat, r: Read)
    requires Phase(st, op) && Enabled(st, Finish(op, i, r))
    ensures Micro(FinishStep(st, op, i, r)) < Micro(st)
  {
    hide Phase, Refill, Mark, Pending;
    PhaseKind(st, op);
    PendingSwap(st.items, Task(op, i, true), Report(op, i), |st.srcs|);
    PendingDrop(st.items, Task(op, i, true), |st.srcs|);
  }

  /** Finishing a task that achieves nothing leaves the source that needs more still to be refilled. */
  lemma FinishStaysArmed(st: State, op: Op, i: nat, r: Read)
    requires Phase(st, op) && Enabled(st, Finish(op, i, r)) && Armed(st)
    requires FinishStep(st, op, i, r).exit == 0 && !Further(st.srcs[i], FinishStep(st, op, i, r).srcs[i])
    ensures Armed(FinishStep(st, op, i, r))
  {
    hide Mark, Accounted, Further;
    var after := FinishStep(st, op, i, r);
    var j: nat :| j < |st.srcs| && st.srcs[j].needMore && (Refilling(st) ==> st.finished[j] == 0);
    RefillProgress(st.srcs[i], r);
    assert after.srcs[j].needMore && after.finished[j] == 0;
  }

  lemma ArmedRuns(st: State)
    ensures Armed(st) ==> st.exit == 0
  {
  }

  lemma FinishDescends(cfg: Config, st: State, op: Op, i: nat, r: Read)
    requires Inv(cfg, st) && Enabled(st, Finish(op, i, r))
    ensures Below(RankOf(FinishStep(st, op, i, r)), RankOf(st))
  {
    hide Inv, Phase, Refill, Mark, Micro, Total, Armed, Unconsumed, InputLeft, Stale;
    TaskPhase(cfg, st, op, i, true);
    ArmedRuns(st);
    var after, s := FinishStep(st, op, i, r), st.srcs[i];
    FinishMicro(st, op, i, r);
    TotalsUpdate(st.srcs, i, after.srcs[i]);
    MarkProgress(s);
    RefillProgress(s, r);
    if after.exit == 0 && !Further(s, after.srcs[i]) && Armed(st) {
      FinishStaysArmed(st, op, i, r);
    }
  }

  lemma RefillReportDescends(cfg: Config, st: State, i: nat)
    requires Inv(cfg, st) && Enabled(st, Handle(Report(DoRefill, i)))
    ensures Below(RankOf(Apply(cfg, st, Handle(Report(DoRefill, i)))), RankOf(st))
  {
    hide InvWith, Phase, Total, Pending, Accounted, ItemsOf;
    var rests :| InvWith(cfg, st, rests);
    hide Inv;
    RefillReportPhase(cfg, st, rests, i);
    PhaseKind(st, DoRefill);
    PhaseCount(st, DoRefill);
    PendingDrop(st.items, Report(DoRefill, i), |st.srcs|);
    var after := Apply(cfg, st, Handle(Report(DoRefill, i)));
    if st.refills > 1 {
      assert Armed(st) <==> Armed(after);
    } else {
      assert st.exit == 0;
      LastReport(st, DoRefill, i);
      assert !Armed(st);
    }
  }

  lemma PhaseCount(st: State, op: Op)
    requires Phase(st, op) && st.pc.Idle?
    ensures Count(st, op) > 0 && Count(st, Other(op)) == 0
    ensures st.items != multiset{} && Count(st, op) == 1 ==> st.exit == 0
  {
    hide ItemsOf, Accounted;
  }

  lemma MarkReportDescends(cfg: Config, st: State, i: nat)
    requires Inv(cfg, st) && Enabled(st, Handle(Report(DoMark, i)))
    ensures Below(RankOf(Apply(cfg, st, Handle(Report(DoMark, i)))), RankOf(st))
  {
    hide InvWith, Phase, Total, Pending, MarkedSoFar;
    var rests :| InvWith(cfg, st, rests);
    hide Inv;
    MarkReportPhase(cfg, st, rests, i);
    PhaseKind(st, DoMark);
    PhaseCount(st, DoMark);
    PendingDrop(st.items, Report(DoMark, i), |st.srcs|);
    if st.marks == 1 {
      LastReport(st, DoMark, i);
      SomeRequest(cfg, st, rests);
    }
  }

  /** A request that a mark has passed on is still that of some source. */
  lemma SomeRequest(cfg: Config, st: State, rests: seq<Log>)
    requires InvWith(cfg, st, rests) && MarkedSoFar(cfg, st, rests)
    ensures st.needMore ==> exists i: nat :: i < |st.srcs| && st.srcs[i].needMore
  {
    hide DataInv, Settled;
  }

  lemma LaunchCallDescends(cfg: Config, st: State, cb: Callback)
    requires Inv(cfg, st) && Enabled(st, Handle(Call(cb))) && (cb == RefillAll || cb == MarkAll)
    ensures Below(RankOf(Apply(cfg, st, Handle(Call(cb)))), RankOf(st))
  {
    hide InvWith, DataInv, MarkedSoFar, AllSettled, OnceEach, Total, Pending;
    var rests :| InvWith(cfg, st, rests);
    hide Inv;
    CallIsAlone(cfg, st, rests, cb);
    var after := Apply(cfg, st, Handle(Call(cb)));
    assert after.items == multiset{};
    NothingPending(|st.srcs|);
    if Armed(st) {
      var j: nat :| j < |st.srcs| && st.srcs[j].needMore && (Refilling(st) ==> st.finished[j] == 0);
      assert after.srcs[j].needMore && after.finished[j] == 0;
    }
  }

  lemma FindCallDescends(cfg: Config, st: State)
    requires Inv(cfg, st) && Enabled(st, Handle(Call(FindOldest)))
    ensures Below(RankOf(Apply(cfg, st, Handle(Call(FindOldest)))), RankOf(st))
  {
    hide DataInv, MarkedSoFar, AllSettled, Total, OfferedBy, AnyLive, Pick;
    var rests :| InvWith(cfg, st, rests);
    CallIsAlone(cfg, st, rests, FindOldest);
    var after := Apply(cfg, st, Handle(Call(FindOldest)));
    assert st.items - multiset{Call(FindOldest)} == multiset{};
    assert !Armed(st) && !Armed(after);
  }

  lemma WriteDescends(cfg: Config, st: State)
    requires Inv(cfg, st) && Enabled(st, Handle(Call(WriteLowest)))
    ensures Below(RankOf(Apply(cfg, st, Handle(Call(WriteLowest)))), RankOf(st))
  {
    hide MarkedSoFar, Shows, Sized, Total, Pick, Micro, Settled, MergeFrom;
    var rests :| InvWith(cfg, st, rests);
    CallIsAlone(cfg, st, rests, WriteLowest);
    var p := st.lowest;
    assert Settled(st.srcs[p], cfg.files[p], rests[p]);
    ConsumeProgress(st.srcs[p], cfg.files[p], rests[p]);
    TotalsUpdate(st.srcs, p, Consume(st.srcs[p]));
  }

  lemma StepDescends(cfg: Config, st: State, step: Step)
    requires Inv(cfg, st) && Enabled(st, step)
    ensures Below(RankOf(Apply(cfg, st, step)), RankOf(st))
  {
    hide Inv, RankOf, Below;
    match step
    case Launch => LaunchDescends(cfg, st);
    case Begin(op, i) => BeginDescends(cfg, st, op, i);
    case Finish(op, i, r) => FinishDescends(cfg, st, op, i, r);
    case Handle(Report(DoRefill, i)) => RefillReportDescends(cfg, st, i);
    case Handle(Report(DoMark, i)) => MarkReportDescends(cfg, st, i);
    case Handle(Call(FindOldest)) => FindCallDescends(cfg, st);
    case Handle(Call(WriteLowest)) => WriteDescends(cfg, st);
    case Handle(Call(cb)) => LaunchCallDescends(cfg, st, cb);
  }

  // ----- no schedule runs for ever -----

  /** The state after `k` steps of an endless schedule; a step that is not enabled changes nothing. */
  function StateAt(cfg: Config, schedule: nat -> Step, k: nat): State {
    if k == 0 then Initial(cfg)
    else
      var st := StateAt(cfg, schedule, k - 1);
      if Enabled(st, schedule(k - 1)) then Apply(cfg, st, schedule(k - 1)) else st
  }

  lemma {:induction false} StateAtInv(cfg: Config, schedule: nat -> Step, k: nat)
    ensures Inv(cfg, StateAt(cfg, schedule, k))
  {
    hide Inv, InvWith;
    if k == 0 {
      StartInv(cfg);
      InvFrom(cfg, Initial(cfg), AllEntries(cfg.files));
    } else {
      StateAtInv(cfg, schedule, k - 1);
      var st := StateAt(cfg, schedule, k - 1);
      if Enabled(st, schedule(k - 1)) {
        StepKeeps(cfg, st, schedule(k - 1));
      }
    }
  }

  lemma InvFrom(cfg: Config, st: State, rests: seq<Log>)
    requires InvWith(cfg, st, rests)
    ensures Inv(cfg, st)
  {
  }

  lemma {:induction false} StopsFrom(cfg: Config, schedule: nat -> Step, k: nat, r: Rank) returns (m: nat)
    requires r == RankOf(StateAt(cfg, schedule, k))
    ensures m >= k && !Enabled(StateAt(cfg, schedule, m), schedule(m))
    decreases r.running, r.unconsumed, r.inputLeft, r.stale, r.unarmed, r.micro
  {
    hide Inv, RankOf, Apply, Enabled;
    var st := StateAt(cfg, schedule, k);
    if Enabled(st, schedule(k)) {
      StateAtInv(cfg, schedule, k);
      StepDescends(cfg, st, schedule(k));
      m := StopsFrom(cfg, schedule, k + 1, RankOf(StateAt(cfg, schedule, k + 1)));
    } else {
      m := k;
    }
  }

  /** A schedule that never names a disabled step before everything is quiescent gets there. */
  lemma EveryScheduleEnds(cfg: Config, schedule: nat -> Step)
    requires forall k: nat :: Quiescent(StateAt(cfg, schedule, k)) || Enabled(StateAt(cfg, schedule, k), schedule(k))
    ensures exists m: nat :: Quiescent(StateAt(cfg, schedule, m))
  {
    var m := StopsFrom(cfg, schedule, 0, RankOf(StateAt(cfg, schedule, 0)));
    assert Quiescent(StateAt(cfg, schedule, m));
  }
}
