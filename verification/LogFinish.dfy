/**
 * When LogMerge comes to its end: which files never make it give up, which always do, and why no need-more flag goes
 * stale as long as every `fread` does what the C standard says.
 */
module LogFinish {
  import opened LogText
  import opened LogReads
  import opened LogMerge
  import opened LogBarrier
  import opened LogProgress

  /** The read of a refill is one that the C standard allows. */
  predicate FullStep(st: State, step: Step) {
    step.Finish? && step.op == DoRefill && step.src < |st.srcs| ==> FullRead(st.srcs[step.src], step.read)
  }

  predicate FullReads(cfg: Config, st: State, steps: seq<Step>)
    decreases |steps|
  {
    || steps == []
    || !Enabled(st, steps[0])
    || (FullStep(st, steps[0]) && FullReads(cfg, Apply(cfg, st, steps[0]), steps[1..]))
  }

  // ----- no request goes stale -----

  ghost predicate AllAsk(srcs: seq<Src>) { forall i :: 0 <= i < |srcs| ==> Asks(srcs[i]) }

  ghost predicate AllRefreshed(srcs: seq<Src>) { forall i :: 0 <= i < |srcs| ==> Refreshed(srcs[i]) }

  /** The sources that have, or have not, had their turn in this phase are refreshed. */
  ghost predicate RefreshedWhere(st: State, done: bool) {
    forall i: nat :: i < |st.srcs| && (st.finished[i] > 0 <==> done) ==> Refreshed(st.srcs[i])
  }

  /** Requests have their reason; refilling answers them, and until a source is marked they stay answered. */
  ghost predicate ReadInv(st: State) {
    && AllAsk(st.srcs)
    && (st.exit == 0 && Refilling(st) ==> RefreshedWhere(st, true))
    && (st.exit == 0 && Marking(st) ==> RefreshedWhere(st, false))
    && (Call(MarkAll) in st.items ==> AllRefreshed(st.srcs))
  }

  lemma StartReadInv(cfg: Config)
    ensures ReadInv(Initial(cfg))
  {
  }

  lemma FinishPhase(cfg: Config, st: State, op: Op, i: nat)
    requires Inv(cfg, st) && Task(op, i, true) in st.items
    ensures Phase(st, op) && i < |st.srcs| && Sized(st.srcs[i])
    ensures op == DoMark ==> st.exit == 0
    ensures st.exit == 0 ==> st.finished[i] == 0
    ensures (Refilling(st) <==> op == DoRefill) && (Marking(st) <==> op == DoMark) && Call(MarkAll) !in st.items
  {
    hide Inv, InvWith, Shows, Sized, MergeFrom, Accounted, ItemsOf, Refilling, Marking;
    TaskPhase(cfg, st, op, i, true);
    PhaseKind(st, op);
    TaskIsAlone(st, op, i);
    var rests := SomeRests(cfg, st);
  }

  lemma FinishReads(cfg: Config, st: State, op: Op, i: nat, r: Read)
    requires Inv(cfg, st) && ReadInv(st) && Enabled(st, Finish(op, i, r)) && FullStep(st, Finish(op, i, r))
    ensures ReadInv(FinishStep(st, op, i, r))
  {
    hide Inv, Phase, Asks, Refreshed, Refill, Mark, FullRead, Sized;
    FinishPhase(cfg, st, op, i);
    if op == DoRefill {
      RefillFull(st.srcs[i], r);
      RefillAsks(st.srcs[i], r);
    } else {
      MarkAsks(st.srcs[i]);
    }
  }

  lemma RefillAsks(s: Src, r: Read)
    requires Sized(s) && Asks(s) && FullRead(s, r)
    ensures Asks(Refill(s, r).src)
  {
    hide Refill, FullRead;
    RefillFull(s, r);
  }

  /** A step of the event loop that starts no task of its own leaves the reads as they are. */
  lemma LaunchReads(cfg: Config, st: State)
    requires Inv(cfg, st) && ReadInv(st) && Enabled(st, Launch)
    ensures ReadInv(LaunchStep(st))
  {
    hide DataInv, MarkedSoFar, AllSettled, Asks, Refreshed, ItemsOf, Accounted;
    var rests :| InvWith(cfg, st, rests);
    LaunchBasics(st);
  }

  lemma ReportReads(cfg: Config, st: State, op: Op, i: nat)
    requires Inv(cfg, st) && ReadInv(st) && Enabled(st, Handle(Report(op, i)))
    ensures ReadInv(Apply(cfg, st, Handle(Report(op, i))))
  {
    hide InvWith, ItemsOf, Accounted, AllAsk, AllRefreshed, RefreshedWhere, OnceEach;
    var rests :| InvWith(cfg, st, rests);
    hide Inv;
    SameReads(st, Apply(cfg, st, Handle(Report(op, i))));
    if op == DoMark {
      MarkReportPhase(cfg, st, rests, i);
    } else {
      RefillReportPhase(cfg, st, rests, i);
      if st.refills == 1 && st.exit == 0 {
        LastReport(st, op, i);
        AllDone(st);
      }
    }
  }

  lemma SameReads(st: State, after: State)
    requires after.srcs == st.srcs && after.finished == st.finished
    ensures forall done :: RefreshedWhere(after, done) <==> RefreshedWhere(st, done)
  {
    hide Refreshed;
  }

  lemma AllDone(st: State)
    requires RefreshedWhere(st, true) && OnceEach(st)
    ensures AllRefreshed(st.srcs)
  {
    hide Refreshed;
  }

  lemma CallReads(cfg: Config, st: State, cb: Callback)
    requires Inv(cfg, st) && ReadInv(st) && Enabled(st, Handle(Call(cb)))
    ensures ReadInv(Apply(cfg, st, Handle(Call(cb))))
  {
    hide InvWith, Asks, Refreshed, Consume, LaunchAll;
    var rests :| InvWith(cfg, st, rests);
    hide Inv;
    CallAlone(cfg, st, rests, cb);
    match cb
    case RefillAll => LaunchesAnew(st.(items := multiset{}), DoRefill);
    case MarkAll => LaunchesAnew(st.(items := multiset{}), DoMark);
    case WriteLowest => WriteReads(cfg, st, rests);
    case FindOldest =>
  }

  lemma CallAlone(cfg: Config, st: State, rests: seq<Log>, cb: Callback)
    requires InvWith(cfg, st, rests) && Call(cb) in st.items
    ensures Quiet(st) && st.items == multiset{Call(cb)} && st.items - multiset{Call(cb)} == multiset{}
  {
    hide DataInv, Phase, MarkedSoFar, AllSettled;
    CallIsAlone(cfg, st, rests, cb);
  }

  /** A phase begins with no source done. */
  lemma LaunchesAnew(st: State, op: Op)
    requires Quiet(st) && st.items == multiset{} && AllAsk(st.srcs) && (op == DoMark ==> AllRefreshed(st.srcs))
    ensures ReadInv(LaunchAll(st, op))
  {
    hide Asks, Refreshed;
  }

  lemma WriteReads(cfg: Config, st: State, rests: seq<Log>)
    requires InvWith(cfg, st, rests) && AllAsk(st.srcs) && Enabled(st, Handle(Call(WriteLowest)))
    ensures ReadInv(Apply(cfg, st, Handle(Call(WriteLowest))))
  {
    hide Shows, Sized, MergeFrom, Asks, Refreshed, Settled, LaunchAll, Consume, ReadInv, Pick, Drops, EntriesFrom;
    CallIsAlone(cfg, st, rests, WriteLowest);
    var p := st.lowest;
    assert !st.srcs[p].needMore;
    ConsumeAsks(st.srcs[p]);
    var emptied := st.(items := st.items - multiset{Call(WriteLowest)});
    assert emptied.items == multiset{};
    var e := Offered(st.srcs[p]).entry;
    var s := if cfg.dedupe && Drops(st.last, e) then emptied else emptied.(written := st.written + [e], last := e);
    LaunchesAnew(s.(srcs := st.srcs[p := Consume(st.srcs[p])]), DoRefill);
  }

  lemma ConsumeAsks(s: Src)
    requires !s.needMore
    ensures Asks(Consume(s))
  {
  }

  lemma StepReads(cfg: Config, st: State, step: Step)
    requires Inv(cfg, st) && ReadInv(st) && Enabled(st, step) && FullStep(st, step)
    ensures ReadInv(Apply(cfg, st, step))
  {
    hide Inv, Asks, Refreshed, FullRead;
    match step
    case Launch => LaunchReads(cfg, st);
    case Begin(op, i) =>
    case Finish(op, i, r) => FinishReads(cfg, st, op, i, r);
    case Handle(Report(op, i)) => ReportReads(cfg, st, op, i);
    case Handle(Call(cb)) => CallReads(cfg, st, cb);
  }

  lemma {:induction false} RunReads(cfg: Config, st: State, steps: seq<Step>, end: State)
    requires Inv(cfg, st) && ReadInv(st) && Executes(cfg, st, steps, end) && FullReads(cfg, st, steps)
    ensures Inv(cfg, end) && ReadInv(end)
    decreases |steps|
  {
    hide Inv, ReadInv, FullStep, Enabled, Apply;
    if steps != [] {
      StepKeeps(cfg, st, steps[0]);
      StepReads(cfg, st, steps[0]);
      RunReads(cfg, Apply(cfg, st, steps[0]), steps[1..], end);
    }
  }

  /** With reads that obey the standard no source that has seen its end ever asks for more: line 391 always holds. */
  lemma NoRequestGoesStale(cfg: Config, steps: seq<Step>, end: State)
    requires Executes(cfg, Initial(cfg), steps, end) && FullReads(cfg, Initial(cfg), steps)
    ensures forall s :: s in end.srcs ==> !(s.needMore && s.isEof)
  {
    hide Inv, FullReads, Executes;
    StartReadInv(cfg);
    StartInv(cfg);
    InvFrom(cfg, Initial(cfg), AllEntries(cfg.files));
    RunReads(cfg, Initial(cfg), steps, end);
    assert forall s :: s in end.srcs ==> Asks(s);
  }

  // ----- which files never make it give up -----

  predicate SmallFiles(cfg: Config) { forall file :: file in cfg.files ==> |file| <= 0xFFFFFF }

  ghost predicate FittingFiles(cfg: Config) { forall file :: file in cfg.files ==> EntriesFit(file) }

  ghost predicate AtBoundaries(cfg: Config, st: State) {
    |st.srcs| == |cfg.files| && forall i :: 0 <= i < |st.srcs| ==> AtBoundary(st.srcs[i], cfg.files[i])
  }

  /** It has not given up, and what the files and the reads promise says that it will not. */
  ghost predicate Safe(cfg: Config, st: State) {
    && Inv(cfg, st) && st.exit == 0
    && (SmallFiles(cfg) || (FittingFiles(cfg) && ReadInv(st) && AtBoundaries(cfg, st)))
  }

  lemma StartSafe(cfg: Config)
    requires SmallFiles(cfg) || FittingFiles(cfg)
    ensures Safe(cfg, Initial(cfg))
  {
    hide Inv, InvWith, ReadInv, SmallFiles, FittingFiles, AtBoundary;
    StartInv(cfg);
    InvFrom(cfg, Initial(cfg), AllEntries(cfg.files));
    StartReadInv(cfg);
    forall i | 0 <= i < |cfg.files|
      ensures AtBoundary(Opened(cfg.files[i]), cfg.files[i])
    {
      OpenedAtBoundary(cfg.files[i]);
    }
  }

  lemma RefillReported(cfg: Config, st: State, rests: seq<Log>, i: nat, r: Read)
    requires DataInv(cfg, st, rests) && i < |st.srcs|
    requires SmallFiles(cfg)
             || (FittingFiles(cfg) && ReadInv(st) && AtBoundaries(cfg, st) && FullRead(st.srcs[i], r))
    ensures Refill(st.srcs[i], r).Reported?
  {
    hide Shows, Sized, Asks, AtBoundary, EntriesFit, FullRead, Refill, Refreshed, MergeFrom;
    var s, file := st.srcs[i], cfg.files[i];
    assert Shows(s, file, rests[i]) && Sized(s);
    if SmallFiles(cfg) {
      SmallFileFits(s, file, rests[i], r);
    } else {
      RefillFull(s, r);
      if s.needMore {
        FittingEntryFits(s, file, rests[i]);
      }
    }
  }

  /** The step does not make the program give up, and leaves every source at a boundary of its file. */
  lemma StepSafe(cfg: Config, st: State, step: Step)
    requires Safe(cfg, st) && Enabled(st, step) && (SmallFiles(cfg) || FullStep(st, step))
    ensures Safe(cfg, Apply(cfg, st, step))
  {
    hide Inv, InvWith, ReadInv, SmallFiles, FittingFiles, AtBoundaries, Refill, FullRead;
    StepKeeps(cfg, st, step);
    if step.Finish? && step.op == DoRefill {
      var rests := SomeRests(cfg, st);
      RefillReported(cfg, st, rests, step.src, step.read);
    }
    if !SmallFiles(cfg) {
      StepReads(cfg, st, step);
      StepAtBoundaries(cfg, st, step);
    }
  }

  lemma SomeRests(cfg: Config, st: State) returns (rests: seq<Log>)
    requires Inv(cfg, st)
    ensures InvWith(cfg, st, rests) && DataInv(cfg, st, rests)
  {
    hide DataInv, Control;
    rests :| InvWith(cfg, st, rests);
  }

  lemma StepAtBoundaries(cfg: Config, st: State, step: Step)
    requires Inv(cfg, st) && Enabled(st, step) && AtBoundaries(cfg, st)
    ensures AtBoundaries(cfg, Apply(cfg, st, step))
  {
    hide Inv, InvWith, AtBoundaries, FinishStep, WriteStep, DataInv;
    match step
    case Finish(op, i, r) =>
      var rests := SomeRests(cfg, st);
      FinishAtBoundary(cfg, st, rests, op, i, r);
    case Handle(Call(WriteLowest)) =>
      WriteAtBoundary(cfg, st, st.items - multiset{Call(WriteLowest)});
    case Launch => SameBoundaries(cfg, st, LaunchStep(st));
    case Begin(op, i) => SameBoundaries(cfg, st, Apply(cfg, st, Begin(op, i)));
    case Handle(Report(op, i)) => SameBoundaries(cfg, st, Apply(cfg, st, Handle(Report(op, i))));
    case Handle(Call(cb)) => SameBoundaries(cfg, st, Apply(cfg, st, Handle(Call(cb))));
  }

  lemma SameBoundaries(cfg: Config, st: State, after: State)
    requires AtBoundaries(cfg, st) && after.srcs == st.srcs
    ensures AtBoundaries(cfg, after)
  {
    hide AtBoundary;
  }

  lemma WriteAtBoundary(cfg: Config, st: State, items: multiset<Item>)
    requires AtBoundaries(cfg, st) && st.lowest < |st.srcs| && Offered(st.srcs[st.lowest]).At?
    ensures AtBoundaries(cfg, WriteStep(cfg, st.(items := items)))
  {
    hide AtBoundary, Consume, Offered, Drops;
    ConsumeAtBoundary(st.srcs[st.lowest], cfg.files[st.lowest]);
  }

  lemma FinishAtBoundary(cfg: Config, st: State, rests: seq<Log>, op: Op, i: nat, r: Read)
    requires DataInv(cfg, st, rests) && Enabled(st, Finish(op, i, r)) && AtBoundaries(cfg, st)
    ensures AtBoundaries(cfg, FinishStep(st, op, i, r))
  {
    hide AtBoundary, Refill, Mark, MergeFrom, Shows, Sized;
    assert Shows(st.srcs[i], cfg.files[i], rests[i]);
    if op == DoRefill {
      RefillAtBoundary(st.srcs[i], cfg.files[i], rests[i], r);
    } else {
      MarkAtBoundary(st.srcs[i], cfg.files[i], rests[i]);
    }
  }

  lemma {:induction false} RunSafe(cfg: Config, st: State, steps: seq<Step>, end: State)
    requires Safe(cfg, st) && Executes(cfg, st, steps, end) && (SmallFiles(cfg) || FullReads(cfg, st, steps))
    ensures Safe(cfg, end)
    decreases |steps|
  {
    hide Safe, SmallFiles, FullStep, Enabled, Apply;
    if steps != [] {
      StepSafe(cfg, st, steps[0]);
      RunSafe(cfg, Apply(cfg, st, steps[0]), steps[1..], end);
    }
  }

  /** A run never gives up if its files are small, or if their entries fit and the reads obey the standard. */
  lemma NeverGivesUp(cfg: Config, steps: seq<Step>, end: State)
    requires Executes(cfg, Initial(cfg), steps, end)
    requires SmallFiles(cfg) || (FittingFiles(cfg) && FullReads(cfg, Initial(cfg), steps))
    ensures end.exit == 0
    ensures Quiescent(end) ==> end.written == Merge(AllEntries(cfg.files), cfg.dedupe)
  {
    hide Inv, SmallFiles, FittingFiles, FullReads, Executes;
    StartSafe(cfg);
    RunSafe(cfg, Initial(cfg), steps, end);
    EveryRunMerges(cfg, steps, end);
  }

  lemma {:induction false} StateAtSafe(cfg: Config, schedule: nat -> Step, k: nat)
    requires SmallFiles(cfg)
             || (FittingFiles(cfg) && forall j: nat :: FullStep(StateAt(cfg, schedule, j), schedule(j)))
    ensures Safe(cfg, StateAt(cfg, schedule, k))
  {
    hide Safe, SmallFiles, FittingFiles, FullStep, Enabled, Apply;
    if k == 0 {
      StartSafe(cfg);
    } else {
      StateAtSafe(cfg, schedule, k - 1);
      var st := StateAt(cfg, schedule, k - 1);
      if Enabled(st, schedule(k - 1)) {
        StepSafe(cfg, st, schedule(k - 1));
      }
    }
  }

  /** Every schedule comes to rest with exactly the merge written. */
  lemma EveryScheduleMerges(cfg: Config, schedule: nat -> Step)
    requires forall k: nat :: Quiescent(StateAt(cfg, schedule, k)) || Enabled(StateAt(cfg, schedule, k), schedule(k))
    requires SmallFiles(cfg)
             || (FittingFiles(cfg) && forall k: nat :: FullStep(StateAt(cfg, schedule, k), schedule(k)))
    ensures exists m: nat ::
              && Quiescent(StateAt(cfg, schedule, m)) && StateAt(cfg, schedule, m).exit == 0
              && StateAt(cfg, schedule, m).written == Merge(AllEntries(cfg.files), cfg.dedupe)
  {
    hide Inv, InvWith, SmallFiles, FittingFiles, FullStep, Enabled, Quiescent, StateAt, DataInv;
    EveryScheduleEnds(cfg, schedule);
    var m: nat :| Quiescent(StateAt(cfg, schedule, m));
    StateAtSafe(cfg, schedule, m);
    var rests := SomeRests(cfg, StateAt(cfg, schedule, m));
    DoneMeansAll(cfg, StateAt(cfg, schedule, m), rests);
    WrittenWhenDone(cfg, StateAt(cfg, schedule, m), rests);
  }

  lemma WrittenWhenDone(cfg: Config, st: State, rests: seq<Log>)
    requires DataInv(cfg, st, rests) && MergeFrom(rests, st.last, cfg.dedupe) == []
    ensures st.written == Merge(AllEntries(cfg.files), cfg.dedupe)
  {
  }

  // ----- which files always do -----

  /** A settled entry lies in the buffer with its end, so it is shorter than the largest buffer. */
  lemma SettledIsShort(s: Src, file: Text, rest: seq<Text>)
    requires Settled(s, file, rest) && Sized(s) && !s.noMore
    ensures rest != [] && |rest[0]| < MAX_CAP + GROW_STEP
  {
    hide Rest;
  }

  /** An entry longer than any buffer stays among what is left of its file. */
  lemma LongStays(cfg: Config, st: State, rests: seq<Log>, step: Step, i: nat, e: Text)
    requires InvWith(cfg, st, rests) && Enabled(st, step) && i < |rests|
    requires e in rests[i] && |e| >= MAX_CAP + GROW_STEP
    ensures i < |RestsAfter(rests, step)| && e in RestsAfter(rests, step)[i]
  {
    hide Inv, InvWith, Enabled, Pick;
    if RestsAfter(rests, step) != rests {
      var p := Pick(Heads(rests));
      PickedIsShort(cfg, st, rests);
      assert rests[p] == [rests[p][0]] + rests[p][1..];
    }
  }

  lemma PickedIsShort(cfg: Config, st: State, rests: seq<Log>)
    requires InvWith(cfg, st, rests) && Enabled(st, Handle(Call(WriteLowest))) && AnyLive(Heads(rests))
    ensures |Picked(rests)| < MAX_CAP + GROW_STEP
  {
    hide Control, Shows, Sized, Settled, Pick, MergeFrom, Rest;
    CallIsAlone(cfg, st, rests, WriteLowest);
    SettledHeads(cfg, st, rests);
    var p := Pick(Heads(rests));
    assert Settled(st.srcs[p], cfg.files[p], rests[p]) && Sized(st.srcs[p]);
    assert Offered(st.srcs[p]).At?;
    SettledIsShort(st.srcs[p], cfg.files[p], rests[p]);
  }

  ghost predicate HasLong(cfg: Config, st: State, i: nat, e: Text) {
    exists rests :: InvWith(cfg, st, rests) && i < |rests| && e in rests[i]
  }

  lemma {:induction false} StateAtHasLong(cfg: Config, schedule: nat -> Step, k: nat, i: nat, e: Text)
    requires i < |cfg.files| && e in Entries(cfg.files[i]) && |e| >= MAX_CAP + GROW_STEP
    ensures HasLong(cfg, StateAt(cfg, schedule, k), i, e)
  {
    hide InvWith, Enabled, Apply, RestsAfter;
    if k == 0 {
      StartInv(cfg);
      assert e in AllEntries(cfg.files)[i];
    } else {
      StateAtHasLong(cfg, schedule, k - 1, i, e);
      var st := StateAt(cfg, schedule, k - 1);
      if Enabled(st, schedule(k - 1)) {
        var rests :| InvWith(cfg, st, rests) && i < |rests| && e in rests[i];
        StepKeepsWith(cfg, st, rests, schedule(k - 1));
        LongStays(cfg, st, rests, schedule(k - 1), i, e);
      }
    }
  }

  /** A file with an entry longer than any buffer makes every schedule give up. */
  lemma TooLongGivesUp(cfg: Config, schedule: nat -> Step, i: nat, e: Text)
    requires forall k: nat :: Quiescent(StateAt(cfg, schedule, k)) || Enabled(StateAt(cfg, schedule, k), schedule(k))
    requires i < |cfg.files| && e in Entries(cfg.files[i]) && |e| >= MAX_CAP + GROW_STEP
    ensures exists m: nat :: Quiescent(StateAt(cfg, schedule, m)) && StateAt(cfg, schedule, m).exit != 0
  {
    hide InvWith, Enabled, StateAt, Entries;
    EveryScheduleEnds(cfg, schedule);
    var m: nat :| Quiescent(StateAt(cfg, schedule, m));
    StateAtHasLong(cfg, schedule, m, i, e);
    LongNotDone(cfg, StateAt(cfg, schedule, m), i, e);
  }

  lemma LongNotDone(cfg: Config, st: State, i: nat, e: Text)
    requires HasLong(cfg, st, i, e) && Quiescent(st)
    ensures st.exit != 0
  {
    hide Shows, Sized, MergeFrom, Settled;
    var rests :| InvWith(cfg, st, rests) && i < |rests| && e in rests[i];
    if st.exit == 0 {
      DoneMeansAll(cfg, st, rests);
      assert Shows(st.srcs[i], cfg.files[i], rests[i]);
      ShowsInside(st.srcs[i], cfg.files[i], rests[i]);
    }
  }
}
