/**
 * The protocol of LogMerge: one event loop, and pool workers that refill and mark the sources behind two
 * counting barriers. A step is one loop iteration of a launching callback, one worker starting or finishing a
 * task, or one callback taken from the event queue in any order; workers run while the loop still launches.
 */
module LogBarrier {
  import opened Sequences
  import opened LogText
  import opened LogMerge

  datatype Op = DoRefill | DoMark
  datatype Callback = RefillAll | MarkAll | FindOldest | WriteLowest

  /** Everything in flight: pool tasks, reports queued by finished tasks, and queued callbacks. */
  datatype Item = Task(op: Op, src: nat, started: bool) | Report(op: Op, src: nat) | Call(cb: Callback)

  /** The event loop is between callbacks, or inside the loop that hands out tasks. */
  datatype Pc = Idle | Launching(op: Op, next: nat, enqueued: bool)

  /** `finished` only counts, since the phase began, the tasks done for each source; no step reads it. */
  datatype State = State(pc: Pc, items: multiset<Item>, refills: int, marks: int, exit: int, needMore: bool,
                         srcs: seq<Src>, lowest: nat, last: Text, written: Log, finished: multiset<nat>)

  datatype Step = Launch | Begin(op: Op, src: nat) | Finish(op: Op, src: nat, read: Read) | Handle(item: Item)

  datatype Config = Config(files: seq<Text>, dedupe: bool)

  function Initial(cfg: Config): State {
    State(Idle, multiset{Call(RefillAll)}, 0, 0, 0, false,
          seq(|cfg.files|, i requires 0 <= i < |cfg.files| => Opened(cfg.files[i])), 0, [], [], multiset{})
  }

  predicate Operable(s: Src) { 0 <= s.beg <= |s.text| <= s.cap }

  predicate Enabled(st: State, step: Step) {
    match step
    case Launch => st.pc.Launching? && st.pc.next < |st.srcs|
    case Begin(op, i) => Task(op, i, false) in st.items
    case Finish(op, i, _) => Task(op, i, true) in st.items && i < |st.srcs| && Operable(st.srcs[i])
    case Handle(item) =>
      && st.pc.Idle? && item in st.items && !item.Task?
      && (item.Report? ==> item.src < |st.srcs|)
      && (item == Call(WriteLowest) ==> st.lowest < |st.srcs| && Offered(st.srcs[st.lowest]).At?)
  }

  function Apply(cfg: Config, st: State, step: Step): State
    requires Enabled(st, step)
  {
    match step
    case Launch => LaunchStep(st)
    case Begin(op, i) => st.(items := st.items - multiset{Task(op, i, false)} + multiset{Task(op, i, true)})
    case Finish(op, i, r) => FinishStep(st, op, i, r)
    case Handle(item) => HandleStep(cfg, st.(items := st.items - multiset{item}), item)
  }

  /** `enque` first, and the counter only afterwards. */
  function LaunchStep(st: State): State
    requires Enabled(st, Launch)
  {
    var Launching(op, i, enqueued) := st.pc;
    if !enqueued then
      st.(items := st.items + multiset{Task(op, i, false)}, pc := Launching(op, i, true))
    else
      var pc := if i + 1 == |st.srcs| then Idle else Launching(op, i + 1, false);
      if op == DoRefill then st.(refills := st.refills + 1, pc := pc) else st.(marks := st.marks + 1, pc := pc)
  }

  /** A worker is done with its source: it queues a report, unless it gives up on an oversized entry. */
  function FinishStep(st: State, op: Op, i: nat, r: Read): State
    requires Enabled(st, Finish(op, i, r))
  {
    var others := st.items - multiset{Task(op, i, true)};
    var done := st.(items := others + multiset{Report(op, i)}, finished := st.finished + multiset{i});
    match op
    case DoMark => done.(srcs := st.srcs[i := Mark(st.srcs[i])])
    case DoRefill =>
      match Refill(st.srcs[i], r)
      case Reported(s) => done.(srcs := st.srcs[i := s])
      case TooLarge(s) => st.(items := others, srcs := st.srcs[i := s], exit := -1)
  }

  function HandleStep(cfg: Config, st: State, item: Item): State
    requires !item.Task? && (item.Report? ==> item.src < |st.srcs|)
    requires item == Call(WriteLowest) ==> st.lowest < |st.srcs| && Offered(st.srcs[st.lowest]).At?
  {
    match item
    case Report(DoRefill, _) => OnOneRefillDone(st)
    case Report(DoMark, i) => MarkDone(st, st.srcs[i].needMore)
    case Call(RefillAll) => LaunchAll(st, DoRefill)
    case Call(MarkAll) => LaunchAll(st, DoMark)
    case Call(FindOldest) => FindOldestStep(st)
    case Call(WriteLowest) => WriteStep(cfg, st)
  }

  function LaunchAll(st: State, op: Op): State {
    st.(pc := if st.srcs == [] then Idle else Launching(op, 0, false), finished := multiset{})
  }

  function OnOneRefillDone(st: State): State {
    var s := st.(refills := st.refills - 1);
    if s.refills > 0 || s.exit != 0 then s else s.(items := s.items + multiset{Call(MarkAll)})
  }

  function MarkDone(st: State, srcNeedsMore: bool): State {
    var s := st.(marks := st.marks - 1, needMore := st.needMore || srcNeedsMore);
    if s.marks > 0 || s.exit != 0 then s
    else if s.needMore then s.(needMore := false, items := s.items + multiset{Call(RefillAll)})
    else s.(items := s.items + multiset{Call(FindOldest)})
  }

  function FindOldestStep(st: State): State {
    var hs := OfferedBy(st.srcs);
    if AnyLive(hs) then st.(lowest := Pick(hs), items := st.items + multiset{Call(WriteLowest)})
    else st.(exit := 0)
  }

  function WriteStep(cfg: Config, st: State): State
    requires st.lowest < |st.srcs| && Offered(st.srcs[st.lowest]).At?
  {
    var e := Offered(st.srcs[st.lowest]).entry;
    var s := if cfg.dedupe && Drops(st.last, e) then st else st.(written := st.written + [e], last := e);
    LaunchAll(s.(srcs := st.srcs[st.lowest := Consume(st.srcs[st.lowest])]), DoRefill)
  }

  // ----- the invariant -----

  function AllEntries(files: seq<Text>): (logs: seq<Log>)
    ensures |logs| == |files| && forall i :: 0 <= i < |files| ==> logs[i] == Entries(files[i])
  {
    seq(|files|, i requires 0 <= i < |files| => Entries(files[i]))
  }

  ghost predicate AllShow(files: seq<Text>, srcs: seq<Src>, rests: seq<Log>) {
    && |srcs| == |files| == |rests|
    && (forall i :: 0 <= i < |srcs| ==> Shows(srcs[i], files[i], rests[i]) && Sized(srcs[i]))
    && (forall i :: 0 <= i < |rests| ==> Stamped(rests[i]))
  }

  /** Every source shows what is left of its file, and what is left would complete the specified output. */
  ghost predicate DataInv(cfg: Config, st: State, rests: seq<Log>) {
    && AllShow(cfg.files, st.srcs, rests)
    && st.written + MergeFrom(rests, st.last, cfg.dedupe) == Merge(AllEntries(cfg.files), cfg.dedupe)
  }

  function Count(st: State, op: Op): int { if op == DoRefill then st.refills else st.marks }

  function Other(op: Op): Op { if op == DoRefill then DoMark else DoRefill }

  /** How many sources have been handed to the pool in this phase. */
  function Launched(st: State): nat {
    if st.pc.Idle? then |st.srcs| else st.pc.next + Lag(st)
  }

  /** One task runs ahead of its counter. */
  function Lag(st: State): nat { if st.pc.Launching? && st.pc.enqueued then 1 else 0 }

  function Tasks(items: multiset<Item>, op: Op, i: nat): nat {
    items[Task(op, i, false)] + items[Task(op, i, true)]
  }

  /** Only tasks and reports of `op` are in flight, at most one for each source launched. */
  ghost predicate ItemsOf(items: multiset<Item>, op: Op, launched: nat) {
    && (forall x :: x in items ==> !x.Call? && x.op == op && x.src < launched)
    && (forall i: nat :: Tasks(items, op, i) + items[Report(op, i)] <= 1)
  }

  /** Every launched source is either still worked on or has been finished exactly once. */
  ghost predicate Accounted(st: State, op: Op) {
    forall i: nat :: i < |st.srcs| ==> st.finished[i] + Tasks(st.items, op, i) == if i < Launched(st) then 1 else 0
  }

  ghost predicate Phase(st: State, op: Op) {
    && (st.pc.Launching? ==> st.pc.op == op && st.pc.next < |st.srcs|)
    && Count(st, op) >= 0 && Count(st, Other(op)) == 0
    && (st.pc.Idle? ==> Count(st, op) > 0)
    && ItemsOf(st.items, op, Launched(st))
    && (st.exit == 0 ==> |st.items| == Count(st, op) + Lag(st) && Accounted(st, op))
    && (st.exit != 0 ==> op == DoRefill && |st.items| < Count(st, op) + Lag(st))
  }

  /** What the marks done so far have established. */
  ghost predicate MarkedSoFar(cfg: Config, st: State, rests: seq<Log>)
    requires DataInv(cfg, st, rests)
  {
    && (forall i: nat :: i < |st.srcs| && st.finished[i] > 0 && !st.srcs[i].needMore ==>
          Settled(st.srcs[i], cfg.files[i], rests[i]))
    && (forall i: nat :: i < |st.srcs| && st.finished[i] > 0 && st.srcs[i].needMore ==>
          st.needMore || Report(DoMark, i) in st.items)
    && (st.needMore ==> exists i: nat :: i < |st.srcs| && st.srcs[i].needMore)
  }

  ghost predicate AllSettled(cfg: Config, st: State, rests: seq<Log>)
    requires DataInv(cfg, st, rests)
  {
    forall i :: 0 <= i < |st.srcs| ==> !st.srcs[i].needMore && Settled(st.srcs[i], cfg.files[i], rests[i])
  }

  /** Each source was worked on exactly once in the phase that has just ended. */
  ghost predicate OnceEach(st: State) { forall i: nat :: i < |st.srcs| ==> st.finished[i] == 1 }

  ghost predicate Quiet(st: State) {
    st.pc.Idle? && st.refills == 0 && st.marks == 0 && st.exit == 0 && !st.needMore
  }

  ghost predicate Calling(cfg: Config, st: State, rests: seq<Log>, cb: Callback)
    requires DataInv(cfg, st, rests)
  {
    && Quiet(st) && st.items == multiset{Call(cb)}
    && (cb == MarkAll || cb == FindOldest ==> OnceEach(st) && st.srcs != [])
    && (cb == FindOldest || cb == WriteLowest ==> AllSettled(cfg, st, rests))
    && (cb == WriteLowest ==> AnyLive(OfferedBy(st.srcs)) && st.lowest == Pick(OfferedBy(st.srcs)))
  }

  ghost predicate Finished(st: State) {
    Quiet(st) && st.items == multiset{} && forall i :: 0 <= i < |st.srcs| ==> st.srcs[i].noMore
  }

  ghost predicate Control(cfg: Config, st: State, rests: seq<Log>)
    requires DataInv(cfg, st, rests)
  {
    || (Phase(st, DoRefill) && !st.needMore)
    || (Phase(st, DoMark) && MarkedSoFar(cfg, st, rests))
    || (exists cb :: Calling(cfg, st, rests, cb))
    || Finished(st)
  }

  ghost predicate InvWith(cfg: Config, st: State, rests: seq<Log>) {
    DataInv(cfg, st, rests) && Control(cfg, st, rests)
  }

  ghost predicate Inv(cfg: Config, st: State) { exists rests :: InvWith(cfg, st, rests) }

  // ----- every step keeps it -----

  lemma StartInv(cfg: Config)
    ensures InvWith(cfg, Initial(cfg), AllEntries(cfg.files))
  {
    hide Shows, Sized, EntriesFrom, MergeFrom;
    var st, rests := Initial(cfg), AllEntries(cfg.files);
    forall i | 0 <= i < |cfg.files|
      ensures Shows(st.srcs[i], cfg.files[i], rests[i]) && Sized(st.srcs[i]) && Stamped(rests[i])
    {
      OpenedShows(cfg.files[i]);
      OpenedSized(cfg.files[i]);
      EntryLengths(cfg.files[i], 0);
    }
    assert Calling(cfg, st, rests, RefillAll);
  }

  /** A change of the control state alone keeps the data invariant. */
  lemma SameData(cfg: Config, st: State, after: State, rests: seq<Log>)
    requires DataInv(cfg, st, rests)
    requires after.srcs == st.srcs && after.written == st.written && after.last == st.last
    ensures DataInv(cfg, after, rests)
  {
  }

  lemma PhaseLaunch(st: State, op: Op)
    requires Phase(st, op) && st.pc.Launching?
    ensures Phase(LaunchStep(st), op)
  {
    var i := st.pc.next;
    if !st.pc.enqueued {
      assert Task(op, i, false) !in st.items && Task(op, i, true) !in st.items && Report(op, i) !in st.items;
    }
  }

  lemma PhaseBegin(cfg: Config, st: State, op: Op, i: nat)
    requires Phase(st, op) && Task(op, i, false) in st.items
    ensures Phase(Apply(cfg, st, Begin(op, i)), op)
    ensures forall j: nat :: Apply(cfg, st, Begin(op, i)).items[Report(op, j)] == st.items[Report(op, j)]
  {
    assert Tasks(st.items, op, i) + st.items[Report(op, i)] <= 1;
  }

  /** A task is the only one for its source, and its source has not been finished in this phase. */
  lemma TaskIsAlone(st: State, op: Op, i: nat)
    requires Phase(st, op) && Task(op, i, true) in st.items
    ensures st.items[Task(op, i, true)] == 1 && st.items[Task(op, i, false)] == 0 && st.items[Report(op, i)] == 0
    ensures i < Launched(st) <= |st.srcs|
    ensures st.exit == 0 ==> st.finished[i] == 0
  {
    assert Tasks(st.items, op, i) + st.items[Report(op, i)] <= 1;
  }

  lemma ItemsOfDone(items: multiset<Item>, op: Op, i: nat, launched: nat)
    requires ItemsOf(items, op, launched) && Task(op, i, true) in items
    ensures ItemsOf(items - multiset{Task(op, i, true)}, op, launched)
    ensures ItemsOf(items - multiset{Task(op, i, true)} + multiset{Report(op, i)}, op, launched)
  {
    assert Tasks(items, op, i) + items[Report(op, i)] <= 1;
  }

  lemma AccountedDone(st: State, after: State, op: Op, i: nat)
    requires Accounted(st, op) && Launched(after) == Launched(st) && |after.srcs| == |st.srcs|
    requires Task(op, i, true) in st.items && after.finished == st.finished + multiset{i}
    requires after.items == st.items - multiset{Task(op, i, true)} + multiset{Report(op, i)}
    ensures Accounted(after, op)
  {
  }

  lemma PhaseFinish(st: State, op: Op, i: nat, r: Read)
    requires Phase(st, op) && Enabled(st, Finish(op, i, r))
    ensures Phase(FinishStep(st, op, i, r), op)
  {
    hide Refill, Mark, ItemsOf, Accounted;
    var after := FinishStep(st, op, i, r);
    ItemsOfDone(st.items, op, i, Launched(st));
    assert Launched(after) == Launched(st) && Lag(after) == Lag(st);
    if after.exit == 0 {
      AccountedDone(st, after, op, i);
      assert |after.items| == |st.items|;
    } else {
      assert |after.items| < |st.items| || after.exit == st.exit;
    }
  }

  /** Whatever a pool task does to its source, the source goes on showing the same entries. */
  lemma TaskData(cfg: Config, st: State, rests: seq<Log>, op: Op, i: nat, r: Read)
    requires DataInv(cfg, st, rests) && Enabled(st, Finish(op, i, r))
    ensures DataInv(cfg, FinishStep(st, op, i, r), rests)
    ensures op == DoMark && !FinishStep(st, op, i, r).srcs[i].needMore ==>
              Settled(FinishStep(st, op, i, r).srcs[i], cfg.files[i], rests[i])
  {
    hide Shows, Sized, Settled, MergeFrom;
    var s, file, rest := st.srcs[i], cfg.files[i], rests[i];
    if op == DoRefill {
      RefillKeeps(s, file, rest, r);
      RefillStaysSized(s, r);
      OneShows(cfg.files, st.srcs, rests, i, Refill(s, r).src, rest);
    } else {
      MarkShowsNextEntry(s, file, rest);
      MarkStaysSized(s, file, rest);
      OneShows(cfg.files, st.srcs, rests, i, Mark(s), rest);
    }
    assert rests[i := rest] == rests;
  }

  lemma OneShows(files: seq<Text>, srcs: seq<Src>, rests: seq<Log>, i: nat, s: Src, rest: Log)
    requires AllShow(files, srcs, rests) && i < |srcs|
    requires Shows(s, files[i], rest) && Sized(s) && Stamped(rest)
    ensures AllShow(files, srcs[i := s], rests[i := rest])
  {
    hide Shows, Sized, Stamped;
  }

  lemma FinishKeeps(cfg: Config, st: State, rests: seq<Log>, op: Op, i: nat, r: Read)
    requires InvWith(cfg, st, rests) && Enabled(st, Finish(op, i, r))
    ensures InvWith(cfg, FinishStep(st, op, i, r), rests)
  {
    hide AllShow, MarkedSoFar, Settled, Refill, Mark;
    var after := FinishStep(st, op, i, r);
    TaskData(cfg, st, rests, op, i, r);
    assert Phase(st, op);
    PhaseFinish(st, op, i, r);
    if op == DoMark {
      TaskIsAlone(st, op, i);
      MarkedOneMore(cfg, st, rests, i, r);
    }
  }

  lemma MarkedOneMore(cfg: Config, st: State, rests: seq<Log>, i: nat, r: Read)
    requires DataInv(cfg, st, rests) && Enabled(st, Finish(DoMark, i, r)) && MarkedSoFar(cfg, st, rests)
    requires DataInv(cfg, FinishStep(st, DoMark, i, r), rests)
    requires !FinishStep(st, DoMark, i, r).srcs[i].needMore ==>
               Settled(FinishStep(st, DoMark, i, r).srcs[i], cfg.files[i], rests[i])
    ensures MarkedSoFar(cfg, FinishStep(st, DoMark, i, r), rests)
  {
    hide DataInv, Settled;
    var after := FinishStep(st, DoMark, i, r);
    assert Mark(st.srcs[i]).needMore || !st.srcs[i].needMore;
    if st.needMore {
      var k: nat :| k < |st.srcs| && st.srcs[k].needMore;
      assert after.srcs[k].needMore;
    }
  }

  lemma LaunchKeeps(cfg: Config, st: State, rests: seq<Log>)
    requires InvWith(cfg, st, rests) && Enabled(st, Launch)
    ensures InvWith(cfg, LaunchStep(st), rests)
  {
    hide AllShow, MergeFrom, Settled;
    var after := LaunchStep(st);
    SameData(cfg, st, after, rests);
    PhaseLaunch(st, st.pc.op);
  }

  lemma BeginKeeps(cfg: Config, st: State, rests: seq<Log>, op: Op, i: nat)
    requires InvWith(cfg, st, rests) && Enabled(st, Begin(op, i))
    ensures InvWith(cfg, Apply(cfg, st, Begin(op, i)), rests)
  {
    hide AllShow, MergeFrom, Settled;
    var after := Apply(cfg, st, Begin(op, i));
    SameData(cfg, st, after, rests);
    assert Phase(st, op);
    PhaseBegin(cfg, st, op, i);
  }

  /** The last report finds nothing else in flight, and every source finished exactly once. */
  lemma LastReport(st: State, op: Op, i: nat)
    requires Phase(st, op) && st.exit == 0 && st.pc.Idle? && Report(op, i) in st.items && Count(st, op) == 1
    ensures st.items == multiset{Report(op, i)} && OnceEach(st)
  {
    var others := st.items - multiset{Report(op, i)};
    assert |others| == 0;
    assert st.items == others + multiset{Report(op, i)};
  }

  /** A report that is not the last only counts down. */
  lemma PhaseReport(st: State, after: State, op: Op, i: nat)
    requires Phase(st, op) && st.pc.Idle? && Report(op, i) in st.items && Count(st, op) > 1
    requires after.items == st.items - multiset{Report(op, i)} && after.pc == st.pc && after.exit == st.exit
    requires Count(after, op) == Count(st, op) - 1 && Count(after, Other(op)) == 0
    requires |after.srcs| == |st.srcs| && after.finished == st.finished
    ensures Phase(after, op)
  {
  }

  lemma RefillReportPhase(cfg: Config, st: State, rests: seq<Log>, i: nat)
    requires InvWith(cfg, st, rests) && Enabled(st, Handle(Report(DoRefill, i)))
    ensures Phase(st, DoRefill) && !st.needMore && st.pc.Idle?
  {
    hide DataInv, Settled, MarkedSoFar, Accounted, OnceEach, AllSettled;
  }

  lemma RefillReportKeeps(cfg: Config, st: State, rests: seq<Log>, i: nat)
    requires InvWith(cfg, st, rests) && Enabled(st, Handle(Report(DoRefill, i)))
    ensures InvWith(cfg, Apply(cfg, st, Handle(Report(DoRefill, i))), rests)
  {
    hide DataInv, Settled, MarkedSoFar, ItemsOf, Accounted, OnceEach, AllSettled;
    RefillReportPhase(cfg, st, rests, i);
    var after := Apply(cfg, st, Handle(Report(DoRefill, i)));
    SameData(cfg, st, after, rests);
    SameSettled(cfg, st, after, rests);
    if st.refills > 1 {
      PhaseReport(st, after, DoRefill, i);
    } else {
      LastReport(st, DoRefill, i);
      assert Calling(cfg, after, rests, MarkAll);
    }
  }

  lemma MarkReportCounts(cfg: Config, st: State, after: State, rests: seq<Log>, i: nat)
    requires DataInv(cfg, st, rests) && DataInv(cfg, after, rests) && MarkedSoFar(cfg, st, rests)
    requires after.srcs == st.srcs && after.finished == st.finished && i < |st.srcs|
    requires after.needMore == (st.needMore || st.srcs[i].needMore)
    requires forall j: nat :: j != i && Report(DoMark, j) in st.items ==> Report(DoMark, j) in after.items
    ensures MarkedSoFar(cfg, after, rests)
  {
    hide DataInv, Settled;
  }

  /** After the last report all sources are settled, unless some source still needs more. */
  lemma LastMarkReport(cfg: Config, st: State, rests: seq<Log>, i: nat)
    requires DataInv(cfg, st, rests) && MarkedSoFar(cfg, st, rests) && OnceEach(st)
    requires st.items == multiset{Report(DoMark, i)} && i < |st.srcs|
    requires !st.needMore && !st.srcs[i].needMore
    ensures AllSettled(cfg, st, rests)
  {
    hide Shows, Settled;
    forall k | 0 <= k < |st.srcs|
      ensures !st.srcs[k].needMore && Settled(st.srcs[k], cfg.files[k], rests[k])
    {
      assert st.finished[k] == 1;
    }
  }

  /** A report that can be handled belongs to the phase under way, and to a source that exists. */
  lemma MarkReportPhase(cfg: Config, st: State, rests: seq<Log>, i: nat)
    requires InvWith(cfg, st, rests) && Enabled(st, Handle(Report(DoMark, i)))
    ensures Phase(st, DoMark) && st.pc.Idle? && st.exit == 0 && MarkedSoFar(cfg, st, rests) && i < |st.srcs|
  {
    hide DataInv, Settled, MarkedSoFar, Accounted, OnceEach, AllSettled;
  }

  lemma SameSettled(cfg: Config, st: State, after: State, rests: seq<Log>)
    requires DataInv(cfg, st, rests) && DataInv(cfg, after, rests)
    requires after.srcs == st.srcs && after.finished == st.finished
    ensures AllSettled(cfg, st, rests) ==> AllSettled(cfg, after, rests)
    ensures OnceEach(st) ==> OnceEach(after)
  {
    hide DataInv, Settled;
  }

  lemma MarkReportKeeps(cfg: Config, st: State, rests: seq<Log>, i: nat)
    requires InvWith(cfg, st, rests) && Enabled(st, Handle(Report(DoMark, i)))
    ensures InvWith(cfg, Apply(cfg, st, Handle(Report(DoMark, i))), rests)
  {
    hide DataInv, Settled, MarkedSoFar, ItemsOf, Accounted, OnceEach, AllSettled;
    MarkReportPhase(cfg, st, rests, i);
    var after := Apply(cfg, st, Handle(Report(DoMark, i)));
    SameData(cfg, st, after, rests);
    SameSettled(cfg, st, after, rests);
    if st.marks > 1 {
      MarkReportCounts(cfg, st, after, rests, i);
      PhaseReport(st, after, DoMark, i);
    } else {
      LastReport(st, DoMark, i);
      if st.needMore || st.srcs[i].needMore {
        assert Calling(cfg, after, rests, RefillAll);
      } else {
        LastMarkReport(cfg, st, rests, i);
        assert Calling(cfg, after, rests, FindOldest);
      }
    }
  }

  /** A launching callback opens its phase with nothing in flight. */
  lemma LaunchAllOpens(st: State, op: Op)
    requires Quiet(st) && st.items == multiset{} && st.srcs != []
    ensures Phase(LaunchAll(st, op), op)
  {
  }

  lemma LaunchCallKeeps(cfg: Config, st: State, rests: seq<Log>, cb: Callback)
    requires InvWith(cfg, st, rests) && Enabled(st, Handle(Call(cb))) && (cb == RefillAll || cb == MarkAll)
    ensures InvWith(cfg, Apply(cfg, st, Handle(Call(cb))), rests)
  {
    hide AllShow, Settled, MergeFrom;
    var after := Apply(cfg, st, Handle(Call(cb)));
    SameData(cfg, st, after, rests);
    CallIsAlone(cfg, st, rests, cb);
    var emptied := st.(items := st.items - multiset{Call(cb)});
    assert emptied.items == multiset{};
    if st.srcs == [] {
      assert Finished(after);
    } else {
      LaunchAllOpens(emptied, if cb == RefillAll then DoRefill else DoMark);
    }
  }

  lemma FindCallKeeps(cfg: Config, st: State, rests: seq<Log>)
    requires InvWith(cfg, st, rests) && Enabled(st, Handle(Call(FindOldest)))
    ensures InvWith(cfg, Apply(cfg, st, Handle(Call(FindOldest))), rests)
  {
    hide AllShow, Settled, MergeFrom, Pick;
    var after := Apply(cfg, st, Handle(Call(FindOldest)));
    SameData(cfg, st, after, rests);
    CallIsAlone(cfg, st, rests, FindOldest);
    assert st.items - multiset{Call(FindOldest)} == multiset{};
    if AnyLive(OfferedBy(st.srcs)) {
      assert after.items == multiset{Call(WriteLowest)};
      assert Calling(cfg, after, rests, WriteLowest);
    } else {
      SettledHeads(cfg, st, rests);
      assert forall k :: 0 <= k < |st.srcs| ==> OfferedBy(st.srcs)[k].Gone?;
      assert Finished(after);
    }
  }

  lemma CallIsAlone(cfg: Config, st: State, rests: seq<Log>, cb: Callback)
    requires InvWith(cfg, st, rests) && Call(cb) in st.items
    ensures Calling(cfg, st, rests, cb)
  {
    var c :| Calling(cfg, st, rests, c);
    assert c == cb;
  }

  /** Settled sources offer the very heads that the specification compares. */
  lemma SettledHeads(cfg: Config, st: State, rests: seq<Log>)
    requires DataInv(cfg, st, rests) && AllSettled(cfg, st, rests)
    ensures OfferedBy(st.srcs) == Heads(rests)
    ensures forall i :: 0 <= i < |st.srcs| && Offered(st.srcs[i]).Gone? ==> st.srcs[i].noMore
  {
    hide Shows, Sized, Rest;
    forall i | 0 <= i < |st.srcs|
      ensures Offered(st.srcs[i]) == HeadOf(rests[i]) && (Offered(st.srcs[i]).Gone? ==> st.srcs[i].noMore)
    {
      assert Settled(st.srcs[i], cfg.files[i], rests[i]);
    }
  }

  /** Writing or dropping the picked entry does what the specification does with it. */
  lemma WriteKeepsData(cfg: Config, st: State, rests: seq<Log>)
    requires DataInv(cfg, st, rests) && AllSettled(cfg, st, rests)
    requires AnyLive(OfferedBy(st.srcs)) && st.lowest == Pick(OfferedBy(st.srcs))
    ensures AnyLive(Heads(rests)) && DataInv(cfg, WriteStep(cfg, st), Advance(rests))
  {
    hide Shows, Sized, Settled, Pick, Stamped;
    SettledHeads(cfg, st, rests);
    var p, s := st.lowest, st.srcs[st.lowest];
    ConsumedSource(cfg, st, rests);
    OneShows(cfg.files, st.srcs, rests, p, Consume(s), rests[p][1..]);
    assert Offered(s).entry == Picked(rests);
    OneMerged(rests, st.last, cfg.dedupe, st.written);
  }

  lemma OneMerged(rests: seq<Log>, last: Text, dedupe: bool, written: Log)
    requires AnyLive(Heads(rests))
    ensures var e := Picked(rests);
            written + MergeFrom(rests, last, dedupe)
            == if dedupe && Drops(last, e) then written + MergeFrom(Advance(rests), last, dedupe)
               else written + [e] + MergeFrom(Advance(rests), e, dedupe)
  {
    hide Picked, Advance, AnyLive, Heads, Drops;
    Regroup(written, [Picked(rests)], MergeFrom(Advance(rests), Picked(rests), dedupe));
  }

  lemma ConsumedSource(cfg: Config, st: State, rests: seq<Log>)
    requires DataInv(cfg, st, rests) && AllSettled(cfg, st, rests)
    requires st.lowest < |st.srcs| && Offered(st.srcs[st.lowest]).At?
    ensures rests[st.lowest] != []
    ensures Shows(Consume(st.srcs[st.lowest]), cfg.files[st.lowest], rests[st.lowest][1..])
    ensures Sized(Consume(st.srcs[st.lowest])) && Stamped(rests[st.lowest][1..])
  {
    var s := st.srcs[st.lowest];
    assert Settled(s, cfg.files[st.lowest], rests[st.lowest]);
    ConsumeKeeps(s, cfg.files[st.lowest], rests[st.lowest]);
  }

  lemma WriteKeeps(cfg: Config, st: State, rests: seq<Log>)
    requires InvWith(cfg, st, rests) && Enabled(st, Handle(Call(WriteLowest)))
    ensures AnyLive(Heads(rests)) && InvWith(cfg, Apply(cfg, st, Handle(Call(WriteLowest))), Advance(rests))
  {
    hide DataInv;
    CallIsAlone(cfg, st, rests, WriteLowest);
    var emptied := st.(items := st.items - multiset{Call(WriteLowest)});
    assert emptied.items == multiset{};
    SameData(cfg, st, emptied, rests);
    WriteKeepsData(cfg, emptied, rests);
    var after := WriteStep(cfg, emptied);
    LaunchAllOpens(after.(pc := Idle), DoRefill);
    assert Phase(after, DoRefill);
  }

  /** What is left of the files after a step: only writing or skipping an entry takes something away. */
  function RestsAfter(rests: seq<Log>, step: Step): seq<Log> {
    if step == Handle(Call(WriteLowest)) && AnyLive(Heads(rests)) then Advance(rests) else rests
  }

  lemma StepKeepsWith(cfg: Config, st: State, rests: seq<Log>, step: Step)
    requires InvWith(cfg, st, rests) && Enabled(st, step)
    ensures InvWith(cfg, Apply(cfg, st, step), RestsAfter(rests, step))
  {
    hide InvWith;
    match step
    case Launch => LaunchKeeps(cfg, st, rests);
    case Begin(op, i) => BeginKeeps(cfg, st, rests, op, i);
    case Finish(op, i, r) => FinishKeeps(cfg, st, rests, op, i, r);
    case Handle(Report(DoRefill, i)) => RefillReportKeeps(cfg, st, rests, i);
    case Handle(Report(DoMark, i)) => MarkReportKeeps(cfg, st, rests, i);
    case Handle(Call(FindOldest)) => FindCallKeeps(cfg, st, rests);
    case Handle(Call(WriteLowest)) => WriteKeeps(cfg, st, rests);
    case Handle(Call(cb)) => LaunchCallKeeps(cfg, st, rests, cb);
  }

  /** One step of any worker or of the event loop keeps the invariant. */
  lemma StepKeeps(cfg: Config, st: State, step: Step)
    requires Inv(cfg, st) && Enabled(st, step)
    ensures Inv(cfg, Apply(cfg, st, step))
  {
    hide InvWith;
    var rests :| InvWith(cfg, st, rests);
    StepKeepsWith(cfg, st, rests, step);
  }

  // ----- what it means for the barriers -----

  /**
   * At most one task lives for a source; the counters are never both positive; a callback that closes a
   * phase finds no task and no report of it left, and every source finished exactly once.
   */
  lemma BarrierSafety(cfg: Config, st: State)
    requires Inv(cfg, st)
    ensures forall i: nat :: Tasks(st.items, DoRefill, i) + Tasks(st.items, DoMark, i) <= 1
    ensures st.refills >= 0 && st.marks >= 0 && (st.refills == 0 || st.marks == 0)
    ensures forall cb :: Call(cb) in st.items ==>
              st.pc.Idle? && st.items == multiset{Call(cb)} && st.refills == 0 && st.marks == 0
    ensures Call(MarkAll) in st.items || Call(FindOldest) in st.items ==> OnceEach(st)
    ensures st.pc.Launching? ==> forall x :: x in st.items ==> !x.Call? && x.op == st.pc.op
  {
    hide DataInv, MarkedSoFar, AllSettled, OfferedBy;
    var rests :| InvWith(cfg, st, rests);
    forall i: nat
      ensures Tasks(st.items, DoRefill, i) + Tasks(st.items, DoMark, i) <= 1
    {
      if Phase(st, DoRefill) {
        OneKind(st.items, DoRefill, Launched(st), i);
      } else if Phase(st, DoMark) {
        OneKind(st.items, DoMark, Launched(st), i);
      }
    }
  }

  lemma OneKind(items: multiset<Item>, op: Op, launched: nat, i: nat)
    requires ItemsOf(items, op, launched)
    ensures Tasks(items, op, i) <= 1 && Tasks(items, Other(op), i) == 0
  {
    assert Task(Other(op), i, false) !in items && Task(Other(op), i, true) !in items;
  }

  /** Nobody is left to take a step. */
  predicate Quiescent(st: State) { st.pc.Idle? && st.items == multiset{} }

  /** A task can be begun, or finished with any read; an idle event loop can take up any report or callback. */
  ghost predicate CanGoOn(st: State, x: Item) {
    match x
    case Task(op, i, false) => Enabled(st, Begin(op, i))
    case Task(op, i, true) => forall r :: Enabled(st, Finish(op, i, r))
    case _ => st.pc.Idle? ==> Enabled(st, Handle(x))
  }

  /** Nobody has to wait for anybody else: whatever is in flight may be next. */
  lemma NobodyWaits(cfg: Config, st: State)
    requires Inv(cfg, st)
    ensures st.pc.Launching? ==> Enabled(st, Launch)
    ensures forall x :: x in st.items ==> CanGoOn(st, x)
  {
    hide InvWith, CanGoOn;
    var rests :| InvWith(cfg, st, rests);
    if st.pc.Launching? {
      LaunchingGoesOn(cfg, st, rests);
    }
    forall x | x in st.items
      ensures CanGoOn(st, x)
    {
      ItemGoesOn(cfg, st, rests, x);
    }
  }

  /** Until everything is quiescent, some step is enabled: the barriers never wait for nothing. */
  lemma NeverStuck(cfg: Config, st: State)
    requires Inv(cfg, st) && !Quiescent(st)
    ensures exists step :: Enabled(st, step)
  {
    hide Inv, Enabled;
    NobodyWaits(cfg, st);
    if st.pc.Idle? {
      var x :| x in st.items;
      assert CanGoOn(st, x);
      if x.Task? && x.started {
        assert Enabled(st, Finish(x.op, x.src, Read(0, false)));
      }
    }
  }

  lemma LaunchingGoesOn(cfg: Config, st: State, rests: seq<Log>)
    requires InvWith(cfg, st, rests) && st.pc.Launching?
    ensures Enabled(st, Launch)
  {
    hide DataInv, MarkedSoFar, AllSettled, ItemsOf, Accounted, OnceEach;
  }

  lemma ItemGoesOn(cfg: Config, st: State, rests: seq<Log>, x: Item)
    requires InvWith(cfg, st, rests) && x in st.items
    ensures CanGoOn(st, x)
  {
    hide MarkedSoFar, AllSettled, Accounted, OnceEach, MergeFrom, Shows, Pick, AnyLive, OfferedBy;
    match x
    case Task(op, i, started) =>
      if started {
        assert Phase(st, op);
        TaskIsAlone(st, op, i);
        assert Sized(st.srcs[i]);
      }
    case Report(op, i) =>
    case Call(cb) => CallIsAlone(cfg, st, rests, cb);
  }

  // ----- whole runs -----

  /** `steps` leads from `st` to `end`. */
  predicate Executes(cfg: Config, st: State, steps: seq<Step>, end: State)
    decreases |steps|
  {
    if steps == [] then st == end
    else Enabled(st, steps[0]) && Executes(cfg, Apply(cfg, st, steps[0]), steps[1..], end)
  }

  lemma {:induction false} RunKeeps(cfg: Config, st: State, steps: seq<Step>, end: State)
    requires Inv(cfg, st) && Executes(cfg, st, steps, end)
    ensures Inv(cfg, end)
    decreases |steps|
  {
    hide Inv, Enabled, Apply;
    if steps != [] {
      StepKeeps(cfg, st, steps[0]);
      RunKeeps(cfg, Apply(cfg, st, steps[0]), steps[1..], end);
    }
  }

  lemma Reached(cfg: Config, steps: seq<Step>, end: State)
    requires Executes(cfg, Initial(cfg), steps, end)
    ensures Inv(cfg, end)
  {
    StartInv(cfg);
    RunKeeps(cfg, Initial(cfg), steps, end);
  }

  /** In whatever state a run is, its barriers are sound, and until everything is quiescent it can go on. */
  lemma EveryRunKeepsBarriers(cfg: Config, steps: seq<Step>, end: State)
    requires Executes(cfg, Initial(cfg), steps, end)
    ensures forall i: nat :: Tasks(end.items, DoRefill, i) + Tasks(end.items, DoMark, i) <= 1
    ensures end.refills >= 0 && end.marks >= 0 && (end.refills == 0 || end.marks == 0)
    ensures forall cb :: Call(cb) in end.items ==>
              end.pc.Idle? && end.items == multiset{Call(cb)} && end.refills == 0 && end.marks == 0
    ensures Call(MarkAll) in end.items || Call(FindOldest) in end.items ==> OnceEach(end)
    ensures Quiescent(end) || exists step :: Enabled(end, step)
    ensures (end.pc.Launching? ==> Enabled(end, Launch)) && forall x :: x in end.items ==> CanGoOn(end, x)
  {
    hide Inv, Enabled, Quiescent, Tasks, OnceEach, Executes, CanGoOn;
    Reached(cfg, steps, end);
    BarrierSafety(cfg, end);
    NobodyWaits(cfg, end);
    if !Quiescent(end) {
      NeverStuck(cfg, end);
    }
  }

  /**
   * The main result. However the workers and the event loop interleave, however the reads fall, what is
   * written is always a prefix of the merge of the whole files, and the whole of it once the run is over.
   */
  lemma EveryRunMerges(cfg: Config, steps: seq<Step>, end: State)
    requires Executes(cfg, Initial(cfg), steps, end)
    ensures end.written <= Merge(AllEntries(cfg.files), cfg.dedupe)
    ensures Quiescent(end) && end.exit == 0 ==>
              && end.written == Merge(AllEntries(cfg.files), cfg.dedupe)
              && forall i :: 0 <= i < |end.srcs| ==> end.srcs[i].noMore
  {
    Reached(cfg, steps, end);
    var rests :| InvWith(cfg, end, rests);
    if Quiescent(end) && end.exit == 0 {
      DoneMeansAll(cfg, end, rests);
    }
  }

  lemma DoneMeansAll(cfg: Config, st: State, rests: seq<Log>)
    requires InvWith(cfg, st, rests) && Quiescent(st) && st.exit == 0
    ensures forall i :: 0 <= i < |st.srcs| ==> st.srcs[i].noMore
    ensures MergeFrom(rests, st.last, cfg.dedupe) == []
  {
    assert Finished(st);
    assert forall i :: 0 <= i < |rests| ==> Heads(rests)[i].Gone?;
  }
}
