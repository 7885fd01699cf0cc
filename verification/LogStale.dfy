/**
 * Why line 391 of LogMerge depends on `fread`: a run in which one read comes back short before the end of the file,
 * after which a source that has seen its end still asks for more.
 */
module LogStale {
  import opened LogText
  import opened LogBarrier

  /** Between two callbacks of a run over one file, before anything is written. */
  function Resting(cb: Callback, s: Src, finished: multiset<nat>): State {
    State(Idle, multiset{Call(cb)}, 0, 0, 0, false, [s], 0, [], [], finished)
  }

  /** A worker is busy with the only source. */
  function Working(op: Op, s: Src): State {
    State(Idle, multiset{Task(op, 0, true)}, if op == DoRefill then 1 else 0, if op == DoMark then 1 else 0, 0, false,
          [s], 0, [], [], multiset{})
  }

  /** The callback that launches a phase, and the one that follows it while more is needed. */
  function Opener(op: Op): Callback { if op == DoRefill then RefillAll else MarkAll }

  function Closer(op: Op): Callback { if op == DoRefill then MarkAll else RefillAll }

  function Opening(op: Op): seq<Step> {
    [Handle(Call(Opener(op))), Launch, Launch, Begin(op, 0)]
  }

  function Closing(op: Op, r: Read): seq<Step> { [Finish(op, 0, r), Handle(Report(op, 0))] }

  lemma {:induction false} RunsJoin(cfg: Config, st: State, a: seq<Step>, mid: State, b: seq<Step>, end: State)
    requires Executes(cfg, st, a, mid) && Executes(cfg, mid, b, end)
    ensures Executes(cfg, st, a + b, end)
    decreases |a|
  {
    hide Enabled, Apply;
    if a == [] {
      assert a + b == b;
    } else {
      RunsJoin(cfg, Apply(cfg, st, a[0]), a[1..], mid, b, end);
      assert (a + b)[0] == a[0] && (a + b)[1..] == a[1..] + b;
    }
  }

  lemma StepJoins(cfg: Config, st: State, step: Step, steps: seq<Step>, end: State)
    requires Enabled(st, step) && Executes(cfg, Apply(cfg, st, step), steps, end)
    ensures Executes(cfg, st, [step] + steps, end)
  {
    hide Enabled, Apply;
    assert ([step] + steps)[0] == step && ([step] + steps)[1..] == steps;
  }

  /** Four enabled steps, one after the other. */
  lemma Four(cfg: Config, st: State, steps: seq<Step>)
    requires |steps| == 4 && Enabled(st, steps[0])
    requires Enabled(Apply(cfg, st, steps[0]), steps[1])
    requires Enabled(Apply(cfg, Apply(cfg, st, steps[0]), steps[1]), steps[2])
    requires Enabled(Apply(cfg, Apply(cfg, Apply(cfg, st, steps[0]), steps[1]), steps[2]), steps[3])
    ensures Executes(cfg, st, steps,
              Apply(cfg, Apply(cfg, Apply(cfg, Apply(cfg, st, steps[0]), steps[1]), steps[2]), steps[3]))
  {
    hide Enabled, Apply;
    var end := Apply(cfg, Apply(cfg, Apply(cfg, Apply(cfg, st, steps[0]), steps[1]), steps[2]), steps[3]);
    assert Executes(cfg, end, [], end);
    StepJoins(cfg, Apply(cfg, Apply(cfg, Apply(cfg, st, steps[0]), steps[1]), steps[2]), steps[3], [], end);
    StepJoins(cfg, Apply(cfg, Apply(cfg, st, steps[0]), steps[1]), steps[2], [steps[3]], end);
    StepJoins(cfg, Apply(cfg, st, steps[0]), steps[1], [steps[2]] + [steps[3]], end);
    StepJoins(cfg, st, steps[0], [steps[1]] + ([steps[2]] + [steps[3]]), end);
    assert steps == [steps[0]] + ([steps[1]] + ([steps[2]] + [steps[3]]));
  }

  /** The loop that hands out tasks, for the only source. */
  function Handing(op: Op, s: Src, enqueued: bool): State {
    Working(op, s).(pc := Launching(op, 0, enqueued), refills := 0, marks := 0,
                    items := if enqueued then multiset{Task(op, 0, false)} else multiset{})
  }

  lemma Hands(cfg: Config, op: Op, s: Src, finished: multiset<nat>)
    ensures var st := Resting(Opener(op), s, finished);
            Enabled(st, Opening(op)[0]) && Apply(cfg, st, Opening(op)[0]) == Handing(op, s, false)
    ensures Enabled(Handing(op, s, false), Launch)
            && Apply(cfg, Handing(op, s, false), Launch) == Handing(op, s, true)
  {
    var cb := Opener(op);
    assert multiset{Call(cb)} - multiset{Call(cb)} == multiset{};
    assert multiset{} + multiset{Task(op, 0, false)} == multiset{Task(op, 0, false)};
  }

  lemma Starts(cfg: Config, op: Op, s: Src)
    ensures Enabled(Handing(op, s, true), Launch)
    ensures var st := Apply(cfg, Handing(op, s, true), Launch);
            Enabled(st, Begin(op, 0)) && Apply(cfg, st, Begin(op, 0)) == Working(op, s)
  {
    assert multiset{Task(op, 0, false)} - multiset{Task(op, 0, false)} + multiset{Task(op, 0, true)}
        == multiset{Task(op, 0, true)};
  }

  /** A phase is launched, and its worker begins. */
  lemma OpensPhase(cfg: Config, op: Op, s: Src, finished: multiset<nat>)
    ensures Executes(cfg, Resting(Opener(op), s, finished), Opening(op), Working(op, s))
  {
    hide Enabled, Apply, Executes, Handing, Working, Resting;
    Hands(cfg, op, s, finished);
    Starts(cfg, op, s);
    Four(cfg, Resting(Opener(op), s, finished), Opening(op));
  }

  /** The worker is done, and the report closes the phase: marking follows a refill, a refill a request for more. */
  lemma ClosesPhase(cfg: Config, op: Op, s: Src, r: Read, t: Src)
    requires Operable(s)
    requires op == DoRefill ==> Refill(s, r) == Reported(t)
    requires op == DoMark ==> t == Mark(s) && t.needMore
    ensures Executes(cfg, Working(op, s), Closing(op, r),
              Resting(Closer(op), t, multiset{0}))
  {
    hide Refill, Mark, Enabled, Apply, Reporting;
    Reports(cfg, op, s, r, t);
    ReportCloses(cfg, op, t);
    var end := Resting(Closer(op), t, multiset{0});
    assert Executes(cfg, end, [], end);
    StepJoins(cfg, Reporting(op, t), Handle(Report(op, 0)), [], end);
    StepJoins(cfg, Working(op, s), Finish(op, 0, r), [Handle(Report(op, 0))], end);
    assert Closing(op, r) == [Finish(op, 0, r)] + [Handle(Report(op, 0))];
  }

  function Reporting(op: Op, t: Src): State {
    Working(op, t).(items := multiset{Report(op, 0)}, finished := multiset{0})
  }

  lemma Reports(cfg: Config, op: Op, s: Src, r: Read, t: Src)
    requires Operable(s)
    requires op == DoRefill ==> Refill(s, r) == Reported(t)
    requires op == DoMark ==> t == Mark(s)
    ensures Enabled(Working(op, s), Finish(op, 0, r))
    ensures Apply(cfg, Working(op, s), Finish(op, 0, r)) == Reporting(op, t)
  {
    hide Refill, Mark;
    assert multiset{Task(op, 0, true)} - multiset{Task(op, 0, true)} + multiset{Report(op, 0)}
        == multiset{Report(op, 0)};
  }

  lemma ReportCloses(cfg: Config, op: Op, t: Src)
    requires op == DoMark ==> t.needMore
    ensures Enabled(Reporting(op, t), Handle(Report(op, 0)))
    ensures Apply(cfg, Reporting(op, t), Handle(Report(op, 0)))
         == Resting(Closer(op), t, multiset{0})
  {
    var next := Call(Closer(op));
    assert multiset{Report(op, 0)} - multiset{Report(op, 0)} + multiset{next} == multiset{next};
  }

  lemma PhaseRuns(cfg: Config, op: Op, s: Src, finished: multiset<nat>, r: Read, t: Src)
    requires Operable(s)
    requires op == DoRefill ==> Refill(s, r) == Reported(t)
    requires op == DoMark ==> t == Mark(s) && t.needMore
    ensures Executes(cfg, Resting(Opener(op), s, finished), Opening(op) + Closing(op, r),
              Resting(Closer(op), t, multiset{0}))
  {
    hide Executes, Refill, Mark;
    OpensPhase(cfg, op, s, finished);
    ClosesPhase(cfg, op, s, r, t);
    RunsJoin(cfg, Resting(Opener(op), s, finished), Opening(op), Working(op, s),
             Closing(op, r), Resting(Closer(op), t, multiset{0}));
  }

  /** One round for the only source, after which it still asks for more. */
  lemma RoundRuns(cfg: Config, s: Src, finished: multiset<nat>, r: Read, t: Src)
    requires Operable(s) && Refill(s, r) == Reported(t) && Operable(t) && Mark(t).needMore
    ensures Executes(cfg, Resting(RefillAll, s, finished), Round(r), Resting(RefillAll, Mark(t), multiset{0}))
  {
    hide Executes, Refill, Mark;
    PhaseRuns(cfg, DoRefill, s, finished, r, t);
    PhaseRuns(cfg, DoMark, t, multiset{0}, r, Mark(t));
    RunsJoin(cfg, Resting(RefillAll, s, finished), Opening(DoRefill) + Closing(DoRefill, r),
             Resting(MarkAll, t, multiset{0}), Opening(DoMark) + Closing(DoMark, r),
             Resting(RefillAll, Mark(t), multiset{0}));
  }

  function Round(r: Read): seq<Step> {
    (Opening(DoRefill) + Closing(DoRefill, r)) + (Opening(DoMark) + Closing(DoMark, r))
  }

  /** One octet arrives, which is no entry: the source asks for more. */
  lemma OneOctetAsks(file: Text)
    requires file != []
    ensures var t := TakeIn(Opened(file), Read(1, false));
            && Refill(Opened(file), Read(1, false)) == Reported(t)
            && t.text == file[..1] && t.unread == file[1..] && t.beg == 0 && t.cap == INITIAL_CAP && !t.isEof
            && Mark(t) == t.(needMore := true)
  {
    var t := TakeIn(Opened(file), Read(1, false));
    assert ScanBegin(t.text, 0) == 1;
  }

  /** Then all the rest arrives with the end of the file, and nobody takes the request back. */
  lemma RestArrives(s: Src)
    requires |s.text| == 1 && s.beg == 0 && s.cap == INITIAL_CAP && !s.isEof && s.needMore && |s.unread| < INITIAL_CAP
    ensures var t := TakeIn(s, Read(|s.unread|, true));
            && Refill(s, Read(|s.unread|, true)) == Reported(t)
            && Operable(t) && t.isEof && Mark(t).needMore && Mark(t).isEof && Operable(Mark(t))
  {
    hide ScanBegin, NextStart;
  }

  /**
   * For every file that is not empty and fits the first buffer there is a run, with one short read at its begin, that
   * comes to a refill of a source that has seen the end of its file and still asks for more.
   */
  lemma ShortReadMakesRequestStale(file: Text, dedupe: bool) returns (steps: seq<Step>, end: State)
    requires 1 <= |file| <= INITIAL_CAP
    ensures Executes(Config([file], dedupe), Initial(Config([file], dedupe)), steps, end)
    ensures forall r: Read :: Enabled(end, Finish(DoRefill, 0, r))
    ensures end.srcs[0].needMore && end.srcs[0].isEof
  {
    hide Executes, Refill, Mark, TakeIn;
    var cfg := Config([file], dedupe);
    var s0 := Opened(file);
    var r1 := Read(1, false);
    var s1 := TakeIn(s0, r1);
    OneOctetAsks(file);
    RoundRuns(cfg, s0, multiset{}, r1, s1);
    var s2 := Mark(s1);
    var r2 := Read(|s2.unread|, true);
    var s3 := TakeIn(s2, r2);
    RestArrives(s2);
    RoundRuns(cfg, s2, multiset{0}, r2, s3);
    OpensPhase(cfg, DoRefill, Mark(s3), multiset{0});
    RunsJoin(cfg, Resting(RefillAll, s2, multiset{0}), Round(r2), Resting(RefillAll, Mark(s3), multiset{0}),
             Opening(DoRefill), Working(DoRefill, Mark(s3)));
    RunsJoin(cfg, Resting(RefillAll, s0, multiset{}), Round(r1), Resting(RefillAll, s2, multiset{0}),
             Round(r2) + Opening(DoRefill), Working(DoRefill, Mark(s3)));
    steps := Round(r1) + (Round(r2) + Opening(DoRefill));
    end := Working(DoRefill, Mark(s3));
    assert Initial(cfg) == Resting(RefillAll, s0, multiset{});
  }
}
