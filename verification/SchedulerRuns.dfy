/** Every order in which the children may end: how many run at once, which were visited, and when all of it stops. */
module SchedulerRuns {
  import opened Scheduler
  import opened Sequences

  /** `queued`: the `beginNextDevice` events waiting in the event loop; `running` and `joined`: device indices. */
  datatype World = World(app: State, queued: nat, running: set<nat>, joined: set<nat>)

  /** The event loop takes a queued `beginNextDevice`, or the child of a device is joined. */
  datatype Event = Turn | Join(device: nat)

  function Start(total: nat, maxParallel: int): World {
    World(State(total, maxParallel, 0, 0, []), 1, {}, {})
  }

  predicate Enabled(w: World, e: Event) {
    match e
    case Turn => w.queued > 0
    case Join(device) => device in w.running
  }

  function Apply(w: World, e: Event): World
    requires Enabled(w, e)
  {
    match e
    case Turn =>
      World(Filled(w.app), w.queued - 1, w.running + Elements(Indices(w.app.iDevice, Room(w.app))), w.joined)
    case Join(device) =>
      World(w.app.(numInProgress := w.app.numInProgress - 1), w.queued + 1, w.running - {device}, w.joined + {device})
  }

  predicate Busy(s: State) { s.numInProgress >= s.maxParallel || s.iDevice >= s.total }

  ghost predicate Counted(w: World) {
    && w.app.iDevice <= w.app.total && w.app.children == Indices(0, w.app.iDevice)
    && w.app.numInProgress == |w.running| && (w.running != {} ==> |w.running| <= w.app.maxParallel)
    && w.running !! w.joined && |w.running| + |w.joined| == w.app.iDevice
    && (w.queued == 0 ==> Busy(w.app))
  }

  ghost predicate Inv(w: World) {
    Counted(w) && forall d: nat :: d in w.running + w.joined <==> d < w.app.iDevice
  }

  /** The children just begun are other devices than those begun before. */
  lemma BegunAreNew(w: World)
    requires Inv(w)
    ensures var begun := Elements(Indices(w.app.iDevice, Room(w.app)));
            begun !! w.running && begun !! w.joined && |w.running + begun| == |w.running| + Room(w.app)
  {
    var begun := Elements(Indices(w.app.iDevice, Room(w.app)));
    IndicesSize(w.app.iDevice, Room(w.app));
    forall d | d in begun
      ensures d !in w.running + w.joined
    {
      IndicesIn(w.app.iDevice, Room(w.app), d);
    }
    hide Inv, Elements, Indices;
    assert forall d :: d in w.running || d in w.joined ==> d in w.running + w.joined;
    assert begun !! w.running && begun !! w.joined;
  }

  lemma TurnMembers(w: World, d: nat)
    requires Inv(w) && Enabled(w, Turn)
    ensures var v := Apply(w, Turn);
            d in v.running + v.joined <==> d < v.app.iDevice
  {
    IndicesIn(w.app.iDevice, Room(w.app), d);
    assert d in w.running + w.joined <==> d < w.app.iDevice;
    hide Counted, Elements, Indices, Room, Busy;
  }

  lemma TurnCounts(w: World)
    requires Counted(w) && Enabled(w, Turn)
    requires var begun := Elements(Indices(w.app.iDevice, Room(w.app)));
             begun !! w.running && begun !! w.joined && |w.running + begun| == |w.running| + Room(w.app)
    ensures Counted(Apply(w, Turn))
  {
    assert Indices(0, w.app.iDevice) + Indices(w.app.iDevice, Room(w.app))
        == Indices(0, w.app.iDevice + Room(w.app));
    hide Elements, Indices;
    assert Busy(Filled(w.app));
  }

  lemma TurnKeeps(w: World)
    requires Inv(w) && Enabled(w, Turn)
    ensures Inv(Apply(w, Turn))
  {
    BegunAreNew(w);
    hide Counted, Elements, Indices, Room, Busy;
    TurnCounts(w);
    forall d: nat
      ensures d in Apply(w, Turn).running + Apply(w, Turn).joined <==> d < Apply(w, Turn).app.iDevice
    {
      TurnMembers(w, d);
    }
  }

  lemma JoinKeeps(w: World, device: nat)
    requires Inv(w) && Enabled(w, Join(device))
    ensures w.app.numInProgress > 0 && Inv(Apply(w, Join(device)))
  {
    assert |w.running - {device}| == |w.running| - 1;
    assert |w.joined + {device}| == |w.joined| + 1;
    assert w.running - {device} + (w.joined + {device}) == w.running + w.joined;
  }

  ghost predicate Runs(w: World, events: seq<Event>, v: World)
    decreases |events|
  {
    if events == [] then v == w else Enabled(w, events[0]) && Runs(Apply(w, events[0]), events[1..], v)
  }

  /** Every event uses up one of the events there can still be. */
  function Rank(w: World): int { 2 * (w.app.total - |w.joined|) + w.queued }

  lemma {:induction false} RunKeeps(w: World, events: seq<Event>, v: World)
    requires Inv(w) && Runs(w, events, v)
    ensures Inv(v) && Rank(v) + |events| == Rank(w)
    ensures v.app.total == w.app.total && v.app.maxParallel == w.app.maxParallel
    decreases |events|
  {
    if events != [] {
      if events[0].Turn? {
        TurnKeeps(w);
      } else {
        JoinKeeps(w, events[0].device);
      }
      RankDrops(w, events[0]);
      hide Inv, Rank;
      RunKeeps(Apply(w, events[0]), events[1..], v);
    }
  }

  lemma RankDrops(w: World, e: Event)
    requires Inv(w) && Enabled(w, e)
    ensures Rank(Apply(w, e)) + 1 == Rank(w)
  {
    if e.Join? {
      assert |w.joined + {e.device}| == |w.joined| + 1;
    }
  }

  /**
   * At every moment of every run at most `maxParallel` children run, the devices were started in list order and each
   * once, and as long as no `beginNextDevice` is queued no child that could run is held back. Each of the children may
   * be the next to end.
   */
  lemma AlwaysBounded(total: nat, maxParallel: int, events: seq<Event>, w: World)
    requires Runs(Start(total, maxParallel), events, w)
    ensures w.app.numInProgress == |w.running| && (w.running != {} ==> |w.running| <= maxParallel)
    ensures w.app.iDevice <= total && w.app.children == Indices(0, w.app.iDevice)
    ensures forall d: nat :: d in w.app.children <==> d in w.running + w.joined
    ensures w.queued == 0 ==> |w.running| >= maxParallel || w.app.iDevice == total
    ensures |events| <= 2 * total + 1
    ensures forall d :: d in w.running ==> Enabled(w, Join(d))
  {
    RunKeeps(Start(total, maxParallel), events, w);
    forall d: nat
      ensures d in w.app.children <==> d in w.running + w.joined
    {
      IndicesIn(0, w.app.iDevice, d);
    }
    JoinedAreFew(w);
  }

  lemma JoinedAreFew(w: World)
    requires Inv(w)
    ensures Rank(w) >= 0
  {
  }

  /** Nothing can happen any more. */
  predicate Quiet(w: World) { w.queued == 0 && w.running == {} }

  /** Unless a run is quiet, something can happen. */
  lemma QuietIff(w: World)
    ensures Quiet(w) <==> forall e :: !Enabled(w, e)
  {
    if w.queued > 0 {
      assert Enabled(w, Turn);
    } else if device :| device in w.running {
      assert Enabled(w, Join(device));
    }
  }

  /** Once quiet, all devices were visited and joined; for that `maxParallel` must be positive, or the list empty. */
  lemma QuietIsDoneIff(total: nat, maxParallel: int, events: seq<Event>, w: World)
    requires Runs(Start(total, maxParallel), events, w) && Quiet(w)
    ensures w.joined == Elements(Indices(0, total)) <==> maxParallel >= 1 || total == 0
    ensures maxParallel >= 1 ==> w.app.children == Indices(0, total) && |events| == 2 * total + 1
  {
    RunKeeps(Start(total, maxParallel), events, w);
    assert w.running + w.joined == w.joined;
    forall d: nat
      ensures d in Elements(Indices(0, total)) <==> d < total
    {
      IndicesIn(0, total, d);
    }
    if maxParallel >= 1 || total == 0 {
      assert w.app.iDevice == total;
      assert forall d: nat :: d in w.joined <==> d in w.running + w.joined;
      assert w.joined == Elements(Indices(0, total));
    } else {
      NothingStarts(Start(total, maxParallel), events, w);
      assert 0 in Elements(Indices(0, total));
    }
  }

  lemma {:induction false} NothingStarts(w: World, events: seq<Event>, v: World)
    requires Runs(w, events, v) && w.app.maxParallel < 1 && w.app.numInProgress >= 0
    requires w.running == {} && w.joined == {}
    ensures v.joined == {}
    decreases |events|
  {
    if events != [] {
      assert Room(w.app) == 0;
      assert Elements(Indices(w.app.iDevice, 0)) == {};
      NothingStarts(Apply(w, events[0]), events[1..], v);
    }
  }
}
