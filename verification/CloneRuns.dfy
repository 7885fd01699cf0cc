/** Every order in which the answers may arrive: when the packing starts, and what it then packs. */
module CloneRuns {
  import opened CloneTree
  import opened CloneFetch
  import opened Sequences

  /**
   * `open`: listings asked for and not answered; `failed`: answered with a status other than 200;
   * `served`: what the server lists for each node.
   */
  datatype World = World(app: State, open: set<nat>, failed: set<nat>, served: seq<seq<Resource>>)

  /** A complete listing arrives, or a response whose status is not 200. */
  datatype Event = Answer(id: nat) | Fail(id: nat)

  function Start(url: string, listing: seq<Resource>): World {
    World(Begin(url), {0}, {}, [listing])
  }

  function Listings(listing: seq<Resource>): seq<seq<Resource>> {
    seq(|listing|, k requires 0 <= k < |listing| => listing[k].listing)
  }

  function Apply(w: World, e: Event): World
    requires e.id < |w.app.nodes| == |w.served|
  {
    match e
    case Fail(id) => w.(open := w.open - {id}, failed := w.failed + {id})
    case Answer(id) =>
      var names := Names(w.served[id]);
      World(Ended(w.app, id, names), w.open - {id} + Elements(Asked(|w.app.nodes|, names)), w.failed,
            w.served + Listings(w.served[id]))
  }

  predicate Unlisted(nodes: seq<Node>, i: nat) {
    i < |nodes| && !nodes[i].isLeaf && nodes[i].childNodes.None?
  }

  /** The counter is the number of listings without a complete answer, and it alone decides about the packing. */
  ghost predicate Counted(w: World) {
    && w.open !! w.failed
    && (forall i: nat :: i in w.open + w.failed <==> Unlisted(w.app.nodes, i))
    && w.app.numPending == |w.open| + |w.failed|
    && w.app.packs == if w.app.numPending == 0 then [0] else []
  }

  /** Every collection discovered is asked for exactly once, and no leaf ever. */
  ghost predicate AskedOnce(w: World) {
    forall i: nat :: multiset(w.app.requests)[i] == if i < |w.app.nodes| && !w.app.nodes[i].isLeaf then 1 else 0
  }

  /** Node `i` has the children that the server lists for it. */
  ghost predicate MirrorsAt(nodes: seq<Node>, served: seq<seq<Resource>>, i: nat)
    requires i < |nodes| == |served|
  {
    var kids := Kids(nodes, i);
    && |kids| == |served[i]|
    && forall k :: 0 <= k < |kids| ==> Stands(nodes, served, kids[k], nodes[i].url, served[i][k])
  }

  predicate Stands(nodes: seq<Node>, served: seq<seq<Resource>>, kid: nat, url: string, r: Resource)
    requires |nodes| == |served|
  {
    && kid < |nodes| && nodes[kid].url == ChildUrl(url, r.name)
    && nodes[kid].isLeaf == !EndsWithSlash(r.name) && served[kid] == r.listing
  }

  ghost predicate Mirrors(w: World) {
    && |w.app.nodes| == |w.served|
    && forall i: nat :: i < |w.served| && w.app.nodes[i].childNodes.Some? ==> MirrorsAt(w.app.nodes, w.served, i)
  }

  ghost predicate Inv(w: World) {
    Linked(w.app.nodes) && Counted(w) && AskedOnce(w) && Mirrors(w)
  }

  lemma StartInv(url: string, listing: seq<Resource>)
    ensures Inv(Start(url, listing))
  {
    var w := Start(url, listing);
    assert KidsLinked(w.app.nodes, 0);
  }

  predicate IsAsked(first: nat, names: seq<string>, x: nat) {
    first <= x < first + |names| && EndsWithSlash(names[x - first])
  }

  lemma CountBoth(a: seq<nat>, b: seq<nat>, x: nat)
    ensures multiset(a + b)[x] == multiset(a)[x] + multiset(b)[x]
  {
  }

  lemma IsAskedLast(first: nat, names: seq<string>, n: nat, x: nat)
    requires |names| == n + 1
    ensures IsAsked(first, names, x) <==>
              IsAsked(first, names[..n], x) || (x == first + n && EndsWithSlash(names[n]))
    ensures !IsAsked(first, names[..n], first + n)
  {
    hide EndsWithSlash;
  }

  lemma {:induction false} AskedCount(first: nat, names: seq<string>, x: nat)
    ensures multiset(Asked(first, names))[x] == if IsAsked(first, names, x) then 1 else 0
  {
    if names == [] {
    } else {
      hide EndsWithSlash, IsAsked;
      var n := |names| - 1;
      AskedCount(first, names[..n], x);
      CountBoth(Asked(first, names[..n]), [first + n], x);
      IsAskedLast(first, names, n, x);
    }
  }

  lemma AskedIn(first: nat, names: seq<string>, x: nat)
    ensures x in Asked(first, names) <==> IsAsked(first, names, x)
  {
    AskedCount(first, names, x);
    hide Asked, IsAsked;
    assert x in Asked(first, names) <==> multiset(Asked(first, names))[x] > 0;
  }

  lemma {:induction false} AskedSize(first: nat, names: seq<string>)
    ensures |Elements(Asked(first, names))| == |Asked(first, names)|
  {
    if names == [] {
      assert Elements(Asked(first, names)) == {};
    } else {
      var n := |names| - 1;
      var before := Asked(first, names[..n]);
      AskedSize(first, names[..n]);
      AskedIn(first, names[..n], first + n);
      if EndsWithSlash(names[n]) {
        assert Elements(Asked(first, names)) == Elements(before) + {first + n};
      }
    }
  }

  lemma SwappedSize(open: set<nat>, id: nat, asked: set<nat>)
    requires id in open && asked !! open
    ensures |open - {id} + asked| == |open| - 1 + |asked|
  {
    assert |open - {id}| == |open| - 1;
    assert (open - {id}) !! asked;
  }

  /** Who waits for a listing after an answer. */
  lemma AnswerWaits(w: World, id: nat, i: nat)
    requires Inv(w) && id in w.open && id < |w.app.nodes|
    ensures var v := Apply(w, Answer(id));
            i in v.open + v.failed <==> Unlisted(v.app.nodes, i)
  {
    var nodes, names := w.app.nodes, Names(w.served[id]);
    AskedIn(|nodes|, names, i);
    hide Linked, AskedOnce, Mirrors, Asked;
    assert i in w.open + w.failed <==> Unlisted(nodes, i);
    assert id in w.open + w.failed;
  }

  lemma AskedAreNew(w: World, id: nat)
    requires Inv(w) && id < |w.app.nodes| == |w.served|
    ensures var asked := Elements(Asked(|w.app.nodes|, Names(w.served[id])));
            asked !! w.open && asked !! w.failed
  {
    var nodes, names := w.app.nodes, Names(w.served[id]);
    hide Linked, AskedOnce, Mirrors, Asked;
    var asked := Elements(Asked(|nodes|, names));
    forall i | i in asked
      ensures i !in w.open + w.failed
    {
      AskedIn(|nodes|, names, i);
      assert !Unlisted(nodes, i);
    }
  }

  lemma AnswerCounted(w: World, id: nat)
    requires Inv(w) && id in w.open && id < |w.app.nodes|
    ensures Counted(Apply(w, Answer(id)))
  {
    var v := Apply(w, Answer(id));
    var asked := Elements(Asked(|w.app.nodes|, Names(w.served[id])));
    AskedSize(|w.app.nodes|, Names(w.served[id]));
    AskedAreNew(w, id);
    SwappedSize(w.open, id, asked);
    assert v.open !! v.failed;
    hide Linked, AskedOnce, Mirrors, Asked, Unlisted, Names, Elements, Grown;
    forall i: nat
      ensures i in v.open + v.failed <==> Unlisted(v.app.nodes, i)
    {
      AnswerWaits(w, id, i);
    }
  }

  lemma AnswerAskedOnce(w: World, id: nat)
    requires Inv(w) && id in w.open && id < |w.app.nodes|
    ensures AskedOnce(Apply(w, Answer(id)))
  {
    hide Linked, Counted, Asked, Unlisted, Grown, MirrorsAt;
    forall i: nat
      ensures var v := Apply(w, Answer(id)).app;
              multiset(v.requests)[i] == if i < |v.nodes| && !v.nodes[i].isLeaf then 1 else 0
    {
      AskedOnceAfter(w, id, i);
    }
  }

  lemma AskedOnceAfter(w: World, id: nat, i: nat)
    requires AskedOnce(w) && id < |w.app.nodes| == |w.served|
    ensures var v := Apply(w, Answer(id)).app;
            multiset(v.requests)[i] == if i < |v.nodes| && !v.nodes[i].isLeaf then 1 else 0
  {
    hide Asked, Grown;
    AskedCount(|w.app.nodes|, Names(w.served[id]), i);
    CountBoth(w.app.requests, Asked(|w.app.nodes|, Names(w.served[id])), i);
    GrownLeaf(w.app.nodes, id, Names(w.served[id]), i);
  }

  lemma GrownLeaf(nodes: seq<Node>, id: nat, names: seq<string>, i: nat)
    requires id < |nodes|
    ensures |Grown(nodes, id, names)| == |nodes| + |names|
    ensures i < |nodes| ==> Grown(nodes, id, names)[i].(childNodes := None) == nodes[i].(childNodes := None)
    ensures |nodes| <= i < |nodes| + |names| ==>
              Grown(nodes, id, names)[i].isLeaf == !EndsWithSlash(names[i - |nodes|])
  {
  }

  lemma GrownAt(nodes: seq<Node>, id: nat, names: seq<string>, i: nat)
    requires id < |nodes| && i < |nodes| + |names|
    ensures var grown := Grown(nodes, id, names);
            && |grown| == |nodes| + |names|
            && (i < |nodes| && i != id ==> grown[i] == nodes[i])
            && (|nodes| <= i ==> grown[i] == ChildNode(id, nodes[id].url, names[i - |nodes|]))
            && grown[id].url == nodes[id].url
            && Kids(grown, id) == Indices(|nodes|, |names|)
  {
  }

  lemma OldMirrors(w: World, id: nat, i: nat)
    requires Mirrors(w) && id < |w.app.nodes| && i < |w.app.nodes| && i != id
    requires w.app.nodes[id].childNodes.None? && !w.app.nodes[id].isLeaf
    requires w.app.nodes[i].childNodes.Some?
    ensures var v := Apply(w, Answer(id));
            |v.app.nodes| == |v.served| && MirrorsAt(v.app.nodes, v.served, i)
  {
    var nodes, names, v := w.app.nodes, Names(w.served[id]), Apply(w, Answer(id));
    GrownAt(nodes, id, names, i);
    assert MirrorsAt(nodes, w.served, i);
    forall k | 0 <= k < |Kids(nodes, i)|
      ensures Stands(v.app.nodes, v.served, Kids(nodes, i)[k], nodes[i].url, w.served[i][k])
    {
      assert Stands(nodes, w.served, Kids(nodes, i)[k], nodes[i].url, w.served[i][k]);
      GrownLeaf(nodes, id, names, Kids(nodes, i)[k]);
    }
    hide Grown, Asked, Mirrors, Stands;
    assert v.served[i] == w.served[i];
  }

  lemma NewMirrors(w: World, id: nat)
    requires id < |w.app.nodes| == |w.served|
    ensures var v := Apply(w, Answer(id));
            |v.app.nodes| == |v.served| && MirrorsAt(v.app.nodes, v.served, id)
  {
    var nodes, r := w.app.nodes, w.served[id];
    var grown, v := Grown(nodes, id, Names(r)), Apply(w, Answer(id));
    assert v.app.nodes == grown && v.served == w.served + Listings(r);
    GrownAt(nodes, id, Names(r), id);
    hide Apply, Grown, Listings, Stands, Kids;
    forall k: nat | k < |r|
      ensures Stands(grown, v.served, Indices(|nodes|, |r|)[k], grown[id].url, r[k])
    {
      NewStands(nodes, w.served, id, k);
    }
  }

  lemma NewStands(nodes: seq<Node>, served: seq<seq<Resource>>, id: nat, k: nat)
    requires id < |nodes| == |served| && k < |served[id]|
    ensures var grown := Grown(nodes, id, Names(served[id]));
            && |grown| == |served + Listings(served[id])|
            && Stands(grown, served + Listings(served[id]), |nodes| + k, nodes[id].url, served[id][k])
  {
    GrownAt(nodes, id, Names(served[id]), |nodes| + k);
    hide Grown, EndsWithSlash, ChildUrl;
  }

  lemma AnswerMirrors(w: World, id: nat)
    requires Mirrors(w) && Unlisted(w.app.nodes, id)
    ensures Mirrors(Apply(w, Answer(id)))
  {
    var v := Apply(w, Answer(id));
    NewMirrors(w, id);
    forall i: nat | i < |v.served| && v.app.nodes[i].childNodes.Some?
      ensures MirrorsAt(v.app.nodes, v.served, i)
    {
      if i != id {
        GrownAt(w.app.nodes, id, Names(w.served[id]), i);
        hide Mirrors, MirrorsAt, Grown, Asked;
        OldMirrors(w, id, i);
      }
    }
  }

  lemma AnswerKeeps(w: World, id: nat)
    requires Inv(w) && id in w.open && id < |w.app.nodes|
    ensures Inv(Apply(w, Answer(id)))
  {
    assert Unlisted(w.app.nodes, id) by { assert id in w.open + w.failed; }
    GrownLinked(w.app.nodes, id, Names(w.served[id]));
    hide Linked, Counted, AskedOnce, Mirrors, Asked, Names, Elements;
    AnswerCounted(w, id);
    AnswerAskedOnce(w, id);
    AnswerMirrors(w, id);
  }

  lemma Moved(open: set<nat>, failed: set<nat>, id: nat)
    requires id in open && open !! failed
    ensures open - {id} + (failed + {id}) == open + failed && (open - {id}) !! (failed + {id})
    ensures |open - {id}| + |failed + {id}| == |open| + |failed|
  {
    assert |open - {id}| == |open| - 1 && |failed + {id}| == |failed| + 1;
  }

  lemma FailKeeps(w: World, id: nat)
    requires Inv(w) && id in w.open && id < |w.app.nodes|
    ensures Inv(Apply(w, Fail(id)))
  {
    hide Linked, MirrorsAt, Unlisted;
    Moved(w.open, w.failed, id);
    var v := Apply(w, Fail(id));
    assert v == w.(open := w.open - {id}, failed := w.failed + {id});
    hide Apply;
    assert Counted(v) by { hide Mirrors, AskedOnce; }
    assert Mirrors(v);
  }

  lemma StepKeeps(w: World, e: Event)
    requires Inv(w) && e.id in w.open
    ensures e.id < |w.app.nodes| == |w.served| && Inv(Apply(w, e))
  {
    assert Unlisted(w.app.nodes, e.id) by { assert e.id in w.open + w.failed; }
    assert |w.app.nodes| == |w.served|;
    hide *;
    match e
    case Fail(id) => FailKeeps(w, id);
    case Answer(id) => AnswerKeeps(w, id);
  }

  predicate Enabled(w: World, e: Event) {
    e.id in w.open && e.id < |w.app.nodes| == |w.served|
  }

  /** `events` lead from `w` to `v`. */
  ghost predicate Runs(w: World, events: seq<Event>, v: World)
    decreases |events|
  {
    if events == [] then v == w
    else Enabled(w, events[0]) && Runs(Apply(w, events[0]), events[1..], v)
  }

  lemma {:induction false} RunKeeps(w: World, events: seq<Event>, v: World)
    requires Inv(w) && Runs(w, events, v)
    ensures Inv(v)
    decreases |events|
  {
    hide Inv, Apply;
    if events != [] {
      StepKeeps(w, events[0]);
      RunKeeps(Apply(w, events[0]), events[1..], v);
    }
  }

  /** How many collections lie below, each of which takes one request. */
  function Collections(listing: seq<Resource>): nat {
    if listing == [] then 0
    else
      var n := |listing| - 1;
      var name := listing[n].name;
      Collections(listing[..n])
      + if name != "" && name[|name| - 1] == '/' then 1 + Collections(listing[n].listing) else 0
  }

  /** The answers that the requests still open will lead to, from the first `n` nodes. */
  function Due(open: set<nat>, served: seq<seq<Resource>>, n: nat): nat
    requires n <= |served|
  {
    if n == 0 then 0
    else Due(open, served, n - 1) + if n - 1 in open then 1 + Collections(served[n - 1]) else 0
  }

  function ToArrive(w: World): nat { Due(w.open, w.served, |w.served|) }

  /** Removing `id` from those open, and adding nodes from `n` on, changes one summand below `n`. */
  lemma {:induction false} DueWithout(open: set<nat>, open': set<nat>, served: seq<seq<Resource>>,
                                      served': seq<seq<Resource>>, id: nat, n: nat)
    requires n <= |served| && served <= served' && id in open
    requires forall i: nat :: i < n ==> (i in open' <==> i in open && i != id)
    ensures Due(open, served, n) == Due(open', served', n) + if id < n then 1 + Collections(served[id]) else 0
  {
    if n > 0 {
      DueWithout(open, open', served, served', id, n - 1);
      assert served'[n - 1] == served[n - 1];
    }
  }

  /** Node `i` stands for the entry `i - n` of `listing`, and is open if that is a collection. */
  predicate DueAs(open: set<nat>, served: seq<seq<Resource>>, n: nat, listing: seq<Resource>, i: nat) {
    && n <= i < n + |listing| && i < |served|
    && served[i] == listing[i - n].listing && (i in open <==> EndsWithSlash(listing[i - n].name))
  }

  /** The collections just asked for are due with all that lies below them. */
  lemma {:induction false} DueNew(open: set<nat>, served: seq<seq<Resource>>, listing: seq<Resource>, m: nat, n: nat)
    requires m <= |listing| && n + m <= |served|
    requires forall i: nat :: n <= i < n + m ==> DueAs(open, served, n, listing, i)
    ensures Due(open, served, n + m) == Due(open, served, n) + Collections(listing[..m])
  {
    if m > 0 {
      DueNew(open, served, listing, m - 1, n);
      assert DueAs(open, served, n, listing, n + m - 1);
      assert listing[..m][..m - 1] == listing[..m - 1];
    }
  }

  lemma OpenBelow(w: World, i: nat)
    requires Inv(w) && i in w.open
    ensures i < |w.app.nodes| == |w.served|
  {
    hide Linked, AskedOnce, MirrorsAt;
    assert i in w.open + w.failed;
  }

  lemma OpenIs(w: World, id: nat, i: nat)
    requires id < |w.app.nodes| == |w.served|
    ensures i in Apply(w, Answer(id)).open <==>
              (i in w.open && i != id) || i in Asked(|w.served|, Names(w.served[id]))
  {
    hide Asked, Ended;
  }

  lemma OpenAfter(w: World, id: nat, i: nat)
    requires Inv(w) && id in w.open && id < |w.app.nodes| == |w.served|
    ensures var n, listing := |w.served|, w.served[id];
            i in Apply(w, Answer(id)).open <==>
              if i < n then i in w.open && i != id else i < n + |listing| && EndsWithSlash(listing[i - n].name)
  {
    hide Inv, Asked, EndsWithSlash, Apply, Elements;
    if i in w.open {
      OpenBelow(w, i);
    }
    OpenIs(w, id, i);
    AskedIn(|w.served|, Names(w.served[id]), i);
  }

  lemma ServedAfter(w: World, id: nat)
    requires id < |w.app.nodes| == |w.served|
    ensures Apply(w, Answer(id)).served == w.served + Listings(w.served[id])
  {
  }

  lemma AnswerArrives(w: World, id: nat)
    requires Inv(w) && id in w.open && id < |w.app.nodes| == |w.served|
    ensures ToArrive(w) == ToArrive(Apply(w, Answer(id))) + 1
  {
    hide Inv, Apply, Collections, Due, EndsWithSlash;
    var v, n, listing := Apply(w, Answer(id)), |w.served|, w.served[id];
    ServedAfter(w, id);
    forall i: nat | i < n
      ensures i in v.open <==> i in w.open && i != id
    {
      OpenAfter(w, id, i);
    }
    forall i: nat | n <= i < n + |listing|
      ensures DueAs(v.open, v.served, n, listing, i)
    {
      OpenAfter(w, id, i);
    }
    DueWithout(w.open, v.open, w.served, v.served, id, n);
    DueNew(v.open, v.served, listing, |listing|, n);
    assert listing[..|listing|] == listing;
  }

  /** An answer settles exactly one of those to arrive, a failure also all that would have followed from it. */
  lemma StepArrives(w: World, e: Event)
    requires Inv(w) && Enabled(w, e)
    ensures ToArrive(w) == ToArrive(Apply(w, e)) + 1 + if e.Fail? then Collections(w.served[e.id]) else 0
  {
    hide Inv, Collections, Due;
    match e
    case Answer(id) =>
      AnswerArrives(w, id);
    case Fail(id) =>
      DueWithout(w.open, w.open - {id}, w.served, w.served, id, |w.served|);
  }

  lemma {:induction false} RunArrives(w: World, events: seq<Event>, v: World)
    requires Inv(w) && Runs(w, events, v)
    ensures ToArrive(v) + |events| <= ToArrive(w)
    ensures (forall e :: e in events ==> e.Answer?) ==> ToArrive(v) + |events| == ToArrive(w) && v.failed == w.failed
    decreases |events|
  {
    hide Inv, ToArrive, Collections;
    if events != [] {
      StepKeeps(w, events[0]);
      StepArrives(w, events[0]);
      assert events[0] in events && forall e :: e in events[1..] ==> e in events;
      RunArrives(Apply(w, events[0]), events[1..], v);
    }
  }

  lemma {:induction false} NothingDue(open: set<nat>, served: seq<seq<Resource>>, n: nat)
    requires n <= |served|
    ensures Due(open, served, n) == 0 <==> forall i: nat :: i < n ==> i !in open
  {
    if n > 0 {
      NothingDue(open, served, n - 1);
    }
  }

  /** No answer has to wait for another. */
  lemma AnyMayBeNext(w: World)
    requires Inv(w)
    ensures forall id :: id in w.open ==> Enabled(w, Answer(id)) && Enabled(w, Fail(id))
  {
    hide Linked, AskedOnce, MirrorsAt;
    forall id | id in w.open
      ensures Enabled(w, Answer(id)) && Enabled(w, Fail(id))
    {
      assert id in w.open + w.failed;
    }
  }

  /** The packing has started exactly when no listing is missing any more, whatever order they arrived in. */
  lemma PacksWhenComplete(w: World)
    requires Inv(w)
    ensures w.app.packs == (if w.open == {} && w.failed == {} then [0] else [])
    ensures w.app.packs != [] <==> Complete(w.app.nodes)
    ensures w.open == {} <==> ToArrive(w) == 0
  {
    NothingDue(w.open, w.served, |w.served|);
    hide Linked, AskedOnce, MirrorsAt, Due;
    if w.open + w.failed != {} {
      var i :| i in w.open + w.failed;
      assert Unlisted(w.app.nodes, i);
    }
    forall i: nat | i in w.open
      ensures i < |w.served|
    {
      OpenBelow(w, i);
    }
    if !Complete(w.app.nodes) {
      var i: nat :| i < |w.app.nodes| && !w.app.nodes[i].isLeaf && !w.app.nodes[i].childNodes.Some?;
      assert Unlisted(w.app.nodes, i);
    }
  }
}
