/** Whatever order the answers arrive in, the archive gets the leaves the server lists, in the server's order. */
module CloneServed {
  import opened CloneTree
  import opened CloneFetch
  import opened CloneTar
  import opened CloneRuns
  import opened Sequences

  /** The leaves below a collection as the server lists them, each with the names on the way to it. */
  function ServedPaths(prefix: string, listing: seq<Resource>): seq<string>
    decreases listing
  {
    if listing == [] then []
    else ServedEntry(prefix, listing[0]) + ServedPaths(prefix, listing[1..])
  }

  function ServedEntry(prefix: string, r: Resource): seq<string>
    decreases r
  {
    if r.name != "" && r.name[|r.name| - 1] == '/' then ServedPaths(prefix + r.name, r.listing) else [prefix + r.name]
  }

  function Prefix(url: string): string { if EndsWithSlash(url) then url else url + "/" }

  function LeafUrls(nodes: seq<Node>, ids: seq<nat>): seq<string>
    requires InRange(|nodes|, ids)
  {
    Urls(nodes, Leaves(nodes, ids))
  }

  function Urls(nodes: seq<Node>, ids: seq<nat>): seq<string>
    requires InRange(|nodes|, ids)
  {
    seq(|ids|, k requires 0 <= k < |ids| => nodes[ids[k]].url)
  }

  lemma LeafUrlsConcat(nodes: seq<Node>, a: seq<nat>, b: seq<nat>)
    requires InRange(|nodes|, a) && InRange(|nodes|, b)
    ensures InRange(|nodes|, a + b) && LeafUrls(nodes, a + b) == LeafUrls(nodes, a) + LeafUrls(nodes, b)
  {
    LeavesConcat(nodes, a, b);
  }

  lemma LeafUrlsOne(nodes: seq<Node>, id: nat)
    requires id < |nodes|
    ensures InRange(|nodes|, [id]) && LeafUrls(nodes, [id]) == if nodes[id].isLeaf then [nodes[id].url] else []
  {
    assert Leaves(nodes, [id]) == if nodes[id].isLeaf then [id] else [];
  }

  /** A complete tree whose nodes all have the children that the server lists for them. */
  ghost predicate Mirrored(nodes: seq<Node>, served: seq<seq<Resource>>) {
    && Linked(nodes) && |nodes| == |served|
    && forall i: nat :: i < |nodes| && !nodes[i].isLeaf ==> MirrorsAt(nodes, served, i)
  }

  lemma KidStands(nodes: seq<Node>, served: seq<seq<Resource>>, id: nat, j: nat)
    requires Mirrored(nodes, served) && id < |nodes| && !nodes[id].isLeaf && j < |Kids(nodes, id)|
    ensures j < |served[id]| == |Kids(nodes, id)| && id < Kids(nodes, id)[j] < |nodes|
    ensures Stands(nodes, served, Kids(nodes, id)[j], nodes[id].url, served[id][j])
  {
    assert MirrorsAt(nodes, served, id) && KidsLinked(nodes, id);
    assert Kids(nodes, id)[j] in Kids(nodes, id);
  }

  lemma {:induction false} NodeUrls(nodes: seq<Node>, served: seq<seq<Resource>>, id: nat)
    requires Mirrored(nodes, served) && id < |nodes|
    ensures InRange(|nodes|, Listing(nodes, id))
    ensures LeafUrls(nodes, Listing(nodes, id))
         == if nodes[id].isLeaf then [nodes[id].url] else ServedPaths(Prefix(nodes[id].url), served[id])
    decreases |nodes| - id, 0, 0
  {
    LeafUrlsOne(nodes, id);
    if !nodes[id].isLeaf {
      KidUrls(nodes, served, id, 0);
      hide Linked, Mirrored, MirrorsAt, LeafUrls, ServedPaths, InRange;
      LeafUrlsConcat(nodes, [id], ListKids(nodes, id, 0));
      LeafUrlsConcat(nodes, [id] + ListKids(nodes, id, 0), [id]);
      assert served[id][0..] == served[id];
    }
  }

  lemma {:induction false} KidUrls(nodes: seq<Node>, served: seq<seq<Resource>>, id: nat, j: nat)
    requires Mirrored(nodes, served) && id < |nodes| && !nodes[id].isLeaf && j <= |Kids(nodes, id)|
    ensures |Kids(nodes, id)| == |served[id]| && InRange(|nodes|, ListKids(nodes, id, j))
    ensures LeafUrls(nodes, ListKids(nodes, id, j)) == ServedPaths(Prefix(nodes[id].url), served[id][j..])
    decreases |nodes| - id - 1, 1, |Kids(nodes, id)| - j
  {
    assert MirrorsAt(nodes, served, id);
    KidsInRange(nodes, id, j);
    if j < |Kids(nodes, id)| {
      var kid := Kids(nodes, id)[j];
      KidStands(nodes, served, id, j);
      NodeUrls(nodes, served, kid);
      KidUrls(nodes, served, id, j + 1);
      EntryUrls(nodes, served, kid, nodes[id].url, served[id][j]);
      KidsInRange(nodes, id, j + 1);
      LeafUrlsConcat(nodes, Listing(nodes, kid), ListKids(nodes, id, j + 1));
      hide Linked, Mirrored, MirrorsAt, LeafUrls, Listing, InRange, ServedEntry;
      assert served[id][j..][1..] == served[id][j + 1..];
    } else {
      assert ListKids(nodes, id, j) == [] && served[id][j..] == [];
    }
  }

  lemma EntryUrls(nodes: seq<Node>, served: seq<seq<Resource>>, kid: nat, url: string, r: Resource)
    requires |nodes| == |served| && kid < |nodes| && Stands(nodes, served, kid, url, r)
    ensures ServedEntry(Prefix(url), r)
         == if nodes[kid].isLeaf then [nodes[kid].url] else ServedPaths(Prefix(nodes[kid].url), served[kid])
  {
    assert nodes[kid].url == Prefix(url) + r.name;
    assert EndsWithSlash(r.name) ==> EndsWithSlash(nodes[kid].url);
  }

  function Prepended(p: string, paths: seq<string>): seq<string> {
    seq(|paths|, k requires 0 <= k < |paths| => p + paths[k])
  }

  lemma {:induction false} PathsShift(p: string, q: string, listing: seq<Resource>)
    ensures ServedPaths(p + q, listing) == Prepended(p, ServedPaths(q, listing))
    decreases listing
  {
    if listing != [] {
      EntryShifts(p, q, listing[0]);
      PathsShift(p, q, listing[1..]);
      PrependedBoth(p, ServedEntry(q, listing[0]), ServedPaths(q, listing[1..]));
    }
  }

  lemma {:induction false} EntryShifts(p: string, q: string, r: Resource)
    ensures ServedEntry(p + q, r) == Prepended(p, ServedEntry(q, r))
    decreases r
  {
    Regroup(p, q, r.name);
    if EndsWithSlash(r.name) {
      PathsShift(p, q + r.name, r.listing);
    }
  }

  lemma PrependedBoth(p: string, a: seq<string>, b: seq<string>)
    ensures Prepended(p, a + b) == Prepended(p, a) + Prepended(p, b)
  {
  }

  lemma PathBelowRoot(rootUrl: string, path: string)
    ensures TarPath(rootUrl, Prefix(rootUrl) + path) == StripSlashes(path)
  {
    if EndsWithSlash(rootUrl) {
      assert Substring(rootUrl + path, |rootUrl|) == path;
    } else {
      assert Substring(rootUrl + "/" + path, |rootUrl|) == "/" + path;
      assert ("/" + path)[1..] == path;
    }
  }

  function Stripped(paths: seq<string>): seq<string> {
    seq(|paths|, k requires 0 <= k < |paths| => StripSlashes(paths[k]))
  }

  lemma PathsOfUrls(nodes: seq<Node>, ids: seq<nat>, paths: seq<string>)
    requires nodes != [] && InRange(|nodes|, ids)
    requires Urls(nodes, ids) == Prepended(Prefix(nodes[0].url), paths)
    ensures Paths(nodes, ids) == Stripped(paths)
  {
    hide TarPath, StripSlashes, Prefix;
    assert |ids| == |Urls(nodes, ids)| == |paths|;
    forall k | 0 <= k < |ids|
      ensures Paths(nodes, ids)[k] == Stripped(paths)[k]
    {
      PathBelowRoot(nodes[0].url, paths[k]);
      assert Urls(nodes, ids)[k] == Prepended(Prefix(nodes[0].url), paths)[k];
    }
  }

  /** The paths that the tar loop writes do not depend on the root's URL, only on what the server lists. */
  lemma PathsAsServed(nodes: seq<Node>, served: seq<seq<Resource>>)
    requires Mirrored(nodes, served) && !nodes[0].isLeaf
    ensures InRange(|nodes|, Listing(nodes, 0))
    ensures Paths(nodes, Leaves(nodes, Listing(nodes, 0))) == Stripped(ServedPaths("", served[0]))
  {
    NodeUrls(nodes, served, 0);
    PathsShift(Prefix(nodes[0].url), "", served[0]);
    assert Prefix(nodes[0].url) + "" == Prefix(nodes[0].url);
    hide Mirrored, Linked, InRange, Listing, Leaves, ServedPaths, TarPath, StripSlashes, Prefix, Urls, Paths, Stripped;
    PathsOfUrls(nodes, Leaves(nodes, Listing(nodes, 0)), ServedPaths("", served[0]));
  }

  lemma MirroredWhenComplete(w: World)
    requires Inv(w) && Complete(w.app.nodes)
    ensures Mirrored(w.app.nodes, w.served)
  {
    hide Linked, Counted, AskedOnce, MirrorsAt;
  }

  lemma {:induction false} RootStays(w: World, events: seq<Event>, v: World)
    requires Inv(w) && Runs(w, events, v)
    ensures |v.app.nodes| == |v.served| > 0 && v.served[0] == w.served[0]
    ensures v.app.nodes[0].isLeaf == w.app.nodes[0].isLeaf
    decreases |events|
  {
    if events != [] {
      StepKeeps(w, events[0]);
      if events[0].Answer? {
        GrownLeaf(w.app.nodes, events[0].id, Names(w.served[events[0].id]), 0);
      }
      RootStays(Apply(w, events[0]), events[1..], v);
    }
  }

  /**
   * For every tree and every order of the responses: the counter is the number of listings not arrived, every
   * collection is asked for once, and the packing starts once, namely when no listing is missing. Any answer still to
   * come may be the next.
   */
  lemma EveryOrderDetectsTheEnd(url: string, listing: seq<Resource>, events: seq<Event>, w: World)
    requires Runs(Start(url, listing), events, w)
    ensures Linked(w.app.nodes) && AskedOnce(w)
    ensures w.app.numPending == |w.open| + |w.failed|
    ensures forall id :: id in w.open ==> Enabled(w, Answer(id)) && Enabled(w, Fail(id))
    ensures w.app.packs == if w.open == {} && w.failed == {} then [0] else []
    ensures w.app.packs != [] <==> Complete(w.app.nodes)
    ensures |events| <= 1 + Collections(listing)
    ensures (forall e :: e in events ==> e.Answer?) ==> (w.app.packs != [] <==> |events| == 1 + Collections(listing))
  {
    var start := Start(url, listing);
    StartInv(url, listing);
    StartArrives(url, listing);
    hide Linked, AskedOnce, Mirrors, Runs, ToArrive, Collections, Complete, Start;
    RunKeeps(start, events, w);
    RunArrives(start, events, w);
    PacksWhenComplete(w);
    AnyMayBeNext(w);
  }

  lemma StartArrives(url: string, listing: seq<Resource>)
    ensures ToArrive(Start(url, listing)) == 1 + Collections(listing)
    ensures Start(url, listing).failed == {}
  {
    hide Collections;
    assert Due({0}, [listing], 1) == Due({0}, [listing], 0) + 1 + Collections([listing][0]);
  }

  /** For every tree and every order of the responses the archive gets the server's leaves, in the server's order. */
  lemma EveryOrderPacksTheSame(url: string, listing: seq<Resource>, events: seq<Event>, w: World)
    requires Runs(Start(url, listing), events, w) && w.app.packs != []
    ensures w.app.nodes != [] && Linked(w.app.nodes) && Complete(w.app.nodes)
    ensures InRange(|w.app.nodes|, Listing(w.app.nodes, 0))
    ensures Paths(w.app.nodes, Leaves(w.app.nodes, Listing(w.app.nodes, 0))) == Stripped(ServedPaths("", listing))
  {
    var start := Start(url, listing);
    StartInv(url, listing);
    RootStays(start, events, w);
    RunKeeps(start, events, w);
    PacksWhenComplete(w);
    MirroredWhenComplete(w);
    assert Linked(w.app.nodes);
    hide Inv, Linked, Complete, Mirrored, Runs, Paths, Leaves, Listing, Stripped, ServedPaths, InRange;
    PathsAsServed(w.app.nodes, w.served);
  }
}
