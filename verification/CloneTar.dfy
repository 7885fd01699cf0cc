/** The loop that hands every leaf of a complete tree to the tar writer, under its path below the root. */
module CloneTar {
  import opened CloneTree
  import opened CloneIterator
  import opened Sequences

  predicate InRange(n: nat, ids: seq<nat>) { forall i :: 0 <= i < |ids| ==> ids[i] < n }

  function Leaves(nodes: seq<Node>, ids: seq<nat>): (leaves: seq<nat>)
    requires InRange(|nodes|, ids)
    ensures InRange(|nodes|, leaves)
  {
    if ids == [] then []
    else (if nodes[ids[0]].isLeaf then [ids[0]] else []) + Leaves(nodes, ids[1..])
  }

  lemma LeavesCons(nodes: seq<Node>, id: nat, ids: seq<nat>)
    requires InRange(|nodes|, [id] + ids)
    ensures id < |nodes| && InRange(|nodes|, ids)
    ensures Leaves(nodes, [id] + ids) == (if nodes[id].isLeaf then [id] else []) + Leaves(nodes, ids)
  {
    assert ([id] + ids)[0] == id && ([id] + ids)[1..] == ids;
    forall i | 0 <= i < |ids|
      ensures ids[i] < |nodes|
    {
      assert ([id] + ids)[i + 1] == ids[i];
    }
  }

  lemma {:induction false} LeavesConcat(nodes: seq<Node>, a: seq<nat>, b: seq<nat>)
    requires InRange(|nodes|, a) && InRange(|nodes|, b)
    ensures Leaves(nodes, a + b) == Leaves(nodes, a) + Leaves(nodes, b)
  {
    if a == [] {
      assert a + b == b;
    } else {
      var head := if nodes[a[0]].isLeaf then [a[0]] else [];
      LeavesConcat(nodes, a[1..], b);
      assert (a + b)[1..] == a[1..] + b;
      Regroup(head, Leaves(nodes, a[1..]), Leaves(nodes, b));
    }
  }

  lemma {:induction false} LeavesCount(nodes: seq<Node>, ids: seq<nat>, x: nat)
    requires x < |nodes| && InRange(|nodes|, ids)
    ensures multiset(Leaves(nodes, ids))[x] == if nodes[x].isLeaf then multiset(ids)[x] else 0
  {
    if ids != [] {
      LeavesCount(nodes, ids[1..], x);
      assert ids == [ids[0]] + ids[1..];
    }
  }

  lemma {:induction false} ListingInRange(nodes: seq<Node>, id: nat)
    requires Linked(nodes) && id < |nodes|
    ensures InRange(|nodes|, Listing(nodes, id))
    decreases |nodes| - id, 0, 0
  {
    if !nodes[id].isLeaf {
      KidsInRange(nodes, id, 0);
    }
  }

  lemma {:induction false} KidsInRange(nodes: seq<Node>, id: nat, j: nat)
    requires Linked(nodes) && id < |nodes| && j <= |Kids(nodes, id)|
    ensures InRange(|nodes|, ListKids(nodes, id, j))
    decreases |nodes| - id - 1, 1, |Kids(nodes, id)| - j
  {
    var kids := Kids(nodes, id);
    if j < |kids| {
      assert KidsLinked(nodes, id) && kids[j] in kids;
      ListingInRange(nodes, kids[j]);
      KidsInRange(nodes, id, j + 1);
    }
  }

  /** The leaves of the whole listing are all leaves, each of them once. */
  lemma EachLeafOnce(nodes: seq<Node>, x: nat)
    requires Linked(nodes) && InRange(|nodes|, Listing(nodes, 0)) && x < |nodes|
    ensures multiset(Leaves(nodes, Listing(nodes, 0)))[x] == if nodes[x].isLeaf then 1 else 0
  {
    hide Linked, Listing, Leaves;
    LeavesCount(nodes, Listing(nodes, 0), x);
    EveryNodeListed(nodes, x);
  }

  /** JavaScript's `substring` with one argument. */
  function Substring(s: string, from: nat): string {
    if from <= |s| then s[from..] else ""
  }

  function StripSlashes(s: string): (t: string)
    ensures t == "" || t[0] != '/'
    ensures |t| <= |s| && t == s[|s| - |t|..]
    ensures forall k :: 0 <= k < |s| - |t| ==> s[k] == '/'
  {
    if s != "" && s[0] == '/' then StripSlashes(s[1..]) else s
  }

  function TarPath(rootUrl: string, url: string): string {
    StripSlashes(Substring(url, |rootUrl|))
  }

  function Paths(nodes: seq<Node>, ids: seq<nat>): seq<string>
    requires nodes != [] && InRange(|nodes|, ids)
  {
    seq(|ids|, k requires 0 <= k < |ids| => TarPath(nodes[0].url, nodes[ids[k]].url))
  }

  method PathOf(rootUrl: string, url: string) returns (path: string)
    ensures path == TarPath(rootUrl, url)
  {
    path := Substring(url, |rootUrl|);
    while path != "" && path[0] == '/'
      invariant StripSlashes(path) == TarPath(rootUrl, url)
      decreases |path|
    {
      path := path[1..];
    }
  }

  /** `packed` and `paths` are the leaves listed before `rest`. */
  ghost predicate PackedUpTo(nodes: seq<Node>, packed: seq<nat>, paths: seq<string>, rest: seq<nat>)
    requires Linked(nodes)
  {
    && InRange(|nodes|, Listing(nodes, 0)) && InRange(|nodes|, rest) && InRange(|nodes|, packed)
    && Leaves(nodes, Listing(nodes, 0)) == packed + Leaves(nodes, rest)
    && paths == Paths(nodes, packed)
  }

  lemma NothingPacked(nodes: seq<Node>)
    requires Linked(nodes)
    ensures PackedUpTo(nodes, [], [], Listing(nodes, 0))
  {
    ListingInRange(nodes, 0);
    hide Linked, Listing;
  }

  lemma AllPacked(nodes: seq<Node>, packed: seq<nat>, paths: seq<string>)
    requires Linked(nodes) && PackedUpTo(nodes, packed, paths, [])
    ensures InRange(|nodes|, Listing(nodes, 0)) && packed == Leaves(nodes, Listing(nodes, 0))
    ensures paths == Paths(nodes, packed)
  {
    hide Linked, Listing;
  }

  lemma Passed(nodes: seq<Node>, packed: seq<nat>, paths: seq<string>, id: nat, rest: seq<nat>)
    requires Linked(nodes) && PackedUpTo(nodes, packed, paths, [id] + rest)
    ensures id < |nodes|
    ensures !nodes[id].isLeaf ==> PackedUpTo(nodes, packed, paths, rest)
    ensures nodes[id].isLeaf ==>
              PackedUpTo(nodes, packed + [id], paths + [TarPath(nodes[0].url, nodes[id].url)], rest)
  {
    LeavesCons(nodes, id, rest);
    PathsNext(nodes, packed, id);
    hide Linked, Listing, Leaves, Paths, InRange, TarPath;
    if nodes[id].isLeaf {
      Regroup(packed, [id], Leaves(nodes, rest));
    } else {
      assert [] + Leaves(nodes, rest) == Leaves(nodes, rest);
    }
  }

  /** The tar loop: of all nodes the iterator hands out only the leaves get a header. */
  method WriteHeaders(nodes: seq<Node>) returns (packed: seq<nat>, paths: seq<string>)
    requires Linked(nodes) && Complete(nodes)
    ensures InRange(|nodes|, Listing(nodes, 0)) && packed == Leaves(nodes, Listing(nodes, 0))
    ensures paths == Paths(nodes, packed)
  {
    NothingPacked(nodes);
    hide Linked, Complete, Listing, Remaining, IsPath, InRange, Leaves, Paths, TarPath, PackedUpTo, Kids;
    packed, paths := [], [];
    var iter := new Iterator(nodes, 0);
    ghost var rest: seq<nat> := Listing(nodes, 0);
    var more, node := iter.Next();
    while more
      invariant iter.Valid() && iter.nodes == nodes
      invariant rest == if more then [node] + iter.ToCome() else []
      invariant PackedUpTo(nodes, packed, paths, rest)
      decreases |rest|
    {
      Passed(nodes, packed, paths, node, iter.ToCome());
      if nodes[node].isLeaf {
        var path := PathOf(nodes[0].url, nodes[node].url);
        packed, paths := packed + [node], paths + [path];
      }
      rest := iter.ToCome();
      more, node := iter.Next();
    }
    AllPacked(nodes, packed, paths);
  }

  lemma PathsNext(nodes: seq<Node>, ids: seq<nat>, id: nat)
    requires nodes != [] && InRange(|nodes|, ids) && id < |nodes|
    ensures InRange(|nodes|, ids + [id])
    ensures Paths(nodes, ids + [id]) == Paths(nodes, ids) + [TarPath(nodes[0].url, nodes[id].url)]
  {
    hide TarPath;
  }
}
