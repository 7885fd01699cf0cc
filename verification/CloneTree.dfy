/** The tree of nodes that ResClone discovers, kept in one arena: a node is named by its index. */
module CloneTree {
  import opened Sequences

  /** `newNode()`; `childNodes` is None as long as no listing of the collection has arrived. */
  datatype Node = Node(parentNode: Option<nat>, url: string, isLeaf: bool, childNodes: Option<seq<nat>>)

  function Kids(nodes: seq<Node>, id: nat): seq<nat>
    requires id < |nodes|
  {
    if nodes[id].childNodes.Some? then nodes[id].childNodes.value else []
  }

  /** Parents come before their children and name them in ascending order; node 0 is the root. */
  ghost predicate Linked(nodes: seq<Node>) {
    && nodes != [] && nodes[0].parentNode.None?
    && (forall i: nat :: 0 < i < |nodes| ==> ParentKnows(nodes, i))
    && (forall i: nat :: i < |nodes| ==> KidsLinked(nodes, i))
  }

  ghost predicate ParentKnows(nodes: seq<Node>, i: nat)
    requires i < |nodes|
  {
    && nodes[i].parentNode.Some? && nodes[i].parentNode.value < i
    && i in Kids(nodes, nodes[i].parentNode.value)
  }

  ghost predicate KidsLinked(nodes: seq<Node>, i: nat)
    requires i < |nodes|
  {
    var kids := Kids(nodes, i);
    && (forall k :: k in kids ==> i < k < |nodes| && nodes[k].parentNode == Some(i))
    && (forall a, b :: 0 <= a < b < |kids| ==> kids[a] < kids[b])
    && (nodes[i].isLeaf ==> nodes[i].childNodes.None?)
  }

  /** Every discovered collection has its children set. */
  ghost predicate Complete(nodes: seq<Node>) {
    forall i: nat :: i < |nodes| && !nodes[i].isLeaf ==> nodes[i].childNodes.Some?
  }

  /** Pre-and-post-order below `id`: a leaf once, a collection before and after its children. */
  function Listing(nodes: seq<Node>, id: nat): seq<nat>
    requires Linked(nodes) && id < |nodes|
    decreases |nodes| - id, 0, 0
  {
    if nodes[id].isLeaf then [id] else [id] + ListKids(nodes, id, 0) + [id]
  }

  function ListKids(nodes: seq<Node>, id: nat, j: nat): seq<nat>
    requires Linked(nodes) && id < |nodes| && j <= |Kids(nodes, id)|
    decreases |nodes| - id - 1, 1, |Kids(nodes, id)| - j
  {
    var kids := Kids(nodes, id);
    if j == |kids| then []
    else
      assert KidsLinked(nodes, id) && kids[j] in kids;
      Listing(nodes, kids[j]) + ListKids(nodes, id, j + 1)
  }

  /** `x` is `id` or lies below it. */
  predicate Under(nodes: seq<Node>, x: nat, id: nat)
    requires x < |nodes|
    decreases x
  {
    x == id
    || (nodes[x].parentNode.Some? && nodes[x].parentNode.value < x && Under(nodes, nodes[x].parentNode.value, id))
  }

  lemma {:induction false} UnderIsLater(nodes: seq<Node>, x: nat, id: nat)
    requires x < |nodes| && Under(nodes, x, id)
    ensures id <= x
    decreases x
  {
    if x != id {
      UnderIsLater(nodes, nodes[x].parentNode.value, id);
    }
  }

  lemma {:induction false} AllUnderRoot(nodes: seq<Node>, x: nat)
    requires Linked(nodes) && x < |nodes|
    ensures Under(nodes, x, 0)
    decreases x
  {
    if x > 0 {
      assert ParentKnows(nodes, x);
      AllUnderRoot(nodes, nodes[x].parentNode.value);
    }
  }

  /** What lies below a child lies below its parent. */
  lemma {:induction false} UnderKid(nodes: seq<Node>, x: nat, id: nat, kid: nat)
    requires Linked(nodes) && x < |nodes| && id < |nodes| && kid in Kids(nodes, id) && Under(nodes, x, kid)
    ensures Under(nodes, x, id)
    decreases x
  {
    assert KidsLinked(nodes, id);
    if x != kid {
      UnderKid(nodes, nodes[x].parentNode.value, id, kid);
    }
  }

  /** What lies properly below a node lies below one of its children. */
  lemma {:induction false} UnderSomeKid(nodes: seq<Node>, x: nat, id: nat) returns (k: nat)
    requires Linked(nodes) && x < |nodes| && id < |nodes| && Under(nodes, x, id) && x != id
    ensures k < |Kids(nodes, id)| && Under(nodes, x, Kids(nodes, id)[k])
    decreases x
  {
    var p := nodes[x].parentNode.value;
    if p == id {
      assert ParentKnows(nodes, x);
      k :| 0 <= k < |Kids(nodes, id)| && Kids(nodes, id)[k] == x;
    } else {
      k := UnderSomeKid(nodes, p, id);
    }
  }

  /** Nothing lies below two children of one node. */
  lemma {:induction false} OneKidOnly(nodes: seq<Node>, x: nat, id: nat, a: nat, b: nat)
    requires Linked(nodes) && x < |nodes| && id < |nodes| && a in Kids(nodes, id) && b in Kids(nodes, id)
    requires Under(nodes, x, a) && Under(nodes, x, b)
    ensures a == b
    decreases x
  {
    assert KidsLinked(nodes, id);
    if x == a || x == b {
      if a != b {
        UnderIsLater(nodes, id, if x == a then b else a);
      }
    } else {
      OneKidOnly(nodes, nodes[x].parentNode.value, id, a, b);
    }
  }

  function Visits(nodes: seq<Node>, x: nat): nat
    requires x < |nodes|
  {
    if nodes[x].isLeaf then 1 else 2
  }

  /** `x` lies below one of the children from the `j`-th on. */
  ghost predicate UnderKidFrom(nodes: seq<Node>, x: nat, id: nat, j: nat)
    requires x < |nodes| && id < |nodes|
  {
    exists k :: j <= k < |Kids(nodes, id)| && Under(nodes, x, Kids(nodes, id)[k])
  }

  lemma UnderKidSplit(nodes: seq<Node>, x: nat, id: nat, j: nat)
    requires Linked(nodes) && x < |nodes| && id < |nodes| && j < |Kids(nodes, id)|
    ensures UnderKidFrom(nodes, x, id, j) <==>
              Under(nodes, x, Kids(nodes, id)[j]) || UnderKidFrom(nodes, x, id, j + 1)
    ensures !(Under(nodes, x, Kids(nodes, id)[j]) && UnderKidFrom(nodes, x, id, j + 1))
  {
    var kids := Kids(nodes, id);
    assert KidsLinked(nodes, id);
    if k :| j + 1 <= k < |kids| && Under(nodes, x, kids[k]) && Under(nodes, x, kids[j]) {
      OneKidOnly(nodes, x, id, kids[j], kids[k]);
    }
  }

  /** Everything properly below a node lies below one of its children, and the other way round. */
  lemma UnderByKids(nodes: seq<Node>, x: nat, id: nat)
    requires Linked(nodes) && x < |nodes| && id < |nodes|
    ensures UnderKidFrom(nodes, x, id, 0) <==> Under(nodes, x, id) && x != id
  {
    assert KidsLinked(nodes, id);
    if Under(nodes, x, id) && x != id {
      var k := UnderSomeKid(nodes, x, id);
    }
    if k :| 0 <= k < |Kids(nodes, id)| && Under(nodes, x, Kids(nodes, id)[k]) {
      UnderKid(nodes, x, id, Kids(nodes, id)[k]);
      UnderIsLater(nodes, x, Kids(nodes, id)[k]);
    }
  }

  lemma {:induction false} ListingVisits(nodes: seq<Node>, id: nat, x: nat)
    requires Linked(nodes) && id < |nodes| && x < |nodes|
    ensures multiset(Listing(nodes, id))[x] == if Under(nodes, x, id) then Visits(nodes, x) else 0
    decreases |nodes| - id, 0, 0
  {
    UnderByKids(nodes, x, id);
    if nodes[id].isLeaf {
      assert KidsLinked(nodes, id);
    } else {
      KidsVisits(nodes, id, 0, x);
    }
  }

  lemma {:induction false} KidsVisits(nodes: seq<Node>, id: nat, j: nat, x: nat)
    requires Linked(nodes) && id < |nodes| && x < |nodes| && j <= |Kids(nodes, id)|
    ensures multiset(ListKids(nodes, id, j))[x] == if UnderKidFrom(nodes, x, id, j) then Visits(nodes, x) else 0
    decreases |nodes| - id - 1, 1, |Kids(nodes, id)| - j
  {
    var kids := Kids(nodes, id);
    if j < |kids| {
      assert KidsLinked(nodes, id) && kids[j] in kids;
      ListingVisits(nodes, kids[j], x);
      KidsVisits(nodes, id, j + 1, x);
      UnderKidSplit(nodes, x, id, j);
    }
  }

  /** From the root every leaf is listed exactly once and every collection exactly twice. */
  lemma EveryNodeListed(nodes: seq<Node>, x: nat)
    requires Linked(nodes) && x < |nodes|
    ensures multiset(Listing(nodes, 0))[x] == Visits(nodes, x)
  {
    AllUnderRoot(nodes, x);
    ListingVisits(nodes, 0, x);
  }
}
