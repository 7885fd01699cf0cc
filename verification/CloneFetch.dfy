/** ResClone's recursive asynchronous listing and the counter that detects that all of it has arrived. */
module CloneFetch {
  import opened CloneTree
  import opened Sequences

  /** What the server holds: a name ending in a slash is a collection, and `listing` is then its content. */
  datatype Resource = Resource(name: string, listing: seq<Resource>)

  predicate EndsWithSlash(s: string) { s != "" && s[|s| - 1] == '/' }

  function ChildUrl(url: string, name: string): string {
    (if EndsWithSlash(url) then url else url + "/") + name
  }

  function Names(listing: seq<Resource>): seq<string> {
    seq(|listing|, k requires 0 <= k < |listing| => listing[k].name)
  }

  function ChildNode(parent: nat, url: string, name: string): Node {
    Node(Some(parent), ChildUrl(url, name), !EndsWithSlash(name), None)
  }

  function Children(parent: nat, url: string, names: seq<string>): seq<Node> {
    seq(|names|, k requires 0 <= k < |names| => ChildNode(parent, url, names[k]))
  }

  /** The arena once the listing of `id` has been set up. */
  function Grown(nodes: seq<Node>, id: nat, names: seq<string>): seq<Node>
    requires id < |nodes|
  {
    nodes[id := nodes[id].(childNodes := Some(Indices(|nodes|, |names|)))] + Children(id, nodes[id].url, names)
  }

  /** The children that are collections themselves, in order. */
  function Asked(first: nat, names: seq<string>): seq<nat> {
    if names == [] then []
    else
      var n := |names| - 1;
      if EndsWithSlash(names[n]) then Asked(first, names[..n]) + [first + n] else Asked(first, names[..n])
  }

  /**
   * A child as it is set up: a collection if and only if its name ends in a slash, under the URL of its parent, which
   * gets a slash unless it ends in one.
   */
  predicate SetUp(child: Node, parent: nat, url: string, name: string) {
    && (child.isLeaf <==> name == "" || name[|name| - 1] != '/')
    && child.url == url + (if url == "" || url[|url| - 1] != '/' then "/" else "") + name
    && child.parentNode == Some(parent) && child.childNodes == None
  }

  /** The nodes from `first` on are the children by these names. */
  ghost predicate AllSetUp(nodes: seq<Node>, first: nat, parent: nat, url: string, names: seq<string>) {
    && first + |names| == |nodes|
    && forall k :: 0 <= k < |names| ==> SetUp(nodes[first + k], parent, url, names[k])
  }

  /** `requests` and `packs` record every listing asked for and every start of the packing. */
  datatype State = State(nodes: seq<Node>, numPending: int, requests: seq<nat>, packs: seq<nat>)

  function Ended(s: State, id: nat, names: seq<string>): State
    requires id < |s.nodes|
  {
    var asked := Asked(|s.nodes|, names);
    var pending := s.numPending + |asked| - 1;
    State(Grown(s.nodes, id, names), pending, s.requests + asked, if pending == 0 then s.packs + [0] else s.packs)
  }

  /** `run`: the root is never a leaf, and its listing has been asked for. */
  function Begin(url: string): State {
    State([Node(None, url, false, None)], 1, [0], [])
  }

  class App {
    var nodes: seq<Node>
    var numPendingCollectionRequests: int
    var requests: seq<nat>
    var packs: seq<nat>

    function Now(): State
      reads this
    {
      State(nodes, numPendingCollectionRequests, requests, packs)
    }

    constructor Run(url: string)
      ensures Now() == Begin(url)
    {
      nodes := [Node(None, url, false, None)];
      numPendingCollectionRequests, requests, packs := 0, [], [];
      new;
      FetchCollection(0);
    }

    method FetchCollection(id: nat)
      modifies this`numPendingCollectionRequests, this`requests
      ensures numPendingCollectionRequests == old(numPendingCollectionRequests) + 1
      ensures requests == old(requests) + [id]
    {
      numPendingCollectionRequests := numPendingCollectionRequests + 1;
      requests := requests + [id];
    }

    /** Follows the parents of `id` up to the root. */
    method RootAbove(id: nat) returns (rootNode: nat)
      requires Linked(nodes) && id < |nodes|
      ensures rootNode == 0
    {
      hide Linked;
      rootNode := id;
      while nodes[rootNode].parentNode.Some?
        invariant rootNode < |nodes|
        decreases rootNode
      {
        ParentBefore(nodes, rootNode);
        rootNode := nodes[rootNode].parentNode.value;
      }
      OneRoot(nodes, rootNode);
    }

    /** Uses the listing to set up the child nodes. */
    method SetUpChildren(id: nat, childNames: seq<string>) returns (childNodes: seq<nat>)
      requires id < |nodes|
      modifies this`nodes
      ensures nodes == Grown(old(nodes), id, childNames) && childNodes == Indices(old(|nodes|), |childNames|)
    {
      ghost var before := nodes;
      var url := nodes[id].url;
      childNodes := [];
      for k := 0 to |childNames|
        invariant nodes == before + Children(id, url, childNames[..k])
        invariant childNodes == Indices(|before|, k)
      {
        var child := Node(Some(id), (if EndsWithSlash(url) then url else url + "/") + childNames[k],
                          !EndsWithSlash(childNames[k]), None);
        childNodes := childNodes + [|nodes|];
        nodes := nodes + [child];
      }
      assert childNames[..|childNames|] == childNames;
      nodes := nodes[id := nodes[id].(childNodes := Some(childNodes))];
    }

    /** Asks for the collections among the children. */
    method FetchChildren(childNodes: seq<nat>,
                         ghost first: nat, ghost parent: nat, ghost url: string, ghost names: seq<string>)
      requires childNodes == Indices(first, |names|)
      requires AllSetUp(nodes, first, parent, url, names)
      modifies this`numPendingCollectionRequests, this`requests
      ensures numPendingCollectionRequests == old(numPendingCollectionRequests) + |Asked(first, names)|
      ensures requests == old(requests) + Asked(first, names)
    {
      hide AllSetUp, SetUp, EndsWithSlash;
      for k := 0 to |childNodes|
        invariant numPendingCollectionRequests == old(numPendingCollectionRequests) + |Asked(first, names[..k])|
        invariant requests == old(requests) + Asked(first, names[..k])
      {
        AskedNext(first, names, k);
        LeafAsNamed(nodes, first, parent, url, names, k);
        if !nodes[childNodes[k]].isLeaf {
          FetchCollection(childNodes[k]);
        }
      }
      assert names[..|names|] == names;
    }

    /** One request less is pending; after the last one the packing starts from the root. */
    method CountDown(id: nat)
      requires Linked(nodes) && id < |nodes|
      modifies this`numPendingCollectionRequests, this`packs
      ensures numPendingCollectionRequests == old(numPendingCollectionRequests) - 1
      ensures packs == if numPendingCollectionRequests == 0 then old(packs) + [0] else old(packs)
    {
      numPendingCollectionRequests := numPendingCollectionRequests - 1;
      if numPendingCollectionRequests == 0 {
        var rootNode := RootAbove(id);
        packs := packs + [rootNode];
      }
    }

    /** A complete listing of collection `id` has arrived. */
    method OnCollectionResponseEnd(id: nat, childNames: seq<string>)
      requires Linked(nodes) && id < |nodes| && !nodes[id].isLeaf && nodes[id].childNodes.None?
      modifies this`nodes, this`numPendingCollectionRequests, this`requests, this`packs
      ensures Now() == Ended(old(Now()), id, childNames)
      ensures Linked(nodes)
      ensures AllSetUp(nodes, old(|nodes|), id, old(nodes[id].url), childNames)
    {
      hide Linked, Asked, Grown, AllSetUp, SetUp, Indices;
      EachSetUp(nodes, id, childNames);
      GrownLinked(nodes, id, childNames);
      ghost var first, url := |nodes|, nodes[id].url;
      var childNodes := SetUpChildren(id, childNames);
      FetchChildren(childNodes, first, id, url, childNames);
      CountDown(id);
    }
  }

  lemma EachSetUp(nodes: seq<Node>, id: nat, names: seq<string>)
    requires id < |nodes|
    ensures AllSetUp(Grown(nodes, id, names), |nodes|, id, nodes[id].url, names)
  {
    var grown := Grown(nodes, id, names);
    forall k | 0 <= k < |names|
      ensures SetUp(grown[|nodes| + k], id, nodes[id].url, names[k])
    {
      assert nodes[id].url + "" == nodes[id].url;
      assert grown[|nodes| + k] == ChildNode(id, nodes[id].url, names[k]);
    }
  }

  lemma LeafAsNamed(nodes: seq<Node>, first: nat, parent: nat, url: string, names: seq<string>, k: nat)
    requires AllSetUp(nodes, first, parent, url, names) && k < |names|
    ensures first + k < |nodes| && (nodes[first + k].isLeaf <==> !EndsWithSlash(names[k]))
    ensures Indices(first, |names|)[k] == first + k
  {
    assert SetUp(nodes[first + k], parent, url, names[k]);
  }

  lemma AskedNext(first: nat, names: seq<string>, k: nat)
    requires k < |names|
    ensures Asked(first, names[..k + 1])
         == if EndsWithSlash(names[k]) then Asked(first, names[..k]) + [first + k] else Asked(first, names[..k])
  {
    assert names[..k + 1][..k] == names[..k];
  }

  lemma ParentBefore(nodes: seq<Node>, i: nat)
    requires Linked(nodes) && i < |nodes| && nodes[i].parentNode.Some?
    ensures nodes[i].parentNode.value < i
  {
    assert i > 0 && ParentKnows(nodes, i);
  }

  lemma OneRoot(nodes: seq<Node>, i: nat)
    requires Linked(nodes) && i < |nodes| && nodes[i].parentNode.None?
    ensures i == 0
  {
    assert i > 0 ==> ParentKnows(nodes, i);
  }

  lemma GrownLinked(nodes: seq<Node>, id: nat, names: seq<string>)
    requires Linked(nodes) && id < |nodes| && !nodes[id].isLeaf && nodes[id].childNodes.None?
    ensures Linked(Grown(nodes, id, names))
  {
    var grown := Grown(nodes, id, names);
    forall i: nat | 0 < i < |grown|
      ensures ParentKnows(grown, i)
    {
      if i < |nodes| {
        assert ParentKnows(nodes, i);
      } else {
        assert Indices(|nodes|, |names|)[i - |nodes|] == i;
      }
    }
    forall i: nat | i < |grown|
      ensures KidsLinked(grown, i)
    {
      if i < |nodes| && i != id {
        assert KidsLinked(nodes, i);
      }
    }
  }
}
