/** ResClone's explicit-stack iterator, which hands out exactly the recursive pre-and-post-order listing. */
module CloneIterator {
  import opened CloneTree
  import opened Sequences

  /** `currentChild` is -1 before the node itself was published, then the next child's index. */
  datatype Frame = Frame(node: nat, currentChild: int)

  ghost predicate FrameOk(nodes: seq<Node>, f: Frame) {
    && f.node < |nodes|
    && -1 <= f.currentChild <= |Kids(nodes, f.node)|
    && (nodes[f.node].isLeaf ==> f.currentChild == -1)
  }

  /** `f` is the frame of the child that `parent` has begun last. */
  ghost predicate Below(nodes: seq<Node>, parent: Frame, f: Frame) {
    && parent.node < |nodes| && 1 <= parent.currentChild <= |Kids(nodes, parent.node)|
    && Kids(nodes, parent.node)[parent.currentChild - 1] == f.node
  }

  /** The stack is the path from the root to the node being published. */
  ghost predicate IsPath(nodes: seq<Node>, root: nat, stack: seq<Frame>) {
    stack == [] ||
    var top := |stack| - 1;
    && FrameOk(nodes, stack[top])
    && (if top == 0 then stack[top].node == root else Below(nodes, stack[top - 1], stack[top]))
    && IsPath(nodes, root, stack[..top])
  }

  /** What one frame is still to publish, its children that have been pushed aside. */
  ghost function FrameRest(nodes: seq<Node>, f: Frame): seq<nat>
    requires Linked(nodes)
  {
    if !FrameOk(nodes, f) then []
    else if f.currentChild == -1 then Listing(nodes, f.node)
    else ListKids(nodes, f.node, f.currentChild) + [f.node]
  }

  ghost function Remaining(nodes: seq<Node>, stack: seq<Frame>): seq<nat>
    requires Linked(nodes)
  {
    if stack == [] then []
    else FrameRest(nodes, stack[|stack| - 1]) + Remaining(nodes, stack[..|stack| - 1])
  }

  /** Whether the node on top was published already; a child just pushed was not. */
  function Begun(stack: seq<Frame>): nat {
    if stack != [] && stack[|stack| - 1].currentChild >= 0 then 1 else 0
  }

  class Iterator {
    const nodes: seq<Node>
    const root: nat
    var stack: seq<Frame>

    constructor (nodes: seq<Node>, root: nat)
      requires Linked(nodes) && Complete(nodes) && root < |nodes|
      ensures this.nodes == nodes && this.root == root
      ensures Valid() && ToCome() == Listing(nodes, root)
    {
      this.nodes, this.root := nodes, root;
      stack := [Frame(root, -1)];
      new;
      assert stack[..0] == [] && KidsLinked(nodes, root);
      assert Remaining(nodes, stack) == FrameRest(nodes, stack[0]) + Remaining(nodes, []);
    }

    ghost predicate Valid()
      reads this
    {
      Linked(nodes) && Complete(nodes) && IsPath(nodes, root, stack)
    }

    /** The nodes that repeated calls of `Next` will still hand out. */
    ghost function ToCome(): seq<nat>
      requires Valid()
      reads this
    {
      Remaining(nodes, stack)
    }

    /** Hands out the next node; false once the listing is exhausted, and from then on for ever. */
    method Next() returns (more: bool, node: nat)
      requires Valid()
      modifies this
      ensures Valid()
      ensures more <==> old(ToCome()) != []
      ensures more ==> old(ToCome()) == [node] + ToCome()
      ensures !more ==> stack == old(stack) == []
    {
      hide Linked, Complete, Valid, ToCome, Kids, Begun;
      node := 0;
      while true
        invariant Valid() && ToCome() == old(ToCome())
        invariant if old(stack) == [] then stack == [] else stack != []
        decreases Begun(stack)
      {
        Known();
        if stack == [] {
          return false, node;
        }
        var frame := stack[|stack| - 1];
        if nodes[frame.node].isLeaf {
          node := PopFrame();
          return true, node;
        }
        if frame.currentChild == -1 {
          node := OpenFrame();
          return true, node;
        }
        if frame.currentChild < |nodes[frame.node].childNodes.value| {
          PushChild();
        } else {
          node := PopFrame();
          return true, node;
        }
      }
    }

    lemma Known()
      requires Valid()
      ensures stack == [] ==> ToCome() == []
      ensures stack != [] ==>
                var f := stack[|stack| - 1];
                && f.node < |nodes| && -1 <= f.currentChild <= |Kids(nodes, f.node)|
                && (!nodes[f.node].isLeaf ==> nodes[f.node].childNodes == Some(Kids(nodes, f.node)))
    {
    }

    /** Publishes the node on top as the last one of its subtree. */
    method PopFrame() returns (node: nat)
      requires Valid() && stack != []
      requires var f := stack[|stack| - 1];
               f.node < |nodes| && (nodes[f.node].isLeaf || f.currentChild == |Kids(nodes, f.node)|)
      modifies this
      ensures Valid() && stack == old(stack[..|stack| - 1])
      ensures old(ToCome()) == [node] + ToCome()
    {
      hide Linked, Complete, Remaining, IsPath, Kids;
      Popped(nodes, root, stack);
      node, stack := stack[|stack| - 1].node, stack[..|stack| - 1];
    }

    /** Publishes the collection on top before its children. */
    method OpenFrame() returns (node: nat)
      requires Valid() && stack != []
      requires var f := stack[|stack| - 1];
               f.node < |nodes| && !nodes[f.node].isLeaf && f.currentChild == -1
      modifies this
      ensures Valid() && stack != [] && stack == old(stack[|stack| - 1 := Frame(node, 0)])
      ensures old(ToCome()) == [node] + ToCome()
    {
      hide Linked, Complete, Remaining, IsPath;
      node := stack[|stack| - 1].node;
      Replaced(nodes, root, stack, Frame(node, 0));
      stack := stack[|stack| - 1 := Frame(node, 0)];
    }

    /** Puts the next child of the collection on top onto the stack. */
    method PushChild()
      requires Valid() && stack != []
      requires var f := stack[|stack| - 1];
               f.node < |nodes| && !nodes[f.node].isLeaf && 0 <= f.currentChild < |Kids(nodes, f.node)|
      modifies this
      ensures Valid() && stack != [] && ToCome() == old(ToCome())
      ensures Begun(stack) < old(Begun(stack))
    {
      Known();
      hide Linked, Complete, Remaining, IsPath, Begun, Begins, FrameOk;
      var top := |stack| - 1;
      var frame := stack[top];
      var childFrame := Frame(nodes[frame.node].childNodes.value[frame.currentChild], -1);
      var parentFrame := Frame(frame.node, frame.currentChild + 1);
      PushBegins(nodes, frame, parentFrame, childFrame);
      Pushed(nodes, root, stack, parentFrame, childFrame);
      stack := stack[top := parentFrame] + [childFrame];
    }
  }

  lemma PushBegins(nodes: seq<Node>, t: Frame, f: Frame, g: Frame)
    requires t.node < |nodes| && nodes[t.node].childNodes.Some?
    requires 0 <= t.currentChild < |nodes[t.node].childNodes.value|
    requires f == Frame(t.node, t.currentChild + 1)
    requires g == Frame(nodes[t.node].childNodes.value[t.currentChild], -1)
    ensures Begins(nodes, t, f, g)
  {
  }

  lemma RemainingPush(nodes: seq<Node>, below: seq<Frame>, f: Frame)
    requires Linked(nodes)
    ensures Remaining(nodes, below + [f]) == FrameRest(nodes, f) + Remaining(nodes, below)
  {
    hide Linked, FrameRest;
    assert (below + [f])[..|below|] == below;
  }

  lemma PathPush(nodes: seq<Node>, root: nat, below: seq<Frame>, f: Frame)
    ensures IsPath(nodes, root, below + [f]) <==>
              && FrameOk(nodes, f) && IsPath(nodes, root, below)
              && if below == [] then f.node == root else Below(nodes, below[|below| - 1], f)
  {
    hide FrameOk, Below;
    assert (below + [f])[..|below|] == below;
  }

  lemma TopSplit<T>(stack: seq<T>, x: T)
    requires stack != []
    ensures stack == stack[..|stack| - 1] + [stack[|stack| - 1]]
    ensures stack[|stack| - 1 := x] == stack[..|stack| - 1] + [x]
  {
  }

  /** A leaf, or a collection with no more children, is published last and leaves its parent's frame on top. */
  lemma Popped(nodes: seq<Node>, root: nat, stack: seq<Frame>)
    requires Linked(nodes) && IsPath(nodes, root, stack) && stack != []
    requires var f := stack[|stack| - 1];
             f.node < |nodes| && (nodes[f.node].isLeaf || f.currentChild == |Kids(nodes, f.node)|)
    ensures IsPath(nodes, root, stack[..|stack| - 1])
    ensures Remaining(nodes, stack) == [stack[|stack| - 1].node] + Remaining(nodes, stack[..|stack| - 1])
  {
    hide Linked;
    assert FrameRest(nodes, stack[|stack| - 1]) == [stack[|stack| - 1].node];
  }

  lemma Opened(nodes: seq<Node>, id: nat)
    requires Linked(nodes) && id < |nodes| && !nodes[id].isLeaf
    ensures FrameOk(nodes, Frame(id, -1)) && FrameOk(nodes, Frame(id, 0))
    ensures FrameRest(nodes, Frame(id, -1)) == [id] + FrameRest(nodes, Frame(id, 0))
  {
    Regroup([id], ListKids(nodes, id, 0), [id]);
  }

  /** A collection is published first, and its frame then stands before its first child. */
  lemma Replaced(nodes: seq<Node>, root: nat, stack: seq<Frame>, f: Frame)
    requires Linked(nodes) && IsPath(nodes, root, stack) && stack != []
    requires stack[|stack| - 1] == Frame(f.node, -1) && f.currentChild == 0
    requires f.node < |nodes| && !nodes[f.node].isLeaf
    ensures IsPath(nodes, root, stack[|stack| - 1 := f])
    ensures Remaining(nodes, stack) == [f.node] + Remaining(nodes, stack[|stack| - 1 := f])
  {
    Opened(nodes, f.node);
    PathReplaced(nodes, root, stack, f);
    hide *;
    var below, t := stack[..|stack| - 1], stack[|stack| - 1];
    TopSplit(stack, f);
    RemainingPush(nodes, below, t);
    RemainingPush(nodes, below, f);
    Regroup([f.node], FrameRest(nodes, f), Remaining(nodes, below));
  }

  lemma PathReplaced(nodes: seq<Node>, root: nat, stack: seq<Frame>, f: Frame)
    requires IsPath(nodes, root, stack) && stack != [] && f.node == stack[|stack| - 1].node && FrameOk(nodes, f)
    ensures IsPath(nodes, root, stack[|stack| - 1 := f])
  {
    hide IsPath, FrameOk;
    TopSplit(stack, f);
    PathPush(nodes, root, stack[..|stack| - 1], stack[|stack| - 1]);
    PathPush(nodes, root, stack[..|stack| - 1], f);
  }

  /** `f` and `g` are the frames of a collection and of the child of it that is begun. */
  ghost predicate Begins(nodes: seq<Node>, t: Frame, f: Frame, g: Frame) {
    && t.node < |nodes| && 0 <= t.currentChild < |Kids(nodes, t.node)|
    && f == Frame(t.node, t.currentChild + 1)
    && g == Frame(Kids(nodes, t.node)[t.currentChild], -1)
  }

  lemma KidSplit(nodes: seq<Node>, t: Frame, f: Frame, g: Frame)
    requires Linked(nodes) && Begins(nodes, t, f, g)
    ensures FrameOk(nodes, f) && FrameOk(nodes, g) && Below(nodes, f, g)
    ensures FrameRest(nodes, t) == FrameRest(nodes, g) + FrameRest(nodes, f)
  {
    var id, c, kid := t.node, t.currentChild, g.node;
    assert KidsLinked(nodes, id) && kid in Kids(nodes, id);
    assert KidsLinked(nodes, kid);
    Regroup(Listing(nodes, kid), ListKids(nodes, id, c + 1), [id]);
  }

  /** Pushing a child's frame changes nothing about what is still to come. */
  lemma Pushed(nodes: seq<Node>, root: nat, stack: seq<Frame>, f: Frame, g: Frame)
    requires Linked(nodes) && IsPath(nodes, root, stack) && stack != []
    requires Begins(nodes, stack[|stack| - 1], f, g)
    ensures IsPath(nodes, root, stack[|stack| - 1 := f] + [g])
    ensures Remaining(nodes, stack[|stack| - 1 := f] + [g]) == Remaining(nodes, stack)
    ensures Begun(stack[|stack| - 1 := f] + [g]) < Begun(stack)
  {
    var below, t := stack[..|stack| - 1], stack[|stack| - 1];
    KidSplit(nodes, t, f, g);
    PathReplaced(nodes, root, stack, f);
    hide Linked, Kids, IsPath, FrameOk, FrameRest, Remaining, Below;
    TopSplit(stack, f);
    PathPush(nodes, root, stack[|stack| - 1 := f], g);
    PushedRest(nodes, below, t, f, g);
  }

  lemma PushedRest(nodes: seq<Node>, below: seq<Frame>, t: Frame, f: Frame, g: Frame)
    requires Linked(nodes) && FrameRest(nodes, t) == FrameRest(nodes, g) + FrameRest(nodes, f)
    ensures Remaining(nodes, below + [f] + [g]) == Remaining(nodes, below + [t])
  {
    hide *;
    RemainingPush(nodes, below, t);
    RemainingPush(nodes, below, f);
    RemainingPush(nodes, below + [f], g);
    Regroup(FrameRest(nodes, g), FrameRest(nodes, f), Remaining(nodes, below));
  }
}
