/**
 * Backups of one growing log, taken at different times, are to merge into the most recent of them. They do so exactly
 * if no entry agrees with its neighbour as far as both go, and those entries that two backups hold strictly increase.
 */
module LogCollapse {
  import opened Bytes
  import opened LogText
  import opened LogMerge

  /** The first `m` entries strictly increase. */
  predicate IncreaseBelow(all: Log, m: nat) {
    forall i :: 0 < i < |all| && i < m ==> Cmp(all[i - 1], all[i]) < 0
  }

  /** Source `i` holds the entries of `all` from `pos[i]` up to `len[i]`. */
  ghost predicate Slices(rests: seq<Log>, all: Log, pos: seq<nat>, len: seq<nat>) {
    && |pos| == |len| == |rests|
    && forall i :: 0 <= i < |rests| ==> pos[i] <= len[i] <= |all| && rests[i] == all[pos[i]..len[i]]
  }

  // ----- which head is picked -----

  predicate NoneLess(hs: seq<Head>, best: nat, i: nat)
    requires best < |hs| && hs[best].At?
  {
    forall j :: 0 <= j < |hs| && j < i && hs[j].At? ==> Cmp(hs[best].entry, hs[j].entry) <= 0
  }

  predicate NoneEqualBefore(hs: seq<Head>, best: nat)
    requires best < |hs| && hs[best].At?
  {
    forall j :: 0 <= j < best && hs[j].At? ==> hs[j].entry != hs[best].entry
  }

  /** Ties between prefixes are not transitive, yet no head is strictly less than the one picked, and none equals it. */
  lemma {:induction false} LowestIsFirst(hs: seq<Head>, best: nat, i: nat)
    requires best < |hs| && hs[best].At? && NoneLess(hs, best, i) && NoneEqualBefore(hs, best)
    requires forall j :: i <= j < best ==> hs[j].Gone?
    ensures var p := LowestFrom(hs, best, i);
            NoneLess(hs, p, |hs|) && NoneEqualBefore(hs, p)
    decreases |hs| - i
  {
    hide Cmp;
    if i < |hs| {
      if hs[i].At? && Cmp(hs[i].entry, hs[best].entry) < 0 {
        StrictlyBetter(hs, best, i);
        LowestIsFirst(hs, i, i + 1);
      } else {
        if hs[i].At? { CmpAntisymmetric(hs[best].entry, hs[i].entry); }
        LowestIsFirst(hs, best, i + 1);
      }
    }
  }

  lemma StrictlyBetter(hs: seq<Head>, best: nat, i: nat)
    requires best < |hs| && hs[best].At? && NoneLess(hs, best, i)
    requires forall j :: i <= j < best ==> hs[j].Gone?
    requires i < |hs| && hs[i].At? && Cmp(hs[i].entry, hs[best].entry) < 0
    ensures NoneLess(hs, i, i + 1) && NoneEqualBefore(hs, i)
  {
    hide Cmp;
    CmpItself(hs[i].entry);
    forall j | 0 <= j < i && hs[j].At?
      ensures Cmp(hs[i].entry, hs[j].entry) <= 0 && hs[j].entry != hs[i].entry
    {
      CmpAntisymmetric(hs[best].entry, hs[j].entry);
      CmpAntisymmetric(hs[i].entry, hs[j].entry);
      if Cmp(hs[j].entry, hs[i].entry) < 0 {
        CmpLessTransitive(hs[j].entry, hs[i].entry, hs[best].entry);
      }
    }
  }

  lemma CmpItself(a: Text)
    ensures Cmp(a, a) == 0
  {
    CmpZeroIffPrefix(a, a);
  }

  /** What is known of the source that is picked. */
  ghost predicate PickedWell(rests: seq<Log>, p: nat) {
    && p < |rests| && rests[p] != []
    && (forall j :: 0 <= j < |rests| && rests[j] != [] ==> Cmp(rests[p][0], rests[j][0]) <= 0)
    && (forall j :: 0 <= j < p && rests[j] != [] ==> rests[j][0] != rests[p][0])
  }

  lemma PickIsFirst(rests: seq<Log>)
    requires AnyLive(Heads(rests))
    ensures PickedWell(rests, Pick(Heads(rests)))
  {
    hide Cmp;
    var hs := Heads(rests);
    var k := FirstLive(hs, 0);
    CmpItself(hs[k].entry);
    LowestIsFirst(hs, k, 1);
    var p := Pick(hs);
    assert p == LowestFrom(hs, k, 1);
    assert rests[p] != [] && rests[p][0] == hs[p].entry;
    forall j | 0 <= j < |rests| && rests[j] != []
      ensures Cmp(rests[p][0], rests[j][0]) <= 0 && (j < p ==> rests[j][0] != rests[p][0])
    {
      assert hs[j].At? && hs[j].entry == rests[j][0];
    }
  }

  // ----- one step of the merge -----

  predicate NonEmpty(all: Log) { forall e :: e in all ==> e != [] }

  ghost predicate LastIs(all: Log, w: nat, last: Text) {
    w <= |all| && last == if w == 0 then [] else all[w - 1]
  }

  /** Picking from source `p` moves it one entry on; a dropped entry changes nothing else. */
  lemma StepOf(rests: seq<Log>, all: Log, pos: seq<nat>, len: seq<nat>, last: Text)
    requires Slices(rests, all, pos, len) && AnyLive(Heads(rests))
    ensures var p := Pick(Heads(rests));
            && p < |rests| == |pos| == |len| && pos[p] < len[p] <= |all| && Picked(rests) == all[pos[p]]
            && Slices(Advance(rests), all, pos[p := pos[p] + 1], len)
            && MergeFrom(rests, last, true)
               == (if Drops(last, all[pos[p]]) then MergeFrom(Advance(rests), last, true)
                   else [all[pos[p]]] + MergeFrom(Advance(rests), all[pos[p]], true))
  {
    hide AnyLive, Pick, Heads, Drops;
    var p := Pick(Heads(rests));
    assert rests[p] != [] && rests[p][0] == all[pos[p]];
    assert rests[p][1..] == all[pos[p] + 1..len[p]];
    assert Advance(rests) == rests[p := rests[p][1..]];
  }

  lemma LiveMeans(rests: seq<Log>, all: Log, pos: seq<nat>, len: seq<nat>, i: nat)
    requires Slices(rests, all, pos, len) && i < |rests|
    ensures |pos| == |len| == |rests| && pos[i] <= len[i] <= |all|
    ensures rests[i] != [] <==> pos[i] < len[i]
    ensures rests[i] != [] ==> rests[i][0] == all[pos[i]]
  {
  }

  lemma NoneLive(rests: seq<Log>, i: nat)
    requires !AnyLive(Heads(rests)) && i < |rests|
    ensures rests[i] == [] && MergeFrom(rests, [], true) == []
  {
    assert Heads(rests)[i].Gone?;
  }

  /** Entry `at` is dropped after entry `w - 1` if it is the same one, and written if it is the next. */
  lemma DropsIffBehind(all: Log, w: nat, at: nat, last: Text)
    requires NonEmpty(all) && NoneRelated(all) && LastIs(all, w, last) && w - 1 <= at <= w && at < |all|
    ensures Drops(last, all[at]) <==> at != w
  {
    assert all[at] in all;
    if at == w {
      assert w > 0 ==> !Drops(all[w - 1], all[w]);
    } else {
      CmpItself(last);
    }
  }

  // ----- it collapses -----

  /** Each live source is at the written frontier `w` or one entry behind it; drained ones lie before it. */
  ghost predicate AtFrontier(pos: seq<nat>, len: seq<nat>, w: nat)
    requires |pos| == |len|
  {
    forall i :: 0 <= i < |pos| ==> if pos[i] < len[i] then pos[i] == w || pos[i] + 1 == w else len[i] <= w
  }

  /** Source `x` holds all entries, the others at most `m`. */
  ghost predicate Longest(len: seq<nat>, all: Log, x: nat, m: nat) {
    x < |len| && len[x] == |all| && m <= |all| && forall i :: 0 <= i < |len| && i != x ==> len[i] <= m
  }

  /** Wherever some sources are one entry behind others, that entry is less than the next one. */
  ghost predicate Calm(all: Log, pos: seq<nat>, len: seq<nat>, w: nat)
    requires |pos| == |len|
  {
    forall i, j :: 0 <= i < |pos| && 0 <= j < |pos| && pos[i] < len[i] && pos[j] < len[j] ==>
                     pos[i] + 1 == w == pos[j] < |all| ==> Cmp(all[w - 1], all[w]) < 0
  }

  /** No source of the second greatest length that stands before the longest is overtaken by it. */
  ghost predicate NotOvertaken(pos: seq<nat>, len: seq<nat>, x: nat, m: nat)
    requires |pos| == |len| && x < |pos|
  {
    forall i :: 0 <= i < x && pos[i] < len[i] == m ==> pos[x] <= pos[i]
  }

  ghost predicate SecondsBefore(len: seq<nat>, all: Log, x: nat, m: nat) {
    m == 0 || m == |all| || forall i :: x < i < |len| ==> len[i] < m
  }

  lemma CalmIfThroughBoundary(all: Log, pos: seq<nat>, len: seq<nat>, w: nat, x: nat, m: nat)
    requires |pos| == |len| && Longest(len, all, x, m) && IncreaseBelow(all, m + 1)
    ensures Calm(all, pos, len, w)
  {
    hide Cmp;
  }

  lemma CalmIfInOrder(all: Log, pos: seq<nat>, len: seq<nat>, w: nat, x: nat, m: nat)
    requires |pos| == |len| && Longest(len, all, x, m) && IncreaseBelow(all, m)
    requires SecondsBefore(len, all, x, m) && NotOvertaken(pos, len, x, m)
    ensures Calm(all, pos, len, w)
  {
    hide Cmp;
  }

  /** The frontier is kept: who is behind is picked first and drops, who is at it writes. */
  lemma FrontierKept(rests: seq<Log>, all: Log, pos: seq<nat>, len: seq<nat>, w: nat, p: nat)
    requires Slices(rests, all, pos, len) && AtFrontier(pos, len, w) && Calm(all, pos, len, w) && PickedWell(rests, p)
    ensures p < |pos| && pos[p] < |all| && w - 1 <= pos[p] <= w
    ensures AtFrontier(pos[p := pos[p] + 1], len, if pos[p] == w then w + 1 else w)
  {
    hide Cmp;
    if pos[p] == w {
      forall i | 0 <= i < |pos| && i != p && pos[i] < len[i]
        ensures pos[i] == w
      {
        if pos[i] + 1 == w {
          CmpAntisymmetric(all[w - 1], all[w]);
        }
      }
    }
  }

  lemma OvertakenByNobody(rests: seq<Log>, all: Log, pos: seq<nat>, len: seq<nat>, x: nat, m: nat, p: nat)
    requires Slices(rests, all, pos, len) && PickedWell(rests, p) && x < |pos| && NotOvertaken(pos, len, x, m)
    ensures p < |pos| && NotOvertaken(pos[p := pos[p] + 1], len, x, m)
  {
    hide Cmp;
    var pos' := pos[p := pos[p] + 1];
    forall i | 0 <= i < x && pos'[i] < len[i] == m
      ensures pos'[x] <= pos'[i]
    {
      if p == x {
        assert rests[i] != [] && rests[i][0] != rests[x][0];
      }
    }
  }

  lemma {:induction false} CollapseFrom(rests: seq<Log>, all: Log, pos: seq<nat>, len: seq<nat>, w: nat, last: Text,
                                        x: nat, m: nat, inOrder: bool)
    requires Slices(rests, all, pos, len) && NonEmpty(all) && NoneRelated(all) && LastIs(all, w, last)
    requires |pos| == |len| == |rests| && AtFrontier(pos, len, w) && Longest(len, all, x, m)
    requires IncreaseBelow(all, if inOrder then m else m + 1)
    requires inOrder ==> SecondsBefore(len, all, x, m) && NotOvertaken(pos, len, x, m)
    ensures MergeFrom(rests, last, true) == all[w..]
    decreases Remaining(rests)
  {
    hide Slices, Pick, AnyLive, Heads, Drops, Calm, PickedWell, NotOvertaken, IncreaseBelow, SecondsBefore,
         NonEmpty, NoneRelated, MergeFrom;
    if !AnyLive(Heads(rests)) {
      DrainedBehind(rests, all, pos, len, w, last, x);
    } else {
      var p := Pick(Heads(rests));
      PickIsFirst(rests);
      StepOf(rests, all, pos, len, last);
      if inOrder {
        CalmIfInOrder(all, pos, len, w, x, m);
        OvertakenByNobody(rests, all, pos, len, x, m, p);
      } else {
        CalmIfThroughBoundary(all, pos, len, w, x, m);
      }
      FrontierKept(rests, all, pos, len, w, p);
      DropsIffBehind(all, w, pos[p], last);
      var w' := if pos[p] == w then w + 1 else w;
      var last' := if pos[p] == w then all[w] else last;
      CollapseFrom(Advance(rests), all, pos[p := pos[p] + 1], len, w', last', x, m, inOrder);
      assert pos[p] == w ==> all[w..] == [all[w]] + all[w + 1..];
    }
  }

  lemma DrainedBehind(rests: seq<Log>, all: Log, pos: seq<nat>, len: seq<nat>, w: nat, last: Text, x: nat)
    requires Slices(rests, all, pos, len) && |pos| == |len| && AtFrontier(pos, len, w) && LastIs(all, w, last)
    requires x < |rests| && len[x] == |all| && !AnyLive(Heads(rests))
    ensures w == |all| && MergeFrom(rests, last, true) == []
  {
    NoneLive(rests, x);
  }

  // ----- it collapses only then -----

  /** A source that holds all entries and is two behind never catches up: the output has more than all entries. */
  lemma {:induction false} LagIsFatal(rests: seq<Log>, all: Log, pos: seq<nat>, len: seq<nat>, w: nat, last: Text,
                                      x: nat)
    requires Slices(rests, all, pos, len) && NonEmpty(all) && NoneRelated(all) && LastIs(all, w, last)
    requires x < |rests| == |pos| == |len| && len[x] == |all|
    requires MergeFrom(rests, last, true) == all[w..]
    ensures w <= pos[x] + 1
    decreases Remaining(rests)
  {
    hide Slices, Pick, AnyLive, Heads, Drops, NonEmpty, NoneRelated, MergeFrom;
    LiveMeans(rests, all, pos, len, x);
    if !AnyLive(Heads(rests)) {
      NoneLive(rests, x);
    } else if pos[x] + 1 < w {
      var p := Pick(Heads(rests));
      StepOf(rests, all, pos, len, last);
      var pos' := pos[p := pos[p] + 1];
      if Drops(last, all[pos[p]]) {
        LagIsFatal(Advance(rests), all, pos', len, w, last, x);
        if p == x { BehindByTwo(all, w, pos[x], last); }
      } else {
        WrittenNext(all, w, all[pos[p]], MergeFrom(Advance(rests), all[pos[p]], true));
        LagIsFatal(Advance(rests), all, pos', len, w + 1, all[w], x);
      }
    }
  }

  lemma BehindByTwo(all: Log, w: nat, at: nat, last: Text)
    requires NoneRelated(all) && LastIs(all, w, last) && at + 2 == w
    ensures !Drops(last, all[at])
  {
    hide Cmp;
    assert !Drops(all[at], all[at + 1]);
    CmpAntisymmetric(all[at], all[at + 1]);
  }

  lemma WrittenNext(all: Log, w: nat, e: Text, tail: Log)
    requires w <= |all| && [e] + tail == all[w..]
    ensures w < |all| && e == all[w] && tail == all[w + 1..]
  {
    assert ([e] + tail)[0] == e && ([e] + tail)[1..] == tail;
  }

  /** A source `y` in front of `x` that holds the first `m` entries keeps abreast of it, so those entries increase. */
  lemma {:induction false} IncreaseIsForced(rests: seq<Log>, all: Log, pos: seq<nat>, len: seq<nat>, w: nat, last: Text,
                                            x: nat, y: nat, m: nat)
    requires Slices(rests, all, pos, len) && NonEmpty(all) && NoneRelated(all) && LastIs(all, w, last)
    requires y < x < |rests| == |pos| == |len| && len[x] == |all| && len[y] == m
    requires w <= pos[x] + 1 && pos[x] <= w && pos[y] <= w && (pos[y] < m ==> pos[x] <= pos[y])
    requires MergeFrom(rests, last, true) == all[w..]
    ensures forall j :: pos[x] < j < |all| && j < m ==> Cmp(all[j - 1], all[j]) < 0
    decreases Remaining(rests)
  {
    hide Slices, Pick, AnyLive, Heads, Drops, NonEmpty, NoneRelated, MergeFrom, PickedWell, Cmp;
    LiveMeans(rests, all, pos, len, x);
    LiveMeans(rests, all, pos, len, y);
    if !AnyLive(Heads(rests)) {
      NoneLive(rests, x);
    } else if pos[y] < m {
      var p := Pick(Heads(rests));
      PickIsFirst(rests);
      StepOf(rests, all, pos, len, last);
      var pos' := pos[p := pos[p] + 1];
      if p == x { KeptAbreast(rests, all, pos, len, w, x, y); }
      if Drops(last, all[pos[p]]) {
        if p == y && pos[y] == w { DropsIffBehind(all, w, w, last); }
        IncreaseIsForced(Advance(rests), all, pos', len, w, last, x, y, m);
      } else {
        WrittenNext(all, w, all[pos[p]], MergeFrom(Advance(rests), all[pos[p]], true));
        LagIsFatal(Advance(rests), all, pos', len, w + 1, all[w], x);
        IncreaseIsForced(Advance(rests), all, pos', len, w + 1, all[w], x, y, m);
      }
    }
  }

  /** If `x` is picked although `y` is live, `y` is just ahead of it, and its entry is the greater one. */
  lemma KeptAbreast(rests: seq<Log>, all: Log, pos: seq<nat>, len: seq<nat>, w: nat, x: nat, y: nat)
    requires Slices(rests, all, pos, len) && NoneRelated(all) && NonEmpty(all) && PickedWell(rests, x)
    requires y < x < |rests| == |pos| == |len| && pos[y] < len[y]
    requires w <= pos[x] + 1 && pos[x] <= pos[y] <= w
    ensures pos[x] + 1 == pos[y] < |all| && Cmp(all[pos[x]], all[pos[y]]) < 0
  {
    hide Cmp;
    assert rests[y] != [] && rests[y][0] == all[pos[y]] && rests[x][0] == all[pos[x]];
    assert !Drops(all[pos[x]], all[pos[x] + 1]) && all[pos[x]] in all && all[pos[y]] in all;
  }

  // ----- the exact condition -----

  ghost predicate Backups(rests: seq<Log>, x: nat) {
    && x < |rests| && NonEmpty(rests[x])
    && forall i :: 0 <= i < |rests| ==> rests[i] <= rests[x]
  }

  /** `m` is the length of the longest backup besides `x`. */
  ghost predicate SecondLength(rests: seq<Log>, x: nat, m: nat)
    requires x < |rests|
  {
    && (forall i :: 0 <= i < |rests| && i != x ==> |rests[i]| <= m)
    && (m == 0 || exists i :: 0 <= i < |rests| && i != x && |rests[i]| == m)
  }

  /** The longest backup is named behind all second longest ones, unless there is another one as long. */
  ghost predicate LatestLast(rests: seq<Log>, x: nat, m: nat)
    requires x < |rests|
  {
    m == 0 || m == |rests[x]| || forall i :: x < i < |rests| ==> |rests[i]| < m
  }

  function Lengths(rests: seq<Log>): seq<nat> {
    seq(|rests|, i requires 0 <= i < |rests| => |rests[i]|)
  }

  function Begins(rests: seq<Log>): seq<nat> { seq(|rests|, i => 0) }

  lemma BackupsAreSlices(rests: seq<Log>, x: nat, m: nat)
    requires Backups(rests, x) && SecondLength(rests, x, m)
    ensures Slices(rests, rests[x], Begins(rests), Lengths(rests)) && Longest(Lengths(rests), rests[x], x, m)
    ensures AtFrontier(Begins(rests), Lengths(rests), 0) && LastIs(rests[x], 0, [])
    ensures NotOvertaken(Begins(rests), Lengths(rests), x, m)
  {
    forall i | 0 <= i < |rests|
      ensures rests[i] == rests[x][0..|rests[i]|]
    {
    }
  }

  lemma CollapseNeedsIncrease(rests: seq<Log>, x: nat, y: nat, m: nat)
    requires Backups(rests, x) && SecondLength(rests, x, m) && y < x && |rests[y]| == m
    requires Merge(rests, true) == rests[x]
    ensures NoneRelated(rests[x]) && IncreaseBelow(rests[x], m)
  {
    BackupsAreSlices(rests, x, m);
    MergeUnrelated(rests);
    assert rests[x][0..] == rests[x];
    IncreaseIsForced(rests, rests[x], Begins(rests), Lengths(rests), 0, [], x, y, m);
  }

  lemma MergeUnrelated(rests: seq<Log>)
    ensures NoneRelated(Merge(rests, true))
  {
    NeighboursUnrelated(rests, []);
    TailUnrelated([], Merge(rests, true));
  }

  lemma CollapseByIncrease(rests: seq<Log>, x: nat, m: nat, inOrder: bool)
    requires Backups(rests, x) && SecondLength(rests, x, m) && NoneRelated(rests[x])
    requires IncreaseBelow(rests[x], if inOrder then m else m + 1) && (inOrder ==> LatestLast(rests, x, m))
    ensures Merge(rests, true) == rests[x]
  {
    BackupsAreSlices(rests, x, m);
    assert rests[x][0..] == rests[x];
    CollapseFrom(rests, rests[x], Begins(rests), Lengths(rests), 0, [], x, m, inOrder);
  }

  /**
   * Any number of backups of one log, the most recent one behind the second most recent ones or not alone: dedupe
   * yields it exactly if no two neighbours of it agree as far as both go, and its first `m` entries, those which
   * another backup holds as well, strictly increase.
   */
  lemma CollapsesIff(rests: seq<Log>, x: nat, m: nat)
    requires Backups(rests, x) && SecondLength(rests, x, m) && LatestLast(rests, x, m)
    ensures Merge(rests, true) == rests[x] <==> NoneRelated(rests[x]) && IncreaseBelow(rests[x], m)
  {
    if NoneRelated(rests[x]) && IncreaseBelow(rests[x], m) {
      CollapseByIncrease(rests, x, m, true);
    }
    if Merge(rests, true) == rests[x] {
      MergeUnrelated(rests);
      if m > 0 {
        var y :| 0 <= y < |rests| && y != x && |rests[y]| == m;
        if y < x {
          CollapseNeedsIncrease(rests, x, y, m);
        } else {
          assert rests[y] == rests[x];
          CollapseNeedsIncrease(rests, y, x, m);
        }
      }
    }
  }

  /** In whatever order they are named: it is enough that the first entry only the latest one holds is greater, too. */
  lemma CollapsesInAnyOrder(rests: seq<Log>, x: nat, m: nat)
    requires Backups(rests, x) && SecondLength(rests, x, m)
    requires NoneRelated(rests[x]) && IncreaseBelow(rests[x], m + 1)
    ensures Merge(rests, true) == rests[x]
  {
    CollapseByIncrease(rests, x, m, false);
  }

  // ----- when the most recent one is named first -----

  /** No two entries at all agree as far as both go. */
  predicate AllUnrelated(all: Log) { forall j, k :: 0 <= j < k < |all| ==> !Drops(all[j], all[k]) }

  lemma DropsIffLast(all: Log, w: nat, at: nat, last: Text)
    requires NonEmpty(all) && AllUnrelated(all) && LastIs(all, w, last) && at < |all|
    ensures Drops(last, all[at]) <==> w == at + 1
  {
    hide Cmp;
    assert all[at] in all;
    if w == at + 1 {
      CmpItself(last);
    } else if 0 < w <= at {
      assert !Drops(all[w - 1], all[at]);
    } else if w > 0 {
      CmpAntisymmetric(all[at], all[w - 1]);
      assert !Drops(all[at], all[w - 1]);
    }
  }

  lemma NotTwice(all: Log, at: nat, w: nat)
    requires NonEmpty(all) && AllUnrelated(all) && at < w < |all|
    ensures all[at] != all[w]
  {
    hide Cmp;
    CmpItself(all[at]);
    assert all[at] in all && !Drops(all[at], all[w]);
  }

  /** An entry left two behind is written once more, whichever source has it. */
  lemma {:induction false} NoLag(rests: seq<Log>, all: Log, pos: seq<nat>, len: seq<nat>, w: nat, last: Text, y: nat)
    requires Slices(rests, all, pos, len) && NonEmpty(all) && AllUnrelated(all) && LastIs(all, w, last)
    requires y < |rests| == |pos| == |len| && pos[y] < len[y]
    requires MergeFrom(rests, last, true) == all[w..]
    ensures w <= pos[y] + 1
    decreases Remaining(rests)
  {
    hide Slices, Pick, AnyLive, Heads, Drops, NonEmpty, AllUnrelated, MergeFrom;
    LiveMeans(rests, all, pos, len, y);
    if !AnyLive(Heads(rests)) {
      NoneLive(rests, y);
    } else if pos[y] + 1 < w {
      var p := Pick(Heads(rests));
      StepOf(rests, all, pos, len, last);
      var pos' := pos[p := pos[p] + 1];
      DropsIffLast(all, w, pos[p], last);
      if Drops(last, all[pos[p]]) {
        NoLag(Advance(rests), all, pos', len, w, last, y);
      } else {
        WrittenNext(all, w, all[pos[p]], MergeFrom(Advance(rests), all[pos[p]], true));
        if p == y {
          NotTwice(all, pos[y], w);
        } else {
          NoLag(Advance(rests), all, pos', len, w + 1, all[w], y);
        }
      }
    }
  }

  /** A source `y` behind `x` that holds the first `m` entries follows it, so each entry that comes next is greater. */
  lemma {:induction false} IncreaseIsForcedBehind(rests: seq<Log>, all: Log, pos: seq<nat>, len: seq<nat>, w: nat,
                                                  last: Text, x: nat, y: nat, m: nat)
    requires Slices(rests, all, pos, len) && NonEmpty(all) && AllUnrelated(all) && LastIs(all, w, last)
    requires x < y < |rests| == |pos| == |len| && len[x] == |all| && len[y] == m
    requires pos[x] <= w && (pos[y] < m ==> pos[y] <= pos[x] && w <= pos[y] + 1)
    requires MergeFrom(rests, last, true) == all[w..]
    ensures forall j :: pos[y] < j < |all| && j <= m ==> Cmp(all[j - 1], all[j]) < 0
    decreases Remaining(rests)
  {
    hide Slices, Pick, AnyLive, Heads, Drops, NonEmpty, AllUnrelated, MergeFrom, PickedWell, Cmp;
    LiveMeans(rests, all, pos, len, x);
    LiveMeans(rests, all, pos, len, y);
    if !AnyLive(Heads(rests)) {
      NoneLive(rests, y);
    } else if pos[y] < m {
      var p := Pick(Heads(rests));
      PickIsFirst(rests);
      StepOf(rests, all, pos, len, last);
      var pos' := pos[p := pos[p] + 1];
      DropsIffLast(all, w, pos[p], last);
      if p == y { Follows(rests, all, pos, len, w, x, y); }
      if Drops(last, all[pos[p]]) {
        IncreaseIsForcedBehind(Advance(rests), all, pos', len, w, last, x, y, m);
      } else {
        WrittenNext(all, w, all[pos[p]], MergeFrom(Advance(rests), all[pos[p]], true));
        NoLag(Advance(rests), all, pos', len, w + 1, all[w], y);
        IncreaseIsForcedBehind(Advance(rests), all, pos', len, w + 1, all[w], x, y, m);
      }
    }
  }

  /** If `y` is picked, `x` in front of it has already given the same entry away, and offers a greater one. */
  lemma Follows(rests: seq<Log>, all: Log, pos: seq<nat>, len: seq<nat>, w: nat, x: nat, y: nat)
    requires Slices(rests, all, pos, len) && AllUnrelated(all) && NonEmpty(all) && PickedWell(rests, y)
    requires x < y < |rests| == |pos| == |len| && len[x] == |all| && pos[y] < len[y]
    requires pos[x] <= w && pos[y] <= pos[x] && w <= pos[y] + 1
    ensures pos[x] == w == pos[y] + 1
    ensures pos[x] < |all| ==> Cmp(all[pos[y]], all[pos[x]]) < 0
  {
    hide Cmp;
    assert rests[y] != [] && rests[y][0] == all[pos[y]];
    if pos[x] < |all| {
      assert rests[x] != [] && rests[x][0] == all[pos[x]];
      if pos[y] < pos[x] {
        assert !Drops(all[pos[y]], all[pos[x]]) && all[pos[x]] in all && all[pos[y]] in all;
      }
    }
  }

  /**
   * A log of which no two entries agree as far as both go, the most recent backup of it named before a second most
   * recent one: then the first entry that only the most recent one holds must be greater, too.
   */
  lemma CollapsesLatestFirstIff(rests: seq<Log>, x: nat, y: nat, m: nat)
    requires Backups(rests, x) && SecondLength(rests, x, m) && AllUnrelated(rests[x])
    requires x < y < |rests| && |rests[y]| == m
    ensures Merge(rests, true) == rests[x] <==> IncreaseBelow(rests[x], m + 1)
  {
    AllAreNone(rests[x]);
    if IncreaseBelow(rests[x], m + 1) {
      CollapsesInAnyOrder(rests, x, m);
    }
    if Merge(rests, true) == rests[x] {
      BackupsAreSlices(rests, x, m);
      assert rests[x][0..] == rests[x];
      IncreaseIsForcedBehind(rests, rests[x], Begins(rests), Lengths(rests), 0, [], x, y, m);
    }
  }

  lemma AllAreNone(all: Log)
    requires AllUnrelated(all)
    ensures NoneRelated(all)
  {
  }

  /** The longest of the others. */
  lemma {:induction false} SecondLengthExists(rests: seq<Log>, x: nat, n: nat) returns (m: nat)
    requires x < |rests| && n <= |rests|
    ensures forall i :: 0 <= i < n && i != x ==> |rests[i]| <= m
    ensures m == 0 || exists i :: 0 <= i < n && i != x && |rests[i]| == m
  {
    if n == 0 {
      m := 0;
    } else {
      m := SecondLengthExists(rests, x, n - 1);
      if n - 1 != x && |rests[n - 1]| > m {
        m := |rests[n - 1]|;
      }
    }
  }

  lemma IncreaseIsUnrelated(all: Log)
    requires IncreaseBelow(all, |all|)
    ensures NoneRelated(all)
  {
    hide Cmp;
    forall j, k | 0 <= j < |all| && k == j + 1 < |all|
      ensures !Drops(all[j], all[k])
    {
      assert Cmp(all[k - 1], all[k]) < 0;
    }
  }

  /** A log of which all backups, however many and in whatever order, merge into the most recent one. */
  lemma AlwaysCollapsesIff(all: Log)
    requires NonEmpty(all)
    ensures (forall rests: seq<Log>, x: nat :: Backups(rests, x) && rests[x] == all ==> Merge(rests, true) == all)
            <==> IncreaseBelow(all, |all|)
  {
    hide Cmp, Merge, NoneRelated;
    if IncreaseBelow(all, |all|) {
      IncreaseIsUnrelated(all);
      forall rests: seq<Log>, x: nat | Backups(rests, x) && rests[x] == all
        ensures Merge(rests, true) == all
      {
        var m := SecondLengthExists(rests, x, |rests|);
        CollapsesInAnyOrder(rests, x, m);
      }
    }
    if forall rests: seq<Log>, x: nat :: Backups(rests, x) && rests[x] == all ==> Merge(rests, true) == all {
      assert Backups([all, all], 1);
      assert [all, all][0] == all && |[all, all][0]| == |all|;
      CollapsesIff([all, all], 1, |all|);
    }
  }

  /** One file alone comes out as it is exactly if no entry of it agrees with its neighbour as far as both go. */
  lemma SingleFileKeptIff(log: Log)
    requires NonEmpty(log)
    ensures Merge([log], true) == log <==> NoneRelated(log)
  {
    CollapsesIff([log], 0, 0);
  }

  // ----- inputs for which it does not -----

  lemma PickOfTwo(a: Log, b: Log)
    requires a != [] || b != []
    ensures AnyLive(Heads([a, b]))
    ensures Pick(Heads([a, b])) == if a == [] || (b != [] && Cmp(b[0], a[0]) < 0) then 1 else 0
  {
    hide Cmp;
    var hs := Heads([a, b]);
    assert hs[0] == HeadOf(a) && hs[1] == HeadOf(b);
    if a != [] && b == [] {
      assert LowestFrom(hs, 0, 1) == LowestFrom(hs, 0, 2) == 0;
    } else if a != [] {
      assert LowestFrom(hs, 0, 1) == LowestFrom(hs, if Cmp(b[0], a[0]) < 0 then 1 else 0, 2);
    } else {
      CmpItself(b[0]);
      assert FirstLive(hs, 0) == FirstLive(hs, 1) == 1;
      assert LowestFrom(hs, 1, 1) == LowestFrom(hs, 1, 2) == 1;
    }
  }

  lemma MergeOfTwo(a: Log, b: Log, last: Text)
    ensures MergeFrom([a, b], last, true)
         == if a == [] && b == [] then []
            else if a == [] || (b != [] && Cmp(b[0], a[0]) < 0) then
              (if Drops(last, b[0]) then MergeFrom([a, b[1..]], last, true)
               else [b[0]] + MergeFrom([a, b[1..]], b[0], true))
            else
              (if Drops(last, a[0]) then MergeFrom([a[1..], b], last, true)
               else [a[0]] + MergeFrom([a[1..], b], a[0], true))
  {
    if a == [] && b == [] {
      assert Heads([a, b])[0].Gone? && Heads([a, b])[1].Gone?;
    } else {
      PickOfTwo(a, b);
      assert [a, b][0 := a[if a == [] then 0 else 1..]] == [a[if a == [] then 0 else 1..], b];
      assert [a, b][1 := b[if b == [] then 0 else 1..]] == [a, b[if b == [] then 0 else 1..]];
      hide Cmp, Drops, Heads, AnyLive, Pick;
    }
  }

  lemma TakesLeft(e: Text, a: Log, b: Log, last: Text)
    requires b == [] || Cmp(b[0], e) >= 0
    ensures MergeFrom([[e] + a, b], last, true)
         == if Drops(last, e) then MergeFrom([a, b], last, true) else [e] + MergeFrom([a, b], e, true)
  {
    hide Cmp, MergeFrom, Drops;
    assert ([e] + a)[0] == e && ([e] + a)[1..] == a;
    MergeOfTwo([e] + a, b, last);
  }

  lemma TakesRight(e: Text, a: Log, b: Log, last: Text)
    requires a == [] || Cmp(e, a[0]) < 0
    ensures MergeFrom([a, [e] + b], last, true)
         == if Drops(last, e) then MergeFrom([a, b], last, true) else [e] + MergeFrom([a, b], e, true)
  {
    hide Cmp, MergeFrom, Drops;
    assert ([e] + b)[0] == e && ([e] + b)[1..] == b;
    MergeOfTwo(a, [e] + b, last);
  }

  lemma BothDrained(last: Text)
    ensures MergeFrom([[], []], last, true) == []
  {
    hide MergeFrom;
    MergeOfTwo([], [], last);
  }

  /** Two identical files, and in them an entry that is less than the one before it: both come out twice. */
  lemma EqualFilesComeOutTwice(b: Text, a: Text)
    requires a != [] && Cmp(a, b) < 0
    ensures Merge([[b] + [a], [b] + [a]], true) == [b] + ([a] + ([b] + [a]))
  {
    CmpAntisymmetric(a, b);
    CmpItself(a);
    CmpItself(b);
    assert b != [] && !Drops([], b) && !Drops(b, a) && !Drops(a, b);
    var none: Log := [];
    assert [a] == [a] + none;
    hide Cmp, MergeFrom, Drops;
    TakesLeft(b, [a], [b] + [a], []);
    TakesLeft(a, none, [b] + [a], b);
    TakesRight(b, none, [a], a);
    TakesRight(a, none, none, b);
    BothDrained(a);
  }

  /** The more recent of two backups named first, and its new entry less than the last common one. */
  lemma LatestFirstComesOutTwice(b: Text, a: Text, c: Text)
    requires a != [] && Cmp(a, b) < 0 && Cmp(b, c) < 0
    ensures Merge([[b] + ([a] + [c]), [b]], true) == [b] + ([a] + ([b] + [c]))
    ensures Merge([[b], [b] + ([a] + [c])], true) == [b] + ([a] + [c])
  {
    CmpLessTransitive(a, b, c);
    CmpAntisymmetric(a, b);
    CmpAntisymmetric(b, c);
    CmpAntisymmetric(a, c);
    CmpItself(b);
    assert b != [] && !Drops([], b) && !Drops(b, a) && !Drops(a, b) && !Drops(b, c) && !Drops(a, c) && Drops(b, b);
    var none: Log := [];
    assert [c] == [c] + none && [b] == [b] + none;
    hide Cmp, MergeFrom, Drops;
    BothDrained(c);
    TakesLeft(b, [a] + [c], [b], []);
    TakesLeft(a, [c], [b], b);
    TakesRight(b, [c], none, a);
    TakesLeft(c, none, none, b);
    TakesLeft(b, none, [b] + ([a] + [c]), []);
    TakesRight(b, none, [a] + [c], b);
    TakesRight(a, none, [c], b);
    TakesRight(c, none, none, a);
  }

  /** Such entries exist for every timestamp. */
  lemma OneOctetApart(k: Text, c: Byte, d: Byte)
    ensures Cmp(k + [c], k + [d]) == c as int - d as int
  {
    CommonUnique(k + [c], k + [d], if c == d then |k| + 1 else |k|);
  }
}
