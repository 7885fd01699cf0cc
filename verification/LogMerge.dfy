/**
 * The merge that LogMerge performs on whole lists of entries: which head is picked, what is written of it,
 * and what that means for the output. `Merge` is the specification that every run is later proved to meet.
 */
module LogMerge {
  import opened Bytes
  import opened Sequences
  import opened LogText

  type Log = seq<Text>

  /** The current entry of a source, unless it has no more. */
  datatype Head = Gone | At(entry: Text)

  /** What a settled source offers to the comparison. */
  function Offered(s: Src): Head {
    if s.noMore || !(0 <= s.logBeg <= s.logEnd <= |s.text|) then Gone else At(s.text[s.logBeg..s.logEnd])
  }

  /** The marks of a settled source delimit an entry inside its text. */
  predicate Ready(s: Src) {
    s.noMore || 0 <= s.beg <= s.logBeg <= s.logEnd <= |s.text|
  }

  /** The heads that settled sources offer. */
  function OfferedBy(vs: seq<Src>): (hs: seq<Head>)
    ensures |hs| == |vs| && forall i :: 0 <= i < |vs| ==> hs[i] == Offered(vs[i])
  {
    seq(|vs|, i requires 0 <= i < |vs| => Offered(vs[i]))
  }

  function HeadOf(rest: Log): Head { if rest == [] then Gone else At(rest[0]) }

  function Heads(rests: seq<Log>): (hs: seq<Head>)
    ensures |hs| == |rests|
    ensures forall i :: 0 <= i < |rests| ==> hs[i] == HeadOf(rests[i])
  {
    seq(|rests|, i requires 0 <= i < |rests| => HeadOf(rests[i]))
  }

  /** The first source that still has an entry, or `|hs|`. */
  function FirstLive(hs: seq<Head>, i: nat): (k: nat)
    requires i <= |hs|
    ensures i <= k <= |hs|
    ensures k < |hs| ==> hs[k].At?
    ensures forall j :: i <= j < k ==> hs[j].Gone?
    decreases |hs| - i
  {
    if i == |hs| || hs[i].At? then i else FirstLive(hs, i + 1)
  }

  /** The scan over the heads from index `i` on, when `best` is the lowest so far. */
  function LowestFrom(hs: seq<Head>, best: nat, i: nat): (k: nat)
    requires best < |hs| && hs[best].At?
    ensures k < |hs| && hs[k].At?
    decreases |hs| - i
  {
    if i >= |hs| then best
    else if hs[i].At? && Cmp(hs[i].entry, hs[best].entry) < 0 then LowestFrom(hs, i, i + 1)
    else LowestFrom(hs, best, i + 1)
  }

  predicate AnyLive(hs: seq<Head>) { FirstLive(hs, 0) < |hs| }

  /** `findOldestLogEntryFromAllHeads`: the scan restarts at index 1 wherever the first live source is. */
  function Pick(hs: seq<Head>): (k: nat)
    requires AnyLive(hs)
    ensures k < |hs| && hs[k].At?
  {
    LowestFrom(hs, FirstLive(hs, 0), 1)
  }

  /** Whether dedupe skips `e` because it and the last written entry agree as far as both go. */
  predicate Drops(last: Text, e: Text) {
    Min(|last|, |e|) > 0 && Cmp(last, e) == 0
  }

  function Remaining(rests: seq<Log>): nat {
    if rests == [] then 0 else |rests[0]| + Remaining(rests[1..])
  }

  lemma {:induction false} RemainingAfter(rests: seq<Log>, p: nat, log: Log)
    requires p < |rests|
    ensures Remaining(rests[p := log]) == Remaining(rests) - |rests[p]| + |log|
  {
    if p > 0 {
      assert rests[p := log][1..] == rests[1..][p - 1 := log];
      RemainingAfter(rests[1..], p - 1, log);
    } else {
      assert rests[p := log][1..] == rests[1..];
    }
  }

  /** The sources after the picked one has given its head away. */
  function Advance(rests: seq<Log>): (after: seq<Log>)
    requires AnyLive(Heads(rests))
    ensures |after| == |rests| && Remaining(after) < Remaining(rests)
  {
    var p := Pick(Heads(rests));
    RemainingAfter(rests, p, rests[p][1..]);
    rests[p := rests[p][1..]]
  }

  function Picked(rests: seq<Log>): Text
    requires AnyLive(Heads(rests))
  {
    rests[Pick(Heads(rests))][0]
  }

  /** What is still written when `last` was written last. */
  function MergeFrom(rests: seq<Log>, last: Text, dedupe: bool): Log
    decreases Remaining(rests)
  {
    if !AnyLive(Heads(rests)) then []
    else
      var e := Picked(rests);
      if dedupe && Drops(last, e) then MergeFrom(Advance(rests), last, dedupe)
      else [e] + MergeFrom(Advance(rests), e, dedupe)
  }

  function Merge(rests: seq<Log>, dedupe: bool): Log { MergeFrom(rests, [], dedupe) }

  // ----- conservation -----

  /** The sources in the order in which they are picked, whatever is written of them. */
  function Order(rests: seq<Log>): seq<nat>
    decreases Remaining(rests)
  {
    if !AnyLive(Heads(rests)) then [] else [Pick(Heads(rests))] + Order(Advance(rests))
  }

  /** The entries of source `i` among `out` when `order` says where each came from. */
  function From(order: seq<nat>, out: Log, i: nat): Log
    requires |order| == |out|
  {
    if out == [] then []
    else (if order[0] == i then [out[0]] else []) + From(order[1..], out[1..], i)
  }

  /** Without dedupe the output is an interleaving: every entry exactly once, each source in its order. */
  lemma {:induction false} MergeInterleaves(rests: seq<Log>, last: Text)
    ensures |Order(rests)| == |MergeFrom(rests, last, false)| == Remaining(rests)
    ensures forall k :: k in Order(rests) ==> k < |rests|
    ensures forall i :: 0 <= i < |rests| ==> From(Order(rests), MergeFrom(rests, last, false), i) == rests[i]
    decreases Remaining(rests)
  {
    var hs := Heads(rests);
    if AnyLive(hs) {
      var p, after := Pick(hs), Advance(rests);
      RemainingAfter(rests, p, rests[p][1..]);
      MergeInterleaves(after, rests[p][0]);
      forall i | 0 <= i < |rests|
        ensures From(Order(rests), MergeFrom(rests, last, false), i) == rests[i]
      {
        assert Order(rests)[1..] == Order(after);
        assert MergeFrom(rests, last, false)[1..] == MergeFrom(after, rests[p][0], false);
        assert after[i] == if i == p then rests[i][1..] else rests[i];
      }
    } else {
      assert forall i :: 0 <= i < |rests| ==> hs[i].Gone?;
      AllEmpty(rests);
    }
  }

  lemma {:induction false} AllEmpty(rests: seq<Log>)
    requires forall i :: 0 <= i < |rests| ==> rests[i] == []
    ensures Remaining(rests) == 0
  {
    if rests != [] {
      AllEmpty(rests[1..]);
    }
  }

  // ----- what dedupe drops -----

  function Select(xs: Log, kept: seq<bool>): Log
    requires |xs| == |kept|
  {
    if xs == [] then [] else (if kept[0] then [xs[0]] else []) + Select(xs[1..], kept[1..])
  }

  /** The entry written last before position `j`. */
  function LastKept(last: Text, xs: Log, kept: seq<bool>, j: nat): Text
    requires j <= |xs| == |kept|
  {
    if j == 0 then last else if kept[j - 1] then xs[j - 1] else LastKept(last, xs, kept, j - 1)
  }

  /** Exactly those entries are dropped that are prefix-related to the one written last. */
  ghost predicate KeepsRight(last: Text, xs: Log, kept: seq<bool>) {
    |kept| == |xs| && forall j :: 0 <= j < |xs| ==> (kept[j] <==> !Drops(LastKept(last, xs, kept, j), xs[j]))
  }

  lemma {:induction false} LastKeptTail(last: Text, xs: Log, kept: seq<bool>, j: nat)
    requires 0 < j <= |xs| == |kept|
    ensures LastKept(last, xs, kept, j)
            == LastKept(if kept[0] then xs[0] else last, xs[1..], kept[1..], j - 1)
  {
    if j > 1 {
      LastKeptTail(last, xs, kept, j - 1);
    }
  }

  lemma KeepsRightTail(last: Text, xs: Log, kept: seq<bool>)
    requires KeepsRight(last, xs, kept) && xs != []
    ensures kept[0] <==> !Drops(last, xs[0])
    ensures KeepsRight(if kept[0] then xs[0] else last, xs[1..], kept[1..])
  {
    hide Drops;
    assert LastKept(last, xs, kept, 0) == last;
    forall j | 0 <= j < |xs[1..]|
      ensures kept[1..][j] <==> !Drops(LastKept(if kept[0] then xs[0] else last, xs[1..], kept[1..], j), xs[1..][j])
    {
      LastKeptTail(last, xs, kept, j + 1);
      assert kept[j + 1] <==> !Drops(LastKept(last, xs, kept, j + 1), xs[j + 1]);
    }
  }

  /** With dedupe the output is the one selection of the full merge that drops exactly what it should. */
  lemma {:induction false} DedupeDropsExactly(rests: seq<Log>, last: Text, was: Text, kept: seq<bool>)
    requires KeepsRight(last, MergeFrom(rests, was, false), kept)
    ensures MergeFrom(rests, last, true) == Select(MergeFrom(rests, was, false), kept)
    decreases Remaining(rests)
  {
    if AnyLive(Heads(rests)) {
      var all, e := MergeFrom(rests, was, false), Picked(rests);
      KeepsRightTail(last, all, kept);
      assert all[1..] == MergeFrom(Advance(rests), e, false);
      DedupeDropsExactly(Advance(rests), if kept[0] then e else last, e, kept[1..]);
    }
  }

  /** There always is such a selection. */
  lemma {:induction false} SelectionExists(last: Text, xs: Log) returns (kept: seq<bool>)
    ensures KeepsRight(last, xs, kept)
    decreases |xs|
  {
    if xs == [] {
      kept := [];
    } else {
      var keep := !Drops(last, xs[0]);
      var tail := SelectionExists(if keep then xs[0] else last, xs[1..]);
      kept := [keep] + tail;
      assert kept[1..] == tail;
      forall j | 0 <= j < |xs|
        ensures kept[j] <==> !Drops(LastKept(last, xs, kept, j), xs[j])
      {
        if j > 0 {
          LastKeptTail(last, xs, kept, j);
          assert kept[j] == tail[j - 1] && xs[j] == xs[1..][j - 1];
        }
      }
    }
  }

  predicate NoneRelated(out: Log) {
    forall j, k :: 0 <= j < |out| && k == j + 1 < |out| ==> !Drops(out[j], out[k])
  }

  /** No two neighbours of a deduplicated output are prefixes of one another. */
  lemma {:induction false} NeighboursUnrelated(rests: seq<Log>, last: Text)
    ensures NoneRelated([last] + MergeFrom(rests, last, true))
    decreases Remaining(rests)
  {
    if AnyLive(Heads(rests)) {
      var e := Picked(rests);
      if Drops(last, e) {
        NeighboursUnrelated(Advance(rests), last);
      } else {
        NeighboursUnrelated(Advance(rests), e);
        UnrelatedCons(last, [e] + MergeFrom(Advance(rests), e, true));
      }
    }
  }

  lemma UnrelatedCons(last: Text, tail: Log)
    requires NoneRelated(tail) && tail != [] && !Drops(last, tail[0])
    ensures NoneRelated([last] + tail)
  {
    var out := [last] + tail;
    forall j, k | 0 <= j < |out| && k == j + 1 < |out|
      ensures !Drops(out[j], out[k])
    {
      if j > 0 {
        assert out[j] == tail[j - 1] && out[k] == tail[k - 1];
      }
    }
  }

  lemma TailUnrelated(last: Text, out: Log)
    requires NoneRelated([last] + out)
    ensures NoneRelated(out)
  {
    var all := [last] + out;
    forall j, k | 0 <= j < |out| && k == j + 1 < |out|
      ensures !Drops(out[j], out[k])
    {
      assert all[j + 1] == out[j] && all[k + 1] == out[k];
    }
  }

  // ----- sortedness -----

  /** The timestamp: every entry of a file is long enough to show it. */
  function Key(e: Text): Text
    requires |e| >= 19
  {
    e[..19]
  }

  predicate Stamped(log: Log) { forall e :: e in log ==> |e| >= 19 }

  predicate KeyLe(a: Text, b: Text) {
    |a| >= 19 && |b| >= 19 && Cmp(Key(a), Key(b)) <= 0
  }

  predicate Sorted(log: Log) {
    forall i, j :: 0 <= i < j < |log| ==> KeyLe(log[i], log[j])
  }

  lemma KeyLeTransitive(a: Text, b: Text, c: Text)
    requires KeyLe(a, b) && KeyLe(b, c)
    ensures KeyLe(a, c)
  {
    CmpLessEqTransitive(Key(a), Key(b), Key(c));
  }

  predicate LiveStamped(hs: seq<Head>) {
    forall i :: 0 <= i < |hs| && hs[i].At? ==> |hs[i].entry| >= 19
  }

  /** The comparison of whole entries is no total order, yet the picked head has a least timestamp. */
  lemma {:induction false} LowestIsLeast(hs: seq<Head>, best: nat, i: nat)
    requires best < |hs| && hs[best].At? && LiveStamped(hs)
    requires forall j :: 0 <= j < |hs| && j < i && hs[j].At? ==> KeyLe(hs[best].entry, hs[j].entry)
    ensures forall j :: 0 <= j < |hs| && hs[j].At? ==> KeyLe(hs[LowestFrom(hs, best, i)].entry, hs[j].entry)
    decreases |hs| - i
  {
    if i < |hs| {
      if hs[i].At? {
        var a, b := hs[i].entry, hs[best].entry;
        CmpOnHeads(a, b, 19);
        CmpAntisymmetric(Key(a), Key(b));
        if Cmp(a, b) < 0 {
          forall j | 0 <= j < i + 1 && hs[j].At?
            ensures KeyLe(a, hs[j].entry)
          {
            if j < i { KeyLeTransitive(a, b, hs[j].entry); } else { SelfLe(a); }
          }
          LowestIsLeast(hs, i, i + 1);
        } else {
          LowestIsLeast(hs, best, i + 1);
        }
      } else {
        LowestIsLeast(hs, best, i + 1);
      }
    }
  }

  lemma SelfLe(a: Text)
    requires |a| >= 19
    ensures KeyLe(a, a)
  {
    CmpZeroIffPrefix(Key(a), Key(a));
  }

  lemma PickIsLeast(hs: seq<Head>)
    requires AnyLive(hs) && LiveStamped(hs)
    ensures forall j :: 0 <= j < |hs| && hs[j].At? ==> KeyLe(hs[Pick(hs)].entry, hs[j].entry)
  {
    var k := FirstLive(hs, 0);
    SelfLe(hs[k].entry);
    LowestIsLeast(hs, k, 1);
  }

  /** Whatever is written comes from some source. */
  lemma {:induction false} OutputFromSources(rests: seq<Log>, last: Text, dedupe: bool, x: Text)
    requires x in MergeFrom(rests, last, dedupe)
    ensures exists i :: 0 <= i < |rests| && x in rests[i]
    decreases Remaining(rests)
  {
    var p, e, after := Pick(Heads(rests)), Picked(rests), Advance(rests);
    if x == e && !(dedupe && Drops(last, e)) {
      assert x in rests[p];
    } else {
      var next := if dedupe && Drops(last, e) then last else e;
      assert x in MergeFrom(after, next, dedupe);
      OutputFromSources(after, next, dedupe, x);
      var i :| 0 <= i < |after| && x in after[i];
      assert x in rests[i];
    }
  }

  /** Sorted sources give a sorted output, with or without dedupe. */
  lemma {:induction false} MergeSorts(rests: seq<Log>, last: Text, dedupe: bool)
    requires forall i :: 0 <= i < |rests| ==> Sorted(rests[i]) && Stamped(rests[i])
    ensures Sorted(MergeFrom(rests, last, dedupe))
    decreases Remaining(rests)
  {
    var hs := Heads(rests);
    if AnyLive(hs) {
      var e, after := Picked(rests), Advance(rests);
      var next := if dedupe && Drops(last, e) then last else e;
      MergeSorts(after, next, dedupe);
      var tail := MergeFrom(after, next, dedupe);
      forall x | x in tail
        ensures KeyLe(e, x)
      {
        OutputFromSources(after, next, dedupe, x);
        var i :| 0 <= i < |after| && x in after[i];
        PickedIsLeast(rests, i, x);
      }
      SortedCons(e, tail);
    }
  }

  lemma PickedIsLeast(rests: seq<Log>, i: nat, x: Text)
    requires forall k :: 0 <= k < |rests| ==> Sorted(rests[k]) && Stamped(rests[k])
    requires AnyLive(Heads(rests)) && i < |rests| && x in rests[i]
    ensures KeyLe(Picked(rests), x)
  {
    var hs := Heads(rests);
    PickIsLeast(hs);
    assert hs[i].At?;
    HeadIsLeast(rests[i], x);
    KeyLeTransitive(Picked(rests), rests[i][0], x);
  }

  lemma SortedCons(e: Text, tail: Log)
    requires Sorted(tail) && forall x :: x in tail ==> KeyLe(e, x)
    ensures Sorted([e] + tail)
  {
  }

  lemma HeadIsLeast(log: Log, x: Text)
    requires Sorted(log) && Stamped(log) && x in log
    ensures KeyLe(log[0], x)
  {
    SelfLe(log[0]);
    var j :| 0 <= j < |log| && log[j] == x;
  }
}
