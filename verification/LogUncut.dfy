/**
 * Cut backups of a log that does not increase throughout, held against the same backups with their last entries as the
 * log has them: both merges go the same way as long as the latter is right.
 */
module LogUncut {
  import opened Bytes
  import opened Sequences
  import opened LogText
  import opened LogMerge
  import opened LogCollapse
  import opened LogCut

  /** Every backup's entry agrees with no other entry of the log as far as both go. */
  ghost predicate Apart(ts: seq<Log>, all: Log) {
    forall i, k, j :: 0 <= i < |ts| && 0 <= k < |ts[i]| && 0 <= j < |all| && j != k ==> Cmp(ts[i][k], all[j]) != 0
  }

  /** The same backups, each with its last entry as the log has it. */
  function Uncut(ts: seq<Log>, all: Log): seq<Log> {
    seq(|ts|, i requires 0 <= i < |ts| => all[..Min(|ts[i]|, |all|)])
  }

  /** Texts that agree with others compare as those do. */
  lemma SameSign(e: Text, a: Text, d: Text, b: Text)
    requires Cmp(e, a) == 0 && Cmp(d, b) == 0 && Cmp(a, b) != 0 && Cmp(e, b) != 0 && Cmp(d, a) != 0
    ensures Cmp(e, d) == Cmp(a, b)
  {
    BeyondCommon(e, a, b);
    CmpAntisymmetric(a, b);
    BeyondCommon(d, b, a);
    CommonUnique(b, a, Common(a, b));
    CmpZeroIffPrefix(e, a);
    CmpZeroIffPrefix(d, b);
    CommonUnique(e, d, Common(a, b));
  }

  lemma BeyondCommon(e: Text, a: Text, b: Text)
    requires Cmp(e, a) == 0 && Cmp(a, b) != 0
    ensures |e| <= Common(a, b) ==> Cmp(e, b) == 0
  {
    CmpZeroIffPrefix(e, a);
    if |e| <= Common(a, b) {
      CommonUnique(e, b, |e|);
    }
  }

  predicate SameOrder(hs: seq<Head>, gs: seq<Head>) {
    && |hs| == |gs|
    && (forall i :: 0 <= i < |hs| ==> (hs[i].At? <==> gs[i].At?))
    && forall i, j :: 0 <= i < |hs| && 0 <= j < |hs| && hs[i].At? && hs[j].At? ==>
                        (Cmp(hs[i].entry, hs[j].entry) < 0 <==> Cmp(gs[i].entry, gs[j].entry) < 0)
  }

  lemma {:induction false} SameLowest(hs: seq<Head>, gs: seq<Head>, best: nat, i: nat)
    requires SameOrder(hs, gs) && best < |hs| && hs[best].At?
    ensures LowestFrom(hs, best, i) == LowestFrom(gs, best, i)
    decreases |hs| - i
  {
    hide Cmp;
    if i < |hs| {
      SameLowest(hs, gs, if hs[i].At? && Cmp(hs[i].entry, hs[best].entry) < 0 then i else best, i + 1);
    }
  }

  lemma {:induction false} SameFirst(hs: seq<Head>, gs: seq<Head>, i: nat)
    requires SameOrder(hs, gs) && i <= |hs|
    ensures FirstLive(hs, i) == FirstLive(gs, i)
    decreases |hs| - i
  {
    hide Cmp;
    if i < |hs| {
      SameFirst(hs, gs, i + 1);
    }
  }

  lemma SamePick(hs: seq<Head>, gs: seq<Head>)
    requires SameOrder(hs, gs)
    ensures AnyLive(hs) <==> AnyLive(gs)
    ensures AnyLive(hs) ==> Pick(hs) == Pick(gs)
  {
    hide Cmp, LowestFrom;
    SameFirst(hs, gs, 0);
    if AnyLive(hs) {
      SameLowest(hs, gs, FirstLive(hs, 0), 1);
    }
  }

  /** An entry of a backup agrees with the log's and with no other. */
  lemma InItsPlace(ts: seq<Log>, all: Log, long: Log, x: nat, i: nat, k: nat)
    requires CutBackups(ts, all, long, x) && AllUnrelated(all) && Apart(ts, all) && i < |ts| && k < |ts[i]|
    ensures k < |all| && ts[i][k] != [] && all[k] != [] && Cmp(ts[i][k], all[k]) == 0
    ensures forall j :: 0 <= j < |all| && j != k ==> Cmp(ts[i][k], all[j]) != 0 && Cmp(all[k], all[j]) != 0
  {
    hide Cmp;
    SamePrefix(ts[i][k], all[k], long[k]);
    forall j | 0 <= j < |all| && j != k
      ensures Cmp(all[k], all[j]) != 0
    {
      DropsBoth(all[k], all[j]);
      assert !Drops(all[if j < k then j else k], all[if j < k then k else j]);
    }
  }

  lemma SameHeads(rests: seq<Log>, uncut: seq<Log>, ts: seq<Log>, all: Log, long: Log, pos: seq<nat>, x: nat)
    requires CutBackups(ts, all, long, x) && AllUnrelated(all) && Apart(ts, all)
    requires Behind(rests, ts, pos) && Behind(uncut, Uncut(ts, all), pos)
    ensures SameOrder(Heads(rests), Heads(uncut))
  {
    hide Cmp, Apart, AllUnrelated, CutBackups, Uncut;
    var hs, gs := Heads(rests), Heads(uncut);
    forall i | 0 <= i < |hs|
      ensures hs[i].At? <==> gs[i].At?
      ensures hs[i].At? ==> hs[i] == At(ts[i][pos[i]]) && pos[i] < |all| && gs[i] == At(all[pos[i]])
    {
      UncutLength(ts, all, long, x, i);
      if pos[i] < |ts[i]| {
        UncutAt(ts, all, long, x, i, pos[i]);
        HeadIs(rests, ts, pos, i);
        HeadIs(uncut, Uncut(ts, all), pos, i);
      }
    }
    forall i, j | 0 <= i < |hs| && 0 <= j < |hs| && hs[i].At? && hs[j].At?
      ensures Cmp(hs[i].entry, hs[j].entry) < 0 <==> Cmp(gs[i].entry, gs[j].entry) < 0
    {
      InItsPlace(ts, all, long, x, i, pos[i]);
      InItsPlace(ts, all, long, x, j, pos[j]);
      if pos[i] == pos[j] {
        CmpItself(all[pos[i]]);
        PrefixOfLong(ts, all, long, x, i, pos[i]);
        PrefixOfLong(ts, all, long, x, j, pos[j]);
        SamePrefix(ts[i][pos[i]], ts[j][pos[j]], long[pos[i]]);
      } else {
        SameSign(ts[i][pos[i]], all[pos[i]], ts[j][pos[j]], all[pos[j]]);
      }
    }
  }

  lemma SameDrops(ts: seq<Log>, all: Log, long: Log, x: nat, p: nat, at: nat, w: nat, last: Text)
    requires CutBackups(ts, all, long, x) && AllUnrelated(all) && Apart(ts, all) && LastIs(all, w, last)
    requires p < |ts| && at < |ts[p]|
    ensures at < |all| && (Drops(last, ts[p][at]) <==> w == at + 1) && (Drops(last, all[at]) <==> w == at + 1)
    ensures w < |all| ==> (all[at] == all[w] <==> at == w) && (ts[p][at] == all[w] ==> at == w)
  {
    hide Cmp, Apart, AllUnrelated, CutBackups;
    InItsPlace(ts, all, long, x, p, at);
    if w > 0 {
      CmpAntisymmetric(last, ts[p][at]);
      CmpAntisymmetric(last, all[at]);
      if w == at + 1 { CmpItself(last); }
    }
    if w < |all| { CmpItself(all[w]); }
  }

  lemma UncutSlices(uncut: seq<Log>, ts: seq<Log>, all: Log, long: Log, pos: seq<nat>, x: nat)
    requires CutBackups(ts, all, long, x) && Behind(uncut, Uncut(ts, all), pos)
    ensures Slices(uncut, all, pos, Lengths(ts)) && NonEmpty(all)
  {
    hide CutOf;
    forall i | 0 <= i < |ts|
      ensures pos[i] <= |ts[i]| <= |all| && uncut[i] == all[pos[i]..|ts[i]|]
    {
      WithinAll(ts, all, long, x, i);
    }
  }

  /** If someone before the writer holds the entry as well, he is two behind, and the output is wrong anyway. */
  lemma HolderBefore(uncut: seq<Log>, ts: seq<Log>, all: Log, long: Log, pos: seq<nat>, w: nat, x: nat, p: nat, j: nat)
    requires CutBackups(ts, all, long, x) && AllUnrelated(all) && Behind(uncut, Uncut(ts, all), pos)
    requires AnyLive(Heads(uncut)) && p == Pick(Heads(uncut)) && PickedWell(uncut, p)
    requires j < p < |ts| && w < |ts[j]| && pos[j] <= w == pos[p] < |ts[p]| && w < |all|
    requires Behind(Advance(uncut), Uncut(ts, all), pos[p := w + 1])
    ensures MergeFrom(Advance(uncut), all[w], true) != all[w + 1..]
  {
    hide Cmp, AllUnrelated, MergeFrom, CutBackups, Heads, Pick, AnyLive, Uncut;
    UncutSlices(uncut, ts, all, long, pos, x);
    UncutSlices(Advance(uncut), ts, all, long, pos[p := w + 1], x);
    LiveMeans(uncut, all, pos, Lengths(ts), j);
    LiveMeans(uncut, all, pos, Lengths(ts), p);
    assert pos[j] < w;
    if MergeFrom(Advance(uncut), all[w], true) == all[w + 1..] {
      NoLag(Advance(uncut), all, pos[p := w + 1], Lengths(ts), w + 1, all[w], j);
    }
  }

  lemma FirstHolder(ts: seq<Log>, all: Log, long: Log, w: nat, x: nat, p: nat)
    requires CutBackups(ts, all, long, x) && AllUnrelated(all) && Apart(ts, all) && w < |all|
    requires p < |ts| && w < |ts[p]| && forall j :: 0 <= j < p ==> |ts[j]| <= w
    ensures IsFirst(ts, all, w, p) && (FirstIsWhole(ts, all, w) <==> ts[p][w] == all[w])
  {
    hide Apart, AllUnrelated, CutBackups, Cmp;
    if w > 0 {
      InItsPlace(ts, all, long, x, p, w);
      CmpAntisymmetric(all[w - 1], ts[p][w]);
    }
  }

  /** The merge of the cut backups goes as that of the uncut ones does, as long as that one is right. */
  lemma {:induction false} MirrorFrom(rests: seq<Log>, uncut: seq<Log>, ts: seq<Log>, all: Log, long: Log,
                                      pos: seq<nat>, w: nat, last: Text, x: nat)
    requires CutBackups(ts, all, long, x) && AllUnrelated(all) && Apart(ts, all)
    requires Behind(rests, ts, pos) && Behind(uncut, Uncut(ts, all), pos) && LastIs(all, w, last)
    requires forall i :: 0 <= i < |ts| ==> pos[i] <= w
    ensures MergeFrom(rests, last, true) == all[w..]
            <==> MergeFrom(uncut, last, true) == all[w..] && forall n :: w <= n < |all| ==> FirstIsWhole(ts, all, n)
    decreases Remaining(rests)
  {
    hide CutBackups, Behind, Pick, AnyLive, Heads, Drops, AllUnrelated, Apart, FirstIsWhole, PickedWell, MergeFrom,
         SameOrder, Uncut;
    SameHeads(rests, uncut, ts, all, long, pos, x);
    SamePick(Heads(rests), Heads(uncut));
    if !AnyLive(Heads(rests)) {
      NoneWritten(rests, last);
      NoneWritten(uncut, last);
      DrainedAll(rests, ts, all, long, pos, x);
    } else {
      var p := Pick(Heads(rests));
      CutStep(rests, ts, pos, last);
      CutStep(uncut, Uncut(ts, all), pos, last);
      PickIsFirst(uncut);
      UncutAt(ts, all, long, x, p, pos[p]);
      var e, pos' := ts[p][pos[p]], pos[p := pos[p] + 1];
      SameDrops(ts, all, long, x, p, pos[p], w, last);
      if w == pos[p] + 1 {
        MirrorFrom(Advance(rests), Advance(uncut), ts, all, long, pos', w, last, x);
      } else if w < |all| {
        FirstWritten(all, w, e, MergeFrom(Advance(rests), e, true));
        FirstWritten(all, w, all[pos[p]], MergeFrom(Advance(uncut), all[pos[p]], true));
        if pos[p] == w {
          if j :| 0 <= j < p && w < |ts[j]| {
            HolderBefore(uncut, ts, all, long, pos, w, x, p, j);
          } else {
            FirstHolder(ts, all, long, w, x, p);
          }
          if e == all[w] {
            MirrorFrom(Advance(rests), Advance(uncut), ts, all, long, pos', w + 1, e, x);
            OneMore(ts, all, w);
          }
        }
      }
    }
  }

  lemma DrainedAll(rests: seq<Log>, ts: seq<Log>, all: Log, long: Log, pos: seq<nat>, x: nat)
    requires CutBackups(ts, all, long, x) && Behind(rests, ts, pos) && !AnyLive(Heads(rests))
    ensures x < |pos| && pos[x] == |all|
  {
    NoneLive(rests, x);
  }

  lemma UncutLength(ts: seq<Log>, all: Log, long: Log, x: nat, p: nat)
    requires CutBackups(ts, all, long, x) && p < |ts|
    ensures |Uncut(ts, all)| == |ts| && |Uncut(ts, all)[p]| == |ts[p]| <= |all|
  {
  }

  lemma UncutAt(ts: seq<Log>, all: Log, long: Log, x: nat, p: nat, at: nat)
    requires CutBackups(ts, all, long, x) && p < |ts| && at < |ts[p]|
    ensures at < |all| && |Uncut(ts, all)| == |ts| && |Uncut(ts, all)[p]| == |ts[p]| && Uncut(ts, all)[p][at] == all[at]
  {
  }

  lemma UncutIs(ts: seq<Log>, all: Log, long: Log, x: nat, p: nat)
    requires CutBackups(ts, all, long, x) && p < |ts|
    ensures |Uncut(ts, all)| == |ts| && Uncut(ts, all)[p] <= all && (p == x ==> Uncut(ts, all)[p] == all)
  {
    UncutLength(ts, all, long, x, p);
  }

  lemma UncutBackups(ts: seq<Log>, all: Log, long: Log, x: nat, m: nat)
    requires CutBackups(ts, all, long, x) && SecondLength(ts, x, m)
    ensures x < |ts| == |Uncut(ts, all)| && Uncut(ts, all)[x] == all
    ensures Backups(Uncut(ts, all), x) && SecondLength(Uncut(ts, all), x, m)
    ensures LatestLast(Uncut(ts, all), x, m) <==> LatestLast(ts, x, m)
  {
    hide CutBackups, Uncut;
    AllNonEmpty(ts, all, long, x);
    UncutIs(ts, all, long, x, x);
    forall i | 0 <= i < |ts|
      ensures |Uncut(ts, all)[i]| == |ts[i]| <= |all| && Uncut(ts, all)[i] <= all
    {
      UncutLength(ts, all, long, x, i);
      UncutIs(ts, all, long, x, i);
    }
    var us := Uncut(ts, all);
    assert forall i :: 0 <= i < |ts| ==> |us[i]| == |ts[i]|;
    if m > 0 {
      var i :| 0 <= i < |ts| && i != x && |ts[i]| == m;
      assert |us[i]| == m;
    }
  }

  lemma AllNonEmpty(ts: seq<Log>, all: Log, long: Log, x: nat)
    requires CutBackups(ts, all, long, x)
    ensures x < |ts| && ts[x] == all && NonEmpty(all)
  {
  }

  /**
   * A log of which no two entries agree as far as both go, and backups of it cut so that their last entries agree with
   * no other entry either: they merge into it if and only if the first that has an entry has it whole, each of those
   * that two backups have is greater than the one before, and so is the one behind them unless the most recent backup
   * is named behind the second most recent ones.
   */
  lemma CutApartCollapsesIff(ts: seq<Log>, all: Log, long: Log, x: nat, m: nat)
    requires CutBackups(ts, all, long, x) && AllUnrelated(all) && Apart(ts, all) && SecondLength(ts, x, m)
    ensures Merge(ts, true) == all
            <==> IncreaseBelow(all, if LatestLast(ts, x, m) then m else m + 1)
                 && forall n :: 0 <= n < |all| ==> FirstIsWhole(ts, all, n)
  {
    hide CutBackups, AllUnrelated, Apart, IncreaseBelow, FirstIsWhole, MergeFrom, Uncut;
    var us := Uncut(ts, all);
    UncutBackups(ts, all, long, x, m);
    StartAbreast(ts, all);
    StartAbreast(us, all);
    assert Begins(us) == Begins(ts) && all[0..] == all;
    MirrorFrom(ts, us, ts, all, long, Begins(ts), 0, [], x);
    AllAreNone(all);
    if LatestLast(ts, x, m) {
      CollapsesIff(us, x, m);
    } else {
      var y :| x < y < |ts| && |ts[y]| >= m;
      assert |us[y]| == m by { UncutLength(ts, all, long, x, y); }
      CollapsesLatestFirstIff(us, x, y, m);
    }
  }
}
