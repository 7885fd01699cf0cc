/**
 * Backups that were taken while an entry was half written: the last entry of such a file may stop early, or run on
 * into the next timestamp, which is not recognised yet. When these, too, merge into the most recent file.
 */
module LogCut {
  import opened Bytes
  import opened LogText
  import opened LogMerge
  import opened LogCollapse

  /** The entries of the log, and for each all that the log holds from its begin on. */
  ghost predicate Goes(all: Log, long: Log) {
    && |all| == |long|
    && forall k :: 0 <= k < |all| ==> all[k] != [] && all[k] <= long[k]
  }

  /** A backup has the log's entries, but for its last one, which may be shorter or longer than the log's. */
  ghost predicate CutOf(t: Log, all: Log, long: Log) {
    && |t| <= |all| == |long|
    && (forall k :: 0 <= k < |t| ==> t[k] != [] && t[k] <= long[k])
    && forall k :: 0 <= k && k + 1 < |t| ==> t[k] == all[k]
  }

  ghost predicate CutBackups(ts: seq<Log>, all: Log, long: Log, x: nat) {
    && Goes(all, long) && x < |ts| && ts[x] == all
    && forall i :: 0 <= i < |ts| ==> CutOf(ts[i], all, long)
  }

  /** The backup offers an entry in the place of entry `n` that is not dropped behind entry `n - 1`. */
  predicate Offers(t: Log, all: Log, n: nat)
    requires n < |all|
  {
    n < |t| && !(n > 0 && Drops(all[n - 1], t[n]))
  }

  /** Among the backups that offer one, the first that is named has entry `n` whole. */
  ghost predicate FirstIsWhole(ts: seq<Log>, all: Log, n: nat)
    requires n < |all|
  {
    forall i :: 0 <= i < |ts| && IsFirst(ts, all, n, i) ==> ts[i][n] == all[n]
  }

  ghost predicate IsFirst(ts: seq<Log>, all: Log, n: nat, i: nat)
    requires n < |all| && i < |ts|
  {
    Offers(ts[i], all, n) && forall j :: 0 <= j < i ==> !Offers(ts[j], all, n)
  }

  // ----- texts that agree as far as both go -----

  lemma SamePrefix(a: Text, b: Text, long: Text)
    requires a <= long && b <= long
    ensures Cmp(a, b) == 0
  {
    CmpZeroIffPrefix(a, b);
  }

  /** What agrees with `a`, and `a` is less than `b`: it is a prefix of `b`, or it is less as well. */
  lemma AgreesWithLess(h: Text, a: Text, b: Text)
    requires Cmp(a, b) < 0 && Cmp(a, h) == 0
    ensures h <= b || Cmp(h, b) < 0
  {
    CmpZeroIffPrefix(a, h);
    var d := Common(a, b);
    if d < |h| {
      CommonUnique(h, b, d);
    } else {
      assert h <= a;
    }
  }

  lemma LessThanPrefix(h: Text, b: Text, long: Text)
    requires Cmp(h, b) < 0 && b <= long
    ensures !(h <= long)
  {
    if h <= long {
      SamePrefix(h, b, long);
    }
  }

  lemma LessIsNotRelated(all: Log, j: nat, k: nat)
    requires IncreaseBelow(all, |all|) && j < k < |all|
    ensures Cmp(all[j], all[k]) < 0 && !Drops(all[j], all[k])
    decreases k - j
  {
    hide Cmp;
    if j + 1 < k {
      LessIsNotRelated(all, j, k - 1);
      CmpLessTransitive(all[j], all[k - 1], all[k]);
    }
  }

  // ----- which head is picked -----

  /** Every head is a prefix of `long`, or less than `a`, which is a prefix of it. */
  ghost predicate NoneAbove(hs: seq<Head>, a: Text, long: Text) {
    a <= long && forall j :: 0 <= j < |hs| && hs[j].At? ==> hs[j].entry <= long || Cmp(hs[j].entry, a) < 0
  }

  /** Once a head below has been found, none of the prefixes is picked any more. */
  lemma {:induction false} BelowStaysBelow(hs: seq<Head>, best: nat, i: nat, a: Text, long: Text)
    requires best < |hs| && hs[best].At? && NoneAbove(hs, a, long)
    ensures var p := LowestFrom(hs, best, i);
            hs[p].entry <= long ==> p == best
    decreases |hs| - i
  {
    hide Cmp;
    if i < |hs| {
      if hs[i].At? && Cmp(hs[i].entry, hs[best].entry) < 0 {
        BelowStaysBelow(hs, i, i + 1, a, long);
        if hs[i].entry <= long {
          LessThanPrefixOf(hs, best, i, a, long);
        }
      } else {
        BelowStaysBelow(hs, best, i + 1, a, long);
      }
    }
  }

  lemma LessThanPrefixOf(hs: seq<Head>, best: nat, i: nat, a: Text, long: Text)
    requires best < |hs| && hs[best].At? && i < |hs| && hs[i].At? && NoneAbove(hs, a, long)
    requires Cmp(hs[i].entry, hs[best].entry) < 0
    ensures !(hs[i].entry <= long)
  {
    hide Cmp;
    if hs[best].entry <= long {
      LessThanPrefix(hs[i].entry, hs[best].entry, long);
    } else {
      CmpLessTransitive(hs[i].entry, hs[best].entry, a);
      LessThanPrefix(hs[i].entry, a, long);
    }
  }

  /** A prefix is picked only if its source is the first that has an entry left at all. */
  lemma PrefixIsFirst(rests: seq<Log>, a: Text, long: Text)
    requires AnyLive(Heads(rests)) && NoneAbove(Heads(rests), a, long)
    ensures var p := Pick(Heads(rests));
            p < |rests| && rests[p] != []
            && (rests[p][0] <= long ==> forall j :: 0 <= j < p ==> rests[j] == [])
  {
    hide Cmp;
    var hs := Heads(rests);
    var k := FirstLive(hs, 0);
    BelowStaysBelow(hs, k, 1, a, long);
    var p := Pick(hs);
    assert hs[p].entry == rests[p][0];
    forall j | 0 <= j < p && rests[p][0] <= long
      ensures rests[j] == []
    {
      assert hs[j].Gone?;
    }
  }

  // ----- the merge, entry by entry -----

  ghost predicate Behind(rests: seq<Log>, ts: seq<Log>, pos: seq<nat>) {
    && |rests| == |ts| == |pos|
    && forall i :: 0 <= i < |ts| ==> pos[i] <= |ts[i]| && rests[i] == ts[i][pos[i]..]
  }

  /**
   * Where a backup stands once `w` entries are written: at the next one, or at one that will be dropped; or it is
   * drained, its last entry perhaps dropped ahead of its turn.
   */
  ghost predicate Abreast(t: Log, all: Log, at: nat, w: nat)
    requires w <= |all| && at <= |t|
  {
    if at < |t| then at == w || (at < w && Drops(all[w - 1], t[at]))
    else at <= w || (at == w + 1 && w > 0 && Drops(all[w - 1], t[w]))
  }

  ghost predicate AllAbreast(ts: seq<Log>, all: Log, pos: seq<nat>, w: nat) {
    && |pos| == |ts| && w <= |all|
    && forall i :: 0 <= i < |ts| ==> pos[i] <= |ts[i]| && Abreast(ts[i], all, pos[i], w)
  }

  /** No backup offers anything above the entry that is due. */
  lemma HeadsAbreast(rests: seq<Log>, ts: seq<Log>, all: Log, long: Log, pos: seq<nat>, w: nat, x: nat)
    requires CutBackups(ts, all, long, x) && Behind(rests, ts, pos) && AllAbreast(ts, all, pos, w)
    requires IncreaseBelow(all, |all|) && w < |all|
    ensures NoneAbove(Heads(rests), all[w], long[w])
  {
    hide Cmp;
    var hs := Heads(rests);
    forall j | 0 <= j < |hs| && hs[j].At?
      ensures hs[j].entry <= long[w] || Cmp(hs[j].entry, all[w]) < 0
    {
      var h := ts[j][pos[j]];
      assert hs[j].entry == h;
      if pos[j] < w {
        AgreesWithLess(h, all[w - 1], all[w]);
      }
    }
  }

  lemma CutStep(rests: seq<Log>, ts: seq<Log>, pos: seq<nat>, last: Text)
    requires Behind(rests, ts, pos) && AnyLive(Heads(rests))
    ensures var p := Pick(Heads(rests));
            && p < |rests| == |ts| == |pos| && pos[p] < |ts[p]| && Picked(rests) == ts[p][pos[p]]
            && Behind(Advance(rests), ts, pos[p := pos[p] + 1])
            && MergeFrom(rests, last, true)
               == (if Drops(last, ts[p][pos[p]]) then MergeFrom(Advance(rests), last, true)
                   else [ts[p][pos[p]]] + MergeFrom(Advance(rests), ts[p][pos[p]], true))
  {
    hide AnyLive, Pick, Heads, Drops;
    var p := Pick(Heads(rests));
    assert rests[p] != [] && rests[p][0] == ts[p][pos[p]];
    assert rests[p][1..] == ts[p][pos[p] + 1..];
    assert Advance(rests) == rests[p := rests[p][1..]];
  }

  /** A backup whose entry is dropped stays abreast of the others. */
  lemma DroppedKeeps(ts: seq<Log>, all: Log, long: Log, pos: seq<nat>, w: nat, x: nat, p: nat)
    requires CutBackups(ts, all, long, x) && AllAbreast(ts, all, pos, w) && IncreaseBelow(all, |all|)
    requires p < |ts| && pos[p] < |ts[p]| && w > 0 && Drops(all[w - 1], ts[p][pos[p]])
    ensures AllAbreast(ts, all, pos[p := pos[p] + 1], w)
  {
    hide Drops, IncreaseBelow;
    var t, at := ts[p], pos[p];
    if at + 1 < |t| {
      assert t[at] == all[at];
      if at + 1 < w {
        LessIsNotRelated(all, at, w - 1);
        DropsBoth(all[at], all[w - 1]);
      } else if at == w {
        LessIsNotRelated(all, w - 1, w);
      }
    }
  }

  lemma DropsBoth(a: Text, b: Text)
    ensures Drops(a, b) <==> Drops(b, a)
  {
    CmpAntisymmetric(a, b);
  }

  /** Nobody is left behind when the entry that is due is written whole. */
  lemma WrittenKeeps(rests: seq<Log>, ts: seq<Log>, all: Log, long: Log, pos: seq<nat>, w: nat, x: nat, p: nat)
    requires CutBackups(ts, all, long, x) && Behind(rests, ts, pos) && AllAbreast(ts, all, pos, w)
    requires w < |all| && NoneAbove(Heads(rests), all[w], long[w]) && PickedWell(rests, p)
    requires pos[p] == w && ts[p][w] == all[w]
    ensures AllAbreast(ts, all, pos[p := pos[p] + 1], w + 1)
  {
    hide Cmp, CutOf;
    forall i | 0 <= i < |ts| && i != p && pos[i] < |ts[i]|
      ensures Drops(all[w], ts[i][pos[i]])
    {
      var h := ts[i][pos[i]];
      assert rests[i] != [] && rests[i][0] == h && rests[p][0] == all[w];
      assert Heads(rests)[i] == At(h);
      CmpAntisymmetric(all[w], h);
      assert h != [] by { assert CutOf(ts[i], all, long); LastNotEmpty(ts[i], all, long, pos[i]); }
      SamePrefixIf(all[w], h, long[w]);
    }
  }

  lemma LastNotEmpty(t: Log, all: Log, long: Log, k: nat)
    requires CutOf(t, all, long) && k < |t|
    ensures t[k] != []
  {
  }

  lemma SamePrefixIf(a: Text, b: Text, long: Text)
    requires a <= long
    ensures b <= long ==> Cmp(a, b) == 0
  {
    if b <= long {
      SamePrefix(a, b, long);
    }
  }

  /** Who writes the entry that is due is the first that offers one. */
  lemma WriterIsFirst(rests: seq<Log>, ts: seq<Log>, all: Log, pos: seq<nat>, w: nat, p: nat)
    requires Behind(rests, ts, pos) && AllAbreast(ts, all, pos, w) && w < |all|
    requires p < |ts| && pos[p] == w < |ts[p]| && (w > 0 ==> !Drops(all[w - 1], ts[p][w]))
    requires forall j :: 0 <= j < p ==> rests[j] == []
    ensures IsFirst(ts, all, w, p)
    ensures FirstIsWhole(ts, all, w) <==> ts[p][w] == all[w]
  {
    hide Drops;
    forall j | 0 <= j < p
      ensures !Offers(ts[j], all, w)
    {
      assert rests[j] == ts[j][pos[j]..] && Abreast(ts[j], all, pos[j], w);
    }
  }

  lemma AllWritten(rests: seq<Log>, ts: seq<Log>, all: Log, long: Log, pos: seq<nat>, w: nat, x: nat)
    requires CutBackups(ts, all, long, x) && Behind(rests, ts, pos) && AllAbreast(ts, all, pos, w)
    requires IncreaseBelow(all, |all|) && !AnyLive(Heads(rests))
    ensures w == |all|
  {
    hide Drops, IncreaseBelow;
    NoneLive(rests, x);
    assert Abreast(ts[x], all, pos[x], w);
    if 0 < w < |all| {
      LessIsNotRelated(all, w - 1, w);
    }
  }

  /** What is still to be written is right if and only if each entry that is due is offered whole by the first. */
  lemma {:induction false} CutFrom(rests: seq<Log>, ts: seq<Log>, all: Log, long: Log, pos: seq<nat>, w: nat,
                                   last: Text, x: nat)
    requires CutBackups(ts, all, long, x) && Behind(rests, ts, pos) && AllAbreast(ts, all, pos, w)
    requires IncreaseBelow(all, |all|) && LastIs(all, w, last)
    ensures MergeFrom(rests, last, true) == all[w..]
            <==> forall n :: w <= n < |all| ==> FirstIsWhole(ts, all, n)
    decreases Remaining(rests)
  {
    hide CutBackups, Behind, Pick, AnyLive, Heads, Drops, IncreaseBelow, FirstIsWhole, NoneAbove, PickedWell, MergeFrom;
    if !AnyLive(Heads(rests)) {
      AllWritten(rests, ts, all, long, pos, w, x);
      NoneWritten(rests, last);
    } else {
      var p := Pick(Heads(rests));
      CutStep(rests, ts, pos, last);
      PickIsFirst(rests);
      var e, pos' := ts[p][pos[p]], pos[p := pos[p] + 1];
      assert Abreast(ts[p], all, pos[p], w);
      if Drops(last, e) {
        NothingDropsEmpty(last, e);
        DroppedKeeps(ts, all, long, pos, w, x, p);
        CutFrom(Advance(rests), ts, all, long, pos', w, last, x);
      } else {
        WithinAll(ts, all, long, x, p);
        HeadsAbreast(rests, ts, all, long, pos, w, x);
        PrefixIsFirst(rests, all[w], long[w]);
        PrefixOfLong(ts, all, long, x, p, w);
        HeadIs(rests, ts, pos, p);
        WriterIsFirst(rests, ts, all, pos, w, p);
        FirstWritten(all, w, e, MergeFrom(Advance(rests), e, true));
        if e == all[w] {
          WrittenKeeps(rests, ts, all, long, pos, w, x, p);
          CutFrom(Advance(rests), ts, all, long, pos', w + 1, e, x);
          OneMore(ts, all, w);
        }
      }
    }
  }

  lemma NoneWritten(rests: seq<Log>, last: Text)
    requires !AnyLive(Heads(rests))
    ensures MergeFrom(rests, last, true) == []
  {
  }

  lemma NothingDropsEmpty(last: Text, e: Text)
    requires Drops(last, e)
    ensures last != []
  {
  }

  lemma WithinAll(ts: seq<Log>, all: Log, long: Log, x: nat, p: nat)
    requires CutBackups(ts, all, long, x) && p < |ts|
    ensures |ts[p]| <= |all| == |long|
  {
  }

  lemma PrefixOfLong(ts: seq<Log>, all: Log, long: Log, x: nat, p: nat, w: nat)
    requires CutBackups(ts, all, long, x) && p < |ts| && w < |ts[p]|
    ensures w < |all| == |long| && ts[p][w] <= long[w]
  {
  }

  lemma HeadIs(rests: seq<Log>, ts: seq<Log>, pos: seq<nat>, p: nat)
    requires Behind(rests, ts, pos) && p < |ts| && pos[p] < |ts[p]|
    ensures p < |rests| && rests[p] != [] && rests[p][0] == ts[p][pos[p]]
  {
  }

  lemma FirstWritten(all: Log, w: nat, e: Text, tail: Log)
    requires w < |all|
    ensures [e] + tail == all[w..] <==> e == all[w] && tail == all[w + 1..]
  {
    assert all[w..] == [all[w]] + all[w + 1..];
    if [e] + tail == all[w..] {
      WrittenNext(all, w, e, tail);
    }
  }

  lemma OneMore(ts: seq<Log>, all: Log, w: nat)
    requires w < |all|
    ensures (forall n :: w <= n < |all| ==> FirstIsWhole(ts, all, n))
       <==> FirstIsWhole(ts, all, w) && (forall n :: w + 1 <= n < |all| ==> FirstIsWhole(ts, all, n))
  {
    hide FirstIsWhole;
  }

  lemma StartAbreast(ts: seq<Log>, all: Log)
    ensures Behind(ts, ts, Begins(ts)) && AllAbreast(ts, all, Begins(ts), 0)
  {
  }

  /**
   * Any number of backups of a log whose entries strictly increase, cut wherever and named in any order: they merge
   * into it if and only if, for each of its entries, the first backup that offers one in its place has it whole.
   */
  lemma CutCollapsesIff(ts: seq<Log>, all: Log, long: Log, x: nat)
    requires CutBackups(ts, all, long, x) && IncreaseBelow(all, |all|)
    ensures Merge(ts, true) == all <==> forall n :: 0 <= n < |all| ==> FirstIsWhole(ts, all, n)
  {
    hide CutBackups, IncreaseBelow, FirstIsWhole, MergeFrom;
    StartAbreast(ts, all);
    CutFrom(ts, ts, all, long, Begins(ts), 0, [], x);
    assert all[0..] == all;
  }

  /** With the most recent one named first they always do. */
  lemma LatestFirstCollapses(ts: seq<Log>, all: Log, long: Log)
    requires CutBackups(ts, all, long, 0) && IncreaseBelow(all, |all|)
    ensures Merge(ts, true) == all
  {
    hide Merge, IncreaseBelow;
    CutCollapsesIff(ts, all, long, 0);
    forall n | 0 <= n < |all|
      ensures FirstIsWhole(ts, all, n)
    {
      if n > 0 { LessIsNotRelated(all, n - 1, n); }
      assert Offers(ts[0], all, n);
    }
  }
}
