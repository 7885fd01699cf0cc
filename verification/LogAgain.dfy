/** The output of LogMerge is a log file again: read back it has the entries written, and merged alone it stays. */
module LogAgain {
  import opened Bytes
  import opened LogText
  import opened LogLines
  import opened LogMerge
  import opened LogCollapse
  import opened LogOutput
  import opened LogBarrier
  import opened LogRuns

  /** A text that stands for itself: with a line feed behind it, it begins with a stamp and no other line does. */
  ghost predicate Stands(e: Text) {
    && |e| >= 19 && LineStart(e + [LF], 0)
    && forall r :: 0 < r <= |e| ==> !LineStart(e + [LF], r)
  }

  /** The file is split as its user means it. */
  predicate MeantSplit(t: Text) {
    LinesFrom(t, 0) == [] || (EndsInLf(t) && !BareLastLine(t))
  }

  lemma SliceOfSlice(t: Text, p: nat, q: nat, r: nat, n: nat)
    requires p + r + n <= q <= |t|
    ensures t[p..q][r..r + n] == t[p + r..p + r + n]
  {
    var whole, a, b := t[p..q], t[p..q][r..r + n], t[p + r..p + r + n];
    forall k | 0 <= k < n
      ensures a[k] == b[k]
    {
      assert a[k] == whole[r + k];
    }
    assert a == b;
  }

  lemma LineInside(t: Text, f: Text, p: nat, q: nat, r: nat)
    requires p < q <= |t| && f == t[p..q] && r < |f| && (p == 0 || t[p - 1] == LF)
    ensures LineStart(f, r) <==> p + r + 20 <= q && LineStart(t, p + r)
  {
    hide IsStamp;
    if p + r + 20 <= q {
      SliceOfSlice(t, p, q, r, 20);
    }
  }

  lemma LineIsStart(t: Text, p: nat)
    ensures Start(t, p) <==> LineStart(t, p) && p + 21 <= |t|
  {
  }

  /** An entry of a file that is split as meant stands for itself. */
  lemma EntryStands(t: Text, p: nat)
    requires EndsInLf(t) && !BareLastLine(t) && p < |t| && Start(t, p)
    ensures var q := NextStart(t, p + 1);
            p < q && Stands(t[p..q - 1]) && t[p..q - 1] + [LF] == t[p..q]
  {
    hide IsStamp, NextStart;
    var q := NextStart(t, p + 1);
    var e := t[p..q - 1];
    StartsApart(t, p, q);
    assert t[q - 1] == LF;
    assert e + [LF] == t[p..q];
    LineInside(t, e + [LF], p, q, 0);
    LineIsStart(t, p);
    hide LineStart, Start;
    forall r | 0 < r <= |e|
      ensures !LineStart(e + [LF], r)
    {
      LineInside(t, e + [LF], p, q, r);
      NextStartLeast(t, p + 1, q);
      LineIsStart(t, p + r);
    }
  }

  lemma {:induction false} EntriesStand(t: Text, i: nat)
    requires EndsInLf(t) && !BareLastLine(t) && i <= |t|
    ensures forall e :: e in EntriesFrom(t, i) ==> Stands(e)
    decreases |t| - i
  {
    hide Stands, Hit, Start, NextStart, BareLastLine;
    var p := NextStart(t, i);
    if p < |t| {
      EntryStands(t, p);
      EntriesStand(t, NextStart(t, p + 1));
    }
  }

  lemma FileStands(t: Text)
    requires MeantSplit(t)
    ensures forall e :: e in Entries(t) ==> Stands(e)
  {
    hide Stands, BareLastLine;
    if LinesFrom(t, 0) == [] {
      SplitsAsMeantIff(t);
    } else {
      EntriesStand(t, 0);
    }
  }

  // ----- reading back -----

  lemma {:induction false} JoinedCons(e: Text, log: Log)
    ensures Joined([e] + log) == e + [LF] + Joined(log)
  {
    var all := [e] + log;
    if log == [] {
      assert all[..0] == [];
    } else {
      var n := |log| - 1;
      JoinedCons(e, log[..n]);
      assert all[..|all| - 1] == [e] + log[..n] && all[|all| - 1] == log[n];
      hide Joined;
      var x, y, z := e + [LF], Joined(log[..n]), log[n];
      assert x + y + z + [LF] == x + (y + z + [LF]);
    }
  }

  /** The entry `e` is in `t` at `p`, behind a line feed and followed by one, and then by the end or a stamp. */
  ghost predicate Sits(t: Text, p: nat, e: Text) {
    var q := p + |e| + 1;
    && q <= |t| && t[p..q] == e + [LF] && (p == 0 || t[p - 1] == LF) && Stands(e)
    && (if q == |t| then |e| >= 20 else Start(t, q))
  }

  lemma StartOctets(t: Text, p: nat)
    requires Start(t, p)
    ensures p + 21 <= |t| && forall i :: p <= i < p + 19 ==> t[i] != LF
  {
    StampOctets(t, p);
  }

  lemma SitsMeans(t: Text, p: nat, e: Text)
    requires Sits(t, p, e)
    ensures Start(t, p) && p + |e| + 1 <= |t| && NextStart(t, p + 1) == p + |e| + 1
  {
    hide IsStamp, NextStart;
    var q := p + |e| + 1;
    var f := e + [LF];
    assert |f| == |e| + 1;
    LineInside(t, f, p, q, 0);
    if q < |t| { StartHasRoom(t, q); }
    LineIsStart(t, p);
    assert t[q - 1] == LF by { assert f[|e|] == LF && t[p..q][|e|] == t[q - 1]; }
    hide Start, LineStart;
    forall k | p + 1 <= k < q
      ensures !Start(t, k)
    {
      LineInside(t, f, p, q, k - p);
      LineIsStart(t, k);
      if k + 20 > q && Start(t, k) {
        StartOctets(t, k);
      }
    }
    NextStartLeast(t, p + 1, q);
  }

  lemma NowSits(t: Text, p: nat, e: Text)
    requires p + |e| + 1 <= |t| && t[p..p + |e| + 1] == e + [LF] && (p == 0 || t[p - 1] == LF) && Stands(e)
    requires if p + |e| + 1 == |t| then |e| >= 20 else Start(t, p + |e| + 1)
    ensures Sits(t, p, e)
  {
  }

  lemma NoneBehind(t: Text)
    ensures EntriesFrom(t, |t|) == []
  {
  }

  /** One entry is read. */
  lemma OneRead(t: Text, p: nat, e: Text)
    requires Sits(t, p, e)
    ensures Start(t, p) && p + |e| + 1 <= |t| && EntriesFrom(t, p) == [e] + EntriesFrom(t, p + |e| + 1)
  {
    hide Stands, NextStart, Start;
    SitsMeans(t, p, e);
    StartFound(t, p);
    EntryIn(t, p, e);
  }

  lemma EntryIn(t: Text, p: nat, e: Text)
    requires p + |e| + 1 <= |t| && t[p..p + |e| + 1] == e + [LF]
    ensures t[p..p + |e|] == e
  {
    SliceOfSlice(t, p, p + |e| + 1, 0, |e|);
    assert (e + [LF])[0..|e|] == e;
  }

  lemma {:induction false} ReadBackFrom(t: Text, p: nat, log: Log)
    requires p <= |t| && t[p..] == Joined(log) && (p == 0 || t[p - 1] == LF)
    requires forall e :: e in log ==> Stands(e)
    requires log != [] ==> |log[|log| - 1]| >= 20
    ensures EntriesFrom(t, p) == log
    ensures log != [] ==> Start(t, p)
    decreases |log|
  {
    hide Stands, Start, Sits, EntriesFrom;
    if log == [] {
      NoneBehind(t);
    } else {
      var e, rest := log[0], log[1..];
      assert log == [e] + rest && e in log;
      JoinedCons(e, rest);
      Shift(t, p, e, Joined(rest));
      JoinedEmptyIff(rest);
      hide Joined;
      ReadBackFrom(t, p + |e| + 1, rest);
      NowSits(t, p, e);
      OneRead(t, p, e);
    }
  }

  lemma StartFound(t: Text, p: nat)
    requires p < |t| && Start(t, p)
    ensures NextStart(t, p) == p
  {
  }

  lemma Shift(t: Text, p: nat, e: Text, tail: Text)
    requires p <= |t| && t[p..] == e + [LF] + tail
    ensures var q := p + |e| + 1;
            q <= |t| && t[p..q] == e + [LF] && t[q..] == tail && t[q - 1] == LF
  {
    var q := p + |e| + 1;
    assert |t[p..]| == |e| + 1 + |tail|;
    assert t[p..q] == t[p..][..|e| + 1] && t[q..] == t[p..][|e| + 1..];
    assert t[p..][|e|] == LF;
  }

  lemma JoinedEmptyIff(log: Log)
    ensures Joined(log) == [] <==> log == []
  {
  }

  /** Entries that stand for themselves are read back from what was printed of them, unless the last is a bare stamp. */
  lemma ReadBack(log: Log)
    requires NulFree(log) && forall e :: e in log ==> Stands(e)
    requires log != [] ==> |log[|log| - 1]| >= 20
    ensures Entries(Rendered(log)) == log
  {
    hide Stands;
    RenderedWholeIff(log);
    ReadBackFrom(Joined(log), 0, log);
  }

  lemma MergeStands(rests: seq<Log>, dedupe: bool)
    requires forall i :: 0 <= i < |rests| ==> NulFree(rests[i]) && forall e :: e in rests[i] ==> Stands(e)
    ensures NulFree(Merge(rests, dedupe)) && forall e :: e in Merge(rests, dedupe) ==> Stands(e)
  {
    hide Stands;
    forall e | e in Merge(rests, dedupe)
      ensures 0 !in e && Stands(e)
    {
      OutputFromSources(rests, [], dedupe, e);
    }
  }

  /**
   * LogMerge leaves its own output as it is: files that are split as meant and hold no NUL are merged, and what reached
   * stdout is then given to it as the only file. (A last entry that is a bare timestamp would be lost.)
   */
  lemma MergedAgain(cfg: Config, steps: seq<Step>, end: State, again: Config, steps': seq<Step>, end': State)
    requires Complete(cfg, steps, end) && cfg.dedupe
    requires forall i :: 0 <= i < |cfg.files| ==> MeantSplit(cfg.files[i]) && NulFree(Entries(cfg.files[i]))
    requires end.written != [] ==> |end.written[|end.written| - 1]| >= 20
    requires again == Config([Rendered(end.written)], true) && Complete(again, steps', end')
    ensures end'.written == end.written && Rendered(end'.written) == again.files[0]
  {
    hide Stands, MeantSplit, Executes;
    var logs := AllEntries(cfg.files);
    forall i | 0 <= i < |logs|
      ensures NulFree(logs[i]) && forall e :: e in logs[i] ==> Stands(e)
    {
      FileStands(cfg.files[i]);
    }
    EveryRunMerges(cfg, steps, end);
    MergeStands(logs, true);
    ReadBack(end.written);
    NeighboursUnrelated(logs, []);
    TailUnrelated([], end.written);
    SingleFileIff(again, steps', end', Rendered(end.written));
  }

  // ----- a file that comes out twice -----

  lemma OneLineStands(k: Text, text: Text)
    requires |k| == 20 && IsStamp(k) && LF !in k && LF !in text
    ensures Stands(k + text)
  {
    hide IsStamp;
    var f := k + text + [LF];
    assert f[0..20] == k;
    assert forall i :: 0 <= i < |k + text| ==> f[i] == (k + text)[i] != LF;
  }

  lemma TwoReadBack(b: Text, a: Text)
    requires Stands(b) && Stands(a) && |a| >= 20 && 0 !in b && 0 !in a
    ensures Entries(Joined([b, a])) == [b, a]
  {
    hide Stands, Entries;
    RenderedWholeIff([b, a]);
    ReadBack([b, a]);
  }

  lemma TwoComeOutTwice(b: Text, a: Text)
    requires a != [] && Cmp(a, b) < 0
    ensures Merge([[b, a], [b, a]], true) == [b, a] + [b, a]
  {
    EqualFilesComeOutTwice(b, a);
    hide Merge, Cmp;
    assert [b] + [a] == [b, a];
    assert [b] + ([a] + ([b] + [a])) == [b, a] + [b, a];
  }

  /**
   * Two entries of one second that are not in the order of their text: a file of them, given twice, comes out twice,
   * although dedupe is on.
   */
  lemma SameFileTwice(k: Text, cfg: Config, steps: seq<Step>, end: State)
    requires |k| == 20 && IsStamp(k) && LF !in k && 0 !in k
    requires var file := Joined([k + [66], k + [65]]);
             cfg == Config([file, file], true) && Complete(cfg, steps, end)
    ensures Entries(cfg.files[0]) == [k + [66], k + [65]]
    ensures end.written == Entries(cfg.files[0]) + Entries(cfg.files[0])
  {
    hide Executes, IsStamp, Stands, Merge, Entries, Joined, Cmp, Quiescent;
    var b: Text, a: Text := k + [66], k + [65];
    OneLineStands(k, [66]);
    OneLineStands(k, [65]);
    TwoReadBack(b, a);
    OneOctetApart(k, 65, 66);
    TwoComeOutTwice(b, a);
    EveryRunMerges(cfg, steps, end);
    assert AllEntries(cfg.files) == [[b, a], [b, a]];
  }
}
