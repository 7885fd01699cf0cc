/**
 * Several backups of one growing log file, taken at any moment: files of octets each of which the latest one continues.
 * When LogMerge makes the latest one of them, stated of finished runs.
 */
module LogBackups {
  import opened Bytes
  import opened LogText
  import opened LogMerge
  import opened LogCollapse
  import opened LogCut
  import opened LogUncut
  import opened LogPair
  import opened LogOctets
  import opened LogOutput
  import opened LogBarrier
  import opened LogRuns
  import opened LogAgain

  lemma FilesAreCut(files: seq<Text>, x: nat)
    requires OctetBackups(files, x)
    ensures CutBackups(AllEntries(files), Entries(files[x]), TailsFrom(files[x], 0), x)
  {
    hide CutOf, Goes, EntriesFrom, TailsFrom;
    EntriesGo(files[x], 0);
    forall i | 0 <= i < |files|
      ensures CutOf(AllEntries(files)[i], Entries(files[x]), TailsFrom(files[x], 0))
    {
      EntriesOfPrefix(files[i], files[x], 0);
    }
  }

  /**
   * Named in whatever order, and cut inside an entry or not: if the entries of the latest file strictly increase, the
   * others merge into it if and only if, for each of its entries, the first file that offers one in its place, that is
   * one which does not just agree with the entry before, has it whole.
   */
  lemma OctetBackupsCollapseIff(cfg: Config, steps: seq<Step>, end: State, x: nat)
    requires Complete(cfg, steps, end) && cfg.dedupe && OctetBackups(cfg.files, x)
    requires IncreaseBelow(Entries(cfg.files[x]), |Entries(cfg.files[x])|)
    ensures var all := Entries(cfg.files[x]);
            end.written == all <==> forall n :: 0 <= n < |all| ==> FirstIsWhole(AllEntries(cfg.files), all, n)
  {
    hide Complete, OctetBackups, Entries, Merge, IncreaseBelow, FirstIsWhole;
    CompleteMerges(cfg, steps, end);
    FilesAreCut(cfg.files, x);
    CutCollapsesIff(AllEntries(cfg.files), Entries(cfg.files[x]), TailsFrom(cfg.files[x], 0), x);
  }

  lemma CompleteMerges(cfg: Config, steps: seq<Step>, end: State)
    requires Complete(cfg, steps, end)
    ensures end.written == Merge(AllEntries(cfg.files), cfg.dedupe)
  {
    EveryRunMerges(cfg, steps, end);
  }

  /** Named first, the latest file always comes out. */
  lemma LatestFileFirst(cfg: Config, steps: seq<Step>, end: State)
    requires Complete(cfg, steps, end) && cfg.dedupe && OctetBackups(cfg.files, 0)
    requires IncreaseBelow(Entries(cfg.files[0]), |Entries(cfg.files[0])|)
    ensures end.written == Entries(cfg.files[0])
  {
    hide Complete, OctetBackups, Entries, Merge, IncreaseBelow;
    CompleteMerges(cfg, steps, end);
    FilesAreCut(cfg.files, 0);
    LatestFirstCollapses(AllEntries(cfg.files), Entries(cfg.files[0]), TailsFrom(cfg.files[0], 0));
  }

  /** A file into which all its backups, whenever taken, merge if it is named first: exactly if its entries increase. */
  lemma LatestFirstAlwaysIff(f: Text)
    ensures (forall files: seq<Text> :: OctetBackups(files, 0) && files[0] == f ==>
               Merge(AllEntries(files), true) == Entries(f))
            <==> IncreaseBelow(Entries(f), |Entries(f)|)
  {
    hide Entries, Merge, IncreaseBelow;
    if IncreaseBelow(Entries(f), |Entries(f)|) {
      forall files: seq<Text> | OctetBackups(files, 0) && files[0] == f
        ensures Merge(AllEntries(files), true) == Entries(f)
      {
        FilesAreCut(files, 0);
        LatestFirstCollapses(AllEntries(files), Entries(f), TailsFrom(f, 0));
      }
    }
    if forall files: seq<Text> :: OctetBackups(files, 0) && files[0] == f ==>
         Merge(AllEntries(files), true) == Entries(f) {
      assert OctetBackups([f, f], 0) && [f, f][0] == f;
      TwiceNeedsIncrease(f);
    }
  }

  lemma TwiceNeedsIncrease(f: Text)
    requires Merge(AllEntries([f, f]), true) == Entries(f)
    ensures IncreaseBelow(Entries(f), |Entries(f)|)
  {
    hide Merge, IncreaseBelow, EntriesFrom;
    EntryLengths(f, 0);
    var all := Entries(f);
    var twice: seq<Log> := [all, all];
    assert AllEntries([f, f]) == twice;
    assert twice[0] == all && |twice[0]| == |all|;
    CollapsesIff(twice, 1, |all|);
  }

  /**
   * A log whose entries need not increase, of which no two agree as far as both go, and backups of it whose last
   * entries agree with no other one: the exact condition in any order. `m` is how many the second longest has.
   */
  lemma OctetBackupsApartIff(cfg: Config, steps: seq<Step>, end: State, x: nat, m: nat)
    requires Complete(cfg, steps, end) && cfg.dedupe && OctetBackups(cfg.files, x)
    requires AllUnrelated(Entries(cfg.files[x])) && Apart(AllEntries(cfg.files), Entries(cfg.files[x]))
    requires SecondLength(AllEntries(cfg.files), x, m)
    ensures var all, logs := Entries(cfg.files[x]), AllEntries(cfg.files);
            end.written == all
            <==> IncreaseBelow(all, if LatestLast(logs, x, m) then m else m + 1)
                 && forall n :: 0 <= n < |all| ==> FirstIsWhole(logs, all, n)
  {
    hide Complete, Entries, Merge, IncreaseBelow, FirstIsWhole, AllUnrelated, Apart, SecondLength, LatestLast;
    CompleteMerges(cfg, steps, end);
    FilesAreCut(cfg.files, x);
    CutApartCollapsesIff(AllEntries(cfg.files), Entries(cfg.files[x]), TailsFrom(cfg.files[x], 0), x, m);
  }

  /** Two files, whatever they are: the first one comes out if and only if it swallows the entries of the other. */
  lemma FirstFileComesOutIff(cfg: Config, steps: seq<Step>, end: State, f: Text, g: Text)
    requires cfg == Config([f, g], true) && Complete(cfg, steps, end)
    ensures end.written == Entries(f) <==> NoneRelated(Entries(f)) && Swallowed(Entries(f), Entries(g), 0)
  {
    hide Complete, Entries, Merge, NoneRelated, Swallowed;
    CompleteMerges(cfg, steps, end);
    assert AllEntries(cfg.files) == [Entries(f), Entries(g)];
    FirstComesOutIff(Entries(f), Entries(g));
  }

  // ----- a backup taken too early, named first -----

  lemma TwoLinesStand(k: Text, c: Byte, d: Byte)
    requires |k| == 20 && IsStamp(k) && LF !in k && c != LF && d != LF
    ensures Stands(k + [c, LF, d])
  {
    hide IsStamp;
    var f := k + [c, LF, d] + [LF];
    assert f[0..20] == k;
    assert |f| == 24;
  }

  lemma OneEntryRead(e: Text)
    requires Stands(e) && |e| >= 20 && 0 !in e
    ensures Entries(e + [LF]) == [e]
  {
    hide Stands, Entries;
    RenderedWholeIff([e]);
    ReadBack([e]);
    assert Joined([e]) == e + [LF];
  }

  /**
   * An entry of two lines, and a backup taken when only the first of them was written; both files end in a line feed.
   * With the backup named first the second line is lost, with the latest file named first it is not.
   */
  lemma SecondLineIsLost(k: Text, cfg: Config, steps: seq<Step>, end: State)
    requires |k| == 20 && IsStamp(k) && LF !in k && 0 !in k
    requires var early, late := k + [65] + [LF], k + [65, LF, 66] + [LF];
             (cfg == Config([early, late], true) || cfg == Config([late, early], true)) && Complete(cfg, steps, end)
    ensures forall i :: 0 <= i < 2 ==> cfg.files[i] <= k + [65, LF, 66] + [LF]
    ensures end.written == if |cfg.files[0]| < |cfg.files[1]| then [k + [65]] else [k + [65, LF, 66]]
  {
    hide Complete, IsStamp, Stands, Merge, Entries;
    var t: Text, full: Text := k + [65], k + [65, LF, 66];
    OneLineStands(k, [65]);
    TwoLinesStand(k, 65, 66);
    OneEntryRead(t);
    OneEntryRead(full);
    CompleteMerges(cfg, steps, end);
    ShorterFirstWins(t, full);
    if cfg.files[0] == t + [LF] {
      assert AllEntries(cfg.files) == [[t], [full]];
    } else {
      assert AllEntries(cfg.files) == [[full], [t]];
    }
  }
}
