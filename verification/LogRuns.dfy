/** What LogMerge promises its user, stated of finished runs and of the files given to it. */
module LogRuns {
  import opened LogText
  import opened LogMerge
  import opened LogCollapse
  import opened LogOutput
  import opened LogBarrier

  /** A run from the initial state that has come to rest and has not given up for want of buffer space. */
  ghost predicate Complete(cfg: Config, steps: seq<Step>, end: State) {
    Executes(cfg, Initial(cfg), steps, end) && Quiescent(end) && end.exit == 0
  }

  /**
   * With `--no-dedupe` every entry of every file is written exactly once, in the order of its file. On stdout they are
   * as they were exactly if no entry of any file holds a NUL octet.
   */
  lemma NothingLostWithoutDedupe(cfg: Config, steps: seq<Step>, end: State)
    requires Complete(cfg, steps, end) && !cfg.dedupe
    ensures var order := Order(AllEntries(cfg.files));
            && |order| == |end.written|
            && (forall k :: k in order ==> k < |cfg.files|)
            && forall i :: 0 <= i < |cfg.files| ==> From(order, end.written, i) == Entries(cfg.files[i])
    ensures Rendered(end.written) == Joined(end.written)
            <==> forall i :: 0 <= i < |cfg.files| ==> NulFree(Entries(cfg.files[i]))
  {
    EveryRunMerges(cfg, steps, end);
    MergeInterleaves(AllEntries(cfg.files), []);
    MergeNulFreeIff(AllEntries(cfg.files));
    RenderedWholeIff(end.written);
  }

  /**
   * With dedupe exactly those entries of that interleaving are dropped that agree, as far as both go, with the entry
   * written last. That need not be a repetition: one entry may merely go on where the other ends.
   */
  lemma OnlyRelatedDropped(cfg: Config, steps: seq<Step>, end: State, kept: seq<bool>)
    requires Complete(cfg, steps, end) && cfg.dedupe
    requires KeepsRight([], Merge(AllEntries(cfg.files), false), kept)
    ensures end.written == Select(Merge(AllEntries(cfg.files), false), kept)
    ensures NoneRelated(end.written)
  {
    var logs := AllEntries(cfg.files);
    EveryRunMerges(cfg, steps, end);
    DedupeDropsExactly(logs, [], [], kept);
    NeighboursUnrelated(logs, []);
    TailUnrelated([], end.written);
  }

  /** Files sorted by timestamp give an output sorted by timestamp. */
  lemma OutputSorted(cfg: Config, steps: seq<Step>, end: State)
    requires Complete(cfg, steps, end)
    requires forall i :: 0 <= i < |cfg.files| ==> Sorted(Entries(cfg.files[i]))
    ensures Sorted(end.written)
  {
    var logs := AllEntries(cfg.files);
    EveryRunMerges(cfg, steps, end);
    forall i | 0 <= i < |logs|
      ensures Sorted(logs[i]) && Stamped(logs[i])
    {
      EntryLengths(cfg.files[i], 0);
    }
    MergeSorts(logs, [], cfg.dedupe);
  }

  /** All files are backups of the log in file `x`, and `m` is the length of the longest of the others. */
  ghost predicate BackupFiles(cfg: Config, x: nat, m: nat) {
    && x < |cfg.files|
    && (forall i :: 0 <= i < |cfg.files| ==> Entries(cfg.files[i]) <= Entries(cfg.files[x]))
    && SecondLength(AllEntries(cfg.files), x, m)
  }

  lemma BackupFilesAreBackups(cfg: Config, x: nat, m: nat)
    requires BackupFiles(cfg, x, m)
    ensures Backups(AllEntries(cfg.files), x) && AllEntries(cfg.files)[x] == Entries(cfg.files[x])
  {
    hide SecondLength;
    EntryLengths(cfg.files[x], 0);
  }

  /**
   * Backups of one growing log, the most recent one named behind the second most recent ones or not alone: they merge
   * into it exactly if no two neighbours in it agree as far as both go, and the entries held twice strictly increase.
   */
  lemma BackupsCollapseIff(cfg: Config, steps: seq<Step>, end: State, x: nat, m: nat)
    requires Complete(cfg, steps, end) && cfg.dedupe
    requires BackupFiles(cfg, x, m) && LatestLast(AllEntries(cfg.files), x, m)
    ensures end.written == Entries(cfg.files[x])
            <==> NoneRelated(Entries(cfg.files[x])) && IncreaseBelow(Entries(cfg.files[x]), m)
  {
    EveryRunMerges(cfg, steps, end);
    BackupFilesAreBackups(cfg, x, m);
    CollapsesIff(AllEntries(cfg.files), x, m);
  }

  /** Named in any order they do so if the first entry that only the most recent one holds is greater as well. */
  lemma BackupsCollapseInAnyOrder(cfg: Config, steps: seq<Step>, end: State, x: nat, m: nat)
    requires Complete(cfg, steps, end) && cfg.dedupe
    requires BackupFiles(cfg, x, m)
    requires NoneRelated(Entries(cfg.files[x])) && IncreaseBelow(Entries(cfg.files[x]), m + 1)
    ensures end.written == Entries(cfg.files[x])
  {
    EveryRunMerges(cfg, steps, end);
    BackupFilesAreBackups(cfg, x, m);
    CollapsesInAnyOrder(AllEntries(cfg.files), x, m);
  }

  /** Named before a second most recent one, and no two entries related: exactly then do they. */
  lemma BackupsLatestFirstIff(cfg: Config, steps: seq<Step>, end: State, x: nat, y: nat, m: nat)
    requires Complete(cfg, steps, end) && cfg.dedupe
    requires BackupFiles(cfg, x, m) && AllUnrelated(Entries(cfg.files[x]))
    requires x < y < |cfg.files| && |Entries(cfg.files[y])| == m
    ensures end.written == Entries(cfg.files[x]) <==> IncreaseBelow(Entries(cfg.files[x]), m + 1)
  {
    EveryRunMerges(cfg, steps, end);
    BackupFilesAreBackups(cfg, x, m);
    CollapsesLatestFirstIff(AllEntries(cfg.files), x, y, m);
  }

  /** A single file comes out as it is exactly if no entry agrees with its neighbour as far as both go. */
  lemma SingleFileIff(cfg: Config, steps: seq<Step>, end: State, file: Text)
    requires Complete(cfg, steps, end) && cfg == Config([file], true)
    ensures end.written == Entries(file) <==> NoneRelated(Entries(file))
  {
    EveryRunMerges(cfg, steps, end);
    EntryLengths(file, 0);
    assert AllEntries(cfg.files) == [Entries(file)];
    SingleFileKeptIff(Entries(file));
  }
}
