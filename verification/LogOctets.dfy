/**
 * A backup is a file of which a later one is a continuation, octet by octet: what the entries of the two have to do
 * with each other, and when such files merge into the most recent of them.
 */
module LogOctets {
  import opened LogText
  import opened LogMerge
  import opened LogCut

  /** What the file holds from the begin of each entry on. */
  function TailsFrom(f: Text, i: nat): Log
    requires i <= |f|
    decreases |f| - i
  {
    var p := NextStart(f, i);
    if p == |f| then [] else [f[p..]] + TailsFrom(f, NextStart(f, p + 1))
  }

  lemma {:induction false} EntriesGo(f: Text, i: nat)
    requires i <= |f|
    ensures Goes(EntriesFrom(f, i), TailsFrom(f, i))
    decreases |f| - i
  {
    hide IsStamp, Start, NextStart;
    var p := NextStart(f, i);
    if p < |f| {
      var q := NextStart(f, p + 1);
      NextStartsApart(f, p);
      EntriesGo(f, q);
      assert f[p..q - 1] <= f[p..];
    }
  }

  lemma NextStartsApart(f: Text, p: nat)
    requires p < |f| && Start(f, p)
    ensures NextStart(f, p + 1) >= p + 20
  {
    StartsApart(f, p, NextStart(f, p + 1));
  }

  /** Where the shorter file has room for a timestamp, both have it. */
  lemma StartInPrefix(t: Text, f: Text, p: nat)
    requires t <= f && p + 21 <= |t|
    ensures Start(t, p) <==> Start(f, p)
  {
    assert t[p..p + 20] == f[p..p + 20];
  }

  /** What the shorter file recognises the longer one does as well. */
  lemma {:induction false} NextInPrefix(t: Text, f: Text, i: nat)
    requires t <= f && i <= |t|
    ensures NextStart(t, i) < |t| ==> NextStart(f, i) == NextStart(t, i)
    decreases |t| - i
  {
    hide Start;
    if i < |t| {
      if i + 21 <= |t| {
        StartInPrefix(t, f, i);
      } else if Start(t, i) {
        StartHasRoom(t, i);
      }
      if !Start(t, i) {
        NextInPrefix(t, f, i + 1);
        if i + 21 > |t| && NextStart(t, i + 1) < |t| {
          StartHasRoom(t, NextStart(t, i + 1));
        }
      }
    }
  }

  /** The entries of the shorter file are those of the longer one, but for the last, which both have begun alike. */
  lemma {:induction false} EntriesOfPrefix(t: Text, f: Text, i: nat)
    requires t <= f && i <= |t|
    ensures CutOf(EntriesFrom(t, i), EntriesFrom(f, i), TailsFrom(f, i))
    decreases |t| - i
  {
    hide IsStamp, Start, NextStart, CutOf, Goes;
    EntriesGo(f, i);
    NextInPrefix(t, f, i);
    var p := NextStart(t, i);
    if p == |t| {
      NothingCut(EntriesFrom(f, i), TailsFrom(f, i));
    } else {
      var q := NextStart(t, p + 1);
      NextInPrefix(t, f, p + 1);
      NextStartsApart(t, p);
      FrontOfTail(t, f, p, q - 1);
      if q < |t| {
        EntriesOfPrefix(t, f, q);
        CutCons(t[p..q - 1], f[p..], EntriesFrom(t, q), EntriesFrom(f, q), TailsFrom(f, q));
      } else {
        NothingAtEnd(t);
        assert EntriesFrom(t, i) == [t[p..q - 1]] + EntriesFrom(t, q) == [t[p..q - 1]];
        assert TailsFrom(f, i) == [f[p..]] + TailsFrom(f, NextStart(f, p + 1));
        LastCut(t[p..q - 1], EntriesFrom(f, i), TailsFrom(f, i));
      }
    }
  }

  lemma NothingCut(all: Log, long: Log)
    requires Goes(all, long)
    ensures CutOf([], all, long)
  {
  }

  lemma LastCut(e: Text, all: Log, long: Log)
    requires Goes(all, long) && all != [] && long != [] && e != [] && e <= long[0]
    ensures CutOf([e], all, long)
  {
  }

  lemma FrontOfTail(t: Text, f: Text, p: nat, e: nat)
    requires t <= f && p < e <= |t|
    ensures t[p..e] == f[p..e] && t[p..e] <= f[p..] && t[p..e] != []
  {
  }

  lemma NothingAtEnd(t: Text)
    ensures EntriesFrom(t, |t|) == []
  {
  }

  lemma CutCons(e: Text, long: Text, t: Log, all: Log, longs: Log)
    requires CutOf(t, all, longs) && e != [] && e <= long
    ensures CutOf([e] + t, [e] + all, [long] + longs)
  {
  }

  ghost predicate OctetBackups(files: seq<Text>, x: nat) {
    x < |files| && forall i :: 0 <= i < |files| ==> files[i] <= files[x]
  }
}
