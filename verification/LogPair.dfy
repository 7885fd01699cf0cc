/**
 * Two files, the one that is to come out named first: the exact condition, whatever the other one holds.
 */
module LogPair {
  import opened Bytes
  import opened LogText
  import opened LogMerge
  import opened LogCollapse

  /** The first entry from `a` on that is greater than `e`, or the end. */
  function Passed(all: Log, e: Text, a: nat): (p: nat)
    requires a <= |all|
    ensures a <= p <= |all|
    ensures p < |all| ==> Cmp(e, all[p]) < 0
    ensures forall k :: a <= k < p ==> Cmp(e, all[k]) >= 0
    decreases |all| - a
  {
    if a == |all| || Cmp(e, all[a]) < 0 then a else Passed(all, e, a + 1)
  }

  /**
   * Each entry of `t` in its turn agrees, as far as both go, with the entry of `all` before the first greater one, from
   * where the entry before it was dropped on.
   */
  predicate Swallowed(all: Log, t: Log, a: nat)
    requires a <= |all|
    decreases |t|
  {
    t == [] || (var p := Passed(all, t[0], a); p > 0 && Drops(all[p - 1], t[0]) && Swallowed(all, t[1..], p))
  }

  lemma NothingDropped(all: Log, a: nat, last: Text)
    requires NoneRelated(all) && LastIs(all, a, last) && a < |all|
    ensures !Drops(last, all[a])
  {
  }

  lemma {:induction false} PairFrom(all: Log, t: Log, a: nat, last: Text)
    requires NoneRelated(all) && LastIs(all, a, last)
    ensures MergeFrom([all[a..], t], last, true) == all[a..] <==> Swallowed(all, t, a)
    decreases |all| - a + |t|
  {
    hide Cmp, Drops, MergeFrom, NoneRelated;
    MergeOfTwo(all[a..], t, last);
    if a == |all| || (t != [] && Cmp(t[0], all[a]) < 0) {
      if t != [] {
        CmpItself(t[0]);
        NotFromNothing(last, t[0]);
        PairFrom(all, t[1..], a, last);
      }
    } else {
      NothingDropped(all, a, last);
      assert all[a..][1..] == all[a + 1..] && all[a..] == [all[a]] + all[a + 1..];
      PairFrom(all, t, a + 1, all[a]);
    }
  }

  lemma NotFromNothing(last: Text, e: Text)
    ensures Drops(last, e) ==> last != []
  {
  }

  /**
   * The merge of `all`, named first, and any other file is `all` if and only if no two neighbours in it agree as far as
   * both go, and it swallows every entry of the other.
   */
  lemma FirstComesOutIff(all: Log, t: Log)
    ensures Merge([all, t], true) == all <==> NoneRelated(all) && Swallowed(all, t, 0)
  {
    hide MergeFrom, NoneRelated, Swallowed;
    assert all[0..] == all;
    MergeUnrelated([all, t]);
    if NoneRelated(all) {
      PairFrom(all, t, 0, []);
    }
  }

  /** An entry that was half written when a backup was taken, and the backup named first: the rest of it is lost. */
  lemma ShorterFirstWins(t: Text, full: Text)
    requires t != [] && t <= full
    ensures Merge([[t], [full]], true) == [t]
    ensures Merge([[full], [t]], true) == [full]
  {
    SameBegin(t, full);
    var none: Log := [];
    assert [t] == [t] + none && [full] == [full] + none;
    hide Cmp, MergeFrom, Drops;
    TakesLeft(t, none, [full], []);
    MergeOfTwo(none, [full], t);
    TakesLeft(full, none, [t], []);
    MergeOfTwo(none, [t], full);
    BothDrained(t);
    BothDrained(full);
  }

  lemma SameBegin(t: Text, full: Text)
    requires t != [] && t <= full
    ensures Cmp(t, full) == 0 && Cmp(full, t) == 0 && Drops(t, full) && Drops(full, t)
    ensures !Drops([], t) && !Drops([], full)
  {
    CmpZeroIffPrefix(t, full);
    CmpZeroIffPrefix(full, t);
  }
}
