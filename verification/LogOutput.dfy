/** What reaches stdout: every entry is printed with `%.*s`, which stops at a NUL octet, and a line feed. */
module LogOutput {
  import opened Bytes
  import opened LogText
  import opened LogMerge

  /** What `%.*s` prints of an entry: all of it, or what precedes its first NUL octet. */
  function Printed(e: Text): Text { if e == [] || e[0] == 0 then [] else [e[0]] + Printed(e[1..]) }

  /** The octets on stdout after the entries `log` have been written. */
  function Rendered(log: Log): Text {
    if log == [] then [] else Rendered(log[..|log| - 1]) + Printed(log[|log| - 1]) + [LF]
  }

  /** What was meant: all entries as they are, each followed by a line feed. */
  function Joined(log: Log): Text {
    if log == [] then [] else Joined(log[..|log| - 1]) + log[|log| - 1] + [LF]
  }

  predicate NulFree(log: Log) { forall e :: e in log ==> 0 !in e }

  /** An entry is printed whole exactly if it holds no NUL; otherwise it comes out shorter. */
  lemma {:induction false} PrintedWholeIff(e: Text)
    ensures Printed(e) == e <==> 0 !in e
    ensures |Printed(e)| <= |e| && (|Printed(e)| == |e| ==> Printed(e) == e)
  {
    if e != [] && e[0] != 0 {
      PrintedWholeIff(e[1..]);
      assert e == [e[0]] + e[1..];
      assert Printed(e)[1..] == Printed(e[1..]);
    }
  }

  /** An input for which it is not: everything behind the NUL is lost. */
  lemma {:induction false} PrintedStopsAtNul(e: Text, f: Text)
    requires 0 !in e
    ensures Printed(e + [0] + f) == e
  {
    if e != [] {
      assert (e + [0] + f)[1..] == e[1..] + [0] + f;
      PrintedStopsAtNul(e[1..], f);
    }
  }

  lemma {:induction false} RenderedShorter(log: Log)
    ensures |Rendered(log)| <= |Joined(log)|
    ensures |Rendered(log)| == |Joined(log)| <==> NulFree(log)
    ensures NulFree(log) ==> Rendered(log) == Joined(log)
  {
    if log != [] {
      var n := |log| - 1;
      RenderedShorter(log[..n]);
      PrintedWholeIff(log[n]);
      assert log == log[..n] + [log[n]];
      assert NulFree(log) <==> NulFree(log[..n]) && 0 !in log[n];
    }
  }

  /** Stdout has the entries as they are exactly if none of them holds a NUL octet. */
  lemma RenderedWholeIff(log: Log)
    ensures Rendered(log) == Joined(log) <==> NulFree(log)
  {
    RenderedShorter(log);
  }

  /** The entries that `order` ascribes to a source are among those written. */
  lemma {:induction false} FromWritten(order: seq<nat>, out: Log, i: nat, e: Text)
    requires |order| == |out| && e in From(order, out, i)
    ensures e in out
  {
    if e != out[0] {
      FromWritten(order[1..], out[1..], i, e);
    }
  }

  /** Without dedupe the merge holds a NUL octet exactly if one of the sources does. */
  lemma MergeNulFreeIff(rests: seq<Log>)
    ensures NulFree(Merge(rests, false)) <==> forall i :: 0 <= i < |rests| ==> NulFree(rests[i])
  {
    var out, order := Merge(rests, false), Order(rests);
    MergeInterleaves(rests, []);
    forall i, e | 0 <= i < |rests| && e in rests[i]
      ensures e in out
    {
      FromWritten(order, out, i, e);
    }
    forall e | e in out
      ensures exists i :: 0 <= i < |rests| && e in rests[i]
    {
      OutputFromSources(rests, [], false, e);
    }
  }
}
