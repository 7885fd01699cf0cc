/**
 * What a user means by the entries of a log file, against what LogMerge splits it into: when exactly the two
 * agree. They differ when the file does not end in a line feed (the last octet of the last entry is lost) and
 * when its last line is a bare timestamp (which has no octet to spare behind it, so it begins no entry).
 */
module LogLines {
  import opened Bytes
  import opened LogText

  predicate LineStart(t: Text, p: int) {
    0 <= p && p + 20 <= |t| && IsStamp(t[p..p + 20]) && (p == 0 || t[p - 1] == LF)
  }

  function NextLine(t: Text, i: nat): (p: nat)
    requires i <= |t|
    ensures i <= p <= |t|
    ensures p < |t| ==> LineStart(t, p)
    decreases |t| - i
  {
    if i == |t| || LineStart(t, i) then i else NextLine(t, i + 1)
  }

  function DropLf(t: Text): Text { if t != [] && t[|t| - 1] == LF then t[..|t| - 1] else t }

  /** Every timestamped line opens an entry that runs to the next one; a line feed that ends it is not part of it. */
  function LinesFrom(t: Text, i: nat): seq<Text>
    requires i <= |t|
    decreases |t| - i
  {
    var p := NextLine(t, i);
    if p == |t| then []
    else
      var q := NextLine(t, p + 1);
      [DropLf(t[p..q])] + LinesFrom(t, q)
  }

  predicate BareLastLine(t: Text) { LineStart(t, |t| - 20) }

  predicate EndsInLf(t: Text) { t != [] && t[|t| - 1] == LF }

  lemma {:induction false} NextLineIsNextStart(t: Text, i: nat)
    requires i <= |t| && !BareLastLine(t)
    ensures NextLine(t, i) == NextStart(t, i)
    decreases |t| - i
  {
    if i < |t| {
      NextLineIsNextStart(t, i + 1);
    }
  }

  /** Both splits, one entry further. */
  lemma OneFurther(t: Text, i: nat)
    requires i <= |t| && !BareLastLine(t) && NextStart(t, i) < |t|
    ensures var q := NextStart(t, NextStart(t, i) + 1);
            && (EntriesFrom(t, i) == LinesFrom(t, i) <==> t[q - 1] == LF && EntriesFrom(t, q) == LinesFrom(t, q))
            && LinesFrom(t, i) != []
  {
    hide Hit, Start, LineStart, BareLastLine, NextStart, NextLine, DropLf;
    var p := NextStart(t, i);
    var q := NextStart(t, p + 1);
    NextLineIsNextStart(t, i);
    NextLineIsNextStart(t, p + 1);
    assert EntriesFrom(t, i) == [t[p..q - 1]] + EntriesFrom(t, q);
    assert LinesFrom(t, i) == [DropLf(t[p..q])] + LinesFrom(t, q);
    hide EntriesFrom, LinesFrom;
    TrimmedAlike(t, p, q);
    SameWhenBothSame(t[p..q - 1], DropLf(t[p..q]), EntriesFrom(t, q), LinesFrom(t, q));
  }

  lemma NoneLeft(t: Text, i: nat)
    requires i <= |t| && !BareLastLine(t)
    ensures LinesFrom(t, i) == [] <==> NextStart(t, i) == |t|
    ensures EntriesFrom(t, i) == [] <==> NextStart(t, i) == |t|
  {
    hide Hit, Start, LineStart, BareLastLine;
    NextLineIsNextStart(t, i);
  }

  lemma {:induction false} AgreeWithoutBareLine(t: Text, i: nat)
    requires i <= |t| && !BareLastLine(t)
    ensures EntriesFrom(t, i) == LinesFrom(t, i) <==> LinesFrom(t, i) == [] || EndsInLf(t)
    decreases |t| - i
  {
    hide Hit, LineStart, BareLastLine, EntriesFrom, LinesFrom;
    NoneLeft(t, i);
    if NextStart(t, i) < |t| {
      OneFurther(t, i);
      var q := NextStart(t, NextStart(t, i) + 1);
      AgreeWithoutBareLine(t, q);
      NoneLeft(t, q);
    }
  }

  lemma TrimmedAlike(t: Text, p: nat, q: nat)
    requires p < q <= |t|
    ensures t[p..q - 1] == DropLf(t[p..q]) <==> t[q - 1] == LF
  {
    assert t[p..q][..q - p - 1] == t[p..q - 1];
  }

  lemma SameWhenBothSame<T>(x: T, y: T, xs: seq<T>, ys: seq<T>)
    ensures [x] + xs == [y] + ys <==> x == y && xs == ys
  {
    assert ([x] + xs)[0] == x && ([y] + ys)[0] == y;
    assert ([x] + xs)[1..] == xs && ([y] + ys)[1..] == ys;
  }

  /** Up to the bare line both scans find the same, then only one of them finds it. */
  lemma {:induction false} NextWithBareLine(t: Text, i: nat)
    requires i <= |t| && BareLastLine(t)
    ensures NextLine(t, i) == if i <= |t| - 20 && NextStart(t, i) == |t| then |t| - 20 else NextStart(t, i)
    decreases |t| - i
  {
    if i < |t| {
      if i + 20 <= |t| && LineStart(t, i) && i + 21 > |t| {
        NoStartBehind(t, i);
      } else {
        NextWithBareLine(t, i + 1);
      }
    }
  }

  lemma {:induction false} NoStartBehind(t: Text, i: nat)
    requires |t| - 20 <= i <= |t|
    ensures NextStart(t, i) == |t|
    decreases |t| - i
  {
    if i < |t| {
      NoStartBehind(t, i + 1);
    }
  }

  /** Both splits, one entry further, when the last line is bare. */
  lemma OneFurtherWithBareLine(t: Text, i: nat)
    requires i <= |t| && BareLastLine(t) && NextStart(t, i) < |t|
    ensures var q := NextLine(t, NextStart(t, i) + 1);
            && |LinesFrom(t, i)| == 1 + |LinesFrom(t, q)|
            && |EntriesFrom(t, i)| == 1 + |EntriesFrom(t, q)|
            && q <= |t| - 20 && NextStart(t, i) < q
  {
    hide Hit, Start, LineStart, BareLastLine, NextStart, NextLine;
    var p := NextStart(t, i);
    var q := NextStart(t, p + 1);
    NextWithBareLine(t, i);
    NextWithBareLine(t, p + 1);
    StartHasRoom(t, p);
    assert EntriesFrom(t, i) == [t[p..q - 1]] + EntriesFrom(t, q);
    assert LinesFrom(t, i) == [DropLf(t[p..NextLine(t, p + 1)])] + LinesFrom(t, NextLine(t, p + 1));
    if q == |t| {
      NoStartBehind(t, |t| - 20);
      NoStartBehind(t, |t|);
    } else {
      StartHasRoom(t, q);
    }
  }

  lemma {:induction false} BareLineIsLost(t: Text, i: nat)
    requires i <= |t| && BareLastLine(t)
    ensures |LinesFrom(t, i)| == |EntriesFrom(t, i)| + if i <= |t| - 20 then 1 else 0
    decreases |t| - i
  {
    hide Hit, Start, LineStart, BareLastLine, NextStart, NextLine;
    NextWithBareLine(t, i);
    if NextStart(t, i) < |t| {
      hide LinesFrom, EntriesFrom;
      OneFurtherWithBareLine(t, i);
      StartHasRoom(t, NextStart(t, i));
      BareLineIsLost(t, NextLine(t, NextStart(t, i) + 1));
    } else if i <= |t| - 20 {
      NoStartBehind(t, |t| - 19);
      NextWithBareLine(t, |t| - 19);
    }
  }

  /** The exact condition under which the program splits a file into the entries its user means. */
  lemma SplitsAsMeantIff(t: Text)
    ensures Entries(t) == LinesFrom(t, 0) <==> LinesFrom(t, 0) == [] || (EndsInLf(t) && !BareLastLine(t))
  {
    if BareLastLine(t) {
      BareLineIsLost(t, 0);
    } else {
      AgreeWithoutBareLine(t, 0);
    }
  }

  /** A file that it splits otherwise: a bare timestamp with its line feed is not seen at all. */
  lemma BareTimestampIsLost(w: Text)
    requires |w| == 20 && IsStamp(w) && w[19] == LF
    ensures Entries(w) == [] && LinesFrom(w, 0) == [w[..19]]
  {
    NoStartBehind(w, 0);
    assert w[0..20] == w && LineStart(w, 0);
    NoLineBehind(w, 1);
    hide IsStamp;
  }

  /** Another one: without a line feed at its end the last octet is lost. */
  lemma LastOctetIsLost(w: Text, b: Byte)
    requires |w| == 20 && IsStamp(w) && b != LF
    ensures Entries(w + [b]) == [w] && LinesFrom(w + [b], 0) == [w + [b]]
  {
    var t := w + [b];
    assert t[0..20] == w && Start(t, 0);
    StampOctets(t, 0);
    NoStartBehind(t, 1);
    NoLineBehind(t, 1);
    assert LineStart(t, 0) && NextStart(t, 0) == 0 && NextLine(t, 0) == 0;
    assert EntriesFrom(t, 21) == [] && LinesFrom(t, 21) == [];
    hide IsStamp, NextStart, NextLine, Start, LineStart;
    assert t[0..21] == t;
  }

  lemma {:induction false} NoLineBehind(t: Text, i: nat)
    requires 1 <= i <= |t| <= 21 && (|t| == 21 ==> t[0] != LF)
    ensures NextLine(t, i) == |t|
    decreases |t| - i
  {
    if i < |t| {
      NoLineBehind(t, i + 1);
    }
  }

  /** Such timestamps exist: this one is 2020-01-01 00:00:00. */
  lemma SomeStamp() returns (w: Text)
    ensures |w| == 20 && IsStamp(w) && w[19] == LF
  {
    w := [50, 48, 50, 48, 45, 48, 49, 45, 48, 49, 32, 48, 48, 58, 48, 48, 58, 48, 48, 10];
    FitsEach(w, 0);
  }
}
