/**
 * What a log entry begins with, spelled out: the words that the pattern of LogMerge accepts are the dates and times
 * with two decimal digits for each number, and a file of such lines is split into just these lines.
 */
module LogStamp {
  import opened Bytes
  import opened LogText
  import opened LogMerge
  import opened LogOutput
  import opened LogBarrier
  import opened LogRuns
  import opened LogAgain

  /** Two decimal digits. */
  function Two(n: nat): (w: Text)
    requires n < 100
    ensures |w| == 2
  {
    [48 + n / 10, 48 + n % 10]
  }

  /** `20yy-mm-dd`, a separator, `hh:mm:ss`, and the octet behind it. */
  datatype Time = Time(year: nat, month: nat, day: nat, hour: nat, minute: nat, second: nat)

  predicate InRange(t: Time) {
    t.year < 100 && t.month < 100 && t.day < 100 && t.hour < 100 && t.minute < 100 && t.second < 100
  }

  function Spelled(t: Time, sep: Byte): (w: Text)
    requires InRange(t)
    ensures |w| == 19
  {
    [50, 48] + Two(t.year) + [45] + Two(t.month) + [45] + Two(t.day) + [sep]
    + Two(t.hour) + [58] + Two(t.minute) + [58] + Two(t.second)
  }

  /** Letter T, underscore or blank. */
  predicate Separates(b: Byte) { b == 84 || b == 95 || b == 32 }

  /** Neither the end of a C string nor one more digit. */
  predicate MayFollow(b: Byte) { b != 0 && !(48 <= b <= 57) }

  lemma TwoAreDigits(n: nat)
    requires n < 100
    ensures 48 <= Two(n)[0] <= 57 && 48 <= Two(n)[1] <= 57
  {
  }

  /** Every such word is a stamp. */
  lemma SpelledIsStamp(t: Time, sep: Byte, c: Byte)
    requires InRange(t) && Separates(sep) && MayFollow(c)
    ensures IsStamp(Spelled(t, sep) + [c])
  {
    TwoAreDigits(t.year);
    TwoAreDigits(t.month);
    TwoAreDigits(t.day);
    TwoAreDigits(t.hour);
    TwoAreDigits(t.minute);
    TwoAreDigits(t.second);
    hide Two;
    var w := Spelled(t, sep) + [c];
    FitsEach(w, 0);
    SpelledAt(t, sep, c);
    hide Spelled;
    forall j | 0 <= j < 20
      ensures Fits(j, w[j])
    {
    }
  }

  lemma SpelledAt(t: Time, sep: Byte, c: Byte)
    requires InRange(t)
    ensures var w := Spelled(t, sep) + [c];
            && w[0] == 50 && w[1] == 48 && w[4] == 45 && w[7] == 45 && w[10] == sep && w[13] == 58 && w[16] == 58
            && w[19] == c
            && w[2] == Two(t.year)[0] && w[3] == Two(t.year)[1] && w[5] == Two(t.month)[0] && w[6] == Two(t.month)[1]
            && w[8] == Two(t.day)[0] && w[9] == Two(t.day)[1] && w[11] == Two(t.hour)[0] && w[12] == Two(t.hour)[1]
            && w[14] == Two(t.minute)[0] && w[15] == Two(t.minute)[1]
            && w[17] == Two(t.second)[0] && w[18] == Two(t.second)[1]
  {
    hide Two;
  }

  /** The number that two digits stand for. */
  function Number(a: Byte, b: Byte): (n: nat)
    requires 48 <= a <= 57 && 48 <= b <= 57
    ensures n < 100 && Two(n) == [a, b]
  {
    10 * (a - 48) + (b - 48)
  }

  /** Every stamp is such a word. */
  lemma StampIsSpelled(w: Text) returns (t: Time)
    requires |w| == 20 && IsStamp(w)
    ensures InRange(t) && Separates(w[10]) && MayFollow(w[19]) && w == Spelled(t, w[10]) + [w[19]]
  {
    FitsEach(w, 0);
    assert forall j :: 0 <= j < 20 ==> Fits(j, w[j]);
    hide IsStamp, FitsFrom, Two;
    DigitsAt(w);
    t := Time(Number(w[2], w[3]), Number(w[5], w[6]), Number(w[8], w[9]), Number(w[11], w[12]),
              Number(w[14], w[15]), Number(w[17], w[18]));
    assert Fits(0, w[0]) && Fits(1, w[1]) && Fits(4, w[4]) && Fits(7, w[7]) && Fits(10, w[10]) && Fits(13, w[13])
        && Fits(16, w[16]) && Fits(19, w[19]);
    hide Fits, Number;
    SpelledAt(t, w[10], w[19]);
    Twenty(w, Spelled(t, w[10]) + [w[19]]);
  }

  lemma DigitsAt(w: Text)
    requires |w| == 20 && forall j :: 0 <= j < 20 ==> Fits(j, w[j])
    ensures 48 <= w[2] <= 57 && 48 <= w[3] <= 57 && 48 <= w[5] <= 57 && 48 <= w[6] <= 57
    ensures 48 <= w[8] <= 57 && 48 <= w[9] <= 57 && 48 <= w[11] <= 57 && 48 <= w[12] <= 57
    ensures 48 <= w[14] <= 57 && 48 <= w[15] <= 57 && 48 <= w[17] <= 57 && 48 <= w[18] <= 57
  {
  }

  lemma Twenty(v: Text, w: Text)
    requires |v| == |w| == 20
    requires v[0] == w[0] && v[1] == w[1] && v[2] == w[2] && v[3] == w[3] && v[4] == w[4] && v[5] == w[5]
    requires v[6] == w[6] && v[7] == w[7] && v[8] == w[8] && v[9] == w[9] && v[10] == w[10] && v[11] == w[11]
    requires v[12] == w[12] && v[13] == w[13] && v[14] == w[14] && v[15] == w[15] && v[16] == w[16] && v[17] == w[17]
    requires v[18] == w[18] && v[19] == w[19]
    ensures v == w
  {
  }

  ghost predicate IsSpelled(w: Text) {
    |w| == 20 && exists t :: InRange(t) && Separates(w[10]) && MayFollow(w[19]) && w == Spelled(t, w[10]) + [w[19]]
  }

  /** The stamps are exactly these words. */
  lemma StampIff(w: Text)
    requires |w| == 20
    ensures IsStamp(w) <==> IsSpelled(w)
  {
    hide IsStamp, Spelled;
    if IsStamp(w) {
      var t := StampIsSpelled(w);
    }
    if IsSpelled(w) {
      var t :| InRange(t) && Separates(w[10]) && MayFollow(w[19]) && w == Spelled(t, w[10]) + [w[19]];
      SpelledIsStamp(t, w[10], w[19]);
    }
  }

  // ----- files of such lines -----

  /** A line of a log: a date and time, a blank, and any text without line feeds and NUL octets. */
  datatype Line = Line(time: Time, text: Text)

  predicate Proper(l: Line) { InRange(l.time) && 10 !in l.text && 0 !in l.text }

  function LineText(l: Line): Text
    requires Proper(l)
  {
    Spelled(l.time, 32) + [32] + l.text
  }

  function LineTexts(lines: seq<Line>): (log: Log)
    requires forall l :: l in lines ==> Proper(l)
    ensures |log| == |lines|
  {
    seq(|lines|, k requires 0 <= k < |lines| => LineText(lines[k]))
  }

  /** The lines one after the other, each with a line feed. */
  function FileOf(lines: seq<Line>): Text
    requires forall l :: l in lines ==> Proper(l)
  {
    if lines == [] then [] else FileOf(lines[..|lines| - 1]) + LineText(lines[|lines| - 1]) + [10]
  }

  lemma SpelledOctets(t: Time)
    requires InRange(t)
    ensures 10 !in Spelled(t, 32) && 0 !in Spelled(t, 32)
  {
    TwoAreDigits(t.year);
    TwoAreDigits(t.month);
    TwoAreDigits(t.day);
    TwoAreDigits(t.hour);
    TwoAreDigits(t.minute);
    TwoAreDigits(t.second);
    hide Two;
  }

  lemma LineStands(l: Line)
    requires Proper(l)
    ensures Stands(LineText(l)) && |LineText(l)| >= 20 && 0 !in LineText(l)
  {
    var k := Spelled(l.time, 32) + [32];
    SpelledIsStamp(l.time, 32, 32);
    SpelledOctets(l.time);
    hide Spelled, IsStamp, Stands;
    assert LineText(l) == k + l.text;
    OneLineStands(k, l.text);
  }

  lemma {:induction false} FileIsJoined(lines: seq<Line>)
    requires forall l :: l in lines ==> Proper(l)
    ensures FileOf(lines) == Joined(LineTexts(lines))
  {
    hide LineText;
    if lines != [] {
      var n := |lines| - 1;
      FileIsJoined(lines[..n]);
      assert LineTexts(lines)[..n] == LineTexts(lines[..n]);
    }
  }

  /** A file of such lines has exactly them as its entries, in this order. */
  lemma FileOfLines(lines: seq<Line>)
    requires forall l :: l in lines ==> Proper(l)
    ensures Entries(FileOf(lines)) == LineTexts(lines)
  {
    hide LineText, Entries, Stands;
    var log := LineTexts(lines);
    forall e | e in log
      ensures Stands(e) && |e| >= 20 && 0 !in e
    {
      var k :| 0 <= k < |log| && log[k] == e;
      LineStands(lines[k]);
    }
    FileIsJoined(lines);
    RenderedWholeIff(log);
    ReadBack(log);
  }

  /** Every finished run without dedupe over one such file prints the file. */
  lemma FileComesOut(lines: seq<Line>, steps: seq<Step>, end: State)
    requires forall l :: l in lines ==> Proper(l)
    requires Complete(Config([FileOf(lines)], false), steps, end)
    ensures Rendered(end.written) == FileOf(lines)
  {
    hide LineText, Entries, FileOf;
    var cfg := Config([FileOf(lines)], false);
    var log := LineTexts(lines);
    EveryRunMerges(cfg, steps, end);
    FileOfLines(lines);
    assert AllEntries(cfg.files) == [log];
    OneSource(log, []);
    FileIsJoined(lines);
    forall e | e in log
      ensures 0 !in e
    {
      var k :| 0 <= k < |log| && log[k] == e;
      LineStands(lines[k]);
    }
    RenderedWholeIff(log);
  }

  lemma {:induction false} OneSource(log: Log, last: Text)
    ensures MergeFrom([log], last, false) == log
    decreases |log|
  {
    if log == [] {
      assert Heads([log])[0].Gone?;
    } else {
      assert Heads([log])[0].At?;
      assert Advance([log]) == [log[1..]];
      OneSource(log[1..], log[0]);
    }
  }
}
