/**
 * What the C standard promises of `fread` (section 7.21.8.1 of ISO/IEC 9899:2011): it comes back short only at the end
 * of the file. With such reads no need-more flag ever goes stale, and only entries that are too long stop the program.
 */
module LogReads {
  import opened LogText

  /** The space that a refill has for its `fread`, after compaction and, if need be, growth. */
  function Space(s: Src): int {
    var c := Compact(s);
    if c.cap > |c.text| then c.cap - |c.text| else c.cap + GROW_STEP - |c.text|
  }

  /** The read delivers all there is or all there is space for, and notices the end exactly if it comes back short. */
  predicate FullRead(s: Src, r: Read) {
    r.want >= |s.unread| && (r.eager <==> |s.unread| < Space(s))
  }

  /** The whole entry and the timestamp behind it are in the buffer, or the end of the file is. */
  predicate HoldsEntry(s: Src)
    requires 0 <= s.beg <= |s.text|
  {
    ScanBegin(s.text, s.beg) < |s.text| && NextStart(s.text, ScanBegin(s.text, s.beg) + 1) < |s.text|
  }

  /** There is nothing to be gained by moving what the buffer holds to its front, and it is as full as can be. */
  predicate Loaded(s: Src) {
    s.isEof || (|s.text| == s.cap && Compact(s) == s)
  }

  /** A source that has been refilled is loaded and asks for nothing. */
  predicate Refreshed(s: Src) { !s.needMore && Loaded(s) }

  /** A source that asks for more does so for a reason: its buffer is full without holding its next entry. */
  predicate Asks(s: Src) {
    s.needMore ==> 0 <= s.beg <= |s.text| && !s.isEof && |s.text| == s.cap && Compact(s) == s && !HoldsEntry(s)
  }

  lemma TakeInFull(c: Src, r: Read)
    requires Sized(c) && !c.isEof && c.cap > |c.text| && Compact(c) == c && !c.needMore && FullRead(c, r)
    ensures Refreshed(TakeIn(c, r))
  {
  }

  /** A refill with a full read answers every request, or the buffer has reached its limit and nothing changes. */
  lemma RefillFull(s: Src, r: Read)
    requires Sized(s) && Asks(s) && FullRead(s, r)
    ensures Refill(s, r).Reported? ==> Refreshed(Refill(s, r).src)
    ensures Refill(s, r).TooLarge? ==> Refill(s, r).src == s && s.needMore && |s.text| - s.beg > ENTRY_LIMIT
  {
    hide TakeIn, HoldsEntry;
    var c := Compact(s);
    CompactTwice(s);
    if c.cap > |c.text| && !c.isEof {
      TakeInFull(c, r);
    } else if c.needMore && |c.text| - c.beg <= ENTRY_LIMIT {
      var g := c.(needMore := false, cap := c.cap + GROW_STEP);
      CompactTwice(g);
      assert Refill(s, r) == Refill(g, r) == Reported(TakeIn(g, r));
      TakeInFull(g, r);
    }
  }

  lemma CompactTwice(s: Src)
    requires Sized(s)
    ensures var c := Compact(s);
            && Compact(c) == c && Sized(c) && c.unread == s.unread && Space(c) == Space(s)
            && c.needMore == s.needMore && c.isEof == s.isEof
    ensures Compact(s.(needMore := false, cap := s.cap + GROW_STEP))
         == Compact(s).(needMore := false, cap := Compact(s).cap + GROW_STEP)
  {
  }

  /** Marking a refreshed source lets it ask for more only with reason. */
  lemma MarkAsks(s: Src)
    requires Sized(s) && Refreshed(s)
    ensures Asks(Mark(s))
  {
    hide NextStart;
  }

  // ----- when the buffer's limit is not reached -----

  /** With any reads: a source that holds no more than the limit is never given up. */
  lemma SmallFileFits(s: Src, file: Text, rest: seq<Text>, r: Read)
    requires Shows(s, file, rest) && |file| <= ENTRY_LIMIT
    ensures Refill(s, r).Reported?
    decreases s.needMore
  {
    hide Rest;
    var c := Compact(s);
    CompactKeeps(s, file, rest);
    if !(c.cap > |c.text| && !c.isEof) && c.needMore {
      var g := c.(needMore := false, cap := c.cap + GROW_STEP);
      GrowKeeps(c, file, rest);
      SmallFileFits(g, file, rest, r);
      assert Refill(s, r) == Refill(g, r);
    }
  }

  /** Where the program may stand in a file: at its begin, at the line feed before an entry, or at the last octet. */
  predicate Boundary(file: Text, b: int) {
    0 <= b <= |file| && (b == 0 || b + 1 == |file| || (b + 1 < |file| && Start(file, b + 1)))
  }

  /** From `b` to the end of the timestamp behind the next entry, or else to the end of the file. */
  predicate FitsAt(file: Text, b: int)
    requires 0 <= b <= |file|
  {
    || |file| - b <= ENTRY_LIMIT
    || var p := NextStart(file, b);
       p < |file| && NextStart(file, p + 1) < |file| && NextStart(file, p + 1) + 21 - b <= ENTRY_LIMIT
  }

  /** Every entry, with the line feed before it and the timestamp behind it, is within the limit. */
  ghost predicate EntriesFit(file: Text) {
    forall b: int :: Boundary(file, b) ==> FitsAt(file, b)
  }

  /** A file within the limit is such a file, and there is such a read in every state: one that wants all there is. */
  lemma FittingExists(file: Text, s: Src) returns (r: Read)
    ensures |file| <= 0xFFFFFF ==> EntriesFit(file)
    ensures r.want == |s.unread| && FullRead(s, r)
  {
    hide Compact;
    r := Read(|s.unread|, |s.unread| < Space(s));
  }

  /** The source stands at a boundary, and its end mark is on one. */
  ghost predicate AtBoundary(s: Src, file: Text) {
    var off := Offset(s.text, s.unread, file);
    Boundary(file, off + s.beg) && Boundary(file, off + s.logEnd)
  }

  lemma OpenedAtBoundary(file: Text)
    ensures AtBoundary(Opened(file), file)
  {
  }

  lemma MarkAtBoundary(s: Src, file: Text, rest: seq<Text>)
    requires Shows(s, file, rest) && AtBoundary(s, file)
    ensures AtBoundary(Mark(s), file)
  {
    hide Rest, Window, Hit, Start, ScanBegin, NextStart;
    var p := ScanBegin(s.text, s.beg);
    if p < |s.text| {
      var q := NextStart(s.text, p + 1);
      if q < |s.text| || s.isEof {
        NextStartInWindow(s, file, p + 1);
        StartIsBoundary(file, Offset(s.text, s.unread, file) + q);
      }
    }
  }

  lemma RefillAtBoundary(s: Src, file: Text, rest: seq<Text>, r: Read)
    requires Shows(s, file, rest) && AtBoundary(s, file)
    ensures AtBoundary(Refill(s, r).src, file)
  {
    hide Rest, Window, Boundary, Refill;
    RefillKeeps(s, file, rest, r);
  }

  lemma ConsumeAtBoundary(s: Src, file: Text)
    requires AtBoundary(s, file)
    ensures AtBoundary(Consume(s), file)
  {
  }

  lemma StartIsBoundary(file: Text, q: int)
    requires 0 < q <= |file| && (q < |file| ==> Start(file, q))
    ensures Boundary(file, q - 1)
  {
  }

  lemma {:induction false} StartsSeen(s: Src, file: Text, i: nat, q: nat)
    requires Window(s.text, s.unread, file) && 1 <= i <= |s.text|
    requires Offset(s.text, s.unread, file) + i <= q && q + 21 <= Offset(s.text, s.unread, file) + |s.text|
    requires q < |file| && Start(file, q)
    ensures Offset(s.text, s.unread, file) + NextStart(s.text, i) <= q
    decreases |s.text| - i
  {
    hide Window, IsStamp;
    var off := Offset(s.text, s.unread, file);
    HitInWindow(s, file, q - off);
    NextStartLeast(s.text, i, NextStart(s.text, i));
  }

  /** The begin of the next entry is seen if its timestamp is in the buffer. */
  lemma BeginSeen(s: Src, file: Text, rest: seq<Text>, p: nat)
    requires Shows(s, file, rest)
    requires p == NextStart(file, Offset(s.text, s.unread, file) + s.beg) < |file|
    requires p + 21 <= Offset(s.text, s.unread, file) + |s.text|
    ensures ScanBegin(s.text, s.beg) < |s.text| && Offset(s.text, s.unread, file) + ScanBegin(s.text, s.beg) == p
  {
    hide Window, IsStamp, EntriesFrom;
    var off := Offset(s.text, s.unread, file);
    HitInWindow(s, file, p - off);
    if p > off + s.beg {
      StartsSeen(s, file, s.beg + 1, p);
    }
    ScanBeginInWindow(s, file, rest);
  }

  /** A source that asks for more although it stands at a boundary from which all fits has not reached the limit. */
  lemma FittingEntryFits(s: Src, file: Text, rest: seq<Text>)
    requires Shows(s, file, rest) && AtBoundary(s, file) && EntriesFit(file)
    requires Asks(s) && s.needMore
    ensures |s.text| - s.beg <= ENTRY_LIMIT
  {
    hide Rest, Hit, Start, NextStart, ScanBegin, Compact;
    var off := Offset(s.text, s.unread, file);
    assert FitsAt(file, off + s.beg);
    if |s.text| - s.beg > ENTRY_LIMIT {
      var p := NextStart(file, off + s.beg);
      BeginSeen(s, file, rest, p);
      StartsSeen(s, file, p - off + 1, NextStart(file, p + 1));
      assert false;
    }
  }
}
