/**
 * What one input of LogMerge means (its whole file split at timestamped line starts), the value that
 * `struct Source` holds while the file trickles in, and the proof that the second always shows the first.
 */
module LogText {
  import opened Bytes
  import opened Sequences

  type Text = seq<Byte>

  // ----- the whole-file specification -----

  predicate IsDigit(b: Byte) { 48 <= b <= 57 }

  /**
   * The regular expression `^20dd-dd-dd[T_ ]dd:dd:dd[^0-9]`, octet by octet. The closing octet cannot be NUL
   * either, because that would end the C string being matched.
   */
  predicate Fits(i: nat, b: Byte) {
    if i == 0 then b == 50
    else if i == 1 then b == 48
    else if i == 4 || i == 7 then b == 45
    else if i == 10 then b == 84 || b == 95 || b == 32
    else if i == 13 || i == 16 then b == 58
    else if i == 19 then !IsDigit(b) && b != 0
    else IsDigit(b)
  }

  predicate FitsFrom(w: Text, i: nat)
    requires |w| == 20
    decreases 20 - i
  {
    i >= 20 || (Fits(i, w[i]) && FitsFrom(w, i + 1))
  }

  predicate IsStamp(w: Text)
    requires |w| == 20
  {
    FitsFrom(w, 0)
  }

  lemma {:induction false} FitsEach(w: Text, i: nat)
    requires |w| == 20 && i <= 20
    ensures FitsFrom(w, i) <==> forall j :: i <= j < 20 ==> Fits(j, w[j])
    decreases 20 - i
  {
    if i < 20 {
      FitsEach(w, i + 1);
    }
  }

  /** A stamp at `p` that still has one octet to spare behind it: the last octet is blanked while matching. */
  predicate Hit(t: Text, p: int) {
    0 <= p && p + 21 <= |t| && IsStamp(t[p..p + 20])
  }

  /** A log entry begins at `p`. */
  predicate Start(t: Text, p: int) {
    Hit(t, p) && (p == 0 || t[p - 1] == LF)
  }

  function NextStart(t: Text, i: nat): (p: nat)
    requires i <= |t|
    ensures i <= p <= |t|
    ensures p < |t| ==> Start(t, p)
    decreases |t| - i
  {
    if i == |t| || Start(t, i) then i else NextStart(t, i + 1)
  }

  /** The entries that begin at or behind `i`: each runs up to, but without, the octet before the next start. */
  function EntriesFrom(t: Text, i: nat): seq<Text>
    requires i <= |t|
    decreases |t| - i
  {
    var p := NextStart(t, i);
    if p == |t| then []
    else
      var q := NextStart(t, p + 1);
      [t[p..q - 1]] + EntriesFrom(t, q)
  }

  function Entries(t: Text): seq<Text> { EntriesFrom(t, 0) }

  /** `NextStart` finds the least start, and only that. */
  lemma {:induction false} NextStartLeast(t: Text, i: nat, p: nat)
    requires i <= p <= |t|
    ensures NextStart(t, i) == p <==>
              (p < |t| ==> Start(t, p)) && forall q :: i <= q < p ==> !Start(t, q)
    decreases |t| - i
  {
    if i < p {
      NextStartLeast(t, i + 1, p);
    }
  }

  lemma StartHasRoom(t: Text, p: nat)
    requires Start(t, p)
    ensures p + 21 <= |t|
  {
  }

  /** A stamp begins with the digit two and holds no line feed before its last octet. */
  lemma StampOctets(t: Text, p: int)
    requires Hit(t, p)
    ensures t[p] == 50
    ensures forall i :: p <= i < p + 19 ==> t[i] != LF
  {
    FitsEach(t[p..p + 20], 0);
    assert forall i :: p <= i < p + 20 ==> t[i] == t[p..p + 20][i - p];
  }

  /** Two neighbouring starts are at least a stamp apart, so every entry shows its whole timestamp. */
  lemma StartsApart(t: Text, p: nat, q: nat)
    requires Start(t, p) && p < q <= |t| && (q < |t| ==> Start(t, q))
    ensures q >= p + 20
  {
    StampOctets(t, p);
  }

  lemma {:induction false} EntryLengths(t: Text, i: nat)
    requires i <= |t|
    ensures forall e :: e in EntriesFrom(t, i) ==> |e| >= 19
    decreases |t| - i
  {
    hide IsStamp;
    var p := NextStart(t, i);
    if p < |t| {
      var q := NextStart(t, p + 1);
      StartsApart(t, p, q);
      EntryLengths(t, q);
    }
  }

  /** The nineteen octets of a timestamp. */
  predicate ShowsStamp(e: Text) {
    |e| >= 19 && forall j :: 0 <= j < 19 ==> Fits(j, e[j])
  }

  /** Every entry begins with its whole timestamp. */
  lemma {:induction false} EntriesShowStamps(t: Text, i: nat)
    requires i <= |t|
    ensures forall e :: e in EntriesFrom(t, i) ==> ShowsStamp(e)
    decreases |t| - i
  {
    hide IsStamp, ShowsStamp;
    var p := NextStart(t, i);
    if p < |t| {
      var q := NextStart(t, p + 1);
      StartsApart(t, p, q);
      FrontShows(t, p, q - 1);
      EntriesShowStamps(t, q);
    }
  }

  lemma FrontShows(t: Text, p: nat, e: nat)
    requires Start(t, p) && p + 19 <= e <= |t|
    ensures ShowsStamp(t[p..e])
  {
    FitsEach(t[p..p + 20], 0);
    forall j | 0 <= j < 19
      ensures Fits(j, t[p..e][j])
    {
      assert t[p..p + 20][j] == t[p + j];
    }
  }

  // ----- struct Source, as a value -----

  /** `innBuf[..innBuf_end]` is `text`; `unread` is what `fread` has not delivered yet. */
  datatype Src = Src(text: Text, cap: nat, beg: int, logBeg: int, logEnd: int,
                     isEof: bool, needMore: bool, noMore: bool, unread: Text)

  /** What one `fread` is willing to do: deliver `want` octets, and notice the end of file early or late. */
  datatype Read = Read(want: nat, eager: bool)

  const INITIAL_CAP: nat := 65536
  const GROW_STEP: nat := 4096
  const ENTRY_LIMIT: nat := 0xFFFFFF

  function Opened(file: Text): Src {
    Src([], INITIAL_CAP, 0, 0, 0, false, false, false, file)
  }

  /** How many octets arrive when there is space for `space`: at least one unless the file is drained. */
  function Delivered(space: nat, unread: Text, r: Read): (n: nat)
    ensures n <= space && n <= |unread|
    ensures n == 0 ==> space == 0 || unread == []
  {
    Min(Max(r.want, 1), Min(space, |unread|))
  }

  function Compact(s: Src): Src {
    var cnt := |s.text| - s.beg;
    if s.beg > cnt && cnt > 0 then
      s.(text := s.text[s.beg..], beg := 0,
         logBeg := if s.logBeg > 0 then s.logBeg - s.beg else s.logBeg,
         logEnd := if s.logEnd > 0 then s.logEnd - s.beg else s.logEnd)
    else s
  }

  function TakeIn(s: Src, r: Read): Src
    requires |s.text| <= s.cap
  {
    var n := Delivered(s.cap - |s.text|, s.unread, r);
    s.(text := s.text + s.unread[..n], unread := s.unread[n..],
       isEof := n == |s.unread| && (n == 0 || r.eager))
  }

  datatype Refilled = Reported(src: Src) | TooLarge(src: Src)

  /** `refillBufferForSourceByArg`, its grow-and-start-over included. */
  function Refill(s: Src, r: Read): Refilled
    requires |s.text| <= s.cap
    decreases s.needMore
  {
    var c := Compact(s);
    if c.cap > |c.text| && !c.isEof then Reported(TakeIn(c, r))
    else if !c.needMore then Reported(c)
    else if |c.text| - c.beg > ENTRY_LIMIT then TooLarge(c)
    else Refill(c.(needMore := false, cap := c.cap + GROW_STEP), r)
  }

  /** When a refill gives up, and when it makes the buffer larger, in terms of the state before it. */
  lemma GivesUpIff(s: Src, r: Read)
    requires 0 <= s.beg <= |s.text| <= s.cap
    ensures var cnt := |s.text| - s.beg;
            var stuck := s.needMore && (s.isEof || (|s.text| == s.cap && (s.beg <= cnt || cnt == 0)));
            && (Refill(s, r).TooLarge? <==> stuck && cnt > 0xFFFFFF)
            && Refill(s, r).src.cap == (if stuck && cnt <= 0xFFFFFF then s.cap + 4096 else s.cap)
  {
    hide Delivered;
    var c := Compact(s);
    var g := c.(needMore := false, cap := c.cap + GROW_STEP);
    assert !Refill(g, r).TooLarge? && Refill(g, r).src.cap == g.cap;
  }

  /** Where the scan for the begin of an entry stops: only at `beg` itself no line feed has to precede. */
  function ScanBegin(t: Text, beg: nat): (p: nat)
    requires beg <= |t|
    ensures beg <= p <= |t|
    ensures p < |t| ==> Hit(t, p)
  {
    if beg == |t| || Hit(t, beg) then beg else NextStart(t, beg + 1)
  }

  /** `markLogEntryForSourceByArg`. */
  function Mark(s: Src): Src
    requires 0 <= s.beg <= |s.text|
  {
    var p := ScanBegin(s.text, s.beg);
    if p == |s.text| then
      if s.isEof then s.(noMore := true) else s.(needMore := true)
    else
      var q := NextStart(s.text, p + 1);
      if q < |s.text| || s.isEof then s.(logBeg := p, logEnd := q - 1)
      else s.(logBeg := p, needMore := true)
  }

  /** How an entry is marked as consumed. */
  function Consume(s: Src): Src {
    s.(beg := s.logEnd, logBeg := s.logEnd)
  }

  // ----- the two agree -----

  /** Where in the file the window `text` begins when `unread` is still to come. */
  function Offset(text: Text, unread: Text, file: Text): int { |file| - |text| - |unread| }

  ghost predicate Window(text: Text, unread: Text, file: Text) {
    var off, end := Offset(text, unread, file), |file| - |unread|;
    && off >= 0
    && (forall i :: 0 <= i < |text| ==> text[i] == file[off + i])
    && (forall i :: 0 <= i < |unread| ==> unread[i] == file[end + i])
  }

  /** Behind `b` the file holds exactly the entries `rest`. */
  ghost predicate Rest(file: Text, b: int, rest: seq<Text>) {
    && 0 <= b <= |file|
    && (b == 0 || !Hit(file, b))
    && EntriesFrom(file, b) == rest
  }

  /** What `s` holds and still reads of `file` shows exactly the entries `rest`. */
  ghost predicate Shows(s: Src, file: Text, rest: seq<Text>) {
    && Window(s.text, s.unread, file)
    && 0 <= s.beg <= |s.text| <= s.cap
    && s.beg <= s.logBeg <= |s.text| && s.beg <= s.logEnd <= |s.text|
    && (s.isEof ==> s.unread == [])
    && Rest(file, Offset(s.text, s.unread, file) + s.beg, rest)
    && (s.noMore ==> s.isEof && rest == [])
  }

  /** The current entry of `s` is marked, or `s` is known to have none. */
  ghost predicate Settled(s: Src, file: Text, rest: seq<Text>) {
    if s.noMore then rest == []
    else
      && rest != []
      && 0 <= s.beg <= s.logBeg <= s.logEnd < |s.text|
      && s.text[s.logBeg..s.logEnd] == rest[0]
      && Rest(file, Offset(s.text, s.unread, file) + s.logEnd, rest[1..])
  }

  /** Matching is monotone: a stamp seen in the window is a stamp of the file, and the other way round. */
  lemma HitInWindow(s: Src, file: Text, p: int)
    requires Window(s.text, s.unread, file) && 0 <= p && p + 21 <= |s.text|
    ensures Hit(s.text, p) <==> Hit(file, Offset(s.text, s.unread, file) + p)
    ensures p > 0 ==> (Start(s.text, p) <==> Start(file, Offset(s.text, s.unread, file) + p))
  {
    var off := Offset(s.text, s.unread, file);
    assert s.text[p..p + 20] == file[off + p..off + p + 20];
  }

  /** Scanning the window finds what scanning the file finds, once found or once the file has ended. */
  lemma {:induction false} NextStartInWindow(s: Src, file: Text, i: nat)
    requires Window(s.text, s.unread, file) && 1 <= i <= |s.text|
    requires NextStart(s.text, i) < |s.text| || s.unread == []
    ensures NextStart(file, Offset(s.text, s.unread, file) + i) == Offset(s.text, s.unread, file) + NextStart(s.text, i)
    decreases |s.text| - i
  {
    hide Window, IsStamp;
    if i < |s.text| {
      if i + 21 <= |s.text| {
        HitInWindow(s, file, i);
      }
      if !Start(s.text, i) {
        NextStartInWindow(s, file, i + 1);
      }
    }
  }

  lemma HitHasRoom(t: Text, p: int)
    ensures Hit(t, p) ==> 0 <= p && p + 21 <= |t|
  {
  }

  lemma ScanBeginInWindow(s: Src, file: Text, rest: seq<Text>)
    requires Shows(s, file, rest)
    requires ScanBegin(s.text, s.beg) < |s.text| || s.unread == []
    ensures NextStart(file, Offset(s.text, s.unread, file) + s.beg)
            == Offset(s.text, s.unread, file) + ScanBegin(s.text, s.beg)
  {
    hide Window, Hit, EntriesFrom;
    HitHasRoom(s.text, s.beg);
    HitHasRoom(s.text, ScanBegin(s.text, s.beg));
    HitHasRoom(file, Offset(s.text, s.unread, file) + s.beg);
    if s.beg < |s.text| {
      if s.beg + 21 <= |s.text| {
        HitInWindow(s, file, s.beg);
      }
      if !Hit(s.text, s.beg) {
        NextStartInWindow(s, file, s.beg + 1);
      }
    }
  }

  lemma OpenedShows(file: Text)
    ensures Shows(Opened(file), file, Entries(file))
  {
  }

  lemma DropWindow(text: Text, unread: Text, file: Text, n: nat)
    requires Window(text, unread, file) && n <= |text|
    ensures Window(text[n..], unread, file)
  {
  }

  /** `t` still has `beg`, `logBeg` and `logEnd` on the same octets of the file as `s`, and marks the same text. */
  ghost predicate SamePlaces(s: Src, t: Src, file: Text) {
    var d := Offset(t.text, t.unread, file) - Offset(s.text, s.unread, file);
    && t.beg + d == s.beg && t.logBeg + d == s.logBeg && t.logEnd + d == s.logEnd
    && (0 <= s.logBeg <= s.logEnd <= |s.text| ==>
          && 0 <= t.logBeg <= t.logEnd <= |t.text|
          && t.text[t.logBeg..t.logEnd] == s.text[s.logBeg..s.logEnd])
  }

  lemma SamePlacesTwice(s: Src, t: Src, u: Src, file: Text)
    requires SamePlaces(s, t, file) && SamePlaces(t, u, file)
    ensures SamePlaces(s, u, file)
  {
  }

  /** What is settled stays settled while the marks stay on their octets. */
  lemma SettledStays(s: Src, t: Src, file: Text, rest: seq<Text>)
    requires SamePlaces(s, t, file) && Settled(s, file, rest) && t.noMore == s.noMore
    requires Shows(t, file, rest) && |t.unread| <= |s.unread|
    ensures Settled(t, file, rest)
  {
    hide Rest, Window;
  }

  lemma CompactSame(s: Src, file: Text)
    requires 0 <= s.beg <= |s.text| && s.beg <= s.logBeg && s.beg <= s.logEnd
    ensures SamePlaces(s, Compact(s), file)
  {
  }

  lemma CompactShows(s: Src, file: Text, rest: seq<Text>)
    requires Shows(s, file, rest)
    ensures Shows(Compact(s), file, rest)
  {
    hide Window, Rest;
    if Compact(s) != s {
      DropWindow(s.text, s.unread, file, s.beg);
    }
  }

  lemma CompactFlags(s: Src)
    ensures var c := Compact(s);
            && c.needMore == s.needMore && c.isEof == s.isEof && c.noMore == s.noMore && c.unread == s.unread
  {
  }

  lemma ShowsInside(s: Src, file: Text, rest: seq<Text>)
    requires Shows(s, file, rest)
    ensures 0 <= s.beg <= |s.text| <= s.cap && (s.noMore ==> rest == [])
  {
  }

  /** Moving the rest to the front rebases all indices onto the same octets, and keeps what is marked. */
  lemma CompactKeeps(s: Src, file: Text, rest: seq<Text>)
    requires Shows(s, file, rest)
    ensures Shows(Compact(s), file, rest) && SamePlaces(s, Compact(s), file) && Compact(s).unread == s.unread
    ensures Settled(s, file, rest) ==> Settled(Compact(s), file, rest)
  {
    hide Settled, SamePlaces, Window, Rest;
    CompactShows(s, file, rest);
    CompactSame(s, file);
    if Settled(s, file, rest) {
      SettledStays(s, Compact(s), file, rest);
    }
  }

  lemma TakeInWindow(text: Text, unread: Text, file: Text, n: nat)
    requires Window(text, unread, file) && n <= |unread|
    ensures Window(text + unread[..n], unread[n..], file)
  {
  }

  lemma TakeInKeeps(s: Src, file: Text, rest: seq<Text>, r: Read)
    requires Shows(s, file, rest) && !s.isEof
    ensures Shows(TakeIn(s, r), file, rest) && SamePlaces(s, TakeIn(s, r), file)
    ensures |TakeIn(s, r).unread| <= |s.unread|
  {
    TakeInWindow(s.text, s.unread, file, Delivered(s.cap - |s.text|, s.unread, r));
  }

  lemma GrowKeeps(s: Src, file: Text, rest: seq<Text>)
    requires Shows(s, file, rest)
    ensures Shows(s.(needMore := false, cap := s.cap + GROW_STEP), file, rest)
    ensures SamePlaces(s, s.(needMore := false, cap := s.cap + GROW_STEP), file)
  {
  }

  /** Compaction, growth and a read of any size keep the source showing the same entries. */
  lemma {:induction false} RefillKeeps(s: Src, file: Text, rest: seq<Text>, r: Read)
    requires Shows(s, file, rest)
    ensures Shows(Refill(s, r).src, file, rest) && SamePlaces(s, Refill(s, r).src, file)
    ensures Settled(s, file, rest) ==> Settled(Refill(s, r).src, file, rest)
    ensures |Refill(s, r).src.unread| <= |s.unread| && Refill(s, r).src.noMore == s.noMore
    decreases s.needMore
  {
    hide Shows, SamePlaces, Settled, Compact, Offset;
    ShowsInside(s, file, rest);
    var c := Compact(s);
    CompactKeeps(s, file, rest);
    CompactFlags(s);
    ShowsInside(c, file, rest);
    if c.cap > |c.text| && !c.isEof {
      TakeInKeeps(c, file, rest, r);
      assert Refill(s, r).src == TakeIn(c, r);
      SamePlacesTwice(s, c, TakeIn(c, r), file);
    } else if c.needMore && |c.text| - c.beg <= ENTRY_LIMIT {
      GrowKeeps(c, file, rest);
      var g := c.(needMore := false, cap := c.cap + GROW_STEP);
      RefillKeeps(g, file, rest, r);
      assert Refill(s, r) == Refill(g, r);
      SamePlacesTwice(s, c, g, file);
      SamePlacesTwice(s, g, Refill(g, r).src, file);
    }
    if Settled(s, file, rest) {
      SettledStays(s, Refill(s, r).src, file, rest);
    }
  }

  /** The octet in front of a start is a line feed and begins nothing, neither does the last octet. */
  lemma EntriesFromBefore(t: Text, q: nat)
    requires 0 < q <= |t| && (q < |t| ==> Start(t, q))
    ensures EntriesFrom(t, q - 1) == EntriesFrom(t, q)
    ensures !Hit(t, q - 1)
  {
    if Hit(t, q - 1) {
      StampOctets(t, q - 1);
    }
    assert NextStart(t, q - 1) == NextStart(t, q);
  }

  /** One entry further in the whole file. */
  lemma RestStep(file: Text, b: int, rest: seq<Text>, p: nat, e: nat)
    requires Rest(file, b, rest)
    requires NextStart(file, b) == p < |file| && NextStart(file, p + 1) == e + 1
    ensures p + 19 <= e
    ensures rest != [] && rest[0] == file[p..e]
    ensures Rest(file, e, rest[1..])
  {
    EntriesStep(file, b, p, e);
    assert Rest(file, e, rest[1..]) by {
      hide EntriesFrom, Hit;
    }
    hide *;
  }

  lemma EntriesStep(t: Text, b: nat, p: nat, e: nat)
    requires b <= |t| && NextStart(t, b) == p < |t| && NextStart(t, p + 1) == e + 1
    ensures p + 19 <= e < |t| && !Hit(t, e)
    ensures EntriesFrom(t, b) == [t[p..e]] + EntriesFrom(t, e)
  {
    hide IsStamp, Hit, Start, NextStart;
    StartsApart(t, p, e + 1);
    EntriesFromBefore(t, e + 1);
  }

  lemma EntryOfWindow(text: Text, unread: Text, file: Text, p: nat, q: nat)
    requires Window(text, unread, file) && p <= q <= |text|
    ensures text[p..q] == file[Offset(text, unread, file) + p..Offset(text, unread, file) + q]
  {
  }

  /** Consuming a settled entry leaves the source showing the entries behind it. */
  lemma ConsumeKeeps(s: Src, file: Text, rest: seq<Text>)
    requires Shows(s, file, rest) && Settled(s, file, rest) && !s.noMore
    ensures Shows(Consume(s), file, rest[1..])
  {
  }

  lemma MarkedEntry(s: Src, file: Text, rest: seq<Text>, p: nat, e: nat)
    requires Shows(s, file, rest) && s.beg <= p <= e < |s.text|
    requires NextStart(file, Offset(s.text, s.unread, file) + s.beg) == Offset(s.text, s.unread, file) + p
    requires NextStart(file, Offset(s.text, s.unread, file) + (p + 1)) == Offset(s.text, s.unread, file) + (e + 1)
    ensures rest != [] && s.text[p..e] == rest[0]
    ensures Rest(file, Offset(s.text, s.unread, file) + e, rest[1..])
  {
    hide Window, Hit, EntriesFrom, NextStart;
    var off := Offset(s.text, s.unread, file);
    RestStep(file, off + s.beg, rest, off + p, off + e);
    EntryOfWindow(s.text, s.unread, file, p, e);
  }

  /** Where an entry ends, seen from the window, is where it ends in the file. */
  lemma MarkedSettles(s: Src, file: Text, rest: seq<Text>)
    requires Shows(s, file, rest)
    requires ScanBegin(s.text, s.beg) < |s.text|
    requires NextStart(s.text, ScanBegin(s.text, s.beg) + 1) < |s.text| || s.isEof
    ensures Settled(Mark(s), file, rest)
  {
    hide Rest, Window, Start, Hit;
    var p := ScanBegin(s.text, s.beg);
    var e := NextStart(s.text, p + 1) - 1;
    ScanBeginInWindow(s, file, rest);
    NextStartInWindow(s, file, p + 1);
    assert Mark(s) == s.(logBeg := p, logEnd := e);
    MarkedEntry(s, file, rest, p, e);
  }

  lemma MarkKeeps(s: Src, file: Text, rest: seq<Text>)
    requires Shows(s, file, rest)
    ensures Shows(Mark(s), file, rest)
  {
    hide Window, Hit, Start;
    if ScanBegin(s.text, s.beg) == |s.text| && s.isEof {
      ScanBeginInWindow(s, file, rest);
    }
  }

  /** Rescanning from the start as often as one likes settles on the next entry of the whole file. */
  lemma MarkShowsNextEntry(s: Src, file: Text, rest: seq<Text>)
    requires Shows(s, file, rest)
    ensures Shows(Mark(s), file, rest)
    ensures !Mark(s).needMore ==> Settled(Mark(s), file, rest)
  {
    hide Shows, NextStart, ScanBegin, Rest, Offset;
    ShowsInside(s, file, rest);
    MarkKeeps(s, file, rest);
    ShowsInside(Mark(s), file, rest);
    if ScanBegin(s.text, s.beg) < |s.text| && !Mark(s).needMore {
      MarkedSettles(s, file, rest);
    }
  }

  // ----- the C ints stay small -----

  const MAX_CAP: nat := 2 * ENTRY_LIMIT + GROW_STEP

  /** A buffer that fits a C `int`; after the end of file a stale need-more flag can grow it once more. */
  predicate Sized(s: Src) {
    && 0 <= s.beg <= |s.text| <= s.cap
    && (s.beg < |s.text| || s.beg == 0)
    && s.cap <= MAX_CAP + (if s.isEof && !s.needMore then GROW_STEP else 0)
  }

  lemma OpenedSized(file: Text)
    ensures Sized(Opened(file))
  {
  }

  lemma {:induction false} RefillStaysSized(s: Src, r: Read)
    requires Sized(s)
    ensures Sized(Refill(s, r).src) && Refill(s, r).src.cap < 0x8000_0000
    decreases s.needMore
  {
    var c := Compact(s);
    if !(c.cap > |c.text| && !c.isEof) && c.needMore && |c.text| - c.beg <= ENTRY_LIMIT {
      RefillStaysSized(c.(needMore := false, cap := c.cap + GROW_STEP), r);
    }
  }

  lemma MarkStaysSized(s: Src, file: Text, rest: seq<Text>)
    requires Sized(s) && Shows(s, file, rest)
    ensures Sized(Mark(s))
    ensures Settled(Mark(s), file, rest) && !Mark(s).noMore ==> Sized(Consume(Mark(s)))
  {
  }
}
