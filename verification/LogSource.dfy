/** `struct Source` of LogMerge: the buffer that its two pool tasks change in place, against `LogText`. */
module LogSource {
  import opened Bytes
  import opened LogText

  /** What `memcpy` demands of its caller is that the two stretches do not overlap. */
  method MemCpy(dst: array<Byte>, d: nat, src: array<Byte>, s: nat, n: nat)
    requires d + n <= dst.Length && s + n <= src.Length
    requires dst == src ==> d + n <= s || s + n <= d
    modifies dst
    ensures dst[d..d + n] == old(src[s..s + n])
    ensures dst[..d] == old(dst[..d]) && dst[d + n..] == old(dst[d + n..])
  {
    for k := 0 to n
      invariant dst[d..d + k] == old(src[s..s + k])
      invariant dst[..d] == old(dst[..d])
      invariant forall i :: d + k <= i < dst.Length ==> dst[i] == old(dst[i])
      invariant forall i :: s <= i < s + n ==> src[i] == old(src[i])
    {
      dst[d + k] := src[s + k];
    }
  }

  method CopyIn(dst: array<Byte>, d: nat, data: Text)
    requires d + |data| <= dst.Length
    modifies dst
    ensures dst[d..d + |data|] == data && dst[..d] == old(dst[..d])
  {
    for k := 0 to |data|
      invariant dst[d..d + k] == data[..k] && dst[..d] == old(dst[..d])
    {
      dst[d + k] := data[k];
    }
  }

  class Source {
    var innBuf: array<Byte>
    var innBufBeg: int
    var innBufEnd: int
    var logBeg: int
    var logEnd: int
    var isEof: bool
    var needMore: bool
    var isNoMoreEntries: bool
    var fd: Text  // what the file has not delivered yet

    constructor (file: Text)
      ensures Valid() && View() == Opened(file) && fresh(innBuf)
      ensures innBuf.Length == 65536 && innBufEnd == 0 && fd == file
    {
      innBuf := new Byte[INITIAL_CAP];
      innBufBeg, innBufEnd, logBeg, logEnd := 0, 0, 0, 0;
      isEof, needMore, isNoMoreEntries := false, false, false;
      fd := file;
      new;
      assert innBuf[..0] == [];
    }

    ghost predicate Valid()
      reads this
    {
      0 <= innBufBeg <= innBufEnd <= innBuf.Length
    }

    ghost function View(): (s: Src)
      requires Valid()
      reads this, innBuf
      ensures s.text == innBuf[..innBufEnd] && s.beg == innBufBeg
    {
      Src(innBuf[..innBufEnd], innBuf.Length, innBufBeg, logBeg, logEnd, isEof, needMore, isNoMoreEntries, fd)
    }

    /** The part of the buffer task that moves what is left to the front: never onto itself. */
    method CompactBuffer()
      requires Valid()
      modifies this, innBuf
      ensures Valid() && innBuf == old(innBuf) && View() == Compact(old(View()))
      ensures needMore == old(needMore) && isEof == old(isEof)
    {
      var cnt := innBufEnd - innBufBeg;
      if innBufBeg > cnt && cnt > 0 {
        MemCpy(innBuf, 0, innBuf, innBufBeg, cnt);
        if logBeg > 0 { logBeg := logBeg - innBufBeg; }
        if logEnd > 0 { logEnd := logEnd - innBufBeg; }
        innBufEnd := innBufEnd - innBufBeg;
        innBufBeg := 0;
        assert innBuf[..innBufEnd] == old(innBuf[..innBufEnd])[old(innBufBeg)..];
      }
    }

    /** `fread` into the free tail of the buffer, and the end-of-file flag it may raise. */
    method ReadIntoTail(r: Read)
      requires Valid()
      modifies this, innBuf
      ensures Valid() && innBuf == old(innBuf) && View() == TakeIn(old(View()), r)
    {
      var n := Delivered(innBuf.Length - innBufEnd, fd, r);
      CopyIn(innBuf, innBufEnd, fd[..n]);
      isEof := n == |fd| && (n == 0 || r.eager);
      assert innBuf[..innBufEnd + n] == old(innBuf[..innBufEnd]) + fd[..n];
      innBufEnd := innBufEnd + n;
      fd := fd[n..];
    }

    method Grow()
      requires Valid()
      modifies this
      ensures Valid() && fresh(innBuf)
      ensures View() == old(View()).(needMore := false, cap := old(innBuf.Length) + GROW_STEP)
      ensures innBuf.Length == old(innBuf.Length) + 4096
    {
      needMore := false;
      var bigger := new Byte[innBuf.Length + GROW_STEP];
      MemCpy(bigger, 0, innBuf, 0, innBufEnd);
      innBuf := bigger;
    }

    /**
     * `refillBufferForSourceByArg`. `reported` is false when the program gives up on an oversized entry.
     * `assertHeld` is what line 391 asserts; a build with NDEBUG goes on regardless, as this method does.
     */
    method RefillBuffer(r: Read) returns (reported: bool, assertHeld: bool)
      requires Valid()
      modifies this, innBuf
      ensures Valid() && (innBuf == old(innBuf) || fresh(innBuf))
      ensures View() == Refill(old(View()), r).src
      ensures reported <==> Refill(old(View()), r).Reported?
      ensures assertHeld <==> !(old(needMore) && old(isEof))
      ensures !reported ==> old(needMore) && innBufEnd - innBufBeg > 0xFFFFFF
      ensures !old(needMore) ==> innBuf == old(innBuf)
      ensures innBuf != old(innBuf) ==> innBuf.Length == old(innBuf.Length) + 4096
      decreases needMore
    {
      hide Compact, TakeIn, Delivered;
      assertHeld := true;
      CompactBuffer();
      if innBuf.Length > innBufEnd && !isEof {
        ReadIntoTail(r);
      } else if needMore {
        assertHeld := !isEof;
        if innBufEnd - innBufBeg > ENTRY_LIMIT {
          reported := false;
          return;
        }
        Grow();
        var heldAgain: bool;
        reported, heldAgain := RefillBuffer(r);
        return;
      }
      reported := true;
    }

    /** `regexec` on the C string at `p` after the last octet has been blanked, which is then restored. */
    method MatchesAt(p: nat) returns (hit: bool)
      requires Valid() && p < innBufEnd
      modifies innBuf
      ensures innBuf[..] == old(innBuf[..])
      ensures hit <==> Hit(innBuf[..innBufEnd], p)
    {
      var bkup := innBuf[innBufEnd - 1];
      innBuf[innBufEnd - 1] := 0;
      var blanked := innBuf[..innBufEnd];
      hit := p + 20 <= |blanked| && IsStamp(blanked[p..p + 20]);
      innBuf[innBufEnd - 1] := bkup;
      BlankingCostsOneOctet(innBuf[..innBufEnd], blanked, p);
    }

    /**
     * The scan for the begin of an entry. It peeks one octet behind its position, at the end of a full buffer
     * even behind the allocation: `behind` is whatever lies there, and it never matters.
     */
    method FindBegin(behind: Byte) returns (err: nat)
      requires Valid()
      modifies innBuf
      ensures Valid() && innBuf[..] == old(innBuf[..])
      ensures err == ScanBegin(innBuf[..innBufEnd], innBufBeg)
    {
      ghost var t := innBuf[..innBufEnd];
      err := innBufBeg;
      while err < innBufEnd
        invariant innBufBeg <= err <= innBufEnd
        invariant innBuf[..] == old(innBuf[..]) && innBuf[..innBufEnd] == t
        invariant err > innBufBeg ==> ScanBegin(t, innBufBeg) == NextStart(t, err)
      {
        var next := Peek(err + 1, behind);
        HitPeeks(t, err);
        if !((err - innBufBeg > 0 && innBuf[err - 1] != LF) || innBuf[err] != 50 || next != 48) {
          var hit := MatchesAt(err);
          if hit { return; }
        }
        err := err + 1;
      }
    }

    /** The scan for the end of an entry, that is for the begin of the next one. */
    method FindNext(from: nat, behind: Byte) returns (err: nat)
      requires Valid() && 0 < from <= innBufEnd
      modifies innBuf
      ensures Valid() && innBuf[..] == old(innBuf[..])
      ensures err == NextStart(innBuf[..innBufEnd], from)
    {
      ghost var t := innBuf[..innBufEnd];
      err := from;
      while err < innBufEnd
        invariant from <= err <= innBufEnd
        invariant innBuf[..] == old(innBuf[..]) && innBuf[..innBufEnd] == t
        invariant NextStart(t, from) == NextStart(t, err)
      {
        var next := Peek(err + 1, behind);
        HitPeeks(t, err);
        if !(innBuf[err - 1] != LF || innBuf[err] != 50 || (innBufEnd - err > 0 && next != 48)) {
          var hit := MatchesAt(err);
          if hit { return; }
        }
        err := err + 1;
      }
    }

    /** `markLogEntryForSourceByArg`. */
    method MarkLogEntry(behind: Byte)
      requires Valid()
      modifies this`logBeg, this`logEnd, this`needMore, this`isNoMoreEntries, innBuf
      ensures Valid() && View() == Mark(old(View()))
    {
      hide ScanBegin, NextStart, Hit, Start;
      var err := FindBegin(behind);
      if err >= innBufEnd {
        if isEof { isNoMoreEntries := true; } else { needMore := true; }
        return;
      }
      logBeg := err;
      err := FindNext(err + 1, behind);
      if err >= innBufEnd && !isEof {
        needMore := true;
        return;
      }
      logEnd := err - 1;
    }

    method Peek(p: nat, behind: Byte) returns (b: Byte)
      requires Valid()
      ensures p < innBuf.Length ==> b == innBuf[p]
    {
      b := if p < innBuf.Length then innBuf[p] else behind;
    }

    /** How `writeLowestEntryToDst` marks the entry as consumed. */
    method MarkConsumed()
      requires Valid() && innBufBeg <= logEnd <= innBufEnd
      modifies this`innBufBeg, this`logBeg
      ensures Valid() && View() == Consume(old(View()))
    {
      logBeg := logEnd;
      innBufBeg := logBeg;
    }
  }

  /** Blanking the last octet hides exactly the stamps that have no octet to spare. */
  lemma BlankingCostsOneOctet(t: Text, blanked: Text, p: nat)
    requires p < |t| == |blanked| && blanked == t[|t| - 1 := 0]
    ensures p + 20 <= |blanked| && IsStamp(blanked[p..p + 20]) <==> Hit(t, p)
  {
    if p + 21 <= |t| {
      assert blanked[p..p + 20] == t[p..p + 20];
    } else if p + 20 == |t| {
      FitsEach(blanked[p..p + 20], 0);
      assert blanked[p..p + 20][19] == 0;
    }
  }

  /** Every match shows its first two octets inside the text, whatever lies behind it. */
  lemma HitPeeks(t: Text, p: nat)
    ensures Hit(t, p) ==> p + 1 < |t| && t[p] == 50 && t[p + 1] == 48
  {
    if Hit(t, p) {
      FitsEach(t[p..p + 20], 0);
      assert t[p..p + 20][0] == t[p] && t[p..p + 20][1] == t[p + 1];
    }
  }
}
