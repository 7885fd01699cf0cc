/** `struct App` of LogMerge: picking the lowest head out of the source buffers and writing it. */
module LogPick {
  import opened Bytes
  import opened Sequences
  import opened LogText
  import opened LogMerge
  import opened LogOutput
  import opened LogSource

  method MemCmp(a: array<Byte>, i: nat, b: array<Byte>, j: nat, n: nat) returns (d: int)
    requires i + n <= a.Length && j + n <= b.Length
    ensures d == Cmp(a[i..i + n], b[j..j + n])
  {
    ghost var x, y := a[i..i + n], b[j..j + n];
    for k := 0 to n
      invariant a[i..i + k] == b[j..j + k]
    {
      if a[i + k] != b[j + k] {
        assert forall m :: 0 <= m < k ==> x[m] == a[i..i + k][m] == b[j..j + k][m] == y[m];
        CommonUnique(x, y, k);
        return a[i + k] as int - b[j + k] as int;
      }
    }
    CommonUnique(x, y, n);
    return 0;
  }

  /** `memcmp` over the shorter length compares the texts as far as both go. */
  lemma CmpOfShorter(a: Text, b: Text, n: nat)
    requires n == Min(|a|, |b|)
    ensures Cmp(a[..n], b[..n]) == Cmp(a, b)
  {
    CommonUnique(a[..n], b[..n], Common(a, b));
  }

  class App {
    const sources: seq<Source>
    const isDedupe: bool
    var lowestSrcIdx: nat
    var lastWrittenMsg: array<Byte>
    var lastWrittenMsgLen: nat
    var stdout: Text
    ghost var written: Log

    constructor (sources: seq<Source>, isDedupe: bool)
      ensures this.sources == sources && this.isDedupe == isDedupe
      ensures fresh(lastWrittenMsg) && lastWrittenMsgLen == 0 && stdout == [] && written == []
    {
      this.sources, this.isDedupe := sources, isDedupe;
      lowestSrcIdx, lastWrittenMsg, lastWrittenMsgLen, stdout, written := 0, new Byte[0], 0, [], [];
    }

    /** The sources hold the values `vs`, and they and all buffers are different objects. */
    ghost predicate Holds(vs: seq<Src>)
      reads this, sources, set i | 0 <= i < |sources| :: sources[i].innBuf
    {
      && |vs| == |sources|
      && lastWrittenMsgLen <= lastWrittenMsg.Length
      && (forall i :: 0 <= i < |sources| ==>
            sources[i].Valid() && sources[i].View() == vs[i] && sources[i].innBuf != lastWrittenMsg)
      && (forall i, j :: 0 <= i < j < |sources| ==>
            sources[i] != sources[j] && sources[i].innBuf != sources[j].innBuf)
    }

    ghost function Last(): Text
      requires lastWrittenMsgLen <= lastWrittenMsg.Length
      reads this, lastWrittenMsg
    {
      lastWrittenMsg[..lastWrittenMsgLen]
    }

    /**
     * `findOldestLogEntryFromAllHeads`: false when no source has an entry left, otherwise `lowestSrcIdx` is
     * the source that the specification picks.
     */
    method FindOldest(ghost vs: seq<Src>) returns (found: bool)
      requires Holds(vs) && forall i :: 0 <= i < |vs| ==> Ready(vs[i])
      modifies this`lowestSrcIdx
      ensures found <==> AnyLive(OfferedBy(vs))
      ensures found ==> lowestSrcIdx == Pick(OfferedBy(vs))
    {
      hide Holds, Ready, Offered, LowestFrom, FirstLive;
      HoldsEach(vs);
      FindFirstLive(vs);
      if lowestSrcIdx >= |sources| {
        return false;
      }
      FindLowest(vs);
      return true;
    }

    /** The first loop: the first source that has an entry left. */
    method FindFirstLive(ghost vs: seq<Src>)
      requires |vs| == |sources| && forall i: nat :: i < |vs| ==> Kept(vs, i)
      modifies this`lowestSrcIdx
      ensures lowestSrcIdx == FirstLive(OfferedBy(vs), 0)
    {
      hide Ready;
      ghost var hs := OfferedBy(vs);
      lowestSrcIdx := 0;
      while lowestSrcIdx < |sources| && sources[lowestSrcIdx].isNoMoreEntries
        invariant lowestSrcIdx <= |sources|
        invariant FirstLive(hs, 0) == FirstLive(hs, lowestSrcIdx)
      {
        assert Kept(vs, lowestSrcIdx);
        lowestSrcIdx := lowestSrcIdx + 1;
      }
      if lowestSrcIdx < |sources| {
        assert Kept(vs, lowestSrcIdx);
        LiveIsOffered(vs[lowestSrcIdx]);
      }
    }

    /** The second loop: from index 1 on, whoever is less than the lowest so far. */
    method FindLowest(ghost vs: seq<Src>)
      requires |vs| == |sources| && forall i: nat :: i < |vs| ==> Kept(vs, i)
      requires lowestSrcIdx < |sources| && OfferedBy(vs)[lowestSrcIdx].At?
      modifies this`lowestSrcIdx
      ensures lowestSrcIdx == LowestFrom(OfferedBy(vs), old(lowestSrcIdx), 1)
    {
      hide Kept, LowestFrom, Cmp, Offered;
      ghost var hs := OfferedBy(vs);
      var err := 1;
      while err < |sources|
        invariant 1 <= err && lowestSrcIdx < |sources| && hs[lowestSrcIdx].At?
        invariant LowestFrom(hs, old(lowestSrcIdx), 1) == LowestFrom(hs, lowestSrcIdx, err)
      {
        LowestStep(hs, lowestSrcIdx, err);
        var isLess := IsLess(vs, err, lowestSrcIdx);
        if isLess { lowestSrcIdx := err; }
        err := err + 1;
      }
      LowestStep(hs, lowestSrcIdx, err);
    }

    /** Whether source `i` has an entry left, and it is less than that of source `j`. */
    method IsLess(ghost vs: seq<Src>, i: nat, j: nat) returns (isLess: bool)
      requires |vs| == |sources| && i < |sources| && j < |sources| && Kept(vs, i) && Kept(vs, j)
      requires OfferedBy(vs)[j].At?
      ensures isLess <==> OfferedBy(vs)[i].At? && Cmp(OfferedBy(vs)[i].entry, OfferedBy(vs)[j].entry) < 0
    {
      hide Cmp;
      LiveIsOffered(vs[i]);
      LiveIsOffered(vs[j]);
      hide Offered;
      if sources[i].isNoMoreEntries {
        return false;
      }
      var diff := Compare(sources[i], sources[j]);
      return diff < 0;
    }

    ghost predicate Kept(vs: seq<Src>, i: nat)
      reads sources, set i | 0 <= i < |sources| :: sources[i].innBuf
    {
      i < |vs| == |sources| && sources[i].Valid() && sources[i].View() == vs[i] && Ready(vs[i])
    }

    lemma HoldsEach(vs: seq<Src>)
      requires Holds(vs) && forall i :: 0 <= i < |vs| ==> Ready(vs[i])
      ensures |vs| == |sources| && forall i: nat :: i < |vs| ==> Kept(vs, i)
    {
    }

    /** `memcmp` of two marked entries over the shorter of them. */
    method Compare(that: Source, othr: Source) returns (diff: int)
      requires that.Valid() && othr.Valid()
      requires Ready(that.View()) && !that.isNoMoreEntries && Ready(othr.View()) && !othr.isNoMoreEntries
      ensures diff == Cmp(Offered(that.View()).entry, Offered(othr.View()).entry)
    {
      hide Cmp;
      var n := Min(that.logEnd - that.logBeg, othr.logEnd - othr.logBeg);
      ghost var a, b := Offered(that.View()).entry, Offered(othr.View()).entry;
      diff := MemCmp(that.innBuf, that.logBeg, othr.innBuf, othr.logBeg, n);
      SliceOfEntry(that.innBuf[..], that.innBufEnd, that.logBeg, that.logEnd, n);
      SliceOfEntry(othr.innBuf[..], othr.innBufEnd, othr.logBeg, othr.logEnd, n);
      assert that.innBuf[that.logBeg..that.logBeg + n] == a[..n];
      assert othr.innBuf[othr.logBeg..othr.logBeg + n] == b[..n];
      CmpOfShorter(a, b, n);
    }

    /** Whether dedupe skips the entry that `src` offers. */
    method IsRepeated(src: Source) returns (skip: bool)
      requires src.Valid() && Ready(src.View()) && !src.isNoMoreEntries && lastWrittenMsgLen <= lastWrittenMsg.Length
      ensures skip <==> isDedupe && Drops(Last(), Offered(src.View()).entry)
    {
      hide Cmp;
      var n := Min(lastWrittenMsgLen, src.logEnd - src.logBeg);
      skip := false;
      if isDedupe && n > 0 {
        var diff := MemCmp(lastWrittenMsg, 0, src.innBuf, src.logBeg, n);
        skip := diff == 0;
        assert lastWrittenMsg[0..0 + n] == Last()[..n];
        SliceOfEntry(src.innBuf[..], src.innBufEnd, src.logBeg, src.logEnd, n);
        CmpOfShorter(Last(), Offered(src.View()).entry, n);
      }
    }

    /** Keeps a copy of the published entry, in a larger buffer if need be. */
    method KeepCopy(src: Source)
      requires src.Valid() && Ready(src.View()) && !src.isNoMoreEntries && src.innBuf != lastWrittenMsg
      modifies this`lastWrittenMsg, this`lastWrittenMsgLen, lastWrittenMsg
      ensures lastWrittenMsg == old(lastWrittenMsg) || fresh(lastWrittenMsg)
      ensures lastWrittenMsgLen <= lastWrittenMsg.Length && Last() == Offered(src.View()).entry
    {
      var cnt := src.logEnd - src.logBeg;
      if lastWrittenMsg.Length < cnt {
        lastWrittenMsg := new Byte[Max(cnt, 4096)];
      }
      MemCpy(lastWrittenMsg, 0, src.innBuf, src.logBeg, cnt);
      lastWrittenMsgLen := cnt;
      SliceOfEntry(src.innBuf[..], src.innBufEnd, src.logBeg, src.logEnd, cnt);
      assert Last() == lastWrittenMsg[0..0 + cnt];
    }

    /** Publishes the entry that `src` offers, and keeps a copy for later reference. */
    method Publish(src: Source)
      requires src.Valid() && Ready(src.View()) && !src.isNoMoreEntries && src.innBuf != lastWrittenMsg
      requires stdout == Rendered(written)
      modifies this`lastWrittenMsg, this`lastWrittenMsgLen, this`stdout, this`written, lastWrittenMsg
      ensures lastWrittenMsg == old(lastWrittenMsg) || fresh(lastWrittenMsg)
      ensures lastWrittenMsgLen <= lastWrittenMsg.Length && Last() == Offered(src.View()).entry
      ensures written == old(written) + [Offered(src.View()).entry] && stdout == Rendered(written)
    {
      var txt := src.innBuf[src.logBeg..src.logEnd];
      SliceOfEntry(src.innBuf[..], src.innBufEnd, src.logBeg, src.logEnd, src.logEnd - src.logBeg);
      stdout := stdout + Printed(txt) + [LF];
      written := written + [txt];
      assert written[..|written| - 1] == old(written);
      KeepCopy(src);
    }

    /** `writeLowestEntryToDst`, up to where it asks for more input. */
    method WriteLowest(ghost vs: seq<Src>)
      requires Holds(vs) && lowestSrcIdx < |sources|
      requires Ready(vs[lowestSrcIdx]) && !vs[lowestSrcIdx].noMore
      requires stdout == Rendered(written)
      modifies this`lastWrittenMsg, this`lastWrittenMsgLen, this`stdout, this`written
      modifies lastWrittenMsg, sources[lowestSrcIdx]
      ensures Holds(vs[lowestSrcIdx := Consume(vs[lowestSrcIdx])])
      ensures stdout == Rendered(written)
      ensures var e := Offered(vs[lowestSrcIdx]).entry;
              if isDedupe && Drops(old(Last()), e) then written == old(written) && Last() == old(Last())
              else written == old(written) + [e] && Last() == e
    {
      hide Rendered, Offered, Drops, Printed;
      var src := sources[lowestSrcIdx];
      PublishUnlessRepeated(vs);
      src.MarkConsumed();
    }

    method PublishUnlessRepeated(ghost vs: seq<Src>)
      requires Holds(vs) && lowestSrcIdx < |sources|
      requires Ready(vs[lowestSrcIdx]) && !vs[lowestSrcIdx].noMore
      requires stdout == Rendered(written)
      modifies this`lastWrittenMsg, this`lastWrittenMsgLen, this`stdout, this`written, lastWrittenMsg
      ensures Holds(vs) && (lastWrittenMsg == old(lastWrittenMsg) || fresh(lastWrittenMsg))
      ensures stdout == Rendered(written)
      ensures var e := Offered(vs[lowestSrcIdx]).entry;
              if isDedupe && Drops(old(Last()), e) then written == old(written) && Last() == old(Last())
              else written == old(written) + [e] && Last() == e
    {
      hide Rendered, Offered, Drops, Printed;
      var src := sources[lowestSrcIdx];
      assert src.View() == vs[lowestSrcIdx];
      var skip := IsRepeated(src);
      if !skip {
        Publish(src);
      }
    }
  }

  lemma LiveIsOffered(s: Src)
    requires Ready(s)
    ensures Offered(s).At? <==> !s.noMore
  {
  }

  /** One step of the scan over the heads. */
  lemma LowestStep(hs: seq<Head>, best: nat, i: nat)
    requires best < |hs| && hs[best].At?
    ensures i >= |hs| ==> LowestFrom(hs, best, i) == best
    ensures i < |hs| ==>
              LowestFrom(hs, best, i)
              == if hs[i].At? && Cmp(hs[i].entry, hs[best].entry) < 0 then LowestFrom(hs, i, i + 1)
                 else LowestFrom(hs, best, i + 1)
  {
  }

  lemma SliceOfEntry(buf: Text, end: int, beg: int, to: int, n: int)
    requires 0 <= beg <= to <= end <= |buf| && 0 <= n <= to - beg
    ensures buf[beg..beg + n] == buf[..end][beg..to][..n]
    ensures n == to - beg ==> buf[beg..beg + n] == buf[..end][beg..to]
  {
    assert buf[..end][beg..to] == buf[beg..to];
  }
}
