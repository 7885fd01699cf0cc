/** `ConcatInputStream`: several input streams, each of which may read short, as one. */
module ConcatStream {
  import opened Bytes
  import opened Sequences

  /** One of the concatenated streams: what it still has to give, and how often it was closed. */
  class Source {
    var data: seq<Byte>
    var closed: nat

    constructor (data: seq<Byte>)
      ensures this.data == data && closed == 0
    {
      this.data, closed := data, 0;
    }

    /** `InputStream.read`: -1 at the end, else at least one byte, but maybe fewer than there are and than asked for. */
    method Read(b: array<Byte>, off: nat, len: nat) returns (n: int)
      requires off + len <= b.Length && len > 0
      modifies this`data, b
      ensures if old(data) == [] then n == -1 && data == [] && b[..] == old(b[..])
              else 1 <= n <= len && n <= |old(data)| && data == old(data)[n..] && b[off..off + n] == old(data)[..n]
                   && b[..] == Spliced(old(b[..]), off, old(data)[..n])
    {
      if data == [] {
        return -1;
      }
      n :| 1 <= n <= len && n <= |data|;
      ghost var was, given := b[..], data[..n];
      forall i | 0 <= i < n {
        b[off + i] := data[i];
      }
      data := data[n..];
      assert b[..] == Spliced(was, off, given);
    }

    method ReadOne() returns (octet: int)
      modifies this`data
      ensures if old(data) == [] then octet == -1 && data == [] else octet == old(data)[0] && data == old(data)[1..]
    {
      if data == [] {
        return -1;
      }
      octet := data[0];
      data := data[1..];
    }

    method Close()
      modifies this`closed
      ensures closed == old(closed) + 1
    {
      closed := closed + 1;
    }
  }

  /** All that is left in some sources, one after the other. */
  ghost function Rest(sources: seq<Source>): seq<Byte>
    reads sources`data
  {
    if sources == [] then [] else sources[0].data + Rest(sources[1..])
  }

  /** What a source holds stands between what those before it and those behind it hold. */
  lemma {:induction false} RestInOrder(before: seq<Source>, src: Source, after: seq<Source>)
    ensures Rest([]) == [] && Rest(before + [src] + after) == Rest(before) + src.data + Rest(after)
  {
    if before == [] {
      assert (before + [src] + after)[1..] == after && Rest(before) == [];
      assert [] + src.data == src.data;
    } else {
      RestInOrder(before[1..], src, after);
      assert (before + [src] + after)[1..] == before[1..] + [src] + after;
      Regroup(before[0].data, Rest(before[1..]), src.data);
      Regroup(before[0].data, Rest(before[1..]) + src.data, Rest(after));
    }
  }

  ghost predicate Distinct(sources: seq<Source>) {
    forall i, j :: 0 <= i < j < |sources| ==> sources[i] != sources[j]
  }

  ghost predicate ClosedTimes(sources: seq<Source>, n: nat)
    reads sources`closed
  {
    forall i :: 0 <= i < |sources| ==> sources[i].closed == n
  }

  class ConcatInputStream {
    /** None once the stream is closed; a source is null once it is drained. */
    var sources: seq<Source?>
    var isClosed: bool
    var iSrc: nat
    ghost const all: seq<Source>
    /** All that the sources held at first, and what of it callers have been given. */
    ghost const whole: seq<Byte>
    ghost var delivered: seq<Byte>
    /** How many bytes callers have asked for in all. */
    ghost var asked: nat

    constructor (sources: seq<Source>)
      requires Distinct(sources) && ClosedTimes(sources, 0)
      ensures Valid() && !isClosed && all == sources && whole == Rest(sources) && delivered == [] && asked == 0
    {
      this.sources, isClosed, iSrc, all := sources, false, 0, sources;
      whole, delivered, asked := Rest(sources), [], 0;
      new;
      assert all[iSrc..] == all && all[..iSrc] == [];
    }

    ghost predicate Valid()
      reads this, all
    {
      && Distinct(all) && delivered == whole[..Min(asked, |whole|)]
      && (isClosed ==> sources == [] && ClosedTimes(all, 1))
      && (!isClosed ==> Open() && delivered + Left() == whole)
    }

    /** The drained sources were closed once and let go of, the others are untouched by `Close`. */
    ghost predicate Open()
      reads this, all
    {
      && iSrc <= |all| && |sources| == |all| && Distinct(all)
      && (forall i :: 0 <= i < iSrc ==> sources[i] == null)
      && (forall i :: iSrc <= i < |all| ==> sources[i] == all[i])
      && ClosedTimes(all[..iSrc], 1) && ClosedTimes(all[iSrc..], 0)
    }

    /** What the stream will still deliver. */
    ghost function Left(): seq<Byte>
      requires iSrc <= |all|
      reads this, all
    {
      Rest(all[iSrc..])
    }

    /**
     * Whatever calls were made, in whatever mix and however short the sources read: callers were given as many bytes as
     * they had asked for in all, or all there were, and those are the first ones of all there were.
     */
    lemma DeliveredInOrder()
      requires Valid()
      ensures |delivered| == Min(asked, |whole|) && delivered <= whole
      ensures !isClosed ==> iSrc <= |all| && delivered + Left() == whole && (Left() == [] <==> delivered == whole)
      ensures isClosed ==> forall i :: 0 <= i < |all| ==> all[i].closed == 1
    {
      if !isClosed {
        assert delivered + Left() == whole;
      }
    }

    predicate IsEof()
      requires !isClosed
      reads this
    {
      iSrc >= |sources|
    }

    /** A drained source is let go of first and closed then. */
    method ShiftToNextSource()
      requires Valid() && !isClosed && (iSrc < |all| ==> all[iSrc].data == [])
      modifies this, all
      ensures Valid() && !isClosed && Left() == old(Left()) && delivered == old(delivered) && asked == old(asked)
      ensures iSrc == old(iSrc) + if old(iSrc) < |all| then 1 else 0
    {
      if !IsEof() {
        OthersApart(all, iSrc);
        ghost var later := Rest(all[iSrc + 1..]);
        assert [] + later == later && all[iSrc..][1..] == all[iSrc + 1..];
        var oldSrc := sources[iSrc];
        sources := sources[iSrc := null];
        iSrc := iSrc + 1;
        oldSrc.Close();
        assert all[..iSrc] == all[..iSrc - 1] + [all[iSrc - 1]];
      }
    }

    /** Reads from the current source; if that is drained, nothing is read and the next source takes its place. */
    method ReadCurrent(b: array<Byte>, off: nat, len: nat) returns (n: nat)
      requires Valid() && !isClosed && iSrc < |all| == |sources| && off + len <= b.Length && len > 0
      modifies this, all, b
      ensures Valid() && !isClosed && iSrc == (if n == 0 then old(iSrc) + 1 else old(iSrc)) <= |all| == |sources|
      ensures n <= len && n <= |old(Left())| && Left() == old(Left())[n..]
      ensures delivered == old(delivered) + old(Left())[..n] && asked == old(asked) + n
      ensures b[..] == Spliced(old(b[..]), off, old(Left())[..n])
    {
      var src := sources[iSrc];
      OthersApart(all, iSrc);
      ghost var data, later := src.data, Rest(all[iSrc + 1..]);
      assert all[iSrc..][1..] == all[iSrc + 1..];
      hide ClosedTimes, Distinct;
      var readLen := src.Read(b, off, len);
      if readLen < 0 {
        SplicedNothing(b[..], off, Left());
        ShiftToNextSource();
        assert delivered + Left()[..0] == delivered;
        return 0;
      }
      FrontOfData(data, later, readLen);
      Regroup(delivered, (data + later)[..readLen], (data + later)[readLen..]);
      GivenIsFront(delivered, (data + later)[..readLen], (data + later)[readLen..], whole, asked);
      hide Spliced, Min;
      delivered, asked := delivered + (data + later)[..readLen], asked + readLen;
      return readLen;
    }

    method Read(b: array<Byte>, off: nat, len: nat) returns (n: int)
      requires Valid() && !isClosed && off + len <= b.Length
      modifies this, all, b
      ensures Valid() && !isClosed
      ensures n == -1 <==> len > 0 && old(Left()) == []
      ensures n != -1 ==> n == if len <= |old(Left())| then len else |old(Left())|
      ensures n == -1 ==> Left() == [] && b[..] == old(b[..])
      ensures n >= 0 ==> Left() == old(Left())[n..] && b[off..off + n] == old(Left())[..n]
      ensures n >= 0 ==> b[..off] == old(b[..off]) && b[off + n..] == old(b[off + n..])
      ensures delivered == old(delivered) + (if n >= 0 then old(Left())[..n] else []) && asked == old(asked) + len
    {
      hide Valid, Left, Spliced, Rest, Gave;
      Bound();
      ghost var left, before, earlier := Left(), b[..], delivered;
      var copied: nat := 0;
      GaveNothing(before, off, left, earlier);
      while true
        invariant Valid() && !isClosed && copied <= len && iSrc <= |all| == |sources|
        invariant Gave(before, off, left, earlier, copied, b[..], Left(), delivered) && asked == old(asked) + copied
        decreases |all| - iSrc, len - copied
      {
        GaveIs(before, off, left, earlier, copied, b[..], Left(), delivered);
        if copied == len {
          return len;
        }
        if IsEof() {
          Drained();
          AskedInVain(len - copied);
          return if copied == 0 then -1 else copied;
        }
        ghost var b1, left1, delivered1 := b[..], Left(), delivered;
        var readLen := ReadCurrent(b, off + copied, len - copied);
        GaveMore(before, off, left, earlier, copied, b1, left1, delivered1, readLen, b[..], Left(), delivered);
        copied := copied + readLen;
      }
    }

    /** What is asked for when nothing is left makes no difference. */
    ghost method AskedInVain(n: nat)
      requires Valid() && !isClosed && Left() == []
      modifies this`asked
      ensures Valid() && !isClosed && Left() == [] && asked == old(asked) + n
    {
      asked := asked + n;
    }

    lemma Bound()
      requires Valid() && !isClosed
      ensures iSrc <= |all| == |sources|
    {
    }

    lemma Drained()
      requires Valid() && !isClosed && IsEof()
      ensures iSrc <= |all| && Left() == []
    {
    }

    /** Like `ReadCurrent` for a single byte. */
    method ReadOneCurrent() returns (octet: int)
      requires Valid() && !isClosed && iSrc < |all| == |sources|
      modifies this, all
      ensures Valid() && !isClosed && iSrc <= |all| == |sources|
      ensures if octet == -1 then iSrc == old(iSrc) + 1 && Left() == old(Left())
              else old(Left()) != [] && octet == old(Left())[0] && Left() == old(Left())[1..]
      ensures delivered == old(delivered) + if octet == -1 then [] else [old(Left())[0]]
      ensures asked == old(asked) + if octet == -1 then 0 else 1
    {
      var src := sources[iSrc];
      OthersApart(all, iSrc);
      ghost var later := Rest(all[iSrc + 1..]);
      assert all[iSrc..][1..] == all[iSrc + 1..];
      octet := src.ReadOne();
      if octet == -1 {
        ShiftToNextSource();
      } else {
        Regroup(delivered, [octet], Left());
        GivenIsFront(delivered, [octet], Left(), whole, asked);
        delivered, asked := delivered + [octet], asked + 1;
      }
    }

    method ReadOne() returns (octet: int)
      requires Valid() && !isClosed
      modifies this, all
      ensures Valid() && !isClosed
      ensures octet == -1 <==> old(Left()) == []
      ensures if old(Left()) == [] then octet == -1 && Left() == []
              else octet == old(Left())[0] && Left() == old(Left())[1..]
      ensures delivered == old(delivered) + (if octet == -1 then [] else [octet]) && asked == old(asked) + 1
    {
      Bound();
      hide Valid, Left;
      while !IsEof()
        invariant Valid() && !isClosed && iSrc <= |all| == |sources| && Left() == old(Left())
        invariant delivered == old(delivered) && asked == old(asked)
        decreases |all| - iSrc
      {
        var read := ReadOneCurrent();
        if read == -1 {
          continue;
        }
        return read;
      }
      Drained();
      AskedInVain(1);
      return -1;
    }

    /** Closes the sources that were not drained; each source has then been closed exactly once. */
    method Close()
      requires Valid() && !isClosed
      modifies this, all
      ensures Valid() && isClosed && delivered == old(delivered) && asked == old(asked)
      ensures forall i :: 0 <= i < |all| ==> all[i].closed == 1
    {
      var i := iSrc;
      while i < |sources|
        invariant iSrc <= i <= |sources| == |all| && Distinct(all)
        invariant forall k :: i <= k < |all| ==> sources[k] == all[k]
        invariant forall k :: 0 <= k < i ==> all[k].closed == 1
        invariant forall k :: i <= k < |all| ==> all[k].closed == 0
        invariant delivered == old(delivered) && asked == old(asked)
      {
        var src := sources[i];
        src.Close();
        sources := sources[i := null];
        i := i + 1;
      }
      sources, isClosed := [], true;
    }
  }

  lemma FrontOfData(data: seq<Byte>, later: seq<Byte>, n: nat)
    requires n <= |data|
    ensures (data + later)[..n] == data[..n] && (data + later)[n..] == data[n..] + later
  {
  }

  /** As long as anything is left, what was given is as much as was asked for. */
  lemma GivenIsFront(delivered: seq<Byte>, given: seq<Byte>, rest: seq<Byte>, whole: seq<Byte>, asked: nat)
    requires delivered + given + rest == whole && given != [] && delivered == whole[..Min(asked, |whole|)]
    ensures asked == |delivered| && delivered + given == whole[..Min(asked + |given|, |whole|)]
  {
    assert (delivered + given + rest)[..|delivered| + |given|] == delivered + given;
  }

  lemma OthersApart(sources: seq<Source>, i: nat)
    requires Distinct(sources) && i < |sources|
    ensures sources[i] !in sources[i + 1..] && sources[i] !in sources[..i]
  {
  }

  /** `whole` with `given` in the place of as many bytes from `off` on. */
  function Spliced(whole: seq<Byte>, off: nat, given: seq<Byte>): seq<Byte>
    requires off + |given| <= |whole|
  {
    whole[..off] + given + whole[off + |given|..]
  }

  lemma SplicedNothing(whole: seq<Byte>, off: nat, left: seq<Byte>)
    requires off <= |whole|
    ensures Spliced(whole, off, left[..0]) == whole && left[0..] == left
  {
  }

  /** Of `left`, `n` bytes have been given, behind `off` in the caller's array and in this order. */
  ghost predicate Gave(before: seq<Byte>, off: nat, left: seq<Byte>, earlier: seq<Byte>,
                       n: nat, b: seq<Byte>, rest: seq<Byte>, delivered: seq<Byte>) {
    && n <= |left| && off + n <= |before|
    && b == Spliced(before, off, left[..n]) && rest == left[n..] && delivered == earlier + left[..n]
  }

  lemma GaveNothing(before: seq<Byte>, off: nat, left: seq<Byte>, earlier: seq<Byte>)
    requires off <= |before|
    ensures Gave(before, off, left, earlier, 0, before, left, earlier)
  {
  }

  lemma GaveIs(before: seq<Byte>, off: nat, left: seq<Byte>, earlier: seq<Byte>,
               n: nat, b: seq<Byte>, rest: seq<Byte>, delivered: seq<Byte>)
    requires Gave(before, off, left, earlier, n, b, rest, delivered)
    ensures n <= |left| && off + n <= |before| && |b| == |before|
    ensures b == Spliced(before, off, left[..n]) && rest == left[n..] && delivered == earlier + left[..n]
    ensures (rest == [] <==> n == |left|) && (n == 0 ==> b == before && delivered == earlier)
    ensures b[off..off + n] == left[..n] && b[..off] == before[..off] && b[off + n..] == before[off + n..]
  {
  }

  lemma GaveMore(before: seq<Byte>, off: nat, left: seq<Byte>, earlier: seq<Byte>,
                 n: nat, b: seq<Byte>, rest: seq<Byte>, delivered: seq<Byte>,
                 more: nat, b': seq<Byte>, rest': seq<Byte>, delivered': seq<Byte>)
    requires Gave(before, off, left, earlier, n, b, rest, delivered)
    requires more <= |rest| && off + n + more <= |before| == |b| && b' == Spliced(b, off + n, rest[..more])
    requires rest' == rest[more..] && delivered' == delivered + rest[..more]
    ensures Gave(before, off, left, earlier, n + more, b', rest', delivered')
  {
    SplicedMore(before, off, left, n, more);
    Regroup(earlier, left[..n], rest[..more]);
  }

  lemma SplicedMore(whole: seq<Byte>, off: nat, left: seq<Byte>, n: nat, more: nat)
    requires off + n + more <= |whole| && n + more <= |left|
    ensures |Spliced(whole, off, left[..n])| == |whole| && left[n..][more..] == left[n + more..]
    ensures left[..n] + left[n..][..more] == left[..n + more]
    ensures Spliced(Spliced(whole, off, left[..n]), off + n, left[n..][..more]) == Spliced(whole, off, left[..n + more])
  {
  }
}
