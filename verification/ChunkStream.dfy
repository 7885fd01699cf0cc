/** `ByteChunkOStream`: collects octets in a buffer and hands them over as arrays, one chunk at a time. */
module ChunkStream {
  import opened Bytes
  import opened Sequences

  /** The full chunks that bytes lead to: the last one stays in the buffer, full or not, until more is to come. */
  function FullChunks(size: nat, s: seq<Byte>): seq<seq<Byte>>
    requires size > 0
  {
    if |s| <= size then [] else [s[..size]] + FullChunks(size, s[size..])
  }

  function Tail(size: nat, s: seq<Byte>): seq<Byte>
    requires size > 0
  {
    if |s| <= size then s else Tail(size, s[size..])
  }

  /** Nothing is lost, and every full chunk has exactly the chunk size. */
  lemma {:induction false} ChunksAreAll(size: nat, s: seq<Byte>)
    requires size > 0
    ensures Concat(FullChunks(size, s)) + Tail(size, s) == s
    ensures forall k :: 0 <= k < |FullChunks(size, s)| ==> |FullChunks(size, s)[k]| == size
    ensures |Tail(size, s)| <= size && (s != [] ==> Tail(size, s) != [])
  {
    if |s| > size {
      var first, rest, tail := s[..size], FullChunks(size, s[size..]), Tail(size, s[size..]);
      ChunksAreAll(size, s[size..]);
      assert FullChunks(size, s) == [first] + rest && Tail(size, s) == tail;
      hide FullChunks, Tail;
      ConcatBoth([first], rest);
      ConcatOne(first);
      hide Concat;
      Regroup(first, Concat(rest), tail);
      assert s == first + s[size..];
    }
  }

  /** The sizes of the writes make no difference: what is left in the buffer and what follows give the same chunks. */
  lemma {:induction false} ChunksGoOn(size: nat, a: seq<Byte>, b: seq<Byte>)
    requires size > 0
    ensures FullChunks(size, a + b) == FullChunks(size, a) + FullChunks(size, Tail(size, a) + b)
    ensures Tail(size, a + b) == Tail(size, Tail(size, a) + b)
  {
    if |a| <= size {
      assert [] + FullChunks(size, a + b) == FullChunks(size, a + b);
    } else {
      ChunksGoOn(size, a[size..], b);
      assert (a + b)[size..] == a[size..] + b && (a + b)[..size] == a[..size];
      Regroup([a[..size]], FullChunks(size, a[size..]), FullChunks(size, Tail(size, a) + b));
    }
  }

  /** What callers do to the stream. */
  datatype Op = Wrote(bytes: seq<Byte>) | Flushed

  /** What the stream has handed over so far, and what its buffer holds. */
  function Chunks(size: nat, ops: seq<Op>): seq<seq<Byte>>
    requires size > 0
  {
    if ops == [] then []
    else
      var n := |ops| - 1;
      match ops[n]
      case Flushed =>
        if Buffered(size, ops[..n]) == [] then Chunks(size, ops[..n])
        else Chunks(size, ops[..n]) + [Buffered(size, ops[..n])]
      case Wrote(bytes) => Chunks(size, ops[..n]) + FullChunks(size, Buffered(size, ops[..n]) + bytes)
  }

  function Buffered(size: nat, ops: seq<Op>): seq<Byte>
    requires size > 0
  {
    if ops == [] then []
    else
      var n := |ops| - 1;
      match ops[n]
      case Flushed => []
      case Wrote(bytes) => Tail(size, Buffered(size, ops[..n]) + bytes)
  }

  function Written(ops: seq<Op>): seq<Byte> {
    if ops == [] then []
    else Written(ops[..|ops| - 1]) + if ops[|ops| - 1].Wrote? then ops[|ops| - 1].bytes else []
  }

  /** What was written since the last flush. */
  function Segment(ops: seq<Op>): seq<Byte> {
    if ops == [] || ops[|ops| - 1].Flushed? then []
    else Segment(ops[..|ops| - 1]) + ops[|ops| - 1].bytes
  }

  /** What was handed over before the last flush had ended. */
  function Earlier(size: nat, ops: seq<Op>): seq<seq<Byte>>
    requires size > 0
  {
    if ops == [] then []
    else if ops[|ops| - 1].Flushed? then Chunks(size, ops)
    else Earlier(size, ops[..|ops| - 1])
  }

  predicate Sized(size: nat, chunks: seq<seq<Byte>>) {
    forall k :: 0 <= k < |chunks| ==> 0 < |chunks[k]| <= size
  }

  lemma ChunksMore(size: nat, ops: seq<Op>)
    requires size > 0 && ops != []
    ensures var n := |ops| - 1;
            var chunks, held := Chunks(size, ops[..n]), Buffered(size, ops[..n]);
            if ops[n].Wrote? then
              && Chunks(size, ops) == chunks + FullChunks(size, held + ops[n].bytes)
              && Buffered(size, ops) == Tail(size, held + ops[n].bytes)
              && Written(ops) == Written(ops[..n]) + ops[n].bytes
            else
              && Chunks(size, ops) == (if held == [] then chunks else chunks + [held])
              && Buffered(size, ops) == [] && Written(ops) == Written(ops[..n])
  {
    hide FullChunks, Tail;
  }

  /** After any history the chunks and the buffer are all bytes written, and no chunk is empty or too long. */
  lemma {:induction false} HistoryIsKept(size: nat, ops: seq<Op>)
    requires size > 0
    ensures Concat(Chunks(size, ops)) + Buffered(size, ops) == Written(ops)
    ensures Sized(size, Chunks(size, ops)) && |Buffered(size, ops)| <= size
  {
    if ops == [] {
    } else {
      ChunksMore(size, ops);
      hide Chunks, Buffered, Written, FullChunks, Tail;
      var n := |ops| - 1;
      HistoryIsKept(size, ops[..n]);
      var chunks, held := Chunks(size, ops[..n]), Buffered(size, ops[..n]);
      if ops[n].Wrote? {
        var bytes := ops[n].bytes;
        ChunksAreAll(size, held + bytes);
        ConcatBoth(chunks, FullChunks(size, held + bytes));
        hide Concat;
        Regroup(Concat(chunks), Concat(FullChunks(size, held + bytes)), Tail(size, held + bytes));
        Regroup(Concat(chunks), held, bytes);
      } else {
        ConcatBoth(chunks, [held]);
        ConcatOne(held);
        hide Concat;
        assert Concat(chunks) + held + [] == Concat(chunks) + held;
      }
    }
  }

  /** Between two flushes only the bytes count, not how they were cut into writes: all chunks are full. */
  lemma {:induction false} SegmentChunks(size: nat, ops: seq<Op>)
    requires size > 0
    ensures Chunks(size, ops) == Earlier(size, ops) + FullChunks(size, Segment(ops))
    ensures Buffered(size, ops) == Tail(size, Segment(ops))
  {
    if ops != [] && ops[|ops| - 1].Wrote? {
      var n := |ops| - 1;
      SegmentChunks(size, ops[..n]);
      ChunksGoOn(size, Segment(ops[..n]), ops[n].bytes);
      hide FullChunks, Tail;
      Regroup(Earlier(size, ops[..n]), FullChunks(size, Segment(ops[..n])),
              FullChunks(size, Tail(size, Segment(ops[..n])) + ops[n].bytes));
    }
  }

  class ByteChunkOStream {
    const chunkSize: nat
    var buf: array?<Byte>
    var bufUsedBytes: nat
    /** The arrays that `onChunk` was given, and what was in them at that moment. */
    var published: seq<array<Byte>>
    ghost var chunks: seq<seq<Byte>>
    /** Whether there still is an end handler, and how often it ran. */
    var onEnd: bool
    var ended: nat
    ghost var ops: seq<Op>

    constructor (chunkSize: nat, onEnd: bool)
      requires chunkSize >= 1
      ensures Valid() && ops == [] && published == [] && this.chunkSize == chunkSize
      ensures fresh(buf) && this.onEnd == onEnd && ended == 0
    {
      this.chunkSize := chunkSize;
      buf := new Byte[chunkSize];
      bufUsedBytes, published, chunks, ops := 0, [], [], [];
      this.onEnd, ended := onEnd, 0;
    }

    ghost predicate Valid()
      reads this, buf
    {
      && chunkSize >= 1 && |published| == |chunks| && chunks == Chunks(chunkSize, ops)
      && Holds(Buffered(chunkSize, ops))
      && ended <= 1 && (onEnd ==> ended == 0)
    }

    /** The buffer holds `bytes` and belongs to nobody else. */
    ghost predicate Holds(bytes: seq<Byte>)
      reads this, buf
    {
      if buf == null then bufUsedBytes == 0 && bytes == []
      else buf.Length == chunkSize && bufUsedBytes <= chunkSize && buf !in published && buf[..bufUsedBytes] == bytes
    }

    /** Copies as much as still fits. */
    method AppendToBuffer(b: array<Byte>, off: nat, len: nat) returns (copied: nat)
      requires buf != null && bufUsedBytes <= buf.Length && b != buf && off + len <= b.Length
      modifies this`bufUsedBytes, buf
      ensures copied == if len <= buf.Length - old(bufUsedBytes) then len else buf.Length - old(bufUsedBytes)
      ensures bufUsedBytes == old(bufUsedBytes) + copied <= buf.Length
      ensures buf[..bufUsedBytes] == old(buf[..bufUsedBytes]) + b[off..off + copied]
    {
      var availSpace := buf.Length - bufUsedBytes;
      var bytesToCopy := if availSpace < len then availSpace else len;
      forall i | 0 <= i < bytesToCopy {
        buf[bufUsedBytes + i] := b[off + i];
      }
      bufUsedBytes := bufUsedBytes + bytesToCopy;
      return bytesToCopy;
    }

    method AppendByte(b: int) returns (copied: nat)
      requires buf != null && bufUsedBytes <= buf.Length
      modifies this`bufUsedBytes, buf
      ensures copied == if old(bufUsedBytes) < buf.Length then 1 else 0
      ensures bufUsedBytes == old(bufUsedBytes) + copied <= buf.Length
      ensures buf[..bufUsedBytes] == old(buf[..bufUsedBytes]) + if copied == 1 then [b % 256] else []
    {
      if bufUsedBytes < buf.Length {
        buf[bufUsedBytes] := b % 256;
        bufUsedBytes := bufUsedBytes + 1;
        return 1;
      } else {
        return 0;
      }
    }

    /** Hands the buffer over: the array itself if it is full, else a copy of what is used. */
    method PublishBuffer()
      requires buf != null ==> buf.Length == chunkSize && bufUsedBytes <= buf.Length && buf !in published
      requires buf == null ==> bufUsedBytes == 0
      requires |published| == |chunks|
      modifies this`buf, this`bufUsedBytes, this`published, this`chunks
      ensures bufUsedBytes == 0 && (buf == old(buf) || (old(buf) != null && fresh(buf)))
      ensures buf != null ==> buf.Length == chunkSize && buf !in published
      ensures old(bufUsedBytes) == 0 ==> published == old(published) && chunks == old(chunks) && buf == old(buf)
      ensures old(bufUsedBytes) > 0 ==>
                && buf != null && old(buf) != null && chunks == old(chunks) + [old(buf[..bufUsedBytes])]
                && |published| == |chunks| && old(published) <= published
                && published[|old(published)|][..] == old(buf[..bufUsedBytes])
                && (published[|old(published)|] == old(buf) || fresh(published[|old(published)|]))
    {
      if bufUsedBytes == 0 {
        return;
      }
      var bufToPublish: array<Byte>;
      if bufUsedBytes == buf.Length {
        bufToPublish := buf;
        buf := new Byte[chunkSize];
      } else {
        bufToPublish := new Byte[bufUsedBytes];
        forall i | 0 <= i < bufUsedBytes {
          bufToPublish[i] := buf[i];
        }
      }
      assert bufToPublish[..] == old(buf[..bufUsedBytes]);
      chunks := chunks + [bufToPublish[..]];
      bufUsedBytes := 0;
      published := published + [bufToPublish];
    }

    /** The arrays handed over since there were `n` hold what they held when they were handed over. */
    ghost predicate Untouched(n: nat)
      reads this, published
    {
      |published| == |chunks| && forall i :: n <= i < |published| ==> published[i][..] == chunks[i]
    }

    lemma AsHandedOver(n: nat)
      requires Untouched(n)
      ensures |published| == |chunks| && forall i :: n <= i < |published| ==> published[i][..] == chunks[i]
    {
    }

    /** One turn of the write loop: fills the buffer, and hands it over if something remains to be written. */
    method Turn(b: array<Byte>, off: nat, len: nat,
                ghost n: nat, ghost before: seq<seq<Byte>>, ghost bytes: seq<Byte>)
      returns (appendedBytes: nat)
      requires chunkSize > 0 && buf != null && b != buf && off + len <= b.Length && bufUsedBytes <= buf.Length
      requires Holds(buf[..bufUsedBytes]) && n <= |published| && Untouched(n)
      requires LeadsTo(chunkSize, chunks, buf[..bufUsedBytes] + b[off..off + len], before, bytes)
      modifies this`buf, this`bufUsedBytes, this`published, this`chunks, buf
      ensures appendedBytes <= len && (appendedBytes == 0 < len ==> old(bufUsedBytes) == chunkSize)
      ensures buf != null && (buf == old(buf) || fresh(buf)) && bufUsedBytes <= buf.Length
      ensures appendedBytes < len ==> bufUsedBytes == 0
      ensures Holds(buf[..bufUsedBytes]) && old(published) <= published && Untouched(n) && |published| == |chunks|
      ensures LeadsTo(chunkSize, chunks, buf[..bufUsedBytes] + b[off + appendedBytes..off + len], before, bytes)
    {
      hide LeadsTo;
      ghost var used := buf[..bufUsedBytes];
      appendedBytes := AppendToBuffer(b, off, len);
      assert b[off..off + len] == b[off..off + appendedBytes] + b[off + appendedBytes..off + len];
      Regroup(used, b[off..off + appendedBytes], b[off + appendedBytes..off + len]);
      if appendedBytes < len {
        HandedOver(chunkSize, chunks, buf[..bufUsedBytes], b[off + appendedBytes..off + len], before, bytes);
        PublishBuffer();
        assert buf[..0] + b[off + appendedBytes..off + len] == b[off + appendedBytes..off + len];
      }
    }

    /** The write loop: all of `b[off..off + len]` goes to the buffer, which is handed over whenever more is to come. */
    method WriteLoop(b: array<Byte>, off: nat, len: nat, ghost before: seq<seq<Byte>>, ghost bytes: seq<Byte>)
      requires chunkSize > 0 && buf != null && b != buf && off + len <= b.Length && bufUsedBytes <= buf.Length
      requires Holds(buf[..bufUsedBytes]) && |published| == |chunks|
      requires LeadsTo(chunkSize, chunks, buf[..bufUsedBytes] + b[off..off + len], before, bytes)
      modifies this`buf, this`bufUsedBytes, this`published, this`chunks, buf
      ensures buf != null && (buf == old(buf) || fresh(buf)) && bufUsedBytes <= buf.Length
      ensures Holds(Tail(chunkSize, bytes)) && chunks == before + FullChunks(chunkSize, bytes)
      ensures old(published) <= published && Untouched(|old(published)|)
    {
      ghost var n := |published|;
      assert Untouched(n);
      hide FullChunks, Tail, LeadsTo, Untouched;
      var at: nat, remainingBytes: nat := off, len;
      while true
        invariant at + remainingBytes == off + len
        invariant buf != null && b != buf && (buf == old(buf) || fresh(buf))
        invariant bufUsedBytes <= buf.Length && Holds(buf[..bufUsedBytes])
        invariant old(published) <= published && Untouched(n) && |published| == |chunks|
        invariant LeadsTo(chunkSize, chunks, buf[..bufUsedBytes] + b[at..off + len], before, bytes)
        decreases remainingBytes, if bufUsedBytes == chunkSize then 1 else 0
      {
        var appendedBytes := Turn(b, at, remainingBytes, n, before, bytes);
        at, remainingBytes := at + appendedBytes, remainingBytes - appendedBytes;
        if remainingBytes == 0 {
          break;
        }
      }
      assert buf[..bufUsedBytes] + b[off + len..off + len] == buf[..bufUsedBytes];
      AllBuffered(chunkSize, chunks, buf[..bufUsedBytes], before, bytes);
    }

    method Write(b: array<Byte>, off: nat, len: nat)
      requires Valid() && buf != null && b != buf && off + len <= b.Length
      modifies this`buf, this`bufUsedBytes, this`published, this`chunks, this`ops, buf
      ensures Valid() && buf != null && ops == old(ops) + [Wrote(old(b[off..off + len]))]
      ensures buf == old(buf) || fresh(buf)
      ensures chunks == Chunks(chunkSize, ops) && old(published) <= published && |published| == |chunks|
      ensures forall i :: |old(published)| <= i < |published| ==> published[i][..] == chunks[i]
    {
      ghost var bytes := b[off..off + len];
      ghost var held, n := Buffered(chunkSize, ops), |published|;
      WroteMore(chunkSize, ops, bytes);
      assert LeadsTo(chunkSize, chunks, held + bytes, chunks, held + bytes);
      hide FullChunks, Tail, Chunks, Buffered, LeadsTo, Untouched;
      WriteLoop(b, off, len, chunks, held + bytes);
      ops := ops + [Wrote(bytes)];
      AsHandedOver(n);
    }

    /** The loop for a single byte: a full buffer is handed over first. */
    method WriteByteLoop(b: int, ghost bytes: seq<Byte>)
      requires chunkSize > 0 && buf != null && bufUsedBytes <= buf.Length
      requires Holds(buf[..bufUsedBytes]) && |published| == |chunks| && bytes == buf[..bufUsedBytes] + [b % 256]
      modifies this`buf, this`bufUsedBytes, this`published, this`chunks, buf
      ensures buf != null && (buf == old(buf) || fresh(buf)) && bufUsedBytes <= buf.Length
      ensures Holds(Tail(chunkSize, bytes)) && chunks == old(chunks) + FullChunks(chunkSize, bytes)
      ensures old(published) <= published && Untouched(|old(published)|)
    {
      ghost var n, held := |published|, buf[..bufUsedBytes];
      OneByte(chunkSize, held, b % 256);
      hide FullChunks, Tail;
      while true
        invariant buf != null && (buf == old(buf) || fresh(buf)) && bufUsedBytes <= buf.Length
        invariant Holds(buf[..bufUsedBytes]) && old(published) <= published && Untouched(n)
        invariant || (buf[..bufUsedBytes] == held && chunks == old(chunks))
                  || (|held| == chunkSize && bufUsedBytes == 0 && chunks == old(chunks) + [held])
        decreases bufUsedBytes
      {
        ghost var used := buf[..bufUsedBytes];
        var appendedBytes := AppendByte(b);
        if appendedBytes == 0 {
          assert buf[..bufUsedBytes] == used + [] == used;
          PublishBuffer();
        } else {
          break;
        }
      }
    }

    method WriteByte(b: int)
      requires Valid() && buf != null
      modifies this`buf, this`bufUsedBytes, this`published, this`chunks, this`ops, buf
      ensures Valid() && buf != null && ops == old(ops) + [Wrote([b % 256])]
      ensures buf == old(buf) || fresh(buf)
      ensures chunks == Chunks(chunkSize, ops) && old(published) <= published && |published| == |chunks|
      ensures forall i :: |old(published)| <= i < |published| ==> published[i][..] == chunks[i]
    {
      ghost var bytes: seq<Byte> := [b % 256];
      ghost var held, n := Buffered(chunkSize, ops), |published|;
      WroteMore(chunkSize, ops, bytes);
      hide FullChunks, Tail, Chunks, Buffered, Untouched;
      WriteByteLoop(b, held + bytes);
      ops := ops + [Wrote(bytes)];
      AsHandedOver(n);
    }

    method Flush()
      requires Valid()
      modifies this`buf, this`bufUsedBytes, this`published, this`chunks, this`ops
      ensures Valid() && ops == old(ops) + [Flushed] && (buf == old(buf) || (old(buf) != null && fresh(buf)))
      ensures chunks == Chunks(chunkSize, ops) && old(published) <= published && |published| == |chunks|
      ensures forall i :: |old(published)| <= i < |published| ==> published[i][..] == chunks[i]
    {
      assert (ops + [Flushed])[..|ops|] == ops;
      PublishBuffer();
      ops := ops + [Flushed];
    }

    method Close()
      requires Valid()
      modifies this
      ensures Valid() && ops == old(ops) + [Flushed] && buf == null && !onEnd
      ensures ended == old(ended) + if old(onEnd) then 1 else 0
      ensures chunks == Chunks(chunkSize, ops) && old(published) <= published && |published| == |chunks|
      ensures forall i :: |old(published)| <= i < |published| ==> published[i][..] == chunks[i]
    {
      Flush();
      buf := null;
      var tmp := onEnd;
      onEnd := false;
      if tmp {
        ended := ended + 1;
      }
    }
  }

  lemma WroteMore(size: nat, ops: seq<Op>, bytes: seq<Byte>)
    requires size > 0
    ensures Chunks(size, ops + [Wrote(bytes)]) == Chunks(size, ops) + FullChunks(size, Buffered(size, ops) + bytes)
    ensures Buffered(size, ops + [Wrote(bytes)]) == Tail(size, Buffered(size, ops) + bytes)
  {
    assert (ops + [Wrote(bytes)])[..|ops|] == ops;
    hide FullChunks, Tail;
  }

  /** With `chunks` handed over and `rest` to come the outcome is that of `before` and `bytes`. */
  ghost predicate LeadsTo(size: nat, chunks: seq<seq<Byte>>, rest: seq<Byte>, before: seq<seq<Byte>>, bytes: seq<Byte>)
    requires size > 0
  {
    && chunks + FullChunks(size, rest) == before + FullChunks(size, bytes)
    && Tail(size, rest) == Tail(size, bytes)
  }

  lemma HandedOver(size: nat, chunks: seq<seq<Byte>>, used: seq<Byte>, rest: seq<Byte>,
                   before: seq<seq<Byte>>, bytes: seq<Byte>)
    requires size > 0 && |used| == size && rest != [] && LeadsTo(size, chunks, used + rest, before, bytes)
    ensures LeadsTo(size, chunks + [used], rest, before, bytes)
  {
    assert (used + rest)[..size] == used && (used + rest)[size..] == rest;
    Regroup(chunks, [used], FullChunks(size, rest));
  }

  lemma AllBuffered(size: nat, chunks: seq<seq<Byte>>, used: seq<Byte>, before: seq<seq<Byte>>, bytes: seq<Byte>)
    requires size > 0 && |used| <= size && LeadsTo(size, chunks, used, before, bytes)
    ensures chunks == before + FullChunks(size, bytes) && used == Tail(size, bytes)
  {
    assert chunks + [] == chunks;
  }

  lemma OneByte(size: nat, held: seq<Byte>, b: Byte)
    requires size > 0 && |held| <= size
    ensures FullChunks(size, held + [b]) == if |held| == size then [held] else []
    ensures Tail(size, held + [b]) == if |held| == size then [b] else held + [b]
  {
    assert |held| == size ==> (held + [b])[..size] == held && (held + [b])[size..] == [b];
  }
}
