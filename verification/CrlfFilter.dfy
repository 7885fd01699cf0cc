/** `CRLFtoLFOutputStream`: a filter with one byte of state, against one pass of rewriting over its whole input. */
module CrlfFilter {
  import opened Bytes
  import opened Sequences

  const CR: Byte := 13

  /** No byte is held back. */
  const EMPTY: int := -42

  /** From left to right every CR LF becomes one LF. */
  function Rewrite(s: seq<Byte>): seq<Byte> {
    if s == [] then []
    else if |s| >= 2 && s[0] == CR && s[1] == LF then [LF] + Rewrite(s[2..])
    else [s[0]] + Rewrite(s[1..])
  }

  predicate EndsIn(s: seq<Byte>, b: Byte) { s != [] && s[|s| - 1] == b }

  /** How many bytes one step of the rewriting takes, and what it makes of them. */
  function Step(s: seq<Byte>): nat
    requires |s| >= 2
  {
    if s[0] == CR && s[1] == LF then 2 else 1
  }

  lemma RewriteStep(s: seq<Byte>, t: seq<Byte>)
    requires |s| >= 2
    ensures Rewrite(s) == [s[Step(s) - 1]] + Rewrite(s[Step(s)..])
    ensures Rewrite(s + t) == [s[Step(s) - 1]] + Rewrite(s[Step(s)..] + t)
    ensures EndsIn(s[Step(s)..], CR) == EndsIn(s, CR)
  {
    var n := Step(s);
    assert (s + t)[n..] == s[n..] + t;
    assert Rewrite(s + t) == [s[n - 1]] + Rewrite((s + t)[n..]);
  }

  lemma RewriteCons(b: Byte, s: seq<Byte>)
    ensures Rewrite([b] + s) == if b == CR && s != [] && s[0] == LF then [LF] + Rewrite(s[1..]) else [b] + Rewrite(s)
  {
    assert ([b] + s)[1..] == s;
    if s != [] {
      assert ([b] + s)[2..] == s[1..];
    }
  }

  /** One more byte takes the place of a CR before it, if it is an LF, and is appended otherwise. */
  lemma {:induction false} RewriteMore(s: seq<Byte>, b: Byte)
    ensures EndsIn(s, CR) ==> EndsIn(Rewrite(s), CR)
    ensures Rewrite(s + [b])
         == if EndsIn(s, CR) && b == LF then Rewrite(s)[..|Rewrite(s)| - 1] + [LF] else Rewrite(s) + [b]
  {
    if s == [] {
    } else if |s| == 1 {
      assert s == [s[0]] && s + [b] == [s[0]] + [b];
      RewriteCons(s[0], [b]);
    } else {
      var n := Step(s);
      var head, was := [s[n - 1]], Rewrite(s[n..]);
      RewriteStep(s, [b]);
      RewriteMore(s[n..], b);
      assert EndsIn(was, CR) ==> EndsIn(head + was, CR);
      assert EndsIn(s, CR) ==> was != [];
      hide *;
      Chopped(head, was, b);
    }
  }

  lemma Chopped(head: seq<Byte>, was: seq<Byte>, b: Byte)
    ensures was != [] ==> (head + was)[..|head + was| - 1] + [LF] == head + (was[..|was| - 1] + [LF])
    ensures (head + was) + [b] == head + (was + [b])
  {
  }

  /** The cut between `a` and `b` parts a CR from its LF. */
  predicate Parts(a: seq<Byte>, b: seq<Byte>) { EndsIn(a, CR) && b != [] && b[0] == LF }

  /** Rewriting in two pieces gives the same unless the cut parts a CR from its LF. */
  lemma {:induction false} RewriteCutIff(a: seq<Byte>, b: seq<Byte>)
    ensures Rewrite(a + b) == Rewrite(a) + Rewrite(b) <==> !Parts(a, b)
  {
    RewriteCut(a, b);
    hide Rewrite;
  }

  lemma RewriteCutOne(c: Byte, b: seq<Byte>)
    ensures if Parts([c], b) then |Rewrite([c] + b)| < |Rewrite([c])| + |Rewrite(b)|
            else Rewrite([c] + b) == Rewrite([c]) + Rewrite(b)
  {
    RewriteCons(c, b);
    assert Rewrite([c]) == [c];
    if Parts([c], b) {
      assert b == [b[0]] + b[1..];
      RewriteCons(b[0], b[1..]);
    }
    hide Rewrite;
  }

  lemma {:induction false} RewriteCut(a: seq<Byte>, b: seq<Byte>)
    ensures if Parts(a, b) then |Rewrite(a + b)| < |Rewrite(a)| + |Rewrite(b)|
            else Rewrite(a + b) == Rewrite(a) + Rewrite(b)
  {
    if a == [] {
      assert a + b == b;
    } else if |a| == 1 {
      assert a == [a[0]];
      RewriteCutOne(a[0], b);
      hide *;
    } else {
      var n := Step(a);
      RewriteStep(a, b);
      RewriteCut(a[n..], b);
      assert Parts(a[n..], b) == Parts(a, b);
      hide *;
      Regroup([a[n - 1]], Rewrite(a[n..]), Rewrite(b));
    }
  }

  predicate PairAt(s: seq<Byte>, k: nat) { k + 1 < |s| && s[k] == CR && s[k + 1] == LF }

  predicate TripleAt(s: seq<Byte>, k: nat) { k + 2 < |s| && s[k] == CR && s[k + 1] == CR && s[k + 2] == LF }

  ghost predicate HasPair(s: seq<Byte>) { exists k: nat :: PairAt(s, k) }

  ghost predicate HasTriple(s: seq<Byte>) { exists k: nat :: TripleAt(s, k) }

  lemma PairStep(b: Byte, s: seq<Byte>)
    ensures HasPair([b] + s) <==> (b == CR && s != [] && s[0] == LF) || HasPair(s)
  {
    var t := [b] + s;
    if k: nat :| PairAt(s, k) {
      assert PairAt(t, k + 1);
    }
    if k: nat :| PairAt(t, k) && k > 0 {
      assert PairAt(s, k - 1);
    }
    if b == CR && s != [] && s[0] == LF {
      assert PairAt(t, 0);
    }
  }

  lemma TripleStep(b: Byte, s: seq<Byte>)
    ensures HasTriple([b] + s) <==> (b == CR && PairAt(s, 0)) || HasTriple(s)
  {
    var t := [b] + s;
    if k: nat :| TripleAt(s, k) {
      assert TripleAt(t, k + 1);
    }
    if k: nat :| TripleAt(t, k) && k > 0 {
      assert TripleAt(s, k - 1);
    }
    if b == CR && PairAt(s, 0) {
      assert TripleAt(t, 0);
    }
  }

  /** The filter leaves a CR LF behind exactly where the input has two CR before an LF. */
  lemma {:induction false} PairLeftIff(s: seq<Byte>)
    ensures HasPair(Rewrite(s)) <==> HasTriple(s)
  {
    if s == [] {
    } else if |s| >= 2 && s[0] == CR && s[1] == LF {
      PairLeftIff(s[2..]);
      PairStep(LF, Rewrite(s[2..]));
      assert s == [s[0]] + s[1..] && s[1..] == [s[1]] + s[2..];
      TripleStep(s[0], s[1..]);
      TripleStep(s[1], s[2..]);
    } else {
      PairLeftIff(s[1..]);
      PairStep(s[0], Rewrite(s[1..]));
      assert s == [s[0]] + s[1..];
      TripleStep(s[0], s[1..]);
    }
  }

  /** What callers do to the stream; `write` looks at the low eight bits only. */
  datatype Op = Write(current: int) | Flush

  function Low(current: int): Byte { current % 256 }

  /** An octet is what it is, and nothing else of an `int` counts. */
  lemma LowOctet(current: int)
    ensures 0 <= current < 256 ==> Low(current) == current
    ensures Low(current + 256) == Low(current)
  {
  }

  /** What was written since the last flush. */
  function Segment(ops: seq<Op>): seq<Byte> {
    if ops == [] || ops[|ops| - 1].Flush? then []
    else Segment(ops[..|ops| - 1]) + [Low(ops[|ops| - 1].current)]
  }

  /** The segments between the flushes, each rewritten on its own. */
  function Rewritten(ops: seq<Op>): seq<Byte> {
    Before(ops) + Rewrite(Segment(ops))
  }

  /** The rewritten segments that a flush has ended. */
  function Before(ops: seq<Op>): seq<Byte> {
    if ops == [] then []
    else
      var earlier := ops[..|ops| - 1];
      if ops[|ops| - 1].Flush? then Before(earlier) + Rewrite(Segment(earlier)) else Before(earlier)
  }

  function Held(previous: int): seq<Byte>
    requires previous == EMPTY || 0 <= previous < 256
  {
    if previous == EMPTY then [] else [previous]
  }

  /**
   * The destination has everything but the byte held back; that byte is the last one written, and no CR is last
   * without being held.
   */
  ghost predicate Shows(dst: seq<Byte>, previous: int, ops: seq<Op>) {
    && (previous == EMPTY || 0 <= previous < 256)
    && dst + Held(previous) == Rewritten(ops)
    && (if previous == EMPTY then !EndsIn(Segment(ops), CR) else EndsIn(Segment(ops), previous))
  }

  // ----- what is left of CR LF, over whole histories -----

  /** The segments between the flushes that a flush has ended, the empty ones left out. */
  function Ended(ops: seq<Op>): seq<seq<Byte>>
    decreases |ops|, 0
  {
    if ops == [] then []
    else if ops[|ops| - 1].Flush? then Segments(ops[..|ops| - 1]) else Ended(ops[..|ops| - 1])
  }

  /** All segments that are not empty. */
  function Segments(ops: seq<Op>): seq<seq<Byte>>
    decreases |ops|, 1
  {
    Ended(ops) + if Segment(ops) == [] then [] else [Segment(ops)]
  }

  function RewriteAll(segs: seq<seq<Byte>>): seq<Byte> {
    if segs == [] then [] else RewriteAll(segs[..|segs| - 1]) + Rewrite(segs[|segs| - 1])
  }

  predicate NoneEmpty(segs: seq<seq<Byte>>) { forall s :: s in segs ==> s != [] }

  lemma RewriteAllMore(segs: seq<seq<Byte>>, s: seq<Byte>)
    ensures RewriteAll(segs + [s]) == RewriteAll(segs) + Rewrite(s)
  {
    assert (segs + [s])[..|segs|] == segs;
  }

  lemma {:induction false} RewrittenIsSegments(ops: seq<Op>)
    ensures Rewritten(ops) == RewriteAll(Segments(ops)) && Before(ops) == RewriteAll(Ended(ops))
    ensures NoneEmpty(Segments(ops)) && NoneEmpty(Ended(ops))
  {
    hide Rewrite, RewriteAll, NoneEmpty, Segment;
    RewriteNothing(Ended(ops));
    if ops != [] {
      RewrittenIsSegments(ops[..|ops| - 1]);
    }
    assert Before(ops) == RewriteAll(Ended(ops)) && NoneEmpty(Ended(ops));
    hide Before, Ended;
    RewriteAllMore(Ended(ops), Segment(ops));
    if Segment(ops) != [] {
      NoneEmptyMore(Ended(ops), Segment(ops));
    }
  }

  lemma RewriteNothing(segs: seq<seq<Byte>>)
    ensures Rewrite([]) == [] && RewriteAll([]) == [] && NoneEmpty([])
    ensures segs + [] == segs && RewriteAll(segs) + [] == RewriteAll(segs)
  {
  }

  lemma NoneEmptyMore(segs: seq<seq<Byte>>, s: seq<Byte>)
    requires NoneEmpty(segs) && s != []
    ensures NoneEmpty(segs + [s])
  {
  }

  /** An LF is the first thing that comes out. */
  predicate BeginsLine(s: seq<Byte>) { s != [] && (s[0] == LF || PairAt(s, 0)) }

  /** A segment has two CR before an LF, or it ends in CR and the next one begins with LF or CR LF. */
  ghost predicate TroubleAt(segs: seq<seq<Byte>>, k: nat) {
    k < |segs| && (HasTriple(segs[k]) || (k + 1 < |segs| && EndsIn(segs[k], CR) && BeginsLine(segs[k + 1])))
  }

  ghost predicate Troubled(segs: seq<seq<Byte>>) { exists k: nat :: TroubleAt(segs, k) }

  lemma {:induction false} RewriteEnds(s: seq<Byte>)
    requires s != []
    ensures Rewrite(s) != [] && (EndsIn(Rewrite(s), CR) <==> EndsIn(s, CR))
    ensures Rewrite(s)[0] == LF <==> BeginsLine(s)
  {
    if |s| >= 2 {
      var n := Step(s);
      RewriteStep(s, []);
      if s[n..] != [] {
        RewriteEnds(s[n..]);
      }
      hide Rewrite;
    }
  }

  lemma PairInBoth(a: seq<Byte>, b: seq<Byte>)
    ensures HasPair(a + b) <==> HasPair(a) || HasPair(b) || (EndsIn(a, CR) && b != [] && b[0] == LF)
  {
    if k: nat :| PairAt(a + b, k) {
      if k + 1 < |a| {
        assert PairAt(a, k);
      } else if k >= |a| {
        assert PairAt(b, k - |a|);
      }
    }
    if k: nat :| PairAt(a, k) {
      assert PairAt(a + b, k);
    }
    if k: nat :| PairAt(b, k) {
      assert PairAt(a + b, |a| + k);
    }
    if EndsIn(a, CR) && b != [] && b[0] == LF {
      assert PairAt(a + b, |a| - 1);
    }
  }

  lemma TroubledMore(segs: seq<seq<Byte>>, s: seq<Byte>)
    ensures Troubled(segs + [s])
            <==> Troubled(segs) || HasTriple(s) || (segs != [] && EndsIn(segs[|segs| - 1], CR) && BeginsLine(s))
  {
    hide HasTriple, BeginsLine, EndsIn;
    var more := segs + [s];
    if k: nat :| TroubleAt(more, k) {
      if k + 1 < |segs| {
        assert TroubleAt(segs, k);
      } else if k < |segs| && HasTriple(segs[k]) {
        assert TroubleAt(segs, k);
      }
    }
    if k: nat :| TroubleAt(segs, k) {
      assert TroubleAt(more, k);
    }
    if HasTriple(s) {
      assert TroubleAt(more, |segs|);
    }
    if segs != [] && EndsIn(segs[|segs| - 1], CR) && BeginsLine(s) {
      assert TroubleAt(more, |segs| - 1);
    }
  }

  /** Segments one after the other: the end of one and the begin of the next may make a new CR LF. */
  lemma {:induction false} SegmentsPairIff(segs: seq<seq<Byte>>)
    requires NoneEmpty(segs)
    ensures HasPair(RewriteAll(segs)) <==> Troubled(segs)
    ensures EndsIn(RewriteAll(segs), CR) <==> segs != [] && EndsIn(segs[|segs| - 1], CR)
  {
    if segs != [] {
      var earlier, s := segs[..|segs| - 1], segs[|segs| - 1];
      assert segs == earlier + [s];
      assert s in segs && forall e :: e in earlier ==> e in segs;
      SegmentsPairIff(earlier);
      PairLeftIff(s);
      RewriteEnds(s);
      PairInBoth(RewriteAll(earlier), Rewrite(s));
      TroubledMore(earlier, s);
      assert RewriteAll(segs) == RewriteAll(earlier) + Rewrite(s);
      hide Rewrite, HasPair, HasTriple, Troubled;
    }
  }

  /**
   * After any history of writes and flushes: a CR LF is left exactly if a segment between two flushes has two CR before
   * an LF, or ends in CR while the next one that is not empty begins with LF or CR LF.
   */
  lemma HistoryPairIff(ops: seq<Op>)
    ensures HasPair(Rewritten(ops)) <==> Troubled(Segments(ops))
  {
    hide Rewritten, Segments, RewriteAll, Troubled, HasPair;
    RewrittenIsSegments(ops);
    SegmentsPairIff(Segments(ops));
  }

  /** Lines one after the other, each with `end` behind it. */
  function WithEnds(lines: seq<seq<Byte>>, end: seq<Byte>): seq<Byte> {
    if lines == [] then [] else WithEnds(lines[..|lines| - 1], end) + lines[|lines| - 1] + end
  }

  lemma {:induction false} RewritePlain(s: seq<Byte>)
    requires 13 !in s
    ensures Rewrite(s) == s && Rewrite(s + [13, 10]) == s + [10]
  {
    if s == [] {
      assert s + [13, 10] == [13] + [10];
      RewriteCons(13, [10]);
    } else {
      RewritePlain(s[1..]);
      assert s == [s[0]] + s[1..] && s + [13, 10] == [s[0]] + (s[1..] + [13, 10]);
      RewriteCons(s[0], s[1..]);
      RewriteCons(s[0], s[1..] + [13, 10]);
      hide Rewrite;
    }
  }

  /** What the filter is for: lines that end in CR LF come out ending in LF. */
  lemma {:induction false} LinesConverted(lines: seq<seq<Byte>>)
    requires forall l :: l in lines ==> 13 !in l
    ensures Rewrite(WithEnds(lines, [13, 10])) == WithEnds(lines, [10])
  {
    if lines != [] {
      var n := |lines| - 1;
      var before := WithEnds(lines[..n], [13, 10]);
      LinesConverted(lines[..n]);
      RewritePlain(lines[n]);
      EndsPlainly(lines[..n]);
      hide Rewrite;
      RewriteCutIff(before, lines[n] + [13, 10]);
      assert WithEnds(lines, [13, 10]) == before + (lines[n] + [13, 10]);
    }
  }

  lemma EndsPlainly(lines: seq<seq<Byte>>)
    ensures !EndsIn(WithEnds(lines, [13, 10]), CR)
  {
  }

  /** An input from which a CR LF is left: two CR before an LF. */
  lemma TwoCarriageReturns()
    ensures Rewritten([Op.Write(13), Op.Write(13), Op.Write(10)]) == [CR, LF]
  {
    var none: seq<Op> := [];
    var c, l := Op.Write(13), Op.Write(10);
    assert none + [c] == [c] && [c] + [c] == [c, c] && [c, c] + [l] == [c, c, l];
    assert Segment(none) == [] && Before(none) == [];
    hide Segment, Before, Rewrite;
    NextWrite(none, 13);
    NextWrite([c], 13);
    NextWrite([c, c], 10);
    RewriteShort();
    assert Segment([c, c, l]) == [CR, CR, LF] && Before([c, c, l]) == [];
  }

  /** Another one, without any such triple: a flush between CR and LF. */
  lemma FlushBetween()
    ensures Rewritten([Op.Write(13), Flush, Op.Write(10)]) == [CR, LF]
  {
    var none: seq<Op> := [];
    var c, f, l := Op.Write(13), Flush, Op.Write(10);
    assert none + [c] == [c] && [c] + [f] == [c, f] && [c, f] + [l] == [c, f, l];
    assert Segment(none) == [] && Before(none) == [];
    hide Segment, Before, Rewrite;
    NextWrite(none, 13);
    NextFlush([c]);
    NextWrite([c, f], 10);
    RewriteShort();
    assert Segment([c]) == [CR] && Segment([c, f, l]) == [LF] && Before([c, f, l]) == [CR];
  }

  lemma RewriteShort()
    ensures Rewrite([CR]) == [CR] && Rewrite([LF]) == [LF] && Rewrite([CR, LF]) == [LF]
    ensures Rewrite([CR, CR, LF]) == [CR, LF]
  {
    RewriteCons(CR, [CR, LF]);
    RewriteCons(CR, [LF]);
  }

  class CRLFtoLFOutputStream {
    /** What the destination has received. */
    var dst: seq<Byte>
    var previous: int
    ghost var ops: seq<Op>

    constructor ()
      ensures Valid() && ops == [] && dst == []
    {
      dst, previous, ops := [], EMPTY, [];
    }

    ghost predicate Valid()
      reads this
    {
      Shows(dst, previous, ops)
    }

    method Write(current: int)
      requires Valid()
      modifies this
      ensures Valid() && ops == old(ops) + [Op.Write(current)]
      ensures 0 <= current < 256 ==> Segment(ops) == old(Segment(ops)) + [current]
      ensures old(dst) <= dst && |dst| <= |old(dst)| + 1
    {
      WriteShows(dst, previous, ops, current);
      NextWrite(ops, current);
      LowOctet(current);
      hide Shows, Segment;
      var current' := current % 256;
      if previous == CR && current' == LF {
        dst := dst + [current'];
        previous := EMPTY;
      } else if previous == EMPTY {
        previous := current';
      } else {
        dst := dst + [previous];
        previous := current';
      }
      ops := ops + [Op.Write(current)];
    }

    method Flush()
      requires Valid()
      modifies this
      ensures Valid() && ops == old(ops) + [Op.Flush]
      ensures previous == EMPTY && dst == Rewritten(old(ops)) == Rewritten(ops)
    {
      NextFlush(ops);
      if previous != EMPTY {
        var tmp := previous;
        previous := EMPTY;
        dst := dst + [tmp];
      }
      ops := ops + [Op.Flush];
    }
  }

  lemma WriteShows(dst: seq<Byte>, previous: int, ops: seq<Op>, current: int)
    requires Shows(dst, previous, ops)
    ensures previous == EMPTY || 0 <= previous < 256
    ensures var c, more := Low(current), ops + [Op.Write(current)];
            if previous == CR && c == LF then Shows(dst + [c], EMPTY, more)
            else if previous == EMPTY then Shows(dst, c, more)
            else Shows(dst + [previous], c, more)
  {
    var c, more := Low(current), ops + [Op.Write(current)];
    var was := Rewrite(Segment(ops));
    RewriteMore(Segment(ops), c);
    NextWrite(ops, current);
    assert EndsIn(Segment(ops) + [c], c);
    assert previous == CR <==> EndsIn(Segment(ops), CR);
    assert EndsIn(Segment(ops), CR) ==> EndsIn(was, CR);
    hide Rewrite, Segment, Before;
    if previous == CR && c == LF {
      LastApart(dst, CR, Before(ops), was);
      Regroup(Before(ops), was[..|was| - 1], [LF]);
      assert dst + [c] + Held(EMPTY) == dst + [LF];
    } else {
      Regroup(Before(ops), was, [c]);
      if previous == EMPTY {
        assert dst + [] == dst;
      }
    }
  }

  lemma LastApart(dst: seq<Byte>, b: Byte, before: seq<Byte>, was: seq<Byte>)
    requires dst + [b] == before + was && was != []
    ensures dst == before + was[..|was| - 1]
  {
    assert dst == (dst + [b])[..|dst|];
  }

  lemma NextWrite(ops: seq<Op>, current: int)
    ensures Segment(ops + [Op.Write(current)]) == Segment(ops) + [Low(current)]
    ensures Before(ops + [Op.Write(current)]) == Before(ops)
  {
    assert (ops + [Op.Write(current)])[..|ops|] == ops;
  }

  lemma NextFlush(ops: seq<Op>)
    ensures Segment(ops + [Flush]) == [] && Before(ops + [Flush]) == Rewritten(ops)
    ensures Rewritten(ops + [Flush]) == Rewritten(ops)
  {
    assert (ops + [Flush])[..|ops|] == ops;
  }
}
