/** Encoder, wrapper and decoder together: what comes back when a byte string is encoded, wrapped and decoded. */
module RoundTrip {
  import opened Bytes
  import opened Base64
  import opened Wrap
  import opened PemDecode
  import opened Sequences

  lemma {:induction false} OrZero(a: nat)
    ensures BitOr(a, 0) == a
  {
    if a > 0 {
      OrZero(a / 2);
    }
  }

  lemma Halved(a: nat, h: nat)
    ensures a * (2 * h) / 2 == a * h && a * (2 * h) % 2 == 0
  {
    assert a * (2 * h) == 2 * (a * h);
  }

  /** Where no bit is set in both numbers, "or" is a sum. */
  lemma {:induction false} OrJoins(a: nat, b: nat, p: nat)
    requires p in {1, 2, 4, 8, 16, 32, 64} && b < p
    ensures BitOr(a * p, b) == a * p + b
  {
    if p == 1 {
      OrZero(a);
    } else {
      OrJoins(a, b / 2, p / 2);
      Halved(a, p / 2);
    }
  }

  /** The four letters of three bytes, as numbers. */
  lemma SextetsOf(a: Byte, b: Byte, c: Byte)
    ensures var n: nat := a * 65536 + b * 256 + c;
            && n / 262144 == a / 4 && n / 4096 % 64 == a % 4 * 16 + b / 16
            && n / 64 % 64 == b % 16 * 4 + c / 64 && n % 64 == c % 64
  {
    var n: nat := a * 65536 + b * 256 + c;
    DivUnique(n, 262144, a / 4, a % 4 * 65536 + b * 256 + c);
    DivUnique(n, 4096, a * 16 + b / 16, b % 16 * 256 + c);
    DivUnique(a * 16 + b / 16, 64, a / 4, a % 4 * 16 + b / 16);
    DivUnique(n, 64, a * 1024 + b * 4 + c / 64, c % 64);
    DivUnique(a * 1024 + b * 4 + c / 64, 64, a * 16 + b / 16, b % 16 * 4 + c / 64);
  }

  lemma FirstSum(s0: nat, s1: nat)
    requires s0 < 64 && s1 < 64
    ensures FirstByte(s0, s1) == s0 * 4 + s1 / 16
  {
    hide BitOr;
    OrJoins(s0, s1 / 16, 4);
  }

  lemma SecondSum(s1: nat, s2: nat)
    requires s1 < 64 && s2 < 64
    ensures SecondByte(s1, s2) == s1 % 16 * 16 + s2 / 4
  {
    hide BitOr;
    OrJoins(s1 % 16, s2 / 4, 16);
  }

  lemma ThirdSum(s2: nat, s3: nat)
    requires s2 < 64 && s3 < 64
    ensures ThirdByte(s2, s3) == s2 % 4 * 64 + s3
  {
    hide BitOr;
    OrJoins(s2 % 4, s3, 64);
  }

  lemma ThreeJoins(a: Byte, b: Byte, c: Byte)
    ensures Three(a / 4, a % 4 * 16 + b / 16, b % 16 * 4 + c / 64, c % 64) == [a, b, c]
  {
    var s1: nat, s2: nat := a % 4 * 16 + b / 16, b % 16 * 4 + c / 64;
    FirstSum(a / 4, s1);
    SecondSum(s1, s2);
    ThirdSum(s2, c % 64);
    hide FirstByte, SecondByte, ThirdByte;
    DivUnique(s1, 16, a % 4, b / 16);
    DivUnique(s2, 4, b % 16, c / 64);
    hide *;
    assert a / 4 * 4 + a % 4 == a && b / 16 * 16 + b % 16 == b && c / 64 * 64 + c % 64 == c;
  }

  lemma DoubledMod(x: nat, d: nat, h: nat)
    requires h > 0 && d < 2
    ensures (2 * x + d) % (2 * h) == 2 * (x % h) + d
  {
    assert x == h * (x / h) + x % h;
    assert x / h * (2 * h) == 2 * (h * (x / h));
    DivUnique(2 * x + d, 2 * h, x / h, 2 * (x % h) + d);
  }

  /** The low bits of an "or" with a multiple of `p`. */
  lemma {:induction false} OrLow(a: nat, b: nat, p: nat)
    requires p in {1, 2, 4, 8, 16, 32, 64}
    ensures BitOr(a * p, b) % p == b % p
  {
    if p > 1 {
      var h := p / 2;
      OrLow(a, b / 2, h);
      Halved(a, h);
      var x := BitOr(a * h, b / 2);
      assert BitOr(a * p, b) == 2 * x + b % 2;
      hide BitOr;
      DoubledMod(x, b % 2, h);
      DoubledMod(b / 2, b % 2, h);
    }
  }

  /** What a sextet is read as. */
  function Read(t: Table, v: nat): nat { if t.AsWritten? && v >= 62 then v + 1 else v }

  lemma LowKept(x: nat, p: nat)
    requires p in {4, 16, 64}
    ensures x % 256 % p == x % p
  {
    var q, m := x / 256, x % 256;
    if p == 4 {
      DivUnique(x, 4, q * 64 + m / 4, m % 4);
    } else if p == 16 {
      DivUnique(x, 16, q * 16 + m / 16, m % 16);
    } else {
      DivUnique(x, 64, q * 4 + m / 64, m % 64);
    }
  }

  lemma LowDiffers(x: nat, y: nat, p: nat)
    requires p in {4, 16, 64} && x % p != y % p
    ensures x % 256 != y % 256
  {
    LowKept(x, p);
    LowKept(y, p);
  }

  lemma ThirdDiffers(s2: nat, s3: nat)
    requires s2 < 64 && s3 < 64 && (s3 >= 62 || s2 == 62)
    ensures ThirdByte(Read(AsWritten, s2), Read(AsWritten, s3)) != ThirdByte(s2, s3)
  {
    hide BitOr;
    if s3 >= 62 {
      var r := Read(AsWritten, s2) % 4;
      OrLow(r, s3 + 1, 64);
      OrLow(s2 % 4, s3, 64);
      LowDiffers(BitOr(r * 64, s3 + 1), BitOr(s2 % 4 * 64, s3), 64);
    } else {
      OrJoins(3, s3, 64);
      OrJoins(2, s3, 64);
    }
  }

  lemma SecondDiffers(s1: nat, s2: nat)
    requires s1 < 64 && s2 < 64 && s2 != 62 && (s2 == 63 || s1 == 62)
    ensures SecondByte(Read(AsWritten, s1), Read(AsWritten, s2)) != SecondByte(s1, s2)
  {
    hide BitOr;
    if s2 == 63 {
      var r := Read(AsWritten, s1) % 16;
      OrLow(r, 16, 16);
      OrLow(s1 % 16, 15, 16);
      LowDiffers(BitOr(r * 16, 16), BitOr(s1 % 16 * 16, 15), 16);
    } else {
      OrJoins(15, s2 / 4, 16);
      OrJoins(14, s2 / 4, 16);
    }
  }

  lemma FirstDiffers(s0: nat, s1: nat)
    requires s0 < 64 && s1 < 64 && s1 != 62 && (s1 == 63 || s0 >= 62)
    ensures FirstByte(Read(AsWritten, s0), Read(AsWritten, s1)) != FirstByte(s0, s1)
  {
    hide BitOr;
    if s1 == 63 {
      var r := Read(AsWritten, s0);
      OrLow(r, 4, 4);
      OrLow(s0, 3, 4);
      LowDiffers(BitOr(r * 4, 4), BitOr(s0 * 4, 3), 4);
    } else {
      OrJoins(s0 + 1, s1 / 16, 4);
      OrJoins(s0, s1 / 16, 4);
    }
  }

  /** Read with the table as written, four sextets give their three bytes only if none of them is 62 or 63. */
  lemma MisreadIff(s0: nat, s1: nat, s2: nat, s3: nat)
    requires s0 < 64 && s1 < 64 && s2 < 64 && s3 < 64
    ensures s0 < 62 && s1 < 62 && s2 < 62 && s3 < 62 <==>
              Three(Read(AsWritten, s0), Read(AsWritten, s1), Read(AsWritten, s2), Read(AsWritten, s3))
              == Three(s0, s1, s2, s3)
  {
    if s3 >= 62 || s2 == 62 {
      ThirdDiffers(s2, s3);
    } else if s2 == 63 || s1 == 62 {
      SecondDiffers(s1, s2);
    } else if s1 == 63 || s0 >= 62 {
      FirstDiffers(s0, s1);
    }
    hide FirstByte, SecondByte, ThirdByte;
  }

  lemma DecodeValue(t: Table, c: char, rest: string, pending: seq<nat>)
    requires |pending| < 4 && Classify(t, c).Value?
    ensures Decode(t, [c] + rest, pending)
         == if |pending| < 3 then Later(Decode(t, rest, pending + [Classify(t, c).v]), [])
            else Later(Decode(t, rest, []), Three(pending[0], pending[1], pending[2], Classify(t, c).v))
  {
    assert ([c] + rest)[0] == c && ([c] + rest)[1..] == rest;
    hide Classify;
  }

  /** Four characters that stand for sextets give three bytes, and the decoder goes on afresh. */
  lemma DecodeQuad(t: Table, quad: string, rest: string)
    requires |quad| == 4 && forall k :: 0 <= k < 4 ==> Classify(t, quad[k]).Value?
    ensures var d := Decode(t, rest, []);
            Decode(t, quad + rest, [])
            == Decoded(Three(Classify(t, quad[0]).v, Classify(t, quad[1]).v,
                             Classify(t, quad[2]).v, Classify(t, quad[3]).v) + d.output, d.end, d.used + 4)
  {
    var v0, v1, v2 := Classify(t, quad[0]).v, Classify(t, quad[1]).v, Classify(t, quad[2]).v;
    hide Decode, Classify, Three;
    var r3 := [quad[3]] + rest;
    var r2 := [quad[2]] + r3;
    var r1 := [quad[1]] + r2;
    assert quad + rest == [quad[0]] + r1;
    DecodeValue(t, quad[0], r1, []);
    assert [] + [v0] == [v0] && [v0] + [v1] == [v0, v1] && [v0, v1] + [v2] == [v0, v1, v2];
    DecodeValue(t, quad[1], r2, [v0]);
    DecodeValue(t, quad[2], r3, [v0, v1]);
    DecodeValue(t, quad[3], rest, [v0, v1, v2]);
  }

  function Zeros(n: nat): (z: seq<Byte>)
    ensures |z| == n
  {
    seq(n, _ => 0)
  }

  /** How many pads the encoding of so many bytes has. */
  function Pads(n: nat): nat { if n % 3 == 0 then 0 else 3 - n % 3 }

  predicate Plain(text: string) { '+' !in text && '/' !in text }

  /** What a group of three bytes comes back as. */
  function Group3(t: Table, a: Byte, b: Byte, c: Byte): (group: seq<Byte>)
    ensures |group| == 3
  {
    Three(Read(t, a / 4), Read(t, a % 4 * 16 + b / 16), Read(t, b % 16 * 4 + c / 64), Read(t, c % 64))
  }

  function Readback(t: Table, s: seq<Byte>): seq<Byte> {
    if s == [] then []
    else if |s| == 1 then Group3(t, s[0], 0, 0)
    else if |s| == 2 then Group3(t, s[0], s[1], 0)
    else Group3(t, s[0], s[1], s[2]) + Readback(t, s[3..])
  }

  /** Character `c` stands for sextet `v`, and is '+' or '/' if that is 62 or 63. */
  predicate Reads(t: Table, c: char, v: nat) {
    && v < 64 && Classify(t, c) == PemDecode.Value(Read(t, v))
    && c != Wrap.LF && c != SIXTEEN && (c == '+' || c == '/' <==> v >= 62)
  }

  predicate QuadReads(t: Table, quad: string, a: Byte, b: Byte, c: Byte) {
    && |quad| == 4
    && Reads(t, quad[0], a / 4) && Reads(t, quad[1], a % 4 * 16 + b / 16)
    && Reads(t, quad[2], b % 16 * 4 + c / 64) && Reads(t, quad[3], c % 64)
  }

  lemma LetterReads(t: Table, v: nat)
    requires v < 64
    ensures Reads(t, Letter(v), v) && Reads(t, '=', 0)
  {
    LetterCode(v);
    hide Letter;
  }

  /** The letters of three bytes, and those with pads in the place of zero bytes. */
  lemma QuantumReads(t: Table, a: Byte, b: Byte, c: Byte)
    ensures QuadReads(t, Quantum(a, b, c), a, b, c)
    ensures c == 0 ==> QuadReads(t, Quantum(a, b, c)[..3] + "=", a, b, c)
    ensures b == 0 && c == 0 ==> QuadReads(t, Quantum(a, b, c)[..2] + "==", a, b, c)
  {
    SextetsOf(a, b, c);
    hide Letter, Reads;
    LetterReads(t, a / 4);
    LetterReads(t, a % 4 * 16 + b / 16);
    LetterReads(t, b % 16 * 4 + c / 64);
    LetterReads(t, c % 64);
  }

  /** The decoder reads a group of an encoding, pads included, and goes on behind it. */
  lemma GroupRead(t: Table, a: Byte, b: Byte, c: Byte, quad: string, rest: string)
    requires QuadReads(t, quad, a, b, c)
    ensures var d := Decode(t, rest, []);
            Decode(t, quad + rest, []) == Decoded(Group3(t, a, b, c) + d.output, d.end, d.used + 4)
  {
    hide Classify, Decode, Three, Read;
    DecodeQuad(t, quad, rest);
  }

  /** With the table of RFC 4648 a group comes back unchanged; as written it does unless it holds '+' or '/'. */
  lemma GroupBack(t: Table, a: Byte, b: Byte, c: Byte, quad: string)
    requires QuadReads(t, quad, a, b, c)
    ensures Group3(t, a, b, c) == [a, b, c] <==> t.Rfc? || Plain(quad)
  {
    ThreeJoins(a, b, c);
    hide Classify, Three;
    if t.AsWritten? {
      MisreadIff(a / 4, a % 4 * 16 + b / 16, b % 16 * 4 + c / 64, c % 64);
    }
  }

  lemma {:induction false} TextRead(t: Table, s: seq<Byte>, rest: string)
    ensures var d, e := Decode(t, Rfc4648(s) + rest, []), Decode(t, rest, []);
            d.output == Readback(t, s) + e.output && d.end == e.end
  {
    hide *;
    if |s| <= 2 {
      LastRead(t, s, rest);
    } else {
      TextRead(t, s[3..], rest);
      Rfc4648More(s);
      ReadbackMore(t, s);
      var quad, text := Quantum(s[0], s[1], s[2]), Rfc4648(s[3..]);
      Regroup(quad, text, rest);
      QuantumReads(t, s[0], s[1], s[2]);
      GroupRead(t, s[0], s[1], s[2], quad, text + rest);
      Regroup(Group3(t, s[0], s[1], s[2]), Readback(t, s[3..]), Decode(t, rest, []).output);
    }
  }

  lemma LastRead(t: Table, s: seq<Byte>, rest: string)
    requires |s| <= 2
    ensures var d, e := Decode(t, Rfc4648(s) + rest, []), Decode(t, rest, []);
            d.output == Readback(t, s) + e.output && d.end == e.end
  {
    hide Decode, Quantum, Group3, QuadReads;
    if s == [] {
      assert Rfc4648(s) + rest == rest && [] + Decode(t, rest, []).output == Decode(t, rest, []).output;
    } else if |s| == 1 {
      QuantumReads(t, s[0], 0, 0);
      GroupRead(t, s[0], 0, 0, Rfc4648(s), rest);
    } else {
      QuantumReads(t, s[0], s[1], 0);
      GroupRead(t, s[0], s[1], 0, Rfc4648(s), rest);
    }
  }

  lemma PlainBoth(a: string, b: string)
    ensures Plain(a + b) <==> Plain(a) && Plain(b)
  {
  }

  lemma SameStart<T>(a: seq<T>, a': seq<T>, b: seq<T>, b': seq<T>)
    requires |a| == |a'|
    ensures a + b == a' + b' <==> a == a' && b == b'
  {
    if a + b == a' + b' {
      assert (a + b)[..|a|] == (a' + b')[..|a|] && (a + b)[|a|..] == (a' + b')[|a|..];
      assert (a + b)[..|a|] == a && (a' + b')[..|a|] == a' && (a + b)[|a|..] == b && (a' + b')[|a|..] == b';
    }
  }

  lemma ReadbackMore(t: Table, s: seq<Byte>)
    requires |s| > 2
    ensures Readback(t, s) == Group3(t, s[0], s[1], s[2]) + Readback(t, s[3..])
  {
    hide Group3;
  }

  lemma Rfc4648More(s: seq<Byte>)
    requires |s| > 2
    ensures Rfc4648(s) == Quantum(s[0], s[1], s[2]) + Rfc4648(s[3..])
  {
    hide Quantum;
  }

  lemma PaddedMore(s: seq<Byte>)
    requires |s| > 2
    ensures s + Zeros(Pads(|s|)) == [s[0], s[1], s[2]] + (s[3..] + Zeros(Pads(|s[3..]|)))
  {
    var head, tail := [s[0], s[1], s[2]], s[3..];
    assert Pads(|s|) == Pads(|tail|) && s == head + tail;
    hide *;
    Regroup(head, tail, Zeros(Pads(|s|)));
  }

  lemma LastGroupBack(t: Table, s: seq<Byte>)
    requires |s| <= 2
    ensures Readback(t, s) == s + Zeros(Pads(|s|)) <==> t.Rfc? || Plain(Rfc4648(s))
  {
    hide Quantum, Group3, QuadReads;
    if |s| == 1 {
      QuantumReads(t, s[0], 0, 0);
      GroupBack(t, s[0], 0, 0, Rfc4648(s));
      assert s + Zeros(2) == [s[0], 0, 0];
    } else if |s| == 2 {
      QuantumReads(t, s[0], s[1], 0);
      GroupBack(t, s[0], s[1], 0, Rfc4648(s));
      assert s + Zeros(1) == [s[0], s[1], 0];
    }
    hide *;
  }

  lemma {:induction false} ReadbackIff(t: Table, s: seq<Byte>)
    ensures Readback(t, s) == s + Zeros(Pads(|s|)) <==> t.Rfc? || Plain(Rfc4648(s))
  {
    hide *;
    if |s| <= 2 {
      LastGroupBack(t, s);
    } else {
      ReadbackMore(t, s);
      Rfc4648More(s);
      PaddedMore(s);
      ReadbackIff(t, s[3..]);
      var quad := Quantum(s[0], s[1], s[2]);
      QuantumReads(t, s[0], s[1], s[2]);
      GroupBack(t, s[0], s[1], s[2], quad);
      PlainBoth(quad, Rfc4648(s[3..]));
      SameStart(Group3(t, s[0], s[1], s[2]), [s[0], s[1], s[2]], Readback(t, s[3..]), s[3..] + Zeros(Pads(|s[3..]|)));
    }
  }

  lemma {:induction false} NoNewlines(s: seq<Byte>)
    ensures Wrap.LF !in Rfc4648(s) && SIXTEEN !in Rfc4648(s)
  {
    hide Quantum;
    if |s| == 1 {
      QuantumReads(Rfc, s[0], 0, 0);
    } else if |s| == 2 {
      QuantumReads(Rfc, s[0], s[1], 0);
    } else if |s| > 2 {
      NoNewlines(s[3..]);
      QuantumReads(Rfc, s[0], s[1], s[2]);
    }
  }

  /** Wrapped base64 is lined as meant: at most 72 characters between two line feeds, whatever was encoded. */
  lemma WrappedWithin(s: seq<Byte>)
    ensures Wrap72(B64Enc(s)) == Lined(B64Enc(s)) && LinesWithin(Wrap72(B64Enc(s)), 72)
  {
    hide Rfc4648, B64Enc, Wrap72, LinesWithin, Lined;
    EncodesAsRfc4648(s);
    NoNewlines(s);
    WrapsAsMeantIff(B64Enc(s));
    LinedWithin(B64Enc(s));
  }

  lemma {:induction false} NothingToUnwrap(s: string)
    requires Wrap.LF !in s
    ensures Unwrapped(s) == s
  {
    if s != "" {
      NothingToUnwrap(s[1..]);
    }
  }

  /** Line feeds make no difference to the decoder, wherever they are. */
  lemma {:induction false} NewlinesSkipped(t: Table, input: string, pending: seq<nat>)
    requires |pending| < 4
    ensures var d, e := Decode(t, input, pending), Decode(t, Unwrapped(input), pending);
            d.output == e.output && d.end == e.end
    decreases |input|
  {
    if input != "" {
      var c, rest := input[0], input[1..];
      if c == Wrap.LF {
        NewlinesSkipped(t, rest, pending);
        assert Unwrapped(input) == Unwrapped(rest);
      } else {
        assert Unwrapped(input) == [c] + Unwrapped(rest);
        assert ([c] + Unwrapped(rest))[0] == c && ([c] + Unwrapped(rest))[1..] == Unwrapped(rest);
        match Classify(t, c) {
          case Value(v) =>
            NewlinesSkipped(t, rest, if |pending| < 3 then pending + [v] else []);
          case _ =>
        }
      }
    }
  }

  /**
   * Encoding, wrapping and decoding up to a dash: with the table of RFC 4648 every byte string comes back, followed by
   * a zero byte for each pad. With the table as written it does exactly if its encoding holds neither '+' nor '/'.
   */
  lemma ComesBackIff(t: Table, s: seq<Byte>, rest: string)
    ensures var d := Decode(t, Wrap72(B64Enc(s)) + ['-'] + rest, []);
            && d.end == AtDash
            && (d.output == s + Zeros(Pads(|s|)) <==> t.Rfc? || Plain(B64Enc(s)))
  {
    EncodesAsRfc4648(s);
    var text, tail := Rfc4648(s), Unwrapped(['-'] + rest);
    hide Decode, Rfc4648, B64Enc, Wrap72, Readback, Zeros, Pads, Plain;
    assert Wrap72(text) + ['-'] + rest == Wrap72(text) + (['-'] + rest);
    NewlinesSkipped(t, Wrap72(text) + (['-'] + rest), []);
    UnwrappedConcat(Wrap72(text), ['-'] + rest);
    WrapOnlyTouchesNewlines(text);
    NoNewlines(s);
    NothingToUnwrap(text);
    hide Unwrapped;
    StopsAtDash(t, rest);
    TextRead(t, s, tail);
    ReadbackIff(t, s);
    assert Readback(t, s) + [] == Readback(t, s);
  }

  lemma StopsAtDash(t: Table, rest: string)
    ensures Decode(t, Unwrapped(['-'] + rest), []).output == [] && Decode(t, Unwrapped(['-'] + rest), []).end == AtDash
  {
    assert Unwrapped(['-'] + rest) == ['-'] + Unwrapped((['-'] + rest)[1..]);
  }
}
