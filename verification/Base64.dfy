/** `b64enc`: bytes to text by way of a string of binary digits, against section 4 of RFC 4648. */
module Base64 {
  import opened Bytes
  import opened Sequences

  const ALPHABET: string := "ABCDEFGHIJKLMNOPQRSTUVWXYZ" + "abcdefghijklmnopqrstuvwxyz" + "0123456789+/"

  function Pow2(n: nat): (p: nat)
    ensures p > 0
  {
    if n == 0 then 1 else 2 * Pow2(n - 1)
  }

  /** Digit number `i` of a byte, where 8 is the most significant one. */
  function Digit(b: Byte, i: nat): char
    requires 1 <= i <= 8
  {
    if b % Pow2(i) - b % Pow2(i - 1) > 0 then '1' else '0'
  }

  function DigitsFrom(b: Byte, i: nat): string
    requires i <= 8
  {
    if i == 0 then "" else [Digit(b, i)] + DigitsFrom(b, i - 1)
  }

  function Digits(b: Byte): string { DigitsFrom(b, 8) }

  /** The callback of the inner `gsub`. */
  method DigitsOf(b: Byte) returns (r: string)
    ensures r == Digits(b)
  {
    hide Digit;
    r := "";
    var i := 8;
    while i >= 1
      invariant 0 <= i <= 8
      invariant r + DigitsFrom(b, i) == Digits(b)
      decreases i
    {
      assert DigitsFrom(b, i) == [Digit(b, i)] + DigitsFrom(b, i - 1);
      r := r + [Digit(b, i)];
      i := i - 1;
    }
  }

  /** The number that a string of binary digits denotes, and its letter if there are six of them. */
  function Value(digits: string): nat {
    if digits == "" then 0
    else 2 * Value(digits[..|digits| - 1]) + if digits[|digits| - 1] == '1' then 1 else 0
  }

  lemma {:induction false} ValueBounded(digits: string)
    ensures Value(digits) < Pow2(|digits|)
  {
    if digits != "" {
      ValueBounded(digits[..|digits| - 1]);
    }
  }

  function Letter(sextet: nat): char
    requires sextet < 64
  {
    ALPHABET[sextet]
  }

  function Group(digits: string): string
    requires |digits| <= 6
  {
    if |digits| < 6 then "" else ValueBounded(digits); assert Pow2(6) == 64; [Letter(Value(digits))]
  }

  lemma {:induction false} ValueSplit(a: string, b: string)
    ensures Value(a + b) == Value(a) * Pow2(|b|) + Value(b)
  {
    if b == "" {
      assert a + b == a;
    } else {
      var n := |b| - 1;
      var d := if b[n] == '1' then 1 else 0;
      ValueSplit(a, b[..n]);
      assert (a + b)[..|a + b| - 1] == a + b[..n];
      assert Value(a + b) == 2 * Value(a + b[..n]) + d && Value(b) == 2 * Value(b[..n]) + d;
      assert Pow2(|b|) == 2 * Pow2(n);
      hide Value, Pow2;
      Shifted(Value(a), Pow2(n), Value(b[..n]), d);
    }
  }

  lemma Shifted(v: nat, p: nat, w: nat, d: nat)
    ensures 2 * (v * p + w) + d == v * (2 * p) + (2 * w + d)
  {
  }

  lemma NextLetterDigit(digits: string, i: nat)
    requires 1 <= i <= |digits| && i <= 6
    ensures Value(digits[..i]) * Pow2(6 - i)
         == Value(digits[..i - 1]) * Pow2(7 - i) + if digits[i - 1] == '1' then Pow2(6 - i) else 0
  {
    assert digits[..i][..i - 1] == digits[..i - 1];
    var v, d := Value(digits[..i - 1]), if digits[i - 1] == '1' then 1 else 0;
    assert (2 * v + d) * Pow2(6 - i) == v * (2 * Pow2(6 - i)) + d * Pow2(6 - i);
  }

  /** The callback of the outer `gsub`: too short a group vanishes. */
  method GroupOf(digits: string) returns (r: string)
    requires |digits| <= 6
    ensures r == Group(digits)
  {
    if |digits| < 6 { return ""; }
    var c := 0;
    ValueBounded(digits);
    Powers();
    assert Value(digits[..0]) == 0;
    hide Pow2;
    for i := 1 to 7
      invariant c == Value(digits[..i - 1]) * Pow2(7 - i)
    {
      NextLetterDigit(digits, i);
      c := c + if digits[i - 1] == '1' then Pow2(6 - i) else 0;
    }
    assert digits[..6] == digits;
    r := [ALPHABET[c]];
  }

  function BitString(src: seq<Byte>): string {
    if src == [] then "" else Digits(src[0]) + BitString(src[1..])
  }

  /** The outer `gsub`: two to six digits make a group, as many as there are; a single last digit would stay. */
  function Grouped(digits: string): string {
    if |digits| < 2 then digits
    else
      var n := if |digits| < 6 then |digits| else 6;
      Group(digits[..n]) + Grouped(digits[n..])
  }

  function B64Enc(src: seq<Byte>): string {
    Grouped(BitString(src) + "0000") + ["", "==", "="][|src| % 3]
  }

  /** RFC 4648, section 4: a 24-bit group is four letters of 6 bits each. */
  function Letters(n: nat): string
    requires n < 0x100_0000
  {
    [Letter(n / 262144), Letter(n / 4096 % 64), Letter(n / 64 % 64), Letter(n % 64)]
  }

  function Quantum(a: Byte, b: Byte, c: Byte): string {
    Letters(a * 65536 + b * 256 + c)
  }

  /** RFC 4648, section 4: zero bits complete a last group that is too short, and pads stand for what they add. */
  function Rfc4648(src: seq<Byte>): string {
    if src == [] then ""
    else if |src| == 1 then Quantum(src[0], 0, 0)[..2] + "=="
    else if |src| == 2 then Quantum(src[0], src[1], 0)[..3] + "="
    else Quantum(src[0], src[1], src[2]) + Rfc4648(src[3..])
  }

  lemma DivUnique(x: nat, d: nat, k: nat, r: nat)
    requires r < d && x == k * d + r
    ensures x / d == k && x % d == r
  {
    var q := x / d;
    assert x == d * q + x % d;
    assert d * (k - q) == x % d - r;
    if k > q {
      AtLeast(d, k - q);
    } else if k < q {
      AtLeast(d, q - k);
    }
  }

  lemma AtLeast(d: nat, n: nat)
    requires n > 0
    ensures d * n >= d
  {
  }

  lemma Twice(p: nat, q: nat, k: nat, d: nat)
    requires q == 2 * k + d
    ensures p * q == k * (2 * p) + d * p
  {
  }

  /** What one more binary digit adds. */
  lemma NextDigit(b: nat, p: nat)
    requires p > 0
    ensures b % (2 * p) == b % p + if b / p % 2 == 1 then p else 0
  {
    var q, r := b / p, b % p;
    var k := q / 2;
    assert b == p * q + r;
    if q % 2 == 1 {
      Twice(p, q, k, 1);
      DivUnique(b, 2 * p, k, p + r);
    } else {
      Twice(p, q, k, 0);
      DivUnique(b, 2 * p, k, r);
    }
  }

  /** The digits of a byte denote it. */
  lemma {:induction false} DigitsDenote(b: Byte, i: nat)
    requires i <= 8
    ensures |DigitsFrom(b, i)| == i
    ensures Value(DigitsFrom(b, i)) == b % Pow2(i)
  {
    hide Digit, Value, Pow2;
    if i > 0 {
      DigitsDenote(b, i - 1);
      DigitAdds(b, i);
      FirstDigit(Digit(b, i), DigitsFrom(b, i - 1));
    } else {
      NoDigits(b);
    }
  }

  lemma NoDigits(b: nat)
    ensures b % Pow2(0) == 0 && Value("") == 0
  {
  }

  /** A digit stands for what it adds to the digits behind it. */
  lemma DigitAdds(b: Byte, i: nat)
    requires 1 <= i <= 8
    ensures b % Pow2(i) == (if Digit(b, i) == '1' then Pow2(i - 1) else 0) + b % Pow2(i - 1)
  {
    NextDigit(b, Pow2(i - 1));
    assert Pow2(i) == 2 * Pow2(i - 1);
    hide Pow2;
  }

  lemma FirstDigit(d: char, digits: string)
    ensures Value([d] + digits) == (if d == '1' then Pow2(|digits|) else 0) + Value(digits)
  {
    hide Value, Pow2;
    ValueSplit([d], digits);
    OneDigit(d);
    if d == '1' {
      assert 1 * Pow2(|digits|) == Pow2(|digits|);
    }
  }

  lemma OneDigit(d: char)
    ensures Value([d]) == if d == '1' then 1 else 0
  {
    assert [d][..0] == "";
  }

  lemma Powers()
    ensures Pow2(0) == 1 && Pow2(1) == 2 && Pow2(2) == 4 && Pow2(3) == 8 && Pow2(4) == 16
    ensures Pow2(5) == 32 && Pow2(6) == 64 && Pow2(7) == 128 && Pow2(8) == 256
  {
  }

  lemma DigitsValue(b: Byte)
    ensures |Digits(b)| == 8 && Value(Digits(b)) == b
  {
    DigitsDenote(b, 8);
    Powers();
    hide Value, Pow2, DigitsFrom;
    DivUnique(b, 256, 0, b);
  }

  /** The leading six digits of a longer string, by the numbers they and the rest denote. */
  lemma Cut(digits: string, n: nat)
    requires n <= |digits|
    ensures Value(digits[..n]) == Value(digits) / Pow2(|digits| - n)
    ensures Value(digits[n..]) == Value(digits) % Pow2(|digits| - n)
  {
    assert digits == digits[..n] + digits[n..];
    ValueSplit(digits[..n], digits[n..]);
    ValueBounded(digits[n..]);
    DivUnique(Value(digits), Pow2(|digits| - n), Value(digits[..n]), Value(digits[n..]));
  }

  lemma GroupedCons(digits: string)
    requires |digits| >= 6
    ensures Value(digits[..6]) < 64
    ensures Grouped(digits) == [Letter(Value(digits[..6]))] + Grouped(digits[6..])
  {
    ValueBounded(digits[..6]);
    Powers();
  }

  lemma GroupedNext(digits: string, rest: string, p: nat)
    requires |digits| >= 6 && p == Pow2(|digits| - 6)
    ensures Value(digits) / p < 64 && Value(digits[6..]) == Value(digits) % p
    ensures Grouped(digits + rest) == [Letter(Value(digits) / p)] + Grouped(digits[6..] + rest)
  {
    GroupedCons(digits + rest);
    Cut(digits, 6);
    assert (digits + rest)[..6] == digits[..6] && (digits + rest)[6..] == digits[6..] + rest;
    hide Grouped, Value, Pow2;
  }

  lemma Sextets(n: nat)
    ensures n % 262144 / 4096 == n / 4096 % 64
    ensures n % 262144 % 4096 / 64 == n / 64 % 64
    ensures n % 262144 % 4096 % 64 == n % 64
  {
    var a, m := n / 262144, n % 262144;
    var b, l := m / 4096, m % 4096;
    var c, d := l / 64, l % 64;
    DivUnique(n, 4096, a * 64 + b, l);
    DivUnique(a * 64 + b, 64, a, b);
    DivUnique(n, 64, a * 4096 + b * 64 + c, d);
    DivUnique(a * 4096 + b * 64 + c, 64, a * 64 + b, c);
  }

  /** A group of 24 digits gives four letters. */
  lemma GroupedQuad(digits: string, rest: string)
    requires |digits| == 24
    ensures Value(digits) < 0x100_0000
    ensures Grouped(digits + rest) == Letters(Value(digits)) + Grouped(rest)
  {
    hide Grouped, Value, Pow2, Letter;
    ValueBounded(digits);
    MorePowers();
    var n := Value(digits);
    var d1, d2, d3 := digits[6..], digits[12..], digits[18..];
    GroupedNext(digits, rest, 262144);
    GroupedNext(d1, rest, 4096);
    assert d1[6..] == d2 && d2[6..] == d3 && d3[6..] + rest == rest;
    GroupedNext(d2, rest, 64);
    GroupedNext(d3, rest, 1);
    Sextets(n);
    assert n % 262144 % 4096 % 64 / 1 == n % 64;
  }

  lemma MorePowers()
    ensures Pow2(0) == 1 && Pow2(6) == 64 && Pow2(12) == 4096 && Pow2(18) == 262144 && Pow2(24) == 0x100_0000
    ensures Pow2(2) == 4 && Pow2(8) == 256 && Pow2(14) == 16384 && Pow2(20) == 0x10_0000
  {
    Powers();
    assert Pow2(12) == 64 * Pow2(6);
    assert Pow2(14) == 64 * Pow2(8);
    assert Pow2(18) == 64 * Pow2(12);
    assert Pow2(20) == 64 * Pow2(14);
    assert Pow2(24) == 64 * Pow2(18);
  }

  lemma TripleValue(a: Byte, b: Byte, c: Byte)
    ensures |Digits(a) + Digits(b) + Digits(c)| == 24
    ensures Value(Digits(a) + Digits(b) + Digits(c)) == a * 65536 + b * 256 + c
  {
    DigitsValue(a);
    DigitsValue(b);
    DigitsValue(c);
    Powers();
    hide Value, Pow2, Digits;
    ValueSplit(Digits(a), Digits(b));
    ValueSplit(Digits(a) + Digits(b), Digits(c));
  }

  lemma {:induction false} ZeroDigits(s: string)
    requires forall k :: 0 <= k < |s| ==> s[k] == '0'
    ensures Value(s) == 0
  {
    if s != "" {
      ZeroDigits(s[..|s| - 1]);
    }
  }

  /** With the four extra digits what is left over behind the full groups is nothing, two or four digits, never one. */
  lemma LeftOver(src: seq<Byte>)
    ensures |BitString(src)| == 8 * |src|
    ensures |BitString(src) + "0000"| % 6 == [4, 0, 2][|src| % 3]
  {
    hide BitString;
    EightEach(src);
    FourMore(|src|);
  }

  lemma {:induction false} EightEach(src: seq<Byte>)
    ensures |BitString(src)| == 8 * |src|
  {
    hide Digits;
    if src != [] {
      EightEach(src[1..]);
      DigitsValue(src[0]);
    }
  }

  lemma FourMore(n: nat)
    ensures (8 * n + 4) % 6 == [4, 0, 2][n % 3]
  {
    var q, k := n / 3, n % 3;
    DivUnique(8 * n + 4, 6, if k == 0 then 4 * q else if k == 1 then 4 * q + 2 else 4 * q + 3,
              if k == 0 then 4 else if k == 1 then 0 else 2);
  }

  /** Fewer than six digits vanish. */
  lemma ShortGroup(digits: string)
    requires |digits| < 6 && |digits| != 1
    ensures Grouped(digits) == ""
  {
    if digits != "" {
      assert digits[|digits|..] == "" && digits[..|digits|] == digits;
      assert Grouped(digits) == Group(digits) + Grouped("");
    }
  }

  lemma TwelveDigits(digits: string)
    requires |digits| == 12
    ensures Value(digits) < 4096
    ensures Grouped(digits) == [Letter(Value(digits) / 64), Letter(Value(digits) % 64)]
  {
    hide *;
    ValueBounded(digits);
    MorePowers();
    ShortGroup("");
    GroupedNext(digits, "", 64);
    GroupedNext(digits[6..], "", 1);
    assert digits + "" == digits && digits[6..][6..] + "" == "";
  }

  lemma FourteenDigits(digits: string)
    requires |digits| == 14
    ensures var v := Value(digits);
            v < 16384 && Grouped(digits) == [Letter(v / 256), Letter(v % 256 / 4)]
  {
    hide *;
    ValueBounded(digits);
    MorePowers();
    ShortGroup(digits[12..]);
    GroupedNext(digits, "", 256);
    assert digits[6..][6..] == digits[12..] && digits + "" == digits && digits[12..] + "" == digits[12..];
    GroupedNext(digits[6..], "", 4);
  }

  lemma TwentyDigits(digits: string)
    requires |digits| == 20
    ensures var v := Value(digits);
            v < 0x10_0000 && Grouped(digits) == [Letter(v / 16384), Letter(v / 256 % 64), Letter(v / 4 % 64)]
  {
    hide *;
    ValueBounded(digits);
    MorePowers();
    GroupedNext(digits, "", 16384);
    assert digits + "" == digits && digits[6..] + "" == digits[6..];
    FourteenDigits(digits[6..]);
    FourteenBits(Value(digits));
  }

  lemma FourteenBits(v: nat)
    ensures v % 16384 / 256 == v / 256 % 64
    ensures v % 16384 % 256 / 4 == v / 4 % 64
  {
    var a, m := v / 16384, v % 16384;
    var b, l := m / 256, m % 256;
    var c, d := l / 4, l % 4;
    DivUnique(v, 256, a * 64 + b, l);
    DivUnique(a * 64 + b, 64, a, b);
    DivUnique(v, 4, a * 4096 + b * 64 + c, d);
    DivUnique(a * 4096 + b * 64 + c, 64, a * 64 + b, c);
  }

  lemma OneValue(a: Byte)
    ensures |Digits(a) + "0000"| == 12 && Value(Digits(a) + "0000") == 16 * a
  {
    DigitsValue(a);
    Powers();
    ZeroDigits("0000");
    hide Value, Pow2, Digits;
    ValueSplit(Digits(a), "0000");
  }

  lemma TwoValue(a: Byte, b: Byte)
    ensures |Digits(a) + Digits(b) + "0000"| == 20 && Value(Digits(a) + Digits(b) + "0000") == 16 * (256 * a + b)
  {
    DigitsValue(a);
    DigitsValue(b);
    Powers();
    ZeroDigits("0000");
    hide Value, Pow2, Digits;
    ValueSplit(Digits(a), Digits(b));
    ValueSplit(Digits(a) + Digits(b), "0000");
  }

  /** One byte and four more digits make two groups. */
  lemma LastOne(a: Byte)
    ensures Grouped(Digits(a) + "0000") == Quantum(a, 0, 0)[..2]
  {
    OneValue(a);
    hide Grouped, Value, Letter, Digits;
    TwelveDigits(Digits(a) + "0000");
    DivUnique(a * 65536, 262144, 16 * a / 64, 65536 * (a % 4));
    DivUnique(a * 65536, 4096, 16 * a, 0);
  }

  /** Two bytes and four more digits make three groups and two digits that vanish. */
  lemma LastTwo(a: Byte, b: Byte)
    ensures Grouped(Digits(a) + Digits(b) + "0000") == Quantum(a, b, 0)[..3]
  {
    TwoValue(a, b);
    hide Grouped, Value, Letter, Digits;
    TwentyDigits(Digits(a) + Digits(b) + "0000");
    var v := 16 * (256 * a + b);
    Sixteenfold(v);
    assert a * 65536 + b * 256 + 0 == 16 * v;
  }

  lemma Sixteenfold(v: nat)
    ensures 16 * v / 262144 == v / 16384 && 16 * v / 4096 == v / 256 && 16 * v / 64 == v / 4
  {
    DivUnique(16 * v, 262144, v / 16384, 16 * (v % 16384));
    DivUnique(16 * v, 4096, v / 256, 16 * (v % 256));
    DivUnique(16 * v, 64, v / 4, 16 * (v % 4));
  }

  lemma BitStringThree(src: seq<Byte>)
    requires |src| >= 3
    ensures BitString(src) == Digits(src[0]) + Digits(src[1]) + Digits(src[2]) + BitString(src[3..])
  {
    hide Digits;
    assert BitString(src) == Digits(src[0]) + BitString(src[1..]);
    assert src[1..][1..] == src[2..] && src[2..][1..] == src[3..];
    assert BitString(src[1..]) == Digits(src[1]) + BitString(src[2..]);
    assert BitString(src[2..]) == Digits(src[2]) + BitString(src[3..]);
    hide BitString;
    Regroup(Digits(src[1]), Digits(src[2]), BitString(src[3..]));
    Regroup(Digits(src[0]), Digits(src[1]) + Digits(src[2]), BitString(src[3..]));
    Regroup(Digits(src[0]), Digits(src[1]), Digits(src[2]));
  }

  lemma BitStringShort(src: seq<Byte>)
    requires |src| < 3
    ensures BitString(src)
         == if |src| == 0 then "" else if |src| == 1 then Digits(src[0]) else Digits(src[0]) + Digits(src[1])
  {
    hide Digits;
    if |src| == 2 {
      assert src[1..][1..] == [] && src[1..][0] == src[1];
    }
  }

  lemma GroupedThree(a: Byte, b: Byte, c: Byte, rest: string)
    ensures Grouped(Digits(a) + Digits(b) + Digits(c) + rest) == Quantum(a, b, c) + Grouped(rest)
  {
    TripleValue(a, b, c);
    hide Grouped, Value, Digits, Letters;
    GroupedQuad(Digits(a) + Digits(b) + Digits(c), rest);
  }

  lemma GroupedRest(src: seq<Byte>)
    requires |src| < 3
    ensures Grouped(BitString(src) + "0000")
         == if |src| == 0 then ""
            else if |src| == 1 then Quantum(src[0], 0, 0)[..2] else Quantum(src[0], src[1], 0)[..3]
  {
    BitStringShort(src);
    ShortGroup("0000");
    hide Grouped, BitString, Digits, Letters;
    if |src| == 0 {
      assert "" + "0000" == "0000";
    } else if |src| == 1 {
      LastOne(src[0]);
    } else {
      LastTwo(src[0], src[1]);
    }
  }

  /** For every byte string the encoder gives what RFC 4648 asks for. */
  lemma {:induction false} EncodesAsRfc4648(src: seq<Byte>)
    ensures B64Enc(src) == Rfc4648(src)
  {
    hide Grouped, BitString, Quantum, Digits;
    if |src| >= 3 {
      EncodesAsRfc4648(src[3..]);
      BitStringThree(src);
      var bits, rest := Digits(src[0]) + Digits(src[1]) + Digits(src[2]), BitString(src[3..]);
      Regroup(bits, rest, "0000");
      GroupedThree(src[0], src[1], src[2], rest + "0000");
      Regroup(Quantum(src[0], src[1], src[2]), Grouped(rest + "0000"), ["", "==", "="][|src| % 3]);
    } else {
      GroupedRest(src);
    }
  }
}
