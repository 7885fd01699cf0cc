/** `decodeB64UpToDash`: four letters become three bytes, line feeds are skipped, a dash ends the data. */
module PemDecode {
  import opened Bytes
  import opened Base64

  /** The values of '+' and '/': as the decoder has them, or as RFC 4648 has them. */
  datatype Table = AsWritten | Rfc

  datatype Sextet = Value(v: nat) | Skip | Stop | Unexpected

  function Classify(t: Table, c: char): Sextet {
    if 'A' <= c <= 'Z' then Value(c as int - 65)
    else if 'a' <= c <= 'z' then Value(c as int - 71)
    else if '0' <= c <= '9' then Value(c as int + 4)
    else if c == '+' then Value(if t.Rfc? then 62 else 63)
    else if c == '/' then Value(if t.Rfc? then 63 else 64)
    else if c == '=' then Value(0)
    else if c == '\n' then Skip
    else if c == '-' then Stop
    else Unexpected
  }

  function BitOr(a: nat, b: nat): nat {
    if a == 0 && b == 0 then 0 else 2 * BitOr(a / 2, b / 2) + if a % 2 == 1 || b % 2 == 1 then 1 else 0
  }

  function FirstByte(s0: nat, s1: nat): Byte { BitOr(s0 * 4, s1 / 16) % 256 }

  function SecondByte(s1: nat, s2: nat): Byte { BitOr(s1 % 16 * 16, s2 / 4) % 256 }

  function ThirdByte(s2: nat, s3: nat): Byte { BitOr(s2 % 4 * 64, s3) % 256 }

  /** The three octets that `printf` writes; `%c` keeps the low eight bits. */
  function Three(s0: nat, s1: nat, s2: nat, s3: nat): seq<Byte> {
    [FirstByte(s0, s1), SecondByte(s1, s2), ThirdByte(s2, s3)]
  }

  /** Data ends at a dash; an octet outside the alphabet or the end of the input is an error. */
  datatype End = AtDash | BadOctet | EndOfInput

  /** `used`: how many octets of the input were read. */
  datatype Decoded = Decoded(output: seq<Byte>, end: End, used: nat)

  function Later(d: Decoded, head: seq<Byte>): Decoded { Decoded(head + d.output, d.end, d.used + 1) }

  /** The decoder from left to right; `pending` are the sextets of the group begun. */
  function Decode(t: Table, input: string, pending: seq<nat>): Decoded
    requires |pending| < 4
    decreases |input|
  {
    if input == "" then Decoded([], EndOfInput, 0)
    else
      match Classify(t, input[0])
      case Skip => Later(Decode(t, input[1..], pending), [])
      case Stop => Decoded([], AtDash, 1)
      case Unexpected => Decoded([], BadOctet, 1)
      case Value(v) =>
        if |pending| < 3 then Later(Decode(t, input[1..], pending + [v]), [])
        else Later(Decode(t, input[1..], []), Three(pending[0], pending[1], pending[2], v))
  }

  function Prepended(output: seq<Byte>, used: nat, d: Decoded): Decoded {
    Decoded(output + d.output, d.end, used + d.used)
  }

  /** After `used` octets, with `output` written and `pending` held, the rest leads to the decoder's result. */
  ghost predicate Reached(t: Table, input: string, output: seq<Byte>, used: nat, pending: seq<nat>) {
    && used <= |input| && |pending| < 4
    && Decode(t, input, []) == Prepended(output, used, Decode(t, input[used..], pending))
  }

  lemma Ends(t: Table, input: string, output: seq<Byte>, used: nat, pending: seq<nat>)
    requires Reached(t, input, output, used, pending)
    ensures used == |input| ==> Decode(t, input, []) == Decoded(output, EndOfInput, used)
    ensures used < |input| && Classify(t, input[used]).Stop? ==>
              Decode(t, input, []) == Decoded(output, AtDash, used + 1)
    ensures used < |input| && Classify(t, input[used]).Unexpected? ==>
              Decode(t, input, []) == Decoded(output, BadOctet, used + 1)
  {
    hide Classify;
    assert output + [] == output;
  }

  lemma Goes(t: Table, input: string, output: seq<Byte>, used: nat, pending: seq<nat>)
    requires Reached(t, input, output, used, pending) && used < |input|
    ensures var s := Classify(t, input[used]);
            && (s.Skip? ==> Reached(t, input, output, used + 1, pending))
            && (s.Value? && |pending| < 3 ==> Reached(t, input, output, used + 1, pending + [s.v]))
            && (s.Value? && |pending| == 3 ==>
                  Reached(t, input, output + Three(pending[0], pending[1], pending[2], s.v), used + 1, []))
  {
    hide Classify, Three;
    assert input[used..][1..] == input[used + 1..];
    var s := Classify(t, input[used]);
    if s.Value? && |pending| == 3 {
      var three, later := Three(pending[0], pending[1], pending[2], s.v), Decode(t, input[used + 1..], []);
      assert output + (three + later.output) == output + three + later.output;
    } else if s.Value? {
      var later := Decode(t, input[used + 1..], pending + [s.v]);
      assert [] + later.output == later.output;
    } else if s.Skip? {
      var later := Decode(t, input[used + 1..], pending);
      assert [] + later.output == later.output;
    }
  }

  /** The characters that stand for sextets. */
  predicate InAlphabet(c: char) {
    'A' <= c <= 'Z' || 'a' <= c <= 'z' || '0' <= c <= '9' || c == '+' || c == '/' || c == '='
  }

  /** The first character that is neither one of those nor a line feed, or the end. */
  function FirstOther(input: string): (k: nat)
    ensures k <= |input| && forall j :: 0 <= j < k ==> InAlphabet(input[j]) || input[j] == '\n'
    ensures k < |input| ==> !InAlphabet(input[k]) && input[k] != '\n'
  {
    if input == "" || !(InAlphabet(input[0]) || input[0] == '\n') then 0 else 1 + FirstOther(input[1..])
  }

  function Letters(text: string): nat {
    if text == "" then 0 else Letters(text[1..]) + if InAlphabet(text[0]) then 1 else 0
  }

  lemma ClassifiedAs(t: Table, c: char)
    ensures Classify(t, c).Value? <==> InAlphabet(c)
    ensures Classify(t, c).Skip? <==> c == '\n'
    ensures Classify(t, c).Stop? <==> c == '-'
  {
  }

  /**
   * How the data ends: at the first character that belongs neither to the alphabet nor to the line feeds, well if it
   * is a dash and badly if it is any other. Four letters before it give three octets, a group begun gives none.
   */
  lemma {:induction false} EndsAtFirstOther(t: Table, input: string, pending: seq<nat>)
    requires |pending| < 4
    ensures var d, k := Decode(t, input, pending), FirstOther(input);
            && d.end == (if k == |input| then EndOfInput else if input[k] == '-' then AtDash else BadOctet)
            && d.used == (if k == |input| then k else k + 1)
            && |d.output| == 3 * ((|pending| + Letters(input[..k])) / 4)
    decreases |input|
  {
    hide Classify, Three;
    if input != "" {
      var c, rest := input[0], input[1..];
      ClassifiedAs(t, c);
      var k := FirstOther(input);
      if k > 0 {
        LettersFirst(input, k);
        FourMore(Letters(rest[..k - 1]));
        if InAlphabet(c) {
          var v := Classify(t, c).v;
          EndsAtFirstOther(t, rest, if |pending| < 3 then pending + [v] else []);
          if |pending| == 3 {
            ThreeOctets(pending[0], pending[1], pending[2], v);
          }
        } else {
          EndsAtFirstOther(t, rest, pending);
        }
      }
      hide Letters;
    }
  }

  lemma LettersFirst(input: string, k: nat)
    requires 0 < k <= |input|
    ensures Letters(input[..k]) == Letters(input[1..][..k - 1]) + if InAlphabet(input[0]) then 1 else 0
  {
    assert input[..k][1..] == input[1..][..k - 1];
  }

  lemma FourMore(n: nat)
    ensures (3 + (n + 1)) / 4 == 1 + n / 4
  {
  }

  lemma ThreeOctets(s0: nat, s1: nat, s2: nat, s3: nat)
    ensures |Three(s0, s1, s2, s3)| == 3
  {
  }

  /** `decodeB64UpToDash`. */
  method DecodeB64UpToDash(t: Table, input: string) returns (output: seq<Byte>, end: End, used: nat)
    ensures Decoded(output, end, used) == Decode(t, input, [])
    ensures var k := FirstOther(input);
            && (end == EndOfInput <==> k == |input|)
            && (end == AtDash <==> k < |input| && input[k] == '-')
            && (end == BadOctet <==> k < |input| && input[k] != '-')
            && used == (if k == |input| then k else k + 1) && |output| == 3 * (Letters(input[..k]) / 4)
  {
    hide Decode, FirstOther, Letters;
    output, end, used := DecodeGroups(t, input);
    EndsAtFirstOther(t, input, []);
  }

  /** Its two loops. */
  method DecodeGroups(t: Table, input: string) returns (output: seq<Byte>, end: End, used: nat)
    ensures Decoded(output, end, used) == Decode(t, input, [])
  {
    output, used := [], 0;
    var sextets := new nat[4];
    assert Reached(t, input, [], 0, []) by { assert input[0..] == input; }
    hide Reached, Decode, Classify, Three;
    while true
      invariant used <= |input| && Reached(t, input, output, used, [])
      decreases |input| - used
    {
      var iByte := 0;
      ghost var groupStart := used;
      assert sextets[..0] == [];
      while iByte < 4
        invariant groupStart + iByte <= used <= |input| && 0 <= iByte <= 4
        invariant iByte < 4 ==> Reached(t, input, output, used, sextets[..iByte])
        invariant iByte == 4 ==>
          Reached(t, input, output + Three(sextets[0], sextets[1], sextets[2], sextets[3]), used, [])
        decreases |input| - used
      {
        Ends(t, input, output, used, sextets[..iByte]);
        if used == |input| {
          return output, EndOfInput, used;
        }
        Goes(t, input, output, used, sextets[..iByte]);
        match Classify(t, input[used]) {
          case Skip =>
            used := used + 1;
          case Stop =>
            return output, AtDash, used + 1;
          case Unexpected =>
            return output, BadOctet, used + 1;
          case Value(v) =>
            ghost var pending := sextets[..iByte];
            sextets[iByte] := v;
            used, iByte := used + 1, iByte + 1;
            assert sextets[..iByte] == pending + [v];
        }
      }
      output := output + Three(sextets[0], sextets[1], sextets[2], sextets[3]);
    }
  }

  lemma LetterCode(v: nat)
    requires v < 64
    ensures Letter(v) == if v < 26 then (v + 65) as char
                         else if v < 52 then (v + 71) as char
                         else if v < 62 then (v - 4) as char
                         else if v == 62 then '+' else '/'
  {
  }

  /** The decoder with the table of RFC 4648 reads back every letter; as written it misreads exactly '+' and '/'. */
  lemma LetterRead(t: Table, v: nat)
    requires v < 64
    ensures Classify(t, Letter(v)) == Value(if t.AsWritten? && v >= 62 then v + 1 else v)
    ensures Letter(v) in ['+', '/'] <==> v >= 62
  {
    LetterCode(v);
    hide Letter;
  }
}
