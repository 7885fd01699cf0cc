/** `wrap72`: folds a text to lines of at most 72 characters. */
module Wrap {

  const LF: char := '\n'

  /** The value that the source compares the last byte with: 0x10 is sixteen, not the code of a line feed. */
  const SIXTEEN: char := 16 as char

  /** The first `gsub`: every 72 characters, whatever they are, are followed by a line feed. */
  function Fold(s: string): string {
    if |s| < 72 then s else s[..72] + [LF] + Fold(s[72..])
  }

  /** The second `gsub`: one line feed at the very end vanishes. */
  function DropLast(s: string): string {
    if s != "" && s[|s| - 1] == LF then s[..|s| - 1] else s
  }

  /** A line feed is appended unless the last byte is 0x10. */
  function Closed(s: string): string {
    if s == "" || s[|s| - 1] != SIXTEEN then s + [LF] else s
  }

  function Wrap72(str: string): string {
    Closed(DropLast(Fold(str)))
  }

  function Unwrapped(s: string): string {
    if s == "" then "" else (if s[0] == LF then "" else [s[0]]) + Unwrapped(s[1..])
  }

  lemma {:induction false} UnwrappedConcat(a: string, b: string)
    ensures Unwrapped(a + b) == Unwrapped(a) + Unwrapped(b)
  {
    if a == "" {
      assert a + b == b;
    } else {
      assert (a + b)[1..] == a[1..] + b;
      UnwrappedConcat(a[1..], b);
    }
  }

  lemma {:induction false} FoldOnlyAdds(s: string)
    ensures Unwrapped(Fold(s)) == Unwrapped(s)
  {
    if |s| >= 72 {
      FoldOnlyAdds(s[72..]);
      UnwrappedConcat(s[..72], s[72..]);
      UnwrappedConcat(s[..72] + [LF], Fold(s[72..]));
      UnwrappedConcat(s[..72], [LF]);
      assert s == s[..72] + s[72..];
    }
  }

  /** Wrapping changes nothing but line feeds, whatever the text. */
  lemma WrapOnlyTouchesNewlines(str: string)
    ensures Unwrapped(Wrap72(str)) == Unwrapped(str)
  {
    FoldOnlyAdds(str);
    var f, s := Fold(str), DropLast(Fold(str));
    if s != f {
      assert f == s + [LF];
      UnwrappedConcat(s, [LF]);
    }
    UnwrappedConcat(s, [LF]);
  }

  /** What wrapping is for: all lines but the last have 72 characters, and every line ends in a line feed. */
  function Lined(s: string): string {
    if |s| <= 72 then s + [LF] else s[..72] + [LF] + Lined(s[72..])
  }

  /** Where the characters of a lined text come from. */
  lemma {:induction false} LinedAt(s: string, k: nat)
    requires s != "" && k < |Lined(s)|
    ensures |Lined(s)| == |s| + (|s| + 71) / 72
    ensures if k % 73 == 72 || k == |Lined(s)| - 1 then Lined(s)[k] == LF
            else k - k / 73 < |s| && Lined(s)[k] == s[k - k / 73]
  {
    if |s| > 72 {
      LinedAt(s[72..], if k < 73 then 0 else k - 73);
      if k >= 73 {
        assert Lined(s)[k] == Lined(s[72..])[k - 73];
      }
    }
  }

  lemma OneLineLess(n: nat)
    requires n >= 72
    ensures (n - 72) % 72 == n % 72
  {
  }

  lemma {:induction false} FoldEnds(s: string)
    requires s != ""
    ensures Fold(s) != ""
    ensures |s| % 72 == 0 ==> Fold(s)[|Fold(s)| - 1] == LF && Fold(s) == Lined(s)
    ensures |s| % 72 == 0 ==> |Fold(s)| >= 2 && Fold(s)[|Fold(s)| - 2] == s[|s| - 1]
    ensures |s| % 72 != 0 ==> Fold(s)[|Fold(s)| - 1] == s[|s| - 1] && Fold(s) + [LF] == Lined(s)
  {
    if |s| > 72 {
      FoldEnds(s[72..]);
      OneLineLess(|s|);
    } else if |s| == 72 {
      assert s[..72] == s && Fold(s[72..]) == "";
    }
  }

  /** The text fills its last line: the line feed dropped comes back unless 0x10 precedes it. */
  lemma EndsFull(f: string)
    requires |f| >= 2 && f[|f| - 1] == LF
    ensures Closed(DropLast(f)) == f <==> f[|f| - 2] != SIXTEEN
  {
    assert f == DropLast(f) + [LF];
  }

  /** The last line is shorter: it gets its line feed unless it ends in 0x10 or in one of its own. */
  lemma EndsShort(f: string)
    requires f != ""
    ensures Closed(DropLast(f)) == f + [LF] <==> f[|f| - 1] != SIXTEEN && f[|f| - 1] != LF
  {
    if f[|f| - 1] == LF {
      assert |Closed(DropLast(f))| <= |f|;
    }
  }

  predicate EndsWell(s: string) {
    s == "" || (s[|s| - 1] != 16 as char && (s[|s| - 1] != '\n' || |s| % 72 == 0))
  }

  /**
   * The wrapped text is lined as intended exactly if the text is empty or its last character is neither 0x10 nor a
   * line feed (which does no harm if the text fills its last line).
   */
  lemma WrapsAsMeantIff(s: string)
    ensures Wrap72(s) == Lined(s) <==> EndsWell(s)
  {
    if s != "" {
      FoldEnds(s);
      var f := Fold(s);
      if |s| % 72 == 0 {
        EndsFull(f);
        assert EndsWell(s) <==> s[|s| - 1] != SIXTEEN;
      } else {
        EndsShort(f);
        assert EndsWell(s) <==> s[|s| - 1] != SIXTEEN && s[|s| - 1] != LF;
      }
      hide *;
    }
  }

  lemma ShortLine(s: string)
    requires |s| < 72
    ensures Fold(s) == s && Lined(s) == s + [LF]
  {
  }

  /** A text for which it is not: 0x10 ends it, and it gets no line feed. */
  lemma SixteenStaysOpen(s: string)
    requires 0 < |s| < 72 && s[|s| - 1] == 16 as char
    ensures Wrap72(s) == s && Lined(s) == s + [LF]
  {
    hide Fold, Lined;
    ShortLine(s);
  }

  /** Another one: a short last line that ends in a line feed of its own gets no second one. */
  lemma OwnLineFeedIsNotDoubled(s: string)
    requires 2 <= |s| < 72 && s[|s| - 1] == LF && s[|s| - 2] != SIXTEEN
    ensures Wrap72(s) == s && Lined(s) == s + [LF]
  {
    hide Fold, Lined;
    ShortLine(s);
    EndsFull(s);
  }

  /** Between two line feeds there are at most `n` characters. */
  ghost predicate LinesWithin(t: string, n: nat) {
    forall i, j :: 0 <= i <= j <= |t| && LF !in t[i..j] ==> j - i <= n
  }

  lemma LinedHasLineFeed(s: string, i: nat, j: nat)
    requires i <= j <= |Lined(s)| && j - i > 72
    ensures LF in Lined(s)[i..j]
  {
    var k := i / 73 * 73 + 72;
    assert i <= k < j && k % 73 == 72;
    LinedAt(s, k);
    assert Lined(s)[i..j][k - i] == LF;
  }

  /** Every 73rd character of a lined text is a line feed, so its lines have at most 72. */
  lemma LinedWithin(s: string)
    ensures LinesWithin(Lined(s), 72)
  {
    hide Lined;
    var t := Lined(s);
    forall i, j | 0 <= i <= j <= |t| && LF !in t[i..j]
      ensures j - i <= 72
    {
      if j - i > 72 {
        LinedHasLineFeed(s, i, j);
      }
    }
  }
}
