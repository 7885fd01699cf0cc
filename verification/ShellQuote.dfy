/** `ShellUtils`: what a shell makes of the escaped text, by the quoting rules of the POSIX Shell Command Language. */
module ShellQuote {
  import opened Sequences

  /** Java's `String.replace` of one character by a text, everywhere. */
  function Replace(s: string, c: char, rep: string): string {
    if s == "" then "" else (if s[0] == c then rep else [s[0]]) + Replace(s[1..], c, rep)
  }

  function EscapeForDblQuotButParams(s: string): string {
    Replace(Replace(Replace(s, '\\', "\\\\"), '"', "\\\""), '`', "\\`")
  }

  function EscapeForSingleQuotEverything(s: string): string {
    Replace(s, '\'', "'\"'\"'")
  }

  /** A character of a word: taken literally, or still with its special meaning inside double quotes. */
  datatype Item = Literal(c: char) | Active(c: char)

  datatype Mode = Unquoted | SingleQuoted | DoubleQuoted

  /** Section 2.2: outside of quotes these end the word or mean something else. */
  const SPECIAL: string := "|&;<>()$` \t\n*?[#~=%"

  /** Section 2.2.3: before these a backslash keeps its meaning inside double quotes. */
  const ESCAPABLE: string := "$`\"\\"

  function Cons(i: Item, word: Option<seq<Item>>): Option<seq<Item>> {
    if word.Some? then Some([i] + word.value) else None
  }

  predicate IsNameChar(c: char) { 'a' <= c <= 'z' || 'A' <= c <= 'Z' || '0' <= c <= '9' || c == '_' }

  predicate ClosesName(text: string) {
    text != "" && (text[0] == '}' || (IsNameChar(text[0]) && ClosesName(text[1..])))
  }

  /** The name or number of a parameter, and the brace that closes it. */
  predicate IsBracedName(text: string) { text != "" && text[0] != '}' && ClosesName(text) }

  /** Section 2.2.3: what stands in a command substitution is not affected by the double quotes around it. */
  predicate BeginsCommand(text: string) {
    |text| >= 2 && text[0] == '$' && (text[1] == '(' || (text[1] == '{' && !IsBracedName(text[2..])))
  }

  /**
   * Sections 2.2.1 to 2.2.3: the items of one word, if `text` is one word. Where double quotes hold a command, or more
   * than the name of a parameter between braces, other rules apply and there is no answer.
   */
  function Word(text: string, mode: Mode): Option<seq<Item>>
    decreases |text|
  {
    if text == "" then if mode.Unquoted? then Some([]) else None
    else
      var c, rest := text[0], text[1..];
      match mode
      case Unquoted =>
        if c == '\'' then Word(rest, SingleQuoted)
        else if c == '"' then Word(rest, DoubleQuoted)
        else if c == '\\' then
          if rest == "" then None
          else if rest[0] == '\n' then Word(rest[1..], Unquoted)
          else Cons(Literal(rest[0]), Word(rest[1..], Unquoted))
        else if c in SPECIAL then None
        else Cons(Literal(c), Word(rest, Unquoted))
      case SingleQuoted =>
        if c == '\'' then Word(rest, Unquoted) else Cons(Literal(c), Word(rest, SingleQuoted))
      case DoubleQuoted =>
        if c == '"' then Word(rest, Unquoted)
        else if c == '\\' && rest != "" && rest[0] in ESCAPABLE then
          Cons(Literal(rest[0]), Word(rest[1..], DoubleQuoted))
        else if c == '\\' && rest != "" && rest[0] == '\n' then Word(rest[1..], DoubleQuoted)
        else if c == '`' || BeginsCommand(text) then None
        else if c == '$' then Cons(Active(c), Word(rest, DoubleQuoted))
        else Cons(Literal(c), Word(rest, DoubleQuoted))
  }

  function Literals(s: string): seq<Item> {
    seq(|s|, k requires 0 <= k < |s| => Literal(s[k]))
  }

  /** Everything literal but the dollar signs. */
  function ButParams(s: string): seq<Item> {
    seq(|s|, k requires 0 <= k < |s| => if s[k] == '$' then Active('$') else Literal(s[k]))
  }

  lemma ReplaceCons(c: char, s: string, x: char, rep: string)
    ensures Replace([c] + s, x, rep) == (if c == x then rep else [c]) + Replace(s, x, rep)
  {
    assert ([c] + s)[1..] == s;
  }

  /** One step of the lexer, on a text that begins with `c`. */
  lemma WordCons(c: char, rest: string, mode: Mode)
    ensures mode.SingleQuoted? ==>
              Word([c] + rest, mode) == if c == '\'' then Word(rest, Unquoted) else Cons(Literal(c), Word(rest, mode))
    ensures mode.Unquoted? && c == '\'' ==> Word([c] + rest, mode) == Word(rest, SingleQuoted)
    ensures mode.Unquoted? && c == '"' ==> Word([c] + rest, mode) == Word(rest, DoubleQuoted)
    ensures mode.DoubleQuoted? && c == '"' ==> Word([c] + rest, mode) == Word(rest, Unquoted)
    ensures mode.DoubleQuoted? && c == '$' ==>
              Word([c] + rest, mode) == if BeginsCommand([c] + rest) then None else Cons(Active(c), Word(rest, mode))
    ensures mode.DoubleQuoted? && c !in ESCAPABLE ==> Word([c] + rest, mode) == Cons(Literal(c), Word(rest, mode))
  {
    assert ([c] + rest)[1..] == rest;
  }

  lemma WordEscaped(c: char, rest: string)
    requires c in ESCAPABLE
    ensures Word("\\" + [c] + rest, DoubleQuoted) == Cons(Literal(c), Word(rest, DoubleQuoted))
  {
    assert ("\\" + [c] + rest)[1..] == [c] + rest && ([c] + rest)[1..] == rest;
  }

  /** The detour `'"'"'` of a quote leaves the single quotes, adds a quote, and comes back. */
  lemma Detour(rest: string)
    ensures Word("'\"'\"'" + rest, SingleQuoted) == Cons(Literal('\''), Word(rest, SingleQuoted))
  {
    assert "'\"'\"'" + rest == ['\''] + (['"'] + (['\''] + (['"'] + (['\''] + rest))));
    WordCons('\'', ['"'] + (['\''] + (['"'] + (['\''] + rest))), SingleQuoted);
    WordCons('"', ['\''] + (['"'] + (['\''] + rest)), Unquoted);
    WordCons('\'', ['"'] + (['\''] + rest), DoubleQuoted);
    WordCons('"', ['\''] + rest, DoubleQuoted);
    WordCons('\'', rest, Unquoted);
  }

  lemma {:induction false} SingleQuotedBack(s: string)
    ensures Word(EscapeForSingleQuotEverything(s) + "'", SingleQuoted) == Some(Literals(s))
  {
    if s == "" {
      WordCons('\'', "", SingleQuoted);
      assert "" + "'" == ['\''] + "";
    } else {
      SingleQuotedBack(s[1..]);
      var later := Replace(s[1..], '\'', "'\"'\"'") + "'";
      assert s == [s[0]] + s[1..];
      ReplaceCons(s[0], s[1..], '\'', "'\"'\"'");
      if s[0] == '\'' {
        assert EscapeForSingleQuotEverything(s) + "'" == "'\"'\"'" + later;
        Detour(later);
      } else {
        assert EscapeForSingleQuotEverything(s) + "'" == [s[0]] + later;
        WordCons(s[0], later, SingleQuoted);
      }
      assert Literals(s) == [Literal(s[0])] + Literals(s[1..]);
    }
  }

  /** Between single quotes every escaped text is one word, and its value is the text. */
  lemma SingleQuotingIsUndone(s: string)
    ensures Word("'" + EscapeForSingleQuotEverything(s) + "'", Unquoted) == Some(Literals(s))
  {
    var text := EscapeForSingleQuotEverything(s) + "'";
    assert "'" + EscapeForSingleQuotEverything(s) + "'" == ['\''] + text;
    WordCons('\'', text, Unquoted);
    SingleQuotedBack(s);
  }

  function Escaped(c: char): string {
    if c in "\\\"`" then "\\" + [c] else [c]
  }

  /** Every character escaped on its own. */
  function EscapeEach(s: string): string {
    if s == "" then "" else Escaped(s[0]) + EscapeEach(s[1..])
  }

  lemma {:induction false} ReplaceConcat(a: string, b: string, x: char, rep: string)
    ensures Replace(a + b, x, rep) == Replace(a, x, rep) + Replace(b, x, rep)
  {
    if a == "" {
      assert a + b == b;
    } else {
      assert (a + b)[1..] == a[1..] + b;
      ReplaceConcat(a[1..], b, x, rep);
      assert Replace(a + b, x, rep) == (if a[0] == x then rep else [a[0]]) + Replace(a[1..] + b, x, rep);
    }
  }

  lemma EscapeOne(c: char)
    ensures EscapeForDblQuotButParams([c]) == Escaped(c)
  {
    ReplaceTwo(c, '\\', "\\\\");
    ReplaceTwo(c, '"', "\\\"");
    ReplaceTwo(c, '`', "\\`");
    ReplaceTwo('\\', '"', "\\\"");
    ReplaceTwo('\\', '`', "\\`");
    ReplaceTwo('"', '`', "\\`");
    assert "\\\\" == "\\" + ['\\'] && "\\\"" == "\\" + ['"'] && "\\`" == "\\" + ['`'];
    hide Replace;
  }

  /** A character, and one after a backslash. */
  lemma ReplaceTwo(c: char, x: char, rep: string)
    ensures Replace([c], x, rep) == if c == x then rep else [c]
    ensures x != '\\' && c != x ==> Replace("\\" + [c], x, rep) == "\\" + [c]
  {
    ReplaceCons(c, "", x, rep);
    assert [c] == [c] + "" && Replace("", x, rep) == "";
    ReplaceCons('\\', [c], x, rep);
    assert "\\" + [c] == ['\\'] + [c];
    hide Replace;
    assert rep + "" == rep;
  }

  /** The three replacements one after the other do not get into each other's way. */
  lemma {:induction false} ThreeReplacementsAreOne(s: string)
    ensures EscapeForDblQuotButParams(s) == EscapeEach(s)
  {
    if s != "" {
      ThreeReplacementsAreOne(s[1..]);
      EscapeOne(s[0]);
      assert s == [s[0]] + s[1..];
      ReplaceConcat([s[0]], s[1..], '\\', "\\\\");
      ReplaceConcat(Replace([s[0]], '\\', "\\\\"), Replace(s[1..], '\\', "\\\\"), '"', "\\\"");
      ReplaceConcat(Replace(Replace([s[0]], '\\', "\\\\"), '"', "\\\""),
                    Replace(Replace(s[1..], '\\', "\\\\"), '"', "\\\""), '`', "\\`");
      hide Replace;
    }
  }

  /** No dollar sign in the text begins a command, or braces that hold more than a name. */
  ghost predicate Plain(s: string) { forall k :: 0 <= k < |s| ==> !BeginsCommand(s[k..]) }

  lemma PlainTail(s: string)
    requires s != ""
    ensures Plain(s) <==> !BeginsCommand(s) && Plain(s[1..])
  {
    hide BeginsCommand;
    assert s[0..] == s;
    assert forall k :: 0 <= k < |s[1..]| ==> s[1..][k..] == s[k + 1..];
    assert forall k :: 0 < k < |s| ==> s[k..] == s[1..][k - 1..];
  }

  /** A name in braces is not touched by the escaping. */
  lemma {:induction false} NameKept(s: string)
    ensures ClosesName(EscapeEach(s) + "\"") <==> ClosesName(s)
  {
    if s == "" {
      assert "" + "\"" == "\"";
    } else {
      NameKept(s[1..]);
      var later := EscapeEach(s[1..]) + "\"";
      var text := EscapeEach(s) + "\"";
      assert text == Escaped(s[0]) + later;
      assert s[0] !in "\\\"`" ==> text == [s[0]] + later && text[1..] == later;
    }
  }

  /** What escaping does to the front of a text. */
  lemma FrontKept(s: string, c: char)
    requires c in "({}"
    ensures (EscapeEach(s) + "\"")[0] == c <==> s != "" && s[0] == c
    ensures s != "" && s[0] !in "\\\"`" ==>
              EscapeEach(s) + "\"" == [s[0]] + (EscapeEach(s[1..]) + "\"")
  {
    if s != "" {
      assert EscapeEach(s) + "\"" == Escaped(s[0]) + (EscapeEach(s[1..]) + "\"");
    }
  }

  lemma CommandKept(s: string)
    requires s != "" && s[0] == '$'
    ensures BeginsCommand(EscapeEach(s) + "\"") <==> BeginsCommand(s)
  {
    var t := s[1..];
    var later := EscapeEach(t) + "\"";
    FrontKept(s, '(');
    FrontKept(t, '(');
    FrontKept(t, '{');
    assert EscapeEach(s) + "\"" == ['$'] + later && (['$'] + later)[1..] == later;
    if t != "" && t[0] == '{' {
      var more := EscapeEach(t[1..]) + "\"";
      assert later == ['{'] + more;
      hide EscapeEach;
      assert (['$'] + later)[2..] == more && s[2..] == t[1..];
      BracesKept(t[1..]);
    }
    hide EscapeEach;
  }

  lemma BracesKept(s: string)
    ensures IsBracedName(EscapeEach(s) + "\"") <==> IsBracedName(s)
  {
    NameKept(s);
    FrontKept(s, '}');
    hide EscapeEach;
  }

  lemma {:induction false} DoubleQuotedBack(s: string)
    ensures Word(EscapeEach(s) + "\"", DoubleQuoted) == if Plain(s) then Some(ButParams(s)) else None
  {
    if s == "" {
      assert "" + "\"" == ['"'] + "";
      WordCons('"', "", DoubleQuoted);
    } else {
      DoubleQuotedBack(s[1..]);
      PlainTail(s);
      var c, later := s[0], EscapeEach(s[1..]) + "\"";
      assert EscapeEach(s) + "\"" == Escaped(c) + later;
      if c in "\\\"`" {
        assert Escaped(c) + later == "\\" + [c] + later;
        WordEscaped(c, later);
      } else {
        WordCons(c, later, DoubleQuoted);
        if c == '$' { CommandKept(s); }
      }
      assert ButParams(s) == [if c == '$' then Active('$') else Literal(c)] + ButParams(s[1..]);
    }
  }

  /**
   * Between double quotes the shell undoes the escaping, and the dollar signs, only they, keep their meaning: exactly
   * for texts in which dollar signs stand for parameters.
   */
  lemma DoubleQuotingIsUndoneIff(s: string)
    ensures Word("\"" + EscapeForDblQuotButParams(s) + "\"", Unquoted) == Some(ButParams(s)) <==> Plain(s)
  {
    ThreeReplacementsAreOne(s);
    DoubleQuotedBack(s);
    var text := EscapeEach(s) + "\"";
    assert "\"" + EscapeEach(s) + "\"" == ['"'] + text;
    WordCons('"', text, Unquoted);
  }

  /** A text for which there is no such answer: it holds a command. */
  lemma NotInCommands(before: string, command: string)
    ensures var s := before + "$(" + command;
            Word("\"" + EscapeForDblQuotButParams(s) + "\"", Unquoted) != Some(ButParams(s))
  {
    var s := before + "$(" + command;
    assert s[|before|..] == "$(" + command;
    DoubleQuotingIsUndoneIff(s);
    hide EscapeForDblQuotButParams, Word, ButParams;
  }

  const LOWER: string := "abcdefghijklmnopqrstuvwxyz"
  const UPPER: string := "ABCDEFGHIJKLMNOPQRSTUVWXYZ"
  const DIGITS: string := "0123456789"

  lemma LowerIff(c: char)
    ensures 'a' <= c <= 'z' <==> c in LOWER
  {
    if 'a' <= c <= 'z' { assert LOWER[c as int - 'a' as int] == c; }
  }

  lemma UpperIff(c: char)
    ensures 'A' <= c <= 'Z' <==> c in UPPER
  {
    if 'A' <= c <= 'Z' { assert UPPER[c as int - 'A' as int] == c; }
  }

  lemma DigitIff(c: char)
    ensures '0' <= c <= '9' <==> c in DIGITS
  {
    if '0' <= c <= '9' { assert DIGITS[c as int - '0' as int] == c; }
  }

  ghost predicate NameOnly(name: string) {
    forall c :: c in name ==> c in LOWER || c in UPPER || c in DIGITS || c == '_'
  }

  /** The letters, the digits and the underscore. */
  lemma NameCharIff(c: char)
    ensures IsNameChar(c) <==> NameOnly([c])
  {
    LowerIff(c);
    UpperIff(c);
    DigitIff(c);
    assert c in [c];
  }

  /** A name, and the brace behind it. */
  ghost predicate NameThenBrace(t: string, n: int) { 0 <= n < |t| && NameOnly(t[..n]) && t[n] == '}' }

  lemma {:induction false} ClosesIff(t: string)
    ensures ClosesName(t) <==> exists n :: NameThenBrace(t, n)
  {
    if t != "" && t[0] == '}' {
      assert NameThenBrace(t, 0);
    } else if t != "" {
      ClosesIff(t[1..]);
      NameCharIff(t[0]);
      hide NameOnly;
      if IsNameChar(t[0]) && ClosesName(t[1..]) {
        var n :| NameThenBrace(t[1..], n);
        NameGrows(t, n);
      }
      if n :| NameThenBrace(t, n) {
        NameShrinks(t, n);
      }
    }
  }

  lemma NameGrows(t: string, n: nat)
    requires t != "" && NameOnly([t[0]]) && NameThenBrace(t[1..], n)
    ensures NameThenBrace(t, n + 1)
  {
    assert t[0] in [t[0]] && t[..n + 1] == [t[0]] + t[1..][..n];
  }

  lemma NameShrinks(t: string, n: int)
    requires t != "" && t[0] != '}' && NameThenBrace(t, n)
    ensures NameOnly([t[0]]) && NameThenBrace(t[1..], n - 1)
  {
    assert t[..n] == [t[0]] + t[1..][..n - 1];
  }

  /** The documented use: behind a dollar sign and a brace all is well exactly for a name and the closing brace. */
  lemma ParameterInBracesIff(t: string)
    ensures !BeginsCommand("${" + t) <==> exists n :: n > 0 && NameThenBrace(t, n)
  {
    assert ("${" + t)[2..] == t;
    ClosesIff(t);
    hide NameOnly;
    if t != "" && t[0] != '}' && ClosesName(t) {
      var n :| NameThenBrace(t, n);
      assert n > 0;
    }
    if n :| n > 0 && NameThenBrace(t, n) {
      FirstNotBrace(t, n);
    }
  }

  lemma FirstNotBrace(t: string, n: nat)
    requires n > 0 && NameThenBrace(t, n)
    ensures t[0] != '}'
  {
    assert t[..n][0] in t[..n] && NameOnly([t[0]]);
    NameCharIff(t[0]);
  }

  // ----- what becomes of a command -----

  /** Characters of a command's word that the escaping and the shell treat one by one. */
  ghost predicate WordOfCommand(w: string) { forall c :: c in w ==> c !in SPECIAL && c != '\'' }

  lemma WordPlain(c: char, rest: string)
    requires c !in SPECIAL && c != '\'' && c != '"' && c != '\\'
    ensures Word([c] + rest, Unquoted) == Cons(Literal(c), Word(rest, Unquoted))
  {
    assert ([c] + rest)[1..] == rest;
  }

  lemma WordBackslash(c: char, rest: string)
    requires c != '\n'
    ensures Word("\\" + [c] + rest, Unquoted) == Cons(Literal(c), Word(rest, Unquoted))
  {
    assert ("\\" + [c] + rest)[1..] == [c] + rest && ([c] + rest)[1..] == rest;
  }

  /** Outside of quotes every escaped character stands for itself, the quoting ones as well. */
  lemma {:induction false} EscapedStandsForItself(w: string)
    requires WordOfCommand(w)
    ensures Word(EscapeEach(w), Unquoted) == Some(Literals(w))
  {
    if w != "" {
      assert w[0] in w && forall c :: c in w[1..] ==> c in w;
      EscapedStandsForItself(w[1..]);
      var later := EscapeEach(w[1..]);
      assert EscapeEach(w) == Escaped(w[0]) + later;
      if w[0] in "\\\"`" {
        assert Escaped(w[0]) + later == "\\" + [w[0]] + later;
        WordBackslash(w[0], later);
      } else {
        WordPlain(w[0], later);
      }
      assert Literals(w) == [Literal(w[0])] + Literals(w[1..]);
    }
  }

  /** Quoting takes up characters: what is quoted has fewer items than the text has characters. */
  lemma {:induction false} QuotingShortens(w: string, mode: Mode)
    requires '\'' !in w && !mode.SingleQuoted?
    ensures var r := Word(w, mode);
            r.Some? ==> |r.value| <= |w| && (mode.DoubleQuoted? || '"' in w || '\\' in w ==> |r.value| < |w|)
    decreases |w|
  {
    if w != "" {
      var rest := w[1..];
      assert w[0] in w && forall c :: c in rest ==> c in w;
      assert forall c :: c in w ==> c == w[0] || c in rest;
      QuotingShortens(rest, Unquoted);
      QuotingShortens(rest, DoubleQuoted);
      if rest != "" {
        assert forall c :: c in rest[1..] ==> c in rest;
        QuotingShortens(rest[1..], Unquoted);
        QuotingShortens(rest[1..], DoubleQuoted);
      }
    }
  }

  /** Without quotes and backslashes a word is what it says, and the escaping leaves it alone. */
  lemma {:induction false} NothingToEscape(w: string)
    requires WordOfCommand(w) && '"' !in w && '\\' !in w
    ensures EscapeEach(w) == w
  {
    if w != "" {
      assert w[0] in w && forall c :: c in w[1..] ==> c in w;
      NothingToEscape(w[1..]);
      assert Escaped(w[0]) == [w[0]];
    }
  }

  /**
   * In a command substitution the shell reads words afresh, outside of quotes. There the escaping leaves a word its
   * meaning if and only if it holds neither a double quote nor a backslash.
   */
  lemma CommandWordIff(w: string)
    requires WordOfCommand(w)
    ensures Word(EscapeForDblQuotButParams(w), Unquoted) == Word(w, Unquoted) <==> '"' !in w && '\\' !in w
  {
    ThreeReplacementsAreOne(w);
    EscapedStandsForItself(w);
    assert '\'' !in w;
    if '"' in w || '\\' in w {
      QuotingShortens(w, Unquoted);
      assert |Literals(w)| == |w|;
    } else {
      NothingToEscape(w);
    }
    hide Word, EscapeEach, EscapeForDblQuotButParams;
  }
}
