/** File name wildcards, translated into regular expressions. */
module Wildcard {

  import opened Wrappers

  // ----- Wildcards ---------------------------------------------------------------------

  /** The characters that a dot of a regular expression does not match. */
  predicate EndsLine(c: char) {
    c == '\n' || c == '\r'
  }

  predicate OneLine(s: string) {
    forall i :: 0 <= i < |s| ==> !EndsLine(s[i])
  }

  /** A star stands for any string, a question mark for any character; `dotted` ones leave out line ends. */
  predicate Covers(pattern: string, s: string, dotted: bool)
    decreases |pattern| + |s|
  {
    if pattern == [] then s == []
    else if pattern[0] == '*' then
      Covers(pattern[1..], s, dotted) || (s != [] && (dotted ==> !EndsLine(s[0])) && Covers(pattern, s[1..], dotted))
    else if pattern[0] == '?' then s != [] && (dotted ==> !EndsLine(s[0])) && Covers(pattern[1..], s[1..], dotted)
    else s != [] && s[0] == pattern[0] && Covers(pattern[1..], s[1..], dotted)
  }

  // ----- Regular expressions -----------------------------------------------------------

  datatype Atom = Any | Literal(c: char)

  datatype Item = One(atom: Atom) | Many(atom: Atom)

  predicate AtomMatches(a: Atom, c: char) {
    match a
    case Any => !EndsLine(c)
    case Literal(l) => c == l
  }

  predicate ItemsMatch(items: seq<Item>, s: string)
    decreases |items| + |s|
  {
    if items == [] then s == []
    else match items[0]
      case One(a) => s != [] && AtomMatches(a, s[0]) && ItemsMatch(items[1..], s[1..])
      case Many(a) => ItemsMatch(items[1..], s) || (s != [] && AtomMatches(a, s[0]) && ItemsMatch(items, s[1..]))
  }

  const SYNTAX_CHARACTERS := "()[]{}?*+|^$\\."

  predicate IsAlphanumeric(c: char) {
    '0' <= c <= '9' || 'A' <= c <= 'Z' || 'a' <= c <= 'z' || c == '_'
  }

  /** One atom, and how long it is. A backslash before a letter or a digit means something else. */
  function ParseAtom(text: string): (r: Option<(Atom, nat)>)
    ensures r.Some? ==> 0 < r.value.1 <= |text|
  {
    if text == [] then None
    else if text[0] == '\\' then
      if |text| >= 2 && !IsAlphanumeric(text[1]) then Some((Literal(text[1]), 2)) else None
    else if text[0] == '.' then Some((Any, 1))
    else if text[0] in SYNTAX_CHARACTERS then None
    else Some((Literal(text[0]), 1))
  }

  const OPENING := "^(?:"
  const CLOSING := ")$"

  /** Atoms, each repeated or not, up to the end of the group. */
  function ParseItems(text: string): Option<seq<Item>>
    decreases |text|
  {
    if text == CLOSING then Some([])
    else match ParseAtom(text)
      case None => None
      case Some((a, n)) =>
        var repeated := n < |text| && text[n] == '*';
        match ParseItems(if repeated then text[n + 1..] else text[n..])
        case None => None
        case Some(rest) => Some([if repeated then Many(a) else One(a)] + rest)
  }

  /** The whole expression is one group between the anchors. */
  function ParseRegex(regex: string): Option<seq<Item>> {
    if OPENING <= regex then ParseItems(regex[|OPENING|..]) else None
  }

  predicate RegexMatches(regex: string, s: string) {
    ParseRegex(regex).Some? && ItemsMatch(ParseRegex(regex).value, s)
  }

  // ----- The translation ---------------------------------------------------------------

  const SPECIAL_CHARACTERS := "()[]{}?*+-|^$\\.&~# \t\n\r\U{000B}\U{000C}"

  function Escaped(c: char): string {
    if c in SPECIAL_CHARACTERS then ['\\', c] else [c]
  }

  /** What a character becomes; a star behind a star becomes nothing. */
  function Piece(c: char, afterStar: bool): string {
    if c == '*' then (if afterStar then "" else ".*")
    else if c == '?' then "."
    else Escaped(c)
  }

  function Translated(pattern: string, afterStar: bool): string {
    if pattern == [] then [] else Piece(pattern[0], afterStar) + Translated(pattern[1..], pattern[0] == '*')
  }

  function Regex(pattern: string): string {
    OPENING + (Translated(pattern, false) + CLOSING)
  }

  /** Stars that follow on one another are one. */
  function Items(pattern: string, afterStar: bool): seq<Item> {
    if pattern == [] then []
    else if pattern[0] == '*' then (if afterStar then [] else [Many(Any)]) + Items(pattern[1..], true)
    else if pattern[0] == '?' then [One(Any)] + Items(pattern[1..], false)
    else [One(Literal(pattern[0]))] + Items(pattern[1..], false)
  }

  method AppendRegexEscaped(output: string, c: char) returns (r: string)
    ensures r == output + Escaped(c)
  {
    r := output;
    if c in SPECIAL_CHARACTERS { r := r + "\\"; }
    r := r + [c];
  }

  lemma {:induction false} OneMoreTranslated(pattern: string, i: nat, afterStar: bool, before: string)
    requires i < |pattern|
    ensures before + Translated(pattern[i..], afterStar)
         == before + Piece(pattern[i], afterStar) + Translated(pattern[i + 1..], pattern[i] == '*')
  {
    assert pattern[i..][0] == pattern[i] && pattern[i..][1..] == pattern[i + 1..];
  }

  method WildcardToRegex(pattern: string) returns (result: string)
    ensures result == Regex(pattern)
    ensures ParseRegex(result) == Some(Items(pattern, false))
  {
    RegexParses(pattern);
    hide Translated, Escaped, Items, ParseRegex;
    result := "^(?:";
    var lastWasStar := false;
    assert pattern[0..] == pattern;
    for i := 0 to |pattern|
      invariant result + Translated(pattern[i..], lastWasStar) == OPENING + Translated(pattern, false)
    {
      var c := pattern[i];
      OneMoreTranslated(pattern, i, lastWasStar, result);
      if c == '*' {
        if lastWasStar {
          assert result + "" == result;
          continue;
        }
        result := result + ".*";
        lastWasStar := true;
      } else if c == '?' {
        result := result + ".";
        lastWasStar := false;
      } else {
        result := AppendRegexEscaped(result, c);
        lastWasStar := false;
      }
    }
    NothingTranslated(pattern[|pattern|..], lastWasStar, result);
    result := result + ")$";
  }

  lemma {:induction false} NothingTranslated(pattern: string, afterStar: bool, before: string)
    requires pattern == []
    ensures before + Translated(pattern, afterStar) == before
  {
  }

  // ----- The expression is well formed -------------------------------------------------

  lemma {:induction false} NoStarInFront(pattern: string, afterStar: bool)
    ensures (Translated(pattern, afterStar) + CLOSING)[0] != '*'
  {
    if pattern != [] && pattern[0] == '*' && afterStar {
      NoStarInFront(pattern[1..], true);
      assert Translated(pattern, afterStar) == Translated(pattern[1..], true);
    }
  }

  /** What is not escaped is not a syntax character, and what is escaped is no letter or digit. */
  lemma {:induction false} EscapedParses(c: char, rest: string)
    ensures ParseAtom(Escaped(c) + rest) == Some((Literal(c), |Escaped(c)|))
  {
    var text := Escaped(c) + rest;
    if c in SPECIAL_CHARACTERS {
      assert text[0] == '\\' && text[1] == c;
      SpecialIsNotAlphanumeric(c);
    } else {
      assert text[0] == c;
      NotSpecialIsNotSyntax(c);
    }
  }

  lemma {:induction false} SpecialIsNotAlphanumeric(c: char)
    requires c in SPECIAL_CHARACTERS
    ensures !IsAlphanumeric(c)
  {
    var i :| 0 <= i < |SPECIAL_CHARACTERS| && SPECIAL_CHARACTERS[i] == c;
  }

  lemma {:induction false} SyntaxIsSpecial(c: char)
    requires c in SYNTAX_CHARACTERS
    ensures c in SPECIAL_CHARACTERS
  {
    var i :| 0 <= i < |SYNTAX_CHARACTERS| && SYNTAX_CHARACTERS[i] == c;
    assert SPECIAL_CHARACTERS[..8] == SYNTAX_CHARACTERS[..8];
  }

  lemma {:induction false} NotSpecialIsNotSyntax(c: char)
    requires c !in SPECIAL_CHARACTERS
    ensures c !in SYNTAX_CHARACTERS
  {
    if c in SYNTAX_CHARACTERS { SyntaxIsSpecial(c); }
  }

  lemma {:induction false} TranslatedParses(pattern: string, afterStar: bool)
    ensures ParseItems(Translated(pattern, afterStar) + CLOSING) == Some(Items(pattern, afterStar))
    decreases |pattern|, 1
  {
    if pattern == [] {
      assert Translated(pattern, afterStar) + CLOSING == CLOSING;
    } else if pattern[0] == '*' {
      StarParses(pattern, afterStar);
    } else {
      var rest := Translated(pattern[1..], false) + CLOSING;
      NoStarInFront(pattern[1..], false);
      TranslatedParses(pattern[1..], false);
      if pattern[0] == '?' {
        assert Translated(pattern, afterStar) + CLOSING == "." + rest;
        ItemParses("." + rest, Any, 1, rest);
      } else {
        var c := pattern[0];
        assert Translated(pattern, afterStar) + CLOSING == Escaped(c) + rest;
        EscapedParses(c, rest);
        ItemParses(Escaped(c) + rest, Literal(c), |Escaped(c)|, rest);
      }
    }
  }

  lemma {:induction false} StarParses(pattern: string, afterStar: bool)
    requires pattern != [] && pattern[0] == '*'
    ensures ParseItems(Translated(pattern, afterStar) + CLOSING) == Some(Items(pattern, afterStar))
    decreases |pattern|, 0
  {
    var rest := Translated(pattern[1..], true) + CLOSING;
    TranslatedParses(pattern[1..], true);
    hide ParseItems;
    if afterStar {
      assert Items(pattern, afterStar) == Items(pattern[1..], true);
      assert Translated(pattern, afterStar) == Translated(pattern[1..], true);
      assert Translated(pattern, afterStar) + CLOSING == rest;
    } else {
      assert Items(pattern, afterStar) == [Many(Any)] + Items(pattern[1..], true);
      assert Translated(pattern, afterStar) == ".*" + Translated(pattern[1..], true);
      assert Translated(pattern, afterStar) + CLOSING == ".*" + rest;
      DotStarParses(rest);
    }
  }

  lemma {:induction false} DotStarParses(rest: string)
    requires ParseItems(rest).Some?
    ensures ParseItems(".*" + rest) == Some([Many(Any)] + ParseItems(rest).value)
  {
    var text := ".*" + rest;
    assert text[0] == '.' && text[1] == '*' && text[2..] == rest;
    assert text != CLOSING;
    assert ParseAtom(text) == Some((Any, 1));
  }

  /** One item that is not repeated. */
  lemma {:induction false} ItemParses(text: string, a: Atom, n: nat, rest: string)
    requires ParseAtom(text) == Some((a, n)) && text[n..] == rest && rest != [] && rest[0] != '*'
    requires ParseItems(rest).Some?
    ensures ParseItems(text) == Some([One(a)] + ParseItems(rest).value)
  {
    assert text[n] == rest[0];
    assert ')' in SYNTAX_CHARACTERS by { assert SYNTAX_CHARACTERS[1] == ')'; }
    assert ParseAtom(CLOSING) == None;
  }

  lemma {:induction false} RegexParses(pattern: string)
    ensures ParseRegex(Regex(pattern)) == Some(Items(pattern, false))
  {
    TranslatedParses(pattern, false);
    assert Regex(pattern)[|OPENING|..] == Translated(pattern, false) + CLOSING;
  }

  // ----- The expression means the pattern ----------------------------------------------

  lemma {:induction false} TwoStarsAreOne(pattern: string, s: string, dotted: bool)
    requires pattern != [] && pattern[0] == '*'
    ensures Covers(['*'] + pattern, s, dotted) == Covers(pattern, s, dotted)
    decreases |s|
  {
    assert (['*'] + pattern)[1..] == pattern;
    if s != [] { TwoStarsAreOne(pattern, s[1..], dotted); }
  }

  lemma {:induction false} ItemsMean(pattern: string, s: string)
    ensures ItemsMatch(Items(pattern, false), s) == Covers(pattern, s, true)
    decreases |pattern| + |s|, 0
  {
    if pattern != [] {
      var items := Items(pattern, false);
      if pattern[0] == '*' {
        assert items == [Many(Any)] + Items(pattern[1..], true);
        assert pattern == ['*'] + pattern[1..];
        StarMeans(pattern[1..], s);
      } else {
        assert items[1..] == Items(pattern[1..], false);
        if s != [] { ItemsMean(pattern[1..], s[1..]); }
      }
    }
  }

  /** A repeated dot, with the stars behind it swallowed. */
  lemma {:induction false} StarMeans(pattern: string, s: string)
    ensures ItemsMatch([Many(Any)] + Items(pattern, true), s) == Covers(['*'] + pattern, s, true)
    decreases |pattern| + |s|, 1
  {
    if pattern != [] && pattern[0] == '*' {
      assert Items(pattern, true) == Items(pattern[1..], true);
      assert pattern == ['*'] + pattern[1..];
      StarMeans(pattern[1..], s);
      TwoStarsAreOne(pattern, s, true);
    } else {
      var items := [Many(Any)] + Items(pattern, true);
      assert Items(pattern, true) == Items(pattern, false);
      assert items[1..] == Items(pattern, true) && (['*'] + pattern)[1..] == pattern;
      ItemsMean(pattern, s);
      if s != [] { StarMeans(pattern, s[1..]); }
    }
  }

  /** On one line, leaving out line ends leaves out nothing. */
  lemma {:induction false} OneLineCovers(pattern: string, s: string)
    requires OneLine(s)
    ensures Covers(pattern, s, true) == Covers(pattern, s, false)
    decreases |pattern| + |s|
  {
    if pattern != [] {
      if s != [] { OneLineCovers(pattern[1..], s[1..]); OneLineCovers(pattern, s[1..]); }
      OneLineCovers(pattern[1..], s);
    }
  }

  /** For every pattern and every string, the expression matches what the pattern covers without stretching over line
      ends. */
  lemma {:induction false} RegexMeansWildcard(pattern: string, s: string)
    ensures RegexMatches(Regex(pattern), s) <==> Covers(pattern, s, true)
  {
    RegexParses(pattern);
    ItemsMean(pattern, s);
  }

  lemma {:induction false} StarCoversAll(s: string)
    ensures Covers("*", s, false)
    decreases |s|
  {
    if s == [] { assert Covers([], s, false); } else { StarCoversAll(s[1..]); }
  }

  lemma {:induction false} DottedStarIsOneLine(s: string)
    ensures Covers("*", s, true) <==> OneLine(s)
    decreases |s|
  {
    if s == [] {
      assert Covers([], s, true);
    } else {
      assert "*"[1..] == [];
      DottedStarIsOneLine(s[1..]);
      assert OneLine(s) <==> !EndsLine(s[0]) && OneLine(s[1..]) by {
        if !EndsLine(s[0]) && OneLine(s[1..]) {
          forall i | 0 <= i < |s| ensures !EndsLine(s[i]) { assert i > 0 ==> s[i] == s[1..][i - 1]; }
        }
      }
    }
  }

  /** The expressions mean the patterns exactly on the strings of one line. */
  lemma {:induction false} TranslationKeepsMeaningExactlyOnOneLine(s: string)
    ensures OneLine(s) <==> forall pattern: string :: RegexMatches(Regex(pattern), s) <==> Covers(pattern, s, false)
  {
    if OneLine(s) {
      forall pattern: string ensures RegexMatches(Regex(pattern), s) <==> Covers(pattern, s, false) {
        RegexMeansWildcard(pattern, s);
        OneLineCovers(pattern, s);
      }
    } else {
      RegexMeansWildcard("*", s);
      DottedStarIsOneLine(s);
      StarCoversAll(s);
    }
  }
}
