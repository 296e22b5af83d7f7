/**
 Quoting a string for ClickHouse, and reading a quoted token back: two ways of reading, and where they differ.
 */
module Quoting {

  /** strings.ReplaceAll: left to right, matches do not overlap. */
  function ReplaceAll(s: string, from: string, to: string): string
    requires from != ""
    decreases |s|
  {
    if |s| < |from| then s
    else if s[..|from|] == from then to + ReplaceAll(s[|from|..], from, to)
    else [s[0]] + ReplaceAll(s[1..], from, to)
  }

  const BACKSLASH: string := "\\"
  const QUOTE: string := "'"
  const ESCAPED_BACKSLASH: string := "\\\\"
  const ESCAPED_QUOTE: string := "\\'"

  function QuoteEscapedString(s: string): string {
    ReplaceAll(ReplaceAll(s, BACKSLASH, ESCAPED_BACKSLASH), QUOTE, ESCAPED_QUOTE)
  }

  function Unescape(t: string): string {
    ReplaceAll(ReplaceAll(t, ESCAPED_BACKSLASH, BACKSLASH), ESCAPED_QUOTE, QUOTE)
  }

  predicate IsQuoted(t: string) {
    |t| >= 2 && t[0] == t[|t| - 1] && (t[0] == '"' || t[0] == '\'')
  }

  function TrimQuotes(t: string): string {
    Unescape(if IsQuoted(t) then t[1..|t| - 1] else t)
  }

  /* ---- what is quoted is read back ---- */

  /** Character by character: what the two replacements of QuoteEscapedString amount to. */
  function Escaped(s: string): string {
    if s == "" then ""
    else (if s[0] == '\\' then ESCAPED_BACKSLASH else if s[0] == '\'' then ESCAPED_QUOTE else [s[0]]) + Escaped(s[1..])
  }

  /** Only the quotes escaped: the text between the two replacements of Unescape. */
  function QuotesEscaped(s: string): string {
    if s == "" then "" else (if s[0] == '\'' then ESCAPED_QUOTE else [s[0]]) + QuotesEscaped(s[1..])
  }

  lemma OneCharacter(c: char, s: string, from: string, to: string)
    requires from != ""
    ensures from == [c] ==> ReplaceAll([c] + s, from, to) == to + ReplaceAll(s, from, to)
    ensures from[0] != c ==> ReplaceAll([c] + s, from, to) == [c] + ReplaceAll(s, from, to)
  {
    assert ([c] + s)[1..] == s;
    if |from| <= |s| + 1 { assert ([c] + s)[..|from|][0] == c; }
  }

  lemma TwoCharacters(c: char, d: char, s: string, from: string, to: string)
    requires |from| == 2
    ensures from == [c, d] ==> ReplaceAll([c, d] + s, from, to) == to + ReplaceAll(s, from, to)
    ensures from != [c, d] ==> ReplaceAll([c, d] + s, from, to) == [c] + ReplaceAll([d] + s, from, to)
  {
    var t := [c, d] + s;
    assert t[..2] == [c, d] && t[2..] == s && t[1..] == [d] + s;
  }

  lemma {:induction false} EscapedIsBoth(s: string)
    ensures QuoteEscapedString(s) == Escaped(s)
  {
    if s != "" {
      var c, rest := s[0], s[1..];
      EscapedIsBoth(rest);
      assert s == [c] + rest;
      OneCharacter(c, rest, BACKSLASH, ESCAPED_BACKSLASH);
      var doubled := ReplaceAll(rest, BACKSLASH, ESCAPED_BACKSLASH);
      if c == '\\' {
        OneCharacter('\\', [c] + doubled, QUOTE, ESCAPED_QUOTE);
        assert ESCAPED_BACKSLASH + doubled == ['\\'] + ([c] + doubled);
      }
      OneCharacter(c, doubled, QUOTE, ESCAPED_QUOTE);
    }
  }

  lemma EscapedQuoteStays(rest: string)
    ensures ReplaceAll(ESCAPED_QUOTE + rest, ESCAPED_BACKSLASH, BACKSLASH) == ESCAPED_QUOTE + ReplaceAll(rest, ESCAPED_BACKSLASH, BACKSLASH)
  {
    var after := ReplaceAll(rest, ESCAPED_BACKSLASH, BACKSLASH);
    TwoCharacters('\\', '\'', rest, ESCAPED_BACKSLASH, BACKSLASH);
    OneCharacter('\'', rest, ESCAPED_BACKSLASH, BACKSLASH);
    assert ['\\'] + (['\''] + after) == ESCAPED_QUOTE + after;
  }

  /** One character, escaped, before anything. */
  lemma HalvedStep(c: char, rest: string)
    ensures ReplaceAll((if c == '\\' then ESCAPED_BACKSLASH else if c == '\'' then ESCAPED_QUOTE else [c]) + rest, ESCAPED_BACKSLASH, BACKSLASH)
         == (if c == '\'' then ESCAPED_QUOTE else [c]) + ReplaceAll(rest, ESCAPED_BACKSLASH, BACKSLASH)
  {
    if c == '\\' {
      TwoCharacters('\\', '\\', rest, ESCAPED_BACKSLASH, BACKSLASH);
    } else if c == '\'' {
      EscapedQuoteStays(rest);
    } else {
      OneCharacter(c, rest, ESCAPED_BACKSLASH, BACKSLASH);
    }
  }

  lemma {:induction false} BackslashesHalved(s: string)
    ensures ReplaceAll(Escaped(s), ESCAPED_BACKSLASH, BACKSLASH) == QuotesEscaped(s)
  {
    if s != "" {
      BackslashesHalved(s[1..]);
      HalvedStep(s[0], Escaped(s[1..]));
    }
  }

  lemma {:induction false} QuotesRestored(s: string)
    ensures ReplaceAll(QuotesEscaped(s), ESCAPED_QUOTE, QUOTE) == s
  {
    if s != "" {
      var c, rest := s[0], s[1..];
      var t := QuotesEscaped(rest);
      QuotesRestored(rest);
      if c == '\'' {
        TwoCharacters('\\', '\'', t, ESCAPED_QUOTE, QUOTE);
      } else if c == '\\' && t != "" {
        // an escaped quote starts with a backslash, so this backslash meets no quote
        TwoCharacters('\\', t[0], t[1..], ESCAPED_QUOTE, QUOTE);
        assert [c] + t == ['\\', t[0]] + t[1..] && [t[0]] + t[1..] == t;
      } else {
        OneCharacter(c, t, ESCAPED_QUOTE, QUOTE);
      }
    }
  }

  /** Quoting and reading back is the identity, for every string. */
  lemma QuotedIsReadBack(s: string)
    ensures TrimQuotes(QUOTE + QuoteEscapedString(s) + QUOTE) == s
  {
    var t := QUOTE + QuoteEscapedString(s) + QUOTE;
    assert IsQuoted(t) && t[1..|t| - 1] == QuoteEscapedString(s);
    EscapedIsBoth(s);
    BackslashesHalved(s);
    QuotesRestored(s);
  }

  /* ---- where the two replacements are not one ---- */

  predicate StartsWith(t: string, p: string) {
    |p| <= |t| && t[..|p|] == p
  }

  /** Reading escape by escape, once. */
  function ReadOnce(t: string): string {
    if StartsWith(t, ESCAPED_BACKSLASH) then BACKSLASH + ReadOnce(t[2..])
    else if StartsWith(t, ESCAPED_QUOTE) then QUOTE + ReadOnce(t[2..])
    else if t == "" then ""
    else [t[0]] + ReadOnce(t[1..])
  }

  /** An escaped backslash right before a quote that is not escaped; only a double-quoted token can hold one. */
  function BareQuotes(t: string): nat {
    if StartsWith(t, ESCAPED_BACKSLASH) then (if StartsWith(t[2..], QUOTE) then 1 else 0) + BareQuotes(t[2..])
    else if StartsWith(t, ESCAPED_QUOTE) then BareQuotes(t[2..])
    else if t == "" then 0
    else BareQuotes(t[1..])
  }

  lemma FirstOfHalved(t: string)
    ensures var h := ReplaceAll(t, ESCAPED_BACKSLASH, BACKSLASH); t == "" <==> h == ""
    ensures var h := ReplaceAll(t, ESCAPED_BACKSLASH, BACKSLASH); t != "" ==> h[0] == t[0]
  {
  }

  function Halved(t: string): string {
    ReplaceAll(t, ESCAPED_BACKSLASH, BACKSLASH)
  }

  /** Reading on after an escaped backslash. */
  lemma AfterBackslash(rest: string)
    ensures var t := ESCAPED_BACKSLASH + rest;
            Unescape(t) == if StartsWith(rest, QUOTE) then QUOTE + Unescape(rest[1..]) else BACKSLASH + Unescape(rest)
  {
    TwoCharacters('\\', '\\', rest, ESCAPED_BACKSLASH, BACKSLASH);
    FirstOfHalved(rest);
    var h := Halved(rest);
    if StartsWith(rest, QUOTE) {
      assert rest == ['\''] + rest[1..];
      OneCharacter('\'', rest[1..], ESCAPED_BACKSLASH, BACKSLASH);
      assert BACKSLASH + h == ['\\', '\''] + Halved(rest[1..]);
      TwoCharacters('\\', '\'', Halved(rest[1..]), ESCAPED_QUOTE, QUOTE);
    } else if h != "" {
      assert BACKSLASH + h == ['\\', h[0]] + h[1..] && [h[0]] + h[1..] == h;
      TwoCharacters('\\', h[0], h[1..], ESCAPED_QUOTE, QUOTE);
    }
  }

  lemma AfterQuote(rest: string)
    ensures Unescape(ESCAPED_QUOTE + rest) == QUOTE + Unescape(rest)
  {
    TwoCharacters('\\', '\'', rest, ESCAPED_BACKSLASH, BACKSLASH);
    OneCharacter('\'', rest, ESCAPED_BACKSLASH, BACKSLASH);
    var h := Halved(rest);
    assert ['\\'] + (['\''] + h) == ['\\', '\''] + h;
    TwoCharacters('\\', '\'', h, ESCAPED_QUOTE, QUOTE);
  }

  /** Any other character stays. */
  lemma AfterOther(c: char, rest: string)
    requires c == '\\' ==> rest == "" || (rest[0] != '\\' && rest[0] != '\'')
    ensures Unescape([c] + rest) == [c] + Unescape(rest)
  {
    var h := Halved(rest);
    FirstOfHalved(rest);
    if c == '\\' && rest != "" {
      assert [c] + rest == ['\\', rest[0]] + rest[1..] && [rest[0]] + rest[1..] == rest;
      TwoCharacters('\\', rest[0], rest[1..], ESCAPED_BACKSLASH, BACKSLASH);
      assert [c] + h == ['\\', h[0]] + h[1..] && [h[0]] + h[1..] == h;
      TwoCharacters('\\', h[0], h[1..], ESCAPED_QUOTE, QUOTE);
    } else {
      OneCharacter(c, rest, ESCAPED_BACKSLASH, BACKSLASH);
      OneCharacter(c, h, ESCAPED_QUOTE, QUOTE);
    }
  }

  /** Each such place costs one backslash, and without one the two readings agree. */
  lemma {:induction false} TwoReadings(t: string)
    ensures |Unescape(t)| + BareQuotes(t) == |ReadOnce(t)|
    ensures BareQuotes(t) == 0 ==> Unescape(t) == ReadOnce(t)
    decreases |t|
  {
    if StartsWith(t, ESCAPED_BACKSLASH) {
      var rest := t[2..];
      assert t == ESCAPED_BACKSLASH + rest;
      AfterBackslash(rest);
      if StartsWith(rest, QUOTE) {
        QuoteStays(rest);
        TwoReadings(rest[1..]);
      } else {
        TwoReadings(rest);
      }
    } else if StartsWith(t, ESCAPED_QUOTE) {
      assert t == ESCAPED_QUOTE + t[2..];
      AfterQuote(t[2..]);
      TwoReadings(t[2..]);
    } else if t != "" {
      assert t == [t[0]] + t[1..];
      if |t| > 1 { assert t[..2] == [t[0], t[1]]; }
      AfterOther(t[0], t[1..]);
      TwoReadings(t[1..]);
    }
  }

  lemma QuoteStays(t: string)
    requires StartsWith(t, QUOTE)
    ensures ReadOnce(t) == QUOTE + ReadOnce(t[1..]) && BareQuotes(t) == BareQuotes(t[1..])
  {
    assert t[0] == '\'';
    if |t| > 1 { assert t[..2][0] == '\''; }
  }

  /** So the two replacements read a token as its escapes say exactly when there is no such place. */
  lemma ReadingsAgreeIff(t: string)
    ensures Unescape(t) == ReadOnce(t) <==> BareQuotes(t) == 0
  {
    TwoReadings(t);
  }

  /** They need not: in a double-quoted token, an escaped backslash and a quote are read as the quote alone. */
  lemma ReadingsCanDiffer()
    ensures Unescape(ESCAPED_BACKSLASH + QUOTE) == QUOTE
    ensures ReadOnce(ESCAPED_BACKSLASH + QUOTE) == BACKSLASH + QUOTE
    ensures BareQuotes(ESCAPED_BACKSLASH + QUOTE) == 1
    ensures TrimQuotes("\"" + ESCAPED_BACKSLASH + QUOTE + "\"") == QUOTE
  {
    var t := "\"" + ESCAPED_BACKSLASH + QUOTE + "\"";
    assert IsQuoted(t) && t[1..|t| - 1] == ESCAPED_BACKSLASH + QUOTE;
    AfterBackslash(QUOTE);
    QuoteStays(QUOTE);
    assert (ESCAPED_BACKSLASH + QUOTE)[2..] == QUOTE;
    assert QUOTE[1..] == "";
    TwoReadings(ESCAPED_BACKSLASH + QUOTE);
    assert |Unescape(ESCAPED_BACKSLASH + QUOTE)| == 1;
  }
}
