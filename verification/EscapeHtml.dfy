/** HTML escaping of card text (`escapeHtml` in src/modules/news/news.service.ts). */
module EscapeHtml {
  /** `s.replace(/c/g, r)` for a single character and a replacement without `$`. */
  function ReplaceAll(s: string, c: char, r: string): string {
    if s == "" then ""
    else (if s[0] == c then r else [s[0]]) + ReplaceAll(s[1..], c, r)
  }

  /** Five global replacements, one after the other. */
  function Escape(text: string): string {
    ReplaceAll(ReplaceAll(ReplaceAll(ReplaceAll(ReplaceAll(
      text, '&', "&amp;"), '<', "&lt;"), '>', "&gt;"), '"', "&quot;"), '\'', "&#039;")
  }

  /** The entity of a character that must not appear literally. */
  function Entity(c: char): string {
    match c
    case '&' => "&amp;"
    case '<' => "&lt;"
    case '>' => "&gt;"
    case '"' => "&quot;"
    case '\'' => "&#039;"
    case _ => [c]
  }

  /** All characters replaced at once. */
  function Substitute(text: string): string {
    if text == "" then "" else Entity(text[0]) + Substitute(text[1..])
  }

  /** Reads entities back, leftmost first. */
  function Unescape(html: string): string
    decreases |html|
  {
    if html == "" then ""
    else if "&amp;" <= html then ['&'] + Unescape(html[5..])
    else if "&lt;" <= html then ['<'] + Unescape(html[4..])
    else if "&gt;" <= html then ['>'] + Unescape(html[4..])
    else if "&quot;" <= html then ['"'] + Unescape(html[6..])
    else if "&#039;" <= html then ['\''] + Unescape(html[6..])
    else [html[0]] + Unescape(html[1..])
  }

  lemma {:induction false} ReplaceConcat(a: string, b: string, c: char, r: string)
    ensures ReplaceAll(a + b, c, r) == ReplaceAll(a, c, r) + ReplaceAll(b, c, r)
  {
    if a == "" {
      assert a + b == b;
    } else {
      assert (a + b)[0] == a[0] && (a + b)[1..] == a[1..] + b;
      ReplaceConcat(a[1..], b, c, r);
    }
  }

  lemma {:induction false} ReplaceAbsent(s: string, c: char, r: string)
    requires c !in s
    ensures ReplaceAll(s, c, r) == s
  {
    if s != "" {
      ReplaceAbsent(s[1..], c, r);
    }
  }

  lemma ReplaceOne(d: char, c: char, r: string)
    ensures ReplaceAll([d], c, r) == if d == c then r else [d]
  {
    assert [d][1..] == "";
  }

  lemma EscapeConcat(a: string, b: string)
    ensures Escape(a + b) == Escape(a) + Escape(b)
  {
    var a1, b1 := ReplaceAll(a, '&', "&amp;"), ReplaceAll(b, '&', "&amp;");
    ReplaceConcat(a, b, '&', "&amp;");
    var a2, b2 := ReplaceAll(a1, '<', "&lt;"), ReplaceAll(b1, '<', "&lt;");
    ReplaceConcat(a1, b1, '<', "&lt;");
    var a3, b3 := ReplaceAll(a2, '>', "&gt;"), ReplaceAll(b2, '>', "&gt;");
    ReplaceConcat(a2, b2, '>', "&gt;");
    var a4, b4 := ReplaceAll(a3, '"', "&quot;"), ReplaceAll(b3, '"', "&quot;");
    ReplaceConcat(a3, b3, '"', "&quot;");
    ReplaceConcat(a4, b4, '\'', "&#039;");
  }

  /** A later replacement leaves alone whatever an earlier one has produced. */
  lemma StepOne(c: char, s: string, d: char, r: string)
    requires s == [c] || (d != c && d !in s)
    ensures ReplaceAll(s, d, r) == if c == d then r else s
  {
    if s == [c] {
      ReplaceOne(c, d, r);
    } else {
      ReplaceAbsent(s, d, r);
    }
  }

  /** The chain of replacements on one character, for any replacement texts free of the later characters. */
  lemma ChainOne(c: char, amp: string, lt: string, gt: string, quot: string, apos: string)
    requires forall x | x in ['<', '>', '"', '\''] :: x !in amp && x !in lt && x !in gt && x !in quot
    ensures ReplaceAll(ReplaceAll(ReplaceAll(ReplaceAll(ReplaceAll(
              [c], '&', amp), '<', lt), '>', gt), '"', quot), '\'', apos)
         == if c == '&' then amp else if c == '<' then lt else if c == '>' then gt
            else if c == '"' then quot else if c == '\'' then apos else [c]
  {
    StepOne(c, [c], '&', amp);
    var s1 := if c == '&' then amp else [c];
    StepOne(c, s1, '<', lt);
    var s2 := if c == '<' then lt else s1;
    StepOne(c, s2, '>', gt);
    var s3 := if c == '>' then gt else s2;
    StepOne(c, s3, '"', quot);
    var s4 := if c == '"' then quot else s3;
    StepOne(c, s4, '\'', apos);
  }

  lemma EscapeOne(c: char)
    ensures Escape([c]) == Entity(c)
  {
    ChainOne(c, "&amp;", "&lt;", "&gt;", "&quot;", "&#039;");
  }

  /** The five successive replacements are one simultaneous substitution. */
  lemma {:induction false} EscapeIsSubstitution(text: string)
    ensures Escape(text) == Substitute(text)
  {
    if text == "" {
    } else {
      assert text == [text[0]] + text[1..];
      EscapeConcat([text[0]], text[1..]);
      EscapeOne(text[0]);
      EscapeIsSubstitution(text[1..]);
    }
  }

  lemma EntityIsSafe(c: char)
    ensures '<' !in Entity(c) && '>' !in Entity(c) && '"' !in Entity(c) && '\'' !in Entity(c)
  {
  }

  lemma {:induction false} SubstituteIsSafe(text: string)
    ensures forall c | c in {'<', '>', '"', '\''} :: c !in Substitute(text)
  {
    if text != "" {
      EntityIsSafe(text[0]);
      SubstituteIsSafe(text[1..]);
    }
  }

  lemma UnescapeEntity(c: char, rest: string)
    ensures Unescape(Entity(c) + rest) == [c] + Unescape(rest)
  {
    var html := Entity(c) + rest;
    match c
    case '&' => assert html[5..] == rest && html[..5] == "&amp;";
    case '<' => assert html[4..] == rest && html[..4] == "&lt;" && html[1] == 'l';
    case '>' => assert html[4..] == rest && html[..4] == "&gt;" && html[1] == 'g';
    case '"' => assert html[6..] == rest && html[..6] == "&quot;" && html[1] == 'q';
    case '\'' => assert html[6..] == rest && html[..6] == "&#039;" && html[1] == '#';
    case _ => assert html[0] == c && html[1..] == rest;
  }

  lemma {:induction false} UnescapeSubstitute(text: string)
    ensures Unescape(Substitute(text)) == text
  {
    if text != "" {
      UnescapeEntity(text[0], Substitute(text[1..]));
      UnescapeSubstitute(text[1..]);
    }
  }

  /**
   * Escaped text holds no raw angle bracket or quote, and reads back as the original text; so
   * different texts have different escaped forms.
   */
  lemma EscapeRoundTrip(text: string)
    ensures Unescape(Escape(text)) == text
    ensures forall c | c in {'<', '>', '"', '\''} :: c !in Escape(text)
  {
    EscapeIsSubstitution(text);
    SubstituteIsSafe(text);
    UnescapeSubstitute(text);
  }

  lemma EscapeInjective(a: string, b: string)
    requires Escape(a) == Escape(b)
    ensures a == b
  {
    EscapeRoundTrip(a);
    EscapeRoundTrip(b);
  }
}
