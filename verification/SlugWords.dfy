/** A slug is made of the words of its text (`slugify` in src/modules/news/news.service.ts). */
module SlugWords {
  import opened Slugify
  import Text

  // ---------------------------------------------------------------- the alphabet

  /** The Latin spelling of the 32 letters from U+0430 on, in code point order. */
  const SPELLING: seq<string> := [
    "a", "b", "v", "g", "d", "e", "zh", "z", "i", "j", "k", "l", "m", "n", "o", "p",
    "r", "s", "t", "u", "f", "kh", "ts", "ch", "sh", "shch", "", "y", "", "e", "yu", "ya"]

  /** Lower-case Russian letters are spelled by their place in the alphabet; every other character stays. */
  lemma LettersSpelled(c: char)
    ensures |SPELLING| == 32
    ensures '\U{0430}' <= c <= '\U{044F}' ==> Transliterate(c) == SPELLING[c as int - 0x430]
    ensures c == '\U{0451}' ==> Transliterate(c) == "yo"
    ensures c < '\U{0430}' || ('\U{044F}' < c && c != '\U{0451}') ==> Transliterate(c) == [c]
  {
  }

  // ---------------------------------------------------------------- words

  /** The letters and digits at the start. */
  function Run(s: string): (r: string)
    ensures r <= s && forall c <- r :: Alnum(c)
    ensures s != "" && Alnum(s[0]) ==> r != ""
  {
    if s == "" || !Alnum(s[0]) then "" else [s[0]] + Run(s[1..])
  }

  /** The longest runs of letters and digits, in order. */
  function Words(s: string): seq<string>
    decreases |s|
  {
    if s == "" then []
    else if Alnum(s[0]) then [Run(s)] + Words(s[|Run(s)|..])
    else Words(s[1..])
  }

  lemma {:induction false} WordsSkip(s: string)
    ensures Words(SkipOthers(s)) == Words(s)
  {
    if s != "" && !Alnum(s[0]) {
      WordsSkip(s[1..]);
    }
  }

  lemma {:induction false} CollapseRun(s: string)
    ensures var rest := s[|Run(s)|..];
            Collapse(s) == Run(s) + Collapse(rest) && (rest != "" ==> !Alnum(rest[0]))
  {
    if s != "" && Alnum(s[0]) {
      CollapseRun(s[1..]);
      assert s[1..][|Run(s[1..])|..] == s[|Run(s)|..];
    }
  }

  /** After leading separators, collapsing joins the words by hyphens and may leave one at the end. */
  lemma {:induction false} CollapseJoins(s: string)
    requires s == "" || Alnum(s[0])
    ensures var joined := Text.Join(Words(s), "-");
            && (Collapse(s) == joined || Collapse(s) == joined + "-")
            && (s != "" ==> joined != "" && Alnum(joined[0]) && Alnum(Last(joined)))
            && (s == "" ==> joined == "" == Collapse(s))
    decreases |s|
  {
    if s != "" {
      var word, rest := Run(s), s[|Run(s)|..];
      CollapseRun(s);
      assert word[0] in word && Last(word) in word;
      if rest == "" {
        assert Words(s) == [word] + [];
      } else {
        var next := SkipOthers(rest[1..]);
        WordsSkip(rest[1..]);
        CollapseJoins(next);
        JoinMore(word, Words(next));
        assert Words(s) == [word] + Words(next);
        AppendSep(word, Text.Join(Words(next), "-"));
      }
    }
  }

  lemma JoinMore(word: string, words: seq<string>)
    ensures Text.Join([word] + words, "-") == if words == [] then word else word + "-" + Text.Join(words, "-")
  {
    assert ([word] + words)[1..] == words;
  }

  lemma AppendSep(word: string, joined: string)
    ensures word + (['-'] + joined) == word + "-" + joined
    ensures word + (['-'] + (joined + "-")) == word + "-" + joined + "-"
  {
  }

  lemma TrimJoined(joined: string)
    requires joined == "" || (Alnum(joined[0]) && Alnum(Last(joined)))
    ensures TrimRight(TrimLeft(joined)) == joined
    ensures joined != "" ==> TrimRight(TrimLeft(joined + "-")) == joined
    ensures TrimRight(TrimLeft("-" + joined)) == joined
    ensures TrimRight(TrimLeft("-" + joined + "-")) == joined
  {
    assert ("-" + joined)[1..] == joined;
    if joined != "" {
      assert (joined + "-")[..|joined|] == joined;
      assert ("-" + joined + "-")[1..] == joined + "-";
    } else {
      assert "-" + joined + "-" == "--";
      assert "--"[1..] == "-" && "-"[1..] == "";
    }
  }

  lemma TrimmedIsJoined(s: string)
    ensures TrimRight(TrimLeft(Collapse(s))) == Text.Join(Words(s), "-")
  {
    if s == "" || Alnum(s[0]) {
      CollapseJoins(s);
      TrimJoined(Text.Join(Words(s), "-"));
    } else {
      var next := SkipOthers(s[1..]);
      WordsSkip(s[1..]);
      CollapseJoins(next);
      TrimJoined(Text.Join(Words(s), "-"));
    }
  }

  /**
   * A slug is the words of the transliterated, lower-case text, joined by hyphens and cut at 200
   * characters; a text without any gives "article".
   */
  lemma SlugIsItsWords(lower: string -> string, text: string)
    ensures var joined := Text.Join(Words(TransliterateAll(lower(text))), "-");
            Slugify.Slugify(lower, text) == if joined == "" then "article" else if |joined| <= 200 then joined else joined[..200]
  {
    TrimmedIsJoined(TransliterateAll(lower(text)));
  }

  /** Transliteration goes letter by letter. */
  lemma {:induction false} SpelledLetterByLetter(a: string, b: string)
    ensures TransliterateAll(a + b) == TransliterateAll(a) + TransliterateAll(b)
    ensures |a| == 1 ==> TransliterateAll(a) == Transliterate(a[0])
  {
    if a == "" {
      assert a + b == b;
    } else {
      assert (a + b)[1..] == a[1..] + b;
      SpelledLetterByLetter(a[1..], b);
    }
  }
}
