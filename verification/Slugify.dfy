/** Article slugs: `slugify`, `ensureUniqueSlug` (src/modules/news/news.service.ts) and the slug pipe. */
module Slugify {
  import opened Common
  import opened Text

  predicate Alnum(c: char) {
    'a' <= c <= 'z' || '0' <= c <= '9'
  }

  function Transliterate(c: char): string {
    match c
    case '\U{0430}' => "a" case '\U{0431}' => "b" case '\U{0432}' => "v" case '\U{0433}' => "g"
    case '\U{0434}' => "d" case '\U{0435}' => "e" case '\U{0451}' => "yo" case '\U{0436}' => "zh"
    case '\U{0437}' => "z" case '\U{0438}' => "i" case '\U{0439}' => "j" case '\U{043A}' => "k"
    case '\U{043B}' => "l" case '\U{043C}' => "m" case '\U{043D}' => "n" case '\U{043E}' => "o"
    case '\U{043F}' => "p" case '\U{0440}' => "r" case '\U{0441}' => "s" case '\U{0442}' => "t"
    case '\U{0443}' => "u" case '\U{0444}' => "f" case '\U{0445}' => "kh" case '\U{0446}' => "ts"
    case '\U{0447}' => "ch" case '\U{0448}' => "sh" case '\U{0449}' => "shch" case '\U{044A}' => ""
    case '\U{044B}' => "y" case '\U{044C}' => "" case '\U{044D}' => "e" case '\U{044E}' => "yu"
    case '\U{044F}' => "ya"
    case _ => [c]
  }

  function TransliterateAll(s: string): string {
    if s == "" then "" else Transliterate(s[0]) + TransliterateAll(s[1..])
  }

  /** The suffix of `s` that starts at its first letter or digit. */
  function SkipOthers(s: string): (r: string)
    ensures |r| <= |s|
    ensures r != "" ==> Alnum(r[0])
  {
    if s == "" || Alnum(s[0]) then s else SkipOthers(s[1..])
  }

  /** `replace(/[^a-z0-9]+/g, '-')` */
  function Collapse(s: string): string
    decreases |s|
  {
    if s == "" then ""
    else if Alnum(s[0]) then [s[0]] + Collapse(s[1..])
    else ['-'] + Collapse(SkipOthers(s[1..]))
  }

  function TrimLeft(s: string): string {
    if s != "" && s[0] == '-' then TrimLeft(s[1..]) else s
  }

  function TrimRight(s: string): string {
    if s != "" && s[|s| - 1] == '-' then TrimRight(s[..|s| - 1]) else s
  }

  const MAX_LENGTH: nat := 200

  function Truncate(s: string): string {
    if |s| <= MAX_LENGTH then s else s[..MAX_LENGTH]
  }

  /** `slugify`; `lower` is the string's `toLowerCase()`. */
  function Slugify(lower: string -> string, text: string): string {
    var slug := Truncate(TrimRight(TrimLeft(Collapse(TransliterateAll(lower(text))))));
    if slug == "" then "article" else slug
  }

  // ---------------------------------------------------------------- shape of a slug

  predicate SlugChars(s: string) {
    forall c <- s :: Alnum(c) || c == '-'
  }

  /** Slug characters only, with no two hyphens in a row. */
  predicate Hyphenated(s: string) {
    SlugChars(s) && forall i :: 0 <= i < |s| - 1 ==> s[i] != '-' || s[i + 1] != '-'
  }

  lemma {:induction false} CollapseIsHyphenated(s: string)
    ensures Hyphenated(Collapse(s))
    ensures s != "" && Alnum(s[0]) ==> Collapse(s)[0] == s[0]
    decreases |s|
  {
    if s == "" {
    } else if Alnum(s[0]) {
      CollapseIsHyphenated(s[1..]);
    } else {
      CollapseIsHyphenated(SkipOthers(s[1..]));
    }
  }

  lemma {:induction false} TrimLeftShape(s: string)
    requires Hyphenated(s)
    ensures Hyphenated(TrimLeft(s)) && (TrimLeft(s) != "" ==> TrimLeft(s)[0] != '-')
  {
    if s != "" && s[0] == '-' {
      TrimLeftShape(s[1..]);
    }
  }

  lemma {:induction false} TrimRightShape(s: string)
    requires Hyphenated(s)
    ensures TrimRight(s) <= s && Hyphenated(TrimRight(s))
    ensures TrimRight(s) != "" ==> TrimRight(s)[|TrimRight(s)| - 1] != '-'
  {
    if s != "" && s[|s| - 1] == '-' {
      TrimRightShape(s[..|s| - 1]);
    }
  }

  function Last(s: string): char
    requires s != ""
  {
    s[|s| - 1]
  }

  /**
   * Every slug has 1 to 200 characters of [a-z0-9-], starts with a letter or digit, has no two hyphens
   * in a row, and ends in a hyphen only if it was cut at 200 characters.
   */
  lemma SlugShape(lower: string -> string, text: string)
    ensures var r := Slugify(lower, text);
            && 1 <= |r| <= MAX_LENGTH && Hyphenated(r) && Alnum(r[0])
            && (Last(r) == '-' ==> |r| == MAX_LENGTH)
  {
    var collapsed := Collapse(TransliterateAll(lower(text)));
    CollapseIsHyphenated(TransliterateAll(lower(text)));
    TrimLeftShape(collapsed);
    var left := TrimLeft(collapsed);
    TrimRightShape(left);
    var trimmed := TrimRight(left);
    assert trimmed != "" ==> trimmed[0] == left[0];
    DefaultShape();
  }

  lemma DefaultShape()
    ensures Hyphenated("article") && Alnum("article"[0]) && Last("article") != '-'
  {
  }

  // ---------------------------------------------------------------- fixed points

  lemma TransliterateSlugChar(c: char)
    requires Alnum(c) || c == '-'
    ensures Transliterate(c) == [c]
  {
    assert c <= 'z';
  }

  lemma {:induction false} TransliterateSlug(s: string)
    requires SlugChars(s)
    ensures TransliterateAll(s) == s
  {
    if s != "" {
      assert s[0] in s;
      TransliterateSlugChar(s[0]);
      TransliterateSlug(s[1..]);
    }
  }

  lemma {:induction false} CollapseSlug(s: string)
    requires Hyphenated(s) && (s != "" ==> Last(s) != '-')
    ensures Collapse(s) == s
    decreases |s|
  {
    if s == "" {
    } else if Alnum(s[0]) {
      CollapseSlug(s[1..]);
    } else {
      assert s[0] == '-' && |s| > 1 && s[1] != '-';
      assert Alnum(s[1..][0]);
      CollapseSlug(s[1..]);
    }
  }

  /** Making a slug of a slug changes nothing, unless the slug ends in a hyphen. */
  lemma SlugFixedPoint(lower: string -> string, text: string)
    requires forall s | SlugChars(s) :: lower(s) == s
    ensures var r := Slugify(lower, text);
            Slugify(lower, r) == r <==> Last(r) != '-'
  {
    SlugShape(lower, text);
    SlugOfSlug(lower, Slugify(lower, text));
  }

  lemma SlugOfSlug(lower: string -> string, r: string)
    requires 1 <= |r| <= MAX_LENGTH && Hyphenated(r) && Alnum(r[0]) && (Last(r) == '-' ==> |r| == MAX_LENGTH)
    requires lower(r) == r
    ensures Slugify(lower, r) == r <==> Last(r) != '-'
  {
    TransliterateSlug(r);
    if Last(r) != '-' {
      CollapseSlug(r);
    } else {
      CutSlugShrinks(r);
    }
  }

  /** A slug with a trailing hyphen loses it. */
  lemma CutSlugShrinks(r: string)
    requires Hyphenated(r) && r != "" && Last(r) == '-' && Alnum(r[0]) && |r| == MAX_LENGTH
    ensures Truncate(TrimRight(TrimLeft(Collapse(r)))) != r
  {
    var t := TrimRight(TrimLeft(Collapse(r)));
    CollapseIsHyphenated(r);
    TrimLeftShape(Collapse(r));
    TrimRightShape(TrimLeft(Collapse(r)));
    CollapseShorter(r);
    TrimLeftShorter(Collapse(r));
    assert |t| <= MAX_LENGTH && Truncate(t) == t;
  }

  lemma {:induction false} CollapseShorter(s: string)
    ensures |Collapse(s)| <= |s|
    decreases |s|
  {
    if s == "" {
    } else if Alnum(s[0]) {
      CollapseShorter(s[1..]);
    } else {
      CollapseShorter(SkipOthers(s[1..]));
    }
  }

  lemma {:induction false} TrimLeftShorter(s: string)
    ensures |TrimLeft(s)| <= |s|
  {
    if s != "" && s[0] == '-' {
      TrimLeftShorter(s[1..]);
    }
  }

  // ---------------------------------------------------------------- reaching an article by its slug

  /** `ParseSlugPipe`: /^[a-z0-9]([a-z0-9-]{0,98}[a-z0-9])?$/ */
  predicate PipeAccepts(s: string) {
    1 <= |s| <= 100 && SlugChars(s) && Alnum(s[0]) && Alnum(Last(s))
  }

  function Repeat(c: char, n: nat): (s: string)
    ensures |s| == n && forall i :: 0 <= i < n ==> s[i] == c
  {
    seq(n, i => c)
  }

  /** A title of 101 letters already yields an unreachable slug. */
  lemma LongTitleIsUnreachable(lower: string -> string)
    requires forall s | SlugChars(s) :: lower(s) == s
    ensures Slugify(lower, Repeat('a', 101)) == Repeat('a', 101)
    ensures !PipeAccepts(Slugify(lower, Repeat('a', 101)))
  {
    var t := Repeat('a', 101);
    assert SlugChars(t);
    TransliterateSlug(t);
    CollapseSlug(t);
  }

  // ---------------------------------------------------------------- unique slugs

  const SLUG_ATTEMPTS: nat := 20

  function Candidate(base: string, attempt: nat): string {
    if attempt == 0 then base else base + "-" + Decimal(attempt + 1)
  }

  lemma CandidatesDiffer(base: string, i: nat, j: nat)
    requires i != j
    ensures Candidate(base, i) != Candidate(base, j)
  {
    if i > 0 && j > 0 && Candidate(base, i) == Candidate(base, j) {
      assert Decimal(i + 1) == Candidate(base, i)[|base| + 1..];
      assert Decimal(j + 1) == Candidate(base, j)[|base| + 1..];
      DecimalInjective(i + 1, j + 1);
    }
  }

  /** The base, numbered or with the random suffix. */
  predicate Derived(base: string, suffix: string, slug: string) {
    slug == base + "-" + suffix || exists k :: 0 <= k < SLUG_ATTEMPTS && slug == Candidate(base, k)
  }

  /** The base if it is free, else the first free of base-2 to base-20, else the base with the random suffix. */
  predicate FirstFree(base: string, suffix: string, taken: set<string>, slug: string) {
    if base !in taken then slug == base
    else if exists n | 2 <= n <= 20 :: base + "-" + Decimal(n) !in taken then
      exists n | 2 <= n <= 20 ::
        && slug == base + "-" + Decimal(n) && slug !in taken
        && forall i :: 2 <= i < n ==> base + "-" + Decimal(i) in taken
    else slug == base + "-" + suffix
  }

  lemma CandidateIsFirst(base: string, suffix: string, taken: set<string>, k: nat)
    requires k < SLUG_ATTEMPTS && Candidate(base, k) !in taken && forall i :: 0 <= i < k ==> Candidate(base, i) in taken
    ensures FirstFree(base, suffix, taken, Candidate(base, k))
  {
    if k > 0 {
      assert Candidate(base, 0) in taken;
      forall i | 2 <= i < k + 1 ensures base + "-" + Decimal(i) in taken {
        assert Candidate(base, i - 1) in taken;
      }
      assert base + "-" + Decimal(k + 1) !in taken;
    }
  }

  lemma NoneIsFree(base: string, suffix: string, taken: set<string>)
    requires forall i :: 0 <= i < SLUG_ATTEMPTS ==> Candidate(base, i) in taken
    ensures FirstFree(base, suffix, taken, base + "-" + suffix)
  {
    assert Candidate(base, 0) in taken;
    forall n | 2 <= n <= 20 ensures base + "-" + Decimal(n) in taken {
      assert Candidate(base, n - 1) in taken;
    }
  }

  /** The first free candidate, or the base with a random suffix after 20 attempts. */
  method EnsureUniqueSlug(base: string, suffix: string, taken: set<string>) returns (slug: string)
    ensures Derived(base, suffix, slug) && FirstFree(base, suffix, taken, slug)
    ensures (exists k :: 0 <= k < SLUG_ATTEMPTS && Candidate(base, k) !in taken) ==>
              exists k :: 0 <= k < SLUG_ATTEMPTS && slug == Candidate(base, k) && slug !in taken
                          && forall i :: 0 <= i < k ==> Candidate(base, i) in taken
    ensures (forall k :: 0 <= k < SLUG_ATTEMPTS ==> Candidate(base, k) in taken) ==> slug == base + "-" + suffix
  {
    var attempt := 0;
    while attempt < SLUG_ATTEMPTS
      invariant attempt <= SLUG_ATTEMPTS
      invariant forall i :: 0 <= i < attempt ==> Candidate(base, i) in taken
    {
      var candidate := Candidate(base, attempt);
      if candidate !in taken {
        CandidateIsFirst(base, suffix, taken, attempt);
        return candidate;
      }
      attempt := attempt + 1;
    }
    NoneIsFree(base, suffix, taken);
    slug := base + "-" + suffix;
  }

  function Candidates(base: string, n: nat): (r: set<string>)
    ensures forall x :: x in r <==> exists k :: 0 <= k < n && x == Candidate(base, k)
  {
    if n == 0 then {} else Candidates(base, n - 1) + {Candidate(base, n - 1)}
  }

  lemma {:induction false} CandidatesSize(base: string, n: nat)
    ensures |Candidates(base, n)| == n
  {
    if n > 0 {
      CandidatesSize(base, n - 1);
      if Candidate(base, n - 1) in Candidates(base, n - 1) {
        var k :| 0 <= k < n - 1 && Candidate(base, n - 1) == Candidate(base, k);
        CandidatesDiffer(base, k, n - 1);
      }
    }
  }

  /** With fewer than 20 slugs in use one of the candidates is always free. */
  lemma SomeCandidateIsFree(base: string, taken: set<string>)
    requires |taken| < SLUG_ATTEMPTS
    ensures exists k :: 0 <= k < SLUG_ATTEMPTS && Candidate(base, k) !in taken
  {
    CandidatesSize(base, SLUG_ATTEMPTS);
    if forall k :: 0 <= k < SLUG_ATTEMPTS ==> Candidate(base, k) in taken {
      assert Candidates(base, SLUG_ATTEMPTS) <= taken;
      SubsetSize(Candidates(base, SLUG_ATTEMPTS), taken);
    }
  }

  lemma SubsetSize<T>(a: set<T>, b: set<T>)
    requires a <= b
    ensures |a| <= |b|
  {
    assert b == a + (b - a);
  }

  // ---------------------------------------------------------------- the slug an article is stored under

  /** `CreateNewsDto.slug`: /^[a-z0-9]([a-z0-9-]{0,198}[a-z0-9])?$/ */
  predicate DtoAccepts(s: string) {
    1 <= |s| <= MAX_LENGTH && SlugChars(s) && Alnum(s[0]) && Alnum(Last(s))
  }

  /** `dto.slug ?? slugify(dto.title)` */
  function BaseSlug(lower: string -> string, given: Option<string>, title: string): string {
    if given.Some? then given.value else Slugify(lower, title)
  }

  /** The first eight characters of a UUID. */
  predicate UuidHead(s: string) {
    |s| == 8 && forall c <- s :: '0' <= c <= '9' || 'a' <= c <= 'f'
  }

  lemma NumberedShape(base: string, tail: string)
    requires base != "" && SlugChars(base) && Alnum(base[0]) && tail != "" && forall c <- tail :: Alnum(c)
    ensures var s := base + "-" + tail; SlugChars(s) && Alnum(s[0]) && Alnum(Last(s))
  {
    var s := base + "-" + tail;
    assert forall i | 0 <= i < |tail| :: s[|base| + 1 + i] == tail[i] && tail[i] in tail;
    assert Last(s) == tail[|tail| - 1];
  }

  lemma BaseShape(lower: string -> string, given: Option<string>, title: string)
    requires given.Some? ==> DtoAccepts(given.value)
    ensures var b := BaseSlug(lower, given, title);
            1 <= |b| <= MAX_LENGTH && SlugChars(b) && Alnum(b[0]) && (!Alnum(Last(b)) ==> |b| == MAX_LENGTH)
  {
    if given.None? {
      SlugShape(lower, title);
    }
  }

  /**
   * The public route serves an article exactly when the slug it is stored under - given or made from
   * the title, then numbered or suffixed if taken - has at most 100 characters. The base alone may have 200.
   */
  lemma StoredSlugReachable(lower: string -> string, given: Option<string>, title: string, suffix: string, slug: string)
    requires given.Some? ==> DtoAccepts(given.value)
    requires UuidHead(suffix) && Derived(BaseSlug(lower, given, title), suffix, slug)
    ensures PipeAccepts(slug) <==> |slug| <= 100
  {
    var base := BaseSlug(lower, given, title);
    BaseShape(lower, given, title);
    if slug == base + "-" + suffix {
      NumberedShape(base, suffix);
    } else {
      var k :| 0 <= k < SLUG_ATTEMPTS && slug == Candidate(base, k);
      if k > 0 {
        NumberedShape(base, Decimal(k + 1));
      }
    }
  }

  /** A slug of 100 characters is served; if it is taken, the next article with that base is not. */
  lemma TakenSlugIsUnreachable(lower: string -> string)
    requires forall s | SlugChars(s) :: lower(s) == s
    ensures var base := Repeat('a', 100);
            Slugify(lower, base) == base && PipeAccepts(base) && !PipeAccepts(Candidate(base, 1))
  {
    var base := Repeat('a', 100);
    TransliterateSlug(base);
    CollapseSlug(base);
  }
}
