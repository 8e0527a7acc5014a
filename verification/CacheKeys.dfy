/** The Redis keys of the public cache (src/modules/public/public.service.ts). */
module CacheKeys {
  import opened Common
  import opened Text

  datatype ArticleType = NEWS | ARTICLE | PRESS_RELEASE | INTERVIEW | ANNOUNCEMENT

  /** The validated query of the public news list; absent fields take the service's defaults. */
  datatype ListQuery = ListQuery(
    page: Option<nat>, perPage: Option<nat>, articleType: Option<ArticleType>, rubricId: Option<string>)

  const DEFAULT_PAGE: nat := 1
  const DEFAULT_PER_PAGE: nat := 20

  predicate IsHex(c: char) {
    '0' <= c <= '9' || 'a' <= c <= 'f' || 'A' <= c <= 'F'
  }

  /** The shape `@IsUUID()` demands: 8-4-4-4-12 hexadecimal digits. */
  predicate IsUuid(s: string) {
    && |s| == 36
    && forall i :: 0 <= i < 36 ==> if i in {8, 13, 18, 23} then s[i] == '-' else IsHex(s[i])
  }

  predicate ValidQuery(q: ListQuery) {
    q.rubricId.Some? ==> IsUuid(q.rubricId.value)
  }

  function TypeName(t: ArticleType): string {
    match t
    case NEWS => "NEWS"
    case ARTICLE => "ARTICLE"
    case PRESS_RELEASE => "PRESS_RELEASE"
    case INTERVIEW => "INTERVIEW"
    case ANNOUNCEMENT => "ANNOUNCEMENT"
  }

  function ListKeyParts(page: nat, perPage: nat, articleType: Option<ArticleType>, rubricId: Option<string>,
                        version: nat): seq<string>
  {
    [ "v" + Decimal(version),
      "p" + Decimal(page),
      "pp" + Decimal(perPage),
      if articleType.Some? then "t" + TypeName(articleType.value) else "tall",
      if rubricId.Some? && rubricId.value != "" then "r" + rubricId.value else "rall" ]
  }

  function CacheKeyPage(slug: string): string { "public:page:" + slug }

  function CacheKeyNewsDetail(slug: string): string { "public:news:" + slug }

  const NEWS_LIST_VERSION_KEY: string := "public:news:list:ver"

  function CacheKeyNewsList(q: ListQuery, version: nat): string {
    "public:news:list:" + Join(ListKeyParts(q.page.GetOr(DEFAULT_PAGE), q.perPage.GetOr(DEFAULT_PER_PAGE),
                                            q.articleType, q.rubricId, version), ":")
  }

  /** What a key stands for. The stores of this project are indexed by these values. */
  datatype Key =
    | PageKey(slug: string)
    | DetailKey(slug: string)
    | ListVersionKey
    | ListKey(version: nat, page: nat, perPage: nat, articleType: Option<ArticleType>, rubricId: Option<string>)

  predicate ValidKey(k: Key) {
    match k
    case PageKey(slug) => NoColon(slug)
    case DetailKey(slug) => NoColon(slug)
    case ListVersionKey => true
    case ListKey(_, _, _, _, rubricId) => rubricId.Some? ==> IsUuid(rubricId.value)
  }

  function ListKeyOf(q: ListQuery, version: nat): Key {
    ListKey(version, q.page.GetOr(DEFAULT_PAGE), q.perPage.GetOr(DEFAULT_PER_PAGE), q.articleType, q.rubricId)
  }

  function Render(k: Key): string {
    match k
    case PageKey(slug) => CacheKeyPage(slug)
    case DetailKey(slug) => CacheKeyNewsDetail(slug)
    case ListVersionKey => NEWS_LIST_VERSION_KEY
    case ListKey(v, page, perPage, articleType, rubricId) =>
      "public:news:list:" + Join(ListKeyParts(page, perPage, articleType, rubricId, v), ":")
  }

  /** The colon-separated segments of a key. */
  function Segments(k: Key): seq<string> {
    match k
    case PageKey(slug) => ["public", "page", slug]
    case DetailKey(slug) => ["public", "news", slug]
    case ListVersionKey => ["public", "news", "list", "ver"]
    case ListKey(v, page, perPage, articleType, rubricId) =>
      ["public", "news", "list"] + ListKeyParts(page, perPage, articleType, rubricId, v)
  }

  lemma ListPartsHaveNoColon(page: nat, perPage: nat, articleType: Option<ArticleType>, rubricId: Option<string>,
                             version: nat)
    requires rubricId.Some? ==> IsUuid(rubricId.value)
    ensures forall p <- ListKeyParts(page, perPage, articleType, rubricId, version) :: NoColon(p)
  {
    DecimalHasNoColon(version);
    DecimalHasNoColon(page);
    DecimalHasNoColon(perPage);
    assert articleType.Some? ==> NoColon(TypeName(articleType.value));
  }

  lemma SplitTwo(a: string, b: string, rest: string)
    requires NoColon(a) && NoColon(b)
    ensures SplitColon(a + ":" + b + ":" + rest) == [a, b] + SplitColon(rest)
  {
    assert a + ":" + b + ":" + rest == a + ":" + (b + ":" + rest);
    SplitPrepend(a, b + ":" + rest);
    SplitPrepend(b, rest);
  }

  lemma SplitThree(a: string, b: string, c: string, rest: string)
    requires NoColon(a) && NoColon(b) && NoColon(c)
    ensures SplitColon(a + ":" + b + ":" + c + ":" + rest) == [a, b, c] + SplitColon(rest)
  {
    assert a + ":" + b + ":" + c + ":" + rest == a + ":" + b + ":" + (c + ":" + rest);
    SplitTwo(a, b, c + ":" + rest);
    SplitPrepend(c, rest);
  }

  /** Splitting a rendered key at its colons gives back exactly its segments. */
  lemma RenderedSegments(k: Key)
    requires ValidKey(k)
    ensures SplitColon(Render(k)) == Segments(k)
  {
    match k
    case PageKey(slug) =>
      PageSegments(slug);
    case DetailKey(slug) =>
      DetailSegments(slug);
    case ListVersionKey =>
      VersionSegments();
    case ListKey(v, page, perPage, articleType, rubricId) =>
      var parts := ListKeyParts(page, perPage, articleType, rubricId, v);
      ListPartsHaveNoColon(page, perPage, articleType, rubricId, v);
      SplitJoin(parts);
      ListSegments(Join(parts, ":"), parts);
  }

  lemma PageSegments(slug: string)
    requires NoColon(slug)
    ensures SplitColon(CacheKeyPage(slug)) == ["public", "page", slug]
  {
    ThreeSegments("public", "page", slug);
    assert "public" + ":" + "page" + ":" == "public:page:";
  }

  lemma DetailSegments(slug: string)
    requires NoColon(slug)
    ensures SplitColon(CacheKeyNewsDetail(slug)) == ["public", "news", slug]
  {
    ThreeSegments("public", "news", slug);
    assert "public" + ":" + "news" + ":" == "public:news:";
  }

  lemma VersionSegments()
    ensures SplitColon(NEWS_LIST_VERSION_KEY) == ["public", "news", "list", "ver"]
  {
    FourSegments("public", "news", "list", "ver");
    assert "public" + ":" + "news" + ":" + "list" + ":" + "ver" == NEWS_LIST_VERSION_KEY;
  }

  lemma ListPrefix(rest: string)
    ensures "public:news:list:" + rest == "public" + ":" + "news" + ":" + "list" + ":" + rest
  {
    assert "public" + ":" + "news" + ":" + "list" + ":" == "public:news:list:";
  }

  lemma ListSegments(tail: string, parts: seq<string>)
    requires SplitColon(tail) == parts
    ensures SplitColon("public:news:list:" + tail) == ["public", "news", "list"] + parts
  {
    SplitThree("public", "news", "list", tail);
    ListPrefix(tail);
  }

  lemma TypeSegmentInjective(a: Option<ArticleType>, b: Option<ArticleType>)
    requires (if a.Some? then "t" + TypeName(a.value) else "tall")
          == (if b.Some? then "t" + TypeName(b.value) else "tall")
    ensures a == b
  {
    var x := if a.Some? then "t" + TypeName(a.value) else "tall";
    var y := if b.Some? then "t" + TypeName(b.value) else "tall";
    assert |x| == |y|;
    assert x[1] == y[1] && x[2] == y[2];
  }

  /**
   * No two cache entries share a rendered key: keys of different kinds never meet, and two list keys
   * are equal only for the same version, page, page size, type filter and rubric filter.
   */
  lemma RenderInjective(a: Key, b: Key)
    requires ValidKey(a) && ValidKey(b)
    requires Render(a) == Render(b)
    ensures a == b
  {
    RenderedSegments(a);
    RenderedSegments(b);
    var s := Segments(a);
    assert s == Segments(b);
    if a.ListKey? && b.ListKey? {
      assert |s| == 8;
      assert s[3] == "v" + Decimal(a.version) == "v" + Decimal(b.version);
      assert Decimal(a.version) == s[3][1..] == Decimal(b.version);
      DecimalInjective(a.version, b.version);
      assert s[4] == "p" + Decimal(a.page) == "p" + Decimal(b.page);
      assert Decimal(a.page) == s[4][1..] == Decimal(b.page);
      DecimalInjective(a.page, b.page);
      assert s[5] == "pp" + Decimal(a.perPage) == "pp" + Decimal(b.perPage);
      assert Decimal(a.perPage) == s[5][2..] == Decimal(b.perPage);
      DecimalInjective(a.perPage, b.perPage);
      assert s[6] == ListKeyParts(a.page, a.perPage, a.articleType, a.rubricId, a.version)[3];
      assert s[6] == ListKeyParts(b.page, b.perPage, b.articleType, b.rubricId, b.version)[3];
      TypeSegmentInjective(a.articleType, b.articleType);
      assert s[7] == ListKeyParts(a.page, a.perPage, a.articleType, a.rubricId, a.version)[4];
      assert s[7] == ListKeyParts(b.page, b.perPage, b.articleType, b.rubricId, b.version)[4];
      assert a.rubricId.Some? ==> a.rubricId.value == s[7][1..];
      assert b.rubricId.Some? ==> b.rubricId.value == s[7][1..];
    } else {
      assert s[1] == Segments(b)[1];
      if |s| == 3 {
        assert s[2] == Segments(b)[2];
      }
    }
  }

  /** Two list keys agree exactly when the version and the defaulted query agree. */
  lemma ListKeyInjective(q: ListQuery, v: nat, q': ListQuery, v': nat)
    requires ValidQuery(q) && ValidQuery(q')
    ensures CacheKeyNewsList(q, v) == CacheKeyNewsList(q', v') <==>
            && v == v'
            && q.page.GetOr(DEFAULT_PAGE) == q'.page.GetOr(DEFAULT_PAGE)
            && q.perPage.GetOr(DEFAULT_PER_PAGE) == q'.perPage.GetOr(DEFAULT_PER_PAGE)
            && q.articleType == q'.articleType
            && q.rubricId == q'.rubricId
  {
    if CacheKeyNewsList(q, v) == CacheKeyNewsList(q', v') {
      RenderInjective(ListKeyOf(q, v), ListKeyOf(q', v'));
    }
  }

  /** A list key is never the version counter's key nor the key of an article or a page. */
  lemma ListKeyIsApart(q: ListQuery, v: nat, slug: string)
    requires ValidQuery(q) && NoColon(slug)
    ensures CacheKeyNewsList(q, v) != NEWS_LIST_VERSION_KEY
    ensures CacheKeyNewsList(q, v) != CacheKeyNewsDetail(slug)
    ensures CacheKeyNewsList(q, v) != CacheKeyPage(slug)
    ensures CacheKeyNewsDetail(slug) != NEWS_LIST_VERSION_KEY
  {
    if CacheKeyNewsList(q, v) == NEWS_LIST_VERSION_KEY {
      RenderInjective(ListKeyOf(q, v), ListVersionKey);
    }
    if CacheKeyNewsList(q, v) == CacheKeyNewsDetail(slug) {
      RenderInjective(ListKeyOf(q, v), DetailKey(slug));
    }
    if CacheKeyNewsList(q, v) == CacheKeyPage(slug) {
      RenderInjective(ListKeyOf(q, v), PageKey(slug));
    }
    if CacheKeyNewsDetail(slug) == NEWS_LIST_VERSION_KEY {
      RenderInjective(DetailKey(slug), ListVersionKey);
    }
  }
}
