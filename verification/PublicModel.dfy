/** What the public read operations return and cache (src/modules/public/public.service.ts). */
module PublicModel {
  import opened CacheKeys
  import opened Common
  import opened Content
  import opened Redis

  const PUBLIC_CACHE_TTL_SECONDS: nat := 300
  const PUBLIC_CACHE_NOT_FOUND_TTL_SECONDS: nat := 30

  datatype PublicPage = PublicPage(id: string, slug: string, name: string, publishedAt: nat, sections: seq<Section>)

  datatype NewsSummary = NewsSummary(
    id: string, slug: string, title: string, articleType: ArticleType, rubricId: Option<string>,
    publishedAt: nat, coverImage: Option<string>, rest: string)

  datatype NewsDetail = NewsDetail(summary: NewsSummary, bodyHtml: Option<string>)

  datatype ListMeta = ListMeta(total: nat, page: nat, perPage: nat, totalPages: nat)

  datatype NewsList = NewsList(data: seq<NewsSummary>, meta: ListMeta)

  /** A cached value: the not-found sentinel, the counter, parsed JSON of one of the three kinds, or broken text. */
  datatype CacheValue =
    | NotFoundMark
    | Counter(n: nat)
    | PageJson(page: PublicPage)
    | DetailJson(detail: NewsDetail)
    | ListJson(list: NewsList)
    | Corrupt

  type Store = map<Key, Entry<CacheValue>>

  /** The answer to a read. `Crashed` is the error thrown for a null date, `Mistyped` a value of another kind. */
  datatype Outcome<+T> = Found(value: T) | Missing | Crashed | Mistyped

  // ---------------------------------------------------------------- the uncached queries

  function InsertSection(s: Section, sorted: seq<Section>): seq<Section> {
    if sorted == [] || s.order <= sorted[0].order then [s] + sorted
    else [sorted[0]] + InsertSection(s, sorted[1..])
  }

  /** Sections in ascending order of `order`. */
  function SectionsInOrder(sections: seq<Section>): seq<Section> {
    if sections == [] then [] else InsertSection(sections[0], SectionsInOrder(sections[1..]))
  }

  /** Sorting keeps every section and puts lower orders first. */
  lemma {:induction false} SectionsSorted(sections: seq<Section>)
    ensures multiset(SectionsInOrder(sections)) == multiset(sections)
    ensures Ascending(SectionsInOrder(sections))
  {
    if sections != [] {
      SectionsSorted(sections[1..]);
      InsertionSorted(sections[0], SectionsInOrder(sections[1..]));
      InsertionKeeps(sections[0], SectionsInOrder(sections[1..]));
      assert sections == [sections[0]] + sections[1..];
    }
  }

  predicate Ascending(sections: seq<Section>) {
    forall i, j | 0 <= i < j < |sections| :: sections[i].order <= sections[j].order
  }

  lemma {:induction false} InsertionKeeps(s: Section, sorted: seq<Section>)
    ensures multiset(InsertSection(s, sorted)) == multiset{s} + multiset(sorted)
  {
    if sorted != [] && sorted[0].order < s.order {
      InsertionKeeps(s, sorted[1..]);
      assert sorted == [sorted[0]] + sorted[1..];
    }
  }

  lemma {:induction false} InsertionSorted(s: Section, sorted: seq<Section>)
    requires Ascending(sorted)
    ensures Ascending(InsertSection(s, sorted))
  {
    if sorted != [] && sorted[0].order < s.order {
      var r := InsertSection(s, sorted[1..]);
      InsertionSorted(s, sorted[1..]);
      InsertionKeeps(s, sorted[1..]);
      forall x | x in r ensures sorted[0].order <= x.order {
        assert x in multiset(r);
      }
    }
  }

  function QueryPage(pages: Pages, slug: string): Outcome<PublicPage> {
    if slug !in pages || pages[slug].status != PUBLISHED then Missing
    else if pages[slug].publishedAt.None? then Crashed
    else Found(PublicPage(pages[slug].id, slug, pages[slug].name, pages[slug].publishedAt.value,
                          SectionsInOrder(pages[slug].sections)))
  }

  datatype Row = Row(id: string, article: Article)

  function Summary(row: Row): Option<NewsSummary> {
    var a := row.article;
    if a.publishedAt.None? then None
    else Some(NewsSummary(row.id, a.slug, a.fields.title, a.fields.articleType, a.fields.rubricId,
                          a.publishedAt.value, a.fields.coverImage, a.fields.rest))
  }

  function Summaries(rows: seq<Row>): Option<seq<NewsSummary>> {
    if rows == [] then Some([])
    else
      var first, others := Summary(rows[0]), Summaries(rows[1..]);
      if first.None? || others.None? then None else Some([first.value] + others.value)
  }

  predicate IsPublicSlug(articles: Articles, slug: string, id: string) {
    id in articles && articles[id].slug == slug && Public(articles[id])
  }

  function QueryDetail(articles: Articles, slug: string): Outcome<NewsDetail>
    requires UniqueSlugs(articles)
  {
    if !exists id <- articles :: IsPublicSlug(articles, slug, id) then Missing
    else
      var id :| id in articles && IsPublicSlug(articles, slug, id);
      var summary := Summary(Row(id, articles[id]));
      if summary.None? then Crashed
      else Found(NewsDetail(summary.value, if articles[id].body.Some? then Some(articles[id].body.value.bodyHtml) else None))
  }

  /** The published, undeleted rows. */
  function PublicRows(articles: Articles): Articles {
    map id | id in articles && Public(articles[id]) :: articles[id]
  }

  /** The query's ORDER BY: the rows by publication index, then latest first, ties broken somehow. */
  type Sort = Articles -> seq<Row>

  predicate Selects(q: ListQuery, row: Row) {
    && (q.articleType.Some? ==> row.article.fields.articleType == q.articleType.value)
    && (q.rubricId.Some? && q.rubricId.value != "" ==> row.article.fields.rubricId == q.rubricId)
  }

  function Filter(q: ListQuery, rows: seq<Row>): seq<Row> {
    if rows == [] then []
    else (if Selects(q, rows[0]) then [rows[0]] else []) + Filter(q, rows[1..])
  }

  function Min(a: nat, b: nat): nat { if a < b then a else b }

  function Page(q: ListQuery): nat { q.page.GetOr(DEFAULT_PAGE) }

  function PerPage(q: ListQuery): nat { q.perPage.GetOr(DEFAULT_PER_PAGE) }

  /** A validated query: pages count from 1, a page holds 1 to 100 rows, the rubric is a UUID. */
  predicate Valid(q: ListQuery) {
    Page(q) >= 1 && 1 <= PerPage(q) <= 100 && ValidQuery(q)
  }

  /** The rows of the requested page (`findMany`). */
  function QueryRows(sort: Sort, articles: Articles, q: ListQuery): seq<Row>
    requires Valid(q)
  {
    var rows := Filter(q, sort(PublicRows(articles)));
    var from := Min((Page(q) - 1) * PerPage(q), |rows|);
    rows[from..Min(from + PerPage(q), |rows|)]
  }

  /** The number of rows on all pages (`count`). */
  function QueryTotal(sort: Sort, articles: Articles, q: ListQuery): nat {
    |Filter(q, sort(PublicRows(articles)))|
  }

  /** The result built from the two reads. */
  function BuildList(q: ListQuery, rows: seq<Row>, total: nat): Outcome<NewsList>
    requires Valid(q)
  {
    var data := Summaries(rows);
    if data.None? then Crashed
    else Found(NewsList(data.value, ListMeta(total, Page(q), PerPage(q), (total + PerPage(q) - 1) / PerPage(q))))
  }

  function QueryList(sort: Sort, articles: Articles, q: ListQuery): Outcome<NewsList>
    requires Valid(q)
  {
    BuildList(q, QueryRows(sort, articles, q), QueryTotal(sort, articles, q))
  }

  // ---------------------------------------------------------------- null publication dates

  /** A detail query throws exactly when the public article with that slug has no publication date. */
  lemma DetailCrashes(articles: Articles, slug: string)
    requires UniqueSlugs(articles)
    ensures QueryDetail(articles, slug) == Crashed <==>
            exists id <- articles :: IsPublicSlug(articles, slug, id) && articles[id].publishedAt.None?
  {
    forall i, j | IsPublicSlug(articles, slug, i) && IsPublicSlug(articles, slug, j) ensures i == j {}
  }

  lemma {:induction false} SummariesCrash(rows: seq<Row>)
    ensures Summaries(rows).None? <==> exists row <- rows :: row.article.publishedAt.None?
  {
    if rows != [] {
      SummariesCrash(rows[1..]);
      assert rows == [rows[0]] + rows[1..];
    }
  }

  /** A list query throws exactly when one of the rows of the requested page has no publication date. */
  lemma ListCrashes(sort: Sort, articles: Articles, q: ListQuery)
    requires Valid(q)
    ensures QueryList(sort, articles, q) == Crashed <==>
            exists row <- QueryRows(sort, articles, q) :: row.article.publishedAt.None?
  {
    SummariesCrash(QueryRows(sort, articles, q));
  }

  /** The sort returns rows of the table it is given. */
  ghost predicate ReturnsRows(sort: Sort) {
    forall articles: Articles, row | row in sort(articles) :: row.id in articles && row.article == articles[row.id]
  }

  lemma {:induction false} FilterSelects(q: ListQuery, rows: seq<Row>)
    ensures forall row <- Filter(q, rows) :: row in rows && Selects(q, row)
  {
    if rows != [] {
      FilterSelects(q, rows[1..]);
    }
  }

  /** The rows of a page are public rows that the query selects. */
  lemma PageRowsArePublic(sort: Sort, articles: Articles, q: ListQuery)
    requires Valid(q) && ReturnsRows(sort)
    ensures forall row <- QueryRows(sort, articles, q) ::
              row.id in articles && row.article == articles[row.id] && Public(row.article) && Selects(q, row)
  {
    FilterSelects(q, sort(PublicRows(articles)));
    var rows := Filter(q, sort(PublicRows(articles)));
    forall row | row in QueryRows(sort, articles, q) ensures row in rows {}
  }

  /** The query a list key stands for: the defaults filled in. */
  function QueryOf(k: Key): ListQuery
    requires k.ListKey?
  {
    ListQuery(Some(k.page), Some(k.perPage), k.articleType, k.rubricId)
  }

  lemma {:induction false} SameFilter(q: ListQuery, q': ListQuery, rows: seq<Row>)
    requires q.articleType == q'.articleType && q.rubricId == q'.rubricId
    ensures Filter(q, rows) == Filter(q', rows)
  {
    if rows != [] {
      SameFilter(q, q', rows[1..]);
    }
  }

  /** A query and the key built from it ask for the same rows and the same total. */
  lemma KeyKeepsQuery(sort: Sort, articles: Articles, q: ListQuery, version: nat)
    requires Valid(q)
    ensures var q' := QueryOf(ListKeyOf(q, version));
            && Valid(q') && Page(q') == Page(q) && PerPage(q') == PerPage(q)
            && QueryRows(sort, articles, q') == QueryRows(sort, articles, q)
            && QueryTotal(sort, articles, q') == QueryTotal(sort, articles, q)
  {
    SameFilter(q, QueryOf(ListKeyOf(q, version)), sort(PublicRows(articles)));
  }

  // ---------------------------------------------------------------- reading through the cache

  /** What is answered and stored when the cache holds nothing usable. */
  function Fill(store: Store, k: Key, value: CacheValue, now: nat): Store {
    var seconds := if value == NotFoundMark then PUBLIC_CACHE_NOT_FOUND_TTL_SECONDS else PUBLIC_CACHE_TTL_SECONDS;
    SetEx(store, k, value, seconds, now)
  }

  function DropCorrupt(store: Store, k: Key, now: nat): Store {
    if Get(store, k, now) == Some(Corrupt) then store - {k} else store
  }

  predicate Usable(store: Store, k: Key, now: nat) {
    Exists(store, k, now) && store[k].value != Corrupt
  }

  function FindPage(store: Store, pages: Pages, slug: string, now: nat): (Outcome<PublicPage>, Store) {
    var k := PageKey(slug);
    if Usable(store, k, now) then
      match store[k].value
      case NotFoundMark => (Missing, store)
      case PageJson(page) => (Found(page), store)
      case _ => (Mistyped, store)
    else
      var answer := QueryPage(pages, slug);
      var store' := DropCorrupt(store, k, now);
      match answer
      case Found(page) => (answer, Fill(store', k, PageJson(page), now))
      case Missing => (answer, Fill(store', k, NotFoundMark, now))
      case _ => (answer, store')
  }

  function FindDetail(store: Store, articles: Articles, slug: string, now: nat): (Outcome<NewsDetail>, Store)
    requires UniqueSlugs(articles)
  {
    var k := DetailKey(slug);
    if Usable(store, k, now) then
      match store[k].value
      case NotFoundMark => (Missing, store)
      case DetailJson(detail) => (Found(detail), store)
      case _ => (Mistyped, store)
    else
      var answer := QueryDetail(articles, slug);
      var store' := DropCorrupt(store, k, now);
      match answer
      case Found(detail) => (answer, Fill(store', k, DetailJson(detail), now))
      case Missing => (answer, Fill(store', k, NotFoundMark, now))
      case _ => (answer, store')
  }

  /** `Number(await redis.get(...)) || 0` */
  function Version(store: Store, now: nat): nat {
    var stored: Option<CacheValue> := Get(store, ListVersionKey, now);
    if stored.Some? && stored.value.Counter? then stored.value.n else 0
  }

  function FindList(sort: Sort, store: Store, articles: Articles, q: ListQuery, now: nat): (Outcome<NewsList>, Store)
    requires Valid(q)
  {
    var k := ListKeyOf(q, Version(store, now));
    if Usable(store, k, now) then
      match store[k].value
      case ListJson(list) => (Found(list), store)
      case _ => (Mistyped, store)
    else
      var answer := QueryList(sort, articles, q);
      var store' := DropCorrupt(store, k, now);
      match answer
      case Found(list) => (answer, Fill(store', k, ListJson(list), now))
      case _ => (answer, store')
  }

  // ---------------------------------------------------------------- invalidation

  /** INCR of the list version, which has no expiry. */
  function BumpVersion(store: Store, now: nat): Store {
    store[ListVersionKey := Entry(Counter(Version(store, now) + 1),
                                  if Exists(store, ListVersionKey, now) then store[ListVersionKey].expiry else None)]
  }

  function InvalidateArticle(store: Store, slug: string, now: nat): Store {
    BumpVersion(store - {DetailKey(slug)}, now)
  }
}
