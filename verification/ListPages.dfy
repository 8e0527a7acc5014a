/**
 * What the pages of the public news list hold (`findPublishedNewsList` in
 * src/modules/public/public.service.ts), said over the columns of the articles and the answers alone.
 */
module ListPages {
  import opened CacheKeys
  import opened Common
  import opened Content
  import opened PublicModel

  // ---------------------------------------------------------------- what is asked for

  /** Every row of the table, once. */
  predicate OnceEach(rows: seq<Row>, t: Articles) {
    && (forall m | 0 <= m < |rows| :: rows[m].id in t && rows[m].article == t[rows[m].id])
    && (forall m, n | 0 <= m < n < |rows| :: rows[m].id != rows[n].id)
    && (forall id <- t :: exists m :: 0 <= m < |rows| && rows[m].id == id)
  }

  /** ORDER BY neither loses nor repeats rows. */
  ghost predicate ListsOnce(sort: Sort) {
    forall t: Articles :: OnceEach(sort(t), t)
  }

  /** The rows the public may see. */
  function Shown(articles: Articles): Articles {
    map id | id in articles && articles[id].status == PUBLISHED && articles[id].deletedAt == None :: articles[id]
  }

  /** The article has the type and the rubric that are asked for; an empty rubric asks for none. */
  predicate Asked(a: Article, articleType: Option<ArticleType>, rubricId: Option<string>) {
    && (articleType == None || a.fields.articleType == articleType.value)
    && (rubricId == None || rubricId == Some("") || a.fields.rubricId == rubricId)
  }

  function Wanted(articles: Articles, articleType: Option<ArticleType>, rubricId: Option<string>): set<string> {
    set id | id in Shown(articles) && Asked(articles[id], articleType, rubricId)
  }

  /** `x` comes before `y`. */
  predicate Before(rows: seq<Row>, x: string, y: string) {
    exists m, n :: 0 <= m < n < |rows| && rows[m].id == x && rows[n].id == y
  }

  /** How many of the wanted articles come before `id`. */
  function Rank(rows: seq<Row>, wanted: set<string>, id: string): nat {
    |set j | j in wanted && Before(rows, j, id)|
  }

  /** The article is one of the `per` that come after the first `skip`. */
  predicate OnPage(rows: seq<Row>, wanted: set<string>, id: string, skip: nat, per: nat) {
    skip <= Rank(rows, wanted, id) < skip + per
  }

  /** How many articles `n` pages of `per` hold: `n * per`. */
  function Capacity(n: nat, per: nat): nat {
    if n == 0 then 0 else Capacity(n - 1, per) + per
  }

  lemma {:induction false} CapacityIsProduct(n: nat, per: nat)
    ensures Capacity(n, per) == n * per
  {
    if n > 0 {
      CapacityIsProduct(n - 1, per);
      OneMore(n - 1, per);
    }
  }

  lemma OneMore(x: nat, k: nat)
    ensures (x + 1) * k == x * k + k
  {
  }

  /** The smallest number of pages that holds `total` articles. */
  predicate FewestPages(n: nat, per: nat, total: nat) {
    Capacity(n, per) >= total && (n == 0 || Capacity(n - 1, per) < total)
  }

  /** What is told about a dated article. */
  function Told(id: string, a: Article): NewsSummary
    requires a.publishedAt.Some?
  {
    NewsSummary(id, a.slug, a.fields.title, a.fields.articleType, a.fields.rubricId, a.publishedAt.value,
                a.fields.coverImage, a.fields.rest)
  }

  // ---------------------------------------------------------------- filtering keeps ranks

  /** `at` tells where in `rows` the rows of `f` stand, and misses no selected row. */
  predicate Positions(q: ListQuery, rows: seq<Row>, f: seq<Row>, at: seq<nat>) {
    && |at| == |f|
    && (forall k | 0 <= k < |at| :: at[k] < |rows| && f[k] == rows[at[k]] && Selects(q, rows[at[k]]))
    && (forall j, k | 0 <= j < k < |at| :: at[j] < at[k])
    && (forall m | 0 <= m < |rows| && Selects(q, rows[m]) :: m in at)
  }

  lemma {:induction false} FilterPositions(q: ListQuery, rows: seq<Row>) returns (at: seq<nat>)
    ensures Positions(q, rows, Filter(q, rows), at)
  {
    if rows == [] {
      at := [];
    } else {
      var later := FilterPositions(q, rows[1..]);
      at := PositionsCons(q, rows[0], rows[1..], Filter(q, rows[1..]), later);
      assert rows == [rows[0]] + rows[1..];
    }
  }

  function Moved(at: seq<nat>): seq<nat> {
    seq(|at|, k requires 0 <= k < |at| => at[k] + 1)
  }

  /** Positions in a list that gets one more row in front, which is not looked at. */
  lemma MovedPositions(q: ListQuery, row: Row, rows: seq<Row>, f: seq<Row>, later: seq<nat>)
    requires Positions(q, rows, f, later)
    ensures var all, moved := [row] + rows, Moved(later);
            && |moved| == |f|
            && (forall k | 0 <= k < |moved| :: 0 < moved[k] < |all| && f[k] == all[moved[k]] && Selects(q, all[moved[k]]))
            && (forall j, k | 0 <= j < k < |moved| :: moved[j] < moved[k])
            && (forall m | 0 < m < |all| && Selects(q, all[m]) :: m in moved)
  {
    var all, moved := [row] + rows, Moved(later);
    forall m | 0 < m < |all| && Selects(q, all[m]) ensures m in moved {
      assert rows[m - 1] == all[m];
      var k :| 0 <= k < |later| && later[k] == m - 1;
      assert moved[k] == m;
    }
  }

  lemma PositionsCons(q: ListQuery, row: Row, rows: seq<Row>, f: seq<Row>, later: seq<nat>) returns (at: seq<nat>)
    requires Positions(q, rows, f, later)
    ensures Positions(q, [row] + rows, (if Selects(q, row) then [row] else []) + f, at)
  {
    MovedPositions(q, row, rows, f, later);
    if Selects(q, row) {
      at := [0] + Moved(later);
      HeadPosition(q, row, rows, f, Moved(later));
    } else {
      at := Moved(later);
      assert [] + f == f;
    }
  }

  lemma HeadPosition(q: ListQuery, row: Row, rows: seq<Row>, f: seq<Row>, moved: seq<nat>)
    requires Selects(q, row) && |moved| == |f|
    requires var all := [row] + rows;
             && (forall k | 0 <= k < |moved| :: 0 < moved[k] < |all| && f[k] == all[moved[k]] && Selects(q, all[moved[k]]))
             && (forall j, k | 0 <= j < k < |moved| :: moved[j] < moved[k])
             && (forall m | 0 < m < |all| && Selects(q, all[m]) :: m in moved)
    ensures Positions(q, [row] + rows, [row] + f, [0] + moved)
  {
    var at := [0] + moved;
    assert forall k | 0 < k < |at| :: at[k] == moved[k - 1];
    assert forall m | 0 <= m < |[row] + rows| && Selects(q, ([row] + rows)[m]) :: m == 0 || m in moved;
  }

  function Ids(rows: seq<Row>): set<string> {
    set m | 0 <= m < |rows| :: rows[m].id
  }

  lemma {:induction false} IdsSize(rows: seq<Row>)
    requires forall m, n | 0 <= m < n < |rows| :: rows[m].id != rows[n].id
    ensures |Ids(rows)| == |rows|
    decreases |rows|
  {
    if rows != [] {
      var front, last := rows[..|rows| - 1], rows[|rows| - 1];
      IdsSize(front);
      assert forall m | 0 <= m < |front| :: front[m] == rows[m];
      assert Ids(rows) == Ids(front) + {last.id};
      assert last.id !in Ids(front);
    }
  }

  /** The filtered rows are the wanted articles, each at its rank. */
  lemma FilteredRanks(q: ListQuery, rows: seq<Row>, articles: Articles)
    requires OnceEach(rows, Shown(articles))
    ensures var f, wanted := Filter(q, rows), Wanted(articles, q.articleType, q.rubricId);
            && |f| == |wanted|
            && (forall k | 0 <= k < |f| ::
                  f[k].id in wanted && f[k].article == articles[f[k].id] && Rank(rows, wanted, f[k].id) == k)
            && (forall id <- wanted :: Rank(rows, wanted, id) < |f| && f[Rank(rows, wanted, id)].id == id)
  {
    var f, wanted := Filter(q, rows), Wanted(articles, q.articleType, q.rubricId);
    var at := FilterPositions(q, rows);
    FilteredWanted(q, rows, articles, f, at);
    IdsSize(f);
    forall k | 0 <= k < |f| ensures Rank(rows, wanted, f[k].id) == k {
      RankAt(rows, f, at, wanted, k);
    }
    forall id <- wanted ensures Rank(rows, wanted, id) < |f| && f[Rank(rows, wanted, id)].id == id {
      assert id in Ids(f);
    }
  }

  lemma FilteredWanted(q: ListQuery, rows: seq<Row>, articles: Articles, f: seq<Row>, at: seq<nat>)
    requires OnceEach(rows, Shown(articles))
    requires Positions(q, rows, f, at)
    ensures && Ids(f) == Wanted(articles, q.articleType, q.rubricId)
            && (forall j, k | 0 <= j < k < |f| :: f[j].id != f[k].id)
            && (forall k | 0 <= k < |f| :: f[k].id in Wanted(articles, q.articleType, q.rubricId) && f[k].article == articles[f[k].id])
  {
    var wanted := Wanted(articles, q.articleType, q.rubricId);
    forall k | 0 <= k < |f| ensures f[k].id in wanted && f[k].article == articles[f[k].id] {
      assert f[k] == rows[at[k]];
    }
    forall id <- wanted ensures id in Ids(f) {
      var m :| 0 <= m < |rows| && rows[m].id == id;
      assert Selects(q, rows[m]);
      var k :| 0 <= k < |at| && at[k] == m;
      assert f[k].id == id;
    }
  }

  lemma RankAt(rows: seq<Row>, f: seq<Row>, at: seq<nat>, wanted: set<string>, k: nat)
    requires |at| == |f| && k < |f| && wanted == Ids(f)
    requires forall m, n | 0 <= m < n < |rows| :: rows[m].id != rows[n].id
    requires forall i, j | 0 <= i < j < |f| :: f[i].id != f[j].id
    requires forall i | 0 <= i < |at| :: at[i] < |rows| && f[i] == rows[at[i]]
    requires forall i, j | 0 <= i < j < |at| :: at[i] < at[j]
    ensures Rank(rows, wanted, f[k].id) == k
  {
    var earlier := set j | j in wanted && Before(rows, j, f[k].id);
    forall j ensures j in earlier <==> j in Ids(f[..k]) {
      if j in Ids(f[..k]) {
        var i :| 0 <= i < k && f[..k][i].id == j;
        assert f[i].id == j && rows[at[i]].id == j && rows[at[k]].id == f[k].id;
      }
      if j in earlier {
        var i :| 0 <= i < |f| && f[i].id == j;
        var m, n :| 0 <= m < n < |rows| && rows[m].id == j && rows[n].id == f[k].id;
        assert m == at[i] && n == at[k];
        assert f[..k][i].id == j;
      }
    }
    assert earlier == Ids(f[..k]);
    IdsSize(f[..k]);
  }

  // ---------------------------------------------------------------- pages

  lemma {:induction false} SummariesTell(rows: seq<Row>)
    requires Summaries(rows).Some?
    ensures |Summaries(rows).value| == |rows|
    ensures forall i | 0 <= i < |rows| ::
              rows[i].article.publishedAt.Some? && Summaries(rows).value[i] == Told(rows[i].id, rows[i].article)
  {
    if rows != [] {
      SummariesTell(rows[1..]);
    }
  }

  lemma CeilIsFewest(total: nat, per: nat)
    requires per >= 1
    ensures FewestPages((total + per - 1) / per, per, total)
  {
    var n := (total + per - 1) / per;
    Division(total + per - 1, per);
    CapacityIsProduct(n, per);
  }

  lemma Division(x: nat, d: nat)
    requires d >= 1
    ensures (x / d) * d <= x < (x / d) * d + d
  {
    assert x == d * (x / d) + x % d;
  }

  /** The rows are the wanted articles of ranks `skip` up to `skip + per`, in order. */
  predicate RowsHold(rows: seq<Row>, wanted: set<string>, articles: Articles, page: seq<Row>, skip: nat, per: nat) {
    && |page| <= per && wanted <= articles.Keys
    && (forall i | 0 <= i < |page| ::
          page[i].id in wanted && page[i].article == articles[page[i].id] && Rank(rows, wanted, page[i].id) == skip + i)
    && (forall id <- wanted :: OnPage(rows, wanted, id, skip, per) ==>
          Rank(rows, wanted, id) - skip < |page| && page[Rank(rows, wanted, id) - skip].id == id)
  }

  /** The same of the list answered, each article with its own columns. */
  predicate DataHolds(rows: seq<Row>, wanted: set<string>, articles: Articles, data: seq<NewsSummary>, skip: nat, per: nat) {
    && |data| <= per
    && (forall i | 0 <= i < |data| ::
          && data[i].id in wanted && Rank(rows, wanted, data[i].id) == skip + i
          && data[i].id in articles && articles[data[i].id].publishedAt.Some?
          && data[i] == Told(data[i].id, articles[data[i].id]))
    && (forall id <- wanted :: OnPage(rows, wanted, id, skip, per) ==>
          Rank(rows, wanted, id) - skip < |data| && data[Rank(rows, wanted, id) - skip].id == id)
  }

  /** The rows `skip` up to `skip + per` of a list. */
  function Cut(f: seq<Row>, skip: nat, per: nat): seq<Row> {
    f[Min(skip, |f|)..Min(Min(skip, |f|) + per, |f|)]
  }

  lemma CutAt(f: seq<Row>, skip: nat, per: nat)
    ensures |Cut(f, skip, per)| == (if |f| <= skip then 0 else Min(per, |f| - skip))
    ensures forall i | 0 <= i < |Cut(f, skip, per)| :: Cut(f, skip, per)[i] == f[skip + i]
  {
  }

  lemma SliceHolds(rows: seq<Row>, wanted: set<string>, articles: Articles, f: seq<Row>, page: seq<Row>, skip: nat, per: nat)
    requires wanted <= articles.Keys
    requires forall k | 0 <= k < |f| ::
               f[k].id in wanted && f[k].article == articles[f[k].id] && Rank(rows, wanted, f[k].id) == k
    requires forall id <- wanted :: Rank(rows, wanted, id) < |f| && f[Rank(rows, wanted, id)].id == id
    requires |page| == (if |f| <= skip then 0 else Min(per, |f| - skip))
    requires forall i | 0 <= i < |page| :: page[i] == f[skip + i]
    ensures RowsHold(rows, wanted, articles, page, skip, per)
  {
    forall id <- wanted | OnPage(rows, wanted, id, skip, per)
      ensures Rank(rows, wanted, id) - skip < |page| && page[Rank(rows, wanted, id) - skip].id == id
    {
      var i := Rank(rows, wanted, id) - skip;
      assert f[skip + i].id == id;
    }
  }

  lemma QueryCuts(sort: Sort, articles: Articles, q: ListQuery)
    requires Valid(q)
    ensures var f := Filter(q, sort(Shown(articles)));
            && QueryRows(sort, articles, q) == Cut(f, Capacity(Page(q) - 1, PerPage(q)), PerPage(q))
            && QueryTotal(sort, articles, q) == |f|
  {
    assert PublicRows(articles) == Shown(articles);
    CapacityIsProduct(Page(q) - 1, PerPage(q));
  }

  lemma RowsOfPage(sort: Sort, articles: Articles, q: ListQuery)
    requires ListsOnce(sort) && Valid(q)
    ensures RowsHold(sort(Shown(articles)), Wanted(articles, q.articleType, q.rubricId), articles, QueryRows(sort, articles, q),
                     Capacity(Page(q) - 1, PerPage(q)), PerPage(q))
    ensures QueryTotal(sort, articles, q) == |Wanted(articles, q.articleType, q.rubricId)|
  {
    var rows := sort(Shown(articles));
    QueryCuts(sort, articles, q);
    FilteredRanks(q, rows, articles);
    var f, skip, per := Filter(q, rows), Capacity(Page(q) - 1, PerPage(q)), PerPage(q);
    CutAt(f, skip, per);
    SliceHolds(rows, Wanted(articles, q.articleType, q.rubricId), articles, f, Cut(f, skip, per), skip, per);
  }

  lemma UndatedOnPage(rows: seq<Row>, wanted: set<string>, articles: Articles, page: seq<Row>, skip: nat, per: nat)
    requires RowsHold(rows, wanted, articles, page, skip, per)
    ensures (exists row <- page :: row.article.publishedAt.None?) <==>
            exists id <- wanted :: OnPage(rows, wanted, id, skip, per) && articles[id].publishedAt == None
  {
    if exists row <- page :: row.article.publishedAt.None? {
      var row :| row in page && row.article.publishedAt.None?;
      var i :| 0 <= i < |page| && page[i] == row;
      assert OnPage(rows, wanted, page[i].id, skip, per);
    }
    if exists id <- wanted :: OnPage(rows, wanted, id, skip, per) && articles[id].publishedAt == None {
      var id :| id in wanted && OnPage(rows, wanted, id, skip, per) && articles[id].publishedAt == None;
      assert page[Rank(rows, wanted, id) - skip].article.publishedAt.None?;
    }
  }

  lemma ToldRows(rows: seq<Row>, wanted: set<string>, articles: Articles, page: seq<Row>, skip: nat, per: nat)
    requires RowsHold(rows, wanted, articles, page, skip, per) && Summaries(page).Some?
    ensures DataHolds(rows, wanted, articles, Summaries(page).value, skip, per)
  {
    SummariesTell(page);
  }

  /** What page `p` answers. */
  predicate PageAnswer(rows: seq<Row>, wanted: set<string>, articles: Articles, p: nat, per: nat, answer: Outcome<NewsList>)
    requires p >= 1 && wanted <= articles.Keys
  {
    var skip := Capacity(p - 1, per);
    if exists id <- wanted :: OnPage(rows, wanted, id, skip, per) && articles[id].publishedAt == None
    then answer == Crashed
    else
      && answer.Found? && DataHolds(rows, wanted, articles, answer.value.data, skip, per)
      && answer.value.meta.total == |wanted| && answer.value.meta.page == p && answer.value.meta.perPage == per
      && FewestPages(answer.value.meta.totalPages, per, |wanted|)
  }

  lemma BuiltAnswers(
    rows: seq<Row>, articles: Articles, q: ListQuery, wanted: set<string>, page: seq<Row>, total: nat)
    requires Valid(q) && total == |wanted|
    requires RowsHold(rows, wanted, articles, page, Capacity(Page(q) - 1, PerPage(q)), PerPage(q))
    ensures PageAnswer(rows, wanted, articles, Page(q), PerPage(q), BuildList(q, page, total))
  {
    UndatedOnPage(rows, wanted, articles, page, Capacity(Page(q) - 1, PerPage(q)), PerPage(q));
    SummariesCrash(page);
    if Summaries(page).Some? {
      ToldRows(rows, wanted, articles, page, Capacity(Page(q) - 1, PerPage(q)), PerPage(q));
      BuiltMeta(q, page, total);
    }
  }

  lemma BuiltMeta(q: ListQuery, page: seq<Row>, total: nat)
    requires Valid(q) && Summaries(page).Some?
    ensures var answer := BuildList(q, page, total);
            && answer.Found? && answer.value.data == Summaries(page).value
            && answer.value.meta.total == total && answer.value.meta.page == Page(q)
            && answer.value.meta.perPage == PerPage(q) && FewestPages(answer.value.meta.totalPages, PerPage(q), total)
  {
    CeilIsFewest(total, PerPage(q));
  }

  /**
   * What a page of the list answers, for any table and filter: the wanted articles are those published,
   * undeleted, of the type and rubric asked for, and page `p` holds the ones of rank (p-1)*per up to
   * p*per, in order, each with its own columns; it fails exactly if one of them has no date. The total
   * counts all wanted articles, and the page count is the smallest that holds them.
   */
  lemma PageHolds(sort: Sort, articles: Articles, q: ListQuery)
    requires ListsOnce(sort) && Valid(q)
    ensures PageAnswer(sort(Shown(articles)), Wanted(articles, q.articleType, q.rubricId), articles, q.page.GetOr(1), q.perPage.GetOr(20),
                       QueryList(sort, articles, q))
  {
    RowsOfPage(sort, articles, q);
    BuiltAnswers(sort(Shown(articles)), articles, q, Wanted(articles, q.articleType, q.rubricId), QueryRows(sort, articles, q),
                 QueryTotal(sort, articles, q));
  }

  // ---------------------------------------------------------------- the pages together

  function PageOf(q: ListQuery, p: nat): ListQuery {
    q.(page := Some(p))
  }

  /** The answers for the pages 1, 2, ... of a query. */
  function Pages(sort: Sort, articles: Articles, q: ListQuery): nat -> Outcome<NewsList>
    requires Valid(q)
  {
    p => if p >= 1 then QueryList(sort, articles, PageOf(q, p)) else Missing
  }

  /** Article `id` stands at index `i` of the answer for page `p`. */
  predicate ListedAt(pages: nat -> Outcome<NewsList>, p: nat, i: nat, id: string) {
    p >= 1 && pages(p).Found? && i < |pages(p).value.data| && pages(p).value.data[i].id == id
  }

  /** All pages answer as they should. */
  ghost predicate Browsable(rows: seq<Row>, wanted: set<string>, articles: Articles, per: nat, pages: nat -> Outcome<NewsList>)
    requires wanted <= articles.Keys
  {
    forall p | p >= 1 :: PageAnswer(rows, wanted, articles, p, per, pages(p))
  }

  lemma PagesAnswer(sort: Sort, articles: Articles, q: ListQuery)
    requires ListsOnce(sort) && Valid(q)
    ensures Browsable(sort(Shown(articles)), Wanted(articles, q.articleType, q.rubricId), articles, PerPage(q),
                      Pages(sort, articles, q))
  {
    forall p: nat | p >= 1
      ensures PageAnswer(sort(Shown(articles)), Wanted(articles, q.articleType, q.rubricId), articles, p, PerPage(q),
                         Pages(sort, articles, q)(p))
    {
      PageHolds(sort, articles, PageOf(q, p));
    }
  }

  lemma {:induction false} Quotient(rank: nat, per: nat) returns (p: nat, i: nat)
    requires per >= 1
    ensures p >= 1 && i < per && rank == Capacity(p - 1, per) + i
  {
    if rank < per {
      p, i := 1, rank;
    } else {
      p, i := Quotient(rank - per, per);
      p := p + 1;
    }
  }

  lemma QuotientUnique(p: nat, i: nat, p': nat, i': nat, per: nat)
    requires p >= 1 && p' >= 1 && i < per && i' < per && Capacity(p - 1, per) + i == Capacity(p' - 1, per) + i'
    ensures p == p' && i == i'
  {
    if p < p' {
      SkipGrows(p, p', per);
    } else if p' < p {
      SkipGrows(p', p, per);
    }
  }

  lemma {:induction false} SkipGrows(p: nat, p': nat, per: nat)
    requires 1 <= p < p'
    ensures Capacity(p - 1, per) + per <= Capacity(p' - 1, per)
  {
    if p + 1 < p' {
      SkipGrows(p, p' - 1, per);
    }
  }

  lemma WithinPages(rank: nat, p: nat, i: nat, per: nat, total: nat, n: nat)
    requires per >= 1 && p >= 1 && rank == Capacity(p - 1, per) + i && rank < total && FewestPages(n, per, total)
    ensures p <= n
  {
    if n + 1 < p {
      SkipGrows(n + 1, p, per);
    }
  }

  lemma ListedRank(rows: seq<Row>, wanted: set<string>, articles: Articles, per: nat, pages: nat -> Outcome<NewsList>,
                   p: nat, i: nat, id: string)
    requires wanted <= articles.Keys && Browsable(rows, wanted, articles, per, pages) && ListedAt(pages, p, i, id)
    ensures id in wanted && i < per && Rank(rows, wanted, id) == Capacity(p - 1, per) + i
  {
    AnswerRank(rows, wanted, articles, p, per, Capacity(p - 1, per), pages(p), i);
  }

  lemma AnswerRank(rows: seq<Row>, wanted: set<string>, articles: Articles, p: nat, per: nat, skip: nat,
                   answer: Outcome<NewsList>, i: nat)
    requires p >= 1 && wanted <= articles.Keys && skip == Capacity(p - 1, per)
    requires PageAnswer(rows, wanted, articles, p, per, answer) && answer.Found? && i < |answer.value.data|
    ensures var id := answer.value.data[i].id;
            id in wanted && Rank(rows, wanted, id) == skip + i && i < per
  {
    assert DataHolds(rows, wanted, articles, answer.value.data, skip, per);
  }

  lemma AnswerLists(rows: seq<Row>, wanted: set<string>, articles: Articles, p: nat, per: nat, skip: nat,
                    answer: Outcome<NewsList>, id: string)
    requires p >= 1 && wanted <= articles.Keys && skip == Capacity(p - 1, per) && id in wanted
    requires PageAnswer(rows, wanted, articles, p, per, answer) && OnPage(rows, wanted, id, skip, per)
    requires forall w <- wanted :: articles[w].publishedAt.Some?
    ensures answer.Found? && FewestPages(answer.value.meta.totalPages, per, |wanted|)
    ensures var i := Rank(rows, wanted, id) - skip;
            i < |answer.value.data| && answer.value.data[i].id == id
  {
    AnswerFound(rows, wanted, articles, p, per, answer);
    DataLists(rows, wanted, articles, answer.value.data, skip, per, id);
  }

  lemma AnswerFound(rows: seq<Row>, wanted: set<string>, articles: Articles, p: nat, per: nat, answer: Outcome<NewsList>)
    requires p >= 1 && wanted <= articles.Keys && PageAnswer(rows, wanted, articles, p, per, answer)
    requires forall w <- wanted :: articles[w].publishedAt.Some?
    ensures answer.Found? && FewestPages(answer.value.meta.totalPages, per, |wanted|)
    ensures DataHolds(rows, wanted, articles, answer.value.data, Capacity(p - 1, per), per)
  {
  }

  lemma DataLists(rows: seq<Row>, wanted: set<string>, articles: Articles, data: seq<NewsSummary>, skip: nat, per: nat,
                  id: string)
    requires DataHolds(rows, wanted, articles, data, skip, per) && id in wanted && OnPage(rows, wanted, id, skip, per)
    ensures var i := Rank(rows, wanted, id) - skip;
            0 <= i < |data| && data[i].id == id
  {
  }

  lemma PlaceOf(rows: seq<Row>, wanted: set<string>, articles: Articles, per: nat, pages: nat -> Outcome<NewsList>, id: string)
    returns (p: nat, i: nat)
    requires per >= 1 && wanted <= articles.Keys && Browsable(rows, wanted, articles, per, pages)
    requires id in wanted && Rank(rows, wanted, id) < |wanted| && forall w <- wanted :: articles[w].publishedAt.Some?
    ensures ListedAt(pages, p, i, id) && p <= pages(p).value.meta.totalPages
    ensures forall p': nat, i': nat | ListedAt(pages, p', i', id) :: p' == p && i' == i
  {
    var rank := Rank(rows, wanted, id);
    p, i := Quotient(rank, per);
    AnswerLists(rows, wanted, articles, p, per, Capacity(p - 1, per), pages(p), id);
    WithinPages(rank, p, i, per, |wanted|, pages(p).value.meta.totalPages);
    forall p': nat, i': nat | ListedAt(pages, p', i', id) ensures p' == p && i' == i {
      ListedRank(rows, wanted, articles, per, pages, p', i', id);
      QuotientUnique(p, i, p', i', per);
    }
  }

  /**
   * Browsing all pages shows every wanted article exactly once. For any table whose wanted articles have
   * dates, each stands at one index of one page among the pages counted, and nowhere else.
   */
  lemma EveryArticleOnce(sort: Sort, articles: Articles, q: ListQuery, id: string) returns (p: nat, i: nat)
    requires ListsOnce(sort) && Valid(q) && id in Wanted(articles, q.articleType, q.rubricId)
    requires forall w <- Wanted(articles, q.articleType, q.rubricId) :: articles[w].publishedAt.Some?
    ensures var pages := Pages(sort, articles, q);
            && ListedAt(pages, p, i, id) && p <= pages(p).value.meta.totalPages
            && forall p': nat, i': nat | ListedAt(pages, p', i', id) :: p' == p && i' == i
  {
    var rows, wanted := sort(Shown(articles)), Wanted(articles, q.articleType, q.rubricId);
    PagesAnswer(sort, articles, q);
    FilteredRanks(q, rows, articles);
    p, i := PlaceOf(rows, wanted, articles, PerPage(q), Pages(sort, articles, q), id);
  }

  /** An article sorted before another is on an earlier page, or earlier on the same page. */
  lemma PagesFollowSort(
    sort: Sort, articles: Articles, q: ListQuery, x: string, p: nat, i: nat, y: string, p': nat, i': nat)
    requires ListsOnce(sort) && Valid(q)
    requires ListedAt(Pages(sort, articles, q), p, i, x) && ListedAt(Pages(sort, articles, q), p', i', y)
    ensures Before(sort(Shown(articles)), x, y) <==> p < p' || (p == p' && i < i')
    ensures x in articles && y in articles
  {
    var rows, wanted := sort(Shown(articles)), Wanted(articles, q.articleType, q.rubricId);
    PagesAnswer(sort, articles, q);
    ListedRank(rows, wanted, articles, PerPage(q), Pages(sort, articles, q), p, i, x);
    ListedRank(rows, wanted, articles, PerPage(q), Pages(sort, articles, q), p', i', y);
    BeforeIsRank(rows, Shown(articles), wanted, x, y);
    EarlierRank(p, i, p', i', PerPage(q));
  }

  lemma EarlierRank(p: nat, i: nat, p': nat, i': nat, per: nat)
    requires p >= 1 && p' >= 1 && i < per && i' < per
    ensures Capacity(p - 1, per) + i < Capacity(p' - 1, per) + i' <==> p < p' || (p == p' && i < i')
  {
    if p < p' {
      SkipGrows(p, p', per);
    } else if p' < p {
      SkipGrows(p', p, per);
    }
  }

  lemma BeforeIsRank(rows: seq<Row>, t: Articles, wanted: set<string>, x: string, y: string)
    requires OnceEach(rows, t) && x in wanted && y in wanted && wanted <= t.Keys
    ensures Before(rows, x, y) <==> Rank(rows, wanted, x) < Rank(rows, wanted, y)
  {
    if Before(rows, x, y) {
      BeforeRanks(rows, wanted, x, y);
    } else if x != y {
      var m :| 0 <= m < |rows| && rows[m].id == x;
      var n :| 0 <= n < |rows| && rows[n].id == y;
      assert Before(rows, y, x);
      BeforeRanks(rows, wanted, y, x);
    }
  }

  lemma BeforeRanks(rows: seq<Row>, wanted: set<string>, x: string, y: string)
    requires forall m, n | 0 <= m < n < |rows| :: rows[m].id != rows[n].id
    requires x in wanted && Before(rows, x, y)
    ensures Rank(rows, wanted, x) < Rank(rows, wanted, y)
  {
    var before, after := set j | j in wanted && Before(rows, j, x), set j | j in wanted && Before(rows, j, y);
    var m, n :| 0 <= m < n < |rows| && rows[m].id == x && rows[n].id == y;
    forall j | j in before ensures j in after {
      var k, m' :| 0 <= k < m' < |rows| && rows[k].id == j && rows[m'].id == x;
      assert m' == m && rows[k].id == j && rows[n].id == y;
    }
    assert x in after;
    NotBeforeItself(rows, x);
    ProperSubset(before, after, x);
  }

  lemma NotBeforeItself(rows: seq<Row>, x: string)
    requires forall m, n | 0 <= m < n < |rows| :: rows[m].id != rows[n].id
    ensures !Before(rows, x, x)
  {
  }

  lemma ProperSubset(a: set<string>, b: set<string>, x: string)
    requires a <= b && x in b && x !in a
    ensures |a| < |b|
  {
    assert b == a + (b - a) && x in b - a;
  }

  /** Every page before the last is full. */
  lemma FullPages(sort: Sort, articles: Articles, q: ListQuery)
    requires ListsOnce(sort) && Valid(q) && QueryList(sort, articles, q).Found?
    ensures var NewsList(data, meta) := QueryList(sort, articles, q).value;
            meta.page < meta.totalPages ==> |data| == meta.perPage
  {
    var rows, wanted := sort(Shown(articles)), Wanted(articles, q.articleType, q.rubricId);
    PageHolds(sort, articles, q);
    FilteredRanks(q, rows, articles);
    FullAnswer(rows, wanted, articles, Page(q), PerPage(q), QueryList(sort, articles, q), Filter(q, rows));
  }

  lemma FullAnswer(rows: seq<Row>, wanted: set<string>, articles: Articles, p: nat, per: nat, answer: Outcome<NewsList>,
                   f: seq<Row>)
    requires p >= 1 && per >= 1 && wanted <= articles.Keys && PageAnswer(rows, wanted, articles, p, per, answer) && answer.Found?
    requires |f| == |wanted| && forall k | 0 <= k < |f| :: f[k].id in wanted && Rank(rows, wanted, f[k].id) == k
    ensures p < answer.value.meta.totalPages ==> |answer.value.data| == per
  {
    if p < answer.value.meta.totalPages {
      var skip := Capacity(p - 1, per);
      LastIsLater(p, answer.value.meta.totalPages, per, |wanted|);
      var last := f[skip + per - 1].id;
      assert OnPage(rows, wanted, last, skip, per);
      assert DataHolds(rows, wanted, articles, answer.value.data, skip, per);
    }
  }

  lemma LastIsLater(p: nat, n: nat, per: nat, total: nat)
    requires 1 <= p < n && FewestPages(n, per, total)
    ensures Capacity(p - 1, per) + per < total
  {
    SkipGrows(p, n, per);
  }

  // ---------------------------------------------------------------- the ORDER BY

  /** ORDER BY publicationIndex ASC, publishedAt DESC, among dated rows. */
  predicate InOrder(a: Article, b: Article) {
    a.publishedAt.Some? && b.publishedAt.Some? ==>
      || a.fields.publicationIndex < b.fields.publicationIndex
      || (a.fields.publicationIndex == b.fields.publicationIndex && a.publishedAt.value >= b.publishedAt.value)
  }

  ghost predicate SortsByIndexAndDate(sort: Sort) {
    forall t: Articles, m, n | 0 <= m < n < |sort(t)| :: InOrder(sort(t)[m].article, sort(t)[n].article)
  }

  /** So the pages list articles by publication index and, for the same index, latest first. */
  lemma PagesAreOrdered(
    sort: Sort, articles: Articles, q: ListQuery, x: string, p: nat, i: nat, y: string, p': nat, i': nat)
    requires ListsOnce(sort) && SortsByIndexAndDate(sort) && Valid(q)
    requires ListedAt(Pages(sort, articles, q), p, i, x) && ListedAt(Pages(sort, articles, q), p', i', y)
    requires p < p' || (p == p' && i < i')
    ensures x in articles && y in articles && InOrder(articles[x], articles[y])
  {
    PagesFollowSort(sort, articles, q, x, p, i, y, p', i');
    var rows := sort(Shown(articles));
    var m, n :| 0 <= m < n < |rows| && rows[m].id == x && rows[n].id == y;
    assert InOrder(rows[m].article, rows[n].article);
    assert OnceEach(rows, Shown(articles));
  }
}
