/**
 * Published articles without a publication date. The row mappers of src/modules/public/public.service.ts
 * take the date of a published row to be set; `update` in src/modules/news/news.service.ts can clear it.
 */
module NullDates {
  import opened CacheAgreement
  import opened CacheKeys
  import opened Common
  import opened Content
  import opened NewsModel
  import opened PublicModel

  /** The operation sets or clears the article's publication date, and succeeds. */
  predicate Dates(o: Outside, w: World, e: Event, id: string) {
    && e.News? && Failure(o.env, w.db, e.op).None?
    && ((e.op.Publish? && e.op.id == id) || (e.op.UpdateArticle? && e.op.id == id && !e.op.newPublishedAt.Absent?))
  }

  predicate Clears(op: Option<Op>) {
    op.Some? && op.value.UpdateArticle? && op.value.newPublishedAt.Null?
  }

  /** The last successful publish of the article, or update that carried a publication date, of a run. */
  function LastDating(o: Outside, w: World, events: seq<(Event, nat)>, id: string, last: Option<Op>): Option<Op>
    requires Inv(o, w) && ValidRun(o, w, events)
    decreases |events|
  {
    if events == [] then last
    else
      StepKeepsInv(o, w, events[0].0, events[0].1);
      LastDating(o, Next(o, w, events[0].0, events[0].1), events[1..], id,
                 if Dates(o, w, events[0].0, id) then Some(events[0].0.op) else last)
  }

  /** While it is published, an article lacks a date exactly when the last dating operation cleared it. */
  predicate DatedBy(w: World, id: string, last: Option<Op>) {
    id in w.db.articles && w.db.articles[id].status == PUBLISHED ==>
      (w.db.articles[id].publishedAt.None? <==> Clears(last))
  }

  lemma NewsKeepsDating(o: Outside, w: World, op: Op, at: nat, id: string, last: Option<Op>)
    requires FreshId(w.db, op) && DatedBy(w, id, last)
    ensures DatedBy(AfterNews(o, w, op, at), id, if Dates(o, w, News(op), id) then Some(op) else last)
  {
  }

  lemma StepKeepsDating(o: Outside, w: World, e: Event, at: nat, id: string, last: Option<Op>)
    requires Inv(o, w) && Enabled(w, e, at) && DatedBy(w, id, last)
    ensures DatedBy(Next(o, w, e, at), id, if Dates(o, w, e, id) then Some(e.op) else last)
  {
    if e.News? {
      NewsKeepsDating(o, w, e.op, at, id, last);
    }
  }

  lemma {:induction false} RunKeepsDating(o: Outside, w: World, events: seq<(Event, nat)>, id: string, last: Option<Op>)
    requires Inv(o, w) && ValidRun(o, w, events) && DatedBy(w, id, last)
    ensures DatedBy(Run(o, w, events), id, LastDating(o, w, events, id, last))
    decreases |events|
  {
    if events != [] {
      var e, at := events[0].0, events[0].1;
      StepKeepsInv(o, w, e, at);
      StepKeepsDating(o, w, e, at, id, last);
      RunKeepsDating(o, Next(o, w, e, at), events[1..], id, if Dates(o, w, e, id) then Some(e.op) else last);
    }
  }

  /** The article's date was last written by an update that carried null. */
  ghost predicate LastCleared(o: Outside, events: seq<(Event, nat)>, id: string)
    requires (EmptyIsWell(o); ValidRun(o, EMPTY, events))
  {
    EmptyIsWell(o);
    Clears(LastDating(o, EMPTY, events, id, None))
  }

  /**
   * After any run a published article has no publication date exactly when, of the publishes of it and
   * the updates of it that carried a date, the last to succeed was an update carrying null.
   */
  lemma NullDateExactly(o: Outside, events: seq<(Event, nat)>, at: nat, w: World, id: string)
    requires Reaches(o, events, at, w) && id in w.db.articles && w.db.articles[id].status == PUBLISHED
    ensures w.db.articles[id].publishedAt.None? <==> LastCleared(o, events, id)
  {
    EmptyIsWell(o);
    RunKeepsDating(o, EMPTY, events, id, None);
  }

  /** No page read ever throws, cached or not. */
  lemma PagesNeverCrash(o: Outside, events: seq<(Event, nat)>, at: nat, w: World, slug: string)
    requires Reaches(o, events, at, w)
    ensures FindPage(w.store, w.pages, slug, at).0 != Crashed && QueryPage(w.pages, slug) != Crashed
  {
    ReachedIsWell(o, events, at, w);
    CachedPagesAgree(o, events, at, w, slug);
  }

  /**
   * After any run a cached detail read throws exactly when the article public at the slug was last
   * dated by an update carrying null, and no overtaken not-found sentinel answers instead.
   */
  lemma DetailCrashExactly(o: Outside, events: seq<(Event, nat)>, at: nat, w: World, slug: string)
    requires Reaches(o, events, at, w)
    ensures FindDetail(w.store, w.db.articles, slug, at).0 == Crashed <==>
            && !SentinelLags(w, slug)
            && exists id <- w.db.articles :: IsPublicSlug(w.db.articles, slug, id) && LastCleared(o, events, id)
  {
    CachedDetailsAgree(o, events, at, w, slug);
    DetailCrashes(w.db.articles, slug);
    forall id <- w.db.articles | IsPublicSlug(w.db.articles, slug, id)
      ensures w.db.articles[id].publishedAt.None? <==> LastCleared(o, events, id)
    {
      NullDateExactly(o, events, at, w, id);
    }
  }

  /**
   * After any run a cached list read throws exactly when an article on the requested page was last dated
   * by an update carrying null: one such article takes down every list page it falls on.
   */
  lemma ListCrashExactly(o: Outside, events: seq<(Event, nat)>, at: nat, w: World, q: ListQuery)
    requires Reaches(o, events, at, w) && Valid(q) && ReturnsRows(o.sort)
    ensures FindList(o.sort, w.store, w.db.articles, q, at).0 == Crashed <==>
            exists row <- QueryRows(o.sort, w.db.articles, q) :: LastCleared(o, events, row.id)
  {
    CachedListsAgree(o, events, at, w, q);
    ListCrashes(o.sort, w.db.articles, q);
    PageRowsArePublic(o.sort, w.db.articles, q);
    forall row <- QueryRows(o.sort, w.db.articles, q)
      ensures row.article.publishedAt.None? <==> LastCleared(o, events, row.id)
    {
      NullDateExactly(o, events, at, w, row.id);
    }
  }

  /** It can happen to any public article: one update carrying null, and its slug answers with the error. */
  lemma ClearingCrashes(o: Outside, w: World, id: string, at: nat) returns (w': World)
    requires Inv(o, w) && w.now <= at && id in w.db.articles && Public(w.db.articles[id])
    ensures var clear := News(UpdateArticle(id, None, None, Null, None));
            Enabled(w, clear, at) && w' == Next(o, w, clear, at)
    ensures UniqueSlugs(w'.db.articles) && !SentinelLags(w', w.db.articles[id].slug)
    ensures QueryDetail(w'.db.articles, w.db.articles[id].slug) == Crashed
    ensures FindDetail(w'.store, w'.db.articles, w.db.articles[id].slug, at).0 == Crashed
  {
    var op := UpdateArticle(id, None, None, Null, None);
    var slug := w.db.articles[id].slug;
    StepKeepsInv(o, w, News(op), at);
    w' := Next(o, w, News(op), at);
    assert IsPublicSlug(w'.db.articles, slug, id) && w'.db.articles[id].publishedAt.None?;
    DetailCrashes(w'.db.articles, slug);
    ReadDetailStep(o, w', slug);
  }
}
