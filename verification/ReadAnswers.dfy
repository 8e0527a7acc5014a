/**
 * What the public reads answer and keep, told by the columns of the tables (src/modules/public/public.service.ts);
 * lists of articles are in ListPages.
 */
module ReadAnswers {
  import opened CacheKeys
  import opened Common
  import opened Content
  import opened PublicModel
  import opened Redis

  /**
   * A page read answers the page with that slug if and only if it is published: its id, name and date,
   * and all its sections in ascending order. It throws for a published page without a date.
   */
  lemma PageAnswered(pages: Pages, slug: string)
    ensures QueryPage(pages, slug) == Missing <==> slug !in pages || pages[slug].status != PUBLISHED
    ensures QueryPage(pages, slug).Found? <==>
            slug in pages && pages[slug].status == PUBLISHED && pages[slug].publishedAt.Some?
    ensures !QueryPage(pages, slug).Mistyped?
    ensures QueryPage(pages, slug).Found? ==>
              var page := QueryPage(pages, slug).value;
              && page.id == pages[slug].id && page.slug == slug && page.name == pages[slug].name
              && Some(page.publishedAt) == pages[slug].publishedAt
              && multiset(page.sections) == multiset(pages[slug].sections)
              && forall i, j | 0 <= i < j < |page.sections| :: page.sections[i].order <= page.sections[j].order
  {
    if slug in pages {
      SectionsSorted(pages[slug].sections);
    }
  }

  /** The columns of a published, undeleted article, and its stored HTML. */
  predicate Answers(d: NewsDetail, id: string, a: Article) {
    && d.summary.id == id && d.summary.slug == a.slug && d.summary.title == a.fields.title
    && d.summary.articleType == a.fields.articleType && d.summary.rubricId == a.fields.rubricId
    && Some(d.summary.publishedAt) == a.publishedAt && d.summary.coverImage == a.fields.coverImage
    && d.summary.rest == a.fields.rest
    && (a.body.None? ==> d.bodyHtml.None?)
    && (a.body.Some? ==> d.bodyHtml == Some(a.body.value.bodyHtml))
  }

  /** An article read answers the one article with that slug that is published and not deleted, and throws if it has no date. */
  lemma DetailAnswered(articles: Articles, slug: string, id: string)
    requires UniqueSlugs(articles) && id in articles && articles[id].slug == slug
    ensures var answer := QueryDetail(articles, slug);
            if articles[id].status != PUBLISHED || articles[id].deletedAt.Some? then answer == Missing
            else if articles[id].publishedAt.None? then answer == Crashed
            else answer.Found? && Answers(answer.value, id, articles[id])
  {
    forall i | IsPublicSlug(articles, slug, i) ensures i == id {}
    if Public(articles[id]) {
      assert IsPublicSlug(articles, slug, id);
    }
  }

  lemma UnknownSlug(articles: Articles, slug: string)
    requires UniqueSlugs(articles) && forall id <- articles :: articles[id].slug != slug
    ensures QueryDetail(articles, slug) == Missing
  {
  }

  // ---------------------------------------------------------------- what a read leaves in the cache

  /** From `now` on the key holds `value` for `seconds` seconds; other keys are as before. */
  ghost predicate KeptFor(store: Store, store': Store, k: Key, value: CacheValue, seconds: nat, now: nat) {
    && (forall at: nat | now <= at < now + 1000 * seconds :: Get(store', k, at) == Some(value))
    && (forall at: nat | now + 1000 * seconds <= at :: Get(store', k, at) == None)
    && forall k' | k' != k :: (k' in store <==> k' in store') && (k' in store ==> store'[k'] == store[k'])
  }

  lemma FillKeeps(store: Store, k: Key, value: CacheValue, now: nat)
    ensures KeptFor(store, Fill(DropCorrupt(store, k, now), k, value, now), k, value,
                    if value == NotFoundMark then 30 else 300, now)
  {
  }

  predicate Holds(store: Store, k: Key, now: nat) {
    Get(store, k, now).Some? && Get(store, k, now) != Some(Corrupt)
  }

  /** A page read that finds no usable entry keeps a page for 300 s and an absence for 30 s. */
  lemma PageKept(store: Store, pages: Pages, slug: string, now: nat)
    requires !Holds(store, PageKey(slug), now)
    ensures var (answer, store') := FindPage(store, pages, slug, now);
            && answer == QueryPage(pages, slug)
            && (answer.Found? ==> KeptFor(store, store', PageKey(slug), PageJson(answer.value), 300, now))
            && (answer.Missing? ==> KeptFor(store, store', PageKey(slug), NotFoundMark, 30, now))
            && (answer.Crashed? ==> Get(store', PageKey(slug), now) == None)
  {
    var answer := QueryPage(pages, slug);
    FillKeeps(store, PageKey(slug), if answer.Found? then PageJson(answer.value) else NotFoundMark, now);
  }

  /** So does an article read. */
  lemma DetailKept(store: Store, articles: Articles, slug: string, now: nat)
    requires UniqueSlugs(articles) && !Holds(store, DetailKey(slug), now)
    ensures var (answer, store') := FindDetail(store, articles, slug, now);
            && answer == QueryDetail(articles, slug)
            && (answer.Found? ==> KeptFor(store, store', DetailKey(slug), DetailJson(answer.value), 300, now))
            && (answer.Missing? ==> KeptFor(store, store', DetailKey(slug), NotFoundMark, 30, now))
            && (answer.Crashed? ==> Get(store', DetailKey(slug), now) == None)
  {
    var answer := QueryDetail(articles, slug);
    FillKeeps(store, DetailKey(slug), if answer.Found? then DetailJson(answer.value) else NotFoundMark, now);
  }

  /** A list read keeps its page for 300 s under the version it has read. */
  lemma ListKept(sort: Sort, store: Store, articles: Articles, q: ListQuery, version: nat, now: nat)
    requires Valid(q) && !Holds(store, ListKeyOf(q, version), now)
    requires Get(store, ListVersionKey, now) == if version == 0 then None else Some(Counter(version))
    ensures var (answer, store') := FindList(sort, store, articles, q, now);
            && answer == QueryList(sort, articles, q)
            && (answer.Found? ==> KeptFor(store, store', ListKeyOf(q, version), ListJson(answer.value), 300, now))
            && (answer.Crashed? ==> Get(store', ListKeyOf(q, version), now) == None)
  {
    var answer := QueryList(sort, articles, q);
    if answer.Found? {
      FillKeeps(store, ListKeyOf(q, version), ListJson(answer.value), now);
    }
  }
}
