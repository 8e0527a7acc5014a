/**
 * Cached and uncached reads agree over every run of whole operations: public reads, news and page
 * operations with their invalidations, the passing of time, and damaged cache entries.
 */
module CacheAgreement {
  import opened CacheKeys
  import opened Common
  import opened Content
  import opened NewsModel
  import opened PagesModel
  import opened PublicModel
  import opened Redis

  /** Everything that comes from outside: payload validation, rendering, and the list query's order. */
  datatype Outside = Outside(env: Env, accepts: Section -> bool, sort: Sort)

  /**
   * The tables and the cache. `overtaken` are the slugs that a published article was renamed to while a
   * not-found sentinel was cached for them, and when; invalidating a slug takes it out again.
   */
  datatype World = World(db: Db, pages: Pages, store: Store, now: nat, overtaken: map<string, nat>)

  datatype Event =
    | News(op: Op)
    | PageEvent(pageOp: PageOp)
    | ReadPage(slug: string)
    | ReadDetail(slug: string)
    | ReadList(query: ListQuery)
    | Damage(key: Key)

  const EMPTY: World := World(Db(map[], map[]), map[], map[], 0, map[])

  predicate Enabled(w: World, e: Event, at: nat) {
    && w.now <= at
    && match e
       case News(op) => FreshId(w.db, op)
       case ReadList(q) => Valid(q)
       case Damage(k) => k != ListVersionKey
       case _ => true
  }

  /** A published article moves to another slug. */
  predicate Renames(o: Outside, db: Db, op: Op) {
    && op.UpdateArticle? && Failure(o.env, db, op).None?
    && db.articles[op.id].status == PUBLISHED
    && SlugAfter(db.articles[op.id], op.newSlug) != db.articles[op.id].slug
  }

  function Overtaken(o: Outside, w: World, op: Op, at: nat): map<string, nat> {
    var invalidated := Invalidated(o.env, w.db, op);
    var kept := if invalidated.Some? then w.overtaken - {invalidated.value} else w.overtaken;
    if Renames(o, w.db, op) && Marked(w.store, SlugAfter(w.db.articles[op.id], op.newSlug), at)
    then kept[SlugAfter(w.db.articles[op.id], op.newSlug) := at] else kept
  }

  /** A not-found sentinel is cached for the slug. */
  predicate Marked(store: Store, slug: string, now: nat) {
    Get(store, DetailKey(slug), now) == Some(NotFoundMark)
  }

  function AfterNews(o: Outside, w: World, op: Op, at: nat): World
    requires FreshId(w.db, op)
  {
    var invalidated := Invalidated(o.env, w.db, op);
    World(Perform(o.env, w.db, op), w.pages,
          if invalidated.Some? then InvalidateArticle(w.store, invalidated.value, at) else w.store,
          at, Overtaken(o, w, op, at))
  }

  function AfterPage(o: Outside, w: World, op: PageOp, at: nat): World {
    w.(pages := PagesAfter(o.accepts, w.pages, op),
       store := if InvalidatesPage(o.accepts, w.pages, op) then w.store - {PageKey(op.slug)} else w.store,
       now := at)
  }

  /** A damaged entry keeps its expiry. */
  function Damaged(store: Store, k: Key): Store {
    if k in store then store[k := Entry(Corrupt, store[k].expiry)] else store
  }

  function Next(o: Outside, w: World, e: Event, at: nat): World
    requires Enabled(w, e, at) && UniqueSlugs(w.db.articles)
  {
    match e
    case News(op) => AfterNews(o, w, op, at)
    case PageEvent(op) => AfterPage(o, w, op, at)
    case ReadPage(slug) => w.(store := FindPage(w.store, w.pages, slug, at).1, now := at)
    case ReadDetail(slug) => w.(store := FindDetail(w.store, w.db.articles, slug, at).1, now := at)
    case ReadList(q) => w.(store := FindList(o.sort, w.store, w.db.articles, q, at).1, now := at)
    case Damage(k) => w.(store := Damaged(w.store, k), now := at)
  }

  // ---------------------------------------------------------------- the invariant

  predicate PageEntryWell(pages: Pages, slug: string, value: CacheValue) {
    match value
    case NotFoundMark => QueryPage(pages, slug) == Missing
    case PageJson(page) => QueryPage(pages, slug) == Found(page)
    case Corrupt => true
    case _ => false
  }

  /** A sentinel is right unless a rename overtook it, which it outlives by less than its own lifetime. */
  predicate DetailEntryWell(articles: Articles, overtaken: map<string, nat>, slug: string, e: Entry<CacheValue>)
    requires UniqueSlugs(articles)
  {
    match e.value
    case NotFoundMark =>
      if slug in overtaken
      then e.expiry.Some? && e.expiry.value <= overtaken[slug] + 1000 * PUBLIC_CACHE_NOT_FOUND_TTL_SECONDS
      else QueryDetail(articles, slug) == Missing
    case DetailJson(detail) => QueryDetail(articles, slug) == Found(detail)
    case Corrupt => true
    case _ => false
  }

  predicate ListEntryWell(sort: Sort, articles: Articles, k: Key, value: CacheValue)
    requires k.ListKey?
  {
    match value
    case ListJson(list) => Valid(QueryOf(k)) && QueryList(sort, articles, QueryOf(k)) == Found(list)
    case Corrupt => true
    case _ => false
  }

  /** The counter never expires, list keys never run ahead of it, and sentinels are short-lived. */
  predicate StoreWell(store: Store, now: nat) {
    && (ListVersionKey in store ==> store[ListVersionKey].expiry.None? && store[ListVersionKey].value.Counter?)
    && (forall k <- store :: k.ListKey? ==> k.version <= Version(store, now))
    && (forall k <- store :: store[k].value == NotFoundMark ==>
          store[k].expiry.Some? && store[k].expiry.value <= now + 1000 * PUBLIC_CACHE_NOT_FOUND_TTL_SECONDS)
  }

  predicate PagesWell(w: World) {
    && (forall slug <- w.pages :: w.pages[slug].status == PUBLISHED ==> w.pages[slug].publishedAt.Some?)
    && (forall k <- w.store :: k.PageKey? && Live(w.store[k], w.now) ==> PageEntryWell(w.pages, k.slug, w.store[k].value))
  }

  predicate DetailsWell(w: World)
    requires UniqueSlugs(w.db.articles)
  {
    && (forall k <- w.store :: k.DetailKey? && Live(w.store[k], w.now) ==>
          DetailEntryWell(w.db.articles, w.overtaken, k.slug, w.store[k]))
    && (forall slug <- w.overtaken :: QueryDetail(w.db.articles, slug) != Missing)
  }

  predicate ListsWell(o: Outside, w: World) {
    forall k <- w.store :: k.ListKey? && k.version == Version(w.store, w.now) && Live(w.store[k], w.now) ==>
      ListEntryWell(o.sort, w.db.articles, k, w.store[k].value)
  }

  predicate Inv(o: Outside, w: World) {
    UniqueSlugs(w.db.articles) && StoreWell(w.store, w.now) && PagesWell(w) && DetailsWell(w) && ListsWell(o, w)
  }

  // ---------------------------------------------------------------- steps

  lemma TimePasses(o: Outside, w: World, at: nat)
    requires Inv(o, w) && w.now <= at
    ensures Inv(o, w.(now := at))
  {
    assert Version(w.store, at) == Version(w.store, w.now);
  }

  /** An operation that invalidates nothing does not change what the public can see. */
  lemma QuietOpKeepsPublicRows(o: Outside, db: Db, op: Op)
    requires FreshId(db, op) && Invalidated(o.env, db, op).None?
    ensures PublicRows(Perform(o.env, db, op).articles) == PublicRows(db.articles)
  {
  }

  /** Details depend on the public rows with the slug only. */
  lemma SameRowsSameDetail(articles: Articles, articles': Articles, slug: string)
    requires UniqueSlugs(articles) && UniqueSlugs(articles')
    requires forall id :: IsPublicSlug(articles, slug, id) <==> IsPublicSlug(articles', slug, id)
    requires forall id :: IsPublicSlug(articles, slug, id) && IsPublicSlug(articles', slug, id) ==> articles[id] == articles'[id]
    ensures QueryDetail(articles, slug) == QueryDetail(articles', slug)
  {
    if exists id <- articles :: IsPublicSlug(articles, slug, id) {
      var id :| id in articles && IsPublicSlug(articles, slug, id);
      assert IsPublicSlug(articles', slug, id);
      assert forall i | i in articles && IsPublicSlug(articles, slug, i) :: i == id;
      assert forall i | i in articles' && IsPublicSlug(articles', slug, i) :: i == id;
    }
  }

  /** An article operation changes one article, and tells its old slug when the public could see it. */
  lemma NewsChangesOne(o: Outside, db: Db, op: Op, slug: string, id: string)
    requires FreshId(db, op) && Invalidated(o.env, db, op).Some?
    requires slug != Invalidated(o.env, db, op).value
    requires Renames(o, db, op) ==> slug != SlugAfter(db.articles[op.id], op.newSlug)
    ensures var db' := Perform(o.env, db, op);
            && (IsPublicSlug(db.articles, slug, id) <==> IsPublicSlug(db'.articles, slug, id))
            && (IsPublicSlug(db.articles, slug, id) && IsPublicSlug(db'.articles, slug, id)
                ==> db.articles[id] == db'.articles[id])
  {
  }

  /**
   * After a news operation the public detail of a slug is what it was, unless the operation invalidated
   * that slug, or moved a published article to it (and then nothing was there before).
   */
  lemma DetailAfterNews(o: Outside, db: Db, op: Op, slug: string)
    requires FreshId(db, op) && UniqueSlugs(db.articles) && UniqueSlugs(Perform(o.env, db, op).articles)
    ensures || QueryDetail(Perform(o.env, db, op).articles, slug) == QueryDetail(db.articles, slug)
            || Invalidated(o.env, db, op) == Some(slug)
            || (Renames(o, db, op) && slug == SlugAfter(db.articles[op.id], op.newSlug)
                && QueryDetail(db.articles, slug) == Missing)
  {
    var articles, articles' := db.articles, Perform(o.env, db, op).articles;
    if Invalidated(o.env, db, op).None? {
      QuietOpKeepsPublicRows(o, db, op);
      forall id ensures IsPublicSlug(articles, slug, id) <==> IsPublicSlug(articles', slug, id)
                ensures IsPublicSlug(articles, slug, id) && IsPublicSlug(articles', slug, id) ==> articles[id] == articles'[id]
      {
        SameRow(articles, articles', id, slug);
      }
      SameRowsSameDetail(articles, articles', slug);
    } else if Renames(o, db, op) && slug == SlugAfter(articles[op.id], op.newSlug) {
      RenameTargetIsFree(o, db, op);
    } else if slug != Invalidated(o.env, db, op).value {
      forall id ensures IsPublicSlug(articles, slug, id) <==> IsPublicSlug(articles', slug, id)
                ensures IsPublicSlug(articles, slug, id) && IsPublicSlug(articles', slug, id) ==> articles[id] == articles'[id]
      {
        NewsChangesOne(o, db, op, slug, id);
      }
      SameRowsSameDetail(articles, articles', slug);
    }
  }

  lemma SameRow(articles: Articles, articles': Articles, id: string, slug: string)
    requires PublicRows(articles) == PublicRows(articles')
    ensures IsPublicSlug(articles, slug, id) <==> IsPublicSlug(articles', slug, id)
    ensures IsPublicSlug(articles, slug, id) && IsPublicSlug(articles', slug, id) ==> articles[id] == articles'[id]
  {
    if IsPublicSlug(articles, slug, id) {
      assert id in PublicRows(articles) && PublicRows(articles)[id] == articles[id];
      assert id in PublicRows(articles') && PublicRows(articles')[id] == articles'[id];
    }
    if IsPublicSlug(articles', slug, id) {
      assert id in PublicRows(articles') && PublicRows(articles')[id] == articles'[id];
      assert id in PublicRows(articles) && PublicRows(articles)[id] == articles[id];
    }
  }

  lemma RenameTargetIsFree(o: Outside, db: Db, op: Op)
    requires UniqueSlugs(db.articles) && Renames(o, db, op)
    ensures QueryDetail(db.articles, SlugAfter(db.articles[op.id], op.newSlug)) == Missing
  {
  }

  lemma VersionAfterBump(store: Store, slug: string, now: nat)
    requires StoreWell(store, now)
    ensures Version(InvalidateArticle(store, slug, now), now) == Version(store, now) + 1
    ensures StoreWell(InvalidateArticle(store, slug, now), now)
  {
    var store' := InvalidateArticle(store, slug, now);
    assert Get(store', ListVersionKey, now) == Some(Counter(Version(store, now) + 1));
  }

  lemma NewsKeepsDetails(o: Outside, w: World, op: Op)
    requires Inv(o, w) && FreshId(w.db, op) && UniqueSlugs(Perform(o.env, w.db, op).articles)
    ensures DetailsWell(AfterNews(o, w, op, w.now))
  {
    var w' := AfterNews(o, w, op, w.now);
    forall k <- w'.store | k.DetailKey? && Live(w'.store[k], w'.now)
      ensures DetailEntryWell(w'.db.articles, w'.overtaken, k.slug, w'.store[k])
    {
      assert k in w.store && w.store[k] == w'.store[k];
      assert DetailEntryWell(w.db.articles, w.overtaken, k.slug, w.store[k]);
      DetailAfterNews(o, w.db, op, k.slug);
    }
    forall slug <- w'.overtaken ensures QueryDetail(w'.db.articles, slug) != Missing {
      OvertakenIsPublic(o, w, op, slug);
    }
  }

  lemma RenamedIsPublic(o: Outside, db: Db, op: Op)
    requires FreshId(db, op) && Renames(o, db, op) && UniqueSlugs(Perform(o.env, db, op).articles)
    ensures QueryDetail(Perform(o.env, db, op).articles, SlugAfter(db.articles[op.id], op.newSlug)) != Missing
  {
    assert IsPublicSlug(Perform(o.env, db, op).articles, SlugAfter(db.articles[op.id], op.newSlug), op.id);
  }

  lemma OvertakenIsPublic(o: Outside, w: World, op: Op, slug: string)
    requires Inv(o, w) && FreshId(w.db, op) && UniqueSlugs(Perform(o.env, w.db, op).articles)
    requires slug in Overtaken(o, w, op, w.now)
    ensures QueryDetail(Perform(o.env, w.db, op).articles, slug) != Missing
  {
    if Renames(o, w.db, op) && slug == SlugAfter(w.db.articles[op.id], op.newSlug) {
      RenamedIsPublic(o, w.db, op);
    } else {
      DetailAfterNews(o, w.db, op, slug);
    }
  }

  lemma NewsKeepsLists(o: Outside, w: World, op: Op)
    requires Inv(o, w) && FreshId(w.db, op)
    ensures ListsWell(o, AfterNews(o, w, op, w.now)) && StoreWell(AfterNews(o, w, op, w.now).store, w.now)
  {
    var invalidated := Invalidated(o.env, w.db, op);
    if invalidated.Some? {
      VersionAfterBump(w.store, invalidated.value, w.now);
    } else {
      QuietOpKeepsPublicRows(o, w.db, op);
    }
  }

  lemma NewsKeepsInv(o: Outside, w: World, op: Op)
    requires Inv(o, w) && FreshId(w.db, op)
    ensures Inv(o, AfterNews(o, w, op, w.now))
  {
    StepKeepsUniqueSlugs(o.env, w.db, op);
    NewsKeepsDetails(o, w, op);
    NewsKeepsLists(o, w, op);
  }

  lemma PageStepKeepsInv(o: Outside, w: World, op: PageOp)
    requires Inv(o, w)
    ensures Inv(o, AfterPage(o, w, op, w.now))
  {
  }

  lemma DamageKeepsInv(o: Outside, w: World, k: Key)
    requires Inv(o, w) && k != ListVersionKey
    ensures Inv(o, w.(store := Damaged(w.store, k)))
  {
  }

  /** A store that keeps its counter and holds, apart from `k`, only entries it already had. */
  predicate ChangesOnly(store: Store, store': Store, k: Key) {
    && k != ListVersionKey
    && (forall x <- store' :: x != k ==> x in store && store'[x] == store[x])
    && (ListVersionKey in store ==> ListVersionKey in store')
  }

  predicate EntryWell(o: Outside, w: World, k: Key, e: Entry<CacheValue>)
    requires UniqueSlugs(w.db.articles)
  {
    match k
    case PageKey(slug) => PageEntryWell(w.pages, slug, e.value)
    case DetailKey(slug) => DetailEntryWell(w.db.articles, w.overtaken, slug, e)
    case ListKey(v, _, _, _, _) => ListEntryWell(o.sort, w.db.articles, k, e.value)
    case ListVersionKey => true
  }

  lemma ReadKeepsInv(o: Outside, w: World, store': Store, k: Key)
    requires Inv(o, w) && ChangesOnly(w.store, store', k)
    requires k.ListKey? ==> k.version == Version(w.store, w.now)
    requires k in store' && Live(store'[k], w.now) ==> EntryWell(o, w, k, store'[k])
    requires k in store' && store'[k].value == NotFoundMark ==>
      store'[k].expiry.Some? && store'[k].expiry.value <= w.now + 1000 * PUBLIC_CACHE_NOT_FOUND_TTL_SECONDS
    ensures Inv(o, w.(store := store'))
  {
    assert Version(store', w.now) == Version(w.store, w.now);
  }

  /** What a read finds in the cache is as good as a query, but for a sentinel lagging behind a rename. */
  lemma UsableIsWell(o: Outside, w: World, k: Key)
    requires Inv(o, w) && Usable(w.store, k, w.now) && k != ListVersionKey
    requires k.ListKey? ==> k.version == Version(w.store, w.now)
    ensures EntryWell(o, w, k, w.store[k])
  {
  }

  lemma ReadPageStep(o: Outside, w: World, slug: string)
    requires Inv(o, w)
    ensures FindPage(w.store, w.pages, slug, w.now).0 == QueryPage(w.pages, slug)
    ensures Inv(o, w.(store := FindPage(w.store, w.pages, slug, w.now).1))
  {
    var k := PageKey(slug);
    if Usable(w.store, k, w.now) {
      UsableIsWell(o, w, k);
    } else {
      ReadKeepsInv(o, w, FindPage(w.store, w.pages, slug, w.now).1, k);
    }
  }

  lemma ReadListStep(o: Outside, w: World, q: ListQuery)
    requires Inv(o, w) && Valid(q)
    ensures FindList(o.sort, w.store, w.db.articles, q, w.now).0 == QueryList(o.sort, w.db.articles, q)
    ensures Inv(o, w.(store := FindList(o.sort, w.store, w.db.articles, q, w.now).1))
  {
    var k := ListKeyOf(q, Version(w.store, w.now));
    KeyKeepsQuery(o.sort, w.db.articles, q, Version(w.store, w.now));
    if Usable(w.store, k, w.now) {
      UsableIsWell(o, w, k);
    } else {
      ReadKeepsInv(o, w, FindList(o.sort, w.store, w.db.articles, q, w.now).1, k);
    }
  }

  /** The one way a detail read can differ from the query: a rename overtook the sentinel still cached. */
  predicate SentinelLags(w: World, slug: string) {
    Marked(w.store, slug, w.now) && slug in w.overtaken
  }

  lemma ReadDetailStep(o: Outside, w: World, slug: string)
    requires Inv(o, w)
    ensures FindDetail(w.store, w.db.articles, slug, w.now).0 == QueryDetail(w.db.articles, slug)
            <==> !SentinelLags(w, slug)
    ensures SentinelLags(w, slug) ==>
              FindDetail(w.store, w.db.articles, slug, w.now).0 == Missing
              && w.now < w.overtaken[slug] + 1000 * PUBLIC_CACHE_NOT_FOUND_TTL_SECONDS
    ensures Inv(o, w.(store := FindDetail(w.store, w.db.articles, slug, w.now).1))
  {
    var k := DetailKey(slug);
    if Usable(w.store, k, w.now) {
      UsableIsWell(o, w, k);
    } else {
      ReadKeepsInv(o, w, FindDetail(w.store, w.db.articles, slug, w.now).1, k);
    }
  }

  lemma StepKeepsInv(o: Outside, w: World, e: Event, at: nat)
    requires Inv(o, w) && Enabled(w, e, at)
    ensures Inv(o, Next(o, w, e, at))
  {
    TimePasses(o, w, at);
    var w1 := w.(now := at);
    match e
    case News(op) => NewsKeepsInv(o, w1, op);
    case PageEvent(op) => PageStepKeepsInv(o, w1, op);
    case ReadPage(slug) => ReadPageStep(o, w1, slug);
    case ReadDetail(slug) => ReadDetailStep(o, w1, slug);
    case ReadList(q) => ReadListStep(o, w1, q);
    case Damage(k) => DamageKeepsInv(o, w1, k);
  }

  // ---------------------------------------------------------------- runs

  predicate ValidRun(o: Outside, w: World, events: seq<(Event, nat)>)
    requires Inv(o, w)
    decreases |events|
  {
    events == [] ||
    (Enabled(w, events[0].0, events[0].1)
     && (StepKeepsInv(o, w, events[0].0, events[0].1);
         ValidRun(o, Next(o, w, events[0].0, events[0].1), events[1..])))
  }

  /** The world after a run, which keeps the invariant. */
  function Run(o: Outside, w: World, events: seq<(Event, nat)>): (w': World)
    requires Inv(o, w) && ValidRun(o, w, events)
    ensures Inv(o, w')
    decreases |events|
  {
    if events == [] then w
    else
      StepKeepsInv(o, w, events[0].0, events[0].1);
      Run(o, Next(o, w, events[0].0, events[0].1), events[1..])
  }

  lemma EmptyIsWell(o: Outside)
    ensures Inv(o, EMPTY)
  {
  }

  /** The world a run from the empty one ends in, seen at a later moment. */
  ghost predicate Reaches(o: Outside, events: seq<(Event, nat)>, at: nat, w: World) {
    EmptyIsWell(o);
    ValidRun(o, EMPTY, events) && Run(o, EMPTY, events).now <= at && w == Run(o, EMPTY, events).(now := at)
  }

  lemma ReachedIsWell(o: Outside, events: seq<(Event, nat)>, at: nat, w: World)
    requires Reaches(o, events, at, w)
    ensures Inv(o, w) && w.now == at
  {
    EmptyIsWell(o);
    TimePasses(o, Run(o, EMPTY, events), at);
  }

  /** After any run, at any later moment, a cached page read answers exactly as the uncached query would. */
  lemma CachedPagesAgree(o: Outside, events: seq<(Event, nat)>, at: nat, w: World, slug: string)
    requires Reaches(o, events, at, w)
    ensures FindPage(w.store, w.pages, slug, at).0 == QueryPage(w.pages, slug)
  {
    ReachedIsWell(o, events, at, w);
    ReadPageStep(o, w, slug);
  }

  /** And so does a cached list read, for every query: the same rows and totals, or the same error. */
  lemma CachedListsAgree(o: Outside, events: seq<(Event, nat)>, at: nat, w: World, q: ListQuery)
    requires Reaches(o, events, at, w) && Valid(q)
    ensures FindList(o.sort, w.store, w.db.articles, q, at).0 == QueryList(o.sort, w.db.articles, q)
  {
    ReachedIsWell(o, events, at, w);
    ReadListStep(o, w, q);
  }

  /**
   * A cached detail read does too, except exactly while a not-found sentinel is cached that a rename has
   * overtaken: a published article was renamed to the slug when the sentinel was there already, and the
   * slug has not been invalidated since. The read then answers not-found, for less than 30 s in all.
   */
  lemma CachedDetailsAgree(o: Outside, events: seq<(Event, nat)>, at: nat, w: World, slug: string)
    requires Reaches(o, events, at, w)
    ensures UniqueSlugs(w.db.articles)
    ensures FindDetail(w.store, w.db.articles, slug, at).0 == QueryDetail(w.db.articles, slug) <==> !SentinelLags(w, slug)
    ensures SentinelLags(w, slug) ==>
              && FindDetail(w.store, w.db.articles, slug, at).0 == Missing
              && at < w.overtaken[slug] + 1000 * PUBLIC_CACHE_NOT_FOUND_TTL_SECONDS
  {
    ReachedIsWell(o, events, at, w);
    ReadDetailStep(o, w, slug);
  }

  function Rename(id: string, slug: string): Op {
    UpdateArticle(id, Some(slug), None, Absent, None)
  }

  /** The world after a lookup of `b` at `asked` that fills the cache, and a rename to `b` at `moved`. */
  lemma MarkOvertaken(o: Outside, w: World, id: string, b: string, asked: nat, moved: nat) returns (w2: World)
    requires Inv(o, w) && w.now <= asked <= moved && !Exists(w.store, DetailKey(b), asked)
    requires id in w.db.articles && Public(w.db.articles[id]) && b != "" && !SlugUsed(w.db.articles, b)
    ensures var w1 := Next(o, w, ReadDetail(b), asked);
            && Enabled(w1, News(Rename(id, b)), moved) && UniqueSlugs(w1.db.articles)
            && w2 == Next(o, w1, News(Rename(id, b)), moved)
    ensures UniqueSlugs(w2.db.articles) && QueryDetail(w2.db.articles, b) != Missing
    ensures DetailKey(b) in w2.store
            && w2.store[DetailKey(b)] == Entry(NotFoundMark, Some(asked + 1000 * PUBLIC_CACHE_NOT_FOUND_TTL_SECONDS))
  {
    assert QueryDetail(w.db.articles, b) == Missing;
    var w1 := Next(o, w, ReadDetail(b), asked);
    w2 := Next(o, w1, News(Rename(id, b)), moved);
    StepKeepsUniqueSlugs(o.env, w1.db, Rename(id, b));
    RenamedIsPublic(o, w1.db, Rename(id, b));
  }

  /**
   * The lag is real and as long as it can be: look up any unused slug `b`, and later rename a published
   * article to it. From then on, reads of `b` answer not-found exactly until the 30 s of the lookup's
   * sentinel are over, and afterwards as the query does, which finds the article throughout.
   */
  lemma RenameCanLag(o: Outside, w: World, id: string, b: string, asked: nat, moved: nat, at: nat) returns (w2: World)
    requires Inv(o, w) && w.now <= asked <= moved <= at && !Exists(w.store, DetailKey(b), asked)
    requires id in w.db.articles && Public(w.db.articles[id]) && b != "" && !SlugUsed(w.db.articles, b)
    ensures var w1 := Next(o, w, ReadDetail(b), asked);
            && Enabled(w1, News(Rename(id, b)), moved) && UniqueSlugs(w1.db.articles)
            && w2 == Next(o, w1, News(Rename(id, b)), moved)
    ensures UniqueSlugs(w2.db.articles) && QueryDetail(w2.db.articles, b) != Missing
    ensures FindDetail(w2.store, w2.db.articles, b, at).0
         == if at < asked + 1000 * PUBLIC_CACHE_NOT_FOUND_TTL_SECONDS then Missing else QueryDetail(w2.db.articles, b)
  {
    w2 := MarkOvertaken(o, w, id, b, asked, moved);
  }
}
