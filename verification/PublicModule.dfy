/** The public read service over the database and the cache (src/modules/public/public.service.ts). */
module PublicModule {
  import opened CacheKeys
  import opened Common
  import opened Content
  import opened NewsModel
  import opened PublicModel
  import opened Redis

  /** The tables, as the database client reaches them. */
  class Database {
    var articles: Articles
    var cards: CardTable
    var pages: Pages

    constructor ()
      ensures articles == map[] && cards == map[] && pages == map[]
    {
      articles, cards, pages := map[], map[], map[];
    }

    function NewsTables(): Db
      reads this
    {
      Db(articles, cards)
    }
  }

  class PublicService {
    const db: Database
    const sort: Sort
    var redis: Store

    constructor (db: Database, sort: Sort)
      ensures this.db == db && this.sort == sort && redis == map[]
    {
      this.db, this.sort, redis := db, sort, map[];
    }

    method FindPublishedPage(slug: string, now: nat) returns (answer: Outcome<PublicPage>)
      modifies this
      ensures (answer, redis) == FindPage(old(redis), db.pages, slug, now)
    {
      var cacheKey := PageKey(slug);
      var cached: Option<CacheValue> := Get(redis, cacheKey, now);
      if cached.Some? {
        match cached.value {
          case NotFoundMark => return Missing;
          case PageJson(page) => return Found(page);
          case Corrupt => redis := redis - {cacheKey};
          case _ => return Mistyped;
        }
      }
      if slug !in db.pages || db.pages[slug].status != PUBLISHED {
        redis := SetEx(redis, cacheKey, NotFoundMark, PUBLIC_CACHE_NOT_FOUND_TTL_SECONDS, now);
        return Missing;
      }
      var row := db.pages[slug];
      if row.publishedAt.None? {
        return Crashed;
      }
      var result := PublicPage(row.id, slug, row.name, row.publishedAt.value, SectionsInOrder(row.sections));
      redis := SetEx(redis, cacheKey, PageJson(result), PUBLIC_CACHE_TTL_SECONDS, now);
      answer := Found(result);
    }

    method FindPublishedNewsList(q: ListQuery, now: nat) returns (answer: Outcome<NewsList>)
      requires Valid(q)
      modifies this
      ensures (answer, redis) == FindList(sort, old(redis), db.articles, q, now)
    {
      var version := Version(redis, now);
      var cacheKey := ListKeyOf(q, version);
      var cached: Option<CacheValue> := Get(redis, cacheKey, now);
      if cached.Some? {
        match cached.value {
          case ListJson(list) => return Found(list);
          case Corrupt => redis := redis - {cacheKey};
          case _ => return Mistyped;
        }
      }
      var rows := QueryRows(sort, db.articles, q);
      var total := QueryTotal(sort, db.articles, q);
      answer := BuildList(q, rows, total);
      if answer.Found? {
        redis := SetEx(redis, cacheKey, ListJson(answer.value), PUBLIC_CACHE_TTL_SECONDS, now);
      }
    }

    method FindPublishedNewsBySlug(slug: string, now: nat) returns (answer: Outcome<NewsDetail>)
      requires UniqueSlugs(db.articles)
      modifies this
      ensures (answer, redis) == FindDetail(old(redis), db.articles, slug, now)
    {
      var cacheKey := DetailKey(slug);
      var cached: Option<CacheValue> := Get(redis, cacheKey, now);
      if cached.Some? {
        match cached.value {
          case NotFoundMark => return Missing;
          case DetailJson(detail) => return Found(detail);
          case Corrupt => redis := redis - {cacheKey};
          case _ => return Mistyped;
        }
      }
      answer := QueryDetail(db.articles, slug);
      if answer.Missing? {
        redis := SetEx(redis, cacheKey, NotFoundMark, PUBLIC_CACHE_NOT_FOUND_TTL_SECONDS, now);
      } else if answer.Found? {
        redis := SetEx(redis, cacheKey, DetailJson(answer.value), PUBLIC_CACHE_TTL_SECONDS, now);
      }
    }

    method InvalidatePage(slug: string)
      modifies this
      ensures redis == old(redis) - {PageKey(slug)}
    {
      redis := redis - {PageKey(slug)};
    }

    method InvalidateNewsArticle(slug: string, now: nat)
      modifies this
      ensures redis == InvalidateArticle(old(redis), slug, now)
      ensures Version(redis, now) == Version(old(redis), now) + 1
      ensures forall k <- redis :: k != ListVersionKey ==> k != DetailKey(slug) && k in old(redis) && redis[k] == old(redis)[k]
      ensures forall k <- old(redis) :: k != ListVersionKey && k != DetailKey(slug) ==> k in redis
    {
      redis := redis - {DetailKey(slug)};
      InvalidateAllNewsLists(now);
      assert Version(redis, now) == Version(old(redis), now) + 1;
    }

    method InvalidateAllNewsLists(now: nat)
      modifies this
      ensures redis == BumpVersion(old(redis), now)
    {
      redis := BumpVersion(redis, now);
    }
  }
}
