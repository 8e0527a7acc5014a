/** News articles and their cards (src/modules/news/news.service.ts). */
module NewsModule {
  import opened CardCompiler
  import opened CardContents
  import opened CardOrder
  import opened Common
  import opened Content
  import opened NewsModel
  import opened NewsRuns
  import opened PublicModel
  import opened PublicModule
  import opened Slugify

  function ErrorOf<T>(r: Result<T, Error>): Option<Error> {
    if r.Err? then Some(r.error) else None
  }

  class NewsService {
    const db: Database
    const publicService: PublicService
    const env: Env
    /** A string's `toLowerCase()`. */
    const lower: string -> string

    constructor (db: Database, publicService: PublicService, env: Env, lower: string -> string)
      ensures this.db == db && this.publicService == publicService && this.env == env && this.lower == lower
    {
      this.db, this.publicService, this.env, this.lower := db, publicService, env, lower;
    }

    /** What every operation keeps: unique slugs, and orders 0 .. n-1 in each article. */
    ghost predicate Valid()
      reads db
    {
      UniqueSlugs(db.articles) && Contiguous(db.cards)
    }

    /** The operation's error, its effect on both tables, and what it invalidates. */
    ghost predicate Performed(op: Op, error: Option<Error>, before: Db, after: Db, redis: Store, redis': Store, now: nat)
      requires FreshId(before, op)
    {
      && error == Failure(env, before, op)
      && after == Perform(env, before, op)
      && redis' == (if Invalidated(env, before, op).Some?
                    then InvalidateArticle(redis, Invalidated(env, before, op).value, now) else redis)
    }

    // -------------------------------------------------------------- articles

    /**
     * Creates a draft under the first free slug made from the given slug or else the title. It can fail
     * only if the banner code is refused or 20 candidates are taken; the public route serves the slug if
     * it has at most 100 characters.
     */
    method Create(id: string, givenSlug: Option<string>, suffix: string, fields: Fields, publishedAt: Option<nat>,
                  bannerCode: Option<string>)
      returns (slug: string, error: Option<Error>)
      requires Valid() && id !in db.articles && UuidHead(suffix)
      requires givenSlug.Some? ==> DtoAccepts(givenSlug.value)
      modifies db`articles
      ensures Valid()
      ensures Performed(CreateArticle(id, slug, fields, publishedAt, bannerCode), error,
                        old(db.NewsTables()), db.NewsTables(),
                        old(publicService.redis), publicService.redis, 0)
      ensures var base := BaseSlug(lower, givenSlug, fields.title);
              && Derived(base, suffix, slug)
              && ((exists k :: 0 <= k < SLUG_ATTEMPTS && !SlugUsed(old(db.articles), Candidate(base, k))) ==>
                    (error.None? <==> !BannerFails(env, bannerCode)))
      ensures FirstFree(if givenSlug.Some? then givenSlug.value else Slugify.Slugify(lower, fields.title), suffix,
                        SlugsOf(old(db.articles)), slug)
      ensures PipeAccepts(slug) <==> |slug| <= 100
    {
      var base := if givenSlug.Some? then givenSlug.value else Slugify.Slugify(lower, fields.title);
      ghost var op, before;
      before := db.NewsTables();
      var taken := SlugsOf(db.articles);
      slug := EnsureUniqueSlug(base, suffix, taken);
      StoredSlugReachable(lower, givenSlug, fields.title, suffix, slug);
      op := CreateArticle(id, slug, fields, publishedAt, bannerCode);
      StepKeepsUniqueSlugs(env, before, op);
      var banner := None;
      if bannerCode.Some? {
        banner := env.banner(bannerCode.value);
        if banner.None? {
          return slug, Some(BannerRefused);
        }
      }
      if slug in taken {
        return slug, Some(SlugInUse);
      }
      db.articles := db.articles[id := Article(slug, fields, DRAFT, publishedAt, None, None, banner)];
      error := None;
    }

    /** The row with the fields that are given, unless the banner code is refused. */
    method Patched(existing: Article, slug: string, newFields: Option<Fields>, newPublishedAt: Patch<nat>,
                   newBannerCode: Option<string>)
      returns (row: Option<Article>)
      ensures row.None? <==> BannerFails(env, newBannerCode)
      ensures row.Some? ==>
                row.value == Updated(env, existing, None, newFields, newPublishedAt, newBannerCode).(slug := slug)
    {
      var data := existing.(slug := slug);
      if newFields.Some? {
        data := data.(fields := newFields.value);
      }
      if !newPublishedAt.Absent? {
        data := data.(publishedAt := if newPublishedAt.Given? then Some(newPublishedAt.value) else None);
      }
      if newBannerCode.Some? {
        var banner := env.banner(newBannerCode.value);
        if banner.None? {
          return None;
        }
        data := data.(adBannerCode := banner);
      }
      row := Some(data);
    }

    method Update(id: string, newSlug: Option<string>, newFields: Option<Fields>, newPublishedAt: Patch<nat>,
                  newBannerCode: Option<string>, now: nat)
      returns (error: Option<Error>)
      requires Valid()
      modifies db`articles, publicService
      ensures Valid()
      ensures Performed(UpdateArticle(id, newSlug, newFields, newPublishedAt, newBannerCode), error,
                        old(db.NewsTables()), db.NewsTables(), old(publicService.redis), publicService.redis, now)
    {
      StepKeepsUniqueSlugs(env, db.NewsTables(), UpdateArticle(id, newSlug, newFields, newPublishedAt, newBannerCode));
      UpdateOutcome(env, db.NewsTables(), id, newSlug, newFields, newPublishedAt, newBannerCode);
      if !Visible(db.articles, id) {
        return Some(ArticleNotFound);
      }
      var existing := db.articles[id];
      var slug := existing.slug;
      if newSlug.Some? && newSlug.value != "" && newSlug.value != existing.slug {
        if SlugUsed(db.articles, newSlug.value) {
          return Some(SlugInUse);
        }
        slug := newSlug.value;
      }
      var row := Patched(existing, slug, newFields, newPublishedAt, newBannerCode);
      if row.None? {
        return Some(BannerRefused);
      }
      db.articles := db.articles[id := row.value];
      if existing.status == PUBLISHED {
        publicService.InvalidateNewsArticle(existing.slug, now);
      }
      error := None;
    }

    method SoftDelete(id: string, now: nat) returns (error: Option<Error>)
      requires Valid()
      modifies db`articles, publicService
      ensures Valid()
      ensures Performed(Op.SoftDelete(id, now), error, old(db.NewsTables()), db.NewsTables(),
                        old(publicService.redis), publicService.redis, now)
    {
      if !Visible(db.articles, id) {
        return Some(ArticleNotFound);
      }
      var existing := db.articles[id];
      db.articles := db.articles[id := existing.(deletedAt := Some(now))];
      if existing.status == PUBLISHED {
        publicService.InvalidateNewsArticle(existing.slug, now);
      }
      error := None;
    }

    method Publish(id: string, now: nat) returns (r: Result<Article, Error>)
      requires Valid()
      modifies db`articles, publicService
      ensures Valid()
      ensures Performed(Op.Publish(id, now), ErrorOf(r), old(db.NewsTables()), db.NewsTables(),
                        old(publicService.redis), publicService.redis, now)
      ensures r.Ok? ==> id in db.articles && r.value == db.articles[id]
    {
      PublishOutcome(env, db.NewsTables(), id, now);
      if !Visible(db.articles, id) {
        return Err(ArticleNotFound);
      }
      var existing := db.articles[id];
      var cards := Payloads(db.cards, id);
      var pubMap := BuildPublicationMap(db.articles, cards);
      if pubMap.Err? {
        return Err(MissingReferences(pubMap.error));
      }
      var compiled := CompileCards(env.renderer, pubMap.value, cards);
      if existing.status == PUBLISHED {
        return Err(AlreadyPublished);
      }
      var updated := existing.(
        status := PUBLISHED, publishedAt := Some(existing.publishedAt.GetOr(now)), body := Some(compiled));
      SameSlugKeepsUnique(db.articles, id, updated);
      db.articles := db.articles[id := updated];
      publicService.InvalidateNewsArticle(updated.slug, now);
      r := Ok(updated);
    }

    method RevertToDraft(id: string, now: nat) returns (r: Result<Article, Error>)
      requires Valid()
      modifies db`articles, publicService
      ensures Valid()
      ensures Performed(Revert(id), ErrorOf(r), old(db.NewsTables()), db.NewsTables(),
                        old(publicService.redis), publicService.redis, now)
      ensures r.Ok? ==> id in db.articles && r.value == db.articles[id]
    {
      r := Withdraw(id, DRAFT, now);
    }

    method Archive(id: string, now: nat) returns (r: Result<Article, Error>)
      requires Valid()
      modifies db`articles, publicService
      ensures Valid()
      ensures Performed(Op.Archive(id), ErrorOf(r), old(db.NewsTables()), db.NewsTables(),
                        old(publicService.redis), publicService.redis, now)
      ensures r.Ok? ==> id in db.articles && r.value == db.articles[id]
    {
      r := Withdraw(id, ARCHIVED, now);
    }

    /** The update guarded by `status = PUBLISHED` that reverting and archiving share. */
    method Withdraw(id: string, status: ContentStatus, now: nat) returns (r: Result<Article, Error>)
      requires Valid() && status != PUBLISHED
      modifies db`articles, publicService
      ensures Valid()
      ensures r.Err? ==> db.articles == old(db.articles) && publicService.redis == old(publicService.redis)
      ensures r.Err? ==> r.error == if Visible(old(db.articles), id) then NotPublished else ArticleNotFound
      ensures r.Ok? <==> Visible(old(db.articles), id) && old(db.articles)[id].status == PUBLISHED
      ensures r.Ok? ==> r.value == old(db.articles)[id].(status := status) && db.articles == old(db.articles)[id := r.value]
                        && publicService.redis == InvalidateArticle(old(publicService.redis), r.value.slug, now)
    {
      if !Visible(db.articles, id) {
        return Err(ArticleNotFound);
      }
      if db.articles[id].status != PUBLISHED {
        return Err(NotPublished);
      }
      var updated := db.articles[id].(status := status);
      SameSlugKeepsUnique(db.articles, id, updated);
      db.articles := db.articles[id := updated];
      publicService.InvalidateNewsArticle(updated.slug, now);
      r := Ok(updated);
    }

    // -------------------------------------------------------------- cards

    /** One INSERT, refused by the unique index on (articleId, order). */
    method InsertCard(id: string, card: Card) returns (ok: bool)
      requires id !in db.cards
      modifies db`cards
      ensures ok <==> UniqueOrders(old(db.cards)[id := card])
      ensures db.cards == if ok then old(db.cards)[id := card] else old(db.cards)
    {
      ok := UniqueOrders(db.cards[id := card]);
      if ok {
        db.cards := db.cards[id := card];
      }
    }

    /**
     * One UPDATE that gives each listed card its index, refused if its result breaks the unique index.
     * What a row-by-row check of the index would meet on the way is not modelled.
     */
    method PersistCardOrder(orderedCardIds: seq<string>) returns (ok: bool)
      modifies db`cards
      ensures ok <==> UniqueOrders(Renumber(old(db.cards), orderedCardIds))
      ensures db.cards == if ok then Renumber(old(db.cards), orderedCardIds) else old(db.cards)
    {
      if |orderedCardIds| == 0 {
        assert Renumber(db.cards, orderedCardIds) == db.cards;
        return true;
      }
      ok := UniqueOrders(Renumber(db.cards, orderedCardIds));
      if ok {
        db.cards := Renumber(db.cards, orderedCardIds);
      }
    }

    /** The two writes of an insertion; under contiguous orders the final state of each respects the index. */
    method InsertAndRenumber(articleId: string, data: CardData, insertIndex: nat, newId: string)
      requires Valid() && newId !in db.cards && insertIndex <= |ReadInOrder(db.cards, articleId)|
      modifies db`cards
      ensures db.cards == Inserted(old(db.cards), articleId, data, insertIndex, newId)
      ensures Contiguous(db.cards) && newId in db.cards && db.cards[newId] == Card(articleId, insertIndex, data)
    {
      var existingCards := ReadInOrder(db.cards, articleId);
      InsertedKeepsLists(db.cards, articleId, data, insertIndex, newId);
      TemporaryOrderIsFree(db.cards, articleId, data, newId);
      ghost var result := Inserted(db.cards, articleId, data, insertIndex, newId);
      var inserted := InsertCard(newId, Card(articleId, CARD_ORDER_TEMP_OFFSET + |existingCards|, data));
      assert inserted;
      var orderedCardIds := Splice(existingCards, insertIndex, 0, [newId]);
      assert orderedCardIds == InsertAt(existingCards, insertIndex, newId);
      var renumbered := PersistCardOrder(orderedCardIds);
      assert renumbered;
    }

    /** Inserts a card at the requested index, by default at the end. */
    method CreateCard(articleId: string, cardType: CardType, raw: string, order: Option<nat>, newId: string)
      returns (r: Result<Card, Error>)
      requires Valid() && newId !in db.cards
      modifies db`cards
      ensures Valid()
      ensures Performed(Op.CreateCard(articleId, cardType, raw, order, newId), ErrorOf(r),
                        old(db.NewsTables()), db.NewsTables(), old(publicService.redis), publicService.redis, 0)
      ensures r.Ok? ==> newId in db.cards && r.value == db.cards[newId] && r.value.articleId == articleId
                        && r.value.order == order.GetOr(|ReadInOrder(old(db.cards), articleId)|)
      ensures r.Ok? ==> env.parse(cardType, raw) == Some(r.value.data) && OthersSay(old(db.cards), db.cards, newId)
    {
      var validatedData := env.parse(cardType, raw);
      if validatedData.None? {
        return Err(InvalidCardData);
      }
      if ReferenceRefused(db.articles, articleId, validatedData.value) {
        return Err(BadReference);
      }
      var blocked := EditBlocked(db.articles, articleId);
      if blocked.Some? {
        return Err(blocked.value);
      }
      var existingCards := ReadInOrder(db.cards, articleId);
      var insertIndex := order.GetOr(|existingCards|);
      if insertIndex > |existingCards| {
        return Err(OrderOutOfBounds);
      }
      CardOpOutcome(env, db.NewsTables(), Op.CreateCard(articleId, cardType, raw, order, newId));
      OthersKeep(env, db.NewsTables(), Op.CreateCard(articleId, cardType, raw, order, newId));
      InsertAndRenumber(articleId, validatedData.value, insertIndex, newId);
      r := Ok(db.cards[newId]);
    }

    /** The move inside an update: take the card out of the list, put it back at `k`, renumber. */
    method MoveCard(articleId: string, cardId: string, k: nat)
      requires BelongsTo(db.cards, articleId, cardId) && k < |ReadInOrder(db.cards, articleId)|
      modifies db`cards
      ensures db.cards == Moved(old(db.cards), articleId, cardId, k)
    {
      var orderedCardIds := ReadInOrder(db.cards, articleId);
      MovedFacts(db.cards, articleId, cardId, k);
      SplicedMove(orderedCardIds, cardId, k);
      var currentIndex := IndexOf(orderedCardIds, cardId);
      orderedCardIds := Splice(orderedCardIds, currentIndex, 1, []);
      orderedCardIds := Splice(orderedCardIds, k, 0, [cardId]);
      var renumbered := PersistCardOrder(orderedCardIds);
      assert renumbered;
    }

    /** The new payload, if one is given; the card keeps its type. */
    method UpdateCardData(articleId: string, cardId: string, newRaw: Option<string>) returns (error: Option<Error>)
      requires BelongsTo(db.cards, articleId, cardId)
      modifies db`cards
      ensures error == DataFailure(env, db.articles, old(db.cards), articleId, cardId, newRaw)
      ensures db.cards == if error.None? then DataUpdated(env, old(db.cards), cardId, newRaw) else old(db.cards)
    {
      if newRaw.Some? {
        var validatedData := env.parse(TypeOf(db.cards[cardId].data), newRaw.value);
        if validatedData.None? {
          return Some(InvalidCardData);
        }
        if ReferenceRefused(db.articles, articleId, validatedData.value) {
          return Some(BadReference);
        }
        db.cards := WithData(db.cards, cardId, validatedData.value);
      }
      error := None;
    }

    /** What an update does inside its transaction, step by step. */
    method UpdateCardTx(articleId: string, cardId: string, newRaw: Option<string>, moveTo: Option<nat>)
      returns (error: Option<Error>)
      modifies db`cards
      ensures error == Failure(env, old(db.NewsTables()), Op.UpdateCard(articleId, cardId, newRaw, moveTo))
      ensures error.None? ==> db.cards == CardsAfter(env, old(db.NewsTables()), Op.UpdateCard(articleId, cardId, newRaw, moveTo))
    {
      var blocked := EditBlocked(db.articles, articleId);
      if blocked.Some? {
        return blocked;
      }
      if !BelongsTo(db.cards, articleId, cardId) {
        return Some(CardNotFound);
      }
      var card := db.cards[cardId];
      ghost var before := db.cards;
      error := UpdateCardData(articleId, cardId, newRaw);
      if error.Some? {
        return;
      }
      DataKeepsOrder(env, before, articleId, cardId, newRaw);
      error := MoveIfAsked(articleId, cardId, card.order, moveTo);
    }

    /** The order change of an update, for a card that was at index `order`. */
    method MoveIfAsked(articleId: string, cardId: string, order: nat, moveTo: Option<nat>) returns (error: Option<Error>)
      requires BelongsTo(db.cards, articleId, cardId)
      modifies db`cards
      ensures var moves := moveTo.Some? && moveTo.value != order;
              && (error.Some? <==> moves && moveTo.value >= |ReadInOrder(old(db.cards), articleId)|)
              && (error.Some? ==> error.value == OrderOutOfBounds)
              && (error.None? ==> db.cards == if moves then Moved(old(db.cards), articleId, cardId, moveTo.value)
                                              else old(db.cards))
    {
      if moveTo.Some? && moveTo.value != order {
        if moveTo.value >= |ReadInOrder(db.cards, articleId)| {
          return Some(OrderOutOfBounds);
        }
        MoveCard(articleId, cardId, moveTo.value);
      }
      error := None;
    }

    /** An error inside the transaction rolls back what it has written. */
    method UpdateCard(articleId: string, cardId: string, newRaw: Option<string>, moveTo: Option<nat>)
      returns (r: Result<Card, Error>)
      requires Valid()
      modifies db`cards
      ensures Valid()
      ensures Performed(Op.UpdateCard(articleId, cardId, newRaw, moveTo), ErrorOf(r),
                        old(db.NewsTables()), db.NewsTables(), old(publicService.redis), publicService.redis, 0)
      ensures r.Ok? ==> cardId in db.cards && r.value == db.cards[cardId] && r.value.articleId == articleId
      ensures r.Ok? && moveTo.Some? ==> r.value.order == moveTo.value
      ensures r.Ok? ==> cardId in old(db.cards) && OthersSay(old(db.cards), db.cards, cardId)
      ensures r.Ok? && newRaw.Some? ==>
                env.parse(TypeOf(old(db.cards)[cardId].data), newRaw.value) == Some(r.value.data)
      ensures r.Ok? && newRaw.None? ==> r.value.data == old(db.cards)[cardId].data
    {
      var saved := db.cards;
      CardOpOutcome(env, db.NewsTables(), Op.UpdateCard(articleId, cardId, newRaw, moveTo));
      ghost var before := db.NewsTables();
      var error := UpdateCardTx(articleId, cardId, newRaw, moveTo);
      if error.Some? {
        db.cards := saved;
        return Err(error.value);
      }
      UpdateCardOutcome(env, before, articleId, cardId, newRaw, moveTo);
      UpdateSays(env, before, articleId, cardId, newRaw, moveTo);
      r := Ok(db.cards[cardId]);
    }

    /** Deletes a card and closes the gap it leaves. */
    method DeleteCard(articleId: string, cardId: string) returns (error: Option<Error>)
      requires Valid()
      modifies db`cards
      ensures Valid()
      ensures Performed(Op.DeleteCard(articleId, cardId), error, old(db.NewsTables()), db.NewsTables(),
                        old(publicService.redis), publicService.redis, 0)
      ensures error.None? ==> cardId in old(db.cards) && cardId !in db.cards && OthersSay(old(db.cards), db.cards, cardId)
    {
      ghost var before := db.NewsTables();
      CardOpOutcome(env, before, Op.DeleteCard(articleId, cardId));
      var blocked := EditBlocked(db.articles, articleId);
      if blocked.Some? {
        return blocked;
      }
      if !BelongsTo(db.cards, articleId, cardId) {
        return Some(CardNotFound);
      }
      RemoveAndRenumber(articleId, cardId);
      CardOpRefinesEdit(env, before, Op.DeleteCard(articleId, cardId));
      OthersKeep(env, before, Op.DeleteCard(articleId, cardId));
      error := None;
    }

    method RemoveAndRenumber(articleId: string, cardId: string)
      requires BelongsTo(db.cards, articleId, cardId)
      modifies db`cards
      ensures db.cards == Deleted(old(db.cards), articleId, cardId)
    {
      DeletedFacts(db.cards, articleId, cardId);
      db.cards := Removed(db.cards, cardId);
      var remainingCards := ReadInOrder(db.cards, articleId);
      var renumbered := PersistCardOrder(remainingCards);
      assert renumbered;
    }

    /** The three checks of a submitted order, against the ids just read. */
    method CheckReorder(existing: seq<string>, cardIds: seq<string>) returns (ok: bool)
      ensures ok <==> NoDuplicates(cardIds) && forall id :: id in cardIds <==> id in existing
    {
      var existingIds := Elements(existing);
      ReorderAcceptsPermutations(existingIds, cardIds);
      if |Elements(cardIds)| != |cardIds| {
        return false;
      }
      if exists id <- cardIds :: id !in existingIds {
        return false;
      }
      ok := |cardIds| == |existingIds|;
    }

    /** Replaces the order; on success the cards read back are exactly the list that was asked for. */
    method ReorderCards(articleId: string, cardIds: seq<string>) returns (r: Result<seq<string>, Error>)
      requires Valid()
      modifies db`cards
      ensures Valid()
      ensures Performed(Op.ReorderCards(articleId, cardIds), ErrorOf(r), old(db.NewsTables()), db.NewsTables(),
                        old(publicService.redis), publicService.redis, 0)
      ensures r.Ok? ==> r.value == ReadInOrder(db.cards, articleId) && r.value == cardIds
      ensures r.Ok? ==> forall id :: OthersSay(old(db.cards), db.cards, id)
    {
      ghost var before := db.NewsTables();
      CardOpOutcome(env, before, Op.ReorderCards(articleId, cardIds));
      var blocked := EditBlocked(db.articles, articleId);
      if blocked.Some? {
        return Err(blocked.value);
      }
      ReadFacts(db.cards, articleId);
      ReorderReadsBack(env, before, articleId, cardIds);
      var accepted := CheckReorder(ReadInOrder(db.cards, articleId), cardIds);
      if !accepted {
        return Err(BadReorderList);
      }
      ReorderAccepted(env, before, articleId, cardIds);
      PermutedFacts(db.cards, articleId, cardIds);
      var renumbered := PersistCardOrder(cardIds);
      assert renumbered;
      CardOpRefinesEdit(env, before, Op.ReorderCards(articleId, cardIds));
      OthersKeep(env, before, Op.ReorderCards(articleId, cardIds));
      r := Ok(ReadInOrder(db.cards, articleId));
    }
  }
}
