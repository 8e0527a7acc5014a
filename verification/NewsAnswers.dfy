/**
 * What each operation on articles does to the columns, when exactly it succeeds, and what its error says
 * (src/modules/news/news.service.ts). NewsModule's methods do what NewsModel's functions say; here the
 * functions are measured against the table.
 */
module NewsAnswers {
  import opened CardCompiler
  import opened CardOrder
  import opened CardReading
  import opened Common
  import opened Content
  import opened NewsModel
  import opened NewsRuns

  predicate OthersSame(t: Articles, t': Articles, id: string) {
    t'.Keys == t.Keys + {id} && forall i <- t :: i != id ==> t'[i] == t[i]
  }

  predicate Present(t: Articles, id: string) {
    id in t && t[id].deletedAt.None?
  }

  predicate BannerAccepted(env: Env, code: Option<string>) {
    code.Some? ==> env.banner(code.value).Some?
  }

  /** A draft is created exactly if the banner code is accepted and no article, deleted or not, has the slug. */
  lemma CreateAnswer(
    env: Env, db: Db, id: string, slug: string, fields: Fields, publishedAt: Option<nat>, bannerCode: Option<string>)
    requires id !in db.articles
    ensures var op := CreateArticle(id, slug, fields, publishedAt, bannerCode);
            && (Failure(env, db, op).None? <==>
                  BannerAccepted(env, bannerCode) && forall i <- db.articles :: db.articles[i].slug != slug)
            && (Failure(env, db, op).None? ==>
                  var db' := Perform(env, db, op);
                  && db'.cards == db.cards && OthersSame(db.articles, db'.articles, id)
                  && var a := db'.articles[id];
                     && a.slug == slug && a.fields == fields && a.status == DRAFT && a.publishedAt == publishedAt
                     && a.deletedAt.None? && a.body.None?
                     && a.adBannerCode == (if bannerCode.None? then None else env.banner(bannerCode.value)))
            && Invalidated(env, db, op) == None
  {
  }

  predicate SlugOpen(t: Articles, id: string, newSlug: Option<string>) {
    newSlug.Some? && newSlug.value != "" ==> forall i <- t :: i != id ==> t[i].slug != newSlug.value
  }

  /** The row an update leaves, column by column. */
  predicate UpdatedRow(env: Env, a: Article, a': Article, newSlug: Option<string>, newFields: Option<Fields>,
                       newPublishedAt: Patch<nat>, newBannerCode: Option<string>)
  {
    && a'.status == a.status && a'.deletedAt == a.deletedAt && a'.body == a.body
    && (newSlug.Some? && newSlug.value != "" ==> a'.slug == newSlug.value)
    && (newSlug.None? || newSlug.value == "" ==> a'.slug == a.slug)
    && (newFields.Some? ==> a'.fields == newFields.value)
    && (newFields.None? ==> a'.fields == a.fields)
    && (newPublishedAt.Absent? ==> a'.publishedAt == a.publishedAt)
    && (newPublishedAt.Null? ==> a'.publishedAt.None?)
    && (newPublishedAt.Given? ==> a'.publishedAt == Some(newPublishedAt.value))
    && (newBannerCode.Some? ==> a'.adBannerCode == env.banner(newBannerCode.value))
    && (newBannerCode.None? ==> a'.adBannerCode == a.adBannerCode)
  }

  /**
   * An update succeeds exactly if the article is there, no other has the new slug, and the banner code
   * is accepted. It keeps every column that is not given, and drops the cache of the old slug exactly
   * if the article is published.
   */
  lemma UpdateAnswer(
    env: Env, db: Db, id: string, newSlug: Option<string>, newFields: Option<Fields>, newPublishedAt: Patch<nat>,
    newBannerCode: Option<string>)
    requires UniqueSlugs(db.articles)
    ensures var op := UpdateArticle(id, newSlug, newFields, newPublishedAt, newBannerCode);
            && (Failure(env, db, op).None? <==>
                  Present(db.articles, id) && SlugOpen(db.articles, id, newSlug) && BannerAccepted(env, newBannerCode))
            && (Failure(env, db, op).None? ==>
                  var db' := Perform(env, db, op);
                  && db'.cards == db.cards && OthersSame(db.articles, db'.articles, id)
                  && UpdatedRow(env, db.articles[id], db'.articles[id], newSlug, newFields, newPublishedAt, newBannerCode)
                  && Invalidated(env, db, op)
                     == (if db.articles[id].status == PUBLISHED then Some(db.articles[id].slug) else None))
  {
    UpdateOutcome(env, db, id, newSlug, newFields, newPublishedAt, newBannerCode);
    if Present(db.articles, id) && newSlug.Some? && newSlug.value != "" {
      assert SlugOpen(db.articles, id, newSlug) <==>
             newSlug.value == db.articles[id].slug || !SlugUsed(db.articles, newSlug.value);
    }
  }

  /** Deleting marks the row and keeps all else; the cache of a published article is dropped. */
  lemma DeleteAnswer(env: Env, db: Db, id: string, now: nat)
    ensures var op := SoftDelete(id, now);
            && (Failure(env, db, op).None? <==> Present(db.articles, id))
            && (Failure(env, db, op).None? ==>
                  var db' := Perform(env, db, op);
                  && db'.cards == db.cards && OthersSame(db.articles, db'.articles, id)
                  && DeletedRow(db.articles[id], db'.articles[id], now)
                  && Invalidated(env, db, op)
                     == (if db.articles[id].status == PUBLISHED then Some(db.articles[id].slug) else None))
  {
  }

  predicate DeletedRow(a: Article, a': Article, now: nat) {
    && a'.deletedAt == Some(now) && a'.slug == a.slug && a'.fields == a.fields && a'.status == a.status
    && a'.publishedAt == a.publishedAt && a'.body == a.body && a'.adBannerCode == a.adBannerCode
  }

  predicate StatusOnly(a: Article, a': Article, status: ContentStatus) {
    && a'.status == status && a'.slug == a.slug && a'.fields == a.fields && a'.deletedAt == a.deletedAt
    && a'.publishedAt == a.publishedAt && a'.body == a.body && a'.adBannerCode == a.adBannerCode
  }

  /** Reverting and archiving need a published article, change its status and nothing else, and drop its cache. */
  lemma WithdrawAnswer(env: Env, db: Db, id: string, op: Op)
    requires op == Revert(id) || op == Archive(id)
    ensures Failure(env, db, op).None? <==> Present(db.articles, id) && db.articles[id].status == PUBLISHED
    ensures Failure(env, db, op).None? ==>
              var db' := Perform(env, db, op);
              && db'.cards == db.cards && OthersSame(db.articles, db'.articles, id)
              && StatusOnly(db.articles[id], db'.articles[id], if op.Revert? then DRAFT else ARCHIVED)
              && Invalidated(env, db, op) == Some(db.articles[id].slug)
  {
  }

  /** Every referenced article is published and not deleted. */
  predicate ReferencesResolve(t: Articles, cards: seq<CardData>) {
    forall c <- cards | c.PublicationData? ::
      Present(t, c.articleId) && t[c.articleId].status == PUBLISHED
  }

  /** The map read at publish: title, cover image and slug of every referenced article. */
  predicate ReadsReferences(t: Articles, cards: seq<CardData>, pub: PublicationMap) {
    && (forall c <- cards | c.PublicationData? :: c.articleId in pub)
    && forall id <- pub :: id in t && pub[id].title == t[id].fields.title && pub[id].coverImage == t[id].fields.coverImage
                           && pub[id].slug == t[id].slug
  }

  lemma ResolvesExactly(t: Articles, cards: seq<CardData>)
    ensures var r := BuildPublicationMap(t, cards);
            && (r.Ok? <==> ReferencesResolve(t, cards))
            && (r.Ok? ==> ReadsReferences(t, cards, r.value) && References(cards) <= r.value.Keys)
  {
    PublicationMapComplete(t, cards);
    forall c <- cards | c.PublicationData? ensures c.articleId in References(cards) {}
  }

  /** The row a publish leaves: published, dated, and with a body that shows the cards; all else as before. */
  ghost predicate PublishedRow(r: Renderer, t: Articles, cards: seq<CardData>, a: Article, a': Article, now: nat) {
    && a'.status == PUBLISHED && a'.slug == a.slug && a'.fields == a.fields && a'.deletedAt == a.deletedAt
    && a'.adBannerCode == a.adBannerCode
    && a'.publishedAt == Some(if a.publishedAt.Some? then a.publishedAt.value else now)
    && a'.body.Some?
    && exists pub: PublicationMap :: ReadsReferences(t, cards, pub) && BodyShows(r, pub, cards, a'.body.value)
  }

  lemma BodyAtPublish(env: Env, db: Db, id: string, now: nat)
    requires Failure(env, db, Publish(id, now)).None?
    ensures PublishedRow(env.renderer, db.articles, Payloads(db.cards, id), db.articles[id], Published(env, db, id, now), now)
  {
    var cards := Payloads(db.cards, id);
    ResolvesExactly(db.articles, cards);
    var pub := BuildPublicationMap(db.articles, cards).value;
    CompiledBodyShows(env.renderer, pub, cards);
    PublishedIsRow(env, db, id, now, cards, pub);
  }

  lemma PublishSucceeds(env: Env, db: Db, id: string, now: nat)
    ensures Failure(env, db, Publish(id, now)) == PublishFailure(db, id)
    ensures PublishFailure(db, id).None? <==>
            && Present(db.articles, id) && db.articles[id].status != PUBLISHED
            && ReferencesResolve(db.articles, Payloads(db.cards, id))
  {
    ResolvesExactly(db.articles, Payloads(db.cards, id));
  }

  lemma PublishedIsRow(env: Env, db: Db, id: string, now: nat, cards: seq<CardData>, pub: PublicationMap)
    requires Failure(env, db, Publish(id, now)).None? && cards == Payloads(db.cards, id)
    requires BuildPublicationMap(db.articles, cards) == Ok(pub)
    requires ReadsReferences(db.articles, cards, pub) && BodyShows(env.renderer, pub, cards, Compile(env.renderer, pub, cards))
    ensures PublishedRow(env.renderer, db.articles, cards, db.articles[id], Published(env, db, id, now), now)
  {
  }

  /**
   * An article is published exactly if it is there, is not published, and every article its cards refer
   * to is published and not deleted. What its cards say can then be read in its body.
   */
  lemma PublishAnswer(env: Env, db: Db, id: string, now: nat)
    ensures var op := Publish(id, now);
            && (Failure(env, db, op).None? <==>
                  && Present(db.articles, id) && db.articles[id].status != PUBLISHED
                  && ReferencesResolve(db.articles, Payloads(db.cards, id)))
            && (Failure(env, db, op).None? ==>
                  var db' := Perform(env, db, op);
                  && db'.cards == db.cards && OthersSame(db.articles, db'.articles, id)
                  && PublishedRow(env.renderer, db.articles, Payloads(db.cards, id), db.articles[id], db'.articles[id], now)
                  && Invalidated(env, db, op) == Some(db.articles[id].slug))
  {
    PublishSucceeds(env, db, id, now);
    PublishOutcome(env, db, id, now);
    if Failure(env, db, Publish(id, now)).None? {
      BodyAtPublish(env, db, id, now);
    }
  }

  // ---------------------------------------------------------------- cards

  /** A card may refer to another article that is published and not deleted. */
  predicate MayRefer(t: Articles, a: string, data: CardData) {
    data.PublicationData? ==> data.articleId != a && Present(t, data.articleId) && t[data.articleId].status == PUBLISHED
  }

  predicate Editable(t: Articles, a: string) {
    Present(t, a) && t[a].status != PUBLISHED
  }

  /** When exactly a card can be created. */
  lemma CreateCardAnswer(env: Env, db: Db, a: string, cardType: CardType, raw: string, at: Option<nat>, newId: string)
    ensures Failure(env, db, CreateCard(a, cardType, raw, at, newId)).None? <==>
            && env.parse(cardType, raw).Some? && MayRefer(db.articles, a, env.parse(cardType, raw).value)
            && Editable(db.articles, a) && (at.Some? ==> at.value <= |CardIds(db.cards, a)|)
  {
    ReadFacts(db.cards, a);
  }

  lemma DataAccepted(env: Env, t: Articles, cards: Cards, a: string, card: string, newRaw: Option<string>)
    requires card in cards
    ensures DataFailure(env, t, cards, a, card, newRaw).None? <==>
            (newRaw.Some? ==>
               var data := env.parse(TypeOf(cards[card].data), newRaw.value);
               data.Some? && MayRefer(t, a, data.value))
  {
  }

  /** When exactly a card can be updated. */
  lemma UpdateCardAnswer(env: Env, db: Db, a: string, card: string, newRaw: Option<string>, moveTo: Option<nat>)
    ensures Failure(env, db, UpdateCard(a, card, newRaw, moveTo)).None? <==>
            && Editable(db.articles, a) && card in db.cards && db.cards[card].articleId == a
            && (newRaw.Some? ==>
                  var data := env.parse(TypeOf(db.cards[card].data), newRaw.value);
                  data.Some? && MayRefer(db.articles, a, data.value))
            && (moveTo.Some? && moveTo.value != db.cards[card].order ==> moveTo.value < |CardIds(db.cards, a)|)
  {
    ReadFacts(db.cards, a);
    if card in db.cards {
      DataAccepted(env, db.articles, db.cards, a, card, newRaw);
    }
  }

  /** When exactly a card can be deleted. */
  lemma DeleteCardAnswer(env: Env, db: Db, a: string, card: string)
    ensures Failure(env, db, DeleteCard(a, card)).None? <==>
            Editable(db.articles, a) && card in db.cards && db.cards[card].articleId == a
  {
  }

  // ---------------------------------------------------------------- errors

  /** The article an operation is about. */
  function Target(op: Op): string {
    match op
    case CreateArticle(id, _, _, _, _) => id
    case UpdateArticle(id, _, _, _, _) => id
    case SoftDelete(id, _) => id
    case Publish(id, _) => id
    case Revert(id) => id
    case Archive(id) => id
    case CreateCard(a, _, _, _, _) => a
    case UpdateCard(a, _, _, _) => a
    case DeleteCard(a, _) => a
    case ReorderCards(a, _) => a
  }

  /** The payload an operation is given, if it is one that its type accepts. */
  function Payload(env: Env, db: Db, op: Op): Option<CardData> {
    match op
    case CreateCard(_, cardType, raw, _, _) => env.parse(cardType, raw)
    case UpdateCard(_, card, newRaw, _) =>
      if card in db.cards && newRaw.Some? then env.parse(TypeOf(db.cards[card].data), newRaw.value) else None
    case _ => None
  }

  function BannerOf(op: Op): Option<string> {
    match op
    case CreateArticle(_, _, _, _, code) => code
    case UpdateArticle(_, _, _, _, code) => code
    case _ => None
  }

  /** What an error says about the tables. */
  ghost predicate Meant(env: Env, db: Db, op: Op, error: Error) {
    var t, id := db.articles, Target(op);
    match error
    case ArticleNotFound => !Present(t, id)
    case CardNotFound => (op.UpdateCard? || op.DeleteCard?) && !(op.card in db.cards && db.cards[op.card].articleId == id)
    case ArticleIsPublished => Present(t, id) && t[id].status == PUBLISHED
    case InvalidCardData => Payload(env, db, op).None?
    case BadReference => Payload(env, db, op).Some? && !MayRefer(t, id, Payload(env, db, op).value)
    case OrderOutOfBounds =>
      || (op.CreateCard? && op.at.Some? && op.at.value > |CardIds(db.cards, id)|)
      || (op.UpdateCard? && op.moveTo.Some? && op.moveTo.value >= |CardIds(db.cards, id)|)
    case BadReorderList =>
      op.ReorderCards? && !(NoDuplicates(op.ids) && forall x :: x in op.ids <==> x in CardIds(db.cards, id))
    case MissingReferences(ids) =>
      ids != {} && forall i :: i in ids <==> PublicationData(i) in Payloads(db.cards, id) && !(i in t && Public(t[i]))
    case AlreadyPublished => Present(t, id) && t[id].status == PUBLISHED
    case NotPublished => Present(t, id) && t[id].status != PUBLISHED
    case SlugInUse => exists i <- t :: i != id && ((op.CreateArticle? && t[i].slug == op.slug)
                                                   || (op.UpdateArticle? && op.newSlug == Some(t[i].slug)))
    case BannerRefused => !BannerAccepted(env, BannerOf(op))
  }

  lemma ReferencesAre(cards: seq<CardData>, id: string)
    ensures id in References(cards) <==> PublicationData(id) in cards
  {
  }

  /** Errors are truthful: whatever operation fails, its error describes the tables it has met. */
  lemma ErrorsAreTruthful(env: Env, db: Db, op: Op)
    requires UniqueSlugs(db.articles) && FreshId(db, op) && Failure(env, db, op).Some?
    ensures Meant(env, db, op, Failure(env, db, op).value)
  {
    if IsCardOp(op) {
      CardErrors(env, db, op);
    } else if op.Publish? {
      PublishErrors(env, db, op.id, op.now);
    } else {
      ArticleErrors(env, db, op);
    }
  }

  lemma CardErrors(env: Env, db: Db, op: Op)
    requires IsCardOp(op) && Failure(env, db, op).Some?
    ensures Meant(env, db, op, Failure(env, db, op).value)
  {
    match op
    case CreateCard(a, cardType, raw, at, newId) => CreateCardErrors(env, db, a, cardType, raw, at, newId);
    case UpdateCard(a, card, newRaw, moveTo) => UpdateCardErrors(env, db, a, card, newRaw, moveTo);
    case DeleteCard(_, _) =>
    case ReorderCards(a, ids) => ReorderAcceptsPermutations(CardIds(db.cards, a), ids);
  }

  lemma CreateCardErrors(env: Env, db: Db, a: string, cardType: CardType, raw: string, at: Option<nat>, newId: string)
    requires Failure(env, db, CreateCard(a, cardType, raw, at, newId)).Some?
    ensures var op := CreateCard(a, cardType, raw, at, newId);
            Meant(env, db, op, Failure(env, db, op).value)
  {
    ReadFacts(db.cards, a);
  }

  predicate DataRefused(env: Env, t: Articles, cards: Cards, a: string, card: string, newRaw: Option<string>, e: Error) {
    && card in cards && newRaw.Some?
    && var data := env.parse(TypeOf(cards[card].data), newRaw.value);
       if data.None? then e == InvalidCardData else e == BadReference && !MayRefer(t, a, data.value)
  }

  lemma DataErrors(env: Env, t: Articles, cards: Cards, a: string, card: string, newRaw: Option<string>)
    requires card in cards && DataFailure(env, t, cards, a, card, newRaw).Some?
    ensures DataRefused(env, t, cards, a, card, newRaw, DataFailure(env, t, cards, a, card, newRaw).value)
  {
  }

  predicate UpdateRefused(env: Env, db: Db, a: string, card: string, newRaw: Option<string>, moveTo: Option<nat>, e: Error) {
    || (e == ArticleNotFound && !Present(db.articles, a))
    || (e == ArticleIsPublished && Present(db.articles, a) && db.articles[a].status == PUBLISHED)
    || (e == CardNotFound && !(card in db.cards && db.cards[card].articleId == a))
    || DataRefused(env, db.articles, db.cards, a, card, newRaw, e)
    || (e == OrderOutOfBounds && moveTo.Some? && moveTo.value >= |CardIds(db.cards, a)|)
  }

  lemma UpdateCardRefused(env: Env, db: Db, a: string, card: string, newRaw: Option<string>, moveTo: Option<nat>)
    requires UpdateCardFailure(env, db, a, card, newRaw, moveTo).Some?
    ensures UpdateRefused(env, db, a, card, newRaw, moveTo, UpdateCardFailure(env, db, a, card, newRaw, moveTo).value)
  {
    ReadFacts(db.cards, a);
    if BelongsTo(db.cards, a, card) && DataFailure(env, db.articles, db.cards, a, card, newRaw).Some? {
      DataErrors(env, db.articles, db.cards, a, card, newRaw);
    }
  }

  lemma UpdateCardErrors(env: Env, db: Db, a: string, card: string, newRaw: Option<string>, moveTo: Option<nat>)
    requires Failure(env, db, UpdateCard(a, card, newRaw, moveTo)).Some?
    ensures var op := UpdateCard(a, card, newRaw, moveTo);
            Meant(env, db, op, Failure(env, db, op).value)
  {
    UpdateCardRefused(env, db, a, card, newRaw, moveTo);
    RefusedIsMeant(env, db, a, card, newRaw, moveTo, UpdateCardFailure(env, db, a, card, newRaw, moveTo).value);
  }

  lemma RefusedIsMeant(env: Env, db: Db, a: string, card: string, newRaw: Option<string>, moveTo: Option<nat>, e: Error)
    requires UpdateRefused(env, db, a, card, newRaw, moveTo, e)
    ensures Meant(env, db, UpdateCard(a, card, newRaw, moveTo), e)
  {
  }

  lemma PublishErrors(env: Env, db: Db, id: string, now: nat)
    requires Failure(env, db, Publish(id, now)).Some?
    ensures Meant(env, db, Publish(id, now), Failure(env, db, Publish(id, now)).value)
  {
    var cards := Payloads(db.cards, id);
    PublicationMapComplete(db.articles, cards);
    forall i ensures i in References(cards) <==> PublicationData(i) in cards {
      ReferencesAre(cards, i);
    }
  }

  lemma ArticleErrors(env: Env, db: Db, op: Op)
    requires UniqueSlugs(db.articles) && FreshId(db, op) && Failure(env, db, op).Some?
    requires op.CreateArticle? || op.UpdateArticle? || op.SoftDelete? || op.Revert? || op.Archive?
    ensures Meant(env, db, op, Failure(env, db, op).value)
  {
  }
}
