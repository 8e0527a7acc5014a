/**
 * What each operation of src/modules/news/news.service.ts does to the articles and cards tables when it
 * runs whole.
 */
module NewsModel {
  import opened CardCompiler
  import opened CardOrder
  import opened Common
  import opened Content

  /** The cards table under its unique index on (articleId, order). */
  type CardTable = t: Cards | UniqueOrders(t) witness map[]

  datatype Db = Db(articles: Articles, cards: CardTable)

  /**
   * Payload validation and banner normalisation (`normalizeAdBannerCode`), where None stands for a
   * rejected value, and document rendering, from outside.
   */
  datatype Env = Env(
    parse: (CardType, string) -> Option<CardData>, banner: string -> Option<string>, renderer: Renderer)

  datatype Error =
    | ArticleNotFound | CardNotFound
    | ArticleIsPublished      // cards of a published article may not be edited
    | InvalidCardData | BadReference | OrderOutOfBounds | BadReorderList
    | MissingReferences(ids: set<string>)
    | AlreadyPublished | NotPublished
    | SlugInUse | BannerRefused

  const CARD_ORDER_TEMP_OFFSET: nat := 1_000_000

  // ---------------------------------------------------------------- guards

  predicate Visible(articles: Articles, id: string) {
    id in articles && articles[id].deletedAt.None?
  }

  /** Why the cards of an article may not be edited. */
  function EditBlocked(articles: Articles, a: string): Option<Error> {
    if !Visible(articles, a) then Some(ArticleNotFound)
    else if articles[a].status == PUBLISHED then Some(ArticleIsPublished)
    else None
  }

  /** `assertPublicationCardReference` throws. */
  predicate ReferenceRefused(articles: Articles, a: string, data: CardData) {
    data.PublicationData? &&
    (data.articleId == a || data.articleId !in articles || !Public(articles[data.articleId]))
  }

  // ---------------------------------------------------------------- card edits

  lemma RenumberUnique(t: Cards, a: string, ids: seq<string>)
    requires NoDuplicates(ids) && forall x :: x in ids <==> x in CardIds(t, a)
    requires forall i, j | i in t && j in t && t[i].articleId == t[j].articleId != a && t[i].order == t[j].order :: i == j
    ensures UniqueOrders(Renumber(t, ids))
  {
    RenumberLists(t, a, ids);
    var t' := Renumber(t, ids);
    forall i, j | i in t' && j in t' && t'[i].articleId == t'[j].articleId && t'[i].order == t'[j].order
      ensures i == j
    {
      if t'[i].articleId == a {
        assert ids[t'[i].order] == i && ids[t'[j].order] == j;
      } else {
        assert t'[i] == t[i] && t'[j] == t[j];
      }
    }
  }

  lemma ReadFacts(t: CardTable, a: string)
    ensures NoDuplicates(ReadInOrder(t, a)) && |ReadInOrder(t, a)| == |CardIds(t, a)|
    ensures forall x :: x in ReadInOrder(t, a) <==> x in CardIds(t, a)
  {
    var s := ReadInOrder(t, a);
    forall i, j | 0 <= i < j < |s| ensures s[i] != s[j] {
      assert s[i] in s && s[j] in s;
      assert t[s[i]].order < t[s[j]].order;
    }
  }

  /** The row as first inserted, at an order beyond all others. */
  function WithTemporary(t: CardTable, a: string, data: CardData, newId: string): Cards {
    t[newId := Card(a, CARD_ORDER_TEMP_OFFSET + |ReadInOrder(t, a)|, data)]
  }

  lemma TemporaryIds(t: CardTable, a: string, data: CardData, newId: string)
    requires newId !in t
    ensures CardIds(WithTemporary(t, a, data, newId), a) == CardIds(t, a) + {newId}
  {
  }

  lemma InsertionList(t: CardTable, a: string, data: CardData, k: nat, newId: string)
    requires newId !in t && k <= |ReadInOrder(t, a)|
    ensures var ids := InsertAt(ReadInOrder(t, a), k, newId);
            NoDuplicates(ids) && forall x :: x in ids <==> x in CardIds(WithTemporary(t, a, data, newId), a)
  {
    var s := ReadInOrder(t, a);
    ReadFacts(t, a);
    TemporaryIds(t, a, data, newId);
    assert newId !in s;
    InsertFacts(s, k, newId);
  }

  /** The table with a new card at index `k` of its article. */
  function Inserted(t: CardTable, a: string, data: CardData, k: nat, newId: string): CardTable
    requires newId !in t && k <= |ReadInOrder(t, a)|
  {
    InsertionList(t, a, data, k, newId);
    RenumberUnique(WithTemporary(t, a, data, newId), a, InsertAt(ReadInOrder(t, a), k, newId));
    Renumber(WithTemporary(t, a, data, newId), InsertAt(ReadInOrder(t, a), k, newId))
  }

  predicate BelongsTo(t: Cards, a: string, id: string) {
    id in t && t[id].articleId == a
  }

  function WithData(t: CardTable, id: string, data: CardData): CardTable
    requires id in t
  {
    t[id := t[id].(data := data)]
  }

  /** Why a new payload is refused. */
  function DataFailure(env: Env, articles: Articles, t: Cards, a: string, card: string, newRaw: Option<string>): Option<Error>
    requires card in t
  {
    if newRaw.None? then None
    else
      var data := env.parse(TypeOf(t[card].data), newRaw.value);
      if data.None? then Some(InvalidCardData)
      else if ReferenceRefused(articles, a, data.value) then Some(BadReference) else None
  }

  function DataUpdated(env: Env, t: CardTable, card: string, newRaw: Option<string>): CardTable
    requires card in t
    requires newRaw.Some? ==> env.parse(TypeOf(t[card].data), newRaw.value).Some?
  {
    if newRaw.Some? then WithData(t, card, env.parse(TypeOf(t[card].data), newRaw.value).value) else t
  }

  lemma DataKeepsOrder(env: Env, t: CardTable, a: string, card: string, newRaw: Option<string>)
    requires card in t
    requires newRaw.Some? ==> env.parse(TypeOf(t[card].data), newRaw.value).Some?
    ensures var t' := DataUpdated(env, t, card, newRaw);
            && ReadInOrder(t', a) == ReadInOrder(t, a)
            && card in t' && t'[card].articleId == t[card].articleId && t'[card].order == t[card].order
  {
    SameOrders(t, DataUpdated(env, t, card, newRaw), a);
  }

  function Moved(t: CardTable, a: string, id: string, k: nat): CardTable
    requires BelongsTo(t, a, id) && k < |ReadInOrder(t, a)|
  {
    ReadFacts(t, a);
    MoveFacts(ReadInOrder(t, a), id, k);
    RenumberUnique(t, a, MoveTo(ReadInOrder(t, a), id, k));
    Renumber(t, MoveTo(ReadInOrder(t, a), id, k))
  }

  function Removed(t: CardTable, id: string): CardTable {
    t - {id}
  }

  function Deleted(t: CardTable, a: string, id: string): CardTable
    requires BelongsTo(t, a, id)
  {
    ReadFacts(Removed(t, id), a);
    RenumberUnique(Removed(t, id), a, ReadInOrder(Removed(t, id), a));
    Renumber(Removed(t, id), ReadInOrder(Removed(t, id), a))
  }

  function Permuted(t: CardTable, a: string, ids: seq<string>): CardTable
    requires AcceptsReorder(CardIds(t, a), ids)
  {
    ReorderAcceptsPermutations(CardIds(t, a), ids);
    RenumberUnique(t, a, ids);
    Renumber(t, ids)
  }

  /** The payloads of an article's cards, in order. */
  function Payloads(t: CardTable, a: string): seq<CardData> {
    ReadFacts(t, a);
    var s := ReadInOrder(t, a);
    seq(|s|, i requires 0 <= i < |s| => (assert s[i] in s; t[s[i]].data))
  }

  lemma MovedFacts(t: CardTable, a: string, id: string, k: nat)
    requires BelongsTo(t, a, id) && k < |ReadInOrder(t, a)|
    ensures var s := ReadInOrder(t, a);
            && id in s && NoDuplicates(s) && Moved(t, a, id, k) == Renumber(t, MoveTo(s, id, k))
  {
    ReadFacts(t, a);
  }

  lemma DeletedFacts(t: CardTable, a: string, id: string)
    requires BelongsTo(t, a, id)
    ensures Deleted(t, a, id) == Renumber(Removed(t, id), ReadInOrder(Removed(t, id), a))
    ensures UniqueOrders(Renumber(Removed(t, id), ReadInOrder(Removed(t, id), a)))
  {
    var t': CardTable := Deleted(t, a, id);
  }

  lemma PermutedFacts(t: CardTable, a: string, ids: seq<string>)
    requires AcceptsReorder(CardIds(t, a), ids)
    ensures UniqueOrders(Renumber(t, ids)) && Permuted(t, a, ids) == Renumber(t, ids)
  {
    var t': CardTable := Permuted(t, a, ids);
  }

  // ---------------------------------------------------------------- operations

  datatype Op =
    | CreateArticle(id: string, slug: string, fields: Fields, publishedAt: Option<nat>, bannerCode: Option<string>)
    | UpdateArticle(id: string, newSlug: Option<string>, newFields: Option<Fields>, newPublishedAt: Patch<nat>,
                    newBannerCode: Option<string>)
    | SoftDelete(id: string, now: nat)
    | Publish(id: string, now: nat)
    | Revert(id: string)
    | Archive(id: string)
    | CreateCard(article: string, cardType: CardType, raw: string, at: Option<nat>, newId: string)
    | UpdateCard(article: string, card: string, newRaw: Option<string>, moveTo: Option<nat>)
    | DeleteCard(article: string, card: string)
    | ReorderCards(article: string, ids: seq<string>)

  predicate SlugUsed(articles: Articles, slug: string) {
    exists id <- articles :: articles[id].slug == slug
  }

  /** The slugs in use, those of deleted articles included. */
  function SlugsOf(articles: Articles): (slugs: set<string>)
    ensures forall s :: s in slugs <==> SlugUsed(articles, s)
  {
    set id | id in articles :: articles[id].slug
  }

  /** The slug an update leaves: a given, non-empty slug replaces the old one. */
  function SlugAfter(a: Article, newSlug: Option<string>): string {
    if newSlug.Some? && newSlug.value != "" then newSlug.value else a.slug
  }

  function PatchTime(p: Patch<nat>, old': Option<nat>): Option<nat> {
    match p
    case Absent => old'
    case Null => None
    case Given(v) => Some(v)
  }

  /** A banner code is given and refused. */
  predicate BannerFails(env: Env, code: Option<string>) {
    code.Some? && env.banner(code.value).None?
  }

  /** The banner code stored: the given one, normalised, or else the one there was. */
  function BannerAfter(env: Env, code: Option<string>, before: Option<string>): Option<string> {
    if code.Some? then env.banner(code.value) else before
  }

  function UpdateFailure(env: Env, articles: Articles, id: string, newSlug: Option<string>, banner: Option<string>)
    : Option<Error>
  {
    if !Visible(articles, id) then Some(ArticleNotFound)
    else
      var slug := SlugAfter(articles[id], newSlug);
      if slug != articles[id].slug && SlugUsed(articles, slug) then Some(SlugInUse)
      else if BannerFails(env, banner) then Some(BannerRefused)
      else None
  }

  function PublishFailure(db: Db, id: string): Option<Error> {
    if !Visible(db.articles, id) then Some(ArticleNotFound)
    else
      var pub := BuildPublicationMap(db.articles, Payloads(db.cards, id));
      if pub.Err? then Some(MissingReferences(pub.error))
      else if db.articles[id].status == PUBLISHED then Some(AlreadyPublished)
      else None
  }

  /** Why a published article is not reverted or archived. */
  function WithdrawFailure(articles: Articles, id: string): Option<Error> {
    if !Visible(articles, id) then Some(ArticleNotFound)
    else if articles[id].status != PUBLISHED then Some(NotPublished) else None
  }

  function CreateCardFailure(env: Env, db: Db, a: string, cardType: CardType, raw: string, at: Option<nat>): Option<Error> {
    var data := env.parse(cardType, raw);
    if data.None? then Some(InvalidCardData)
    else if ReferenceRefused(db.articles, a, data.value) then Some(BadReference)
    else if EditBlocked(db.articles, a).Some? then EditBlocked(db.articles, a)
    else if at.Some? && at.value > |ReadInOrder(db.cards, a)| then Some(OrderOutOfBounds)
    else None
  }

  function UpdateCardFailure(env: Env, db: Db, a: string, card: string, newRaw: Option<string>, moveTo: Option<nat>)
    : Option<Error>
  {
    if EditBlocked(db.articles, a).Some? then EditBlocked(db.articles, a)
    else if !BelongsTo(db.cards, a, card) then Some(CardNotFound)
    else
      var refused := DataFailure(env, db.articles, db.cards, a, card, newRaw);
      if refused.Some? then refused
      else if moveTo.Some? && moveTo.value != db.cards[card].order && moveTo.value >= |ReadInOrder(db.cards, a)|
        then Some(OrderOutOfBounds)
      else None
  }

  /** The error an operation ends with, if any; it then leaves both tables alone. */
  function Failure(env: Env, db: Db, op: Op): Option<Error> {
    match op
    case CreateArticle(_, slug, _, _, banner) =>
      if BannerFails(env, banner) then Some(BannerRefused)
      else if SlugUsed(db.articles, slug) then Some(SlugInUse) else None
    case UpdateArticle(id, newSlug, _, _, banner) => UpdateFailure(env, db.articles, id, newSlug, banner)
    case SoftDelete(id, _) => if Visible(db.articles, id) then None else Some(ArticleNotFound)
    case Publish(id, _) => PublishFailure(db, id)
    case Revert(id) => WithdrawFailure(db.articles, id)
    case Archive(id) => WithdrawFailure(db.articles, id)
    case CreateCard(a, cardType, raw, at, _) => CreateCardFailure(env, db, a, cardType, raw, at)
    case UpdateCard(a, card, newRaw, moveTo) => UpdateCardFailure(env, db, a, card, newRaw, moveTo)
    case DeleteCard(a, card) =>
      if EditBlocked(db.articles, a).Some? then EditBlocked(db.articles, a)
      else if !BelongsTo(db.cards, a, card) then Some(CardNotFound)
      else None
    case ReorderCards(a, ids) =>
      if EditBlocked(db.articles, a).Some? then EditBlocked(db.articles, a)
      else if !AcceptsReorder(CardIds(db.cards, a), ids) then Some(BadReorderList)
      else None
  }

  /** Generated ids are new. */
  predicate FreshId(db: Db, op: Op) {
    && (op.CreateArticle? ==> op.id !in db.articles)
    && (op.CreateCard? ==> op.newId !in db.cards)
  }

  function Published(env: Env, db: Db, id: string, now: nat): Article
    requires Failure(env, db, Publish(id, now)).None?
  {
    var pub := BuildPublicationMap(db.articles, Payloads(db.cards, id)).value;
    db.articles[id].(
      status := PUBLISHED,
      publishedAt := Some(db.articles[id].publishedAt.GetOr(now)),
      body := Some(Compile(env.renderer, pub, Payloads(db.cards, id))))
  }

  function Updated(env: Env, a: Article, newSlug: Option<string>, newFields: Option<Fields>, newPublishedAt: Patch<nat>,
                   newBannerCode: Option<string>): Article
  {
    a.(slug := SlugAfter(a, newSlug), fields := newFields.GetOr(a.fields),
       publishedAt := PatchTime(newPublishedAt, a.publishedAt),
       adBannerCode := BannerAfter(env, newBannerCode, a.adBannerCode))
  }

  /** A card's new payload, then its move. */
  function CardUpdated(env: Env, t: CardTable, a: string, card: string, newRaw: Option<string>, moveTo: Option<nat>)
    : CardTable
    requires BelongsTo(t, a, card)
    requires newRaw.Some? ==> env.parse(TypeOf(t[card].data), newRaw.value).Some?
    requires moveTo.Some? && moveTo.value != t[card].order ==> moveTo.value < |ReadInOrder(t, a)|
  {
    DataKeepsOrder(env, t, a, card, newRaw);
    var t1 := DataUpdated(env, t, card, newRaw);
    if moveTo.Some? && moveTo.value != t[card].order then Moved(t1, a, card, moveTo.value) else t1
  }

  predicate IsCardOp(op: Op) {
    op.CreateCard? || op.UpdateCard? || op.DeleteCard? || op.ReorderCards?
  }

  function ArticlesAfter(env: Env, db: Db, op: Op): Articles
    requires Failure(env, db, op).None?
  {
    match op
    case CreateArticle(id, slug, fields, at, banner) =>
      db.articles[id := Article(slug, fields, DRAFT, at, None, None, BannerAfter(env, banner, None))]
    case UpdateArticle(id, newSlug, newFields, newPublishedAt, banner) =>
      db.articles[id := Updated(env, db.articles[id], newSlug, newFields, newPublishedAt, banner)]
    case SoftDelete(id, now) => db.articles[id := db.articles[id].(deletedAt := Some(now))]
    case Publish(id, now) => db.articles[id := Published(env, db, id, now)]
    case Revert(id) => db.articles[id := db.articles[id].(status := DRAFT)]
    case Archive(id) => db.articles[id := db.articles[id].(status := ARCHIVED)]
    case _ => db.articles
  }

  function CardsAfter(env: Env, db: Db, op: Op): CardTable
    requires Failure(env, db, op).None? && FreshId(db, op)
  {
    match op
    case CreateCard(a, cardType, raw, at, newId) =>
      Inserted(db.cards, a, env.parse(cardType, raw).value, at.GetOr(|ReadInOrder(db.cards, a)|), newId)
    case UpdateCard(a, card, newRaw, moveTo) => CardUpdated(env, db.cards, a, card, newRaw, moveTo)
    case DeleteCard(a, card) => Deleted(db.cards, a, card)
    case ReorderCards(a, ids) => Permuted(db.cards, a, ids)
    case _ => db.cards
  }

  function Perform(env: Env, db: Db, op: Op): Db
    requires FreshId(db, op)
  {
    if Failure(env, db, op).Some? then db else Db(ArticlesAfter(env, db, op), CardsAfter(env, db, op))
  }

  /** A card operation that fails changes nothing; none touches articles or the cache. */
  lemma CardOpOutcome(env: Env, db: Db, op: Op)
    requires IsCardOp(op) && FreshId(db, op)
    ensures Invalidated(env, db, op).None? && Perform(env, db, op).articles == db.articles
    ensures Perform(env, db, op).cards == if Failure(env, db, op).None? then CardsAfter(env, db, op) else db.cards
  {
  }

  /** The slug whose cached article, together with all cached lists, an operation invalidates. */
  function Invalidated(env: Env, db: Db, op: Op): Option<string> {
    if Failure(env, db, op).Some? then None
    else
      match op
      case UpdateArticle(id, _, _, _, _) => if db.articles[id].status == PUBLISHED then Some(db.articles[id].slug) else None
      case SoftDelete(id, _) => if db.articles[id].status == PUBLISHED then Some(db.articles[id].slug) else None
      case Publish(id, _) => Some(db.articles[id].slug)
      case Revert(id) => Some(db.articles[id].slug)
      case Archive(id) => Some(db.articles[id].slug)
      case _ => None
  }

  /** The slug checks keep slugs unique. */
  lemma StepKeepsUniqueSlugs(env: Env, db: Db, op: Op)
    requires FreshId(db, op) && UniqueSlugs(db.articles)
    ensures UniqueSlugs(Perform(env, db, op).articles)
  {
  }

  /** What an update that succeeds writes and invalidates; one that fails does nothing. */
  lemma UpdateOutcome(
    env: Env, db: Db, id: string, newSlug: Option<string>, newFields: Option<Fields>, newPublishedAt: Patch<nat>,
    newBannerCode: Option<string>)
    ensures var op := UpdateArticle(id, newSlug, newFields, newPublishedAt, newBannerCode);
            && Failure(env, db, op) == UpdateFailure(env, db.articles, id, newSlug, newBannerCode)
            && (Failure(env, db, op).Some? ==> Perform(env, db, op) == db && Invalidated(env, db, op) == None)
    ensures var op := UpdateArticle(id, newSlug, newFields, newPublishedAt, newBannerCode);
            Failure(env, db, op).None? ==>
              && Perform(env, db, op).articles
                 == db.articles[id := Updated(env, db.articles[id], newSlug, newFields, newPublishedAt, newBannerCode)]
              && Perform(env, db, op).cards == db.cards
              && Invalidated(env, db, op)
                 == (if db.articles[id].status == PUBLISHED then Some(db.articles[id].slug) else None)
  {
  }

  lemma SameSlugKeepsUnique(articles: Articles, id: string, updated: Article)
    requires UniqueSlugs(articles) && id in articles && updated.slug == articles[id].slug
    ensures UniqueSlugs(articles[id := updated])
  {
  }

  /** What a publish that succeeds writes and invalidates; one that fails does nothing. */
  lemma PublishOutcome(env: Env, db: Db, id: string, now: nat)
    ensures Failure(env, db, Publish(id, now)).None? ==>
              && Perform(env, db, Publish(id, now)) == Db(db.articles[id := Published(env, db, id, now)], db.cards)
              && Invalidated(env, db, Publish(id, now)) == Some(db.articles[id].slug)
    ensures Failure(env, db, Publish(id, now)).Some? ==>
              Perform(env, db, Publish(id, now)) == db && Invalidated(env, db, Publish(id, now)) == None
  {
  }

  /** Payloads do not matter for reading in order. */
  lemma {:induction false} SameOrders(t: CardTable, t': CardTable, a: string)
    requires CardIds(t, a) == CardIds(t', a)
    requires forall id <- CardIds(t, a) :: t[id].order == t'[id].order
    ensures ReadInOrder(t, a) == ReadInOrder(t', a)
  {
    SortedUnique(t, ReadInOrder(t, a), ReadInOrder(t', a));
  }
}
