/** What holds over every run of the operations of NewsModel. */
module NewsRuns {
  import opened CardCompiler
  import opened CardOrder
  import opened Common
  import opened Content
  import opened NewsModel
  import Text

  // ---------------------------------------------------------------- cards refine lists

  /** The edit of an article's card list that a successful operation stands for. */
  datatype Edit =
    | Keep
    | Insert(article: string, k: nat, id: string)
    | Move(article: string, id: string, k: nat)
    | Delete(article: string, id: string)
    | Permute(article: string, ids: seq<string>)

  function ApplyEdit(s: seq<string>, a: string, e: Edit): seq<string> {
    match e
    case Keep => s
    case Insert(b, k, id) => if a == b && k <= |s| then InsertAt(s, k, id) else s
    case Move(b, id, k) => if a == b && id in s && NoDuplicates(s) && k < |s| then MoveTo(s, id, k) else s
    case Delete(b, id) => if a == b then Without(s, id) else s
    case Permute(b, ids) => if a == b then ids else s
  }

  function EditOf(env: Env, db: Db, op: Op): Edit {
    if Failure(env, db, op).Some? then Keep
    else
      match op
      case CreateCard(a, _, _, at, id) => Insert(a, at.GetOr(|ReadInOrder(db.cards, a)|), id)
      case UpdateCard(a, card, _, moveTo) => if moveTo.Some? then Move(a, card, moveTo.value) else Keep
      case DeleteCard(a, card) => Delete(a, card)
      case ReorderCards(a, ids) => Permute(a, ids)
      case _ => Keep
  }

  /** Only cards of article `a` differ. */
  predicate OnlyArticle(t: Cards, t': Cards, a: string) {
    && (forall id <- t :: t[id].articleId != a ==> id in t' && t'[id] == t[id])
    && (forall id <- t' :: t'[id].articleId != a ==> id in t && t[id] == t'[id])
  }

  /** One article gets a new listing, all others keep theirs. */
  lemma Relisted(t: CardTable, t': CardTable, a: string, ids: seq<string>)
    requires Contiguous(t) && OnlyArticle(t, t', a) && ListedAs(t', a, ids)
    ensures Contiguous(t') && ReadInOrder(t', a) == ids
    ensures forall b :: b != a ==> ReadInOrder(t', b) == ReadInOrder(t, b)
  {
    ListingIsRead(t', a, ids);
    forall b | b != a ensures ReadInOrder(t', b) == ReadInOrder(t, b) && ListedAs(t', b, ReadInOrder(t', b)) {
      ListedFrame(t, t', b, ReadInOrder(t, b));
      ListingIsRead(t', b, ReadInOrder(t, b));
    }
  }

  lemma RenumberOnly(t: Cards, a: string, ids: seq<string>)
    requires NoDuplicates(ids) && forall x :: x in ids <==> x in CardIds(t, a)
    ensures OnlyArticle(t, Renumber(t, ids), a)
  {
    RenumberLists(t, a, ids);
  }

  /** The temporary order of a new card never meets an order in use. */
  lemma TemporaryOrderIsFree(t: CardTable, a: string, data: CardData, newId: string)
    requires Contiguous(t) && newId !in t
    ensures UniqueOrders(WithTemporary(t, a, data, newId))
  {
    assert ListedAs(t, a, ReadInOrder(t, a));
  }

  lemma InsertedIsInsert(t: CardTable, a: string, data: CardData, k: nat, newId: string)
    requires Contiguous(t) && newId !in t && k <= |ReadInOrder(t, a)|
    ensures var t' := Inserted(t, a, data, k, newId);
            && OnlyArticle(t, t', a) && ListedAs(t', a, InsertAt(ReadInOrder(t, a), k, newId))
            && newId in t' && t'[newId] == Card(a, k, data)
  {
    var ids, temporary := InsertAt(ReadInOrder(t, a), k, newId), WithTemporary(t, a, data, newId);
    InsertionList(t, a, data, k, newId);
    RenumberLists(temporary, a, ids);
    RenumberOnly(temporary, a, ids);
    WithTemporaryOnly(t, a, data, newId);
    OnlyTransitive(t, temporary, Renumber(temporary, ids), a);
    assert ids[k] == newId;
  }

  lemma WithTemporaryOnly(t: CardTable, a: string, data: CardData, newId: string)
    requires newId !in t
    ensures OnlyArticle(t, WithTemporary(t, a, data, newId), a)
  {
  }

  lemma InsertedKeepsLists(t: CardTable, a: string, data: CardData, k: nat, newId: string)
    requires Contiguous(t) && newId !in t && k <= |ReadInOrder(t, a)|
    ensures var t' := Inserted(t, a, data, k, newId);
            Contiguous(t') && newId in t' && t'[newId] == Card(a, k, data)
  {
    InsertedIsInsert(t, a, data, k, newId);
    Relisted(t, Inserted(t, a, data, k, newId), a, InsertAt(ReadInOrder(t, a), k, newId));
  }

  lemma MovedIsMove(t: CardTable, a: string, id: string, k: nat)
    requires Contiguous(t) && BelongsTo(t, a, id) && k < |ReadInOrder(t, a)|
    ensures ReadInOrder(t, a) != [] && id in ReadInOrder(t, a) && NoDuplicates(ReadInOrder(t, a))
    ensures OnlyArticle(t, Moved(t, a, id, k), a)
    ensures ListedAs(Moved(t, a, id, k), a, MoveTo(ReadInOrder(t, a), id, k))
  {
    ReadFacts(t, a);
    MoveFacts(ReadInOrder(t, a), id, k);
    RenumberLists(t, a, MoveTo(ReadInOrder(t, a), id, k));
    RenumberOnly(t, a, MoveTo(ReadInOrder(t, a), id, k));
  }

  lemma CutAscends(t: Cards, s: seq<string>, i: nat)
    requires i < |s| && forall x <- s :: x in t
    requires forall m, n | 0 <= m < n < |s| :: t[s[m]].order < t[s[n]].order
    ensures var w := s[..i] + s[i + 1..];
            (forall x <- w :: x in s) && forall m, n | 0 <= m < n < |w| :: t[w[m]].order < t[w[n]].order
  {
  }

  /** Reading after a deletion gives the old list without the deleted card. */
  lemma ReadAfterRemoval(t: CardTable, a: string, id: string)
    requires Contiguous(t) && BelongsTo(t, a, id)
    ensures ReadInOrder(Removed(t, id), a) == Without(ReadInOrder(t, a), id)
  {
    var s, r := ReadInOrder(t, a), Removed(t, id);
    ReadFacts(t, a);
    assert ListedAs(t, a, s);
    var i := t[id].order;
    WithoutCut(s, id, i);
    WithoutMembers(s, id);
    CutAscends(t, s, i);
    RemovedMembers(t, a, id);
    SortedUnique(t, Without(s, id), ReadInOrder(r, a));
  }

  lemma RemovedMembers(t: CardTable, a: string, id: string)
    ensures forall x :: x in ReadInOrder(Removed(t, id), a) <==> x in CardIds(t, a) && x != id
    ensures var s := ReadInOrder(Removed(t, id), a);
            (forall x <- s :: x in t) && forall m, n | 0 <= m < n < |s| :: t[s[m]].order < t[s[n]].order
  {
    var r := Removed(t, id);
    ReadFacts(r, a);
    var s := ReadInOrder(r, a);
    forall m, n | 0 <= m < n < |s| ensures s[m] in t && s[n] in t && t[s[m]].order < t[s[n]].order {
      assert s[m] in s && s[n] in s;
      assert r[s[m]].order < r[s[n]].order;
    }
  }

  lemma OnlyTransitive(t: Cards, u: Cards, v: Cards, a: string)
    requires OnlyArticle(t, u, a) && OnlyArticle(u, v, a)
    ensures OnlyArticle(t, v, a)
  {
  }

  lemma DeletedIsDelete(t: CardTable, a: string, id: string)
    requires Contiguous(t) && BelongsTo(t, a, id)
    ensures OnlyArticle(t, Deleted(t, a, id), a)
    ensures ListedAs(Deleted(t, a, id), a, Without(ReadInOrder(t, a), id))
  {
    var r := Removed(t, id);
    var s := ReadInOrder(r, a);
    ReadAfterRemoval(t, a, id);
    ReadFacts(r, a);
    RenumberLists(r, a, s);
    RenumberOnly(r, a, s);
    OnlyTransitive(t, r, Renumber(r, s), a);
  }

  lemma PermutedIsPermutation(t: CardTable, a: string, ids: seq<string>)
    requires Contiguous(t) && AcceptsReorder(CardIds(t, a), ids)
    ensures OnlyArticle(t, Permuted(t, a, ids), a) && ListedAs(Permuted(t, a, ids), a, ids)
  {
    ReorderAcceptsPermutations(CardIds(t, a), ids);
    RenumberLists(t, a, ids);
    RenumberOnly(t, a, ids);
  }

  lemma WithDataListed(t: CardTable, a: string, id: string, data: CardData, s: seq<string>)
    requires ListedAs(t, a, s) && BelongsTo(t, a, id)
    ensures OnlyArticle(t, WithData(t, id, data), a) && ListedAs(WithData(t, id, data), a, s)
  {
  }

  lemma WithDataKeepsLists(t: CardTable, a: string, id: string, data: CardData)
    requires Contiguous(t) && BelongsTo(t, a, id)
    ensures var t' := WithData(t, id, data);
            OnlyArticle(t, t', a) && Contiguous(t') && ReadInOrder(t', a) == ReadInOrder(t, a)
  {
    var s := ReadInOrder(t, a);
    assert ListedAs(t, a, s);
    WithDataListed(t, a, id, data, s);
    Relisted(t, WithData(t, id, data), a, s);
  }

  lemma CardUpdatedIsMove(
    env: Env, t: CardTable, a: string, card: string, newRaw: Option<string>, moveTo: Option<nat>)
    requires Contiguous(t) && BelongsTo(t, a, card)
    requires newRaw.Some? ==> env.parse(TypeOf(t[card].data), newRaw.value).Some?
    requires moveTo.Some? && moveTo.value != t[card].order ==> moveTo.value < |ReadInOrder(t, a)|
    ensures var t' := CardUpdated(env, t, a, card, newRaw, moveTo);
            var s := ReadInOrder(t, a);
            && OnlyArticle(t, t', a) && card in s && NoDuplicates(s)
            && (moveTo.Some? ==> moveTo.value < |s|)
            && ListedAs(t', a, if moveTo.Some? then MoveTo(s, card, moveTo.value) else s)
  {
    var s := ReadInOrder(t, a);
    ReadFacts(t, a);
    assert ListedAs(t, a, s);
    var t1 := DataUpdated(env, t, card, newRaw);
    if newRaw.Some? {
      WithDataKeepsLists(t, a, card, env.parse(TypeOf(t[card].data), newRaw.value).value);
    }
    assert ListedAs(t1, a, ReadInOrder(t1, a)) && ReadInOrder(t1, a) == s;
    if moveTo.Some? {
      if moveTo.value != t[card].order {
        MovedIsMove(t1, a, card, moveTo.value);
      } else {
        MoveToSelf(s, card, moveTo.value);
      }
    }
  }

  /** An updated card stays in its article, at the index asked for. */
  lemma UpdatedCard(env: Env, t: CardTable, a: string, card: string, newRaw: Option<string>, moveTo: Option<nat>)
    requires Contiguous(t) && BelongsTo(t, a, card)
    requires newRaw.Some? ==> env.parse(TypeOf(t[card].data), newRaw.value).Some?
    requires moveTo.Some? && moveTo.value != t[card].order ==> moveTo.value < |ReadInOrder(t, a)|
    ensures var t' := CardUpdated(env, t, a, card, newRaw, moveTo);
            BelongsTo(t', a, card) && (moveTo.Some? ==> t'[card].order == moveTo.value)
  {
    CardUpdatedIsMove(env, t, a, card, newRaw, moveTo);
    if moveTo.Some? {
      MoveFacts(ReadInOrder(t, a), card, moveTo.value);
    }
  }

  /** `t'` differs from `t` in the cards of `a` only, which it lists as `ids`. */
  predicate Touches(t: Cards, t': Cards, a: string, ids: seq<string>) {
    OnlyArticle(t, t', a) && ListedAs(t', a, ids)
  }

  lemma CreateAccepted(env: Env, db: Db, a: string, cardType: CardType, raw: string, at: Option<nat>, newId: string)
    requires newId !in db.cards && Failure(env, db, CreateCard(a, cardType, raw, at, newId)).None?
    ensures var k := at.GetOr(|ReadInOrder(db.cards, a)|);
            && env.parse(cardType, raw).Some? && k <= |ReadInOrder(db.cards, a)|
            && CardsAfter(env, db, CreateCard(a, cardType, raw, at, newId))
               == Inserted(db.cards, a, env.parse(cardType, raw).value, k, newId)
            && EditOf(env, db, CreateCard(a, cardType, raw, at, newId)) == Insert(a, k, newId)
  {
  }

  lemma CreateTouches(env: Env, db: Db, a: string, cardType: CardType, raw: string, at: Option<nat>, newId: string)
    requires Contiguous(db.cards) && newId !in db.cards
    requires Failure(env, db, CreateCard(a, cardType, raw, at, newId)).None?
    ensures Touches(db.cards, CardsAfter(env, db, CreateCard(a, cardType, raw, at, newId)), a,
                    ApplyEdit(ReadInOrder(db.cards, a), a, EditOf(env, db, CreateCard(a, cardType, raw, at, newId))))
  {
    CreateAccepted(env, db, a, cardType, raw, at, newId);
    InsertedIsInsert(db.cards, a, env.parse(cardType, raw).value, at.GetOr(|ReadInOrder(db.cards, a)|), newId);
  }

  lemma UpdateAccepted(env: Env, db: Db, a: string, card: string, newRaw: Option<string>, moveTo: Option<nat>)
    requires Failure(env, db, UpdateCard(a, card, newRaw, moveTo)).None?
    ensures BelongsTo(db.cards, a, card)
    ensures newRaw.Some? ==> env.parse(TypeOf(db.cards[card].data), newRaw.value).Some?
    ensures moveTo.Some? && moveTo.value != db.cards[card].order ==> moveTo.value < |ReadInOrder(db.cards, a)|
    ensures CardsAfter(env, db, UpdateCard(a, card, newRaw, moveTo)) == CardUpdated(env, db.cards, a, card, newRaw, moveTo)
    ensures EditOf(env, db, UpdateCard(a, card, newRaw, moveTo))
         == if moveTo.Some? then Move(a, card, moveTo.value) else Keep
  {
  }

  /** After a successful update the card is in its article, at the index asked for. */
  lemma UpdateCardOutcome(env: Env, db: Db, a: string, card: string, newRaw: Option<string>, moveTo: Option<nat>)
    requires Contiguous(db.cards) && Failure(env, db, UpdateCard(a, card, newRaw, moveTo)).None?
    ensures var t' := CardsAfter(env, db, UpdateCard(a, card, newRaw, moveTo));
            && Contiguous(t') && BelongsTo(t', a, card) && (moveTo.Some? ==> t'[card].order == moveTo.value)
  {
    UpdateAccepted(env, db, a, card, newRaw, moveTo);
    UpdatedCard(env, db.cards, a, card, newRaw, moveTo);
    CardOpRefinesEdit(env, db, UpdateCard(a, card, newRaw, moveTo));
  }

  lemma UpdateTouches(env: Env, db: Db, a: string, card: string, newRaw: Option<string>, moveTo: Option<nat>)
    requires Contiguous(db.cards) && Failure(env, db, UpdateCard(a, card, newRaw, moveTo)).None?
    ensures Touches(db.cards, CardsAfter(env, db, UpdateCard(a, card, newRaw, moveTo)), a,
                    ApplyEdit(ReadInOrder(db.cards, a), a, EditOf(env, db, UpdateCard(a, card, newRaw, moveTo))))
  {
    UpdateAccepted(env, db, a, card, newRaw, moveTo);
    CardUpdatedIsMove(env, db.cards, a, card, newRaw, moveTo);
    MoveIsEdit(ReadInOrder(db.cards, a), a, card, moveTo);
  }

  lemma MoveIsEdit(s: seq<string>, a: string, card: string, moveTo: Option<nat>)
    requires card in s && NoDuplicates(s) && (moveTo.Some? ==> moveTo.value < |s|)
    ensures ApplyEdit(s, a, if moveTo.Some? then Move(a, card, moveTo.value) else Keep)
         == if moveTo.Some? then MoveTo(s, card, moveTo.value) else s
  {
  }

  lemma DeleteAccepted(env: Env, db: Db, a: string, card: string)
    requires Failure(env, db, DeleteCard(a, card)).None?
    ensures BelongsTo(db.cards, a, card)
    ensures CardsAfter(env, db, DeleteCard(a, card)) == Deleted(db.cards, a, card)
    ensures EditOf(env, db, DeleteCard(a, card)) == Delete(a, card)
  {
  }

  lemma DeleteTouches(env: Env, db: Db, a: string, card: string)
    requires Contiguous(db.cards) && Failure(env, db, DeleteCard(a, card)).None?
    ensures Touches(db.cards, CardsAfter(env, db, DeleteCard(a, card)), a,
                    ApplyEdit(ReadInOrder(db.cards, a), a, EditOf(env, db, DeleteCard(a, card))))
  {
    DeleteAccepted(env, db, a, card);
    DeletedIsDelete(db.cards, a, card);
  }

  lemma PermuteAccepted(env: Env, db: Db, a: string, ids: seq<string>)
    requires Failure(env, db, ReorderCards(a, ids)).None?
    ensures AcceptsReorder(CardIds(db.cards, a), ids)
    ensures CardsAfter(env, db, ReorderCards(a, ids)) == Permuted(db.cards, a, ids)
    ensures EditOf(env, db, ReorderCards(a, ids)) == Permute(a, ids)
  {
  }

  lemma ReorderTouches(env: Env, db: Db, a: string, ids: seq<string>)
    requires Contiguous(db.cards) && Failure(env, db, ReorderCards(a, ids)).None?
    ensures Touches(db.cards, CardsAfter(env, db, ReorderCards(a, ids)), a,
                    ApplyEdit(ReadInOrder(db.cards, a), a, EditOf(env, db, ReorderCards(a, ids))))
  {
    PermuteAccepted(env, db, a, ids);
    PermutedIsPermutation(db.cards, a, ids);
  }

  /** A card operation changes its own article only; the others keep cards, payloads and order. */
  lemma CardOpTouches(env: Env, db: Db, op: Op)
    requires Contiguous(db.cards) && FreshId(db, op) && IsCardOp(op) && Failure(env, db, op).None?
    ensures Touches(db.cards, CardsAfter(env, db, op), op.article,
                    ApplyEdit(ReadInOrder(db.cards, op.article), op.article, EditOf(env, db, op)))
  {
    match op
    case CreateCard(a, cardType, raw, at, newId) => CreateTouches(env, db, a, cardType, raw, at, newId);
    case UpdateCard(a, card, newRaw, moveTo) => UpdateTouches(env, db, a, card, newRaw, moveTo);
    case DeleteCard(a, card) => DeleteTouches(env, db, a, card);
    case ReorderCards(a, ids) => ReorderTouches(env, db, a, ids);
  }

  lemma OtherArticlesKeep(s: seq<string>, b: string, env: Env, db: Db, op: Op)
    requires IsCardOp(op) && b != op.article
    ensures ApplyEdit(s, b, EditOf(env, db, op)) == s
  {
  }

  lemma CardOpRefinesEdit(env: Env, db: Db, op: Op)
    requires Contiguous(db.cards) && FreshId(db, op) && IsCardOp(op) && Failure(env, db, op).None?
    ensures var t' := CardsAfter(env, db, op);
            && Contiguous(t')
            && forall a :: ReadInOrder(t', a) == ApplyEdit(ReadInOrder(db.cards, a), a, EditOf(env, db, op))
  {
    var t, t', e := db.cards, CardsAfter(env, db, op), EditOf(env, db, op);
    CardOpTouches(env, db, op);
    Relisted(t, t', op.article, ApplyEdit(ReadInOrder(t, op.article), op.article, e));
    forall a ensures ReadInOrder(t', a) == ApplyEdit(ReadInOrder(t, a), a, e) {
      if a != op.article {
        OtherArticlesKeep(ReadInOrder(t, a), a, env, db, op);
      }
    }
  }

  lemma OtherOpsKeepCards(env: Env, db: Db, op: Op)
    requires FreshId(db, op) && !(IsCardOp(op) && Failure(env, db, op).None?)
    ensures Perform(env, db, op).cards == db.cards && EditOf(env, db, op) == Keep
  {
  }

  lemma StepRefinesEdit(env: Env, db: Db, op: Op)
    requires Contiguous(db.cards) && FreshId(db, op)
    ensures var db' := Perform(env, db, op);
            && Contiguous(db'.cards)
            && forall a :: ReadInOrder(db'.cards, a) == ApplyEdit(ReadInOrder(db.cards, a), a, EditOf(env, db, op))
  {
    if IsCardOp(op) && Failure(env, db, op).None? {
      CardOpRefinesEdit(env, db, op);
    } else {
      OtherOpsKeepCards(env, db, op);
    }
  }

  predicate FreshRun(env: Env, db: Db, ops: seq<Op>)
    decreases |ops|
  {
    ops == [] || (FreshId(db, ops[0]) && FreshRun(env, Perform(env, db, ops[0]), ops[1..]))
  }

  function RunOps(env: Env, db: Db, ops: seq<Op>): Db
    requires FreshRun(env, db, ops)
    decreases |ops|
  {
    if ops == [] then db else RunOps(env, Perform(env, db, ops[0]), ops[1..])
  }

  /** The edits a run stands for. */
  function Edits(env: Env, db: Db, ops: seq<Op>): seq<Edit>
    requires FreshRun(env, db, ops)
    decreases |ops|
  {
    if ops == [] then [] else [EditOf(env, db, ops[0])] + Edits(env, Perform(env, db, ops[0]), ops[1..])
  }

  function Replay(s: seq<string>, a: string, edits: seq<Edit>): seq<string>
    decreases |edits|
  {
    if edits == [] then s else Replay(ApplyEdit(s, a, edits[0]), a, edits[1..])
  }

  /**
   * Over every run an article's orders are exactly 0 .. n-1, and its cards read in order are what
   * inserting, moving, deleting and permuting on a plain list would give.
   */
  lemma {:induction false} CardsRefineLists(env: Env, db: Db, ops: seq<Op>, a: string)
    requires Contiguous(db.cards) && FreshRun(env, db, ops)
    ensures Contiguous(RunOps(env, db, ops).cards)
    ensures ReadInOrder(RunOps(env, db, ops).cards, a) == Replay(ReadInOrder(db.cards, a), a, Edits(env, db, ops))
    decreases |ops|
  {
    if ops != [] {
      StepRefinesEdit(env, db, ops[0]);
      CardsRefineLists(env, Perform(env, db, ops[0]), ops[1..], a);
      var edits := Edits(env, db, ops);
      assert edits[0] == EditOf(env, db, ops[0]) && edits[1..] == Edits(env, Perform(env, db, ops[0]), ops[1..]);
    }
  }

  lemma ReorderAccepted(env: Env, db: Db, a: string, ids: seq<string>)
    requires EditBlocked(db.articles, a).None?
    ensures Failure(env, db, ReorderCards(a, ids)).None? <==> AcceptsReorder(CardIds(db.cards, a), ids)
    ensures Failure(env, db, ReorderCards(a, ids)).None? ==>
            Perform(env, db, ReorderCards(a, ids)).cards == Permuted(db.cards, a, ids)
  {
  }

  /** A reorder succeeds, on an editable article, exactly for the permutations of its cards, which it then reads back. */
  lemma ReorderReadsBack(env: Env, db: Db, a: string, ids: seq<string>)
    requires Contiguous(db.cards) && EditBlocked(db.articles, a).None?
    ensures Failure(env, db, ReorderCards(a, ids)).None? <==>
            NoDuplicates(ids) && forall x :: x in ids <==> x in CardIds(db.cards, a)
    ensures Failure(env, db, ReorderCards(a, ids)).None? ==>
            ReadInOrder(Perform(env, db, ReorderCards(a, ids)).cards, a) == ids
  {
    ReorderAccepted(env, db, a, ids);
    ReorderAcceptsPermutations(CardIds(db.cards, a), ids);
    if AcceptsReorder(CardIds(db.cards, a), ids) {
      PermutedIsPermutation(db.cards, a, ids);
      ListingIsRead(Permuted(db.cards, a, ids), a, ids);
    }
  }

  // ---------------------------------------------------------------- published bodies

  /** The database, and the publication map with which each article was last published. */
  datatype World = World(db: Db, captured: map<string, PublicationMap>)

  function Step(env: Env, w: World, op: Op): World
    requires FreshId(w.db, op)
  {
    World(Perform(env, w.db, op),
          if op.Publish? && Failure(env, w.db, op).None?
          then w.captured[op.id := BuildPublicationMap(w.db.articles, Payloads(w.db.cards, op.id)).value]
          else w.captured)
  }

  /** A published article's stored body is the compilation of the cards it has now, all references resolved. */
  predicate BodyWell(env: Env, w: World, id: string)
    requires id in w.db.articles
  {
    w.db.articles[id].status == PUBLISHED ==>
      && id in w.captured && References(Payloads(w.db.cards, id)) <= w.captured[id].Keys
      && w.db.articles[id].body == Some(Compile(env.renderer, w.captured[id], Payloads(w.db.cards, id)))
  }

  ghost predicate BodiesWell(env: Env, w: World) {
    Contiguous(w.db.cards) && forall id <- w.db.articles :: BodyWell(env, w, id)
  }

  lemma PayloadsFrame(t: CardTable, t': CardTable, a: string, b: string)
    requires OnlyArticle(t, t', a) && b != a && ReadInOrder(t', b) == ReadInOrder(t, b)
    ensures Payloads(t', b) == Payloads(t, b)
  {
    var s := ReadInOrder(t, b);
    assert |Payloads(t', b)| == |s| == |Payloads(t, b)|;
    forall i | 0 <= i < |s| ensures Payloads(t', b)[i] == Payloads(t, b)[i] {
      assert s[i] in s;
      assert s[i] in CardIds(t, b);
    }
  }

  lemma EditTargetsDraft(env: Env, db: Db, op: Op)
    requires IsCardOp(op) && Failure(env, db, op).None?
    ensures Visible(db.articles, op.article) && db.articles[op.article].status != PUBLISHED
  {
  }

  lemma EditFrame(env: Env, db: Db, op: Op, b: string)
    requires Contiguous(db.cards) && FreshId(db, op) && b in db.articles && db.articles[b].status == PUBLISHED
    ensures Payloads(Perform(env, db, op).cards, b) == Payloads(db.cards, b)
  {
    if IsCardOp(op) && Failure(env, db, op).None? {
      EditTargetsDraft(env, db, op);
      CardOpTouches(env, db, op);
      CardOpRefinesEdit(env, db, op);
      OtherArticlesKeep(ReadInOrder(db.cards, b), b, env, db, op);
      PayloadsFrame(db.cards, CardsAfter(env, db, op), op.article, b);
    } else {
      OtherOpsKeepCards(env, db, op);
    }
  }

  /** What a step can do to an article that is published afterwards. */
  lemma PublishedAfter(env: Env, db: Db, op: Op, id: string)
    requires FreshId(db, op)
    requires id in Perform(env, db, op).articles && Perform(env, db, op).articles[id].status == PUBLISHED
    ensures if op.Publish? && op.id == id && Failure(env, db, op).None?
            then Perform(env, db, op).articles[id] == Published(env, db, id, op.now) && Perform(env, db, op).cards == db.cards
            else id in db.articles && db.articles[id].status == PUBLISHED
                 && Perform(env, db, op).articles[id].body == db.articles[id].body
  {
  }

  lemma CapturedIsComplete(env: Env, w: World, id: string, now: nat)
    requires Failure(env, w.db, Publish(id, now)).None?
    ensures var captured := Step(env, w, Publish(id, now)).captured;
            id in captured && References(Payloads(w.db.cards, id)) <= captured[id].Keys
  {
    PublicationMapComplete(w.db.articles, Payloads(w.db.cards, id));
  }

  lemma StepKeepsBodies(env: Env, w: World, op: Op)
    requires BodiesWell(env, w) && FreshId(w.db, op)
    ensures BodiesWell(env, Step(env, w, op))
  {
    StepRefinesEdit(env, w.db, op);
    var w' := Step(env, w, op);
    forall id <- w'.db.articles | w'.db.articles[id].status == PUBLISHED ensures BodyWell(env, w', id) {
      PublishedAfter(env, w.db, op, id);
      if op.Publish? && op.id == id && Failure(env, w.db, op).None? {
        CapturedIsComplete(env, w, id, op.now);
      }
      if !(op.Publish? && op.id == id && Failure(env, w.db, op).None?) {
        assert BodyWell(env, w, id);
        EditFrame(env, w.db, op, id);
      }
    }
  }

  function RunWorld(env: Env, w: World, ops: seq<Op>): World
    requires FreshRun(env, w.db, ops)
    decreases |ops|
  {
    if ops == [] then w else RunWorld(env, Step(env, w, ops[0]), ops[1..])
  }

  /**
   * Over every run of whole operations, as long as an article is published its stored HTML, text and
   * nodes equal the compilation of its current cards with the publication map read at publish.
   */
  lemma {:induction false} PublishedBodiesMatchCards(env: Env, w: World, ops: seq<Op>)
    requires BodiesWell(env, w) && FreshRun(env, w.db, ops)
    ensures BodiesWell(env, RunWorld(env, w, ops))
    ensures RunWorld(env, w, ops).db == RunOps(env, w.db, ops)
    decreases |ops|
  {
    if ops != [] {
      StepKeepsBodies(env, w, ops[0]);
      PublishedBodiesMatchCards(env, Step(env, w, ops[0]), ops[1..]);
    }
  }

  /**
   * Hence a published article's HTML is the parts of its current cards, joined by newlines: exactly one
   * part for every card, in the order of the cards.
   */
  lemma EveryCardIsShown(env: Env, w: World, ops: seq<Op>, id: string)
    requires BodiesWell(env, w) && FreshRun(env, w.db, ops)
    requires id in RunWorld(env, w, ops).db.articles && RunWorld(env, w, ops).db.articles[id].status == PUBLISHED
    ensures var w' := RunWorld(env, w, ops);
            && id in w'.captured && w'.db.articles[id].body.Some?
            && var cards := Payloads(w'.db.cards, id);
               var parts := AllParts(env.renderer, w'.captured[id], cards).html;
               && w'.db.articles[id].body.value.bodyHtml == Text.Join(parts, "\n")
               && |parts| == |cards|
               && forall i :: 0 <= i < |cards| ==>
                    CardParts(env.renderer, w'.captured[id], cards[i]).html == [parts[i]]
  {
    PublishedBodiesMatchCards(env, w, ops);
    var w' := RunWorld(env, w, ops);
    assert BodyWell(env, w', id);
    OnePartPerCard(env.renderer, w'.captured[id], Payloads(w'.db.cards, id));
  }

  /** The empty database is a starting point of all these runs. */
  lemma EmptyIsWell(env: Env)
    ensures BodiesWell(env, World(Db(map[], map[]), map[]))
  {
    var t: CardTable := map[];
    forall a ensures ListedAs(t, a, ReadInOrder(t, a)) {
      ListingIsRead(t, a, []);
    }
  }
}
