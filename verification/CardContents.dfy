/**
 * What the cards say: over every run of operations of NewsModel each card holds the payload that was
 * last written to it (createCard, updateCard and deleteCard in src/modules/news/news.service.ts).
 */
module CardContents {
  import opened CardOrder
  import opened Common
  import opened Content
  import opened NewsModel
  import opened NewsRuns

  /** The article and the payload of every card. */
  type Contents = map<string, (string, CardData)>

  function ContentsOf(t: Cards): Contents {
    map id | id in t :: (t[id].articleId, t[id].data)
  }

  /** No card but `id` comes, goes, changes its article or its payload. */
  ghost predicate OthersSay(t: Cards, t': Cards, id: string) {
    forall i | i != id ::
      && (i in t <==> i in t')
      && (i in t ==> t'[i].data == t[i].data && t'[i].articleId == t[i].articleId)
  }

  /** What an operation writes, given whether it succeeds. */
  function Write(env: Env, c: Contents, op: Op, ok: bool): Contents {
    match op
    case CreateCard(a, cardType, raw, _, id) =>
      if ok && env.parse(cardType, raw).Some? then c[id := (a, env.parse(cardType, raw).value)] else c
    case UpdateCard(_, id, newRaw, _) =>
      if ok && id in c && newRaw.Some? && env.parse(TypeOf(c[id].1), newRaw.value).Some?
      then c[id := (c[id].0, env.parse(TypeOf(c[id].1), newRaw.value).value)] else c
    case DeleteCard(_, id) => if ok then c - {id} else c
    case _ => c
  }

  lemma RenumberKeepsContents(t: Cards, ids: seq<string>)
    ensures ContentsOf(Renumber(t, ids)) == ContentsOf(t)
  {
  }

  lemma InsertedContents(t: CardTable, a: string, data: CardData, k: nat, newId: string)
    requires newId !in t && k <= |ReadInOrder(t, a)|
    ensures ContentsOf(Inserted(t, a, data, k, newId)) == ContentsOf(t)[newId := (a, data)]
  {
    InsertionList(t, a, data, k, newId);
    RenumberKeepsContents(WithTemporary(t, a, data, newId), InsertAt(ReadInOrder(t, a), k, newId));
  }

  lemma MovedContents(t: CardTable, a: string, id: string, k: nat)
    requires BelongsTo(t, a, id) && k < |ReadInOrder(t, a)|
    ensures ContentsOf(Moved(t, a, id, k)) == ContentsOf(t)
  {
    MovedFacts(t, a, id, k);
    RenumberKeepsContents(t, MoveTo(ReadInOrder(t, a), id, k));
  }

  lemma DeletedContents(t: CardTable, a: string, id: string)
    requires BelongsTo(t, a, id)
    ensures ContentsOf(Deleted(t, a, id)) == ContentsOf(t) - {id}
  {
    DeletedFacts(t, a, id);
    RenumberKeepsContents(Removed(t, id), ReadInOrder(Removed(t, id), a));
  }

  lemma PermutedContents(t: CardTable, a: string, ids: seq<string>)
    requires AcceptsReorder(CardIds(t, a), ids)
    ensures ContentsOf(Permuted(t, a, ids)) == ContentsOf(t)
  {
    PermutedFacts(t, a, ids);
    RenumberKeepsContents(t, ids);
  }

  lemma WithDataContents(t: CardTable, id: string, data: CardData)
    requires id in t
    ensures ContentsOf(WithData(t, id, data)) == ContentsOf(t)[id := (t[id].articleId, data)]
  {
  }

  lemma DataUpdatedContents(env: Env, t: CardTable, id: string, newRaw: Option<string>)
    requires id in t
    requires newRaw.Some? ==> env.parse(TypeOf(t[id].data), newRaw.value).Some?
    ensures ContentsOf(DataUpdated(env, t, id, newRaw))
         == if newRaw.Some? then ContentsOf(t)[id := (t[id].articleId, env.parse(TypeOf(t[id].data), newRaw.value).value)]
            else ContentsOf(t)
  {
    if newRaw.Some? {
      WithDataContents(t, id, env.parse(TypeOf(t[id].data), newRaw.value).value);
    }
  }

  lemma UpdatedContents(env: Env, t: CardTable, a: string, id: string, newRaw: Option<string>, moveTo: Option<nat>)
    requires BelongsTo(t, a, id)
    requires newRaw.Some? ==> env.parse(TypeOf(t[id].data), newRaw.value).Some?
    requires moveTo.Some? && moveTo.value != t[id].order ==> moveTo.value < |ReadInOrder(t, a)|
    ensures ContentsOf(CardUpdated(env, t, a, id, newRaw, moveTo))
         == if newRaw.Some? then ContentsOf(t)[id := (a, env.parse(TypeOf(t[id].data), newRaw.value).value)] else ContentsOf(t)
  {
    DataKeepsOrder(env, t, a, id, newRaw);
    DataUpdatedContents(env, t, id, newRaw);
    if moveTo.Some? && moveTo.value != t[id].order {
      MovedContents(DataUpdated(env, t, id, newRaw), a, id, moveTo.value);
    }
  }

  lemma CreateWrites(env: Env, db: Db, a: string, cardType: CardType, raw: string, at: Option<nat>, newId: string)
    requires newId !in db.cards && Failure(env, db, CreateCard(a, cardType, raw, at, newId)).None?
    ensures env.parse(cardType, raw).Some?
    ensures ContentsOf(CardsAfter(env, db, CreateCard(a, cardType, raw, at, newId)))
         == ContentsOf(db.cards)[newId := (a, env.parse(cardType, raw).value)]
  {
    CreateAccepted(env, db, a, cardType, raw, at, newId);
    InsertedContents(db.cards, a, env.parse(cardType, raw).value, at.GetOr(|ReadInOrder(db.cards, a)|), newId);
  }

  lemma UpdateWrites(env: Env, db: Db, a: string, card: string, newRaw: Option<string>, moveTo: Option<nat>)
    requires Failure(env, db, UpdateCard(a, card, newRaw, moveTo)).None?
    ensures BelongsTo(db.cards, a, card)
    ensures newRaw.Some? ==> env.parse(TypeOf(db.cards[card].data), newRaw.value).Some?
    ensures ContentsOf(CardsAfter(env, db, UpdateCard(a, card, newRaw, moveTo)))
         == if newRaw.Some? then ContentsOf(db.cards)[card := (a, env.parse(TypeOf(db.cards[card].data), newRaw.value).value)]
            else ContentsOf(db.cards)
  {
    UpdateAccepted(env, db, a, card, newRaw, moveTo);
    UpdatedContents(env, db.cards, a, card, newRaw, moveTo);
  }

  lemma DeleteWrites(env: Env, db: Db, a: string, card: string)
    requires Failure(env, db, DeleteCard(a, card)).None?
    ensures BelongsTo(db.cards, a, card)
    ensures ContentsOf(CardsAfter(env, db, DeleteCard(a, card))) == ContentsOf(db.cards) - {card}
  {
    DeleteAccepted(env, db, a, card);
    DeletedContents(db.cards, a, card);
  }

  lemma ReorderWrites(env: Env, db: Db, a: string, ids: seq<string>)
    requires Failure(env, db, ReorderCards(a, ids)).None?
    ensures ContentsOf(CardsAfter(env, db, ReorderCards(a, ids))) == ContentsOf(db.cards)
  {
    PermuteAccepted(env, db, a, ids);
    PermutedContents(db.cards, a, ids);
  }

  lemma NoWrite(env: Env, db: Db, op: Op)
    requires FreshId(db, op) && !(IsCardOp(op) && Failure(env, db, op).None?)
    ensures Perform(env, db, op).cards == db.cards
    ensures Write(env, ContentsOf(db.cards), op, Failure(env, db, op).None?) == ContentsOf(db.cards)
  {
  }

  /** An operation writes the payload it is given, to the card it names, exactly if it succeeds. */
  lemma StepWrites(env: Env, db: Db, op: Op)
    requires FreshId(db, op)
    ensures ContentsOf(Perform(env, db, op).cards)
         == Write(env, ContentsOf(db.cards), op, Failure(env, db, op).None?)
  {
    if !(IsCardOp(op) && Failure(env, db, op).None?) {
      NoWrite(env, db, op);
    } else {
      CardOpOutcome(env, db, op);
      match op
      case CreateCard(a, cardType, raw, at, newId) => CreateWrites(env, db, a, cardType, raw, at, newId);
      case UpdateCard(a, card, newRaw, moveTo) => UpdateWrites(env, db, a, card, newRaw, moveTo);
      case DeleteCard(a, card) => DeleteWrites(env, db, a, card);
      case ReorderCards(a, ids) => ReorderWrites(env, db, a, ids);
    }
  }

  /** What a successful card operation leaves in the table, card by card. */
  lemma OthersKeep(env: Env, db: Db, op: Op)
    requires FreshId(db, op) && IsCardOp(op) && Failure(env, db, op).None?
    ensures var t' := Perform(env, db, op).cards;
            match op
            case CreateCard(_, _, _, _, newId) => OthersSay(db.cards, t', newId)
            case UpdateCard(_, card, _, _) => OthersSay(db.cards, t', card)
            case DeleteCard(_, card) => OthersSay(db.cards, t', card) && card !in t'
            case ReorderCards(_, _) => forall id :: OthersSay(db.cards, t', id)
  {
    var t, t' := db.cards, Perform(env, db, op).cards;
    StepWrites(env, db, op);
    WriteOthers(env, ContentsOf(t), op);
    match op
    case CreateCard(_, _, _, _, newId) => SayAlike(t, t', newId);
    case UpdateCard(_, card, _, _) => SayAlike(t, t', card);
    case DeleteCard(_, card) =>
      SayAlike(t, t', card);
      assert card !in ContentsOf(t');
    case ReorderCards(_, _) =>
      forall id ensures OthersSay(t, t', id) {
        SayAlike(t, t', id);
      }
  }

  ghost predicate AlikeBut(c: Contents, c': Contents, id: string) {
    forall i | i != id :: (i in c <==> i in c') && (i in c ==> c'[i] == c[i])
  }

  lemma SayAlike(t: Cards, t': Cards, id: string)
    requires AlikeBut(ContentsOf(t), ContentsOf(t'), id)
    ensures OthersSay(t, t', id)
  {
    SameContents(t, t', ContentsOf(t), ContentsOf(t'));
  }

  lemma WriteOthers(env: Env, c: Contents, op: Op)
    requires IsCardOp(op)
    ensures var c' := Write(env, c, op, true);
            match op
            case CreateCard(_, _, _, _, newId) => AlikeBut(c, c', newId)
            case UpdateCard(_, card, _, _) => AlikeBut(c, c', card)
            case DeleteCard(_, card) => AlikeBut(c, c', card) && card !in c'
            case ReorderCards(_, _) => c' == c
  {
  }

  /** An updated card says the new payload, if one is given, and otherwise what it said. */
  lemma UpdateSays(env: Env, db: Db, a: string, card: string, newRaw: Option<string>, moveTo: Option<nat>)
    requires Failure(env, db, UpdateCard(a, card, newRaw, moveTo)).None?
    ensures var t' := CardsAfter(env, db, UpdateCard(a, card, newRaw, moveTo));
            && card in db.cards && card in t' && OthersSay(db.cards, t', card)
            && (newRaw.Some? ==> env.parse(TypeOf(db.cards[card].data), newRaw.value) == Some(t'[card].data))
            && (newRaw.None? ==> t'[card].data == db.cards[card].data)
  {
    UpdateWrites(env, db, a, card, newRaw, moveTo);
    var t' := CardsAfter(env, db, UpdateCard(a, card, newRaw, moveTo));
    SameContents(db.cards, t', ContentsOf(db.cards), ContentsOf(t'));
    assert card in ContentsOf(t');
  }

  lemma SameContents(t: Cards, t': Cards, c: Contents, c': Contents)
    requires c == ContentsOf(t) && c' == ContentsOf(t')
    ensures forall i :: (i in t <==> i in c) && (i in t' <==> i in c')
    ensures forall i | i in t && i in t' && c[i] == c'[i] :: t[i].articleId == t'[i].articleId && t[i].data == t'[i].data
  {
  }

  // ---------------------------------------------------------------- runs

  /** Which operations of a run succeed. */
  function Successes(env: Env, db: Db, ops: seq<Op>): (oks: seq<bool>)
    requires FreshRun(env, db, ops)
    ensures |oks| == |ops|
    decreases |ops|
  {
    if ops == [] then [] else [Failure(env, db, ops[0]).None?] + Successes(env, Perform(env, db, ops[0]), ops[1..])
  }

  function Writes(env: Env, c: Contents, ops: seq<Op>, oks: seq<bool>): Contents
    requires |oks| == |ops|
    decreases |ops|
  {
    if ops == [] then c else Writes(env, Write(env, c, ops[0], oks[0]), ops[1..], oks[1..])
  }

  lemma {:induction false} ContentsReplay(env: Env, db: Db, ops: seq<Op>)
    requires FreshRun(env, db, ops)
    ensures ContentsOf(RunOps(env, db, ops).cards) == Writes(env, ContentsOf(db.cards), ops, Successes(env, db, ops))
    decreases |ops|
  {
    if ops != [] {
      StepWrites(env, db, ops[0]);
      ContentsReplay(env, Perform(env, db, ops[0]), ops[1..]);
      var oks := Successes(env, db, ops);
      assert oks[1..] == Successes(env, Perform(env, db, ops[0]), ops[1..]);
    }
  }

  /**
   * Over every run, the payloads that publishing reads for an article are those last written to its
   * cards, in the order to which inserting, moving, deleting and permuting the list has brought them.
   */
  lemma PayloadsAsWritten(env: Env, db: Db, ops: seq<Op>, a: string)
    requires Contiguous(db.cards) && FreshRun(env, db, ops)
    ensures var c := Writes(env, ContentsOf(db.cards), ops, Successes(env, db, ops));
            var ids := Replay(ReadInOrder(db.cards, a), a, Edits(env, db, ops));
            var payloads := Payloads(RunOps(env, db, ops).cards, a);
            && |payloads| == |ids| && NoDuplicates(ids)
            && (forall i :: 0 <= i < |ids| ==> ids[i] in c && c[ids[i]] == (a, payloads[i]))
            && (forall id <- c :: c[id].0 == a ==> id in ids)
  {
    CardsRefineLists(env, db, ops, a);
    ContentsReplay(env, db, ops);
    PayloadsRead(RunOps(env, db, ops).cards, a);
  }

  lemma PayloadsRead(t: CardTable, a: string)
    ensures var ids, c := ReadInOrder(t, a), ContentsOf(t);
            && |Payloads(t, a)| == |ids| && NoDuplicates(ids)
            && (forall i :: 0 <= i < |ids| ==> ids[i] in c && c[ids[i]] == (a, Payloads(t, a)[i]))
            && (forall id <- c :: c[id].0 == a ==> id in ids)
  {
    ReadFacts(t, a);
    var ids := ReadInOrder(t, a);
    forall i | 0 <= i < |ids| ensures ids[i] in CardIds(t, a) {
      assert ids[i] in ids;
    }
    forall id <- t | t[id].articleId == a ensures id in ids {
      assert id in CardIds(t, a);
    }
  }

  /** Validation returns payloads of the type it is asked for. */
  ghost predicate ParsesByType(env: Env) {
    forall cardType, raw :: env.parse(cardType, raw).Some? ==> TypeOf(env.parse(cardType, raw).value) == cardType
  }

  lemma WriteKeepsType(env: Env, c: Contents, op: Op, ok: bool, id: string)
    requires ParsesByType(env) && id in c && !(op.CreateCard? && op.newId == id)
    ensures var c' := Write(env, c, op, ok);
            id in c' ==> TypeOf(c'[id].1) == TypeOf(c[id].1) && c'[id].0 == c[id].0
  {
  }

  /** A card never changes its type or its article while it exists. */
  lemma {:induction false} TypesNeverChange(env: Env, db: Db, ops: seq<Op>, id: string)
    requires ParsesByType(env) && FreshRun(env, db, ops)
    requires id in db.cards && forall op <- ops :: !(op.CreateCard? && op.newId == id)
    ensures var t' := RunOps(env, db, ops).cards;
            id in t' ==> TypeOf(t'[id].data) == TypeOf(db.cards[id].data) && t'[id].articleId == db.cards[id].articleId
    decreases |ops|
  {
    if ops != [] {
      StepWrites(env, db, ops[0]);
      var db' := Perform(env, db, ops[0]);
      assert ops[0] in ops;
      WriteKeepsType(env, ContentsOf(db.cards), ops[0], Failure(env, db, ops[0]).None?, id);
      if id in db'.cards {
        assert id in ContentsOf(db'.cards);
        TypesNeverChange(env, db', ops[1..], id);
      } else {
        GoneForGood(env, db', ops[1..], id);
      }
    }
  }

  lemma {:induction false} GoneForGood(env: Env, db: Db, ops: seq<Op>, id: string)
    requires FreshRun(env, db, ops) && id !in db.cards && forall op <- ops :: !(op.CreateCard? && op.newId == id)
    ensures id !in RunOps(env, db, ops).cards
    decreases |ops|
  {
    if ops != [] {
      StepWrites(env, db, ops[0]);
      assert ops[0] in ops;
      assert id !in ContentsOf(db.cards);
      assert id !in ContentsOf(Perform(env, db, ops[0]).cards);
      GoneForGood(env, Perform(env, db, ops[0]), ops[1..], id);
    }
  }
}
