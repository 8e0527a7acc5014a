/**
 * Publishing while cards are edited. `publish` in src/modules/news/news.service.ts reads the article,
 * its cards and the referenced articles one after the other, and only then makes its guarded update.
 */
module PublishRace {
  import opened CardCompiler
  import opened CardOrder
  import opened Common
  import opened Content
  import opened NewsModel
  import opened NewsRuns

  /** How far a publish has got. `edited` tells whether a card edit of the article has committed since its read. */
  datatype Publishing =
    | Opened(id: string, publishedAt: Option<nat>)
    | CardsRead(id: string, publishedAt: Option<nat>, cards: seq<CardData>, edited: bool)
    | Ready(id: string, publishedAt: Option<nat>, cards: seq<CardData>, edited: bool, pub: PublicationMap)

  /** The database, the publishes under way, and the one that last published each article. */
  datatype State = State(db: Db, under: map<nat, Publishing>, last: map<string, Publishing>)

  datatype Step =
    | Whole(op: Op)
    | ReadArticle(p: nat, id: string)
    | ReadCards(p: nat)
    | ReadReferences(p: nat)
    | Update(p: nat, now: nat)

  predicate Enabled(s: State, e: Step) {
    match e
    case Whole(op) => !op.Publish? && FreshId(s.db, op)
    case ReadArticle(p, id) => p !in s.under
    case ReadCards(p) => p in s.under && s.under[p].Opened?
    case ReadReferences(p) => p in s.under && s.under[p].CardsRead?
    case Update(p, _) => p in s.under && s.under[p].Ready?
  }

  /** A committed edit of the article's cards. */
  predicate Edits(env: Env, db: Db, op: Op, id: string) {
    IsCardOp(op) && Failure(env, db, op).None? && op.article == id
  }

  function Noticed(env: Env, db: Db, op: Op, pr: Publishing): Publishing {
    if !pr.Opened? && Edits(env, db, op, pr.id) then pr.(edited := true) else pr
  }

  /** The guard of the update. */
  predicate Accepts(articles: Articles, id: string) {
    Visible(articles, id) && articles[id].status != PUBLISHED
  }

  function Compiled(env: Env, pr: Publishing): CompiledBody
    requires pr.Ready?
  {
    Compile(env.renderer, pr.pub, pr.cards)
  }

  function Updated(env: Env, a: Article, pr: Publishing, now: nat): Article
    requires pr.Ready?
  {
    a.(status := PUBLISHED, publishedAt := Some(pr.publishedAt.GetOr(now)), body := Some(Compiled(env, pr)))
  }

  function Next(env: Env, s: State, e: Step): State
    requires Enabled(s, e)
  {
    match e
    case Whole(op) =>
      State(Perform(env, s.db, op), map p | p in s.under :: Noticed(env, s.db, op, s.under[p]), s.last)
    case ReadArticle(p, id) =>
      if !Visible(s.db.articles, id) then s
      else s.(under := s.under[p := Opened(id, s.db.articles[id].publishedAt)])
    case ReadCards(p) =>
      var pr := s.under[p];
      s.(under := s.under[p := CardsRead(pr.id, pr.publishedAt, Payloads(s.db.cards, pr.id), false)])
    case ReadReferences(p) =>
      var pr := s.under[p];
      var pub := BuildPublicationMap(s.db.articles, pr.cards);
      if pub.Err? then s.(under := s.under - {p})
      else s.(under := s.under[p := Ready(pr.id, pr.publishedAt, pr.cards, pr.edited, pub.value)])
    case Update(p, now) =>
      var pr := s.under[p];
      if !Accepts(s.db.articles, pr.id) then s.(under := s.under - {p})
      else State(s.db.(articles := s.db.articles[pr.id := Updated(env, s.db.articles[pr.id], pr, now)]),
                 s.under - {p}, s.last[pr.id := pr])
  }

  // ---------------------------------------------------------------- the invariant

  /** Without an edit since its read, a publish holds the cards the article has. */
  predicate UpToDate(s: State, pr: Publishing) {
    !pr.Opened? && !pr.edited ==> pr.cards == Payloads(s.db.cards, pr.id)
  }

  predicate BodyWell(env: Env, s: State, id: string)
    requires id in s.db.articles
  {
    s.db.articles[id].status == PUBLISHED ==>
      && id in s.last && s.last[id].Ready? && s.last[id].id == id
      && s.db.articles[id].body == Some(Compiled(env, s.last[id]))
      && UpToDate(s, s.last[id])
  }

  ghost predicate Inv(env: Env, s: State) {
    && Contiguous(s.db.cards)
    && (forall p <- s.under :: UpToDate(s, s.under[p]))
    && (forall id <- s.db.articles :: BodyWell(env, s, id))
  }

  lemma OtherPayloads(env: Env, db: Db, op: Op, id: string)
    requires Contiguous(db.cards) && FreshId(db, op) && !Edits(env, db, op, id)
    ensures Payloads(Perform(env, db, op).cards, id) == Payloads(db.cards, id)
  {
    if IsCardOp(op) && Failure(env, db, op).None? {
      CardOpTouches(env, db, op);
      CardOpRefinesEdit(env, db, op);
      OtherArticlesKeep(ReadInOrder(db.cards, id), id, env, db, op);
      PayloadsFrame(db.cards, CardsAfter(env, db, op), op.article, id);
    } else {
      OtherOpsKeepCards(env, db, op);
    }
  }

  lemma WholeKeepsBody(env: Env, s: State, op: Op, id: string)
    requires Inv(env, s) && Enabled(s, Whole(op)) && id in Next(env, s, Whole(op)).db.articles
    ensures BodyWell(env, Next(env, s, Whole(op)), id)
  {
    if Perform(env, s.db, op).articles[id].status == PUBLISHED {
      PublishedAfter(env, s.db, op, id);
      assert BodyWell(env, s, id);
      if Edits(env, s.db, op, id) {
        EditTargetsDraft(env, s.db, op);
      } else {
        OtherPayloads(env, s.db, op, id);
      }
    }
  }

  lemma WholeKeepsInv(env: Env, s: State, op: Op)
    requires Inv(env, s) && Enabled(s, Whole(op))
    ensures Inv(env, Next(env, s, Whole(op)))
  {
    var s' := Next(env, s, Whole(op));
    StepRefinesEdit(env, s.db, op);
    forall p <- s'.under ensures UpToDate(s', s'.under[p]) {
      assert UpToDate(s, s.under[p]);
      if !Edits(env, s.db, op, s.under[p].id) {
        OtherPayloads(env, s.db, op, s.under[p].id);
      }
    }
    forall id <- s'.db.articles ensures BodyWell(env, s', id) {
      WholeKeepsBody(env, s, op, id);
    }
  }

  lemma UpdateKeepsInv(env: Env, s: State, p: nat, now: nat)
    requires Inv(env, s) && Enabled(s, Update(p, now))
    ensures Inv(env, Next(env, s, Update(p, now)))
  {
    var s' := Next(env, s, Update(p, now));
    assert UpToDate(s, s.under[p]);
    forall id <- s'.db.articles ensures BodyWell(env, s', id) {
      assert id in s.db.articles ==> BodyWell(env, s, id);
    }
    forall q <- s'.under ensures UpToDate(s', s'.under[q]) {
      assert UpToDate(s, s.under[q]);
    }
  }

  lemma ReadKeepsInv(env: Env, s: State, s': State)
    requires Inv(env, s) && s'.db == s.db && s'.last == s.last
    requires forall p <- s'.under :: UpToDate(s, s'.under[p])
    ensures Inv(env, s')
  {
    forall id <- s'.db.articles ensures BodyWell(env, s', id) {
      assert BodyWell(env, s, id);
    }
  }

  lemma ReadStaysUpToDate(env: Env, s: State, e: Step)
    requires (forall p <- s.under :: UpToDate(s, s.under[p])) && Enabled(s, e) && !e.Whole? && !e.Update?
    ensures Next(env, s, e).db == s.db && Next(env, s, e).last == s.last
    ensures forall p <- Next(env, s, e).under :: UpToDate(s, Next(env, s, e).under[p])
  {
    var under := Next(env, s, e).under;
    forall q <- under ensures UpToDate(s, under[q]) {
      if q == e.p && e.ReadReferences? {
        assert UpToDate(s, s.under[q]);
      }
    }
  }

  lemma StepKeepsInv(env: Env, s: State, e: Step)
    requires Inv(env, s) && Enabled(s, e)
    ensures Inv(env, Next(env, s, e))
  {
    match e
    case Whole(op) => WholeKeepsInv(env, s, op);
    case Update(p, now) => UpdateKeepsInv(env, s, p, now);
    case _ =>
      ReadStaysUpToDate(env, s, e);
      ReadKeepsInv(env, s, Next(env, s, e));
  }

  // ---------------------------------------------------------------- runs

  ghost predicate Leads(env: Env, s: State, steps: seq<Step>, s': State)
    decreases |steps|
  {
    if steps == [] then s' == s
    else Enabled(s, steps[0]) && Leads(env, Next(env, s, steps[0]), steps[1..], s')
  }

  lemma {:induction false} RunKeepsInv(env: Env, s: State, steps: seq<Step>, s': State)
    requires Inv(env, s) && Leads(env, s, steps, s')
    ensures Inv(env, s')
    decreases |steps|
  {
    if steps != [] {
      StepKeepsInv(env, s, steps[0]);
      RunKeepsInv(env, Next(env, s, steps[0]), steps[1..], s');
    }
  }

  lemma EmptyIsWell(env: Env)
    ensures Inv(env, State(Db(map[], map[]), map[], map[]))
  {
    NewsRuns.EmptyIsWell(env);
  }

  /**
   * Over every interleaving of publishes with all other operations, a published article's body is the
   * compilation of the cards its publish read; and if no edit of its cards was committed between that
   * read and the update, it is the compilation of the cards the article has now.
   */
  lemma BodiesUnderRaces(env: Env, steps: seq<Step>, s: State, id: string)
    requires Leads(env, State(Db(map[], map[]), map[], map[]), steps, s)
    requires id in s.db.articles && s.db.articles[id].status == PUBLISHED
    ensures id in s.last && s.last[id].Ready? && s.last[id].id == id
    ensures s.db.articles[id].body == Some(Compile(env.renderer, s.last[id].pub, s.last[id].cards))
    ensures !s.last[id].edited ==>
              s.db.articles[id].body == Some(Compile(env.renderer, s.last[id].pub, Payloads(s.db.cards, id)))
  {
    EmptyIsWell(env);
    RunKeepsInv(env, State(Db(map[], map[]), map[], map[]), steps, s);
    assert BodyWell(env, s, id);
  }

  /** The compilation of a publish, on the cards the article would have after an operation. */
  function CompiledAfter(env: Env, s: State, op: Op, pr: Publishing): CompiledBody
    requires pr.Ready? && FreshId(s.db, op)
  {
    Compile(env.renderer, pr.pub, Payloads(Perform(env, s.db, op).cards, pr.id))
  }

  /**
   * The condition is needed: let a card edit commit when a publish of its article is about to update.
   * The update is accepted all the same, and the published body is the compilation of the current cards
   * only if the edit makes no difference to the compilation.
   */
  lemma EditLosesRace(env: Env, s: State, p: nat, op: Op, now: nat) returns (s2: State)
    requires Inv(env, s) && p in s.under && s.under[p].Ready? && !s.under[p].edited
    requires FreshId(s.db, op) && Edits(env, s.db, op, s.under[p].id)
    ensures Leads(env, s, [Whole(op), Update(p, now)], s2)
    ensures var pr := s.under[p];
            && pr.id in s2.db.articles && s2.db.articles[pr.id].status == PUBLISHED
            && pr.id in s2.last && s2.last[pr.id] == pr.(edited := true)
            && (s2.db.articles[pr.id].body == Some(Compile(env.renderer, pr.pub, Payloads(s2.db.cards, pr.id)))
                <==> CompiledAfter(env, s, op, pr) == Compile(env.renderer, pr.pub, Payloads(s.db.cards, pr.id)))
  {
    var pr := s.under[p];
    assert UpToDate(s, pr);
    EditKeepsArticles(env, s.db, op);
    var s1 := Next(env, s, Whole(op));
    s2 := Next(env, s1, Update(p, now));
    var steps := [Whole(op), Update(p, now)];
    assert steps[1..] == [Update(p, now)] && steps[1..][1..] == [];
  }

  lemma EditKeepsArticles(env: Env, db: Db, op: Op)
    requires IsCardOp(op) && FreshId(db, op) && Failure(env, db, op).None?
    ensures Perform(env, db, op).articles == db.articles && Accepts(db.articles, op.article)
  {
    CardOpOutcome(env, db, op);
    EditTargetsDraft(env, db, op);
  }
}
