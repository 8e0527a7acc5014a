/**
 * Publishing, reverting and archiving under any interleaving of concurrent callers. Each caller reads
 * the row, makes one guarded update, and on failure may read again to choose its error
 * (src/modules/news/news.service.ts, src/modules/pages/pages.service.ts).
 */
module Lifecycle {
  import opened Common
  import opened Content

  datatype Kind = NewsArticle | Page

  /** A row of the articles or of the pages table. */
  datatype Ref = Ref(kind: Kind, id: string)

  datatype Item = Item(status: ContentStatus, publishedAt: Option<nat>, deleted: bool)

  datatype Action = Publish | Revert | Archive

  datatype Answer = Done | NotFound | AlreadyPublished | NotPublished | DraftNotArchivable | AlreadyArchived

  /** A row as it was when `at` transitions had been committed. */
  datatype Sight = Sight(item: Item, at: nat)

  /** Where a caller stands: `met` is the row its guarded update met, `last` the row of its last read. */
  datatype Caller =
    | Reading(action: Action, ref: Ref)
    | Updating(action: Action, ref: Ref, seen: Item)
    | Rereading(action: Action, ref: Ref, met: Sight)
    | Finished(action: Action, ref: Ref, answer: Answer, atGuard: Option<Sight>, last: Option<Sight>)

  datatype Commit = Commit(ref: Ref, action: Action)

  datatype State = State(items: map<Ref, Item>, callers: map<nat, Caller>, log: seq<Commit>)

  const INIT: State := State(map[], map[], [])

  datatype Step =
    | Create(ref: Ref)
    | Begin(c: nat, action: Action, ref: Ref)
    | Advance(c: nat, now: nat)
    | SoftDelete(ref: Ref)
    | SetPublishedAt(ref: Ref, value: Option<nat>)

  /** The WHERE clause of the update. */
  predicate Guard(kind: Kind, item: Item, action: Action) {
    && (kind == NewsArticle ==> !item.deleted)
    && (action == Publish <==> item.status != PUBLISHED)
  }

  function Effect(kind: Kind, item: Item, action: Action, seen: Item, now: nat): Item {
    match action
    case Publish =>
      item.(status := PUBLISHED, publishedAt := Some(if kind == NewsArticle then seen.publishedAt.GetOr(now) else now))
    case Revert => item.(status := DRAFT)
    case Archive => item.(status := ARCHIVED)
  }

  /** The error chosen after a refused update, from the row read again. */
  function Explain(kind: Kind, item: Item, action: Action): Answer {
    if kind == NewsArticle then (if item.deleted then NotFound else AlreadyPublished)
    else if action == Publish then AlreadyPublished
    else if item.status == DRAFT then DraftNotArchivable
    else AlreadyArchived
  }

  predicate Visible(s: State, ref: Ref) {
    ref in s.items && (ref.kind == NewsArticle ==> !s.items[ref].deleted)
  }

  function Advanced(s: State, c: nat, now: nat): State
    requires c in s.callers
  {
    var caller := s.callers[c];
    var ref, action := caller.ref, caller.action;
    match caller
    case Reading(_, _) =>
      if !Visible(s, ref) then
        var last := if ref in s.items then Some(Sight(s.items[ref], |s.log|)) else None;
        s.(callers := s.callers[c := Finished(action, ref, NotFound, None, last)])
      else s.(callers := s.callers[c := Updating(action, ref, s.items[ref])])
    case Updating(_, _, seen) =>
      if ref !in s.items then s
      else if Guard(ref.kind, s.items[ref], action) then
        State(s.items[ref := Effect(ref.kind, s.items[ref], action, seen, now)],
              s.callers[c := Finished(action, ref, Done, Some(Sight(s.items[ref], |s.log|)), None)],
              s.log + [Commit(ref, action)])
      else if ref.kind == NewsArticle && action != Publish then
        s.(callers := s.callers[c := Finished(action, ref, NotPublished, Some(Sight(s.items[ref], |s.log|)), None)])
      else s.(callers := s.callers[c := Rereading(action, ref, Sight(s.items[ref], |s.log|))])
    case Rereading(_, _, met) =>
      if ref !in s.items then s
      else
        var last := Sight(s.items[ref], |s.log|);
        s.(callers := s.callers[c := Finished(action, ref, Explain(ref.kind, last.item, action), Some(met), Some(last))])
    case Finished(_, _, _, _, _) => s
  }

  /** Rows are created once and never removed; only articles are reverted, soft-deleted or re-dated. */
  predicate Enabled(s: State, step: Step) {
    match step
    case Create(ref) => ref !in s.items
    case Begin(c, action, ref) => c !in s.callers && (ref.kind == Page ==> action != Revert)
    case Advance(c, _) => c in s.callers
    case SoftDelete(ref) => ref in s.items && ref.kind == NewsArticle
    case SetPublishedAt(ref, _) => ref in s.items && ref.kind == NewsArticle
  }

  function Next(s: State, step: Step): State
    requires Enabled(s, step)
  {
    match step
    case Create(ref) => s.(items := s.items[ref := Item(DRAFT, None, false)])
    case Begin(c, action, ref) => s.(callers := s.callers[c := Reading(action, ref)])
    case Advance(c, now) => Advanced(s, c, now)
    case SoftDelete(ref) => s.(items := s.items[ref := s.items[ref].(deleted := true)])
    case SetPublishedAt(ref, v) => s.(items := s.items[ref := s.items[ref].(publishedAt := v)])
  }

  predicate ValidRun(s: State, steps: seq<Step>)
    decreases |steps|
  {
    steps == [] || (Enabled(s, steps[0]) && ValidRun(Next(s, steps[0]), steps[1..]))
  }

  function Run(s: State, steps: seq<Step>): State
    requires ValidRun(s, steps)
    decreases |steps|
  {
    if steps == [] then s else Run(Next(s, steps[0]), steps[1..])
  }

  // ---------------------------------------------------------------- histories

  /** The committed transitions of one item, in order. */
  function Own(log: seq<Commit>, ref: Ref): seq<Action> {
    if log == [] then []
    else
      var rest := Own(log[..|log| - 1], ref);
      if log[|log| - 1].ref == ref then rest + [log[|log| - 1].action] else rest
  }

  predicate Alternates(own: seq<Action>) {
    forall i :: 0 <= i < |own| ==> (own[i] == Publish <==> i % 2 == 0)
  }

  predicate Success(c: Caller, ref: Ref, action: Action) {
    c.Finished? && c.ref == ref && c.action == action && c.answer == Done
  }

  /** The callers whose `action` on the item succeeded. */
  function Succeeded(s: State, ref: Ref, action: Action): set<nat> {
    set c | c in s.callers && Success(s.callers[c], ref, action)
  }

  // ---------------------------------------------------------------- the invariant

  function One(b: bool): nat { if b then 1 else 0 }

  predicate PublishedNow(s: State, ref: Ref) {
    ref in s.items && s.items[ref].status == PUBLISHED
  }

  ghost predicate HistoryWell(s: State, ref: Ref) {
    && Alternates(Own(s.log, ref))
    && (ref !in s.items ==> Own(s.log, ref) == [])
    && (PublishedNow(s, ref) <==> |Own(s.log, ref)| % 2 == 1)
  }

  ghost predicate CountWell(s: State, ref: Ref) {
    |Succeeded(s, ref, Publish)|
    == |Succeeded(s, ref, Archive)| + |Succeeded(s, ref, Revert)|
       + One(PublishedNow(s, ref))
  }

  /** How a row can look later on. */
  predicate Later(kind: Kind, before: Item, after: Item) {
    && (before.deleted ==> after.deleted)
    && (kind == Page && before.status != DRAFT ==> after.status != DRAFT)
  }

  /** What an answer tells about the row the guarded update met, and about the last row read. */
  predicate Truthful(kind: Kind, action: Action, answer: Answer, met: Option<Sight>, last: Option<Sight>) {
    match answer
    case Done => met.Some? && Guard(kind, met.value.item, action)
    case AlreadyPublished =>
      && action == Publish && met.Some? && met.value.item.status == PUBLISHED && last.Some?
      && (kind == NewsArticle ==> !met.value.item.deleted && !last.value.item.deleted)
    case NotPublished =>
      && kind == NewsArticle && action != Publish
      && met.Some? && (met.value.item.status != PUBLISHED || met.value.item.deleted)
    case DraftNotArchivable =>
      kind == Page && action == Archive && met.Some? && last.Some? && last.value.item.status == DRAFT
    case AlreadyArchived =>
      && kind == Page && action == Archive && met.Some? && met.value.item.status != PUBLISHED
      && last.Some? && last.value.item.status != DRAFT
    case NotFound =>
      && (met.Some? ==> kind == NewsArticle && action == Publish && last.Some? && !Guard(kind, met.value.item, action))
      && (last.Some? ==> kind == NewsArticle && last.value.item.deleted)
  }

  /** A page is a draft exactly when it has no publication date. */
  predicate WellDated(kind: Kind, item: Item) {
    kind == Page ==> (item.status == DRAFT <==> item.publishedAt.None?)
  }

  /** A publish of the item is among the transitions committed from `i` up to `j`. */
  predicate PublishedBetween(log: seq<Commit>, ref: Ref, i: nat, j: nat)
    requires j <= |log|
  {
    exists k :: i <= k < j && log[k] == Commit(ref, Publish)
  }

  /** How a row met earlier can look when it is read again. */
  predicate Follows(log: seq<Commit>, ref: Ref, met: Sight, last: Sight) {
    && met.at <= last.at <= |log| && Later(ref.kind, met.item, last.item)
    && (ref.kind == Page && met.item.status == DRAFT ==>
          (last.item.status == DRAFT <==> !PublishedBetween(log, ref, met.at, last.at)))
  }

  predicate CallerWell(s: State, c: Caller) {
    && (c.ref.kind == Page ==> c.action != Revert)
    && match c
       case Rereading(action, ref, met) =>
         && ref in s.items && !Guard(ref.kind, met.item, action) && WellDated(ref.kind, met.item)
         && Follows(s.log, ref, met, Sight(s.items[ref], |s.log|))
         && (ref.kind == NewsArticle ==> action == Publish)
       case Finished(action, ref, answer, met, last) =>
         && Truthful(ref.kind, action, answer, met, last)
         && (met.Some? ==> WellDated(ref.kind, met.value.item))
         && (met.Some? && last.Some? ==> Follows(s.log, ref, met.value, last.value))
       case _ => true
  }

  predicate RowsWell(s: State) {
    && (forall c <- s.callers :: CallerWell(s, s.callers[c]))
    && (forall ref <- s.items :: WellDated(ref.kind, s.items[ref]))
  }

  ghost predicate Inv(s: State) {
    && (forall ref :: HistoryWell(s, ref))
    && (forall ref :: CountWell(s, ref))
    && RowsWell(s)
  }

  lemma OwnAppend(log: seq<Commit>, e: Commit, ref: Ref)
    ensures Own(log + [e], ref) == if e.ref == ref then Own(log, ref) + [e.action] else Own(log, ref)
  {
    assert (log + [e])[..|log|] == log;
  }

  /** A step commits nothing, and then no item becomes or stops being published, or commits one transition. */
  lemma StepCommits(s: State, step: Step, ref: Ref)
    requires Enabled(s, step)
    ensures var s' := Next(s, step);
            if s'.log == s.log then PublishedNow(s', ref) == PublishedNow(s, ref)
            else
              && step.Advance? && step.c in s.callers && s.callers[step.c].ref in s.items
              && s'.log == s.log + [Commit(s.callers[step.c].ref, s.callers[step.c].action)]
              && (ref != s.callers[step.c].ref ==> PublishedNow(s', ref) == PublishedNow(s, ref))
              && (ref == s.callers[step.c].ref ==>
                    && PublishedNow(s', ref) == (s.callers[step.c].action == Publish)
                    && PublishedNow(s, ref) != PublishedNow(s', ref))
    ensures ref in s.items ==> ref in Next(s, step).items
  {
  }

  lemma StepKeepsHistory(s: State, step: Step, ref: Ref)
    requires HistoryWell(s, ref) && Enabled(s, step)
    ensures HistoryWell(Next(s, step), ref)
  {
    StepCommits(s, step, ref);
    if Next(s, step).log != s.log {
      OwnAppend(s.log, Commit(s.callers[step.c].ref, s.callers[step.c].action), ref);
    }
  }

  /** Moving one unfinished caller adds it to a success set or leaves the set alone. */
  lemma CallerMoves(s: State, s': State, c: nat, v: Caller, ref: Ref, action: Action)
    requires c in s.callers ==> !Success(s.callers[c], ref, action)
    requires s'.callers == s.callers[c := v]
    ensures |Succeeded(s', ref, action)| == |Succeeded(s, ref, action)| + One(Success(v, ref, action))
  {
    var before, after := Succeeded(s, ref, action), Succeeded(s', ref, action);
    assert c !in before && (c in after <==> Success(v, ref, action));
    forall x | x != c ensures x in after <==> x in before {
      assert x in s'.callers <==> x in s.callers;
    }
    SameButOne(before, after, c);
  }

  lemma SameButOne(before: set<nat>, after: set<nat>, c: nat)
    requires c !in before && forall x | x != c :: x in after <==> x in before
    ensures |after| == |before| + One(c in after)
  {
    assert after == if c in after then before + {c} else before;
  }

  predicate Succeeds(s: State, step: Step, ref: Ref, action: Action)
    requires Enabled(s, step)
  {
    step.Advance? && !s.callers[step.c].Finished? && step.c in Next(s, step).callers
    && Success(Next(s, step).callers[step.c], ref, action)
  }

  /** The callers counted for an item change only when one of them has just succeeded. */
  lemma SucceededStep(s: State, step: Step, ref: Ref, action: Action)
    requires Enabled(s, step)
    ensures |Succeeded(Next(s, step), ref, action)|
         == |Succeeded(s, ref, action)| + One(Succeeds(s, step, ref, action))
  {
    var s' := Next(s, step);
    if step.Begin? || (step.Advance? && !s.callers[step.c].Finished?) {
      CallerMoves(s, s', step.c, s'.callers[step.c], ref, action);
    } else {
      assert s'.callers == s.callers;
      assert Succeeded(s', ref, action) == Succeeded(s, ref, action);
    }
  }

  lemma StepKeepsCount(s: State, step: Step, ref: Ref)
    requires Inv(s) && Enabled(s, step)
    ensures CountWell(Next(s, step), ref)
  {
    assert CountWell(s, ref);
    SucceededStep(s, step, ref, Publish);
    SucceededStep(s, step, ref, Archive);
    SucceededStep(s, step, ref, Revert);
  }

  /** Rows only ever move to later looks, and pages keep status and date in step. */
  lemma StepMovesItems(s: State, step: Step)
    requires RowsWell(s) && Enabled(s, step)
    ensures var s' := Next(s, step);
            && (forall ref <- s.items :: ref in s'.items && Later(ref.kind, s.items[ref], s'.items[ref]))
            && (forall ref <- s'.items :: WellDated(ref.kind, s'.items[ref]))
  {
  }

  /** Between two reads of a page that was a draft, it stops being one exactly by a publish. */
  lemma StepMovesDrafts(s: State, step: Step, ref: Ref)
    requires Enabled(s, step) && ref in s.items && ref.kind == Page
    requires step.Advance? ==> CallerWell(s, s.callers[step.c])
    ensures var s' := Next(s, step);
            && ref in s'.items && s.log <= s'.log && |s'.log| <= |s.log| + 1
            && (s'.items[ref].status == DRAFT <==>
                  s.items[ref].status == DRAFT && !PublishedBetween(s'.log, ref, |s.log|, |s'.log|))
  {
    var s' := Next(s, step);
    if s'.log != s.log {
      StepCommits(s, step, ref);
      assert s'.log[|s.log|] == Commit(s.callers[step.c].ref, s.callers[step.c].action);
    }
  }

  lemma BetweenGrows(log: seq<Commit>, log': seq<Commit>, ref: Ref, i: nat, j: nat)
    requires log <= log' && j <= |log|
    ensures PublishedBetween(log, ref, i, j) <==> PublishedBetween(log', ref, i, j)
  {
    if PublishedBetween(log, ref, i, j) {
      var k :| i <= k < j && log[k] == Commit(ref, Publish);
      assert log'[k] == Commit(ref, Publish);
    }
    if PublishedBetween(log', ref, i, j) {
      var k :| i <= k < j && log'[k] == Commit(ref, Publish);
      assert log[k] == Commit(ref, Publish);
    }
  }

  lemma BetweenJoins(log: seq<Commit>, ref: Ref, i: nat, j: nat, k: nat)
    requires i <= j <= k <= |log|
    ensures PublishedBetween(log, ref, i, k) <==> PublishedBetween(log, ref, i, j) || PublishedBetween(log, ref, j, k)
  {
    if PublishedBetween(log, ref, i, k) {
      var n :| i <= n < k && log[n] == Commit(ref, Publish);
      assert n < j ==> PublishedBetween(log, ref, i, j);
      assert n >= j ==> PublishedBetween(log, ref, j, k);
    }
  }

  /** What a waiting caller knows about its row stays right when anyone takes a step. */
  lemma StepKeepsFollows(s: State, step: Step, ref: Ref, met: Sight)
    requires RowsWell(s) && Enabled(s, step) && ref in s.items
    requires Follows(s.log, ref, met, Sight(s.items[ref], |s.log|))
    ensures var s' := Next(s, step);
            ref in s'.items && Follows(s'.log, ref, met, Sight(s'.items[ref], |s'.log|))
  {
    var s' := Next(s, step);
    StepMovesItems(s, step);
    LogGrows(s, step);
    if ref.kind == Page {
      assert step.Advance? ==> CallerWell(s, s.callers[step.c]);
      StepMovesDrafts(s, step, ref);
      BetweenGrows(s.log, s'.log, ref, met.at, |s.log|);
      BetweenJoins(s'.log, ref, met.at, |s.log|, |s'.log|);
    }
  }

  lemma LogGrows(s: State, step: Step)
    requires Enabled(s, step)
    ensures s.log <= Next(s, step).log
  {
  }

  lemma OtherCallerStays(s: State, step: Step, c: Caller)
    requires RowsWell(s) && Enabled(s, step) && CallerWell(s, c)
    ensures CallerWell(Next(s, step), c)
  {
    var s' := Next(s, step);
    LogGrows(s, step);
    if c.Rereading? {
      StepKeepsFollows(s, step, c.ref, c.met);
    } else if c.Finished? && c.atGuard.Some? && c.last.Some? {
      BetweenGrows(s.log, s'.log, c.ref, c.atGuard.value.at, c.last.value.at);
    }
  }

  lemma OwnStepKeepsCaller(s: State, step: Step)
    requires RowsWell(s) && Enabled(s, step) && (step.Begin? || step.Advance?)
    ensures var s' := Next(s, step);
            && step.c in s'.callers && CallerWell(s', s'.callers[step.c])
            && s'.callers == s.callers[step.c := s'.callers[step.c]]
  {
    if step.Advance? {
      assert CallerWell(s, s.callers[step.c]);
      var ref := s.callers[step.c].ref;
      assert !PublishedBetween(s.log, ref, |s.log|, |s.log|);
    }
  }

  lemma StepKeepsRows(s: State, step: Step)
    requires RowsWell(s) && Enabled(s, step)
    ensures RowsWell(Next(s, step))
  {
    var s' := Next(s, step);
    StepMovesItems(s, step);
    if step.Begin? || step.Advance? {
      OwnStepKeepsCaller(s, step);
    } else {
      assert s'.callers == s.callers;
    }
    forall c <- s'.callers ensures CallerWell(s', s'.callers[c]) {
      if c in s.callers && s'.callers[c] == s.callers[c] {
        OtherCallerStays(s, step, s.callers[c]);
      }
    }
  }

  lemma StepKeepsInv(s: State, step: Step)
    requires Inv(s) && Enabled(s, step)
    ensures Inv(Next(s, step))
  {
    forall ref ensures HistoryWell(Next(s, step), ref) && CountWell(Next(s, step), ref) {
      assert HistoryWell(s, ref);
      StepKeepsHistory(s, step, ref);
      StepKeepsCount(s, step, ref);
    }
    StepKeepsRows(s, step);
  }

  lemma {:induction false} RunKeepsInv(s: State, steps: seq<Step>)
    requires Inv(s) && ValidRun(s, steps)
    ensures Inv(Run(s, steps))
    decreases |steps|
  {
    if steps != [] {
      StepKeepsInv(s, steps[0]);
      RunKeepsInv(Next(s, steps[0]), steps[1..]);
    }
  }

  /**
   * Under every interleaving an item's committed transitions alternate, starting with a publish, and
   * the callers told that they published outnumber those told that they archived or reverted by one
   * exactly while the item is PUBLISHED.
   */
  lemma PublishingAlternates(steps: seq<Step>, ref: Ref)
    requires ValidRun(INIT, steps)
    requires ref in Run(INIT, steps).items
    ensures var s := Run(INIT, steps);
            var published := s.items[ref].status == PUBLISHED;
            && Alternates(Own(s.log, ref))
            && |Succeeded(s, ref, Publish)|
               == |Succeeded(s, ref, Archive)| + |Succeeded(s, ref, Revert)| + One(published)
            && (published <==> |Own(s.log, ref)| % 2 == 1)
            && (ref.kind == Page ==> (s.items[ref].status == DRAFT <==> s.items[ref].publishedAt.None?))
  {
    RunKeepsInv(INIT, steps);
    assert HistoryWell(Run(INIT, steps), ref);
    assert CountWell(Run(INIT, steps), ref);
  }

  /**
   * What a finished caller may conclude. "Already published" was true of the row its update met;
   * "not published" means that row was not published or deleted; not-found means there was no row at
   * the last read, or a deleted one.
   */
  lemma AnswersAreTruthful(steps: seq<Step>, c: nat)
    requires ValidRun(INIT, steps)
    requires c in Run(INIT, steps).callers && Run(INIT, steps).callers[c].Finished?
    ensures var caller := Run(INIT, steps).callers[c];
            Truthful(caller.ref.kind, caller.action, caller.answer, caller.atGuard, caller.last)
  {
    RunKeepsInv(INIT, steps);
    assert CallerWell(Run(INIT, steps), Run(INIT, steps).callers[c]);
  }

  /** The answer to a refused page archive fits the row that refused it. */
  predicate Describes(answer: Answer, met: Item) {
    (answer == DraftNotArchivable && met.status == DRAFT) || (answer == AlreadyArchived && met.status == ARCHIVED)
  }

  /**
   * The answer to a refused page archive is right about the refused row unless that row was a draft and
   * no longer was one when read again. If the row had a publication date the answer is always "already
   * archived", and right. If it had none, the answer is wrong exactly when a publish of the page was
   * committed between the refused update and the second read.
   */
  lemma ArchiveAnswerExact(steps: seq<Step>, c: nat)
    requires ValidRun(INIT, steps) && c in Run(INIT, steps).callers
    requires var caller := Run(INIT, steps).callers[c];
             && caller.Finished? && caller.ref.kind == Page && caller.action == Archive
             && caller.atGuard.Some? && caller.answer != Done
    ensures var s := Run(INIT, steps);
            var Finished(_, ref, answer, met, last) := s.callers[c];
            && last.Some? && last.value.at <= |s.log|
            && (Describes(answer, met.value.item) <==>
                  !(met.value.item.status == DRAFT && last.value.item.status != DRAFT))
            && (met.value.item.publishedAt.Some? ==> answer == AlreadyArchived && met.value.item.status == ARCHIVED)
            && (met.value.item.publishedAt.None? ==>
                  (Describes(answer, met.value.item) <==>
                     !PublishedBetween(s.log, ref, met.value.at, last.value.at)))
  {
    RunKeepsInv(INIT, steps);
    assert CallerWell(Run(INIT, steps), Run(INIT, steps).callers[c]);
  }

  /**
   * The answer to a refused publish: "not found" exactly when the article was deleted at the second
   * read. It is then right about the refused row exactly when that row was deleted already; otherwise
   * the row was a published one. "Already published" is always right.
   */
  lemma PublishAnswerExact(steps: seq<Step>, c: nat)
    requires ValidRun(INIT, steps) && c in Run(INIT, steps).callers
    requires var caller := Run(INIT, steps).callers[c];
             && caller.Finished? && caller.action == Publish && caller.atGuard.Some? && caller.answer != Done
    ensures var Finished(_, ref, answer, met, last) := Run(INIT, steps).callers[c];
            && last.Some?
            && (answer == NotFound <==> ref.kind == NewsArticle && last.value.item.deleted)
            && (answer == AlreadyPublished <==> answer != NotFound)
            && (answer == AlreadyPublished ==> met.value.item.status == PUBLISHED)
            && (answer == NotFound && !met.value.item.deleted ==> met.value.item.status == PUBLISHED)
  {
    RunKeepsInv(INIT, steps);
    assert CallerWell(Run(INIT, steps), Run(INIT, steps).callers[c]);
  }

  lemma RunCons(s: State, step: Step, rest: seq<Step>)
    requires Enabled(s, step) && ValidRun(Next(s, step), rest)
    ensures ValidRun(s, [step] + rest) && Run(s, [step] + rest) == Run(Next(s, step), rest)
  {
    assert ([step] + rest)[1..] == rest;
  }

  /**
   * "Already archived" can be told of a page that never was: a caller that met a draft and reads again
   * only after someone else has published it gets that answer.
   */
  lemma ArchiveErrorCanMislead(id: string, now: nat) returns (steps: seq<Step>)
    ensures ValidRun(INIT, steps)
    ensures var s := Run(INIT, steps);
            && 0 in s.callers && s.callers[0].Finished? && s.callers[0].answer == AlreadyArchived
            && Own(s.log, Ref(Page, id)) == [Publish]
  {
    var ref := Ref(Page, id);
    var draft := Item(DRAFT, None, false);
    var s1 := Next(INIT, Create(ref));
    var s2 := Next(s1, Begin(0, Archive, ref));
    var s3 := Next(s2, Advance(0, now));
    var s4 := Next(s3, Advance(0, now));
    assert s4.callers[0] == Rereading(Archive, ref, Sight(draft, 0));
    var s5 := Next(s4, Begin(1, Publish, ref));
    var s6 := Next(s5, Advance(1, now));
    var s7 := Next(s6, Advance(1, now));
    assert s7.items[ref].status == PUBLISHED && s7.log == [] + [Commit(ref, Publish)];
    OwnAppend([], Commit(ref, Publish), ref);
    var s8 := Next(s7, Advance(0, now));
    assert s8.callers[0].Finished? && s8.callers[0].answer == AlreadyArchived;
    steps := [];
    RunCons(s7, Advance(0, now), steps);
    steps := [Advance(0, now)] + steps;
    RunCons(s6, Advance(1, now), steps);
    steps := [Advance(1, now)] + steps;
    RunCons(s5, Advance(1, now), steps);
    steps := [Advance(1, now)] + steps;
    RunCons(s4, Begin(1, Publish, ref), steps);
    steps := [Begin(1, Publish, ref)] + steps;
    RunCons(s3, Advance(0, now), steps);
    steps := [Advance(0, now)] + steps;
    RunCons(s2, Advance(0, now), steps);
    steps := [Advance(0, now)] + steps;
    RunCons(s1, Begin(0, Archive, ref), steps);
    steps := [Begin(0, Archive, ref)] + steps;
    RunCons(INIT, Create(ref), steps);
    steps := [Create(ref)] + steps;
  }
}
