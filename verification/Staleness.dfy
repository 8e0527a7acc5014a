/**
 * How old an answer from the page cache or the article cache can be, under every interleaving of
 * readers, writers and invalidations of one key (src/modules/public/public.service.ts). Deleting a key
 * does not stop a slow reader from filling it with an older answer; the entry's life bounds the harm.
 */
module Staleness {
  import opened Common
  import opened Content
  import opened PublicModel

  /** An answer with its origin: the position of the table state it was computed from, and when. */
  datatype Dated<+V> = Dated(answer: Outcome<V>, from: nat, asked: nat)

  /** The cache entry of the key; text that cannot be parsed has no value. */
  datatype Slot<+V> = Slot(value: Option<Dated<V>>, expiry: nat)

  datatype Reader<+V> =
    | Looking
    | Dropping
    | Asking
    | Filling(result: Dated<V>)
    | Answered(result: Dated<V>, at: nat)

  /** `history` holds every state the table has had, the current one last; `since` when each began. */
  datatype State<T, V> = State(
    history: seq<T>, since: seq<nat>, slot: Option<Slot<V>>, now: nat, readers: map<nat, Reader<V>>)

  datatype Step<T> =
    | Begin(r: nat)
    | Lookup(r: nat)
    | Drop(r: nat)
    | Ask(r: nat)
    | FillSlot(r: nat)
    | Write(table: T)
    | Invalidate
    | Damage
    | Tick(ms: nat)

  /** How long an answer stays cached, in milliseconds. */
  function Life<V>(answer: Outcome<V>): nat {
    1000 * if answer.Missing? then PUBLIC_CACHE_NOT_FOUND_TTL_SECONDS else PUBLIC_CACHE_TTL_SECONDS
  }

  /** A reader fills the cache at most `delay` milliseconds after its query. */
  predicate Enabled<T, V>(s: State<T, V>, e: Step<T>, delay: nat) {
    && s.history != []
    && match e
       case Begin(r) => r !in s.readers
       case Lookup(r) => r in s.readers && s.readers[r].Looking?
       case Drop(r) => r in s.readers && s.readers[r].Dropping?
       case Ask(r) => r in s.readers && s.readers[r].Asking?
       case FillSlot(r) => r in s.readers && s.readers[r].Filling? && s.now <= s.readers[r].result.asked + delay
       case _ => true
  }

  function Looked<V>(slot: Option<Slot<V>>, now: nat): Reader<V> {
    if slot.None? || slot.value.expiry <= now then Asking
    else if slot.value.value.None? then Dropping
    else Answered(slot.value.value.value, now)
  }

  /** What the query leads to: an error is answered at once, everything else fills the cache first. */
  function Asked<V>(result: Dated<V>, now: nat): Reader<V> {
    if result.answer.Found? || result.answer.Missing? then Filling(result) else Answered(result, now)
  }

  function Next<T, V>(query: T -> Outcome<V>, s: State<T, V>, e: Step<T>, delay: nat): State<T, V>
    requires Enabled(s, e, delay)
  {
    var current := |s.history| - 1;
    match e
    case Begin(r) => s.(readers := s.readers[r := Looking])
    case Lookup(r) => s.(readers := s.readers[r := Looked(s.slot, s.now)])
    case Drop(r) => s.(slot := None, readers := s.readers[r := Asking])
    case Ask(r) => s.(readers := s.readers[r := Asked(Dated(query(s.history[current]), current, s.now), s.now)])
    case FillSlot(r) =>
      var result := s.readers[r].result;
      s.(slot := Some(Slot(Some(result), s.now + Life(result.answer))), readers := s.readers[r := Answered(result, s.now)])
    case Write(table) => s.(history := s.history + [table], since := s.since + [s.now])
    case Invalidate => s.(slot := None)
    case Damage => s.(slot := if s.slot.Some? then Some(Slot(None, s.slot.value.expiry)) else None)
    case Tick(ms) => s.(now := s.now + ms)
  }

  function Start<T, V>(table: T): State<T, V> {
    State([table], [0], None, 0, map[])
  }

  // ---------------------------------------------------------------- the invariant

  /** State number `i` was the table at time `t`. */
  predicate CurrentAt(since: seq<nat>, i: nat, t: nat) {
    i < |since| && since[i] <= t && (i + 1 < |since| ==> t <= since[i + 1])
  }

  ghost predicate Genuine<T, V>(query: T -> Outcome<V>, s: State<T, V>, result: Dated<V>) {
    && result.from < |s.history| && result.answer == query(s.history[result.from])
    && result.asked <= s.now && CurrentAt(s.since, result.from, result.asked)
  }

  ghost predicate ReaderWell<T, V>(query: T -> Outcome<V>, s: State<T, V>, r: Reader<V>, delay: nat) {
    match r
    case Filling(result) => Genuine(query, s, result)
    case Answered(result, at) => Genuine(query, s, result) && result.asked <= at < result.asked + delay + Life(result.answer)
    case _ => true
  }

  ghost predicate Inv<T, V>(query: T -> Outcome<V>, s: State<T, V>, delay: nat) {
    && s.history != [] && |s.since| == |s.history|
    && (forall i | 0 <= i < |s.since| :: s.since[i] <= s.now)
    && (forall i, j | 0 <= i < j < |s.since| :: s.since[i] <= s.since[j])
    && (s.slot.Some? && s.slot.value.value.Some? ==>
          var result := s.slot.value.value.value;
          Genuine(query, s, result) && s.slot.value.expiry <= result.asked + delay + Life(result.answer))
    && (forall r <- s.readers :: ReaderWell(query, s, s.readers[r], delay))
  }

  lemma GenuineStays<T, V>(query: T -> Outcome<V>, s: State<T, V>, e: Step<T>, delay: nat, result: Dated<V>)
    requires Inv(query, s, delay) && Enabled(s, e, delay) && Genuine(query, s, result)
    ensures Genuine(query, Next(query, s, e, delay), result)
  {
  }

  lemma StepKeepsInv<T, V>(query: T -> Outcome<V>, s: State<T, V>, e: Step<T>, delay: nat)
    requires Inv(query, s, delay) && Enabled(s, e, delay)
    ensures Inv(query, Next(query, s, e, delay), delay)
  {
    var s' := Next(query, s, e, delay);
    if s.slot.Some? && s.slot.value.value.Some? {
      GenuineStays(query, s, e, delay, s.slot.value.value.value);
    }
    forall r <- s'.readers ensures ReaderWell(query, s', s'.readers[r], delay) {
      ReaderStaysWell(query, s, e, delay, r);
    }
  }

  lemma ReaderStaysWell<T, V>(query: T -> Outcome<V>, s: State<T, V>, e: Step<T>, delay: nat, r: nat)
    requires Inv(query, s, delay) && Enabled(s, e, delay) && r in Next(query, s, e, delay).readers
    ensures ReaderWell(query, Next(query, s, e, delay), Next(query, s, e, delay).readers[r], delay)
  {
    if r in s.readers {
      assert ReaderWell(query, s, s.readers[r], delay);
      if s.readers[r].Filling? || s.readers[r].Answered? {
        GenuineStays(query, s, e, delay, s.readers[r].result);
      }
    }
  }

  // ---------------------------------------------------------------- runs

  ghost predicate Leads<T, V>(query: T -> Outcome<V>, s: State<T, V>, steps: seq<Step<T>>, s': State<T, V>, delay: nat)
    decreases |steps|
  {
    if steps == [] then s' == s
    else Enabled(s, steps[0], delay) && Leads(query, Next(query, s, steps[0], delay), steps[1..], s', delay)
  }

  lemma {:induction false} RunKeepsInv<T, V>(
    query: T -> Outcome<V>, s: State<T, V>, steps: seq<Step<T>>, s': State<T, V>, delay: nat)
    requires Inv(query, s, delay) && Leads(query, s, steps, s', delay)
    ensures Inv(query, s', delay)
    decreases |steps|
  {
    if steps != [] {
      StepKeepsInv(query, s, steps[0], delay);
      RunKeepsInv(query, Next(query, s, steps[0], delay), steps[1..], s', delay);
    }
  }

  /**
   * In every interleaving an answer is what the query returned on a state that was the table at some
   * moment before the answer: less than the reader's delay plus 300 s before, or 30 s for not-found. So
   * it includes every write that is older than that, whether or not the writer invalidated the key.
   */
  lemma BoundedStaleness<T, V>(
    query: T -> Outcome<V>, table: T, steps: seq<Step<T>>, s: State<T, V>, delay: nat, r: nat)
    requires Leads(query, Start(table), steps, s, delay) && r in s.readers && s.readers[r].Answered?
    ensures |s.since| == |s.history|
    ensures var Answered(result, at) := s.readers[r];
            && result.from < |s.history| && result.answer == query(s.history[result.from])
            && CurrentAt(s.since, result.from, result.asked)
            && result.asked <= at < result.asked + delay + Life(result.answer)
            && forall n | 0 <= n < |s.since| && s.since[n] + delay + Life(result.answer) <= at :: n <= result.from
  {
    RunKeepsInv(query, Start(table), steps, s, delay);
    var Answered(result, at) := s.readers[r];
    assert ReaderWell(query, s, s.readers[r], delay);
  }

  lemma Append<T, V>(
    query: T -> Outcome<V>, s: State<T, V>, steps: seq<Step<T>>, t: State<T, V>, e: Step<T>, delay: nat)
    requires Leads(query, s, steps, t, delay) && Enabled(t, e, delay)
    ensures Leads(query, s, steps + [e], Next(query, t, e, delay), delay)
    decreases |steps|
  {
    if steps == [] {
      assert steps + [e] == [e];
      assert Leads(query, Next(query, t, e, delay), [], Next(query, t, e, delay), delay);
    } else {
      Append(query, Next(query, s, steps[0], delay), steps[1..], t, e, delay);
      assert (steps + [e])[1..] == steps[1..] + [e];
    }
  }

  // ---------------------------------------------------------------- freshness after an invalidation

  /** A reader that queried a state before number `n` and may still fill the cache. */
  predicate LateFiller<T, V>(s: State<T, V>, n: nat, delay: nat, q: nat) {
    && q in s.readers && s.readers[q].Filling? && s.readers[q].result.from < n
    && s.now <= s.readers[q].result.asked + delay
  }

  /** Whatever happens from `s` on, a reader that begins later answers from state number `n` or a later one. */
  ghost predicate FreshFrom<T(!new), V(!new)>(query: T -> Outcome<V>, s: State<T, V>, n: nat, delay: nat) {
    forall steps: seq<Step<T>>, s': State<T, V>, r: nat ::
      Leads(query, s, steps, s', delay) && r !in s.readers && r in s'.readers && s'.readers[r].Answered?
      ==> s'.readers[r].result.from >= n
  }

  /** No answer older than `n` is cached or can still be; readers not in `known` have only answered from `n` on. */
  ghost predicate Clean<T, V>(s: State<T, V>, n: nat, delay: nat, known: set<nat>) {
    && n < |s.history|
    && (s.slot.Some? && s.slot.value.value.Some? ==> s.slot.value.value.value.from >= n)
    && (forall q <- s.readers :: !LateFiller(s, n, delay, q))
    && (forall q <- s.readers :: q !in known && s.readers[q].Answered? ==> s.readers[q].result.from >= n)
    && known <= s.readers.Keys
  }

  lemma StepKeepsClean<T, V>(
    query: T -> Outcome<V>, s: State<T, V>, e: Step<T>, n: nat, delay: nat, known: set<nat>)
    requires Clean(s, n, delay, known) && Enabled(s, e, delay)
    ensures Clean(Next(query, s, e, delay), n, delay, known)
  {
    var s' := Next(query, s, e, delay);
    forall q <- s'.readers
      ensures !LateFiller(s', n, delay, q)
      ensures q !in known && s'.readers[q].Answered? ==> s'.readers[q].result.from >= n
    {
      if q in s.readers {
        assert !LateFiller(s, n, delay, q);
      }
    }
  }

  lemma {:induction false} RunKeepsClean<T, V>(
    query: T -> Outcome<V>, s: State<T, V>, steps: seq<Step<T>>, s': State<T, V>, n: nat, delay: nat, known: set<nat>)
    requires Clean(s, n, delay, known) && Leads(query, s, steps, s', delay)
    ensures Clean(s', n, delay, known)
    decreases |steps|
  {
    if steps != [] {
      StepKeepsClean(query, s, steps[0], n, delay, known);
      RunKeepsClean(query, Next(query, s, steps[0], delay), steps[1..], s', n, delay, known);
    }
  }

  lemma {:induction false} NewReader(ids: set<nat>) returns (r: nat)
    ensures forall q <- ids :: q < r
  {
    if ids == {} {
      r := 0;
    } else {
      var q :| q in ids;
      var r' := NewReader(ids - {q});
      r := if r' <= q then q + 1 else r';
      forall x <- ids ensures x < r {
        assert x == q || x in ids - {q};
      }
    }
  }

  /** A late filler stores its old answer, and the next reader gets it. */
  lemma LateFillerServes<T, V>(query: T -> Outcome<V>, s: State<T, V>, n: nat, delay: nat, q: nat)
    returns (steps: seq<Step<T>>, s': State<T, V>, r: nat)
    requires s.history != [] && LateFiller(s, n, delay, q)
    ensures Leads(query, s, steps, s', delay) && r !in s.readers && r in s'.readers
    ensures s'.readers[r].Answered? && s'.readers[r].result.from < n
  {
    r := NewReader(s.readers.Keys);
    assert r !in s.readers.Keys;
    var s1 := Next(query, s, FillSlot(q), delay);
    var s2 := Next(query, s1, Begin(r), delay);
    s' := Next(query, s2, Lookup(r), delay);
    Append(query, s, [], s, FillSlot(q), delay);
    Append(query, s, [] + [FillSlot(q)], s1, Begin(r), delay);
    Append(query, s, [] + [FillSlot(q)] + [Begin(r)], s2, Lookup(r), delay);
    steps := [] + [FillSlot(q)] + [Begin(r)] + [Lookup(r)];
  }

  /**
   * When deleting the key makes later reads fresh. After an invalidation every reader that begins from
   * then on, however the run goes on, answers from state number `n` or a later one, exactly if at that
   * moment no reader that queried an earlier state can still fill the cache.
   */
  lemma FreshAfterInvalidation<T(!new), V(!new)>(query: T -> Outcome<V>, s: State<T, V>, n: nat, delay: nat)
    requires s.history != [] && n < |s.history|
    ensures var t := Next(query, s, Invalidate, delay);
            FreshFrom(query, t, n, delay) <==> !exists q <- t.readers :: LateFiller(t, n, delay, q)
  {
    var t := Next(query, s, Invalidate, delay);
    if exists q <- t.readers :: LateFiller(t, n, delay, q) {
      var q :| q in t.readers && LateFiller(t, n, delay, q);
      var steps, s', r := LateFillerServes(query, t, n, delay, q);
    } else {
      forall steps: seq<Step<T>>, s': State<T, V>, r: nat
        | Leads(query, t, steps, s', delay) && r !in t.readers && r in s'.readers && s'.readers[r].Answered?
        ensures s'.readers[r].result.from >= n
      {
        RunKeepsClean(query, t, steps, s', n, delay, t.readers.Keys);
      }
    }
  }

  /** A reader that queries the old state, a write, the writer's invalidation, and all of the reader's delay. */
  lemma WriteDuringRead<T, V>(query: T -> Outcome<V>, before: T, written: T, delay: nat)
    returns (steps: seq<Step<T>>, s: State<T, V>)
    requires query(before).Found? || query(before).Missing?
    ensures Leads(query, Start(before), steps, s, delay)
    ensures steps == [Begin(0), Lookup(0), Ask(0), Write(written), Invalidate, Tick(delay)]
    ensures s == State([before, written], [0, 0], None, delay, map[0 := Filling(Dated(query(before), 0, 0))])
  {
    var s0: State<T, V> := Start(before);
    var s1 := Next(query, s0, Begin(0), delay);
    var s2 := Next(query, s1, Lookup(0), delay);
    var s3 := Next(query, s2, Ask(0), delay);
    var s4 := Next(query, s3, Write(written), delay);
    var s5 := Next(query, s4, Invalidate, delay);
    s := Next(query, s5, Tick(delay), delay);
    Append(query, s0, [], s0, Begin(0), delay);
    Append(query, s0, [] + [Begin(0)], s1, Lookup(0), delay);
    Append(query, s0, [] + [Begin(0)] + [Lookup(0)], s2, Ask(0), delay);
    Append(query, s0, [] + [Begin(0)] + [Lookup(0)] + [Ask(0)], s3, Write(written), delay);
    steps := [] + [Begin(0)] + [Lookup(0)] + [Ask(0)] + [Write(written)];
    Append(query, s0, steps, s4, Invalidate, delay);
    steps := steps + [Invalidate];
    Append(query, s0, steps, s5, Tick(delay), delay);
    steps := steps + [Tick(delay)];
    assert s.readers == map[0 := Filling(Dated(query(before), 0, 0))];
  }

  /**
   * The bound on the age of an answer is sharp: a reader that queried before a write fills the cache
   * after its whole delay, long after the invalidation, and at any moment less than the delay plus the
   * entry's life after the query a new reader still gets the old answer. At that moment it no longer does.
   */
  lemma SlowReaderRefills<T, V>(query: T -> Outcome<V>, before: T, written: T, wait: nat, delay: nat)
    returns (steps: seq<Step<T>>, s: State<T, V>)
    requires query(before).Found? || query(before).Missing?
    ensures Leads(query, Start(before), steps, s, delay)
    ensures steps == [Begin(0), Lookup(0), Ask(0), Write(written), Invalidate, Tick(delay),
                      FillSlot(0), Tick(wait), Begin(1), Lookup(1)]
    ensures s.history == [before, written] && s.now == delay + wait && 1 in s.readers
    ensures s.readers[1] == if s.now < delay + Life(query(before))
                            then Answered(Dated(query(before), 0, 0), s.now) else Asking
  {
    var s0: State<T, V> := Start(before);
    var first, t := WriteDuringRead(query, before, written, delay);
    var t1 := Next(query, t, FillSlot(0), delay);
    var t2 := Next(query, t1, Tick(wait), delay);
    var t3 := Next(query, t2, Begin(1), delay);
    s := Next(query, t3, Lookup(1), delay);
    Append(query, s0, first, t, FillSlot(0), delay);
    Append(query, s0, first + [FillSlot(0)], t1, Tick(wait), delay);
    Append(query, s0, first + [FillSlot(0)] + [Tick(wait)], t2, Begin(1), delay);
    Append(query, s0, first + [FillSlot(0)] + [Tick(wait)] + [Begin(1)], t3, Lookup(1), delay);
    steps := first + [FillSlot(0)] + [Tick(wait)] + [Begin(1)] + [Lookup(1)];
  }

  // ---------------------------------------------------------------- pages and articles

  type ArticleTable = a: Articles | UniqueSlugs(a) witness map[]

  function PageQuery(slug: string): Pages -> Outcome<PublicPage> {
    pages => QueryPage(pages, slug)
  }

  function DetailQuery(slug: string): ArticleTable -> Outcome<NewsDetail> {
    (articles: ArticleTable) => QueryDetail(articles, slug)
  }

  /** A cached page answer includes every write made more than 300 s and the reader's delay ago. */
  lemma PagesCatchUp(
    slug: string, pages: Pages, steps: seq<Step<Pages>>, s: State<Pages, PublicPage>, delay: nat, r: nat)
    requires Leads(PageQuery(slug), Start(pages), steps, s, delay) && r in s.readers && s.readers[r].Answered?
    ensures |s.since| == |s.history|
    ensures var Answered(result, at) := s.readers[r];
            && result.from < |s.history| && result.answer == QueryPage(s.history[result.from], slug)
            && forall n | 0 <= n < |s.since| && s.since[n] + delay + Life(result.answer) <= at :: n <= result.from
  {
    BoundedStaleness(PageQuery(slug), pages, steps, s, delay, r);
  }

  /** And so does a cached article answer. */
  lemma ArticlesCatchUp(
    slug: string, articles: ArticleTable, steps: seq<Step<ArticleTable>>, s: State<ArticleTable, NewsDetail>,
    delay: nat, r: nat)
    requires Leads(DetailQuery(slug), Start(articles), steps, s, delay) && r in s.readers && s.readers[r].Answered?
    ensures |s.since| == |s.history|
    ensures var Answered(result, at) := s.readers[r];
            && result.from < |s.history| && result.answer == QueryDetail(s.history[result.from], slug)
            && forall n | 0 <= n < |s.since| && s.since[n] + delay + Life(result.answer) <= at :: n <= result.from
  {
    BoundedStaleness(DetailQuery(slug), articles, steps, s, delay, r);
  }
}
