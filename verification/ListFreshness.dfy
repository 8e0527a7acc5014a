/**
 * Freshness of the cached news list under every interleaving of readers and writers, one Redis or
 * database command at a time (src/modules/public/public.service.ts and its callers).
 */
module ListFreshness {
  import opened CacheKeys
  import opened Common
  import opened Content
  import opened PublicModel
  import opened Redis

  /**
   * Where a list read stands. `rowsFrom` and `totalFrom` are the positions, in the history of the
   * articles table, of the states that its two queries saw.
   */
  datatype Reader =
    | Versioned(query: ListQuery, version: nat)
    | Broken(query: ListQuery, version: nat)
    | Missed(query: ListQuery, version: nat, rowsFrom: Option<nat>, totalFrom: Option<nat>)
    | Answered(query: ListQuery, version: nat, answer: Outcome<NewsList>)

  /** Where a write stands: position `at` of the history is the state it left. */
  datatype Writer =
    | Wrote(slug: string, at: nat)
    | Dropped(at: nat)
    | Finished(at: nat, version: nat)

  /**
   * `history` holds every state the articles table has had, the current one last; `births[v]` is the
   * position of the state that was current when the counter reached `v`.
   */
  datatype State = State(
    history: seq<Articles>, births: seq<nat>, store: Store, now: nat,
    readers: map<nat, Reader>, writers: map<nat, Writer>)

  datatype Step =
    | ReadVersion(r: nat, query: ListQuery)
    | Lookup(r: nat)
    | DropBroken(r: nat)
    | ReadRows(r: nat)
    | ReadTotal(r: nat)
    | FillCache(r: nat)
    | Write(w: nat, slug: string, articles: Articles)
    | DropDetail(w: nat)
    | Increment(w: nat)
    | Quietly(articles: Articles)                       // a write that invalidates nothing
    | OtherKey(key: Key, entry: Option<Entry<CacheValue>>)  // any command on the key of a page or an article
    | Damage(key: Key)
    | Tick(ms: nat)

  function Start(articles: Articles): State {
    State([articles], [0], map[], 0, map[], map[])
  }

  predicate Enabled(s: State, e: Step) {
    && s.history != []
    && match e
       case ReadVersion(r, q) => r !in s.readers && Valid(q)
       case Lookup(r) => r in s.readers && s.readers[r].Versioned?
       case DropBroken(r) => r in s.readers && s.readers[r].Broken?
       case ReadRows(r) => r in s.readers && s.readers[r].Missed? && s.readers[r].rowsFrom.None?
       case ReadTotal(r) => r in s.readers && s.readers[r].Missed? && s.readers[r].totalFrom.None?
       case FillCache(r) => ReadyToFill(s, r)
       case Write(w, _, _) => w !in s.writers
       case DropDetail(w) => w in s.writers && s.writers[w].Wrote?
       case Increment(w) => w in s.writers && s.writers[w].Dropped?
       case Quietly(_) => true
       case OtherKey(k, _) => k.PageKey? || k.DetailKey?
       case Damage(k) => k != ListVersionKey
       case Tick(_) => true
  }

  predicate ReadyToFill(s: State, r: nat) {
    && r in s.readers && s.readers[r].Missed?
    && s.readers[r].rowsFrom.Some? && s.readers[r].rowsFrom.value < |s.history|
    && s.readers[r].totalFrom.Some? && s.readers[r].totalFrom.value < |s.history|
    && Valid(s.readers[r].query)
  }

  /** The list a reader builds from the states its two queries saw. */
  function Built(sort: Sort, history: seq<Articles>, q: ListQuery, i: nat, j: nat): Outcome<NewsList>
    requires Valid(q) && i < |history| && j < |history|
  {
    BuildList(q, QueryRows(sort, history[i], q), QueryTotal(sort, history[j], q))
  }

  /** What the lookup of the versioned key leads to. */
  function Looked(store: Store, now: nat, q: ListQuery, version: nat): Reader {
    var cached: Option<CacheValue> := Get(store, ListKeyOf(q, version), now);
    match cached
    case None => Missed(q, version, None, None)
    case Some(Corrupt) => Broken(q, version)
    case Some(ListJson(list)) => Answered(q, version, Found(list))
    case Some(_) => Answered(q, version, Mistyped)
  }

  /** A list is stored and answered; an error is only answered. */
  function Filled(s: State, r: nat, q: ListQuery, version: nat, answer: Outcome<NewsList>): State {
    s.(store := if answer.Found? then Fill(s.store, ListKeyOf(q, version), ListJson(answer.value), s.now) else s.store,
       readers := s.readers[r := Answered(q, version, answer)])
  }

  function Next(sort: Sort, s: State, e: Step): State
    requires Enabled(s, e)
  {
    var current := |s.history| - 1;
    match e
    case ReadVersion(r, q) => s.(readers := s.readers[r := Versioned(q, Version(s.store, s.now))])
    case Lookup(r) =>
      s.(readers := s.readers[r := Looked(s.store, s.now, s.readers[r].query, s.readers[r].version)])
    case DropBroken(r) =>
      s.(store := s.store - {ListKeyOf(s.readers[r].query, s.readers[r].version)},
         readers := s.readers[r := Missed(s.readers[r].query, s.readers[r].version, None, None)])
    case ReadRows(r) => s.(readers := s.readers[r := s.readers[r].(rowsFrom := Some(current))])
    case ReadTotal(r) => s.(readers := s.readers[r := s.readers[r].(totalFrom := Some(current))])
    case FillCache(r) =>
      var Missed(q, version, i, j) := s.readers[r];
      Filled(s, r, q, version, Built(sort, s.history, q, i.value, j.value))
    case Write(w, slug, articles) =>
      s.(history := s.history + [articles], writers := s.writers[w := Wrote(slug, |s.history|)])
    case DropDetail(w) =>
      s.(store := s.store - {DetailKey(s.writers[w].slug)}, writers := s.writers[w := Dropped(s.writers[w].at)])
    case Increment(w) =>
      s.(store := BumpVersion(s.store, s.now), births := s.births + [current],
         writers := s.writers[w := Finished(s.writers[w].at, Version(s.store, s.now) + 1)])
    case Quietly(articles) => s.(history := s.history + [articles])
    case OtherKey(k, entry) => s.(store := if entry.Some? then s.store[k := entry.value] else s.store - {k})
    case Damage(k) => s.(store := if k in s.store then s.store[k := Entry(Corrupt, s.store[k].expiry)] else s.store)
    case Tick(ms) => s.(now := s.now + ms)
  }

  // ---------------------------------------------------------------- the invariant

  /** `answer` is what `q` gives on rows and a total of table states no older than position `from`. */
  predicate NoOlderThan(sort: Sort, history: seq<Articles>, from: nat, q: ListQuery, answer: Outcome<NewsList>) {
    Valid(q) && exists i, j | from <= i < |history| && from <= j < |history| :: Built(sort, history, q, i, j) == answer
  }

  predicate BirthsWell(births: seq<nat>, n: nat) {
    && births != [] && (forall v | 0 <= v < |births| :: births[v] < n)
    && forall u, v | 0 <= u < v < |births| :: births[u] <= births[v]
  }

  /** The counter, which never expires, is the number of increments. */
  predicate CounterWell(store: Store, increments: nat) {
    if ListVersionKey in store then store[ListVersionKey] == Entry(Counter(increments), None) else increments == 0
  }

  /** An entry stored under version `v` was computed from reads made after the counter reached `v`. */
  predicate EntryWell(sort: Sort, history: seq<Articles>, births: seq<nat>, k: Key, value: CacheValue) {
    k.ListKey? ==>
      || value == Corrupt
      || (value.ListJson? && k.version < |births|
          && NoOlderThan(sort, history, births[k.version], QueryOf(k), Found(value.list)))
  }

  predicate ReaderWell(sort: Sort, history: seq<Articles>, births: seq<nat>, r: Reader) {
    && r.version < |births| && Valid(r.query)
    && match r
       case Versioned(_, _) => true
       case Broken(_, _) => true
       case Missed(_, v, i, j) =>
         && (i.Some? ==> births[v] <= i.value < |history|)
         && (j.Some? ==> births[v] <= j.value < |history|)
       case Answered(q, v, answer) => NoOlderThan(sort, history, births[v], q, answer)
  }

  predicate WriterWell(history: seq<Articles>, births: seq<nat>, w: Writer) {
    && w.at < |history|
    && (w.Finished? ==> w.version < |births| && w.at <= births[w.version])
  }

  predicate Inv(sort: Sort, s: State) {
    && s.history != [] && BirthsWell(s.births, |s.history|) && CounterWell(s.store, |s.births| - 1)
    && (forall k <- s.store :: EntryWell(sort, s.history, s.births, k, s.store[k].value))
    && (forall r <- s.readers :: ReaderWell(sort, s.history, s.births, s.readers[r]))
    && (forall w <- s.writers :: WriterWell(s.history, s.births, s.writers[w]))
  }

  lemma OlderBound(sort: Sort, history: seq<Articles>, history': seq<Articles>, from: nat, from': nat,
                   q: ListQuery, answer: Outcome<NewsList>)
    requires history <= history' && from' <= from && NoOlderThan(sort, history, from, q, answer)
    ensures NoOlderThan(sort, history', from', q, answer)
  {
    var i, j :| from <= i < |history| && from <= j < |history| && Built(sort, history, q, i, j) == answer;
    assert Built(sort, history', q, i, j) == answer;
  }

  /** The same answer, for the query itself and for the query its key stands for. */
  lemma BoundOfKey(sort: Sort, history: seq<Articles>, from: nat, q: ListQuery, version: nat,
                   answer: Outcome<NewsList>)
    requires Valid(q)
    ensures NoOlderThan(sort, history, from, q, answer)
            <==> NoOlderThan(sort, history, from, QueryOf(ListKeyOf(q, version)), answer)
  {
    var q' := QueryOf(ListKeyOf(q, version));
    forall i, j | 0 <= i < |history| && 0 <= j < |history|
      ensures Valid(q') && Built(sort, history, q, i, j) == Built(sort, history, q', i, j)
    {
      KeyKeepsQuery(sort, history[i], q, version);
      KeyKeepsQuery(sort, history[j], q, version);
    }
    KeyKeepsQuery(sort, map[], q, version);
  }

  lemma ReaderFrame(sort: Sort, history: seq<Articles>, births: seq<nat>, history': seq<Articles>, births': seq<nat>,
                    r: Reader)
    requires ReaderWell(sort, history, births, r) && history <= history' && births <= births'
    ensures ReaderWell(sort, history', births', r)
  {
    if r.Answered? {
      OlderBound(sort, history, history', births[r.version], births[r.version], r.query, r.answer);
    }
  }

  lemma EntryFrame(sort: Sort, history: seq<Articles>, births: seq<nat>, history': seq<Articles>, births': seq<nat>,
                   k: Key, value: CacheValue)
    requires EntryWell(sort, history, births, k, value) && history <= history' && births <= births'
    ensures EntryWell(sort, history', births', k, value)
  {
    if k.ListKey? && value.ListJson? {
      OlderBound(sort, history, history', births[k.version], births[k.version], QueryOf(k), Found(value.list));
    }
  }

  /** Growing the history and the births keeps what is known about entries, readers and writers. */
  lemma GrowthKeepsInv(sort: Sort, s: State, history': seq<Articles>, births': seq<nat>, store': Store)
    requires Inv(sort, s) && s.history <= history' && s.births <= births'
    requires BirthsWell(births', |history'|) && CounterWell(store', |births'| - 1)
    requires forall k <- store' :: k.ListKey? ==> k in s.store && store'[k] == s.store[k]
    ensures Inv(sort, s.(history := history', births := births', store := store'))
  {
    forall k <- store' ensures EntryWell(sort, history', births', k, store'[k].value) {
      if k.ListKey? {
        EntryFrame(sort, s.history, s.births, history', births', k, s.store[k].value);
      }
    }
    forall r <- s.readers ensures ReaderWell(sort, history', births', s.readers[r]) {
      ReaderFrame(sort, s.history, s.births, history', births', s.readers[r]);
    }
  }

  lemma LookupKeepsInv(sort: Sort, s: State, r: nat)
    requires Inv(sort, s) && Enabled(s, Lookup(r))
    ensures Inv(sort, Next(sort, s, Lookup(r)))
  {
    var Versioned(q, v) := s.readers[r];
    assert ReaderWell(sort, s.history, s.births, s.readers[r]);
    LookedIsWell(sort, s, q, v);
    ReaderKeepsInv(sort, s, r, Looked(s.store, s.now, q, v));
  }

  lemma LookedIsWell(sort: Sort, s: State, q: ListQuery, v: nat)
    requires Inv(sort, s) && Valid(q) && v < |s.births|
    ensures ReaderWell(sort, s.history, s.births, Looked(s.store, s.now, q, v))
  {
    var k := ListKeyOf(q, v);
    if Exists(s.store, k, s.now) {
      assert EntryWell(sort, s.history, s.births, k, s.store[k].value);
      if s.store[k].value.ListJson? {
        BoundOfKey(sort, s.history, s.births[v], q, v, Found(s.store[k].value.list));
      }
    }
  }

  lemma FilledIsWell(sort: Sort, s: State, q: ListQuery, v: nat, i: nat, j: nat)
    requires Inv(sort, s) && Valid(q) && v < |s.births|
    requires s.births[v] <= i < |s.history| && s.births[v] <= j < |s.history|
    ensures var answer := Built(sort, s.history, q, i, j);
            && (answer.Found? ==> EntryWell(sort, s.history, s.births, ListKeyOf(q, v), ListJson(answer.value)))
            && ReaderWell(sort, s.history, s.births, Answered(q, v, answer))
  {
    var answer := Built(sort, s.history, q, i, j);
    assert NoOlderThan(sort, s.history, s.births[v], q, answer);
    BoundOfKey(sort, s.history, s.births[v], q, v, answer);
  }

  lemma EntryAndReaderKeepInv(sort: Sort, s: State, k: Key, entry: Entry<CacheValue>, r: nat, reader: Reader)
    requires Inv(sort, s) && k.ListKey? && EntryWell(sort, s.history, s.births, k, entry.value)
    requires ReaderWell(sort, s.history, s.births, reader)
    ensures Inv(sort, s.(store := s.store[k := entry], readers := s.readers[r := reader]))
  {
  }

  lemma ReaderKeepsInv(sort: Sort, s: State, r: nat, reader: Reader)
    requires Inv(sort, s) && ReaderWell(sort, s.history, s.births, reader)
    ensures Inv(sort, s.(readers := s.readers[r := reader]))
  {
  }

  lemma FillingReader(sort: Sort, s: State, r: nat)
    requires Inv(sort, s) && Enabled(s, FillCache(r))
    ensures var Missed(q, v, i, j) := s.readers[r];
            v < |s.births| && s.births[v] <= i.value < |s.history| && s.births[v] <= j.value < |s.history|
  {
    assert ReaderWell(sort, s.history, s.births, s.readers[r]);
  }

  lemma FillKeepsInv(sort: Sort, s: State, r: nat)
    requires Inv(sort, s) && Enabled(s, FillCache(r))
    ensures Inv(sort, Next(sort, s, FillCache(r)))
  {
    var Missed(q, v, i, j) := s.readers[r];
    FillingReader(sort, s, r);
    FilledIsWell(sort, s, q, v, i.value, j.value);
    FilledKeepsInv(sort, s, r, q, v, Built(sort, s.history, q, i.value, j.value));
  }

  lemma FilledKeepsInv(sort: Sort, s: State, r: nat, q: ListQuery, v: nat, answer: Outcome<NewsList>)
    requires Inv(sort, s) && ReaderWell(sort, s.history, s.births, Answered(q, v, answer))
    requires answer.Found? ==> EntryWell(sort, s.history, s.births, ListKeyOf(q, v), ListJson(answer.value))
    ensures Inv(sort, Filled(s, r, q, v, answer))
  {
    if answer.Found? {
      EntryAndReaderKeepInv(sort, s, ListKeyOf(q, v),
                            Entry(ListJson(answer.value), Some(s.now + 1000 * PUBLIC_CACHE_TTL_SECONDS)),
                            r, Answered(q, v, answer));
    } else {
      ReaderKeepsInv(sort, s, r, Answered(q, v, answer));
    }
  }

  lemma IncrementKeepsInv(sort: Sort, s: State, w: nat)
    requires Inv(sort, s) && Enabled(s, Increment(w))
    ensures Inv(sort, Next(sort, s, Increment(w)))
    ensures Version(s.store, s.now) == |s.births| - 1
  {
    var s' := Next(sort, s, Increment(w));
    GrowthKeepsInv(sort, s, s.history, s'.births, s'.store);
    assert WriterWell(s'.history, s'.births, s'.writers[w]);
  }

  /** Either of the two database reads of a reader. */
  lemma QueryKeepsInv(sort: Sort, s: State, r: nat)
    requires Inv(sort, s) && r in s.readers && s.readers[r].Missed?
    ensures Inv(sort, s.(readers := s.readers[r := s.readers[r].(rowsFrom := Some(|s.history| - 1))]))
    ensures Inv(sort, s.(readers := s.readers[r := s.readers[r].(totalFrom := Some(|s.history| - 1))]))
  {
    assert ReaderWell(sort, s.history, s.births, s.readers[r]);
    ReaderKeepsInv(sort, s, r, s.readers[r].(rowsFrom := Some(|s.history| - 1)));
    ReaderKeepsInv(sort, s, r, s.readers[r].(totalFrom := Some(|s.history| - 1)));
  }

  /** The reader works under the number of increments so far. */
  lemma VersionRead(sort: Sort, s: State, r: nat, q: ListQuery)
    requires Inv(sort, s) && Enabled(s, ReadVersion(r, q))
    ensures Next(sort, s, ReadVersion(r, q)) == s.(readers := s.readers[r := Versioned(q, |s.births| - 1)])
    ensures Inv(sort, Next(sort, s, ReadVersion(r, q)))
  {
    ReaderKeepsInv(sort, s, r, Versioned(q, |s.births| - 1));
  }

  lemma DropKeepsInv(sort: Sort, s: State, r: nat)
    requires Inv(sort, s) && Enabled(s, DropBroken(r))
    ensures Inv(sort, Next(sort, s, DropBroken(r)))
  {
    assert ReaderWell(sort, s.history, s.births, s.readers[r]);
    var q, v := s.readers[r].query, s.readers[r].version;
    StoreKeepsInv(sort, s, s.store - {ListKeyOf(q, v)});
    ReaderKeepsInv(sort, s.(store := s.store - {ListKeyOf(q, v)}), r, Missed(q, v, None, None));
  }

  /** Entries of lists may disappear or be damaged, all others may change. */
  lemma StoreKeepsInv(sort: Sort, s: State, store: Store)
    requires Inv(sort, s) && CounterWell(store, |s.births| - 1)
    requires forall k <- store :: k.ListKey? ==> k in s.store && (store[k] == s.store[k] || store[k].value == Corrupt)
    ensures Inv(sort, s.(store := store))
  {
  }

  lemma OtherStepKeepsInv(sort: Sort, s: State, e: Step)
    requires Inv(sort, s) && Enabled(s, e) && (e.DropDetail? || e.OtherKey? || e.Damage? || e.Tick?)
    ensures Inv(sort, Next(sort, s, e))
  {
    var s' := Next(sort, s, e);
    StoreKeepsInv(sort, s, s'.store);
    if e.DropDetail? {
      assert WriterWell(s.history, s.births, s.writers[e.w]);
    }
  }

  lemma StepKeepsInv(sort: Sort, s: State, e: Step)
    requires Inv(sort, s) && Enabled(s, e)
    ensures Inv(sort, Next(sort, s, e))
  {
    var s' := Next(sort, s, e);
    match e
    case Lookup(r) => LookupKeepsInv(sort, s, r);
    case FillCache(r) => FillKeepsInv(sort, s, r);
    case Increment(w) => IncrementKeepsInv(sort, s, w);
    case Write(_, _, _) => GrowthKeepsInv(sort, s, s'.history, s.births, s.store);
    case Quietly(_) => GrowthKeepsInv(sort, s, s'.history, s.births, s.store);
    case ReadRows(r) => QueryKeepsInv(sort, s, r);
    case ReadTotal(r) => QueryKeepsInv(sort, s, r);
    case ReadVersion(r, q) => VersionRead(sort, s, r, q);
    case DropBroken(r) => DropKeepsInv(sort, s, r);
    case _ => OtherStepKeepsInv(sort, s, e);
  }

  // ---------------------------------------------------------------- runs

  /** The steps can be taken from `s` in this order, and end in `s'`. */
  predicate Leads(sort: Sort, s: State, steps: seq<Step>, s': State)
    decreases |steps|
  {
    if steps == [] then s' == s
    else Enabled(s, steps[0]) && Leads(sort, Next(sort, s, steps[0]), steps[1..], s')
  }

  /** The past is never rewritten: table states, births and the version a reader works under stay. */
  predicate Extends(s: State, s': State) {
    && s.history <= s'.history && s.births <= s'.births
    && forall r <- s.readers ::
         r in s'.readers && s'.readers[r].version == s.readers[r].version && s'.readers[r].query == s.readers[r].query
  }

  lemma StepExtends(sort: Sort, s: State, e: Step)
    requires Enabled(s, e)
    ensures Extends(s, Next(sort, s, e))
  {
  }

  lemma {:induction false} RunKeepsInv(sort: Sort, s: State, steps: seq<Step>, s': State)
    requires Inv(sort, s) && Leads(sort, s, steps, s')
    ensures Inv(sort, s') && Extends(s, s')
    decreases |steps|
  {
    if steps != [] {
      StepKeepsInv(sort, s, steps[0]);
      StepExtends(sort, s, steps[0]);
      RunKeepsInv(sort, Next(sort, s, steps[0]), steps[1..], s');
    }
  }

  lemma AfterIncrement(sort: Sort, s: State, w: nat, steps: seq<Step>, s': State)
    requires Inv(sort, s) && Enabled(s, Increment(w)) && Leads(sort, Next(sort, s, Increment(w)), steps, s')
    ensures Inv(sort, s') && s.writers[w].at <= s'.births[|s'.births| - 1]
  {
    var t := Next(sort, s, Increment(w));
    IncrementKeepsInv(sort, s, w);
    assert WriterWell(t.history, t.births, t.writers[w]);
    RunKeepsInv(sort, t, steps, s');
  }

  lemma AfterReadingVersion(sort: Sort, s: State, r: nat, q: ListQuery, steps: seq<Step>, s': State)
    requires Inv(sort, s) && Enabled(s, ReadVersion(r, q)) && Leads(sort, Next(sort, s, ReadVersion(r, q)), steps, s')
    ensures r in s'.readers && s'.readers[r].query == q
    ensures s'.readers[r].Answered? ==>
              NoOlderThan(sort, s'.history, s.births[|s.births| - 1], q, s'.readers[r].answer)
  {
    var t := Next(sort, s, ReadVersion(r, q));
    VersionRead(sort, s, r, q);
    RunKeepsInv(sort, t, steps, s');
    assert ReaderWell(sort, s'.history, s'.births, s'.readers[r]);
  }

  /**
   * Take any run in which a writer increments the counter and, any number of steps later, a reader reads
   * it. However the commands of all readers and writers interleave, whatever the reader answers was
   * computed from rows and a total each read from a state of the table at or after the writer's own
   * write; it is never not-found and never a value of another kind.
   */
  lemma FreshAfterIncrement(
    sort: Sort, articles: Articles, before: seq<Step>, s1: State, w: nat, between: seq<Step>, s2: State,
    r: nat, q: ListQuery, after: seq<Step>, s3: State)
    requires Leads(sort, Start(articles), before, s1) && Enabled(s1, Increment(w))
    requires Leads(sort, Next(sort, s1, Increment(w)), between, s2) && Enabled(s2, ReadVersion(r, q))
    requires Leads(sort, Next(sort, s2, ReadVersion(r, q)), after, s3)
    ensures r in s3.readers && s3.readers[r].query == q
    ensures s3.readers[r].Answered? ==>
              && NoOlderThan(sort, s3.history, s1.writers[w].at, q, s3.readers[r].answer)
              && !s3.readers[r].answer.Missing? && !s3.readers[r].answer.Mistyped?
  {
    RunKeepsInv(sort, Start(articles), before, s1);
    AfterIncrement(sort, s1, w, between, s2);
    AfterReadingVersion(sort, s2, r, q, after, s3);
    if s3.readers[r].Answered? {
      OlderBound(sort, s3.history, s3.history, s2.births[|s2.births| - 1], s1.writers[w].at, q, s3.readers[r].answer);
    }
  }

  lemma Prepend(sort: Sort, s: State, e: Step, rest: seq<Step>, s': State)
    requires Enabled(s, e) && Leads(sort, Next(sort, s, e), rest, s')
    ensures Leads(sort, s, [e] + rest, s')
  {
    assert ([e] + rest)[1..] == rest;
  }

  /** A read that finds nothing cached, up to the point where it fills the cache. */
  lemma UpToFill(sort: Sort, articles: Articles, q: ListQuery, rest: seq<Step>, s': State)
    requires Valid(q)
    requires Leads(sort, Overlapping(articles, q), rest, s')
    ensures Leads(sort, Start(articles), [ReadVersion(0, q)] + ([Lookup(0)] + ([ReadRows(0)] + ([ReadTotal(0)] + rest))), s')
  {
    var s0 := Start(articles);
    var s1 := Next(sort, s0, ReadVersion(0, q));
    var s2 := Next(sort, s1, Lookup(0));
    var s3 := Next(sort, s2, ReadRows(0));
    assert Next(sort, s3, ReadTotal(0)).readers == map[0 := Missed(q, 0, Some(0), Some(0))];
    Prepend(sort, s3, ReadTotal(0), rest, s');
    Prepend(sort, s2, ReadRows(0), [ReadTotal(0)] + rest, s');
    Prepend(sort, s1, Lookup(0), [ReadRows(0)] + ([ReadTotal(0)] + rest), s');
    Prepend(sort, s0, ReadVersion(0, q), [Lookup(0)] + ([ReadRows(0)] + ([ReadTotal(0)] + rest)), s');
  }

  /** A reader that has read its rows before the write, and the state when it has filled the cache after it. */
  function Overlapping(before: Articles, q: ListQuery): State {
    State([before], [0], map[], 0, map[0 := Missed(q, 0, Some(0), Some(0))], map[])
  }

  lemma FilledAfterWrite(sort: Sort, before: Articles, written: Articles, slug: string, q: ListQuery) returns (s: State)
    requires Valid(q) && QueryList(sort, before, q).Found?
    ensures var list := QueryList(sort, before, q).value;
            && Leads(sort, Overlapping(before, q), [Write(0, slug, written)] + ([FillCache(0)] + []), s)
            && s.history == [before, written] && s.writers == map[0 := Wrote(slug, 1)]
            && s.readers == map[0 := Answered(q, 0, Found(list))]
            && Get(s.store, ListKeyOf(q, 0), 0) == Some(ListJson(list)) && ListVersionKey !in s.store && s.now == 0
  {
    var s1 := Next(sort, Overlapping(before, q), Write(0, slug, written));
    s := Next(sort, s1, FillCache(0));
    Prepend(sort, s1, FillCache(0), [], s);
    Prepend(sort, Overlapping(before, q), Write(0, slug, written), [FillCache(0)] + [], s);
  }

  lemma {:induction false} LeadsOn(sort: Sort, s: State, first: seq<Step>, t: State, rest: seq<Step>, s': State)
    requires Leads(sort, s, first, t) && Leads(sort, t, rest, s')
    ensures Leads(sort, s, first + rest, s')
    decreases |first|
  {
    if first == [] {
      assert first + rest == rest;
    } else {
      LeadsOn(sort, Next(sort, s, first[0]), first[1..], t, rest, s');
      assert (first + rest)[1..] == first[1..] + rest;
    }
  }

  /**
   * Waiting for the increment is necessary. A read that overlaps a write can fill the cache under the
   * old version, and a reader that comes after the write, but before the increment, gets the old list.
   */
  lemma TooEarlyIsStale(sort: Sort, before: Articles, written: Articles, slug: string, q: ListQuery)
    returns (steps: seq<Step>, s: State)
    requires Valid(q) && QueryList(sort, before, q).Found?
    ensures Leads(sort, Start(before), steps, s)
    ensures s.history == [before, written] && s.writers == map[0 := Wrote(slug, 1)]
    ensures |steps| == 8 && steps[4] == Write(0, slug, written) && steps[6] == ReadVersion(1, q)
    ensures 1 in s.readers && s.readers[1] == Answered(q, 0, QueryList(sort, before, q))
  {
    var t := FilledAfterWrite(sort, before, written, slug, q);
    var t1 := Next(sort, t, ReadVersion(1, q));
    s := Next(sort, t1, Lookup(1));
    var late := [ReadVersion(1, q)] + ([Lookup(1)] + []);
    Prepend(sort, t1, Lookup(1), [], s);
    Prepend(sort, t, ReadVersion(1, q), [Lookup(1)] + [], s);
    var rest := [Write(0, slug, written)] + ([FillCache(0)] + []);
    LeadsOn(sort, Overlapping(before, q), rest, t, late, s);
    UpToFill(sort, before, q, rest + late, s);
    steps := [ReadVersion(0, q)] + ([Lookup(0)] + ([ReadRows(0)] + ([ReadTotal(0)] + (rest + late))));
  }
}
