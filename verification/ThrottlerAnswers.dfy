/**
 * What the rate limiter answers, told from the calls made so far: which calls fall into a block, which
 * calls a window counts, and how long both still last. Nothing here looks at the stored keys.
 */
module ThrottlerAnswers {
  import opened Common
  import opened Redis
  import opened Text
  import opened Throttler

  /** The calls of a run that starts from an empty store, seen by one tracker. */
  datatype Log = Log(calls: seq<Call>, name: string, key: string) {
    predicate Valid() {
      NoColon(name) && NoColon(key) && ColonFree(calls) && Ordered(calls, 0)
    }

    predicate Mine(k: nat)
      requires k < |calls|
    {
      Own(calls[k], name, key)
    }

    /** When the block that call `k` begins is over. */
    function BlockEnd(k: nat): nat
      requires k < |calls|
    {
      calls[k].at + 1000 * BlockSeconds(calls[k])
    }

    /** When the window that call `k` opens is over. */
    function WindowEnd(k: nat): nat
      requires k < |calls|
    {
      calls[k].at + 1000 * CeilSeconds(calls[k].ttl)
    }

    /** Call `k` comes during a block that an earlier call began. */
    ghost predicate Blocked(k: nat)
      requires k < |calls|
      decreases k, 0
    {
      exists j: nat | j < k :: BeginsBlock(j) && calls[k].at < BlockEnd(j)
    }

    /** The tracker's calls are counted unless they come during a block. */
    ghost predicate Counts(k: nat)
      requires k < |calls|
      decreases k, 1
    {
      Mine(k) && !Blocked(k)
    }

    /** A counted call opens a window when every window opened before is over. */
    ghost predicate Opens(k: nat)
      requires k < |calls|
      decreases k, 2
    {
      Counts(k) && forall j: nat | j < k && Opens(j) :: WindowEnd(j) <= calls[k].at
    }

    /** The calls counted up to call `k` since the latest window was opened. */
    ghost function Tally(k: nat): nat
      requires k < |calls|
      decreases k, 3
    {
      if Opens(k) then 1
      else (if k == 0 then 0 else Tally(k - 1)) + (if Counts(k) then 1 else 0)
    }

    /** A counted call begins a block when it exceeds the limit. */
    ghost predicate BeginsBlock(k: nat)
      requires k < |calls|
      decreases k, 4
    {
      Counts(k) && Tally(k) > calls[k].limit
    }

    /** The latest window opened up to call `k` is that of call `w`. */
    ghost predicate LatestWindow(w: nat, k: nat)
      requires k < |calls|
    {
      w <= k && Opens(w) && forall j: nat | w < j <= k :: !Opens(j)
    }

    ghost predicate InWindow(k: nat)
      requires k < |calls|
    {
      exists w: nat | w < k :: Opens(w) && calls[k].at < WindowEnd(w)
    }

    /** The store before call `k`. */
    function StoreBefore(k: nat): Store
      requires k <= |calls|
    {
      RunCalls(map[], calls[..k])
    }

    function TrackerBefore(k: nat): Tracker
      requires k <= |calls|
    {
      Raw(StoreBefore(k), name, key)
    }
  }

  /** So many seconds, rounded to the nearest, are left of `ms` milliseconds. */
  predicate Rounded(seconds: nat, ms: int) {
    ms - 500 <= 1000 * seconds <= ms + 500
  }

  // ---------------------------------------------------------------- the counts

  ghost function CountedBetween(g: Log, w: nat, k: nat): set<nat>
    requires k < |g.calls|
  {
    set j: nat | w <= j <= k && g.Counts(j)
  }

  /** The tally is the number of calls counted from the opening of the latest window on. */
  lemma {:induction false} TallyCounts(g: Log, w: nat, k: nat)
    requires k < |g.calls| && g.LatestWindow(w, k)
    ensures g.Tally(k) == |CountedBetween(g, w, k)|
    decreases k
  {
    if w == k {
      assert CountedBetween(g, w, k) == {k};
    } else {
      assert g.LatestWindow(w, k - 1);
      TallyCounts(g, w, k - 1);
      WindowGoesOn(g, w, k);
      CountedOneMore(g, w, k);
    }
  }

  lemma CountedOneMore(g: Log, w: nat, k: nat)
    requires w < k < |g.calls|
    ensures |CountedBetween(g, w, k)| == |CountedBetween(g, w, k - 1)| + (if g.Counts(k) then 1 else 0)
  {
    if g.Counts(k) {
      assert CountedBetween(g, w, k) == CountedBetween(g, w, k - 1) + {k};
    } else {
      assert CountedBetween(g, w, k) == CountedBetween(g, w, k - 1);
    }
  }

  lemma CallsInOrder(g: Log, j: nat, k: nat)
    requires g.Valid() && j <= k < |g.calls|
    ensures g.calls[j].at <= g.calls[k].at
  {
  }

  // ---------------------------------------------------------------- the stored keys

  /** The counter holds the tally of the latest window and ends with it. */
  ghost predicate CounterTold(g: Log, k: nat, counter: Option<Entry<nat>>)
    requires k <= |g.calls|
  {
    match counter
    case None => forall j: nat | j < k :: !g.Opens(j)
    case Some(e) => k > 0 && e.value == g.Tally(k - 1) && e.expiry.Some?
                    && exists w: nat | w < k :: g.LatestWindow(w, k - 1) && e.expiry.value == g.WindowEnd(w)
  }

  /** The flag ends with the latest block. */
  ghost predicate FlagTold(g: Log, k: nat, flag: Option<Entry<nat>>)
    requires k <= |g.calls|
  {
    match flag
    case None => forall j: nat | j < k && g.BeginsBlock(j) :: g.BlockEnd(j) == g.calls[j].at
    case Some(e) => e.expiry.Some? && exists j: nat | j < k :: LatestBlock(g, j, k) && e.expiry.value == g.BlockEnd(j)
  }

  ghost predicate LatestBlock(g: Log, j: nat, k: nat)
    requires j < k <= |g.calls|
  {
    g.BeginsBlock(j) && forall i: nat | j < i < k && g.BeginsBlock(i) :: g.BlockEnd(i) == g.calls[i].at
  }

  lemma DuringBlock(g: Log, j: nat, i: nat)
    requires j < i < |g.calls| && g.BeginsBlock(j)
    ensures g.calls[i].at < g.BlockEnd(j) ==> g.Blocked(i)
  {
  }

  lemma BeginsOutside(g: Log, i: nat)
    requires i < |g.calls| && g.BeginsBlock(i)
    ensures !g.Blocked(i)
  {
    assert g.Counts(i);
  }

  /** A block is over before the next one begins. */
  lemma LatestBlockHolds(g: Log, i: nat, j: nat, k: nat)
    requires g.Valid() && j < k < |g.calls| && i < k && LatestBlock(g, i, k)
    requires g.BeginsBlock(j) && g.calls[k].at < g.BlockEnd(j)
    ensures i == j
  {
    CallsInOrder(g, j, k);
    if j < i {
      CallsInOrder(g, i, k);
      DuringBlock(g, j, i);
      BeginsOutside(g, i);
    }
  }

  lemma FlagMeansBlocked(g: Log, k: nat, flag: Option<Entry<nat>>)
    requires g.Valid() && k < |g.calls| && FlagTold(g, k, flag) && LiveOption(flag, g.calls[k].at)
    ensures g.Blocked(k)
  {
    var i: nat :| i < k && LatestBlock(g, i, k) && flag.value.expiry.value == g.BlockEnd(i);
    assert g.BeginsBlock(i);
  }

  lemma BlockedMeansFlag(g: Log, k: nat, flag: Option<Entry<nat>>, j: nat)
    requires g.Valid() && j < k < |g.calls| && FlagTold(g, k, flag)
    requires g.BeginsBlock(j) && g.calls[k].at < g.BlockEnd(j)
    ensures flag.Some? && flag.value.expiry == Some(g.BlockEnd(j))
  {
    CallsInOrder(g, j, k);
    assert flag.Some?;
    var i: nat :| i < k && LatestBlock(g, i, k) && flag.value.expiry.value == g.BlockEnd(i);
    LatestBlockHolds(g, i, j, k);
  }

  lemma FlagLives(g: Log, k: nat, flag: Option<Entry<nat>>)
    requires g.Valid() && k < |g.calls| && FlagTold(g, k, flag)
    ensures LiveOption(flag, g.calls[k].at) <==> g.Blocked(k)
  {
    if LiveOption(flag, g.calls[k].at) {
      FlagMeansBlocked(g, k, flag);
    } else if g.Blocked(k) {
      var j: nat :| j < k && g.BeginsBlock(j) && g.calls[k].at < g.BlockEnd(j);
      BlockedMeansFlag(g, k, flag, j);
    }
  }

  lemma LatestWindowHolds(g: Log, w: nat, j: nat, k: nat)
    requires g.Valid() && j < k < |g.calls| && w < k && g.LatestWindow(w, k - 1)
    requires g.Opens(j) && g.calls[k].at < g.WindowEnd(j)
    ensures w == j
  {
    if j < w {
      CallsInOrder(g, w, k);
    }
  }

  lemma WindowMeansCounter(g: Log, k: nat, counter: Option<Entry<nat>>, j: nat)
    requires g.Valid() && j < k < |g.calls| && CounterTold(g, k, counter)
    requires g.Opens(j) && g.calls[k].at < g.WindowEnd(j)
    ensures counter.Some? && counter.value.expiry == Some(g.WindowEnd(j))
  {
    assert counter.Some?;
    var w: nat :| w < k && g.LatestWindow(w, k - 1) && counter.value.expiry.value == g.WindowEnd(w);
    LatestWindowHolds(g, w, j, k);
  }

  lemma CounterLives(g: Log, k: nat, counter: Option<Entry<nat>>)
    requires g.Valid() && k < |g.calls| && CounterTold(g, k, counter)
    ensures LiveOption(counter, g.calls[k].at) <==> g.InWindow(k)
  {
    if LiveOption(counter, g.calls[k].at) {
      var w: nat :| w < k && g.LatestWindow(w, k - 1) && counter.value.expiry.value == g.WindowEnd(w);
      assert g.Opens(w);
    } else if g.InWindow(k) {
      var j: nat :| j < k && g.Opens(j) && g.calls[k].at < g.WindowEnd(j);
      WindowMeansCounter(g, k, counter, j);
    }
  }

  lemma OpensOutsideWindows(g: Log, k: nat)
    requires k < |g.calls|
    ensures g.Opens(k) <==> g.Counts(k) && !g.InWindow(k)
  {
  }

  lemma StoreStep(g: Log, k: nat)
    requires k < |g.calls|
    ensures g.StoreBefore(k + 1) == Eval(g.StoreBefore(k), g.calls[k])
  {
    assert g.calls[..k + 1] == g.calls[..k] + [g.calls[k]];
    RunSnoc(map[], g.calls[..k], g.calls[k]);
  }

  lemma {:induction false} RunSnoc(store: Store, calls: seq<Call>, c: Call)
    ensures RunCalls(store, calls + [c]) == Eval(RunCalls(store, calls), c)
    decreases |calls|
  {
    if calls == [] {
      assert ([] + [c])[1..] == [];
    } else {
      assert (calls + [c])[1..] == calls[1..] + [c];
      RunSnoc(Eval(store, calls[0]), calls[1..], c);
    }
  }

  /** The latest window and its tally go on as long as no call opens another. */
  lemma WindowGoesOn(g: Log, w: nat, k: nat)
    requires 0 < k < |g.calls| && g.LatestWindow(w, k - 1) && !g.Opens(k)
    ensures g.LatestWindow(w, k) && g.Tally(k) == g.Tally(k - 1) + (if g.Counts(k) then 1 else 0)
  {
  }

  lemma TalliesAgree(g: Log, k: nat, t: Tracker) returns (w: nat)
    requires g.Valid() && k < |g.calls| && CounterTold(g, k, t.counter) && g.Counts(k)
    ensures Counted(t, g.calls[k]).value == g.Tally(k)
    ensures w <= k && g.LatestWindow(w, k) && Counted(t, g.calls[k]).expiry == Some(g.WindowEnd(w))
  {
    CounterLives(g, k, t.counter);
    OpensOutsideWindows(g, k);
    if g.Opens(k) {
      w := k;
      assert g.LatestWindow(k, k);
    } else {
      w :| w < k && g.LatestWindow(w, k - 1) && t.counter.value.expiry.value == g.WindowEnd(w);
      WindowGoesOn(g, w, k);
    }
  }

  lemma CounterUntouched(g: Log, k: nat, counter: Option<Entry<nat>>)
    requires k < |g.calls| && CounterTold(g, k, counter) && !g.Counts(k)
    ensures CounterTold(g, k + 1, counter)
  {
    assert !g.Opens(k);
    if counter.Some? {
      var w: nat :| w < k && g.LatestWindow(w, k - 1) && counter.value.expiry.value == g.WindowEnd(w);
      WindowGoesOn(g, w, k);
    }
  }

  lemma CounterStep(g: Log, k: nat, t: Tracker)
    requires g.Valid() && k < |g.calls| && CounterTold(g, k, t.counter) && FlagTold(g, k, t.flag)
    ensures g.Mine(k) ==> CounterTold(g, k + 1, After(t, g.calls[k]).counter)
    ensures !g.Mine(k) ==> CounterTold(g, k + 1, t.counter)
  {
    FlagLives(g, k, t.flag);
    if g.Counts(k) {
      var w := TalliesAgree(g, k, t);
    } else {
      CounterUntouched(g, k, t.counter);
    }
  }

  lemma FlagUntouched(g: Log, k: nat, flag: Option<Entry<nat>>)
    requires k < |g.calls| && FlagTold(g, k, flag) && (g.BeginsBlock(k) ==> g.BlockEnd(k) == g.calls[k].at)
    ensures FlagTold(g, k + 1, flag)
  {
    if flag.Some? {
      var j: nat :| j < k && LatestBlock(g, j, k) && flag.value.expiry.value == g.BlockEnd(j);
      assert LatestBlock(g, j, k + 1);
    }
  }

  lemma FlagStep(g: Log, k: nat, t: Tracker)
    requires g.Valid() && k < |g.calls| && CounterTold(g, k, t.counter) && FlagTold(g, k, t.flag)
    ensures g.Mine(k) ==> FlagTold(g, k + 1, After(t, g.calls[k]).flag)
    ensures !g.Mine(k) ==> FlagTold(g, k + 1, t.flag)
  {
    FlagLives(g, k, t.flag);
    if g.Counts(k) {
      var w := TalliesAgree(g, k, t);
    }
    if g.BeginsBlock(k) && BlockSeconds(g.calls[k]) > 0 {
      assert LatestBlock(g, k, k + 1);
    } else {
      FlagUntouched(g, k, t.flag);
    }
  }

  /** After any calls from an empty store the tracker's keys are what the calls tell. */
  lemma {:induction false} KeysTold(g: Log, k: nat)
    requires g.Valid() && k <= |g.calls|
    ensures CounterTold(g, k, g.TrackerBefore(k).counter) && FlagTold(g, k, g.TrackerBefore(k).flag)
  {
    if k > 0 {
      KeysTold(g, k - 1);
      StoreStep(g, k - 1);
      assert g.calls[k - 1] in g.calls;
      TrackerStep(g.StoreBefore(k - 1), g.calls[k - 1], g.name, g.key);
      CounterStep(g, k - 1, g.TrackerBefore(k - 1));
      FlagStep(g, k - 1, g.TrackerBefore(k - 1));
    }
  }

  // ---------------------------------------------------------------- the answers

  /** An answer during a block: what is left of the block, one whole window, and the hits of a window still open. */
  ghost predicate BlockedAnswer(g: Log, k: nat, r: Record)
    requires k < |g.calls|
  {
    && r.isBlocked
    && (forall j: nat | j < k && g.BeginsBlock(j) && g.calls[k].at < g.BlockEnd(j) ::
          Rounded(r.timeToBlockExpire, g.BlockEnd(j) - g.calls[k].at))
    && g.calls[k].ttl <= 1000 * r.timeToExpire < g.calls[k].ttl + 1000
    && r.totalHits == if g.InWindow(k) then g.Tally(k) else 0
  }

  /** An answer outside every block: the tally, what is left of its window, and the block begun if the limit is exceeded. */
  ghost predicate CountedAnswer(g: Log, k: nat, r: Record)
    requires k < |g.calls|
  {
    && r.totalHits == g.Tally(k)
    && (exists w: nat :: g.LatestWindow(w, k))
    && (forall w: nat | g.LatestWindow(w, k) :: Rounded(r.timeToExpire, g.WindowEnd(w) - g.calls[k].at))
    && (r.isBlocked <==> g.Tally(k) > g.calls[k].limit)
    && 1000 * r.timeToBlockExpire == if g.BeginsBlock(k) then g.BlockEnd(k) - g.calls[k].at else 0
  }

  /**
   * Every answer, told from the calls alone. A call of the tracker during a block is refused with the
   * remaining length of that block; any other call is answered by the number of calls counted since its
   * window was opened and what is left of that window, and is refused, beginning a block, exactly if
   * the number exceeds the limit. It fails exactly if it would begin a block of no length.
   */
  lemma AnswersFromCalls(g: Log, k: nat)
    requires g.Valid() && k < |g.calls| && g.Mine(k)
    ensures var t, c := g.TrackerBefore(k), g.calls[k];
            && (g.Blocked(k) ==> !Fails(t, c) && BlockedAnswer(g, k, Reply(t, c)))
            && (!g.Blocked(k) ==> CountedAnswer(g, k, Reply(t, c)))
            && (Fails(t, c) <==> g.BeginsBlock(k) && g.BlockEnd(k) == c.at)
  {
    KeysTold(g, k);
    var t := g.TrackerBefore(k);
    FlagLives(g, k, t.flag);
    if g.Blocked(k) {
      BlockedTold(g, k, t);
    } else {
      CountedTold(g, k, t);
      var w := TalliesAgree(g, k, t);
    }
  }

  lemma BlockedTold(g: Log, k: nat, t: Tracker)
    requires g.Valid() && k < |g.calls| && CounterTold(g, k, t.counter) && FlagTold(g, k, t.flag) && g.Blocked(k)
    ensures BlockedAnswer(g, k, Reply(t, g.calls[k]))
  {
    FlagLives(g, k, t.flag);
    CounterLives(g, k, t.counter);
    forall j: nat | j < k && g.BeginsBlock(j) && g.calls[k].at < g.BlockEnd(j)
      ensures t.flag.value.expiry == Some(g.BlockEnd(j))
    {
      BlockedMeansFlag(g, k, t.flag, j);
    }
    if g.InWindow(k) {
      var w: nat :| w < k && g.LatestWindow(w, k - 1) && t.counter.value.expiry.value == g.WindowEnd(w);
      WindowGoesOn(g, w, k);
    }
  }

  lemma CountedTold(g: Log, k: nat, t: Tracker)
    requires g.Valid() && k < |g.calls| && CounterTold(g, k, t.counter) && FlagTold(g, k, t.flag) && g.Counts(k)
    ensures CountedAnswer(g, k, Reply(t, g.calls[k]))
  {
    FlagLives(g, k, t.flag);
    var w := TalliesAgree(g, k, t);
    forall w': nat | g.LatestWindow(w', k) ensures w' == w {
    }
    StillOpen(g, w, k);
  }

  /** The latest window of a counted call is not over. */
  lemma StillOpen(g: Log, w: nat, k: nat)
    requires g.Valid() && k < |g.calls| && g.Counts(k) && g.LatestWindow(w, k)
    ensures g.calls[k].at <= g.WindowEnd(w)
  {
    if w < k && g.WindowEnd(w) <= g.calls[k].at {
      OverMeansOpens(g, w, k);
    }
  }

  lemma OverMeansOpens(g: Log, w: nat, k: nat)
    requires g.Valid() && w < k < |g.calls| && g.Counts(k) && g.LatestWindow(w, k - 1) && g.WindowEnd(w) <= g.calls[k].at
    ensures g.Opens(k)
  {
    forall j: nat | j < k && g.Opens(j) ensures g.WindowEnd(j) <= g.calls[k].at {
      if j < w {
        CallsInOrder(g, w, k);
      }
    }
  }
}
