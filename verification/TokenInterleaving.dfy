/**
 * Refresh-token families when login, rotation, logout and revocation interleave freely, one Redis
 * command per step (src/modules/auth/token.service.ts). Any key may expire at any moment.
 */
module TokenInterleaving {
  import opened Common
  import opened Text
  import opened TokenKeys

  /** A SET of an allowlist entry, with the token it replaces (none for the first of a family). */
  datatype Write = Write(jti: string, value: string, parent: Option<string>)

  datatype Cmd =
    | Mark(family: string, jti: string)
    | SetEntry(write: Write)
    | DelEntry(jti: string)
    | SaddActive(family: string, jti: string)
    | SremActive(family: string, jti: string)
    | ExpireActive(family: string)
    | DelActive(family: string)

  /** Where a request stands: about to GETDEL, to GET the marker, to SMEMBERS, or within a pipeline. */
  datatype Proc =
    | Taking(prev: string, user: string, family: string, next: string)
    | Checking(prev: string, family: string)
    | Listing(family: string)
    | Running(cmds: seq<Cmd>)

  /** One change of a family's active set, in the order of commands and expiries. */
  datatype Touch =
    | Added(family: string, jti: string)
    | Removed(family: string, jti: string)
    | Cleared(family: string)

  /** One token put on the allowlist. */
  datatype Event = Event(family: Option<string>, parent: Option<string>, jti: string)

  datatype State = State(
    allow: map<string, string>,
    consumed: set<(string, string)>,
    active: map<string, set<string>>,
    procs: map<nat, Proc>,
    used: set<string>,
    log: seq<Event>,
    trail: seq<Touch>)

  const INIT: State := State(map[], {}, map[], map[], {}, [], [])

  datatype Step =
    | StartIssue(p: nat, user: string, family: string, jti: string)
    | StartRotate(p: nat, prev: string, user: string, family: string, next: string)
    | StartLogout(p: nat, jti: string, family: string)
    | StartRevoke(p: nat, family: string)
    | Advance(p: nat)
    | LoseEntry(jti: string)
    | LoseMarker(family: string, jti: string)
    | LoseActive(family: string)

  function IssuePipeline(user: string, f: string, j: string): seq<Cmd> {
    [SetEntry(Write(j, EntryValue(user, f), None)), SaddActive(f, j), ExpireActive(f)]
  }

  function RotatePipeline(prev: string, user: string, f: string, next: string): seq<Cmd> {
    [Mark(f, prev), SetEntry(Write(next, EntryValue(user, f), Some(prev))),
     SaddActive(f, next), SremActive(f, prev), ExpireActive(f)]
  }

  /** The deletions of `revokeFamily` for a list of members read by SMEMBERS. */
  function RevokePipeline(members: seq<string>, f: string): seq<Cmd> {
    seq(|members|, i requires 0 <= i < |members| => DelEntry(members[i])) + [DelActive(f)]
  }

  /** An order in which to delete the members; which one does not matter. */
  ghost function Listed(members: set<string>): seq<string>
    decreases members
  {
    if members == {} then []
    else
      var m :| m in members;
      [m] + Listed(members - {m})
  }

  function Exec(s: State, cmd: Cmd): State {
    match cmd
    case Mark(f, j) => s.(consumed := s.consumed + {(f, j)})
    case SetEntry(w) =>
      s.(allow := s.allow[w.jti := w.value], log := s.log + [Event(FamilyOf(w.value), w.parent, w.jti)])
    case DelEntry(j) => s.(allow := s.allow - {j})
    case SaddActive(f, j) =>
      s.(active := s.active[f := (if f in s.active then s.active[f] else {}) + {j}], trail := s.trail + [Added(f, j)])
    case SremActive(f, j) =>
      s.(active := if f !in s.active || s.active[f] <= {j} then s.active - {f} else s.active[f := s.active[f] - {j}],
         trail := s.trail + [Removed(f, j)])
    case ExpireActive(f) => s
    case DelActive(f) => s.(active := s.active - {f}, trail := s.trail + [Cleared(f)])
  }

  /** GETDEL: on success the pipeline that writes the successor is scheduled. */
  function Take(s: State, p: nat, pr: Proc): State
    requires pr.Taking?
  {
    var taken := s.(allow := s.allow - {pr.prev});
    if pr.prev !in s.allow || s.allow[pr.prev] == "" then
      taken.(procs := s.procs[p := Checking(pr.prev, pr.family)])
    else if !Matches(s.allow[pr.prev], pr.user, pr.family) then taken.(procs := s.procs - {p})
    else taken.(procs := s.procs[p := Running(RotatePipeline(pr.prev, pr.user, pr.family, pr.next))])
  }

  ghost function Advanced(s: State, p: nat): State
    requires p in s.procs
  {
    match s.procs[p]
    case Taking(_, _, _, _) => Take(s, p, s.procs[p])
    case Checking(prev, f) =>
      if (f, prev) in s.consumed then s.(procs := s.procs[p := Listing(f)]) else s.(procs := s.procs - {p})
    case Listing(f) =>
      var members := if f in s.active then s.active[f] else {};
      s.(procs := s.procs[p := Running(RevokePipeline(Listed(members), f))])
    case Running(cmds) =>
      if cmds == [] then s.(procs := s.procs - {p})
      else Exec(s, cmds[0]).(procs := s.procs[p := Running(cmds[1..])])
  }

  /** Generated ids are new and colon-free; claimed ids are colon-free. */
  predicate Enabled(s: State, step: Step) {
    match step
    case StartIssue(p, user, f, j) =>
      p !in s.procs && {f, j} !! s.used && f != j && NoColon(user) && NoColon(f) && NoColon(j)
    case StartRotate(p, prev, user, f, next) =>
      p !in s.procs && next !in s.used && NoColon(user) && NoColon(f) && NoColon(next)
    case StartLogout(p, _, _) => p !in s.procs
    case StartRevoke(p, _) => p !in s.procs
    case Advance(p) => p in s.procs
    case _ => true
  }

  ghost function Next(s: State, step: Step): State
    requires Enabled(s, step)
  {
    match step
    case StartIssue(p, user, f, j) =>
      s.(procs := s.procs[p := Running(IssuePipeline(user, f, j))], used := s.used + {f, j})
    case StartRotate(p, prev, user, f, next) =>
      s.(procs := s.procs[p := Taking(prev, user, f, next)], used := s.used + {next})
    case StartLogout(p, j, f) => s.(procs := s.procs[p := Running([DelEntry(j), SremActive(f, j)])])
    case StartRevoke(p, f) => s.(procs := s.procs[p := Listing(f)])
    case Advance(p) => Advanced(s, p)
    case LoseEntry(j) => s.(allow := s.allow - {j})
    case LoseMarker(f, j) => s.(consumed := s.consumed - {(f, j)})
    case LoseActive(f) => s.(active := s.active - {f}, trail := s.trail + [Cleared(f)])
  }

  ghost predicate ValidRun(s: State, steps: seq<Step>)
    decreases |steps|
  {
    steps == [] || (Enabled(s, steps[0]) && ValidRun(Next(s, steps[0]), steps[1..]))
  }

  ghost function Run(s: State, steps: seq<Step>): State
    requires ValidRun(s, steps)
    decreases |steps|
  {
    if steps == [] then s else Run(Next(s, steps[0]), steps[1..])
  }

  // ---------------------------------------------------------------- slots of a family

  /** The allowlist write a pipeline still has to make. */
  function PendingIn(cmds: seq<Cmd>): Option<Write> {
    if cmds == [] then None
    else if cmds[0].SetEntry? then Some(cmds[0].write)
    else PendingIn(cmds[1..])
  }

  function Pending(pr: Proc): Option<Write> {
    if pr.Running? then PendingIn(pr.cmds) else None
  }

  predicate InFlight(pr: Proc, f: string) {
    Pending(pr).Some? && FamilyOf(Pending(pr).value.value) == Some(f)
  }

  function LiveTokens(s: State, f: string): set<string> {
    set j | j in s.allow && FamilyOf(s.allow[j]) == Some(f)
  }

  function InFlightRequests(s: State, f: string): set<nat> {
    set p | p in s.procs && InFlight(s.procs[p], f)
  }

  /** The tokens of one family, in the order in which they were put on the allowlist. */
  function FamilyLog(log: seq<Event>, f: string): seq<Event> {
    if log == [] then []
    else
      var rest := FamilyLog(log[..|log| - 1], f);
      if log[|log| - 1].family == Some(f) then rest + [log[|log| - 1]] else rest
  }

  function LastToken(log: seq<Event>, f: string): Option<string> {
    var own := FamilyLog(log, f);
    if own == [] then None else Some(own[|own| - 1].jti)
  }

  /** One linear chain: the first token has no parent, every other replaces the one before it. */
  ghost predicate Linked(own: seq<Event>) {
    && (own != [] ==> own[0].parent == None)
    && forall i, k | 0 <= i < |own| && 0 <= k < |own| && k == i + 1 :: own[k].parent == Some(own[i].jti)
  }

  /** An id set aside for a token that is not on the allowlist yet. */
  function Reserved(pr: Proc): Option<string> {
    if pr.Taking? then Some(pr.next)
    else if Pending(pr).Some? then Some(Pending(pr).value.jti)
    else None
  }

  predicate Logged(log: seq<Event>, j: string) {
    exists i :: 0 <= i < |log| && log[i].jti == j
  }

  predicate IsParent(log: seq<Event>, j: string) {
    exists i :: 0 <= i < |log| && log[i].parent == Some(j)
  }

  // ---------------------------------------------------------------- the invariant

  predicate OneWrite(cmds: seq<Cmd>) {
    forall i, k | 0 <= i < k < |cmds| :: !(cmds[i].SetEntry? && cmds[k].SetEntry?)
  }

  /** A pipeline writes at most one entry; a rotation's claimed ids are colon-free. */
  predicate Shaped(pr: Proc) {
    && (pr.Running? ==> OneWrite(pr.cmds))
    && (pr.Taking? ==> NoColon(pr.user) && NoColon(pr.family))
  }

  /** A reserved id is nobody's token yet. */
  predicate ReservationWell(s: State, pr: Proc) {
    Reserved(pr).Some? ==>
      Reserved(pr).value in s.used && Reserved(pr).value !in s.allow && !Logged(s.log, Reserved(pr).value)
  }

  predicate WriteWell(s: State, w: Write) {
    && FamilyOf(w.value).Some? && FamilyOf(w.value).value in s.used
    && w.parent == LastToken(s.log, FamilyOf(w.value).value)
    && (w.parent.Some? ==> Logged(s.log, w.parent.value) && !IsParent(s.log, w.parent.value))
  }

  predicate ProcsWell(s: State) {
    && (forall p <- s.procs :: Shaped(s.procs[p]) && ReservationWell(s, s.procs[p]))
    && (forall p <- s.procs :: Pending(s.procs[p]).Some? ==> WriteWell(s, Pending(s.procs[p]).value))
    && forall p, q | p in s.procs && q in s.procs && p != q && Reserved(s.procs[p]).Some? ::
         Reserved(s.procs[p]) != Reserved(s.procs[q])
  }

  /** At most one live token or pending write per family. */
  predicate Single(s: State) {
    && (forall j, k | j in s.allow && k in s.allow && FamilyOf(s.allow[j]) == FamilyOf(s.allow[k]) :: j == k)
    && (forall p, q | p in s.procs && q in s.procs && Pending(s.procs[p]).Some? && Pending(s.procs[q]).Some?
                      && FamilyOf(Pending(s.procs[p]).value.value) == FamilyOf(Pending(s.procs[q]).value.value) :: p == q)
    && (forall j, p | j in s.allow && p in s.procs && Pending(s.procs[p]).Some? ::
          FamilyOf(s.allow[j]) != FamilyOf(Pending(s.procs[p]).value.value))
  }

  /** A live token is the last of its family's chain and has no successor. */
  predicate LiveWell(s: State, j: string)
    requires j in s.allow
  {
    && FamilyOf(s.allow[j]).Some? && FamilyOf(s.allow[j]).value in s.used
    && LastToken(s.log, FamilyOf(s.allow[j]).value) == Some(j)
    && Logged(s.log, j) && !IsParent(s.log, j)
  }

  predicate AllowWell(s: State) {
    forall j <- s.allow :: LiveWell(s, j)
  }

  predicate EventWell(log: seq<Event>, used: set<string>, e: Event) {
    && e.jti in used && e.family.Some? && e.family.value in used
    && (e.parent.Some? ==> Logged(log, e.parent.value))
  }

  predicate Distinct(log: seq<Event>) {
    forall i, k | 0 <= i < k < |log| ::
      log[i].jti != log[k].jti && (log[i].parent.Some? ==> log[i].parent != log[k].parent)
  }

  ghost predicate LogWell(s: State) {
    && (forall f :: Linked(FamilyLog(s.log, f)))
    && (forall i :: 0 <= i < |s.log| ==> EventWell(s.log, s.used, s.log[i]))
    && Distinct(s.log)
  }

  ghost predicate Inv(s: State) {
    ProcsWell(s) && Single(s) && AllowWell(s) && LogWell(s)
  }

  lemma {:induction false} NoWritePending(cmds: seq<Cmd>)
    requires forall i :: 0 <= i < |cmds| ==> !cmds[i].SetEntry?
    ensures PendingIn(cmds) == None
  {
    if cmds != [] {
      NoWritePending(cmds[1..]);
    }
  }

  lemma TailOneWrite(cmds: seq<Cmd>)
    requires cmds != [] && OneWrite(cmds)
    ensures OneWrite(cmds[1..])
    ensures cmds[0].SetEntry? ==> PendingIn(cmds[1..]) == None
    ensures !cmds[0].SetEntry? ==> PendingIn(cmds[1..]) == PendingIn(cmds)
  {
    if cmds[0].SetEntry? {
      forall i | 0 <= i < |cmds| - 1 ensures !cmds[1..][i].SetEntry? {
        assert cmds[1..][i] == cmds[i + 1];
      }
      NoWritePending(cmds[1..]);
    }
  }

  /** A step that adds no token and no write: entries may go, requests may end or move on. */
  predicate Quiet(s: State, s': State) {
    && s'.log == s.log && s.used <= s'.used
    && (forall j <- s'.allow :: j in s.allow && s'.allow[j] == s.allow[j])
    && (forall p <- s'.procs ::
          && Shaped(s'.procs[p])
          && (Reserved(s'.procs[p]).None?
              || (p in s.procs && Reserved(s'.procs[p]) == Reserved(s.procs[p])
                  && Pending(s'.procs[p]) == Pending(s.procs[p]))))
  }

  lemma QuietKeepsProcs(s: State, s': State)
    requires Inv(s) && Quiet(s, s')
    ensures ProcsWell(s')
  {
  }

  lemma QuietKeepsSingle(s: State, s': State)
    requires Inv(s) && Quiet(s, s')
    ensures Single(s')
  {
  }

  lemma QuietKeepsInv(s: State, s': State)
    requires Inv(s) && Quiet(s, s')
    ensures Inv(s')
  {
    QuietKeepsProcs(s, s');
    QuietKeepsSingle(s, s');
  }

  lemma RevokeHasNoWrite(members: seq<string>, f: string)
    ensures OneWrite(RevokePipeline(members, f)) && PendingIn(RevokePipeline(members, f)) == None
  {
    NoWritePending(RevokePipeline(members, f));
  }

  lemma RotateHasOneWrite(prev: string, user: string, f: string, next: string)
    ensures OneWrite(RotatePipeline(prev, user, f, next))
    ensures PendingIn(RotatePipeline(prev, user, f, next))
         == Some(Write(next, EntryValue(user, f), Some(prev)))
  {
    var cmds := RotatePipeline(prev, user, f, next);
    assert cmds[1..][0] == cmds[1];
  }

  lemma StartIssueKeepsInv(s: State, p: nat, user: string, f: string, j: string)
    requires Inv(s) && Enabled(s, StartIssue(p, user, f, j))
    ensures Inv(Next(s, StartIssue(p, user, f, j)))
  {
    EntryValueMatches(user, f, user, f);
    assert PendingIn(IssuePipeline(user, f, j)) == Some(Write(j, EntryValue(user, f), None));
    StartKeepsInv(s, Next(s, StartIssue(p, user, f, j)), p, Running(IssuePipeline(user, f, j)));
  }

  lemma LoggedIsUsed(s: State, j: string)
    requires Inv(s) && (j in s.allow || Logged(s.log, j))
    ensures j in s.used
  {
    var i :| 0 <= i < |s.log| && s.log[i].jti == j;
    assert EventWell(s.log, s.used, s.log[i]);
  }

  lemma StartKeepsLog(s: State, s': State)
    requires LogWell(s) && AllowWell(s) && s'.log == s.log && s'.allow == s.allow && s.used <= s'.used
    ensures LogWell(s') && AllowWell(s')
  {
    forall i | 0 <= i < |s'.log| ensures EventWell(s'.log, s'.used, s'.log[i]) {
      assert EventWell(s.log, s.used, s.log[i]);
    }
  }

  /** A new request with new ids; if it writes a token, that token starts a new family. */
  lemma StartKeepsInv(s: State, s': State, p: nat, pr: Proc)
    requires Inv(s) && p !in s.procs && s.used <= s'.used
    requires s' == s.(procs := s.procs[p := pr], used := s'.used)
    requires Shaped(pr) && Reserved(pr).Some? && Reserved(pr).value in s'.used - s.used
    requires Pending(pr).Some? ==>
               var w := Pending(pr).value;
               w.parent.None? && FamilyOf(w.value).Some? && FamilyOf(w.value).value in s'.used - s.used
    ensures Inv(s')
  {
    if Reserved(pr).value in s.allow || Logged(s.log, Reserved(pr).value) {
      LoggedIsUsed(s, Reserved(pr).value);
    }
    StartKeepsLog(s, s');
    if Pending(pr).Some? {
      UnusedFamilyHasNoLog(s.log, s.used, FamilyOf(Pending(pr).value.value).value);
    }
    StartKeepsProcs(s, s', p, pr);
    assert forall q <- s.procs :: Pending(s.procs[q]).Some? ==> WriteWell(s, Pending(s.procs[q]).value);
  }

  lemma StartKeepsProcs(s: State, s': State, p: nat, pr: Proc)
    requires ProcsWell(s) && p !in s.procs && s.used <= s'.used
    requires s' == s.(procs := s.procs[p := pr], used := s'.used)
    requires Shaped(pr) && ReservationWell(s', pr) && Reserved(pr).Some? && Reserved(pr).value !in s.used
    requires Pending(pr).Some? ==> WriteWell(s', Pending(pr).value)
    ensures ProcsWell(s')
  {
    forall q <- s.procs | Pending(s.procs[q]).Some? ensures WriteWell(s', Pending(s.procs[q]).value) {
      assert WriteWell(s, Pending(s.procs[q]).value);
    }
  }

  lemma {:induction false} UnusedFamilyHasNoLog(log: seq<Event>, used: set<string>, f: string)
    requires f !in used
    requires forall i :: 0 <= i < |log| ==> log[i].family.Some? && log[i].family.value in used
    ensures FamilyLog(log, f) == []
  {
    if log != [] {
      UnusedFamilyHasNoLog(log[..|log| - 1], used, f);
    }
  }

  predicate TakeSucceeds(s: State, pr: Proc)
    requires pr.Taking?
  {
    pr.prev in s.allow && s.allow[pr.prev] != "" && Matches(s.allow[pr.prev], pr.user, pr.family)
  }

  lemma FailedTakeIsQuiet(s: State, p: nat)
    requires ProcsWell(s) && p in s.procs && s.procs[p].Taking? && !TakeSucceeds(s, s.procs[p])
    ensures Quiet(s, Next(s, Advance(p)))
  {
  }

  /** Request `p` has removed `prev` and now has to write its successor `w`. */
  ghost predicate TakeStep(s: State, s': State, p: nat, prev: string, w: Write) {
    && p in s.procs && prev in s.allow && w.parent == Some(prev) && FamilyOf(w.value) == FamilyOf(s.allow[prev])
    && s' == s.(allow := s.allow - {prev}, procs := s'.procs) && s'.procs.Keys == s.procs.Keys
    && (forall q <- s.procs :: q != p ==> s'.procs[q] == s.procs[q])
    && Pending(s.procs[p]) == None && Pending(s'.procs[p]) == Some(w)
    && Reserved(s'.procs[p]) == Reserved(s.procs[p]) && Shaped(s'.procs[p])
  }

  lemma TakeIsStep(s: State, p: nat)
    requires ProcsWell(s) && p in s.procs && s.procs[p].Taking? && TakeSucceeds(s, s.procs[p])
    ensures var pr := s.procs[p];
            TakeStep(s, Next(s, Advance(p)), p, pr.prev, Write(pr.next, EntryValue(pr.user, pr.family), Some(pr.prev)))
  {
    var pr := s.procs[p];
    RotateHasOneWrite(pr.prev, pr.user, pr.family, pr.next);
    EntryValueMatches(pr.user, pr.family, pr.user, pr.family);
  }

  lemma TakeStepKeepsProcs(s: State, s': State, p: nat, prev: string, w: Write)
    requires ProcsWell(s) && AllowWell(s) && TakeStep(s, s', p, prev, w)
    ensures ProcsWell(s')
  {
    assert WriteWell(s', w);
    forall q <- s'.procs | Pending(s'.procs[q]).Some? ensures WriteWell(s', Pending(s'.procs[q]).value) {
      assert q != p ==> WriteWell(s, Pending(s.procs[q]).value);
    }
  }

  lemma TakeStepKeepsSingle(s: State, s': State, p: nat, prev: string, w: Write)
    requires Single(s) && TakeStep(s, s', p, prev, w)
    ensures Single(s')
  {
  }

  lemma TakeKeepsInv(s: State, p: nat)
    requires Inv(s) && p in s.procs && s.procs[p].Taking?
    ensures Inv(Next(s, Advance(p)))
  {
    var pr, s' := s.procs[p], Next(s, Advance(p));
    if TakeSucceeds(s, pr) {
      var w := Write(pr.next, EntryValue(pr.user, pr.family), Some(pr.prev));
      TakeIsStep(s, p);
      TakeStepKeepsProcs(s, s', p, pr.prev, w);
      TakeStepKeepsSingle(s, s', p, pr.prev, w);
      StartKeepsLog(s, s'.(allow := s.allow));
    } else {
      FailedTakeIsQuiet(s, p);
      QuietKeepsInv(s, s');
    }
  }

  lemma ReadIsQuiet(s: State, p: nat)
    requires p in s.procs && (s.procs[p].Checking? || s.procs[p].Listing?) && ProcsWell(s)
    ensures Quiet(s, Next(s, Advance(p)))
  {
    if s.procs[p].Listing? {
      var f := s.procs[p].family;
      RevokeHasNoWrite(Listed(if f in s.active then s.active[f] else {}), f);
    }
  }

  lemma FamilyLogAppend(log: seq<Event>, e: Event, f: string)
    ensures FamilyLog(log + [e], f) == if e.family == Some(f) then FamilyLog(log, f) + [e] else FamilyLog(log, f)
  {
    assert (log + [e])[..|log|] == log;
  }

  lemma LoggedAppend(log: seq<Event>, e: Event, j: string)
    ensures Logged(log + [e], j) <==> Logged(log, j) || e.jti == j
    ensures IsParent(log + [e], j) <==> IsParent(log, j) || e.parent == Some(j)
  {
    if Logged(log, j) {
      var i :| 0 <= i < |log| && log[i].jti == j;
      assert (log + [e])[i].jti == j;
    }
    if IsParent(log, j) {
      var i :| 0 <= i < |log| && log[i].parent == Some(j);
      assert (log + [e])[i].parent == Some(j);
    }
    assert (log + [e])[|log|] == e;
  }

  lemma StepKeepsInv(s: State, step: Step)
    requires Inv(s) && Enabled(s, step)
    ensures Inv(Next(s, step))
  {
    match step
    case StartIssue(p, user, f, j) => StartIssueKeepsInv(s, p, user, f, j);
    case StartRotate(p, prev, user, f, next) => StartRotateKeepsInv(s, p, prev, user, f, next);
    case Advance(p) => AdvanceKeepsInv(s, p);
    case StartLogout(p, j, f) =>
      NoWritePending([DelEntry(j), SremActive(f, j)]);
      QuietKeepsInv(s, Next(s, step));
    case _ => QuietKeepsInv(s, Next(s, step));
  }

  lemma StartRotateKeepsInv(s: State, p: nat, prev: string, user: string, f: string, next: string)
    requires Inv(s) && Enabled(s, StartRotate(p, prev, user, f, next))
    ensures Inv(Next(s, StartRotate(p, prev, user, f, next)))
  {
    StartKeepsInv(s, Next(s, StartRotate(p, prev, user, f, next)), p, Taking(prev, user, f, next));
  }

  lemma AdvanceKeepsInv(s: State, p: nat)
    requires Inv(s) && p in s.procs
    ensures Inv(Next(s, Advance(p)))
  {
    match s.procs[p]
    case Taking(_, _, _, _) => TakeKeepsInv(s, p);
    case Running(cmds) => PipelineKeepsInv(s, p);
    case _ =>
      ReadIsQuiet(s, p);
      QuietKeepsInv(s, Next(s, Advance(p)));
  }

  lemma PipelineKeepsInv(s: State, p: nat)
    requires Inv(s) && p in s.procs && s.procs[p].Running?
    ensures Inv(Next(s, Advance(p)))
  {
    var cmds := s.procs[p].cmds;
    if cmds == [] {
      QuietKeepsInv(s, Next(s, Advance(p)));
    } else {
      TailOneWrite(cmds);
      if cmds[0].SetEntry? {
        var w := cmds[0].write;
        WriteIsStep(s, p);
        WriteKeepsInv(s, Next(s, Advance(p)), p, w, Event(FamilyOf(w.value), w.parent, w.jti));
      } else {
        OtherCommandIsQuiet(s, p);
        QuietKeepsInv(s, Next(s, Advance(p)));
      }
    }
  }

  lemma OtherCommandIsQuiet(s: State, p: nat)
    requires ProcsWell(s) && p in s.procs && s.procs[p].Running?
    requires s.procs[p].cmds != [] && !s.procs[p].cmds[0].SetEntry?
    ensures Quiet(s, Next(s, Advance(p)))
  {
    TailOneWrite(s.procs[p].cmds);
  }

  /** Request `p` makes its pending write `w`, which is logged as event `e`. */
  ghost predicate WriteStep(s: State, s': State, p: nat, w: Write, e: Event) {
    && p in s.procs && Pending(s.procs[p]) == Some(w) && Reserved(s.procs[p]) == Some(w.jti)
    && s'.allow == s.allow[w.jti := w.value] && s'.used == s.used
    && s'.procs.Keys == s.procs.Keys
    && (forall q <- s.procs :: q != p ==> s'.procs[q] == s.procs[q])
    && Pending(s'.procs[p]) == None && Reserved(s'.procs[p]) == None && Shaped(s'.procs[p])
    && s'.log == s.log + [e] && e == Event(FamilyOf(w.value), w.parent, w.jti)
  }

  /** How the write shows in the chains and in the log. */
  ghost predicate LogFacts(log: seq<Event>, log': seq<Event>, e: Event) {
    && (forall f :: FamilyLog(log', f) == if e.family == Some(f) then FamilyLog(log, f) + [e] else FamilyLog(log, f))
    && (forall j :: Logged(log', j) <==> Logged(log, j) || e.jti == j)
    && (forall j :: IsParent(log', j) <==> IsParent(log, j) || e.parent == Some(j))
  }

  lemma LogFactsHold(log: seq<Event>, e: Event)
    ensures LogFacts(log, log + [e], e)
  {
    forall f ensures FamilyLog(log + [e], f)
                  == if e.family == Some(f) then FamilyLog(log, f) + [e] else FamilyLog(log, f) {
      FamilyLogAppend(log, e, f);
    }
    forall j ensures (Logged(log + [e], j) <==> Logged(log, j) || e.jti == j)
                  && (IsParent(log + [e], j) <==> IsParent(log, j) || e.parent == Some(j)) {
      LoggedAppend(log, e, j);
    }
  }

  lemma LinkedAppend(own: seq<Event>, e: Event)
    requires Linked(own)
    requires e.parent == if own == [] then None else Some(own[|own| - 1].jti)
    ensures Linked(own + [e])
  {
  }

  lemma ChainAppend(log: seq<Event>, e: Event, f: string)
    requires Linked(FamilyLog(log, f))
    requires e.family == Some(f) ==> e.parent == LastToken(log, f)
    ensures Linked(FamilyLog(log + [e], f))
  {
    FamilyLogAppend(log, e, f);
    if e.family == Some(f) {
      LinkedAppend(FamilyLog(log, f), e);
    }
  }

  lemma WriteKeepsChains(s: State, s': State, p: nat, w: Write, e: Event)
    requires LogWell(s) && WriteWell(s, w) && WriteStep(s, s', p, w, e)
    ensures forall f :: Linked(FamilyLog(s'.log, f))
  {
    forall f ensures Linked(FamilyLog(s'.log, f)) {
      ChainAppend(s.log, e, f);
    }
  }

  lemma WriteKeepsLog(s: State, s': State, p: nat, w: Write, e: Event)
    requires LogWell(s) && WriteWell(s, w) && WriteStep(s, s', p, w, e) && LogFacts(s.log, s'.log, e)
    requires ReservationWell(s, s.procs[p])
    ensures LogWell(s')
  {
    WriteKeepsChains(s, s', p, w, e);
    DistinctAppend(s.log, e);
    EventsAppend(s.log, s.used, e);
  }

  lemma DistinctAppend(log: seq<Event>, e: Event)
    requires Distinct(log) && !Logged(log, e.jti)
    requires e.parent.Some? ==> !IsParent(log, e.parent.value)
    ensures Distinct(log + [e])
  {
    var log' := log + [e];
    forall i, k | 0 <= i < k < |log'|
      ensures log'[i].jti != log'[k].jti && (log'[i].parent.Some? ==> log'[i].parent != log'[k].parent)
    {
      assert log'[i] == log[i];
      if k < |log| {
        assert log'[k] == log[k];
      }
    }
  }

  lemma EventsAppend(log: seq<Event>, used: set<string>, e: Event)
    requires forall i :: 0 <= i < |log| ==> EventWell(log, used, log[i])
    requires EventWell(log, used, e)
    ensures forall i :: 0 <= i < |log + [e]| ==> EventWell(log + [e], used, (log + [e])[i])
  {
    var log' := log + [e];
    forall i | 0 <= i < |log'| ensures EventWell(log', used, log'[i]) {
      assert EventWell(log, used, if i < |log| then log[i] else e);
      if log'[i].parent.Some? {
        LoggedAppend(log, e, log'[i].parent.value);
      }
    }
  }

  lemma WriteKeepsSingle(s: State, s': State, p: nat, w: Write, e: Event)
    requires Single(s) && WriteStep(s, s', p, w, e)
    ensures Single(s')
  {
    assert forall q | q in s'.procs && Pending(s'.procs[q]).Some? :: q != p && s'.procs[q] == s.procs[q];
  }

  lemma WriteKeepsAllow(s: State, s': State, p: nat, w: Write, e: Event)
    requires AllowWell(s) && Single(s) && LogWell(s) && WriteWell(s, w)
    requires WriteStep(s, s', p, w, e) && LogFacts(s.log, s'.log, e) && ReservationWell(s, s.procs[p])
    ensures AllowWell(s')
  {
    if IsParent(s.log, w.jti) {
      ParentIsLogged(s, w.jti);
    }
    NewEntryIsWell(s, s', w, e);
    forall j <- s'.allow ensures LiveWell(s', j) {
      if j != w.jti {
        assert LiveWell(s, j);
        LiveIsNotReplaced(s, p, w, j);
        OldEntryIsWell(s, s', j, e);
      }
    }
  }

  lemma NewEntryIsWell(s: State, s': State, w: Write, e: Event)
    requires WriteWell(s, w) && !IsParent(s.log, w.jti) && w.parent != Some(w.jti)
    requires LogFacts(s.log, s'.log, e) && e == Event(FamilyOf(w.value), w.parent, w.jti)
    requires w.jti in s'.allow && s'.allow[w.jti] == w.value && s'.used == s.used
    ensures LiveWell(s', w.jti)
  {
  }

  lemma OldEntryIsWell(s: State, s': State, j: string, e: Event)
    requires j in s.allow && LiveWell(s, j) && LogFacts(s.log, s'.log, e)
    requires FamilyOf(s.allow[j]) != e.family && e.parent != Some(j)
    requires j in s'.allow && s'.allow[j] == s.allow[j] && s'.used == s.used
    ensures LiveWell(s', j)
  {
  }

  lemma ParentIsLogged(s: State, j: string)
    requires LogWell(s) && IsParent(s.log, j)
    ensures Logged(s.log, j)
  {
    var i :| 0 <= i < |s.log| && s.log[i].parent == Some(j);
    assert EventWell(s.log, s.used, s.log[i]);
  }

  /** A live token belongs to another family than a pending write, and is not what it replaces. */
  lemma LiveIsNotReplaced(s: State, p: nat, w: Write, j: string)
    requires AllowWell(s) && Single(s) && LogWell(s) && WriteWell(s, w) && j in s.allow
    requires p in s.procs && Pending(s.procs[p]) == Some(w)
    ensures FamilyOf(s.allow[j]) != FamilyOf(w.value) && w.parent != Some(j)
  {
    if w.parent == Some(j) {
      SameTokenSameFamily(s.log, j, FamilyOf(s.allow[j]).value, FamilyOf(w.value).value);
    }
  }

  lemma WriteKeepsProcs(s: State, s': State, p: nat, w: Write, e: Event)
    requires ProcsWell(s) && Single(s) && LogWell(s)
    requires WriteStep(s, s', p, w, e) && LogFacts(s.log, s'.log, e)
    ensures ProcsWell(s')
  {
    forall q <- s'.procs | Pending(s'.procs[q]).Some? ensures WriteWell(s', Pending(s'.procs[q]).value) {
      assert q != p && WriteWell(s, w) && WriteWell(s, Pending(s.procs[q]).value);
      OtherWriteStays(s, s', w, e, Pending(s'.procs[q]).value);
    }
    forall q <- s'.procs ensures Shaped(s'.procs[q]) && ReservationWell(s', s'.procs[q]) {
      assert q != p ==> ReservationWell(s, s.procs[q]);
    }
  }

  lemma OtherWriteStays(s: State, s': State, w: Write, e: Event, v: Write)
    requires WriteWell(s, w) && WriteWell(s, v) && LogWell(s) && LogFacts(s.log, s'.log, e) && s'.used == s.used
    requires FamilyOf(v.value) != FamilyOf(w.value) && e == Event(FamilyOf(w.value), w.parent, w.jti)
    ensures WriteWell(s', v)
  {
    if v.parent.Some? && v.parent == e.parent {
      SameTokenSameFamily(s.log, v.parent.value, FamilyOf(v.value).value, FamilyOf(w.value).value);
    }
  }

  lemma {:induction false} LastIsLogged(log: seq<Event>, f: string)
    requires FamilyLog(log, f) != []
    ensures exists i :: 0 <= i < |log| && log[i].family == Some(f) && Some(log[i].jti) == LastToken(log, f)
  {
    var n := |log| - 1;
    if log[n].family != Some(f) {
      LastIsLogged(log[..n], f);
      var i :| 0 <= i < n && log[..n][i].family == Some(f) && Some(log[..n][i].jti) == LastToken(log[..n], f);
      assert log[i] == log[..n][i];
    }
  }

  /** Two families never end in the same token. */
  lemma SameTokenSameFamily(log: seq<Event>, j: string, f: string, g: string)
    requires Distinct(log)
    requires LastToken(log, f) == Some(j) == LastToken(log, g)
    ensures f == g
  {
    LastIsLogged(log, f);
    LastIsLogged(log, g);
  }

  lemma WriteIsStep(s: State, p: nat)
    requires p in s.procs && s.procs[p].Running? && Shaped(s.procs[p])
    requires s.procs[p].cmds != [] && s.procs[p].cmds[0].SetEntry?
    ensures var w := s.procs[p].cmds[0].write;
            WriteStep(s, Next(s, Advance(p)), p, w, Event(FamilyOf(w.value), w.parent, w.jti))
  {
    TailOneWrite(s.procs[p].cmds);
  }

  lemma WriteKeepsInv(s: State, s': State, p: nat, w: Write, e: Event)
    requires Inv(s) && WriteStep(s, s', p, w, e)
    ensures Inv(s')
  {
    LogFactsHold(s.log, e);
    WriteKeepsLog(s, s', p, w, e);
    WriteKeepsSingle(s, s', p, w, e);
    WriteKeepsAllow(s, s', p, w, e);
    WriteKeepsProcs(s, s', p, w, e);
  }

  lemma {:induction false} RunKeepsInv(s: State, steps: seq<Step>)
    requires Inv(s) && ValidRun(s, steps)
    ensures Inv(Run(s, steps))
    decreases |steps|
  {
    if steps != [] {
      StepKeepsInv(s, steps[0]);
      RunKeepsInv(Next(s, steps[0]), steps[1..]);
    }
  }

  // ---------------------------------------------------------------- what holds over every interleaving

  lemma AtMostOne<T>(xs: set<T>)
    requires forall x, y | x in xs && y in xs :: x == y
    ensures |xs| <= 1
  {
    if xs != {} {
      var x :| x in xs;
      assert xs == {x};
    }
  }

  lemma InitIsWell()
    ensures Inv(INIT)
  {
  }

  lemma SlotIsSingle(s: State, f: string)
    requires Single(s)
    ensures |LiveTokens(s, f)| + |InFlightRequests(s, f)| <= 1
  {
    AtMostOne(LiveTokens(s, f));
    AtMostOne(InFlightRequests(s, f));
    assert forall j, p | j in LiveTokens(s, f) && p in InFlightRequests(s, f) :: false;
    assert LiveTokens(s, f) == {} || InFlightRequests(s, f) == {};
  }

  lemma LiveIsLast(s: State, f: string)
    requires AllowWell(s)
    ensures forall j <- LiveTokens(s, f) :: LastToken(s.log, f) == Some(j)
  {
    forall j <- LiveTokens(s, f) ensures LastToken(s.log, f) == Some(j) {
      assert LiveWell(s, j);
    }
  }

  /**
   * In every interleaving a family is one linear resource: its live tokens and its pending allowlist
   * writes number at most one together. The tokens ever put on its allowlist form one chain, each
   * replacing the one before, and no token is ever replaced twice.
   */
  lemma OneTokenPerFamily(steps: seq<Step>, f: string)
    requires ValidRun(INIT, steps)
    ensures var s := Run(INIT, steps);
            && |LiveTokens(s, f)| + |InFlightRequests(s, f)| <= 1
            && Linked(FamilyLog(s.log, f))
            && (forall j <- LiveTokens(s, f) :: LastToken(s.log, f) == Some(j))
            && (forall i, k | 0 <= i < k < |s.log| && s.log[i].parent.Some? :: s.log[i].parent != s.log[k].parent)
  {
    InitIsWell();
    RunKeepsInv(INIT, steps);
    SlotIsSingle(Run(INIT, steps), f);
    LiveIsLast(Run(INIT, steps), f);
  }

  /** A generated family with neither a live token nor a pending write. */
  predicate Spent(s: State, f: string) {
    f in s.used && LiveTokens(s, f) == {} && InFlightRequests(s, f) == {}
  }

  lemma SpentMeans(s: State, f: string)
    requires f in s.used
    ensures Spent(s, f) <==>
            && (forall j <- s.allow :: FamilyOf(s.allow[j]) != Some(f))
            && (forall p <- s.procs :: !InFlight(s.procs[p], f))
  {
    assert (forall j <- s.allow :: FamilyOf(s.allow[j]) != Some(f)) ==> LiveTokens(s, f) == {};
    assert (forall p <- s.procs :: !InFlight(s.procs[p], f)) ==> InFlightRequests(s, f) == {};
    assert forall j <- s.allow :: FamilyOf(s.allow[j]) == Some(f) ==> j in LiveTokens(s, f);
    assert forall p <- s.procs :: InFlight(s.procs[p], f) ==> p in InFlightRequests(s, f);
  }

  lemma QuietKeepsSpent(s: State, s': State, f: string)
    requires Quiet(s, s') && Spent(s, f)
    ensures Spent(s', f)
  {
    SpentMeans(s, f);
    SpentMeans(s', f);
  }

  lemma TakeKeepsSpent(s: State, p: nat, f: string)
    requires Inv(s) && p in s.procs && s.procs[p].Taking? && Spent(s, f)
    ensures Spent(Next(s, Advance(p)), f)
  {
    var pr := s.procs[p];
    SpentMeans(s, f);
    SpentMeans(Next(s, Advance(p)), f);
    RotateHasOneWrite(pr.prev, pr.user, pr.family, pr.next);
    EntryValueMatches(pr.user, pr.family, pr.user, pr.family);
  }

  lemma PipelineKeepsSpent(s: State, p: nat, f: string)
    requires Inv(s) && p in s.procs && s.procs[p].Running? && Spent(s, f)
    ensures Spent(Next(s, Advance(p)), f)
  {
    var cmds := s.procs[p].cmds;
    if cmds != [] && cmds[0].SetEntry? {
      TailOneWrite(cmds);
      SpentMeans(s, f);
      SpentMeans(Next(s, Advance(p)), f);
      assert !InFlight(s.procs[p], f);
    } else {
      if cmds != [] {
        OtherCommandIsQuiet(s, p);
      }
      QuietKeepsSpent(s, Next(s, Advance(p)), f);
    }
  }

  lemma AdvanceKeepsSpent(s: State, p: nat, f: string)
    requires Inv(s) && p in s.procs && Spent(s, f)
    ensures Spent(Next(s, Advance(p)), f)
  {
    match s.procs[p]
    case Taking(_, _, _, _) => TakeKeepsSpent(s, p, f);
    case Running(_) => PipelineKeepsSpent(s, p, f);
    case _ =>
      ReadIsQuiet(s, p);
      QuietKeepsSpent(s, Next(s, Advance(p)), f);
  }

  lemma IssueKeepsSpent(s: State, p: nat, user: string, g: string, j: string, f: string)
    requires Inv(s) && Enabled(s, StartIssue(p, user, g, j)) && Spent(s, f)
    ensures Spent(Next(s, StartIssue(p, user, g, j)), f)
  {
    EntryValueMatches(user, g, user, g);
    SpentMeans(s, f);
    SpentMeans(Next(s, StartIssue(p, user, g, j)), f);
  }

  lemma StepKeepsSpent(s: State, step: Step, f: string)
    requires Inv(s) && Enabled(s, step) && Spent(s, f)
    ensures Spent(Next(s, step), f)
  {
    var s' := Next(s, step);
    match step
    case StartIssue(p, user, g, j) => IssueKeepsSpent(s, p, user, g, j, f);
    case StartRotate(_, _, _, _, _) =>
      SpentMeans(s, f);
      SpentMeans(s', f);
    case StartLogout(p, j, g) =>
      NoWritePending([DelEntry(j), SremActive(g, j)]);
      QuietKeepsSpent(s, s', f);
    case Advance(p) => AdvanceKeepsSpent(s, p, f);
    case _ => QuietKeepsSpent(s, s', f);
  }

  /** Once spent, a family stays spent under every interleaving. */
  lemma {:induction false} SpentForever(s: State, steps: seq<Step>, f: string)
    requires Inv(s) && ValidRun(s, steps) && Spent(s, f)
    ensures Spent(Run(s, steps), f)
    decreases |steps|
  {
    if steps != [] {
      StepKeepsInv(s, steps[0]);
      StepKeepsSpent(s, steps[0], f);
      SpentForever(Next(s, steps[0]), steps[1..], f);
    }
  }
}
