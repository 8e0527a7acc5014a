/**
 * What `revokeFamily` reaches when requests interleave (src/modules/auth/token.service.ts): it deletes
 * the tokens listed in the family's active set, so a live token that the set does not list survives.
 */
module FamilyCoverage {
  import opened Common
  import opened Text
  import opened TokenInterleaving
  import opened TokenKeys

  predicate Member(active: map<string, set<string>>, f: string, j: string) {
    f in active && j in active[f]
  }

  /** The set was told of the token, and since then neither dropped it nor was deleted or expired. */
  predicate ListedBy(trail: seq<Touch>, f: string, j: string) {
    exists i :: 0 <= i < |trail| && trail[i] == Added(f, j)
                && forall k :: i < k < |trail| ==> trail[k] != Cleared(f) && trail[k] != Removed(f, j)
  }

  /** The set was deleted or expired after it was last told of the token. */
  predicate ClearedSince(trail: seq<Touch>, f: string, j: string) {
    exists k :: 0 <= k < |trail| && trail[k] == Cleared(f) && forall i :: k < i < |trail| ==> trail[i] != Added(f, j)
  }

  /** Only tokens that have been on the allowlist are presented for logout. */
  ghost predicate Genuine(s: State, steps: seq<Step>)
    requires ValidRun(s, steps)
    decreases |steps|
  {
    steps == [] ||
    ((steps[0].StartLogout? ==> Logged(s.log, steps[0].jti)) && Genuine(Next(s, steps[0]), steps[1..]))
  }

  // ---------------------------------------------------------------- active sets follow their trail

  ghost predicate Traced(s: State) {
    forall f, j :: Member(s.active, f, j) <==> ListedBy(s.trail, f, j)
  }

  function Applied(active: map<string, set<string>>, t: Touch): map<string, set<string>> {
    match t
    case Added(f, j) => active[f := (if f in active then active[f] else {}) + {j}]
    case Removed(f, j) => if f !in active || active[f] <= {j} then active - {f} else active[f := active[f] - {j}]
    case Cleared(f) => active - {f}
  }

  /** How a step touches an active set. */
  function TouchOf(s: State, step: Step): Option<Touch>
    requires Enabled(s, step)
  {
    match step
    case Advance(p) =>
      if s.procs[p].Running? && s.procs[p].cmds != [] then
        match s.procs[p].cmds[0]
        case SaddActive(f, j) => Some(Added(f, j))
        case SremActive(f, j) => Some(Removed(f, j))
        case DelActive(f) => Some(Cleared(f))
        case _ => None
      else None
    case LoseActive(f) => Some(Cleared(f))
    case _ => None
  }

  lemma StepTouches(s: State, step: Step)
    requires Enabled(s, step)
    ensures var t := TouchOf(s, step);
            && Next(s, step).active == (if t.Some? then Applied(s.active, t.value) else s.active)
            && Next(s, step).trail == (if t.Some? then s.trail + [t.value] else s.trail)
  {
  }

  lemma ListedAppend(trail: seq<Touch>, t: Touch, f: string, j: string)
    ensures ListedBy(trail + [t], f, j) <==>
            t == Added(f, j) || (ListedBy(trail, f, j) && t != Cleared(f) && t != Removed(f, j))
  {
    var trail' := trail + [t];
    if t == Added(f, j) {
      assert trail'[|trail|] == t;
    } else if ListedBy(trail, f, j) && t != Cleared(f) && t != Removed(f, j) {
      var i :| 0 <= i < |trail| && trail[i] == Added(f, j)
               && forall k :: i < k < |trail| ==> trail[k] != Cleared(f) && trail[k] != Removed(f, j);
      assert trail'[i] == Added(f, j);
    }
    if ListedBy(trail', f, j) && t != Added(f, j) {
      var i :| 0 <= i < |trail'| && trail'[i] == Added(f, j)
               && forall k :: i < k < |trail'| ==> trail'[k] != Cleared(f) && trail'[k] != Removed(f, j);
      assert trail'[|trail|] == t && trail[i] == Added(f, j);
      assert forall k :: i < k < |trail| ==> trail[k] == trail'[k];
    }
  }

  lemma AppliedMember(active: map<string, set<string>>, t: Touch, f: string, j: string)
    ensures Member(Applied(active, t), f, j) <==>
            t == Added(f, j) || (Member(active, f, j) && t != Cleared(f) && t != Removed(f, j))
  {
  }

  lemma StepKeepsTraced(s: State, step: Step)
    requires Traced(s) && Enabled(s, step)
    ensures Traced(Next(s, step))
  {
    StepTouches(s, step);
    var t := TouchOf(s, step);
    if t.Some? {
      forall f, j ensures Member(Applied(s.active, t.value), f, j) <==> ListedBy(s.trail + [t.value], f, j) {
        AppliedMember(s.active, t.value, f, j);
        ListedAppend(s.trail, t.value, f, j);
      }
    }
  }

  // ---------------------------------------------------------------- live tokens are announced, removed ones gone

  /** A pipeline that will still tell the active set of the token. */
  predicate WillAdd(pr: Proc, f: string, j: string) {
    pr.Running? && SaddActive(f, j) in pr.cmds
  }

  /** A token that was on the allowlist and never can be again. */
  predicate Gone(s: State, j: string) {
    j !in s.allow && Logged(s.log, j)
  }

  predicate Announced(s: State, j: string)
    requires j in s.allow
  {
    && FamilyOf(s.allow[j]).Some?
    && (Added(FamilyOf(s.allow[j]).value, j) in s.trail
        || exists p <- s.procs :: WillAdd(s.procs[p], FamilyOf(s.allow[j]).value, j))
  }

  /** A pending token write is at the front, perhaps behind a marker, and is announced later on. */
  predicate WriteShape(cmds: seq<Cmd>) {
    PendingIn(cmds).Some? ==>
      var w := PendingIn(cmds).value;
      && (cmds[0].SetEntry? || (cmds[0].Mark? && |cmds| > 1 && cmds[1].SetEntry?))
      && FamilyOf(w.value).Some? && SaddActive(FamilyOf(w.value).value, w.jti) in cmds
  }

  /** A membership is dropped only of a token that is gone, or is deleted by the command just before. */
  predicate DropsGone(s: State, cmds: seq<Cmd>) {
    forall c <- cmds :: c.SremActive? ==> Gone(s, c.jti) || (cmds[0] == DelEntry(c.jti) && Logged(s.log, c.jti))
  }

  predicate ProcCovered(s: State, pr: Proc) {
    pr.Running? ==> WriteShape(pr.cmds) && DropsGone(s, pr.cmds)
  }

  ghost predicate Covered(s: State) {
    && Inv(s) && Traced(s)
    && (forall j <- s.allow :: Announced(s, j))
    && (forall t <- s.trail :: t.Removed? ==> Gone(s, t.jti))
    && (forall p <- s.procs :: ProcCovered(s, s.procs[p]))
  }

  /** The command a step executes, if it is one of a pipeline. */
  predicate Executes(s: State, step: Step, cmd: Cmd)
    requires Enabled(s, step)
  {
    step.Advance? && s.procs[step.p].Running? && s.procs[step.p].cmds != [] && s.procs[step.p].cmds[0] == cmd
  }

  /** The step writes the entry of token `j`. */
  predicate Writes(s: State, step: Step, j: string)
    requires Enabled(s, step)
  {
    && step.Advance? && s.procs[step.p].Running? && s.procs[step.p].cmds != []
    && s.procs[step.p].cmds[0].SetEntry? && s.procs[step.p].cmds[0].write.jti == j
  }

  lemma StepEntries(s: State, step: Step, j: string)
    requires Enabled(s, step) && j in Next(s, step).allow
    ensures || (j in s.allow && Next(s, step).allow[j] == s.allow[j])
            || (Writes(s, step, j) && Next(s, step).allow[j] == s.procs[step.p].cmds[0].write.value)
  {
  }

  lemma WritesUnlogged(s: State, step: Step, j: string)
    requires Inv(s) && Enabled(s, step) && Writes(s, step, j)
    ensures !Logged(s.log, j)
  {
    assert ReservationWell(s, s.procs[step.p]) && Reserved(s.procs[step.p]) == Some(j);
  }

  /** Entries appear on the allowlist only by a pending write, for a token that never was on it. */
  lemma StepAllow(s: State, step: Step, j: string)
    requires Inv(s) && Enabled(s, step) && j in Next(s, step).allow
    ensures || (j in s.allow && Next(s, step).allow[j] == s.allow[j])
            || (Writes(s, step, j) && Next(s, step).allow[j] == s.procs[step.p].cmds[0].write.value && !Logged(s.log, j))
  {
    StepEntries(s, step, j);
    if Writes(s, step, j) {
      WritesUnlogged(s, step, j);
    }
  }

  lemma LogGrows(s: State, step: Step, j: string)
    requires Enabled(s, step) && Logged(s.log, j)
    ensures Logged(Next(s, step).log, j)
  {
    var i :| 0 <= i < |s.log| && s.log[i].jti == j;
    assert s.log <= Next(s, step).log;
    assert Next(s, step).log[i].jti == j;
  }

  lemma GoneStays(s: State, step: Step, j: string)
    requires Inv(s) && Enabled(s, step) && Gone(s, j)
    ensures Gone(Next(s, step), j)
  {
    LogGrows(s, step, j);
    if j in Next(s, step).allow {
      StepAllow(s, step, j);
    }
  }

  lemma OtherProcCovered(s: State, step: Step, pr: Proc)
    requires Inv(s) && Enabled(s, step) && ProcCovered(s, pr)
    ensures ProcCovered(Next(s, step), pr)
  {
    if pr.Running? {
      forall c <- pr.cmds | c.SremActive?
        ensures Gone(Next(s, step), c.jti) || (pr.cmds[0] == DelEntry(c.jti) && Logged(Next(s, step).log, c.jti))
      {
        if Gone(s, c.jti) {
          GoneStays(s, step, c.jti);
        } else {
          LogGrows(s, step, c.jti);
        }
      }
    }
  }

  /** Requests other than the one that takes the step stay as they are. */
  lemma OnlyOneMoves(s: State, step: Step, p: nat)
    requires Enabled(s, step) && p in Next(s, step).procs
    requires step.LoseEntry? || step.LoseMarker? || step.LoseActive? || p != step.p
    ensures p in s.procs && Next(s, step).procs[p] == s.procs[p]
  {
  }

  lemma IssueCovered(s: State, user: string, f: string, j: string)
    requires NoColon(user) && NoColon(f)
    ensures ProcCovered(s, Running(IssuePipeline(user, f, j)))
  {
    EntryValueMatches(user, f, user, f);
    var cmds := IssuePipeline(user, f, j);
    assert cmds[1] == SaddActive(f, j) && PendingIn(cmds) == Some(Write(j, EntryValue(user, f), None));
  }

  lemma RotateCovered(s: State, prev: string, user: string, f: string, next: string)
    requires NoColon(user) && NoColon(f) && Gone(s, prev)
    ensures ProcCovered(s, Running(RotatePipeline(prev, user, f, next)))
  {
    EntryValueMatches(user, f, user, f);
    RotateHasOneWrite(prev, user, f, next);
    var cmds := RotatePipeline(prev, user, f, next);
    assert cmds[2] == SaddActive(f, next);
  }

  lemma RevokeCovered(s: State, members: seq<string>, f: string)
    ensures ProcCovered(s, Running(RevokePipeline(members, f)))
  {
    RevokeHasNoWrite(members, f);
  }

  lemma LogoutCovered(s: State, j: string, f: string)
    requires Logged(s.log, j)
    ensures ProcCovered(s, Running([DelEntry(j), SremActive(f, j)]))
  {
    NoWritePending([DelEntry(j), SremActive(f, j)]);
  }

  lemma TailCovered(s: State, step: Step, cmds: seq<Cmd>)
    requires Inv(s) && Enabled(s, step) && step.Advance? && s.procs[step.p] == Running(cmds) && cmds != []
    requires ProcCovered(s, s.procs[step.p])
    ensures ProcCovered(Next(s, step), Running(cmds[1..]))
  {
    var s' := Next(s, step);
    assert Shaped(s.procs[step.p]);
    TailOneWrite(cmds);
    forall c <- cmds[1..] | c.SremActive? ensures Gone(s', c.jti) {
      assert c in cmds;
      if Gone(s, c.jti) {
        GoneStays(s, step, c.jti);
      } else {
        LogGrows(s, step, c.jti);
      }
    }
    if PendingIn(cmds[1..]).Some? {
      assert cmds[0].Mark?;
      var w := PendingIn(cmds).value;
      assert SaddActive(FamilyOf(w.value).value, w.jti) in cmds[1..];
    }
  }

  lemma MovedProcCovered(s: State, step: Step)
    requires Covered(s) && Enabled(s, step) && !step.LoseEntry? && !step.LoseMarker? && !step.LoseActive?
    requires step.StartLogout? ==> Logged(s.log, step.jti)
    requires step.p in Next(s, step).procs
    ensures ProcCovered(Next(s, step), Next(s, step).procs[step.p])
  {
    var s' := Next(s, step);
    match step
    case StartIssue(_, user, f, j) => IssueCovered(s', user, f, j);
    case StartLogout(_, j, f) => LogoutCovered(s', j, f);
    case Advance(p) => AdvancedProcCovered(s, p);
    case _ =>
  }

  lemma AdvancedProcCovered(s: State, p: nat)
    requires Covered(s) && p in s.procs && p in Next(s, Advance(p)).procs
    ensures ProcCovered(Next(s, Advance(p)), Next(s, Advance(p)).procs[p])
  {
    var s' := Next(s, Advance(p));
    assert ProcCovered(s, s.procs[p]) && Shaped(s.procs[p]);
    match s.procs[p]
    case Taking(prev, user, f, next) =>
      if TakeSucceeds(s, s.procs[p]) {
        assert LiveWell(s, prev);
        RotateCovered(s', prev, user, f, next);
      }
    case Checking(_, _) =>
    case Listing(f) => RevokeCovered(s', Listed(if f in s.active then s.active[f] else {}), f);
    case Running(cmds) => TailCovered(s, Advance(p), cmds);
  }

  lemma StepKeepsProcs(s: State, step: Step)
    requires Covered(s) && Enabled(s, step)
    requires step.StartLogout? ==> Logged(s.log, step.jti)
    ensures forall p <- Next(s, step).procs :: ProcCovered(Next(s, step), Next(s, step).procs[p])
  {
    var s' := Next(s, step);
    forall p <- s'.procs ensures ProcCovered(s', s'.procs[p]) {
      if step.LoseEntry? || step.LoseMarker? || step.LoseActive? || p != step.p {
        OnlyOneMoves(s, step, p);
        OtherProcCovered(s, step, s.procs[p]);
      } else {
        MovedProcCovered(s, step);
      }
    }
  }

  /** An announcement to come either stays to come or is made. */
  lemma WillAddStays(s: State, step: Step, p: nat, f: string, j: string)
    requires Enabled(s, step) && p in s.procs && WillAdd(s.procs[p], f, j)
    ensures var s' := Next(s, step);
            Added(f, j) in s'.trail || (p in s'.procs && WillAdd(s'.procs[p], f, j))
  {
    var s' := Next(s, step);
    if step.Advance? && step.p == p {
      var cmds := s.procs[p].cmds;
      StepTouches(s, step);
      if cmds[0] == SaddActive(f, j) {
        assert s'.trail[|s.trail|] == Added(f, j);
      } else {
        assert SaddActive(f, j) in cmds[1..];
      }
    }
  }

  lemma StepKeepsAnnounced(s: State, step: Step, j: string)
    requires Covered(s) && Enabled(s, step) && j in Next(s, step).allow
    ensures Announced(Next(s, step), j)
  {
    var s' := Next(s, step);
    StepAllow(s, step, j);
    StepTouches(s, step);
    if j in s.allow && s'.allow[j] == s.allow[j] {
      var f := FamilyOf(s.allow[j]).value;
      assert Announced(s, j);
      if Added(f, j) in s.trail {
        assert Added(f, j) in s'.trail;
      } else {
        var p :| p in s.procs && WillAdd(s.procs[p], f, j);
        WillAddStays(s, step, p, f, j);
      }
    } else {
      var cmds := s.procs[step.p].cmds;
      var w := cmds[0].write;
      assert ProcCovered(s, s.procs[step.p]) && PendingIn(cmds) == Some(w);
      assert SaddActive(FamilyOf(w.value).value, j) in cmds[1..];
      assert WillAdd(s'.procs[step.p], FamilyOf(w.value).value, j);
    }
  }

  lemma StepKeepsRemoved(s: State, step: Step, t: Touch)
    requires Covered(s) && Enabled(s, step) && t in Next(s, step).trail && t.Removed?
    ensures Gone(Next(s, step), t.jti)
  {
    StepTouches(s, step);
    if t in s.trail {
      GoneStays(s, step, t.jti);
    } else {
      assert TouchOf(s, step) == Some(t);
      var cmds := s.procs[step.p].cmds;
      assert ProcCovered(s, s.procs[step.p]) && cmds[0] == SremActive(t.family, t.jti) && cmds[0] in cmds;
      GoneStays(s, step, t.jti);
    }
  }

  lemma StepKeepsCovered(s: State, step: Step)
    requires Covered(s) && Enabled(s, step)
    requires step.StartLogout? ==> Logged(s.log, step.jti)
    ensures Covered(Next(s, step))
  {
    StepKeepsInv(s, step);
    StepKeepsTraced(s, step);
    StepKeepsProcs(s, step);
    forall j <- Next(s, step).allow ensures Announced(Next(s, step), j) {
      StepKeepsAnnounced(s, step, j);
    }
    forall t <- Next(s, step).trail | t.Removed? ensures Gone(Next(s, step), t.jti) {
      StepKeepsRemoved(s, step, t);
    }
  }

  lemma {:induction false} RunKeepsCovered(s: State, steps: seq<Step>)
    requires Covered(s) && ValidRun(s, steps) && Genuine(s, steps)
    ensures Covered(Run(s, steps))
    decreases |steps|
  {
    if steps != [] {
      StepKeepsCovered(s, steps[0]);
      RunKeepsCovered(Next(s, steps[0]), steps[1..]);
    }
  }

  lemma InitIsCovered()
    ensures Covered(INIT)
  {
    InitIsWell();
  }

  // ---------------------------------------------------------------- which live tokens are listed

  lemma {:induction false} LastAdded(trail: seq<Touch>, f: string, j: string) returns (i: nat)
    requires Added(f, j) in trail
    ensures i < |trail| && trail[i] == Added(f, j) && forall k :: i < k < |trail| ==> trail[k] != Added(f, j)
    decreases |trail|
  {
    var n := |trail| - 1;
    if trail[n] == Added(f, j) {
      i := n;
    } else {
      assert trail == trail[..n] + [trail[n]];
      i := LastAdded(trail[..n], f, j);
      assert forall k :: i < k < n ==> trail[k] == trail[..n][k];
    }
  }

  /** A token that was announced and never dropped is listed exactly if the set was not cleared since. */
  lemma ListedUnlessCleared(trail: seq<Touch>, f: string, j: string)
    requires Added(f, j) in trail && forall t <- trail :: t.Removed? ==> t.jti != j
    ensures ListedBy(trail, f, j) <==> !ClearedSince(trail, f, j)
  {
    var i := LastAdded(trail, f, j);
    if ListedBy(trail, f, j) {
      var n :| 0 <= n < |trail| && trail[n] == Added(f, j)
               && forall k :: n < k < |trail| ==> trail[k] != Cleared(f) && trail[k] != Removed(f, j);
      assert forall k | 0 <= k < |trail| && trail[k] == Cleared(f) :: k < n;
    } else {
      var k :| i < k < |trail| && (trail[k] == Cleared(f) || trail[k] == Removed(f, j));
      assert trail[k] in trail;
    }
  }

  /**
   * After any interleaving, a live token whose pipeline has told the active set of it is in that set if
   * and only if the set was not deleted and did not expire since.
   */
  lemma ListedExactly(steps: seq<Step>, f: string, j: string)
    requires ValidRun(INIT, steps) && Genuine(INIT, steps)
    requires var s := Run(INIT, steps);
             j in LiveTokens(s, f) && forall p <- s.procs :: !WillAdd(s.procs[p], f, j)
    ensures var s := Run(INIT, steps); Member(s.active, f, j) <==> !ClearedSince(s.trail, f, j)
  {
    InitIsCovered();
    RunKeepsCovered(INIT, steps);
    var s := Run(INIT, steps);
    assert Announced(s, j);
    forall t <- s.trail | t.Removed? ensures t.jti != j {
      assert Gone(s, t.jti);
    }
    ListedUnlessCleared(s.trail, f, j);
  }

  // ---------------------------------------------------------------- an undisturbed request

  ghost predicate Leads(s: State, steps: seq<Step>, s': State) {
    ValidRun(s, steps) && Run(s, steps) == s'
  }

  lemma LeadsCons(s: State, e: Step, rest: seq<Step>, s': State)
    requires Enabled(s, e) && Leads(Next(s, e), rest, s')
    ensures Leads(s, [e] + rest, s')
  {
    assert ([e] + rest)[1..] == rest;
  }

  /** All commands of a pipeline, one after the other. */
  function ExecAll(s: State, cmds: seq<Cmd>): State
    decreases |cmds|
  {
    if cmds == [] then s else ExecAll(Exec(s, cmds[0]), cmds[1..])
  }

  lemma {:induction false} ExecIgnoresProcs(s: State, procs: map<nat, Proc>, cmds: seq<Cmd>)
    ensures ExecAll(s.(procs := procs), cmds) == ExecAll(s, cmds).(procs := procs)
    ensures ExecAll(s, cmds).procs == s.procs && ExecAll(s, cmds).used == s.used
    decreases |cmds|
  {
    if cmds != [] {
      assert Exec(s.(procs := procs), cmds[0]) == Exec(s, cmds[0]).(procs := procs);
      ExecIgnoresProcs(Exec(s, cmds[0]), procs, cmds[1..]);
    }
  }

  /** A pipeline that nobody disturbs executes its commands and ends. */
  lemma {:induction false} PipelineRuns(s: State, p: nat, cmds: seq<Cmd>) returns (steps: seq<Step>)
    requires p in s.procs && s.procs[p] == Running(cmds)
    ensures Leads(s, steps, ExecAll(s, cmds).(procs := s.procs - {p}))
    ensures forall e <- steps :: e == Advance(p)
    decreases |cmds|
  {
    var s1 := Next(s, Advance(p));
    if cmds == [] {
      steps := [Advance(p)] + [];
      LeadsCons(s, Advance(p), [], s1);
    } else {
      var rest := PipelineRuns(s1, p, cmds[1..]);
      ExecIgnoresProcs(Exec(s, cmds[0]), s1.procs, cmds[1..]);
      assert s1.procs - {p} == s.procs - {p};
      LeadsCons(s, Advance(p), rest, ExecAll(s, cmds).(procs := s.procs - {p}));
      steps := [Advance(p)] + rest;
    }
  }

  lemma {:induction false} ListedMembers(members: set<string>)
    ensures forall j :: j in Listed(members) <==> j in members
    decreases members
  {
    if members != {} {
      var rest := Listed(members)[1..];
      var m := Listed(members)[0];
      assert m in members && rest == Listed(members - {m});
      ListedMembers(members - {m});
      assert Listed(members) == [m] + rest;
    }
  }

  lemma {:induction false} DeletionsRun(s: State, members: seq<string>, f: string)
    ensures ExecAll(s, RevokePipeline(members, f)).allow.Keys == s.allow.Keys - (set j | j in members)
    ensures forall j <- ExecAll(s, RevokePipeline(members, f)).allow ::
              j in s.allow && ExecAll(s, RevokePipeline(members, f)).allow[j] == s.allow[j]
    decreases |members|
  {
    var cmds := RevokePipeline(members, f);
    if members == [] {
      assert cmds == [DelActive(f)];
      assert cmds[1..] == [];
      assert ExecAll(s, cmds) == Exec(s, DelActive(f));
    } else {
      assert cmds[0] == DelEntry(members[0]) && cmds[1..] == RevokePipeline(members[1..], f);
      DeletionsRun(Exec(s, cmds[0]), members[1..], f);
      assert (set j | j in members) == {members[0]} + (set j | j in members[1..]);
    }
  }

  /**
   * A revocation that runs undisturbed deletes exactly the live tokens that the active set lists. So it
   * leaves a family with no token being written without any live token, for good, if and only if the
   * set lists its live token.
   */
  lemma RevocationExact(s: State, p: nat, f: string) returns (steps: seq<Step>, s': State)
    requires p !in s.procs && f in s.used && InFlightRequests(s, f) == {}
    ensures Leads(s, steps, s') && steps != [] && steps[0] == StartRevoke(p, f)
    ensures forall e <- steps[1..] :: e == Advance(p)
    ensures s'.procs == s.procs
    ensures LiveTokens(s', f) == set j | j in LiveTokens(s, f) && !Member(s.active, f, j)
    ensures Spent(s', f) <==> forall j <- LiveTokens(s, f) :: Member(s.active, f, j)
  {
    var members := if f in s.active then s.active[f] else {};
    var cmds := RevokePipeline(Listed(members), f);
    var s1 := Next(s, StartRevoke(p, f));
    var s2 := Next(s1, Advance(p));
    assert s2.procs[p] == Running(cmds);
    var rest := PipelineRuns(s2, p, cmds);
    s' := ExecAll(s2, cmds).(procs := s2.procs - {p});
    LeadsCons(s1, Advance(p), rest, s');
    LeadsCons(s, StartRevoke(p, f), [Advance(p)] + rest, s');
    steps := [StartRevoke(p, f)] + ([Advance(p)] + rest);
    assert s2.procs - {p} == s.procs;
    ExecIgnoresProcs(s2, s2.procs, cmds);
    ListedMembers(members);
    DeletionsRun(s2, Listed(members), f);
    LeftAlive(s, s', f, members);
    assert InFlightRequests(s', f) == InFlightRequests(s, f);
  }

  // ---------------------------------------------------------------- a token the revocation misses

  lemma {:induction false} LeadsOn(s: State, first: seq<Step>, t: State, rest: seq<Step>, s': State)
    requires Leads(s, first, t) && Leads(t, rest, s')
    ensures Leads(s, first + rest, s')
    decreases |first|
  {
    if first == [] {
      assert first + rest == rest;
    } else {
      LeadsOn(Next(s, first[0]), first[1..], t, rest, s');
      assert first + rest == [first[0]] + (first[1..] + rest);
      LeadsCons(s, first[0], first[1..] + rest, s');
    }
  }

  lemma {:induction false} NoLogoutIsGenuine(s: State, steps: seq<Step>)
    requires ValidRun(s, steps) && forall e <- steps :: !e.StartLogout?
    ensures Genuine(s, steps)
    decreases |steps|
  {
    if steps != [] {
      NoLogoutIsGenuine(Next(s, steps[0]), steps[1..]);
    }
  }

  lemma ExecCons(s: State, c: Cmd, rest: seq<Cmd>)
    ensures ExecAll(s, [c] + rest) == ExecAll(Exec(s, c), rest)
  {
    assert ([c] + rest)[1..] == rest;
  }

  /** An undisturbed login. */
  lemma IssueRuns(user: string, f: string, j: string) returns (steps: seq<Step>, s: State)
    requires NoColon(user) && NoColon(f) && NoColon(j) && f != j
    ensures Leads(INIT, steps, s) && forall e <- steps :: !e.StartLogout?
    ensures s.allow == map[j := EntryValue(user, f)] && s.active == map[f := {j}] && s.procs == map[] && s.used == {f, j}
  {
    var cmds := IssuePipeline(user, f, j);
    var s1 := Next(INIT, StartIssue(0, user, f, j));
    var rest := PipelineRuns(s1, 0, cmds);
    s := ExecAll(s1, cmds).(procs := s1.procs - {0});
    LeadsCons(INIT, StartIssue(0, user, f, j), rest, s);
    steps := [StartIssue(0, user, f, j)] + rest;
    var w := Write(j, EntryValue(user, f), None);
    assert cmds == [SetEntry(w)] + ([SaddActive(f, j)] + ([ExpireActive(f)] + []));
    ExecCons(s1, SetEntry(w), [SaddActive(f, j)] + ([ExpireActive(f)] + []));
    var s2 := Exec(s1, SetEntry(w));
    ExecCons(s2, SaddActive(f, j), [ExpireActive(f)] + []);
    var s3 := Exec(s2, SaddActive(f, j));
    assert s2.active == map[] && s3.active.Keys == {f};
    assert s3.active[f] == {} + {j};
    assert s3.active[f] == {j};
    ExecCons(s3, ExpireActive(f), []);
    assert s.procs == map[];
  }

  /** What an undisturbed rotation leaves on the allowlist and in the active set. */
  lemma RotateExec(s: State, prev: string, user: string, f: string, next: string)
    requires s.active == map[f := {prev}] && prev != next
    ensures var s' := ExecAll(s, RotatePipeline(prev, user, f, next));
            s'.allow == s.allow[next := EntryValue(user, f)] && s'.active == map[f := {next}]
            && (f, prev) in s'.consumed
  {
    var w := Write(next, EntryValue(user, f), Some(prev));
    var c3 := [SremActive(f, prev)] + ([ExpireActive(f)] + []);
    var c2 := [SaddActive(f, next)] + c3;
    assert RotatePipeline(prev, user, f, next) == [Mark(f, prev)] + ([SetEntry(w)] + c2);
    ExecCons(s, Mark(f, prev), [SetEntry(w)] + c2);
    var s1 := Exec(s, Mark(f, prev));
    ExecCons(s1, SetEntry(w), c2);
    var s2 := Exec(s1, SetEntry(w));
    ExecCons(s2, SaddActive(f, next), c3);
    var s3 := Exec(s2, SaddActive(f, next));
    assert s3.active[f] == {prev, next};
    ExecCons(s3, SremActive(f, prev), [ExpireActive(f)] + []);
    var s4 := Exec(s3, SremActive(f, prev));
    assert s3.active[f] - {prev} == {next} && next in s3.active[f] && !(s3.active[f] <= {prev});
    ExecCons(s4, ExpireActive(f), []);
  }

  /** An undisturbed rotation while revocation 1 has read the members but not deleted anything yet. */
  lemma RotateRuns(s: State, user: string, f: string, j1: string, j2: string) returns (steps: seq<Step>, s': State)
    requires NoColon(user) && NoColon(f) && NoColon(j2) && j2 !in s.used && j1 != j2 && 2 !in s.procs
    requires s.allow == map[j1 := EntryValue(user, f)] && s.active == map[f := {j1}]
    ensures Leads(s, steps, s') && forall e <- steps :: !e.StartLogout?
    ensures s'.allow == map[j2 := EntryValue(user, f)] && s'.active == map[f := {j2}] && s'.procs == s.procs
    ensures (f, j1) in s'.consumed
  {
    EntryValueMatches(user, f, user, f);
    var cmds := RotatePipeline(j1, user, f, j2);
    var s1 := Next(s, StartRotate(2, j1, user, f, j2));
    assert TakeSucceeds(s1, s1.procs[2]);
    var s2 := Next(s1, Advance(2));
    var rest := PipelineRuns(s2, 2, cmds);
    s' := ExecAll(s2, cmds).(procs := s2.procs - {2});
    LeadsCons(s1, Advance(2), rest, s');
    LeadsCons(s, StartRotate(2, j1, user, f, j2), [Advance(2)] + rest, s');
    steps := [StartRotate(2, j1, user, f, j2)] + ([Advance(2)] + rest);
    RotateExec(s2, j1, user, f, j2);
    assert s2.procs - {2} == s.procs && s2.allow == map[];
  }

  /**
   * A revocation can miss a token although nothing is in flight when it ends: it reads the members, a
   * rotation replaces the listed token, and the revocation then deletes the old entry and the whole set.
   * The successor stays live and unlisted, so a later replay of the old token finds nothing to revoke.
   */
  lemma RevocationMisses(user: string, f: string, j1: string, j2: string) returns (steps: seq<Step>, s: State)
    requires NoColon(user) && NoColon(f) && NoColon(j1) && NoColon(j2) && f != j1 && f != j2 && j1 != j2
    ensures Leads(INIT, steps, s) && Genuine(INIT, steps)
    ensures s.procs == map[] && (f, j1) in s.consumed
    ensures LiveTokens(s, f) == {j2} && f !in s.active
  {
    var first, s1 := IssueRuns(user, f, j1);
    var s2 := Next(s1, StartRevoke(1, f));
    var s3 := Next(s2, Advance(1));
    var members := Listed({j1});
    ListedMembers({j1});
    assert s3.procs == map[1 := Running(RevokePipeline(members, f))];
    var middle, s4 := RotateRuns(s3, user, f, j1, j2);
    var last := PipelineRuns(s4, 1, RevokePipeline(members, f));
    s := ExecAll(s4, RevokePipeline(members, f)).(procs := s4.procs - {1});
    LeadsOn(s3, middle, s4, last, s);
    LeadsCons(s2, Advance(1), middle + last, s);
    LeadsCons(s1, StartRevoke(1, f), [Advance(1)] + (middle + last), s);
    var rest := [StartRevoke(1, f)] + ([Advance(1)] + (middle + last));
    LeadsOn(INIT, first, s1, rest, s);
    steps := first + rest;
    NoLogoutIsGenuine(INIT, steps);
    MissedTokenLives(s4, user, f, j2, members);
  }

  lemma {:induction false} RevokeClears(s: State, members: seq<string>, f: string)
    ensures var s' := ExecAll(s, RevokePipeline(members, f));
            f !in s'.active && s'.consumed == s.consumed
    decreases |members|
  {
    var cmds := RevokePipeline(members, f);
    if members == [] {
      assert cmds == [DelActive(f)] + [];
      ExecCons(s, DelActive(f), []);
    } else {
      assert cmds == [DelEntry(members[0])] + RevokePipeline(members[1..], f);
      ExecCons(s, DelEntry(members[0]), RevokePipeline(members[1..], f));
      RevokeClears(Exec(s, DelEntry(members[0])), members[1..], f);
    }
  }

  lemma MissedTokenLives(s: State, user: string, f: string, j: string, members: seq<string>)
    requires NoColon(user) && NoColon(f) && s.allow == map[j := EntryValue(user, f)] && j !in members
    ensures var s' := ExecAll(s, RevokePipeline(members, f));
            LiveTokens(s', f) == {j} && f !in s'.active && s'.consumed == s.consumed
  {
    EntryValueMatches(user, f, user, f);
    DeletionsRun(s, members, f);
    RevokeClears(s, members, f);
    assert j in s.allow.Keys - (set x | x in members);
  }

  lemma LeftAlive(s: State, s': State, f: string, members: set<string>)
    requires members == if f in s.active then s.active[f] else {}
    requires s'.allow.Keys == s.allow.Keys - members && forall j <- s'.allow :: j in s.allow && s'.allow[j] == s.allow[j]
    ensures LiveTokens(s', f) == set j | j in LiveTokens(s, f) && !Member(s.active, f, j)
    ensures LiveTokens(s', f) == {} <==> forall j <- LiveTokens(s, f) :: Member(s.active, f, j)
  {
    forall j ensures j in LiveTokens(s', f) <==> j in LiveTokens(s, f) && !Member(s.active, f, j) {
    }
    if LiveTokens(s', f) == {} {
      assert forall j <- LiveTokens(s, f) :: j !in LiveTokens(s', f);
    }
  }
}
