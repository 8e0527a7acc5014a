/** Super-admin retention (src/modules/users/users.service.ts). */
module Users {
  import opened Common

  datatype Role = SUPER_ADMIN | CONTENT_MANAGER | SALES_MANAGER

  datatype User = User(email: string, passwordHash: string, role: Role, isActive: bool, deletedAt: Option<nat>)

  type Table = map<string, User>

  datatype Error =
    | UserNotFound
    | EmailInUse
    | LastSuperAdmin
    | UserNotDeleted
    | InvalidUpdate        // a null written to a required column
    | SerializationFailure // P2034 on the last attempt

  /** The body of one serializable transaction. Ids, hashes and times come from outside. */
  datatype Op =
    | Create(id: string, email: string, newHash: string, newRole: Role)
    | Update(id: string, role: Patch<Role>, isActive: Patch<bool>, passwordHash: Option<string>)
    | Remove(id: string, now: nat)
    | Restore(id: string)

  predicate ActiveSuperAdmin(u: User) {
    u.role == SUPER_ADMIN && u.isActive && u.deletedAt.None?
  }

  function ActiveSuperAdmins(t: Table): set<string> {
    set id | id in t && ActiveSuperAdmin(t[id])
  }

  /** The `??` operator: absent and null both keep the existing value. */
  function Coalesce<T>(p: Patch<T>, existing: T): T {
    if p.Given? then p.value else existing
  }

  /** The columns an update leaves, as the guard computes them. */
  function Foreseen(u: User, role: Patch<Role>, isActive: Patch<bool>, deletedAt: Option<nat>): User {
    u.(role := Coalesce(role, u.role), isActive := Coalesce(isActive, u.isActive),
       deletedAt := if deletedAt.Some? then deletedAt else u.deletedAt)
  }

  /** True when `ensureSuperAdminRetention` throws. */
  predicate BlocksRetention(t: Table, u: User, role: Patch<Role>, isActive: Patch<bool>, deletedAt: Option<nat>) {
    && ActiveSuperAdmin(u)
    && !ActiveSuperAdmin(Foreseen(u, role, isActive, deletedAt))
    && |ActiveSuperAdmins(t)| <= 1
  }

  predicate EmailTaken(t: Table, email: string) {
    exists id <- t :: t[id].email == email
  }

  /** The result of a committed transaction on the state it reads; an error leaves the table alone. */
  function Outcome(t: Table, op: Op): Result<User, Error> {
    match op
    case Create(id, email, hash, role) =>
      if EmailTaken(t, email) then Err(EmailInUse) else Ok(User(email, hash, role, true, None))
    case Update(id, role, isActive, hash) =>
      if id !in t then Err(UserNotFound)
      else if BlocksRetention(t, t[id], role, isActive, None) then Err(LastSuperAdmin)
      else if role.Null? || isActive.Null? then Err(InvalidUpdate)
      else Ok(Foreseen(t[id], role, isActive, None).(passwordHash := hash.GetOr(t[id].passwordHash)))
    case Remove(id, now) =>
      if id !in t then Err(UserNotFound)
      else if BlocksRetention(t, t[id], Absent, Given(false), Some(now)) then Err(LastSuperAdmin)
      else Ok(t[id].(deletedAt := Some(now), isActive := false))
    case Restore(id) =>
      if id !in t then Err(UserNotFound)
      else if t[id].deletedAt.None? then Err(UserNotDeleted)
      else Ok(t[id].(deletedAt := None, isActive := true))
  }

  function Apply(t: Table, op: Op): Table {
    var r := Outcome(t, op);
    if r.Ok? then t[op.id := r.value] else t
  }

  function ApplyAll(t: Table, ops: seq<Op>): Table
    decreases |ops|
  {
    if ops == [] then t else ApplyAll(Apply(t, ops[0]), ops[1..])
  }

  /** New accounts get new ids. */
  predicate FreshIds(t: Table, ops: seq<Op>)
    decreases |ops|
  {
    ops == [] || ((ops[0].Create? ==> ops[0].id !in t) && FreshIds(Apply(t, ops[0]), ops[1..]))
  }

  // ---------------------------------------------------------------- the service

  /** What happens around one attempt: transactions others commit before it, and whether it aborts with P2034. */
  datatype Attempt = Attempt(others: seq<Op>, conflict: bool)

  const SERIALIZABLE_RETRY_LIMIT: nat := 3

  class UsersService {
    var users: Table

    constructor (users: Table)
      ensures this.users == users
    {
      this.users := users;
    }

    method EnsureSuperAdminRetention(existing: User, role: Patch<Role>, isActive: Patch<bool>, deletedAt: Option<nat>)
      returns (blocked: bool)
      ensures blocked <==> BlocksRetention(users, existing, role, isActive, deletedAt)
    {
      var nextRole := if role.Given? then role.value else existing.role;
      var nextIsActive := if isActive.Given? then isActive.value else existing.isActive;
      var nextDeletedAt := if deletedAt.Some? then deletedAt else existing.deletedAt;
      var currentlyActive := existing.role == SUPER_ADMIN && existing.isActive && existing.deletedAt == None;
      var remainsActive := nextRole == SUPER_ADMIN && nextIsActive && nextDeletedAt == None;
      if !currentlyActive || remainsActive {
        return false;
      }
      return |ActiveSuperAdmins(users)| <= 1;
    }

    /** One transaction body, on the rows as they are when it commits. */
    method Transact(op: Op) returns (r: Result<User, Error>)
      modifies this
      ensures r == Outcome(old(users), op) && users == Apply(old(users), op)
    {
      match op
      case Create(id, email, hash, role) =>
        if EmailTaken(users, email) {
          return Err(EmailInUse);
        }
        var user := User(email, hash, role, true, None);
        users := users[id := user];
        return Ok(user);
      case Update(id, role, isActive, hash) =>
        if id !in users {
          return Err(UserNotFound);
        }
        var existing := users[id];
        var blocked := EnsureSuperAdminRetention(existing, role, isActive, None);
        if blocked {
          return Err(LastSuperAdmin);
        }
        if role.Null? || isActive.Null? {
          return Err(InvalidUpdate);
        }
        var data := existing;
        if role.Given? {
          data := data.(role := role.value);
        }
        if isActive.Given? {
          data := data.(isActive := isActive.value);
        }
        if hash.Some? {
          data := data.(passwordHash := hash.value);
        }
        users := users[id := data];
        return Ok(data);
      case Remove(id, now) =>
        if id !in users {
          return Err(UserNotFound);
        }
        var existing := users[id];
        var blocked := EnsureSuperAdminRetention(existing, Absent, Given(false), Some(now));
        if blocked {
          return Err(LastSuperAdmin);
        }
        var deleted := existing.(deletedAt := Some(now), isActive := false);
        users := users[id := deleted];
        return Ok(deleted);
      case Restore(id) =>
        if id !in users {
          return Err(UserNotFound);
        }
        if users[id].deletedAt == None {
          return Err(UserNotDeleted);
        }
        var restored := users[id].(deletedAt := None, isActive := true);
        users := users[id := restored];
        return Ok(restored);
    }

    /** The retry loop, against any schedule of other transactions and serialization conflicts. */
    method WithSerializableTransaction(op: Op, schedule: seq<Attempt>) returns (r: Result<User, Error>)
      requires |schedule| == SERIALIZABLE_RETRY_LIMIT
      modifies this
      ensures users == ApplyAll(old(users), History(op, schedule))
      ensures r == Answer(old(users), op, schedule)
    {
      var attempt := 1;
      ghost var before := users;
      while attempt <= SERIALIZABLE_RETRY_LIMIT
        invariant 1 <= attempt <= SERIALIZABLE_RETRY_LIMIT + 1
        invariant Retrying(before, users, schedule, attempt - 1)
      {
        RetryStep(before, users, schedule, attempt - 1);
        users := ApplyAll(users, schedule[attempt - 1].others);
        if !schedule[attempt - 1].conflict {
          CommitsAt(before, users, op, schedule, attempt - 1);
          r := Transact(op);
          return;
        }
        attempt := attempt + 1;
      }
      NeverCommits(before, users, op, schedule);
      r := Err(SerializationFailure);
    }
  }

  /** The first attempt that is not aborted. */
  function FirstCommit(schedule: seq<Attempt>): (k: Option<nat>)
    ensures k.Some? ==> k.value < |schedule| && !schedule[k.value].conflict
    ensures forall i :: 0 <= i < (if k.Some? then k.value else |schedule|) ==> schedule[i].conflict
  {
    if schedule == [] then None
    else if !schedule[0].conflict then Some(0)
    else match FirstCommit(schedule[1..]) case None => None case Some(k) => Some(k + 1)
  }

  /** The transactions others commit before attempt number `n` ends. */
  function OthersUpTo(schedule: seq<Attempt>, n: nat): seq<Op>
    requires n <= |schedule|
  {
    if n == 0 then [] else OthersUpTo(schedule, n - 1) + schedule[n - 1].others
  }

  /** Every transaction committed during the call, in commit order: this operation occurs at most once. */
  function History(op: Op, schedule: seq<Attempt>): (h: seq<Op>)
    ensures multiset(h)[op] <= multiset(OthersUpTo(schedule, |schedule|))[op] + 1
  {
    match FirstCommit(schedule)
    case None => OthersUpTo(schedule, |schedule|)
    case Some(k) =>
      OthersGrow(schedule, k + 1, |schedule|);
      OthersUpTo(schedule, k + 1) + [op]
  }

  /** The caller's answer: decided on the rows the first attempt that is not aborted reads. */
  function Answer(t: Table, op: Op, schedule: seq<Attempt>): Result<User, Error> {
    match FirstCommit(schedule)
    case None => Err(SerializationFailure)
    case Some(k) => Outcome(ApplyAll(t, OthersUpTo(schedule, k + 1)), op)
  }

  /** Before attempt number `k` all earlier ones were aborted, so only others have changed the rows. */
  predicate Retrying(t: Table, now: Table, schedule: seq<Attempt>, k: nat)
    requires k <= |schedule|
  {
    (forall i :: 0 <= i < k ==> schedule[i].conflict) && now == ApplyAll(t, OthersUpTo(schedule, k))
  }

  lemma RetryStep(t: Table, now: Table, schedule: seq<Attempt>, k: nat)
    requires k < |schedule| && Retrying(t, now, schedule, k)
    ensures ApplyAll(now, schedule[k].others) == ApplyAll(t, OthersUpTo(schedule, k + 1))
    ensures schedule[k].conflict ==> Retrying(t, ApplyAll(now, schedule[k].others), schedule, k + 1)
  {
    ApplyOthers(t, schedule, k);
  }

  lemma CommitsAt(t: Table, seen: Table, op: Op, schedule: seq<Attempt>, k: nat)
    requires k < |schedule| && !schedule[k].conflict && seen == ApplyAll(t, OthersUpTo(schedule, k + 1))
    requires forall i :: 0 <= i < k ==> schedule[i].conflict
    ensures ApplyAll(t, History(op, schedule)) == Apply(seen, op) && Answer(t, op, schedule) == Outcome(seen, op)
  {
    assert FirstCommit(schedule) == Some(k);
    ApplyAfter(t, OthersUpTo(schedule, k + 1), op);
  }

  lemma NeverCommits(t: Table, now: Table, op: Op, schedule: seq<Attempt>)
    requires Retrying(t, now, schedule, |schedule|)
    ensures now == ApplyAll(t, History(op, schedule)) && Answer(t, op, schedule) == Err(SerializationFailure)
  {
    assert FirstCommit(schedule) == None;
  }

  lemma {:induction false} OthersGrow(schedule: seq<Attempt>, n: nat, m: nat)
    requires n <= m <= |schedule|
    ensures multiset(OthersUpTo(schedule, n)) <= multiset(OthersUpTo(schedule, m))
  {
    if n < m {
      OthersGrow(schedule, n, m - 1);
    }
  }

  lemma {:induction false} ApplyAllConcat(t: Table, a: seq<Op>, b: seq<Op>)
    ensures ApplyAll(t, a + b) == ApplyAll(ApplyAll(t, a), b)
    decreases |a|
  {
    if a == [] {
      assert a + b == b;
    } else {
      assert (a + b)[0] == a[0] && (a + b)[1..] == a[1..] + b;
      ApplyAllConcat(Apply(t, a[0]), a[1..], b);
    }
  }

  lemma ApplyOthers(t: Table, schedule: seq<Attempt>, k: nat)
    requires k < |schedule|
    ensures ApplyAll(ApplyAll(t, OthersUpTo(schedule, k)), schedule[k].others)
         == ApplyAll(t, OthersUpTo(schedule, k + 1))
  {
    ApplyAllConcat(t, OthersUpTo(schedule, k), schedule[k].others);
  }

  lemma ApplyAfter(t: Table, ops: seq<Op>, op: Op)
    ensures ApplyAll(t, ops + [op]) == Apply(ApplyAll(t, ops), op)
  {
    ApplyAllConcat(t, ops, [op]);
    assert ApplyAll(ApplyAll(t, ops), [op]) == ApplyAll(Apply(ApplyAll(t, ops), op), [op][1..]);
  }

  // ---------------------------------------------------------------- columns

  predicate OthersSame(t: Table, t': Table, id: string) {
    t'.Keys == t.Keys + {id} && forall i <- t :: i != id ==> t'[i] == t[i]
  }

  /** An account is created, active, with the given hash and role, exactly if no account has the e-mail address. */
  lemma CreatedRow(t: Table, id: string, email: string, hash: string, role: Role)
    requires id !in t
    ensures var r, t' := Outcome(t, Create(id, email, hash, role)), Apply(t, Create(id, email, hash, role));
            if exists i <- t :: t[i].email == email then r == Err(EmailInUse) && t' == t
            else
              && OthersSame(t, t', id) && r == Ok(t'[id])
              && t'[id].email == email && t'[id].passwordHash == hash && t'[id].role == role
              && t'[id].isActive && t'[id].deletedAt.None?
  {
  }

  /** The row leaves at least one active, undeleted super admin, or it was none itself. */
  predicate LeavesAdmin(t: Table, id: string, active: bool, role: Role)
    requires id in t
  {
    ActiveSuperAdmin(t[id]) && !(active && role == SUPER_ADMIN) ==>
      exists i <- t :: i != id && t[i].role == SUPER_ADMIN && t[i].isActive && t[i].deletedAt.None?
  }

  lemma OtherAdmin(t: Table, id: string)
    requires id in t && ActiveSuperAdmin(t[id])
    ensures |ActiveSuperAdmins(t)| <= 1 <==>
            !exists i <- t :: i != id && t[i].role == SUPER_ADMIN && t[i].isActive && t[i].deletedAt.None?
  {
    var admins := ActiveSuperAdmins(t);
    assert admins == {id} + (admins - {id});
    if |admins - {id}| > 0 {
      var i :| i in admins - {id};
      assert i != id && ActiveSuperAdmin(t[i]);
    } else {
      assert admins == {id};
      assert forall i <- t :: ActiveSuperAdmin(t[i]) ==> i in admins;
    }
  }

  /**
   * An update writes exactly the given columns. It needs the account, a value for each given column, and
   * another active super admin if it takes the role or the activity of one.
   */
  lemma UpdatedRow(t: Table, id: string, role: Patch<Role>, isActive: Patch<bool>, hash: Option<string>)
    ensures var op := Update(id, role, isActive, hash);
            var r, t' := Outcome(t, op), Apply(t, op);
            && (r.Ok? <==>
                  && id in t && !role.Null? && !isActive.Null?
                  && LeavesAdmin(t, id, if isActive.Given? then isActive.value else t[id].isActive,
                                 if role.Given? then role.value else t[id].role))
            && (r.Err? ==> t' == t && (r.error.UserNotFound? <==> id !in t)
                           && (r.error.UserNotFound? || r.error.LastSuperAdmin? || r.error.InvalidUpdate?))
            && (r.Ok? ==>
                  && OthersSame(t, t', id) && r == Ok(t'[id])
                  && t'[id].email == t[id].email && t'[id].deletedAt == t[id].deletedAt
                  && t'[id].role == (if role.Given? then role.value else t[id].role)
                  && t'[id].isActive == (if isActive.Given? then isActive.value else t[id].isActive)
                  && t'[id].passwordHash == (if hash.Some? then hash.value else t[id].passwordHash))
  {
    if id in t && ActiveSuperAdmin(t[id]) {
      OtherAdmin(t, id);
    }
  }

  /** Removing marks and deactivates the account, unless it is the last active super admin. */
  lemma RemovedRow(t: Table, id: string, now: nat)
    ensures var r, t' := Outcome(t, Remove(id, now)), Apply(t, Remove(id, now));
            && (r.Ok? <==> id in t && LeavesAdmin(t, id, false, t[id].role))
            && (r.Err? ==> t' == t && r.error == (if id in t then LastSuperAdmin else UserNotFound))
            && (r.Ok? ==>
                  && OthersSame(t, t', id) && r == Ok(t'[id])
                  && t'[id].deletedAt == Some(now) && !t'[id].isActive
                  && t'[id].email == t[id].email && t'[id].role == t[id].role && t'[id].passwordHash == t[id].passwordHash)
  {
    if id in t && ActiveSuperAdmin(t[id]) {
      OtherAdmin(t, id);
    }
  }

  /** Restoring a removed account always reactivates it. */
  lemma RestoredRow(t: Table, id: string)
    ensures var r, t' := Outcome(t, Restore(id)), Apply(t, Restore(id));
            && (r.Ok? <==> id in t && t[id].deletedAt.Some?)
            && (r.Err? ==> t' == t && r.error == (if id in t then UserNotDeleted else UserNotFound))
            && (r.Ok? ==>
                  && OthersSame(t, t', id) && r == Ok(t'[id])
                  && t'[id].deletedAt.None? && t'[id].isActive
                  && t'[id].email == t[id].email && t'[id].role == t[id].role && t'[id].passwordHash == t[id].passwordHash)
  {
  }

  /** Removing and restoring brings back an active account as it was. */
  lemma RestoreUndoesRemove(t: Table, id: string, now: nat)
    requires Outcome(t, Remove(id, now)).Ok? && t[id].isActive && t[id].deletedAt.None?
    ensures ApplyAll(t, [Remove(id, now), Restore(id)]) == t
  {
    var t' := Apply(t, Remove(id, now));
    assert [Remove(id, now), Restore(id)][1..] == [Restore(id)];
    assert ApplyAll(t', [Restore(id)]) == ApplyAll(Apply(t', Restore(id)), [Restore(id)][1..]);
    assert Apply(t', Restore(id)) == t;
  }

  predicate UniqueEmails(t: Table) {
    forall i, j | i in t && j in t && t[i].email == t[j].email :: i == j
  }

  /** Over every serial history no two accounts share an e-mail address. */
  lemma {:induction false} EmailsStayUnique(t: Table, ops: seq<Op>)
    requires UniqueEmails(t) && FreshIds(t, ops)
    ensures UniqueEmails(ApplyAll(t, ops))
    decreases |ops|
  {
    if ops != [] {
      EmailsStayUnique(Apply(t, ops[0]), ops[1..]);
    }
  }

  // ---------------------------------------------------------------- retention

  predicate Retained(t: Table) {
    ActiveSuperAdmins(t) != {}
  }

  /** A committed transaction never takes away the last active super admin. */
  lemma ApplyRetains(t: Table, op: Op)
    requires Retained(t) && (op.Create? ==> op.id !in t)
    ensures Retained(Apply(t, op))
  {
    var t' := Apply(t, op);
    if t' != t {
      var admins := ActiveSuperAdmins(t);
      if op.id in admins && op.id !in ActiveSuperAdmins(t') {
        assert |admins| >= 2;
        assert |admins - {op.id}| >= 1;
        var other :| other in admins - {op.id};
        assert other in ActiveSuperAdmins(t');
      } else {
        var admin :| admin in admins;
        assert admin in ActiveSuperAdmins(t');
      }
    }
  }

  /** Over every serial history of create, update, remove and restore some active super admin remains. */
  lemma {:induction false} RunRetains(t: Table, ops: seq<Op>)
    requires Retained(t) && FreshIds(t, ops)
    ensures Retained(ApplyAll(t, ops))
    decreases |ops|
  {
    if ops != [] {
      ApplyRetains(t, ops[0]);
      RunRetains(Apply(t, ops[0]), ops[1..]);
    }
  }

  /** The guard refuses exactly the changes that would leave no active super admin at all. */
  lemma GuardIsExact(t: Table, id: string, role: Patch<Role>, isActive: Patch<bool>, deletedAt: Option<nat>)
    requires id in t && Retained(t)
    ensures BlocksRetention(t, t[id], role, isActive, deletedAt) <==>
            !Retained(t[id := Foreseen(t[id], role, isActive, deletedAt)])
  {
    var u := Foreseen(t[id], role, isActive, deletedAt);
    var admins, admins' := ActiveSuperAdmins(t), ActiveSuperAdmins(t[id := u]);
    if ActiveSuperAdmin(u) {
      assert id in admins';
    } else {
      assert admins' == admins - {id};
      if id in admins {
        assert |admins'| == |admins| - 1;
      }
    }
  }

  /** An update decided on rows that have since changed. */
  function ApplyStale(seen: Table, t: Table, op: Op): Table {
    var r := Outcome(seen, op);
    if r.Ok? then t[op.id := r.value] else t
  }

  /**
   * Serializability is what the guard rests on: if two transactions may both decide on the same
   * earlier rows, each of the last two super admins can be demoted and none remains.
   */
  lemma StaleReadsLoseTheLastAdmin(a: string, b: string, u: User, v: User)
    requires a != b && ActiveSuperAdmin(u) && ActiveSuperAdmin(v)
    ensures var t := map[a := u, b := v];
            var demoteA := Update(a, Given(SALES_MANAGER), Absent, None);
            var demoteB := Update(b, Given(SALES_MANAGER), Absent, None);
            Retained(t) && !Retained(ApplyStale(t, ApplyStale(t, t, demoteA), demoteB))
                        && Retained(ApplyAll(t, [demoteA, demoteB]))
  {
    var t := map[a := u, b := v];
    var demoteA := Update(a, Given(SALES_MANAGER), Absent, None);
    var demoteB := Update(b, Given(SALES_MANAGER), Absent, None);
    assert ActiveSuperAdmins(t) == {a, b};
    RunRetains(t, [demoteA, demoteB]);
  }
}
