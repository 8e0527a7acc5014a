/**
 * Refresh-token families (src/modules/auth/token.service.ts, driven by src/modules/auth/auth.service.ts)
 * with operations that run whole, on a clock in milliseconds.
 */
module TokenService {
  import opened Common
  import opened Redis
  import opened Text
  import opened TokenKeys
  import Users

  /** A refresh JWT; `iat` and `exp` are in seconds. */
  datatype Payload = Payload(sub: string, jti: string, familyId: string, iat: nat, exp: nat)

  /** An access JWT. */
  datatype AccessPayload = AccessPayload(sub: string, role: Users.Role, jti: string, iat: nat, exp: nat)

  datatype IssuedTokens = IssuedTokens(access: AccessPayload, refresh: Payload)

  /** The keyspace, one map per kind of key (see TokenKeys.KeysInjective). */
  datatype Keys = Keys(
    allow: map<string, Entry<string>>,
    consumed: map<(string, string), Entry<bool>>,
    active: map<string, Entry<set<string>>>)

  // ---------------------------------------------------------------- single commands

  function Members(active: map<string, Entry<set<string>>>, f: string, now: nat): set<string> {
    if Exists(active, f, now) then active[f].value else {}
  }

  function Sadd(active: map<string, Entry<set<string>>>, f: string, j: string, now: nat)
    : map<string, Entry<set<string>>>
  {
    active[f := Entry(Members(active, f, now) + {j}, if Exists(active, f, now) then active[f].expiry else None)]
  }

  /** A set that becomes empty is deleted. */
  function Srem(active: map<string, Entry<set<string>>>, f: string, j: string, now: nat)
    : map<string, Entry<set<string>>>
  {
    if !Exists(active, f, now) || Members(active, f, now) == {j} then active - {f}
    else active[f := Entry(active[f].value - {j}, active[f].expiry)]
  }

  function Expire<V>(store: map<string, Entry<V>>, k: string, seconds: nat, now: nat): map<string, Entry<V>> {
    if Exists(store, k, now) then store[k := Entry(store[k].value, Some(now + 1000 * seconds))] else store
  }

  // ---------------------------------------------------------------- what each operation does

  function Issued(r: Keys, user: string, f: string, j: string, ttl: nat, now: nat): Keys {
    var end := Some(now + 1000 * ttl);
    Keys(r.allow[j := Entry(EntryValue(user, f), end)], r.consumed,
         r.active[f := Entry(Members(r.active, f, now) + {j}, end)])
  }

  predicate Allowed(r: Keys, j: string, now: nat) {
    Exists(r.allow, j, now) && r.allow[j].value != ""
  }

  predicate CanRotate(r: Keys, prev: string, user: string, f: string, now: nat) {
    Allowed(r, prev, now) && Matches(r.allow[prev].value, user, f)
  }

  function FamilyRevoked(r: Keys, f: string, now: nat): Keys {
    Keys(r.allow - Members(r.active, f, now), r.consumed, r.active - {f})
  }

  function Rotated(r: Keys, prev: string, user: string, f: string, next: string, ttl: nat, now: nat): Keys {
    var taken := r.(allow := r.allow - {prev});
    if !Allowed(r, prev, now) then
      if Exists(r.consumed, (f, prev), now) then FamilyRevoked(taken, f, now) else taken
    else if !Matches(r.allow[prev].value, user, f) then taken
    else
      var end := Some(now + 1000 * ttl);
      Keys(taken.allow[next := Entry(EntryValue(user, f), end)],
           r.consumed[(f, prev) := Entry(true, end)],
           r.active[f := Entry(Members(r.active, f, now) + {next} - {prev}, end)])
  }

  function Revoked(r: Keys, j: string, f: string, now: nat): Keys {
    r.(allow := r.allow - {j}, active := Srem(r.active, f, j, now))
  }

  /** A user row as `refresh` reads it. */
  datatype Account = Account(role: Users.Role, isActive: bool, deletedAt: Option<nat>)

  predicate Usable(users: map<string, Account>, id: string) {
    id in users && users[id].isActive && users[id].deletedAt.None?
  }

  /** A refresh token's claims: who it is for, its own id and family, and `ttl` seconds of validity from now. */
  predicate RefreshClaims(token: Payload, user: string, jti: string, family: string, ttl: nat, now: nat) {
    && token.sub == user && token.jti == jti && token.familyId == family
    && token.iat == now / 1000 && token.exp == token.iat + ttl
  }

  predicate AccessClaims(token: AccessPayload, user: string, role: Users.Role, jti: string, ttl: nat, now: nat) {
    && token.sub == user && token.role == role && token.jti == jti
    && token.iat == now / 1000 && token.exp == token.iat + ttl
  }

  class TokenService {
    const refreshTtlSeconds: nat
    const accessTtlSeconds: nat
    var allow: map<string, Entry<string>>
    var consumed: map<(string, string), Entry<bool>>
    var active: map<string, Entry<set<string>>>
    /** The tokens signed with the refresh secret so far; verification accepts no others. */
    var signed: set<Payload>

    constructor (refreshTtlSeconds: nat, accessTtlSeconds: nat)
      ensures this.refreshTtlSeconds == refreshTtlSeconds && this.accessTtlSeconds == accessTtlSeconds
      ensures State() == Keys(map[], map[], map[]) && signed == {}
    {
      this.refreshTtlSeconds, this.accessTtlSeconds := refreshTtlSeconds, accessTtlSeconds;
      allow, consumed, active, signed := map[], map[], map[], {};
    }

    function State(): Keys
      reads this
    {
      Keys(allow, consumed, active)
    }

    function Sign(sub: string, jti: string, familyId: string, now: nat): Payload {
      Payload(sub, jti, familyId, now / 1000, now / 1000 + refreshTtlSeconds)
    }

    function SignAccess(sub: string, role: Users.Role, jti: string, now: nat): AccessPayload {
      AccessPayload(sub, role, jti, now / 1000, now / 1000 + accessTtlSeconds)
    }

    predicate Verifies(token: Payload, now: nat)
      reads this
    {
      token in signed && now / 1000 < token.exp
    }

    /** Login: the first token of a new family (`issueTokens`, `rotateTokens`). */
    method IssueTokens(userId: string, role: Users.Role, familyId: string, jti: string, accessJti: string, now: nat)
      returns (tokens: IssuedTokens)
      modifies this
      ensures State() == Issued(old(State()), userId, familyId, jti, refreshTtlSeconds, now)
      ensures tokens.refresh == Sign(userId, jti, familyId, now) && signed == old(signed) + {tokens.refresh}
      ensures tokens.access == SignAccess(userId, role, accessJti, now)
      ensures RefreshClaims(tokens.refresh, userId, jti, familyId, refreshTtlSeconds, now)
      ensures AccessClaims(tokens.access, userId, role, accessJti, accessTtlSeconds, now)
      ensures forall at | now <= at < now + 1000 * refreshTtlSeconds :: Exists(allow, jti, at) && Exists(active, familyId, at)
      ensures forall at | now + 1000 * refreshTtlSeconds <= at :: !Exists(allow, jti, at) && !Verifies(tokens.refresh, at)
    {
      allow := SetEx(allow, jti, EntryValue(userId, familyId), refreshTtlSeconds, now);
      active := Sadd(active, familyId, jti, now);
      active := Expire(active, familyId, refreshTtlSeconds, now);
      tokens := IssuedTokens(SignAccess(userId, role, accessJti, now), Sign(userId, jti, familyId, now));
      signed := signed + {tokens.refresh};
    }

    method RotateRefreshToken(oldJti: string, userId: string, role: Users.Role, familyId: string, newJti: string,
                              accessJti: string, now: nat)
      returns (r: Result<IssuedTokens, string>)
      requires oldJti != newJti
      modifies this
      ensures State() == Rotated(old(State()), oldJti, userId, familyId, newJti, refreshTtlSeconds, now)
      ensures r.Ok? <==> CanRotate(old(State()), oldJti, userId, familyId, now)
      ensures r.Ok? ==> r.value.refresh == Sign(userId, newJti, familyId, now)
                        && r.value.access == SignAccess(userId, role, accessJti, now)
      ensures signed == if r.Ok? then old(signed) + {r.value.refresh} else old(signed)
      ensures oldJti !in allow
      ensures r.Ok? ==>
                && old(Exists(allow, oldJti, now))
                && RefreshClaims(r.value.refresh, userId, newJti, familyId, refreshTtlSeconds, now)
                && AccessClaims(r.value.access, userId, role, accessJti, accessTtlSeconds, now)
    {
      var entry := Get(allow, oldJti, now);
      allow := allow - {oldJti};
      if entry.None? || entry.value == "" {
        var consumedMark := Get(consumed, (familyId, oldJti), now);
        if consumedMark.Some? {
          RevokeFamily(familyId, now);
        }
        return Err("Refresh token is invalid or has been revoked");
      }
      if !Matches(entry.value, userId, familyId) {
        return Err("Refresh token is invalid or has been revoked");
      }
      consumed := consumed[(familyId, oldJti) := Entry(true, Some(now + 1000 * refreshTtlSeconds))];
      allow := SetEx(allow, newJti, EntryValue(userId, familyId), refreshTtlSeconds, now);
      active := Sadd(active, familyId, newJti, now);
      active := Srem(active, familyId, oldJti, now);
      active := Expire(active, familyId, refreshTtlSeconds, now);
      var tokens := IssuedTokens(SignAccess(userId, role, accessJti, now), Sign(userId, newJti, familyId, now));
      signed := signed + {tokens.refresh};
      r := Ok(tokens);
    }

    method RevokeRefreshToken(jti: string, familyId: string, now: nat)
      modifies this
      ensures State() == Revoked(old(State()), jti, familyId, now) && signed == old(signed)
      ensures allow == old(allow) - {jti} && consumed == old(consumed)
      ensures forall f :: (if f == familyId then Members(active, f, now) == old(Members(active, f, now)) - {jti}
                           else Members(active, f, now) == old(Members(active, f, now)))
    {
      allow := allow - {jti};
      active := Srem(active, familyId, jti, now);
    }

    method RevokeFamily(familyId: string, now: nat)
      modifies this
      ensures State() == FamilyRevoked(old(State()), familyId, now) && signed == old(signed)
    {
      var activeJtis := Members(active, familyId, now);
      if activeJtis != {} {
        var todo := activeJtis;
        while todo != {}
          invariant todo <= activeJtis
          invariant allow == old(allow) - (activeJtis - todo)
          invariant consumed == old(consumed) && active == old(active) && signed == old(signed)
          decreases todo
        {
          var jti :| jti in todo;
          allow := allow - {jti};
          todo := todo - {jti};
        }
        active := active - {familyId};
      } else {
        active := active - {familyId};
      }
    }
  }

  /** `AuthService.refresh` and `AuthService.logout`. */
  class AuthService {
    const tokens: TokenService
    var users: map<string, Account>

    constructor (tokens: TokenService, users: map<string, Account>)
      ensures this.tokens == tokens && this.users == users
    {
      this.tokens := tokens;
      this.users := users;
    }

    /**
     * The account is read on every refresh. One that is absent, deactivated or deleted gets nothing, and
     * in every state that operations can lead to, its whole family is dead afterwards. In such a state an
     * active account's verified token is exchanged if and only if it is live; the access token carries
     * the role the account has now.
     */
    method Refresh(token: Payload, newJti: string, accessJti: string, now: nat) returns (r: Result<IssuedTokens, string>)
      requires token.jti != newJti
      modifies tokens
      ensures var w := old(World(tokens.State(), tokens.signed));
              var w' := Refreshed(w, token, Usable(users, token.sub), newJti, tokens.refreshTtlSeconds, now);
              && World(tokens.State(), tokens.signed) == w'.0
              && r.Ok? == w'.1.Some? && (r.Ok? ==> r.value.refresh == w'.1.value)
      ensures token !in old(tokens.signed) || token.exp <= now / 1000 ==>
                && r == Err("Invalid or expired refresh token")
                && tokens.State() == old(tokens.State()) && tokens.signed == old(tokens.signed)
      ensures token in old(tokens.signed) && now / 1000 < token.exp &&
              (token.sub !in users || !users[token.sub].isActive || users[token.sub].deletedAt.Some?) ==>
                && r == Err("User account is inactive or deleted")
                && (old(Reachable(World(tokens.State(), tokens.signed), now, tokens.refreshTtlSeconds)) ==>
                      NoneLive(tokens.signed, tokens.allow, token.familyId, now))
      ensures token in old(tokens.signed) && now / 1000 < token.exp &&
              token.sub in users && users[token.sub].isActive && users[token.sub].deletedAt.None? &&
              old(Reachable(World(tokens.State(), tokens.signed), now, tokens.refreshTtlSeconds)) ==>
                (r.Ok? <==> old(Exists(tokens.allow, token.jti, now)))
      ensures r.Ok? ==>
                && token.sub in users
                && RefreshClaims(r.value.refresh, token.sub, newJti, token.familyId, tokens.refreshTtlSeconds, now)
                && AccessClaims(r.value.access, token.sub, users[token.sub].role, accessJti, tokens.accessTtlSeconds, now)
                && token.jti !in tokens.allow
                && tokens.signed == old(tokens.signed) + {r.value.refresh}
                && forall at | now <= at < now + 1000 * tokens.refreshTtlSeconds :: Exists(tokens.allow, newJti, at)
    {
      ghost var w := World(tokens.State(), tokens.signed);
      ghost var reachable := Reachable(w, now, tokens.refreshTtlSeconds);
      if !tokens.Verifies(token, now) {
        return Err("Invalid or expired refresh token");
      }
      if token.sub !in users || !users[token.sub].isActive || users[token.sub].deletedAt.Some? {
        if reachable {
          RevokedFamilyIsDead(w, token.familyId, now, tokens.refreshTtlSeconds);
        }
        tokens.RevokeFamily(token.familyId, now);
        return Err("User account is inactive or deleted");
      }
      if reachable {
        LiveTokenRotates(w, token, now, tokens.refreshTtlSeconds);
      }
      RotationLasts(w.keys, token.jti, token.sub, token.familyId, newJti, tokens.refreshTtlSeconds, now);
      r := tokens.RotateRefreshToken(token.jti, token.sub, users[token.sub].role, token.familyId, newJti, accessJti, now);
    }

    /** A verified token is live no more; every other token keeps its state, and an unverified one changes nothing. */
    method Logout(token: Payload, now: nat)
      modifies tokens
      ensures World(tokens.State(), tokens.signed) == LoggedOut(old(World(tokens.State(), tokens.signed)), token, now)
      ensures tokens.signed == old(tokens.signed) && tokens.consumed == old(tokens.consumed)
      ensures tokens.allow == if token in tokens.signed && now / 1000 < token.exp then old(tokens.allow) - {token.jti}
                              else old(tokens.allow)
      ensures forall f :: Members(tokens.active, f, now) ==
                if token in tokens.signed && now / 1000 < token.exp && f == token.familyId then
                  old(Members(tokens.active, f, now)) - {token.jti}
                else old(Members(tokens.active, f, now))
    {
      if !tokens.Verifies(token, now) {
        return;
      }
      tokens.RevokeRefreshToken(token.jti, token.familyId, now);
    }
  }

  /** A rotation takes the old entry away; the successor, its set and the consumed marker last for a full lifetime. */
  lemma RotationLasts(r: Keys, prev: string, user: string, f: string, next: string, ttl: nat, now: nat)
    requires prev != next
    ensures var keys := Rotated(r, prev, user, f, next, ttl, now);
            && prev !in keys.allow
            && (CanRotate(r, prev, user, f, now) ==>
                  forall at | now <= at < now + 1000 * ttl ::
                    Exists(keys.allow, next, at) && Exists(keys.active, f, at) && Exists(keys.consumed, (f, prev), at))
  {
  }

  // ---------------------------------------------------------------- runs

  datatype World = World(keys: Keys, signed: set<Payload>)

  predicate Verified(w: World, token: Payload, now: nat) {
    token in w.signed && now / 1000 < token.exp
  }

  function Refreshed(w: World, token: Payload, usable: bool, newJti: string, ttl: nat, now: nat)
    : (World, Option<Payload>)
  {
    if !Verified(w, token, now) then (w, None)
    else if !usable then (w.(keys := FamilyRevoked(w.keys, token.familyId, now)), None)
    else
      var keys := Rotated(w.keys, token.jti, token.sub, token.familyId, newJti, ttl, now);
      if CanRotate(w.keys, token.jti, token.sub, token.familyId, now) then
        var next := Payload(token.sub, newJti, token.familyId, now / 1000, now / 1000 + ttl);
        (World(keys, w.signed + {next}), Some(next))
      else (w.(keys := keys), None)
  }

  function LoggedOut(w: World, token: Payload, now: nat): World {
    if Verified(w, token, now) then w.(keys := Revoked(w.keys, token.jti, token.familyId, now)) else w
  }

  datatype Op =
    | Login(user: string, family: string, jti: string)
    | Refresh(token: Payload, usable: bool, newJti: string)
    | Logout(token: Payload)

  /** The world and its history: the clock, every id generated, and the tokens exchanged for a successor. */
  datatype History = History(w: World, now: nat, used: set<string>, exchanged: set<string>)

  /** Generated ids are new and colon-free, and so are user ids. */
  predicate Enabled(h: History, op: Op, at: nat) {
    && h.now <= at
    && match op
       case Login(user, family, jti) =>
         {family, jti} !! h.used && family != jti && NoColon(user) && NoColon(family) && NoColon(jti)
       case Refresh(token, _, newJti) => newJti !in h.used && NoColon(newJti)
       case Logout(_) => true
  }

  function Do(h: History, op: Op, at: nat, ttl: nat): History {
    match op
    case Login(user, family, jti) =>
      History(World(Issued(h.w.keys, user, family, jti, ttl, at),
                    h.w.signed + {Payload(user, jti, family, at / 1000, at / 1000 + ttl)}),
              at, h.used + {family, jti}, h.exchanged)
    case Refresh(token, usable, newJti) =>
      var (w', issued) := Refreshed(h.w, token, usable, newJti, ttl, at);
      History(w', at, h.used + {newJti}, if issued.Some? then h.exchanged + {token.jti} else h.exchanged)
    case Logout(token) => History(LoggedOut(h.w, token, at), at, h.used, h.exchanged)
  }

  const EMPTY_HISTORY: History := History(World(Keys(map[], map[], map[]), {}), 0, {}, {})

  predicate ValidRun(h: History, ops: seq<(Op, nat)>, ttl: nat)
    decreases |ops|
  {
    ops == [] || (Enabled(h, ops[0].0, ops[0].1) && ValidRun(Do(h, ops[0].0, ops[0].1, ttl), ops[1..], ttl))
  }

  function RunOps(h: History, ops: seq<(Op, nat)>, ttl: nat): History
    decreases |ops|
  {
    if ops == [] then h else RunOps(Do(h, ops[0].0, ops[0].1, ttl), ops[1..], ttl)
  }

  // ---------------------------------------------------------------- the invariant

  /** Signed tokens carry distinct, colon-free, generated ids and were signed no later than now. */
  predicate SignedWell(h: History, ttl: nat) {
    && (forall t <- h.w.signed :: NoColon(t.sub) && NoColon(t.familyId) && NoColon(t.jti)
                                  && t.jti in h.used && t.familyId in h.used
                                  && 1000 * t.exp <= h.now + 1000 * ttl)
    && (forall t, t' | t in h.w.signed && t' in h.w.signed && t.jti == t'.jti :: t == t')
  }

  /** A live entry is listed in its family's active set, and that set outlives it. */
  predicate Covered(k: Keys, j: string, f: string) {
    && f in k.active && j in k.active[f].value && j in k.allow
    && k.allow[j].expiry.Some? && k.active[f].expiry.Some?
    && k.allow[j].expiry.value <= k.active[f].expiry.value
  }

  predicate EntryOf(k: Keys, t: Payload) {
    t.jti in k.allow && k.allow[t.jti].value == EntryValue(t.sub, t.familyId) && k.allow[t.jti].expiry.Some?
  }

  /** Every allowlist entry is some signed token's and lasts at most `ttl`; the live ones are covered. */
  predicate AllowWell(h: History, ttl: nat) {
    && (forall j <- h.w.keys.allow :: exists t :: t in h.w.signed && t.jti == j && EntryOf(h.w.keys, t))
    && (forall j <- h.w.keys.allow ::
          h.w.keys.allow[j].expiry.Some? && h.w.keys.allow[j].expiry.value <= h.now + 1000 * ttl)
    && (forall t | t in h.w.signed && Exists(h.w.keys.allow, t.jti, h.now) :: Covered(h.w.keys, t.jti, t.familyId))
  }

  /** An exchanged token is not in the allowlist, and its marker lasts as long as its JWT. */
  predicate ExchangedWell(h: History) {
    && (forall t | t in h.w.signed && t.jti in h.exchanged ::
          && t.jti !in h.w.keys.allow
          && (t.familyId, t.jti) in h.w.keys.consumed
          && h.w.keys.consumed[(t.familyId, t.jti)].expiry.Some?
          && 1000 * t.exp <= h.w.keys.consumed[(t.familyId, t.jti)].expiry.value)
    && (forall fj <- h.w.keys.consumed :: fj.1 in h.exchanged)
    && (forall j <- h.exchanged :: j in h.used && j !in h.w.keys.allow)
  }

  predicate Inv(h: History, ttl: nat) {
    SignedWell(h, ttl) && AllowWell(h, ttl) && ExchangedWell(h)
  }

  lemma TimePasses(h: History, at: nat, ttl: nat)
    requires Inv(h, ttl) && h.now <= at
    ensures Inv(h.(now := at), ttl)
  {
  }

  lemma LoginSigned(h: History, user: string, f: string, j: string, ttl: nat)
    requires Inv(h, ttl) && Enabled(h, Login(user, f, j), h.now)
    ensures SignedWell(Do(h, Login(user, f, j), h.now, ttl), ttl)
  {
  }

  lemma LoginAllowed(h: History, user: string, f: string, j: string, ttl: nat)
    requires Inv(h, ttl) && Enabled(h, Login(user, f, j), h.now)
    ensures AllowWell(Do(h, Login(user, f, j), h.now, ttl), ttl)
  {
    LoginEntries(h, user, f, j, ttl);
    LoginCovers(h, user, f, j, ttl);
  }

  lemma LoginCovers(h: History, user: string, f: string, j: string, ttl: nat)
    requires Inv(h, ttl) && Enabled(h, Login(user, f, j), h.now)
    ensures var h' := Do(h, Login(user, f, j), h.now, ttl);
            forall t | t in h'.w.signed && Exists(h'.w.keys.allow, t.jti, h.now) :: Covered(h'.w.keys, t.jti, t.familyId)
  {
  }

  lemma LoginEntries(h: History, user: string, f: string, j: string, ttl: nat)
    requires Inv(h, ttl) && Enabled(h, Login(user, f, j), h.now)
    ensures var h' := Do(h, Login(user, f, j), h.now, ttl);
            forall i <- h'.w.keys.allow :: exists t :: t in h'.w.signed && t.jti == i && EntryOf(h'.w.keys, t)
  {
    var h' := Do(h, Login(user, f, j), h.now, ttl);
    var token := Payload(user, j, f, h.now / 1000, h.now / 1000 + ttl);
    assert token in h'.w.signed && EntryOf(h'.w.keys, token);
    forall i <- h'.w.keys.allow ensures exists t :: t in h'.w.signed && t.jti == i && EntryOf(h'.w.keys, t) {
      if i != j {
        var t :| t in h.w.signed && t.jti == i && EntryOf(h.w.keys, t);
        assert EntryOf(h'.w.keys, t);
      }
    }
  }

  lemma LoginKeepsInv(h: History, user: string, f: string, j: string, ttl: nat)
    requires Inv(h, ttl) && Enabled(h, Login(user, f, j), h.now)
    ensures Inv(Do(h, Login(user, f, j), h.now, ttl), ttl)
  {
    LoginSigned(h, user, f, j, ttl);
    LoginAllowed(h, user, f, j, ttl);
  }

  lemma RevokeFamilyAllowed(h: History, f: string, ttl: nat)
    requires Inv(h, ttl)
    ensures AllowWell(h.(w := h.w.(keys := FamilyRevoked(h.w.keys, f, h.now))), ttl)
    ensures DeadKeys(h.(w := h.w.(keys := FamilyRevoked(h.w.keys, f, h.now))), f)
  {
    var h' := h.(w := h.w.(keys := FamilyRevoked(h.w.keys, f, h.now)));
    ShrinkingAllow(h, h', ttl);
  }

  lemma RevokeFamilyKeepsInv(h: History, f: string, ttl: nat)
    requires Inv(h, ttl)
    ensures Inv(h.(w := h.w.(keys := FamilyRevoked(h.w.keys, f, h.now))), ttl)
    ensures DeadKeys(h.(w := h.w.(keys := FamilyRevoked(h.w.keys, f, h.now))), f)
  {
    RevokeFamilyAllowed(h, f, ttl);
  }

  /** Entries may disappear from the allowlist without harm as long as the survivors stay covered. */
  lemma ShrinkingAllow(h: History, h': History, ttl: nat)
    requires AllowWell(h, ttl) && h'.w.signed == h.w.signed
    requires forall j <- h'.w.keys.allow :: j in h.w.keys.allow && h'.w.keys.allow[j] == h.w.keys.allow[j]
    ensures forall j <- h'.w.keys.allow :: exists t :: t in h'.w.signed && t.jti == j && EntryOf(h'.w.keys, t)
  {
    forall j <- h'.w.keys.allow ensures exists t :: t in h'.w.signed && t.jti == j && EntryOf(h'.w.keys, t) {
      var t :| t in h.w.signed && t.jti == j && EntryOf(h.w.keys, t);
      assert EntryOf(h'.w.keys, t);
    }
  }

  /** No token of the family is live. */
  predicate DeadKeys(h: History, f: string) {
    forall t <- h.w.signed :: t.familyId == f ==> !Exists(h.w.keys.allow, t.jti, h.now)
  }

  /** Losing one entry does no harm, even if the active set loses it too. */
  lemma RevokedKeepsAllowed(h: History, j: string, f: string, ttl: nat)
    requires AllowWell(h, ttl) && SignedWell(h, ttl)
    ensures AllowWell(h.(w := h.w.(keys := Revoked(h.w.keys, j, f, h.now))), ttl)
  {
    var h' := h.(w := h.w.(keys := Revoked(h.w.keys, j, f, h.now)));
    ShrinkingAllow(h, h', ttl);
    forall t | t in h'.w.signed && Exists(h'.w.keys.allow, t.jti, h.now)
      ensures Covered(h'.w.keys, t.jti, t.familyId)
    {
      assert Covered(h.w.keys, t.jti, t.familyId);
    }
  }

  lemma RevokedKeepsExchanged(h: History, j: string, f: string)
    requires ExchangedWell(h)
    ensures ExchangedWell(h.(w := h.w.(keys := Revoked(h.w.keys, j, f, h.now))))
  {
  }

  lemma LogoutKeepsInv(h: History, token: Payload, ttl: nat)
    requires Inv(h, ttl)
    ensures Inv(Do(h, Logout(token), h.now, ttl), ttl)
  {
    RevokedKeepsAllowed(h, token.jti, token.familyId, ttl);
    RevokedKeepsExchanged(h, token.jti, token.familyId);
  }

  /** For a signed token the stored value is always its own user and family: no mismatch is possible. */
  lemma SignedTokenMatches(h: History, token: Payload, ttl: nat)
    requires Inv(h, ttl) && token in h.w.signed && token.jti in h.w.keys.allow
    ensures Matches(h.w.keys.allow[token.jti].value, token.sub, token.familyId)
    ensures h.w.keys.allow[token.jti].value != ""
  {
    var t :| t in h.w.signed && t.jti == token.jti && EntryOf(h.w.keys, t);
    EntryValueMatches(t.sub, t.familyId, t.sub, t.familyId);
  }

  lemma ExchangeSigned(h: History, token: Payload, next: string, ttl: nat)
    requires Inv(h, ttl) && Enabled(h, Refresh(token, true, next), h.now)
    requires Verified(h.w, token, h.now)
    requires CanRotate(h.w.keys, token.jti, token.sub, token.familyId, h.now)
    ensures SignedWell(Do(h, Refresh(token, true, next), h.now, ttl), ttl)
  {
  }

  lemma ExchangeAllowed(h: History, token: Payload, next: string, ttl: nat)
    requires Inv(h, ttl) && Enabled(h, Refresh(token, true, next), h.now)
    requires Verified(h.w, token, h.now)
    requires CanRotate(h.w.keys, token.jti, token.sub, token.familyId, h.now)
    ensures AllowWell(Do(h, Refresh(token, true, next), h.now, ttl), ttl)
  {
    var h' := Do(h, Refresh(token, true, next), h.now, ttl);
    var issued := Payload(token.sub, next, token.familyId, h.now / 1000, h.now / 1000 + ttl);
    assert issued in h'.w.signed && EntryOf(h'.w.keys, issued);
    forall i <- h'.w.keys.allow ensures exists t :: t in h'.w.signed && t.jti == i && EntryOf(h'.w.keys, t) {
      if i != next {
        var t :| t in h.w.signed && t.jti == i && EntryOf(h.w.keys, t);
        assert EntryOf(h'.w.keys, t);
      }
    }
    forall t | t in h'.w.signed && Exists(h'.w.keys.allow, t.jti, h.now)
      ensures Covered(h'.w.keys, t.jti, t.familyId)
    {
      if t != issued {
        assert t in h.w.signed && Covered(h.w.keys, t.jti, t.familyId);
      }
    }
  }

  lemma ExchangeMarked(h: History, token: Payload, next: string, ttl: nat)
    requires Inv(h, ttl) && Enabled(h, Refresh(token, true, next), h.now)
    requires Verified(h.w, token, h.now)
    requires CanRotate(h.w.keys, token.jti, token.sub, token.familyId, h.now)
    ensures ExchangedWell(Do(h, Refresh(token, true, next), h.now, ttl))
  {
  }

  lemma ExchangeKeepsInv(h: History, token: Payload, next: string, ttl: nat)
    requires Inv(h, ttl) && Enabled(h, Refresh(token, true, next), h.now)
    requires Verified(h.w, token, h.now)
    requires CanRotate(h.w.keys, token.jti, token.sub, token.familyId, h.now)
    ensures Inv(Do(h, Refresh(token, true, next), h.now, ttl), ttl)
  {
    ExchangeSigned(h, token, next, ttl);
    ExchangeAllowed(h, token, next, ttl);
    ExchangeMarked(h, token, next, ttl);
  }

  lemma TakenKeepsInv(h: History, j: string, ttl: nat)
    requires Inv(h, ttl)
    ensures Inv(h.(w := h.w.(keys := h.w.keys.(allow := h.w.keys.allow - {j}))), ttl)
  {
    var h' := h.(w := h.w.(keys := h.w.keys.(allow := h.w.keys.allow - {j})));
    ShrinkingAllow(h, h', ttl);
    forall t | t in h'.w.signed && Exists(h'.w.keys.allow, t.jti, h.now)
      ensures Covered(h'.w.keys, t.jti, t.familyId)
    {
      assert Covered(h.w.keys, t.jti, t.familyId);
    }
  }

  lemma UsedGrows(h: History, used: set<string>, ttl: nat)
    requires Inv(h, ttl) && h.used <= used
    ensures Inv(h.(used := used), ttl)
  {
    ShrinkingAllow(h, h.(used := used), ttl);
  }

  /** A refresh that issues nothing takes the presented entry away and perhaps revokes the family. */
  lemma RefusedKeys(h: History, token: Payload, next: string, ttl: nat)
    requires !CanRotate(h.w.keys, token.jti, token.sub, token.familyId, h.now)
    ensures var taken := h.w.keys.(allow := h.w.keys.allow - {token.jti});
            var keys := Rotated(h.w.keys, token.jti, token.sub, token.familyId, next, ttl, h.now);
            keys == taken || keys == FamilyRevoked(taken, token.familyId, h.now)
  {
  }

  lemma RefusedKeepsInv(h: History, token: Payload, next: string, ttl: nat)
    requires Inv(h, ttl) && !CanRotate(h.w.keys, token.jti, token.sub, token.familyId, h.now)
    ensures Inv(h.(w := h.w.(keys := Rotated(h.w.keys, token.jti, token.sub, token.familyId, next, ttl, h.now)),
                   used := h.used + {next}), ttl)
  {
    var keys := Rotated(h.w.keys, token.jti, token.sub, token.familyId, next, ttl, h.now);
    RefusedKeys(h, token, next, ttl);
    TakenKeepsInv(h, token.jti, ttl);
    RevokeFamilyKeepsInv(h.(w := h.w.(keys := h.w.keys.(allow := h.w.keys.allow - {token.jti}))), token.familyId, ttl);
    UsedGrows(h.(w := h.w.(keys := keys)), h.used + {next}, ttl);
  }

  lemma UnusableKeepsInv(h: History, token: Payload, next: string, ttl: nat)
    requires Inv(h, ttl)
    ensures Inv(h.(w := h.w.(keys := FamilyRevoked(h.w.keys, token.familyId, h.now)), used := h.used + {next}), ttl)
  {
    RevokeFamilyKeepsInv(h, token.familyId, ttl);
    UsedGrows(h.(w := h.w.(keys := FamilyRevoked(h.w.keys, token.familyId, h.now))), h.used + {next}, ttl);
  }

  lemma RefreshKeepsInv(h: History, token: Payload, usable: bool, next: string, ttl: nat)
    requires Inv(h, ttl) && Enabled(h, Refresh(token, usable, next), h.now)
    ensures Inv(Do(h, Refresh(token, usable, next), h.now, ttl), ttl)
  {
    if !Verified(h.w, token, h.now) {
      UsedGrows(h, h.used + {next}, ttl);
    } else if !usable {
      UnusableKeepsInv(h, token, next, ttl);
    } else if CanRotate(h.w.keys, token.jti, token.sub, token.familyId, h.now) {
      ExchangeKeepsInv(h, token, next, ttl);
    } else {
      RefusedKeepsInv(h, token, next, ttl);
    }
  }

  lemma StepKeepsInv(h: History, op: Op, at: nat, ttl: nat)
    requires Inv(h, ttl) && Enabled(h, op, at)
    ensures Inv(Do(h, op, at, ttl), ttl)
  {
    TimePasses(h, at, ttl);
    var h1 := h.(now := at);
    match op
    case Login(user, family, jti) => LoginKeepsInv(h1, user, family, jti, ttl);
    case Refresh(token, usable, next) => RefreshKeepsInv(h1, token, usable, next, ttl);
    case Logout(token) => LogoutKeepsInv(h1, token, ttl);
  }

  lemma {:induction false} RunKeepsInv(h: History, ops: seq<(Op, nat)>, ttl: nat)
    requires Inv(h, ttl) && ValidRun(h, ops, ttl)
    ensures Inv(RunOps(h, ops, ttl), ttl)
    decreases |ops|
  {
    if ops != [] {
      StepKeepsInv(h, ops[0].0, ops[0].1, ttl);
      RunKeepsInv(Do(h, ops[0].0, ops[0].1, ttl), ops[1..], ttl);
    }
  }

  /** Some run of operations, over by `now`, leads to this state. */
  ghost predicate Reachable(w: World, now: nat, ttl: nat) {
    exists ops :: ReachedBy(w, now, ttl, ops)
  }

  predicate ReachedBy(w: World, now: nat, ttl: nat, ops: seq<(Op, nat)>) {
    && ValidRun(EMPTY_HISTORY, ops, ttl)
    && RunOps(EMPTY_HISTORY, ops, ttl).w == w
    && RunOps(EMPTY_HISTORY, ops, ttl).now <= now
  }

  lemma ReachableInv(w: World, now: nat, ttl: nat) returns (h: History)
    requires Reachable(w, now, ttl)
    ensures Inv(h, ttl) && h.w == w && h.now == now
  {
    var ops :| ReachedBy(w, now, ttl, ops);
    h := RunOps(EMPTY_HISTORY, ops, ttl);
    RunKeepsInv(EMPTY_HISTORY, ops, ttl);
    TimePasses(h, now, ttl);
    h := h.(now := now);
  }

  /** No signed token of the family is in the allowlist and unexpired. */
  predicate NoneLive(signed: set<Payload>, allow: map<string, Entry<string>>, f: string, now: nat) {
    forall t <- signed :: t.familyId == f ==> !Exists(allow, t.jti, now)
  }

  lemma RevokedFamilyIsDead(w: World, f: string, now: nat, ttl: nat)
    requires Reachable(w, now, ttl)
    ensures NoneLive(w.signed, FamilyRevoked(w.keys, f, now).allow, f, now)
  {
    var h := ReachableInv(w, now, ttl);
    RevokeFamilyKeepsInv(h, f, ttl);
  }

  lemma LiveTokenRotates(w: World, token: Payload, now: nat, ttl: nat)
    requires Reachable(w, now, ttl) && token in w.signed
    ensures CanRotate(w.keys, token.jti, token.sub, token.familyId, now) <==> Exists(w.keys.allow, token.jti, now)
  {
    if Exists(w.keys.allow, token.jti, now) {
      var h := ReachableInv(w, now, ttl);
      SignedTokenMatches(h, token, ttl);
    }
  }

  // ---------------------------------------------------------------- what holds over every run

  /** A family that was generated and has no live token. */
  predicate Dead(h: History, f: string) {
    f in h.used && DeadKeys(h, f)
  }

  lemma {:induction false} StepKeepsDead(h: History, op: Op, at: nat, f: string, ttl: nat)
    requires Inv(h, ttl) && Enabled(h, op, at) && Dead(h, f)
    ensures Dead(Do(h, op, at, ttl), f)
  {
    TimePasses(h, at, ttl);
  }

  /** A dead family stays dead: no later sequence of operations makes one of its tokens live again. */
  lemma {:induction false} DeadForever(h: History, ops: seq<(Op, nat)>, f: string, ttl: nat)
    requires Inv(h, ttl) && ValidRun(h, ops, ttl) && Dead(h, f)
    ensures Dead(RunOps(h, ops, ttl), f)
    decreases |ops|
  {
    if ops != [] {
      StepKeepsInv(h, ops[0].0, ops[0].1, ttl);
      StepKeepsDead(h, ops[0].0, ops[0].1, f, ttl);
      DeadForever(Do(h, ops[0].0, ops[0].1, ttl), ops[1..], f, ttl);
    }
  }

  /**
   * Reuse detection. After any run, presenting an exchanged refresh token whose JWT is still unexpired
   * fails, finds the consumed marker, and kills the family for good, whatever is done afterwards.
   */
  lemma ReplayKillsFamily(
    before: seq<(Op, nat)>, token: Payload, usable: bool, next: string, at: nat, later: seq<(Op, nat)>, ttl: nat)
    requires ValidRun(EMPTY_HISTORY, before, ttl)
    requires var h := RunOps(EMPTY_HISTORY, before, ttl);
             && Enabled(h, Refresh(token, usable, next), at)
             && Verified(h.w, token, at) && token.jti in h.exchanged
             && ValidRun(Do(h, Refresh(token, usable, next), at, ttl), later, ttl)
    ensures var h := RunOps(EMPTY_HISTORY, before, ttl);
            var h' := Do(h, Refresh(token, usable, next), at, ttl);
            && Exists(h.w.keys.consumed, (token.familyId, token.jti), at)
            && Refreshed(h.w, token, usable, next, ttl, at).1 == None
            && Dead(h', token.familyId)
            && Dead(RunOps(h', later, ttl), token.familyId)
  {
    RunKeepsInv(EMPTY_HISTORY, before, ttl);
    var h := RunOps(EMPTY_HISTORY, before, ttl);
    var h' := Do(h, Refresh(token, usable, next), at, ttl);
    TimePasses(h, at, ttl);
    var h1 := h.(now := at);
    assert at < 1000 * token.exp;
    assert h1.w.keys.allow - {token.jti} == h1.w.keys.allow;
    RevokeFamilyKeepsInv(h1, token.familyId, ttl);
    StepKeepsInv(h, Refresh(token, usable, next), at, ttl);
    DeadForever(h', later, token.familyId, ttl);
  }

  /**
   * After any run: a live token of a signed payload is listed in its family's active set, which lives
   * at least as long; revoking the family leaves none of its tokens live; a token with a consumed
   * marker is not live; and the stored value splits into exactly the payload's user and family.
   */
  lemma ActiveSetsComplete(ops: seq<(Op, nat)>, token: Payload, ttl: nat)
    requires ValidRun(EMPTY_HISTORY, ops, ttl)
    requires token in RunOps(EMPTY_HISTORY, ops, ttl).w.signed
    ensures var h := RunOps(EMPTY_HISTORY, ops, ttl);
            && (Exists(h.w.keys.allow, token.jti, h.now) ==>
                && token.jti in Members(h.w.keys.active, token.familyId, h.now)
                && Covered(h.w.keys, token.jti, token.familyId)
                && SplitColon(h.w.keys.allow[token.jti].value) == [token.sub, token.familyId]
                && CanRotate(h.w.keys, token.jti, token.sub, token.familyId, h.now))
            && !Exists(FamilyRevoked(h.w.keys, token.familyId, h.now).allow, token.jti, h.now)
            && ((token.familyId, token.jti) in h.w.keys.consumed ==> token.jti !in h.w.keys.allow)
  {
    RunKeepsInv(EMPTY_HISTORY, ops, ttl);
    var h := RunOps(EMPTY_HISTORY, ops, ttl);
    if Exists(h.w.keys.allow, token.jti, h.now) {
      SignedTokenMatches(h, token, ttl);
      var t :| t in h.w.signed && t.jti == token.jti && EntryOf(h.w.keys, t);
      EntryValueSplits(t.sub, t.familyId);
    }
  }
}
