/** Single-use tokens and session revocation (app/features/auth/sessions.py, app/core/security/token.py,
    app/features/auth/service.py). Times are seconds; Redis and the application share one clock. */
module Sessions {
  import opened Common

  // ----- Tokens -----

  datatype Kind = Access | Refresh | Reset

  function Lifetime(kind: Kind): int {
    match kind
    case Access => 30 * 60
    case Refresh => 30 * 24 * 3600
    case Reset => 15 * 60
  }

  const REFRESH_TOKEN_EXPIRES := Lifetime(Refresh)

  /** The claims that matter; tokens minted before `iat_ms` existed carry none. */
  datatype Token = Token(kind: Kind, user: nat, iatMs: Option<int>, exp: int)

  function Milliseconds(now: real): int {
    (now * 1000.0).Floor
  }

  /** `create_token`: `exp` is written in whole seconds. */
  function CreateToken(kind: Kind, user: nat, now: real): Token {
    Token(kind, user, Some(Milliseconds(now)), (now + Lifetime(kind) as real).Floor)
  }

  /** `DecodedToken.issued_at_ms` */
  function IssuedAtMs(t: Token): int {
    match t.iatMs
    case Some(ms) => ms
    case None => (t.exp - Lifetime(t.kind)) * 1000
  }

  /** `DecodedToken.remaining_seconds` */
  function RemainingSeconds(t: Token, now: real): (n: nat)
    ensures n > 0 ==> t.exp as real - 1.0 < now + n as real <= t.exp as real
    ensures n == 0 <==> t.exp as real - now < 1.0
  {
    var left := (t.exp as real - now).Floor;
    if left < 0 then 0 else left
  }

  /** Section 4.1.4 of RFC 7519: not accepted on or after `exp`. */
  predicate Expired(t: Token, now: real) {
    now >= t.exp as real
  }

  // ----- The auth Redis store -----

  /** `auth_revoked_after:<prefix>:<user>` */
  datatype Revocation = Revocation(ms: int, until: real)

  /** Blacklist markers with the moment each lapses, and revocation timestamps. */
  datatype Store = Store(markers: map<string, real>, revoked: map<nat, Revocation>)

  predicate Blacklisted(s: Store, now: real, jti: string) {
    jti in s.markers && now < s.markers[jti]
  }

  /** `is_session_revoked` */
  predicate SessionRevoked(s: Store, now: real, jti: string, t: Token) {
    Blacklisted(s, now, jti) ||
    (t.user in s.revoked && now < s.revoked[t.user].until && IssuedAtMs(t) < s.revoked[t.user].ms)
  }

  /** Whether `claim_token` wins: a positive TTL and SET NX on a free key. */
  predicate Claimable(s: Store, now: real, jti: string, ttl: nat) {
    ttl > 0 && !Blacklisted(s, now, jti)
  }

  /** SET ... EX ttl */
  function Mark(s: Store, now: real, jti: string, ttl: nat): Store {
    if ttl == 0 then s else s.(markers := s.markers[jti := now + ttl as real])
  }

  function Unmark(s: Store, jti: string): Store {
    s.(markers := s.markers - {jti})
  }

  /** `revoke_user_sessions` */
  function RevokeUser(s: Store, now: real, user: nat): Store {
    s.(revoked := s.revoked[user := Revocation(Milliseconds(now), now + REFRESH_TOKEN_EXPIRES as real)])
  }

  // ----- refresh_tokens, reset_password and logout, interleaved -----

  type Id = nat

  /** Where a request is; a rejected or failed request is over. */
  datatype Request =
    | Verified(jti: string)    // signature, expiry and type checked
    | Unrevoked(jti: string)   // is_session_revoked said no
    | Claimed(jti: string)     // reset: the claim won, nothing changed yet
    | Updated(jti: string)     // reset: the new password is committed
    | Releasing(jti: string)   // reset: an exception is being handled
    | Succeeded(jti: string)   // a success response
    | Failed(jti: string)

  /** `tokens` are the tokens issued so far, by jti; `revocations` the moments of all completed revocations;
      `updates` and `lateFailures` count, by jti, committed password changes and failures after one. */
  datatype State = State(
    now: real,
    store: Store,
    tokens: map<string, Token>,
    requests: map<Id, Request>,
    revocations: seq<(nat, real)>,
    updates: map<string, nat>,
    lateFailures: map<string, nat>)

  datatype Action =
    | Tick(seconds: real)
    | Issue(jti: string, kind: Kind, user: nat)
    | IssueLegacy(jti: string, kind: Kind, user: nat, exp: int)
    | Verify(p: Id, jti: string)
    | CheckRevoked(p: Id)
    | Claim(p: Id)
    | ClaimLost(p: Id)                // the SET took effect, its reply was lost
    | Update(p: Id)
    | UpdateFails(p: Id, applied: bool)     // the COMMIT may have taken effect before it raised
    | Revoke(p: Id)
    | RevokeFails(p: Id, applied: bool)
    | Release(p: Id)
    | ReleaseFails(p: Id)
    | Logout(jti: string)

  function Count(m: map<string, nat>, jti: string): nat {
    if jti in m then m[jti] else 0
  }

  predicate At(s: State, p: Id) {
    p in s.requests && s.requests[p].jti in s.tokens
  }

  predicate Enabled(s: State, a: Action) {
    match a
    case Tick(seconds) => seconds >= 0.0
    case Issue(jti, _, _) => jti !in s.tokens
    case IssueLegacy(jti, _, _, _) => jti !in s.tokens
    case Verify(p, jti) => p !in s.requests && jti in s.tokens && !s.tokens[jti].kind.Access? &&
        !Expired(s.tokens[jti], s.now)
    case CheckRevoked(p) => At(s, p) && s.requests[p].Verified?
    case Claim(p) => At(s, p) && s.requests[p].Unrevoked?
    case ClaimLost(p) => At(s, p) && s.requests[p].Unrevoked?
    case Update(p) => At(s, p) && s.requests[p].Claimed?
    case UpdateFails(p, _) => At(s, p) && s.requests[p].Claimed?
    case Revoke(p) => At(s, p) && s.requests[p].Updated?
    case RevokeFails(p, _) => At(s, p) && s.requests[p].Updated?
    case Release(p) => At(s, p) && s.requests[p].Releasing?
    case ReleaseFails(p) => At(s, p) && s.requests[p].Releasing?
    case Logout(jti) => jti in s.tokens && !s.tokens[jti].kind.Reset? && !Expired(s.tokens[jti], s.now)
  }

  function Moved(s: State, p: Id, r: Request): State {
    s.(requests := s.requests[p := r])
  }

  /** The claim: remaining lifetime and SET NX as one step. A refresh is done when it wins. */
  function ClaimStep(s: State, p: Id): State
    requires At(s, p)
  {
    var jti := s.requests[p].jti;
    var t := s.tokens[jti];
    var ttl := RemainingSeconds(t, s.now);
    if Claimable(s.store, s.now, jti, ttl) then
      Moved(s, p, if t.kind.Refresh? then Succeeded(jti) else Claimed(jti)).(store := Mark(s.store, s.now, jti, ttl))
    else Moved(s, p, Failed(jti))
  }

  function RevokeNow(s: State, user: nat): State {
    s.(store := RevokeUser(s.store, s.now, user), revocations := s.revocations + [(user, s.now)])
  }

  function Apply(s: State, a: Action): State
    requires Enabled(s, a)
  {
    match a
    case Tick(seconds) => s.(now := s.now + seconds)
    case Issue(jti, kind, user) => s.(tokens := s.tokens[jti := CreateToken(kind, user, s.now)])
    case IssueLegacy(jti, kind, user, exp) => s.(tokens := s.tokens[jti := Token(kind, user, None, exp)])
    case Verify(p, jti) => Moved(s, p, Verified(jti))
    case CheckRevoked(p) =>
      var jti := s.requests[p].jti;
      Moved(s, p, if SessionRevoked(s.store, s.now, jti, s.tokens[jti]) then Failed(jti) else Unrevoked(jti))
    case Claim(p) => ClaimStep(s, p)
    case ClaimLost(p) => Moved(ClaimStep(s, p), p, Failed(s.requests[p].jti))
    case Update(p) =>
      var jti := s.requests[p].jti;
      Moved(s, p, Updated(jti)).(updates := s.updates[jti := Count(s.updates, jti) + 1])
    case UpdateFails(p, applied) =>
      var jti := s.requests[p].jti;
      var t := Moved(s, p, Releasing(jti));
      if applied then
        t.(updates := s.updates[jti := Count(s.updates, jti) + 1],
           lateFailures := s.lateFailures[jti := Count(s.lateFailures, jti) + 1])
      else t
    case Revoke(p) =>
      var jti := s.requests[p].jti;
      Moved(RevokeNow(s, s.tokens[jti].user), p, Succeeded(jti))
    case RevokeFails(p, applied) =>
      var jti := s.requests[p].jti;
      Moved(if applied then RevokeNow(s, s.tokens[jti].user) else s, p, Releasing(jti))
        .(lateFailures := s.lateFailures[jti := Count(s.lateFailures, jti) + 1])
    case Release(p) =>
      var jti := s.requests[p].jti;
      Moved(s, p, Failed(jti)).(store := Unmark(s.store, jti))
    case ReleaseFails(p) => Moved(s, p, Failed(s.requests[p].jti))
    case Logout(jti) => s.(store := Mark(s.store, s.now, jti, RemainingSeconds(s.tokens[jti], s.now)))
  }

  function Initial(now: real): State {
    State(now, Store(map[], map[]), map[], map[], [], map[], map[])
  }

  ghost predicate Runs(s: State, actions: seq<Action>, t: State)
    decreases |actions|
  {
    if actions == [] then s == t
    else Enabled(s, actions[0]) && Runs(Apply(s, actions[0]), actions[1..], t)
  }

  // ----- Single use -----

  predicate Holds(r: Request) {
    r.Claimed? || r.Updated? || r.Releasing? || r.Succeeded?
  }

  /** A holder's marker lapses only in the last second of its token, when nothing can be claimed any more. */
  ghost predicate HolderOk(s: State, r: Request) {
    Holds(r) ==>
        r.jti in s.tokens && r.jti in s.store.markers && s.store.markers[r.jti] > s.tokens[r.jti].exp as real - 1.0
  }

  ghost predicate HoldersOk(s: State) {
    forall p :: p in s.requests ==> HolderOk(s, s.requests[p])
  }

  ghost predicate OneHolder(s: State) {
    forall p, q :: p in s.requests && q in s.requests && Holds(s.requests[p]) && Holds(s.requests[q]) ==>
      s.requests[p].jti != s.requests[q].jti || p == q
  }

  predicate HasUpdated(r: Request) {
    r.Updated? || r.Succeeded?
  }

  /** Password changes beyond the failures that followed one are held by a request. */
  ghost predicate UpdatesOk(s: State, jti: string) {
    || Count(s.updates, jti) <= Count(s.lateFailures, jti)
    || (Count(s.updates, jti) == Count(s.lateFailures, jti) + 1 &&
        exists p :: p in s.requests && s.requests[p].jti == jti && HasUpdated(s.requests[p]))
  }

  ghost predicate SingleUse(s: State) {
    HoldersOk(s) && OneHolder(s) && forall jti :: UpdatesOk(s, jti)
  }

  /** While a request holds a token, no claim of it can win, whether its marker is live or has lapsed. */
  lemma HeldIsNotClaimable(s: State, r: Request)
    requires HolderOk(s, r) && Holds(r)
    ensures !Claimable(s.store, s.now, r.jti, RemainingSeconds(s.tokens[r.jti], s.now))
  {
  }

  lemma NobodyHoldsClaimable(s: State, jti: string)
    requires HoldersOk(s) && jti in s.tokens
    requires Claimable(s.store, s.now, jti, RemainingSeconds(s.tokens[jti], s.now))
    ensures forall q :: q in s.requests && Holds(s.requests[q]) ==> s.requests[q].jti != jti
  {
    forall q | q in s.requests && Holds(s.requests[q]) ensures s.requests[q].jti != jti {
      HeldIsNotClaimable(s, s.requests[q]);
    }
  }

  lemma ClaimKeepsHolders(s: State, p: Id)
    requires HoldersOk(s) && OneHolder(s) && At(s, p) && s.requests[p].Unrevoked?
    ensures HoldersOk(ClaimStep(s, p)) && OneHolder(ClaimStep(s, p))
  {
    var jti := s.requests[p].jti;
    if Claimable(s.store, s.now, jti, RemainingSeconds(s.tokens[jti], s.now)) {
      NobodyHoldsClaimable(s, jti);
    }
    forall q | q in s.requests && q != p ensures HolderOk(ClaimStep(s, p), s.requests[q]) {
      assert HolderOk(s, s.requests[q]);
    }
  }

  lemma FailKeepsHolders(s: State, p: Id)
    requires HoldersOk(s) && OneHolder(s) && p in s.requests
    ensures HoldersOk(Moved(s, p, Failed(s.requests[p].jti))) && OneHolder(Moved(s, p, Failed(s.requests[p].jti)))
  {
    forall q | q in s.requests && q != p ensures HolderOk(Moved(s, p, Failed(s.requests[p].jti)), s.requests[q]) {
      assert HolderOk(s, s.requests[q]);
    }
  }

  /** One request moves; the markers stay, and it holds its token only if it did before. */
  lemma MoveKeepsHolders(s: State, t: State, p: Id)
    requires HoldersOk(s) && OneHolder(s)
    requires p in t.requests && t.requests == s.requests[p := t.requests[p]]
    requires t.store.markers == s.store.markers && t.tokens == s.tokens
    requires Holds(t.requests[p]) ==> p in s.requests && Holds(s.requests[p]) && t.requests[p].jti == s.requests[p].jti
    ensures HoldersOk(t) && OneHolder(t)
  {
    forall q | q in t.requests ensures HolderOk(t, t.requests[q]) {
      assert q in s.requests ==> HolderOk(s, s.requests[q]);
    }
  }

  lemma QuietStepKeepsHolders(s: State, a: Action)
    requires HoldersOk(s) && OneHolder(s) && Enabled(s, a)
    requires a.Verify? || a.CheckRevoked? || a.Update? || a.UpdateFails? || a.Revoke? || a.RevokeFails? ||
             a.ReleaseFails?
    ensures HoldersOk(Apply(s, a)) && OneHolder(Apply(s, a))
  {
    MoveKeepsHolders(s, Apply(s, a), a.p);
  }

  /** A release removes the marker of the only holder. */
  lemma ReleaseKeepsHolders(s: State, p: Id)
    requires HoldersOk(s) && OneHolder(s) && Enabled(s, Release(p))
    ensures HoldersOk(Apply(s, Release(p))) && OneHolder(Apply(s, Release(p)))
  {
    var t := Apply(s, Release(p));
    assert HolderOk(s, s.requests[p]);
    forall q | q in s.requests && q != p ensures HolderOk(t, t.requests[q]) {
      assert HolderOk(s, s.requests[q]);
    }
  }

  lemma OtherStepKeepsHolders(s: State, a: Action)
    requires HoldersOk(s) && OneHolder(s) && Enabled(s, a)
    requires a.Tick? || a.Issue? || a.IssueLegacy? || a.Logout?
    ensures HoldersOk(Apply(s, a)) && OneHolder(Apply(s, a))
  {
    forall q | q in s.requests ensures HolderOk(Apply(s, a), s.requests[q]) {
      assert HolderOk(s, s.requests[q]);
    }
  }

  lemma StepKeepsHolders(s: State, a: Action)
    requires HoldersOk(s) && OneHolder(s) && Enabled(s, a)
    ensures HoldersOk(Apply(s, a)) && OneHolder(Apply(s, a))
  {
    if a.Claim? || a.ClaimLost? {
      ClaimKeepsHolders(s, a.p);
      FailKeepsHolders(ClaimStep(s, a.p), a.p);
    } else if a.Tick? || a.Issue? || a.IssueLegacy? || a.Logout? {
      OtherStepKeepsHolders(s, a);
    } else if a.Release? {
      ReleaseKeepsHolders(s, a.p);
    } else {
      QuietStepKeepsHolders(s, a);
    }
  }

  /** A request that moves without losing its change leaves every count covered. */
  lemma MoveKeepsUpdates(s: State, t: State, p: Id, jti: string)
    requires p in t.requests && t.requests == s.requests[p := t.requests[p]]
    requires t.updates == s.updates && t.lateFailures == s.lateFailures && UpdatesOk(s, jti)
    requires p in s.requests && HasUpdated(s.requests[p]) ==>
        HasUpdated(t.requests[p]) && t.requests[p].jti == s.requests[p].jti
    ensures UpdatesOk(t, jti)
  {
    if !(Count(s.updates, jti) <= Count(s.lateFailures, jti)) {
      var q :| q in s.requests && s.requests[q].jti == jti && HasUpdated(s.requests[q]);
      assert q in t.requests && t.requests[q].jti == jti && HasUpdated(t.requests[q]);
    }
  }

  /** The counts of other tokens stay as they are. */
  lemma OthersKeepUpdates(s: State, t: State, p: Id, jti: string)
    requires p in s.requests && p in t.requests && s.requests[p].jti != jti
    requires t.requests == s.requests[p := t.requests[p]] && t.requests[p].jti == s.requests[p].jti
    requires Count(t.updates, jti) == Count(s.updates, jti) && Count(t.lateFailures, jti) == Count(s.lateFailures, jti)
    requires UpdatesOk(s, jti)
    ensures UpdatesOk(t, jti)
  {
    if !(Count(s.updates, jti) <= Count(s.lateFailures, jti)) {
      var q :| q in s.requests && s.requests[q].jti == jti && HasUpdated(s.requests[q]);
      assert t.requests[q] == s.requests[q];
    }
  }

  /** Before it changes the password, a request that holds its token has no change to its name. */
  lemma ClaimedIsNotUpdated(s: State, p: Id)
    requires OneHolder(s) && p in s.requests && s.requests[p].Claimed? && UpdatesOk(s, s.requests[p].jti)
    ensures Count(s.updates, s.requests[p].jti) <= Count(s.lateFailures, s.requests[p].jti)
  {
  }

  lemma UpdateKeepsUpdates(s: State, p: Id, jti: string)
    requires OneHolder(s) && UpdatesOk(s, jti) && Enabled(s, Update(p))
    ensures UpdatesOk(Apply(s, Update(p)), jti)
  {
    var t := Apply(s, Update(p));
    if jti == s.requests[p].jti {
      ClaimedIsNotUpdated(s, p);
      assert t.requests[p].jti == jti && HasUpdated(t.requests[p]);
    } else {
      OthersKeepUpdates(s, t, p, jti);
    }
  }

  lemma LateFailureKeepsUpdates(s: State, a: Action, jti: string)
    requires OneHolder(s) && UpdatesOk(s, jti) && Enabled(s, a) && (a.RevokeFails? || (a.UpdateFails? && a.applied))
    ensures UpdatesOk(Apply(s, a), jti)
  {
    if jti != s.requests[a.p].jti {
      OthersKeepUpdates(s, Apply(s, a), a.p, jti);
    } else if a.UpdateFails? {
      ClaimedIsNotUpdated(s, a.p);
    }
  }

  /** Steps that neither change a password nor fail after a change. */
  predicate IsQuiet(a: Action) {
    a.Verify? || a.CheckRevoked? || a.Claim? || a.ClaimLost? || (a.UpdateFails? && !a.applied) || a.Revoke? ||
    a.Release? || a.ReleaseFails?
  }

  lemma QuietStepKeepsUpdates(s: State, a: Action, jti: string)
    requires UpdatesOk(s, jti) && Enabled(s, a) && IsQuiet(a)
    ensures UpdatesOk(Apply(s, a), jti)
  {
    MoveKeepsUpdates(s, Apply(s, a), a.p, jti);
  }

  lemma StepKeepsUpdates(s: State, a: Action, jti: string)
    requires OneHolder(s) && UpdatesOk(s, jti) && Enabled(s, a)
    ensures UpdatesOk(Apply(s, a), jti)
  {
    if IsQuiet(a) {
      QuietStepKeepsUpdates(s, a, jti);
    } else if a.Update? {
      UpdateKeepsUpdates(s, a.p, jti);
    } else if a.UpdateFails? || a.RevokeFails? {
      LateFailureKeepsUpdates(s, a, jti);
    }
  }

  lemma {:induction false} RunKeepsSingleUse(s: State, actions: seq<Action>, t: State)
    requires SingleUse(s) && Runs(s, actions, t)
    ensures SingleUse(t)
    decreases |actions|
  {
    if actions != [] {
      StepKeepsHolders(s, actions[0]);
      forall jti ensures UpdatesOk(Apply(s, actions[0]), jti) {
        StepKeepsUpdates(s, actions[0], jti);
      }
      RunKeepsSingleUse(Apply(s, actions[0]), actions[1..], t);
    }
  }

  /** Over every interleaving of refreshes, resets, releases and logouts, with lost replies and for all time: at most
      one request per token succeeds, even after its Redis marker has lapsed; and a reset token changes the password at
      most once more than the number of failures that followed a change. */
  lemma TokensAreSingleUse(start: real, actions: seq<Action>, s: State)
    requires Runs(Initial(start), actions, s)
    ensures forall p, q ::
              p in s.requests && q in s.requests && s.requests[p].Succeeded? && s.requests[q].Succeeded? ==>
              s.requests[p].jti != s.requests[q].jti || p == q
    ensures forall jti :: Count(s.updates, jti) <= Count(s.lateFailures, jti) + 1
  {
    RunKeepsSingleUse(Initial(start), actions, s);
    forall jti ensures Count(s.updates, jti) <= Count(s.lateFailures, jti) + 1 {
      assert UpdatesOk(s, jti);
    }
  }

  // ----- Revocation -----

  /** Tokens with `iat_ms` expire no later than their lifetime after it, counted in whole milliseconds. */
  ghost predicate TokenOk(t: Token) {
    t.iatMs.Some? ==> t.exp * 1000 <= t.iatMs.value + Lifetime(t.kind) * 1000
  }

  /** A completed revocation is still in the store, or a later one is, for as long as the longest token lives. */
  ghost predicate Upholds(store: Store, now: real, user: nat, at: real) {
    at <= now && user in store.revoked && store.revoked[user].ms >= Milliseconds(at) &&
    store.revoked[user].until >= at + REFRESH_TOKEN_EXPIRES as real
  }

  ghost predicate RevocationOk(s: State, user: nat, at: real) {
    Upholds(s.store, s.now, user, at)
  }

  ghost predicate RevocationsOk(s: State) {
    && (forall i :: 0 <= i < |s.revocations| ==> RevocationOk(s, s.revocations[i].0, s.revocations[i].1))
    && (forall jti :: jti in s.tokens ==> TokenOk(s.tokens[jti]))
  }

  lemma CreatedTokenOk(kind: Kind, user: nat, now: real)
    ensures TokenOk(CreateToken(kind, user, now))
  {
    var life := Lifetime(kind);
    assert (now + life as real).Floor as real <= now + life as real;
    assert ((now + life as real).Floor - life) * 1000 <= (now * 1000.0).Floor by {
      var whole := (now + life as real).Floor - life;
      assert whole as real <= now;
      assert (whole * 1000) as real <= now * 1000.0;
    }
  }

  /** `iat_ms` is the moment in whole milliseconds, and `exp` the moment plus the lifetime in whole seconds. */
  lemma CreatedTokenIsExact(kind: Kind, user: nat, now: real)
    ensures var t := CreateToken(kind, user, now);
            && t.kind == kind && t.user == user && t.iatMs.Some? && IssuedAtMs(t) == Milliseconds(now)
            && t.iatMs.value as real <= now * 1000.0 < t.iatMs.value as real + 1.0
            && t.exp as real <= now + LifetimeOf(kind) < t.exp as real + 1.0
  {
  }

  /** 30 minutes, 30 days, 15 minutes. */
  function LifetimeOf(kind: Kind): real {
    match kind
    case Access => 1_800.0
    case Refresh => 2_592_000.0
    case Reset => 900.0
  }

  /** A token without `iat_ms` is dated by its expiry, at most a second too early. */
  lemma LegacyTokenIsDated(kind: Kind, user: nat, at: real)
    ensures var t := Token(kind, user, None, (at + LifetimeOf(kind)).Floor);
            IssuedAtMs(t) as real <= at * 1000.0 < IssuedAtMs(t) as real + 1000.0
  {
    var exp := (at + LifetimeOf(kind)).Floor;
    assert exp as real <= at + LifetimeOf(kind) < exp as real + 1.0;
  }

  lemma MillisecondsMonotone(a: real, b: real)
    requires a <= b
    ensures Milliseconds(a) <= Milliseconds(b)
  {
  }

  lemma RevokeKeepsRevocations(s: State, user: nat)
    requires RevocationsOk(s)
    ensures RevocationsOk(RevokeNow(s, user))
  {
    var t := RevokeNow(s, user);
    forall i | 0 <= i < |t.revocations| ensures RevocationOk(t, t.revocations[i].0, t.revocations[i].1) {
      if i < |s.revocations| {
        assert RevocationOk(s, s.revocations[i].0, s.revocations[i].1);
        MillisecondsMonotone(s.revocations[i].1, s.now);
      }
    }
  }

  lemma StepKeepsRevocations(s: State, a: Action)
    requires RevocationsOk(s) && Enabled(s, a)
    ensures RevocationsOk(Apply(s, a))
  {
    var t := Apply(s, a);
    if a.Revoke? || a.RevokeFails? {
      RevokeKeepsRevocations(s, s.tokens[s.requests[a.p].jti].user);
      if a.Revoke? || a.applied {
        var r := RevokeNow(s, s.tokens[s.requests[a.p].jti].user);
        assert t.revocations == r.revocations && t.store == r.store && t.now == r.now && t.tokens == r.tokens;
        assert forall i :: 0 <= i < |r.revocations| ==> RevocationOk(r, r.revocations[i].0, r.revocations[i].1);
      }
    }
    if a.Issue? {
      CreatedTokenOk(a.kind, a.user, s.now);
    }
    if !(a.Revoke? || (a.RevokeFails? && a.applied)) {
      forall i | 0 <= i < |t.revocations| ensures RevocationOk(t, t.revocations[i].0, t.revocations[i].1) {
        assert RevocationOk(s, s.revocations[i].0, s.revocations[i].1);
      }
    }
  }

  lemma {:induction false} RunKeepsRevocations(s: State, actions: seq<Action>, t: State)
    requires RevocationsOk(s) && Runs(s, actions, t)
    ensures RevocationsOk(t)
    decreases |actions|
  {
    if actions != [] {
      StepKeepsRevocations(s, actions[0]);
      RunKeepsRevocations(Apply(s, actions[0]), actions[1..], t);
    }
  }

  lemma UpheldRejects(store: Store, now: real, user: nat, at: real, jti: string, t: Token)
    requires Upholds(store, now, user, at) && TokenOk(t) && t.user == user && IssuedAtMs(t) < Milliseconds(at)
    ensures Expired(t, now) || SessionRevoked(store, now, jti, t)
  {
    if now >= store.revoked[user].until {
      assert t.exp * 1000 < Milliseconds(at) + Lifetime(t.kind) * 1000;
      assert (t.exp * 1000) as real <= at * 1000.0 + (Lifetime(t.kind) * 1000) as real;
      assert t.exp as real <= at + Lifetime(t.kind) as real;
    }
  }

  /** Revocation is permanent: after a revocation at time `at`, every token of that user issued before it is rejected at
      every later moment, by the revocation key or, once the key has lapsed, by its own expiry. */
  lemma RevocationIsPermanent(start: real, actions: seq<Action>, s: State, i: nat, jti: string)
    requires Runs(Initial(start), actions, s)
    requires i < |s.revocations| && jti in s.tokens && s.tokens[jti].user == s.revocations[i].0
    requires IssuedAtMs(s.tokens[jti]) < Milliseconds(s.revocations[i].1)
    ensures Expired(s.tokens[jti], s.now) || SessionRevoked(s.store, s.now, jti, s.tokens[jti])
  {
    RunKeepsRevocations(Initial(start), actions, s);
    var (user, at) := s.revocations[i];
    assert RevocationOk(s, user, at) && TokenOk(s.tokens[jti]);
    UpheldRejects(s.store, s.now, user, at, jti, s.tokens[jti]);
  }

  // ----- Requests after a revocation -----

  /** Time passes, tokens stay as issued, requests keep their token, and revocations are not forgotten. */
  ghost predicate Later(s: State, t: State) {
    && s.now <= t.now && s.revocations <= t.revocations
    && (forall jti :: jti in s.tokens ==> jti in t.tokens && t.tokens[jti] == s.tokens[jti])
    && (forall p :: p in s.requests ==> p in t.requests && t.requests[p].jti == s.requests[p].jti)
  }

  lemma StepIsLater(s: State, a: Action)
    requires Enabled(s, a)
    ensures Later(s, Apply(s, a))
  {
  }

  lemma {:induction false} RunIsLater(s: State, actions: seq<Action>, t: State)
    requires Runs(s, actions, t)
    ensures Later(s, t)
    decreases |actions|
  {
    if actions != [] {
      StepIsLater(s, actions[0]);
      RunIsLater(Apply(s, actions[0]), actions[1..], t);
    }
  }

  /** A request that is over, or whose token has expired before it claimed it. */
  ghost predicate Barred(s: State, p: Id) {
    && p in s.requests && s.requests[p].jti in s.tokens
    && (s.requests[p].Failed? || (s.requests[p].Unrevoked? && Expired(s.tokens[s.requests[p].jti], s.now)))
  }

  /** A step of a request. */
  predicate IsMove(a: Action) {
    IsQuiet(a) || a.Update? || a.UpdateFails? || a.RevokeFails?
  }

  predicate Moves(a: Action, p: Id) {
    IsMove(a) && a.p == p
  }

  lemma OthersStand(s: State, a: Action, p: Id)
    requires Enabled(s, a) && !Moves(a, p)
    ensures p in Apply(s, a).requests <==> p in s.requests
    ensures p in s.requests ==> Apply(s, a).requests[p] == s.requests[p]
  {
  }

  lemma StepKeepsBarred(s: State, a: Action, p: Id)
    requires Barred(s, p) && Enabled(s, a)
    ensures Barred(Apply(s, a), p)
  {
    StepIsLater(s, a);
    if !Moves(a, p) {
      OthersStand(s, a, p);
    }
  }

  lemma {:induction false} RunKeepsBarred(s: State, actions: seq<Action>, t: State, p: Id)
    requires Barred(s, p) && Runs(s, actions, t)
    ensures Barred(t, p)
    decreases |actions|
  {
    if actions != [] {
      StepKeepsBarred(s, actions[0], p);
      RunKeepsBarred(Apply(s, actions[0]), actions[1..], t, p);
    }
  }

  lemma {:induction false} RunsJoin(s: State, a: seq<Action>, t: State, b: seq<Action>, u: State)
    requires Runs(s, a, t) && Runs(t, b, u)
    ensures Runs(s, a + b, u)
    decreases |a|
  {
    if a == [] {
      assert a + b == b;
    } else {
      RunsJoin(Apply(s, a[0]), a[1..], t, b, u);
      assert (a + b)[1..] == a[1..] + b;
    }
  }

  lemma RunsThen(s: State, actions: seq<Action>, t: State, a: Action)
    requires Runs(s, actions, t) && Enabled(t, a)
    ensures Runs(s, actions + [a], Apply(t, a))
  {
    assert Runs(Apply(t, a), [], Apply(t, a)) && [a][1..] == [];
    RunsJoin(s, actions, t, [a], Apply(t, a));
  }

  /** The step completes a revocation of all sessions of `user`. */
  predicate Revokes(s: State, a: Action, user: nat)
    requires Enabled(s, a)
  {
    (a.Revoke? || (a.RevokeFails? && a.applied)) && s.tokens[s.requests[a.p].jti].user == user
  }

  lemma RevokeIsRecorded(s: State, a: Action, user: nat)
    requires Enabled(s, a) && Revokes(s, a, user)
    ensures Apply(s, a).revocations == s.revocations + [(user, s.now)]
  {
  }

  /** A check that finds a completed revocation after the token was issued bars the request. */
  lemma CheckBars(start: real, actions: seq<Action>, s: State, i: nat, p: Id)
    requires Runs(Initial(start), actions, s) && Enabled(s, CheckRevoked(p)) && i < |s.revocations|
    requires var t := s.tokens[s.requests[p].jti];
             t.user == s.revocations[i].0 && IssuedAtMs(t) < Milliseconds(s.revocations[i].1)
    ensures Barred(Apply(s, CheckRevoked(p)), p)
  {
    RevocationIsPermanent(start, actions, s, i, s.requests[p].jti);
  }

  /** Over every interleaving: a token of `user` claims to be issued before the millisecond in which `a` completes a
      revocation of that user. No request whose check follows ever claims it, changes a password or succeeds. */
  lemma RevokedTokensAreRefused(start: real, before: seq<Action>, s: State, a: Action, user: nat, between: seq<Action>,
                                c: State, p: Id, after: seq<Action>, t: State)
    requires Runs(Initial(start), before, s) && Enabled(s, a) && Revokes(s, a, user)
    requires Runs(Apply(s, a), between, c) && Enabled(c, CheckRevoked(p))
    requires var jti := c.requests[p].jti;
             jti in s.tokens && s.tokens[jti].user == user && IssuedAtMs(s.tokens[jti]) < Milliseconds(s.now)
    requires Runs(Apply(c, CheckRevoked(p)), after, t)
    ensures p in t.requests && !Holds(t.requests[p])
  {
    RevokeIsRecorded(s, a, user);
    StepIsLater(s, a);
    RunIsLater(Apply(s, a), between, c);
    RunsThen(Initial(start), before, s, a);
    RunsJoin(Initial(start), before + [a], Apply(s, a), between, c);
    assert c.revocations[|s.revocations|] == (user, s.now);
    CheckBars(start, before + [a] + between, c, |s.revocations|, p);
    RunKeepsBarred(Apply(c, CheckRevoked(p)), after, t, p);
  }

  /** The same, by the moments of the steps: issued at `r`, revoked in a later millisecond at `s`, checked at `c`. */
  lemma TokensIssuedBeforeAreRefused(start: real, first: seq<Action>, r: State, issue: Action, since: seq<Action>,
                                     s: State, a: Action, between: seq<Action>, c: State, p: Id, after: seq<Action>,
                                     t: State)
    requires Runs(Initial(start), first, r) && Enabled(r, issue) && issue.Issue?
    requires Runs(Apply(r, issue), since, s) && Enabled(s, a) && Revokes(s, a, issue.user)
    requires Milliseconds(r.now) < Milliseconds(s.now)
    requires Runs(Apply(s, a), between, c) && Enabled(c, CheckRevoked(p)) && c.requests[p].jti == issue.jti
    requires Runs(Apply(c, CheckRevoked(p)), after, t)
    ensures p in t.requests && !Holds(t.requests[p])
  {
    RunsThen(Initial(start), first, r, issue);
    RunsJoin(Initial(start), first + [issue], Apply(r, issue), since, s);
    RunIsLater(Apply(r, issue), since, s);
    CreatedTokenIsExact(issue.kind, issue.user, r.now);
    RevokedTokensAreRefused(start, first + [issue] + since, s, a, issue.user, between, c, p, after, t);
  }

  /** Whatever the store holds as a revocation was completed. */
  ghost predicate RevokedHasCause(s: State) {
    forall user :: user in s.store.revoked ==> RevokedAt(s.revocations, user, s.store.revoked[user].ms)
  }

  ghost predicate RevokedAt(revocations: seq<(nat, real)>, user: nat, ms: int) {
    exists i :: 0 <= i < |revocations| && revocations[i].0 == user && Milliseconds(revocations[i].1) == ms
  }

  lemma RevokedAtGrows(revocations: seq<(nat, real)>, more: seq<(nat, real)>, user: nat, ms: int)
    requires RevokedAt(revocations, user, ms) && revocations <= more
    ensures RevokedAt(more, user, ms)
  {
    var i :| 0 <= i < |revocations| && revocations[i].0 == user && Milliseconds(revocations[i].1) == ms;
    assert more[i] == revocations[i];
  }

  lemma RevokeHasCause(s: State, user: nat)
    requires RevokedHasCause(s)
    ensures RevokedHasCause(RevokeNow(s, user))
  {
    var t := RevokeNow(s, user);
    assert t.revocations[|s.revocations|] == (user, s.now);
    forall u | u in t.store.revoked ensures RevokedAt(t.revocations, u, t.store.revoked[u].ms) {
      if u != user {
        RevokedAtGrows(s.revocations, t.revocations, u, s.store.revoked[u].ms);
      }
    }
  }

  lemma StepKeepsCause(s: State, a: Action)
    requires RevokedHasCause(s) && Enabled(s, a)
    ensures RevokedHasCause(Apply(s, a))
  {
    if a.Revoke? || a.RevokeFails? {
      RevokeHasCause(s, s.tokens[s.requests[a.p].jti].user);
    }
  }

  lemma {:induction false} RunKeepsCause(s: State, actions: seq<Action>, t: State)
    requires RevokedHasCause(s) && Runs(s, actions, t)
    ensures RevokedHasCause(t)
    decreases |actions|
  {
    if actions != [] {
      StepKeepsCause(s, actions[0]);
      RunKeepsCause(Apply(s, actions[0]), actions[1..], t);
    }
  }

  /** The check refuses a token that has not expired exactly if it carries a live marker or was issued before the
      millisecond of some completed revocation of its user. */
  lemma CheckIsExact(start: real, actions: seq<Action>, s: State, p: Id)
    requires Runs(Initial(start), actions, s) && Enabled(s, CheckRevoked(p))
    requires !Expired(s.tokens[s.requests[p].jti], s.now)
    ensures var jti := s.requests[p].jti; var t := s.tokens[jti];
            Apply(s, CheckRevoked(p)).requests[p] ==
            if Blacklisted(s.store, s.now, jti) ||
               exists i :: 0 <= i < |s.revocations| && s.revocations[i].0 == t.user &&
                           IssuedAtMs(t) < Milliseconds(s.revocations[i].1)
            then Failed(jti) else Unrevoked(jti)
  {
    var jti := s.requests[p].jti;
    var t := s.tokens[jti];
    RunKeepsCause(Initial(start), actions, s);
    if i :| 0 <= i < |s.revocations| && s.revocations[i].0 == t.user
            && IssuedAtMs(t) < Milliseconds(s.revocations[i].1) {
      RevocationIsPermanent(start, actions, s, i, jti);
    } else if t.user in s.store.revoked {
      assert RevokedAt(s.revocations, t.user, s.store.revoked[t.user].ms);
    }
  }

  ghost predicate Reachable(s: State) {
    exists actions :: Runs(Initial(0.0), actions, s)
  }

  lemma Then(s: State, a: Action) returns (t: State)
    requires Reachable(s) && Enabled(s, a)
    ensures t == Apply(s, a) && Reachable(t)
  {
    var actions :| Runs(Initial(0.0), actions, s);
    RunsThen(Initial(0.0), actions, s, a);
    t := Apply(s, a);
  }

  /** A token of user 7 is issued at time 0, and presented by request `p`, whose check lets it through. */
  lemma IssuedAndChecked(s: State, p: Id, jti: string, kind: Kind) returns (t: State)
    requires Reachable(s) && s.now == 0.0 && jti !in s.tokens && p !in s.requests && !kind.Access?
    requires 7 !in s.store.revoked && s.store.markers == map[]
    ensures Reachable(t) && t.now == s.now && t.store == s.store && t.revocations == s.revocations
    ensures t.tokens == s.tokens[jti := Token(kind, 7, Some(0), Lifetime(kind))]
    ensures t.requests == s.requests[p := Unrevoked(jti)]
  {
    var a := Then(s, Issue(jti, kind, 7));
    var b := Then(a, Verify(p, jti));
    t := Then(b, CheckRevoked(p));
    assert Milliseconds(0.0) == 0 && CreateToken(kind, 7, 0.0) == Token(kind, 7, Some(0), Lifetime(kind));
    assert t.requests == s.requests[p := t.requests[p]];
  }

  /** A password reset by request 2 claims its token and commits the password, a second later. */
  lemma PasswordChanged(s: State) returns (t: State)
    requires Reachable(s) && s.now == 0.0 && s.store == Store(map[], map[]) && 2 in s.requests && "x" in s.tokens
    requires s.requests[2] == Unrevoked("x") && s.tokens["x"] == Token(Reset, 7, Some(0), Lifetime(Reset))
    ensures Reachable(t) && t.now == 1.0 && t.tokens == s.tokens && t.requests == s.requests[2 := Updated("x")]
    ensures t.store.revoked == map[] && t.store.markers.Keys == {"x"} && t.revocations == s.revocations
  {
    var a := Then(s, Claim(2));
    var b := Then(a, Update(2));
    t := Then(b, Tick(1.0));
    assert t.requests == s.requests[2 := t.requests[2]];
  }

  /** The reset completes its revocation; request 1 has been checked and has yet to claim. */
  lemma RevokedMeanwhile() returns (t: State)
    ensures Reachable(t) && t.now == 1.0 && t.store.markers.Keys == {"x"} && (7, 1.0) in t.revocations
    ensures 1 in t.requests && t.requests[1] == Unrevoked("r")
    ensures "r" in t.tokens && t.tokens["r"] == Token(Refresh, 7, Some(0), Lifetime(Refresh))
  {
    assert Runs(Initial(0.0), [], Initial(0.0));
    var a := IssuedAndChecked(Initial(0.0), 1, "r", Refresh);
    var b := IssuedAndChecked(a, 2, "x", Reset);
    var c := PasswordChanged(b);
    t := Then(c, Revoke(2));
    assert t.revocations[|c.revocations|] == (7, 1.0);
  }

  /** The check has to follow the revocation: a refresh token that was checked before a password reset revokes it can
      still be claimed afterwards, and its request succeeds. */
  lemma EarlierCheckSlips()
    ensures exists s ::
      Reachable(s) && (7, 1.0) in s.revocations && 1 in s.requests && s.requests[1] == Succeeded("r") &&
      "r" in s.tokens && s.tokens["r"].user == 7 && IssuedAtMs(s.tokens["r"]) < Milliseconds(1.0)
  {
    var d := RevokedMeanwhile();
    var e := Then(d, Claim(1));
    assert Milliseconds(1.0) == 1000;
  }

  // ----- Requests after a logout -----

  /** A request comes to hold its token only by winning a claim, once its check has let it through. */
  lemma HoldsByClaim(s: State, a: Action, p: Id)
    requires Enabled(s, a) && p in Apply(s, a).requests && Holds(Apply(s, a).requests[p])
    requires !(p in s.requests && Holds(s.requests[p]))
    ensures a == Claim(p) && s.requests[p].Unrevoked?
    ensures var jti := s.requests[p].jti; Claimable(s.store, s.now, jti, RemainingSeconds(s.tokens[jti], s.now))
  {
  }

  /** A request that was let through wins its claim exactly if a whole second of the token's lifetime is left and it
      carries no live marker; a refresh has then succeeded. */
  lemma ClaimIsExact(s: State, p: Id)
    requires Enabled(s, Claim(p))
    ensures var jti := s.requests[p].jti; var t := s.tokens[jti];
            Apply(s, Claim(p)).requests[p] ==
            if t.exp as real - s.now < 1.0 || Blacklisted(s.store, s.now, jti) then Failed(jti)
            else if t.kind.Refresh? then Succeeded(jti)
            else Claimed(jti)
  {
  }

  /** Every call that changes something may fail instead. */
  lemma EveryCallMayFail(s: State, p: Id, applied: bool)
    ensures Enabled(s, Claim(p)) <==> Enabled(s, ClaimLost(p))
    ensures Enabled(s, Update(p)) <==> Enabled(s, UpdateFails(p, applied))
    ensures Enabled(s, Revoke(p)) <==> Enabled(s, RevokeFails(p, applied))
    ensures Enabled(s, Release(p)) <==> Enabled(s, ReleaseFails(p))
  {
  }

  /** A claim whose reply is lost has marked the token all the same: its request fails, and no other can claim. */
  lemma LostClaimMarks(s: State, p: Id)
    requires Enabled(s, ClaimLost(p))
    requires s.tokens[s.requests[p].jti].exp as real - s.now >= 1.0
    ensures var t := Apply(s, ClaimLost(p));
            t.requests[p] == Failed(s.requests[p].jti) && Blacklisted(t.store, t.now, s.requests[p].jti)
  {
  }

  /** A failed reset that has released its claim leaves the token to a retry, while a second of its lifetime is left. */
  lemma ReleasedTokenIsClaimable(s: State, p: Id)
    requires Enabled(s, Release(p))
    ensures var t := Apply(s, Release(p)); var jti := s.requests[p].jti;
            Claimable(t.store, t.now, jti, RemainingSeconds(t.tokens[jti], t.now)) <==>
            s.tokens[jti].exp as real - s.now >= 1.0
  {
  }

  /** Tokens come from `create_token`, or from before `iat_ms`. */
  lemma IssuedTokens(s: State, jti: string, kind: Kind, user: nat, exp: int)
    requires jti !in s.tokens
    ensures Apply(s, Issue(jti, kind, user)).tokens == s.tokens[jti := CreateToken(kind, user, s.now)]
    ensures Apply(s, IssueLegacy(jti, kind, user, exp)).tokens == s.tokens[jti := Token(kind, user, None, exp)]
  {
  }

  /** Requests present no access tokens, and only password resets come to a state in which a claim may be released. */
  ghost predicate KindOk(s: State, r: Request) {
    && r.jti in s.tokens && !s.tokens[r.jti].kind.Access?
    && (r.Claimed? || r.Updated? || r.Releasing? ==> s.tokens[r.jti].kind.Reset?)
  }

  ghost predicate ReleasesResets(s: State) {
    forall p :: p in s.requests ==> KindOk(s, s.requests[p])
  }

  /** No claim of the token wins any more: what is left of its lifetime is under a second, or a marker outlasts that. */
  ghost predicate Spent(s: State, jti: string) {
    && jti in s.tokens && !s.tokens[jti].kind.Reset?
    && (RemainingSeconds(s.tokens[jti], s.now) == 0 ||
        (jti in s.store.markers && s.store.markers[jti] > s.tokens[jti].exp as real - 1.0))
  }

  lemma MoveKeepsKind(s: State, a: Action)
    requires Enabled(s, a) && IsMove(a) && (a.Verify? || KindOk(s, s.requests[a.p]))
    ensures KindOk(Apply(s, a), Apply(s, a).requests[a.p])
  {
  }

  lemma StepKeepsReleases(s: State, a: Action)
    requires ReleasesResets(s) && Enabled(s, a)
    ensures ReleasesResets(Apply(s, a))
  {
    var t := Apply(s, a);
    StepIsLater(s, a);
    forall p | p in t.requests ensures KindOk(t, t.requests[p]) {
      if Moves(a, p) {
        assert p in s.requests ==> KindOk(s, s.requests[p]);
        MoveKeepsKind(s, a);
      } else {
        OthersStand(s, a, p);
        assert KindOk(s, s.requests[p]);
      }
    }
  }

  /** A step changes no marker but that of its own token. */
  lemma OtherMarkersStay(s: State, a: Action, jti: string)
    requires Enabled(s, a)
    requires (a.Claim? || a.ClaimLost? || a.Release?) ==> s.requests[a.p].jti != jti
    requires a.Logout? ==> a.jti != jti
    ensures jti in Apply(s, a).store.markers <==> jti in s.store.markers
    ensures jti in s.store.markers ==> Apply(s, a).store.markers[jti] == s.store.markers[jti]
  {
  }

  lemma StepKeepsSpent(s: State, a: Action, jti: string)
    requires Spent(s, jti) && ReleasesResets(s) && Enabled(s, a)
    ensures Spent(Apply(s, a), jti)
  {
    StepIsLater(s, a);
    assert a.Release? ==> KindOk(s, s.requests[a.p]);
    if (a.Claim? || a.ClaimLost?) && s.requests[a.p].jti == jti {
      assert !Claimable(s.store, s.now, jti, RemainingSeconds(s.tokens[jti], s.now));
    } else if !(a.Logout? && a.jti == jti) {
      OtherMarkersStay(s, a, jti);
    }
  }

  lemma {:induction false} RunKeepsReleases(s: State, actions: seq<Action>, t: State)
    requires ReleasesResets(s) && Runs(s, actions, t)
    ensures ReleasesResets(t)
    decreases |actions|
  {
    if actions != [] {
      StepKeepsReleases(s, actions[0]);
      RunKeepsReleases(Apply(s, actions[0]), actions[1..], t);
    }
  }

  lemma {:induction false} SpentIsNeverHeld(s: State, actions: seq<Action>, t: State, jti: string, p: Id)
    requires Spent(s, jti) && ReleasesResets(s) && Runs(s, actions, t)
    requires p in t.requests && t.requests[p].jti == jti && !(p in s.requests && Holds(s.requests[p]))
    ensures !Holds(t.requests[p])
    decreases |actions|
  {
    if actions != [] {
      var a := actions[0];
      StepKeepsSpent(s, a, jti);
      StepKeepsReleases(s, a);
      StepIsLater(s, a);
      RunIsLater(Apply(s, a), actions[1..], t);
      if p in Apply(s, a).requests && Holds(Apply(s, a).requests[p]) {
        HoldsByClaim(s, a, p);
      }
      SpentIsNeverHeld(Apply(s, a), actions[1..], t, jti, p);
    }
  }

  /** Over every interleaving: once a logout has blacklisted a refresh token, no request ever claims it or succeeds with
      it that had not claimed it already, whether it was checked before the logout or after. */
  lemma LoggedOutTokensAreRefused(start: real, before: seq<Action>, s: State, jti: string, after: seq<Action>, t: State,
                                  p: Id)
    requires Runs(Initial(start), before, s) && Enabled(s, Logout(jti)) && Runs(Apply(s, Logout(jti)), after, t)
    requires p in t.requests && t.requests[p].jti == jti && !(p in s.requests && Holds(s.requests[p]))
    ensures !Holds(t.requests[p])
  {
    RunKeepsReleases(Initial(start), before, s);
    StepKeepsReleases(s, Logout(jti));
    SpentIsNeverHeld(Apply(s, Logout(jti)), after, t, jti, p);
  }

  // ----- What a successful reset has done -----

  ghost predicate Changed(s: State, r: Request) {
    r.jti in s.tokens &&
    (s.tokens[r.jti].kind.Reset? && HasUpdated(r) ==> r.jti in s.updates && s.updates[r.jti] >= 1)
  }

  ghost predicate RevokedOnce(revocations: seq<(nat, real)>, user: nat) {
    exists i :: 0 <= i < |revocations| && revocations[i].0 == user
  }

  ghost predicate ResetDone(s: State, r: Request) {
    Changed(s, r) &&
    (s.tokens[r.jti].kind.Reset? && r.Succeeded? ==> RevokedOnce(s.revocations, s.tokens[r.jti].user))
  }

  ghost predicate ResetsDone(s: State) {
    forall p :: p in s.requests ==> ResetDone(s, s.requests[p])
  }

  /** What the two counts count: password changes, and failures of a request after a change. */
  lemma StepCounts(s: State, a: Action, jti: string)
    requires Enabled(s, a)
    ensures Count(Apply(s, a).updates, jti) == Count(s.updates, jti) +
      if (a.Update? || (a.UpdateFails? && a.applied)) && s.requests[a.p].jti == jti then 1 else 0
    ensures Count(Apply(s, a).lateFailures, jti) == Count(s.lateFailures, jti) +
      if ((a.UpdateFails? && a.applied) || a.RevokeFails?) && s.requests[a.p].jti == jti then 1 else 0
    ensures jti in s.updates ==> jti in Apply(s, a).updates
  {
  }

  lemma RevokedOnceGrows(revocations: seq<(nat, real)>, more: seq<(nat, real)>, user: nat)
    requires RevokedOnce(revocations, user) && revocations <= more
    ensures RevokedOnce(more, user)
  {
    var i :| 0 <= i < |revocations| && revocations[i].0 == user;
    assert more[i] == revocations[i];
  }

  /** What held of a request goes on to hold while it does not move. */
  lemma StandingIsDone(s: State, a: Action, r: Request)
    requires ResetDone(s, r) && Enabled(s, a)
    ensures ResetDone(Apply(s, a), r)
  {
    StepIsLater(s, a);
    StepCounts(s, a, r.jti);
    if RevokedOnce(s.revocations, s.tokens[r.jti].user) {
      RevokedOnceGrows(s.revocations, Apply(s, a).revocations, s.tokens[r.jti].user);
    }
  }

  lemma RevokeIsDone(s: State, p: Id)
    requires Enabled(s, Revoke(p)) && ResetDone(s, s.requests[p])
    ensures ResetDone(Apply(s, Revoke(p)), Apply(s, Revoke(p)).requests[p])
  {
    var user := s.tokens[s.requests[p].jti].user;
    RevokeIsRecorded(s, Revoke(p), user);
    assert Apply(s, Revoke(p)).revocations[|s.revocations|].0 == user;
  }

  lemma MoveIsDone(s: State, a: Action)
    requires Enabled(s, a) && IsMove(a) && !a.Revoke? && (a.Verify? || ResetDone(s, s.requests[a.p]))
    ensures ResetDone(Apply(s, a), Apply(s, a).requests[a.p])
  {
  }

  lemma StepKeepsResetDone(s: State, a: Action, p: Id)
    requires ResetsDone(s) && Enabled(s, a) && p in Apply(s, a).requests
    ensures ResetDone(Apply(s, a), Apply(s, a).requests[p])
  {
    if !Moves(a, p) {
      OthersStand(s, a, p);
      StandingIsDone(s, a, s.requests[p]);
    } else if a.Revoke? {
      RevokeIsDone(s, p);
    } else {
      MoveIsDone(s, a);
    }
  }

  lemma {:induction false} RunKeepsResetsDone(s: State, actions: seq<Action>, t: State)
    requires ResetsDone(s) && Runs(s, actions, t)
    ensures ResetsDone(t)
    decreases |actions|
  {
    if actions != [] {
      forall p | p in Apply(s, actions[0]).requests
        ensures ResetDone(Apply(s, actions[0]), Apply(s, actions[0]).requests[p])
      {
        StepKeepsResetDone(s, actions[0], p);
      }
      RunKeepsResetsDone(Apply(s, actions[0]), actions[1..], t);
    }
  }

  /** A reset that answers with success has changed the password and revoked the user's sessions. */
  lemma SuccessfulResetIsComplete(start: real, actions: seq<Action>, s: State, p: Id)
    requires Runs(Initial(start), actions, s) && p in s.requests && s.requests[p].Succeeded?
    requires s.requests[p].jti in s.tokens && s.tokens[s.requests[p].jti].kind.Reset?
    ensures s.requests[p].jti in s.updates && s.updates[s.requests[p].jti] >= 1
    ensures RevokedOnce(s.revocations, s.tokens[s.requests[p].jti].user)
  {
    RunKeepsResetsDone(Initial(start), actions, s);
    assert ResetDone(s, s.requests[p]);
  }

  // ----- What the callers of the store gain -----

  /** No claim of this token wins, now or later. */
  ghost predicate ClaimedForGood(store: Store, now: real, jti: string, t: Token) {
    forall later :: later >= now ==> !Claimable(store, later, jti, RemainingSeconds(t, later))
  }

  lemma MarkedForGood(store: Store, now: real, jti: string, t: Token)
    requires RemainingSeconds(t, now) > 0
    ensures ClaimedForGood(Mark(store, now, jti, RemainingSeconds(t, now)), now, jti, t)
  {
  }

  /** A marker for the floored lifetime lapses before its token does: a token that was blacklisted at `now` is accepted
      again exactly between the two moments, which lie less than a second apart. */
  lemma MarkerLapsesFirst(store: Store, now: real, jti: string, t: Token, later: real)
    requires !Expired(t, now) && now <= later && jti !in store.markers && t.user !in store.revoked
    ensures var ttl := RemainingSeconds(t, now);
            t.exp as real - (now + ttl as real) < 1.0 &&
            (!Expired(t, later) && !SessionRevoked(Mark(store, now, jti, ttl), later, jti, t) <==>
             now + ttl as real <= later < t.exp as real)
  {
  }

  ghost predicate Attempted(attempts: seq<(nat, real)>, user: nat, ms: int) {
    exists i :: 0 <= i < |attempts| && attempts[i].0 == user && Milliseconds(attempts[i].1) == ms
  }

  lemma AttemptAdded(attempts: seq<(nat, real)>, user: nat, at: real)
    ensures Attempted(attempts + [(user, at)], user, Milliseconds(at))
    ensures forall u, ms :: Attempted(attempts, u, ms) ==> Attempted(attempts + [(user, at)], u, ms)
  {
    var all := attempts + [(user, at)];
    assert all[|attempts|] == (user, at);
    forall u, ms | Attempted(attempts, u, ms) ensures Attempted(all, u, ms) {
      var i :| 0 <= i < |attempts| && attempts[i].0 == u && Milliseconds(attempts[i].1) == ms;
      assert all[i] == attempts[i];
    }
  }

  /** The store as the application calls it. A call that Redis fails may still have taken effect. */
  class AuthRedis {
    var now: real
    var store: Store

    /** Completed revocations, all that may have taken effect, and the tokens that may ever have been marked. */
    ghost var revocations: seq<(nat, real)>
    ghost var attempts: seq<(nat, real)>
    ghost var marked: set<string>

    constructor (now: real)
      ensures Valid() && this.now == now && revocations == attempts == [] && marked == {}
    {
      this.now, store := now, Store(map[], map[]);
      revocations, attempts, marked := [], [], {};
    }

    ghost predicate Valid()
      reads this
    {
      && (forall i :: 0 <= i < |revocations| ==> Upholds(store, now, revocations[i].0, revocations[i].1))
      && store.markers.Keys <= marked
      && (forall user :: user in store.revoked ==> Attempted(attempts, user, store.revoked[user].ms))
    }

    method Wait(seconds: real)
      requires Valid() && seconds >= 0.0
      modifies this`now
      ensures Valid() && now == old(now) + seconds
    {
      now := now + seconds;
    }

    /** `claim_token`; None stands for the 503. Once a claim has won, no claim of that token ever wins again. */
    method ClaimToken(jti: string, ttl: nat) returns (won: Option<bool>)
      requires Valid()
      modifies this`store, this`marked
      ensures Valid() && marked == old(marked) + {jti}
      ensures store.revoked == old(store).revoked && store.markers - {jti} == old(store).markers - {jti}
      ensures ttl == 0 ==> won == Some(false) && store == old(store)
      ensures won.Some? ==> won.value == Claimable(old(store), now, jti, ttl)
      ensures won == Some(true) ==>
          forall t: Token :: ttl == RemainingSeconds(t, now) ==> ClaimedForGood(store, now, jti, t)
      ensures Blacklisted(old(store), now, jti) ==> store == old(store)
    {
      marked := marked + {jti};
      if ttl == 0 {
        return Some(false);
      }
      var answered: bool := *;
      var applied: bool := *;
      var free := !Blacklisted(store, now, jti);
      if free && (answered || applied) {
        forall t: Token | ttl == RemainingSeconds(t, now)
          ensures ClaimedForGood(Mark(store, now, jti, ttl), now, jti, t)
        {
          MarkedForGood(store, now, jti, t);
        }
        store := store.(markers := store.markers[jti := now + ttl as real]);
      }
      won := if answered then Some(free) else None;
    }

    /** `release_token`, best effort. */
    method ReleaseToken(jti: string)
      requires Valid()
      modifies this`store
      ensures Valid()
      ensures store == Unmark(old(store), jti) || store == old(store)
    {
      var applied: bool := *;
      if applied {
        store := store.(markers := store.markers - {jti});
      }
    }

    /** `blacklist_token`: until the floored lifetime is over, the token is rejected. */
    method BlacklistToken(jti: string, ttl: nat) returns (ok: bool)
      requires Valid()
      modifies this`store, this`marked
      ensures Valid() && marked == old(marked) + {jti}
      ensures store.revoked == old(store).revoked && store.markers - {jti} == old(store).markers - {jti}
      ensures ok ==> forall later, t :: later < now + ttl as real && ttl > 0 ==> SessionRevoked(store, later, jti, t)
      ensures ttl == 0 ==> ok && store == old(store)
    {
      marked := marked + {jti};
      if ttl == 0 {
        return true;
      }
      ok := *;
      var applied: bool := *;
      if ok || applied {
        store := store.(markers := store.markers[jti := now + ttl as real]);
      }
    }

    /** `revoke_user_sessions`: until a refresh token would have expired, every older token of the user is rejected, and
        nobody else's. */
    method RevokeUserSessions(user: nat) returns (ok: bool)
      requires Valid()
      modifies this`store, this`revocations, this`attempts
      ensures Valid() && attempts == old(attempts) + [(user, now)]
      ensures revocations == if ok then old(revocations) + [(user, now)] else old(revocations)
      ensures ok ==> forall jti, t: Token, later {:trigger SessionRevoked(store, later, jti, t)} :: t.user == user ==>
                (SessionRevoked(store, later, jti, t) <==>
                 Blacklisted(old(store), later, jti) ||
                 (IssuedAtMs(t) < Milliseconds(now) && later < now + LifetimeOf(Refresh)))
      ensures forall jti, t: Token, later ::
                t.user != user ==> SessionRevoked(store, later, jti, t) == SessionRevoked(old(store), later, jti, t)
    {
      AttemptAdded(attempts, user, now);
      attempts := attempts + [(user, now)];
      ok := *;
      var applied: bool := *;
      if ok || applied {
        var revocation := Revocation(Milliseconds(now), now + REFRESH_TOKEN_EXPIRES as real);
        store := store.(revoked := store.revoked[user := revocation]);
      }
      if ok {
        revocations := revocations + [(user, now)];
      }
    }

    /** `is_session_revoked`: one MGET; None stands for the 503. A token that is let through and has not expired was
        issued after every completed revocation of its user and carries no live marker; a token is rejected only if it
        may have been marked or was issued before some revocation of its user. */
    method IsSessionRevoked(jti: string, t: Token) returns (revoked: Option<bool>)
      requires Valid()
      ensures revoked.Some? ==> revoked.value == SessionRevoked(store, now, jti, t)
      ensures revoked == Some(false) && TokenOk(t) && !Expired(t, now) ==>
                forall i :: 0 <= i < |revocations| && revocations[i].0 == t.user ==>
                  IssuedAtMs(t) >= Milliseconds(revocations[i].1)
      ensures revoked == Some(true) ==>
                jti in marked || exists i :: 0 <= i < |attempts| && attempts[i].0 == t.user &&
                                             IssuedAtMs(t) < Milliseconds(attempts[i].1)
    {
      var answered: bool := *;
      if !answered {
        return None;
      }
      if jti in store.markers && now < store.markers[jti] {
        return Some(true);
      }
      var user := t.user;
      revoked := Some(user in store.revoked && now < store.revoked[user].until &&
          IssuedAtMs(t) < store.revoked[user].ms);
      if revoked == Some(true) {
        assert Attempted(attempts, user, store.revoked[user].ms);
      } else if TokenOk(t) {
        forall i | 0 <= i < |revocations| && revocations[i].0 == user && IssuedAtMs(t) < Milliseconds(revocations[i].1)
          ensures Expired(t, now)
        {
          UpheldRejects(store, now, user, revocations[i].1, jti, t);
        }
      }
    }
  }
}
