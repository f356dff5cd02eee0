/**
 Multi-factor authentication: enrolling a time-based secret, verifying codes and recovery codes under
 a rate limit, and disabling it again.

 The code an authenticator shows for a secret and a time step is a parameter, so nothing is assumed
 about collisions between codes. A secret is named by its user and a serial number. The history of
 accepted codes and of rate-limited attempts is kept beside the state.
 */
module Mfa {
  import opened Results
  import S = Sessions
  import R = RateLimit

  datatype Secret = Secret(user: S.UserId, serial: nat)

  type Totp = (Secret, nat) -> string

  const PERIOD_MS := 30_000
  const ENROLLMENT_TTL_MS := 900_000

  // ----- Verifying one code ----------------------------------------------------------------------

  predicate SixDigits(code: string) { |code| == 6 && forall i | 0 <= i < 6 :: '0' <= code[i] <= '9' }

  function TimeStep(now: int): int { now / PERIOD_MS }

  predicate Shows(totp: Totp, secret: Secret, code: string, counter: int)
  {
    counter >= 0 && totp(secret, counter) == code
  }

  /** The first step from one before the current one to one after it whose code was submitted. */
  function VerifyTotp(totp: Totp, secret: Secret, code: string, now: int): Option<nat>
  {
    var current := TimeStep(now);
    if !SixDigits(code) then None
    else if Shows(totp, secret, code, current - 1) then Some(current - 1)
    else if Shows(totp, secret, code, current) then Some(current)
    else if Shows(totp, secret, code, current + 1) then Some(current + 1)
    else None
  }

  // ----- State -----------------------------------------------------------------------------------

  datatype Pending = Pending(secret: Secret, expiresAt: int)

  datatype Credential = Credential(secret: Option<Secret>, lastUsed: Option<nat>, pending: Option<Pending>)

  /** An enrolment that has checked its code and not yet run its transaction. */
  datatype Confirming = Confirming(secret: Secret, counter: nat, now: int)

  /** It remembers which attempt of the history it was counted as. */
  datatype Request = Request(confirming: Confirming, attempt: nat)

  datatype Acceptance =
    | TotpAccepted(secret: Secret, counter: nat, at: int, attempt: nat)
    | RecoveryAccepted(secret: Secret, hash: string, attempt: nat)

  datatype State = State(
    credentials: map<S.UserId, Credential>,
    codes: map<S.UserId, map<string, bool>>,
    sessions: seq<S.Session>,
    buckets: R.Buckets,
    serial: nat,
    confirming: seq<Request>,
    accepted: seq<Acceptance>,
    attempts: seq<R.Attempt>)

  const EMPTY := State(map[], map[], [], map[], 0, [], [], [])

  datatype Config = Config(totp: Totp, limits: R.Limits)

  datatype Error = Unauthorized | InvalidMfa | RateLimited | DuplicateCode

  function CredentialOf(st: State, user: S.UserId): Credential
  {
    if user in st.credentials then st.credentials[user] else Credential(None, None, None)
  }

  function CodesOf(st: State, user: S.UserId): map<string, bool> { if user in st.codes then st.codes[user] else map[] }

  /** The limiter reads the clock for itself. The bucket is written outside the transaction: it stays whatever
      becomes of the rest. */
  function Consume(c: Config, st: State, identifier: string, now: int): State
    requires R.Configured(c.limits)
  {
    var attempt := R.Attempt(R.MfaVerify, identifier, now);
    st.(buckets := R.Consume(c.limits, st.buckets, attempt), attempts := st.attempts + [attempt])
  }

  predicate Allowed(c: Config, st: State, identifier: string, now: int)
    requires R.Configured(c.limits)
  {
    R.Passes(c.limits, st.buckets, R.Attempt(R.MfaVerify, identifier, now))
  }

  // ----- Enrolling -------------------------------------------------------------------------------

  function Begin(st: State, users: S.Users, user: S.UserId, now: int): State
  {
    if !S.Enabled(users, user) then st else
    var pending := Pending(Secret(user, st.serial), now + ENROLLMENT_TTL_MS);
    st.(credentials := st.credentials[user := CredentialOf(st, user).(pending := Some(pending))],
        serial := st.serial + 1)
  }

  predicate Confirmable(c: Config, st: State, user: S.UserId, code: string, now: int)
  {
    var pending := CredentialOf(st, user).pending;
    pending.Some? && now < pending.value.expiresAt && VerifyTotp(c.totp, pending.value.secret, code, now).Some?
  }

  /** The first half of `confirmTotpEnrollment`: the code is checked against the pending secret. */
  function ConfirmRead(c: Config, st: State, user: S.UserId, code: string, identifier: string, limitNow: int,
                       now: int): State
    requires R.Configured(c.limits)
  {
    var counted := Consume(c, st, identifier, limitNow);
    if !Allowed(c, st, identifier, limitNow) || !Confirmable(c, st, user, code, now) then counted else
    var secret := CredentialOf(st, user).pending.value.secret;
    var confirming := Confirming(secret, VerifyTotp(c.totp, secret, code, now).value, now);
    counted.(confirming := st.confirming + [Request(confirming, |st.attempts|)])
  }

  predicate Distinct(hashes: seq<string>) { forall i, j | 0 <= i < j < |hashes| :: hashes[i] != hashes[j] }

  function SessionsOf(sessions: seq<S.Session>, user: S.UserId): set<nat>
  {
    set i | 0 <= i < |sessions| && sessions[i].user == user
  }

  /** The same secret is still pending, and had not expired when its code was checked. */
  predicate Activates(st: State, request: Confirming)
  {
    var pending := CredentialOf(st, request.secret.user).pending;
    pending.Some? && pending.value.secret == request.secret && request.now < pending.value.expiresAt
  }

  /** The second half of `confirmTotpEnrollment`. */
  function ConfirmCommit(st: State, r: Request, hashes: seq<string>): State
  {
    var request, user := r.confirming, r.confirming.secret.user;
    if !Activates(st, request) || !Distinct(hashes) then st
    else
      st.(credentials := st.credentials[user := Credential(Some(request.secret), Some(request.counter), None)],
          codes := st.codes[user := map h | h in hashes :: false],
          sessions := S.Revoke(st.sessions, SessionsOf(st.sessions, user), request.now),
          accepted := st.accepted + [TotpAccepted(request.secret, request.counter, request.now, r.attempt)])
  }

  // ----- Verifying and disabling -----------------------------------------------------------------

  /** What the caller submits: a code, or else a recovery code, compared by its hash. */
  datatype Proof = Proof(code: string, recovery: Option<string>)

  /** The transaction's effect on the credential, when the proof is accepted. */
  function Check(c: Config, st: State, user: S.UserId, proof: Proof, attempt: nat, now: int): Option<State>
  {
    var credential := CredentialOf(st, user);
    if credential.secret.None? then None else
    var secret := credential.secret.value;
    if proof.code != "" then
      var counter := VerifyTotp(c.totp, secret, proof.code, now);
      if counter.Some? && (credential.lastUsed.None? || credential.lastUsed.value < counter.value) then
        Some(st.(credentials := st.credentials[user := credential.(lastUsed := counter)],
                 accepted := st.accepted + [TotpAccepted(secret, counter.value, now, attempt)]))
      else None
    else if proof.recovery.Some? then
      var hash, codes := proof.recovery.value, CodesOf(st, user);
      if hash in codes && !codes[hash] then
        Some(st.(codes := st.codes[user := codes[hash := true]],
                 accepted := st.accepted + [RecoveryAccepted(secret, hash, attempt)]))
      else None
    else None
  }

  predicate Active(st: State, users: S.Users, session: nat, now: int)
  {
    session < |st.sessions| && S.Enabled(users, st.sessions[session].user) && S.Live(st.sessions[session], now)
  }

  /** `verifyMfaForSession` and `disableTotpForSession` share everything up to the last writes. */
  function Verify(c: Config, st: State, users: S.Users, session: nat, identifier: string, limitNow: int, proof: Proof,
                  disable: bool, now: int)
    : (State, Result<S.UserId, Error>)
    requires R.Configured(c.limits)
  {
    if !Active(st, users, session, now) then (st, Err(Unauthorized)) else
    var user := st.sessions[session].user;
    if CredentialOf(st, user).secret.None? then (st, Err(InvalidMfa)) else
    var counted := Consume(c, st, identifier, limitNow);
    if !Allowed(c, st, identifier, limitNow) then (counted, Err(RateLimited)) else
    var checked := Check(c, counted, user, proof, |st.attempts|, now);
    if checked.None? then (counted, Err(InvalidMfa))
    else (if disable then Disabled(checked.value, session, user, now)
        else Verified(checked.value, session, now), Ok(user))
  }

  function Verified(st: State, session: nat, now: int): State
  {
    if session < |st.sessions|
      then st.(sessions := st.sessions[session := st.sessions[session].(mfaVerifiedAt := Some(now))]) else st
  }

  function Disabled(st: State, session: nat, user: S.UserId, now: int): State
  {
    var others := S.Revoke(st.sessions, SessionsOf(st.sessions, user) - {session}, now);
    st.(credentials := st.credentials - {user}, codes := st.codes - {user},
        sessions := if session < |others| then others[session := others[session].(mfaVerifiedAt := None)] else others)
  }

  // ----- Runs ------------------------------------------------------------------------------------

  datatype Op =
    | BeginOp(users: S.Users, user: S.UserId, now: int)
    | ConfirmReadOp(user: S.UserId, code: string, identifier: string, limitNow: int, now: int)
    | ConfirmCommitOp(request: nat, hashes: seq<string>)
    | VerifyOp(users: S.Users, session: nat, identifier: string, limitNow: int, proof: Proof, disable: bool, now: int)
    | SessionsOp(sessions: seq<S.Session>)

  /** Sessions may otherwise change in any way. */
  function Apply(c: Config, st: State, op: Op): State
    requires R.Configured(c.limits)
  {
    match op
    case BeginOp(users, user, now) => Begin(st, users, user, now)
    case ConfirmReadOp(user, code, identifier, limitNow, now) =>
      ConfirmRead(c, st, user, code, identifier, limitNow, now)
    case ConfirmCommitOp(request, hashes) =>
      if request < |st.confirming| then ConfirmCommit(st, st.confirming[request], hashes) else st
    case VerifyOp(users, session, identifier, limitNow, proof, disable, now) =>
      Verify(c, st, users, session, identifier, limitNow, proof, disable, now).0
    case SessionsOp(sessions) => st.(sessions := sessions)
  }

  function Run(c: Config, st: State, ops: seq<Op>): State
    requires R.Configured(c.limits)
    decreases ops
  {
    if ops == [] then st else Run(c, Apply(c, st, ops[0]), ops[1..])
  }
}
