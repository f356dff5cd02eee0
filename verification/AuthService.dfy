/**
 The operator authentication service as it updates its tables: sessions, credentials, recovery codes
 and rate-limit buckets. Beside them it keeps the history of attempts and acceptances. Every method keeps
 the tables valid and says what it does to sessions, credentials and that history.
 */
module AuthService {
  import opened Results
  import S = Sessions
  import R = RateLimit
  import M = Mfa
  import MR = MfaRuns

  // ----- The session table under the steps of multi-factor authentication ------------------------

  lemma CommitKeepsTable(st: M.State, request: M.Request, hashes: seq<string>)
    requires S.TableOk(st.sessions)
    ensures S.TableOk(M.ConfirmCommit(st, request, hashes).sessions)
  {
    hide S.Revoke, S.TableOk;
    var user := request.confirming.secret.user;
    S.RevokeKeeps(st.sessions, M.SessionsOf(st.sessions, user), request.confirming.now);
  }

  lemma DisabledKeepsTable(st: M.State, session: nat, user: S.UserId, now: int)
    requires S.TableOk(st.sessions)
    ensures S.TableOk(M.Disabled(st, session, user, now).sessions)
  {
    hide S.Revoke, S.TableOk;
    var ids := M.SessionsOf(st.sessions, user) - {session};
    S.RevokeKeeps(st.sessions, ids, now);
    if session < |st.sessions| { S.MfaKeeps(S.Revoke(st.sessions, ids, now), session, None); }
  }

  lemma CheckKeepsSessions(c: M.Config, st: M.State, user: S.UserId, proof: M.Proof, attempt: nat, now: int)
    ensures M.Check(c, st, user, proof, attempt, now).Some? ==>
      M.Check(c, st, user, proof, attempt, now).value.sessions == st.sessions
  {
    hide M.VerifyTotp;
  }

  lemma VerifyKeepsTable(c: M.Config, st: M.State, users: S.Users, session: nat, identifier: string, limitNow: int,
                         proof: M.Proof, disable: bool, now: int)
    requires R.Configured(c.limits) && S.TableOk(st.sessions)
    ensures S.TableOk(M.Verify(c, st, users, session, identifier, limitNow, proof, disable, now).0.sessions)
  {
    hide M.Check, M.Allowed, S.TableOk, M.Disabled;
    if M.Active(st, users, session, now) {
      var user := st.sessions[session].user;
      var counted := M.Consume(c, st, identifier, limitNow);
      var checked := M.Check(c, counted, user, proof, |st.attempts|, now);
      CheckKeepsSessions(c, counted, user, proof, |st.attempts|, now);
      if checked.Some? {
        DisabledKeepsTable(checked.value, session, user, now);
        S.MfaKeeps(checked.value.sessions, session, Some(now));
      }
    }
  }

  lemma BegunCredentials(st: M.State, users: S.Users, user: S.UserId, now: int)
    requires S.Enabled(users, user)
    ensures M.CredentialOf(st, user)
      == if user in st.credentials then st.credentials[user] else M.Credential(None, None, None)
    ensures var st' := M.Begin(st, users, user, now);
      var pending := M.Pending(M.Secret(user, st.serial), now + M.ENROLLMENT_TTL_MS);
      && M.CredentialOf(st', user) == M.CredentialOf(st, user).(pending := Some(pending))
      && forall u | u != user :: M.CredentialOf(st', u) == M.CredentialOf(st, u)
  {
  }

  /** A verification that succeeds accepts one proof, of the session's own user, that continues all proofs so far. */
  lemma VerifyAccepts(c: M.Config, st: M.State, users: S.Users, session: nat, identifier: string, limitNow: int,
                      proof: M.Proof, disable: bool, now: int)
    requires R.Configured(c.limits) && MR.Inv(c, st)
    ensures var (st', r) := M.Verify(c, st, users, session, identifier, limitNow, proof, disable, now);
      var n := |st.accepted|;
      r.Ok? ==>
        && M.Active(st, users, session, now) && r.value == st.sessions[session].user
        && |st'.accepted| == n + 1 && st'.accepted[..n] == st.accepted
        && Some(st'.accepted[n].secret) == M.CredentialOf(st, r.value).secret
        && MR.Continues(st.accepted, st'.accepted[n])
  {
    hide MR.Inv, M.VerifyTotp, M.Allowed, S.Revoke, MR.Continues, MR.PassedAt, MR.Latest, MR.Charged;
    if M.Verify(c, st, users, session, identifier, limitNow, proof, disable, now).1.Ok? {
      var counted := M.Consume(c, st, identifier, limitNow);
      LastAttempt(c, st, identifier, limitNow);
      MR.ConsumeKeeps(c, st, identifier, limitNow);
      MR.CheckKeeps(c, counted, st.sessions[session].user, proof, |st.attempts|, now);
    }
  }

  class PlatosAuthService {
    const config: M.Config
    var sessions: seq<S.Session>
    var credentials: map<S.UserId, M.Credential>
    var codes: map<S.UserId, map<string, bool>>
    var buckets: R.Buckets
    var serial: nat
    ghost var confirming: seq<M.Request>
    ghost var accepted: seq<M.Acceptance>
    ghost var attempts: seq<R.Attempt>

    ghost function State(): M.State
      reads this
    {
      M.State(credentials, codes, sessions, buckets, serial, confirming, accepted, attempts)
    }

    /** The invariants of the session table and of multi-factor authentication. */
    ghost predicate Valid()
      reads this
    {
      R.Configured(config.limits) && S.TableOk(sessions) && MR.Inv(config, State())
    }

    constructor (config: M.Config)
      requires R.Configured(config.limits)
      ensures Valid() && this.config == config && State() == M.EMPTY
    {
      this.config := config;
      sessions, credentials, codes, buckets, serial := [], map[], map[], map[], 0;
      confirming, accepted, attempts := [], [], [];
      MR.FromEmpty(config, []);
    }

    // ----- Sessions ------------------------------------------------------------------------------

    /** The update and its trigger: rows are visited from parents to children. */
    method RevokeSessions(ids: set<nat>, now: int)
      modifies this`sessions
      ensures sessions == S.Revoke(old(sessions), ids, now)
    {
      var before := sessions;
      for i := 0 to |before|
        invariant |sessions| == |before| && forall j | i <= j < |before| :: sessions[j] == before[j]
        invariant sessions[..i] == S.Revoke(before[..i], ids, now)
      {
        assert before[..i + 1][..i] == before[..i] && before[..i + 1][i] == before[i];
        assert forall p | 0 <= p < i :: before[..i + 1][p] == before[p];
        var s := before[i];
        ghost var earlier := sessions[..i];
        var parentFell := s.parent.Some? && s.parent.value < i
          && before[s.parent.value].revokedAt.None? && sessions[s.parent.value].revokedAt.Some?;
        assert S.Falls(before[..i + 1], earlier, ids, i) <==> s.revokedAt.None? && (i in ids || parentFell);
        if s.revokedAt.None? && (i in ids || parentFell) {
          sessions := sessions[i := s.(revokedAt := Some(now))];
        }
        assert sessions[..i + 1] == earlier + [sessions[i]];
      }
      assert before[..|before|] == before && sessions[..|before|] == sessions;
    }

    /** The insert and its trigger. */
    method InsertSession(s: S.Session) returns (r: Result<nat, S.Error>)
      modifies this`sessions
      ensures match S.Insert(old(sessions), s)
        case Ok(table) => r == Ok(|old(sessions)|) && sessions == table
        case Err(e) => r == Err(e) && sessions == old(sessions)
    {
      if s.parent.Some? {
        var p := s.parent.value;
        if p >= |sessions| || sessions[p].user != s.user || sessions[p].impersonated.Some?
           || sessions[p].revokedAt.Some? || sessions[p].expiresAt < s.expiresAt {
          return Err(S.ParentRejected);
        }
      }
      r := Ok(|sessions|);
      sessions := sessions + [s];
    }

    /** Adds one session, which is authorised for its user until it expires, second factor permitting. */
    method IssueOperatorSession(user: S.UserId, expiresAt: int, mfa: Option<int>) returns (id: nat)
      requires Valid()
      modifies this`sessions
      ensures Valid() && id == |old(sessions)| && |sessions| == id + 1 && sessions[..id] == old(sessions)
      ensures forall users: S.Users, now: int |
          S.Enabled(users, user) && now < expiresAt && (users[user].mfaEnabled ==> mfa.Some?) ::
        S.Authorize(sessions, users, id, now) == Ok(S.Authorization(id, user, user, false, expiresAt, mfa))
    {
      var s := S.Session(user, None, None, mfa, expiresAt, None);
      S.InsertKeeps(sessions, s);
      MR.SameButSessions(config, State(), sessions + [s]);
      hide S.TableOk, MR.Inv;
      var r := InsertSession(s);
      return r.value;
    }

    /** Authorises a session exactly when it and every session above it are live and the users are who they must be. */
    method AuthorizeOperatorSession(users: S.Users, id: nat, now: int) returns (r: Result<S.Authorization, S.Error>)
      requires Valid()
      ensures r.Ok? <==> S.MayAct(sessions, users, id, now)
      ensures r.Ok? ==> r.value.session == id && S.GrantOk(sessions, r.value)
      ensures r == S.Authorize(sessions, users, id, now)
    {
      S.AuthorizedExactly(sessions, users, id, now);
      hide S.MayAct, MR.Inv, S.TableOk;
      if id >= |sessions| { return Err(S.Unauthorized); }
      var s := sessions[id];
      if s.user !in users || users[s.user].disabled { return Err(S.Unauthorized); }
      if s.revokedAt.Some? { return Err(S.Revoked); }
      if s.expiresAt <= now { return Err(S.Expired); }
      if users[s.user].mfaEnabled && s.mfaVerifiedAt.None? { return Err(S.MfaRequired); }
      if s.parent.Some? {
        var p := s.parent.value;
        if p >= |sessions| || sessions[p].user != s.user || sessions[p].impersonated.Some?
           || sessions[p].revokedAt.Some? || sessions[p].expiresAt <= now {
          return Err(S.ParentInactive);
        }
      }
      if s.impersonated.None? { return Ok(S.Authorization(id, s.user, s.user, false, s.expiresAt, s.mfaVerifiedAt)); }
      var target := s.impersonated.value;
      if !users[s.user].platformOperator || target !in users || users[target].disabled { return Err(S.Unauthorized); }
      return Ok(S.Authorization(id, s.user, target, true, s.expiresAt, s.mfaVerifiedAt));
    }

    /** Revokes the session and every session below it, and no other. */
    method RevokeOperatorSession(id: nat, now: int) returns (revoked: bool)
      requires Valid()
      modifies this`sessions
      ensures Valid() && |sessions| == |old(sessions)|
      ensures forall i | 0 <= i < |sessions| ::
        && (S.Above(old(sessions), i, id) ==> sessions[i].revokedAt.Some?)
        && (!S.Above(old(sessions), i, id) ==> sessions[i] == old(sessions)[i])
      ensures revoked <==> id < |old(sessions)| && old(sessions)[id].revokedAt.None?
    {
      S.RevokedExactly(sessions, id, now);
      MR.SameButSessions(config, State(), S.Revoke(sessions, {id}, now));
      hide S.TableOk, MR.Inv, S.Revoke, S.Above;
      revoked := id < |sessions| && sessions[id].revokedAt.None?;
      RevokeSessions({id}, now);
    }

    /**
     `startImpersonation`, from the authorisation on: it succeeds exactly for a platform operator on an enabled
     target, from a session that is not impersonating and has not been revoked since. The new session has
     the same actor and expiry as its parent.
     */
    method StartImpersonation(users: S.Users, a: S.Authorization, target: S.UserId) returns (r: Result<nat, S.Error>)
      requires Valid() && S.GrantOk(sessions, a)
      modifies this`sessions
      ensures Valid()
      ensures r.Ok? <==>
        && !a.impersonating && a.actor in users && users[a.actor].platformOperator && S.Enabled(users, target)
        && old(sessions)[a.session].revokedAt.None?
      ensures r.Ok? ==>
        && r.value == |old(sessions)|
        && sessions == old(sessions)
          + [S.Session(a.actor, Some(target), Some(a.session), a.mfaVerifiedAt, a.expiresAt, None)]
      ensures r.Err? ==> sessions == old(sessions)
    {
      S.StartExactly(sessions, users, a, target);
      hide S.TableOk, MR.Inv, S.Extends;
      ghost var before := State();
      if a.impersonating { return Err(S.Forbidden); }
      if a.actor !in users || !users[a.actor].platformOperator || !S.Enabled(users, target) { return Err(S.Forbidden); }
      r := InsertSession(S.Session(a.actor, Some(target), Some(a.session), a.mfaVerifiedAt, a.expiresAt, None));
      MR.SameButSessions(config, before, sessions);
    }

    /**
     `stopImpersonation`, from the authorisation on: it succeeds exactly while the parent is live, revokes the
     impersonation session alone and adds a session of the actor beside it, with the same parent and expiry.
     */
    method StopImpersonation(a: S.Authorization, now: int) returns (r: Result<nat, S.Error>)
      requires Valid() && S.GrantOk(sessions, a)
      modifies this`sessions
      ensures Valid()
      ensures a.impersonating ==>
        old(sessions)[a.session].parent.Some? && old(sessions)[a.session].parent.value < |old(sessions)|
      ensures r.Ok? <==> a.impersonating && S.Live(old(sessions)[old(sessions)[a.session].parent.value], now)
      ensures r.Ok? ==>
        && r.value == |old(sessions)|
        && sessions == old(sessions)[a.session := old(sessions)[a.session].(revokedAt := Some(now))]
                       + [S.Session(a.actor, None, old(sessions)[a.session].parent, a.mfaVerifiedAt, a.expiresAt, None)]
      ensures r.Err? ==> sessions == old(sessions)
    {
      S.StopExactly(sessions, a, now);
      ghost var before, expected := State(), S.Stop(sessions, a, now);
      r := StopRows(a, now);
      hide S.TableOk, MR.Inv, S.Extends, S.Stop;
      MR.SameButSessions(config, before, sessions);
    }

    method StopRows(a: S.Authorization, now: int) returns (r: Result<nat, S.Error>)
      modifies this`sessions
      ensures match S.Stop(old(sessions), a, now)
        case Ok(table) => r == Ok(|old(sessions)|) && sessions == table
        case Err(e) => r == Err(e) && sessions == old(sessions)
    {
      hide S.Revoke;
      if !a.impersonating || a.session >= |sessions| || sessions[a.session].parent.None? { return Err(S.Forbidden); }
      var parent := sessions[a.session].parent.value;
      if parent >= |sessions| || sessions[parent].user != a.actor || sessions[parent].impersonated.Some?
         || !S.Live(sessions[parent], now) {
        return Err(S.ParentInactive);
      }
      var before := sessions;
      RevokeSessions({a.session}, now);
      sessions := sessions[a.session := sessions[a.session].(revokedAt := Some(now))];
      r := InsertSession(S.Session(a.actor, None, Some(parent), a.mfaVerifiedAt, a.expiresAt, None));
      if r.Err? { sessions := before; }
    }

    // ----- Codes ---------------------------------------------------------------------------------

    /** Tries the steps of the window in order. */
    method VerifyTotp(secret: M.Secret, code: string, now: int) returns (counter: Option<nat>)
      ensures counter == M.VerifyTotp(config.totp, secret, code, now)
    {
      if !M.SixDigits(code) { return None; }
      var current := M.TimeStep(now);
      var step := current - 1;
      while step <= current + 1
        invariant current - 1 <= step <= current + 2
        invariant forall earlier | current - 1 <= earlier < step :: !M.Shows(config.totp, secret, code, earlier)
      {
        if step >= 0 && config.totp(secret, step) == code { return Some(step); }
        assert !M.Shows(config.totp, secret, code, step);
        step := step + 1;
      }
      return None;
    }

    /** Counts the attempt, and lets it pass exactly when its window has had fewer than `requests` before it. */
    method ConsumeRateLimit(identifier: string, now: int) returns (passed: bool)
      requires Valid()
      modifies this`buckets, this`attempts
      ensures Valid() && attempts == old(attempts) + [R.Attempt(R.MfaVerify, identifier, now)]
      ensures passed <==>
        R.Attempted(old(attempts),
                    R.Window(config.limits, R.MfaVerify, identifier, now)) < config.limits[R.MfaVerify].requests
      ensures State() == M.Consume(config, old(State()), identifier, now)
      ensures passed <==> M.Allowed(config, old(State()), identifier, now)
    {
      ghost var attempt, before := R.Attempt(R.MfaVerify, identifier, now), State();
      MR.ConsumeKeeps(config, State(), identifier, now);
      Bucketed(config, State(), attempt);
      hide MR.Inv, S.TableOk, R.Attempted;
      var limit := config.limits[R.MfaVerify];
      var key := R.Key(R.MfaVerify, identifier, R.WindowStart(now, limit.windowMs));
      var count := if key in buckets then buckets[key] + 1 else 1;
      buckets := buckets[key := count];
      attempts := attempts + [attempt];
      return count <= limit.requests;
    }

    /** Draws a secret that has never been used anywhere and makes it pending; nothing else changes. */
    method BeginTotpEnrollment(users: S.Users, user: S.UserId, now: int) returns (r: Result<M.Secret, M.Error>)
      requires Valid()
      modifies this`credentials, this`serial
      ensures Valid()
      ensures r.Ok? <==> S.Enabled(users, user)
      ensures r.Ok? ==>
        && r.value.user == user && MR.Unused(accepted, r.value)
        && M.CredentialOf(State(), user)
           == M.CredentialOf(old(State()), user).(pending := Some(M.Pending(r.value, now + M.ENROLLMENT_TTL_MS)))
      ensures forall u | u != user :: M.CredentialOf(State(), u) == M.CredentialOf(old(State()), u)
      ensures r.Err? ==> State() == old(State())
    {
      hide MR.Inv, S.TableOk, MR.Unused, M.CredentialOf, R.Configured;
      MR.BeginKeeps(config, State(), users, user, now);
      MR.SerialIsFresh(config, State(), user);
      if !S.Enabled(users, user) { return Err(M.Unauthorized); }
      BegunCredentials(State(), users, user, now);
      var secret := M.Secret(user, serial);
      var row := if user in credentials then credentials[user] else M.Credential(None, None, None);
      credentials := credentials[user := row.(pending := Some(M.Pending(secret, now + M.ENROLLMENT_TTL_MS)))];
      serial := serial + 1;
      return Ok(secret);
    }

    /** A step of the window shows the code of the user's pending secret. */
    ghost predicate Confirms(user: S.UserId, code: string, now: int)
      reads this
    {
      var pending := M.CredentialOf(State(), user).pending;
      && pending.Some? && now < pending.value.expiresAt && M.SixDigits(code)
      && exists step: nat :: MR.Near(step, now) && M.Shows(config.totp, pending.value.secret, code, step)
    }

    /**
     The check of `confirmTotpEnrollment`, before its transaction. The attempt is counted whatever comes of it;
     it succeeds exactly within the limit and with a code that the pending secret shows near this time.
     */
    method CheckEnrollment(user: S.UserId, code: string, identifier: string, limitNow: int, now: int)
      returns (r: Result<M.Confirming, M.Error>)
      requires Valid()
      modifies this`buckets, this`attempts, this`confirming
      ensures Valid() && attempts == old(attempts) + [R.Attempt(R.MfaVerify, identifier, limitNow)]
      ensures r.Ok? <==> M.Allowed(config, old(State()), identifier, limitNow) && old(Confirms(user, code, now))
      ensures r.Ok? ==>
        && confirming == old(confirming) + [M.Request(r.value, |old(attempts)|)]
        && r.value.secret == M.CredentialOf(old(State()), user).pending.value.secret
        && MR.Near(r.value.counter, now) && M.Shows(config.totp, r.value.secret, code, r.value.counter)
      ensures r.Err? ==> confirming == old(confirming)
    {
      ghost var before, pending := State(), M.CredentialOf(State(), user).pending;
      MR.ConfirmReadKeeps(config, before, user, code, identifier, limitNow, now);
      if pending.Some? { MR.ShownExactly(config.totp, pending.value.secret, code, now); }
      hide MR.Inv, S.TableOk, M.VerifyTotp, M.Shows, M.SixDigits, M.Allowed, MR.Near, R.Consume;
      r := CheckRows(user, code, identifier, limitNow, now);
    }

    method CheckRows(user: S.UserId, code: string, identifier: string, limitNow: int, now: int)
      returns (r: Result<M.Confirming, M.Error>)
      requires Valid()
      modifies this`buckets, this`attempts, this`confirming
      ensures State() == M.ConfirmRead(config, old(State()), user, code, identifier, limitNow, now)
      ensures r.Ok? <==>
        && M.Allowed(config, old(State()), identifier, limitNow)
        && M.Confirmable(config, old(State()), user, code, now)
      ensures r.Ok? ==>
        var secret := M.CredentialOf(old(State()), user).pending.value.secret;
        && r.value == M.Confirming(secret, M.VerifyTotp(config.totp, secret, code, now).value, now)
        && confirming == old(confirming) + [M.Request(r.value, |old(attempts)|)]
    {
      hide MR.Inv, S.TableOk, M.VerifyTotp, M.Allowed, R.Attempted, R.Consume;
      ghost var place := |attempts|;
      var passed := ConsumeRateLimit(identifier, limitNow);
      if !passed { return Err(M.RateLimited); }
      if user !in credentials || credentials[user].pending.None? { return Err(M.InvalidMfa); }
      var row := credentials[user].pending.value;
      if row.expiresAt <= now { return Err(M.InvalidMfa); }
      var counter := VerifyTotp(row.secret, code, now);
      if counter.None? { return Err(M.InvalidMfa); }
      var request := M.Confirming(row.secret, counter.value, now);
      confirming := confirming + [M.Request(request, place)];
      return Ok(request);
    }

    /**
     The transaction of `confirmTotpEnrollment`: it takes effect exactly when the same secret is still pending
     and the recovery codes are distinct. The user is then signed out everywhere and every code is unused.
     */
    method ActivateEnrollment(request: M.Confirming, hashes: seq<string>, ghost attempt: nat)
      returns (r: Result<(), M.Error>)
      requires Valid() && M.Request(request, attempt) in confirming
      modifies this
      ensures Valid()
      ensures r.Ok? <==> M.Activates(old(State()), request) && M.Distinct(hashes)
      ensures r.Ok? ==>
        var user := request.secret.user;
        && M.CredentialOf(State(), user) == M.Credential(Some(request.secret), Some(request.counter), None)
        && M.CodesOf(State(), user) == (map h | h in hashes :: false)
        && |sessions| == |old(sessions)|
        && (forall i | 0 <= i < |sessions| && old(sessions)[i].user == user :: sessions[i].revokedAt.Some?)
        && accepted == old(accepted) + [M.TotpAccepted(request.secret, request.counter, request.now, attempt)]
      ensures r.Err? ==> State() == old(State())
    {
      ghost var before, whole := State(), M.Request(request, attempt);
      MR.ConfirmCommitKeeps(config, before, whole, hashes);
      CommitKeepsTable(before, whole, hashes);
      S.RevokeRows(sessions, M.SessionsOf(sessions, request.secret.user), request.now);
      hide MR.Inv, S.TableOk, S.Revoke, M.Distinct;
      r := ActivateRows(request, hashes, attempt);
    }

    method ActivateRows(request: M.Confirming, hashes: seq<string>, ghost attempt: nat) returns (r: Result<(), M.Error>)
      modifies this
      ensures State() == M.ConfirmCommit(old(State()), M.Request(request, attempt), hashes)
      ensures r.Ok? <==> M.Activates(old(State()), request) && M.Distinct(hashes)
    {
      hide S.Revoke, M.Distinct, M.SessionsOf;
      var user := request.secret.user;
      if user !in credentials || credentials[user].pending.None? { return Err(M.InvalidMfa); }
      var pending := credentials[user].pending.value;
      if pending.secret != request.secret || pending.expiresAt <= request.now { return Err(M.InvalidMfa); }
      if !M.Distinct(hashes) { return Err(M.DuplicateCode); }
      credentials := credentials[user := M.Credential(Some(request.secret), Some(request.counter), None)];
      codes := codes[user := map h | h in hashes :: false];
      RevokeSessions(M.SessionsOf(sessions, user), request.now);
      accepted := accepted + [M.TotpAccepted(request.secret, request.counter, request.now, attempt)];
      return Ok(());
    }

    /**
     The body that verification and disabling share. Whatever it accepts continues the history: a later step
     than any accepted for the secret, or a recovery code not accepted before.
     */
    method AcceptProof(user: S.UserId, proof: M.Proof, now: int, ghost attempt: nat) returns (ok: bool)
      requires Valid() && user in credentials && credentials[user].secret.Some?
      requires MR.PassedAt(config, attempts, attempt) && MR.Latest(State(), attempt)
      modifies this`credentials, this`codes, this`accepted
      ensures Valid()
      ensures ok ==> |accepted| == |old(accepted)| + 1 && accepted[..|old(accepted)|] == old(accepted)
      ensures ok ==>
        accepted[|old(accepted)|].secret == old(credentials)[user].secret.value
        && MR.Continues(old(accepted), accepted[|old(accepted)|])
      ensures match M.Check(config, old(State()), user, proof, attempt, now)
        case Some(st) => ok && State() == st
        case None => !ok && State() == old(State())
    {
      ghost var before := State();
      if M.Check(config, before, user, proof, attempt, now).Some? {
        MR.CheckKeeps(config, before, user, proof, attempt, now);
      }
      hide M.VerifyTotp, MR.Inv, S.TableOk, MR.Continues, MR.PassedAt, MR.Latest;
      var credential := credentials[user];
      var secret := credential.secret.value;
      if proof.code != "" {
        var counter := VerifyTotp(secret, proof.code, now);
        if counter.None? || (credential.lastUsed.Some? && credential.lastUsed.value >= counter.value) { return false; }
        credentials := credentials[user := credential.(lastUsed := counter)];
        accepted := accepted + [M.TotpAccepted(secret, counter.value, now, attempt)];
        return true;
      }
      if proof.recovery.None? { return false; }
      var hash, mine := proof.recovery.value, if user in codes then codes[user] else map[];
      if hash !in mine || mine[hash] { return false; }
      codes := codes[user := mine[hash := true]];
      accepted := accepted + [M.RecoveryAccepted(secret, hash, attempt)];
      return true;
    }

    /** `verifyMfaForSession` and `disableTotpForSession`: the attempt stays counted on every outcome. */
    method VerifyMfa(users: S.Users, session: nat, identifier: string, limitNow: int, proof: M.Proof, disable: bool,
                     now: int)
      returns (r: Result<S.UserId, M.Error>)
      requires Valid()
      modifies this
      ensures Valid()
      ensures r.Ok? ==>
        && M.Active(old(State()), users, session, now) && r.value == old(sessions)[session].user
        && M.Allowed(config, old(State()), identifier, limitNow)
        && |accepted| == |old(accepted)| + 1 && accepted[..|old(accepted)|] == old(accepted)
        && Some(accepted[|old(accepted)|].secret) == M.CredentialOf(old(State()), r.value).secret
        && MR.Continues(old(accepted), accepted[|old(accepted)|])
      ensures r.Err? ==>
        && accepted == old(accepted) && credentials == old(credentials) && codes == old(codes)
        && sessions == old(sessions)
      ensures (State(), r) == M.Verify(config, old(State()), users, session, identifier, limitNow, proof, disable, now)
    {
      VerifyAccepts(config, State(), users, session, identifier, limitNow, proof, disable, now);
      MR.AttemptsAreCounted(config, State(), users, session, identifier, limitNow, proof, disable, now);
      MR.VerifyKeeps(config, State(), users, session, identifier, limitNow, proof, disable, now);
      VerifyKeepsTable(config, State(), users, session, identifier, limitNow, proof, disable, now);
      hide M.Verify, M.Active, M.Allowed, MR.Inv, MR.Continues, S.TableOk;
      r := VerifyRows(users, session, identifier, limitNow, proof, disable, now);
    }

    method VerifyRows(users: S.Users, session: nat, identifier: string, limitNow: int, proof: M.Proof, disable: bool,
                      now: int)
      returns (r: Result<S.UserId, M.Error>)
      requires Valid()
      modifies this
      ensures (State(), r) == M.Verify(config, old(State()), users, session, identifier, limitNow, proof, disable, now)
    {
      hide M.Check, M.Consume, M.Allowed, S.Revoke, M.SessionsOf, MR.Inv, S.TableOk, MR.PassedAt, MR.Latest,
        R.Attempted, MR.Continues;
      if session >= |sessions| || !S.Enabled(users, sessions[session].user) || !S.Live(sessions[session], now) {
        return Err(M.Unauthorized);
      }
      var user := sessions[session].user;
      if user !in credentials || credentials[user].secret.None? { return Err(M.InvalidMfa); }
      ghost var before := State();
      var passed := ConsumeRateLimit(identifier, limitNow);
      if !passed { return Err(M.RateLimited); }
      LastAttempt(config, before, identifier, limitNow);
      var ok := AcceptProof(user, proof, now, |before.attempts|);
      if !ok { return Err(M.InvalidMfa); }
      if disable { DisableRows(user, session, now); } else { VerifiedRow(session, now); }
      return Ok(user);
    }

    method VerifiedRow(session: nat, now: int)
      modifies this`sessions
      ensures State() == M.Verified(old(State()), session, now)
    {
      if session < |sessions| { sessions := sessions[session := sessions[session].(mfaVerifiedAt := Some(now))]; }
    }

    method DisableRows(user: S.UserId, session: nat, now: int)
      modifies this`credentials, this`codes, this`sessions
      ensures State() == M.Disabled(old(State()), session, user, now)
    {
      hide S.Revoke, M.SessionsOf;
      credentials, codes := credentials - {user}, codes - {user};
      RevokeSessions(M.SessionsOf(sessions, user) - {session}, now);
      if session < |sessions| { sessions := sessions[session := sessions[session].(mfaVerifiedAt := None)]; }
    }
  }

  /** A bucket holds the number of attempts of its window. */
  lemma Bucketed(c: M.Config, st: M.State, attempt: R.Attempt)
    requires R.Configured(c.limits) && MR.Inv(c, st)
    ensures R.CountAt(st.buckets, R.KeyOf(c.limits, attempt))
      == R.Attempted(st.attempts, R.Window(c.limits, attempt.action, attempt.identifier, attempt.now))
  {
    R.BucketCounts(c.limits, st.attempts, attempt);
  }

  lemma LastAttempt(c: M.Config, st: M.State, identifier: string, now: int)
    requires R.Configured(c.limits) && MR.Inv(c, st) && M.Allowed(c, st, identifier, now)
    ensures var counted := M.Consume(c, st, identifier, now);
      && MR.PassedAt(c, counted.attempts, |st.attempts|) && MR.Latest(counted, |st.attempts|)
      && counted.credentials == st.credentials && counted.sessions == st.sessions
  {
    MR.ConsumeKeeps(c, st, identifier, now);
    MR.InvCharged(c, st);
    hide MR.Inv;
    MR.EarlierPlaces(c, st);
  }
}
