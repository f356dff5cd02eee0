/**
 What holds of multi-factor authentication over every run: accepted time steps only move forward,
 each recovery code works once, and every attempt is counted.
 */
module MfaRuns {
  import opened Results
  import opened Mfa
  import S = Sessions
  import R = RateLimit

  // ----- The invariant ---------------------------------------------------------------------------

  ghost predicate Forward(accepted: seq<Acceptance>)
  {
    forall i, j | 0 <= i < j < |accepted| && accepted[i].TotpAccepted? && accepted[j].TotpAccepted?
      && accepted[i].secret == accepted[j].secret :: accepted[i].counter < accepted[j].counter
  }

  ghost predicate Once(accepted: seq<Acceptance>)
  {
    forall i, j | 0 <= i < j < |accepted| && accepted[i].RecoveryAccepted? && accepted[j].RecoveryAccepted?
      && accepted[i].secret == accepted[j].secret :: accepted[i].hash != accepted[j].hash
  }

  predicate Near(counter: int, now: int) { TimeStep(now) - 1 <= counter <= TimeStep(now) + 1 }

  ghost predicate Timely(accepted: seq<Acceptance>)
  {
    forall i | 0 <= i < |accepted| && accepted[i].TotpAccepted? :: Near(accepted[i].counter, accepted[i].at)
  }

  /** Nothing has been accepted under a secret that is still pending. */
  ghost predicate Unused(accepted: seq<Acceptance>, secret: Secret)
  {
    forall i | 0 <= i < |accepted| :: accepted[i].secret != secret
  }

  /** The credential remembers the last step, and the codes which of them were used. */
  ghost predicate Remembered(accepted: seq<Acceptance>, secret: Secret, lastUsed: nat, codes: map<string, bool>)
  {
    forall i | 0 <= i < |accepted| && accepted[i].secret == secret ::
      match accepted[i]
      case TotpAccepted(_, counter, _, _) => counter <= lastUsed
      case RecoveryAccepted(_, hash, _) => hash in codes && codes[hash]
  }

  ghost predicate UserOk(accepted: seq<Acceptance>, user: S.UserId, c: Credential, codes: map<string, bool>,
                         serial: nat)
  {
    && (c.pending.Some? ==> var p := c.pending.value.secret;
          p.user == user && p.serial < serial && c.secret != Some(p) && Unused(accepted, p))
    && (c.secret.Some? ==> var k := c.secret.value;
          k.user == user && k.serial < serial && c.lastUsed.Some? && Remembered(accepted, k, c.lastUsed.value, codes))
  }

  ghost predicate UsersOk(st: State)
  {
    forall u :: UserOk(st.accepted, u, CredentialOf(st, u), CodesOf(st, u), st.serial)
  }

  ghost predicate SerialsOk(st: State)
  {
    && (forall i | 0 <= i < |st.accepted| :: st.accepted[i].secret.serial < st.serial)
    && (forall i | 0 <= i < |st.confirming| ::
        Near(st.confirming[i].confirming.counter, st.confirming[i].confirming.now))
  }

  ghost predicate Counted(c: Config, st: State)
    requires R.Configured(c.limits)
  {
    st.buckets == R.After(c.limits, st.attempts)
  }

  /** The attempt at this place of the history was within the limit. */
  predicate PassedAt(c: Config, attempts: seq<R.Attempt>, k: nat)
    requires R.Configured(c.limits)
  {
    k < |attempts| && R.Passes(c.limits, R.After(c.limits, attempts[..k]), attempts[k])
  }

  /** Whatever was accepted, or is about to be, was an attempt of its own within the limit. */
  ghost predicate Charged(c: Config, st: State)
    requires R.Configured(c.limits)
  {
    && (forall i | 0 <= i < |st.accepted| :: PassedAt(c, st.attempts, st.accepted[i].attempt))
    && (forall i | 0 <= i < |st.confirming| :: PassedAt(c, st.attempts, st.confirming[i].attempt))
    && (forall i, j | 0 <= i < j < |st.accepted| :: st.accepted[i].attempt != st.accepted[j].attempt)
    && (forall i, j | 0 <= i < j < |st.confirming| :: st.confirming[i].attempt != st.confirming[j].attempt)
    && (forall i, j | 0 <= i < |st.accepted| && 0 <= j < |st.confirming|
        && st.accepted[i].attempt == st.confirming[j].attempt ::
          st.accepted[i].secret == st.confirming[j].confirming.secret)
  }

  ghost predicate HistoryOk(accepted: seq<Acceptance>) { Forward(accepted) && Once(accepted) && Timely(accepted) }

  ghost predicate Inv(c: Config, st: State)
    requires R.Configured(c.limits)
  {
    HistoryOk(st.accepted) && UsersOk(st) && SerialsOk(st) && Counted(c, st) && Charged(c, st)
  }

  // ----- Accepting -------------------------------------------------------------------------------

  /** The acceptance continues the history. */
  ghost predicate Continues(accepted: seq<Acceptance>, a: Acceptance)
  {
    match a
    case TotpAccepted(secret, counter, at, _) =>
      && Near(counter, at)
      && forall i | 0 <= i < |accepted| && accepted[i].TotpAccepted? && accepted[i].secret == secret ::
        accepted[i].counter < counter
    case RecoveryAccepted(secret, hash, _) =>
      forall i | 0 <= i < |accepted| && accepted[i].RecoveryAccepted? && accepted[i].secret == secret ::
        accepted[i].hash != hash
  }

  lemma HistoryExtends(accepted: seq<Acceptance>, a: Acceptance)
    requires HistoryOk(accepted) && Continues(accepted, a)
    ensures HistoryOk(accepted + [a])
  {
  }

  /** An acceptance under another user's secret does not concern a user. */
  lemma OtherUser(accepted: seq<Acceptance>, a: Acceptance, user: S.UserId, c: Credential, codes: map<string, bool>,
                  serial: nat, serial': nat)
    requires UserOk(accepted, user, c, codes, serial) && serial <= serial'
    requires a.secret.user != user
    ensures UserOk(accepted, user, c, codes, serial') && UserOk(accepted + [a], user, c, codes, serial')
  {
  }

  /** After an acceptance under the active secret, for the user it belongs to. */
  lemma OwnUser(accepted: seq<Acceptance>, a: Acceptance, user: S.UserId, c: Credential, codes: map<string, bool>,
                c': Credential, codes': map<string, bool>, serial: nat)
    requires UserOk(accepted, user, c, codes, serial) && c.secret == Some(a.secret) && c'.secret == c.secret
      && c'.pending == c.pending
    requires c'.lastUsed.Some? && c'.lastUsed.value >= c.lastUsed.value
    requires forall h | h in codes && codes[h] :: h in codes' && codes'[h]
    requires match a
      case TotpAccepted(_, counter, _, _) => counter <= c'.lastUsed.value
      case RecoveryAccepted(_, hash, _) => hash in codes' && codes'[hash]
    ensures UserOk(accepted + [a], user, c', codes', serial)
  {
    var next := accepted + [a];
    forall i | 0 <= i < |next| && next[i].secret == a.secret
      ensures match next[i]
        case TotpAccepted(_, counter, _, _) => counter <= c'.lastUsed.value
        case RecoveryAccepted(_, hash, _) => hash in codes' && codes'[hash]
    {
      if i < |accepted| { assert accepted[i] == next[i]; }
    }
  }

  lemma NearStep(totp: Totp, secret: Secret, code: string, now: int)
    ensures VerifyTotp(totp, secret, code, now).Some? ==> Near(VerifyTotp(totp, secret, code, now).value, now)
  {
  }

  /** A code is recognised exactly when some step of the window shows it, and the earliest such step is taken. */
  lemma ShownExactly(totp: Totp, secret: Secret, code: string, now: int)
    ensures VerifyTotp(totp, secret, code, now).Some? <==>
      SixDigits(code) && exists step: nat :: Near(step, now) && Shows(totp, secret, code, step)
    ensures VerifyTotp(totp, secret, code, now).Some? ==>
      var first := VerifyTotp(totp, secret, code, now).value;
      Near(first, now) && Shows(totp, secret, code, first)
        && forall step: nat | Near(step, now) && Shows(totp, secret, code, step) :: first <= step
  {
    var r := VerifyTotp(totp, secret, code, now);
    if r.Some? { assert Near(r.value, now) && Shows(totp, secret, code, r.value); }
  }

  /** A secret that has just been drawn has never been pending, active or accepted. */
  lemma SerialIsFresh(c: Config, st: State, user: S.UserId)
    requires R.Configured(c.limits) && Inv(c, st)
    ensures var secret := Secret(user, st.serial);
      && Unused(st.accepted, secret)
      && forall u :: CredentialOf(st, u).secret != Some(secret)
           && (CredentialOf(st, u).pending.Some? ==> CredentialOf(st, u).pending.value.secret != secret)
  {
    forall u ensures CredentialOf(st, u).secret != Some(Secret(user, st.serial))
      && (CredentialOf(st, u).pending.Some? ==> CredentialOf(st, u).pending.value.secret != Secret(user, st.serial))
    {
      assert UserOk(st.accepted, u, CredentialOf(st, u), CodesOf(st, u), st.serial);
    }
  }

  /** Only one user's credential and codes change, and at most one acceptance under their secret is added. */
  ghost predicate OneUser(st: State, st': State, user: S.UserId)
  {
    && (forall u | u != user :: CredentialOf(st', u) == CredentialOf(st, u) && CodesOf(st', u) == CodesOf(st, u))
    && st.serial <= st'.serial
    && (st'.accepted == st.accepted
        || (|st'.accepted| == |st.accepted| + 1 && st'.accepted[..|st.accepted|] == st.accepted
            && st'.accepted[|st.accepted|].secret.user == user))
  }

  lemma UsersKept(st: State, st': State, user: S.UserId)
    requires UsersOk(st) && OneUser(st, st', user)
    requires UserOk(st'.accepted, user, CredentialOf(st', user), CodesOf(st', user), st'.serial)
    ensures UsersOk(st')
  {
    hide UserOk;
    forall u ensures UserOk(st'.accepted, u, CredentialOf(st', u), CodesOf(st', u), st'.serial) {
      if u != user {
        assert UserOk(st.accepted, u, CredentialOf(st, u), CodesOf(st, u), st.serial);
        var other := RecoveryAccepted(Secret(user, 0), "", 0);
        OtherUser(st.accepted, other, u, CredentialOf(st, u), CodesOf(st, u), st.serial, st'.serial);
        if st'.accepted != st.accepted {
          var a := st'.accepted[|st.accepted|];
          assert st'.accepted == st.accepted + [a];
          OtherUser(st.accepted, a, u, CredentialOf(st, u), CodesOf(st, u), st.serial, st'.serial);
        }
      }
    }
  }

  // ----- Every step keeps the invariant ----------------------------------------------------------

  /** More attempts leave the earlier ones as they were. */
  lemma LongerHistory(c: Config, attempts: seq<R.Attempt>, attempt: R.Attempt, k: nat)
    requires R.Configured(c.limits) && k < |attempts|
    ensures PassedAt(c, attempts + [attempt], k) <==> PassedAt(c, attempts, k)
  {
    assert (attempts + [attempt])[..k] == attempts[..k];
  }

  lemma ChargedAfter(c: Config, st: State, st': State, attempt: R.Attempt)
    requires R.Configured(c.limits) && Charged(c, st)
    requires st'.attempts == st.attempts + [attempt] && st'.accepted == st.accepted && st'.confirming == st.confirming
    ensures Charged(c, st')
  {
    hide PassedAt;
    forall i | 0 <= i < |st.accepted| ensures PassedAt(c, st'.attempts, st.accepted[i].attempt) {
      PlaceInHistory(c, st.attempts, st.accepted[i].attempt);
      LongerHistory(c, st.attempts, attempt, st.accepted[i].attempt);
    }
    forall i | 0 <= i < |st.confirming| ensures PassedAt(c, st'.attempts, st.confirming[i].attempt) {
      PlaceInHistory(c, st.attempts, st.confirming[i].attempt);
      LongerHistory(c, st.attempts, attempt, st.confirming[i].attempt);
    }
  }

  lemma PlaceInHistory(c: Config, attempts: seq<R.Attempt>, k: nat)
    requires R.Configured(c.limits) && PassedAt(c, attempts, k)
    ensures k < |attempts|
  {
  }

  lemma BeginKeeps(c: Config, st: State, users: S.Users, user: S.UserId, now: int)
    requires R.Configured(c.limits) && Inv(c, st)
    ensures Inv(c, Begin(st, users, user, now))
  {
    hide PassedAt, HistoryOk;
    var st' := Begin(st, users, user, now);
    if S.Enabled(users, user) {
      assert UserOk(st.accepted, user, CredentialOf(st, user), CodesOf(st, user), st.serial);
      assert CredentialOf(st', user).secret == CredentialOf(st, user).secret;
      assert Unused(st.accepted, Secret(user, st.serial));
      assert Charged(c, st');
      hide Charged;
      UsersKept(st, st', user);
    }
  }

  lemma ConsumeKeeps(c: Config, st: State, identifier: string, now: int)
    requires R.Configured(c.limits) && Inv(c, st)
    ensures Inv(c, Consume(c, st, identifier, now))
    ensures Allowed(c, st, identifier, now) ==> PassedAt(c, Consume(c, st, identifier, now).attempts, |st.attempts|)
  {
    hide HistoryOk, UserOk, Charged;
    var st' := Consume(c, st, identifier, now);
    assert st'.attempts[..|st.attempts|] == st.attempts;
    ChargedAfter(c, st, st', R.Attempt(R.MfaVerify, identifier, now));
    forall u ensures UserOk(st'.accepted, u, CredentialOf(st', u), CodesOf(st', u), st'.serial) {
      assert UserOk(st.accepted, u, CredentialOf(st, u), CodesOf(st, u), st.serial);
    }
  }

  lemma EarlierPlaces(c: Config, st: State)
    requires R.Configured(c.limits) && Charged(c, st)
    ensures forall i | 0 <= i < |st.accepted| :: st.accepted[i].attempt < |st.attempts|
    ensures forall i | 0 <= i < |st.confirming| :: st.confirming[i].attempt < |st.attempts|
  {
  }

  lemma ConfirmReadKeeps(c: Config, st: State, user: S.UserId, code: string, identifier: string, limitNow: int,
                         now: int)
    requires R.Configured(c.limits) && Inv(c, st)
    ensures Inv(c, ConfirmRead(c, st, user, code, identifier, limitNow, now))
  {
    hide HistoryOk, UserOk, VerifyTotp, PassedAt, Counted;
    EarlierPlaces(c, st);
    ConsumeKeeps(c, st, identifier, limitNow);
    var counted, st' := Consume(c, st, identifier, limitNow), ConfirmRead(c, st, user, code, identifier, limitNow, now);
    if Confirmable(c, st, user, code, now) { NearStep(c.totp, CredentialOf(st, user).pending.value.secret, code, now); }
    SameCounted(c, counted, st');
    forall u ensures UserOk(st'.accepted, u, CredentialOf(st', u), CodesOf(st', u), st'.serial) {
      assert UserOk(counted.accepted, u, CredentialOf(counted, u), CodesOf(counted, u), counted.serial);
    }
  }

  lemma SameCounted(c: Config, st: State, st': State)
    requires R.Configured(c.limits) && Counted(c, st) && st'.buckets == st.buckets && st'.attempts == st.attempts
    ensures Counted(c, st')
  {
  }

  lemma ConfirmCommitKeeps(c: Config, st: State, r: Request, hashes: seq<string>)
    requires R.Configured(c.limits) && Inv(c, st) && r in st.confirming
    ensures Inv(c, ConfirmCommit(st, r, hashes))
  {
    hide S.Revoke, PassedAt;
    var st' := ConfirmCommit(st, r, hashes);
    var request, user := r.confirming, r.confirming.secret.user;
    if st'.accepted != st.accepted {
      assert UserOk(st.accepted, user, CredentialOf(st, user), CodesOf(st, user), st.serial);
      var a := TotpAccepted(request.secret, request.counter, request.now, r.attempt);
      HistoryExtends(st.accepted, a);
      assert Remembered(st'.accepted, request.secret, request.counter, CodesOf(st', user));
      CommitCharged(c, st, st', r, a);
      hide Charged, HistoryOk;
      UsersKept(st, st', user);
    }
  }

  lemma CommitCharged(c: Config, st: State, st': State, r: Request, a: Acceptance)
    requires R.Configured(c.limits) && Charged(c, st) && r in st.confirming && Unused(st.accepted, r.confirming.secret)
    requires a.attempt == r.attempt && a.secret == r.confirming.secret
    requires st'.accepted == st.accepted + [a] && st'.attempts == st.attempts && st'.confirming == st.confirming
    ensures Charged(c, st')
  {
    hide PassedAt;
    var k :| 0 <= k < |st.confirming| && st.confirming[k] == r;
  }

  lemma CheckCharged(c: Config, st: State, st': State, a: Acceptance)
    requires R.Configured(c.limits) && Charged(c, st) && PassedAt(c, st.attempts, a.attempt)
    requires forall i | 0 <= i < |st.accepted| :: st.accepted[i].attempt < a.attempt
    requires forall i | 0 <= i < |st.confirming| :: st.confirming[i].attempt < a.attempt
    requires st'.accepted == st.accepted + [a] && st'.attempts == st.attempts && st'.confirming == st.confirming
    ensures Charged(c, st')
  {
    hide PassedAt;
  }

  /** The attempt is later than every other that led to something. */
  ghost predicate Latest(st: State, attempt: nat)
  {
    && (forall i | 0 <= i < |st.accepted| :: st.accepted[i].attempt < attempt)
    && (forall i | 0 <= i < |st.confirming| :: st.confirming[i].attempt < attempt)
  }

  lemma CheckContinues(c: Config, st: State, user: S.UserId, proof: Proof, attempt: nat, now: int)
    requires R.Configured(c.limits) && Inv(c, st) && Check(c, st, user, proof, attempt, now).Some?
    ensures var st' := Check(c, st, user, proof, attempt, now).value;
      |st'.accepted| == |st.accepted| + 1 && Continues(st.accepted, st'.accepted[|st.accepted|])
  {
    hide VerifyTotp, PassedAt, HistoryOk, Charged, OneUser;
    var credential, codes := CredentialOf(st, user), CodesOf(st, user);
    assert UserOk(st.accepted, user, credential, codes, st.serial);
    NearStep(c.totp, credential.secret.value, proof.code, now);
  }

  lemma CheckOwnUser(c: Config, st: State, user: S.UserId, proof: Proof, attempt: nat, now: int)
    requires R.Configured(c.limits) && Inv(c, st) && Check(c, st, user, proof, attempt, now).Some?
    ensures var st' := Check(c, st, user, proof, attempt, now).value;
      && UserOk(st'.accepted, user, CredentialOf(st', user), CodesOf(st', user), st'.serial)
      && |st'.accepted| == |st.accepted| + 1 && st'.accepted[|st.accepted|].secret.user == user
      && st'.accepted[|st.accepted|].secret.serial < st.serial
  {
    hide VerifyTotp, PassedAt, HistoryOk, Charged, OneUser;
    var st' := Check(c, st, user, proof, attempt, now).value;
    var credential, codes := CredentialOf(st, user), CodesOf(st, user);
    assert UserOk(st.accepted, user, credential, codes, st.serial);
    var a := st'.accepted[|st.accepted|];
    OwnUser(st.accepted, a, user, credential, codes, CredentialOf(st', user), CodesOf(st', user), st.serial);
  }

  lemma CheckKeeps(c: Config, st: State, user: S.UserId, proof: Proof, attempt: nat, now: int)
    requires R.Configured(c.limits) && Inv(c, st) && Check(c, st, user, proof, attempt, now).Some?
    requires PassedAt(c, st.attempts, attempt) && Latest(st, attempt)
    ensures var st' := Check(c, st, user, proof, attempt, now).value;
      && Inv(c, st') && st'.sessions == st.sessions && |st'.accepted| == |st.accepted| + 1
      && st'.accepted[..|st.accepted|] == st.accepted && Continues(st.accepted, st'.accepted[|st.accepted|])
  {
    hide VerifyTotp, PassedAt, HistoryOk, Charged, Continues, UserOk;
    CheckContinues(c, st, user, proof, attempt, now);
    CheckOwnUser(c, st, user, proof, attempt, now);
    var st' := Check(c, st, user, proof, attempt, now).value;
    var a := st'.accepted[|st.accepted|];
    HistoryExtends(st.accepted, a);
    CheckCharged(c, st, st', a);
    UsersKept(st, st', user);
  }

  /** Deleting a credential leaves nothing to remember. */
  lemma DisabledKeeps(c: Config, st: State, session: nat, user: S.UserId, now: int)
    requires R.Configured(c.limits) && Inv(c, st)
    ensures Inv(c, Disabled(st, session, user, now))
  {
    hide HistoryOk, S.Revoke, PassedAt;
    var st' := Disabled(st, session, user, now);
    assert Charged(c, st');
    hide Charged;
    UsersKept(st, st', user);
  }

  lemma SameButSessions(c: Config, st: State, sessions: seq<S.Session>)
    requires R.Configured(c.limits) && Inv(c, st)
    ensures Inv(c, st.(sessions := sessions))
  {
    hide HistoryOk, UserOk, PassedAt;
    var st' := st.(sessions := sessions);
    forall u ensures UserOk(st'.accepted, u, CredentialOf(st', u), CodesOf(st', u), st'.serial) {
      assert UserOk(st.accepted, u, CredentialOf(st, u), CodesOf(st, u), st.serial);
    }
  }

  lemma InvCharged(c: Config, st: State)
    requires R.Configured(c.limits) && Inv(c, st)
    ensures Charged(c, st)
  {
  }

  lemma VerifyKeeps(c: Config, st: State, users: S.Users, session: nat, identifier: string, limitNow: int,
                    proof: Proof, disable: bool, now: int)
    requires R.Configured(c.limits) && Inv(c, st)
    ensures Inv(c, Verify(c, st, users, session, identifier, limitNow, proof, disable, now).0)
  {
    hide Inv, Check, Disabled, Allowed, Charged, PassedAt;
    if Active(st, users, session, now) {
      var user := st.sessions[session].user;
      var counted := Consume(c, st, identifier, limitNow);
      ConsumeKeeps(c, st, identifier, limitNow);
      InvCharged(c, st);
      EarlierPlaces(c, st);
      var checked := Check(c, counted, user, proof, |st.attempts|, now);
      if checked.Some? && Allowed(c, st, identifier, limitNow) {
        CheckKeeps(c, counted, user, proof, |st.attempts|, now);
        DisabledKeeps(c, checked.value, session, user, now);
        SameButSessions(c, checked.value, Verified(checked.value, session, now).sessions);
        assert Verified(checked.value, session, now)
          == checked.value.(sessions := Verified(checked.value, session, now).sessions);
      }
    }
  }

  lemma StepKeeps(c: Config, st: State, op: Op)
    requires R.Configured(c.limits) && Inv(c, st)
    ensures Inv(c, Apply(c, st, op))
  {
    hide Inv, Begin, ConfirmRead, ConfirmCommit, Verify;
    match op
    case BeginOp(users, user, now) => BeginKeeps(c, st, users, user, now);
    case ConfirmReadOp(user, code, identifier, limitNow, now) =>
      ConfirmReadKeeps(c, st, user, code, identifier, limitNow, now);
    case ConfirmCommitOp(request, hashes) =>
      if request < |st.confirming| { ConfirmCommitKeeps(c, st, st.confirming[request], hashes); }
    case VerifyOp(users, session, identifier, limitNow, proof, disable, now) =>
      VerifyKeeps(c, st, users, session, identifier, limitNow, proof, disable, now);
    case SessionsOp(sessions) => SameButSessions(c, st, sessions);
  }

  lemma {:induction false} RunKeeps(c: Config, st: State, ops: seq<Op>)
    requires R.Configured(c.limits) && Inv(c, st)
    ensures Inv(c, Run(c, st, ops))
    decreases ops
  {
    hide Inv, Apply;
    if ops != [] {
      StepKeeps(c, st, ops[0]);
      RunKeeps(c, Apply(c, st, ops[0]), ops[1..]);
    }
  }

  lemma FromEmpty(c: Config, ops: seq<Op>)
    requires R.Configured(c.limits)
    ensures Inv(c, Run(c, EMPTY, ops))
  {
    RunKeeps(c, EMPTY, ops);
  }

  // ----- The theorems ----------------------------------------------------------------------------

  /**
   In every run, whatever sessions are used, the time steps accepted for one enrolled secret strictly
   increase, starting from the step of the enrolment code, and each lies within one step of the time
   it was accepted at.
   */
  lemma StepsMoveForward(c: Config, ops: seq<Op>, i: nat, j: nat)
    requires R.Configured(c.limits)
    requires var accepted := Run(c, EMPTY, ops).accepted;
      i < j < |accepted| && accepted[i].TotpAccepted? && accepted[j].TotpAccepted?
        && accepted[i].secret == accepted[j].secret
    ensures var accepted := Run(c, EMPTY, ops).accepted;
      accepted[i].counter < accepted[j].counter && Near(accepted[i].counter, accepted[i].at)
        && Near(accepted[j].counter, accepted[j].at)
  {
    FromEmpty(c, ops);
  }

  /** In every run a recovery code of one enrolment is accepted at most once. */
  lemma RecoveryCodesWorkOnce(c: Config, ops: seq<Op>, i: nat, j: nat)
    requires R.Configured(c.limits)
    requires var accepted := Run(c, EMPTY, ops).accepted;
      && i < |accepted| && j < |accepted| && accepted[i].RecoveryAccepted? && accepted[j].RecoveryAccepted?
      && accepted[i].secret == accepted[j].secret && accepted[i].hash == accepted[j].hash
    ensures i == j
  {
    FromEmpty(c, ops);
  }

  /** In every run at most `2 * requests` attempts per identifier get past the limit in any window's length. */
  lemma GuessesAreBounded(c: Config, ops: seq<Op>, identifier: string, from: int)
    requires R.Configured(c.limits) && c.limits[R.MfaVerify].requests >= 0
    ensures var st := Run(c, EMPTY, ops); var limit := c.limits[R.MfaVerify];
      && st.buckets == R.After(c.limits, st.attempts)
      && R.Passed(c.limits, st.attempts,
                  R.Span(R.MfaVerify, identifier, from, from + limit.windowMs)) <= 2 * limit.requests
  {
    FromEmpty(c, ops);
    R.IntervalBound(c.limits, Run(c, EMPTY, ops).attempts, R.MfaVerify, identifier, from);
  }

  /**
   An attempt is counted exactly when a live session of a user with an enrolled secret makes it,
   whether it is then refused or accepted; what is refused changes nothing else, and only an attempt
   within the limit is ever accepted.
   */
  lemma AttemptsAreCounted(c: Config, st: State, users: S.Users, session: nat, identifier: string, limitNow: int,
                           proof: Proof, disable: bool, now: int)
    requires R.Configured(c.limits)
    ensures var (st', r) := Verify(c, st, users, session, identifier, limitNow, proof, disable, now);
      var counts := Active(st, users, session, now) && CredentialOf(st, st.sessions[session].user).secret.Some?;
      && st'.attempts == st.attempts + (if counts then [R.Attempt(R.MfaVerify, identifier, limitNow)] else [])
      && (counts ==> st'.buckets == R.Consume(c.limits, st.buckets, R.Attempt(R.MfaVerify, identifier, limitNow)))
      && (r.Err? ==> st' == st.(buckets := st'.buckets, attempts := st'.attempts))
      && (r.Err? <==> st'.accepted == st.accepted)
      && (r.Ok? ==> counts && Allowed(c, st, identifier, limitNow))
  {
    hide VerifyTotp, S.Revoke;
  }

  /** A code is accepted exactly when the first step of the window that shows it is later than the last one used. */
  lemma CodeAcceptedExactly(c: Config, st: State, user: S.UserId, code: string, attempt: nat, now: int, step: nat)
    requires CredentialOf(st, user).secret.Some? && CredentialOf(st, user).lastUsed.Some?
    requires var secret := CredentialOf(st, user).secret.value;
      SixDigits(code) && Near(step, now) && Shows(c.totp, secret, code, step)
        && step > CredentialOf(st, user).lastUsed.value
    ensures Check(c, st, user, Proof(code, None), attempt, now).Some? <==>
      !exists used: nat :: Near(used, now) && used <= CredentialOf(st, user).lastUsed.value
        && Shows(c.totp, CredentialOf(st, user).secret.value, code, used)
  {
    var secret := CredentialOf(st, user).secret.value;
    var first := VerifyTotp(c.totp, secret, code, now);
    assert first.Some? && first.value <= step;
    assert Near(first.value, now) && Shows(c.totp, secret, code, first.value);
    if first.value > CredentialOf(st, user).lastUsed.value {
      forall used: nat | Near(used, now) && Shows(c.totp, secret, code, used) ensures first.value <= used {}
    }
  }

  /** Enrolling signs the user out everywhere; disabling signs out every other session. */
  lemma EnrolmentSignsOut(st: State, request: Request, hashes: seq<string>, i: nat)
    requires i < |st.sessions| && st.sessions[i].user == request.confirming.secret.user
    requires ConfirmCommit(st, request, hashes).accepted != st.accepted
    ensures ConfirmCommit(st, request, hashes).sessions[i].revokedAt.Some?
  {
    hide S.Revoke;
    S.RevokeRows(st.sessions, SessionsOf(st.sessions, request.confirming.secret.user), request.confirming.now);
  }

  lemma DisablingSignsOutOthers(st: State, session: nat, user: S.UserId, now: int, i: nat)
    requires i < |st.sessions| && st.sessions[i].user == user && i != session
    ensures Disabled(st, session, user, now).sessions[i].revokedAt.Some?
  {
    hide S.Revoke;
    S.RevokeRows(st.sessions, SessionsOf(st.sessions, user) - {session}, now);
  }
}
