/**
 How many codes can be accepted in a given time, over every run; and a run in which a code that is new for
 the current time step is refused.
 */
module MfaBounds {
  import opened Results
  import opened Mfa
  import opened MfaRuns
  import S = Sessions
  import R = RateLimit

  // ----- Accepted codes --------------------------------------------------------------------------

  /** The attempts of the span that were within the limit. */
  function PassedPlaces(c: Config, attempts: seq<R.Attempt>, s: R.Span): set<nat>
    requires R.Configured(c.limits)
  {
    set k: nat | k < |attempts| && R.In(attempts[k], s) && PassedAt(c, attempts, k)
  }

  lemma {:induction false} PassedPlacesCount(c: Config, attempts: seq<R.Attempt>, s: R.Span)
    requires R.Configured(c.limits)
    ensures |PassedPlaces(c, attempts, s)| == R.Passed(c.limits, attempts, s)
  {
    hide PassedAt, R.After, R.Passes, R.In;
    if attempts != [] {
      var n := |attempts| - 1;
      PassedPlacesCount(c, attempts[..n], s);
      LastPlace(c, attempts, s);
    } else {
      assert PassedPlaces(c, attempts, s) == {};
    }
  }

  lemma LastPlace(c: Config, attempts: seq<R.Attempt>, s: R.Span)
    requires R.Configured(c.limits) && attempts != []
    ensures var earlier, last := attempts[..|attempts| - 1], attempts[|attempts| - 1];
      |PassedPlaces(c, attempts, s)| == |PassedPlaces(c, earlier, s)|
        + if R.In(last, s) && R.Passes(c.limits, R.After(c.limits, earlier), last) then 1 else 0
  {
    var n := |attempts| - 1;
    var earlier, last := attempts[..n], attempts[n];
    var passes := R.In(last, s) && R.Passes(c.limits, R.After(c.limits, earlier), last);
    assert PassedAt(c, attempts, n) <==> R.Passes(c.limits, R.After(c.limits, earlier), last);
    hide PassedAt, R.After, R.Passes, R.In;
    assert attempts == earlier + [last];
    forall k: nat | k < n ensures PassedAt(c, attempts, k) <==> PassedAt(c, earlier, k) {
      LongerHistory(c, earlier, last, k);
    }
    var places, before := PassedPlaces(c, attempts, s), PassedPlaces(c, earlier, s);
    assert places == before + if passes then {n} else {};
    assert n !in before;
  }

  /** The attempts of the span that led to an acceptance, one for each acceptance. */
  function AcceptedPlaces(accepted: seq<Acceptance>, attempts: seq<R.Attempt>, s: R.Span): set<nat>
  {
    if accepted == [] then {} else
    var earlier, k := AcceptedPlaces(accepted[..|accepted| - 1], attempts, s), accepted[|accepted| - 1].attempt;
    if k < |attempts| && R.In(attempts[k], s) then earlier + {k} else earlier
  }

  /** How many codes were accepted on attempts of the span. */
  function AcceptedIn(accepted: seq<Acceptance>, attempts: seq<R.Attempt>, s: R.Span): nat
  {
    if accepted == [] then 0 else
    var k := accepted[|accepted| - 1].attempt;
    AcceptedIn(accepted[..|accepted| - 1], attempts, s) + if k < |attempts| && R.In(attempts[k], s) then 1 else 0
  }

  lemma {:induction false} AcceptedPlacesCount(accepted: seq<Acceptance>, attempts: seq<R.Attempt>, s: R.Span)
    requires forall i, j | 0 <= i < j < |accepted| :: accepted[i].attempt != accepted[j].attempt
    ensures |AcceptedPlaces(accepted, attempts, s)| == AcceptedIn(accepted, attempts, s)
    ensures forall k | k in AcceptedPlaces(accepted, attempts, s) ::
      k < |attempts| && R.In(attempts[k], s) && exists i | 0 <= i < |accepted| :: accepted[i].attempt == k
  {
    if accepted != [] {
      var n := |accepted| - 1;
      var earlier := accepted[..n];
      AcceptedPlacesCount(earlier, attempts, s);
      forall k | k in AcceptedPlaces(earlier, attempts, s)
        ensures k != accepted[n].attempt && exists i | 0 <= i < |accepted| :: accepted[i].attempt == k
      {
        var i :| 0 <= i < |earlier| && earlier[i].attempt == k;
        assert accepted[i] == earlier[i];
      }
    }
  }

  lemma {:induction false} SubsetSize(a: set<nat>, b: set<nat>)
    requires a <= b
    ensures |a| <= |b|
  {
    if a != {} {
      var x :| x in a;
      SubsetSize(a - {x}, b - {x});
    }
  }

  /**
   In every run, at most `2 * requests` codes and recovery codes are accepted per identifier on attempts
   made within a window's length, enrolment codes included.
   */
  lemma AcceptancesAreBounded(c: Config, ops: seq<Op>, identifier: string, from: int)
    requires R.Configured(c.limits) && c.limits[R.MfaVerify].requests >= 0
    ensures var st, limit := Run(c, EMPTY, ops), c.limits[R.MfaVerify];
      AcceptedIn(st.accepted, st.attempts,
                 R.Span(R.MfaVerify, identifier, from, from + limit.windowMs)) <= 2 * limit.requests
  {
    hide Run, Inv, R.Passed, PassedAt, R.In, AcceptedIn, AcceptedPlaces;
    var st, limit := Run(c, EMPTY, ops), c.limits[R.MfaVerify];
    var s := R.Span(R.MfaVerify, identifier, from, from + limit.windowMs);
    FromEmpty(c, ops);
    InvCharged(c, st);
    AcceptedPlacesCount(st.accepted, st.attempts, s);
    PassedPlacesCount(c, st.attempts, s);
    forall k | k in AcceptedPlaces(st.accepted, st.attempts, s) ensures k in PassedPlaces(c, st.attempts, s) {
      var i :| 0 <= i < |st.accepted| && st.accepted[i].attempt == k;
    }
    SubsetSize(AcceptedPlaces(st.accepted, st.attempts, s), PassedPlaces(c, st.attempts, s));
    R.IntervalBound(c.limits, st.attempts, R.MfaVerify, identifier, from);
  }

  // ----- A fresh code that is refused ------------------------------------------------------------

  const CODE := "123456"

  /** Steps 9 and 10 happen to show the same code. */
  const TWICE: Totp := (secret, step) => if step == 9 || step == 10 then CODE else "000000"

  const LIMITS: R.Limits :=
    map[R.Login := R.Limit(10, 60_000), R.InviteAccept := R.Limit(10, 900_000), R.MfaVerify := R.Limit(5, 300_000)]

  const CONFIG := Config(TWICE, LIMITS)

  const USERS: S.Users := map[0 := S.User(false, false, false)]

  const SESSION := S.Session(0, None, None, None, 1_000_000, None)

  /** The user enrols with the code of step 9 and signs in. */
  const ENROLS: seq<Op> :=
    [BeginOp(USERS, 0, 0), ConfirmReadOp(0, CODE, "enrollment:0", 270_000, 270_000), ConfirmCommitOp(0, []),
     SessionsOp([SESSION])]

  lemma AllConfigured()
    ensures R.Configured(LIMITS)
  {
    forall a: R.Action ensures a in LIMITS && LIMITS[a].windowMs > 0 {
      match a
      case Login =>
      case InviteAccept =>
      case MfaVerify =>
    }
  }

  lemma CodeOfStepNine()
    ensures VerifyTotp(TWICE, Secret(0, 0), CODE, 270_000) == Some(9)
    ensures VerifyTotp(TWICE, Secret(0, 0), CODE, 300_000) == Some(9)
    ensures Shows(TWICE, Secret(0, 0), CODE, 10) && TimeStep(300_000) == 10
  {
    assert TimeStep(270_000) == 9 && TimeStep(300_000) == 10;
    assert SixDigits(CODE);
    assert CODE != "000000" by { assert CODE[0] != "000000"[0]; }
  }

  const BEGUN := Begin(EMPTY, USERS, 0, 0)

  const REQUEST := Request(Confirming(Secret(0, 0), 9, 270_000), 0)

  lemma ReadStep()
    requires R.Configured(LIMITS)
    ensures var st := ConfirmRead(CONFIG, BEGUN, 0, CODE, "enrollment:0", 270_000, 270_000);
      && st.confirming == [REQUEST] && st.credentials == BEGUN.credentials && st.sessions == [] && st.accepted == []
      && st.credentials == map[0 := Credential(None, None, Some(Pending(Secret(0, 0), 900_000)))]
      && st.buckets.Keys == {R.KeyOf(LIMITS, R.Attempt(R.MfaVerify, "enrollment:0", 270_000))}
  {
    hide R.WindowStart, VerifyTotp;
    CodeOfStepNine();
  }

  lemma CommitStep(st: State)
    requires st.credentials == map[0 := Credential(None, None, Some(Pending(Secret(0, 0), 900_000)))]
    ensures var st' := ConfirmCommit(st, REQUEST, []);
      st'.credentials == map[0 := Credential(Some(Secret(0, 0)), Some(9), None)] && st'.buckets == st.buckets
  {
    hide S.Revoke;
  }

  lemma RunOfEnrols()
    requires R.Configured(LIMITS)
    ensures var st := ConfirmRead(CONFIG, BEGUN, 0, CODE, "enrollment:0", 270_000, 270_000);
      && st.confirming == [REQUEST]
      && Run(CONFIG, EMPTY, ENROLS) == ConfirmCommit(st, REQUEST, []).(sessions := [SESSION])
  {
    hide ConfirmRead, ConfirmCommit, Begin;
    ReadStep();
    var st := ConfirmRead(CONFIG, BEGUN, 0, CODE, "enrollment:0", 270_000, 270_000);
    assert ENROLS[1..][0] == ENROLS[1] && ENROLS[1..][1..][0] == ENROLS[2] && ENROLS[1..][1..][1..] == [ENROLS[3]];
    assert [ENROLS[3]][1..] == [];
    var done := ConfirmCommit(st, REQUEST, []);
    assert Run(CONFIG, EMPTY, ENROLS) == Run(CONFIG, BEGUN, ENROLS[1..]);
    assert Run(CONFIG, BEGUN, ENROLS[1..]) == Run(CONFIG, st, ENROLS[1..][1..]);
    assert Run(CONFIG, st, ENROLS[1..][1..]) == Run(CONFIG, done, [ENROLS[3]]);
    assert Run(CONFIG, done, [ENROLS[3]]) == done.(sessions := [SESSION]);
  }

  lemma Enrolled()
    requires R.Configured(LIMITS)
    ensures var st := Run(CONFIG, EMPTY, ENROLS);
      && st.credentials == map[0 := Credential(Some(Secret(0, 0)), Some(9), None)] && st.sessions == [SESSION]
      && st.buckets.Keys == {R.KeyOf(LIMITS, R.Attempt(R.MfaVerify, "enrollment:0", 270_000))}
  {
    hide Run, ConfirmRead, ConfirmCommit, R.KeyOf;
    ReadStep();
    RunOfEnrols();
    CommitStep(ConfirmRead(CONFIG, BEGUN, 0, CODE, "enrollment:0", 270_000, 270_000));
  }

  /** The code of the current step, never used before, is refused because the used step before it shows it too. */
  lemma CollidingCodeRefused()
    ensures R.Configured(LIMITS)
    ensures var st := Run(CONFIG, EMPTY, ENROLS);
      && CredentialOf(st, 0).lastUsed == Some(9) && Shows(TWICE, Secret(0, 0), CODE, 10) && TimeStep(300_000) == 10
      && Verify(CONFIG, st, USERS, 0, "session:x", 300_000, Proof(CODE, None), false, 300_000).1 == Err(InvalidMfa)
  {
    hide Run, VerifyTotp, R.WindowStart;
    AllConfigured();
    CodeOfStepNine();
    Enrolled();
    var st := Run(CONFIG, EMPTY, ENROLS);
    assert Allowed(CONFIG, st, "session:x", 300_000);
  }
}
