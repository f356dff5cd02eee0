/**
 Operator sessions: issuing, authorising, impersonation and revocation, with the two database
 triggers that guard a session's parent.

 A session is named by its position in the table. Users may change between any two steps, so every
 step that reads them is given what it reads. A request authorises first and runs its transaction
 later: the authorisations handed out so far are kept, and any of them may be used at any time.
 */
module Sessions {
  import opened Results

  type UserId = nat

  datatype User = User(disabled: bool, platformOperator: bool, mfaEnabled: bool)

  type Users = map<UserId, User>

  datatype Session = Session(
    user: UserId, impersonated: Option<UserId>, parent: Option<nat>,
    mfaVerifiedAt: Option<int>, expiresAt: int, revokedAt: Option<int>)

  datatype Authorization = Authorization(
    session: nat, actor: UserId, effective: UserId, impersonating: bool, expiresAt: int, mfaVerifiedAt: Option<int>)

  datatype Error = Unauthorized | Revoked | Expired | MfaRequired | ParentInactive | Forbidden | ParentRejected

  // ----- Authorising -----------------------------------------------------------------------------

  predicate Live(s: Session, now: int) { s.revokedAt.None? && now < s.expiresAt }

  predicate ParentActive(table: seq<Session>, s: Session, now: int)
  {
    s.parent.Some? ==>
      && s.parent.value < |table|
      && table[s.parent.value].user == s.user
      && table[s.parent.value].impersonated.None?
      && Live(table[s.parent.value], now)
  }

  predicate Enabled(users: Users, user: UserId) { user in users && !users[user].disabled }

  function Authorize(table: seq<Session>, users: Users, id: nat, now: int): Result<Authorization, Error>
  {
    if id >= |table| then Err(Unauthorized) else
    var s := table[id];
    if !Enabled(users, s.user) then Err(Unauthorized)
    else if s.revokedAt.Some? then Err(Revoked)
    else if s.expiresAt <= now then Err(Expired)
    else if users[s.user].mfaEnabled && s.mfaVerifiedAt.None? then Err(MfaRequired)
    else if !ParentActive(table, s, now) then Err(ParentInactive)
    else if s.impersonated.Some? && !(users[s.user].platformOperator && Enabled(users, s.impersonated.value))
      then Err(Unauthorized)
    else
      var effective := if s.impersonated.Some? then s.impersonated.value else s.user;
      Ok(Authorization(id, s.user, effective, s.impersonated.Some?, s.expiresAt, s.mfaVerifiedAt))
  }

  // ----- Changing the table ----------------------------------------------------------------------

  /** The insert trigger: a parent must be active, of the same user, and not expire before its child. */
  predicate ParentAccepted(table: seq<Session>, s: Session)
  {
    s.parent.Some? ==>
      && s.parent.value < |table|
      && table[s.parent.value].user == s.user
      && table[s.parent.value].impersonated.None?
      && table[s.parent.value].revokedAt.None?
      && table[s.parent.value].expiresAt >= s.expiresAt
  }

  function Insert(table: seq<Session>, s: Session): Result<seq<Session>, Error>
  {
    if ParentAccepted(table, s) then Ok(table + [s]) else Err(ParentRejected)
  }

  /** The update trigger: a session whose parent has just been revoked is revoked with it. */
  predicate Falls(before: seq<Session>, after: seq<Session>, ids: set<nat>, i: nat)
    requires i < |before|
  {
    var s := before[i];
    s.revokedAt.None? && (i in ids || (s.parent.Some? && s.parent.value < i && s.parent.value < |after|
      && before[s.parent.value].revokedAt.None? && after[s.parent.value].revokedAt.Some?))
  }

  /** Revokes the sessions in `ids` that are not revoked yet; parents come before their children. */
  function Revoke(table: seq<Session>, ids: set<nat>, now: int): (r: seq<Session>)
    ensures |r| == |table|
  {
    if table == [] then [] else
    var last := |table| - 1;
    var earlier := Revoke(table[..last], ids, now);
    earlier + [if Falls(table, earlier, ids, last) then table[last].(revokedAt := Some(now)) else table[last]]
  }

  function IssueSession(table: seq<Session>, user: UserId, expiresAt: int,
                        mfa: Option<int>): Result<seq<Session>, Error>
  {
    Insert(table, Session(user, None, None, mfa, expiresAt, None))
  }

  /** `startImpersonation` after its authorisation. */
  function Start(table: seq<Session>, users: Users, a: Authorization, target: UserId): Result<seq<Session>, Error>
  {
    if a.impersonating then Err(Forbidden)
    else if !(a.actor in users && users[a.actor].platformOperator && Enabled(users, target)) then Err(Forbidden)
    else Insert(table, Session(a.actor, Some(target), Some(a.session), a.mfaVerifiedAt, a.expiresAt, None))
  }

  /** The update is unconditional: an earlier revocation is stamped again, without a second cascade. */
  function Stopped(table: seq<Session>, id: nat, now: int): seq<Session>
    requires id < |table|
  {
    var cascaded := Revoke(table, {id}, now);
    cascaded[id := cascaded[id].(revokedAt := Some(now))]
  }

  /** `stopImpersonation` after its authorisation. */
  function Stop(table: seq<Session>, a: Authorization, now: int): Result<seq<Session>, Error>
  {
    if !a.impersonating then Err(Forbidden)
    else if a.session >= |table| || table[a.session].parent.None? then Err(Forbidden)
    else
      var parent := table[a.session].parent.value;
      if parent >= |table| || table[parent].user != a.actor || table[parent].impersonated.Some?
        || !Live(table[parent], now) then
        Err(ParentInactive)
      else
        Insert(Stopped(table, a.session, now), Session(a.actor, None, Some(parent), a.mfaVerifiedAt, a.expiresAt, None))
  }

  // ----- Runs ------------------------------------------------------------------------------------

  datatype System = System(table: seq<Session>, granted: seq<Authorization>)

  const EMPTY := System([], [])

  datatype Op =
    | IssueOp(user: UserId, expiresAt: int, mfa: Option<int>)
    | AuthorizeOp(users: Users, id: nat, now: int)
    | StartOp(users: Users, grant: nat, target: UserId)
    | StopOp(grant: nat, now: int)
    | RevokeOp(ids: set<nat>, now: int)
    | MfaOp(id: nat, mfa: Option<int>)

  /** A failed step changes nothing. */
  function Committed(table: seq<Session>, r: Result<seq<Session>, Error>): seq<Session>
  {
    if r.Ok? then r.value else table
  }

  function Apply(s: System, op: Op): System
  {
    match op
    case IssueOp(user, expiresAt, mfa) => s.(table := Committed(s.table, IssueSession(s.table, user, expiresAt, mfa)))
    case AuthorizeOp(users, id, now) =>
      var a := Authorize(s.table, users, id, now);
      if a.Ok? then s.(granted := s.granted + [a.value]) else s
    case StartOp(users, grant, target) =>
      if grant < |s.granted| then s.(table := Committed(s.table, Start(s.table, users, s.granted[grant], target)))
        else s
    case StopOp(grant, now) =>
      if grant < |s.granted| then s.(table := Committed(s.table, Stop(s.table, s.granted[grant], now))) else s
    case RevokeOp(ids, now) => s.(table := Revoke(s.table, ids, now))
    case MfaOp(id, mfa) => if id < |s.table| then s.(table := s.table[id := s.table[id].(mfaVerifiedAt := mfa)]) else s
  }

  function Run(s: System, ops: seq<Op>): System
    decreases ops
  {
    if ops == [] then s else Run(Apply(s, ops[0]), ops[1..])
  }

  // ----- The invariant ---------------------------------------------------------------------------

  /** A session and its parent. */
  predicate ChildOf(child: Session, parent: Session)
  {
    && child.user == parent.user && child.expiresAt == parent.expiresAt && parent.impersonated.None?
    && (child.revokedAt.None? ==> parent.revokedAt.None?)
  }

  ghost predicate SessionOk(table: seq<Session>, i: nat)
    requires i < |table|
  {
    && (table[i].parent.Some? ==> table[i].parent.value < i && ChildOf(table[i], table[table[i].parent.value]))
    && (table[i].impersonated.Some? ==> table[i].parent.Some?)
  }

  ghost predicate TableOk(table: seq<Session>) { forall i | 0 <= i < |table| :: SessionOk(table, i) }

  /** An authorisation agrees with its session in everything that never changes. */
  predicate GrantOk(table: seq<Session>, a: Authorization)
  {
    && a.session < |table|
    && a.actor == table[a.session].user && a.expiresAt == table[a.session].expiresAt
    && a.effective == (if table[a.session].impersonated.Some? then table[a.session].impersonated.value else a.actor)
    && (a.impersonating <==> table[a.session].impersonated.Some?)
  }

  ghost predicate Inv(s: System)
  {
    TableOk(s.table) && forall k | 0 <= k < |s.granted| :: GrantOk(s.table, s.granted[k])
  }

  /** Rows are never removed; only `revokedAt` and `mfaVerifiedAt` change, and revoked stays revoked. */
  predicate RowKept(before: Session, after: Session)
  {
    && after == before.(revokedAt := after.revokedAt, mfaVerifiedAt := after.mfaVerifiedAt)
    && (before.revokedAt.Some? ==> after.revokedAt.Some?)
  }

  ghost predicate Extends(before: seq<Session>, after: seq<Session>)
  {
    |before| <= |after| && forall i | 0 <= i < |before| :: RowKept(before[i], after[i])
  }

  // ----- Revocation ------------------------------------------------------------------------------

  /** Row by row, what revocation does; the cascade leaves no live child of a revoked parent. */
  lemma {:induction false} RevokeRows(table: seq<Session>, ids: set<nat>, now: int)
    ensures var r := Revoke(table, ids, now);
      forall i | 0 <= i < |table| ::
        && (r[i] == table[i] || (table[i].revokedAt.None? && r[i] == table[i].(revokedAt := Some(now))))
        && (r[i].revokedAt.Some? <==> table[i].revokedAt.Some? || Falls(table, r[..i], ids, i))
  {
    if table != [] {
      var last := |table| - 1;
      var init, r := table[..last], Revoke(table, ids, now);
      var earlier := Revoke(init, ids, now);
      RevokeRows(init, ids, now);
      assert r[..last] == earlier;
      forall i | 0 <= i < last ensures r[i] == earlier[i] && table[i] == init[i] && r[..i] == earlier[..i] {}
      forall i | 0 <= i < |table|
        ensures r[i] == table[i] || (table[i].revokedAt.None? && r[i] == table[i].(revokedAt := Some(now)))
        ensures r[i].revokedAt.Some? <==> table[i].revokedAt.Some? || Falls(table, r[..i], ids, i)
      {
        if i < last { assert Falls(init, earlier[..i], ids, i) <==> Falls(table, r[..i], ids, i); }
      }
    }
  }

  lemma RevokeKeeps(table: seq<Session>, ids: set<nat>, now: int)
    requires TableOk(table)
    ensures TableOk(Revoke(table, ids, now)) && Extends(table, Revoke(table, ids, now))
    ensures forall i | i in ids && i < |table| :: Revoke(table, ids, now)[i].revokedAt.Some?
  {
    hide Revoke;
    var r := Revoke(table, ids, now);
    RevokeRows(table, ids, now);
    forall i | 0 <= i < |r| ensures SessionOk(r, i) {
      assert SessionOk(table, i);
      if table[i].parent.Some? {
        var p := table[i].parent.value;
        assert r[..i][p] == r[p];
        assert Falls(table, r[..i], ids, i) <==>
          table[i].revokedAt.None? && (i in ids || (table[p].revokedAt.None? && r[p].revokedAt.Some?));
      }
    }
  }

  // ----- Every step keeps the invariant ----------------------------------------------------------

  /** A child made for its parent's user and with its parent's expiry, under an active parent. */
  lemma InsertKeeps(table: seq<Session>, s: Session)
    requires TableOk(table)
    requires s.parent.Some? ==> s.parent.value < |table| && ChildOf(s, table[s.parent.value])
    requires s.impersonated.Some? ==> s.parent.Some?
    ensures TableOk(table + [s]) && Extends(table, table + [s])
  {
    var next := table + [s];
    forall i | 0 <= i < |next| ensures SessionOk(next, i) {
      if i < |table| {
        assert SessionOk(table, i);
        assert next[i] == table[i];
        assert table[i].parent.Some? ==> next[table[i].parent.value] == table[table[i].parent.value];
      }
    }
  }

  /** With a valid authorisation, starting succeeds exactly when its session has not been revoked since. */
  lemma StartExactly(table: seq<Session>, users: Users, a: Authorization, target: UserId)
    requires TableOk(table) && GrantOk(table, a)
    ensures Start(table, users, a, target).Ok? <==>
      && !a.impersonating && a.actor in users && users[a.actor].platformOperator && Enabled(users, target)
      && table[a.session].revokedAt.None?
    ensures Start(table, users, a, target).Ok? ==>
      var table' := Start(table, users, a, target).value;
      && TableOk(table') && Extends(table, table') && |table'| == |table| + 1
      && table'[|table|] == Session(a.actor, Some(target), Some(a.session), a.mfaVerifiedAt, a.expiresAt, None)
  {
    hide TableOk, Extends;
    if Start(table, users, a, target).Ok? {
      InsertKeeps(table, Session(a.actor, Some(target), Some(a.session), a.mfaVerifiedAt, a.expiresAt, None));
    }
  }

  /** Overwriting the time of a revocation. */
  lemma RestampKeeps(table: seq<Session>, id: nat, now: int)
    requires TableOk(table) && id < |table| && table[id].revokedAt.Some?
    ensures var next := table[id := table[id].(revokedAt := Some(now))]; TableOk(next) && Extends(table, next)
  {
    var next := table[id := table[id].(revokedAt := Some(now))];
    forall i | 0 <= i < |next| ensures SessionOk(next, i) { assert SessionOk(table, i); }
  }

  /** An impersonation session has no children, so revoking it touches no other session. */
  lemma StoppedAlone(table: seq<Session>, id: nat, now: int)
    requires TableOk(table) && id < |table| && table[id].impersonated.Some?
    ensures Stopped(table, id, now) == table[id := table[id].(revokedAt := Some(now))]
    ensures TableOk(Stopped(table, id, now)) && Extends(table, Stopped(table, id, now))
  {
    hide Revoke;
    var r := Revoke(table, {id}, now);
    RevokeKeeps(table, {id}, now);
    RevokeRows(table, {id}, now);
    RestampKeeps(r, id, now);
    forall i | 0 <= i < |table| && i != id ensures r[i] == table[i] { UntouchedBy(table, id, now, i); }
    assert Stopped(table, id, now) == table[id := table[id].(revokedAt := Some(now))];
  }

  lemma {:induction false} UntouchedBy(table: seq<Session>, id: nat, now: int, i: nat)
    requires TableOk(table) && id < |table| && table[id].impersonated.Some? && i < |table| && i != id
    ensures Revoke(table, {id}, now)[i] == table[i]
    decreases i
  {
    hide Revoke;
    var r := Revoke(table, {id}, now);
    RevokeRows(table, {id}, now);
    assert SessionOk(table, i);
    if table[i].parent.Some? {
      var p := table[i].parent.value;
      UntouchedBy(table, id, now, p);
      assert r[..i][p] == r[p];
    }
  }

  /**
   With a valid authorisation, stopping succeeds exactly when the parent is live. It revokes the
   impersonation session alone and adds a session of the actor beside it, under the same parent and
   with the same expiry.
   */
  lemma StopExactly(table: seq<Session>, a: Authorization, now: int)
    requires TableOk(table) && GrantOk(table, a)
    ensures a.impersonating ==> table[a.session].parent.Some? && table[a.session].parent.value < |table|
    ensures Stop(table, a, now).Ok? <==> a.impersonating && Live(table[table[a.session].parent.value], now)
    ensures Stop(table, a, now).Ok? ==>
      var table' := Stop(table, a, now).value;
      && TableOk(table') && Extends(table, table')
      && table' == table[a.session := table[a.session].(revokedAt := Some(now))]
                   + [Session(a.actor, None, table[a.session].parent, a.mfaVerifiedAt, a.expiresAt, None)]
  {
    hide Revoke;
    assert SessionOk(table, a.session);
    if a.impersonating {
      var p := table[a.session].parent.value;
      assert SessionOk(table, p);
      StoppedAlone(table, a.session, now);
      var stopped := Stopped(table, a.session, now);
      assert stopped[p] == table[p];
      if Live(table[p], now) {
        var s := Session(a.actor, None, Some(p), a.mfaVerifiedAt, a.expiresAt, None);
        InsertKeeps(stopped, s);
      }
    }
  }

  lemma GrantsKept(before: seq<Session>, after: seq<Session>, granted: seq<Authorization>)
    requires Extends(before, after) && forall k | 0 <= k < |granted| :: GrantOk(before, granted[k])
    ensures forall k | 0 <= k < |granted| :: GrantOk(after, granted[k])
  {
    forall k | 0 <= k < |granted| ensures GrantOk(after, granted[k]) {
      assert GrantOk(before, granted[k]);
      assert RowKept(before[granted[k].session], after[granted[k].session]);
    }
  }

  lemma MfaKeeps(table: seq<Session>, id: nat, mfa: Option<int>)
    requires TableOk(table) && id < |table|
    ensures var next := table[id := table[id].(mfaVerifiedAt := mfa)]; TableOk(next) && Extends(table, next)
  {
    var next := table[id := table[id].(mfaVerifiedAt := mfa)];
    forall i | 0 <= i < |next| ensures SessionOk(next, i) { assert SessionOk(table, i); }
  }

  lemma StepKeepsTable(s: System, op: Op)
    requires Inv(s)
    ensures TableOk(Apply(s, op).table) && Extends(s.table, Apply(s, op).table)
  {
    hide TableOk, Revoke, Stop, Start;
    match op
    case IssueOp(user, expiresAt, mfa) => InsertKeeps(s.table, Session(user, None, None, mfa, expiresAt, None));
    case AuthorizeOp(users, id, now) =>
    case StartOp(users, grant, target) =>
      if grant < |s.granted| { StartExactly(s.table, users, s.granted[grant], target); }
    case StopOp(grant, now) => if grant < |s.granted| { StopExactly(s.table, s.granted[grant], now); }
    case RevokeOp(ids, now) => RevokeKeeps(s.table, ids, now);
    case MfaOp(id, mfa) => if id < |s.table| { MfaKeeps(s.table, id, mfa); }
  }

  lemma StepKeeps(s: System, op: Op)
    requires Inv(s)
    ensures Inv(Apply(s, op)) && Extends(s.table, Apply(s, op).table)
  {
    StepKeepsTable(s, op);
    hide TableOk, Revoke, Stop, Start, Extends;
    GrantsKept(s.table, Apply(s, op).table, s.granted);
  }

  lemma ExtendsTransitive(a: seq<Session>, b: seq<Session>, c: seq<Session>)
    requires Extends(a, b) && Extends(b, c)
    ensures Extends(a, c)
  {
    forall i | 0 <= i < |a| ensures RowKept(a[i], c[i]) { assert RowKept(a[i], b[i]) && RowKept(b[i], c[i]); }
  }

  lemma {:induction false} RunKeeps(s: System, ops: seq<Op>)
    requires Inv(s)
    ensures Inv(Run(s, ops)) && Extends(s.table, Run(s, ops).table)
    decreases ops
  {
    hide Inv, Apply, Extends;
    if ops == [] {
      ExtendsSelf(s.table);
    } else {
      StepKeeps(s, ops[0]);
      RunKeeps(Apply(s, ops[0]), ops[1..]);
      ExtendsTransitive(s.table, Apply(s, ops[0]).table, Run(s, ops).table);
    }
  }

  lemma ExtendsSelf(table: seq<Session>)
    ensures Extends(table, table)
  {
  }

  // ----- The theorems ----------------------------------------------------------------------------

  /**
   In every run a session with a parent has its parent's actor and expiry, its parent is not
   impersonating, and it is never live under a revoked parent.
   */
  lemma EveryRunKeepsParents(ops: seq<Op>, i: nat)
    requires i < |Run(EMPTY, ops).table|
    ensures var table := Run(EMPTY, ops).table;
      && (table[i].parent.Some? ==> table[i].parent.value < i && ChildOf(table[i], table[table[i].parent.value]))
      && (table[i].impersonated.Some? ==> table[i].parent.Some?)
  {
    hide Apply;
    RunKeeps(EMPTY, ops);
    assert SessionOk(Run(EMPTY, ops).table, i);
  }

  /** `a` is `i` or an ancestor of `i`. */
  predicate Above(table: seq<Session>, i: nat, a: nat)
    decreases i
  {
    i < |table| && (i == a
        || (table[i].parent.Some? && table[i].parent.value < i && Above(table, table[i].parent.value, a)))
  }

  lemma {:induction false} AncestorsShare(table: seq<Session>, i: nat, a: nat)
    requires TableOk(table) && Above(table, i, a)
    ensures a < |table| && table[a].user == table[i].user && table[a].expiresAt == table[i].expiresAt
    ensures table[i].revokedAt.None? ==> table[a].revokedAt.None?
    ensures a != i ==> table[a].impersonated.None?
    decreases i
  {
    assert SessionOk(table, i);
    if i != a { AncestorsShare(table, table[i].parent.value, a); }
  }

  /** In a valid table a session is unrevoked exactly when it and every session above it are. */
  lemma LiveThroughout(table: seq<Session>, id: nat, now: int)
    requires TableOk(table) && id < |table|
    ensures Live(table[id], now) <==> forall a: nat | Above(table, id, a) :: a < |table| && Live(table[a], now)
  {
    if Live(table[id], now) {
      forall a: nat | Above(table, id, a) ensures a < |table| && Live(table[a], now) { AncestorsShare(table, id, a); }
    } else {
      assert Above(table, id, id);
    }
  }

  /** What an authorisation requires: every session from this one up is live, and the users are who they must be. */
  ghost predicate MayAct(table: seq<Session>, users: Users, id: nat, now: int)
  {
    && id < |table| && Enabled(users, table[id].user)
    && (forall a: nat | Above(table, id, a) :: a < |table| && Live(table[a], now))
    && (users[table[id].user].mfaEnabled ==> table[id].mfaVerifiedAt.Some?)
    && (table[id].impersonated.Some? ==>
        users[table[id].user].platformOperator && Enabled(users, table[id].impersonated.value))
  }

  /** Checking the session and its immediate parent is enough: authorising succeeds exactly when the whole
      chain is live. */
  lemma AuthorizedExactly(table: seq<Session>, users: Users, id: nat, now: int)
    requires TableOk(table)
    ensures Authorize(table, users, id, now).Ok? <==> MayAct(table, users, id, now)
    ensures Authorize(table, users, id, now).Ok? ==> GrantOk(table, Authorize(table, users, id, now).value)
  {
    if id < |table| {
      LiveThroughout(table, id, now);
      hide Above;
      assert SessionOk(table, id);
      hide TableOk;
    }
  }

  /** Revoking reaches exactly the named sessions and those below them. */
  lemma {:induction false} RevokedBelow(table: seq<Session>, ids: set<nat>, now: int, i: nat)
    requires TableOk(table) && i < |table|
    ensures Revoke(table, ids, now)[i].revokedAt.Some? <==>
      table[i].revokedAt.Some? || exists a | a in ids :: Above(table, i, a)
    decreases i
  {
    hide Revoke;
    var r := Revoke(table, ids, now);
    RevokeRows(table, ids, now);
    assert SessionOk(table, i);
    if table[i].parent.Some? {
      var p := table[i].parent.value;
      RevokedBelow(table, ids, now, p);
      assert r[..i][p] == r[p];
      assert forall a :: Above(table, i, a) <==> i == a || Above(table, p, a);
    } else {
      assert forall a :: Above(table, i, a) <==> i == a;
    }
  }

  lemma RevokedExactly(table: seq<Session>, id: nat, now: int)
    requires TableOk(table)
    ensures var after := Revoke(table, {id}, now);
      && TableOk(after) && |after| == |table|
      && forall i | 0 <= i < |table| ::
           && (Above(table, i, id) ==> after[i].revokedAt.Some?)
           && (!Above(table, i, id) ==> after[i] == table[i])
  {
    hide Revoke, Above, Falls;
    RevokeKeeps(table, {id}, now);
    RevokeRows(table, {id}, now);
    forall i | 0 <= i < |table|
      ensures Above(table, i, id) ==> Revoke(table, {id}, now)[i].revokedAt.Some?
      ensures !Above(table, i, id) ==> Revoke(table, {id}, now)[i] == table[i]
    {
      RevokedBelow(table, {id}, now, i);
    }
  }

  /**
   Whenever a session is authorised, it and every session above it are unrevoked and unexpired,
   belong to the same actor and expire together, and only the session itself can be impersonating:
   impersonation neither nests nor extends a lifetime.
   */
  lemma AuthorizedChain(ops: seq<Op>, users: Users, id: nat, now: int, a: nat)
    requires Authorize(Run(EMPTY, ops).table, users, id, now).Ok? && Above(Run(EMPTY, ops).table, id, a)
    ensures var table := Run(EMPTY, ops).table;
      && a < |table| && Live(table[a], now) && table[a].user == table[id].user
        && table[a].expiresAt == table[id].expiresAt
      && (a != id ==> table[a].impersonated.None?)
  {
    hide Run;
    RunKeeps(EMPTY, ops);
    AncestorsShare(Run(EMPTY, ops).table, id, a);
  }

  /** A session revoked in a reachable state, or any session below it, is never authorised again. */
  lemma RevokedForever(before: seq<Op>, after: seq<Op>, id: nat, a: nat, users: Users, now: int)
    requires Above(Run(EMPTY, before).table, id, a) && a < |Run(EMPTY, before).table|
    requires Run(EMPTY, before).table[a].revokedAt.Some?
    ensures Authorize(Run(Run(EMPTY, before), after).table, users, id, now).Err?
  {
    hide Run;
    var s := Run(EMPTY, before);
    RunKeeps(EMPTY, before);
    AncestorsShare(s.table, id, a);
    RunKeeps(s, after);
    assert RowKept(s.table[id], Run(s, after).table[id]);
  }

  /** A request authorised before a revocation cannot start an impersonation after it. */
  lemma RevocationFencesStart(before: seq<Op>, after: seq<Op>, grant: nat, users: Users, target: UserId)
    requires grant < |Run(EMPTY, before).granted|
    requires var s := Run(EMPTY, before);
      s.granted[grant].session < |s.table| && s.table[s.granted[grant].session].revokedAt.Some?
    ensures Start(Run(Run(EMPTY, before), after).table, users, Run(EMPTY, before).granted[grant], target).Err?
  {
    hide Run;
    var s := Run(EMPTY, before);
    RunKeeps(EMPTY, before);
    RunKeeps(s, after);
    var id := s.granted[grant].session;
    assert RowKept(s.table[id], Run(s, after).table[id]);
  }
}
