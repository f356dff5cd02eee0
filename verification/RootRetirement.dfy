/**
 Retiring a root key: when it is safe, that it stays safe, and that rewrapping and purging
 always get there.
 */
module RootRetirement {
  import opened Results
  import opened JsStrings
  import opened Secrets
  import opened SecretRuns

  /** How rows refer to each other, as far as reading and purging rely on it. */
  lemma ShapeOf(db: Db)
    requires Inv(db)
    ensures Linked(db) && Shaped(db)
  {
  }

  // ----- Safety ----------------------------------------------------------------------------------

  /** Every stored version opens under the ring. */
  ghost predicate Decryptable(ring: KeyRing, db: Db)
    requires Linked(db)
  {
    forall v | v in db.versions ::
      Reveal(ring, db.credentials[db.versions[v].credentialId].environmentId, db.versions[v]).Ok?
  }

  lemma RevealExactly(ring: KeyRing, db: Db, v: Id)
    requires Inv(db) && v in db.versions
    ensures var version := db.versions[v];
      Reveal(ring, db.credentials[version.credentialId].environmentId, version)
        == if version.root in ring.keys && ring.keys[version.root] == version.envelope.key
           then Ok(version.envelope.utf8) else Err(CredentialUnavailable)
  {
    hide Serialize;
  }

  ghost predicate KeysFit(ring: KeyRing, db: Db)
  {
    forall v | v in db.versions ::
      db.versions[v].root in ring.keys && ring.keys[db.versions[v].root] == db.versions[v].envelope.key
  }

  lemma DecryptableMeans(ring: KeyRing, db: Db)
    requires Inv(db)
    ensures Decryptable(ring, db) <==> KeysFit(ring, db)
    ensures Decryptable(ring, db) ==> forall v | v in db.versions ::
      Reveal(ring, db.credentials[db.versions[v].credentialId].environmentId, db.versions[v])
        == Ok(db.versions[v].envelope.utf8)
  {
    hide Serialize;
  }

  lemma CanRemoveRootMeans(db: Db, ring: KeyRing, root: int)
    ensures CanRemoveRoot(db, ring, root) <==>
      root > 0 && root != ring.active && forall v | v in db.versions :: db.versions[v].root != root
  {
    if root > 0 {
      var roots := set id | id in db.versions :: db.versions[id].root;
      var users := VersionsUnder(db, root);
      if v :| v in db.versions && db.versions[v].root == root {
        assert root in roots && v in users;
      } else {
        assert root !in roots;
      }
    }
  }

  function WithoutRoot(ring: KeyRing, root: Root): KeyRing { ring.(keys := ring.keys - {root}) }

  /** The guard is exact: dropping an inactive root leaves everything readable if and only if
      `canRemoveRoot` says so, and what is readable then reads the same. */
  lemma RemovalSafe(db: Db, ring: KeyRing, root: Root)
    requires Inv(db) && ring.Valid() && Decryptable(ring, db)
    requires 0 < root && root != ring.active
    ensures WithoutRoot(ring, root).Valid()
    ensures CanRemoveRoot(db, ring, root) <==> Decryptable(WithoutRoot(ring, root), db)
    ensures CanRemoveRoot(db, ring, root) ==> forall v | v in db.versions ::
      var env := db.credentials[db.versions[v].credentialId].environmentId;
      Reveal(WithoutRoot(ring, root), env, db.versions[v]) == Reveal(ring, env, db.versions[v])
  {
    hide Serialize, CanRemoveRoot;
    CanRemoveRootMeans(db, ring, root);
    DecryptableMeans(ring, db);
    DecryptableMeans(WithoutRoot(ring, root), db);
  }

  // ----- Stability -------------------------------------------------------------------------------

  /** Whatever is stored in `db'` and not in `db` is sealed under the active root. */
  ghost predicate AddsActiveOnly(db: Db, db': Db, ring: KeyRing)
    requires ring.Valid()
  {
    forall v | v in db'.versions ::
      || (db'.versions[v].root == ring.active && db'.versions[v].envelope.key == ring.keys[ring.active])
      || (v in db.versions && db'.versions[v].root == db.versions[v].root
          && db'.versions[v].envelope == db.versions[v].envelope)
  }

  lemma SupersedeAddsActiveOnly(db: Db, ring: KeyRing, env: Id, c: Id, revision: nat, text: JsString, id: Id, now: Time,
                                active: ActiveSecret, until: Option<Time>)
    requires ring.Valid() && active.versionId in db.versions && db.versions[active.versionId] == active.version
    requires InsertVersion(db, ring, env, c, revision, text, id, now).Ok?
    ensures AddsActiveOnly(db,
                           Supersede(InsertVersion(db, ring, env, c, revision, text, id, now).value, c, active, id,
                                     now, until), ring)
  {
    Inserted(db, ring, env, c, revision, text, id, now);
  }

  lemma StepAddsActiveOnly(db: Db, ring: KeyRing, op: Op)
    requires Inv(db) && ring.Valid()
    ensures AddsActiveOnly(db, Apply(db, ring, op), ring)
  {
    hide Inv, Serialize, Utf8RoundTrip, InsertVersion, Supersede, Reveal, NameTaken;
    match op
    case DoCreate(auth, kind, name, provider, plaintext, c, v, now) =>
      Inserted(db, ring, auth.environmentId, c, 1, plaintext, v, now);
    case DoRotate(auth, c, plaintext, until, v, now) =>
      if Rotate(db, ring, auth, c, plaintext, until, v, now).Ok? {
        var active := LockActive(db, auth.environmentId, c).value;
        SupersedeAddsActiveOnly(db, ring, auth.environmentId, c, active.version.revision
            + 1, plaintext, v, now, active, until);
      }
    case DoRewrap(auth, c, v, now) =>
      if Rewrap(db, ring, auth, c, v, now).Ok? {
        var active := LockActive(db, auth.environmentId, c).value;
        if active.version.root != ring.active {
          var material := Reveal(ring, auth.environmentId, active.version.(credentialId := c)).value;
          SupersedeAddsActiveOnly(db, ring, auth.environmentId, c, active.version.revision, material, v, now, active,
                                  None);
        }
      }
    case DoRevoke(auth, c, retention, now) =>
    case DoPurge(ops, cutoff, limit, now) =>
      if ops && cutoff <= now && (limit.Some? ==> limit.value > 0) {
        PurgeAllKeeps(db, OldestFirst(db, Eligible(db, cutoff), PurgeLimit(limit)), cutoff);
      }
    case DoRead(env, c, kind) =>
  }

  /** Every process of the run has the same active root, under the same key. */
  predicate SameActive(run: seq<Event>, ring: KeyRing)
    requires ValidRun(run) && ring.Valid()
  {
    forall i | 0 <= i < |run| ::
      run[i].ring.active == ring.active && run[i].ring.keys[ring.active] == ring.keys[ring.active]
  }

  /** Once removable, a root stays removable, and the smaller ring goes on opening every version,
      along every later run with the same active root. */
  lemma {:induction false} RemovalStable(db: Db, ring: KeyRing, root: Root, run: seq<Event>)
    requires Inv(db) && ring.Valid() && Decryptable(ring, db) && CanRemoveRoot(db, ring, root)
    requires ValidRun(run) && SameActive(run, ring)
    ensures Inv(Run(db, run))
    ensures CanRemoveRoot(Run(db, run), ring, root)
    ensures Decryptable(WithoutRoot(ring, root), Run(db, run))
    decreases |run|
  {
    hide Inv, Serialize, CanRemoveRoot, Apply;
    var small := WithoutRoot(ring, root);
    if run == [] {
      CanRemoveRootMeans(db, ring, root);
      RemovalSafe(db, ring, root);
    } else {
      var before, after, last := Run(db, run[..|run| - 1]), Run(db, run), run[|run| - 1];
      RemovalStable(db, ring, root, run[..|run| - 1]);
      StepKeeps(before, last.ring, last.op);
      StepAddsActiveOnly(before, last.ring, last.op);
      StaysRemovable(before, after, ring, last.ring, root);
    }
  }

  lemma StaysRemovable(before: Db, after: Db, ring: KeyRing, used: KeyRing, root: Root)
    requires Inv(before) && Inv(after) && ring.Valid() && used.Valid() && AddsActiveOnly(before, after, used)
    requires used.active == ring.active && used.keys[ring.active] == ring.keys[ring.active]
    requires CanRemoveRoot(before, ring, root) && Decryptable(WithoutRoot(ring, root), before)
    ensures CanRemoveRoot(after, ring, root) && Decryptable(WithoutRoot(ring, root), after)
  {
    hide Inv, Serialize, CanRemoveRoot, Decryptable, Linked, Shaped;
    ShapeOf(before);
    ShapeOf(after);
    CanRemoveRootMeans(before, ring, root);
    CanRemoveRootMeans(after, ring, root);
    DecryptableMeans(WithoutRoot(ring, root), before);
    DecryptableMeans(WithoutRoot(ring, root), after);
  }

  // ----- Draining retired versions ---------------------------------------------------------------

  /** `calls` purges with the default limit. */
  function PurgeCalls(db: Db, cutoff: Time, now: Time, calls: nat): Db
    decreases calls
  {
    if calls == 0 then db
    else PurgeCalls(Committed(db, PurgeRetired(db, true, cutoff, None, now)), cutoff, now, calls - 1)
  }

  /** `db'` is `db` without some of its eligible versions. */
  ghost predicate PurgedTo(db: Db, db': Db, cutoff: Time)
  {
    && db'.credentials == db.credentials
    && (forall v | v in db'.versions :: v in db.versions && db'.versions[v] == db.versions[v])
    && (forall v | v in db.versions && v !in Eligible(db, cutoff) :: v in db'.versions)
  }

  lemma {:induction false} DistinctSize(ids: seq<Id>)
    requires forall i, j | 0 <= i < j < |ids| :: ids[i] != ids[j]
    ensures |SetOf(ids)| == |ids|
  {
    if ids != [] {
      var front, last := ids[..|ids| - 1], ids[|ids| - 1];
      DistinctSize(front);
      assert ids == front + [last];
      assert SetOf(ids) == SetOf(front) + {last};
      assert last !in SetOf(front);
    }
  }

  lemma EligibleAfterPurge(db: Db, db': Db, cutoff: Time)
    requires PurgedTo(db, db', cutoff)
    ensures Eligible(db', cutoff) == Eligible(db, cutoff) * db'.versions.Keys
  {
  }

  /** One call removes the oldest hundred eligible versions, or all when there are fewer. */
  lemma PurgeOnce(db: Db, cutoff: Time, now: Time)
    requires Inv(db) && cutoff <= now
    ensures var tx := PurgeRetired(db, true, cutoff, None, now);
      var n := |Eligible(db, cutoff)|;
      && tx.Ok? && Inv(tx.value.db) && PurgedTo(db, tx.value.db, cutoff)
      && tx.value.value == (if n < PURGE_RETIRED_HARD_LIMIT then n else PURGE_RETIRED_HARD_LIMIT)
      && |Eligible(tx.value.db, cutoff)| == n - tx.value.value
  {
    hide Inv, Purgeable, OldestFirst, PurgeAll;
    var eligible := Eligible(db, cutoff);
    var ids := OldestFirst(db, eligible, PurgeLimit(None));
    PurgeAllKeeps(db, ids, cutoff);
    RemovedEligible(db, PurgeAll(db, ids, cutoff).value, ids, cutoff);
  }

  lemma EligibleKeys(db: Db, cutoff: Time)
    ensures Eligible(db, cutoff) <= db.versions.Keys
  {
  }

  lemma RemovedPurges(db: Db, db': Db, ids: seq<Id>, cutoff: Time)
    requires db'.credentials == db.credentials && db'.versions == db.versions - SetOf(ids)
    requires forall i | 0 <= i < |ids| :: ids[i] in Eligible(db, cutoff)
    ensures SetOf(ids) <= Eligible(db, cutoff) && PurgedTo(db, db', cutoff)
  {
    hide Purgeable;
  }

  lemma RemovedEligible(db: Db, db': Db, ids: seq<Id>, cutoff: Time)
    requires db'.credentials == db.credentials && db'.versions == db.versions - SetOf(ids)
    requires forall i | 0 <= i < |ids| :: ids[i] in Eligible(db, cutoff)
    requires forall i, j | 0 <= i < j < |ids| :: ids[i] != ids[j]
    ensures PurgedTo(db, db', cutoff)
    ensures |Eligible(db', cutoff)| == |Eligible(db, cutoff)| - |ids|
  {
    RemovedPurges(db, db', ids, cutoff);
    hide Purgeable, PurgedTo, SetOf;
    var removed, eligible := SetOf(ids), Eligible(db, cutoff);
    DistinctSize(ids);
    EligibleAfterPurge(db, db', cutoff);
    assert Eligible(db', cutoff) == eligible - removed by {
      hide Eligible;
      EligibleKeys(db, cutoff);
      assert db'.versions.Keys == db.versions.Keys - removed;
    }
  }

  lemma PurgedToTransitive(a: Db, b: Db, c: Db, cutoff: Time)
    requires PurgedTo(a, b, cutoff) && PurgedTo(b, c, cutoff)
    ensures PurgedTo(a, c, cutoff)
  {
    EligibleAfterPurge(a, b, cutoff);
  }

  /** `k` default-limit calls remove `100 k` eligible versions, or all of them. */
  lemma {:induction false} PurgeCallsDrain(db: Db, cutoff: Time, now: Time, calls: nat)
    requires Inv(db) && cutoff <= now
    ensures var db' := PurgeCalls(db, cutoff, now, calls);
      var n := |Eligible(db, cutoff)|;
      && Inv(db') && PurgedTo(db, db', cutoff)
      && |Eligible(db', cutoff)| == if n <= 100 * calls then 0 else n - 100 * calls
    decreases calls
  {
    hide Inv, PurgedTo, Eligible, PurgeRetired;
    if calls == 0 {
      SelfPurged(db, cutoff);
    } else {
      PurgeOnce(db, cutoff, now);
      var next := PurgeRetired(db, true, cutoff, None, now).value.db;
      PurgeCallsDrain(next, cutoff, now, calls - 1);
      PurgedToTransitive(db, next, PurgeCalls(next, cutoff, now, calls - 1), cutoff);
    }
  }

  lemma SelfPurged(db: Db, cutoff: Time)
    ensures PurgedTo(db, db, cutoff)
  {
  }

  /** Every retired version is past the cutoff, including its readable period. */
  ghost predicate Settled(db: Db, cutoff: Time)
  {
    forall v | v in db.versions && db.versions[v].retiredAt.Some? ::
      && db.versions[v].retiredAt.value <= cutoff
      && (db.versions[v].readableUntil.Some? ==> db.versions[v].readableUntil.value <= cutoff)
  }

  /** No retired version is left. */
  ghost predicate Drained(db: Db) { forall v | v in db.versions :: db.versions[v].retiredAt.None? }

  /** With a late enough cutoff, `ceil(n / 100)` calls drain the `n` retired versions and nothing else. */
  lemma DrainRetired(db: Db, cutoff: Time, now: Time)
    requires Inv(db) && cutoff <= now && Settled(db, cutoff)
    ensures var db' := PurgeCalls(db, cutoff, now, (|Eligible(db, cutoff)| + 99) / 100);
      && Inv(db') && PurgedTo(db, db', cutoff) && Drained(db')
      && (forall v | v in db.versions && db.versions[v].retiredAt.None? :: v in db'.versions)
  {
    hide Inv, PurgeCalls, Eligible, Purgeable, Settled;
    var calls := (|Eligible(db, cutoff)| + 99) / 100;
    PurgeCallsDrain(db, cutoff, now, calls);
    var db' := PurgeCalls(db, cutoff, now, calls);
    assert Eligible(db', cutoff) == {};
    forall v | v in db'.versions ensures db'.versions[v].retiredAt.None? {
      if db'.versions[v].retiredAt.Some? { RetiredIsEligible(db, db', v, cutoff); }
    }
    forall v | v in db.versions && db.versions[v].retiredAt.None? ensures v in db'.versions {
      UnretiredStays(db, v, cutoff);
    }
  }

  lemma RetiredIsEligible(db: Db, db': Db, v: Id, cutoff: Time)
    requires Inv(db') && Settled(db, cutoff) && v in db'.versions && db'.versions[v].retiredAt.Some?
    requires v in db.versions && db.versions[v] == db'.versions[v]
    ensures v in Eligible(db', cutoff)
  {
    ShapeOf(db');
    hide Inv;
  }

  lemma UnretiredStays(db: Db, v: Id, cutoff: Time)
    requires v in db.versions && db.versions[v].retiredAt.None?
    ensures v !in Eligible(db, cutoff)
  {
  }

  // ----- Rewrapping ------------------------------------------------------------------------------

  function OperatorOf(environmentId: Id): Authorization { Authorization(environmentId, Operator, SecretMutate) }

  predicate Live(db: Db, c: Id) { c in db.credentials && db.credentials[c].revokedAt.None? }

  /** The active version of a credential. */
  function ActiveOf(db: Db, c: Id): Option<Version>
  {
    if c in db.credentials && db.credentials[c].activeVersion.Some?
      && db.credentials[c].activeVersion.value in db.versions
    then Some(db.versions[db.credentials[c].activeVersion.value]) else None
  }

  /** The credential's active version is sealed under this root. */
  predicate Under(db: Db, c: Id, root: Root) { ActiveOf(db, c).Some? && ActiveOf(db, c).value.root == root }

  /** The text a credential holds. */
  function TextOf(db: Db, c: Id): Option<JsString>
  {
    if ActiveOf(db, c).Some? then Some(ActiveOf(db, c).value.envelope.utf8) else None
  }

  lemma LiveHasActive(db: Db, c: Id)
    requires Inv(db) && Live(db, c)
    ensures ActiveOf(db, c).Some? && ActiveOf(db, c).value.credentialId == c
    ensures ActiveOf(db, c).value.retiredAt.None? && ActiveOf(db, c).value.readableUntil.None?
    ensures ActiveOf(db, c).value.envelope.utf8 != [] && WellFormed(ActiveOf(db, c).value.envelope.utf8)
  {
  }

  function RewrapAs(db: Db, ring: KeyRing, c: Id, id: Id, now: Time): Tx<Id>
    requires ring.Valid()
  {
    if c !in db.credentials then Err(CredentialUnavailable)
    else Rewrap(db, ring, OperatorOf(db.credentials[c].environmentId), c, id, now)
  }

  /** Rewrapping a live credential succeeds if and only if it is already under the active root or
      the unique index has room for its revision there. */
  lemma RewrapExactly(db: Db, ring: KeyRing, c: Id, id: Id, now: Time)
    requires Inv(db) && ring.Valid() && Decryptable(ring, db) && Live(db, c) && id !in db.versions
    ensures ActiveOf(db, c).Some?
    ensures var tx, active := RewrapAs(db, ring, c, id, now), ActiveOf(db, c).value;
      && (tx.Ok? <==> active.root == ring.active || !VersionTaken(db, c, active.revision, ring.active))
      && (tx.Err? ==> tx.error == UniqueViolation)
      && (active.root == ring.active ==> tx == Ok(Commit(db, c)))
  {
    hide Serialize, Utf8RoundTrip, VersionTaken;
    LiveHasActive(db, c);
    RevealExactly(ring, db, db.credentials[c].activeVersion.value);
    DecryptableMeans(ring, db);
    hide Inv, Decryptable;
  }

  /** What a rewrap that had to write did: one version retired, one added with the same text. */
  ghost predicate Rewrapped(db: Db, db': Db, ring: KeyRing, c: Id, prior: Id, id: Id, now: Time)
  {
    && Superseded(db, db', c, prior, id)
    && db'.versions[prior].retiredAt == Some(now) && db'.versions[prior].readableUntil.None?
    && db'.versions[id].root == ring.active
    && db'.versions[id].revision == db.versions[prior].revision
    && ring.active in ring.keys && db'.versions[id].envelope.key == ring.keys[ring.active]
    && db'.versions[id].envelope.utf8 == db.versions[prior].envelope.utf8
  }

  lemma RewrapEffect(db: Db, ring: KeyRing, c: Id, id: Id, now: Time)
    requires Inv(db) && ring.Valid() && Decryptable(ring, db) && Live(db, c) && id !in db.versions
    requires !Under(db, c, ring.active) && RewrapAs(db, ring, c, id, now).Ok?
    ensures Inv(RewrapAs(db, ring, c, id, now).value.db)
    ensures db.credentials[c].activeVersion.Some?
    ensures Rewrapped(db, RewrapAs(db, ring, c, id, now).value.db, ring, c, db.credentials[c].activeVersion.value, id,
                      now)
  {
    LiveHasActive(db, c);
    var env, prior := db.credentials[c].environmentId, db.credentials[c].activeVersion.value;
    RewrapKeeps(db, ring, OperatorOf(env), c, id, now);
    RevealExactly(ring, db, prior);
    DecryptableMeans(ring, db);
    hide Inv, Decryptable, Rewrap, Reveal, WellFormed;
    RewrapWrites(db, ring, c, id, now, db.versions[prior].envelope.utf8);
  }

  lemma RewrapWrites(db: Db, ring: KeyRing, c: Id, id: Id, now: Time, text: JsString)
    requires ring.Valid() && Live(db, c) && ActiveOf(db, c).Some? && ActiveOf(db, c).value.credentialId == c
    requires var active := ActiveOf(db, c).value;
      && active.root != ring.active && active.envelope.utf8 == text && active.readableUntil.None?
      && Reveal(ring, db.credentials[c].environmentId, active) == Ok(text)
    requires WellFormed(text) && RewrapAs(db, ring, c, id, now).Ok?
    ensures Rewrapped(db, RewrapAs(db, ring, c, id, now).value.db, ring, c, db.credentials[c].activeVersion.value, id,
                      now)
  {
    RoundTripIdentity(text);
    Inserted(db, ring, db.credentials[c].environmentId, c, ActiveOf(db, c).value.revision, text, id, now);
    RewrapUnfolds(db, ring, c, id, now, text);
    hide Rewrap, Serialize, Utf8RoundTrip, WellFormed, InsertVersion, Reveal, VersionTaken;
  }

  lemma RewrapUnfolds(db: Db, ring: KeyRing, c: Id, id: Id, now: Time, text: JsString)
    requires ring.Valid() && Live(db, c) && ActiveOf(db, c).Some? && ActiveOf(db, c).value.credentialId == c
    requires var active := ActiveOf(db, c).value;
      && active.root != ring.active && Reveal(ring, db.credentials[c].environmentId, active) == Ok(text)
    ensures var env, active := db.credentials[c].environmentId, ActiveOf(db, c).value;
      var inserted := InsertVersion(db, ring, env, c, active.revision, text, id, now);
      var r := RewrapAs(db, ring, c, id, now);
      && (r.Ok? <==> inserted.Ok?)
      && (r.Ok? ==> r.value.db == Audited(
            Supersede(inserted.value, c,
                      ActiveSecret(db.credentials[c], db.credentials[c].activeVersion.value, active), id, now, None),
            Audit(env, c, REWRAP, active.revision, Some(active.root), Some(ring.active))))
  {
    hide Reveal, InsertVersion;
  }

  // A credential created under one root and rewrapped under the next.
  const OPERATOR := OperatorOf(7)

  function Created(ring: KeyRing): Db
    requires ring.Valid()
  {
    Apply(EMPTY, ring, DoCreate(OPERATOR, ServiceCredential, [65], None, [66], 10, 20, 0))
  }

  function CreatedThenRewrapped(ring1: KeyRing, ring2: KeyRing): Db
    requires ring1.Valid() && ring2.Valid()
  {
    Apply(Created(ring1), ring2, DoRewrap(OPERATOR, 10, 21, 1))
  }

  lemma CreatedRows(ring: KeyRing)
    requires ring.Valid()
    ensures var one, key := Created(ring), ring.keys[ring.active];
      var context := Context(7, 10, 1, FORMAT_VERSION, ring.active);
      && one.credentials == map[10 := Credential(7, ServiceCredential, [65], None, Some(20), None)]
      && one.versions == map[20 := Version(10, 1, FORMAT_VERSION, ring.active,
           Envelope(key, Serialize(context), Utf8RoundTrip([66])), None, None, 0)]
  {
    hide Serialize, Utf8RoundTrip;
    assert !NameTaken(EMPTY, 7, ServiceCredential, [65]);
    assert !VersionTaken(EMPTY, 10, 1, ring.active);
  }

  lemma AfterCreate(ring: KeyRing)
    requires ring.Valid()
    ensures Inv(Created(ring))
  {
    StepKeeps(EMPTY, ring, DoCreate(OPERATOR, ServiceCredential, [65], None, [66], 10, 20, 0));
  }

  lemma RewrapOfCreated(ring1: KeyRing, ring2: KeyRing)
    requires ring1.Valid() && ring2.Valid()
    ensures CreatedThenRewrapped(ring1, ring2) == Committed(Created(ring1), RewrapAs(Created(ring1), ring2, 10, 21, 1))
  {
    CreatedRows(ring1);
    hide Created, Rewrap, Serialize, Utf8RoundTrip;
  }

  lemma RewrappedRows(ring1: KeyRing, ring2: KeyRing)
    requires ring1.Valid() && ring2.Valid() && ring1.keys == ring2.keys && ring1.active != ring2.active
    ensures Inv(CreatedThenRewrapped(ring1, ring2))
    ensures Rewrapped(Created(ring1), CreatedThenRewrapped(ring1, ring2), ring2, 10, 20, 21, 1)
  {
    hide Created, CreatedThenRewrapped, Inv, Serialize, Utf8RoundTrip, Rewrapped, Rewrap, RewrapAs, Decryptable,
      Linked, Shaped;
    AfterCreate(ring1);
    CreatedRows(ring1);
    var one := Created(ring1);
    RewrapOfCreated(ring1, ring2);
    ShapeOf(one);
    DecryptableMeans(ring2, one);
    assert !VersionTaken(one, 10, 1, ring2.active);
    hide VersionTaken;
    RewrapExactly(one, ring2, 10, 21, 1);
    RewrapEffect(one, ring2, 10, 21, 1);
  }

  lemma AfterRewrap(one: Db, two: Db, ring1: KeyRing, ring2: KeyRing)
    requires Rewrapped(one, two, ring2, 10, 20, 21, 1) && one.versions.Keys == {20} && KeysFit(ring1, one)
    requires Live(one, 10) && one.versions[20].credentialId == 10
    requires one.versions[20].revision == 1 && one.versions[20].root == ring1.active
    requires ring1.keys == ring2.keys
    ensures Live(two, 10) && KeysFit(ring1, two) && 22 !in two.versions
    ensures two.credentials[10].environmentId == one.credentials[10].environmentId
    ensures Under(two, 10, ring2.active) && ActiveOf(two, 10).value.revision == 1
    ensures VersionTaken(two, 10, 1, ring1.active)
  {
    assert two.versions.Keys == {20, 21};
    assert two.versions[20].credentialId == 10 && two.versions[20].root == ring1.active;
  }

  /** Rolling the active root back to one that still seals the retired copy of the same revision
      is refused until that copy is purged. */
  lemma RewrapCanBeRefused(ring1: KeyRing, ring2: KeyRing)
    requires ring1.Valid() && ring2.Valid() && ring1.keys == ring2.keys && ring1.active != ring2.active
    ensures Rewrap(CreatedThenRewrapped(ring1, ring2), ring1, OPERATOR, 10, 22, 2) == Err(UniqueViolation)
  {
    hide Created, CreatedThenRewrapped, Inv, Serialize, Utf8RoundTrip, Rewrapped, VersionTaken, Rewrap, Decryptable,
      Linked,
      Shaped, ActiveOf;
    RewrappedRows(ring1, ring2);
    CreatedRows(ring1);
    var one, two := Created(ring1), CreatedThenRewrapped(ring1, ring2);
    AfterRewrap(one, two, ring1, ring2);
    ShapeOf(two);
    DecryptableMeans(ring1, two);
    hide KeysFit;
    RewrapExactly(two, ring1, 10, 22, 2);
  }

  // ----- The whole procedure ---------------------------------------------------------------------

  datatype Job = Job(credentialId: Id, versionId: Id, now: Time)

  /** Rewraps credentials one by one; the first failure stops it. */
  function RewrapEach(db: Db, ring: KeyRing, jobs: seq<Job>): Result<Db, Error>
    requires ring.Valid()
    decreases |jobs|
  {
    if jobs == [] then Ok(db) else
    match RewrapAs(db, ring, jobs[0].credentialId, jobs[0].versionId, jobs[0].now)
    case Err(e) => Err(e)
    case Ok(commit) => RewrapEach(commit.db, ring, jobs[1..])
  }

  /** Each live credential is either under the active root or has no version but its active one. */
  ghost predicate Ready(db: Db, root: Root)
  {
    forall v | v in db.versions && db.versions[v].retiredAt.Some? ::
      Live(db, db.versions[v].credentialId) ==> Under(db, db.versions[v].credentialId, root)
  }

  /** The same credentials are live and hold the same text. */
  ghost predicate SameMaterial(db: Db, db': Db)
  {
    forall c :: (Live(db', c) <==> Live(db, c)) && (Live(db, c) ==> TextOf(db', c) == TextOf(db, c))
  }

  /** No credential has left the active root. */
  ghost predicate StaysUnder(db: Db, db': Db, root: Root)
  {
    forall c | Live(db, c) && Under(db, c, root) :: Under(db', c, root)
  }

  lemma RewrappedOther(db: Db, db': Db, ring: KeyRing, c: Id, prior: Id, id: Id, now: Time, d: Id)
    requires Linked(db) && Live(db, c) && Rewrapped(db, db', ring, c, prior, id, now) && d != c
    ensures Live(db', d) <==> Live(db, d)
    ensures ActiveOf(db', d) == ActiveOf(db, d)
  {
  }

  lemma RewrappedMaterial(db: Db, db': Db, ring: KeyRing, c: Id, prior: Id, id: Id, now: Time)
    requires Linked(db) && Live(db, c) && Rewrapped(db, db', ring, c, prior, id, now)
    ensures Live(db', c) && ActiveOf(db', c) == Some(db'.versions[id])
    ensures SameMaterial(db, db') && StaysUnder(db, db', ring.active)
  {
    forall d
      ensures (Live(db', d) <==> Live(db, d)) && (Live(db, d) ==> TextOf(db', d) == TextOf(db, d))
      ensures Live(db, d) && Under(db, d, ring.active) ==> Under(db', d, ring.active)
    {
      if d != c { RewrappedOther(db, db', ring, c, prior, id, now, d); }
    }
  }

  lemma RewrappedReady(db: Db, db': Db, ring: KeyRing, c: Id, prior: Id, id: Id, now: Time, cutoff: Time)
    requires Linked(db) && Live(db, c) && Rewrapped(db, db', ring, c, prior, id, now)
    requires Ready(db, ring.active) && Settled(db, cutoff) && now <= cutoff
    ensures Ready(db', ring.active) && Settled(db', cutoff)
  {
    RewrappedMaterial(db, db', ring, c, prior, id, now);
    forall v | v in db'.versions && db'.versions[v].retiredAt.Some?
      ensures Live(db', db'.versions[v].credentialId) ==> Under(db', db'.versions[v].credentialId, ring.active)
    {
      if db'.versions[v].credentialId != c {
        RewrappedOther(db, db', ring, c, prior, id, now, db'.versions[v].credentialId);
      }
    }
  }

  lemma RewrappedDecryptable(db: Db, db': Db, ring: KeyRing, c: Id, prior: Id, id: Id, now: Time)
    requires Inv(db) && Inv(db') && Rewrapped(db, db', ring, c, prior, id, now) && Decryptable(ring, db)
    ensures Decryptable(ring, db')
  {
    hide Rewrapped, KeysFit, Serialize;
    DecryptableMeans(ring, db);
    RewrappedFits(db, db', ring, c, prior, id, now);
    DecryptableMeans(ring, db');
  }

  lemma RewrappedFits(db: Db, db': Db, ring: KeyRing, c: Id, prior: Id, id: Id, now: Time)
    requires Rewrapped(db, db', ring, c, prior, id, now) && KeysFit(ring, db)
    ensures KeysFit(ring, db')
  {
  }

  /** What the procedure relies on before each rewrap. */
  ghost predicate Resumable(db: Db, ring: KeyRing, cutoff: Time)
  {
    Inv(db) && Decryptable(ring, db) && Ready(db, ring.active) && Settled(db, cutoff)
  }

  lemma RoomUnderActive(db: Db, ring: KeyRing, c: Id)
    requires Inv(db) && Ready(db, ring.active) && Live(db, c) && !Under(db, c, ring.active)
    ensures ActiveOf(db, c).Some? && !VersionTaken(db, c, ActiveOf(db, c).value.revision, ring.active)
  {
    LiveHasActive(db, c);
  }

  /** One rewrap of the procedure: it cannot be refused, and leaves the rest ready. */
  lemma RewrapJob(db: Db, ring: KeyRing, job: Job, cutoff: Time)
    requires ring.Valid() && Resumable(db, ring, cutoff)
    requires Live(db, job.credentialId) && job.versionId !in db.versions && job.now <= cutoff
    ensures var tx := RewrapAs(db, ring, job.credentialId, job.versionId, job.now);
      && tx.Ok? && Resumable(tx.value.db, ring, cutoff)
      && SameMaterial(db, tx.value.db) && StaysUnder(db, tx.value.db, ring.active)
      && Under(tx.value.db, job.credentialId, ring.active)
      && tx.value.db.versions.Keys <= db.versions.Keys + {job.versionId}
  {
    var c := job.credentialId;
    RewrapExactly(db, ring, c, job.versionId, job.now);
    if !Under(db, c, ring.active) {
      RoomUnderActive(db, ring, c);
      RewrapEffect(db, ring, c, job.versionId, job.now);
      var db', prior := RewrapAs(db, ring, c, job.versionId, job.now).value.db, db.credentials[c].activeVersion.value;
      assert Linked(db);
      hide Inv, Linked, RewrapAs, Ready, Settled, Decryptable, VersionTaken, ActiveOf;
      RewrappedMaterial(db, db', ring, c, prior, job.versionId, job.now);
      RewrappedReady(db, db', ring, c, prior, job.versionId, job.now, cutoff);
      RewrappedDecryptable(db, db', ring, c, prior, job.versionId, job.now);
    }
  }

  /** Job version identifiers are fresh. */
  predicate FreshJobs(db: Db, jobs: seq<Job>)
  {
    && (forall i | 0 <= i < |jobs| :: jobs[i].versionId !in db.versions)
    && (forall i, j | 0 <= i < j < |jobs| :: jobs[i].versionId != jobs[j].versionId)
  }

  lemma {:induction false} RewrapJobs(db: Db, ring: KeyRing, jobs: seq<Job>, cutoff: Time)
    requires ring.Valid() && Resumable(db, ring, cutoff) && FreshJobs(db, jobs)
    requires forall i | 0 <= i < |jobs| :: Live(db, jobs[i].credentialId) && jobs[i].now <= cutoff
    ensures var r := RewrapEach(db, ring, jobs);
      && r.Ok? && Resumable(r.value, ring, cutoff)
      && SameMaterial(db, r.value) && StaysUnder(db, r.value, ring.active)
      && (forall i | 0 <= i < |jobs| :: Under(r.value, jobs[i].credentialId, ring.active))
    decreases |jobs|
  {
    hide Resumable, RewrapAs, TextOf, Under, Live;
    if jobs != [] {
      RewrapJob(db, ring, jobs[0], cutoff);
      var next, rest := RewrapAs(db, ring, jobs[0].credentialId, jobs[0].versionId, jobs[0].now).value.db, jobs[1..];
      assert FreshJobs(next, rest);
      RewrapJobs(next, ring, rest, cutoff);
      assert forall i | 1 <= i < |jobs| :: jobs[i] == rest[i - 1];
      assert Under(next, jobs[0].credentialId, ring.active) && Live(next, jobs[0].credentialId);
    }
  }

  /** Live credentials are the only ones with stored versions, one each, all under the active root. */
  lemma OnlyActiveRootLeft(db: Db, ring: KeyRing, root: Root)
    requires Inv(db) && Drained(db) && 0 < root && root != ring.active
    requires forall c | Live(db, c) :: Under(db, c, ring.active)
    ensures CanRemoveRoot(db, ring, root)
  {
    CanRemoveRootMeans(db, ring, root);
    forall v | v in db.versions
      ensures db.versions[v].root != root
    {
      var c := db.versions[v].credentialId;
      assert Live(db, c) && ActiveOf(db, c) == Some(db.versions[v]);
    }
  }

  lemma DrainedMaterial(db: Db, drained: Db, ring: KeyRing, cutoff: Time)
    requires Shaped(db) && PurgedTo(db, drained, cutoff)
    requires forall v | v in db.versions && db.versions[v].retiredAt.None? :: v in drained.versions
    ensures SameMaterial(db, drained) && StaysUnder(db, drained, ring.active)
  {
    hide Eligible;
    forall c | Live(db, c)
      ensures ActiveOf(drained, c) == ActiveOf(db, c)
    {
    }
  }

  lemma AfterDrain(db: Db, drained: Db, ring: KeyRing, cutoff: Time, later: Time)
    requires Inv(db) && Inv(drained) && Decryptable(ring, db)
    requires PurgedTo(db, drained, cutoff) && Drained(drained)
    requires forall v | v in db.versions && db.versions[v].retiredAt.None? :: v in drained.versions
    ensures Resumable(drained, ring, later)
    ensures SameMaterial(db, drained) && StaysUnder(db, drained, ring.active)
    ensures drained.versions.Keys <= db.versions.Keys
  {
    ShapeOf(db);
    hide Inv, Eligible, SameMaterial, StaysUnder, Decryptable, Linked, Shaped, Live, Under, Resumable, Drained;
    DrainedMaterial(db, drained, ring, cutoff);
    DrainedResumes(db, drained, ring, cutoff, later);
  }

  lemma DrainedResumes(db: Db, drained: Db, ring: KeyRing, cutoff: Time, later: Time)
    requires Inv(db) && Inv(drained) && Decryptable(ring, db) && PurgedTo(db, drained, cutoff) && Drained(drained)
    ensures Resumable(drained, ring, later)
  {
    hide Inv, Eligible, Decryptable, Linked, Shaped;
    FitIsDecryptable(ring, db);
    FitIsDecryptable(ring, drained);
  }

  lemma FitIsDecryptable(ring: KeyRing, db: Db)
    requires Inv(db)
    ensures Linked(db) && (Decryptable(ring, db) <==> KeysFit(ring, db))
  {
    hide Inv, Decryptable;
    ShapeOf(db);
    DecryptableMeans(ring, db);
  }

  /** The number of default-limit calls that drain `db`. */
  function CallsFor(db: Db, cutoff: Time): nat { (|Eligible(db, cutoff)| + 99) / 100 }

  /** Once every live credential is under the active root, `ceil(n / 100)` default-limit purges with a late
      enough cutoff make every other root removable and change no text. */
  lemma DrainMakesRemovable(db: Db, ring: KeyRing, cutoff: Time, now: Time)
    requires Inv(db) && Settled(db, cutoff) && cutoff <= now
    requires forall c | Live(db, c) :: Under(db, c, ring.active)
    ensures var final := PurgeCalls(db, cutoff, now, CallsFor(db, cutoff));
      && Inv(final) && SameMaterial(db, final)
      && forall root | 0 < root && root != ring.active :: CanRemoveRoot(final, ring, root)
  {
    hide Inv, Shaped, Settled, CanRemoveRoot, Live, Under, SameMaterial, StaysUnder, PurgeCalls, PurgedTo;
    var final := PurgeCalls(db, cutoff, now, CallsFor(db, cutoff));
    DrainRetired(db, cutoff, now);
    ShapeOf(db);
    DrainedMaterial(db, final, ring, cutoff);
    forall c | Live(final, c) ensures Under(final, c, ring.active) {
      SameLive(db, final, c);
      StillUnder(db, final, c, ring.active);
    }
    forall root | 0 < root && root != ring.active ensures CanRemoveRoot(final, ring, root) {
      OnlyActiveRootLeft(final, ring, root);
    }
  }

  /** Progress. From every consistent state whose versions the ring opens: drain, rewrap every live
      credential, drain again. No rewrap is refused, no secret text changes, and afterwards every
      root but the active one can be removed. */
  lemma RetirementProcedure(db: Db, ring: KeyRing, cutoff1: Time, now1: Time, jobs: seq<Job>, cutoff2: Time, now2: Time)
    requires Inv(db) && ring.Valid() && Decryptable(ring, db)
    requires Settled(db, cutoff1) && cutoff1 <= now1 && cutoff2 <= now2
    requires FreshJobs(db, jobs) && forall i | 0 <= i < |jobs| ::
      Live(db, jobs[i].credentialId) && jobs[i].now <= cutoff2
    requires forall c | Live(db, c) :: exists i :: 0 <= i < |jobs| && jobs[i].credentialId == c
    ensures var drained := PurgeCalls(db, cutoff1, now1, CallsFor(db, cutoff1));
      var rewrapped := RewrapEach(drained, ring, jobs);
      && rewrapped.Ok?
      && var final := PurgeCalls(rewrapped.value, cutoff2, now2, CallsFor(rewrapped.value, cutoff2));
         && Inv(final) && SameMaterial(db, final)
         && forall root | 0 < root && root != ring.active :: CanRemoveRoot(final, ring, root)
  {
    hide Inv, Settled, CanRemoveRoot, Decryptable, Ready, Live, Under, SameMaterial, StaysUnder, PurgeCalls,
      RewrapEach, PurgedTo;
    var drained := PurgeCalls(db, cutoff1, now1, CallsFor(db, cutoff1));
    DrainRetired(db, cutoff1, now1);
    AfterDrain(db, drained, ring, cutoff1, cutoff2);
    forall i | 0 <= i < |jobs| ensures Live(drained, jobs[i].credentialId) {
      SameLive(db, drained, jobs[i].credentialId);
    }
    RewrapJobs(drained, ring, jobs, cutoff2);
    var rewrapped := RewrapEach(drained, ring, jobs).value;
    var final := PurgeCalls(rewrapped, cutoff2, now2, CallsFor(rewrapped, cutoff2));
    SameMaterialTransitive(db, drained, rewrapped);
    forall c | Live(rewrapped, c) ensures Under(rewrapped, c, ring.active) {
      SameLive(db, rewrapped, c);
      var i :| 0 <= i < |jobs| && jobs[i].credentialId == c;
    }
    DrainMakesRemovable(rewrapped, ring, cutoff2, now2);
    SameMaterialTransitive(db, rewrapped, final);
  }

  lemma SameLive(db: Db, db': Db, c: Id)
    requires SameMaterial(db, db')
    ensures Live(db, c) <==> Live(db', c)
  {
  }

  lemma StillUnder(db: Db, db': Db, c: Id, root: Root)
    requires StaysUnder(db, db', root) && Live(db, c) && Under(db, c, root)
    ensures Under(db', c, root)
  {
  }

  lemma SameMaterialTransitive(a: Db, b: Db, c: Db)
    requires SameMaterial(a, b) && SameMaterial(b, c)
    ensures SameMaterial(a, c)
  {
    hide Live, TextOf;
  }
}
