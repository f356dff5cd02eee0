/**
 What every run of the secret store keeps. A run is a sequence of transactions in any order,
 each under the key ring of whichever process executed it.
 */
module SecretRuns {
  import opened Results
  import opened JsStrings
  import opened Secrets

  // ----- The invariant ---------------------------------------------------------------------------

  /** Versions belong to credentials, and the active version of a credential is one of its own. */
  ghost predicate Linked(db: Db)
  {
    && (forall v | v in db.versions :: db.versions[v].credentialId in db.credentials)
    && (forall c | c in db.credentials && db.credentials[c].activeVersion.Some? ::
          && db.credentials[c].activeVersion.value in db.versions
          && db.versions[db.credentials[c].activeVersion.value].credentialId == c)
  }

  /** A version is unretired exactly when it is the active version of its credential. */
  ghost predicate UnretiredIsActive(db: Db)
    requires Linked(db)
  {
    forall v | v in db.versions ::
      db.versions[v].retiredAt.None? <==> db.credentials[db.versions[v].credentialId].activeVersion == Some(v)
  }

  /** Only a retired version can have a limit on how long it stays readable. */
  ghost predicate UnretiredUnlimited(db: Db)
  {
    forall v | v in db.versions && db.versions[v].retiredAt.None? :: db.versions[v].readableUntil.None?
  }

  /** No version of a credential has a higher revision than the active one. */
  ghost predicate ActiveIsNewest(db: Db)
    requires Linked(db)
  {
    forall v | v in db.versions && db.credentials[db.versions[v].credentialId].activeVersion.Some? ::
      db.versions[v].revision <= db.versions[db.credentials[db.versions[v].credentialId].activeVersion.value].revision
  }

  ghost predicate InactiveIsRevoked(db: Db)
  {
    forall c | c in db.credentials :: db.credentials[c].activeVersion.None? <==> db.credentials[c].revokedAt.Some?
  }

  ghost predicate NamesUnique(db: Db)
  {
    forall c, d | c in db.credentials && d in db.credentials
      && db.credentials[c].environmentId == db.credentials[d].environmentId
      && db.credentials[c].kind == db.credentials[d].kind
      && db.credentials[c].name == db.credentials[d].name :: c == d
  }

  /** Every envelope is bound to the row it is stored in and holds non-empty, well-formed text. */
  ghost predicate Sealed(db: Db)
    requires Linked(db)
  {
    forall v | v in db.versions ::
      && db.versions[v].envelope.aad
         == Serialize(ContextOf(db.credentials[db.versions[v].credentialId].environmentId, db.versions[v]))
      && db.versions[v].envelope.utf8 != []
      && WellFormed(db.versions[v].envelope.utf8)
  }

  function CountOf(audits: seq<Audit>, action: Action): nat
  {
    if audits == [] then 0
    else CountOf(audits[..|audits| - 1], action) + (if audits[|audits| - 1].action == action then 1 else 0)
  }

  /** Versions inserted and versions deleted are all accounted for in the audit log. */
  ghost predicate Accounted(db: Db)
  {
    |db.versions| + CountOf(db.audits, PURGE)
      == CountOf(db.audits, CREATE) + CountOf(db.audits, ROTATE) + CountOf(db.audits, REWRAP)
  }

  ghost predicate Inv(db: Db)
  {
    && Linked(db)
    && UnretiredIsActive(db)
    && UnretiredUnlimited(db)
    && ActiveIsNewest(db)
    && InactiveIsRevoked(db)
    && NamesUnique(db)
    && Sealed(db)
    && Accounted(db)
  }

  // ----- Runs ------------------------------------------------------------------------------------

  datatype Op =
    | DoCreate(auth: Authorization, kind: CredentialKind, name: JsString, provider: Option<JsString>,
               plaintext: JsString, credentialId: Id, versionId: Id, now: Time)
    | DoRotate(auth: Authorization, credentialId: Id, plaintext: JsString, readableUntil: Option<Time>,
               versionId: Id, now: Time)
    | DoRewrap(auth: Authorization, credentialId: Id, versionId: Id, now: Time)
    | DoRevoke(auth: Authorization, credentialId: Id, retentionMs: Option<int>, now: Time)
    | DoPurge(rootOperations: bool, cutoff: Time, limit: Option<int>, now: Time)
    | DoRead(environmentId: Id, credentialId: Id, kind: CredentialKind)

  function Committed<T>(db: Db, tx: Tx<T>): Db { if tx.Ok? then tx.value.db else db }

  function Apply(db: Db, ring: KeyRing, op: Op): Db
    requires ring.Valid()
  {
    match op
    case DoCreate(auth, kind, name, provider, plaintext, c, v, now) =>
      Committed(db, Create(db, ring, auth, kind, name, provider, plaintext, c, v, now))
    case DoRotate(auth, c, plaintext, until, v, now) =>
      Committed(db, Rotate(db, ring, auth, c, plaintext, until, v, now))
    case DoRewrap(auth, c, v, now) => Committed(db, Rewrap(db, ring, auth, c, v, now))
    case DoRevoke(auth, c, retention, now) => Committed(db, Revoke(db, auth, c, retention, now))
    case DoPurge(ops, cutoff, limit, now) => Committed(db, PurgeRetired(db, ops, cutoff, limit, now))
    case DoRead(env, c, kind) => Committed(db, Read(db, ring, env, c, kind))
  }

  datatype Event = Event(ring: KeyRing, op: Op)

  predicate ValidRun(run: seq<Event>) { forall i | 0 <= i < |run| :: run[i].ring.Valid() }

  function Run(db: Db, run: seq<Event>): Db
    requires ValidRun(run)
  {
    if run == [] then db
    else Apply(Run(db, run[..|run| - 1]), run[|run| - 1].ring, run[|run| - 1].op)
  }

  // ----- Steps keep the invariant ----------------------------------------------------------------

  lemma CountAppend(audits: seq<Audit>, entry: Audit, action: Action)
    ensures CountOf(audits + [entry], action) == CountOf(audits, action) + (if entry.action == action then 1 else 0)
  {
    assert (audits + [entry])[..|audits|] == audits;
  }

  lemma CountEach(audits: seq<Audit>, entry: Audit)
    ensures forall action ::
      CountOf(audits + [entry], action) == CountOf(audits, action) + (if entry.action == action then 1 else 0)
  {
    forall action { CountAppend(audits, entry, action); }
  }

  /** A sealed version is the only row an insert adds. */
  lemma Inserted(db: Db, ring: KeyRing, env: Id, c: Id, revision: nat, plaintext: JsString, id: Id, now: Time)
    requires ring.Valid()
    ensures var r := InsertVersion(db, ring, env, c, revision, plaintext, id, now);
      r.Ok? ==>
        && id !in db.versions
        && !VersionTaken(db, c, revision, ring.active)
        && r.value == db.(versions := db.versions[id := r.value.versions[id]])
        && |r.value.versions| == |db.versions| + 1
        && var v := r.value.versions[id];
           && v.credentialId == c && v.revision == revision && v.root == ring.active
           && v.retiredAt.None? && v.readableUntil.None?
           && v.envelope == Envelope(ring.keys[ring.active], Serialize(ContextOf(env, v)), Utf8RoundTrip(plaintext))
           && v.envelope.utf8 != [] && WellFormed(v.envelope.utf8)
  {
    RoundTripIsWellFormed(plaintext);
    var r := InsertVersion(db, ring, env, c, revision, plaintext, id, now);
    if r.Ok? {
      assert r.value.versions.Keys == db.versions.Keys + {id};
    }
  }

  /** The parts of the invariant that concern how rows refer to each other. */
  ghost predicate Shaped(db: Db)
  {
    && Linked(db)
    && UnretiredIsActive(db)
    && UnretiredUnlimited(db)
    && ActiveIsNewest(db)
    && InactiveIsRevoked(db)
  }

  lemma AddedCredentialShape(db: Db, c: Id, credential: Credential, id: Id, v: Version, db': Db)
    requires Shaped(db) && c !in db.credentials && id !in db.versions
    requires credential.activeVersion == Some(id) && credential.revokedAt.None?
    requires v.credentialId == c && v.retiredAt.None? && v.readableUntil.None?
    requires db'.credentials == db.credentials[c := credential] && db'.versions == db.versions[id := v]
    ensures Shaped(db')
  {
    assert Linked(db');
    assert UnretiredIsActive(db');
  }

  lemma AddedNames(db: Db, db': Db, c: Id, credential: Credential)
    requires NamesUnique(db) && !NameTaken(db, credential.environmentId, credential.kind, credential.name)
    requires db'.credentials == db.credentials[c := credential]
    ensures NamesUnique(db')
  {
  }

  lemma AddedSealed(db: Db, db': Db, c: Id, credential: Credential, id: Id, v: Version)
    requires Linked(db) && Linked(db') && Sealed(db) && c !in db.credentials && v.credentialId == c
    requires db'.credentials == db.credentials[c := credential] && db'.versions == db.versions[id := v]
    requires v.envelope.aad == Serialize(ContextOf(credential.environmentId, v))
    requires v.envelope.utf8 != [] && WellFormed(v.envelope.utf8)
    ensures Sealed(db')
  {
    hide Serialize, WellFormed;
  }

  lemma CreateKeeps(db: Db, ring: KeyRing, auth: Authorization, kind: CredentialKind, name: JsString,
                    provider: Option<JsString>, plaintext: JsString, c: Id, id: Id, now: Time)
    requires Inv(db) && ring.Valid()
    ensures Inv(Committed(db, Create(db, ring, auth, kind, name, provider, plaintext, c, id, now)))
  {
    hide Serialize, Utf8RoundTrip, WellFormed, CountOf, InsertVersion, Linked, UnretiredIsActive, UnretiredUnlimited,
      ActiveIsNewest, InactiveIsRevoked, NamesUnique, Sealed, NameTaken, VersionTaken;
    var tx := Create(db, ring, auth, kind, name, provider, plaintext, c, id, now);
    Inserted(db, ring, auth.environmentId, c, 1, plaintext, id, now);
    if tx.Ok? {
      CountEach(db.audits, Audit(auth.environmentId, c, CREATE, 1, None, Some(ring.active)));
      var db' := tx.value.db;
      var credential, v := Credential(auth.environmentId, kind, name, provider, Some(id), None), db'.versions[id];
      assert db'.credentials == db.credentials[c := credential] && db'.versions == db.versions[id := v];
      AddedCredentialShape(db, c, credential, id, v, db');
      AddedNames(db, db', c, credential);
      AddedSealed(db, db', c, credential, id, v);
    }
  }

  /** What superseding the active version of `c` does to the tables, whoever asks for it. */
  ghost predicate Superseded(db: Db, db': Db, c: Id, prior: Id, id: Id)
  {
    && c in db.credentials && db.credentials[c].activeVersion == Some(prior) && prior in db.versions
      && id !in db.versions
    && id in db'.versions
    && db'.credentials == db.credentials[c := db.credentials[c].(activeVersion := Some(id))]
    && db'.versions.Keys == db.versions.Keys + {id}
    && (forall v | v in db.versions && v != prior :: db'.versions[v] == db.versions[v])
    && db'.versions[prior].retiredAt.Some?
    && db'.versions[prior] == db.versions[prior].(retiredAt := db'.versions[prior].retiredAt,
                                              readableUntil := db'.versions[prior].readableUntil)
    && db'.versions[id].credentialId == c && db'.versions[id].retiredAt.None? && db'.versions[id].readableUntil.None?
    && db'.versions[id].revision >= db.versions[prior].revision
  }

  lemma SupersededShape(db: Db, db': Db, c: Id, prior: Id, id: Id)
    requires Shaped(db) && Superseded(db, db', c, prior, id)
    ensures Shaped(db')
  {
    SupersededLinks(db, db', c, prior, id);
    SupersededActive(db, db', c, prior, id);
    SupersededNewest(db, db', c, prior, id);
    hide Linked, UnretiredIsActive, ActiveIsNewest;
  }

  lemma SupersededLinks(db: Db, db': Db, c: Id, prior: Id, id: Id)
    requires Linked(db) && Superseded(db, db', c, prior, id)
    ensures Linked(db')
  {
  }

  lemma SupersededActive(db: Db, db': Db, c: Id, prior: Id, id: Id)
    requires Linked(db) && Linked(db') && UnretiredIsActive(db) && Superseded(db, db', c, prior, id)
    ensures UnretiredIsActive(db')
  {
  }

  lemma SupersededNewest(db: Db, db': Db, c: Id, prior: Id, id: Id)
    requires Linked(db) && Linked(db') && ActiveIsNewest(db) && Superseded(db, db', c, prior, id)
    ensures ActiveIsNewest(db')
  {
  }

  lemma SupersededSealed(db: Db, db': Db, c: Id, prior: Id, id: Id)
    requires Linked(db) && Linked(db') && Sealed(db) && Superseded(db, db', c, prior, id)
    requires var v := db'.versions[id];
      && v.envelope.aad == Serialize(ContextOf(db.credentials[c].environmentId, v))
      && v.envelope.utf8 != [] && WellFormed(v.envelope.utf8)
    ensures Sealed(db')
  {
    hide Serialize, WellFormed;
  }

  lemma SameNames(db: Db, db': Db, c: Id, active: Option<Id>, revokedAt: Option<Time>)
    requires NamesUnique(db) && c in db.credentials
    requires db'.credentials == db.credentials[c := db.credentials[c].(activeVersion := active, revokedAt := revokedAt)]
    ensures NamesUnique(db')
  {
  }

  /** Rotating and rewrapping share one shape: a new version that is no older takes over. */
  lemma SupersedeKeeps(db: Db, inserted: Db, c: Id, active: ActiveSecret, id: Id, now: Time, until: Option<Time>,
                       entry: Audit)
    requires Inv(db) && c in db.credentials && active.credential == db.credentials[c]
    requires db.credentials[c].activeVersion == Some(active.versionId)
    requires active.versionId in db.versions && db.versions[active.versionId] == active.version
    requires id !in db.versions && id in inserted.versions
    requires inserted == db.(versions := db.versions[id := inserted.versions[id]])
    requires |inserted.versions| == |db.versions| + 1
    requires var v := inserted.versions[id];
      && v.credentialId == c && v.retiredAt.None? && v.readableUntil.None? && v.revision >= active.version.revision
      && v.envelope.aad == Serialize(ContextOf(db.credentials[c].environmentId, v))
      && v.envelope.utf8 != [] && WellFormed(v.envelope.utf8)
    requires entry.action == ROTATE || entry.action == REWRAP
    ensures Inv(Audited(Supersede(inserted, c, active, id, now, until), entry))
  {
    hide Serialize, WellFormed, CountOf, Linked, UnretiredIsActive, UnretiredUnlimited, ActiveIsNewest,
      InactiveIsRevoked, Sealed, NamesUnique;
    var db' := Audited(Supersede(inserted, c, active, id, now, until), entry);
    CountEach(db.audits, entry);
    assert db'.versions.Keys == inserted.versions.Keys;
    assert |db'.versions| == |inserted.versions|;
    SameNames(db, db', c, Some(id), db.credentials[c].revokedAt);
    SupersededShape(db, db', c, active.versionId, id);
    SupersededSealed(db, db', c, active.versionId, id);
  }

  lemma RotateKeeps(db: Db, ring: KeyRing, auth: Authorization, c: Id, plaintext: JsString, until: Option<Time>,
                    id: Id, now: Time)
    requires Inv(db) && ring.Valid()
    ensures Inv(Committed(db, Rotate(db, ring, auth, c, plaintext, until, id, now)))
  {
    hide Inv, Serialize, Utf8RoundTrip, WellFormed, CountOf, InsertVersion, Supersede, VersionTaken;
    var tx := Rotate(db, ring, auth, c, plaintext, until, id, now);
    if tx.Ok? {
      var active := LockActive(db, auth.environmentId, c).value;
      var revision := active.version.revision + 1;
      Inserted(db, ring, auth.environmentId, c, revision, plaintext, id, now);
      var inserted := InsertVersion(db, ring, auth.environmentId, c, revision, plaintext, id, now).value;
      SupersedeKeeps(db, inserted, c, active, id, now, until,
        Audit(auth.environmentId, c, ROTATE, revision, Some(active.version.root), Some(ring.active)));
    }
  }

  lemma RewrapKeeps(db: Db, ring: KeyRing, auth: Authorization, c: Id, id: Id, now: Time)
    requires Inv(db) && ring.Valid()
    ensures Inv(Committed(db, Rewrap(db, ring, auth, c, id, now)))
  {
    hide Inv, Serialize, Utf8RoundTrip, WellFormed, CountOf, InsertVersion, Supersede, VersionTaken, Reveal;
    var tx := Rewrap(db, ring, auth, c, id, now);
    if tx.Ok? {
      var active := LockActive(db, auth.environmentId, c).value;
      if active.version.root != ring.active {
        var revision := active.version.revision;
        var material := Reveal(ring, auth.environmentId, active.version.(credentialId := c)).value;
        Inserted(db, ring, auth.environmentId, c, revision, material, id, now);
        var inserted := InsertVersion(db, ring, auth.environmentId, c, revision, material, id, now).value;
        SupersedeKeeps(db, inserted, c, active, id, now, None,
          Audit(auth.environmentId, c, REWRAP, revision, Some(active.version.root), Some(ring.active)));
      }
    }
  }

  /** What revoking does to the tables: the active version is retired and none takes its place. */
  ghost predicate RevokedFrom(db: Db, db': Db, c: Id, prior: Id, now: Time)
  {
    && c in db.credentials && db.credentials[c].activeVersion == Some(prior) && prior in db.versions
    && db'.credentials == db.credentials[c := db.credentials[c].(activeVersion := None, revokedAt := Some(now))]
    && db'.versions.Keys == db.versions.Keys
    && (forall v | v in db.versions && v != prior :: db'.versions[v] == db.versions[v])
    && db'.versions[prior].retiredAt.Some?
    && db'.versions[prior] == db.versions[prior].(retiredAt := db'.versions[prior].retiredAt,
                                                  readableUntil := db'.versions[prior].readableUntil)
  }

  lemma RevokedShape(db: Db, db': Db, c: Id, prior: Id, now: Time)
    requires Shaped(db) && RevokedFrom(db, db', c, prior, now)
    ensures Shaped(db')
  {
    assert Linked(db');
    assert UnretiredIsActive(db');
  }

  lemma RevokedSealed(db: Db, db': Db, c: Id, prior: Id, now: Time)
    requires Linked(db) && Linked(db') && Sealed(db) && RevokedFrom(db, db', c, prior, now)
    ensures Sealed(db')
  {
    hide Serialize, WellFormed;
  }

  lemma RevokedKeeps(db: Db, db': Db, c: Id, prior: Id, now: Time, entry: Audit)
    requires Inv(db) && RevokedFrom(db, db', c, prior, now)
    requires db'.audits == db.audits + [entry] && entry.action == REVOKE
    ensures Inv(db')
  {
    hide Serialize, WellFormed, CountOf, Linked, UnretiredIsActive, UnretiredUnlimited, ActiveIsNewest,
      InactiveIsRevoked,
      NamesUnique, Sealed;
    CountEach(db.audits, entry);
    assert |db'.versions| == |db'.versions.Keys| == |db.versions.Keys| == |db.versions|;
    RevokedShape(db, db', c, prior, now);
    RevokedSealed(db, db', c, prior, now);
    hide RevokedFrom;
    assert db'.credentials == db.credentials[c := db.credentials[c].(activeVersion := None, revokedAt := Some(now))];
    SameNames(db, db', c, None, Some(now));
  }

  lemma RevokeKeeps(db: Db, auth: Authorization, c: Id, retention: Option<int>, now: Time)
    requires Inv(db)
    ensures Inv(Committed(db, Revoke(db, auth, c, retention, now)))
  {
    hide Inv;
    var tx := Revoke(db, auth, c, retention, now);
    if tx.Ok? {
      var active := LockActive(db, auth.environmentId, c).value;
      RevokedKeeps(db, tx.value.db, c, active.versionId, now,
        Audit(auth.environmentId, c, REVOKE, active.version.revision, Some(active.version.root), None));
    }
  }

  lemma PurgedShape(db: Db, db': Db, id: Id, cutoff: Time)
    requires Shaped(db) && Sealed(db) && id in db.versions && Purgeable(db, id, cutoff)
    requires db'.credentials == db.credentials && db'.versions == db.versions - {id}
    ensures Shaped(db') && Sealed(db')
  {
    hide Serialize, WellFormed;
    assert Linked(db');
  }

  lemma PurgeOneKeeps(db: Db, id: Id, cutoff: Time)
    requires Inv(db) && id in db.versions && Purgeable(db, id, cutoff)
    ensures Inv(PurgeOne(db, id))
  {
    hide CountOf, Linked, UnretiredIsActive, UnretiredUnlimited, ActiveIsNewest, InactiveIsRevoked, Sealed, NamesUnique;
    var db' := PurgeOne(db, id);
    CountEach(db.audits, PurgeEntry(db, id));
    assert db'.versions.Keys == db.versions.Keys - {id};
    assert |db'.versions| == |db.versions| - 1;
    PurgedShape(db, db', id, cutoff);
    SameCredentials(db, db');
  }

  lemma SameCredentials(db: Db, db': Db)
    requires NamesUnique(db) && db'.credentials == db.credentials
    ensures NamesUnique(db')
  {
  }

  function SetOf(ids: seq<Id>): set<Id> { set id | id in ids }

  lemma PurgeOneOthers(db: Db, id: Id, other: Id, cutoff: Time)
    requires id in db.versions && Purgeable(db, id, cutoff) && other in db.versions && other != id
    ensures other in PurgeOne(db, id).versions
    ensures Purgeable(PurgeOne(db, id), other, cutoff) == Purgeable(db, other, cutoff)
  {
  }

  /** The candidate loop deletes exactly its candidates, never aborts, and keeps the invariant. */
  lemma {:induction false} PurgeAllKeeps(db: Db, ids: seq<Id>, cutoff: Time)
    requires Inv(db)
    requires forall i | 0 <= i < |ids| :: ids[i] in db.versions && Purgeable(db, ids[i], cutoff)
    requires forall i, j | 0 <= i < j < |ids| :: ids[i] != ids[j]
    ensures var r := PurgeAll(db, ids, cutoff);
      && r.Ok? && Inv(r.value)
      && r.value.versions == db.versions - SetOf(ids)
      && r.value.credentials == db.credentials
    decreases |ids|
  {
    hide Inv;
    if ids != [] {
      var db', rest := PurgeOne(db, ids[0]), ids[1..];
      PurgeOneKeeps(db, ids[0], cutoff);
      forall i | 0 <= i < |rest|
        ensures rest[i] in db'.versions && Purgeable(db', rest[i], cutoff)
      {
        PurgeOneOthers(db, ids[0], ids[i + 1], cutoff);
      }
      assert db'.credentials == db.credentials && db'.versions == db.versions - {ids[0]};
      hide Purgeable, PurgeOne;
      PurgeAllKeeps(db', rest, cutoff);
      assert ids == [ids[0]] + rest;
      assert SetOf(ids) == {ids[0]} + SetOf(rest);
      assert db.versions - SetOf(ids) == db.versions - {ids[0]} - SetOf(rest);
    } else {
      assert db.versions - {} == db.versions;
    }
  }

  lemma PurgeKeeps(db: Db, ops: bool, cutoff: Time, limit: Option<int>, now: Time)
    requires Inv(db)
    ensures Inv(Committed(db, PurgeRetired(db, ops, cutoff, limit, now)))
  {
    hide Inv;
    if ops && cutoff <= now && (limit.Some? ==> limit.value > 0) {
      PurgeAllKeeps(db, OldestFirst(db, Eligible(db, cutoff), PurgeLimit(limit)), cutoff);
    }
  }

  lemma SameRowsShape(db: Db, db': Db)
    requires Shaped(db) && Sealed(db) && db'.credentials == db.credentials && db'.versions == db.versions
    ensures Shaped(db') && Sealed(db')
  {
    hide Serialize, WellFormed;
  }

  lemma ReadKeeps(db: Db, ring: KeyRing, env: Id, c: Id, kind: CredentialKind)
    requires Inv(db)
    ensures Inv(Committed(db, Read(db, ring, env, c, kind)))
  {
    hide CountOf, Linked, UnretiredIsActive, UnretiredUnlimited, ActiveIsNewest, InactiveIsRevoked, NamesUnique,
      Sealed, Reveal;
    var tx := Read(db, ring, env, c, kind);
    if tx.Ok? {
      var active := LockActive(db, env, c).value;
      CountEach(db.audits,
                Audit(env, c, READ, active.version.revision, Some(active.version.root), Some(active.version.root)));
      SameRowsShape(db, tx.value.db);
      SameCredentials(db, tx.value.db);
    }
  }

  lemma StepKeeps(db: Db, ring: KeyRing, op: Op)
    requires Inv(db) && ring.Valid()
    ensures Inv(Apply(db, ring, op))
  {
    hide Inv, Create, Rotate, Rewrap, Revoke, PurgeRetired, Read;
    match op
    case DoCreate(auth, kind, name, provider, plaintext, c, v, now) =>
      CreateKeeps(db, ring, auth, kind, name, provider, plaintext, c, v, now);
    case DoRotate(auth, c, plaintext, until, v, now) => RotateKeeps(db, ring, auth, c, plaintext, until, v, now);
    case DoRewrap(auth, c, v, now) => RewrapKeeps(db, ring, auth, c, v, now);
    case DoRevoke(auth, c, retention, now) => RevokeKeeps(db, auth, c, retention, now);
    case DoPurge(ops, cutoff, limit, now) => PurgeKeeps(db, ops, cutoff, limit, now);
    case DoRead(env, c, kind) => ReadKeeps(db, ring, env, c, kind);
  }

  lemma {:induction false} RunFrom(db: Db, run: seq<Event>)
    requires Inv(db) && ValidRun(run)
    ensures Inv(Run(db, run))
    decreases |run|
  {
    hide Inv, Apply;
    if run != [] {
      RunFrom(db, run[..|run| - 1]);
      StepKeeps(Run(db, run[..|run| - 1]), run[|run| - 1].ring, run[|run| - 1].op);
    }
  }

  /** Every reachable database, whatever the interleaving and whatever the key rings in use. */
  lemma EveryRunIsConsistent(run: seq<Event>)
    requires ValidRun(run)
    ensures Inv(Run(EMPTY, run))
  {
    RunFrom(EMPTY, run);
  }
}
