/**
 The secret store as its callers see it: the live credentials, each with its owner, its name and the text
 it holds. Every transaction is stated by what it does to this view and by when it succeeds.
 */
module HeldSecrets {
  import opened Results
  import opened JsStrings
  import opened Secrets
  import opened SecretRuns
  import opened RootRetirement
  import opened EnvironmentVariables

  datatype Holding = Holding(environmentId: Id, kind: CredentialKind, name: JsString, text: JsString)

  type View = map<Id, Holding>

  function HoldingOf(db: Db, c: Id): Holding
    requires c in db.credentials && TextOf(db, c).Some?
  {
    Holding(db.credentials[c].environmentId, db.credentials[c].kind, db.credentials[c].name, TextOf(db, c).value)
  }

  function Held(db: Db): View
  {
    map c | c in db.credentials && Live(db, c) && TextOf(db, c).Some? :: HoldingOf(db, c)
  }

  /** A consistent store whose versions the ring opens. */
  ghost predicate Sound(db: Db, ring: KeyRing) { ring.Valid() && Inv(db) && KeysFit(ring, db) }

  predicate MayUse(view: View, c: Id, environmentId: Id) { c in view && view[c].environmentId == environmentId }

  lemma HeldIsLive(db: Db, c: Id)
    requires Inv(db)
    ensures c in Held(db) <==> Live(db, c)
  {
    hide Inv, WellFormed;
    if Live(db, c) { LiveHasActive(db, c); }
  }

  /** A view that differs in one credential at most. */
  lemma HeldBut(db: Db, db': Db, c: Id)
    requires UnaffectedBut(db, db', c)
    ensures Held(db') - {c} == Held(db) - {c}
  {
    hide TextOf, Live;
    forall d | d != c ensures (d in Held(db') <==> d in Held(db)) && (d in Held(db) ==> Held(db')[d] == Held(db)[d]) {
      assert SameCredential(db, db', d);
    }
  }

  lemma UpdatedView(before: View, after: View, c: Id, h: Holding)
    requires after - {c} == before - {c} && c in after && after[c] == h
    ensures after == before[c := h]
  {
    forall d ensures (d in after <==> d in before[c := h]) && (d in after ==> after[d] == before[c := h][d]) {
      assert d != c ==> (d in after <==> d in after - {c}) && (d in before <==> d in before - {c});
      assert d != c && d in after ==> after[d] == (after - {c})[d] && before[d] == (before - {c})[d];
    }
  }

  lemma SameView(db: Db, db': Db)
    requires SameMaterial(db, db') && db'.credentials.Keys == db.credentials.Keys
    requires forall c | c in db.credentials ::
      && db'.credentials[c].environmentId == db.credentials[c].environmentId
      && db'.credentials[c].kind == db.credentials[c].kind && db'.credentials[c].name == db.credentials[c].name
    ensures Held(db') == Held(db)
  {
    hide TextOf, Live;
  }

  // ----- Creating and rotating -------------------------------------------------------------------

  lemma CreateNeeds(db: Db, ring: KeyRing, auth: Authorization, kind: CredentialKind, name: JsString,
                    provider: Option<JsString>, text: JsString, c: Id, id: Id, now: Time)
    requires Sound(db, ring)
    ensures Create(db, ring, auth, kind, name, provider, text, c, id, now).Ok? <==>
      auth.MayMutate() && text != [] && Fresh(db, c, id) && !NameTaken(db, auth.environmentId, kind, name)
  {
    hide Inv, KeysFit, NameTaken, Serialize, Utf8RoundTrip, Shaped, VersionTaken, Linked;
    if c !in db.credentials { NoVersionsYet(db, c, ring.active); }
  }

  lemma NoVersionsYet(db: Db, c: Id, root: Root)
    requires Inv(db) && c !in db.credentials
    ensures !VersionTaken(db, c, 1, root)
  {
    ShapeOf(db);
  }

  /**
   Creating succeeds exactly for a permitted caller with some text, fresh identifiers and a name that no
   credential of the environment and kind has had; the credential then holds the text.
   */
  lemma CreateHolds(db: Db, ring: KeyRing, auth: Authorization, kind: CredentialKind, name: JsString,
                    provider: Option<JsString>, text: JsString, c: Id, id: Id, now: Time)
    requires Sound(db, ring)
    ensures var tx := Create(db, ring, auth, kind, name, provider, text, c, id, now);
      && (tx.Ok? <==>
            && auth.MayMutate() && text != [] && Fresh(db, c, id)
            && !NameTaken(db, auth.environmentId, kind, name))
      && (tx.Ok? ==>
            && tx.value.value == c && Sound(tx.value.db, ring)
            && Held(tx.value.db) == Held(db)[c := Holding(auth.environmentId, kind, name, Utf8RoundTrip(text))])
  {
    hide Inv, KeysFit, NameTaken, Create, Utf8RoundTrip, UnaffectedBut;
    CreateNeeds(db, ring, auth, kind, name, provider, text, c, id, now);
    var tx := Create(db, ring, auth, kind, name, provider, text, c, id, now);
    if tx.Ok? {
      CreateValue(db, ring, auth, kind, name, provider, text, c, id, now);
      CreateEffect(db, ring, auth, kind, name, provider, text, c, id, now);
      HeldBut(db, tx.value.db, c);
      UpdatedView(Held(db), Held(tx.value.db), c, Holding(auth.environmentId, kind, name, Utf8RoundTrip(text)));
    }
  }

  lemma CreateValue(db: Db, ring: KeyRing, auth: Authorization, kind: CredentialKind, name: JsString,
                    provider: Option<JsString>, text: JsString, c: Id, id: Id, now: Time)
    requires ring.Valid() && Create(db, ring, auth, kind, name, provider, text, c, id, now).Ok?
    ensures Create(db, ring, auth, kind, name, provider, text, c, id, now).value.value == c
  {
    hide InsertVersion, NameTaken;
  }

  /** Rotating succeeds exactly for a permitted caller on a credential held in their environment; only its
      text changes. */
  lemma RotateHolds(db: Db, ring: KeyRing, auth: Authorization, c: Id, text: JsString, until: Option<Time>, id: Id,
                    now: Time)
    requires Sound(db, ring)
    ensures var tx, view := Rotate(db, ring, auth, c, text, until, id, now), Held(db);
      && (tx.Ok? <==> auth.MayMutate() && text != [] && id !in db.versions && MayUse(view, c, auth.environmentId))
      && (tx.Ok? ==>
            && tx.value.value == c && Sound(tx.value.db, ring)
            && Held(tx.value.db) == view[c := view[c].(text := Utf8RoundTrip(text))])
  {
    hide Inv, KeysFit, Rotate, Utf8RoundTrip, UnaffectedBut;
    HeldIsLive(db, c);
    var tx, view := Rotate(db, ring, auth, c, text, until, id, now), Held(db);
    if tx.Ok? { RotateNeeds(db, ring, auth, c, text, until, id, now); }
    if auth.MayMutate() && text != [] && id !in db.versions && MayUse(view, c, auth.environmentId) {
      RotateEffect(db, ring, auth, c, text, until, id, now);
      HeldBut(db, tx.value.db, c);
      UpdatedView(view, Held(tx.value.db), c, view[c].(text := Utf8RoundTrip(text)));
    }
  }

  // ----- Rewrapping ------------------------------------------------------------------------------

  lemma RewrapRefused(db: Db, ring: KeyRing, auth: Authorization, c: Id, id: Id, now: Time)
    requires ring.Valid() && Rewrap(db, ring, auth, c, id, now).Ok?
    ensures auth.MayMutate() && Live(db, c) && db.credentials[c].environmentId == auth.environmentId
      && ActiveOf(db, c).Some?
    ensures Under(db, c, ring.active) || id !in db.versions
    ensures Rewrap(db, ring, auth, c, id, now).value.value == c
  {
    hide Serialize, Utf8RoundTrip;
  }

  /**
   Rewrapping succeeds exactly for a permitted caller on a credential held in their environment that is
   already under the active root or for which the unique index has room there. It changes no holding.
   */
  lemma RewrapHolds(db: Db, ring: KeyRing, auth: Authorization, c: Id, id: Id, now: Time)
    requires Sound(db, ring)
    ensures var tx := Rewrap(db, ring, auth, c, id, now);
      && (tx.Ok? <==>
            && auth.MayMutate() && MayUse(Held(db), c, auth.environmentId) && ActiveOf(db, c).Some?
            && (Under(db, c, ring.active)
                || (id !in db.versions && !VersionTaken(db, c, ActiveOf(db, c).value.revision, ring.active))))
      && (tx.Ok? ==> tx.value.value == c && Sound(tx.value.db, ring) && Under(tx.value.db, c, ring.active)
                     && Held(tx.value.db) == Held(db))
  {
    hide Inv, KeysFit, Rewrap, Decryptable, Linked, Shaped, VersionTaken, WellFormed;
    HeldIsLive(db, c);
    ShapeOf(db);
    DecryptableMeans(ring, db);
    var tx := Rewrap(db, ring, auth, c, id, now);
    if tx.Ok? { RewrapRefused(db, ring, auth, c, id, now); }
    if auth.MayMutate() && MayUse(Held(db), c, auth.environmentId) {
      LiveHasActive(db, c);
      RewrapOperator(db, ring, auth, c, id, now);
      if Under(db, c, ring.active) {
        RewrapIdle(db, ring, c, id, now);
      } else if id !in db.versions {
        RewrapExactly(db, ring, c, id, now);
        if tx.Ok? { RewrapMoves(db, ring, c, id, now); }
      }
    }
  }

  lemma RewrapIdle(db: Db, ring: KeyRing, c: Id, id: Id, now: Time)
    requires ring.Valid() && Live(db, c) && Under(db, c, ring.active)
    ensures RewrapAs(db, ring, c, id, now) == Ok(Commit(db, c))
  {
  }

  lemma RewrapMoves(db: Db, ring: KeyRing, c: Id, id: Id, now: Time)
    requires Sound(db, ring) && Decryptable(ring, db) && Live(db, c) && id !in db.versions
    requires !Under(db, c, ring.active) && RewrapAs(db, ring, c, id, now).Ok?
    ensures var db' := RewrapAs(db, ring, c, id, now).value.db;
      Sound(db', ring) && Under(db', c, ring.active) && Held(db') == Held(db)
  {
    hide Inv, KeysFit, Decryptable, Linked, Shaped, RewrapAs, SameMaterial, Held;
    ShapeOf(db);
    RewrapEffect(db, ring, c, id, now);
    var db', prior := RewrapAs(db, ring, c, id, now).value.db, db.credentials[c].activeVersion.value;
    RewrappedMaterial(db, db', ring, c, prior, id, now);
    RewrappedFits(db, db', ring, c, prior, id, now);
    SameView(db, db');
  }

  // ----- Revoking, reading and purging -----------------------------------------------------------

  /** Revoking succeeds exactly for a permitted caller on a credential held in their environment, which is
      held no more. */
  lemma RevokeHolds(db: Db, ring: KeyRing, auth: Authorization, c: Id, retention: Option<int>, now: Time)
    requires Sound(db, ring)
    ensures var tx, view := Revoke(db, auth, c, retention, now), Held(db);
      && (tx.Ok? <==> auth.MayMutate() && ValidRetention(retention) && MayUse(view, c, auth.environmentId))
      && (tx.Ok? ==> tx.value.value == c && Sound(tx.value.db, ring) && Held(tx.value.db) == view - {c})
  {
    hide Inv, KeysFit, Revoke, UnaffectedBut;
    HeldIsLive(db, c);
    var tx, view := Revoke(db, auth, c, retention, now), Held(db);
    if tx.Ok? { RevokeNeeds(db, auth, c, retention, now); RevokeValue(db, auth, c, retention, now); }
    if auth.MayMutate() && ValidRetention(retention) && MayUse(view, c, auth.environmentId) {
      RevokeEffect(db, ring, auth, c, retention, now);
      HeldBut(db, tx.value.db, c);
      assert Held(tx.value.db) == Held(tx.value.db) - {c};
    }
  }

  lemma RevokeValue(db: Db, auth: Authorization, c: Id, retention: Option<int>, now: Time)
    requires Revoke(db, auth, c, retention, now).Ok?
    ensures Revoke(db, auth, c, retention, now).value.value == c
  {
  }

  /** Reading succeeds exactly for a credential of the kind held in the environment, and returns what it holds. */
  lemma ReadHolds(db: Db, ring: KeyRing, environmentId: Id, c: Id, kind: CredentialKind)
    requires Sound(db, ring)
    ensures var tx, view := Read(db, ring, environmentId, c, kind), Held(db);
      && (tx.Ok? <==> MayUse(view, c, environmentId) && view[c].kind == kind)
      && (tx.Ok? ==> tx.value.value == view[c].text && Sound(tx.value.db, ring) && Held(tx.value.db) == view)
  {
    hide Inv, KeysFit, Read;
    HeldIsLive(db, c);
    var tx := Read(db, ring, environmentId, c, kind);
    if tx.Ok? { ReadNeeds(db, ring, environmentId, c, kind); }
    if MayUse(Held(db), c, environmentId) && Held(db)[c].kind == kind {
      ReadLive(db, ring, environmentId, c, kind);
      SameFit(db, tx.value.db, ring);
    }
  }

  lemma ReadNeeds(db: Db, ring: KeyRing, environmentId: Id, c: Id, kind: CredentialKind)
    requires Read(db, ring, environmentId, c, kind).Ok?
    ensures Live(db, c) && db.credentials[c].environmentId == environmentId && db.credentials[c].kind == kind
  {
    hide Reveal;
  }

  lemma SameFit(db: Db, db': Db, ring: KeyRing)
    requires KeysFit(ring, db) && db'.credentials == db.credentials && db'.versions == db.versions
    ensures KeysFit(ring, db') && Held(db') == Held(db)
  {
  }

  /** Purging succeeds exactly on a valid request and never touches what is held. */
  lemma PurgeHolds(db: Db, ring: KeyRing, ops: bool, cutoff: Time, limit: Option<int>, now: Time)
    requires Sound(db, ring)
    ensures var tx := PurgeRetired(db, ops, cutoff, limit, now);
      && (tx.Ok? <==> ops && cutoff <= now && (limit.Some? ==> limit.value > 0))
      && (tx.Ok? ==> Sound(tx.value.db, ring) && Held(tx.value.db) == Held(db))
  {
    hide Inv, KeysFit, Held, PurgeAll, OldestFirst, SameMaterial, Shaped, PurgedTo, Purgeable;
    if ops && cutoff <= now && (limit.Some? ==> limit.value > 0) {
      var ids := OldestFirst(db, Eligible(db, cutoff), PurgeLimit(limit));
      PurgeAllKeeps(db, ids, cutoff);
      var db' := PurgeAll(db, ids, cutoff).value;
      RemovedEligible(db, db', ids, cutoff);
      ShapeOf(db);
      forall v | v in db.versions && db.versions[v].retiredAt.None? ensures v in db'.versions {
        UnretiredStays(db, v, cutoff);
        assert v !in SetOf(ids);
      }
      DrainedMaterial(db, db', ring, cutoff);
      SameView(db, db');
      FewerFit(db, db', ring);
    }
  }

  lemma FewerFit(db: Db, db': Db, ring: KeyRing)
    requires KeysFit(ring, db) && forall v | v in db'.versions :: v in db.versions && db'.versions[v] == db.versions[v]
    ensures KeysFit(ring, db')
  {
  }
}
