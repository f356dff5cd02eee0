/**
 Environment variables on top of the secret store. Each variable is PLAIN and holds its value, or
 SECRET and refers to a credential of the same name; setting and deleting move it between the two.
 */
module EnvironmentVariables {
  import opened Results
  import opened JsStrings
  import opened Secrets
  import opened SecretRuns
  import opened RootRetirement

  const VALUE_MAX_LENGTH := 8192

  datatype VariableKind = PLAIN | SECRET

  /** The unique index over environment and key. */
  datatype VarKey = VarKey(environmentId: Id, key: JsString)

  datatype Variable = Variable(kind: VariableKind, value: Option<JsString>, credentialId: Option<Id>, version: nat)

  type Variables = map<VarKey, Variable>

  // ----- Input validation ------------------------------------------------------------------------

  predicate IsUpper(u: CodeUnit) { 65 <= u <= 90 }
  predicate IsKeyUnit(u: CodeUnit) { IsUpper(u) || 48 <= u <= 57 || u == 95 }

  /** `^[A-Z][A-Z0-9_]{0,63}$` */
  predicate ValidKey(key: JsString)
  {
    1 <= |key| <= 64 && IsUpper(key[0]) && forall i | 0 < i < |key| :: IsKeyUnit(key[i])
  }

  function NormalizeKey(input: JsString): Result<JsString, Error>
  {
    if ValidKey(Trim(input)) then Ok(Trim(input)) else Err(NameInvalid)
  }

  function NormalizeInput(input: JsString, value: JsString): Result<JsString, Error>
  {
    match NormalizeKey(input)
    case Err(e) => Err(e)
    case Ok(key) =>
      if |value| == 0 then Err(ValueRequired)
      else if |value| > VALUE_MAX_LENGTH then Err(ValueTooLong)
      else Ok(key)
  }

  // ----- Transactions ----------------------------------------------------------------------------

  predicate IsReference(c: Credential, k: VarKey)
  {
    c.kind == SecretReference && c.environmentId == k.environmentId && c.name == k.key
  }

  predicate IsLiveReference(db: Db, c: Id, k: VarKey)
  {
    c in db.credentials && IsReference(db.credentials[c], k) && Live(db, c) && db.credentials[c].activeVersion.Some?
  }

  /** The credential lookup of `set`: an unrevoked secret reference of this name. */
  ghost function FindReference(db: Db, k: VarKey): (r: Option<Id>)
    ensures r.Some? ==> IsLiveReference(db, r.value, k)
    ensures r.None? ==> forall c | c in db.credentials :: !IsLiveReference(db, c, k)
  {
    if c :| IsLiveReference(db, c, k) then Some(c) else None
  }

  /** The trigger on the variable table: a reference must be to a live secret reference. */
  predicate ReferenceAllowed(db: Db, environmentId: Id, c: Id)
  {
    && c in db.credentials && db.credentials[c].environmentId == environmentId
    && db.credentials[c].kind == SecretReference
    && db.credentials[c].revokedAt.None? && db.credentials[c].activeVersion.Some?
  }

  datatype Stores = Stores(db: Db, vars: Variables)

  function NextVersion(vars: Variables, k: VarKey): nat { if k in vars then vars[k].version + 1 else 1 }

  function CredentialOf(vars: Variables, k: VarKey): Option<Id>
  {
    if k in vars then vars[k].credentialId else None
  }

  ghost function WriteSecret(db: Db, vars: Variables, ring: KeyRing, auth: Authorization, k: VarKey, value: JsString,
                             credentialId: Id, versionId: Id, now: Time): Tx<Id>
    requires ring.Valid()
  {
    var reusable := if CredentialOf(vars, k).Some? then CredentialOf(vars, k) else FindReference(db, k);
    match reusable
    case Some(c) => Rotate(db, ring, auth, c, value, None, versionId, now)
    case None => Create(db, ring, auth, SecretReference, k.key, None, value, credentialId, versionId, now)
  }

  function RevokeIfUnreferenced(db: Db, vars: Variables, auth: Authorization, c: Option<Id>,
                                now: Time): Result<Db, Error>
  {
    if c.None? || (exists k | k in vars :: vars[k].credentialId == c) then Ok(db) else
    match Revoke(db, auth, c.value, None, now)
    case Err(e) => Err(e)
    case Ok(commit) => Ok(commit.db)
  }

  ghost function Set(s: Stores, ring: KeyRing, auth: Authorization, keyInput: JsString, value: JsString, secret: bool,
                     credentialId: Id, versionId: Id, now: Time): Result<Stores, Error>
    requires ring.Valid()
  {
    if !auth.MayMutate() then Err(VariableForbidden) else
    match NormalizeInput(keyInput, value)
    case Err(e) => Err(e)
    case Ok(key) =>
      var k := VarKey(auth.environmentId, key);
      if secret then
        match WriteSecret(s.db, s.vars, ring, auth, k, value, credentialId, versionId, now)
        case Err(e) => Err(e)
        case Ok(commit) =>
          if !ReferenceAllowed(commit.db, auth.environmentId, commit.value) then Err(CredentialUnavailable)
          else Ok(Stores(commit.db, s.vars[k := Variable(SECRET, None, Some(commit.value), NextVersion(s.vars, k))]))
      else
        var vars := s.vars[k := Variable(PLAIN, Some(value), None, NextVersion(s.vars, k))];
        match RevokeIfUnreferenced(s.db, vars, auth, CredentialOf(s.vars, k), now)
        case Err(e) => Err(e)
        case Ok(db) => Ok(Stores(db, vars))
  }

  datatype Deleted = Deleted(stores: Stores, deleted: bool)

  function Delete(s: Stores, auth: Authorization, keyInput: JsString, now: Time): Result<Deleted, Error>
  {
    if !auth.MayMutate() then Err(VariableForbidden) else
    match NormalizeKey(keyInput)
    case Err(e) => Err(e)
    case Ok(key) =>
      var k := VarKey(auth.environmentId, key);
      if k !in s.vars then Ok(Deleted(s, false)) else
      var vars := s.vars - {k};
      match RevokeIfUnreferenced(s.db, vars, auth, s.vars[k].credentialId, now)
      case Err(e) => Err(e)
      case Ok(db) => Ok(Deleted(Stores(db, vars), true))
  }

  function ReadVariable(s: Stores, ring: KeyRing, environmentId: Id, key: JsString): Tx<JsString>
  {
    var k := VarKey(environmentId, key);
    if k !in s.vars then Err(VariableUnavailable) else
    var v := s.vars[k];
    if v.kind == PLAIN && v.value.Some? then Ok(Commit(s.db, v.value.value))
    else if v.kind != SECRET || v.credentialId.None? then Err(VariableUnavailable)
    else Read(s.db, ring, environmentId, v.credentialId.value, SecretReference)
  }

  // ----- The specification: a map, and the keys that can no longer be secret ---------------------

  datatype Stored = Stored(text: JsString, secret: bool)

  datatype Spec = Spec(values: map<VarKey, Stored>, burned: set<VarKey>)
  {
    predicate IsSecret(k: VarKey) { k in values && values[k].secret }
  }

  /** What a value reads back as: encryption passes it through UTF-8. */
  function Persisted(value: JsString, secret: bool): JsString { if secret then Utf8RoundTrip(value) else value }

  function SpecSet(spec: Spec, auth: Authorization, keyInput: JsString, value: JsString,
                   secret: bool): Result<Spec, Error>
  {
    if !auth.MayMutate() then Err(VariableForbidden) else
    match NormalizeInput(keyInput, value)
    case Err(e) => Err(e)
    case Ok(key) =>
      var k := VarKey(auth.environmentId, key);
      if secret && k in spec.burned then Err(UniqueViolation)
      else Ok(Spec(spec.values[k := Stored(Persisted(value, secret), secret)],
                   if !secret && spec.IsSecret(k) then spec.burned + {k} else spec.burned))
  }

  function SpecDelete(spec: Spec, auth: Authorization, keyInput: JsString): Result<Spec, Error>
  {
    if !auth.MayMutate() then Err(VariableForbidden) else
    match NormalizeKey(keyInput)
    case Err(e) => Err(e)
    case Ok(key) =>
      var k := VarKey(auth.environmentId, key);
      Ok(Spec(spec.values - {k}, if spec.IsSecret(k) then spec.burned + {k} else spec.burned))
  }

  // ----- The refinement relation -----------------------------------------------------------------

  ghost predicate VariableOk(s: Stores, spec: Spec, k: VarKey)
  {
    && (k in s.vars <==> k in spec.values)
    && (k in s.vars ==>
          var v, stored := s.vars[k], spec.values[k];
          if stored.secret then
            && v.kind == SECRET && v.value.None? && v.credentialId.Some?
            && Live(s.db, v.credentialId.value)
            && IsReference(s.db.credentials[v.credentialId.value], k)
            && TextOf(s.db, v.credentialId.value) == Some(stored.text)
          else v.kind == PLAIN && v.value == Some(stored.text) && v.credentialId.None?)
  }

  function NameOf(c: Credential): VarKey { VarKey(c.environmentId, c.name) }

  /** A live secret reference belongs to the variable of its name; a revoked one has burned it. */
  ghost predicate ReferenceOk(s: Stores, spec: Spec, c: Id)
  {
    c in s.db.credentials && s.db.credentials[c].kind == SecretReference ==>
      var k := NameOf(s.db.credentials[c]);
      if Live(s.db, c) then k in s.vars && s.vars[k].credentialId == Some(c)
      else k in spec.burned
  }

  ghost predicate BurnedOk(s: Stores, spec: Spec, k: VarKey)
  {
    k in spec.burned ==> exists c | c in s.db.credentials :: IsReference(s.db.credentials[c], k) && !Live(s.db, c)
  }

  ghost predicate Refines(s: Stores, ring: KeyRing, spec: Spec)
  {
    && Inv(s.db) && KeysFit(ring, s.db)
    && (forall k :: VariableOk(s, spec, k))
    && (forall c :: ReferenceOk(s, spec, c))
    && (forall k :: BurnedOk(s, spec, k))
  }

  /** A credential keeps its identity, its status and its text. */
  ghost predicate SameCredential(db: Db, db': Db, c: Id)
  {
    && (c in db.credentials <==> c in db'.credentials)
    && (c in db.credentials ==>
          && db'.credentials[c].environmentId == db.credentials[c].environmentId
          && db'.credentials[c].kind == db.credentials[c].kind
          && db'.credentials[c].name == db.credentials[c].name
          && (Live(db', c) <==> Live(db, c))
          && TextOf(db', c) == TextOf(db, c))
  }

  predicate IsReferenceRow(db: Db, c: Id) { c in db.credentials && db.credentials[c].kind == SecretReference }

  ghost predicate Unaffected(db: Db, db': Db)
  {
    forall c | IsReferenceRow(db, c) || IsReferenceRow(db', c) :: SameCredential(db, db', c)
  }

  ghost predicate UnaffectedBut(db: Db, db': Db, but: Id) { forall c | c != but :: SameCredential(db, db', c) }

  // ----- Effects of the store's transactions on credentials --------------------------------------

  lemma FitsAfter(db: Db, db': Db, ring: KeyRing)
    requires ring.Valid() && KeysFit(ring, db) && AddsActiveOnly(db, db', ring)
    ensures KeysFit(ring, db')
  {
  }

  lemma StepFits(db: Db, ring: KeyRing, op: Op)
    requires Inv(db) && ring.Valid() && KeysFit(ring, db)
    ensures Inv(Apply(db, ring, op)) && KeysFit(ring, Apply(db, ring, op))
  {
    hide KeysFit, Apply, AddsActiveOnly;
    StepKeeps(db, ring, op);
    StepAddsActiveOnly(db, ring, op);
    FitsAfter(db, Apply(db, ring, op), ring);
  }

  lemma AddedRows(db: Db, db': Db, c: Id, id: Id)
    requires Linked(db) && c !in db.credentials && id !in db.versions && c in db'.credentials && id in db'.versions
    requires db'.credentials == db.credentials[c := db'.credentials[c]]
      && db'.versions == db.versions[id := db'.versions[id]]
    ensures UnaffectedBut(db, db', c)
  {
  }

  /** A credential, and the row the two stores agree on. */
  ghost predicate Holds(db: Db, c: Id, env: Id, kind: CredentialKind, name: JsString, text: JsString)
  {
    && Live(db, c) && TextOf(db, c) == Some(text) && db.credentials[c].activeVersion.Some?
    && db.credentials[c].environmentId == env && db.credentials[c].kind == kind && db.credentials[c].name == name
  }

  lemma CreateEffect(db: Db, ring: KeyRing, auth: Authorization, kind: CredentialKind, name: JsString,
                     provider: Option<JsString>, text: JsString, c: Id, id: Id, now: Time)
    requires Inv(db) && ring.Valid() && KeysFit(ring, db)
    requires Create(db, ring, auth, kind, name, provider, text, c, id, now).Ok?
    ensures var db' := Create(db, ring, auth, kind, name, provider, text, c, id, now).value.db;
      && c !in db.credentials && Inv(db') && KeysFit(ring, db') && UnaffectedBut(db, db', c)
      && Holds(db', c, auth.environmentId, kind, name, Utf8RoundTrip(text))
  {
    hide Inv, Shaped, Linked, Serialize, Utf8RoundTrip, InsertVersion, KeysFit, SameCredential, UnaffectedBut,
      NameTaken, VersionTaken, WellFormed;
    var db' := Create(db, ring, auth, kind, name, provider, text, c, id, now).value.db;
    CreateFits(db, ring, auth, kind, name, provider, text, c, id, now);
    Inserted(db, ring, auth.environmentId, c, 1, text, id, now);
    ShapeOf(db);
    AddedRows(db, db', c, id);
  }

  lemma CreateFits(db: Db, ring: KeyRing, auth: Authorization, kind: CredentialKind, name: JsString,
                   provider: Option<JsString>, text: JsString, c: Id, id: Id, now: Time)
    requires Inv(db) && ring.Valid() && KeysFit(ring, db)
    ensures var db' := Committed(db, Create(db, ring, auth, kind, name, provider, text, c, id, now));
      Inv(db') && KeysFit(ring, db')
  {
    hide Inv, KeysFit, Create, Rotate, Rewrap, Revoke, PurgeRetired, Read;
    StepFits(db, ring, DoCreate(auth, kind, name, provider, text, c, id, now));
  }

  lemma RotateFits(db: Db, ring: KeyRing, auth: Authorization, c: Id, text: JsString, until: Option<Time>, id: Id,
                   now: Time)
    requires Inv(db) && ring.Valid() && KeysFit(ring, db)
    ensures var db' := Committed(db, Rotate(db, ring, auth, c, text, until, id, now));
      Inv(db') && KeysFit(ring, db')
  {
    hide Inv, KeysFit, Create, Rotate, Rewrap, Revoke, PurgeRetired, Read;
    StepFits(db, ring, DoRotate(auth, c, text, until, id, now));
  }

  lemma SupersededRows(db: Db, db': Db, c: Id, prior: Id, id: Id)
    requires Linked(db) && Superseded(db, db', c, prior, id)
    ensures UnaffectedBut(db, db', c)
    ensures Live(db', c) <==> Live(db, c)
    ensures TextOf(db', c) == Some(db'.versions[id].envelope.utf8)
  {
  }

  /** A live credential of the caller's environment can always be rotated. */
  lemma RotateEffect(db: Db, ring: KeyRing, auth: Authorization, c: Id, text: JsString, until: Option<Time>, id: Id,
                     now: Time)
    requires Inv(db) && ring.Valid() && KeysFit(ring, db) && auth.MayMutate() && text != [] && id !in db.versions
    requires Live(db, c) && db.credentials[c].environmentId == auth.environmentId
    ensures var tx := Rotate(db, ring, auth, c, text, until, id, now);
      && tx.Ok? && tx.value.value == c
      && Inv(tx.value.db) && KeysFit(ring, tx.value.db) && UnaffectedBut(db, tx.value.db, c)
      && Holds(tx.value.db, c, auth.environmentId, db.credentials[c].kind, db.credentials[c].name, Utf8RoundTrip(text))
  {
    hide Inv, Shaped, Linked, VersionTaken, KeysFit, Rotate, Serialize, Utf8RoundTrip, SameCredential, WellFormed,
      UnaffectedBut;
    LiveHasActive(db, c);
    NextRevisionFree(db, c, ring.active);
    RotateFits(db, ring, auth, c, text, until, id, now);
    RotateWrites(db, ring, auth, c, text, until, id, now);
    ShapeOf(db);
    SupersededRows(db, Rotate(db, ring, auth, c, text, until, id, now).value.db, c,
                   db.credentials[c].activeVersion.value, id);
  }

  lemma NextRevisionFree(db: Db, c: Id, root: Root)
    requires Inv(db) && ActiveOf(db, c).Some? && ActiveOf(db, c).value.credentialId == c
    ensures !VersionTaken(db, c, ActiveOf(db, c).value.revision + 1, root)
  {
  }

  lemma RotateWrites(db: Db, ring: KeyRing, auth: Authorization, c: Id, text: JsString, until: Option<Time>, id: Id,
                     now: Time)
    requires ring.Valid() && auth.MayMutate() && text != [] && id !in db.versions
    requires Live(db, c) && db.credentials[c].environmentId == auth.environmentId
    requires ActiveOf(db, c).Some? && ActiveOf(db, c).value.credentialId == c
    requires !VersionTaken(db, c, ActiveOf(db, c).value.revision + 1, ring.active)
    ensures var tx := Rotate(db, ring, auth, c, text, until, id, now);
      && tx.Ok? && tx.value.value == c
      && Superseded(db, tx.value.db, c, db.credentials[c].activeVersion.value, id)
      && tx.value.db.versions[id].envelope.utf8 == Utf8RoundTrip(text)
  {
    hide Serialize, Utf8RoundTrip, VersionTaken;
    Inserted(db, ring, auth.environmentId, c, ActiveOf(db, c).value.revision + 1, text, id, now);
  }

  lemma RevokedRows(db: Db, db': Db, c: Id)
    requires Linked(db) && c in db.credentials && c in db'.credentials && db.credentials[c].activeVersion.Some?
    requires db'.credentials == db.credentials[c := db'.credentials[c]]
    requires db'.versions.Keys == db.versions.Keys
    requires forall v | v in db.versions && v != db.credentials[c].activeVersion.value ::
      db'.versions[v] == db.versions[v]
    ensures UnaffectedBut(db, db', c)
  {
  }

  ghost predicate RevokedIn(db: Db, db': Db, c: Id)
  {
    && c in db.credentials && c in db'.credentials && !Live(db', c)
    && db'.credentials[c].environmentId == db.credentials[c].environmentId
    && db'.credentials[c].kind == db.credentials[c].kind && db'.credentials[c].name == db.credentials[c].name
  }

  predicate ValidRetention(retentionMs: Option<int>)
  {
    retentionMs.Some? ==> 0 < retentionMs.value <= MAX_REVOKED_SECRET_RETENTION_MS
  }

  /** A live credential of the caller's environment can always be revoked. */
  lemma RevokeEffect(db: Db, ring: KeyRing, auth: Authorization, c: Id, retention: Option<int>, now: Time)
    requires Inv(db) && ring.Valid() && KeysFit(ring, db) && auth.MayMutate() && ValidRetention(retention)
    requires Live(db, c) && db.credentials[c].environmentId == auth.environmentId
    ensures Revoke(db, auth, c, retention, now).Ok?
    ensures var db' := Committed(db, Revoke(db, auth, c, retention, now));
      Inv(db') && KeysFit(ring, db') && UnaffectedBut(db, db', c) && RevokedIn(db, db', c)
  {
    hide KeysFit, UnaffectedBut, Revoke, RevokedIn;
    RevokeFits(db, ring, auth, c, retention, now);
    LiveHasActive(db, c);
    RevokeRows(db, auth, c, retention, now);
  }

  lemma RevokeFits(db: Db, ring: KeyRing, auth: Authorization, c: Id, retention: Option<int>, now: Time)
    requires Inv(db) && ring.Valid() && KeysFit(ring, db)
    ensures var db' := Committed(db, Revoke(db, auth, c, retention, now));
      Inv(db') && KeysFit(ring, db')
  {
    hide Inv, KeysFit, Create, Rotate, Rewrap, Revoke, PurgeRetired, Read;
    StepFits(db, ring, DoRevoke(auth, c, retention, now));
  }

  lemma RevokeRows(db: Db, auth: Authorization, c: Id, retention: Option<int>, now: Time)
    requires Linked(db) && auth.MayMutate() && Live(db, c) && db.credentials[c].environmentId == auth.environmentId
    requires ActiveOf(db, c).Some? && ValidRetention(retention)
    ensures Revoke(db, auth, c, retention, now).Ok?
    ensures var db' := Committed(db, Revoke(db, auth, c, retention, now));
      UnaffectedBut(db, db', c) && RevokedIn(db, db', c)
  {
    hide UnaffectedBut;
    RevokedRows(db, Committed(db, Revoke(db, auth, c, retention, now)), c);
  }

  // ----- Each operation refines its specification ------------------------------------------------

  /** Outside the key `k` and the credential `c`, nothing the relation looks at has changed. */
  ghost predicate Local(s: Stores, s': Stores, spec: Spec, spec': Spec, k: VarKey, c: Id)
  {
    && UnaffectedBut(s.db, s'.db, c)
    && (forall k' | k' != k :: k' in s'.vars <==> k' in s.vars)
    && (forall k' | k' != k && k' in s.vars :: s'.vars[k'] == s.vars[k'])
    && (forall k' | k' != k :: k' in spec'.values <==> k' in spec.values)
    && (forall k' | k' != k && k' in spec.values :: spec'.values[k'] == spec.values[k'])
    && (forall k' | k' != k :: k' in spec'.burned <==> k' in spec.burned)
    && (c in s.db.credentials ==> IsReference(s.db.credentials[c], k))
    && (c in s'.db.credentials ==> IsReference(s'.db.credentials[c], k))
  }

  lemma LocalVariable(s: Stores, s': Stores, spec: Spec, spec': Spec, k: VarKey, c: Id, k': VarKey)
    requires Local(s, s', spec, spec', k, c) && k' != k && VariableOk(s, spec, k')
    ensures VariableOk(s', spec', k')
  {
    if k' in s.vars && spec.values[k'].secret {
      var d := s.vars[k'].credentialId.value;
      assert d != c;
      assert SameCredential(s.db, s'.db, d);
    }
  }

  lemma LocalReference(s: Stores, s': Stores, spec: Spec, spec': Spec, k: VarKey, c: Id, d: Id)
    requires Local(s, s', spec, spec', k, c) && d != c && ReferenceOk(s, spec, d)
    requires d in s.db.credentials ==> NameOf(s.db.credentials[d]) != k || s.db.credentials[d].kind != SecretReference
    ensures ReferenceOk(s', spec', d)
  {
    assert SameCredential(s.db, s'.db, d);
  }

  lemma LocalBurned(s: Stores, s': Stores, spec: Spec, spec': Spec, k: VarKey, c: Id, k': VarKey)
    requires Local(s, s', spec, spec', k, c) && k' != k && BurnedOk(s, spec, k')
    ensures BurnedOk(s', spec', k')
  {
    if k' in spec.burned {
      var d :| d in s.db.credentials && IsReference(s.db.credentials[d], k') && !Live(s.db, d);
      assert SameCredential(s.db, s'.db, d);
    }
  }

  lemma RefinesAfter(s: Stores, s': Stores, ring: KeyRing, spec: Spec, spec': Spec, k: VarKey, c: Id)
    requires Refines(s, ring, spec) && Inv(s'.db) && KeysFit(ring, s'.db) && Local(s, s', spec, spec', k, c)
    requires VariableOk(s', spec', k) && BurnedOk(s', spec', k) && ReferenceOk(s', spec', c)
    requires forall d | d != c && d in s.db.credentials && IsReference(s.db.credentials[d], k) ::
      ReferenceOk(s', spec', d)
    ensures Refines(s', ring, spec')
  {
    hide Inv, KeysFit, Local, VariableOk, BurnedOk, ReferenceOk;
    forall k' ensures VariableOk(s', spec', k') && BurnedOk(s', spec', k') {
      if k' != k {
        LocalVariable(s, s', spec, spec', k, c, k');
        LocalBurned(s, s', spec, spec', k, c, k');
      }
    }
    forall d ensures ReferenceOk(s', spec', d) {
      if d != c && !(d in s.db.credentials && IsReference(s.db.credentials[d], k)) {
        LocalReference(s, s', spec, spec', k, c, d);
      }
    }
  }

  /** At most one secret reference carries a name. */
  lemma OneReference(db: Db, k: VarKey, c: Id)
    requires Inv(db) && c in db.credentials && IsReference(db.credentials[c], k)
    ensures forall d | d in db.credentials && IsReference(db.credentials[d], k) :: d == c
  {
  }

  ghost predicate Fresh(db: Db, credentialId: Id, versionId: Id)
  {
    credentialId !in db.credentials && versionId !in db.versions
  }

  /** The variable is already secret: its credential is rotated. */
  lemma SetSecretAgain(s: Stores, ring: KeyRing, spec: Spec, auth: Authorization, k: VarKey, value: JsString,
                       credentialId: Id, id: Id, now: Time)
    requires Refines(s, ring, spec) && ring.Valid() && auth.MayMutate() && value != [] && Fresh(s.db, credentialId, id)
    requires k.environmentId == auth.environmentId && spec.IsSecret(k)
    ensures var tx := WriteSecret(s.db, s.vars, ring, auth, k, value, credentialId, id, now);
      && tx.Ok? && ReferenceAllowed(tx.value.db, auth.environmentId, tx.value.value)
      && Refines(Stores(tx.value.db,
                        s.vars[k := Variable(SECRET, None, Some(tx.value.value), NextVersion(s.vars, k))]), ring,
                 Spec(spec.values[k := Stored(Utf8RoundTrip(value), true)], spec.burned))
  {
    hide Inv, KeysFit, Utf8RoundTrip, Create, Rotate;
    assert VariableOk(s, spec, k);
    var c := s.vars[k].credentialId.value;
    RotateEffect(s.db, ring, auth, c, value, None, id, now);
    var db' := Rotate(s.db, ring, auth, c, value, None, id, now).value.db;
    var s' := Stores(db', s.vars[k := Variable(SECRET, None, Some(c), NextVersion(s.vars, k))]);
    var spec' := Spec(spec.values[k := Stored(Utf8RoundTrip(value), true)], spec.burned);
    OneReference(s.db, k, c);
    NotBurned(s, ring, spec, k, c);
    RefinesAfter(s, s', ring, spec, spec', k, c);
  }

  lemma NotBurned(s: Stores, ring: KeyRing, spec: Spec, k: VarKey, c: Id)
    requires Refines(s, ring, spec) && Live(s.db, c) && IsReference(s.db.credentials[c], k)
    ensures k !in spec.burned
  {
    assert BurnedOk(s, spec, k);
    OneReference(s.db, k, c);
  }

  /** The variable is not secret and its name is free: a credential is created. */
  lemma SetSecretFirst(s: Stores, ring: KeyRing, spec: Spec, auth: Authorization, k: VarKey, value: JsString,
                       c: Id, id: Id, now: Time)
    requires Refines(s, ring, spec) && ring.Valid() && auth.MayMutate() && value != [] && Fresh(s.db, c, id)
    requires k.environmentId == auth.environmentId && !spec.IsSecret(k) && k !in spec.burned
    ensures var tx := WriteSecret(s.db, s.vars, ring, auth, k, value, c, id, now);
      && tx.Ok? && ReferenceAllowed(tx.value.db, auth.environmentId, tx.value.value)
      && Refines(Stores(tx.value.db,
                        s.vars[k := Variable(SECRET, None, Some(tx.value.value), NextVersion(s.vars, k))]), ring,
                 Spec(spec.values[k := Stored(Utf8RoundTrip(value), true)], spec.burned))
  {
    hide Inv, KeysFit, Utf8RoundTrip, Create, Rotate;
    NoReference(s, ring, spec, k);
    CreateSucceeds(s.db, ring, auth, k.key, value, c, id, now);
    CreateEffect(s.db, ring, auth, SecretReference, k.key, None, value, c, id, now);
    var db' := Create(s.db, ring, auth, SecretReference, k.key, None, value, c, id, now).value.db;
    var s' := Stores(db', s.vars[k := Variable(SECRET, None, Some(c), NextVersion(s.vars, k))]);
    var spec' := Spec(spec.values[k := Stored(Utf8RoundTrip(value), true)], spec.burned);
    RefinesAfter(s, s', ring, spec, spec', k, c);
  }

  lemma NoReference(s: Stores, ring: KeyRing, spec: Spec, k: VarKey)
    requires Refines(s, ring, spec) && !spec.IsSecret(k) && k !in spec.burned
    ensures CredentialOf(s.vars, k).None?
    ensures forall c | c in s.db.credentials :: !IsReference(s.db.credentials[c], k)
  {
    hide Inv, KeysFit;
    assert VariableOk(s, spec, k);
    forall c | c in s.db.credentials ensures !IsReference(s.db.credentials[c], k) {
      assert ReferenceOk(s, spec, c);
    }
  }

  lemma CreateSucceeds(db: Db, ring: KeyRing, auth: Authorization, name: JsString, text: JsString, c: Id, id: Id,
                       now: Time)
    requires Inv(db) && ring.Valid() && auth.MayMutate() && text != [] && Fresh(db, c, id)
    requires forall d | d in db.credentials :: !IsReference(db.credentials[d], VarKey(auth.environmentId, name))
    ensures var tx := Create(db, ring, auth, SecretReference, name, None, text, c, id, now);
      tx.Ok? && tx.value.value == c
  {
    hide Serialize, Utf8RoundTrip;
    assert !NameTaken(db, auth.environmentId, SecretReference, name) by {
      assert forall d | d in db.credentials :: !IsReference(db.credentials[d], VarKey(auth.environmentId, name));
    }
    assert !VersionTaken(db, c, 1, ring.active);
  }

  /** The name is burned: the unique index refuses a second credential of that name. */
  lemma SetSecretBurned(s: Stores, ring: KeyRing, spec: Spec, auth: Authorization, k: VarKey, value: JsString,
                        c: Id, id: Id, now: Time)
    requires Refines(s, ring, spec) && ring.Valid() && auth.MayMutate() && k.environmentId == auth.environmentId
    requires k in spec.burned
    ensures !spec.IsSecret(k)
    ensures WriteSecret(s.db, s.vars, ring, auth, k, value, c, id, now) == Err(UniqueViolation)
  {
    assert BurnedOk(s, spec, k) && VariableOk(s, spec, k);
    var d :| d in s.db.credentials && IsReference(s.db.credentials[d], k) && !Live(s.db, d);
    OneReference(s.db, k, d);
    hide Inv, KeysFit, InsertVersion;
    assert NameTaken(s.db, auth.environmentId, SecretReference, k.key);
    assert FindReference(s.db, k).None?;
  }

  /** A variable moves from secret to plain, or away: its credential is revoked and the name burned. */
  lemma LeaveSecret(s: Stores, vars: Variables, ring: KeyRing, spec: Spec, values: map<VarKey, Stored>,
                    auth: Authorization, k: VarKey, now: Time)
    requires Refines(s, ring, spec) && ring.Valid() && auth.MayMutate() && k.environmentId == auth.environmentId
    requires spec.IsSecret(k)
    requires vars - {k} == s.vars - {k} && values - {k} == spec.values - {k}
    requires k in vars <==> k in values
    requires k in vars ==>
      vars[k].kind == PLAIN && vars[k].value == Some(values[k].text) && vars[k].credentialId.None? && !values[k].secret
    ensures var r := RevokeIfUnreferenced(s.db, vars, auth, CredentialOf(s.vars, k), now);
      r.Ok? && Refines(Stores(r.value, vars), ring, Spec(values, spec.burned + {k}))
  {
    hide Inv, KeysFit, Revoke;
    assert VariableOk(s, spec, k);
    var c := s.vars[k].credentialId.value;
    Unreferenced(s, vars, ring, spec, k, c);
    RevokeEffect(s.db, ring, auth, c, None, now);
    var db' := Committed(s.db, Revoke(s.db, auth, c, None, now));
    var s', spec' := Stores(db', vars), Spec(values, spec.burned + {k});
    OneReference(s.db, k, c);
    LocalMaps(s, s', spec, spec', k, c);
    RefinesAfter(s, s', ring, spec, spec', k, c);
  }

  lemma LocalMaps(s: Stores, s': Stores, spec: Spec, spec': Spec, k: VarKey, c: Id)
    requires UnaffectedBut(s.db, s'.db, c)
    requires s'.vars - {k} == s.vars - {k} && spec'.values - {k} == spec.values - {k}
      && spec'.burned - {k} == spec.burned - {k}
    requires c in s.db.credentials ==> IsReference(s.db.credentials[c], k)
    requires c in s'.db.credentials ==> IsReference(s'.db.credentials[c], k)
    ensures Local(s, s', spec, spec', k, c)
  {
    forall k' | k' != k
      ensures k' in s'.vars <==> k' in s.vars
      ensures k' in s.vars ==> s'.vars[k'] == s.vars[k']
      ensures k' in spec'.values <==> k' in spec.values
      ensures k' in spec.values ==> spec'.values[k'] == spec.values[k']
      ensures k' in spec'.burned <==> k' in spec.burned
    {
      assert k' in s'.vars <==> k' in s'.vars - {k};
      assert k' in s.vars <==> k' in s.vars - {k};
      assert k' in spec'.values <==> k' in spec'.values - {k};
      assert k' in spec.values <==> k' in spec.values - {k};
      assert k' in spec'.burned <==> k' in spec'.burned - {k};
      assert k' in spec.burned <==> k' in spec.burned - {k};
      if k' in s.vars { assert (s.vars - {k})[k'] == s.vars[k'] && (s'.vars - {k})[k'] == s'.vars[k']; }
      if k' in spec.values {
        assert (spec.values - {k})[k'] == spec.values[k'] && (spec'.values - {k})[k'] == spec'.values[k'];
      }
    }
  }

  lemma Unreferenced(s: Stores, vars: Variables, ring: KeyRing, spec: Spec, k: VarKey, c: Id)
    requires Refines(s, ring, spec) && c in s.db.credentials && IsReference(s.db.credentials[c], k)
    requires vars - {k} == s.vars - {k} && (k in vars ==> vars[k].credentialId.None?)
    ensures !exists k' | k' in vars :: vars[k'].credentialId == Some(c)
  {
    hide Inv, KeysFit;
    forall k' | k' in vars ensures vars[k'].credentialId != Some(c) {
      if k' != k {
        assert k' in vars - {k} && (vars - {k})[k'] == vars[k'];
        assert k' in s.vars && s.vars[k'] == vars[k'];
        assert VariableOk(s, spec, k');
      }
    }
  }

  /** A variable that is not secret is written or removed: no credential is touched. */
  lemma StayPlain(s: Stores, vars: Variables, ring: KeyRing, spec: Spec, values: map<VarKey, Stored>,
                  auth: Authorization, k: VarKey, now: Time)
    requires Refines(s, ring, spec) && !spec.IsSecret(k)
    requires vars - {k} == s.vars - {k} && values - {k} == spec.values - {k}
    requires k in vars <==> k in values
    requires k in vars ==>
      vars[k].kind == PLAIN && vars[k].value == Some(values[k].text) && vars[k].credentialId.None? && !values[k].secret
    ensures RevokeIfUnreferenced(s.db, vars, auth, CredentialOf(s.vars, k), now) == Ok(s.db)
    ensures Refines(Stores(s.db, vars), ring, Spec(values, spec.burned))
  {
    hide Inv, KeysFit;
    assert VariableOk(s, spec, k) && BurnedOk(s, spec, k);
    var c := Unused(s.db.credentials.Keys);
    var s', spec' := Stores(s.db, vars), Spec(values, spec.burned);
    LocalMaps(s, s', spec, spec', k, c);
    forall d | d != c && d in s.db.credentials && IsReference(s.db.credentials[d], k)
      ensures ReferenceOk(s', spec', d) {
      assert ReferenceOk(s, spec, d);
    }
    RefinesAfter(s, s', ring, spec, spec', k, c);
  }

  lemma {:induction false} Unused(ids: set<Id>) returns (x: Id)
    ensures x !in ids
  {
    if ids == {} {
      x := 0;
    } else {
      var bound := Bound(ids);
      x := bound + 1;
    }
  }

  lemma {:induction false} Bound(ids: set<Id>) returns (m: Id)
    ensures forall x | x in ids :: x <= m
    decreases |ids|
  {
    if ids == {} {
      m := 0;
    } else {
      var a :| a in ids;
      var n := Bound(ids - {a});
      m := if a > n then a else n;
      assert forall x | x in ids :: x == a || x in ids - {a};
    }
  }

  /** `set` does what the specification does and fails exactly when it fails, with the same error. */
  lemma SetRefines(s: Stores, ring: KeyRing, spec: Spec, auth: Authorization, keyInput: JsString, value: JsString,
                   secret: bool, c: Id, id: Id, now: Time)
    requires Refines(s, ring, spec) && ring.Valid() && Fresh(s.db, c, id)
    ensures var r, expected :=
      Set(s, ring, auth, keyInput, value, secret, c, id, now), SpecSet(spec, auth, keyInput, value, secret);
      && (r.Ok? <==> expected.Ok?)
      && (r.Ok? ==> Refines(r.value, ring, expected.value))
      && (r.Err? ==> r.error == expected.error)
  {
    hide Refines, WriteSecret, RevokeIfUnreferenced, Trim, ReferenceAllowed;
    if auth.MayMutate() && NormalizeInput(keyInput, value).Ok? {
      var k := VarKey(auth.environmentId, NormalizeInput(keyInput, value).value);
      if secret && k in spec.burned {
        SetSecretBurned(s, ring, spec, auth, k, value, c, id, now);
      } else if secret && spec.IsSecret(k) {
        SetSecretAgain(s, ring, spec, auth, k, value, c, id, now);
      } else if secret {
        SetSecretFirst(s, ring, spec, auth, k, value, c, id, now);
      } else {
        var vars := s.vars[k := Variable(PLAIN, Some(value), None, NextVersion(s.vars, k))];
        var values := spec.values[k := Stored(value, false)];
        assert vars - {k} == s.vars - {k} && values - {k} == spec.values - {k};
        if spec.IsSecret(k) {
          LeaveSecret(s, vars, ring, spec, values, auth, k, now);
        } else {
          StayPlain(s, vars, ring, spec, values, auth, k, now);
        }
      }
    }
  }

  lemma SameKeys(s: Stores, ring: KeyRing, spec: Spec, k: VarKey)
    requires Refines(s, ring, spec)
    ensures k in s.vars <==> k in spec.values
    ensures k in s.vars ==> (s.vars[k].kind == SECRET <==> spec.IsSecret(k))
  {
    hide Inv, KeysFit;
    assert VariableOk(s, spec, k);
  }

  lemma DeleteRefines(s: Stores, ring: KeyRing, spec: Spec, auth: Authorization, keyInput: JsString, now: Time)
    requires Refines(s, ring, spec) && ring.Valid()
    ensures var r, expected := Delete(s, auth, keyInput, now), SpecDelete(spec, auth, keyInput);
      && (r.Ok? <==> expected.Ok?)
      && (r.Ok? ==> Refines(r.value.stores, ring, expected.value))
      && (r.Ok? ==> (r.value.deleted <==> VarKey(auth.environmentId, Trim(keyInput)) in spec.values))
      && (r.Err? ==> r.error == expected.error)
  {
    hide Refines, RevokeIfUnreferenced, Trim, VariableOk;
    if auth.MayMutate() && NormalizeKey(keyInput).Ok? {
      var k := VarKey(auth.environmentId, Trim(keyInput));
      SameKeys(s, ring, spec, k);
      var vars, values := s.vars - {k}, spec.values - {k};
      assert vars - {k} == s.vars - {k} && values - {k} == spec.values - {k};
      if spec.IsSecret(k) {
        LeaveSecret(s, vars, ring, spec, values, auth, k, now);
      } else {
        StayPlain(s, vars, ring, spec, values, auth, k, now);
        assert k !in s.vars ==> vars == s.vars && values == spec.values;
      }
    }
  }

  /** Reading any key, valid or not, returns exactly what the map holds, or reports it missing. */
  lemma ReadRefines(s: Stores, ring: KeyRing, spec: Spec, environmentId: Id, key: JsString)
    requires Refines(s, ring, spec)
    ensures var r, k := ReadVariable(s, ring, environmentId, key), VarKey(environmentId, key);
      && (k in spec.values ==> r.Ok? && r.value.value == spec.values[k].text)
      && (k !in spec.values ==> r == Err(VariableUnavailable))
      && (r.Ok? ==> Refines(Stores(r.value.db, s.vars), ring, spec))
  {
    hide Inv, KeysFit, Read, TextOf;
    var k := VarKey(environmentId, key);
    assert VariableOk(s, spec, k);
    if spec.IsSecret(k) {
      var c := s.vars[k].credentialId.value;
      ReadLive(s.db, ring, environmentId, c, SecretReference);
      var db' := Read(s.db, ring, environmentId, c, SecretReference).value.db;
      SameRows(s, Stores(db', s.vars), ring, spec);
    }
  }

  /** A live credential that the ring opens reads back its text, and reading changes no row. */
  lemma ReadLive(db: Db, ring: KeyRing, environmentId: Id, c: Id, kind: CredentialKind)
    requires Inv(db) && KeysFit(ring, db) && Live(db, c)
    requires db.credentials[c].environmentId == environmentId && db.credentials[c].kind == kind
    ensures var tx := Read(db, ring, environmentId, c, kind);
      && tx.Ok? && TextOf(db, c) == Some(tx.value.value) && Inv(tx.value.db)
      && tx.value.db.credentials == db.credentials && tx.value.db.versions == db.versions
  {
    hide Inv, Shaped, KeysFit, Decryptable, Serialize, Linked, Reveal, WellFormed;
    ShapeOf(db);
    LiveHasActive(db, c);
    RevealExactly(ring, db, db.credentials[c].activeVersion.value);
    FitsAt(ring, db, db.credentials[c].activeVersion.value);
    ReadKeeps(db, ring, environmentId, c, kind);
  }

  lemma FitsAt(ring: KeyRing, db: Db, v: Id)
    requires KeysFit(ring, db) && v in db.versions
    ensures db.versions[v].root in ring.keys && ring.keys[db.versions[v].root] == db.versions[v].envelope.key
  {
  }

  lemma SameRows(s: Stores, s': Stores, ring: KeyRing, spec: Spec)
    requires Refines(s, ring, spec) && Inv(s'.db)
    requires s'.vars == s.vars && s'.db.credentials == s.db.credentials && s'.db.versions == s.db.versions
    ensures Refines(s', ring, spec)
  {
    hide Inv;
    UnaffectedRefines(s, s'.db, ring, ring, spec);
  }

  /** The relation only looks at credentials through what `SameCredential` preserves. */
  lemma UnaffectedRefines(s: Stores, db': Db, ring: KeyRing, ring': KeyRing, spec: Spec)
    requires Refines(s, ring, spec) && Inv(db') && KeysFit(ring', db') && Unaffected(s.db, db')
    ensures Refines(Stores(db', s.vars), ring', spec)
  {
    hide Inv, KeysFit;
    var s' := Stores(db', s.vars);
    forall k ensures VariableOk(s', spec, k) && BurnedOk(s', spec, k) {
      assert VariableOk(s, spec, k) && BurnedOk(s, spec, k);
      if spec.IsSecret(k) { assert IsReferenceRow(s.db, s.vars[k].credentialId.value); }
      if k in spec.burned {
        var d :| d in s.db.credentials && IsReference(s.db.credentials[d], k) && !Live(s.db, d);
        assert IsReferenceRow(s.db, d);
      }
    }
    forall c ensures ReferenceOk(s', spec, c) {
      assert ReferenceOk(s, spec, c);
      if IsReferenceRow(db', c) { assert SameCredential(s.db, db', c); }
    }
  }

  // ----- Maintenance steps -----------------------------------------------------------------------

  /** Rewraps, purges and reads of anything, and every operation on credentials of other kinds. */
  predicate Maintenance(db: Db, op: Op)
  {
    match op
    case DoCreate(_, kind, _, _, _, _, _, _) => kind != SecretReference
    case DoRotate(_, c, _, _, _, _) => !IsReferenceRow(db, c)
    case DoRevoke(_, c, _, _) => !IsReferenceRow(db, c)
    case _ => true
  }

  lemma ButIsNoReference(db: Db, db': Db, c: Id)
    requires UnaffectedBut(db, db', c) && !IsReferenceRow(db, c) && !IsReferenceRow(db', c)
    ensures Unaffected(db, db')
  {
  }

  lemma ButIsSame(db: Db, db': Db, c: Id)
    requires UnaffectedBut(db, db', c) && SameCredential(db, db', c)
    ensures Unaffected(db, db')
  {
  }

  lemma SameTables(db: Db, db': Db)
    requires db'.credentials == db.credentials && db'.versions == db.versions
    ensures Unaffected(db, db')
  {
  }

  lemma RewrappedUnaffected(db: Db, db': Db, ring: KeyRing, c: Id, prior: Id, id: Id, now: Time)
    requires Linked(db) && Live(db, c) && Rewrapped(db, db', ring, c, prior, id, now)
    ensures Unaffected(db, db')
  {
    SupersededRows(db, db', c, prior, id);
    hide Linked, Unaffected, UnaffectedBut;
    assert SameCredential(db, db', c);
    ButIsSame(db, db', c);
  }

  lemma RewrapUnaffected(db: Db, ring: KeyRing, auth: Authorization, c: Id, id: Id, now: Time)
    requires Inv(db) && ring.Valid() && KeysFit(ring, db)
    ensures Unaffected(db, Committed(db, Rewrap(db, ring, auth, c, id, now)))
  {
    hide KeysFit, Unaffected, Rewrapped, Rewrap, Serialize;
    var tx := Rewrap(db, ring, auth, c, id, now);
    if tx.Ok? && tx.value.db != db {
      RewrapNeeds(db, ring, auth, c, id, now);
      DecryptableMeans(ring, db);
      assert Linked(db);
      hide Inv, Linked, Decryptable;
      RewrapOperator(db, ring, auth, c, id, now);
      RewrapEffect(db, ring, c, id, now);
      RewrappedUnaffected(db, tx.value.db, ring, c, db.credentials[c].activeVersion.value, id, now);
    } else {
      SameTables(db, db);
    }
  }

  lemma RewrapNeeds(db: Db, ring: KeyRing, auth: Authorization, c: Id, id: Id, now: Time)
    requires ring.Valid() && Rewrap(db, ring, auth, c, id, now).Ok? && Rewrap(db, ring, auth, c, id, now).value.db != db
    ensures Live(db, c) && db.credentials[c].environmentId == auth.environmentId && id !in db.versions
      && auth.MayMutate()
    ensures !Under(db, c, ring.active)
  {
    hide Serialize, Utf8RoundTrip;
  }

  /** Who asks for a rewrap does not matter. */
  lemma RewrapOperator(db: Db, ring: KeyRing, auth: Authorization, c: Id, id: Id, now: Time)
    requires ring.Valid() && auth.MayMutate() && c in db.credentials
      && db.credentials[c].environmentId == auth.environmentId
    ensures Rewrap(db, ring, auth, c, id, now) == RewrapAs(db, ring, c, id, now)
  {
    hide Reveal, InsertVersion, LockActive;
  }

  lemma PurgedUnaffected(db: Db, db': Db, ids: seq<Id>, cutoff: Time)
    requires db'.credentials == db.credentials && db'.versions == db.versions - SetOf(ids)
    requires forall i | 0 <= i < |ids| :: ids[i] in Eligible(db, cutoff)
    requires Linked(db)
    ensures Unaffected(db, db')
  {
    forall c
      ensures SameCredential(db, db', c)
    {
      if ActiveOf(db, c).Some? {
        assert db.credentials[c].activeVersion.value !in Eligible(db, cutoff);
        assert db.credentials[c].activeVersion.value !in SetOf(ids);
      }
    }
  }

  lemma PurgeUnaffected(db: Db, ops: bool, cutoff: Time, limit: Option<int>, now: Time)
    requires Inv(db)
    ensures Unaffected(db, Committed(db, PurgeRetired(db, ops, cutoff, limit, now)))
  {
    hide Unaffected;
    SameTables(db, db);
    if ops && cutoff <= now && (limit.Some? ==> limit.value > 0) {
      var ids := OldestFirst(db, Eligible(db, cutoff), PurgeLimit(limit));
      PurgeAllKeeps(db, ids, cutoff);
      assert Linked(db);
      hide Inv, PurgeAll, Linked;
      PurgedUnaffected(db, PurgeAll(db, ids, cutoff).value, ids, cutoff);
    }
  }

  lemma RotateUnaffected(db: Db, ring: KeyRing, auth: Authorization, c: Id, text: JsString, until: Option<Time>,
                         id: Id, now: Time)
    requires Inv(db) && ring.Valid() && KeysFit(ring, db) && !IsReferenceRow(db, c)
    ensures Unaffected(db, Committed(db, Rotate(db, ring, auth, c, text, until, id, now)))
  {
    hide Inv, KeysFit, Unaffected, UnaffectedBut, Rotate, Serialize, Utf8RoundTrip;
    SameTables(db, db);
    if Rotate(db, ring, auth, c, text, until, id, now).Ok? {
      RotateNeeds(db, ring, auth, c, text, until, id, now);
      RotateEffect(db, ring, auth, c, text, until, id, now);
      ButIsNoReference(db, Rotate(db, ring, auth, c, text, until, id, now).value.db, c);
    }
  }

  lemma RotateNeeds(db: Db, ring: KeyRing, auth: Authorization, c: Id, text: JsString, until: Option<Time>, id: Id,
                    now: Time)
    requires ring.Valid() && Rotate(db, ring, auth, c, text, until, id, now).Ok?
    ensures Live(db, c) && db.credentials[c].environmentId == auth.environmentId && id !in db.versions
    ensures auth.MayMutate() && text != []
  {
    hide Serialize, Utf8RoundTrip;
  }

  lemma RevokeUnaffected(db: Db, ring: KeyRing, auth: Authorization, c: Id, retention: Option<int>, now: Time)
    requires Inv(db) && ring.Valid() && KeysFit(ring, db) && !IsReferenceRow(db, c)
    ensures Unaffected(db, Committed(db, Revoke(db, auth, c, retention, now)))
  {
    hide Inv, KeysFit, Unaffected, UnaffectedBut, Revoke;
    SameTables(db, db);
    if Revoke(db, auth, c, retention, now).Ok? {
      RevokeNeeds(db, auth, c, retention, now);
      RevokeEffect(db, ring, auth, c, retention, now);
      ButIsNoReference(db, Revoke(db, auth, c, retention, now).value.db, c);
    }
  }

  lemma RevokeNeeds(db: Db, auth: Authorization, c: Id, retention: Option<int>, now: Time)
    requires Revoke(db, auth, c, retention, now).Ok?
    ensures Live(db, c) && db.credentials[c].environmentId == auth.environmentId
    ensures auth.MayMutate() && ValidRetention(retention)
  {
  }

  /** Maintenance leaves every secret reference and its text as it was. */
  lemma MaintenanceUnaffected(db: Db, ring: KeyRing, op: Op)
    requires Inv(db) && ring.Valid() && KeysFit(ring, db) && Maintenance(db, op)
    ensures Unaffected(db, Apply(db, ring, op))
  {
    hide Inv, KeysFit, Unaffected, UnaffectedBut, Create, Rotate, Rewrap, Revoke, PurgeRetired, Utf8RoundTrip,
      Serialize;
    match op
    case DoCreate(auth, kind, name, provider, text, c, id, now) =>
      SameTables(db, db);
      if Create(db, ring, auth, kind, name, provider, text, c, id, now).Ok? {
        CreateEffect(db, ring, auth, kind, name, provider, text, c, id, now);
        ButIsNoReference(db, Create(db, ring, auth, kind, name, provider, text, c, id, now).value.db, c);
      }
    case DoRotate(auth, c, text, until, id, now) => RotateUnaffected(db, ring, auth, c, text, until, id, now);
    case DoRewrap(auth, c, id, now) => RewrapUnaffected(db, ring, auth, c, id, now);
    case DoRevoke(auth, c, retention, now) => RevokeUnaffected(db, ring, auth, c, retention, now);
    case DoPurge(ops, cutoff, limit, now) => PurgeUnaffected(db, ops, cutoff, limit, now);
    case DoRead(env, c, kind) => SameTables(db, Apply(db, ring, op));
  }

  // ----- Runs ------------------------------------------------------------------------------------

  datatype System = System(stores: Stores, ring: KeyRing)

  datatype Step =
    | SetVariable(auth: Authorization, key: JsString, value: JsString, secret: bool, credentialId: Id, versionId: Id,
                  now: Time)
    | DeleteVariable(auth: Authorization, key: JsString, now: Time)
    | Maintain(op: Op)
    | AddRoot(root: Root, rootKey: Key)
    | ActivateRoot(root: Root)
    | RemoveRoot(root: Root)

  /** What is assumed of a step: fresh identifiers, and key-ring changes an operator may make. */
  predicate Admissible(y: System, step: Step)
  {
    match step
    case SetVariable(_, _, _, _, c, id, _) => c !in y.stores.db.credentials && id !in y.stores.db.versions
    case DeleteVariable(_, _, _) => true
    case Maintain(op) => Maintenance(y.stores.db, op)
    case AddRoot(root, _) => 0 < root && root !in y.ring.keys
    case ActivateRoot(root) => root in y.ring.keys
    case RemoveRoot(root) => CanRemoveRoot(y.stores.db, y.ring, root)
  }

  ghost function Next(y: System, step: Step): System
    requires y.ring.Valid()
  {
    match step
    case SetVariable(auth, key, value, secret, c, id, now) =>
      var r := Set(y.stores, y.ring, auth, key, value, secret, c, id, now);
      y.(stores := if r.Ok? then r.value else y.stores)
    case DeleteVariable(auth, key, now) =>
      var r := Delete(y.stores, auth, key, now);
      y.(stores := if r.Ok? then r.value.stores else y.stores)
    case Maintain(op) => y.(stores := Stores(Apply(y.stores.db, y.ring, op), y.stores.vars))
    case AddRoot(root, key) => y.(ring := y.ring.(keys := y.ring.keys[root := key]))
    case ActivateRoot(root) => y.(ring := y.ring.(active := root))
    case RemoveRoot(root) => y.(ring := WithoutRoot(y.ring, root))
  }

  function SpecNext(spec: Spec, step: Step): Spec
  {
    match step
    case SetVariable(auth, key, value, secret, _, _, _) =>
      var r := SpecSet(spec, auth, key, value, secret);
      if r.Ok? then r.value else spec
    case DeleteVariable(auth, key, _) =>
      var r := SpecDelete(spec, auth, key);
      if r.Ok? then r.value else spec
    case _ => spec
  }

  lemma MaintainRefines(s: Stores, ring: KeyRing, spec: Spec, op: Op)
    requires ring.Valid() && Refines(s, ring, spec) && Maintenance(s.db, op)
    ensures Refines(Stores(Apply(s.db, ring, op), s.vars), ring, spec)
  {
    hide Inv, KeysFit, Apply, Unaffected, Maintenance;
    StepFits(s.db, ring, op);
    MaintenanceUnaffected(s.db, ring, op);
    UnaffectedRefines(s, Apply(s.db, ring, op), ring, ring, spec);
  }

  /** Another ring that opens what is stored does as well. */
  lemma RingRefines(s: Stores, ring: KeyRing, ring': KeyRing, spec: Spec)
    requires Refines(s, ring, spec) && KeysFit(ring', s.db)
    ensures Refines(s, ring', spec)
  {
    hide Inv, KeysFit, VariableOk, ReferenceOk, BurnedOk;
  }

  lemma StillFits(y: System, step: Step)
    requires y.ring.Valid() && KeysFit(y.ring, y.stores.db) && Admissible(y, step)
    requires step.AddRoot? || step.ActivateRoot? || step.RemoveRoot?
    ensures Next(y, step).ring.Valid() && KeysFit(Next(y, step).ring, y.stores.db) && Next(y, step).stores == y.stores
  {
    hide CanRemoveRoot;
    if step.RemoveRoot? { CanRemoveRootMeans(y.stores.db, y.ring, step.root); }
  }

  lemma StepRefines(y: System, spec: Spec, step: Step)
    requires y.ring.Valid() && Refines(y.stores, y.ring, spec) && Admissible(y, step)
    ensures Next(y, step).ring.Valid()
    ensures Refines(Next(y, step).stores, Next(y, step).ring, SpecNext(spec, step))
  {
    hide Refines, Set, SpecSet, Delete, SpecDelete, Apply, CanRemoveRoot;
    match step
    case SetVariable(auth, key, value, secret, c, id, now) =>
      SetRefines(y.stores, y.ring, spec, auth, key, value, secret, c, id, now);
    case DeleteVariable(auth, key, now) => DeleteRefines(y.stores, y.ring, spec, auth, key, now);
    case Maintain(op) => MaintainRefines(y.stores, y.ring, spec, op);
    case _ =>
      FitsIn(y.stores, y.ring, spec);
      StillFits(y, step);
      RingRefines(y.stores, y.ring, Next(y, step).ring, spec);
  }

  lemma FitsIn(s: Stores, ring: KeyRing, spec: Spec)
    requires Refines(s, ring, spec)
    ensures Inv(s.db) && KeysFit(ring, s.db)
  {
    hide Inv, KeysFit;
  }

  ghost predicate AdmissibleRun(y: System, run: seq<Step>)
    requires y.ring.Valid()
    decreases |run|
  {
    run == [] || (Admissible(y, run[0]) && Next(y, run[0]).ring.Valid() && AdmissibleRun(Next(y, run[0]), run[1..]))
  }

  ghost function RunSystem(y: System, run: seq<Step>): System
    requires y.ring.Valid() && AdmissibleRun(y, run)
    decreases |run|
  {
    if run == [] then y else RunSystem(Next(y, run[0]), run[1..])
  }

  function RunSpec(spec: Spec, run: seq<Step>): Spec
    decreases |run|
  {
    if run == [] then spec else RunSpec(SpecNext(spec, run[0]), run[1..])
  }

  lemma {:induction false} RunRefinesFrom(y: System, spec: Spec, run: seq<Step>)
    requires y.ring.Valid() && Refines(y.stores, y.ring, spec) && AdmissibleRun(y, run)
    ensures Refines(RunSystem(y, run).stores, RunSystem(y, run).ring, RunSpec(spec, run))
    decreases |run|
  {
    hide Refines, Next, SpecNext, Admissible;
    if run != [] {
      StepRefines(y, spec, run[0]);
      RunRefinesFrom(Next(y, run[0]), SpecNext(spec, run[0]), run[1..]);
    }
  }

  const NO_VARIABLES := Stores(EMPTY, map[])
  const NO_VALUES := Spec(map[], {})

  /** From the empty stores, along every run, every read returns what the specification's map holds,
      and each live secret reference is referred to by exactly one variable, the one of its name. */
  lemma EveryRunRefines(ring: KeyRing, run: seq<Step>, environmentId: Id, key: JsString)
    requires ring.Valid() && AdmissibleRun(System(NO_VARIABLES, ring), run)
    ensures var y, spec := RunSystem(System(NO_VARIABLES, ring), run), RunSpec(NO_VALUES, run);
      var r, k := ReadVariable(y.stores, y.ring, environmentId, key), VarKey(environmentId, key);
      && (k in spec.values ==> r.Ok? && r.value.value == spec.values[k].text)
      && (k !in spec.values ==> r == Err(VariableUnavailable))
      && forall c | IsReferenceRow(y.stores.db, c) && Live(y.stores.db, c) ::
           && NameOf(y.stores.db.credentials[c]) in y.stores.vars
           && forall k' | k' in y.stores.vars ::
                y.stores.vars[k'].credentialId == Some(c) <==> k' == NameOf(y.stores.db.credentials[c])
  {
    hide Refines, AdmissibleRun, RunSystem, RunSpec, ReadVariable, Live;
    var y, spec := RunSystem(System(NO_VARIABLES, ring), run), RunSpec(NO_VALUES, run);
    NothingRefines(ring);
    RunRefinesFrom(System(NO_VARIABLES, ring), NO_VALUES, run);
    ReadRefines(y.stores, y.ring, spec, environmentId, key);
    forall c | IsReferenceRow(y.stores.db, c) && Live(y.stores.db, c)
      ensures NameOf(y.stores.db.credentials[c]) in y.stores.vars
      ensures forall k' | k' in y.stores.vars ::
        y.stores.vars[k'].credentialId == Some(c) <==> k' == NameOf(y.stores.db.credentials[c])
    {
      OneVariable(y.stores, y.ring, spec, c);
    }
  }

  lemma NothingRefines(ring: KeyRing)
    ensures Refines(NO_VARIABLES, ring, NO_VALUES)
  {
  }

  /** A live secret reference is referred to by the variable of its name and no other. */
  lemma OneVariable(s: Stores, ring: KeyRing, spec: Spec, c: Id)
    requires Refines(s, ring, spec) && IsReferenceRow(s.db, c) && Live(s.db, c)
    ensures NameOf(s.db.credentials[c]) in s.vars
    ensures forall k | k in s.vars :: s.vars[k].credentialId == Some(c) <==> k == NameOf(s.db.credentials[c])
  {
    hide Inv, KeysFit;
    assert ReferenceOk(s, spec, c);
    forall k | k in s.vars ensures s.vars[k].credentialId == Some(c) <==> k == NameOf(s.db.credentials[c]) {
      assert VariableOk(s, spec, k);
    }
  }

  // ----- When the store is not a plain map -------------------------------------------------------

  /** A value reads back as it was set unless it is secret and not well-formed. */
  lemma PersistedExactly(value: JsString, secret: bool)
    ensures Persisted(value, secret) == value <==> !secret || WellFormed(value)
  {
    RoundTripIdentity(value);
  }

  lemma {:induction false} RunSpecSnoc(spec: Spec, run: seq<Step>, step: Step)
    ensures RunSpec(spec, run + [step]) == SpecNext(RunSpec(spec, run), step)
    decreases |run|
  {
    if run == [] {
      assert run + [step] == [step] && [step][1..] == [];
    } else {
      assert (run + [step])[0] == run[0] && (run + [step])[1..] == run[1..] + [step];
      RunSpecSnoc(SpecNext(spec, run[0]), run[1..], step);
    }
  }

  /** The specification's state after the first `i` steps. */
  function SpecAt(run: seq<Step>, i: nat): Spec
    requires i <= |run|
  {
    RunSpec(NO_VALUES, run[..i])
  }

  lemma SpecAtNext(run: seq<Step>, i: nat)
    requires i < |run|
    ensures SpecAt(run, i + 1) == SpecNext(SpecAt(run, i), run[i])
  {
    assert run[..i + 1] == run[..i] + [run[i]];
    RunSpecSnoc(NO_VALUES, run[..i], run[i]);
  }

  lemma BurnedStep(spec: Spec, step: Step, k: VarKey)
    requires !(spec.IsSecret(k) && k in spec.burned)
    ensures var spec' := SpecNext(spec, step);
      && !(spec'.IsSecret(k) && k in spec'.burned)
      && (k in spec'.burned <==> k in spec.burned || (spec.IsSecret(k) && !spec'.IsSecret(k)))
  {
    hide Trim;
  }

  /** A key is burned exactly when it has been secret at some point of the run and is not secret now. */
  lemma {:induction false} BurnedExactly(run: seq<Step>, n: nat, k: VarKey)
    requires n <= |run|
    ensures !(SpecAt(run, n).IsSecret(k) && k in SpecAt(run, n).burned)
    ensures k in SpecAt(run, n).burned <==>
      !SpecAt(run, n).IsSecret(k) && exists i :: 0 <= i < n && SpecAt(run, i).IsSecret(k)
    decreases n
  {
    hide SpecAt;
    if n == 0 {
      EmptySpec(run);
    } else {
      BurnedExactly(run, n - 1, k);
      SpecAtNext(run, n - 1);
      BurnedStep(SpecAt(run, n - 1), run[n - 1], k);
      hide SpecNext;
      if i :| 0 <= i < n && SpecAt(run, i).IsSecret(k) {
        assert i < n - 1 || i == n - 1;
      }
    }
  }

  lemma EmptySpec(run: seq<Step>)
    ensures SpecAt(run, 0) == NO_VALUES
  {
  }

  /** The plain-map reading is false of the store. In every reachable state and for every key and
      value, once a variable has been set secret and then plain, setting it secret again is refused. */
  lemma FlipBackRefused(s: Stores, ring: KeyRing, spec: Spec, auth: Authorization, key: JsString,
                        v1: JsString, v2: JsString, v3: JsString, c: Id, id: Id, c2: Id, id2: Id, c3: Id, id3: Id,
                        now: Time)
    requires Refines(s, ring, spec) && ring.Valid() && Fresh(s.db, c, id)
    requires NormalizeInput(key, v2).Ok? && NormalizeInput(key, v3).Ok?
    requires Set(s, ring, auth, key, v1, true, c, id, now).Ok?
    requires Fresh(Set(s, ring, auth, key, v1, true, c, id, now).value.db, c2, id2)
    ensures var s1 := Set(s, ring, auth, key, v1, true, c, id, now).value;
      var r2 := Set(s1, ring, auth, key, v2, false, c2, id2, now);
      r2.Ok? && Set(r2.value, ring, auth, key, v3, true, c3, id3, now) == Err(UniqueViolation)
  {
    hide Set, Refines, Trim, SpecSet, NormalizeInput;
    SetRefines(s, ring, spec, auth, key, v1, true, c, id, now);
    var s1, spec1 := Set(s, ring, auth, key, v1, true, c, id, now).value, SpecSet(spec, auth, key, v1, true).value;
    SecretThenPlainBurns(spec, auth, key, v1, v2, v3);
    SetRefines(s1, ring, spec1, auth, key, v2, false, c2, id2, now);
    var s2, spec2 := Set(s1, ring, auth, key, v2, false, c2, id2, now).value,
      SpecSet(spec1, auth, key, v2, false).value;
    BurnedRefused(s2, ring, spec2, auth, key, v3, c3, id3, now);
  }

  lemma SecretThenPlainBurns(spec: Spec, auth: Authorization, key: JsString, v1: JsString, v2: JsString, v3: JsString)
    requires NormalizeInput(key, v2).Ok? && NormalizeInput(key, v3).Ok? && SpecSet(spec, auth, key, v1, true).Ok?
    ensures auth.MayMutate()
    ensures var r := SpecSet(SpecSet(spec, auth, key, v1, true).value, auth, key, v2, false);
      r.Ok? && VarKey(auth.environmentId, NormalizeInput(key, v3).value) in r.value.burned
  {
    hide Trim;
  }

  lemma BurnedRefused(s: Stores, ring: KeyRing, spec: Spec, auth: Authorization, key: JsString, value: JsString,
                      c: Id, id: Id, now: Time)
    requires Refines(s, ring, spec) && ring.Valid() && auth.MayMutate() && NormalizeInput(key, value).Ok?
    requires VarKey(auth.environmentId, NormalizeInput(key, value).value) in spec.burned
    ensures Set(s, ring, auth, key, value, true, c, id, now) == Err(UniqueViolation)
  {
    hide Refines, WriteSecret, Trim;
    SetSecretBurned(s, ring, spec, auth, VarKey(auth.environmentId, NormalizeInput(key, value).value), value, c, id,
                    now);
  }

  /** The refusal does happen: in the empty stores the first secret is accepted. */
  lemma FirstSecretAccepted(ring: KeyRing, auth: Authorization, key: JsString, value: JsString, c: Id, id: Id,
                            now: Time)
    requires ring.Valid() && auth.MayMutate() && NormalizeInput(key, value).Ok?
    ensures Refines(NO_VARIABLES, ring, NO_VALUES)
    ensures Set(NO_VARIABLES, ring, auth, key, value, true, c, id, now).Ok?
  {
    hide Trim;
    SetRefines(NO_VARIABLES, ring, NO_VALUES, auth, key, value, true, c, id, now);
  }
}
