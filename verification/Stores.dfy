/**
 The two stores as the objects the service holds: tables that each call updates row by row inside
 a transaction, and puts back when the transaction fails. The secret store keeps a view of what each
 live credential holds; the variable store keeps the specification's map. Every method says what it does
 to them and keeps the store valid, so that calls can follow one another.
 */
module Stores {
  import opened Results
  import opened JsStrings
  import opened Secrets
  import opened SecretRuns
  import opened RootRetirement
  import opened HeldSecrets
  import Variables = EnvironmentVariables

  type ValidRing = r: KeyRing | r.Valid() witness KeyRing(1, map[1 := 0])

  /** What a caller sees of a transaction. */
  function Outcome<T>(tx: Tx<T>): Result<T, Error>
  {
    match tx
    case Ok(commit) => Ok(commit.value)
    case Err(e) => Err(e)
  }

  lemma NothingHeld(ring: KeyRing)
    requires ring.Valid()
    ensures Sound(EMPTY, ring) && Held(EMPTY) == map[]
  {
  }

  class PlatosSecretStore {
    const ring: ValidRing
    var credentials: map<Id, Credential>
    var versions: map<Id, Version>
    var audits: seq<Audit>

    function Tables(): Db
      reads this
    {
      Db(credentials, versions, audits)
    }

    ghost predicate Valid()
      reads this
    {
      Sound(Tables(), ring)
    }

    /** What each live credential holds. */
    ghost function Holdings(): View
      reads this
    {
      Held(Tables())
    }

    constructor (ring: ValidRing)
      ensures Valid() && this.ring == ring && Tables() == EMPTY && Holdings() == map[]
    {
      this.ring := ring;
      credentials, versions, audits := map[], map[], [];
      NothingHeld(ring);
    }

    method Restore(db: Db)
      modifies this
      ensures Tables() == db
    {
      credentials, versions, audits := db.credentials, db.versions, db.audits;
    }

    method Append(entry: Audit)
      modifies this`audits
      ensures Tables() == Audited(old(Tables()), entry)
    {
      audits := audits + [entry];
    }

    /** Seals and inserts a version row. */
    method Insert(environmentId: Id, credentialId: Id, revision: nat, plaintext: JsString, versionId: Id, now: Time)
      returns (r: Result<Id, Error>)
      modifies this`versions
      ensures var inserted :=
        InsertVersion(old(Tables()), ring, environmentId, credentialId, revision, plaintext, versionId, now);
        && (r.Ok? <==> inserted.Ok?)
        && (r.Ok? ==> r.value == versionId && Tables() == inserted.value)
        && (r.Err? ==> inserted == Err(r.error) && Tables() == old(Tables()))
    {
      var context := Context(environmentId, credentialId, revision, FORMAT_VERSION, ring.active);
      var sealed := Seal(ring.keys[ring.active], context, plaintext);
      if sealed.Err? { return Err(sealed.error); }
      if versionId in versions || VersionTaken(Tables(), credentialId, revision, ring.active) {
        return Err(UniqueViolation);
      }
      versions := versions[versionId :=
        Version(credentialId, revision, FORMAT_VERSION, ring.active, sealed.value, None, None, now)];
      return Ok(versionId);
    }

    method CreateRows(auth: Authorization, kind: CredentialKind, name: JsString, provider: Option<JsString>,
                      plaintext: JsString, credentialId: Id, versionId: Id, now: Time)
      returns (r: Result<Id, Error>)
      modifies this
      ensures var tx := Create(old(Tables()), ring, auth, kind, name, provider, plaintext, credentialId, versionId,
                               now);
        r == Outcome(tx) && Tables() == Committed(old(Tables()), tx)
    {
      hide InsertVersion, NameTaken;
      var before := Tables();
      if !auth.MayMutate() { return Err(CredentialForbidden); }
      if credentialId in credentials || NameTaken(before, auth.environmentId, kind, name) {
        return Err(UniqueViolation);
      }
      var inserted := Insert(auth.environmentId, credentialId, 1, plaintext, versionId, now);
      if inserted.Err? { return Err(inserted.error); }
      credentials := credentials[credentialId :=
          Credential(auth.environmentId, kind, name, provider, Some(versionId), None)];
      Append(Audit(auth.environmentId, credentialId, CREATE, 1, None, Some(ring.active)));
      return Ok(credentialId);
    }

    /** Succeeds exactly for a permitted caller, some text, fresh identifiers and a name never used before. */
    method CreateCredential(auth: Authorization, kind: CredentialKind, name: JsString, provider: Option<JsString>,
                            plaintext: JsString, credentialId: Id, versionId: Id, now: Time)
      returns (r: Result<Id, Error>)
      requires Valid()
      modifies this
      ensures Valid()
      ensures r.Ok? <==>
        && auth.MayMutate() && plaintext != [] && Variables.Fresh(old(Tables()), credentialId, versionId)
        && !NameTaken(old(Tables()), auth.environmentId, kind, name)
      ensures r.Ok? ==>
        && r.value == credentialId
        && Holdings() == old(Holdings())[credentialId :=
            Holding(auth.environmentId, kind, name, Utf8RoundTrip(plaintext))]
      ensures r.Err? ==> Tables() == old(Tables())
      ensures var tx := Create(old(Tables()), ring, auth, kind, name, provider, plaintext, credentialId, versionId,
                               now);
        r == Outcome(tx) && Tables() == Committed(old(Tables()), tx)
    {
      hide Sound, Held, Create, NameTaken, Utf8RoundTrip;
      CreateHolds(Tables(), ring, auth, kind, name, provider, plaintext, credentialId, versionId, now);
      r := CreateRows(auth, kind, name, provider, plaintext, credentialId, versionId, now);
    }

    /** Retires the active version and points the credential at its successor. */
    method Replace(credentialId: Id, active: ActiveSecret, next: Id, now: Time, readableUntil: Option<Time>)
      modifies this`credentials, this`versions
      ensures Tables() == Supersede(old(Tables()), credentialId, active, next, now, readableUntil)
    {
      versions := versions[active.versionId := Retire(active.version, now, readableUntil)];
      credentials := credentials[credentialId := active.credential.(activeVersion := Some(next))];
    }

    method RotateRows(auth: Authorization, credentialId: Id, plaintext: JsString, readableUntil: Option<Time>,
                      versionId: Id, now: Time)
      returns (r: Result<Id, Error>)
      modifies this
      ensures var tx := Rotate(old(Tables()), ring, auth, credentialId, plaintext, readableUntil, versionId, now);
        r == Outcome(tx) && Tables() == Committed(old(Tables()), tx)
    {
      hide InsertVersion, Supersede;
      if !auth.MayMutate() { return Err(CredentialForbidden); }
      var locked := LockActive(Tables(), auth.environmentId, credentialId);
      if locked.None? { return Err(CredentialUnavailable); }
      var active := locked.value;
      var revision := active.version.revision + 1;
      var inserted := Insert(auth.environmentId, credentialId, revision, plaintext, versionId, now);
      if inserted.Err? { return Err(inserted.error); }
      Replace(credentialId, active, versionId, now, readableUntil);
      Append(Audit(auth.environmentId, credentialId, ROTATE, revision, Some(active.version.root), Some(ring.active)));
      return Ok(credentialId);
    }

    /** Succeeds exactly for a permitted caller on a credential held in their environment; only its text changes. */
    method RotateCredential(auth: Authorization, credentialId: Id, plaintext: JsString, readableUntil: Option<Time>,
                            versionId: Id, now: Time)
      returns (r: Result<Id, Error>)
      requires Valid()
      modifies this
      ensures Valid()
      ensures r.Ok? <==>
        && auth.MayMutate() && plaintext != [] && versionId !in old(versions)
        && MayUse(old(Holdings()), credentialId, auth.environmentId)
      ensures r.Ok? ==>
        && r.value == credentialId
        && Holdings() == old(Holdings())[credentialId :=
            old(Holdings())[credentialId].(text := Utf8RoundTrip(plaintext))]
      ensures r.Err? ==> Tables() == old(Tables())
      ensures var tx := Rotate(old(Tables()), ring, auth, credentialId, plaintext, readableUntil, versionId, now);
        r == Outcome(tx) && Tables() == Committed(old(Tables()), tx)
    {
      hide Sound, Held, Rotate, Utf8RoundTrip;
      RotateHolds(Tables(), ring, auth, credentialId, plaintext, readableUntil, versionId, now);
      r := RotateRows(auth, credentialId, plaintext, readableUntil, versionId, now);
    }

    method RewrapRows(auth: Authorization, credentialId: Id, versionId: Id, now: Time) returns (r: Result<Id, Error>)
      modifies this
      ensures var tx := Rewrap(old(Tables()), ring, auth, credentialId, versionId, now);
        r == Outcome(tx) && Tables() == Committed(old(Tables()), tx)
    {
      hide InsertVersion, Supersede, Reveal;
      if !auth.MayMutate() { return Err(CredentialForbidden); }
      var locked := LockActive(Tables(), auth.environmentId, credentialId);
      if locked.None? { return Err(CredentialUnavailable); }
      var active := locked.value;
      if active.version.root == ring.active { return Ok(credentialId); }
      var material := Reveal(ring, auth.environmentId, active.version.(credentialId := credentialId));
      if material.Err? { return Err(material.error); }
      var inserted := Insert(auth.environmentId, credentialId, active.version.revision, material.value, versionId, now);
      if inserted.Err? { return Err(inserted.error); }
      Replace(credentialId, active, versionId, now, None);
      Append(Audit(auth.environmentId, credentialId, REWRAP, active.version.revision, Some(active.version.root),
                   Some(ring.active)));
      return Ok(credentialId);
    }

    /** Moves a credential held in the caller's environment under the active root, if the unique index has
        room there. */
    method RewrapActive(auth: Authorization, credentialId: Id, versionId: Id, now: Time) returns (r: Result<Id, Error>)
      requires Valid()
      modifies this
      ensures Valid() && Holdings() == old(Holdings())
      ensures var before := old(Tables());
        r.Ok? <==>
          && auth.MayMutate() && MayUse(Held(before), credentialId, auth.environmentId)
            && ActiveOf(before, credentialId).Some?
          && (Under(before, credentialId, ring.active)
              || (versionId !in before.versions
                  && !VersionTaken(before, credentialId, ActiveOf(before, credentialId).value.revision, ring.active)))
      ensures r.Ok? ==> r.value == credentialId && Under(Tables(), credentialId, ring.active)
      ensures r.Err? ==> Tables() == old(Tables())
      ensures var tx := Rewrap(old(Tables()), ring, auth, credentialId, versionId, now);
        r == Outcome(tx) && Tables() == Committed(old(Tables()), tx)
    {
      hide Sound, Held, Rewrap, VersionTaken, Under, ActiveOf;
      RewrapHolds(Tables(), ring, auth, credentialId, versionId, now);
      r := RewrapRows(auth, credentialId, versionId, now);
    }

    method RevokeRows(auth: Authorization, credentialId: Id, retentionMs: Option<int>, now: Time)
      returns (r: Result<Id, Error>)
      modifies this
      ensures var tx := Revoke(old(Tables()), auth, credentialId, retentionMs, now);
        r == Outcome(tx) && Tables() == Committed(old(Tables()), tx)
    {
      hide Retire;
      if !auth.MayMutate() { return Err(CredentialForbidden); }
      var retention := if retentionMs.Some? then retentionMs.value else DEFAULT_REVOKED_SECRET_RETENTION_MS;
      if retention <= 0 || retention > MAX_REVOKED_SECRET_RETENTION_MS { return Err(InvalidRetentionRequest); }
      var locked := LockActive(Tables(), auth.environmentId, credentialId);
      if locked.None? { return Err(CredentialUnavailable); }
      var active := locked.value;
      versions := versions[active.versionId := Retire(active.version, now, Some(now + retention))];
      credentials := credentials[credentialId := active.credential.(activeVersion := None, revokedAt := Some(now))];
      Append(Audit(auth.environmentId, credentialId, REVOKE, active.version.revision, Some(active.version.root), None));
      return Ok(credentialId);
    }

    /** Succeeds exactly for a permitted caller on a credential held in their environment, which is then
        held no more. */
    method RevokeCredential(auth: Authorization, credentialId: Id, retentionMs: Option<int>, now: Time)
      returns (r: Result<Id, Error>)
      requires Valid()
      modifies this
      ensures Valid()
      ensures r.Ok? <==>
        && auth.MayMutate() && Variables.ValidRetention(retentionMs)
        && MayUse(old(Holdings()), credentialId, auth.environmentId)
      ensures r.Ok? ==> r.value == credentialId && Holdings() == old(Holdings()) - {credentialId}
      ensures r.Err? ==> Tables() == old(Tables())
      ensures var tx := Revoke(old(Tables()), auth, credentialId, retentionMs, now);
        r == Outcome(tx) && Tables() == Committed(old(Tables()), tx)
    {
      hide Sound, Held, Revoke;
      RevokeHolds(Tables(), ring, auth, credentialId, retentionMs, now);
      r := RevokeRows(auth, credentialId, retentionMs, now);
    }

    method ReadRows(environmentId: Id, credentialId: Id, kind: CredentialKind) returns (r: Result<JsString, Error>)
      modifies this
      ensures var tx := Read(old(Tables()), ring, environmentId, credentialId, kind);
        r == Outcome(tx) && Tables() == Committed(old(Tables()), tx)
    {
      hide Reveal;
      var locked := LockActive(Tables(), environmentId, credentialId);
      if locked.None? || locked.value.credential.kind != kind { return Err(CredentialUnavailable); }
      var version := locked.value.version;
      r := Reveal(ring, environmentId, version.(credentialId := credentialId));
      if r.Ok? {
        Append(Audit(environmentId, credentialId, READ, version.revision, Some(version.root), Some(version.root)));
      }
    }

    /** Returns what a credential of the kind held in the environment holds, and nothing else ever. */
    method ReadForRuntime(environmentId: Id, credentialId: Id, kind: CredentialKind)
      returns (r: Result<JsString, Error>)
      requires Valid()
      modifies this
      ensures Valid() && Holdings() == old(Holdings())
      ensures r.Ok? <==>
        && MayUse(old(Holdings()), credentialId, environmentId)
        && old(Holdings())[credentialId].kind == kind
      ensures r.Ok? ==> r.value == old(Holdings())[credentialId].text
      ensures r.Err? ==> Tables() == old(Tables())
      ensures var tx := Read(old(Tables()), ring, environmentId, credentialId, kind);
        r == Outcome(tx) && Tables() == Committed(old(Tables()), tx)
    {
      hide Sound, Held, Read;
      ReadHolds(Tables(), ring, environmentId, credentialId, kind);
      r := ReadRows(environmentId, credentialId, kind);
    }

    /** Succeeds exactly on a valid request. On the tables the store can reach, no DELETE misses its row. */
    method PurgeRetiredVersions(rootOperations: bool, cutoff: Time, limit: Option<int>, now: Time)
      returns (r: Result<nat, Error>)
      requires Valid()
      modifies this
      ensures Valid() && Holdings() == old(Holdings())
      ensures r.Ok? <==> rootOperations && cutoff <= now && (limit.Some? ==> limit.value > 0)
      ensures r.Err? ==> Tables() == old(Tables())
      ensures var tx := PurgeRetired(old(Tables()), rootOperations, cutoff, limit, now);
        r == Outcome(tx) && Tables() == Committed(old(Tables()), tx)
    {
      PurgeHolds(Tables(), ring, rootOperations, cutoff, limit, now);
      hide Sound, Held, PurgeAll, OldestFirst, Purgeable;
      if !rootOperations { return Err(CredentialForbidden); }
      if cutoff > now || (limit.Some? && limit.value <= 0) { return Err(InvalidPurgeRequest); }
      var candidates := OldestFirst(Tables(), Eligible(Tables(), cutoff), PurgeLimit(limit));
      DeleteAll(candidates, cutoff);
      return Ok(|candidates|);
    }

    /** The candidate loop. */
    method DeleteAll(candidates: seq<Id>, cutoff: Time)
      requires PurgeAll(Tables(), candidates, cutoff).Ok?
      modifies this
      ensures Ok(Tables()) == PurgeAll(old(Tables()), candidates, cutoff)
    {
      hide PurgeOne, Purgeable;
      ghost var before := Tables();
      var i := 0;
      while i < |candidates|
        invariant 0 <= i <= |candidates|
        invariant PurgeAll(Tables(), candidates[i..], cutoff) == PurgeAll(before, candidates, cutoff)
      {
        var id := candidates[i];
        assert candidates[i..][0] == id && candidates[i..][1..] == candidates[i + 1..];
        DeleteVersion(id, cutoff);
        i := i + 1;
      }
      assert candidates[i..] == [];
    }

    method DeleteVersion(id: Id, cutoff: Time)
      requires id in versions && Purgeable(Tables(), id, cutoff)
      modifies this
      ensures Tables() == PurgeOne(old(Tables()), id)
    {
      var entry := PurgeEntry(Tables(), id);
      versions := versions - {id};
      Append(entry);
    }
  }

  class EnvironmentVariableStore {
    const secrets: PlatosSecretStore
    var variables: Variables.Variables
    ghost var spec: Variables.Spec

    function Tables(): Variables.Stores
      reads this, secrets
    {
      Variables.Stores(secrets.Tables(), variables)
    }

    /** The two stores hold what the specification's map holds. */
    ghost predicate Valid()
      reads this, secrets
    {
      Variables.Refines(Tables(), secrets.ring, spec)
    }

    constructor (secrets: PlatosSecretStore)
      requires secrets.Tables() == EMPTY
      ensures Valid() && this.secrets == secrets && spec == Variables.NO_VALUES
    {
      this.secrets := secrets;
      variables, spec := map[], Variables.NO_VALUES;
      Variables.NothingRefines(secrets.ring);
    }

    /** A live credential of the name is found and rotated, whichever row the query returns first. */
    method WriteSecret(auth: Authorization, k: Variables.VarKey, value: JsString, credentialId: Id, versionId: Id,
                       now: Time)
      returns (r: Result<Id, Error>)
      requires secrets.Valid()
      modifies secrets
      ensures var tx := Variables.WriteSecret(old(secrets.Tables()), variables, secrets.ring, auth, k, value,
                                              credentialId, versionId, now);
        r == Outcome(tx) && secrets.Tables() == Committed(old(secrets.Tables()), tx)
    {
      hide Inv, KeysFit, Create, Rotate, Held, Utf8RoundTrip;
      var db := secrets.Tables();
      if Variables.CredentialOf(variables, k).Some? {
        r := secrets.RotateCredential(auth, Variables.CredentialOf(variables, k).value, value, None, versionId, now);
      } else if exists c | c in db.credentials :: Variables.IsLiveReference(db, c, k) {
        var c :| c in db.credentials && Variables.IsLiveReference(db, c, k);
        Variables.OneReference(db, k, c);
        r := secrets.RotateCredential(auth, c, value, None, versionId, now);
      } else {
        r := secrets.CreateCredential(auth, SecretReference, k.key, None, value, credentialId, versionId, now);
      }
    }

    method RevokeIfUnreferenced(auth: Authorization, c: Id, now: Time) returns (r: Result<(), Error>)
      requires secrets.Valid()
      modifies secrets
      ensures var expected := Variables.RevokeIfUnreferenced(old(secrets.Tables()), variables, auth, Some(c), now);
        && (r.Ok? <==> expected.Ok?)
        && (r.Ok? ==> secrets.Tables() == expected.value)
        && (r.Err? ==> expected == Err(r.error) && secrets.Tables() == old(secrets.Tables()))
    {
      hide Sound, Held, Revoke;
      if exists k | k in variables :: variables[k].credentialId == Some(c) { return Ok(()); }
      var revoked := secrets.RevokeCredential(auth, c, None, now);
      if revoked.Err? { return Err(revoked.error); }
      return Ok(());
    }

    /** The statements of `set`, with their rollback. */
    method SetRows(auth: Authorization, keyInput: JsString, value: JsString, secret: bool, credentialId: Id,
                   versionId: Id, now: Time)
      returns (r: Result<(), Error>)
      requires secrets.Valid()
      modifies this`variables, secrets
      ensures var expected :=
        Variables.Set(old(Tables()), secrets.ring, auth, keyInput, value, secret, credentialId, versionId, now);
        && (r.Ok? <==> expected.Ok?)
        && (r.Ok? ==> Tables() == expected.value)
        && (r.Err? ==> expected == Err(r.error) && Tables() == old(Tables()))
    {
      hide Sound, Trim, Variables.WriteSecret, Variables.RevokeIfUnreferenced;
      if !auth.MayMutate() { return Err(VariableForbidden); }
      var normalized := Variables.NormalizeInput(keyInput, value);
      if normalized.Err? { return Err(normalized.error); }
      var k := Variables.VarKey(auth.environmentId, normalized.value);
      var existing, before := Variables.CredentialOf(variables, k), Tables();
      if secret {
        var written := WriteSecret(auth, k, value, credentialId, versionId, now);
        if written.Err? { return Err(written.error); }
        if !Variables.ReferenceAllowed(secrets.Tables(), auth.environmentId, written.value) {
          secrets.Restore(before.db);
          return Err(CredentialUnavailable);
        }
        variables := variables[k :=
            Variables.Variable(Variables.SECRET, None, Some(written.value), Variables.NextVersion(variables, k))];
      } else {
        variables := variables[k :=
            Variables.Variable(Variables.PLAIN, Some(value), None, Variables.NextVersion(variables, k))];
        if existing.Some? {
          var revoked := RevokeIfUnreferenced(auth, existing.value, now);
          if revoked.Err? {
            variables := before.vars;
            return Err(revoked.error);
          }
        } else {
          NothingToRevoke(secrets.Tables(), variables, auth, now);
        }
      }
      return Ok(());
    }

    /** Does to the map what the specification does, and fails exactly when it does, changing nothing. */
    method SetValue(auth: Authorization, keyInput: JsString, value: JsString, secret: bool, credentialId: Id,
                    versionId: Id, now: Time)
      returns (r: Result<(), Error>)
      requires Valid() && Variables.Fresh(secrets.Tables(), credentialId, versionId)
      modifies this, secrets
      ensures Valid()
      ensures match Variables.SpecSet(old(spec), auth, keyInput, value, secret)
        case Ok(next) => r.Ok? && spec == next
        case Err(e) => r == Err(e) && spec == old(spec) && Tables() == old(Tables())
    {
      hide Variables.Refines, Variables.Set, Variables.SpecSet, Sound;
      IsSound(Tables(), secrets.ring, spec);
      Variables.SetRefines(Tables(), secrets.ring, spec, auth, keyInput, value, secret, credentialId, versionId, now);
      r := SetRows(auth, keyInput, value, secret, credentialId, versionId, now);
      if r.Ok? { spec := Variables.SpecSet(spec, auth, keyInput, value, secret).value; }
    }

    method DeleteRows(auth: Authorization, keyInput: JsString, now: Time) returns (r: Result<bool, Error>)
      requires secrets.Valid()
      modifies this`variables, secrets
      ensures var expected := Variables.Delete(old(Tables()), auth, keyInput, now);
        && (r.Ok? <==> expected.Ok?)
        && (r.Ok? ==> r.value == expected.value.deleted && Tables() == expected.value.stores)
        && (r.Err? ==> expected == Err(r.error) && Tables() == old(Tables()))
    {
      hide Sound, Trim, Variables.RevokeIfUnreferenced;
      if !auth.MayMutate() { return Err(VariableForbidden); }
      var normalized := Variables.NormalizeKey(keyInput);
      if normalized.Err? { return Err(normalized.error); }
      var k := Variables.VarKey(auth.environmentId, normalized.value);
      if k !in variables { return Ok(false); }
      var existing, before := variables[k].credentialId, variables;
      variables := variables - {k};
      if existing.Some? {
        var revoked := RevokeIfUnreferenced(auth, existing.value, now);
        if revoked.Err? {
          variables := before;
          return Err(revoked.error);
        }
      } else {
        NothingToRevoke(secrets.Tables(), variables, auth, now);
      }
      return Ok(true);
    }

    /** Removes the key from the map, and reports whether it was there. */
    method DeleteValue(auth: Authorization, keyInput: JsString, now: Time) returns (r: Result<bool, Error>)
      requires Valid()
      modifies this, secrets
      ensures Valid()
      ensures match Variables.SpecDelete(old(spec), auth, keyInput)
        case Ok(next) => r == Ok(Variables.VarKey(auth.environmentId, Trim(keyInput)) in old(spec).values)
          && spec == next
        case Err(e) => r == Err(e) && spec == old(spec) && Tables() == old(Tables())
    {
      hide Variables.Refines, Variables.Delete, Variables.SpecDelete, Sound, Trim;
      IsSound(Tables(), secrets.ring, spec);
      Variables.DeleteRefines(Tables(), secrets.ring, spec, auth, keyInput, now);
      r := DeleteRows(auth, keyInput, now);
      if r.Ok? { spec := Variables.SpecDelete(spec, auth, keyInput).value; }
    }

    method ReadRow(environmentId: Id, key: JsString) returns (r: Result<JsString, Error>)
      requires secrets.Valid()
      modifies secrets
      ensures var tx := Variables.ReadVariable(old(Tables()), secrets.ring, environmentId, key);
        r == Outcome(tx) && secrets.Tables() == Committed(old(secrets.Tables()), tx)
    {
      hide Sound, Held, Read;
      var k := Variables.VarKey(environmentId, key);
      if k !in variables { return Err(VariableUnavailable); }
      var v := variables[k];
      if v.kind == Variables.PLAIN && v.value.Some? { return Ok(v.value.value); }
      if v.kind != Variables.SECRET || v.credentialId.None? { return Err(VariableUnavailable); }
      r := secrets.ReadForRuntime(environmentId, v.credentialId.value, SecretReference);
    }

    /** Returns exactly what the map holds. */
    method ReadValue(environmentId: Id, key: JsString) returns (r: Result<JsString, Error>)
      requires Valid()
      modifies secrets
      ensures Valid()
      ensures var k := Variables.VarKey(environmentId, key);
        r == if k in spec.values then Ok(spec.values[k].text) else Err(VariableUnavailable)
    {
      hide Variables.Refines, Variables.ReadVariable, Sound;
      IsSound(Tables(), secrets.ring, spec);
      Variables.ReadRefines(Tables(), secrets.ring, spec, environmentId, key);
      r := ReadRow(environmentId, key);
    }
  }

  lemma IsSound(s: Variables.Stores, ring: ValidRing, spec: Variables.Spec)
    requires Variables.Refines(s, ring, spec)
    ensures Sound(s.db, ring)
  {
    hide Inv, KeysFit;
  }

  lemma NothingToRevoke(db: Db, vars: Variables.Variables, auth: Authorization, now: Time)
    ensures Variables.RevokeIfUnreferenced(db, vars, auth, None, now) == Ok(db)
  {
  }
}
