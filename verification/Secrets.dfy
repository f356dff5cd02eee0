/**
 The credential secret store: versioned envelopes under rotating root keys.

 Each database transaction is one function from a database to either a new database or an
 error; an error leaves the database as it was. Row identifiers and clock readings are inputs.
 The unique indexes of the schema are part of the model: an insert that repeats an indexed
 tuple fails.
 */
module Secrets {
  import opened Results
  import opened JsStrings

  // ----- Rows ------------------------------------------------------------------------------------

  /** UUIDs, in the order the database sorts them. */
  type Id = nat

  /** Milliseconds since the epoch. */
  type Time = int

  type Root = nat

  type Key = nat

  datatype CredentialKind = SecretReference | ChannelSecret | EntitySecret | ServiceCredential

  datatype Credential = Credential(
    environmentId: Id, kind: CredentialKind, name: JsString, provider: Option<JsString>,
    activeVersion: Option<Id>, revokedAt: Option<Time>)

  datatype Version = Version(
    credentialId: Id, revision: nat, format: nat, root: Root, envelope: Envelope,
    retiredAt: Option<Time>, readableUntil: Option<Time>, createdAt: Time)

  datatype Action = CREATE | ROTATE | REWRAP | REVOKE | PURGE | READ

  datatype Audit = Audit(
    environmentId: Id, credentialId: Id, action: Action, revision: nat,
    fromRoot: Option<Root>, toRoot: Option<Root>)

  datatype Db = Db(credentials: map<Id, Credential>, versions: map<Id, Version>, audits: seq<Audit>)

  const EMPTY := Db(map[], map[], [])

  datatype Error =
    | CredentialUnavailable | CredentialForbidden | InvalidSecretMaterial
    | InvalidPurgeRequest | InvalidRetentionRequest | UniqueViolation
    | VariableUnavailable | VariableForbidden | NameInvalid | ValueRequired | ValueTooLong

  datatype Commit<+T> = Commit(db: Db, value: T)

  type Tx<+T> = Result<Commit<T>, Error>

  const FORMAT_VERSION := 1
  const PURGE_RETIRED_HARD_LIMIT := 100
  const DEFAULT_REVOKED_SECRET_RETENTION_MS := 24 * 60 * 60 * 1_000
  const MAX_REVOKED_SECRET_RETENTION_MS := 30 * 24 * 60 * 60 * 1_000

  // ----- Key ring and envelopes ------------------------------------------------------------------

  datatype KeyRing = KeyRing(active: Root, keys: map<Root, Key>)
  {
    predicate Valid() { active > 0 && active in keys && 0 !in keys }
  }

  datatype Context = Context(environmentId: Id, credentialId: Id, revision: nat, format: nat, root: Root)

  function Digits(n: nat): (s: string)
    ensures s != ""
    ensures forall i | 0 <= i < |s| :: '0' <= s[i] <= '9'
  {
    if n < 10 then [('0' as int + n) as char] else Digits(n / 10) + Digits(n % 10)
  }

  const NUL := '\0'

  function Serialize(c: Context): string
  {
    Digits(c.environmentId) + [NUL] + (Digits(c.credentialId) + [NUL] + (Digits(c.revision) + [NUL]
    + (Digits(c.format) + [NUL] + Digits(c.root))))
  }

  /** Authenticated encryption, idealised: an envelope records what it was sealed with. */
  datatype Envelope = Envelope(key: Key, aad: string, utf8: JsString)

  function Seal(key: Key, context: Context, plaintext: JsString): (r: Result<Envelope, Error>)
  {
    if plaintext == [] then Err(InvalidSecretMaterial)
    else Ok(Envelope(key, Serialize(context), Utf8RoundTrip(plaintext)))
  }

  function Open(key: Key, context: Context, envelope: Envelope): Result<JsString, Error>
  {
    if envelope.key == key && envelope.aad == Serialize(context) then Ok(envelope.utf8)
    else Err(CredentialUnavailable)
  }

  function ContextOf(environmentId: Id, v: Version): Context
  {
    Context(environmentId, v.credentialId, v.revision, v.format, v.root)
  }

  /** The material of a stored version under a key ring. */
  function Reveal(ring: KeyRing, environmentId: Id, v: Version): Result<JsString, Error>
  {
    if v.root !in ring.keys then Err(CredentialUnavailable)
    else Open(ring.keys[v.root], ContextOf(environmentId, v), v.envelope)
  }

  lemma {:induction false} DigitsInjective(a: nat, b: nat)
    requires Digits(a) == Digits(b)
    ensures a == b
    decreases a
  {
    LastDigit(a);
    LastDigit(b);
    if a >= 10 || b >= 10 {
      assert |Digits(a)| > 1 && |Digits(b)| > 1;
      DigitsInjective(a / 10, b / 10);
    }
  }

  lemma LastDigit(n: nat)
    ensures var s := Digits(n);
      && s[|s| - 1] as int == '0' as int + n % 10
      && (n < 10 ==> |s| == 1)
      && (n >= 10 ==> |s| > 1 && s[..|s| - 1] == Digits(n / 10))
  {
    if n >= 10 {
      assert Digits(n % 10) == [('0' as int + n % 10) as char];
    }
  }

  lemma SplitAtNul(a: string, b: string, x: string, y: string)
    requires NUL !in a && NUL !in b && a + [NUL] + x == b + [NUL] + y
    ensures a == b && x == y
  {
    var s := a + [NUL] + x;
    assert s == b + [NUL] + y;
    assert s[|a|] == NUL && s[|b|] == NUL;
    assert a == s[..|a|] && b == s[..|b|];
    assert x == s[|a| + 1..] && y == s[|b| + 1..];
  }

  /** The text bound into every envelope determines all five fields of its context. */
  lemma SerializeInjective(c: Context, d: Context)
    requires Serialize(c) == Serialize(d)
    ensures c == d
  {
    hide Digits;
    var c4, d4 := Digits(c.format) + [NUL] + Digits(c.root), Digits(d.format) + [NUL] + Digits(d.root);
    var c3, d3 := Digits(c.revision) + [NUL] + c4, Digits(d.revision) + [NUL] + d4;
    var c2, d2 := Digits(c.credentialId) + [NUL] + c3, Digits(d.credentialId) + [NUL] + d3;
    SplitAtNul(Digits(c.environmentId), Digits(d.environmentId), c2, d2);
    SplitAtNul(Digits(c.credentialId), Digits(d.credentialId), c3, d3);
    SplitAtNul(Digits(c.revision), Digits(d.revision), c4, d4);
    SplitAtNul(Digits(c.format), Digits(d.format), Digits(c.root), Digits(d.root));
    DigitsInjective(c.environmentId, d.environmentId);
    DigitsInjective(c.credentialId, d.credentialId);
    DigitsInjective(c.revision, d.revision);
    DigitsInjective(c.format, d.format);
    DigitsInjective(c.root, d.root);
  }

  /** An envelope opens under its own key and context and under no other, and returns the UTF-8
      round trip of what was sealed. */
  lemma OpensOnlyWhereSealed(key: Key, context: Context, plaintext: JsString, key': Key, context': Context)
    requires plaintext != []
    ensures var outcome := Open(key', context', Seal(key, context, plaintext).value);
      outcome == if key' == key && context' == context
                then Ok(Utf8RoundTrip(plaintext)) else Err(CredentialUnavailable)
  {
    if Serialize(context') == Serialize(context) { SerializeInjective(context', context); }
  }

  // ----- Authorization ---------------------------------------------------------------------------

  datatype Principal = Operator | Service | Runtime

  datatype Access = Metadata | SecretMutate | SecretWrite | SecretRead

  datatype Authorization = Authorization(environmentId: Id, principal: Principal, access: Access)
  {
    predicate MayMutate()
    {
      (principal == Operator && access == SecretMutate) || (principal == Service && access == SecretWrite)
    }
  }

  // ----- Transactions ----------------------------------------------------------------------------

  datatype ActiveSecret = ActiveSecret(credential: Credential, versionId: Id, version: Version)

  /** The row lock and read that rotate, rewrap and revoke begin with. */
  function LockActive(db: Db, environmentId: Id, credentialId: Id): Option<ActiveSecret>
  {
    if credentialId !in db.credentials then None else
    var c := db.credentials[credentialId];
    if c.environmentId != environmentId || c.revokedAt.Some? then None
    else if c.activeVersion.None? || c.activeVersion.value !in db.versions then None
    else Some(ActiveSecret(c, c.activeVersion.value, db.versions[c.activeVersion.value]))
  }

  predicate NameTaken(db: Db, environmentId: Id, kind: CredentialKind, name: JsString)
  {
    exists c | c in db.credentials ::
      && db.credentials[c].environmentId == environmentId
      && db.credentials[c].kind == kind
      && db.credentials[c].name == name
  }

  /** The unique index over credential, revision and root. */
  predicate VersionTaken(db: Db, credentialId: Id, revision: nat, root: Root)
  {
    exists v | v in db.versions ::
      && db.versions[v].credentialId == credentialId
      && db.versions[v].revision == revision
      && db.versions[v].root == root
  }

  /** Inserts a sealed version under the active root. */
  function InsertVersion(db: Db, ring: KeyRing, environmentId: Id, credentialId: Id, revision: nat,
                         plaintext: JsString, versionId: Id, now: Time): (r: Result<Db, Error>)
    requires ring.Valid()
  {
    var context := Context(environmentId, credentialId, revision, FORMAT_VERSION, ring.active);
    match Seal(ring.keys[ring.active], context, plaintext)
    case Err(e) => Err(e)
    case Ok(envelope) =>
      if versionId in db.versions || VersionTaken(db, credentialId, revision, ring.active) then Err(UniqueViolation)
      else Ok(db.(versions := db.versions[versionId :=
        Version(credentialId, revision, FORMAT_VERSION, ring.active, envelope, None, None, now)]))
  }

  function Retire(v: Version, retiredAt: Time, readableUntil: Option<Time>): Version
  {
    v.(retiredAt := Some(retiredAt), readableUntil := if readableUntil.Some? then readableUntil else v.readableUntil)
  }

  /** Retires the active version and makes another one active. */
  function Supersede(db: Db, credentialId: Id, active: ActiveSecret, next: Id, now: Time,
                     readableUntil: Option<Time>): Db
  {
    db.(versions := db.versions[active.versionId := Retire(active.version, now, readableUntil)],
        credentials := db.credentials[credentialId := active.credential.(activeVersion := Some(next))])
  }

  function Audited(db: Db, entry: Audit): Db { db.(audits := db.audits + [entry]) }

  function Create(db: Db, ring: KeyRing, auth: Authorization, kind: CredentialKind, name: JsString,
                  provider: Option<JsString>, plaintext: JsString, credentialId: Id, versionId: Id, now: Time): Tx<Id>
    requires ring.Valid()
  {
    var env := auth.environmentId;
    if !auth.MayMutate() then Err(CredentialForbidden)
    else if credentialId in db.credentials || NameTaken(db, env, kind, name) then Err(UniqueViolation)
    else
      match InsertVersion(db, ring, env, credentialId, 1, plaintext, versionId, now)
      case Err(e) => Err(e)
      case Ok(inserted) =>
        var linked := inserted.(credentials := db.credentials[credentialId :=
          Credential(env, kind, name, provider, Some(versionId), None)]);
        Ok(Commit(Audited(linked, Audit(env, credentialId, CREATE, 1, None, Some(ring.active))), credentialId))
  }

  function Rotate(db: Db, ring: KeyRing, auth: Authorization, credentialId: Id, plaintext: JsString,
                  readableUntil: Option<Time>, versionId: Id, now: Time): Tx<Id>
    requires ring.Valid()
  {
    var env := auth.environmentId;
    if !auth.MayMutate() then Err(CredentialForbidden) else
    match LockActive(db, env, credentialId)
    case None => Err(CredentialUnavailable)
    case Some(active) =>
      var revision := active.version.revision + 1;
      match InsertVersion(db, ring, env, credentialId, revision, plaintext, versionId, now)
      case Err(e) => Err(e)
      case Ok(inserted) =>
        var rotated := Supersede(inserted, credentialId, active, versionId, now, readableUntil);
        var entry := Audit(env, credentialId, ROTATE, revision, Some(active.version.root), Some(ring.active));
        Ok(Commit(Audited(rotated, entry), credentialId))
  }

  function Rewrap(db: Db, ring: KeyRing, auth: Authorization, credentialId: Id, versionId: Id, now: Time): Tx<Id>
    requires ring.Valid()
  {
    var env := auth.environmentId;
    if !auth.MayMutate() then Err(CredentialForbidden) else
    match LockActive(db, env, credentialId)
    case None => Err(CredentialUnavailable)
    case Some(active) =>
      if active.version.root == ring.active then Ok(Commit(db, credentialId)) else
      match Reveal(ring, env, active.version.(credentialId := credentialId))
      case Err(e) => Err(e)
      case Ok(material) =>
        match InsertVersion(db, ring, env, credentialId, active.version.revision, material, versionId, now)
        case Err(e) => Err(e)
        case Ok(inserted) =>
          var rewrapped := Supersede(inserted, credentialId, active, versionId, now, None);
          var entry := Audit(env, credentialId, REWRAP, active.version.revision, Some(active.version.root),
                             Some(ring.active));
          Ok(Commit(Audited(rewrapped, entry), credentialId))
  }

  function Revoke(db: Db, auth: Authorization, credentialId: Id, retentionMs: Option<int>, now: Time): Tx<Id>
  {
    var env := auth.environmentId;
    var retention := if retentionMs.Some? then retentionMs.value else DEFAULT_REVOKED_SECRET_RETENTION_MS;
    if !auth.MayMutate() then Err(CredentialForbidden)
    else if retention <= 0 || retention > MAX_REVOKED_SECRET_RETENTION_MS then Err(InvalidRetentionRequest) else
    match LockActive(db, env, credentialId)
    case None => Err(CredentialUnavailable)
    case Some(active) =>
      var retired := db.(
        versions := db.versions[active.versionId := Retire(active.version, now, Some(now + retention))],
        credentials := db.credentials[credentialId :=
            active.credential.(activeVersion := None, revokedAt := Some(now))]);
      var entry := Audit(env, credentialId, REVOKE, active.version.revision, Some(active.version.root), None);
      Ok(Commit(Audited(retired, entry), credentialId))
  }

  /** `readForRuntime` by credential id; a read leaves an audit row. */
  function Read(db: Db, ring: KeyRing, environmentId: Id, credentialId: Id, kind: CredentialKind): Tx<JsString>
  {
    match LockActive(db, environmentId, credentialId)
    case None => Err(CredentialUnavailable)
    case Some(active) =>
      if active.credential.kind != kind then Err(CredentialUnavailable) else
      match Reveal(ring, environmentId, active.version.(credentialId := credentialId))
      case Err(e) => Err(e)
      case Ok(material) =>
        var entry := Audit(environmentId, credentialId, READ, active.version.revision,
                           Some(active.version.root), Some(active.version.root));
        Ok(Commit(Audited(db, entry), material))
  }

  // ----- Purging ---------------------------------------------------------------------------------

  /** The WHERE clause of both purge statements. */
  predicate Purgeable(db: Db, id: Id, cutoff: Time)
    requires id in db.versions
  {
    var v := db.versions[id];
    && v.retiredAt.Some? && v.retiredAt.value <= cutoff
    && (v.readableUntil.None? || v.readableUntil.value <= cutoff)
    && v.credentialId in db.credentials
    && db.credentials[v.credentialId].activeVersion != Some(id)
  }

  function Eligible(db: Db, cutoff: Time): set<Id>
  {
    set id | id in db.versions && Purgeable(db, id, cutoff)
  }

  /** ORDER BY createdAt, id */
  predicate Before(db: Db, a: Id, b: Id)
    requires a in db.versions && b in db.versions
  {
    db.versions[a].createdAt < db.versions[b].createdAt
    || (db.versions[a].createdAt == db.versions[b].createdAt && a <= b)
  }

  predicate IsOldest(db: Db, x: Id, ids: set<Id>)
    requires ids <= db.versions.Keys
  {
    x in ids && forall y | y in ids :: Before(db, x, y)
  }

  lemma {:induction false} OldestExists(db: Db, ids: set<Id>) returns (x: Id)
    requires ids != {} && ids <= db.versions.Keys
    ensures IsOldest(db, x, ids)
    decreases |ids|
  {
    var a :| a in ids;
    var rest := ids - {a};
    if rest == {} {
      x := a;
      assert forall y | y in ids :: y == a || y in rest;
    } else {
      x := OldestExists(db, rest);
      if !Before(db, x, a) { x := a; }
      assert forall y | y in ids :: y == a || y in rest;
    }
  }

  lemma OldestUnique(db: Db, ids: set<Id>, x: Id, y: Id)
    requires ids <= db.versions.Keys && IsOldest(db, x, ids) && IsOldest(db, y, ids)
    ensures x == y
  {
    assert Before(db, x, y) && Before(db, y, x);
  }

  function Oldest(db: Db, ids: set<Id>): (x: Id)
    requires ids != {} && ids <= db.versions.Keys
    ensures IsOldest(db, x, ids)
  {
    assert exists x :: IsOldest(db, x, ids) by { var x := OldestExists(db, ids); }
    assert forall x, y | IsOldest(db, x, ids) && IsOldest(db, y, ids) :: x == y by {
      forall x, y | IsOldest(db, x, ids) && IsOldest(db, y, ids) ensures x == y { OldestUnique(db, ids, x, y); }
    }
    var x :| x in ids && IsOldest(db, x, ids);
    x
  }

  /** ORDER BY … LIMIT n */
  function OldestFirst(db: Db, ids: set<Id>, n: nat): (r: seq<Id>)
    requires ids <= db.versions.Keys
    ensures |r| == if |ids| < n then |ids| else n
    ensures forall i | 0 <= i < |r| :: r[i] in ids
    ensures forall i, j | 0 <= i < j < |r| :: r[i] != r[j]
    ensures forall i, y | 0 <= i < |r| && y in ids && y !in r :: Before(db, r[i], y)
    decreases n
  {
    if n == 0 || ids == {} then []
    else
      var x := Oldest(db, ids);
      [x] + OldestFirst(db, ids - {x}, n - 1)
  }

  function PurgeEntry(db: Db, id: Id): Audit
    requires id in db.versions && db.versions[id].credentialId in db.credentials
  {
    var v := db.versions[id];
    Audit(db.credentials[v.credentialId].environmentId, v.credentialId, PURGE, v.revision, Some(v.root), None)
  }

  /** One DELETE and its audit row. */
  function PurgeOne(db: Db, id: Id): Db
    requires id in db.versions && db.versions[id].credentialId in db.credentials
  {
    Audited(db.(versions := db.versions - {id}), PurgeEntry(db, id))
  }

  /** The candidate loop. A candidate its DELETE does not find aborts the transaction. */
  function PurgeAll(db: Db, ids: seq<Id>, cutoff: Time): Result<Db, Error>
    decreases |ids|
  {
    if ids == [] then Ok(db)
    else if ids[0] !in db.versions || !Purgeable(db, ids[0], cutoff) then Err(CredentialUnavailable)
    else PurgeAll(PurgeOne(db, ids[0]), ids[1..], cutoff)
  }

  function PurgeLimit(limit: Option<int>): int
  {
    if limit.Some? && limit.value < PURGE_RETIRED_HARD_LIMIT then limit.value else PURGE_RETIRED_HARD_LIMIT
  }

  function PurgeRetired(db: Db, rootOperations: bool, cutoff: Time, limit: Option<int>, now: Time): Tx<nat>
  {
    if !rootOperations then Err(CredentialForbidden)
    else if cutoff > now || (limit.Some? && limit.value <= 0) then Err(InvalidPurgeRequest)
    else
      var candidates := OldestFirst(db, Eligible(db, cutoff), PurgeLimit(limit));
      match PurgeAll(db, candidates, cutoff)
      case Err(e) => Err(e)
      case Ok(purged) => Ok(Commit(purged, |candidates|))
  }

  // ----- Root retirement -------------------------------------------------------------------------

  function VersionsUnder(db: Db, root: Root): set<Id>
  {
    set id | id in db.versions && db.versions[id].root == root
  }

  /** `status`: how many stored versions each root still seals. */
  function UnpurgedByRoot(db: Db): map<Root, nat>
  {
    map root | root in (set id | id in db.versions :: db.versions[id].root) :: |VersionsUnder(db, root)|
  }

  predicate CanRemoveRoot(db: Db, ring: KeyRing, root: int)
  {
    && root > 0
    && root != ring.active
    && (root !in UnpurgedByRoot(db) || UnpurgedByRoot(db)[root] == 0)
  }
}
