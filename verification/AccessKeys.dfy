/**
 Access-key rotation and revocation for environments. A rotation reads the environment's
 revocation generation before it waits for the environment's row lock and commits under the lock;
 a revoke bumps the generation under the same lock. Each locked transaction is one step, and the
 steps of concurrent callers interleave freely.
 */
module AccessKeys {
  import opened Results

  type Id = nat
  type Time = int

  /** Column defaults: no origins. */
  const NO_ORIGINS: seq<string> := []

  datatype AccessKey = AccessKey(
    environmentId: Id, prefix: string, hash: string, origins: seq<string>,
    validUntil: Option<Time>, replacedBy: Option<Id>, revokedAt: Option<Time>)
  {
    predicate Unrevoked(env: Id) { environmentId == env && revokedAt.None? }

    /** The rows the partial unique index covers. */
    predicate Active(env: Id) { Unrevoked(env) && validUntil.None? }
  }

  type Keys = map<Id, AccessKey>

  /** `generations` holds `accessKeyRevocationVersion` for each environment. */
  datatype Db = Db(generations: map<Id, nat>, keys: Keys)

  datatype Error = InvalidMaterial | StoreUnavailable | Superseded | UniqueViolation

  datatype Rotation = Rotation(key: Id, retiring: Option<Id>)

  // ----- Input validation ------------------------------------------------------------------------

  predicate IsHexLower(c: char) { 'a' <= c <= 'f' || '0' <= c <= '9' }

  predicate IsPrefixChar(c: char)
  {
    'A' <= c <= 'Z' || 'a' <= c <= 'z' || '0' <= c <= '9' || c == '_' || c == '-'
  }

  const LIVE_PREFIX := "platos_live_"

  predicate ValidMaterial(hash: string, prefix: string, overlapMs: int)
  {
    && |hash| == 64 && (forall i | 0 <= i < |hash| :: IsHexLower(hash[i]))
    && LIVE_PREFIX <= prefix && 1 <= |prefix| - |LIVE_PREFIX| <= 12
    && (forall i | |LIVE_PREFIX| <= i < |prefix| :: IsPrefixChar(prefix[i]))
    && overlapMs > 0
  }

  // ----- Queries ---------------------------------------------------------------------------------

  predicate HashTaken(keys: Keys, hash: string) { exists k | k in keys :: keys[k].hash == hash }

  /** The unique indexes over identifiers and hashes. */
  predicate Taken(keys: Keys, keyId: Id, hash: string) { keyId in keys || HashTaken(keys, hash) }

  function ActiveKeys(keys: Keys, env: Id): set<Id> { set k | k in keys && keys[k].Active(env) }

  function LiveKeys(keys: Keys, env: Id): set<Id> { set k | k in keys && keys[k].Unrevoked(env) }

  ghost predicate OneActive(keys: Keys, env: Id)
  {
    forall a, b | a in keys && b in keys && keys[a].Active(env) && keys[b].Active(env) :: a == b
  }

  ghost function FindActive(keys: Keys, env: Id): (r: Option<Id>)
    ensures r.Some? ==> r.value in keys && keys[r.value].Active(env)
    ensures r.None? ==> forall k | k in keys :: !keys[k].Active(env)
  {
    if k :| k in keys && keys[k].Active(env) then Some(k) else None
  }

  predicate Retiring(keys: Keys, k: Id, env: Id, successor: Id)
  {
    k in keys && keys[k].Unrevoked(env) && keys[k].replacedBy == Some(successor)
  }

  ghost function FindRetiring(keys: Keys, env: Id, successor: Id): (r: Option<Id>)
    ensures r.Some? ==> Retiring(keys, r.value, env, successor)
    ensures r.None? ==> forall k | k in keys :: !Retiring(keys, k, env, successor)
  {
    if k :| Retiring(keys, k, env, successor) then Some(k) else None
  }

  // ----- Transactions ----------------------------------------------------------------------------

  datatype Request = Request(environmentId: Id, hash: string, prefix: string, overlapMs: int)

  /** The three statements that replace the active key. */
  function AfterCreate(keys: Keys, request: Request, active: Id, keyId: Id, now: Time): Keys
    requires active in keys
  {
    keys[keyId := AccessKey(request.environmentId, request.prefix, request.hash, keys[active].origins, Some(now),
                            None, None)]
  }

  function AfterRetire(keys: Keys, request: Request, active: Id, keyId: Id, now: Time): Keys
    requires active in keys && keyId !in keys
  {
    AfterCreate(keys, request, active, keyId, now)
      [active := keys[active].(validUntil := Some(now + request.overlapMs), replacedBy := Some(keyId))]
  }

  function AfterActivate(keys: Keys, request: Request, active: Id, keyId: Id, now: Time): Keys
    requires active in keys && keyId !in keys
  {
    var retired := AfterRetire(keys, request, active, keyId, now);
    retired[keyId := retired[keyId].(validUntil := None)]
  }

  function FirstKey(request: Request): AccessKey
  {
    AccessKey(request.environmentId, request.prefix, request.hash, NO_ORIGINS, None, None, None)
  }

  datatype Committed = Committed(keys: Keys, rotation: Rotation)

  /** The locked transaction of `rotateAccessKey`, given the generation read before the lock. */
  ghost function RotateLocked(db: Db, request: Request, generation: nat, keyId: Id, now: Time): Result<Committed, Error>
  {
    var env := request.environmentId;
    if env !in db.generations then Err(StoreUnavailable)
    else if db.generations[env] != generation then Err(Superseded) else
    match FindActive(db.keys, env)
    case None =>
      if Taken(db.keys, keyId, request.hash) then Err(UniqueViolation)
      else Ok(Committed(db.keys[keyId := FirstKey(request)], Rotation(keyId, None)))
    case Some(active) =>
      if db.keys[active].hash == request.hash then
        Ok(Committed(db.keys, Rotation(active, FindRetiring(db.keys, env, active))))
      else if Taken(db.keys, keyId, request.hash) then Err(UniqueViolation)
      else Ok(Committed(AfterActivate(db.keys, request, active, keyId, now), Rotation(keyId, Some(active))))
  }

  function WithOrigins(keys: Keys, env: Id, origins: seq<string>): Keys
  {
    map k | k in keys :: if keys[k].Active(env) then keys[k].(origins := origins) else keys[k]
  }

  function WithRevoked(keys: Keys, env: Id, now: Time): Keys
  {
    map k | k in keys :: if keys[k].Unrevoked(env) then keys[k].(revokedAt := Some(now)) else keys[k]
  }

  // ----- The abstract environment: a chain of keys -----------------------------------------------

  /** Unrevoked keys, oldest first; the last one is active and carries the origins. */
  datatype Chain = Chain(generation: nat, ids: seq<Id>, origins: seq<string>)

  ghost predicate IsChain(keys: Keys, env: Id, ids: seq<Id>)
  {
    && (forall i, j | 0 <= i < j < |ids| :: ids[i] != ids[j])
    && (forall k | k in keys && keys[k].Unrevoked(env) :: k in ids)
    && (forall i | 0 <= i < |ids| :: ids[i] in keys && keys[ids[i]].Unrevoked(env))
    && (forall i | 0 <= i < |ids| - 1 :: keys[ids[i]].replacedBy == Some(ids[i + 1]) && keys[ids[i]].validUntil.Some?)
    && (ids != [] ==> keys[ids[|ids| - 1]].replacedBy.None? && keys[ids[|ids| - 1]].validUntil.None?)
  }

  ghost predicate EnvironmentOk(db: Db, chains: map<Id, Chain>, env: Id)
  {
    && (env in db.generations <==> env in chains)
    && (env in chains ==>
          && chains[env].generation == db.generations[env]
          && IsChain(db.keys, env, chains[env].ids)
          && chains[env].origins
             == if chains[env].ids == [] then NO_ORIGINS else db.keys[chains[env].ids[|chains[env].ids| - 1]].origins)
  }

  ghost predicate Represents(db: Db, chains: map<Id, Chain>)
  {
    && (forall env :: EnvironmentOk(db, chains, env))
    && (forall k | k in db.keys :: db.keys[k].environmentId in db.generations)
    && (forall a, b | a in db.keys && b in db.keys && db.keys[a].hash == db.keys[b].hash :: a == b)
  }

  /** What the code's rotation does to a chain. The database only says whether the hash is new. */
  function ChainRotate(chain: Chain, activeHash: Option<string>, request: Request, generation: nat, keyId: Id,
                       taken: bool): Result<Chain, Error>
  {
    if chain.generation != generation then Err(Superseded)
    else if activeHash == Some(request.hash) then Ok(chain)
    else if taken then Err(UniqueViolation)
    else Ok(chain.(ids := chain.ids + [keyId]))
  }

  /** The last two keys of a chain, as the caller is told. */
  function Tip(ids: seq<Id>): Rotation
    requires ids != []
  {
    Rotation(ids[|ids| - 1], if |ids| > 1 then Some(ids[|ids| - 2]) else None)
  }

  lemma ChainActive(keys: Keys, env: Id, ids: seq<Id>)
    requires IsChain(keys, env, ids)
    ensures OneActive(keys, env)
    ensures FindActive(keys, env) == if ids == [] then None else Some(ids[|ids| - 1])
  {
    forall k | k in keys && keys[k].Active(env)
      ensures ids != [] && k == ids[|ids| - 1]
    {
      var i :| 0 <= i < |ids| && ids[i] == k;
    }
    if ids != [] { assert keys[ids[|ids| - 1]].Active(env); }
  }

  lemma ChainRetiring(keys: Keys, env: Id, ids: seq<Id>)
    requires IsChain(keys, env, ids) && ids != []
    ensures FindRetiring(keys, env, ids[|ids| - 1]) == Tip(ids).retiring
  {
    var last := ids[|ids| - 1];
    forall k | k in keys && Retiring(keys, k, env, last)
      ensures |ids| > 1 && k == ids[|ids| - 2]
    {
      var i :| 0 <= i < |ids| && ids[i] == k;
      assert i < |ids| - 1 && ids[i + 1] == last;
    }
    if |ids| > 1 { assert Retiring(keys, ids[|ids| - 2], env, last); }
  }

  // ----- Inside a rotation -----------------------------------------------------------------------

  /** The partial unique index holds after every statement of the replacement, in every environment. */
  lemma OneActiveThroughout(keys: Keys, request: Request, active: Id, keyId: Id, now: Time, env: Id)
    requires active in keys && keys[active].Active(request.environmentId) && keyId !in keys && OneActive(keys, env)
    requires OneActive(keys, request.environmentId)
    ensures OneActive(AfterCreate(keys, request, active, keyId, now), env)
    ensures OneActive(AfterRetire(keys, request, active, keyId, now), env)
    ensures OneActive(AfterActivate(keys, request, active, keyId, now), env)
  {
  }

  // ----- Each step refines the chain -------------------------------------------------------------

  /** The other environments' rows are as they were. */
  ghost predicate OthersKept(keys: Keys, keys': Keys, env: Id)
  {
    && (forall k | k in keys && keys[k].environmentId != env :: k in keys' && keys'[k] == keys[k])
    && (forall k | k in keys' && keys'[k].environmentId != env :: k in keys)
    && (forall k | k in keys && k in keys' :: keys'[k].environmentId == keys[k].environmentId)
  }

  lemma OthersStillOk(db: Db, db': Db, chains: map<Id, Chain>, chains': map<Id, Chain>, env: Id, other: Id)
    requires EnvironmentOk(db, chains, other) && other != env && OthersKept(db.keys, db'.keys, env)
    requires db'.generations - {env} == db.generations - {env} && chains' - {env} == chains - {env}
    ensures EnvironmentOk(db', chains', other)
  {
    assert other in db'.generations <==> other in db'.generations - {env};
    assert other in db.generations <==> other in db.generations - {env};
    assert other in chains' <==> other in chains' - {env};
    assert other in chains <==> other in chains - {env};
    if other in chains {
      assert (chains - {env})[other] == chains[other] && (chains' - {env})[other] == chains'[other];
      assert (db.generations - {env})[other] == db.generations[other];
      assert (db'.generations - {env})[other] == db'.generations[other];
      ChainKept(db.keys, db'.keys, env, other, chains[other].ids);
    }
  }

  lemma ChainKept(keys: Keys, keys': Keys, env: Id, other: Id, ids: seq<Id>)
    requires OthersKept(keys, keys', env) && other != env && IsChain(keys, other, ids)
    ensures IsChain(keys', other, ids)
    ensures forall i | 0 <= i < |ids| :: keys'[ids[i]] == keys[ids[i]]
  {
    forall i | 0 <= i < |ids| ensures ids[i] in keys' && keys'[ids[i]] == keys[ids[i]] {
      assert keys[ids[i]].environmentId == other;
    }
  }

  lemma ChainExtended(keys: Keys, request: Request, ids: seq<Id>, keyId: Id, now: Time)
    requires IsChain(keys, request.environmentId, ids) && ids != [] && keyId !in keys
    ensures IsChain(AfterActivate(keys, request, ids[|ids| - 1], keyId, now), request.environmentId, ids + [keyId])
  {
    var env, last := request.environmentId, ids[|ids| - 1];
    var keys' := AfterActivate(keys, request, last, keyId, now);
    var ids' := ids + [keyId];
    assert keyId !in ids;
    forall i | 0 <= i < |ids'| ensures ids'[i] in keys' && keys'[ids'[i]].Unrevoked(env) {
      if i < |ids| { assert ids'[i] == ids[i]; }
    }
    forall i | 0 <= i < |ids'| - 1
      ensures keys'[ids'[i]].replacedBy == Some(ids'[i + 1]) && keys'[ids'[i]].validUntil.Some? {
      assert ids'[i] == ids[i];
      if i < |ids| - 1 { assert ids'[i + 1] == ids[i + 1] && ids[i] != last; }
    }
    forall k | k in keys' && keys'[k].Unrevoked(env) ensures k in ids' {
      if k != keyId { assert k in ids; }
    }
  }

  lemma HashesStayUnique(keys: Keys, keys': Keys, keyId: Id, hash: string)
    requires forall a, b | a in keys && b in keys && keys[a].hash == keys[b].hash :: a == b
    requires keyId !in keys && !HashTaken(keys, hash) && keys'.Keys == keys.Keys + {keyId}
    requires keys'[keyId].hash == hash && forall k | k in keys :: keys'[k].hash == keys[k].hash
    ensures forall a, b | a in keys' && b in keys' && keys'[a].hash == keys'[b].hash :: a == b
  {
  }

  lemma RepresentsAfter(db: Db, db': Db, chains: map<Id, Chain>, chains': map<Id, Chain>, env: Id)
    requires Represents(db, chains) && OthersKept(db.keys, db'.keys, env)
    requires db'.generations - {env} == db.generations - {env} && chains' - {env} == chains - {env}
    requires EnvironmentOk(db', chains', env)
    requires forall k | k in db'.keys :: db'.keys[k].environmentId in db'.generations
    requires forall a, b | a in db'.keys && b in db'.keys && db'.keys[a].hash == db'.keys[b].hash :: a == b
    ensures Represents(db', chains')
  {
    hide EnvironmentOk, OthersKept;
    forall e ensures EnvironmentOk(db', chains', e) {
      if e != env { OthersStillOk(db, db', chains, chains', env, e); }
    }
  }

  function ActiveHash(db: Db, chain: Chain): Option<string>
  {
    if chain.ids == [] || chain.ids[|chain.ids| - 1] !in db.keys then None
    else Some(db.keys[chain.ids[|chain.ids| - 1]].hash)
  }

  /** A rotation does to the tables what `ChainRotate` does to the chain: it extends it by the new key,
      keeps it when the active hash is replayed, or fails. The caller learns the last two keys. */
  lemma RotateRefines(db: Db, chains: map<Id, Chain>, request: Request, generation: nat, keyId: Id, now: Time)
    requires Represents(db, chains) && request.environmentId in chains
    ensures var env := request.environmentId;
      var r := RotateLocked(db, request, generation, keyId, now);
      var expected := ChainRotate(chains[env], ActiveHash(db, chains[env]), request, generation, keyId,
                                  Taken(db.keys, keyId, request.hash));
      && (r.Ok? <==> expected.Ok?)
      && (r.Err? ==> r.error == expected.error)
      && (r.Ok? ==>
            && Represents(db.(keys := r.value.keys), chains[env := expected.value])
            && expected.value.ids != [] && r.value.rotation == Tip(expected.value.ids))
      && (r.Ok? && ActiveHash(db, chains[env]) == Some(request.hash) ==> r.value.keys == db.keys)
  {
    var env := request.environmentId;
    var chain := chains[env];
    assert EnvironmentOk(db, chains, env);
    ChainActive(db.keys, env, chain.ids);
    if chain.ids != [] { ChainRetiring(db.keys, env, chain.ids); }
    assert env in db.generations && chain.generation == db.generations[env];
    assert chain.ids != [] ==> chain.ids[|chain.ids| - 1] in db.keys;
    hide Represents, EnvironmentOk, IsChain, OneActive, HashTaken, AfterActivate;
    if chain.generation == generation && !Taken(db.keys, keyId, request.hash) {
      var chains' := chains[env := chain.(ids := chain.ids + [keyId])];
      assert chains' - {env} == chains - {env};
      if chain.ids == [] {
        assert chain.ids + [keyId] == [keyId];
        FirstRepresents(db, chains, request, keyId);
      } else {
        ExtendRepresents(db, chains, request, keyId, now);
      }
    } else {
      assert chains[env := chain] == chains;
    }
  }

  lemma FirstRepresents(db: Db, chains: map<Id, Chain>, request: Request, keyId: Id)
    requires Represents(db, chains) && request.environmentId in chains && chains[request.environmentId].ids == []
    requires keyId !in db.keys && !HashTaken(db.keys, request.hash)
    ensures var env := request.environmentId;
      Represents(db.(keys := db.keys[keyId := FirstKey(request)]), chains[env := chains[env].(ids := [keyId])])
  {
    var env := request.environmentId;
    var db', chains' := db.(keys := db.keys[keyId := FirstKey(request)]), chains[env := chains[env].(ids := [keyId])];
    assert chains' - {env} == chains - {env};
    assert EnvironmentOk(db, chains, env);
    assert IsChain(db'.keys, env, [keyId]);
    HashesStayUnique(db.keys, db'.keys, keyId, request.hash);
    RepresentsAfter(db, db', chains, chains', env);
  }

  lemma ExtendRepresents(db: Db, chains: map<Id, Chain>, request: Request, keyId: Id, now: Time)
    requires Represents(db, chains) && request.environmentId in chains && chains[request.environmentId].ids != []
    requires keyId !in db.keys && !HashTaken(db.keys, request.hash)
    requires EnvironmentOk(db, chains, request.environmentId)
    ensures var env := request.environmentId;
      var ids := chains[env].ids;
      Represents(db.(keys := AfterActivate(db.keys, request, ids[|ids| - 1], keyId, now)),
                 chains[env := chains[env].(ids := ids + [keyId])])
  {
    var env := request.environmentId;
    var ids := chains[env].ids;
    var last := ids[|ids| - 1];
    var keys' := AfterActivate(db.keys, request, last, keyId, now);
    var db', chains' := db.(keys := keys'), chains[env := chains[env].(ids := ids + [keyId])];
    assert chains' - {env} == chains - {env};
    ChainExtended(db.keys, request, ids, keyId, now);
    AfterActivateFrame(db.keys, request, last, keyId, now);
    hide IsChain, AfterActivate, OthersKept;
    HashesStayUnique(db.keys, keys', keyId, request.hash);
    hide HashTaken;
    RepresentsAfter(db, db', chains, chains', env);
  }

  lemma AfterActivateFrame(keys: Keys, request: Request, active: Id, keyId: Id, now: Time)
    requires active in keys && keys[active].environmentId == request.environmentId && keyId !in keys
    ensures var keys' := AfterActivate(keys, request, active, keyId, now);
      && OthersKept(keys, keys', request.environmentId) && keys'.Keys == keys.Keys + {keyId}
      && (forall k | k in keys :: keys'[k].hash == keys[k].hash && keys'[k].environmentId == keys[k].environmentId)
      && keys'[keyId].hash == request.hash && keys'[keyId].environmentId == request.environmentId
      && keys'[keyId].origins == keys[active].origins
  {
  }

  function ChainOrigins(chain: Chain, origins: seq<string>): Chain
  {
    if chain.ids == [] then chain else chain.(origins := origins)
  }

  function ChainRevoke(chain: Chain): Chain { Chain(chain.generation + 1, [], NO_ORIGINS) }

  lemma OriginsFrame(keys: Keys, env: Id, origins: seq<string>, ids: seq<Id>)
    requires IsChain(keys, env, ids)
    ensures var keys' := WithOrigins(keys, env, origins);
      && keys'.Keys == keys.Keys && IsChain(keys', env, ids) && OthersKept(keys, keys', env)
      && (forall k | k in keys :: keys'[k].hash == keys[k].hash && keys'[k].environmentId == keys[k].environmentId)
      && (ids != [] ==> keys'[ids[|ids| - 1]].origins == origins)
  {
    if ids != [] { assert keys[ids[|ids| - 1]].Active(env); }
  }

  lemma OriginsRefines(db: Db, chains: map<Id, Chain>, env: Id, origins: seq<string>)
    requires Represents(db, chains) && env in chains
    ensures Represents(db.(keys := WithOrigins(db.keys, env, origins)),
                       chains[env := ChainOrigins(chains[env], origins)])
  {
    hide IsChain, OthersKept, WithOrigins;
    var ids := chains[env].ids;
    assert EnvironmentOk(db, chains, env);
    var keys' := WithOrigins(db.keys, env, origins);
    var db', chains' := db.(keys := keys'), chains[env := ChainOrigins(chains[env], origins)];
    assert chains' - {env} == chains - {env};
    OriginsFrame(db.keys, env, origins, ids);
    RepresentsAfter(db, db', chains, chains', env);
  }

  lemma RevokeRefines(db: Db, chains: map<Id, Chain>, env: Id, now: Time)
    requires Represents(db, chains) && env in chains
    ensures env in db.generations
    ensures Represents(Db(db.generations[env := db.generations[env] + 1], WithRevoked(db.keys, env, now)),
                       chains[env := ChainRevoke(chains[env])])
  {
    assert EnvironmentOk(db, chains, env);
    var keys' := WithRevoked(db.keys, env, now);
    var db', chains' := Db(db.generations[env := db.generations[env] + 1], keys'),
      chains[env := ChainRevoke(chains[env])];
    assert chains' - {env} == chains - {env} && db'.generations - {env} == db.generations - {env};
    assert IsChain(keys', env, []);
    assert OthersKept(db.keys, keys', env);
    hide IsChain, OthersKept;
    RepresentsAfter(db, db', chains, chains', env);
  }

  // ----- Runs: interleaved snapshots, commits, origin updates and revokes ------------------------

  /** A rotation that has read its generation and has not committed. */
  datatype Pending = Pending(request: Request, generation: nat)

  datatype System = System(db: Db, pending: map<Id, Pending>)

  datatype Step =
    | Begin(rotation: Id, request: Request)
    | Commit(rotation: Id, keyId: Id, now: Time)
    | SetOrigins(env: Id, origins: seq<string>)
    | Revoke(env: Id, now: Time)

  ghost function Next(y: System, step: Step): System
  {
    match step
    case Begin(rotation, request) =>
      if !ValidMaterial(request.hash, request.prefix, request.overlapMs) || request.environmentId !in y.db.generations
        then y
      else y.(pending := y.pending[rotation := Pending(request, y.db.generations[request.environmentId])])
    case Commit(rotation, keyId, now) =>
      if rotation !in y.pending then y else
      var p := y.pending[rotation];
      var r := RotateLocked(y.db, p.request, p.generation, keyId, now);
      System(if r.Ok? then y.db.(keys := r.value.keys) else y.db, y.pending - {rotation})
    case SetOrigins(env, origins) =>
      if env !in y.db.generations then y else y.(db := y.db.(keys := WithOrigins(y.db.keys, env, origins)))
    case Revoke(env, now) =>
      if env !in y.db.generations then y
      else y.(db := Db(y.db.generations[env := y.db.generations[env] + 1], WithRevoked(y.db.keys, env, now)))
  }

  /** A rotation under way is known by its own name. */
  predicate Fresh(y: System, step: Step) { step.Begin? ==> step.rotation !in y.pending }

  ghost function ChainsNext(y: System, chains: map<Id, Chain>, step: Step): map<Id, Chain>
  {
    match step
    case Begin(_, _) => chains
    case Commit(rotation, keyId, _) =>
      if rotation !in y.pending || y.pending[rotation].request.environmentId !in chains then chains else
      var p := y.pending[rotation];
      var env := p.request.environmentId;
      var r := ChainRotate(chains[env], ActiveHash(y.db, chains[env]), p.request, p.generation, keyId,
                           Taken(y.db.keys, keyId, p.request.hash));
      if r.Ok? then chains[env := r.value] else chains
    case SetOrigins(env, origins) => if env in chains then chains[env := ChainOrigins(chains[env], origins)] else chains
    case Revoke(env, _) => if env in chains then chains[env := ChainRevoke(chains[env])] else chains
  }

  /** Every reachable state is a set of chains: at most one active key per environment, the unrevoked
      keys of each in one acyclic line that ends at it. */
  lemma StepRefines(y: System, chains: map<Id, Chain>, step: Step)
    requires Represents(y.db, chains) && Fresh(y, step)
    ensures Represents(Next(y, step).db, ChainsNext(y, chains, step))
  {
    hide Represents, RotateLocked, ValidMaterial;
    match step
    case Begin(rotation, request) =>
    case Commit(rotation, keyId, now) =>
      if rotation in y.pending {
        var p := y.pending[rotation];
        SameEnvironments(y.db, chains, p.request.environmentId);
        if p.request.environmentId in chains {
          RotateRefines(y.db, chains, p.request, p.generation, keyId, now);
        } else {
          UnknownEnvironment(y.db, p.request, p.generation, keyId, now);
        }
      }
    case SetOrigins(env, origins) =>
      SameEnvironments(y.db, chains, env);
      if env in chains { OriginsRefines(y.db, chains, env, origins); }
    case Revoke(env, now) =>
      SameEnvironments(y.db, chains, env);
      if env in chains { RevokeRefines(y.db, chains, env, now); }
  }

  lemma SameEnvironments(db: Db, chains: map<Id, Chain>, env: Id)
    requires Represents(db, chains)
    ensures env in db.generations <==> env in chains
  {
    assert EnvironmentOk(db, chains, env);
  }

  lemma UnknownEnvironment(db: Db, request: Request, generation: nat, keyId: Id, now: Time)
    requires request.environmentId !in db.generations
    ensures RotateLocked(db, request, generation, keyId, now) == Err(StoreUnavailable)
  {
  }

  ghost predicate FreshRun(y: System, run: seq<Step>)
    decreases |run|
  {
    run == [] || (Fresh(y, run[0]) && FreshRun(Next(y, run[0]), run[1..]))
  }

  ghost function Run(y: System, run: seq<Step>): System
    decreases |run|
  {
    if run == [] then y else Run(Next(y, run[0]), run[1..])
  }

  ghost function RunChains(y: System, chains: map<Id, Chain>, run: seq<Step>): map<Id, Chain>
    decreases |run|
  {
    if run == [] then chains else RunChains(Next(y, run[0]), ChainsNext(y, chains, run[0]), run[1..])
  }

  lemma {:induction false} EveryRunIsChains(y: System, chains: map<Id, Chain>, run: seq<Step>)
    requires Represents(y.db, chains) && FreshRun(y, run)
    ensures Represents(Run(y, run).db, RunChains(y, chains, run))
    ensures forall env | env in Run(y, run).db.generations :: OneActive(Run(y, run).db.keys, env)
    decreases |run|
  {
    hide Represents, Next, ChainsNext;
    if run != [] {
      StepRefines(y, chains, run[0]);
      EveryRunIsChains(Next(y, run[0]), ChainsNext(y, chains, run[0]), run[1..]);
    } else {
      forall env | env in y.db.generations ensures OneActive(y.db.keys, env) {
        ChainsHaveOneActive(y.db, chains, env);
      }
    }
  }

  lemma ChainsHaveOneActive(db: Db, chains: map<Id, Chain>, env: Id)
    requires Represents(db, chains) && env in db.generations
    ensures OneActive(db.keys, env)
  {
    assert EnvironmentOk(db, chains, env);
    ChainActive(db.keys, env, chains[env].ids);
  }

  lemma NoKeysRepresents(generations: map<Id, nat>)
    ensures Represents(Db(generations, map[]), map env | env in generations :: Chain(generations[env], [], NO_ORIGINS))
  {
    var db, chains := Db(generations, map[]), map env | env in generations :: Chain(generations[env], [], NO_ORIGINS);
    forall env ensures EnvironmentOk(db, chains, env) {
      if env in chains { assert IsChain(db.keys, env, []); }
    }
  }

  // ----- The fence -------------------------------------------------------------------------------

  /** The rotation read its generation before a revoke of its environment committed. */
  ghost predicate Stale(y: System, rotation: Id)
  {
    rotation in y.pending
    && var p := y.pending[rotation];
       p.request.environmentId in y.db.generations && p.generation < y.db.generations[p.request.environmentId]
  }

  ghost predicate StaleOrDone(y: System, rotation: Id) { rotation in y.pending ==> Stale(y, rotation) }

  /** A pending snapshot is never ahead of the generation it was read from. */
  ghost predicate SnapshotsBehind(y: System)
  {
    forall r | r in y.pending ::
      && y.pending[r].request.environmentId in y.db.generations
      && y.pending[r].generation <= y.db.generations[y.pending[r].request.environmentId]
  }

  lemma StepKeepsSnapshots(y: System, step: Step)
    requires SnapshotsBehind(y)
    ensures SnapshotsBehind(Next(y, step))
    ensures forall env | env in y.db.generations ::
      env in Next(y, step).db.generations && y.db.generations[env] <= Next(y, step).db.generations[env]
  {
    hide RotateLocked, ValidMaterial, WithOrigins, WithRevoked;
  }

  lemma StaleCommitDoesNothing(y: System, rotation: Id, keyId: Id, now: Time)
    requires StaleOrDone(y, rotation)
    ensures Next(y, Commit(rotation, keyId, now)).db == y.db
    ensures rotation !in Next(y, Commit(rotation, keyId, now)).pending
  {
  }

  lemma StaleStays(y: System, step: Step, rotation: Id)
    requires StaleOrDone(y, rotation) && !(step.Begin? && step.rotation == rotation)
    ensures StaleOrDone(Next(y, step), rotation)
  {
    hide RotateLocked, ValidMaterial, WithOrigins, WithRevoked;
  }

  predicate Restarts(run: seq<Step>, rotation: Id)
  {
    exists i | 0 <= i < |run| :: run[i].Begin? && run[i].rotation == rotation
  }

  lemma {:induction false} StaleForever(y: System, run: seq<Step>, rotation: Id)
    requires StaleOrDone(y, rotation) && !Restarts(run, rotation)
    ensures StaleOrDone(Run(y, run), rotation)
    decreases |run|
  {
    hide StaleOrDone, Next;
    if run != [] {
      assert !(run[0].Begin? && run[0].rotation == rotation);
      StaleStays(y, run[0], rotation);
      assert !Restarts(run[1..], rotation) by {
        forall i | 0 <= i < |run[1..]| ensures !(run[1..][i].Begin? && run[1..][i].rotation == rotation) {
          assert run[1..][i] == run[i + 1];
        }
      }
      StaleForever(Next(y, run[0]), run[1..], rotation);
    }
  }

  const NOBODY: map<Id, Pending> := map[]

  /** No keys and no rotation under way. */
  function Start(generations: map<Id, nat>): System { System(Db(generations, map[]), NOBODY) }

  lemma {:induction false} SnapshotsStayBehind(y: System, run: seq<Step>)
    requires SnapshotsBehind(y)
    ensures SnapshotsBehind(Run(y, run))
    decreases |run|
  {
    hide SnapshotsBehind, Next;
    if run != [] {
      StepKeepsSnapshots(y, run[0]);
      SnapshotsStayBehind(Next(y, run[0]), run[1..]);
    }
  }

  /** In every run: once a revoke of its environment has committed, a rotation that had already read its
      generation never changes any key, however long it waits and whatever else happens. */
  lemma RevokeFencesRotation(generations: map<Id, nat>, before: seq<Step>, env: Id, at: Time, run: seq<Step>,
                             rotation: Id, keyId: Id, now: Time)
    requires var y := Run(Start(generations), before);
      rotation in y.pending && y.pending[rotation].request.environmentId == env
    requires !Restarts(run, rotation)
    ensures var later := Run(Next(Run(Start(generations), before), Revoke(env, at)), run);
      Next(later, Commit(rotation, keyId, now)).db == later.db
  {
    hide Run, RotateLocked, WithRevoked;
    var y := Run(Start(generations), before);
    SnapshotsStayBehind(Start(generations), before);
    var revoked := Next(y, Revoke(env, at));
    assert StaleOrDone(revoked, rotation);
    hide Next;
    StaleForever(revoked, run, rotation);
    StaleCommitDoesNothing(Run(revoked, run), rotation, keyId, now);
  }

  ghost predicate NoLiveKey(keys: Keys, env: Id) { forall k | k in keys :: !keys[k].Unrevoked(env) }

  /** In this run no rotation of `env` commits other than those in `earlier`. */
  ghost predicate OnlyEarlierCommit(y: System, run: seq<Step>, env: Id, earlier: set<Id>)
    decreases |run|
  {
    run == [] ||
    (&& OnlyEarlierCommit(Next(y, run[0]), run[1..], env, earlier)
     && match run[0]
        case Begin(rotation, _) => rotation !in earlier
        case Commit(rotation, _, _) =>
          rotation in earlier || rotation !in y.pending || y.pending[rotation].request.environmentId != env
        case _ => true)
  }

  ghost predicate Fenced(y: System, env: Id, earlier: set<Id>)
  {
    && NoLiveKey(y.db.keys, env)
    && forall r | r in earlier && r in y.pending && y.pending[r].request.environmentId == env :: Stale(y, r)
  }

  lemma OtherRotationKeeps(db: Db, request: Request, generation: nat, keyId: Id, now: Time, env: Id)
    requires request.environmentId != env && NoLiveKey(db.keys, env)
    requires RotateLocked(db, request, generation, keyId, now).Ok?
    ensures NoLiveKey(RotateLocked(db, request, generation, keyId, now).value.keys, env)
  {
  }

  lemma FencedStep(y: System, step: Step, env: Id, earlier: set<Id>)
    requires Fenced(y, env, earlier) && OnlyEarlierCommit(y, [step], env, earlier)
    ensures Fenced(Next(y, step), env, earlier)
  {
    assert [step][0] == step;
    if step.Commit? && step.rotation in y.pending {
      if y.pending[step.rotation].request.environmentId != env {
        var p := y.pending[step.rotation];
        if RotateLocked(y.db, p.request, p.generation, step.keyId, step.now).Ok? {
          OtherRotationKeeps(y.db, p.request, p.generation, step.keyId, step.now, env);
        }
      } else {
        StaleCommitDoesNothing(y, step.rotation, step.keyId, step.now);
      }
    }
  }

  lemma {:induction false} FencedRun(y: System, run: seq<Step>, env: Id, earlier: set<Id>)
    requires Fenced(y, env, earlier) && OnlyEarlierCommit(y, run, env, earlier)
    ensures Fenced(Run(y, run), env, earlier)
    decreases |run|
  {
    hide Fenced, Next;
    if run != [] {
      assert [run[0]][0] == run[0] && [run[0]][1..] == [];
      FencedStep(y, run[0], env, earlier);
      FencedRun(Next(y, run[0]), run[1..], env, earlier);
    }
  }

  /** In every run a revoked environment has no live key until a rotation that began after the revoke commits. */
  lemma RevokedUntilNewRotation(generations: map<Id, nat>, before: seq<Step>, env: Id, at: Time, run: seq<Step>)
    requires var y := Run(Start(generations), before);
      env in y.db.generations && OnlyEarlierCommit(Next(y, Revoke(env, at)), run, env, y.pending.Keys)
    ensures NoLiveKey(Run(Next(Run(Start(generations), before), Revoke(env, at)), run).db.keys, env)
  {
    hide Run, OnlyEarlierCommit;
    var y := Run(Start(generations), before);
    SnapshotsStayBehind(Start(generations), before);
    var revoked := Next(y, Revoke(env, at));
    assert Fenced(revoked, env, y.pending.Keys);
    hide Next;
    FencedRun(revoked, run, env, y.pending.Keys);
  }

  // ----- Origins ---------------------------------------------------------------------------------

  /** Origins survive the next rotation if and only if there was an active key to set them on, or they
      are the default. With no active key the update matches no row and is lost. */
  lemma OriginsCarried(db: Db, chains: map<Id, Chain>, env: Id, origins: seq<string>, request: Request,
                       generation: nat, keyId: Id, now: Time)
    requires Represents(db, chains) && env in chains && request.environmentId == env
    ensures var after := db.(keys := WithOrigins(db.keys, env, origins));
      var r := RotateLocked(after, request, generation, keyId, now);
      r.Ok? ==>
        && r.value.rotation.key in r.value.keys
        && (r.value.keys[r.value.rotation.key].origins == origins <==> chains[env].ids != [] || origins == NO_ORIGINS)
  {
    hide Represents, RotateLocked, WithOrigins;
    OriginsRefines(db, chains, env, origins);
    var after := db.(keys := WithOrigins(db.keys, env, origins));
    SameKeys(db.keys, env, origins);
    var chains1 := chains[env := ChainOrigins(chains[env], origins)];
    RotateRefines(after, chains1, request, generation, keyId, now);
    var r := RotateLocked(after, request, generation, keyId, now);
    if r.Ok? {
      var expected := ChainRotate(chains1[env], ActiveHash(after, chains1[env]), request, generation, keyId,
                                  Taken(after.keys, keyId, request.hash)).value;
      TipOrigins(after.(keys := r.value.keys), chains1[env := expected], env);
      assert chains[env].ids == [] ==> chains1[env].origins == chains[env].origins;
      EmptyOrigins(db, chains, env);
    }
  }

  /** The origins set last on an active key of the environment, since its last revoke. */
  ghost function OriginsSet(y: System, run: seq<Step>, env: Id, current: seq<string>): seq<string>
    decreases |run|
  {
    if run == [] then current else
    var now :=
      match run[0]
      case SetOrigins(e, origins) => if e == env && FindActive(y.db.keys, env).Some? then origins else current
      case Revoke(e, _) => if e == env then NO_ORIGINS else current
      case _ => current;
    OriginsSet(Next(y, run[0]), run[1..], env, now)
  }

  lemma ActiveIffChain(db: Db, chains: map<Id, Chain>, env: Id)
    requires Represents(db, chains) && env in chains
    ensures FindActive(db.keys, env) == if chains[env].ids == [] then None
      else Some(chains[env].ids[|chains[env].ids| - 1])
  {
    assert EnvironmentOk(db, chains, env);
    ChainActive(db.keys, env, chains[env].ids);
  }

  lemma {:induction false} ChainCarriesOrigins(y: System, chains: map<Id, Chain>, run: seq<Step>, env: Id)
    requires Represents(y.db, chains) && FreshRun(y, run) && env in chains
    ensures env in RunChains(y, chains, run)
    ensures RunChains(y, chains, run)[env].origins == OriginsSet(y, run, env, chains[env].origins)
    decreases |run|
  {
    hide Represents, Next, ActiveHash, HashTaken, Taken;
    if run != [] {
      StepRefines(y, chains, run[0]);
      ActiveIffChain(y.db, chains, env);
      ChainCarriesOrigins(Next(y, run[0]), ChainsNext(y, chains, run[0]), run[1..], env);
    }
  }

  /** In every run the active key of an environment carries the origins set last since its last revoke. */
  lemma ActiveCarriesOrigins(generations: map<Id, nat>, run: seq<Step>, env: Id)
    requires FreshRun(Start(generations), run) && env in generations
    ensures var start := Start(generations); var keys := Run(start, run).db.keys;
      FindActive(keys, env).Some? ==>
        FindActive(keys, env).value in keys
          && keys[FindActive(keys, env).value].origins == OriginsSet(start, run, env, NO_ORIGINS)
  {
    hide Represents, Next, ChainsNext, FindActive;
    var start := Start(generations);
    var chains := map e | e in generations :: Chain(generations[e], [], NO_ORIGINS);
    NoKeysRepresents(generations);
    EveryRunIsChains(start, chains, run);
    ChainCarriesOrigins(start, chains, run, env);
    var end, last := Run(start, run), RunChains(start, chains, run);
    ActiveIffChain(end.db, last, env);
    if FindActive(end.db.keys, env).Some? { TipOrigins(end.db, last, env); }
  }

  lemma SameKeys(keys: Keys, env: Id, origins: seq<string>)
    ensures WithOrigins(keys, env, origins).Keys == keys.Keys
  {
  }

  lemma TipOrigins(db: Db, chains: map<Id, Chain>, env: Id)
    requires Represents(db, chains) && env in chains && chains[env].ids != []
    ensures var tip := chains[env].ids[|chains[env].ids| - 1];
      tip in db.keys && db.keys[tip].origins == chains[env].origins
  {
    assert EnvironmentOk(db, chains, env);
  }

  lemma EmptyOrigins(db: Db, chains: map<Id, Chain>, env: Id)
    requires Represents(db, chains) && env in chains
    ensures chains[env].ids == [] ==> chains[env].origins == NO_ORIGINS
  {
    assert EnvironmentOk(db, chains, env);
  }

  // ----- The store, statement by statement -------------------------------------------------------

  /** A committed rotation hands out a key with the requested hash, and the tip of its chain is active. */
  lemma RotatedKey(db: Db, chains: map<Id, Chain>, request: Request, generation: nat, keyId: Id, now: Time)
    requires Represents(db, chains) && request.environmentId in chains
    ensures var r := RotateLocked(db, request, generation, keyId, now);
      r.Ok? ==> r.value.rotation.key in r.value.keys && r.value.keys[r.value.rotation.key].hash == request.hash
  {
  }

  /** What a rotation leaves the tables to represent. */
  lemma RotatedChains(db: Db, chains: map<Id, Chain>, request: Request, generation: nat, keyId: Id, now: Time)
    returns (next: map<Id, Chain>)
    requires Represents(db, chains)
    ensures var r, env := RotateLocked(db, request, generation, keyId, now), request.environmentId;
      && (env !in chains ==> r == Err(StoreUnavailable))
      && (env in chains ==>
            var expected := ChainRotate(chains[env], ActiveHash(db, chains[env]), request, generation, keyId,
                                        Taken(db.keys, keyId, request.hash));
            if expected.Ok? then
              r.Ok? && expected.value.ids != [] && r.value.rotation == Tip(expected.value.ids)
                && next == chains[env := expected.value]
            else r == Err(expected.error))
      && (r.Ok? ==>
            && Represents(db.(keys := r.value.keys), next)
            && r.value.rotation.key in r.value.keys && r.value.keys[r.value.rotation.key].hash == request.hash)
  {
    var env := request.environmentId;
    SameEnvironments(db, chains, env);
    if env in chains {
      RotateRefines(db, chains, request, generation, keyId, now);
      RotatedKey(db, chains, request, generation, keyId, now);
      hide Represents, HashTaken, RotateLocked, ActiveHash;
      var expected := ChainRotate(chains[env], ActiveHash(db, chains[env]), request, generation, keyId,
                                  Taken(db.keys, keyId, request.hash));
      next := if expected.Ok? then chains[env := expected.value] else chains;
    } else {
      UnknownEnvironment(db, request, generation, keyId, now);
      next := chains;
    }
  }

  /** The tables as the service updates them. `chains` is what they represent. */
  class AccessKeyStore {
    var generations: map<Id, nat>
    var keys: Keys
    ghost var chains: map<Id, Chain>

    ghost function Tables(): Db
      reads this
    {
      Db(generations, keys)
    }

    ghost predicate Valid()
      reads this
    {
      Represents(Tables(), chains)
    }

    /** The partial unique index, checked after every statement below. */
    ghost predicate Indexed()
      reads this
    {
      forall env | env in generations :: OneActive(keys, env)
    }

    constructor (generations: map<Id, nat>)
      ensures Valid() && chains == map env | env in generations :: Chain(generations[env], [], NO_ORIGINS)
    {
      this.generations, keys := generations, map[];
      chains := map env | env in generations :: Chain(generations[env], [], NO_ORIGINS);
      NoKeysRepresents(generations);
    }

    /** What a rotation reads before it waits for the lock: the generation of the environment's chain. */
    method ReadRevocationVersion(environmentId: Id) returns (r: Result<nat, Error>)
      requires Valid()
      ensures r == if environmentId in chains then Ok(chains[environmentId].generation) else Err(StoreUnavailable)
    {
      assert EnvironmentOk(Tables(), chains, environmentId);
      hide IsChain;
      if environmentId !in generations { return Err(StoreUnavailable); }
      return Ok(generations[environmentId]);
    }

    /** The unrevoked key that the active key replaced, if any. */
    method RetiringKey(active: Id, env: Id, ghost ids: seq<Id>) returns (r: Option<Id>)
      requires IsChain(keys, env, ids) && ids != [] && active == ids[|ids| - 1]
      ensures r == Tip(ids).retiring
    {
      if exists k | k in keys :: Retiring(keys, k, env, active) {
        var k :| k in keys && Retiring(keys, k, env, active);
        OneRetiring(keys, env, ids, k);
        return Some(k);
      }
      assert |ids| > 1 ==> Retiring(keys, ids[|ids| - 2], env, active);
      return None;
    }

    /** Three statements; the index holds after each. */
    method ReplaceActive(request: Request, active: Id, keyId: Id, now: Time)
      requires Indexed() && request.environmentId in generations
      requires active in keys && keys[active].Active(request.environmentId) && keyId !in keys
      modifies this`keys
      ensures keys == AfterActivate(old(keys), request, active, keyId, now) && Indexed()
    {
      ghost var before := keys;
      forall e | e in generations
        ensures OneActive(AfterCreate(before, request, active, keyId, now), e)
        ensures OneActive(AfterRetire(before, request, active, keyId, now), e)
        ensures OneActive(AfterActivate(before, request, active, keyId, now), e)
      {
        OneActiveThroughout(before, request, active, keyId, now, e);
      }
      hide OneActive;
      keys := keys[keyId := AccessKey(request.environmentId, request.prefix, request.hash, keys[active].origins,
                                      Some(now), None, None)];
      assert keys == AfterCreate(before, request, active, keyId, now) && Indexed();
      keys := keys[active := keys[active].(validUntil := Some(now + request.overlapMs), replacedBy := Some(keyId))];
      assert keys == AfterRetire(before, request, active, keyId, now) && Indexed();
      keys := keys[keyId := keys[keyId].(validUntil := None)];
      assert keys == AfterActivate(before, request, active, keyId, now) && Indexed();
    }

    /** The statements of the locked transaction. */
    method RotateRows(request: Request, generation: nat, keyId: Id, now: Time) returns (r: Result<Rotation, Error>)
      requires Valid()
      modifies this`keys
      ensures var tx := RotateLocked(old(Tables()), request, generation, keyId, now);
        && (tx.Ok? ==> r == Ok(tx.value.rotation) && keys == tx.value.keys)
        && (tx.Err? ==> r == Err(tx.error) && keys == old(keys))
    {
      var env := request.environmentId;
      forall e | e in generations ensures OneActive(keys, e) { ChainsHaveOneActive(Tables(), chains, e); }
      SameEnvironments(Tables(), chains, env);
      if env !in generations { return Err(StoreUnavailable); }
      assert EnvironmentOk(Tables(), chains, env);
      ghost var ids := chains[env].ids;
      ChainActive(keys, env, ids);
      if ids != [] { ChainRetiring(keys, env, ids); }
      hide Represents, EnvironmentOk, IsChain, AfterActivate, HashTaken;
      if generations[env] != generation { return Err(Superseded); }
      if forall k | k in keys :: !keys[k].Active(env) {
        if keyId in keys || HashTaken(keys, request.hash) { return Err(UniqueViolation); }
        keys := keys[keyId := FirstKey(request)];
        return Ok(Rotation(keyId, None));
      }
      var active :| active in keys && keys[active].Active(env);
      hide OneActive;
      if keys[active].hash == request.hash {
        var retiring := RetiringKey(active, env, ids);
        return Ok(Rotation(active, retiring));
      }
      if keyId in keys || HashTaken(keys, request.hash) { return Err(UniqueViolation); }
      ReplaceActive(request, active, keyId, now);
      return Ok(Rotation(keyId, Some(active)));
    }

    /**
     The locked transaction: it extends the environment's chain by the new key, keeps the chain and every
     row when the active hash is replayed, or fails and changes nothing. The caller gets the last two
     keys of the chain, and the key has the requested hash.
     */
    method RotateUnderLock(request: Request, generation: nat, keyId: Id, now: Time) returns (r: Result<Rotation, Error>)
      requires Valid()
      modifies this
      ensures Valid() && Indexed() && generations == old(generations)
      ensures request.environmentId !in old(chains) ==> r == Err(StoreUnavailable)
      ensures request.environmentId in old(chains) ==>
        var chain := old(chains)[request.environmentId];
        var expected := ChainRotate(chain, ActiveHash(old(Tables()), chain), request, generation, keyId,
                                    Taken(old(keys), keyId, request.hash));
        if expected.Ok? then
          expected.value.ids != [] && r == Ok(Tip(expected.value.ids))
          && chains == old(chains)[request.environmentId := expected.value]
        else r == Err(expected.error)
      ensures r.Ok? ==> r.value.key in keys && keys[r.value.key].hash == request.hash
      ensures r.Err? ==> Tables() == old(Tables()) && chains == old(chains)
    {
      ghost var env := request.environmentId;
      ghost var next := RotatedChains(Tables(), chains, request, generation, keyId, now);
      r := RotateRows(request, generation, keyId, now);
      if r.Ok? { chains := next; }
      forall e | e in generations ensures OneActive(keys, e) { ChainsHaveOneActive(Tables(), chains, e); }
    }

    /** The active key, if there is one, gets the origins; with none, they are lost. */
    method SetAllowedOrigins(environmentId: Id, origins: seq<string>) returns (r: Result<nat, Error>)
      requires Valid()
      modifies this
      ensures Valid() && generations == old(generations)
      ensures environmentId !in old(chains) ==>
        r == Err(StoreUnavailable) && Tables() == old(Tables()) && chains == old(chains)
      ensures environmentId in old(chains) ==>
        && chains == old(chains)[environmentId := ChainOrigins(old(chains)[environmentId], origins)]
        && r == Ok(if old(chains)[environmentId].ids == [] then 0 else 1)
    {
      SameEnvironments(Tables(), chains, environmentId);
      if environmentId !in generations { return Err(StoreUnavailable); }
      OriginsRefines(Tables(), chains, environmentId, origins);
      var matched := ActiveKeys(keys, environmentId);
      OneOrNone(Tables(), chains, environmentId);
      hide Represents, WithOrigins;
      keys := WithOrigins(keys, environmentId, origins);
      chains := chains[environmentId := ChainOrigins(chains[environmentId], origins)];
      return Ok(|matched|);
    }

    /** The chain is emptied and the generation advances, which fences rotations that read it before. */
    method RevokeAll(environmentId: Id, now: Time) returns (r: Result<nat, Error>)
      requires Valid()
      modifies this
      ensures Valid()
      ensures environmentId !in old(chains) ==>
        r == Err(StoreUnavailable) && Tables() == old(Tables()) && chains == old(chains)
      ensures environmentId in old(chains) ==>
        && chains == old(chains)[environmentId := ChainRevoke(old(chains)[environmentId])]
        && r == Ok(|old(chains)[environmentId].ids|)
        && NoLiveKey(keys, environmentId)
    {
      SameEnvironments(Tables(), chains, environmentId);
      if environmentId !in generations { return Err(StoreUnavailable); }
      RevokeRefines(Tables(), chains, environmentId, now);
      var matched := LiveKeys(keys, environmentId);
      ChainCounts(Tables(), chains, environmentId);
      generations := generations[environmentId := generations[environmentId] + 1];
      keys := WithRevoked(keys, environmentId, now);
      chains := chains[environmentId := ChainRevoke(chains[environmentId])];
      return Ok(|matched|);
    }
  }

  lemma OneOrNone(db: Db, chains: map<Id, Chain>, env: Id)
    requires Represents(db, chains) && env in chains
    ensures |ActiveKeys(db.keys, env)| == if chains[env].ids == [] then 0 else 1
  {
    ActiveIffChain(db, chains, env);
    SameEnvironments(db, chains, env);
    ChainsHaveOneActive(db, chains, env);
    var matched := ActiveKeys(db.keys, env);
    hide Represents;
    if chains[env].ids == [] {
      assert matched == {};
    } else {
      assert matched == {FindActive(db.keys, env).value};
    }
  }

  lemma {:induction false} DistinctCount(ids: seq<Id>, members: set<Id>)
    requires forall i, j | 0 <= i < j < |ids| :: ids[i] != ids[j]
    requires forall k :: k in members <==> k in ids
    ensures |members| == |ids|
  {
    if ids == [] {
      assert members == {};
    } else {
      var first, rest := ids[0], ids[1..];
      assert ids == [first] + rest && first !in rest;
      DistinctCount(rest, members - {first});
      assert members == (members - {first}) + {first};
    }
  }

  lemma ChainCounts(db: Db, chains: map<Id, Chain>, env: Id)
    requires Represents(db, chains) && env in chains
    ensures |LiveKeys(db.keys, env)| == |chains[env].ids|
  {
    assert EnvironmentOk(db, chains, env);
    DistinctCount(chains[env].ids, LiveKeys(db.keys, env));
  }

  lemma OneRetiring(keys: Keys, env: Id, ids: seq<Id>, k: Id)
    requires IsChain(keys, env, ids) && ids != [] && k in keys && Retiring(keys, k, env, ids[|ids| - 1])
    ensures Tip(ids).retiring == Some(k)
  {
    var i :| 0 <= i < |ids| && ids[i] == k;
    assert ids[i + 1] == ids[|ids| - 1];
  }
}
