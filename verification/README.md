# Platos: a verified model of its stores, protocols and maintenance jobs

This project models, in Dafny, the parts of the Platos repository whose correctness rests on state
kept over time, and proves what they promise over every run:

- **Credentials and environment variables.** Versioned secrets sealed under rotating root keys, their
  rewrapping, revocation and purging, root retirement, and the variable store built on them.
- **Access keys.** Rotation with overlap, fenced by a revocation generation, as interleaved reads and commits.
- **Canonical model pricing.** An append-only price history that leaves out repeated cards, prioritised
  lookup and charging.
- **The logical replication decoder.** Section 55.9 of the PostgreSQL 16 documentation, Logical
  Replication Message Formats, decoded into objects and into arrays.
- **Operator authentication.** Sessions and impersonation, time-based codes and recovery codes,
  fixed-window rate limits, and base32 (section 6 of RFC 4648) on wrapping 32-bit accumulators.
- **Maintenance and analytics.** The OAuth token re-encryption sweep, recovery of stuck runs in Redis,
  default filters for TSQL queries, and the memoised model pricing registry.

## How the model is built

- Pure source code is a set of functions with lemmas. Code that changes state in place is a class or a
  method whose postcondition ties the new state to a specification. The stores and the authentication service
  have a `Valid()` that every public method requires and ensures, and their contracts speak of the abstract
  state: the secrets held, the map of variables, the chains of keys, the sessions and the proofs accepted.
  Methods named `...Rows` hold the statements of a transaction and equal its specification function.
- A database transaction is one atomic step and an error rolls it back. Requests that read first and
  commit later (`rotateAccessKey`, `startImpersonation`, `stopImpersonation`, `confirmTotpEnrollment`)
  are two steps with anything in between.
- The unique indexes and triggers of the schema are part of the model. They decide several results
  below: a secret variable's name is used up once it stops being secret, a rewrap back to an earlier
  root is refused while that root still seals the same revision, and revoking a session revokes its children.
- Encryption is ideal: an envelope records its key, its context and its text, and opens under exactly
  these. Text passes through UTF-8, so a lone surrogate is replaced.
- Clocks, random identifiers, regular expressions, UTF-8 decoding, type parsers and HMAC codes are
  parameters. Identifiers are fresh; nothing is assumed about collisions between one-time codes.
- Prices are real numbers, rounded to twelve decimals where the table does so.

Where the source's documentation and its code disagree, the model follows the code. Eight things a
reader of the documentation would expect turn out to be false as they stand; each has a counterexample and the
exact condition under which it holds:

| expectation | counterexample | exact condition |
|---|---|---|
| environment variables behave like a plain map | `FlipBackRefused` | `SetRefusedExactly`, `RunIsPlainExactly` |
| rewrapping always succeeds | `RewrapCanBeRefused` | `RewrapExactly` |
| a deduplicated price history equals the full one, for ingests in any order | `BackdatedFetchDiffers` | `EntryAgreesExactly` |
| rerunning recovery always converges | `OrdinaryClash` | `ConvergesExactly` |
| a fallback is added only when its column is not mentioned | `CallHidesColumn` | `DetectionExactly` |
| the code of a step not used yet is accepted | `CollidingCodeRefused` | `CodeAcceptedExactly` |
| the cost details add up to the total | `RepeatedTypeDiffers` | `DetailsAddUp` |
| timestamps and identifiers decode to the numbers sent | any time before 2000, any identifier from 2^31 | `TimeExact`, `IdentifierExact` |

## Files

| files | contents |
|---|---|
| `Support.dfy` | results, bytes, JavaScript strings |
| `Base32.dfy` | 32-bit words, base32 |
| `Secrets.dfy`, `SecretRuns.dfy`, `RootRetirement.dfy` | the credential store, its invariant, root retirement |
| `EnvironmentVariables.dfy`, `PlainVariables.dfy` | the variable store against its specification and against a plain map |
| `HeldSecrets.dfy`, `Stores.dfy` | what the credential store holds for its callers; both stores as classes |
| `AccessKeys.dfy` | access key rotation |
| `ModelPricing.dfy`, `PriceHistory.dfy`, `PricingService.dfy` | the price history, its reference, resolving and charging |
| `Pgoutput.dfy`, `PgoutputEncoding.dfy`, `PgoutputAgreement.dfy`, `PgoutputParser.dfy` | the decoder's specification, its inverse, the agreement of both forms, the decoder as classes |
| `Sessions.dfy`, `RateLimit.dfy`, `Mfa.dfy`, `MfaRuns.dfy`, `MfaBounds.dfy`, `AuthService.dfy` | operator authentication |
| `TokenSweep.dfy`, `TokenSweeper.dfy` | the re-encryption sweep |
| `RunRecovery.dfy`, `RecoveryConvergence.dfy`, `RecoveryClashes.dfy` | stuck-run recovery, when it converges and when it cannot |
| `FallbackInjection.dfy` | default filters |
| `PricingRegistry.dfy` | the pricing registry |

## Model

| member | source | states |
|---|---|---|
| `Base32.EncodeBase32` | internal-packages/tenancy-database/src/auth.ts:1139-1154 | the loop over a wrapping signed 32-bit accumulator writes the bits of the bytes, five per symbol, padded with zeros; the length is ceil(8n/5) |
| `Base32.DecodeText` | internal-packages/tenancy-database/src/auth.ts:1156-1172 | the decoding loop returns the bytes whose bits the symbols spell and rejects any character outside the alphabet |
| `Base32.DecodeBase32` | internal-packages/tenancy-database/src/auth.ts:1156-1172 | upper-casing and stripping trailing padding come first; otherwise as `DecodeText` |
| `Base32.PushBits` | internal-packages/tenancy-database/src/auth.ts:1139-1172 | shifting bits into the accumulator appends them to the pending ones, whatever the 32-bit wrap loses |
| `Base32.PopBits` | internal-packages/tenancy-database/src/auth.ts:1139-1172 | the masked right shift reads exactly the oldest pending bits, also when the accumulator is negative |
| `Base32.PadBits` | internal-packages/tenancy-database/src/auth.ts:1139-1154 | the last, partial symbol is the pending bits followed by zeros |
| `Base32.RoundTrip` | internal-packages/tenancy-database/src/auth.ts:1139-1172 | decoding an encoding gives the bytes back, for every length; leftover bits never make a further byte |
| `Base32.EncodingUnique` | internal-packages/tenancy-database/src/auth.ts:1139-1154 | two encodings are equal iff they encode the same bytes: a byte string has exactly one encoding, and different ones never share theirs |
| `Base32.EncodeThenDecode` | internal-packages/tenancy-database/src/auth.ts:1139-1172 | the two programs composed return their input |
| `Secrets.SerializeInjective` | internal-packages/tenancy-database/src/secrets.ts:838-846 | the NUL-separated context text determines all five context fields |
| `Secrets.OpensOnlyWhereSealed` | internal-packages/tenancy-database/src/secrets.ts:206-243 | an envelope opens under its own key and context and no other, and returns the UTF-8 round trip of what was sealed |
| `Secrets.OldestFirst` | internal-packages/tenancy-database/src/secrets.ts:589-608 | the purge candidates are distinct eligible versions, as many as the limit allows, and every one of them comes before every version left out |
| `SecretRuns.CreateKeeps` | internal-packages/tenancy-database/src/secrets.ts:708-766 | creating a credential keeps the invariant and the audit count |
| `SecretRuns.RotateKeeps` | internal-packages/tenancy-database/src/secrets.ts:769-825 | rotating keeps the invariant: the new version is the only unretired one and has the highest revision |
| `SecretRuns.RewrapKeeps` | internal-packages/tenancy-database/src/secrets.ts:474-545 | rewrapping keeps the invariant at the same revision |
| `SecretRuns.RevokeKeeps` | internal-packages/tenancy-database/src/secrets.ts:662-705 | revoking keeps the invariant: no active version exactly when revoked |
| `SecretRuns.PurgeAllKeeps` | internal-packages/tenancy-database/src/secrets.ts:573-643 | the purge loop deletes exactly its candidates, never aborts, and keeps the invariant |
| `SecretRuns.StepKeeps` | internal-packages/tenancy-database/src/secrets.ts:474-825 | every operation, failed or not, keeps the invariant |
| `SecretRuns.EveryRunIsConsistent` | internal-packages/tenancy-database/src/secrets.ts:474-825 | in every reachable state a version is unretired iff it is its credential's active one, active ones carry the highest revision, a credential has no active version iff it is revoked, and versions number CREATE + ROTATE + REWRAP audits minus PURGE audits |
| `RootRetirement.CanRemoveRootMeans` | internal-packages/tenancy-database/src/secrets.ts:547-571 | `canRemoveRoot` holds iff the root is a positive number, not the active one, and no stored version is sealed under it |
| `RootRetirement.RemovalSafe` | internal-packages/tenancy-database/src/secrets.ts:547-571 | dropping an inactive root leaves every version readable, with the same text, if and only if `canRemoveRoot` holds |
| `RootRetirement.RemovalStable` | internal-packages/tenancy-database/src/secrets.ts:474-643 | once removable, a root stays removable along every later run with the same active root |
| `RootRetirement.PurgeOnce` | internal-packages/tenancy-database/src/secrets.ts:573-643 | one default call never aborts and removes min(100, n) of the n eligible versions and nothing else |
| `RootRetirement.PurgeCallsDrain` | internal-packages/tenancy-database/src/secrets.ts:573-643 | k default calls remove min(100 k, n) of the n eligible versions |
| `RootRetirement.DrainRetired` | internal-packages/tenancy-database/src/secrets.ts:573-643 | with a late enough cutoff ceil(n/100) calls remove all n retired versions and nothing else |
| `RootRetirement.RewrapExactly` | internal-packages/tenancy-database/src/secrets.ts:474-545 | rewrapping a live credential succeeds iff it is already under the active root or the unique index has room for its revision there |
| `RootRetirement.RewrapEffect` | internal-packages/tenancy-database/src/secrets.ts:474-545 | a rewrap leaves the text of every credential as it was and seals this one under the active root |
| `RootRetirement.RewrapCanBeRefused` | internal-packages/tenancy-database/prisma/schema.prisma:738 | a concrete run in which rolling the active root back makes a rewrap fail on the unique index |
| `RootRetirement.RewrapJobs` | internal-packages/tenancy-database/src/secrets.ts:474-545 | after draining, rewrapping all live credentials one by one never fails |
| `RootRetirement.DrainMakesRemovable` | internal-packages/tenancy-database/src/secrets.ts:547-643 | whenever all live credentials are under the active root, ceil(n/100) default purges with a late enough cutoff make every other root removable and change no text |
| `RootRetirement.RetirementProcedure` | internal-packages/tenancy-database/src/secrets.ts:474-643 | progress: drain, rewrap every live credential, drain again; no rewrap is refused, no text changes, and every root but the active one becomes removable |
| `EnvironmentVariables.SetRefines` | internal-packages/tenancy-database/src/environment-variables.ts:100-200 | `set` does to the stores what the specification does to its map, and fails exactly when it fails, with the same error |
| `EnvironmentVariables.DeleteRefines` | internal-packages/tenancy-database/src/environment-variables.ts:202-225 | `delete` removes the key from the map and uses its name up if it was secret |
| `EnvironmentVariables.ReadRefines` | internal-packages/tenancy-database/src/environment-variables.ts:78-98 | reading any key returns exactly what the map holds, or the error the specification gives |
| `EnvironmentVariables.MaintenanceUnaffected` | internal-packages/tenancy-database/src/secrets.ts:474-825 | rewraps, purges, reads and operations on other kinds of credentials leave every secret reference and its text as they were |
| `EnvironmentVariables.StepRefines` | internal-packages/tenancy-database/src/environment-variables.ts:78-236 | every step of the combined stores is a step of the specification |
| `EnvironmentVariables.EveryRunRefines` | internal-packages/tenancy-database/src/environment-variables.ts:78-236 | along every run every read returns what the map holds, and each live secret reference is referred to by exactly one variable, the one of its name |
| `EnvironmentVariables.PersistedExactly` | internal-packages/tenancy-database/src/environment-variables.ts:100-200 | the text the specification keeps is the value itself iff it is plain or well-formed UTF-16 |
| `EnvironmentVariables.BurnedExactly` | internal-packages/tenancy-database/prisma/schema.prisma:696 | in the specification a name is used up iff it was secret earlier in the run and is not secret now |
| `EnvironmentVariables.FlipBackRefused` | internal-packages/tenancy-database/prisma/schema.prisma:696 | secret, then plain, then secret again is refused in every reachable state, for every key and value |
| `EnvironmentVariables.FirstSecretAccepted` | internal-packages/tenancy-database/src/environment-variables.ts:100-200 | the first secret of a name is accepted |
| `PlainVariables.SetRefusedExactly` | internal-packages/tenancy-database/src/environment-variables.ts:100-200 | in every reachable state a valid `set` of the stores fails iff it is secret and the key was, but is not now, a secret variable; the error is then the unique index |
| `PlainVariables.StepIsPlainExactly` | internal-packages/tenancy-database/src/environment-variables.ts:78-236 | from any reachable state that reads like a plain map, the next step does to reads what the map does iff it writes no secret, or a well-formed one under a name not used up, or is refused on a name that already reads as that value |
| `PlainVariables.RunIsPlainExactly` | internal-packages/tenancy-database/src/environment-variables.ts:78-236 | the stores read like a plain map throughout a run iff every step of it is harmless in that sense |
| `HeldSecrets.CreateHolds` | internal-packages/tenancy-database/src/secrets.ts:708-766 | creating succeeds iff the caller may, the text is not empty, the identifiers are fresh and the name is free; exactly that secret is then held besides the others |
| `HeldSecrets.RotateHolds` | internal-packages/tenancy-database/src/secrets.ts:769-825 | rotating succeeds iff the caller may and the secret is held in their environment; only its text changes |
| `HeldSecrets.RewrapHolds` | internal-packages/tenancy-database/src/secrets.ts:474-545 | rewrapping changes no secret that is held, and succeeds iff it is held and already under the active root or the unique index has room |
| `HeldSecrets.RevokeHolds` | internal-packages/tenancy-database/src/secrets.ts:662-705 | revoking succeeds iff the caller may and the secret is held in their environment; exactly it is then held no more |
| `HeldSecrets.ReadHolds` | internal-packages/tenancy-database/src/secrets.ts:262-296 | reading succeeds iff the secret is held in that environment under that kind, and returns its text |
| `HeldSecrets.PurgeHolds` | internal-packages/tenancy-database/src/secrets.ts:573-643 | purging changes no secret that is held and fails on invalid input alone |
| `Stores.PlatosSecretStore.CreateCredential` | internal-packages/tenancy-database/src/secrets.ts:708-766 | keeps the store valid; on success, which has the condition of `CreateHolds`, the new secret is held and all others as before, and a failure changes no table |
| `Stores.PlatosSecretStore.RotateCredential` | internal-packages/tenancy-database/src/secrets.ts:769-825 | keeps the store valid; the held text is replaced iff the caller may use the secret, and a failure changes no table |
| `Stores.PlatosSecretStore.RewrapActive` | internal-packages/tenancy-database/src/secrets.ts:474-545 | keeps the store valid and every held secret; succeeds iff the index has room or the secret is already under the active root, where it then is |
| `Stores.PlatosSecretStore.RevokeCredential` | internal-packages/tenancy-database/src/secrets.ts:662-705 | keeps the store valid; the secret is held no more iff the caller may use it, and a failure changes no table |
| `Stores.PlatosSecretStore.ReadForRuntime` | internal-packages/tenancy-database/src/secrets.ts:262-296 | returns the held text iff the secret is held in that environment under that kind; what is held does not change |
| `Stores.PlatosSecretStore.PurgeRetiredVersions` | internal-packages/tenancy-database/src/secrets.ts:573-643 | the deletion loop removes the specified versions, keeps the store valid and every held secret, and fails on invalid input alone |
| `Stores.EnvironmentVariableStore.SetValue` | internal-packages/tenancy-database/src/environment-variables.ts:100-200 | the statements of `set`, with rollback, keep the stores in refinement with the specification, whose map changes as it says; a failure changes no table |
| `Stores.EnvironmentVariableStore.DeleteValue` | internal-packages/tenancy-database/src/environment-variables.ts:202-225 | the same for `delete`, which reports whether the map had the key |
| `Stores.EnvironmentVariableStore.ReadValue` | internal-packages/tenancy-database/src/environment-variables.ts:78-98 | returns exactly what the map holds for the key, whatever calls came before |
| `Stores.EnvironmentVariableStore.WriteSecret` | internal-packages/tenancy-database/src/environment-variables.ts:125-154 | reuses the referenced or a live credential of the name, and creates one otherwise |
| `AccessKeys.OneActiveThroughout` | internal-packages/tenancy-database/src/access-key.ts:128-149 | the partial unique index holds after each of the three statements of a replacement |
| `AccessKeys.RotateRefines` | internal-packages/tenancy-database/src/access-key.ts:82-151 | a rotation extends the environment's chain by the new key, changes nothing when the active hash is replayed, or fails, and returns the last two keys |
| `AccessKeys.OriginsRefines` | internal-packages/tenancy-database/src/access-key.ts:154-170 | setting origins changes them on the active key alone |
| `AccessKeys.RevokeRefines` | internal-packages/tenancy-database/src/access-key.ts:176-192 | a revoke empties the chain and advances the generation |
| `AccessKeys.EveryRunIsChains` | internal-packages/tenancy-database/src/access-key.ts:58-192 | under every interleaving each environment has at most one active key and its unrevoked keys form one acyclic chain ending at it |
| `AccessKeys.NoKeysRepresents` | internal-packages/tenancy-database/src/access-key.ts:58-192 | the empty table is a set of empty chains, so the result above holds from the start |
| `AccessKeys.SnapshotsStayBehind` | internal-packages/tenancy-database/src/access-key.ts:58-192 | in every run from the start no pending rotation has read a generation later than the current one |
| `AccessKeys.RevokeFencesRotation` | internal-packages/tenancy-database/src/access-key.ts:77-86 | in every run from the start, a rotation that read its generation before a revoke committed never changes any key afterwards |
| `AccessKeys.RevokedUntilNewRotation` | internal-packages/tenancy-database/src/access-key.ts:176-192 | in every run from the start, a revoked environment has no live key until a rotation begun after the revoke commits |
| `AccessKeys.ActiveCarriesOrigins` | internal-packages/tenancy-database/src/access-key.ts:110-170 | in every run the active key carries the origins set last on an active key since the last revoke |
| `AccessKeys.OriginsCarried` | internal-packages/tenancy-database/src/access-key.ts:154-170 | origins set survive the next rotation iff there was an active key to set them on, or they are the default |
| `AccessKeys.AccessKeyStore.ReadRevocationVersion` | internal-packages/tenancy-database/src/access-key.ts:28-35 | returns the number of revocations the environment's chain has seen, or that the environment is unknown |
| `AccessKeys.AccessKeyStore.RetiringKey` | internal-packages/tenancy-database/src/access-key.ts:98-106 | finds the unrevoked key that the active key replaced, if there is one |
| `AccessKeys.AccessKeyStore.ReplaceActive` | internal-packages/tenancy-database/src/access-key.ts:128-149 | the three statements, with the index intact after each |
| `AccessKeys.AccessKeyStore.RotateUnderLock` | internal-packages/tenancy-database/src/access-key.ts:82-151 | keeps the store a set of chains: the chain is extended by the new key, left alone on a replay, or the call fails and changes nothing; the key returned is the last and has the requested hash |
| `AccessKeys.AccessKeyStore.SetAllowedOrigins` | internal-packages/tenancy-database/src/access-key.ts:154-170 | keeps the store a set of chains and changes the chain's origins alone; one row matches iff the chain is not empty |
| `AccessKeys.AccessKeyStore.RevokeAll` | internal-packages/tenancy-database/src/access-key.ts:176-192 | keeps the store a set of chains, empties this one and advances its generation; the count is the chain's length and no key is live |
| `ModelPricing.RoundIdempotent` | internal-packages/tenancy-database/prisma/schema.prisma:1045-1048 | rounding to the column's twelve decimals twice is rounding once |
| `ModelPricing.NewestIs` | internal-packages/tenancy-database/src/model-pricing.ts:626-629 | the newest price is one of the key in force, and no other in force is later |
| `PriceHistory.EntryAgreesExactly` | internal-packages/tenancy-database/src/model-pricing.ts:625-637 | one accepted entry keeps the table answering like a full log iff its card is already in force at its own time, or a row is written and no ingest of the key lies before the next row |
| `PriceHistory.OrderedRunsAgree` | internal-packages/tenancy-database/src/model-pricing.ts:561-644 | ingests in fetch order, refused ones included and with any repeated keys: same rates, sources and references as a row for every entry, for every model at every instant |
| `PriceHistory.EarlierInstantsKept` | internal-packages/tenancy-database/src/model-pricing.ts:561-644 | no ingest, in any order of fetch times, removes a row or changes what an instant before its fetch time resolves to |
| `PriceHistory.BackdatedFetchDiffers` | internal-packages/tenancy-database/src/model-pricing.ts:626-637 | a concrete backdated ingest after which table and log disagree |
| `PricingService.ResolveAgrees` | internal-packages/tenancy-database/src/model-pricing.ts:646-673 | tables that agree per key agree for every prioritised list of keys |
| `PricingService.ChargesAgree` | internal-packages/tenancy-database/src/model-pricing.ts:508-534 | in ordered runs every usage costs the same under the deduplicated history as under the full one, errors included |
| `PricingService.ChargesKept` | internal-packages/tenancy-database/src/model-pricing.ts:646-673 | a charge for an instant before every later fetch never changes |
| `PricingService.SplitIsNeutral` | internal-packages/tenancy-database/src/model-pricing.ts:508-534 | every input token is charged once: with equal rates the split into cached and fresh tokens does not matter |
| `PricingService.IngestKeepsUnique` | internal-packages/tenancy-database/prisma/schema.prisma:1066 | an ingest never writes two rows of one model at one instant |
| `PricingService.PlatosModelPricing.CoveredOverrides` | internal-packages/tenancy-database/src/model-pricing.ts:575-580 | collects exactly the overrides that some catalog entry is priced by |
| `PricingService.PlatosModelPricing.CollectEntries` | internal-packages/tenancy-database/src/model-pricing.ts:572-588 | the catalog followed by an entry for each override not covered |
| `PricingService.PlatosModelPricing.IngestLiteLLMCatalog` | internal-packages/tenancy-database/src/model-pricing.ts:590-642 | the loop writes the specified rows or rolls back; created plus unchanged is the number of entries, and the table grows by the created ones |
| `PricingService.PlatosModelPricing.NewestByKey` | internal-packages/tenancy-database/src/model-pricing.ts:664-667 | keeps the first row of each key |
| `PricingService.PlatosModelPricing.ResolvePrice` | internal-packages/tenancy-database/src/model-pricing.ts:646-673 | from the rows newest first, returns the price in force of the first key that has one |
| `PgoutputEncoding.DecodesEncoding` | internal-packages/replication/src/pgoutput.ts:199-375 | decoding the encoding of any well-formed message returns that message with the cursor at the end of the buffer |
| `PgoutputEncoding.StreamDecodes` | internal-packages/replication/src/pgoutput.ts:199-375 | a whole stream decodes message by message to what was encoded, caches included |
| `PgoutputEncoding.CacheHoldsLatest` | internal-packages/replication/src/pgoutput.ts:272-297 | after a stream the cache holds the last Relation message of each oid |
| `PgoutputEncoding.RowUsesLatestRelation` | internal-packages/replication/src/pgoutput.ts:329-375 | each row of a stream is decoded with the most recent Relation of its oid |
| `PgoutputEncoding.TimeExact` | internal-packages/replication/src/pgoutput.ts:188-192 | a timestamp decodes to its own value iff it is not before 2000-01-01 |
| `PgoutputEncoding.IdentifierExact` | internal-packages/replication/src/pgoutput.ts:141-145 | an unsigned object or transaction identifier decodes to itself iff it is below 2^31, and two different ones never decode alike |
| `PgoutputEncoding.ReadInt32Back` | internal-packages/replication/src/pgoutput.ts:141-145 | reads back every signed 32-bit number from its four bytes |
| `PgoutputEncoding.ReadStringBack` | internal-packages/replication/src/pgoutput.ts:146-152 | reads back every text without a zero byte from its terminated bytes and stops behind the terminator |
| `PgoutputEncoding.ReadBytesBack` | internal-packages/replication/src/pgoutput.ts:153-157 | reads back any bytes by their length |
| `PgoutputEncoding.LsnTextInjective` | internal-packages/replication/src/pgoutput.ts:165-176 | the text of a log position determines it |
| `PgoutputAgreement.DecodersAgree` | internal-packages/replication/src/pgoutput.ts:199-255 | `parseArray` succeeds iff `parse` does and no field count is negative; then both return the same message up to the form of rows, the same offset and the same caches |
| `PgoutputAgreement.RowAgrees` | internal-packages/replication/src/pgoutput.ts:433-500 | with distinct column names slot i of the array is the object's field of column i, unchanged-value fallback included |
| `PgoutputAgreement.KeyAgrees` | internal-packages/replication/src/pgoutput.ts:425-432 | the object key is the array key restricted to the key columns |
| `PgoutputAgreement.DistinctNamesNeeded` | internal-packages/replication/src/pgoutput.ts:433-500 | every pair of rows agrees iff the column names are distinct |
| `PgoutputParser.BinaryReader.ReadLsn` | internal-packages/replication/src/pgoutput.ts:165-176 | reads two unsigned halves into the padded text, zero as none |
| `PgoutputParser.BinaryReader.ReadTime` | internal-packages/replication/src/pgoutput.ts:183-192 | reads an unsigned 64-bit value and shifts the epoch |
| `PgoutputParser.PgoutputParser.ReadTuple` | internal-packages/replication/src/pgoutput.ts:433-466 | the field loop fills the specified object |
| `PgoutputParser.PgoutputParser.ReadTupleAsArray` | internal-packages/replication/src/pgoutput.ts:468-500 | the field loop fills the specified array, and fails on a negative count |
| `PgoutputParser.PgoutputParser.ReadKeyTuple` | internal-packages/replication/src/pgoutput.ts:425-432 | the key loop keeps the key columns, null as undefined |
| `PgoutputParser.PgoutputParser.MsgUpdate` | internal-packages/replication/src/pgoutput.ts:339-360 | reads the three forms of an update |
| `PgoutputParser.PgoutputParser.MsgUpdateArray` | internal-packages/replication/src/pgoutput.ts:388-409 | the same with rows as arrays |
| `PgoutputParser.PgoutputParser.MsgDelete` | internal-packages/replication/src/pgoutput.ts:361-375 | reads both forms of a delete |
| `PgoutputParser.PgoutputParser.MsgType` | internal-packages/replication/src/pgoutput.ts:272-278 | remembers the type |
| `PgoutputParser.PgoutputParser.MsgRelation` | internal-packages/replication/src/pgoutput.ts:279-297 | reads the columns and remembers the relation |
| `PgoutputParser.PgoutputParser.MsgTruncate` | internal-packages/replication/src/pgoutput.ts:501-513 | reads the flags and the list of relations |
| `PgoutputParser.PgoutputParser.Parse` | internal-packages/replication/src/pgoutput.ts:199-226 | for every buffer, conformant or not, returns and remembers what the specification says |
| `PgoutputParser.PgoutputParser.ParseArray` | internal-packages/replication/src/pgoutput.ts:228-255 | the same with rows as arrays |
| `Sessions.RevokeRows` | internal-packages/tenancy-database/prisma/migrations/00000000000000_initial/migration.sql:3593-3606 | the trigger revokes a live session iff it was named or its parent fell with this statement |
| `Sessions.RevokeKeeps` | internal-packages/tenancy-database/prisma/migrations/00000000000000_initial/migration.sql:3593-3606 | after a revocation no live session has a revoked parent, and every named one is revoked |
| `Sessions.RevokedExactly` | internal-packages/tenancy-database/prisma/migrations/00000000000000_initial/migration.sql:3593-3606 | revoking a session revokes it and every session below it, and changes no other row |
| `Sessions.StartExactly` | internal-packages/tenancy-database/src/auth.ts:888-925 | with a valid authorisation, starting succeeds iff the actor is a platform operator, the target enabled, the session not impersonating and not revoked since; the new session has its parent's actor and expiry |
| `Sessions.StopExactly` | internal-packages/tenancy-database/src/auth.ts:927-982 | with a valid authorisation, stopping succeeds iff the parent is live; it revokes the impersonation session alone and adds one of the same actor and expiry under the same parent |
| `Sessions.EveryRunKeepsParents` | internal-packages/tenancy-database/src/auth.ts:984-1007 | in every run a child has its parent's actor and expiry, the parent is not impersonating, and no child is live under a revoked parent |
| `Sessions.AuthorizedChain` | internal-packages/tenancy-database/src/auth.ts:309-390 | whenever a session is authorised, every session above it is unrevoked and unexpired and none of them impersonates |
| `Sessions.AuthorizedExactly` | internal-packages/tenancy-database/src/auth.ts:309-390 | checking a session and its immediate parent is enough: authorising succeeds iff the whole chain above is live, the user enabled and verified where required, and an impersonator a platform operator |
| `Sessions.RevokedForever` | internal-packages/tenancy-database/src/auth.ts:309-398 | a revoked session, and every session below it, is never authorised again |
| `Sessions.RevocationFencesStart` | internal-packages/tenancy-database/src/auth.ts:888-925 | a request authorised before a revocation cannot start an impersonation after it |
| `RateLimit.BucketCounts` | internal-packages/tenancy-database/src/auth.ts:1009-1038 | a bucket counts exactly the attempts of its action, identifier and window |
| `RateLimit.WindowExact` | internal-packages/tenancy-database/src/auth.ts:1009-1038 | for attempts at arbitrary times, exactly min(attempts, requests) pass per window |
| `RateLimit.IntervalBound` | internal-packages/tenancy-database/src/auth.ts:1009-1038 | at most 2 * requests pass in any interval of a window's length |
| `RateLimit.BoundIsReached` | internal-packages/tenancy-database/src/auth.ts:1009-1038 | and for every limit two bursts at a boundary do pass 2 * requests |
| `MfaRuns.StepsMoveForward` | internal-packages/tenancy-database/src/auth.ts:604-777 | in every run and across all sessions the steps accepted for one secret strictly increase, from the enrolment code on, each within one step of its time |
| `MfaRuns.RecoveryCodesWorkOnce` | internal-packages/tenancy-database/src/auth.ts:763-773 | a recovery code of one enrolment is accepted at most once |
| `MfaRuns.GuessesAreBounded` | internal-packages/tenancy-database/src/auth.ts:779-785 | over every run the buckets hold exactly the attempts made, so at most 2 * requests per identifier get past the limit in a window's length |
| `MfaBounds.AcceptancesAreBounded` | internal-packages/tenancy-database/src/auth.ts:604-785 | over every run at most 2 * requests codes and recovery codes are accepted per identifier on attempts within a window's length, enrolment included |
| `MfaRuns.AttemptsAreCounted` | internal-packages/tenancy-database/src/auth.ts:703-777 | an attempt counts iff a live session of an enrolled user makes it, rolled back or not; a refusal changes nothing else |
| `MfaRuns.CodeAcceptedExactly` | internal-packages/tenancy-database/src/auth.ts:1080-1091 | a code shown by an unused step is accepted iff no used step of the window shows it too |
| `MfaRuns.ShownExactly` | internal-packages/tenancy-database/src/auth.ts:1080-1091 | a code is recognised iff a step of the window shows it, and the earliest such step is taken |
| `MfaBounds.CollidingCodeRefused` | internal-packages/tenancy-database/src/auth.ts:1080-1091 | a run from the empty state, under valid limits, after which the unused code of the current step is refused because the used step before it shows the same digits |
| `MfaRuns.EnrolmentSignsOut` | internal-packages/tenancy-database/src/auth.ts:632-661 | enrolling revokes every session of the user |
| `MfaRuns.DisablingSignsOutOthers` | internal-packages/tenancy-database/src/auth.ts:688-700 | disabling revokes every other session of the user |
| `MfaRuns.StepKeeps` | internal-packages/tenancy-database/src/auth.ts:581-777 | every step keeps the invariant behind these results |
| `AuthService.PlatosAuthService.RevokeSessions` | internal-packages/tenancy-database/prisma/migrations/00000000000000_initial/migration.sql:3593-3606 | the update and its cascade leave the specified table |
| `AuthService.PlatosAuthService.AuthorizeOperatorSession` | internal-packages/tenancy-database/src/auth.ts:309-390 | succeeds iff the session and all above it are live and their users are who they must be |
| `AuthService.PlatosAuthService.IssueOperatorSession` | internal-packages/tenancy-database/src/auth.ts:984-1007 | adds one session, which an enabled, verified user is authorised under until it expires, and keeps every invariant |
| `AuthService.PlatosAuthService.RevokeOperatorSession` | internal-packages/tenancy-database/src/auth.ts:392-398 | revokes exactly the session and those below it, and reports whether it was live |
| `AuthService.PlatosAuthService.StartImpersonation` | internal-packages/tenancy-database/src/auth.ts:888-925 | for a valid grant, succeeds iff the actor is a platform operator, the target enabled, the grant not impersonating and the session not revoked since; adds exactly one child session |
| `AuthService.PlatosAuthService.StopImpersonation` | internal-packages/tenancy-database/src/auth.ts:927-982 | for a valid grant, succeeds iff the parent is live; revokes the impersonation session alone and adds one beside it, or changes nothing |
| `AuthService.PlatosAuthService.VerifyTotp` | internal-packages/tenancy-database/src/auth.ts:1080-1091 | the loop returns the first step of the window that shows the code |
| `AuthService.PlatosAuthService.ConsumeRateLimit` | internal-packages/tenancy-database/src/auth.ts:1009-1038 | passes iff fewer than the allowed attempts of this identifier were made in the window so far |
| `AuthService.PlatosAuthService.BeginTotpEnrollment` | internal-packages/tenancy-database/src/auth.ts:581-602 | for an enabled user replaces the pending secret by one never used before and changes nothing else |
| `AuthService.PlatosAuthService.CheckEnrollment` | internal-packages/tenancy-database/src/auth.ts:604-627 | counts the attempt and accepts iff it is within the limit and a step of the window shows the code of the pending secret before it expires |
| `AuthService.PlatosAuthService.ActivateEnrollment` | internal-packages/tenancy-database/src/auth.ts:632-661 | activates iff the same secret is still pending and the recovery hashes differ; then the user has that secret, those unused codes and no live session |
| `AuthService.PlatosAuthService.AcceptProof` | internal-packages/tenancy-database/src/auth.ts:750-773 | an accepted proof is of the user's own secret and continues those accepted so far: a later step, or an unused recovery code |
| `AuthService.PlatosAuthService.VerifyMfa` | internal-packages/tenancy-database/src/auth.ts:665-777 | keeps every invariant; success accepts one proof of the session's own user that continues all before it, and failure changes nothing but the attempt count |
| `TokenSweep.DualReadKept` | scripts/reencrypt-entity-oauth-tokens.ts:18-48 | the reader returns the same text before and after for every field, and an ambiguous field is not written |
| `TokenSweep.MigratedIsCurrent` | scripts/reencrypt-entity-oauth-tokens.ts:141-156 | a migrated field decrypts under the current key to its classified text and is classified current from then on |
| `TokenSweep.SweepResumes` | scripts/reencrypt-entity-oauth-tokens.ts:200-246 | a sweep stopped after any row update can be started again and ends as one sweep of the original table |
| `TokenSweep.SecondReport` | scripts/reencrypt-entity-oauth-tokens.ts:200-246 | a second run updates nothing, reports every migrated field as current, and names the same ambiguous fields |
| `TokenSweep.SecondSweepIdle` | scripts/reencrypt-entity-oauth-tokens.ts:200-246 | a second execute run leaves every row as it is |
| `TokenSweeper.BearingIdsExact` | scripts/reencrypt-entity-oauth-tokens.ts:204-218 | the visited ids are exactly those of token-bearing rows, each once |
| `TokenSweeper.PageHead` | scripts/reencrypt-entity-oauth-tokens.ts:204-219 | a page begins with the first wanted row after the cursor and continues like the page behind it |
| `TokenSweeper.Sweeper.SweepField` | scripts/reencrypt-entity-oauth-tokens.ts:225-237 | counts the field by its class and encrypts exactly legacy and plain values |
| `TokenSweeper.Sweeper.SweepRow` | scripts/reencrypt-entity-oauth-tokens.ts:221-245 | processes both fields with at most one update, in execute mode only |
| `TokenSweeper.Sweeper.SweepPage` | scripts/reencrypt-entity-oauth-tokens.ts:219-246 | a page leaves every row up to its last one processed |
| `TokenSweeper.Sweeper.Sweep` | scripts/reencrypt-entity-oauth-tokens.ts:200-246 | visits every token-bearing row exactly once; an execute run leaves a swept table, a dry run leaves it alone, and both return the same report |
| `RunRecovery.NoRunIsLost` | scripts/recover-stuck-runs.ts:274-333 | for every keyspace and wherever passes are interrupted, a stuck run stays on its queue or in the environment's set |
| `RunRecovery.NotStuckUntouched` | scripts/recover-stuck-runs.ts:180-238 | a run that was not stuck keeps every membership and score |
| `RunRecovery.StuckIs` | scripts/recover-stuck-runs.ts:180-238 | the selection is exactly the queued runs of the environment's set, each once |
| `RecoveryConvergence.AllMove` | scripts/recover-stuck-runs.ts:274-333 | in a pass each run moves as far as its own commands get, whatever happens to the others |
| `RecoveryClashes.ConvergesExactly` | scripts/recover-stuck-runs.ts:274-333 | on every keyspace: after any interruptions a complete pass puts every run where one complete pass would have, iff nothing is stuck, or no stuck run's queue has the name of a stuck run's concurrency set and their keys hold the kinds of value they are named for |
| `RecoveryClashes.ClashBlocks` | scripts/recover-stuck-runs.ts:276-283 | where a queue that is not a set has the name of another stuck run's concurrency set, one interruption leaves that run stuck for good |
| `RecoveryClashes.OrdinaryClash` | internal-packages/run-engine/src/run-queue/index.ts:2979-2980 | two runs admitted to an empty keyspace, with concurrency keys `x` and `x:currentConcurrency`, are such a case: each is in its own set and recovery need not converge |
| `RunRecovery.RecoveryScript.Recover` | scripts/recover-stuck-runs.ts:305-317 | sends the three commands in order until one fails; success means the run is queued |
| `RunRecovery.RecoveryScript.RecoverStuck` | scripts/recover-stuck-runs.ts:274-333 | the loop is the specified pass; successes and failures add up to the stuck runs |
| `FallbackInjection.BranchMeans` | internal-packages/tsql/src/index.ts:431-471 | a branch keeps a row after injection iff it kept it before and every fallback on an undetected column is true, in three-valued logic |
| `FallbackInjection.InjectPreservesMeaning` | internal-packages/tsql/src/index.ts:405-472 | through nested set queries the injected query means the original restricted to the rows that meet the fallbacks |
| `FallbackInjection.InjectIdempotent` | internal-packages/tsql/src/index.ts:405-472 | injecting twice is injecting once |
| `FallbackInjection.FallbackRefersTo` | internal-packages/tsql/src/index.ts:353-395 | a fallback condition is itself detected as filtering on its column |
| `FallbackInjection.DetectionExactly` | internal-packages/tsql/src/index.ts:249-290 | a column is detected iff a field naming it is reached through logical nodes, comparisons and BETWEEN subjects alone |
| `FallbackInjection.CallHidesColumn` | internal-packages/tsql/src/index.ts:249-290 | a column filtered on inside a call is not detected and its fallback is added |
| `FallbackInjection.CollectMissing` | internal-packages/tsql/src/index.ts:435-441 | the loop collects exactly the fallbacks on undetected columns, in order |
| `PricingRegistry.CacheIsInvisible` | internal-packages/llm-model-catalog/src/registry.ts:46-135 | for every sequence of matches, costs and reloads the memoised registry replies like one that searches every time, misses and stripped prefixes included |
| `PricingRegistry.TotalIsSum` | internal-packages/llm-model-catalog/src/registry.ts:137-171 | the total exceeds the sum of the details by exactly the charges overwritten by a later entry of the same usage type, so they are equal iff these add up to zero |
| `PricingRegistry.DetailsAddUp` | internal-packages/llm-model-catalog/src/registry.ts:137-171 | the details add up to the total for distinct usage types; with no negative charge they do iff no entry that costs something is followed by one of its usage type |
| `PricingRegistry.RepeatedTypeDiffers` | internal-packages/llm-model-catalog/src/registry.ts:150-156 | a concrete tier whose total is not the sum of its details |
| `PricingRegistry.ModelPricingRegistry.LoadFromDatabase` | internal-packages/llm-model-catalog/src/registry.ts:46-99 | keeps the models whose pattern compiles, in order, and forgets every answer |
| `PricingRegistry.ModelPricingRegistry.Search` | internal-packages/llm-model-catalog/src/registry.ts:113-118 | returns the first pattern that accepts the text |
| `PricingRegistry.ModelPricingRegistry.Match` | internal-packages/llm-model-catalog/src/registry.ts:105-135 | answers from the cache or by searching, and remembers the answer, a miss included |
| `PricingRegistry.ModelPricingRegistry.CalculateCost` | internal-packages/llm-model-catalog/src/registry.ts:137-171 | the cost under the matched model and tier |
| `PricingRegistry.ModelPricingRegistry.AddUp` | internal-packages/llm-model-catalog/src/registry.ts:147-156 | the loop accumulates the specified total and details |

## Left out

- Cryptography itself (AES-GCM, HKDF, HMAC, SHA-256, constant-time comparison): ideal functions; no strength is claimed.
- Provider keys (`createProviderCredentialAndKey`, `linkProviderKey` and their relatives in `secrets.ts`): they would add members of the same shape.
- Deleting a user, environment or credential row with its cascades: rows are only added, changed or purged.
- Concurrency inside a transaction: a child session inserted while its parent is being revoked can stay unrevoked; `authorizeOperatorSession` then refuses it for its parent, but a session below it would pass. `AuthorizedChain` and `RevokedForever` are about transactions one after another.
- The organisation membership check of `authorizeOperatorSession`, `lastSeenAt`, impersonation audits, login, invitations and membership changes: independent of the sessions' lifetimes, or easy.
- The owner rule of `changeMembershipRole`: a check of one step that other writers of memberships do not make.
- Which override verifies a catalog entry and which keys a model name is looked up under (`verifiedModelPriceFor`, `modelPricingLookupKeys`): parameters; the results hold for every choice.
- Catalog metadata (provider, description, capabilities), which every ingest overwrites, and the dropping of blank keys before an ingest.
- Floating-point rounding of prices and costs: real arithmetic, apart from the column's and the cost's decimal rounding.
- The parsers of PostgreSQL text values and UTF-8 decoding: parameters; a text value is kept with its type.
- The replication client, locks, acknowledgements and timers.
- EnvironmentVariables.PersistedExactly: does not model what PostgreSQL makes of a plain value with a NUL or a lone surrogate, which a text column cannot hold; plain values are stored as given, here and in `PlainVariables`.
- PgoutputParser.PgoutputParser.ParseArray: does not say which error a rejected buffer raises, because the two decoders may reject different parts of it first.
- Concurrent writers during the token sweep and a concurrent dequeuer during recovery: both jobs are described on a table that only they change.
- What the database has for a run is fixed during recovery; the selection's join and ordering are its input.
- The TSQL lexer, parser and printer: queries are syntax trees, with every node that detection does not look into kept as a node with parts.
- The tier conditions' regular expressions: a parameter that may fail to compile.
