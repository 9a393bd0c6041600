# althea-api native polling engine, modelled in Dafny

althea-api caches chain data for the Althea/Canto front ends. It runs a
native query engine on a ticker. Each iteration does the following:

1. Fetches the staking APR and writes it under `STAKING_APR`.
2. Fetches the validator set. It publishes the set twice: as a JSON list
   under `ALL_VALIDATORS` and as a Redis hash under `VALIDATOR_MAP`. The
   hash maps each operator address to that validator's JSON.
3. Does the same for governance proposals, under `ALL_PROPOSALS` and
   `PROPOSAL_MAP`. The hash is keyed by proposal id.

The CSR transformer exists but the loop does not call it. On demand, the
engine also builds a user's delegation snapshot:
- delegations;
- unbonding entries, flattened;
- rewards per validator;
- reward totals by denomination.

The contracts engine shares the same cache-writing helpers. The request
layer validates path parameters and derives route names from the
configured contract calls. The configuration supplies:
- the cache key names;
- the network-dependent JSON files;
- a rotating index into the backup RPC URLs.

The model consists of pure functions over immutable data, plus a few
methods where the source has loops worth verifying. It is split into
these modules:

- **Results, Strings, Decimal, Cosmos, Json**: the Go vocabulary the code
  relies on.
  - Results also holds the `Outcome` pass/fail type.
  - Strings gives `strings.Split` with its inverse `Join`.
  - Decimal covers `strconv.Itoa`, `strconv.Atoi` syntax and the
    `int(uint64)` wrap-around.
  - Cosmos holds the decimal/coin/time types.
  - Json covers JSON values, an abstract marshaller that may fail, and Go's
    nil versus empty slices.
- **Index**: the "list plus lookup map" pair that every transformer
  returns. The map is built by assigning in list order, so the last
  writer wins.
- **Staking, Governance, Csr**: the three transformers, each with its
  record mapping and its key function.
- **Apr**: the three APR formulas, over exact reals.
- **Delegations**: `FetchUserDelegations`, with the total-by-denomination
  loop as a verified method.
- **Store**: Redis reduced to `SET` and `HSET`, with write failures
  injected per key.
- **NativeCache, ContractsCache**: the cache writers of the two engines.
- **Tick**: one ticker iteration as a store transition. A fatal log is a
  `Fatal` result that ends the run.
- **Routes, Validation, Config**: route derivation, parameter checks and
  configuration.

## Model

Source paths are relative to the repository root.

| member | source | states |
|---|---|---|
| Staking.GetValidators | queryengine/native/native_types.go:38-62 | A failed fetch returns its error and nothing else. Otherwise there is one record per validator in response order, duplicates kept. Each record carries the operator address, jailed flag, status name, token amount, description, and the current commission rate only. |
| Staking.ValidatorIndexAgreesWithList | queryengine/native/native_types.go:47-61 | The index keys are exactly the operator addresses in the list. Each value is the serialization of the last listed validator with that address. The index is never larger than the list, and is the same size iff the addresses are distinct. |
| Staking.ValidatorIndexEmpty | queryengine/native/native_types.go:48-60 | The index is empty exactly when the response lists no validator. |
| Governance.SelectTally | queryengine/native/native_types.go:293-305 | During the voting period the record takes the live tally, or the zero tally when that query fails. In every other status it takes the proposal's final tally. |
| Governance.GetAllProposals | queryengine/native/native_types.go:281-335 | A failed list fetch returns its error. Otherwise there is one record per proposal, in order. Each record has the id, type URL, status name, the tally chosen by SelectTally, all five times (submit, deposit end, voting start and end) and the deposit. Title and description come from the metadata, or are empty when metadata extraction fails. |
| Governance.IdKeyFaithful | queryengine/native/native_types.go:332 | Ids below 2^63 are keyed by their plain decimal text. Two ids share a key iff they are equal, even above 2^63, where `int(id)` goes negative. |
| Governance.ProposalIndexAgreesWithList | queryengine/native/native_types.go:290-333 | The index keys are exactly the id keys of the listed proposals. Each value serializes the last proposal with that id. The index has as many entries as the list iff the ids are distinct. |
| Governance.ProposalIndexEmpty | queryengine/native/native_types.go:291-332 | The proposal index is empty exactly when the response is. |
| Csr.GetCsrs | queryengine/native/native_types.go:351-371 | A failed fetch returns its error. Otherwise there is one record per CSR, in order, with id, contracts and txs carried over and the revenue in decimal. |
| Csr.CsrIndexAgreesWithList | queryengine/native/native_types.go:358-369 | The CSR index keys are the id keys of the listed CSRs, and each value serializes the last CSR with that id. The index is as large as the list iff the ids are distinct. |
| Index.BuildIndexLastWriterWins | queryengine/native/native_types.go:48-59 | Assigning the pairs into a Go map in order gives a map whose keys are exactly the listed keys. Each key holds the value of the last pair with that key. |
| Index.DatasetValueOfLast | queryengine/native/native_types.go:358-368 | The last record with a given key is what the index holds for that key. |
| Index.DatasetSize | queryengine/native/native_types.go:290-332 | A transformer's index is never larger than its list, and is exactly as large iff no two records share a key. |
| Staking.DescriptionJson | queryengine/native/native_types.go:31 | A description marshals as an object with at most the five tagged members, each a non-empty string. |
| Staking.DescriptionJsonOmitsEmpty | queryengine/native/native_types.go:31 | Each description field appears under its tag iff it is non-empty, because every tag is `omitempty`. An all-empty description is `{}`. |
| Apr.CalculateStakingApr | queryengine/native/native_utils.go:12-28 | With zero bonded tokens the APR is 0. Otherwise APR × bonded = annual provision, a plain fraction with no percentage factor. |
| Apr.AprPercent | queryengine/native/native_types.go:76-84 | With zero bonded tokens the APR is 0. Otherwise APR × bonded = provision × 100. |
| Apr.GetStakingApr | queryengine/native/native_types.go:63-85 | A pool query error is returned first, then a provision query error. With both answers the result is AprPercent. |
| Apr.EpochStakingApr | query/native_utils.go:10-23 | With zero bonded tokens the APR is 0. Otherwise APR × bonded = epoch provision × 365 × 100. |
| Apr.AprVariantsScale | query/native_utils.go:17-22 | The native percentage is 100 times the plain quotient, and the epoch variant is 36500 times it, for every input. |
| Apr.AprTestFixtures | queryengine/native/native_utils_test.go:22-77 | Zero bonded and zero provision both give 0. Bonded 10^11 with provision 100 gives 0.0000365 only under the epoch formula; the other two formulas give something else. |
| Delegations.FlattenUnbondingShape | queryengine/native/native_types.go:187-198 | Flattening yields one record per (response, entry) pair. Entry j of response i is placed right after the entries of responses 0..i-1, with the response's addresses and the entry's fields. |
| Delegations.AggregateTotals | queryengine/native/native_types.go:229-246 | The scan-and-add-or-append loop computes exactly the reference totals: one coin per denomination, in first-appearance order. |
| Delegations.TotalsProperties | queryengine/native/native_types.go:229-247 | The totals list each input denomination once and no other. Each total is the exact sum of that denomination's amounts. A denomination seen once keeps its original coin. |
| Delegations.TotalsSpecSnoc | queryengine/native/native_types.go:233-244 | One more coin either adds its amount to the existing total of its denomination, leaving the rest unchanged, or appends a new total at the end. |
| Delegations.DistinctDenomsFirstAppearance | queryengine/native/native_types.go:230-245 | Totals are ordered by the position where each denomination first appears among the reward coins. |
| Delegations.FetchUserDelegations | queryengine/native/native_types.go:150-250 | The three queries fail in order, each error wrapped with its context. On success the result holds one delegation record per delegation, the flattened unbonding entries, and one reward record per validator, each list nil when empty. The totals equal the reference totals. |
| Delegations.RewardsInfoJson | queryengine/native/native_types.go:130-139 | Rewards info marshals its two lists as arrays, so nil lists become `[]`, never `null`. |
| Delegations.DelegationResponseJson | queryengine/native/native_types.go:89-93 | A nil delegation or unbonding list marshals as `null`. |
| Json.GeneralResultToString | queryengine/native/native_utils.go:30-36 | The result is the marshalled text, or on a marshal error the tag followed by the error. When marshalled text never starts with the tag, the tag identifies the failures. |
| Decimal.IntToDecimalRoundTrip | queryengine/native/native_types.go:332 | Every `Itoa` rendering is valid `Atoi` syntax and reads back as the same number. |
| Decimal.Uint64ToIntInjective | queryengine/native/native_types.go:368 | The `int(uint64)` conversion on the CSR and proposal ids loses no information. |
| Config.ContractCalls | config/config.go:114-117 | The call list is the FPI calls followed by the general calls, each in its own order. |
| Config.SelectNetworkFiles | config/config.go:82-91 | The testnet files are chosen iff `TESTNET` is exactly "true"; any other value selects mainnet. |
| Config.SetBackupRpc | config/config.go:124-140 | The index advances by one and wraps to 0 past the last URL. The chosen URL is the comma-split entry at the new index, which is always in range. |
| Config.FirstBackupRpcIsFirstUrl | config/config.go:119-140 | From the initial index -1, the first rotation selects the first URL. |
| Config.BackupRpcCycles | config/config.go:132-138 | After k rotations from a valid index s, the index is (s + k) mod n, where n is the number of URLs. |
| Config.BackupRpcFullCycle | config/config.go:132-138 | n rotations from a valid index return to it. |
| Config.SingleBackupUrl | config/config.go:128-140 | Without a comma every rotation selects index 0 and the whole variable as the URL. |
| Config.NativeKeysDistinct | config/config.go:19-25 | The keys the engine writes and the CSR keys are pairwise distinct. |
| Routes.MethodName | requestengine/routes.go:26 | The method name is the longest prefix of the signature before the first `(`. |
| Routes.GetGeneralContractRoutes | requestengine/routes.go:19-35 | The routes are those of the keyless contracts in call order. Each method gives `name/method`, followed by `/arg` when it has an argument. |
| Routes.ContractRouteCount | requestengine/routes.go:22-31 | A contract with keys gives no route. A keyless one gives one route per method, each starting with `name/method`. |
| Routes.ConfiguredRoutes | requestengine/routes.go:21 | The routes of the configured calls are the FPI routes followed by the general routes. |
| Routes.RoutesCount | requestengine/routes.go:21-33 | The number of routes equals the number of methods of keyless contracts. |
| Validation.CheckValidatorAddress | requestengine/utils.go:54-59 | An address passes iff it starts with `cantovaloper`. Otherwise the error names the address. |
| Validation.Atoi | requestengine/utils.go:63 | A string is accepted iff it is an optional sign and digits whose value fits in int64, and the value is the signed number. An error is a range error iff the syntax is valid or the leading digit run already exceeds 2^64 − 1; otherwise it is a syntax error. |
| Validation.AtoiTrailingJunk | requestengine/utils.go:63 | Digits followed by a non-digit are never valid syntax. They count as a `uint64` overflow iff the digits exceed 2^64 − 1, so past the int64 bound but within the uint64 one they give a syntax error. |
| Validation.CheckIdString | requestengine/utils.go:61-67 | An id passes iff `Atoi` accepts it, negative and signed ids included. Otherwise the error names the id. |
| Validation.IdKeysPassCheck | requestengine/utils.go:61-67 | Every proposal or CSR index key passes the id check and reads back as the id's int64 reinterpretation. |
| Validation.AtoiAcceptsRenderings | requestengine/utils.go:63 | A rendered integer passes the id check iff it is within int64. |
| Validation.AtoiExamples | requestengine/utils.go:63 | Signs are accepted. The empty string, a lone sign and underscores are rejected. |
| Store.HSet | queryengine/native/query_native.go:59 | HSET fails, changing nothing, for an injected fault, for zero fields, or for a key holding a string. Otherwise it merges the fields into the hash, keeps the other fields, and leaves every other key alone. |
| Store.HSetIdempotent | queryengine/contracts/cache.go:29 | Writing the same fields twice leaves the store as writing them once does. |
| Store.SetThenHSetWrongType | queryengine/native/query_native.go:49-59 | After a `SET`, an `HSET` of the same key fails with the wrong-type error. |
| NativeCache.SetJsonToCache | queryengine/native/query_native.go:42-54 | The write succeeds iff the key accepts writes. It stores the `results` envelope of the serialized payload under that key only. A failure leaves the store as it was, and its error carries the `SetJsonToCache: ` prefix. |
| NativeCache.SetMapToCache | queryengine/native/query_native.go:57-64 | The index is merged into the hash at the key and earlier fields are kept. A failure carries the `SetMappingToCache: ` prefix and changes nothing. |
| NativeCache.EmptyIndexRejected | queryengine/native/query_native.go:57-64 | An empty index can never be stored. |
| Tick.Tick | queryengine/native/query_native.go:81-85 | A failed APR fetch skips the iteration: no write, no fatal. |
| Tick.PublishStep | queryengine/native/query_native.go:97-108 | A fetch error is fatal with the step's message and nothing written. A rejected list write is fatal with the list message, the store and log unchanged. Otherwise the list envelope is stored and logged; the step goes on iff the index write succeeds, and a rejected index write is fatal with the map message and the `SetMappingToCache: ` error. |
| Tick.TickWriteOrder | queryengine/native/query_native.go:77-141 | Keys are written in the fixed order APR, validators, validator map, proposals, proposal map, possibly without the APR key. A completed iteration writes nothing, all five keys, or the four dataset keys. |
| Tick.TickFrame | queryengine/native/query_native.go:77-141 | Every key outside the write log keeps its previous value. |
| Tick.TickCompletes | queryengine/native/query_native.go:81-140 | When every step can succeed, the iteration completes and writes all keys. A rejected APR write is only logged, so it leaves out just the APR key. Both datasets are published: the list envelopes, with every index entry in its hash. |
| Tick.TickValidatorFetchFatal | queryengine/native/query_native.go:97-100 | A validator fetch failure is fatal with that error right after the APR step. |
| Tick.TickEmptyValidatorsFatal | queryengine/native/query_native.go:101-108 | An empty validator response stores a `null` list. It then ends the process at the map write with the arity error. |
| Tick.TickStoresApr | queryengine/native/query_native.go:88-95 | An accepted APR write is logged first and leaves the rendered APR, in its envelope, under the APR key at the end of the iteration, whatever happens after it. |
| Tick.TickValidatorListFault | queryengine/native/query_native.go:101-104 | A rejected validator list write ends the process with "failed to set validators" and the `SetJsonToCache: ` error, after at most the APR key. |
| Tick.TickValidatorMapFault | queryengine/native/query_native.go:105-108 | A rejected validator index write ends the process with "failed to set validator map" and the `SetMappingToCache: ` error, after the validator list is stored. |
| Tick.TickProposalFetchFatal | queryengine/native/query_native.go:129-132 | A proposal fetch failure is fatal only after both validator keys are written. |
| Tick.TickProposalListFault | queryengine/native/query_native.go:133-136 | A rejected proposal list write ends the process with "failed to set proposals" after both validator keys are written. |
| Tick.TickProposalMapFault | queryengine/native/query_native.go:137-140 | A rejected proposal index write ends the process with "failed to set proposal map" after the proposal list is stored. |
| Tick.TickKeepsStaleValidators | queryengine/native/query_native.go:105 | An index entry of a validator no longer listed survives with its old value. |
| Tick.TickKeepsStaleProposals | queryengine/native/query_native.go:137 | The same holds for proposals that left the response. |
| Tick.TickLeavesCsrKeys | queryengine/native/query_native.go:113-124 | No iteration writes the CSR keys; they keep their value. |
| ContractsCache.SetJsonToCache | queryengine/contracts/cache.go:11-24 | It stores the `block`/`results` envelope under the key only, and returns the store error unprefixed on failure. |
| ContractsCache.SetMapToCache | queryengine/contracts/cache.go:27-34 | It merges the map into the hash at the key. A failure carries the `SetMapToCache: ` prefix and changes nothing. |
| ContractsCache.SetCacheWithGeneral | queryengine/contracts/cache.go:38-50 | It succeeds iff no visited key is faulted. It stops at the first rejected key with the `SetCacheWithResult: ` prefix. On success each key holds its rendered result. On failure the keys visited before the rejected one hold their rendered results, and the keys not yet visited keep their old values. Keys outside the results are untouched. |
| ContractsCache.GeneralWritesAll | queryengine/contracts/cache.go:38-50 | When no write is rejected, the store afterwards is the reference store: the old store with each result key set to its rendered value. |
| ContractsCache.GeneralOrderIndependent | queryengine/contracts/cache.go:40 | When no write is rejected, any two iteration orders of the Go map give the same store. |
| ContractsCache.SetCacheWithProcessedPairs | queryengine/contracts/cache.go:53-70 | The list is written before the map, and it succeeds iff both writes do. A list failure stops before the map with the list error. An accepted list keeps its envelope even when the map write then fails, with the map error. On success the map key is a hash holding every index field. Errors carry the `SetCacheWithProcessedPairs: ` prefix. Only the two keys change. |
| ContractsCache.SetCacheWithProcessedCTokens | queryengine/contracts/cache.go:72-89 | The same protocol for ctokens, with the same clauses and the `SetCacheWithProcessedCTokens: ` prefix. |

## Left out

- The gRPC, Redis and HTTP clients, the ticker and `main.go` are left out. Remote answers, store faults and marshalling are parameters.
- Route registration (`requestengine/routes.go:37-106`) and the HTTP handlers are left out. They only wire fiber to the cache.
- `RedisKeyNotFound`, `InvalidParameters`, `GetStoreValueFromKey` and `GetBlockNumber` (requestengine/utils.go) are left out. They are HTTP and Redis plumbing with no logic of their own.
- `GetProposalMetadata`, `GetProcessedPairs`, `GetProcessedCTokens`, `getAllFPI` and `getContractsFromJson` are not part of this model. Their results are inputs: a metadata extractor and the processed pair, ctoken and call lists.
- `ResultToString` of the contracts engine and the `sdk.Dec` rendering of the APR are abstract functions.
- JSON marshalling is an abstract, possibly failing function. The model gives the value tree each record marshals from, under the record's struct tags. `omitempty` is modelled where the tagged types use it: the five `staking.Description` fields. Member order, escaping and number formatting are the marshaller's.
- `staking.Description` is a Cosmos SDK type whose generated struct tags are not part of this model. The model writes its tags as `moniker`, `identity`, `website`, `security_contact` and `details`, each `omitempty`.
- Environment reads, client dialing, `log.Fatal` on configuration errors, and the query interval parsing are left out.
- Apr.CalculateStakingApr, Apr.AprPercent, Apr.EpochStakingApr: computed over exact reals, so the 18-digit rounding of `sdk.Dec` division is not reproduced.
- Delegations.FetchUserDelegations: reward totals are exact sums on `sdk.Dec` units, not the source's float64 sums printed with `%f`, whose rounding and 6-digit output are not modelled.
- Validation.Atoi: only the `NumError.Err` text is modelled (syntax or range error), not the wrapping `strconv.Atoi: parsing "...":` message, which `CheckIdString` discards anyway.
- The bech32 validator prefix `cantovaloper` is the Canto SDK configuration constant the source reads. It is written here as a literal.
- The index of `Args[index]` in `GetGeneralContractRoutes` panics when a keyless contract has fewer argument lists than methods. The model states this as the `RoutesDefined` precondition rather than modelling a panic.
- A Go map's iteration order is unspecified. `SetCacheWithGeneral` takes the order as a parameter, and the order-independence lemma covers the fault-free case.
- Redis rejects `HSET` with zero fields (a wrong-number-of-arguments error). So an empty validator or proposal response is fatal at the map write. The model follows Redis here; the source's comments do not mention this case.
- The unbonding list is set to nil when empty, so it marshals as `null`, not `[]` as a reader of the struct might expect. The model follows the code.
- The test file `native_utils_test.go` passes values where `CalculateStakingAPR` takes pointers, and it uses a package it never imports. Only its fixture values are used, in `Apr.AprTestFixtures`; the fixture at lines 50-63 matches none of the formulas.
- Concurrency between the ticker and HTTP readers is left out. Each iteration is one atomic transition of the store model.
