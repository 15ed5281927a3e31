# Verified model of the Bundlr validator

The validator cosigns transaction promises of one bundler, follows the validators' contract
and the network height, and clears its table of old promises. This project models that
logic and proves what it keeps. `dafny verify dfyconfig.toml` checks all of it.

What is modelled, by file:

- `Cosigning.dfy`: the running validator. Any number of `sign_route` handlers run beside the
  scheduled jobs; every load, store and statement is one step, and a run is any sequence of
  events. The existence query may fail and fall through, the insert may fail or lose its
  report, a panic in any job ends them all. `Invariant.dfy` is what every step keeps;
  `Safety.dfy`, `Linearization.dfy`, `Epochs.dfy` and `Retention.dfy` are what follows for
  every run, `Restarts.dfy` for any number of runs over one table; `Scenarios.dfy` holds runs that show where a promise stops.
- `Sign.dfy`: the route and the clearing job as they run alone. `Linearization.dfy` proves that the
  steps of `Cosigning.dfy` add up to the route, and `Epochs.dfy` the same of the contract job.
- `ValidatorState.dfy`, `Queries.dfy`, `Models.dfy`: the atomics, the two tables, and the 16-byte
  codec with the byte order as a parameter.
- `Contract.dfy`, `Voting.dfy`: following the contract, and rounds of slash votes.
- `Retry.dfy`, `MockClient.dfy`, `Reqwest.dfy`, `Arweave.dfy`: the retry loop, the client double with its
  call ledger, requests on top of both, and the height job on top of those.
- `Messages.dfy`: decimal text and the three signed chunk lists. `BuilderText.dfy`: the line the
  message builder prints, and reading it. `Bundle.dfy`: recording bundles.

Where the code does not do what its purpose asks for:

- Clearing means "older than 40 epochs". The column holds native-endian bytes and Postgres
  compares bytes. On a big-endian host that is numeric order; on a little-endian host (the common
  case) it is so exactly up to 256 epochs, and a clear keeps its window exactly under the
  test `ClearIsSafe`, which a caller could evaluate beforehand. When no row is newer than
  the clearing epoch the test is whether the epoch modulo 256 is at least 40
  (`Queries.ClearKeepsWindowIff`, `Queries.SafeAtOwnEpoch`, `Scenarios.LittleEndianClearsTooMuch`).
- The jobs start at epoch 0 and the clearing job subtracts 40 from it. With overflow checks this
  panics and ends every job for good. Without, the difference wraps, and a big-endian host deletes
  every validated row, a little-endian one those whose epoch modulo 256 is at most 216
  (`Scenarios.FirstClear`, `Scenarios.WrappedSelection`).
- A handler reads the role before and the epoch after its checks, so it can store a row for an
  epoch in which the validator is idle; `Epochs.RowIsForCosignedEpochIff` says exactly when.
- Two handlers for one id can both sign; only the primary key stops the second
  (`Scenarios.BothSideOfRaceSign`, `Scenarios.FirstInsertWins`). The promise lasts as long as the
  row: restarts do not end it, but an id whose validated row was cleared is cosigned again
  (`Restarts.NoEquivocationAcrossRestarts`, `Restarts.ClearedIdIsReleasedAgain`).
- More than eight exponential backoffs overflow the `u8` power (`Retry.NinthAttempt`). Within
  eight the saturating product never saturates; a base that is too long for it panics in the
  duration's constructor before (`Retry.ExponentialBackoff`).
- A round votes twice on one transaction id exactly when two eligible proposals are about it, and
  the two votes can differ (`VotingRounds.RoundAsksOncePerIdIff`, `VotingRounds.SharedIdGetsTwoVotes`).
- The message builder puts its arguments between quotes as they are, so the printed line is read
  back as what was signed exactly when no argument holds a quote, a backslash or a control
  character (`BuilderText.BuilderAgreesWithVerifyIff`, `BuilderText.QuoteInIdIsNotRead`).
- The row that would mark a transaction as validated has the key of the row just read, so
  the insert never succeeds (`BundleValidation.VerifyBundleTx`).

What the model takes from outside: hashing and encoding are identities on chunk lists and
signatures are relations on them (`Sign.Config`); the byte order and the overflow profile are
`Words.Build`; database outages, lost replies, HTTP replies and contract snapshots are
parameters. Atomic accesses are sequentially consistent. The jobs share one task and only
yield at an await, so some interleavings of jobs with jobs that the model allows cannot
happen; the theorems cover them as well.

## Model

| member | source | states |
|---|---|---|
| `Safety.NoEquivocation` | src/server/routes/sign.rs:139-215 | Over every interleaving at most one cosignature is released per transaction id, so no two for one id differ in block, fee, size or currency |
| `Safety.RowsHaveWitnesses` | src/server/routes/sign.rs:158-214 | Each inserted row has a handler that started at its arrival and inserted at its own step, during which the atomics held Cosigner, then a height the promised block fits (equal, or 395 to 405 ahead), then the row's epoch; address and bundler signature were good; the row is still there, promises the block in the lists the bundler and the validator signed, has the signature of the reply, and is neither validated nor in a block or bundle |
| `Safety.TimesAreTrue` | src/server/routes/sign.rs:120-215 | The recorded start and insert times of every handler are the positions of its arrival and of its own step in the run |
| `Cosigning.PastIsTheRun` | src/state.rs:59-89 | Entry i of the history is what the atomics held after the first i events |
| `Invariant.RunsKeepInv` | src/server/routes/sign.rs:120-215 | Every state of every run satisfies the invariant on handlers, rows, epochs and operations |
| `Invariant.HandlerStepOk` | src/server/routes/sign.rs:128-214 | Each step of a handler keeps that its locals were held by the atomics when it says and that each passed check held of them |
| `Invariant.HandlerStepRows` | src/server/routes/sign.rs:204-210 | A handler changes the table only by inserting its own row under an absent id, once |
| `Linearization.RunsAreLinearizable` | src/server/routes/sign.rs:120-215 | Table and released replies of any run are those of a sequential run of whole requests in the order of their inserts, each on role, height and epoch values held during that request, and of deletions where a delete event happened, with the threshold of the epoch an earlier load event read |
| `Linearization.EveryClearIsReal` | src/cron/clear_transactions.rs:10-11 | Every deletion of a run is at a delete event and uses the epoch held at an earlier load |
| `Linearization.StepsRefineRoute` | src/server/routes/sign.rs:128-214 | The steps of a handler, alone, make the reply and the table of the atomic request |
| `Linearization.UndisturbedRequestIsAtomic` | src/server/routes/sign.rs:128-214 | In any state, a request served before anything else happens ends with the reply and the table of the atomic request |
| `Linearization.StepsRefineClearingJob` | src/cron/clear_transactions.rs:6-13 | The two steps of the clearing job delete what is selected below the threshold of the present epoch, panic when there is none, and leave an unreachable table alone |
| `Linearization.HeightIsLastReported` | src/cron/arweave.rs:299-316 | At every point of every run the height is the last one the height job reported, or 0 |
| `Sign.ReleasedIff` | src/server/routes/sign.rs:132-214 | A cosignature is released exactly for an absent id, by a cosigner, on a verified request to this validator inside the block window; the table changes only then, or when a report is lost, and gains the row of that promise, block, epoch and signature field by field; duplicates are exactly the accepted ones |
| `Sign.RefusedIff` | src/server/routes/sign.rs:132-214 | Each other reply, with its exact condition in the order of the checks |
| `Sign.WindowOpenIff` | src/server/routes/sign.rs:166-177 | The window is the current height or 395 to 405 blocks ahead; its u128 subtractions never underflow |
| `Sign.SignRoute` | src/server/routes/sign.rs:120-215 | The route as statements on the shared state and the table makes the reply and the table of the atomic request |
| `Sign.ClearOldTransactions` | src/cron/clear_transactions.rs:6-13 | The job panics exactly below epoch 40 with overflow checks, deletes only validated rows, and keeps the last 40 epochs whenever the test on its epoch holds |
| `Scenarios.BothSideOfRaceSign` | src/server/routes/sign.rs:139-189 | Two requests with one id and different contents both pass the existence check and are both signed |
| `Scenarios.FirstInsertWins` | migrations/00000000000000_diesel_initial_setup/up.sql:45-55 | From there the first insert is answered with its cosignature and the other with an internal error |
| `Epochs.EpochsAreSafe` | src/cron/contract.rs:62-78 | The epoch never falls; each adoption raises it, is of a snapshot some event fetched, and stores it only after a height that reached that snapshot's activation height was held; no inserted row is from a later epoch than the present one |
| `Epochs.EpochAndRoleAgree` | src/cron/contract.rs:32-36 | Outside the two stores, epoch and role are the initial pair, or the epoch of the snapshot last adopted and whether it nominates this validator; between them the role is of the snapshot before |
| `Epochs.AdoptionFollowsNomination` | src/cron/contract.rs:67-75 | Over every run an adoption is of an epoch that an event fetched, as Cosigner exactly when that snapshot nominates this validator, and its two stores do that to the atomics and no more |
| `Epochs.OnlyStoresChange` | src/cron/contract.rs:34-35 | Epoch and role change at the recorded stores only |
| `Epochs.RowIsForCosignedEpochIff` | src/server/routes/sign.rs:132-192 | A row is for an epoch in which the validator does not cosign exactly when an adoption overlapped the reads of role and epoch and the last to do so was of a fetched snapshot that does not nominate it; with no overlap never |
| `Epochs.StepsRefineContractJob` | src/cron/contract.rs:16-53 | The steps of the contract job, alone, make of the atomics what the method does, and panic when it does |
| `Scenarios.StaleRoleMakesRow` | src/server/routes/sign.rs:128-196 | A run in which a row is stored for an epoch whose fetched snapshot does not nominate the validator |
| `Retention.RowsAreRetained` | src/database/queries.rs:86-98 | A row is present, unchanged, at every later state at most 40 epochs past its own, when every clear between passes the test |
| `Retention.UnsafeClearLosesRow` | src/cron/clear_transactions.rs:10-11 | The test is exact over runs: where a clear fails it, the same events over some table lose a row inside its window |
| `Retention.UnvalidatedRowsStay` | src/database/queries.rs:93-95 | No scheduled step of any run deletes or alters an unvalidated row |
| `Restarts.NoEquivocationAcrossRestarts` | src/server/routes/sign.rs:139-215 | Over any number of restarts on one table, an id released in one life is released in no later one |
| `Restarts.StoredIdIsNotReleased` | src/server/routes/sign.rs:139-156 | No cosignature is released for an id with an unvalidated row in the starting table |
| `Restarts.ClearedIdIsReleasedAgain` | src/cron/clear_transactions.rs:6-13 | After a clear deletes an id's row, which was then validated, the next good request for the id is cosigned |
| `Scenarios.FirstClear` | src/cron/mod.rs:61-70 | The clear at start-up ends all jobs under overflow checks, and without them deletes, for good, exactly the validated rows below the wrapped threshold in the byte order of the host |
| `Scenarios.WrappedSelection` | src/database/queries.rs:91-94 | Those are all 64-bit epochs on a big-endian host, and the ones that are at most 216 modulo 256 on a little-endian one |
| `Queries.SelectedAtStart` | src/database/queries.rs:91-94 | The threshold at epoch 0 is the largest u128 less 39, and which rows it selects on either byte order |
| `Scenarios.LittleEndianClearsTooMuch` | src/database/models.rs:48-56 | At epoch 290 a row of epoch 256 is deleted exactly on a little-endian host |
| `Queries.ClearKeepsWindowIff` | src/database/queries.rs:86-98 | A clear keeps the last 40 epochs of every table with validated rows up to a bound if and only if its epoch passes the test |
| `Queries.SafeAtOwnEpoch` | src/database/queries.rs:91-94 | With no row newer than the clearing epoch, the little-endian test is epoch modulo 256 at least 40 |
| `Queries.BigClearIsNumeric` | src/database/queries.rs:91-98 | Big-endian byte comparison deletes exactly the numerically older validated rows |
| `Queries.LittleClearIsNumericBound` | src/database/queries.rs:91-98 | Little-endian comparison does so for all tables and thresholds below n exactly when n is at most 256 |
| `Queries.Database.Filter` | src/database/queries.rs:86-98 | The returned count plus the survivors is the former size; the survivors are the rows not selected; a panic or an outage deletes nothing |
| `Queries.Database.InsertTx` | src/database/queries.rs:43-56 | An insert succeeds exactly for an absent key with its referenced bundle present, and otherwise changes nothing |
| `Queries.Database.GetTx` | src/database/queries.rs:76-84 | The row of the id, or an error |
| `Queries.Database.InsertBundle` | src/database/queries.rs:28-41 | An insert succeeds exactly for an absent key, and otherwise changes nothing |
| `Queries.Database.GetBundle` | src/database/queries.rs:20-26 | The row of the id, or an error |
| `Models.TryFrom` | src/database/models.rs:28-36 | Copying into the 16-byte buffer and reinterpreting it decodes the bytes |
| `Models.Output.ToSql` | src/database/models.rs:48-56 | Exactly 16 bytes are appended, and they decode to the value |
| `Models.RoundTrip` | src/database/models.rs:25-56 | Decoding inverts encoding on every u128 |
| `Models.DecodeAcceptsExactly16` | src/database/models.rs:63-75 | Exactly the 16-byte strings decode, losing nothing; others give the length error |
| `Models.EncodeInjective` | src/database/models.rs:98-106 | Distinct numbers have distinct encodings |
| `Models.EncodedOrder` | src/database/models.rs:48-56 | Big-endian columns sort numerically; little-endian ones as the byte-reversed numbers |
| `Models.LittleIsReversedBig` | src/database/models.rs:48-56 | The two byte orders hold the same sixteen bytes in opposite orders |
| `Models.LittleOrderBound` | src/database/models.rs:277-329 | The order the index test expects holds of all numbers below n on a little-endian host exactly when n is at most 256 |
| `Models.WrapSortsFirst` | src/database/models.rs:48-56 | The carry out of the lowest nonzero byte of a number sorts before it in little-endian order |
| `Models.NothingSortsFirstBelowWrap` | src/database/models.rs:48-56 | No smaller number above it does |
| `ValidatorState.State.constructor` | src/state.rs:93-99 | The start is height 0, epoch 0, Cosigner |
| `ValidatorState.State.SetRole` | src/state.rs:64-66 | Only the role changes |
| `ValidatorState.State.SetCurrentBlock` | src/state.rs:72-77 | Only the height changes; a height outside 64 bits panics before the store |
| `ValidatorState.State.SetCurrentEpoch` | src/state.rs:83-88 | Only the epoch changes; an epoch outside 64 bits panics before the store |
| `ValidatorState.ByteToRole` | src/state.rs:22-39 | The role byte round-trips |
| `Contract.CheckContractUpdates` | src/cron/contract.rs:16-53 | The shared state afterwards depends on the snapshot alone, whatever becomes of the votes. The job finishes exactly when every eligible proposal can be judged and every post is accepted, with one ballot for each, and then leaves none of them eligible; otherwise it stops at the first proposal or post that fails, with its error, and has taken a proposal off per applied vote |
| `Contract.UpdateRaisesEpoch` | src/cron/contract.rs:55-78 | The epoch rises exactly to an activated newer epoch, and the role is then whether that snapshot nominates this validator |
| `Contract.CheckForSlashProposals` | src/cron/contract.rs:80-112 | The list is the open, foreign, unvoted proposals, each once, and there is none exactly when there are no such proposals |
| `Contract.VoteAll` | src/cron/contract.rs:38-50 | One ballot per proposal in order, for or against as judged, with the outcome of its post, until the first that cannot be judged or is not accepted; success exactly when there is none |
| `VotingRounds.RoundAsksOncePerIdIff` | src/cron/contract.rs:88-105 | A round asks for one vote per transaction id exactly when the eligible ids are distinct |
| `VotingRounds.SharedIdGetsTwoVotes` | src/cron/contract.rs:80-112 | Two foreign accused with open, unvoted proposals about one transaction get two applied votes on it in one round, one for and one against |
| `Contract.BallotsAreARound` | src/cron/contract.rs:39-49 | The applied votes of the loop are those of the first proposals of its list |
| `VotingRounds.AtMostOneVotePerIdIff` | src/cron/contract.rs:80-112 | At every point of every run whose snapshots reflect applied votes, no id has two of our votes exactly when no single round applied two to one id |
| `VotingRounds.AtMostOneVotePerId` | src/cron/contract.rs:80-112 | So no id gets two of our votes when the snapshots voted on have distinct eligible ids |
| `Contract.RoundConverges` | src/cron/contract.rs:38-52 | On every snapshot each applied vote takes at least one proposal off the list, and a round with every vote accepted leaves none |
| `VotingRounds.DistinctRoundConverges` | src/cron/contract.rs:38-52 | With distinct eligible ids each applied vote takes exactly one off, and the rest of the list is what remains |
| `VotingRounds.RoundRecordsJudgements` | src/cron/contract.rs:38-50 | The contract then holds our judgement on each proposal voted on, and every other proposal as it was |
| `Retry.RunWithContext` | src/retry.rs:101-139 | The loop refines the recursive specification, whose calls, sleeps and results `EverySleep` and `EveryEnd` give |
| `Retry.RunLoop` | src/retry.rs:141-177 | `run` refines the same specification |
| `Retry.EveryRun` | src/retry.rs:107-138 | For any trace: the first attempt not retried decides after that many sleeps; otherwise there are exactly max_retries calls and sleeps and the failure handler gets the last value and the flag |
| `Retry.EverySleep` | src/retry.rs:113-132 | For any trace: a retry that names a delay sleeps exactly that, whatever the backoff; otherwise the constant, or the whole seconds of the base times 2^n, or nothing past eight unchecked |
| `Retry.EveryEnd` | src/retry.rs:107-138 | For any trace: which handler gets which value and flag, and which panic ends the run: a negative delay, a product that is no duration, a power that overflows, or no attempts |
| `Retry.DefaultSleeps` | src/retry.rs:180-191 | The default makes three attempts with sleeps of 1, 2 and 4 seconds |
| `Retry.UnwrapPanicsIff` | src/retry.rs:138-138 | The final unwrap panics exactly when max_retries is 0 |
| `Retry.ExponentialBackoff` | src/retry.rs:119-131 | Within eight attempts no power overflows and no product saturates; sleep i is base times 2^i and k sleeps add up to base times 2^k - 1; all attempts are made exactly when the last delay is in the range of a duration, and otherwise the first that is not ends the run in a panic |
| `Retry.NinthAttempt` | src/retry.rs:123-131 | Past eight attempts with delays in range the ninth panics under overflow checks, and is not delayed without them |
| `Retry.LongestBase` | src/retry.rs:123-131 | Eight attempts all have a delay exactly up to a base of 72057594037927 seconds |
| `MockHttp.MockClient.Execute` | src/http/mod.rs:190-215 | The reply is that of the first matching handler, and the ledger and the answered requests grow by an answered request only |
| `MockHttp.FirstMatch` | src/http/mod.rs:192-195 | The first handler that matches, if any does |
| `MockHttp.LedgerIsExact` | src/http/mod.rs:199-207 | For an equivalence, entries are pairwise inequivalent, each counts the answered requests of its class, every answered request has one, and the counts add up |
| `Reqwest.ExecuteWithRetry` | src/http/reqwest.rs:30-67 | Requests made through the client, its ledger, sleeps and result are those of the retry loop on the classified replies |
| `Reqwest.EveryExchange` | src/http/reqwest.rs:42-64 | For any client: another request follows exactly on a named delay, whatever the status, or a server error, after that delay or one that doubles from a second; the first other reply or error is the result, or the last reply; and each panic |
| `Reqwest.RecoveringServer` | src/http/reqwest.rs:42-64 | A server that fails k times and then answers gets k + 1 requests, and that answer is returned |
| `Reqwest.FirstReplyDecides` | src/http/reqwest.rs:59-63 | A first reply that is no server error and names no delay takes one request, one ledger entry and no sleep |
| `Reqwest.FailingServer` | src/http/reqwest.rs:40-66 | Against server errors exactly max_retries as u8 requests are made, in one ledger entry, and the last response is returned, with the two panicking cases |
| `Arweave.SyncNetworkInfo` | src/cron/arweave.rs:299-316 | A reply whose status is no error and whose body gives a height that fits stores that height, after one request, or three if it asks for that; every other reply stores nothing, and which result it gives |
| `Arweave.FailingServerIsTriedThrice` | src/cron/arweave.rs:178-187 | A failing server is asked three times, in one ledger entry, and yields no height |
| `Messages.ParseDecimal` | src/server/routes/sign.rs:35-47 | Parsing inverts printing on every u128 |
| `Messages.DecimalParse` | src/server/routes/sign.rs:35-38 | Printing inverts parsing exactly on canonical spellings |
| `Messages.ParseIff` | src/server/routes/sign.rs:35-38 | A number is parsed from exactly its printed form, after any zeros and at most one plus sign; too large ones and the empty text have their errors |
| `Messages.ChunkLayout` | src/server/routes/sign.rs:69-110 | The eight chunks hold the tag, the version and the promise field by field; the nine are these under the validator's tag with the bundler's address appended; a receipt has id and block of them |
| `Messages.ChunksDetermineFields` | src/server/routes/sign.rs:69-110 | The eight- and nine-chunk lists determine every promised field, and no list of one shape is one of another |
| `Messages.ReceiptDeterminesFields` | src/cron/bundle.rs:290-299 | The four-chunk list determines id and block |
| `Messages.SerializeRoundTrip` | src/server/routes/sign.rs:49-60 | Deserializing a serialized request gives it back |
| `Messages.DeserializeRoundTrip` | src/server/routes/sign.rs:49-60 | Serializing a deserialized body gives it back exactly when its numbers are spelled canonically |
| `BuilderText.BuilderAgreesWithVerifyIff` | src/bin/message_builder.rs:56-82 | From the printed line `verify` rebuilds the list the builder signed, with its signature, exactly when no string argument needs an escape |
| `BuilderText.PrintedLine` | src/bin/message_builder.rs:79-82 | The printed line, piece by piece |
| `BuilderText.LiteralReadsBackIff` | src/bin/message_builder.rs:79-82 | Text printed between quotes is read back as itself exactly when it holds no quote, backslash or control character, whatever follows |
| `BuilderText.QuoteInIdIsNotRead` | src/bin/message_builder.rs:79-82 | A quote in the id ends it early |
| `BundleValidation.ValidateBundler` | src/cron/bundle.rs:60-74 | It finishes exactly when every bundle is stored and none panics, and the bundle table is then the recording of the fetched list; otherwise it has recorded the bundles before the first that fails, and that one if it was stored; the transactions table never changes |
| `BundleValidation.RecordsExactly` | src/cron/bundle.rs:140-183 | Exactly the bundles with a block are added, existing rows stay, the first height wins |
| `BundleValidation.RecordingTwice` | src/cron/bundle.rs:161-182 | A second run over the same list changes nothing |
| `BundleValidation.StoreBundle` | src/cron/bundle.rs:153-183 | A present bundle is left, an absent one inserted; an unanswered presence query on a present bundle fails |
| `BundleValidation.ValidateBundle` | src/cron/bundle.rs:77-138 | Every outcome but a failed insert leaves the bundle recorded; it panics exactly when the download request fails or a stored signature is unusable |
| `BundleValidation.VerifyBundleTx` | src/cron/bundle.rs:185-243 | The transactions table is never changed; it panics exactly on a stored signature that is not UTF-8 or does not decode |

## Left out

- Hashing, RSA-PSS, base64url and the deep hash live in crates that are not part of this model; a signature is a relation on chunk lists, and an undecodable one an error.
- HTTP, JSON and GraphQL text, URLs, file download, logging, hardware checks and the command line have no logic to prove; a request body is its list of fields, except for the one line the message builder prints, whose keys are read in the order of the builder.
- The Retry-After header is only a delay: parsing dates, and the panic on a header that is unreadable or out of range, are left out.
- `verify_file_bundle` is not part of this model: the items of a bundle are a parameter.
- The bundle jobs run on values of the tables between statements; the scheduled runs of the model do not include them, as the schedule has them commented out.
- `validate_transactions`, `vote_slash` and `is_valid_proposal` are stubs; the last is a parameter, the others are left out.
- `get_latest_transactions` only copies a list, and `update_tx` has no caller.
- `tx_exists_on_peers` looks through an empty list, so a transaction that is not in the table is not found.
- `set_state` of the test routes overwrites the atomics freely and is behind a feature.
- A poisoned or exhausted connection pool panics; the model has only a database that is reached or not.
- Retry.RunWithContext: the payload is a function of the state it finds and gives the state it leaves, so aliasing between context and payload is not captured.
- CHAR columns pad with blanks; ids are compared as they are.
