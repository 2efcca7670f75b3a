# MyOwnMesh: custody, storage planning and release guards

A Dafny model of the parts of MyOwnMesh where a mistake is hardest to see by reading, with proofs of what they
promise. `dafny verify dfyconfig.toml` checks all of it.

- **Custody** (`crates/myownmesh-core/src/custody.rs`). The second-factor store of a device is a durable map from
  networks to enrollments that move from absent to Prepared to Committed. `CustodyStore` gives the entry points,
  imperatively over one map and as a function of the map. `CustodyRuns` proves what holds over every run of that
  atomic machine, and `CustodyAnswers` what each call answers, leaves and hands out. `CustodyLocking` takes every
  call apart into lock, load, decide, save, unlock and crash steps of any number of processes and threads, and proves
  that this refines the atomic machine. `Totp` covers code truncation, rendering and the acceptance window; `Otpauth`
  the provisioning URI, its percent-encoding and a reader for it.
- **Storage planner** (`crates/myownmesh-core/src/config.rs`). `StoragePlanner` compares the checked 64-bit plan over
  sixteen b-trees, the write-ahead log and its index with the same plan over unbounded integers.
- **Configuration file** (`crates/myownmesh-core/src/config.rs`). `ConfigTransaction` models load, mutate, recheck and
  replace, in sequence and interleaved with other callers, crashes and writers that ignore the lease. `ConfigForeign`
  proves exactly which updates of such writers a transaction notices and which runs are serial; `ConfigAlone` that the
  sequential form is the concurrent one run alone.
- **Rust source guard** (`scripts/verify-v4-cutover.py`). `RustLexer`, `RustItems`, `RustMasker` and `MarkerSearch`
  model the lexer, the search for test-only items, the in-place masking and the marker search. `RustAtoms` and
  `RustShortest` say which atoms and which items these find, without the scans; `RustNesting`, `RustLiterals` and
  `RustRelex` prove what masking does to nested sources, to quoted text, and to the tokens of the text read again.
- **Release and qualification scripts.** `ReleaseScan` is the chunked marker scan, `ReleaseGraph` the cycle check and
  the dependency worklist of the release workflow (`scripts/verify-release-artifact.py`); `Qualification` is the
  manifest check and the cell loop of `scripts/run-graph-hub-qualification.py`.

## How to read it

Code that changes things step by step is a method or a class, proved equal to a function of its inputs or of the old
state; the theorems are then about that function. Randomness, the clock, file failures and what a foreign process does
are parameters of a call or steps of a machine. HMAC-SHA1, SHA-256, base32, JSON parsing and printing and Python's
`\w` are function parameters, so every statement holds whatever they compute.

Assumptions, all stated in the contracts that need them: a drawn transaction id has not been used before and drawn
secrets and code lists are not empty (`CustodyRuns.FreshDraw`); a file is replaced atomically; a lease excludes other
holders and is released when its holder dies; what is rendered as JSON parses back (`ConfigTransaction.RoundTrips`,
used only where configurations rather than bytes are compared).

Two promises do not hold as broadly as one would expect. The model keeps what the code does, and states exactly where
the promise holds.

- Redelivery of prepared material works exactly when the account recorded at creation is not empty
  (`CustodyRuns.RedeliversTheSame`): creation accepts an empty account, reading it back refuses it.
- The documentation of `transaction` says that, because of the recheck, an uncoordinated writer cannot silently erase a
  disjoint update. There are three moments at which the uncoordinated writer's own update is lost without notice, the
  transaction reporting success.
  - A corrupt file is repaired between a load's read and its rename: the repaired file is set aside
    (`ConfigForeign.RepairSetAside`).
  - A valid file is deleted between a load's read and its test that the file is there: the deletion is undone
    (`ConfigForeign.DeletionUndone`).
  - A file is replaced between the recheck and the replacement (`ConfigForeign.OverwrittenAfterRecheck`).

  `ConfigForeign.HonestExactly` shows that up to the recheck the first two are the only ones: over every run from the
  read to a passed recheck, no foreign write was displaced exactly when no rename followed one, and what was read is
  still the file exactly when a valid file was not found absent. `ConfigForeign.RunsSeriallyExactly` says which runs
  are serial: the file is the replay of the effects at every moment exactly when every transaction makes the same of
  the file it replaces as of the one it read. Keeping foreign writers out of the second and third moment suffices for
  that (`ConfigTransaction.Protected`); in the first the replay is serial too, and shows the repair quarantined.

## Model

| member | source | states |
|---|---|---|
| `CustodyLocking.RefinesAtomicMachine` | crates/myownmesh-core/src/custody.rs:785-921 | under every interleaving of lock, load, decide, save and unlock steps by any number of processes, with crashes anywhere, the effects form a run of the atomic machine and the file is always that run's store |
| `CustodyLocking.StepKeepsRelated` | crates/myownmesh-core/src/custody.rs:785-921 | every single step keeps the invariant relating both machines, with at most one effect |
| `CustodyLocking.RelatedAlong` | crates/myownmesh-core/src/custody.rs:785-921 | the effects so far are a run, and the relation holds, after every prefix of every trace |
| `CustodyLocking.EffectIsAtomic` | crates/myownmesh-core/src/custody.rs:1276-1292 | what takes effect in a step is one step of the atomic machine, and the file changes exactly as it says |
| `CustodyLocking.OnlyWriterChanges` | crates/myownmesh-core/src/custody.rs:789-795 | while one thread holds the writer lease nobody else changes the file or installs an identity |
| `CustodyLocking.LocksKept` | crates/myownmesh-core/src/custody.rs:550-596 | every step keeps whoever is inside the sole holder of its process mutex and of the shared writer lease |
| `CustodyLocking.UnleakedAlong` | crates/myownmesh-core/src/custody.rs:550-596 | at every moment of every trace, after any crash, a lock that is taken is held by a running call that is inside |
| `CustodyLocking.NeverStuck` | crates/myownmesh-core/src/custody.rs:785-795 | in every reachable state with a running call some running call has a step that is neither a failure nor a crash: no deadlock, no lock left behind |
| `CustodyLocking.WritersExclude` | crates/myownmesh-core/src/custody.rs:789-795 | at most one thread over all processes is inside the protected section |
| `CustodyLocking.CallTakesEffectOnce` | crates/myownmesh-core/src/custody.rs:808-921 | a call that returns took effect exactly once, between invocation and return, with the answer it got; one that failed on the file or a lease never did |
| `CustodyLocking.CrashBeforeEffectHasNone` | crates/myownmesh-core/src/custody.rs:1276-1292 | a crash does not change the file, and a call cut off before its save has no effect, ever after |
| `CustodyLocking.QueryTellsTheTruth` | crates/myownmesh-core/src/custody.rs:1003-1024 | a query, which never holds the writer lease, answers truthfully for the file at some moment of its call |
| `CustodyLocking.ConcurrentSettlersAgree` | crates/myownmesh-core/src/custody.rs:879-921 | under every interleaving, with no verified disable, all settlers of a handle that was handed out get the same answer |
| `CustodyLocking.OverIsOver` | crates/myownmesh-core/src/custody.rs:785-921 | a call that returned or died takes no further effect |
| `CustodyLocking.TicketKeepsCall` | crates/myownmesh-core/src/custody.rs:785-921 | the thread that made a call keeps it until the call is over |
| `CustodyLocking.EffectsWereInvoked` | crates/myownmesh-core/src/custody.rs:785-921 | every effect in the log, that of a call that died later included, is that of a call invoked before, as that call |
| `CustodyLocking.WhatIsTold` | crates/myownmesh-core/src/custody.rs:785-921 | before its effect a running call has no entry in the log, and an answered one exactly its own |
| `CustodyLocking.Ends` | crates/myownmesh-core/src/custody.rs:588-596 | returning and dying end a call without touching the file or the log |
| `CustodyRuns.StepKeepsInv` | crates/myownmesh-core/src/custody.rs:808-921 | every call keeps identities distinct and used, prepared records complete and committed records free of material |
| `CustodyRuns.InvAlong` | crates/myownmesh-core/src/custody.rs:808-921 | that invariant holds at every moment of every run |
| `CustodyRuns.OtherNetworksUntouched` | crates/myownmesh-core/src/custody.rs:828-921 | a call changes at most the record of the network it names |
| `CustodyRuns.StaleSettlementIsInert` | crates/myownmesh-core/src/custody.rs:879-902 | a settlement that does not name the installed identity and secret changes nothing and answers absent |
| `CustodyRuns.RecordFate` | crates/myownmesh-core/src/custody.rs:879-921 | every way one call can change an installed record: spent code, exact commit, exact abort, verified disable, and nothing else |
| `CustodyRuns.InstalledAtMostOnce` | crates/myownmesh-core/src/custody.rs:828-874 | each transaction id is installed at most once in any run |
| `CustodyRuns.NeverReturns` | crates/myownmesh-core/src/custody.rs:828-921 | an identity that is no longer installed never comes back, on any network |
| `CustodyRuns.SameIdentitySameSecret` | crates/myownmesh-core/src/custody.rs:828-921 | while an identity stays installed its secret is fixed, its material is fixed while prepared, and its phase only moves forward |
| `CustodyRuns.HeldBetween` | crates/myownmesh-core/src/custody.rs:828-921 | an identity installed at two moments is installed at every moment between |
| `CustodyRuns.PreparedLeavesOnlyExplicitly` | crates/myownmesh-core/src/custody.rs:879-921 | a prepared record that is gone was aborted by its exact identity and secret, or committed by them and then removed by a disable whose code verified |
| `CustodyRuns.CommittedUntilDisabled` | crates/myownmesh-core/src/custody.rs:1103-1133 | a committed record is gone exactly when a verified disable removed it |
| `CustodyRuns.CreatedHandleIsGenuine` | crates/myownmesh-core/src/custody.rs:828-874 | a handle returned at creation names its record's secret for as long as the record exists |
| `CustodyRuns.SettlersAgree` | crates/myownmesh-core/src/custody.rs:879-921 | from the first settlement on, every settlement of a handle answers the same, unless a verified disable came between |
| `CustodyRuns.QueryAgreesWithSettlers` | crates/myownmesh-core/src/custody.rs:1003-1024 | the transaction query then reports what the settlers were told |
| `CustodyRuns.SettledState` | crates/myownmesh-core/src/custody.rs:879-921 | what a settlement answered describes the store at every later moment |
| `CustodyRuns.RedeliversTheSame` | crates/myownmesh-core/src/custody.rs:808-874 | while a record stays prepared every prepare, whatever account it passes, and every query return the handle issued at creation, exactly when the recorded account is not empty |
| `CustodyRuns.DeliveredMeansPrepared` | crates/myownmesh-core/src/custody.rs:965-1024 | material is handed out only for a record that is prepared |
| `CustodyRuns.NothingDeliveredAfterCommit` | crates/myownmesh-core/src/custody.rs:903-914 | after commit no call hands out an identity's material again, on any network |
| `CustodyRuns.RecoveryCodesConserved` | crates/myownmesh-core/src/custody.rs:1085-1101 | between any two moments of one enrollment the recovery hashes that remain and those spent by gates make up those there were |
| `CustodyRuns.EachCodeAtMostItsMultiplicity` | crates/myownmesh-core/src/custody.rs:839-862 | from installation on no hash is spent more often than it was issued |
| `CustodyRuns.SpentHashIsTyped` | crates/myownmesh-core/src/custody.rs:1060-1083 | what a gate spends is the hash of the code that was typed |
| `CustodyRuns.GateWritesOnlyToConsume` | crates/myownmesh-core/src/custody.rs:1085-1101 | a gate changes the store exactly when it consumes a recovery code, and admits exactly when there is no lock or the code is not refused |
| `CustodyRuns.Serve` | crates/myownmesh-core/src/custody.rs:808-1133 | every call, answered by its entry point, does to the map and answers what the atomic machine says |
| `CustodyRuns.ServeAll` | crates/myownmesh-core/src/custody.rs:808-1133 | any calls answered one after another by the entry points are a run of the atomic machine with those calls and answers, so the run theorems are about them |
| `CustodyStore.Position` | crates/myownmesh-core/src/custody.rs:1060-1083 | the first matching recovery hash, or none exactly when there is none |
| `CustodyStore.CustodyFile.CreateProvisionalEnroll` | crates/myownmesh-core/src/custody.rs:828-874 | new map, answer and whether it wrote are those of an install in the atomic machine, which `CustodyAnswers.EnrollAnswers` and `HandleIs` spell out |
| `CustodyStore.CustodyFile.PrepareOrRecover` | crates/myownmesh-core/src/custody.rs:808-826 | new map and answer are those of a prepare in the atomic machine, which the same two spell out |
| `CustodyStore.CustodyFile.SettleExact` | crates/myownmesh-core/src/custody.rs:879-921 | new map and answer are those of a settlement in the atomic machine, which `CustodyAnswers.SettleAnswers` spells out |
| `CustodyStore.CustodyFile.RequireAt` | crates/myownmesh-core/src/custody.rs:1085-1101 | new map and answer are those of a gate in the atomic machine, which `CustodyAnswers.GateAnswers` spells out |
| `CustodyStore.CustodyFile.DisableAt` | crates/myownmesh-core/src/custody.rs:1103-1133 | new map and answer are those of a disable in the atomic machine, which `CustodyAnswers.DisableAnswers` spells out |
| `CustodyStore.CustodyFile.TransactionAt` | crates/myownmesh-core/src/custody.rs:1003-1024 | the answer is that of a query in the atomic machine, which `CustodyAnswers.QueryAnswers` spells out, and the map stays as it is |
| `CustodyAnswers.GateAnswers` | crates/myownmesh-core/src/custody.rs:1060-1101 | a gate without a record is open; with one it admits the code of this step of thirty seconds, the next or the one before and changes nothing, admits the code of a remaining recovery hash and takes the first copy of that hash and nothing else, and refuses a missing code, an undecodable secret and any other code each for its own reason |
| `CustodyAnswers.AdmittedExactly` | crates/myownmesh-core/src/custody.rs:1060-1101 | for a typed code and a readable secret: admitted unchanged exactly for the three steps, admitted at the cost of a hash exactly for another code whose hash remains, refused exactly otherwise |
| `CustodyAnswers.ShownCodeIsAdmitted` | crates/myownmesh-core/src/custody.rs:1165-1179 | a code shown at most thirty seconds ago opens the gate, whatever white space surrounds it, and spends nothing |
| `CustodyAnswers.CodeAdmitsExactly` | crates/myownmesh-core/src/custody.rs:1085-1101 | at any later moment of a run a recovery code that is not current is admitted exactly when its hash has been spent less often than it was issued |
| `CustodyAnswers.DisableAnswers` | crates/myownmesh-core/src/custody.rs:1103-1133 | a disable answers that the network is free exactly when no record is there afterwards; it refuses a prepared record, takes the codes a gate takes, removes the record and nothing else, and refuses any other code for its own reason |
| `CustodyAnswers.VerdictIs` | crates/myownmesh-core/src/custody.rs:1060-1083 | what a typed code is worth against a record, from the three steps and the remaining hashes alone |
| `CustodyAnswers.NormalizeIs` | crates/myownmesh-core/src/custody.rs:1229-1238 | a recovery code is read character by character: letters without case, digits, nothing else |
| `CustodyAnswers.EnrollAnswers` | crates/myownmesh-core/src/custody.rs:808-874 | material is fresh exactly on a network without a record, and the record then holds the drawn secret, identity, codes and process, the account, the time and the hashes of the codes; elsewhere nothing changes, and an install, or a prepare over a committed record, is refused |
| `CustodyAnswers.HandleIs` | crates/myownmesh-core/src/custody.rs:965-1024 | whatever hands material out hands out the network, identity, secret and codes of the record as it stands, and a URI from which secret, account, issuer, algorithm, digits and period are read back |
| `CustodyAnswers.HandleIsAsCreated` | crates/myownmesh-core/src/custody.rs:843-874 | in a run, what is handed out under an identity, at once or later, is the secret, codes and account of its creation, and the codes are those whose hashes were installed |
| `CustodyAnswers.RecordKept` | crates/myownmesh-core/src/custody.rs:903-914 | while an identity stays installed its creation time stays, and while it stays prepared nothing of its record changes but spent hashes |
| `CustodyAnswers.SettleAnswers` | crates/myownmesh-core/src/custody.rs:879-921 | which settlements commit, abort or do nothing, their answers, and the fields a commit clears |
| `CustodyAnswers.QueryAnswers` | crates/myownmesh-core/src/custody.rs:1003-1024 | a query changes nothing and tells the phase of the record of that identity, absence, or that a prepared record's account is empty |
| `Totp.Offset` | crates/myownmesh-core/src/custody.rs:1139-1150 | the four octets truncation reads lie inside every 20-byte digest |
| `Totp.TruncateIsBigEndian` | crates/myownmesh-core/src/custody.rs:1139-1150 | truncation is the big-endian number of those octets without its top bit |
| `Totp.Hotp` | crates/myownmesh-core/src/custody.rs:1139-1150 | every code is below one million |
| `Totp.HotpIsRest` | crates/myownmesh-core/src/custody.rs:1139-1150 | the code is the rest, after taking millions away, of the big-endian number in the four octets the low half of the last octet points at, less the top bit |
| `Totp.CodeIsLastDigits` | crates/myownmesh-core/src/custody.rs:1139-1163 | the code shown is the last six decimal digits of that number |
| `Totp.TrimIs` | crates/myownmesh-core/src/custody.rs:1165-1179 | trimming takes white space off both ends and nothing else |
| `Totp.PaddingIsABijection` | crates/myownmesh-core/src/custody.rs:1157-1163 | six-digit padding is a bijection between the code space and the six-digit strings |
| `Totp.ConstantEq` | crates/myownmesh-core/src/custody.rs:1240-1249 | the accumulating comparison is equality of byte strings |
| `Totp.VerifyTotpAt` | crates/myownmesh-core/src/custody.rs:1165-1179 | a code is accepted exactly when, trimmed, it is the code of the step before, the current step or the step after, never below step zero |
| `Totp.AcceptedWithinAPeriod` | crates/myownmesh-core/src/custody.rs:1165-1179 | a code shown at one moment is accepted at every moment at most 30 seconds away |
| `Otpauth.PercentEncode` | crates/myownmesh-core/src/custody.rs:1193-1205 | the output holds only unreserved characters and percent triplets and decodes to the input |
| `Otpauth.PctRoundTrip` | crates/myownmesh-core/src/custody.rs:1193-1205 | decoding undoes encoding for every byte string |
| `Otpauth.EncodedAvoids` | crates/myownmesh-core/src/custody.rs:1193-1205 | encoded text holds no character that separates the parts of the URI |
| `Otpauth.UnreservedStay` | crates/myownmesh-core/src/custody.rs:1193-1205 | unreserved characters are encoded as themselves |
| `Otpauth.UriRoundTrip` | crates/myownmesh-core/src/custody.rs:1181-1187 | kind, both issuers, account, base32 secret, algorithm, six digits and thirty seconds are read back from the provisioning URI by an independent reader |
| `StoragePlanner.CheckedStorageEnvelope` | crates/myownmesh-core/src/config.rs:1504-1632 | the checked planner accepts exactly when page, dimensions, threshold, log ceiling and total are acceptable over unbounded integers, and each field of what it returns is the stated sum or product; the growth recheck never fires |
| `StoragePlanner.FitsIs` | crates/myownmesh-core/src/config.rs:1504-1632 | a plan fits exactly when the page has at least twelve bytes, all seventeen dimensions are positive and within limits, the threshold is the retained log, the hard log is within its ceiling, and main file, journal, log, index and reserve together are within theirs |
| `StoragePlanner.ExactIsSpelledOut` | crates/myownmesh-core/src/config.rs:1599-1632 | every field of the exact envelope, the index as the least number of chunks that covers the frames and the total as the sum of its five parts |
| `StoragePlanner.TreePagesAre` | crates/myownmesh-core/src/config.rs:1372-1392 | a tree's pages are the least leaves that hold its records, the least interior pages that point to all leaves but one, the least overflow pages that hold the payload, and a root |
| `StoragePlanner.SumsAre` | crates/myownmesh-core/src/config.rs:1463-1494 | pages add up tree by tree, an index counting the bytes of one key per row |
| `StoragePlanner.TreesAre` | crates/myownmesh-core/src/config.rs:1409-1498 | rows and bytes of each of the ten tables and six indexes |
| `StoragePlanner.PagesAre` | crates/myownmesh-core/src/config.rs:1409-1499 | the page count is the first page, those sixteen trees, and the pages a transaction, the free list and fragmentation may hold |
| `StoragePlanner.CheckedSchemaPages` | crates/myownmesh-core/src/config.rs:1347-1499 | the checked page count is exact whenever it answers, and answers whenever the main file's bytes are representable |
| `StoragePlanner.AddTables` | crates/myownmesh-core/src/config.rs:1347-1499 | the loop over the tables adds their exact page counts, and overflows only where the file would |
| `StoragePlanner.AddIndexes` | crates/myownmesh-core/src/config.rs:1347-1499 | the loops over the indexes do the same with key bytes multiplied out |
| `StoragePlanner.CheckedWal` | crates/myownmesh-core/src/config.rs:1553-1611 | the log is accepted exactly when the threshold is the exact retained size and the hard size is within its ceiling |
| `StoragePlanner.CheckedSizes` | crates/myownmesh-core/src/config.rs:1599-1632 | for an accepted log the rest of the plan is accepted exactly when the exact total is within the database ceiling, with exact sizes |
| `StoragePlanner.CheckedTreeIsExact` | crates/myownmesh-core/src/config.rs:1372-1392 | one tree's checked page count is exact, refuses pages below twelve bytes, and answers when its parts are representable |
| `StoragePlanner.CapacitiesAreExact` | crates/myownmesh-core/src/config.rs:1372-1392 | the same for any leaf, interior and overflow capacities |
| `StoragePlanner.CheckedTablesAreExact` | crates/myownmesh-core/src/config.rs:1409-1470 | the checked rows and payload bytes of the ten tables are exact |
| `StoragePlanner.TreeFits` | crates/myownmesh-core/src/config.rs:1372-1392 | every tree of a representable file is computed without overflow |
| `StoragePlanner.CheckedShmIsExact` | crates/myownmesh-core/src/config.rs:1309-1323 | the checked index size answers exactly when the exact one is representable, and is it |
| `StoragePlanner.ShmChunks` | crates/myownmesh-core/src/config.rs:1309-1323 | the chunk count is the least whose capacity covers the frames |
| `StoragePlanner.WalSizes` | crates/myownmesh-core/src/config.rs:1553-1611 | the hard log size is the retained size plus one transaction's growth |
| `StoragePlanner.SmallerWorkloadStillFits` | crates/myownmesh-core/src/config.rs:1504-1632 | shrinking any dimension but the retained frame count keeps an accepted plan accepted with no field larger |
| `StoragePlanner.SchemaPagesMono` | crates/myownmesh-core/src/config.rs:1347-1499 | the page count grows with every dimension |
| `StoragePlanner.MainCoversBudgets` | crates/myownmesh-core/src/config.rs:1409-1498 | the main file covers all fact, proof and checkpoint byte budgets |
| `ConfigTransaction.RunsSerially` | crates/myownmesh-core/src/config.rs:2914-2949 | after any interleaving of saves and transactions with crashes and protected foreign writes, the file is its logged effects replayed one after another, and the replacements in the log are exactly the calls that succeeded or died after replacing, each once and in lock order |
| `ConfigTransaction.FileIsReplayed` | crates/myownmesh-core/src/config.rs:2932-2949 | along every protected run the file is the replay of the log: each logged replacement is its call applied to the very file the effects before it left |
| `ConfigTransaction.ApplyIs` | crates/myownmesh-core/src/config.rs:2477-2497 | what one logged effect leaves of a file: a save its configuration, a transaction the mutation of what the file parses as or of the defaults, or the file where the mutation refuses, a foreign write its bytes, a quarantine nothing |
| `ConfigTransaction.StoresInLockOrder` | crates/myownmesh-core/src/config.rs:275-303 | in every run a call is among the logged replacements exactly when it succeeded or died after replacing; each is there once, in the order the lease was granted |
| `ConfigTransaction.NextKeepsGranted` | crates/myownmesh-core/src/config.rs:275-303 | every step keeps that whoever holds the lease or has replaced the file was granted the lease |
| `ConfigTransaction.ConfigsEvolve` | crates/myownmesh-core/src/config.rs:2477-2497 | read as configurations, the replay is the successful mutations and saves composed |
| `ConfigTransaction.NextKeepsLeased` | crates/myownmesh-core/src/config.rs:270-303 | every step keeps the lease with exactly the call between acquiring and releasing it |
| `ConfigForeign.HonestExactly` | crates/myownmesh-core/src/config.rs:2477-2486 | over every run from a transaction's read to its passed recheck: it passes with the mutation of what it read; no foreign write was displaced exactly when no quarantine followed one; what it read is still the file exactly when a valid file was not found absent at the existence test; and what it passes with is the mutation of the file as it now stands unless the file was found absent and the call makes something else of an absent file |
| `ConfigForeign.RunsSeriallyExactly` | crates/myownmesh-core/src/config.rs:2914-2949 | over any run from the start the file is the replay of the log at every moment exactly when every replacing transaction makes the same of the file it replaces as of the one it read |
| `ConfigForeign.SerialRunsExactly` | crates/myownmesh-core/src/config.rs:2914-2949 | the same from any moment of a run |
| `ConfigForeign.SerialExactly` | crates/myownmesh-core/src/config.rs:2938-2947 | from a transaction's read to its replacement, through any run, the replacement leaves its call applied to the file it replaces exactly when the call makes the same of that file as of the one it read |
| `ConfigForeign.CarriesAlong` | crates/myownmesh-core/src/config.rs:2938-2947 | until it replaces the file a transaction carries what it read, whatever happens meanwhile |
| `ConfigForeign.RecheckSinceRead` | crates/myownmesh-core/src/config.rs:2938-2946 | the recheck after a whole load fails, and leaves the file alone, exactly when the file is not the baseline; unless a quarantine followed a foreign write the file is what the last one left |
| `ConfigForeign.DisplacedExactly` | crates/myownmesh-core/src/config.rs:2442-2464 | up to the recheck only a rename after a foreign write ever displaces one |
| `ConfigForeign.AsideIsLogged` | crates/myownmesh-core/src/config.rs:2442-2464 | such a rename is exactly a quarantine after a foreign write in the log |
| `ConfigForeign.FollowsAlong` | crates/myownmesh-core/src/config.rs:2477-2486 | from read to recheck the call carries the configuration it read and, as baseline, those bytes or absence as the existence test found |
| `ConfigForeign.FileWhileWaiting` | crates/myownmesh-core/src/config.rs:2932-2949 | between a call's load and its recheck only foreign writes change the file |
| `ConfigForeign.ForeignChangeFails` | crates/myownmesh-core/src/config.rs:2938-2946 | from the end of the load the recheck passes exactly when the last foreign bytes are the baseline, and otherwise the transaction fails and leaves them in place |
| `ConfigForeign.OverwrittenAfterRecheck` | crates/myownmesh-core/src/config.rs:2941-2947 | whatever is written between recheck and replacement is overwritten; the result is what the transaction would have made of it exactly when it makes the same of it as of the rechecked file or, where its mutation refuses it, when it already is what is written |
| `ConfigForeign.FileWhileChecked` | crates/myownmesh-core/src/config.rs:2941-2947 | between recheck and replacement only foreign writes change the file |
| `ConfigForeign.RepairSetAside` | crates/myownmesh-core/src/config.rs:2449-2462 | the run in which a corrupt file is repaired between read and rename: the repair is quarantined, the defaults are mutated in its place, and the call succeeds |
| `ConfigForeign.DeletionUndone` | crates/myownmesh-core/src/config.rs:2477-2486 | the run in which a valid file is deleted between read and existence test: its configuration is mutated and saved, and the call succeeds |
| `ConfigTransaction.ConfigFile.LoadLocked` | crates/myownmesh-core/src/config.rs:2442-2486 | among foreign writes after its read and after its parse, a load answers exactly when the bytes read were loadable, with what they stood for and, as baseline, those bytes or absence as tested at the end; a corrupt read moves whatever stands there by then; a load without answer leaves the file as it was or, refusing a version, as the foreign writer left it |
| `ConfigTransaction.ConfigFile.SaveLocked` | crates/myownmesh-core/src/config.rs:2488-2497 | a save replaces the file with the rendered configuration or leaves it |
| `ConfigTransaction.ConfigFile.TransactionAt` | crates/myownmesh-core/src/config.rs:2932-2949 | among foreign writes at four moments, a transaction succeeds exactly when nothing fails, the bytes read were loadable, the mutation accepts them and the file at the recheck is the baseline, leaving exactly the rendered mutation of what it read; every failure leaves the file as the load and the foreign writers left it |
| `ConfigAlone.AloneIsSequential` | crates/myownmesh-core/src/config.rs:2932-2949 | one transaction run alone through the steps of the concurrent form, with those foreign writes and any failures, ends with the answer and the file of the sequential form |
| `ConfigAlone.Transact` | crates/myownmesh-core/src/config.rs:2932-2949 | the sequential method is a run of the concurrent form |
| `RustLexer.ReadAtom` | scripts/verify-v4-cutover.py:152-202 | every atom is nonempty and inside the text, line comments end before a newline and block comments with a slash |
| `RustLexer.LexTiles` | scripts/verify-v4-cutover.py:172-202 | the lexer ends on every text and tiles all of it with the atoms standing at their starts, unless it refuses |
| `RustLexer.TilesInOrder` | scripts/verify-v4-cutover.py:172-202 | units are in order and do not overlap |
| `RustAtoms.AtomIs` | scripts/verify-v4-cutover.py:152-202 | every atom is the first alternative of the pattern that stands at its place, and reaches exactly as far as that alternative does; a text is refused exactly for a block comment or raw string that reaches no end |
| `RustAtoms.BlockEndIs` | scripts/verify-v4-cutover.py:177-189 | a block comment ends exactly where the openers and closers read from its start first balance |
| `RustAtoms.StringBodyIs` | scripts/verify-v4-cutover.py:154 | a string ends with its first quote after an even number of backslashes, or not at all |
| `RustAtoms.RawOpenerIs` | scripts/verify-v4-cutover.py:153 | a raw string opens with r, br or cr, at most 255 hashes and a quote |
| `RustAtoms.CharBodyIs` | scripts/verify-v4-cutover.py:155 | a character literal holds one character, or a backslash and one character, two hexadecimal digits after an x, or one or more in braces after a u |
| `RustAtoms.FindIs` | scripts/verify-v4-cutover.py:193-198 | the terminator found is the first one |
| `RustItems.HasTestArgument` | scripts/verify-v4-cutover.py:219-227 | splitting at top-level commas finds `test` exactly when it is a whole top-level argument |
| `RustItems.IsTestOnly` | scripts/verify-v4-cutover.py:217-227 | a condition is test-only exactly when it is `test` or an `all` with `test` as a direct conjunct |
| `RustItems.FindEnclosing` | scripts/verify-v4-cutover.py:254-263 | the backward scan gives the opener its specification finds, which `RustShortest.EnclosingIs` characterises |
| `RustItems.FindItemEnd` | scripts/verify-v4-cutover.py:236-273 | the delimiter-stack scan ends where its specification does, which `RustShortest.ItemScanIs` characterises, for the same reason |
| `RustItems.FindCloseParen` | scripts/verify-v4-cutover.py:210-214 | the counting loop stops where its specification does, which `RustShortest.CloseParenIs` characterises |
| `RustItems.FindItem` | scripts/verify-v4-cutover.py:206-278 | one turn of the second pass skips, masks or refuses what its specification says, which `RustShortest.FoundIs` characterises |
| `RustItems.ItemAt` | scripts/verify-v4-cutover.py:207-278 | a masked item starts at its attribute and ends with a closer, semicolon or comma, or before an enclosing closer |
| `RustItems.ClassifyIs` | scripts/verify-v4-cutover.py:204-279 | each class of token is one spelling |
| `RustShortest.EnclosingIs` | scripts/verify-v4-cutover.py:254-263 | in any source the backward scan finds an opener exactly when it is the innermost one open there |
| `RustShortest.ItemScanIs` | scripts/verify-v4-cutover.py:236-276 | in any source the scan ends an item at its first semicolon or comma with nothing open, at the first closer of a body opened with nothing open, or before the enclosing closer if that comes first; reports it unbalanced at another closer that closes nothing of it, and unterminated where none of these comes |
| `RustShortest.EndIsUnique` | scripts/verify-v4-cutover.py:236-276 | an item has only one such end |
| `RustShortest.CloseParenIs` | scripts/verify-v4-cutover.py:210-216 | the parenthesis count stops at the first parenthesis that closes the attribute's own, and runs out exactly where there is none |
| `RustShortest.FoundIs` | scripts/verify-v4-cutover.py:207-278 | one turn of the second pass masks from a test-only attribute to that end, skips a whole attribute that is not test-only or one token, and refuses an attribute that is not closed or an item without an end |
| `RustShortest.MaskedAreItems` | scripts/verify-v4-cutover.py:204-279 | everything masked is a test-only attribute with its item |
| `RustShortest.TestsAreMasked` | scripts/verify-v4-cutover.py:204-279 | every test-only attribute is masked, unless it stands inside an attribute that is not test-only |
| `RustShortest.RefusedFor` | scripts/verify-v4-cutover.py:204-279 | a refusal names what stands at some token |
| `RustShortest.MaskedItemIsShortest` | scripts/verify-v4-cutover.py:231-276 | in a nested source a masked item ends at the first separator or body end with exactly the delimiters open that were open before its attribute, or before the closer of the innermost of those: no shorter end exists |
| `RustShortest.UnterminatedExactly` | scripts/verify-v4-cutover.py:236-276 | in a nested source an item is refused as unterminated exactly when no such end exists |
| `RustShortest.TestOnlyIs` | scripts/verify-v4-cutover.py:217-227 | a condition is test-only exactly when it is `test`, or `all` around a list in which `test` stands between commas or ends with balanced parentheses before it |
| `RustNesting.EnclosingIsInnermost` | scripts/verify-v4-cutover.py:254-263 | in a readable prefix the backward scan finds the innermost delimiter still open |
| `RustNesting.CloseParenMatches` | scripts/verify-v4-cutover.py:210-216 | in a nested source the parenthesis count stops at the parenthesis that matches the attribute's own |
| `RustNesting.AttributeNests` | scripts/verify-v4-cutover.py:207-216 | a cfg attribute of a nested source is closed, and leaves open what was open before it |
| `RustNesting.ItemNests` | scripts/verify-v4-cutover.py:236-273 | in a nested source the item scan never reports an unbalanced item and stops with what was open before it |
| `RustNesting.MaskedItemIsNested` | scripts/verify-v4-cutover.py:207-278 | an item masked in a nested source is itself nested |
| `RustNesting.MaskedItemsAreNested` | scripts/verify-v4-cutover.py:204-279 | so are all of them, and the unbalanced-item refusal is unreachable: an enclosing closer is never masked |
| `RustNesting.ItemsInOrder` | scripts/verify-v4-cutover.py:204-279 | masked items are in order and do not overlap |
| `RustNesting.SurvivorsAreNested` | scripts/verify-v4-cutover.py:204-279 | what remains of a nested token list after masking is nested |
| `RustMasker.Blank` | scripts/verify-v4-cutover.py:167-170 | blanking one range in place adds that range to the mask and keeps newlines |
| `RustMasker.SkipBlockComment` | scripts/verify-v4-cutover.py:177-187 | the depth loop ends a nested block comment where its specification does, or reports it open |
| `RustMasker.LexAndBlank` | scripts/verify-v4-cutover.py:172-202 | the first pass collects exactly the tokens and blanks exactly the comments, or refuses at the right offset |
| `RustMasker.BlankItems` | scripts/verify-v4-cutover.py:204-278 | the second pass blanks exactly the test-only items on top of the comments, or refuses at the right token |
| `RustMasker.ProductionRustText` | scripts/verify-v4-cutover.py:144-279 | the whole pass returns the text with exactly its mask blanked, or the refusal |
| `RustMasker.NestedSourceStaysNested` | scripts/verify-v4-cutover.py:144-279 | a source with nested delimiters is never refused as unbalanced, and the tokens that survive its masking are nested |
| `RustRelex.RelexesToSurvivors` | scripts/verify-v4-cutover.py:144-279 | lexing the production text again yields exactly the tokens that survive the mask, each where it was and with its text: masking joins and splits no tokens and opens no string or comment |
| `RustRelex.NestedProductionText` | scripts/verify-v4-cutover.py:144-279 | the production text of a nested source is itself a nested source |
| `RustRelex.RelexFrom` | scripts/verify-v4-cutover.py:172-202 | the same from any unit on, for any cover that takes units whole, comments among them, with clean edges |
| `RustRelex.TokenStays` | scripts/verify-v4-cutover.py:152-202 | an uncovered token is read as the same atom in the veiled text, whatever is covered after it |
| `RustRelex.BodyStaysOpen` | scripts/verify-v4-cutover.py:154-156 | a string that is not closed in the original is not closed by blanking |
| `RustLiterals.LiteralsDoNotMatter` | scripts/verify-v4-cutover.py:147-150 | rewriting the inside of literals, with every unit in place, changes neither the mask nor the refusal |
| `MarkerSearch.FindMarkers` | scripts/verify-v4-cutover.py:117-131 | the markers found are exactly the listed ones that are present, in order; identifiers count as whole tokens |
| `MarkerSearch.MaskEdges` | scripts/verify-v4-cutover.py:144-279 | a masked range starts with a slash or hash and never cuts a word at its end |
| `MarkerSearch.MaskKeepsShape` | scripts/verify-v4-cutover.py:167-170 | masking keeps length and newlines, and every character is kept or, where covered, becomes a space |
| `MarkerSearch.FoundExactlyOutside` | scripts/verify-v4-cutover.py:117-131 | a marker stands at a place of the masked text exactly when it does in the original with none of it masked |
| `MarkerSearch.MarkersOutsideTheMask` | scripts/verify-v4-cutover.py:134-137 | searching the production text reports a marker exactly when some occurrence lies outside the mask |
| `ReleaseScan.ScanStream` | scripts/verify-release-artifact.py:66-81 | for every split into nonempty reads the scan fails exactly when some marker is part of the whole payload, and holds at most one read plus the longest marker less one, or no more than the payload where all markers are one byte long |
| `ReleaseScan.WindowSuffices` | scripts/verify-release-artifact.py:75-81 | a marker new to the text is in the window exactly when it is in everything read so far |
| `ReleaseScan.Longest` | scripts/verify-release-artifact.py:69 | the overlap is sized by a marker no other exceeds |
| `ReleaseGraph.CycleCheck.Visit` | scripts/verify-release-artifact.py:682-690 | a visit ends with the job and all it needs finished before it, or the graph has a cycle |
| `ReleaseGraph.CycleCheck.VisitAll` | scripts/verify-release-artifact.py:692-693 | the pass over all jobs completes exactly when no job transitively needs itself |
| `ReleaseGraph.ClosesCycle` | scripts/verify-release-artifact.py:684-685 | a job met again while still open closes a cycle |
| `ReleaseGraph.OrderedMeansAcyclic` | scripts/verify-release-artifact.py:688-693 | a complete finishing order rules every cycle out |
| `ReleaseGraph.DependsOn` | scripts/verify-release-artifact.py:700-711 | the worklist ends, and answers yes exactly when the prerequisite is reached by a nonempty path |
| `ReleaseGraph.VerifyWorkflowGraph` | scripts/verify-release-artifact.py:666-787 | the graph part of the workflow check passes exactly when no dependency is unknown, there is no cycle, and every release writer transitively needs `prepare-release` and `release-gates` |
| `Qualification.Validate` | scripts/run-graph-hub-qualification.py:487-562 | a manifest passes exactly when it has between one and 256 cells, distinct identities and selectors, dependencies only on earlier cells without repetition, and covers every required selector |
| `Qualification.RunCell` | scripts/run-graph-hub-qualification.py:727-833 | a cell stops the run exactly on a custody break or unknown outcome, with the one status that names which checkpoint broke and how, and its record tells how its process ended |
| `Qualification.TakeCell` | scripts/run-graph-hub-qualification.py:717-833 | one turn keeps the report faithful, or ends the run with the status that explains the break |
| `Qualification.RunCells` | scripts/run-graph-hub-qualification.py:715-847 | the report is a faithful prefix, nothing starts after a break, the exit code is 2 exactly on a break, whose status explains it, and 0 exactly when every cell passed with every checkpoint unchanged |
| `Qualification.OneReason` | scripts/run-graph-hub-qualification.py:727-833 | a break has one explanation at most |
| `Qualification.ReportSays` | scripts/run-graph-hub-qualification.py:717-833 | a cell is reported skipped exactly when a dependency did not pass, and otherwise passed, failed, unverifiable or unknown exactly as its process and the checkpoints after it say |
| `Qualification.RunQualification` | scripts/run-graph-hub-qualification.py:703-847 | without every named target nothing starts and the exit code is 1; otherwise the exit code is that of the loop |
| `Qualification.UnbrokenPasses` | scripts/run-graph-hub-qualification.py:717-847 | unbroken outcomes make every cell start and pass |
| `Qualification.CleanReport` | scripts/run-graph-hub-qualification.py:834-838 | a complete report without a break shows only passes exactly when every outcome was unbroken |
| `Qualification.AllDependenciesPassed` | scripts/run-graph-hub-qualification.py:719-725 | whatever a started cell depends on, at any distance, comes before it and passed |

## Left out

- HMAC-SHA1, SHA-256, base32 and random draws: given functions and fresh values.
- JSON reading and writing, version and shape checks of the custody file: a load either gives the map or fails.
- `flock`, `LockFileEx` and the disk: leases are exclusive locks released on death, and a replacement is atomic.
- `is_enrolled`: its last load takes no lock and turns errors into false, so it is not part of the locking model.
- `enroll` returning Ok: `ProvisionalEnrollment::commit` drops the settlement's answer; the statements are about `settle_exact_at`.
- `OwnerLease`, `prepared_enrollments` and the startup recovery pass: a lease that cannot be taken is a failed save; the passes only read.
- ConfigTransaction.RunsSerially: does not cover foreign writes after a recheck and deletions during a load, because the code does not notice them; `ConfigForeign.RunsSeriallyExactly` states exactly which of those runs are serial.
- ReleaseGraph.VerifyWorkflowGraph: does not model the checks of job bodies and of required jobs that stand between the graph checks.
- ConfigTransaction.NextKeepsLeased: process gate and file lease are one lock, and a poisoned gate is a failed acquisition.
- Qualification.Validate: does not model the type and range checks of single fields, which one reading settles.
- Qualification.RunCell: takes the outcome of a process and of each hash as given; building, capturing output and parsing test summaries are outside.
- MarkerSearch.MarkersOutsideTheMask: assumes markers without blanks and newlines, as all relay markers are.
- RustItems.IsTestOnly: speaks about token classes; error texts and line and column numbers are not modelled.
- RustShortest.MaskedItemIsShortest: holds of nested sources; of any other source `RustShortest.ItemScanIs` says where an item ends.
- Idempotence of the masker: it does not hold for odd token sequences, where removing one item brings the parts of another attribute together.
- The planner in `gui/src/network-settings.ts`: a different function despite its comment.
- The other policy validators, the resource plans and prepared loads of `config.rs`: flat conjunctions, or resting on code outside these files.
- Signalling, topology, semantic graph, gateway, GUI, end-to-end and benchmark scripts: input and output, or display.
