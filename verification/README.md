# Kontracts: a verified model

Kontracts is a Substrate pallet that stores wasm binaries under their hash and executes them in a
metered wasmtime host. Each binary owns a `Map<Vec<u8>, Vec<u8>>` on chain; whoever makes it grow
reserves one unit of balance per byte, and gets it back when it shrinks. This project models the
machine end to end in Dafny and proves what its parts promise each other.

| file | part |
|---|---|
| `Primitives.dfy`, `Sums.dfy`, `ByteOrder.dfy` | machine integers, sums over finite maps, the order of `Vec<u8>` keys |
| `Scale.dfy`, `StorageSize.dfy` | the SCALE codec (appendix A.2.2 of the Polkadot Protocol Specification) between pallet, host and guest, and the byte size of a storage |
| `Host.dfy`, `HostAnswers.dfy` | the host functions and the run of a guest, as functions on values and in place as the class `KontractStore`; what a guest gets for every call |
| `Metering.dfy`, `Budgets.dfy` | what fuel, read and write budgets mean, against a log of the guest without budgets |
| `PlainMap.dfy`, `RunSizes.dfy` | the run over the hashed store against the run over a plain map; sizes, keys and entry counts along a run |
| `Executor.dfy` | `execute_code` of the executor: bytes in, bytes or an error out |
| `PalletState.dfy`, `Pallet.dfy` | the pallet as a state machine on maps, and in place on encoded storage as the class `KontractsPallet` |
| `PalletMap.dfy`, `Ledger.dfy`, `Reach.dfy` | the promised maps; deposits, money, declarations; content addressing, isolation and bounds, over whole runs |
| `GuestApi.dfy`, `Collatz.dfy`, `CollatzRuns.dfy`, `Deletion.dfy` | the generated guest functions, and the Collatz and delete kontracts on top of everything |

How the pieces meet:

- A guest is an arbitrary deterministic program: any function from its control state and memory to its
  next action. Every statement about runs is for all guests, all budgets and all storages.
- An action costs `extra + 1` units of fuel, with `extra` chosen by the guest; so every host call costs
  at least one, and fuel is the termination measure of a run.
- A wasm trap is an error of the execution. A panic inside a host function (a `copy_from_slice` of
  different lengths, a slice out of range, an entry count the codec refuses) is neither result nor
  error: the dispatch ends with `Crash` and changes nothing.
- `i32` and `u32` arithmetic wraps around, as in a release build, and is shown not to where it matters.
- The state machine settles and commits maps. `KontractsPallet` encodes, calls the executor, measures,
  settles, decodes as bounded and commits, and refines the state machine; the codec round trips are
  what makes that true.
- `reserve` moves the exact amount or fails; `unreserve` moves at most what is reserved; `slash` takes
  free balance first, then the reserve, and burns it (existential deposit 0, as in the mock runtime).
- The hash is a parameter. Where its length matters it has 32 bytes (`Hashes32`); where collisions
  matter they are excluded on the keys of the run in question, never on all byte strings.

Where the code and its documentation differ, the model follows the code:

- README.md:110 says that an under-declaration is slashed by the real variation. A change that frees
  fewer bytes than declared (`expected < x < 0`) also reaches the last arm, and the amount is then
  `x as u32`, that is `2^32 + x` (`Ledger.DecidedByChange` for every call, `Deletion.DeleteTest` at an
  input: 47 bytes freed, 48 declared, all 100 units burned).
- `MaxKontracStorageSize` is documented as bytes; it bounds the number of entries
  (`StorageSize.EntriesNotBytes`).
- Deleting or replacing a code leaves its storage, and its deposit, in place (`Reach.ReuploadResumes`).
- `write_vec` checks the buffer size against the bare value, but writes one byte more
  (`GuestApi.BufferOverrun`), and only values below 64 bytes can be handed to a guest at all
  (`GuestApi.WriteVecOutcome`).
- A refund goes to the caller, from the caller's reserve, whoever paid the deposit; and a penalty may
  be taken out of a reserve. So the reserves do not always cover the stored bytes
  (`CollatzRuns.PenaltyUncoversBytes`): they lose ground exactly in a penalty above the caller's free
  balance (`Ledger.CoverageFallsExactly`), and cover everything in runs without one
  (`Ledger.ReservesCoverBytes`). `Ledger.ExactStep` is the exact condition under which a call keeps
  every owner's deposit exact.

## Model

| member | source | states |
|---|---|---|
| Scale.CompactRoundTrip | kontracs/pallets/kontracts/src/lib.rs:158-159 | Every length comes back from its compact prefix, in all four modes, whatever bytes follow; the prefix has 1, 2, 4 or 5 bytes |
| Scale.CompactCanonical | kontracs/pallets/kontracts/src/lib.rs:158-159 | The converse: bytes that decode as a length start with exactly the prefix the encoder writes |
| Scale.CompactLayout | kontracs/pallets/kontracts/src/lib.rs:158-159 | The four modes byte by byte: little-endian, four times the length plus the mode, in 1, 2 or 4 bytes, or the byte 3 before the length |
| Scale.VecRoundTrip | rust_kontract/kontracts-proc-macro/src/lib.rs:57 | An encoded byte vector decodes to itself, or to an error exactly when it is longer than its bound |
| Scale.VecLayout | rust_kontract/kontracts-proc-macro/src/lib.rs:57 | A vector is its compact length and then its own bytes; conversely, bytes that decode start with the encoding of what they decode to |
| Scale.U32RoundTrip | kontracs/pallets/kontracts/wasm_test/collantz_conjecture.rs:13-20 | Encoded `u32` values come back unchanged, whatever follows |
| Scale.IntegersAreLittleEndian | kontracs/pallets/kontracts/wasm_test/collantz_conjecture.rs:13-20 | Encoded integers are their little-endian bytes, against an independent reading of a byte string as a number |
| Scale.StoreRoundTrip | kontracs/pallets/kontracts/src/lib.rs:213-214 | Any encodable map decodes, under any bounds, to itself or to an error; an error exactly when a key, a value or the entry count is over bound |
| Scale.DecodableExactly | kontracs/pallets/kontracts/src/lib.rs:73-77 | The three bounds on a stored map are inclusive and each is enforced: an encoded map decodes if and only if all hold |
| Scale.LaterEntryWins | kontracs/kontracts-executor/src/lib.rs:193 | Any list of entries, with keys repeated and in any order, decodes in that order; of two with one key the later counts |
| Scale.BoundedUnboundedBounded | kontracs/pallets/kontracts/src/lib.rs:165-173 | Bounded to unbounded and back: the same map and the same bytes |
| Scale.EncodedInKeyOrder | kontracs/kontracts-executor/src/lib.rs:305 | The encoding is the one that lists the entries in strictly ascending key order |
| ByteOrder.Lexicographic | kontracs/kontracts-executor/src/lib.rs:305 | That order is the one of byte vectors: a proper prefix is below, otherwise the first differing byte decides, smaller first; nothing else is below |
| Scale.TwoEntries | kontracs/kontracts-executor/src/lib.rs:305 | Two entries byte by byte: count, then each key before its value, the lower key first |
| StorageSize.EncodedSize | kontracs/pallets/kontracts/src/lib.rs:156-161 | The encoded entries take exactly the sum of the entry sizes, for every map |
| StorageSize.MeasuredSize | kontracs/pallets/kontracts/src/lib.rs:156-161 | `get_storage_size` of an encoded map never panics and is that sum as an `i32` |
| StorageSize.HashedKeysSize | kontracs/pallets/kontracts/src/lib.rs:73-77 | With 32-byte keys a storage within bounds has at most `maxEntries` times (33 + encoded value) bytes |
| StorageSize.EntriesNotBytes | kontracs/pallets/kontracts/src/lib.rs:53-54 | A storage within its bounds with 34 times as many bytes as `MaxKontracStorageSize` says: the bound is on entries |
| Host.UpdateWithCheck | kontracs/kontracts-executor/src/lib.rs:29-39 | One more access is counted or refused with the trap of its kind, the counter then left alone |
| Host.KontractStore.KontractsSet | kontracs/kontracts-executor/src/lib.rs:43-61 | Within budget the value is put under the hashed key and one write counted, otherwise nothing changes |
| Host.KontractStore.KontractsGet | kontracs/kontracts-executor/src/lib.rs:63-77 | Within budget the entry under the hashed key, or none, and one read counted; otherwise nothing changes |
| Host.KontractStore.KontractsRemove | kontracs/kontracts-executor/src/lib.rs:79-90 | Within budget exactly the entry under the hashed key goes and one write is counted |
| Host.KontractStore.WriteMemory | kontracs/kontracts-executor/src/lib.rs:114-134 | The copy into guest memory replaces exactly `len + 1` bytes, or refuses, or panics, with the memory unchanged |
| Host.KontractStore.SetClosure | kontracs/kontracts-executor/src/lib.rs:206-228 | Both pointers are read before the write budget is checked |
| Host.KontractStore.GetClosure | kontracs/kontracts-executor/src/lib.rs:236-262 | The key is read, then the read budget checked, then the answer (empty for a missing key) written |
| Host.KontractStore.RemoveClosure | kontracs/kontracts-executor/src/lib.rs:269-278 | The pointer is read before the write budget is checked |
| HostAnswers.SetAnswers | kontracs/kontracts-executor/src/lib.rs:206-228 | Every outcome of `set` on pointers, memory and store: a pointer outside the memory traps and changes nothing, whatever the budgets; then an exhausted budget; otherwise the value's bytes are stored under the hash of the key's bytes and one write is counted |
| HostAnswers.GetAnswers | kontracs/kontracts-executor/src/lib.rs:236-262 | Every outcome of `get`: after the key pointer and the budget, a stored value longer than the buffer traps, one of 64 bytes or more or without room panics, any other lies in memory behind its length byte, and a missing one is the byte 0; no other byte changes |
| HostAnswers.RemoveAnswers | kontracs/kontracts-executor/src/lib.rs:269-278 | Every outcome of `remove`: the key pointer first, then the budget, then exactly the entry under the hash goes |
| Host.KontractStore.CallMain | kontracs/kontracts-executor/src/lib.rs:294-305 | The in-place run ends for every guest and agrees with the run on values, including the storage it leaves |
| Metering.CountersNeverWrap | kontracs/kontracts-executor/src/lib.rs:29-39 | At every instance a run passes through, both counters are within their maxima and together with the fuel left at most the fuel given; so an increment never wraps around, even for a maximum of `u32::MAX` |
| Metering.FirstFailure | kontracs/kontracts-executor/src/lib.rs:206-301 | The metered run ends at the earliest event of the unmetered log that fails by itself or brings a total over its budget, with that event's outcome |
| Budgets.FirstFailureNamesError | kontracs/kontracts-executor/src/lib.rs:294-305 | The returned error names the kind of that earliest event; storage is returned only if no event failed; a guest cannot fake a budget error |
| Budgets.EarlyErrors | kontracs/kontracts-executor/src/lib.rs:184-286 | A binary that is rejected, cannot be instantiated or has no `main` gets its own error under any budgets; a run fails only with a panic or a budget error |
| Budgets.BudgetErrorsAreEarned | kontracs/kontracts-executor/src/lib.rs:294-301 | A budget error implies that the guest was loaded and that its unmetered log brings the total of that very kind above the budget |
| Budgets.BudgetThreshold | kontracs/kontracts-executor/src/lib.rs:168-306 | A successful execution has exact needs: `execute_code` succeeds under any three budgets exactly when all are met, always with the same storage, and otherwise fails with a budget error |
| Reach.CallThreshold | README.md:38-44 | The same for a call: with its needs met, state and outcome are the same under any budgets; without, a budget error and no change |
| PlainMap.HashedStoreRefinesMap | kontracs/kontracts-executor/src/lib.rs:55-88 | Without collisions on the keys touched, the run of any guest over the hashed store ends as over a map keyed by raw bytes |
| PalletMap.StorageIsTheMap | README.md:25-27 | Over every run of the pallet, with penalties, missing deposits and refused commits in between, the storage of every kontract whose keys do not collide represents the plain map it has written |
| PalletMap.KontractsHaveTheirMaps | README.md:25-27 | The same for all kontracts at once, from empty storages |
| PlainMap.EmptyMeansMissing | kontracs/kontracts-executor/src/lib.rs:247-252 | No guest can tell a missing key from an empty value: whole runs agree, and leave storages that again read the same |
| RunSizes.SizeTelescopes | kontracs/pallets/kontracts/src/lib.rs:165-174 | The measured size difference is the sum of the changes of every `set` and `remove` of the run |
| RunSizes.RunKeepsShape | kontracs/kontracts-executor/src/lib.rs:55-88 | A run keeps keys at 32 bytes and adds at most one entry per write budgeted and per unit of fuel |
| Executor.ExecuteCode | kontracs/kontracts-executor/src/lib.rs:168-306 | Each early error and their order (binary, storage, instance, `main`), and otherwise the encoded result of the execution on the decoded map |
| Pallet.RunEncoded | kontracs/pallets/kontracts/src/lib.rs:165-173 | Encoding the bounded storage and decoding it in the host loses nothing; the measured size is that of the map |
| Pallet.DecodeStored | kontracs/pallets/kontracts/src/lib.rs:213-214 | The commit reads back exactly the host's map, or fails exactly when it is over bound |
| Pallet.KontractsPallet.SettleChange | kontracs/pallets/kontracts/src/lib.rs:183-209 | The arms of the match, in order, move the caller's balance and no other |
| Pallet.KontractsPallet.SettleAndCommit | kontracs/pallets/kontracts/src/lib.rs:174-223 | A penalty ends the call before the commit; a map over bound is an error after the settlement |
| Pallet.KontractsPallet.Execute | kontracs/pallets/kontracts/src/lib.rs:146-224 | `execute_code` on encoded storage has the outcome of the state machine, and its state when it succeeds |
| Pallet.KontractsPallet.Upload | kontracs/pallets/kontracts/src/lib.rs:125-138 | `upload_code` is the step of the state machine |
| Pallet.KontractsPallet.Delete | kontracs/pallets/kontracts/src/lib.rs:228-238 | `delete_code` is the step of the state machine |
| Pallet.KontractsPallet.Update | kontracs/pallets/kontracts/src/lib.rs:242-257 | `update_code` is the step of the state machine |
| Pallet.KontractsPallet.Dispatch | kontracs/pallets/kontracts/src/lib.rs:202-207 | Every extrinsic refines the state machine; an error at any stage, also after a deposit was moved, leaves codes, storages and balances as they were |
| Pallet.KontractsPallet.DispatchAll | kontracs/pallets/kontracts/src/lib.rs:120-258 | A sequence of dispatches on encoded storage is a run of the state machine |
| PalletState.RunKeepsBounds | kontracs/pallets/kontracts/src/lib.rs:73-85 | Every reachable storage is within the bounds of its type |
| Ledger.ExactDelta | kontracs/pallets/kontracts/src/lib.rs:183 | For all sizes, the wrapping `i32` difference is the true one exactly when that fits an `i32` |
| Ledger.CommittedChange | kontracs/pallets/kontracts/src/lib.rs:166-183 | Under bounds that keep storages below 2 GiB every committed change is measured exactly |
| Ledger.DecidedByChange | kontracs/pallets/kontracts/src/lib.rs:183-214 | What becomes of a completed run, by its change `x`: punished exactly when `x != 0` exceeds the declaration, by `x` or, for `x < 0`, `2^32 + x`; without deposit exactly when `x` exceeds the free balance; over bound; or settled by exactly `x` |
| Ledger.SufficientDeclarationsAgree | README.md:106-110 | Two runs: any two declarations at least as large as the change give the same state and outcome |
| Ledger.MoneyConserved | kontracs/pallets/kontracts/src/lib.rs:183-209 | Over every run, free plus reserved plus what penalties burned is constant |
| Ledger.StepConservesMoney | kontracs/pallets/kontracts/src/lib.rs:200-201 | Only a penalty reduces an account's free plus reserved, and only the caller's |
| Ledger.DepositsTrackBytes | kontracs/pallets/kontracts/src/lib.rs:165-215 | Over every run by any accounts, total reserve plus reserve seized minus refunds not found moves exactly with the stored bytes |
| Ledger.DepositCoverage | kontracs/pallets/kontracts/src/lib.rs:165-215 | From empty storages, reserves plus what penalties took out of them cover all stored bytes after every run |
| Ledger.CoverageFallsExactly | kontracs/pallets/kontracts/src/lib.rs:200-201 | The reserves lose ground to the stored bytes in a call if and only if it is a penalty above the caller's free balance and the caller has a reserve |
| Ledger.ReservesCoverBytes | kontracs/pallets/kontracts/src/lib.rs:165-215 | From empty storages, over every run without such a penalty, the reserves alone cover every stored byte |
| Ledger.ExactStep | kontracs/pallets/kontracts/src/lib.rs:183-215 | A call keeps every owner's reserve equal to its stored bytes if and only if a change of size is settled by the owner and a penalty does not reach a reserve |
| Ledger.ExactDepositsPerOwner | kontracs/pallets/kontracts/src/lib.rs:183-215 | Over every run of such calls each reserve is the exact byte count of the storages owned, and no refund finds less than it asks for |
| Reach.CodesAreContentAddressed | kontracs/pallets/kontracts/src/lib.rs:133-134 | After any run every code is stored under its own hash |
| Reach.OriginDecides | kontracs/pallets/kontracts/src/lib.rs:125-257 | Uploading succeeds if and only if the call is signed, deleting and replacing if and only if it is by root, whatever is stored; otherwise `BadOrigin` and no change. Managing codes never touches storages or balances, an execution never touches codes |
| Reach.CodesAfter | kontracs/pallets/kontracts/src/lib.rs:125-257 | The event and the code under every id after each such call: an upload sets the hash of the binary, a deletion clears the id, a replacement does both, the new code winning |
| Reach.UnusableCode | kontracs/pallets/kontracts/src/lib.rs:163-173 | An execution of an unknown id, or of code that cannot run, changes nothing and reports which of the four reasons it was |
| Reach.FirstFailureIsReported | kontracs/pallets/kontracts/src/lib.rs:170-173 | Otherwise the call reports the earliest event that ended the unmetered run of the guest over the stored map, and changes nothing; only a guest that returned within all budgets gets as far as the settlement |
| Reach.StorageIsIsolated | README.md:36-37 | Over any run without an execution of `id`, the storage of `id` does not change |
| Reach.ReuploadResumes | kontracs/pallets/kontracts/src/lib.rs:165 | A binary uploaded again after deletion or replacement runs on the storage it left, whatever happened in between |
| Reach.CommittedStorageInBounds | kontracs/pallets/kontracts/src/lib.rs:213-215 | In every reachable state keys have 32 bytes, values and entry counts are within bounds and sizes below the resulting maximum |
| Reach.ConfiguredBoundsFit | kontracs/runtime/src/lib.rs:284-286 | A map is within the configured bounds if and only if its entries, keys and values number at most 1,048,576, 512 and 1,024; a storage then has at most 1,048,576 times 1,059 bytes, below 2^31 |
| Reach.ResultIsEncodable | kontracs/kontracts-executor/src/lib.rs:305 | While entries and fuel together stay below 2^32, encoding the result cannot panic |
| Reach.ChargedForOwnChanges | kontracs/pallets/kontracts/src/lib.rs:174-197 | What a committed call is charged or refunded is the sum of the changes of its own `set` and `remove` calls |
| GuestApi.WriteVecOutcome | kontracs/kontracts-executor/src/lib.rs:125-131 | Refused exactly when the value is longer than the buffer; written exactly when it also has fewer than 64 bytes and room for `len + 1` |
| GuestApi.ValueRoundTrip | rust_kontract/kontracts-proc-macro/src/lib.rs:47-58 | A value of at most 63 bytes, shorter than the buffer, decodes from the buffer unchanged, and no byte outside the buffer changes |
| GuestApi.BufferOverrun | kontracs/kontracts-executor/src/lib.rs:125-129 | A write touches only `len + 1` bytes; these are the encoded value; it leaves the buffer exactly when the value is as long as the buffer, and then by its last byte |
| GuestApi.Read | rust_kontract/kontracts-proc-macro/src/lib.rs:47-58 | The generated `read` returns the value stored under the hash of the key if it has up to 63 bytes, the empty vector if there is none; 64 to 100 bytes panic, more trap; only the buffer and the read counter change |
| GuestApi.Write | rust_kontract/kontracts-proc-macro/src/lib.rs:36-45 | The generated `write` stores the value under the hash of the key and leaves all other entries, memory and fuel alone, or, with the write budget used up, changes nothing |
| GuestApi.Delete | rust_kontract/kontracts-proc-macro/src/lib.rs:60-67 | The generated `delete` removes exactly the entry of the key, which then reads as empty, or, with the write budget used up, changes nothing |
| GuestApi.ReadYourWrites | rust_kontract/kontracts-proc-macro/src/lib.rs:36-67 | A value below 64 bytes written under a key is read back from it, and a removed key reads as empty, whatever was stored before |
| Collatz.NextIsExact | kontracs/pallets/kontracts/wasm_test/collantz_conjecture.rs:15-18 | An even number is halved; an odd one gives `3 * val + 1` modulo 2^32, which is the mathematical value exactly when that fits a `u32` |
| Collatz.SeriesIsSmall | kontracs/pallets/kontracts/wasm_test/collantz_conjecture.rs:15-18 | From 5 the series never passes 16, so its `u32` arithmetic never wraps around |
| Collatz.CollatzMain | kontracs/pallets/kontracts/wasm_test/collantz_conjecture.rs:7-21 | `main` in its own form ends, for any fuel, budgets and storage, as the machine run does; it has then replaced the number by the next one, or stopped with the storage untouched |
| Collatz.RunAdvances | kontracs/pallets/kontracts/wasm_test/collantz_conjecture.rs:7-21 | With enough fuel and one read and write, for every memory layout and cost, that run replaces the one entry and nothing else |
| Collatz.RunNeedsFuel | kontracs/kontracts-executor/src/lib.rs:294-298 | With any less fuel than its actions cost, the run ends out of fuel: the cost is the exact need |
| CollatzRuns.FirstExecution | kontracs/pallets/kontracts/src/tests.rs:397-411 | The first execution stores 38 bytes and reserves exactly 38 from its caller |
| CollatzRuns.UnderdeclaredExecution | kontracs/pallets/kontracts/src/lib.rs:200-208 | Declared below 38, the call succeeds with `ExceededStorage`, nothing is stored and 38 is slashed |
| CollatzRuns.CollatzEndToEnd | kontracs/pallets/kontracts/src/tests.rs:383-422 | After any number of executions by any accounts the storage is the one entry with that number of the series, 38 bytes, reserved by the first caller; nothing else has changed |
| CollatzRuns.PenaltyUncoversBytes | kontracs/pallets/kontracts/src/lib.rs:200-201 | In any environment, an account that can pay for one execution but not for two leaves 38 bytes stored on a smaller deposit when it declares the second too low |
| CollatzRuns.UncoveredFromGenesis | kontracs/pallets/kontracts/src/lib.rs:200-201 | An instance: four calls from genesis after which 38 bytes are stored and nothing is reserved |
| Deletion.DeletionByDeclaration | kontracs/pallets/kontracts/src/lib.rs:186-208 | The delete kontract for every declaration: committed and refunded byte for byte if no more is declared freed than is freed, otherwise undone and `2^32` minus the bytes slashed |
| Deletion.DeleteTest | kontracs/pallets/kontracts/src/tests.rs:198-238 | The test's account: declaring -47 returns its 47 units, declaring -48 burns all 100 and keeps the 47 bytes stored |

## Left out

- Executor.Execute: a start section runs no guest code here; an instance whose start section traps is one that cannot be instantiated, and one whose start section calls the host is not modelled.
- Host.Run: fuel is charged action by action with costs the guest chooses; the points at which wasmtime looks at the fuel between two actions are not modelled.
- Host.KontractStore.CallMain: guest instructions are abstract; wasm validation and instruction semantics belong to wasmtime. Guest memory is a sequence the host replaces, so aliasing of memories is not captured.
- PalletMap.StorageIsTheMap: a change is charged by the bytes of the hashed keys, so whether a call is committed is decided on the hashed store; the plain maps follow that decision.
- PlainMap.HashedStoreRefinesMap: collisions of the hash are excluded on the keys of the run, since BLAKE2 itself is a parameter.
- PalletState.Slash: existential deposits, locks, account reaping and balance overflow of `pallet_balances` are not modelled.
- Ledger.DepositsTrackBytes: for bounds under which a storage could reach 2 GiB the `i32` sizes may wrap; the statement is for bounds that exclude this, as both configurations do.
- Collatz.CollatzMain: the allocator is represented by the addresses it returned, which do not overlap; allocation failure is not modelled.
- PalletState.Step: weights, fees and the length check of `code` arguments are not part of the step; the methods of the class take the length bound from the argument's type.
- Engine, linker and `add_fuel` failures: they cannot be caused by a call, and their error values appear only in the error type.
- The node, RPC, chain specification, benchmarks and runtime composition: only the numeric bounds of the runtime are used.
- The remaining kontracts under `wasm_test` (delete, read, write, panic, loop, empty): their behaviour is an instance of the statements for all guests.

The statements are machine-checked proofs; the program itself was not executed.
