/** What holds in every reachable state of the pallet: isolation, content addressing and bounds. */
module Reach {
  import opened Primitives
  import opened Scale
  import opened StorageSize
  import opened Host
  import opened Metering
  import opened Executor
  import opened PalletState
  import Budgets
  import Ledger
  import RunSizes

  // ---------- content addressing ----------

  ghost predicate ContentAddressed(env: Env, s: State) {
    forall id :: id in s.codes ==> env.hash(s.codes[id]) == id
  }

  lemma {:induction false} StepKeepsAddresses(env: Env, s: State, call: Call)
    requires ContentAddressed(env, s)
    ensures ContentAddressed(env, Step(env, s, call).0)
  {
    hide Judge;
  }

  /** Every code is stored under its own hash, after any run. */
  lemma {:induction false} CodesAreContentAddressed(env: Env, s: State, calls: seq<Call>)
    requires ContentAddressed(env, s)
    ensures ContentAddressed(env, RunCalls(env, s, calls))
    decreases |calls|
  {
    hide Step, ContentAddressed;
    if calls == [] {
    } else {
      StepKeepsAddresses(env, s, calls[0]);
      CodesAreContentAddressed(env, Step(env, s, calls[0]).0, calls[1..]);
    }
  }

  /**
   A call that manages codes succeeds if and only if its origin is the required one, whatever is
   stored, and otherwise fails with `BadOrigin` and changes nothing; no such call touches a storage or a
   balance. An execution fails with `BadOrigin` if and only if nobody signed it.
   */
  lemma {:induction false} OriginDecides(env: Env, s: State, call: Call)
    ensures var (s', outcome) := Step(env, s, call);
            match call
            case UploadCode(origin, _) =>
              && (outcome.Ok? <==> origin.Signed?) && (!origin.Signed? ==> s' == s && outcome == Err(BadOrigin))
              && s'.storages == s.storages && s'.accounts == s.accounts
            case ExecuteCode(origin, _, _, _, _, _) =>
              (outcome == Err(BadOrigin) <==> !origin.Signed?) && (!origin.Signed? ==> s' == s) && s'.codes == s.codes
            case DeleteCode(origin, _) =>
              && (outcome.Ok? <==> origin.Root?) && (!origin.Root? ==> s' == s && outcome == Err(BadOrigin))
              && s'.storages == s.storages && s'.accounts == s.accounts
            case UpdateCode(origin, _, _) =>
              && (outcome.Ok? <==> origin.Root?) && (!origin.Root? ==> s' == s && outcome == Err(BadOrigin))
              && s'.storages == s.storages && s'.accounts == s.accounts
  {
    hide Judge;
    if SignedExecution(call) {
      ExecutionsAreSigned(env, s, call);
    }
  }

  lemma {:induction false} ExecutionsAreSigned(env: Env, s: State, call: Call)
    requires SignedExecution(call)
    ensures Judge(env, s, call).Refused? ==> Judge(env, s, call).outcome != Err(BadOrigin) && !Judge(env, s, call).outcome.Ok?
  {
    hide ExecutionOf, SizeChange, Settle, Within, Apply;
  }

  /** The code under an id, if there is one. */
  function CodeAt(s: State, id: CodeId): Option<Bytes> {
    if id in s.codes then Some(s.codes[id]) else None
  }

  /**
   The codes after each call by the right origin: an upload puts the binary under its hash, a deletion
   empties the one id, and an update does both, the new code winning when it has the old id; every
   other id keeps what it had.
   */
  lemma {:induction false} CodesAfter(env: Env, s: State, who: AccountId, id: CodeId, code: Bytes, x: CodeId)
    ensures var (s', outcome) := Step(env, s, UploadCode(Signed(who), code));
            && outcome == Ok(NewCodeUploaded(env.hash(code), who))
            && CodeAt(s', x) == if x == env.hash(code) then Some(code) else CodeAt(s, x)
    ensures var (s', outcome) := Step(env, s, DeleteCode(Root, id));
            && outcome == Ok(CodeDeleted(id))
            && CodeAt(s', x) == if x == id then None else CodeAt(s, x)
    ensures var (s', outcome) := Step(env, s, UpdateCode(Root, id, code));
            && outcome == Ok(CodeUpgraded(id, env.hash(code)))
            && CodeAt(s', x) == if x == env.hash(code) then Some(code) else if x == id then None else CodeAt(s, x)
  {
  }

  /** Code that is not there cannot be executed. */
  lemma {:induction false} DeletedCodeIsRefused(env: Env, s: State, remove: Call, call: Call)
    requires remove.DeleteCode? && remove.origin.Root? && SignedExecution(call) && call.id == remove.id
    ensures Step(env, Step(env, s, remove).0, call).1 == Err(InvalidCodeId)
  {
  }

  // ---------- isolation ----------

  predicate Leaves(id: CodeId, call: Call) {
    SignedExecution(call) ==> call.id != id
  }

  /** Only the execution of a kontract writes its storage: uploads, deletions, updates and all other kontracts leave it alone. */
  lemma {:induction false} StorageIsIsolated(env: Env, s: State, calls: seq<Call>, id: CodeId)
    requires forall c :: c in calls ==> Leaves(id, c)
    ensures StorageOf(RunCalls(env, s, calls), id) == StorageOf(s, id)
    decreases |calls|
  {
    hide Step, Judge;
    if calls == [] {
    } else {
      StepStorages(env, s, calls[0]);
      assert Leaves(id, calls[0]);
      StorageIsIsolated(env, Step(env, s, calls[0]).0, calls[1..], id);
    }
  }

  /**
   A kontract that was deleted or replaced, with anything else happening in between, resumes from
   the storage it left as soon as the same binary is uploaded again.
   */
  lemma {:induction false} ReuploadResumes(env: Env, s: State, calls: seq<Call>, upload: Call, call: Call)
    requires upload.UploadCode? && upload.origin.Signed?
    requires SignedExecution(call) && call.id == env.hash(upload.code)
    requires forall c :: c in calls ==> Leaves(call.id, c)
    ensures var s' := Step(env, RunCalls(env, s, calls), upload).0;
            && call.id in s'.codes
            && ExecutionOf(env, s', call)
            == Execute(env.hash, env.load, upload.code, StorageOf(s, call.id), call.fuel, call.maxRead, call.maxWrite)
  {
    hide Execute;
    StorageIsIsolated(env, s, calls, call.id);
  }

  // ---------- bounds ----------

  /** The keys the host produces are hashes. */
  ghost predicate HashedKeys(m: Store) {
    forall k :: k in m ==> |k| == 32
  }

  ghost predicate StoragesHashed(s: State) {
    forall id :: id in s.storages ==> HashedKeys(s.storages[id])
  }

  lemma {:induction false} ExecutionKeepsKeys(env: Env, s: State, call: Call)
    requires SignedExecution(call) && call.id in s.codes && ExecutionOf(env, s, call).Done?
    requires Hashes32(env) && StoragesHashed(s) && StoragesBounded(env, s)
    ensures HashedKeys(ExecutionOf(env, s, call).storage)
  {
    hide Run;
    var guest := env.load(s.codes[call.id]).guest;
    var start := Start(guest, StorageOf(s, call.id), call.fuel, call.maxRead, call.maxWrite);
    RunSizes.RunKeepsShape(env.hash, guest.step, guest.control, start);
  }

  lemma {:induction false} StepKeepsKeys(env: Env, s: State, call: Call)
    requires Hashes32(env) && StoragesHashed(s) && StoragesBounded(env, s)
    ensures StoragesHashed(Step(env, s, call).0)
  {
    hide Step, HashedKeys;
    StepStorages(env, s, call);
    if SignedExecution(call) && Judge(env, s, call).Committed? {
      ExecutionKeepsKeys(env, s, call);
    }
  }

  /**
   In every reachable state every stored key has 32 bytes, values and entry counts are within their
   bounds, and so no storage is larger than `maxEntries` entries of 33 bytes plus an encoded value.
   */
  lemma {:induction false} CommittedStorageInBounds(env: Env, s: State, calls: seq<Call>)
    requires Hashes32(env) && StoragesHashed(s) && StoragesBounded(env, s)
    ensures var end := RunCalls(env, s, calls);
            && StoragesHashed(end) && StoragesBounded(env, end)
            && forall id :: id in end.storages ==>
                 SizeOf(end.storages[id])
                 <= env.limits.maxEntries * (33 + CompactLen(env.limits.maxValue) + env.limits.maxValue)
    decreases |calls|
  {
    hide Step, Within;
    if calls != [] {
      StepKeepsKeys(env, s, calls[0]);
      StepKeepsBounds(env, s, calls[0]);
      CommittedStorageInBounds(env, Step(env, s, calls[0]).0, calls[1..]);
    } else {
      forall id | id in s.storages
        ensures SizeOf(s.storages[id])
             <= env.limits.maxEntries * (33 + CompactLen(env.limits.maxValue) + env.limits.maxValue)
      {
        assert HashedKeys(s.storages[id]);
        HashedKeysSize(env.limits, s.storages[id]);
      }
    }
  }

  const RUNTIME_LIMITS := Limits(512, 1024, 1_048_576)
  const MOCK_LIMITS := Limits(512, 512, 1024)

  /** Under the bounds of the runtime, and of the mock, no storage size reaches the range where `i32` wraps. */
  lemma {:induction false} ConfiguredBoundsFit(m: Store)
    ensures FitsI32(RUNTIME_LIMITS) && FitsI32(MOCK_LIMITS)
    ensures Within(RUNTIME_LIMITS, m) <==> |m| <= 1_048_576 && forall k :: k in m ==> |k| <= 512 && |m[k]| <= 1024
    ensures Within(MOCK_LIMITS, m) <==> |m| <= 1024 && forall k :: k in m ==> |k| <= 512 && |m[k]| <= 512
    ensures Within(RUNTIME_LIMITS, m) && HashedKeys(m) ==> 0 <= SizeOf(m) <= 1_048_576 * 1_059 < 0x8000_0000
  {
    if Within(RUNTIME_LIMITS, m) && HashedKeys(m) {
      HashedKeysSize(RUNTIME_LIMITS, m);
    }
  }

  /** Encoding the result cannot overflow its entry count unless entries and fuel together pass `u32::MAX`. */
  lemma {:induction false} ResultIsEncodable(env: Env, code: Bytes, storage: Store, fuel: u32, maxRead: u32, maxWrite: u32)
    requires Hashes32(env) && RunSizes.HostProduced(storage) && |storage| + fuel <= U32_MAX
    requires Execute(env.hash, env.load, code, storage, fuel, maxRead, maxWrite).Crashed?
    ensures env.load(code).Loaded?
    ensures var guest := env.load(code).guest;
            Run(env.hash, guest.step, guest.control, Start(guest, storage, fuel, maxRead, maxWrite)).Aborted?
  {
    hide Run;
    var guest := env.load(code).guest;
    var start := Start(guest, storage, fuel, maxRead, maxWrite);
    if Run(env.hash, guest.step, guest.control, start).Completed? {
      RunSizes.RunKeepsShape(env.hash, guest.step, guest.control, start);
    }
  }

  // ---------- what a failed execution reports ----------

  /** A call that does not get as far as a run changes nothing and reports why. */
  lemma {:induction false} UnusableCode(env: Env, s: State, call: Call)
    requires SignedExecution(call)
    requires call.id in s.codes ==> !env.load(s.codes[call.id]).Loaded?
    ensures Step(env, s, call) ==
            (s, Err(if call.id !in s.codes then InvalidCodeId
                    else match env.load(s.codes[call.id])
                         case Rejected => ExecutionCode(IncorrecBinary)
                         case NotInstantiable => ExecutionCode(ImpossibleCreateInstance)
                         case _ => ExecutionCode(MainEntryPointNotDefined)))
  {
    hide Settle, Apply, SizeChange, Within;
  }

  /**
   A call whose code is loaded reports the earliest event that ended the unmetered run of its guest over
   the stored map: whatever failed there leaves the state alone and is named in the outcome, and only a
   guest that returned within all three budgets gets as far as the settlement of what it returned.
   */
  lemma {:induction false} FirstFailureIsReported(env: Env, s: State, call: Call) returns (k: nat)
    requires SignedExecution(call) && call.id in s.codes && env.load(s.codes[call.id]).Loaded?
    ensures var guest := env.load(s.codes[call.id]).guest;
            var world := World(guest.memory, if call.id in s.storages then s.storages[call.id] else map[]);
            var t := Trace(env.hash, guest.step, guest.control, world, call.fuel + 1);
            && FirstDecisive(t, k, Budget(call.fuel, call.maxRead, call.maxWrite))
            && match At(t, k)
               case Burn(_) => Step(env, s, call) == (s, Err(ExecutionCode(ExecutionErrors.OutOfFuel)))
               case ReadTick => Step(env, s, call) == (s, Err(ExecutionCode(OutOfReads)))
               case WriteTick => Step(env, s, call) == (s, Err(ExecutionCode(OutOfWrites)))
               case Broken(_) => Step(env, s, call) == (s, Err(ExecutionCode(WasmPanic)))
               case Crash => Step(env, s, call) == (s, Outcome.Crash)
               case Returned(m) =>
                 if Encodable(m) then ExecutionOf(env, s, call) == Done(m)
                 else Step(env, s, call) == (s, Outcome.Crash)
  {
    hide Execute, Trace, FirstDecisive, Settle, Apply, SizeChange, Within, Encodable;
    k := Budgets.FirstFailureNamesError(env.hash, env.load, s.codes[call.id], StorageOf(s, call.id),
                                        call.fuel, call.maxRead, call.maxWrite);
  }

  // ---------- what is paid for ----------

  /** The change a committed execution is charged or refunded for is the sum of the changes of its own `set` and `remove` calls. */
  lemma {:induction false} ChargedForOwnChanges(env: Env, s: State, call: Call)
    requires SignedExecution(call) && Judge(env, s, call).Committed?
    requires FitsI32(env.limits) && StoragesBounded(env, s)
    ensures call.id in s.codes && env.load(s.codes[call.id]).Loaded?
    ensures var guest := env.load(s.codes[call.id]).guest;
            var start := Start(guest, StorageOf(s, call.id), call.fuel, call.maxRead, call.maxWrite);
            var x := RunSizes.RunDelta(env.hash, guest.step, guest.control, start);
            && SizeChange(s, call.id, Judge(env, s, call).storage) == x
            && match Judge(env, s, call).settlement
               case Unchanged => x == 0
               case Refund(n) => x < 0 && n as int == 0 - x
               case Deposit(n) => x > 0 && n == x
               case Penalty(_) => false
  {
    hide Run, Apply, Within, Settle, SizeChange, RunSizes.RunDelta;
    var guest := env.load(s.codes[call.id]).guest;
    var start := Start(guest, StorageOf(s, call.id), call.fuel, call.maxRead, call.maxWrite);
    Judged(env, s, call);
    Ledger.CommittedChange(env, s, call);
    RunSizes.SizeTelescopes(env.hash, guest.step, guest.control, start);
    Ledger.DeclarationOnlyGates(SizeChange(s, call.id, Judge(env, s, call).storage), call.expected);
  }

  // ---------- budgets of a call ----------

  function WithBudget(call: Call, budget: (u32, u32, u32)): Call
    requires call.ExecuteCode?
  {
    call.(fuel := budget.0, maxRead := budget.1, maxWrite := budget.2)
  }

  /**
   A call whose execution succeeds has exact needs: under any budgets that meet them it has the same
   outcome and leaves the same state, under all others it fails with a budget error and changes nothing.
   */
  lemma {:induction false} CallThreshold(env: Env, s: State, call: Call) returns (need: Budget)
    requires SignedExecution(call) && call.id in s.codes && ExecutionOf(env, s, call).Done?
    ensures Covers(Budget(call.fuel, call.maxRead, call.maxWrite), need)
    ensures forall other: (u32, u32, u32) ::
              var (s', outcome) := Step(env, s, WithBudget(call, other));
              if Covers(Budgets.BudgetOf(other), need) then (s', outcome) == Step(env, s, call)
              else s' == s && outcome.Err? && outcome.error.ExecutionCode? && Budgets.BudgetError(outcome.error.error)
  {
    hide Execute, Apply, Settle, SizeChange, Within;
    var code, storage := s.codes[call.id], StorageOf(s, call.id);
    var own := (call.fuel, call.maxRead, call.maxWrite);
    need := Budgets.BudgetThreshold(env.hash, env.load, code, storage, own);
    forall other: (u32, u32, u32)
      ensures var (s', outcome) := Step(env, s, WithBudget(call, other));
              if Covers(Budgets.BudgetOf(other), need) then (s', outcome) == Step(env, s, call)
              else s' == s && outcome.Err? && outcome.error.ExecutionCode? && Budgets.BudgetError(outcome.error.error)
    {
      var result := Budgets.ExecuteWithin(env.hash, env.load, code, storage, other);
      assert ExecutionOf(env, s, WithBudget(call, other)) == result;
      if Covers(Budgets.BudgetOf(other), need) {
        SameExecutionSameStep(env, s, call, WithBudget(call, other));
      }
    }
  }

  lemma {:induction false} SameExecutionSameStep(env: Env, s: State, call: Call, call': Call)
    requires SignedExecution(call) && call.id in s.codes && SignedExecution(call')
    requires call'.id == call.id && call'.origin == call.origin && call'.expected == call.expected
    requires ExecutionOf(env, s, call') == ExecutionOf(env, s, call)
    ensures Step(env, s, call') == Step(env, s, call)
  {
    hide ExecutionOf, Apply, Settle, SizeChange, Within;
  }
}
