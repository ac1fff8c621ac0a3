/** How much fuel, how many reads and how many writes a run needs, and what raising budgets changes. */
module Budgets {
  import opened Primitives
  import opened Scale
  import opened Host
  import opened Metering
  import opened Executor

  lemma {:induction false} SpentGrows(t: Log, j: nat, k: nat)
    requires j <= k <= Length(t)
    ensures Covers(Spent(t, k), Spent(t, j))
    decreases k
  {
    if j == 0 {
    } else {
      SpentGrows(t.later, j - 1, k - 1);
    }
  }

  /** As long as nothing was decisive, the budget covers what was spent. */
  lemma {:induction false} Undecided(t: Log, k: nat, b: Budget)
    requires k <= Length(t) && forall j: nat :: j < k ==> !Decisive(t, j, b)
    ensures Covers(b, Spent(t, k))
    decreases k
  {
    hide Decisive, Cost;
    if k == 0 {
    } else {
      assert Covers(b, Cost(t.event)) by {
        assert !Decisive(t, 0, b);
        if !Covers(b, Cost(t.event)) {
          DecisiveHead(t, b);
        }
      }
      var c := Cost(t.event);
      var rest := Budget(b.fuel - c.fuel, b.nRead - c.nRead, b.nWrite - c.nWrite);
      forall j: nat | j < k - 1 ensures !Decisive(t.later, j, rest) {
        DecisiveTail(t, j, b, rest);
      }
      Undecided(t.later, k - 1, rest);
    }
  }

  /** A log that returns under one budget is decided under another by the same event, or by a tick before it. */
  lemma {:induction false} SameLog(t: Log, k: nat, b: Budget, k': nat, b': Budget)
    requires FirstDecisive(t, k, b) && At(t, k).Returned? && FirstDecisive(t, k', b')
    ensures if Covers(b', Spent(t, k)) then k' == k else k' < k && Metered(At(t, k'))
  {
    if k' < k {
      assert !Decisive(t, k', b) && Metered(At(t, k'));
      SpentGrows(t, k' + 1, k);
    } else {
      assert Decisive(t, k, b');
      Undecided(t, k, b');
    }
  }

  predicate OutOfBudget(r: RunResult) {
    r == Trapped(Trap.OutOfFuel) || r == Trapped(ExceededReads) || r == Trapped(ExceededWrites)
  }

  /** The run of a guest as the executor starts it. */
  function RunOf(hash: Bytes -> Bytes, guest: Guest, storage: Store, budget: (u32, u32, u32)): RunResult {
    Run(hash, guest.step, guest.control, Start(guest, storage, budget.0, budget.1, budget.2))
  }

  function BudgetOf(budget: (u32, u32, u32)): Budget {
    Budget(budget.0, budget.1, budget.2)
  }

  lemma {:induction false} RunThreshold(hash: Bytes -> Bytes, guest: Guest, storage: Store, budget: (u32, u32, u32))
    returns (need: Budget)
    requires RunOf(hash, guest, storage, budget).Completed?
    ensures Covers(BudgetOf(budget), need)
    ensures forall other: (u32, u32, u32) ::
              if Covers(BudgetOf(other), need) then RunOf(hash, guest, storage, other) == RunOf(hash, guest, storage, budget)
              else OutOfBudget(RunOf(hash, guest, storage, other))
  {
    hide Run, Trace, FirstDecisive, Decisive, Spent;
    var n := U32_MAX + 1;
    var t := Trace(hash, guest.step, guest.control, World(guest.memory, storage), n);
    var first := Start(guest, storage, budget.0, budget.1, budget.2);
    var k := FirstFailure(hash, guest.step, guest.control, first, n);
    NeedIsCovered(t, k, Left(first));
    need := Spent(t, k);
    forall other: (u32, u32, u32)
      ensures if Covers(BudgetOf(other), need) then RunOf(hash, guest, storage, other) == RunOf(hash, guest, storage, budget)
              else OutOfBudget(RunOf(hash, guest, storage, other))
    {
      var i := Start(guest, storage, other.0, other.1, other.2);
      var k' := FirstFailure(hash, guest.step, guest.control, i, n);
      ThresholdCase(t, k, Left(first), k', Left(i));
    }
  }

  lemma {:induction false} NeedIsCovered(t: Log, k: nat, b: Budget)
    requires FirstDecisive(t, k, b)
    ensures k < Length(t) && Covers(b, Spent(t, k))
  {
    Undecided(t, k, b);
  }

  lemma {:induction false} ThresholdCase(t: Log, k: nat, b: Budget, k': nat, b': Budget)
    requires FirstDecisive(t, k, b) && Verdict(At(t, k)).Completed? && FirstDecisive(t, k', b')
    ensures k < Length(t) && k' < Length(t)
    ensures if Covers(b', Spent(t, k)) then At(t, k') == At(t, k) else OutOfBudget(Verdict(At(t, k')))
  {
    SameLog(t, k, b, k', b');
  }

  // ---------- the error of an execution ----------

  predicate GuestFault(trap: Trap) {
    trap == ReadingMemory || trap == WritingMemory || trap == WasmTrap
  }

  /** Only a counter or the fuel produces a budget trap: a guest has no way to fake one. */
  lemma {:induction false} FaultsAreTheGuests(hash: Bytes -> Bytes, step: Stepper, control: GuestState, w: World, n: nat, k: nat)
    requires k < Length(Trace(hash, step, control, w, n))
    ensures var e := At(Trace(hash, step, control, w, n), k); e.Broken? ==> GuestFault(e.trap)
    decreases n, 0
  {
    hide ReadVec, WriteVec, Lookup;
    var a := step(control, w.memory);
    if k > 0 {
      FaultsAfterBurn(hash, step, a, w, n - 1, k - 1);
    }
  }

  lemma {:induction false} FaultsAfterBurn(hash: Bytes -> Bytes, step: Stepper, a: Action, w: World, n: nat, k: nat)
    requires !a.Finish? && !a.Unreachable?
    requires k < Length(AfterBurn(hash, step, a, w, n))
    ensures var e := At(AfterBurn(hash, step, a, w, n), k); e.Broken? ==> GuestFault(e.trap)
    decreases n, 1
  {
    hide ReadVec, WriteVec, Lookup, Trace;
    match a
    case Work(_, next, memory) =>
      FaultsAreTheGuests(hash, step, next, w.(memory := memory), n, k);
    case Set(_, next, kp, ks, vp, vs) =>
      var key, value := ReadVec(w.memory, kp, ks), ReadVec(w.memory, vp, vs);
      if key.Some? && value.Some? && k > 0 {
        FaultsAreTheGuests(hash, step, next, w.(storage := w.storage[hash(key.value) := value.value]), n, k - 1);
      }
    case Get(_, next, kp, ks, vp, vs) =>
      var key := ReadVec(w.memory, kp, ks);
      if key.Some? && k > 0 {
        var written := WriteVec(w.memory, Lookup(w.storage, hash(key.value)), vp, vs);
        if written.Wrote? {
          FaultsAreTheGuests(hash, step, next, w.(memory := Some(written.memory)), n, k - 1);
        }
      }
    case Remove(_, next, kp, ks) =>
      var key := ReadVec(w.memory, kp, ks);
      if key.Some? && k > 0 {
        FaultsAreTheGuests(hash, step, next, w.(storage := w.storage - {hash(key.value)}), n, k - 1);
      }
  }

  /** The answer of the executor to the event that ended the run. */
  function Answer(e: Event): Execution {
    match e
    case Burn(_) => Failed(ExecutionErrors.OutOfFuel)
    case ReadTick => Failed(OutOfReads)
    case WriteTick => Failed(OutOfWrites)
    case Broken(_) => Failed(WasmPanic)
    case Crash => Crashed
    case Returned(m) => if Encodable(m) then Done(m) else Crashed
  }

  /**
   The error of an execution names the earliest event that failed: out of fuel, of reads or of writes
   when a budget was exceeded there, a panic for every other trap; storage comes back only if no event
   failed.
   */
  lemma {:induction false} FirstFailureNamesError(hash: Bytes -> Bytes, load: Loader, code: Bytes, storage: Store,
                                                  fuel: u32, maxRead: u32, maxWrite: u32)
    returns (k: nat)
    requires load(code).Loaded?
    ensures var guest := load(code).guest;
            var t := Trace(hash, guest.step, guest.control, World(guest.memory, storage), fuel + 1);
            && FirstDecisive(t, k, Budget(fuel, maxRead, maxWrite))
            && Execute(hash, load, code, storage, fuel, maxRead, maxWrite) == Answer(At(t, k))
  {
    hide Run, Trace, Decisive;
    var guest := load(code).guest;
    var w := World(guest.memory, storage);
    k := FirstFailure(hash, guest.step, guest.control, Start(guest, storage, fuel, maxRead, maxWrite), fuel + 1);
    FaultsAreTheGuests(hash, guest.step, guest.control, w, fuel + 1, k);
  }

  predicate BudgetError(e: ExecutionErrors) {
    e == ExecutionErrors.OutOfFuel || e == OutOfReads || e == OutOfWrites
  }

  function ExecuteWithin(hash: Bytes -> Bytes, load: Loader, code: Bytes, storage: Store, budget: (u32, u32, u32)): Execution {
    Execute(hash, load, code, storage, budget.0, budget.1, budget.2)
  }

  /**
   An execution that succeeds under some budgets has exact needs: under any three budgets it succeeds
   exactly when all three are met, always with the same storage; otherwise its error is that of a
   budget. So raising a budget never changes a successful result.
   */
  lemma {:induction false} BudgetThreshold(hash: Bytes -> Bytes, load: Loader, code: Bytes, storage: Store, budget: (u32, u32, u32))
    returns (need: Budget)
    requires ExecuteWithin(hash, load, code, storage, budget).Done?
    ensures Covers(BudgetOf(budget), need)
    ensures forall other: (u32, u32, u32) ::
              var result := ExecuteWithin(hash, load, code, storage, other);
              if Covers(BudgetOf(other), need) then result == ExecuteWithin(hash, load, code, storage, budget)
              else result.Failed? && BudgetError(result.error)
  {
    hide Run, Encodable;
    var guest := load(code).guest;
    need := RunThreshold(hash, guest, storage, budget);
    forall other: (u32, u32, u32)
      ensures var result := ExecuteWithin(hash, load, code, storage, other);
              if Covers(BudgetOf(other), need) then result == ExecuteWithin(hash, load, code, storage, budget)
              else result.Failed? && BudgetError(result.error)
    {
      assert if Covers(BudgetOf(other), need) then RunOf(hash, guest, storage, other) == RunOf(hash, guest, storage, budget)
             else OutOfBudget(RunOf(hash, guest, storage, other));
    }
  }

  // ---------- errors before the run ----------

  /** A binary that does not get as far as its `main` is refused for its own reason, under any budgets and over any storage. */
  lemma {:induction false} EarlyErrors(hash: Bytes -> Bytes, load: Loader, code: Bytes, storage: Store,
                                       fuel: u32, maxRead: u32, maxWrite: u32)
    ensures var r := Execute(hash, load, code, storage, fuel, maxRead, maxWrite);
            match load(code)
            case Rejected => r == Failed(IncorrecBinary)
            case NotInstantiable => r == Failed(ImpossibleCreateInstance)
            case WithoutMain => r == Failed(MainEntryPointNotDefined)
            case Loaded(_) =>
              r.Failed? ==> r.error == WasmPanic || BudgetError(r.error)
  {
    hide Run, Encodable;
  }

  /** So a budget error is only ever the answer to a run that exceeded a budget. */
  lemma {:induction false} BudgetErrorsAreEarned(hash: Bytes -> Bytes, load: Loader, code: Bytes, storage: Store,
                                                 fuel: u32, maxRead: u32, maxWrite: u32)
    returns (k: nat)
    requires var r := Execute(hash, load, code, storage, fuel, maxRead, maxWrite); r.Failed? && BudgetError(r.error)
    ensures load(code).Loaded?
    ensures var guest, error := load(code).guest, Execute(hash, load, code, storage, fuel, maxRead, maxWrite).error;
            var t := Trace(hash, guest.step, guest.control, World(guest.memory, storage), fuel + 1);
            && k < Length(t)
            && (error == ExecutionErrors.OutOfFuel <==> At(t, k).Burn? && Spent(t, k + 1).fuel > fuel)
            && (error == OutOfReads <==> At(t, k).ReadTick? && Spent(t, k + 1).nRead > maxRead)
            && (error == OutOfWrites <==> At(t, k).WriteTick? && Spent(t, k + 1).nWrite > maxWrite)
  {
    hide Run, Trace, Spent;
    EarlyErrors(hash, load, code, storage, fuel, maxRead, maxWrite);
    k := FirstFailureNamesError(hash, load, code, storage, fuel, maxRead, maxWrite);
  }
}
