/**
 What metering means. The reference is the event log of a guest that runs with no budget at all: the
 metered run of `Host` is decided by the first event of that log that either fails by itself or
 brings a running total over its budget.
 */
module Metering {
  import opened Primitives
  import opened Scale
  import opened Host

  datatype Event =
    | Burn(cost: nat)
    | ReadTick
    | WriteTick
    | Broken(trap: Trap)
    | Crash
    | Returned(storage: Store)

  datatype Log = End | Then(event: Event, later: Log)

  // ---------- the unmetered guest ----------

  datatype World = World(memory: Option<Bytes>, storage: Store)

  /** The events of the first `n` actions, in the order in which the host checks them. */
  function Trace(hash: Bytes -> Bytes, step: Stepper, control: GuestState, w: World, n: nat): Log
    decreases n, 0
  {
    if n == 0 then End
    else
      var a := step(control, w.memory);
      if a.Finish? then Then(Returned(w.storage), End)
      else if a.Unreachable? then Then(Broken(WasmTrap), End)
      else Then(Burn(a.extra + 1), AfterBurn(hash, step, a, w, n - 1))
  }

  function AfterBurn(hash: Bytes -> Bytes, step: Stepper, a: Action, w: World, n: nat): Log
    requires !a.Finish? && !a.Unreachable?
    decreases n, 1
  {
    match a
    case Work(_, next, memory) => Trace(hash, step, next, w.(memory := memory), n)
    case Set(_, next, kp, ks, vp, vs) =>
      var key, value := ReadVec(w.memory, kp, ks), ReadVec(w.memory, vp, vs);
      if key.None? || value.None? then Then(Broken(ReadingMemory), End)
      else Then(WriteTick, Trace(hash, step, next, w.(storage := w.storage[hash(key.value) := value.value]), n))
    case Get(_, next, kp, ks, vp, vs) =>
      var key := ReadVec(w.memory, kp, ks);
      if key.None? then Then(Broken(ReadingMemory), End)
      else Then(ReadTick,
        match WriteVec(w.memory, Lookup(w.storage, hash(key.value)), vp, vs)
        case Wrote(mem) => Trace(hash, step, next, w.(memory := Some(mem)), n)
        case Refused => Then(Broken(WritingMemory), End)
        case Panicked => Then(Crash, End))
    case Remove(_, next, kp, ks) =>
      var key := ReadVec(w.memory, kp, ks);
      if key.None? then Then(Broken(ReadingMemory), End)
      else Then(WriteTick, Trace(hash, step, next, w.(storage := w.storage - {hash(key.value)}), n))
  }

  // ---------- budgets ----------

  datatype Budget = Budget(fuel: nat, nRead: nat, nWrite: nat)

  function Cost(e: Event): Budget {
    match e
    case Burn(cost) => Budget(cost, 0, 0)
    case ReadTick => Budget(0, 1, 0)
    case WriteTick => Budget(0, 0, 1)
    case _ => Budget(0, 0, 0)
  }

  function Plus(a: Budget, b: Budget): Budget {
    Budget(a.fuel + b.fuel, a.nRead + b.nRead, a.nWrite + b.nWrite)
  }

  predicate Covers(b: Budget, spent: Budget) {
    spent.fuel <= b.fuel && spent.nRead <= b.nRead && spent.nWrite <= b.nWrite
  }

  predicate Metered(e: Event) {
    e.Burn? || e.ReadTick? || e.WriteTick?
  }

  function Length(t: Log): nat {
    if t.End? then 0 else 1 + Length(t.later)
  }

  function At(t: Log, k: nat): Event
    requires k < Length(t)
  {
    if k == 0 then t.event else At(t.later, k - 1)
  }

  /** Total cost of the first `k` events. */
  function Spent(t: Log, k: nat): Budget
    requires k <= Length(t)
  {
    if k == 0 then Budget(0, 0, 0) else Plus(Cost(t.event), Spent(t.later, k - 1))
  }

  /** Event `k` ends the run: by itself, or because the total it counts towards is now over budget. */
  predicate Decisive(t: Log, k: nat, b: Budget)
    requires k < Length(t)
  {
    var total := Spent(t, k + 1);
    match At(t, k)
    case Burn(_) => total.fuel > b.fuel
    case ReadTick => total.nRead > b.nRead
    case WriteTick => total.nWrite > b.nWrite
    case _ => true
  }

  ghost predicate FirstDecisive(t: Log, k: nat, b: Budget) {
    k < Length(t) && Decisive(t, k, b) && forall j: nat :: j < k ==> !Decisive(t, j, b)
  }

  function Verdict(e: Event): RunResult {
    match e
    case Burn(_) => Trapped(OutOfFuel)
    case ReadTick => Trapped(ExceededReads)
    case WriteTick => Trapped(ExceededWrites)
    case Broken(trap) => Trapped(trap)
    case Crash => Aborted
    case Returned(storage) => Completed(storage)
  }

  // ---------- logs from the front ----------

  lemma {:induction false} DecisiveHead(t: Log, b: Budget)
    requires t.Then? && (!Metered(t.event) || !Covers(b, Cost(t.event)))
    ensures Decisive(t, 0, b)
  {
    if Metered(t.event) {
      assert Spent(t, 1) == Plus(Cost(t.event), Spent(t.later, 0));
    }
  }

  lemma {:induction false} IndecisiveHead(t: Log, b: Budget)
    requires t.Then? && Metered(t.event) && Covers(b, Cost(t.event))
    ensures !Decisive(t, 0, b)
  {
    assert Spent(t, 1) == Plus(Cost(t.event), Spent(t.later, 0));
  }

  lemma {:induction false} DecisiveTail(t: Log, k: nat, b: Budget, rest: Budget)
    requires t.Then? && k < Length(t.later) && b == Plus(Cost(t.event), rest)
    ensures Decisive(t, k + 1, b) == Decisive(t.later, k, rest)
  {
    assert Spent(t, k + 2) == Plus(Cost(t.event), Spent(t.later, k + 1));
  }

  lemma {:induction false} DecidedAtOnce(t: Log, b: Budget)
    requires t.Then? && (!Metered(t.event) || !Covers(b, Cost(t.event)))
    ensures FirstDecisive(t, 0, b) && At(t, 0) == t.event
  {
    DecisiveHead(t, b);
  }

  lemma {:induction false} DecidedLater(t: Log, k: nat, b: Budget, rest: Budget)
    requires t.Then? && Metered(t.event) && b == Plus(Cost(t.event), rest) && FirstDecisive(t.later, k, rest)
    ensures FirstDecisive(t, k + 1, b) && At(t, k + 1) == At(t.later, k)
  {
    IndecisiveHead(t, b);
    DecisiveTail(t, k, b, rest);
    forall j: nat | j < k + 1 ensures !Decisive(t, j, b) {
      if j > 0 {
        DecisiveTail(t, j - 1, b, rest);
      }
    }
  }

  // ---------- the first failure decides ----------

  /** Holds along every run from fresh counters: neither counter is over its maximum or can wrap around. */
  predicate CountersSound(i: Instance) {
    && i.currRead <= i.maxRead && i.currRead + i.fuel <= U32_MAX
    && i.currWrite <= i.maxWrite && i.currWrite + i.fuel <= U32_MAX
  }

  /** A host call that is paid for leaves room for one more tick of either counter. */
  predicate Paid(i: Instance) {
    && CountersSound(i)
    && i.currRead + i.fuel < U32_MAX && i.currWrite + i.fuel < U32_MAX
  }

  function Left(i: Instance): Budget
    requires CountersSound(i)
  {
    Budget(i.fuel, i.maxRead - i.currRead, i.maxWrite - i.currWrite)
  }

  function WorldOf(i: Instance): World {
    World(i.memory, i.storage)
  }

  lemma {:induction false} ActionKeepsCounters(hash: Bytes -> Bytes, a: Action, i: Instance)
    requires !a.Finish? && !a.Unreachable?
    requires CountersSound(i) && a.extra + 1 <= i.fuel
    ensures var paid := i.(fuel := i.fuel - a.extra - 1);
            var after := Perform(hash, a, paid).after;
            && CountersSound(after) && after.maxRead == i.maxRead && after.maxWrite == i.maxWrite
            && after.currRead + after.currWrite <= i.currRead + i.currWrite + 1
            && i.currRead <= after.currRead && i.currWrite <= after.currWrite
  {
    hide WriteVec, ReadVec, Lookup;
  }

  /** `j` is an instance the run from `i` passes through, before or after one of its actions. */
  ghost predicate Visits(hash: Bytes -> Bytes, step: Stepper, control: GuestState, i: Instance, j: Instance)
    decreases i.fuel
  {
    var a := step(control, i.memory);
    || i == j
    || (!a.Finish? && !a.Unreachable? && a.extra + 1 <= i.fuel &&
        var r := Perform(hash, a, i.(fuel := i.fuel - a.extra - 1));
        if r.signal.Fine? then Visits(hash, step, a.next, r.after, j) else r.after == j)
  }

  /** Fuel and counters together never exceed the fuel a run set out with. */
  lemma {:induction false} CountersBurnFuel(hash: Bytes -> Bytes, step: Stepper, control: GuestState, i: Instance, j: Instance)
    requires CountersSound(i) && Visits(hash, step, control, i, j)
    ensures CountersSound(j) && j.maxRead == i.maxRead && j.maxWrite == i.maxWrite
    ensures j.currRead + j.currWrite + j.fuel <= i.currRead + i.currWrite + i.fuel
    decreases i.fuel
  {
    hide Perform, CountersSound;
    var a := step(control, i.memory);
    if i == j {
    } else {
      ActionKeepsCounters(hash, a, i);
      var r := Perform(hash, a, i.(fuel := i.fuel - a.extra - 1));
      if r.signal.Fine? {
        CountersBurnFuel(hash, step, a.next, r.after, j);
      }
    }
  }

  /**
   At every point of every run both counters are within their maxima, and an action that can still be
   paid for finds them below `u32::MAX`: the increment never wraps around, even when a maximum is
   `u32::MAX` itself.
   */
  lemma {:induction false} CountersNeverWrap(hash: Bytes -> Bytes, guest: Guest, storage: Store,
                                             fuel: u32, maxRead: u32, maxWrite: u32, j: Instance)
    requires Visits(hash, guest.step, guest.control, Start(guest, storage, fuel, maxRead, maxWrite), j)
    ensures j.currRead <= maxRead && j.currWrite <= maxWrite
    ensures j.currRead + j.currWrite + j.fuel <= fuel
    ensures j.fuel > 0 ==> AsU32(j.currRead + 1) == j.currRead + 1 && AsU32(j.currWrite + 1) == j.currWrite + 1
  {
    hide Visits;
    CountersBurnFuel(hash, guest.step, guest.control, Start(guest, storage, fuel, maxRead, maxWrite), j);
  }

  /** Outcome of a run once the reply to its next action is known. */
  function Continue(hash: Bytes -> Bytes, step: Stepper, next: GuestState, r: Reply): RunResult {
    match r.signal
    case Fine => Run(hash, step, next, r.after)
    case Fault(trap) => Trapped(trap)
    case Panic => Aborted
  }

  lemma {:induction false} RunFront(hash: Bytes -> Bytes, step: Stepper, control: GuestState, i: Instance)
    ensures var a := step(control, i.memory);
            Run(hash, step, control, i) ==
              if a.Finish? then Completed(i.storage)
              else if a.Unreachable? then Trapped(WasmTrap)
              else if i.fuel < a.extra + 1 then Trapped(OutOfFuel)
              else Continue(hash, step, a.next, Perform(hash, a, i.(fuel := i.fuel - a.extra - 1)))
  {
    hide Perform;
  }

  /**
   The metered run ends at the earliest event of the unmetered log that fails or exceeds a budget,
   with the outcome of that event; in particular it succeeds exactly when that event is the return
   of `main`.
   */
  lemma {:induction false} FirstFailure(hash: Bytes -> Bytes, step: Stepper, control: GuestState, i: Instance, n: nat)
    returns (k: nat)
    requires CountersSound(i) && n > i.fuel
    ensures FirstDecisive(Trace(hash, step, control, WorldOf(i), n), k, Left(i))
    ensures Run(hash, step, control, i) == Verdict(At(Trace(hash, step, control, WorldOf(i), n), k))
    decreases n, 1
  {
    hide Perform, AfterBurn, FirstDecisive, Decisive, Run;
    var a := step(control, i.memory);
    var t := Trace(hash, step, control, WorldOf(i), n);
    RunFront(hash, step, control, i);
    if a.Finish? || a.Unreachable? || i.fuel < a.extra + 1 {
      DecidedAtOnce(t, Left(i));
      k := 0;
    } else {
      var paid := i.(fuel := i.fuel - a.extra - 1);
      k := AfterPayment(hash, step, a, paid, n - 1);
      DecidedLater(t, k, Left(i), Left(paid));
      k := k + 1;
    }
  }

  lemma {:induction false} AfterPayment(hash: Bytes -> Bytes, step: Stepper, a: Action, i: Instance, n: nat)
    returns (k: nat)
    requires Paid(i) && !a.Finish? && !a.Unreachable? && n > i.fuel
    ensures FirstDecisive(AfterBurn(hash, step, a, WorldOf(i), n), k, Left(i))
    ensures Continue(hash, step, a.next, Perform(hash, a, i))
         == Verdict(At(AfterBurn(hash, step, a, WorldOf(i), n), k))
    decreases n, 2
  {
    hide FirstDecisive, Decisive, Run, Trace, WriteVec, ReadVec;
    var r := Perform(hash, a, i);
    var t := AfterBurn(hash, step, a, WorldOf(i), n);
    if a.Work? {
      k := FirstFailure(hash, step, a.next, r.after, n);
    } else if !Metered(t.event) || !Covers(Left(i), Cost(t.event)) {
      DecidedAtOnce(t, Left(i));
      k := 0;
    } else {
      if r.signal.Fine? {
        k := FirstFailure(hash, step, a.next, r.after, n);
      } else {
        DecidedAtOnce(t.later, Left(r.after));
        k := 0;
      }
      DecidedLater(t, k, Left(i), Left(r.after));
      k := k + 1;
    }
  }
}
