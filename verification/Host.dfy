/**
 The metered host of the kontracts executor. The functions say what each host function does to an
 instance taken as a value; the class `KontractStore` does it in place and is proved against them.
 */
module Host {
  import opened Primitives
  import opened Scale

  // ---------- the guest ----------

  /** Stack, locals and globals of the wasm instance, as numbers. */
  type GuestState = seq<int>

  /**
   What a guest does next. Running up to and including the action costs `extra + 1` units of fuel,
   so no action but the return and a trap is free.
   */
  datatype Action =
    | Work(extra: nat, next: GuestState, memory: Option<Bytes>)
    | Set(extra: nat, next: GuestState, keyPtr: u32, keySize: u32, valuePtr: u32, valueSize: u32)
    | Get(extra: nat, next: GuestState, keyPtr: u32, keySize: u32, valuePtr: u32, valueMaxSize: u32)
    | Remove(extra: nat, next: GuestState, keyPtr: u32, keySize: u32)
    | Finish
    | Unreachable

  type Stepper = (GuestState, Option<Bytes>) -> Action

  /** An arbitrary deterministic program; `memory` is `None` when the module exports none. */
  datatype Guest = Guest(control: GuestState, memory: Option<Bytes>, step: Stepper)

  // ---------- the host, on values ----------

  datatype Trap = ExceededReads | ExceededWrites | ReadingMemory | WritingMemory | OutOfFuel | WasmTrap

  /** A panic inside a host function is neither a result nor a trap: the call never returns. */
  datatype Signal = Fine | Fault(trap: Trap) | Panic

  datatype Instance = Instance(
    memory: Option<Bytes>, fuel: u32,
    maxRead: u32, maxWrite: u32, currRead: u32, currWrite: u32,
    storage: Store)

  /** A guest as the executor starts it: fresh counters and a full tank. */
  function Start(guest: Guest, storage: Store, fuel: u32, maxRead: u32, maxWrite: u32): Instance {
    Instance(guest.memory, fuel, maxRead, maxWrite, 0, 0, storage)
  }

  datatype Reply = Reply(signal: Signal, after: Instance)

  /** The counter after one more access, `None` when that is over the maximum; `u32` wraps around. */
  function Tick(val: u32, max: u32): Option<u32> {
    var x := AsU32(val + 1);
    if x <= max then Some(x) else None
  }

  function Lookup(storage: Store, key: Bytes): Bytes {
    if key in storage then storage[key] else []
  }

  function ReadVec(memory: Option<Bytes>, ptr: u32, size: u32): Option<Bytes> {
    if memory.Some? && ptr + size <= |memory.value| then Some(memory.value[ptr..ptr + size]) else None
  }

  datatype Overwrite = Wrote(memory: Bytes) | Refused | Panicked

  /**
   The buffer size is compared with the length of the value, but the slice written is one byte
   longer, and has to have exactly the length of the encoded value.
   */
  function WriteVec(memory: Option<Bytes>, vec: Bytes, ptr: u32, size: u32): Overwrite {
    if memory.None? || size < |vec| then Refused
    else
      var mem, end := memory.value, ptr + |vec| + 1;
      if end > |mem| || |EncodeVec(vec)| != |vec| + 1 then Panicked
      else Wrote(mem[..ptr] + EncodeVec(vec) + mem[end..])
  }

  function HostSet(hash: Bytes -> Bytes, i: Instance,
                   keyPtr: u32, keySize: u32, valuePtr: u32, valueSize: u32): (r: Reply)
    ensures r.after.fuel == i.fuel
  {
    var key, value := ReadVec(i.memory, keyPtr, keySize), ReadVec(i.memory, valuePtr, valueSize);
    if key.None? || value.None? then Reply(Fault(ReadingMemory), i)
    else match Tick(i.currWrite, i.maxWrite)
      case None => Reply(Fault(ExceededWrites), i)
      case Some(n) => Reply(Fine, i.(currWrite := n, storage := i.storage[hash(key.value) := value.value]))
  }

  function HostGet(hash: Bytes -> Bytes, i: Instance,
                   keyPtr: u32, keySize: u32, valuePtr: u32, valueMaxSize: u32): (r: Reply)
    ensures r.after.fuel == i.fuel
  {
    var key := ReadVec(i.memory, keyPtr, keySize);
    if key.None? then Reply(Fault(ReadingMemory), i)
    else match Tick(i.currRead, i.maxRead)
      case None => Reply(Fault(ExceededReads), i)
      case Some(n) =>
        var counted := i.(currRead := n);
        match WriteVec(i.memory, Lookup(i.storage, hash(key.value)), valuePtr, valueMaxSize)
        case Wrote(mem) => Reply(Fine, counted.(memory := Some(mem)))
        case Refused => Reply(Fault(WritingMemory), counted)
        case Panicked => Reply(Panic, counted)
  }

  function HostRemove(hash: Bytes -> Bytes, i: Instance, keyPtr: u32, keySize: u32): (r: Reply)
    ensures r.after.fuel == i.fuel
  {
    var key := ReadVec(i.memory, keyPtr, keySize);
    if key.None? then Reply(Fault(ReadingMemory), i)
    else match Tick(i.currWrite, i.maxWrite)
      case None => Reply(Fault(ExceededWrites), i)
      case Some(n) => Reply(Fine, i.(currWrite := n, storage := i.storage - {hash(key.value)}))
  }

  /** The effect of an action that has been paid for. */
  function Perform(hash: Bytes -> Bytes, a: Action, i: Instance): (r: Reply)
    requires !a.Finish? && !a.Unreachable?
    ensures r.after.fuel == i.fuel
  {
    match a
    case Work(_, _, memory) => Reply(Fine, i.(memory := memory))
    case Set(_, _, kp, ks, vp, vs) => HostSet(hash, i, kp, ks, vp, vs)
    case Get(_, _, kp, ks, vp, vs) => HostGet(hash, i, kp, ks, vp, vs)
    case Remove(_, _, kp, ks) => HostRemove(hash, i, kp, ks)
  }

  datatype RunResult = Completed(storage: Store) | Trapped(trap: Trap) | Aborted

  /** The call of `main`: every action uses up fuel, so every run ends. */
  function Run(hash: Bytes -> Bytes, step: Stepper, control: GuestState, i: Instance): RunResult
    decreases i.fuel
  {
    var a := step(control, i.memory);
    if a.Finish? then Completed(i.storage)
    else if a.Unreachable? then Trapped(WasmTrap)
    else if i.fuel < a.extra + 1 then Trapped(OutOfFuel)
    else
      var r := Perform(hash, a, i.(fuel := i.fuel - a.extra - 1));
      match r.signal
      case Fine => Run(hash, step, a.next, r.after)
      case Fault(trap) => Trapped(trap)
      case Panic => Aborted
  }

  // ---------- the host, in place ----------

  method UpdateWithCheck(val: u32, max: u32, isWrite: bool) returns (val': u32, fault: Option<Trap>)
    ensures Tick(val, max).Some? ==> val' == Tick(val, max).value && fault == None
    ensures Tick(val, max).None? ==> val' == val && fault == Some(if isWrite then ExceededWrites else ExceededReads)
  {
    val', fault := val, None;
    var x := AsU32(val + 1);
    if x <= max {
      val' := x;
    } else {
      fault := Some(if isWrite then ExceededWrites else ExceededReads);
    }
  }

  /** The wasmtime store: the host data of a run together with the guest's memory and fuel. */
  class KontractStore {
    const hash: Bytes -> Bytes
    const maxRead: u32
    const maxWrite: u32
    var currRead: u32
    var currWrite: u32
    var storage: Store
    var memory: Option<Bytes>
    var fuel: u32

    ghost function View(): Instance
      reads this
    {
      Instance(memory, fuel, maxRead, maxWrite, currRead, currWrite, storage)
    }

    constructor (hash: Bytes -> Bytes, storage: Store, memory: Option<Bytes>, fuel: u32, maxRead: u32, maxWrite: u32)
      ensures this.hash == hash
      ensures View() == Instance(memory, fuel, maxRead, maxWrite, 0, 0, storage)
    {
      this.hash := hash;
      this.maxRead, this.maxWrite := maxRead, maxWrite;
      this.currRead, this.currWrite := 0, 0;
      this.storage, this.memory, this.fuel := storage, memory, fuel;
    }

    method KontractsSet(key: Bytes, value: Bytes) returns (fault: Option<Trap>)
      modifies this`currWrite, this`storage
      ensures match Tick(old(currWrite), maxWrite)
              case None => fault == Some(ExceededWrites) && View() == old(View())
              case Some(n) => fault == None && currWrite == n && storage == old(storage)[hash(key) := value]
    {
      currWrite, fault := UpdateWithCheck(currWrite, maxWrite, true);
      if fault == None {
        storage := storage[hash(key) := value];
      }
    }

    method KontractsGet(key: Bytes) returns (value: Option<Bytes>, fault: Option<Trap>)
      modifies this`currRead
      ensures match Tick(old(currRead), maxRead)
              case None => fault == Some(ExceededReads) && View() == old(View())
              case Some(n) => fault == None && currRead == n &&
                              value == if hash(key) in storage then Some(storage[hash(key)]) else None
    {
      value := None;
      currRead, fault := UpdateWithCheck(currRead, maxRead, false);
      if fault == None && hash(key) in storage {
        value := Some(storage[hash(key)]);
      }
    }

    method KontractsRemove(key: Bytes) returns (fault: Option<Trap>)
      modifies this`currWrite, this`storage
      ensures match Tick(old(currWrite), maxWrite)
              case None => fault == Some(ExceededWrites) && View() == old(View())
              case Some(n) => fault == None && currWrite == n && storage == old(storage) - {hash(key)}
    {
      currWrite, fault := UpdateWithCheck(currWrite, maxWrite, true);
      if fault == None {
        storage := storage - {hash(key)};
      }
    }

    /** `write_vec`: `copy_from_slice` overwrites the memory byte by byte. */
    method WriteMemory(vec: Bytes, ptr: u32, size: u32) returns (signal: Signal)
      modifies this`memory
      ensures match WriteVec(old(memory), vec, ptr, size)
              case Wrote(mem) => signal == Fine && memory == Some(mem)
              case Refused => signal == Fault(WritingMemory) && memory == old(memory)
              case Panicked => signal == Panic && memory == old(memory)
    {
      if memory == None || size < |vec| {
        return Fault(WritingMemory);
      }
      var mem := memory.value;
      if ptr + |vec| >= |mem| {
        return Panic;
      }
      var encoded := EncodeVec(vec);
      if |encoded| != |vec| + 1 {
        return Panic;
      }
      for n := 0 to |encoded|
        invariant mem == old(memory).value[..ptr] + encoded[..n] + old(memory).value[ptr + n..]
      {
        mem := mem[ptr + n := encoded[n]];
      }
      assert encoded[..|encoded|] == encoded;
      memory := Some(mem);
      signal := Fine;
    }

    method SetClosure(keyPtr: u32, keySize: u32, valuePtr: u32, valueSize: u32) returns (signal: Signal)
      modifies this
      ensures Reply(signal, View()) == HostSet(hash, old(View()), keyPtr, keySize, valuePtr, valueSize)
    {
      var key := ReadVec(memory, keyPtr, keySize);
      if key == None {
        return Fault(ReadingMemory);
      }
      var value := ReadVec(memory, valuePtr, valueSize);
      if value == None {
        return Fault(ReadingMemory);
      }
      var fault := KontractsSet(key.value, value.value);
      signal := if fault == None then Fine else Fault(fault.value);
    }

    /** A missing key is answered with an empty vector. */
    method GetClosure(keyPtr: u32, keySize: u32, valuePtr: u32, valueMaxSize: u32) returns (signal: Signal)
      modifies this
      ensures Reply(signal, View()) == HostGet(hash, old(View()), keyPtr, keySize, valuePtr, valueMaxSize)
    {
      var key := ReadVec(memory, keyPtr, keySize);
      if key == None {
        return Fault(ReadingMemory);
      }
      var value, fault := KontractsGet(key.value);
      if fault != None {
        return Fault(fault.value);
      }
      signal := WriteMemory(if value == None then [] else value.value, valuePtr, valueMaxSize);
    }

    method RemoveClosure(keyPtr: u32, keySize: u32) returns (signal: Signal)
      modifies this
      ensures Reply(signal, View()) == HostRemove(hash, old(View()), keyPtr, keySize)
    {
      var key := ReadVec(memory, keyPtr, keySize);
      if key == None {
        return Fault(ReadingMemory);
      }
      var fault := KontractsRemove(key.value);
      signal := if fault == None then Fine else Fault(fault.value);
    }

    /** One action that has been paid for. */
    method Serve(a: Action) returns (signal: Signal)
      requires !a.Finish? && !a.Unreachable?
      modifies this
      ensures Reply(signal, View()) == Perform(hash, a, old(View()))
    {
      hide HostSet, HostGet, HostRemove;
      signal := Fine;
      match a {
        case Work(_, _, mem) => memory := mem;
        case Set(_, _, kp, ks, vp, vs) => signal := SetClosure(kp, ks, vp, vs);
        case Get(_, _, kp, ks, vp, vs) => signal := GetClosure(kp, ks, vp, vs);
        case Remove(_, _, kp, ks) => signal := RemoveClosure(kp, ks);
      }
    }

    /** The fuel of an action: taken off, or too little left and nothing taken. */
    method Consume(extra: nat) returns (ok: bool)
      modifies this`fuel
      ensures ok <==> extra + 1 <= old(fuel)
      ensures fuel == if ok then old(fuel) - extra - 1 else old(fuel)
    {
      ok := extra + 1 <= fuel;
      if ok {
        fuel := fuel - extra - 1;
      }
    }

    /** Runs the guest from `control` until it returns, traps or runs out of fuel. */
    method CallMain(start: GuestState, step: Stepper) returns (r: RunResult)
      modifies this
      ensures r == Run(hash, step, start, old(View()))
      ensures r.Completed? ==> storage == r.storage
    {
      hide Perform;
      var control := start;
      while true
        invariant Run(hash, step, control, View()) == Run(hash, step, start, old(View()))
        decreases fuel
      {
        var a := step(control, memory);
        if a.Finish? {
          return Completed(storage);
        } else if a.Unreachable? {
          return Trapped(WasmTrap);
        }
        var ok := Consume(a.extra);
        if !ok {
          return Trapped(OutOfFuel);
        }
        var signal := Serve(a);
        match signal {
          case Fine =>
          case Fault(trap) => return Trapped(trap);
          case Panic => return Aborted;
        }
        control := a.next;
      }
    }
  }
}
