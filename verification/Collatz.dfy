/** The Collatz kontract as a client of the whole stack: guest API, host, executor and pallet. */
module Collatz {
  import opened Primitives
  import opened Scale
  import opened StorageSize
  import opened Host
  import opened Metering
  import opened GuestApi
  import opened Executor
  import opened PalletState

  // ---------- the numbers ----------

  /** The next number in `u32` arithmetic, which wraps around. */
  function NextU32(val: u32): u32 {
    if val % 2 == 0 then val / 2 else AsU32(AsU32(val * 3) + 1)
  }

  function Next(val: nat): nat {
    if val % 2 == 0 then val / 2 else val * 3 + 1
  }

  /** An even number is halved; an odd one gives `3 * val + 1`, exactly as long as that fits a `u32`, and then wraps around. */
  lemma {:induction false} NextIsExact(val: u32)
    ensures val % 2 == 0 ==> 2 * NextU32(val) == val
    ensures val % 2 == 1 ==> NextU32(val) == (3 * val + 1) % 0x1_0000_0000
    ensures NextU32(val) == Next(val) <==> val % 2 == 0 || val * 3 + 1 <= U32_MAX
  {
  }

  /** The series that starts at 5. */
  function Series(n: nat): nat {
    if n == 0 then 5 else Next(Series(n - 1))
  }

  /** From 5 the series never leaves 16, so its `u32` computation never wraps around. */
  lemma {:induction false} SeriesIsSmall(n: nat)
    ensures Series(n) in {5, 16, 8, 4, 2, 1}
    ensures NextU32(Series(n)) == Series(n + 1)
  {
    if n == 0 {
    } else {
      SeriesIsSmall(n - 1);
    }
  }

  // ---------- the guest program ----------

  const KEY: Bytes := EncodeU32(1)

  /** Where the allocator put the encoded key, the read buffer and the encoded result, and what the code in between costs. */
  datatype Layout = Layout(keyPtr: u32, bufPtr: u32, outPtr: u32, beforeGet: nat, inGet: nat, beforeSet: nat, inSet: nat)

  predicate Disjoint(a: int, aSize: int, b: int, bSize: int) {
    a + aSize <= b || b + bSize <= a
  }

  predicate Fits(l: Layout, mem: Bytes) {
    && l.keyPtr + 4 <= |mem| && l.bufPtr + MAX_VALUE_BYTES <= |mem| && l.outPtr + 4 <= |mem|
    && Disjoint(l.keyPtr, 4, l.bufPtr, MAX_VALUE_BYTES)
    && Disjoint(l.keyPtr, 4, l.outPtr, 4)
  }

  /** `Decode::decode(..).unwrap_or(5)`. */
  function ValueOf(v: Bytes): u32 {
    match DecodeU32(v) case None => 5 case Some((x, _)) => x
  }

  function Prepared(l: Layout, mem: Bytes): Bytes
    requires Fits(l, mem)
  {
    Place(Place(mem, l.keyPtr, KEY), l.bufPtr, Zeros(MAX_VALUE_BYTES))
  }

  /** `main` between its host calls, as the wasm code runs it. */
  function MainStep(l: Layout, control: GuestState, memory: Option<Bytes>): Action {
    if memory.None? || !Fits(l, memory.value) then Unreachable
    else
      var mem := memory.value;
      if control == [0] then Work(l.beforeGet, [1], Some(Prepared(l, mem)))
      else if control == [1] then Get(l.inGet, [2], l.keyPtr, 4, l.bufPtr, MAX_VALUE_BYTES)
      else if control == [2] then
        match DecodeVec(mem[l.bufPtr..l.bufPtr + MAX_VALUE_BYTES], U32_MAX)
        case None => Unreachable
        case Some((v, _)) => Work(l.beforeSet, [3], Some(Place(mem, l.outPtr, EncodeU32(NextU32(ValueOf(v))))))
      else if control == [3] then Set(l.inSet, [4], l.keyPtr, 4, l.outPtr, 4)
      else Finish
  }

  function Program(l: Layout): Stepper {
    (control, memory) => MainStep(l, control, memory)
  }

  function Kontract(l: Layout, mem: Bytes): Guest {
    Guest([0], Some(mem), Program(l))
  }

  function Fuel(l: Layout): nat {
    l.beforeGet + l.inGet + l.beforeSet + l.inSet + 4
  }

  // ---------- one run ----------

  lemma {:induction false} KeyPrepared(l: Layout, mem: Bytes)
    requires Fits(l, mem)
    ensures |Prepared(l, mem)| == |mem| && Fits(l, Prepared(l, mem))
    ensures Prepared(l, mem)[l.keyPtr..l.keyPtr + 4] == KEY
  {
    var m1 := Place(mem, l.keyPtr, KEY);
    assert m1[l.keyPtr..l.keyPtr + 4] == KEY;
    OthersKept(m1, l.bufPtr, Zeros(MAX_VALUE_BYTES), l.keyPtr, 4);
  }

  lemma {:induction false} OthersKept(mem: Bytes, ptr: u32, bytes: Bytes, other: u32, size: nat)
    requires ptr + |bytes| <= |mem| && other + size <= |mem| && Disjoint(ptr, |bytes|, other, size)
    ensures Place(mem, ptr, bytes)[other..other + size] == mem[other..other + size]
    ensures Place(mem, ptr, bytes)[ptr..ptr + |bytes|] == bytes
  {
  }

  lemma {:induction false} FitsSize(l: Layout, mem: Bytes)
    requires Fits(l, mem)
    ensures l.keyPtr + 4 <= |mem| && l.bufPtr + MAX_VALUE_BYTES <= |mem| && l.outPtr + 4 <= |mem|
    ensures Disjoint(l.outPtr, 4, l.keyPtr, 4) && Disjoint(l.bufPtr, MAX_VALUE_BYTES, l.keyPtr, 4)
    ensures forall mem': Bytes :: |mem'| == |mem| ==> Fits(l, mem')
  {
  }

  lemma {:induction false} ComputeAction(l: Layout, mem: Bytes, v: Bytes, rest: Bytes)
    requires Fits(l, mem)
    requires DecodeVec(mem[l.bufPtr..l.bufPtr + MAX_VALUE_BYTES], U32_MAX) == Some((v, rest))
    ensures Program(l)([2], Some(mem))
         == Work(l.beforeSet, [3], Some(Place(mem, l.outPtr, EncodeU32(NextU32(ValueOf(v))))))
  {
    hide Place, NextU32, ValueOf, EncodeU32, DecodeVec;
  }

  lemma {:induction false} OtherActions(l: Layout, mem: Bytes)
    requires Fits(l, mem)
    ensures Program(l)([0], Some(mem)) == Work(l.beforeGet, [1], Some(Prepared(l, mem)))
    ensures Program(l)([1], Some(mem)) == Get(l.inGet, [2], l.keyPtr, 4, l.bufPtr, MAX_VALUE_BYTES)
    ensures Program(l)([3], Some(mem)) == Set(l.inSet, [4], l.keyPtr, 4, l.outPtr, 4)
    ensures Program(l)([4], Some(mem)) == Finish
  {
    hide Prepared, DecodeVec;
  }

  // The run from each point of the program, for any fuel.

  lemma {:induction false} AtStart(l: Layout, hash: Bytes -> Bytes, i: Instance)
    requires i.memory.Some? && Fits(l, i.memory.value)
    ensures Run(hash, Program(l), [0], i)
         == if i.fuel < l.beforeGet + 1 then Trapped(Trap.OutOfFuel)
            else Run(hash, Program(l), [1], i.(fuel := i.fuel - l.beforeGet - 1, memory := Some(Prepared(l, i.memory.value))))
  {
    hide Run, Program, Fits, Prepared;
    OtherActions(l, i.memory.value);
    RunFront(hash, Program(l), [0], i);
  }

  lemma {:induction false} AtGet(l: Layout, hash: Bytes -> Bytes, i: Instance)
    requires i.memory.Some? && Fits(l, i.memory.value)
    ensures Run(hash, Program(l), [1], i)
         == if i.fuel < l.inGet + 1 then Trapped(Trap.OutOfFuel)
            else Continue(hash, Program(l), [2],
                          HostGet(hash, i.(fuel := i.fuel - l.inGet - 1), l.keyPtr, 4, l.bufPtr, MAX_VALUE_BYTES))
  {
    hide Run, Program, Fits, HostGet;
    OtherActions(l, i.memory.value);
    RunFront(hash, Program(l), [1], i);
  }

  lemma {:induction false} AtCompute(l: Layout, hash: Bytes -> Bytes, i: Instance, v: Bytes)
    requires i.memory.Some? && Fits(l, i.memory.value) && Holds(i.memory, l.bufPtr, MAX_VALUE_BYTES, v)
    ensures l.outPtr + 4 <= |i.memory.value|
    ensures Run(hash, Program(l), [2], i)
         == if i.fuel < l.beforeSet + 1 then Trapped(Trap.OutOfFuel)
            else Run(hash, Program(l), [3],
                     i.(fuel := i.fuel - l.beforeSet - 1,
                        memory := Some(Place(i.memory.value, l.outPtr, EncodeU32(NextU32(ValueOf(v)))))))
  {
    hide Run, Program, Fits, Place, NextU32, ValueOf, EncodeU32, DecodeVec;
    FitsSize(l, i.memory.value);
    ComputeAction(l, i.memory.value, v, DecodeVec(i.memory.value[l.bufPtr..l.bufPtr + MAX_VALUE_BYTES], U32_MAX).value.1);
    RunFront(hash, Program(l), [2], i);
  }

  lemma {:induction false} AtSet(l: Layout, hash: Bytes -> Bytes, i: Instance)
    requires i.memory.Some? && Fits(l, i.memory.value)
    ensures Run(hash, Program(l), [3], i)
         == if i.fuel < l.inSet + 1 then Trapped(Trap.OutOfFuel)
            else Continue(hash, Program(l), [4],
                          HostSet(hash, i.(fuel := i.fuel - l.inSet - 1), l.keyPtr, 4, l.outPtr, 4))
  {
    hide Run, Program, Fits, HostSet;
    OtherActions(l, i.memory.value);
    RunFront(hash, Program(l), [3], i);
  }

  lemma {:induction false} AtReturn(l: Layout, hash: Bytes -> Bytes, i: Instance)
    requires i.memory.Some? && Fits(l, i.memory.value)
    ensures Run(hash, Program(l), [4], i) == Completed(i.storage)
  {
    hide Run, Program, Fits;
    OtherActions(l, i.memory.value);
    RunFront(hash, Program(l), [4], i);
  }

  /** The memory before the call of `set`: the key is still in place, and the result is. */
  lemma {:induction false} ResultPlaced(l: Layout, mem: Bytes, mem': Bytes, out: Bytes)
    requires Fits(l, mem) && |mem'| == |mem| && |out| == 4 && mem[l.keyPtr..l.keyPtr + 4] == KEY
    requires mem'[..l.bufPtr] == mem[..l.bufPtr]
    requires mem'[l.bufPtr + MAX_VALUE_BYTES..] == mem[l.bufPtr + MAX_VALUE_BYTES..]
    ensures Fits(l, mem') && Fits(l, Place(mem', l.outPtr, out))
    ensures Place(mem', l.outPtr, out)[l.keyPtr..l.keyPtr + 4] == KEY
    ensures Place(mem', l.outPtr, out)[l.outPtr..l.outPtr + 4] == out
  {
    hide Place;
    KeptBeside(mem, mem', l.bufPtr, MAX_VALUE_BYTES, l.keyPtr, 4);
    OthersKept(mem', l.outPtr, out, l.keyPtr, 4);
  }

  /** The storage when the number that `v` holds has been replaced by its successor. */
  function Advanced(hash: Bytes -> Bytes, storage: Store, v: Bytes): Store {
    storage[hash(KEY) := EncodeU32(NextU32(ValueOf(v)))]
  }

  /** From the computation to the return. */
  lemma {:induction false} RunFromCompute(l: Layout, hash: Bytes -> Bytes, i: Instance, v: Bytes, before: Bytes)
    requires Fits(l, before) && before[l.keyPtr..l.keyPtr + 4] == KEY
    requires i.memory.Some? && |i.memory.value| == |before|
    requires i.memory.value[..l.bufPtr] == before[..l.bufPtr]
    requires i.memory.value[l.bufPtr + MAX_VALUE_BYTES..] == before[l.bufPtr + MAX_VALUE_BYTES..]
    requires Holds(i.memory, l.bufPtr, MAX_VALUE_BYTES, v)
    requires l.beforeSet + l.inSet + 2 <= i.fuel && Tick(i.currWrite, i.maxWrite).Some?
    ensures Run(hash, Program(l), [2], i) == Completed(Advanced(hash, i.storage, v))
  {
    hide Run, Program, Fits, Holds, Place, NextU32, ValueOf, EncodeU32, Tick;
    var mem, out := i.memory.value, EncodeU32(NextU32(ValueOf(v)));
    ResultPlaced(l, before, mem, out);
    AtCompute(l, hash, i, v);
    var i' := i.(fuel := i.fuel - l.beforeSet - 1, memory := Some(Place(mem, l.outPtr, out)));
    FitsSize(l, i'.memory.value);
    AtSet(l, hash, i');
    var paid := i'.(fuel := i'.fuel - l.inSet - 1);
    SetStores(hash, paid, l.keyPtr, 4, l.outPtr, 4);
    AtReturn(l, hash, HostSet(hash, paid, l.keyPtr, 4, l.outPtr, 4).after);
  }

  /**
   One run over any storage: whatever value of up to 63 bytes is found under the hashed key, it is
   replaced by the next number of the series (of 5 when it does not hold a number), and nothing else
   changes.
   */
  lemma {:induction false} RunAdvances(l: Layout, mem: Bytes, hash: Bytes -> Bytes, storage: Store, fuel: u32, maxRead: u32, maxWrite: u32)
    requires Fits(l, mem) && |Lookup(storage, hash(KEY))| < 64
    requires Fuel(l) <= fuel && 1 <= maxRead && 1 <= maxWrite
    ensures Run(hash, Program(l), [0], Start(Kontract(l, mem), storage, fuel, maxRead, maxWrite))
         == Completed(storage[hash(KEY) := EncodeU32(NextU32(ValueOf(Lookup(storage, hash(KEY)))))])
  {
    hide Run, Program, Fits, Prepared, Lookup, ValueOf, NextU32, EncodeU32, HostGet, Holds;
    var i := Start(Kontract(l, mem), storage, fuel, maxRead, maxWrite);
    AtStart(l, hash, i);
    KeyPrepared(l, mem);
    FitsSize(l, mem);
    var i' := i.(fuel := fuel - l.beforeGet - 1, memory := Some(Prepared(l, mem)));
    AtGet(l, hash, i');
    var paid := i'.(fuel := i'.fuel - l.inGet - 1);
    BufferFilled(hash, paid, l.keyPtr, 4, l.bufPtr);
    var r := HostGet(hash, paid, l.keyPtr, 4, l.bufPtr, MAX_VALUE_BYTES);
    RunFromCompute(l, hash, r.after, Lookup(storage, hash(KEY)), Prepared(l, mem));
  }

  /** With less fuel than its actions cost, the run ends out of fuel; so `Fuel` is the exact need. */
  lemma {:induction false} RunNeedsFuel(l: Layout, mem: Bytes, hash: Bytes -> Bytes, storage: Store, fuel: u32, maxRead: u32, maxWrite: u32)
    requires Fits(l, mem) && |Lookup(storage, hash(KEY))| < 64
    requires fuel < Fuel(l) && 1 <= maxRead && 1 <= maxWrite
    ensures Run(hash, Program(l), [0], Start(Kontract(l, mem), storage, fuel, maxRead, maxWrite)) == Trapped(Trap.OutOfFuel)
  {
    hide Run, Program, Fits, Prepared, Lookup, ValueOf, NextU32, EncodeU32, HostGet, Holds, Place;
    var i := Start(Kontract(l, mem), storage, fuel, maxRead, maxWrite);
    AtStart(l, hash, i);
    KeyPrepared(l, mem);
    FitsSize(l, mem);
    if fuel > l.beforeGet {
      var i' := i.(fuel := fuel - l.beforeGet - 1, memory := Some(Prepared(l, mem)));
      AtGet(l, hash, i');
      if i'.fuel > l.inGet {
        var paid := i'.(fuel := i'.fuel - l.inGet - 1);
        BufferFilled(hash, paid, l.keyPtr, 4, l.bufPtr);
        var r := HostGet(hash, paid, l.keyPtr, 4, l.bufPtr, MAX_VALUE_BYTES);
        NoFuelToSet(l, hash, r.after, Lookup(storage, hash(KEY)));
      }
    }
  }

  lemma {:induction false} NoFuelToSet(l: Layout, hash: Bytes -> Bytes, i: Instance, v: Bytes)
    requires i.memory.Some? && Fits(l, i.memory.value) && Holds(i.memory, l.bufPtr, MAX_VALUE_BYTES, v)
    requires i.fuel < l.beforeSet + l.inSet + 2
    ensures Run(hash, Program(l), [2], i) == Trapped(Trap.OutOfFuel)
  {
    hide Run, Program, Fits, Place, NextU32, ValueOf, EncodeU32, Holds;
    AtCompute(l, hash, i, v);
    if i.fuel > l.beforeSet {
      var placed := Place(i.memory.value, l.outPtr, EncodeU32(NextU32(ValueOf(v))));
      FitsSize(l, i.memory.value);
      AtSet(l, hash, i.(fuel := i.fuel - l.beforeSet - 1, memory := Some(placed)));
    }
  }

  // ---------- main in the guest's own form ----------

  /**
   `main` as it is written: read, compute, write, with the fuel of the code in between. For any fuel,
   budgets and storage it ends as the machine run does, with the same error or the same storage; when
   it returns, the number under the hashed key has been replaced by the next one and nothing else has
   changed, and whenever it stops early the storage is untouched.
   */
  method CollatzMain(store: KontractStore, l: Layout) returns (r: RunResult)
    requires store.memory.Some? && Fits(l, store.memory.value)
    modifies store
    ensures r == Run(store.hash, Program(l), [0], old(store.View()))
    ensures r.Completed? ==> r.storage == store.storage
    ensures store.storage == if !r.Completed? then old(store.storage)
                             else Advanced(store.hash, old(store.storage), Lookup(old(store.storage), store.hash(KEY)))
  {
    hide Run, Program, Fits, Holds, Lookup, Prepared, Advanced;
    AtStart(l, store.hash, store.View());
    KeyPlaced(l, store.memory.value);
    ghost var prepared := Prepared(l, store.memory.value);
    var ok := store.Consume(l.beforeGet);
    if !ok {
      return Trapped(Trap.OutOfFuel);
    }
    AtGet(l, store.hash, store.View().(memory := Some(prepared)));
    ok := store.Consume(l.inGet);
    if !ok {
      return Trapped(Trap.OutOfFuel);
    }
    var found := ReadNumber(store, l);
    if found.Stopped? {
      return if found.signal.Panic? then Aborted else Trapped(found.signal.trap);
    }
    r := WriteNext(store, l, found.value, prepared);
  }

  /** `read(key.encode())`: the answer of the host to the call from prepared memory. */
  method ReadNumber(store: KontractStore, l: Layout) returns (found: ReadResult)
    requires store.memory.Some? && Fits(l, store.memory.value)
    modifies store
    ensures var prepared := Prepared(l, old(store.memory).value);
            var got := HostGet(store.hash, old(store.View()).(memory := Some(prepared)), l.keyPtr, 4, l.bufPtr, MAX_VALUE_BYTES);
            && store.View() == got.after && store.storage == old(store.storage)
            && match found
               case Stopped(signal) => signal == got.signal && !signal.Fine?
               case Value(v) =>
                 && got.signal.Fine? && v == Lookup(store.storage, store.hash(KEY))
                 && Holds(store.memory, l.bufPtr, MAX_VALUE_BYTES, v)
                 && |store.memory.value| == |prepared| && store.memory.value[..l.bufPtr] == prepared[..l.bufPtr]
                 && store.memory.value[l.bufPtr + MAX_VALUE_BYTES..] == prepared[l.bufPtr + MAX_VALUE_BYTES..]
  {
    hide Fits, Place, EncodeU32, HostGet, Prepared, Tick, DecodeVec;
    var mem := store.memory.value;
    KeyPlaced(l, mem);
    FitsSize(l, mem);
    store.memory := Some(Place(mem, l.keyPtr, EncodeU32(1)));
    found := Read(store, l.keyPtr, 4, l.bufPtr);
  }

  /** The second half of `main`: compute the next number and write it. */
  method WriteNext(store: KontractStore, l: Layout, v: Bytes, ghost before: Bytes) returns (r: RunResult)
    requires Fits(l, before) && before[l.keyPtr..l.keyPtr + 4] == KEY
    requires store.memory.Some? && |store.memory.value| == |before|
    requires store.memory.value[..l.bufPtr] == before[..l.bufPtr]
    requires store.memory.value[l.bufPtr + MAX_VALUE_BYTES..] == before[l.bufPtr + MAX_VALUE_BYTES..]
    requires Holds(store.memory, l.bufPtr, MAX_VALUE_BYTES, v)
    modifies store
    ensures r == Run(store.hash, Program(l), [2], old(store.View()))
    ensures r.Completed? ==> r.storage == store.storage
    ensures store.storage == if !r.Completed? then old(store.storage) else Advanced(store.hash, old(store.storage), v)
  {
    hide Run, Program, Fits, Holds, Place, NextU32, ValueOf, EncodeU32;
    var mem := store.memory.value;
    var res := NextOf(ValueOf(v));
    ResultPlaced(l, before, mem, EncodeU32(res));
    AtCompute(l, store.hash, store.View(), v);
    var ok := store.Consume(l.beforeSet);
    if !ok {
      return Trapped(Trap.OutOfFuel);
    }
    var placed := Place(mem, l.outPtr, EncodeU32(res));
    FitsSize(l, placed);
    store.memory := Some(placed);
    r := StoreNumber(store, l, EncodeU32(res));
  }

  /** `write(key.encode(), res.encode())` and the return. */
  method StoreNumber(store: KontractStore, l: Layout, ghost out: Bytes) returns (r: RunResult)
    requires store.memory.Some? && Fits(l, store.memory.value)
    requires store.memory.value[l.keyPtr..l.keyPtr + 4] == KEY && store.memory.value[l.outPtr..l.outPtr + 4] == out
    modifies store
    ensures r == Run(store.hash, Program(l), [3], old(store.View()))
    ensures r.Completed? ==> r.storage == store.storage
    ensures store.storage == if !r.Completed? then old(store.storage) else old(store.storage)[store.hash(KEY) := out]
  {
    hide Run, Program, Fits, Tick, HostSet;
    FitsSize(l, store.memory.value);
    AtSet(l, store.hash, store.View());
    var ok := store.Consume(l.inSet);
    if !ok {
      return Trapped(Trap.OutOfFuel);
    }
    SetStores(store.hash, store.View(), l.keyPtr, 4, l.outPtr, 4);
    var signal := Write(store, l.keyPtr, 4, l.outPtr, 4);
    if !signal.Fine? {
      return Trapped(signal.trap);
    }
    AtReturn(l, store.hash, store.View());
    r := Completed(store.storage);
  }

  lemma {:induction false} KeyPlaced(l: Layout, mem: Bytes)
    requires Fits(l, mem)
    ensures var withKey := Place(mem, l.keyPtr, EncodeU32(1));
            && withKey[l.keyPtr..l.keyPtr + 4] == KEY && Fits(l, withKey)
            && Prepared(l, mem) == Place(withKey, l.bufPtr, Zeros(MAX_VALUE_BYTES))
            && Fits(l, Prepared(l, mem)) && Prepared(l, mem)[l.keyPtr..l.keyPtr + 4] == KEY
            && |Prepared(l, mem)| == |mem|
            && Prepared(l, mem)[..l.bufPtr] == withKey[..l.bufPtr]
            && Prepared(l, mem)[l.bufPtr + MAX_VALUE_BYTES..] == withKey[l.bufPtr + MAX_VALUE_BYTES..]
  {
    KeyPrepared(l, mem);
  }

  method NextOf(val: u32) returns (res: u32)
    ensures res == NextU32(val)
  {
    match val % 2 {
      case 0 => res := val / 2;
      case _ => res := AsU32(AsU32(val * 3) + 1);
    }
  }

  lemma {:induction false} SetStores(hash: Bytes -> Bytes, i: Instance, keyPtr: u32, keySize: u32, valuePtr: u32, valueSize: u32)
    requires InMemory(i.memory, keyPtr, keySize) && InMemory(i.memory, valuePtr, valueSize)
    ensures var r, mem := HostSet(hash, i, keyPtr, keySize, valuePtr, valueSize), i.memory.value;
            match Tick(i.currWrite, i.maxWrite)
            case None => r == Reply(Fault(ExceededWrites), i)
            case Some(n) =>
              r == Reply(Fine, i.(currWrite := n, storage :=
                     i.storage[hash(mem[keyPtr..keyPtr + keySize]) := mem[valuePtr..valuePtr + valueSize]]))
  {
  }

  // ---------- the kontract in the pallet ----------

  /** The storage after a run that wrote `n`. */
  function Holding(env: Env, n: nat): Store
    requires n <= U32_MAX
  {
    map[env.hash(KEY) := EncodeU32(n)]
  }

  /** The code behind `id` is the Collatz kontract, and the bounds admit its one entry. */
  ghost predicate Uploaded(env: Env, s: State, id: CodeId, l: Layout, mem: Bytes) {
    && id in s.codes && env.load(s.codes[id]) == Loaded(Kontract(l, mem)) && Fits(l, mem)
    && |env.hash(KEY)| == 32
    && env.limits.maxKey >= 32 && env.limits.maxValue >= 4 && env.limits.maxEntries >= 1
  }

  predicate Affordable(l: Layout, id: CodeId, call: Call) {
    SignedExecution(call) && call.id == id && Fuel(l) <= call.fuel && 1 <= call.maxRead && 1 <= call.maxWrite
  }

  lemma {:induction false} HoldingSize(env: Env, n: nat)
    requires n <= U32_MAX && |env.hash(KEY)| == 32
    ensures SizeOf(Holding(env, n)) == 38
  {
    EmptySize();
    SizeAfterSet(map[], env.hash(KEY), EncodeU32(n));
    assert map[][env.hash(KEY) := EncodeU32(n)] == Holding(env, n);
  }

  lemma {:induction false} ValueOfEncoded(n: u32)
    ensures ValueOf(EncodeU32(n)) == n
  {
    U32RoundTrip(n, []);
    assert EncodeU32(n) + [] == EncodeU32(n);
  }

  lemma {:induction false} ExecutionAdvances(env: Env, s: State, call: Call, l: Layout, mem: Bytes, n: nat)
    requires call.ExecuteCode? && Uploaded(env, s, call.id, l, mem) && Affordable(l, call.id, call)
    requires StorageOf(s, call.id) == if n == 0 then map[] else Holding(env, SeriesU32(n))
    ensures ExecutionOf(env, s, call) == Done(Holding(env, SeriesU32(n + 1)))
    ensures Within(env.limits, Holding(env, SeriesU32(n + 1)))
  {
    hide Run, Fits, Series, Program, NextU32, ValueOf, EncodeU32;
    var storage := StorageOf(s, call.id);
    SeriesIsSmall(n);
    ValueOfEncoded(SeriesU32(n));
    ValueOfNothing();
    RunAdvances(l, mem, env.hash, storage, call.fuel, call.maxRead, call.maxWrite);
    SeriesStarts();
    assert storage[env.hash(KEY) := EncodeU32(SeriesU32(n + 1))] == Holding(env, SeriesU32(n + 1));
  }

  function SeriesU32(n: nat): u32 {
    SeriesIsSmall(n);
    Series(n)
  }

  lemma {:induction false} ValueOfNothing()
    ensures ValueOf([]) == 5 && KEY == [1, 0, 0, 0]
  {
  }

  lemma {:induction false} SeriesStarts()
    ensures Series(0) == 5
  {
  }
}
