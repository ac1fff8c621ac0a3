/** The delete kontract of the tests in the pallet: what freeing storage is worth, by declaration. */
module Deletion {
  import opened Primitives
  import opened Scale
  import opened StorageSize
  import opened Host
  import opened Metering
  import opened GuestApi
  import opened Executor
  import opened PalletState
  import Ledger

  // ---------- the guest program ----------

  /** Where the encoded key lies, and what the code before the call and the call itself cost. */
  datatype Layout = Layout(key: Bytes, keyPtr: u32, before: nat, call: nat)

  predicate Fits(l: Layout, mem: Bytes) {
    |l.key| <= U32_MAX && l.keyPtr + |l.key| <= |mem|
  }

  function MainStep(l: Layout, control: GuestState, memory: Option<Bytes>): Action {
    if memory.None? || !Fits(l, memory.value) then Unreachable
    else if control == [0] then Work(l.before, [1], Some(Place(memory.value, l.keyPtr, l.key)))
    else if control == [1] then Remove(l.call, [2], l.keyPtr, |l.key|)
    else Finish
  }

  function Kontract(l: Layout, mem: Bytes): Guest {
    Guest([0], Some(mem), (control, memory) => MainStep(l, control, memory))
  }

  lemma {:induction false} RunDeletes(l: Layout, mem: Bytes, hash: Bytes -> Bytes, storage: Store, fuel: u32, maxRead: u32, maxWrite: u32)
    requires Fits(l, mem) && l.before + l.call + 2 <= fuel && 1 <= maxWrite
    ensures var guest := Kontract(l, mem);
            Run(hash, guest.step, guest.control, Start(guest, storage, fuel, maxRead, maxWrite))
            == Completed(storage - {hash(l.key)})
  {
    hide Run;
    var step := Kontract(l, mem).step;
    var i := Start(Kontract(l, mem), storage, fuel, maxRead, maxWrite);
    RunFront(hash, step, [0], i);
    var mem' := Place(mem, l.keyPtr, l.key);
    assert mem'[l.keyPtr..l.keyPtr + |l.key|] == l.key;
    var i' := i.(fuel := i.fuel - l.before - 1, memory := Some(mem'));
    RunFront(hash, step, [1], i');
    var r := HostRemove(hash, i'.(fuel := i'.fuel - l.call - 1), l.keyPtr, |l.key|);
    assert r.signal.Fine? && r.after.storage == storage - {hash(l.key)} && r.after.memory == i'.memory;
    RunFront(hash, step, [2], r.after);
  }

  // ---------- in the pallet ----------

  /** `id` is the delete kontract, and its storage is the one entry it deletes, of `bytes` bytes. */
  ghost predicate StoresOne(env: Env, s: State, id: CodeId, l: Layout, mem: Bytes, v: Bytes, bytes: nat) {
    && id in s.codes && env.load(s.codes[id]) == Loaded(Kontract(l, mem)) && Fits(l, mem)
    && StorageOf(s, id) == map[env.hash(l.key) := v] && bytes == EntrySize(env.hash(l.key), v) < 0x8000_0000
  }

  lemma {:induction false} DeletionFrees(env: Env, s: State, call: Call, l: Layout, mem: Bytes, v: Bytes, bytes: nat)
    requires SignedExecution(call) && StoresOne(env, s, call.id, l, mem, v, bytes)
    requires l.before + l.call + 2 <= call.fuel && 1 <= call.maxWrite
    ensures ExecutionOf(env, s, call) == Done(map[]) && SizeChange(s, call.id, map[]) == 0 - bytes && bytes > 0
  {
    hide Run, SizeOf, Encodable, Delta, EntrySize;
    RunDeletes(l, mem, env.hash, StorageOf(s, call.id), call.fuel, call.maxRead, call.maxWrite);
    OneEntry(env.hash(l.key), v);
    EmptySize();
    Ledger.ExactDelta(0, bytes);
  }

  lemma {:induction false} OneEntry(h: Bytes, v: Bytes)
    ensures map[h := v] - {h} == map[] && Encodable(map[])
    ensures SizeOf(map[h := v]) == EntrySize(h, v) && EntrySize(h, v) > 0
  {
    hide SizeOf;
    EmptySize();
    SizeAfterSet(map[], h, v);
    assert map[][h := v] == map[h := v];
  }

  /**
   Declared as freeing no more than it frees, the deletion is committed and as many units as bytes are
   unreserved. Declared as freeing more, by however little, it is undone and `2^32` minus the bytes are
   slashed.
   */
  lemma {:induction false} DeletionByDeclaration(env: Env, s: State, call: Call, l: Layout, mem: Bytes, v: Bytes, bytes: nat)
    requires SignedExecution(call) && StoresOne(env, s, call.id, l, mem, v, bytes)
    requires l.before + l.call + 2 <= call.fuel && 1 <= call.maxWrite
    ensures var who := call.origin.who;
            var a := AccountOf(s.accounts, who);
            Step(env, s, call) ==
              if 0 - bytes <= call.expected then
                (s.(accounts := Put(s.accounts, who, Unreserve(a, bytes)), storages := s.storages[call.id := map[]]),
                 Ok(CodeExecuted(call.id, who)))
              else
                (s.(accounts := Put(s.accounts, who, Slash(a, 0x1_0000_0000 - bytes))),
                 Ok(ExceededStorage(call.id, who)))
  {
    hide ExecutionOf, SizeChange, Judge, Put, Unreserve, Slash, StoresOne;
    StoresOneMeans(env, s, call.id, l, mem, v, bytes);
    DeletionFrees(env, s, call, l, mem, v, bytes);
    Ledger.DecidedByChange(env, s, call);
    Judged(env, s, call);
  }

  lemma {:induction false} StoresOneMeans(env: Env, s: State, id: CodeId, l: Layout, mem: Bytes, v: Bytes, bytes: nat)
    requires StoresOne(env, s, id, l, mem, v, bytes)
    ensures id in s.codes && bytes < 0x8000_0000 && Within(env.limits, map[])
  {
  }

  /**
   The account of the test holds 53 units and a deposit of 47 for the 47 bytes of the entry. Declaring
   -47 returns the deposit; declaring -48 burns all 100 units, and the 47 bytes stay stored.
   */
  lemma {:induction false} DeleteTest(env: Env, s: State, call: Call, l: Layout, mem: Bytes, v: Bytes)
    requires SignedExecution(call) && StoresOne(env, s, call.id, l, mem, v, 47)
    requires l.before + l.call + 2 <= call.fuel && 1 <= call.maxWrite
    requires AccountOf(s.accounts, call.origin.who) == Account(53, 47)
    ensures var s' := Step(env, s, call).0;
            && (call.expected == -47 ==> AccountOf(s'.accounts, call.origin.who) == Account(100, 0) && StorageOf(s', call.id) == map[])
            && (call.expected == -48 ==> AccountOf(s'.accounts, call.origin.who) == Account(0, 0) && StorageOf(s', call.id) == StorageOf(s, call.id))
  {
    hide Step, StoresOne;
    DeletionByDeclaration(env, s, call, l, mem, v, 47);
  }
}
