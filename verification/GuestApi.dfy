/** The functions the `kontracts` attribute generates for a guest, over the host calls. */
module GuestApi {
  import opened Primitives
  import opened Scale
  import opened Host

  const MAX_VALUE_BYTES: u32 := 100

  // ---------- one value, from the host into a guest buffer ----------

  lemma {:induction false} EncodedLength(v: Bytes)
    requires |v| <= U32_MAX
    ensures |EncodeVec(v)| == CompactLen(|v|) + |v|
    ensures |EncodeVec(v)| == |v| + 1 <==> |v| < 64
  {
    VecRoundTrip(v, [], U32_MAX);
  }

  /**
   When `write_vec` succeeds, refuses and panics: the slice and the encoded value have the same
   length exactly for values below 64 bytes, and longer ones that fit the buffer bring the host down.
   */
  lemma {:induction false} WriteVecOutcome(mem: Bytes, v: Bytes, ptr: u32, size: u32)
    ensures WriteVec(None, v, ptr, size).Refused?
    ensures WriteVec(Some(mem), v, ptr, size).Refused? <==> |v| > size
    ensures WriteVec(Some(mem), v, ptr, size).Wrote? <==> |v| <= size && |v| < 64 && ptr + |v| + 1 <= |mem|
  {
    if |v| <= size {
      EncodedLength(v);
    }
  }

  /**
   A value of at most 63 bytes that is shorter than its buffer comes back out of the buffer
   unchanged, and no byte outside the buffer is touched.
   */
  lemma {:induction false} ValueRoundTrip(mem: Bytes, v: Bytes, ptr: u32, size: u32)
    requires |v| < 64 && |v| < size && ptr + size <= |mem|
    ensures var w := WriteVec(Some(mem), v, ptr, size);
            && w.Wrote? && |w.memory| == |mem|
            && w.memory[..ptr] == mem[..ptr] && w.memory[ptr + size..] == mem[ptr + size..]
            && DecodeVec(w.memory[ptr..ptr + size], U32_MAX) == Some((v, mem[ptr + |v| + 1..ptr + size]))
  {
    EncodedLength(v);
    var rest := mem[ptr + |v| + 1..ptr + size];
    var written := mem[..ptr] + EncodeVec(v) + mem[ptr + |v| + 1..];
    assert written[ptr..ptr + size] == EncodeVec(v) + rest;
    assert written[..ptr] == mem[..ptr] && written[ptr + size..] == mem[ptr + size..];
    VecRoundTrip(v, rest, U32_MAX);
  }

  /**
   The size check compares with the bare length of the value. So a write stays inside the buffer
   exactly when the value is shorter than the buffer; one of the very same length puts its last
   encoded byte just behind it.
   */
  lemma {:induction false} BufferOverrun(mem: Bytes, v: Bytes, ptr: u32, size: u32)
    requires WriteVec(Some(mem), v, ptr, size).Wrote?
    ensures var after := WriteVec(Some(mem), v, ptr, size).memory;
            && |after| == |mem|
            && |v| <= size && after[ptr..ptr + |v| + 1] == EncodeVec(v)
            && (|v| < size ==> forall n :: 0 <= n < |mem| && !(ptr <= n < ptr + size) ==> after[n] == mem[n])
            && (|v| == size ==> after[ptr + size] == EncodeVec(v)[size])
            && (forall n :: 0 <= n < |mem| && !(ptr <= n <= ptr + |v|) ==> after[n] == mem[n])
  {
    EncodedLength(v);
  }

  // ---------- the generated functions ----------

  /** Bytes written into guest memory, as by the guest's own stores. */
  function Place(mem: Bytes, ptr: u32, bytes: Bytes): (r: Bytes)
    requires ptr + |bytes| <= |mem|
    ensures |r| == |mem|
  {
    mem[..ptr] + bytes + mem[ptr + |bytes|..]
  }

  function Zeros(n: nat): (r: Bytes)
    ensures |r| == n && forall k :: 0 <= k < n ==> r[k] == 0
  {
    seq(n, _ => 0)
  }

  datatype ReadResult = Value(value: Bytes) | Stopped(signal: Signal)

  /** A vector of the guest lies in its memory. */
  predicate InMemory(memory: Option<Bytes>, ptr: u32, size: u32) {
    memory.Some? && ptr + size <= |memory.value|
  }

  /**
   `write(key, value)`: with the write budget not used up the value is stored under the hash of the
   key, and every other entry, the memory and the fuel stay as they are; otherwise nothing changes.
   */
  method Write(store: KontractStore, keyPtr: u32, keySize: u32, valuePtr: u32, valueSize: u32) returns (signal: Signal)
    requires InMemory(store.memory, keyPtr, keySize) && InMemory(store.memory, valuePtr, valueSize)
    modifies store
    ensures var mem := old(store.memory).value;
            var key, value := mem[keyPtr..keyPtr + keySize], mem[valuePtr..valuePtr + valueSize];
            match Tick(old(store.currWrite), store.maxWrite)
            case None => signal == Fault(ExceededWrites) && store.View() == old(store.View())
            case Some(n) =>
              && signal == Fine
              && store.View() == old(store.View()).(currWrite := n, storage := old(store.storage)[store.hash(key) := value])
  {
    signal := store.SetClosure(keyPtr, keySize, valuePtr, valueSize);
  }

  /** `delete(key)`: exactly the entry under the hash of the key goes, or nothing changes. */
  method Delete(store: KontractStore, keyPtr: u32, keySize: u32) returns (signal: Signal)
    requires InMemory(store.memory, keyPtr, keySize)
    modifies store
    ensures var key := old(store.memory).value[keyPtr..keyPtr + keySize];
            match Tick(old(store.currWrite), store.maxWrite)
            case None => signal == Fault(ExceededWrites) && store.View() == old(store.View())
            case Some(n) =>
              && signal == Fine
              && store.View() == old(store.View()).(currWrite := n, storage := old(store.storage) - {store.hash(key)})
              && Lookup(store.storage, store.hash(key)) == []
  {
    signal := store.RemoveClosure(keyPtr, keySize);
  }

  /**
   `read`: a zeroed buffer of 100 bytes, which the allocator keeps apart from the key, is filled by
   the host and decoded. Values of up to 63 bytes arrive unchanged, a missing one as the empty
   vector; values of 64 to 100 bytes bring the host down, longer ones trap.
   */
  method Read(store: KontractStore, keyPtr: u32, keySize: u32, bufPtr: u32) returns (r: ReadResult)
    requires store.memory.Some? && keyPtr + keySize <= |store.memory.value|
    requires bufPtr + MAX_VALUE_BYTES <= |store.memory.value|
    requires keyPtr + keySize <= bufPtr || bufPtr + MAX_VALUE_BYTES <= keyPtr
    modifies store
    ensures var mem := old(store.memory).value;
            var h := store.hash(mem[keyPtr..keyPtr + keySize]);
            var v := if h in old(store.storage) then old(store.storage)[h] else [];
            && store.storage == old(store.storage) && store.fuel == old(store.fuel)
            && store.currWrite == old(store.currWrite)
            && store.memory.Some? && |store.memory.value| == |mem|
            && store.memory.value[..bufPtr] == mem[..bufPtr]
            && store.memory.value[bufPtr + MAX_VALUE_BYTES..] == mem[bufPtr + MAX_VALUE_BYTES..]
            && match Tick(old(store.currRead), store.maxRead)
               case None => r == Stopped(Fault(ExceededReads)) && store.currRead == old(store.currRead)
               case Some(n) =>
                 && store.currRead == n
                 && r == if |v| < 64 then Value(v)
                         else if |v| <= 100 then Stopped(Panic)
                         else Stopped(Fault(WritingMemory))
    ensures var zeroed := Some(Place(old(store.memory).value, bufPtr, Zeros(MAX_VALUE_BYTES)));
            var got := HostGet(store.hash, old(store.View()).(memory := zeroed), keyPtr, keySize, bufPtr, MAX_VALUE_BYTES);
            && store.View() == got.after
            && match r
               case Stopped(signal) => signal == got.signal && !signal.Fine?
               case Value(v) =>
                 && got.signal.Fine?
                 && var decoded := DecodeVec(store.memory.value[bufPtr..bufPtr + MAX_VALUE_BYTES], U32_MAX);
                    decoded.Some? && decoded.value.0 == v
  {
    hide HostGet, DecodeVec, Place;
    var mem := store.memory.value;
    var zeroed := Place(mem, bufPtr, Zeros(MAX_VALUE_BYTES));
    store.memory := Some(zeroed);
    BufferPrepared(mem, keyPtr, keySize, bufPtr);
    BufferFilled(store.hash, store.View(), keyPtr, keySize, bufPtr);
    var signal := store.GetClosure(keyPtr, keySize, bufPtr, MAX_VALUE_BYTES);
    if !signal.Fine? {
      return Stopped(signal);
    }
    var decoded := DecodeVec(store.memory.value[bufPtr..bufPtr + MAX_VALUE_BYTES], U32_MAX);
    r := if decoded == None then Stopped(Fault(WasmTrap)) else Value(decoded.value.0);
  }

  lemma {:induction false} BufferPrepared(mem: Bytes, keyPtr: u32, keySize: u32, bufPtr: u32)
    requires keyPtr + keySize <= |mem| && bufPtr + MAX_VALUE_BYTES <= |mem|
    requires keyPtr + keySize <= bufPtr || bufPtr + MAX_VALUE_BYTES <= keyPtr
    ensures var zeroed := Place(mem, bufPtr, Zeros(MAX_VALUE_BYTES));
            && zeroed[keyPtr..keyPtr + keySize] == mem[keyPtr..keyPtr + keySize]
            && zeroed[..bufPtr] == mem[..bufPtr]
            && zeroed[bufPtr + MAX_VALUE_BYTES..] == mem[bufPtr + MAX_VALUE_BYTES..]
  {
  }

  /** The answer of the host to a read into a buffer of 100 bytes, for every length of the value. */
  lemma {:induction false} BufferFilled(hash: Bytes -> Bytes, i: Instance, keyPtr: u32, keySize: u32, bufPtr: u32)
    requires i.memory.Some? && keyPtr + keySize <= |i.memory.value| && bufPtr + MAX_VALUE_BYTES <= |i.memory.value|
    ensures var mem := i.memory.value;
            var v := Lookup(i.storage, hash(mem[keyPtr..keyPtr + keySize]));
            var r := HostGet(hash, i, keyPtr, keySize, bufPtr, MAX_VALUE_BYTES);
            && r.after == i.(currRead := r.after.currRead, memory := r.after.memory)
            && r.after.memory.Some? && |r.after.memory.value| == |mem|
            && r.after.memory.value[..bufPtr] == mem[..bufPtr]
            && r.after.memory.value[bufPtr + MAX_VALUE_BYTES..] == mem[bufPtr + MAX_VALUE_BYTES..]
            && match Tick(i.currRead, i.maxRead)
               case None => r.signal == Fault(ExceededReads) && r.after.currRead == i.currRead
               case Some(n) =>
                 && r.after.currRead == n
                 && if |v| < 64 then r.signal == Fine && Holds(r.after.memory, bufPtr, MAX_VALUE_BYTES, v)
                    else r.signal == if |v| <= MAX_VALUE_BYTES then Panic else Fault(WritingMemory)
  {
    hide WriteVec, DecodeVec, Tick, Lookup;
    var mem := i.memory.value;
    var v := Lookup(i.storage, hash(mem[keyPtr..keyPtr + keySize]));
    WriteVecOutcome(mem, v, bufPtr, MAX_VALUE_BYTES);
    if |v| < 64 {
      ValueRoundTrip(mem, v, bufPtr, MAX_VALUE_BYTES);
    }
  }

  /**
   What a guest has written under a key of fewer than 64 bytes it reads back from the same key, and
   what it has removed it reads as empty, whatever was stored before.
   */
  lemma {:induction false} ReadYourWrites(hash: Bytes -> Bytes, i: Instance, keyPtr: u32, key: Bytes,
                                          valuePtr: u32, value: Bytes, bufPtr: u32, size: u32)
    requires |key| <= U32_MAX && InMemory(i.memory, keyPtr, |key|) && i.memory.value[keyPtr..keyPtr + |key|] == key
    requires |value| < 64 && InMemory(i.memory, valuePtr, |value|) && i.memory.value[valuePtr..valuePtr + |value|] == value
    requires |value| < size && bufPtr + size <= |i.memory.value|
    requires Tick(i.currWrite, i.maxWrite).Some? && Tick(i.currRead, i.maxRead).Some?
    ensures var written := HostSet(hash, i, keyPtr, |key|, valuePtr, |value|);
            var got := HostGet(hash, written.after, keyPtr, |key|, bufPtr, size);
            written.signal.Fine? && got.signal.Fine? && Holds(got.after.memory, bufPtr, size, value)
    ensures var removed := HostRemove(hash, i, keyPtr, |key|);
            var got := HostGet(hash, removed.after, keyPtr, |key|, bufPtr, size);
            removed.signal.Fine? && got.signal.Fine? && Holds(got.after.memory, bufPtr, size, [])
  {
    hide WriteVec, DecodeVec, Tick;
    ValueRoundTrip(i.memory.value, value, bufPtr, size);
    ValueRoundTrip(i.memory.value, [], bufPtr, size);
  }

  /** The buffer decodes to the value, as `read` decodes it. */
  predicate Holds(memory: Option<Bytes>, ptr: u32, size: u32, value: Bytes) {
    memory.Some? && ptr + size <= |memory.value| &&
    var decoded := DecodeVec(memory.value[ptr..ptr + size], U32_MAX);
    decoded.Some? && decoded.value.0 == value
  }

  /** Bytes beside a region that alone has changed. */
  lemma {:induction false} KeptBeside(before: Bytes, after: Bytes, ptr: u32, size: u32, other: u32, otherSize: nat)
    requires |before| == |after| && ptr + size <= |before| && other + otherSize <= |before|
    requires after[..ptr] == before[..ptr] && after[ptr + size..] == before[ptr + size..]
    requires other + otherSize <= ptr || ptr + size <= other
    ensures after[other..other + otherSize] == before[other..other + otherSize]
  {
    var end := ptr + size;
    forall n | other <= n < other + otherSize ensures after[n] == before[n] {
      if n < ptr {
        assert after[..ptr][n] == before[..ptr][n];
      } else {
        assert after[end..][n - end] == before[end..][n - end];
      }
    }
  }
}
