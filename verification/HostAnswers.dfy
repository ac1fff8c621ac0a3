/** What a guest gets for each host call, in terms of its pointers, its memory and the store alone. */
module HostAnswers {
  import opened Primitives
  import opened Scale
  import opened Host
  import opened GuestApi

  /**
   `set`: a pointer that leaves the memory is refused first, whatever the budgets, then an exhausted
   write budget; neither changes anything. Otherwise the bytes at the value pointer are stored under
   the hash of the bytes at the key pointer.
   */
  lemma {:induction false} SetAnswers(hash: Bytes -> Bytes, i: Instance, extra: nat, next: GuestState,
                   keyPtr: u32, keySize: u32, valuePtr: u32, valueSize: u32)
    requires i.currWrite < U32_MAX
    ensures var r := Perform(hash, Set(extra, next, keyPtr, keySize, valuePtr, valueSize), i);
            if i.memory.None? || keyPtr + keySize > |i.memory.value| || valuePtr + valueSize > |i.memory.value| then
              r == Reply(Fault(ReadingMemory), i)
            else if i.currWrite >= i.maxWrite then
              r == Reply(Fault(ExceededWrites), i)
            else
              var key := i.memory.value[keyPtr..keyPtr + keySize];
              var value := i.memory.value[valuePtr..valuePtr + valueSize];
              r == Reply(Fine, i.(currWrite := i.currWrite + 1, storage := i.storage[hash(key) := value]))
  {
  }

  /** `remove`: the same order of refusals; otherwise exactly the entry under the hash of the key goes. */
  lemma {:induction false} RemoveAnswers(hash: Bytes -> Bytes, i: Instance, extra: nat, next: GuestState, keyPtr: u32, keySize: u32)
    requires i.currWrite < U32_MAX
    ensures var r := Perform(hash, Remove(extra, next, keyPtr, keySize), i);
            if i.memory.None? || keyPtr + keySize > |i.memory.value| then
              r == Reply(Fault(ReadingMemory), i)
            else if i.currWrite >= i.maxWrite then
              r == Reply(Fault(ExceededWrites), i)
            else
              var key := i.memory.value[keyPtr..keyPtr + keySize];
              r == Reply(Fine, i.(currWrite := i.currWrite + 1, storage := i.storage - {hash(key)}))
  {
  }

  /**
   `get`: a key pointer that leaves the memory is refused first, then an exhausted read budget. A
   stored value longer than the buffer is a trap, one of 64 bytes or more, or one that does not fit the
   memory with its length byte, a panic. Any other stored value is written behind its length byte, and
   a missing one as the single byte 0; no other byte of the memory changes, and the store never does.
   */
  lemma {:induction false} GetAnswers(hash: Bytes -> Bytes, i: Instance, extra: nat, next: GuestState,
                   keyPtr: u32, keySize: u32, bufPtr: u32, bufSize: u32)
    requires i.currRead < U32_MAX
    ensures var r := Perform(hash, Get(extra, next, keyPtr, keySize, bufPtr, bufSize), i);
            if i.memory.None? || keyPtr + keySize > |i.memory.value| then
              r == Reply(Fault(ReadingMemory), i)
            else if i.currRead >= i.maxRead then
              r == Reply(Fault(ExceededReads), i)
            else
              var mem, counted := i.memory.value, i.(currRead := i.currRead + 1);
              var h := hash(mem[keyPtr..keyPtr + keySize]);
              if h !in i.storage then
                if bufPtr >= |mem| then r == Reply(Panic, counted)
                else r == Reply(Fine, counted.(memory := Some(mem[bufPtr := 0])))
              else
                var v := i.storage[h];
                if |v| > bufSize then r == Reply(Fault(WritingMemory), counted)
                else if |v| >= 64 || bufPtr + |v| >= |mem| then r == Reply(Panic, counted)
                else
                  r == Reply(Fine, counted.(memory :=
                         Some(mem[..bufPtr] + [4 * |v|] + v + mem[bufPtr + |v| + 1..])))
  {
    var mem := i.memory;
    if mem.Some? && keyPtr + keySize <= |mem.value| {
      var h := hash(mem.value[keyPtr..keyPtr + keySize]);
      if h in i.storage {
        WrittenBytes(mem.value, i.storage[h], bufPtr, bufSize);
      } else {
        WrittenBytes(mem.value, [], bufPtr, bufSize);
        if bufPtr < |mem.value| {
          assert mem.value[..bufPtr] + [0] + [] + mem.value[bufPtr + 1..] == mem.value[bufPtr := 0];
        }
      }
    }
  }

  lemma {:induction false} WrittenBytes(mem: Bytes, v: Bytes, ptr: u32, size: u32)
    ensures WriteVec(Some(mem), v, ptr, size)
         == if |v| > size then Refused
            else if |v| >= 64 || ptr + |v| >= |mem| then Panicked
            else Wrote(mem[..ptr] + [4 * |v|] + v + mem[ptr + |v| + 1..])
  {
    if |v| <= size {
      EncodedLength(v);
      if |v| < 64 && ptr + |v| < |mem| {
        assert mem[..ptr] + ([4 * |v|] + v) + mem[ptr + |v| + 1..] == mem[..ptr] + [4 * |v|] + v + mem[ptr + |v| + 1..];
      }
    }
  }
}
