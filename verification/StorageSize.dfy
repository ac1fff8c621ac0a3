/** The byte size of a kontract's storage, the quantity deposits are taken for. */
module StorageSize {
  import opened Primitives
  import opened Scale
  import opened ByteOrder
  import Sums

  function EntrySize(k: Bytes, v: Bytes): nat {
    CompactLen(|k|) + |k| + CompactLen(|v|) + |v|
  }

  ghost function EntrySizes(m: Store): map<Bytes, int> {
    map k | k in m :: EntrySize(k, m[k])
  }

  ghost function SizeOf(m: Store): int {
    Sums.Total(EntrySizes(m))
  }

  /** Bytes taken by the entry at `k`, 0 when there is none. */
  function SizeAt(m: Store, k: Bytes): nat {
    if k in m then EntrySize(k, m[k]) else 0
  }

  lemma {:induction false} EmptySize()
    ensures SizeOf(map[]) == 0
  {
    assert EntrySizes(map[]) == map[];
  }

  lemma {:induction false} SizeAfterSet(m: Store, k: Bytes, v: Bytes)
    ensures SizeOf(m[k := v]) == SizeOf(m) - SizeAt(m, k) + EntrySize(k, v)
  {
    assert EntrySizes(m[k := v]) == EntrySizes(m)[k := EntrySize(k, v)];
    Sums.Write(EntrySizes(m), k, EntrySize(k, v));
  }

  lemma {:induction false} SizeAfterRemove(m: Store, k: Bytes)
    ensures SizeOf(m - {k}) == SizeOf(m) - SizeAt(m, k)
  {
    assert EntrySizes(m - {k}) == EntrySizes(m) - {k};
    Sums.Remove(EntrySizes(m), k);
  }

  lemma {:induction false} SizeNonNegative(m: Store)
    ensures SizeOf(m) >= 0
  {
    Sums.NonNegative(EntrySizes(m));
  }

  /** The encoded entries take exactly the sum of the entry sizes, whatever the map. */
  lemma {:induction false} EncodedSize(m: Store)
    requires EntriesWithin(UNBOUNDED, m)
    ensures |EncodeEntries(m)| == SizeOf(m)
    decreases |m|
  {
    if m == map[] {
      EmptySize();
    } else {
      var k := Least(m.Keys);
      assert (m - {k}).Keys == m.Keys - {k};
      EncodeUnfold(m, k);
      EncodedSize(m - {k});
      SizeAfterRemove(m, k);
      VecRoundTrip(k, [], U32_MAX);
      VecRoundTrip(m[k], [], U32_MAX);
    }
  }

  /** `get_storage_size`: what is left after the entry count, truncated to an `i32`. */
  function GetStorageSize(raw: Bytes): i32
    requires DecodeCompact(raw).Some?
  {
    AsI32(|DecodeCompact(raw).value.1|)
  }

  lemma {:induction false} MeasuredSize(m: Store)
    requires Encodable(m)
    ensures DecodeCompact(Encode(m)).Some? && GetStorageSize(Encode(m)) == AsI32(SizeOf(m))
  {
    CompactRoundTrip(|m|, EncodeEntries(m));
    EncodedSize(m);
  }

  // ---------- bounds ----------

  function MaxEntrySize(limits: Limits): nat {
    CompactLen(limits.maxKey) + limits.maxKey + CompactLen(limits.maxValue) + limits.maxValue
  }

  /** No committed storage can reach 2 GiB under these bounds. */
  predicate FitsI32(limits: Limits) {
    limits.maxEntries * MaxEntrySize(limits) < 0x8000_0000
  }

  lemma {:induction false} BoundedSize(limits: Limits, m: Store)
    requires Within(limits, m)
    ensures 0 <= SizeOf(m) <= limits.maxEntries * MaxEntrySize(limits)
  {
    Sums.Bounded(EntrySizes(m), MaxEntrySize(limits));
    assert EntrySizes(m).Keys == m.Keys;
    Times(|m|, limits.maxEntries, MaxEntrySize(limits));
  }

  lemma {:induction false} Times(a: nat, b: nat, c: nat)
    requires a <= b
    ensures a * c <= b * c
  {
  }

  /** With the 32-byte keys the host produces, an entry is 33 bytes plus the encoded value. */
  lemma {:induction false} HashedKeysSize(limits: Limits, m: Store)
    requires Within(limits, m) && forall k :: k in m ==> |k| == 32
    ensures 0 <= SizeOf(m) <= limits.maxEntries * (33 + CompactLen(limits.maxValue) + limits.maxValue)
  {
    BoundedSize(Limits(32, limits.maxValue, limits.maxEntries), m);
  }

  // ---------- entries are not bytes ----------

  /** Distinct 32-byte keys. */
  function NthKey(n: u32): (k: Bytes)
    ensures |k| == 32
  {
    EncodeU32(n) + seq(28, _ => 0)
  }

  /** `n` entries with empty values. */
  function Entries(n: u32): Store {
    if n == 0 then map[] else Entries(n - 1)[NthKey(n - 1) := []]
  }

  lemma {:induction false} KeysDiffer(m: u32, n: u32)
    requires m != n
    ensures NthKey(m) != NthKey(n)
  {
    U32RoundTrip(m, NthKey(m)[4..]);
    U32RoundTrip(n, NthKey(n)[4..]);
    assert NthKey(m) == EncodeU32(m) + NthKey(m)[4..];
    assert NthKey(n) == EncodeU32(n) + NthKey(n)[4..];
  }

  lemma {:induction false} EntriesAt(n: u32, k: Bytes)
    requires k in Entries(n)
    ensures Entries(n)[k] == [] && exists i: u32 :: i < n && k == NthKey(i)
    decreases n
  {
    hide NthKey;
    if k != NthKey(n - 1) {
      EntriesAt(n - 1, k);
    }
  }

  lemma {:induction false} EntriesSize(n: u32)
    ensures |Entries(n)| == n && SizeOf(Entries(n)) == 34 * n
  {
    hide NthKey, SizeOf;
    if n == 0 {
      EmptySize();
    } else {
      EntriesSize(n - 1);
      var smaller, key := Entries(n - 1), NthKey(n - 1);
      if key in smaller {
        EntriesAt(n - 1, key);
        var i: u32 :| i < n - 1 && key == NthKey(i);
        KeysDiffer(i, n - 1);
      }
      assert smaller[key := []].Keys == smaller.Keys + {key};
      SizeAfterSet(smaller, key, []);
    }
  }

  /** `MaxKontracStorageSize` admits storages of 34 times as many bytes, and more: it counts entries. */
  lemma {:induction false} EntriesNotBytes(limits: Limits)
    requires limits.maxKey >= 32
    ensures var m := Entries(limits.maxEntries);
            Within(limits, m) && SizeOf(m) == 34 * limits.maxEntries
  {
    EntriesSize(limits.maxEntries);
    var m := Entries(limits.maxEntries);
    forall k | k in m ensures |k| <= limits.maxKey && |m[k]| <= limits.maxValue {
      EntriesAt(limits.maxEntries, k);
    }
  }
}
