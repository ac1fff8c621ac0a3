/**
 The SCALE codec (appendix A.2.2 of the Polkadot Protocol Specification), as far as pallet, host
 and guest exchange data through it: compact lengths, `Vec<u8>`, little-endian `u32` and maps
 written in key order.
 */
module Scale {
  import opened Primitives
  import opened ByteOrder

  type Store = map<Bytes, Bytes>

  // ---------- fixed-width integers ----------

  function EncodeU16(n: int): (b: Bytes)
    requires 0 <= n < 0x1_0000
    ensures |b| == 2
  {
    [n % 0x100, n / 0x100]
  }

  function EncodeU32(n: u32): (b: Bytes)
    ensures |b| == 4
  {
    [n % 0x100, n / 0x100 % 0x100, n / 0x100 / 0x100 % 0x100, n / 0x100 / 0x100 / 0x100]
  }

  /** A little-endian number with lowest byte `low`. */
  function Join(low: byte, high: nat): nat {
    low + 0x100 * high
  }

  function DecodeU16(b: Bytes): Option<(u32, Bytes)> {
    if |b| < 2 then None
    else Some((Join(b[0], b[1]), b[2..]))
  }

  function DecodeU32(b: Bytes): Option<(u32, Bytes)> {
    if |b| < 4 then None
    else Some((Join(b[0], Join(b[1], Join(b[2], b[3]))), b[4..]))
  }

  lemma {:induction false} JoinSplits(low: byte, high: nat)
    ensures Join(low, high) % 0x100 == low && Join(low, high) / 0x100 == high
  {
  }

  lemma {:induction false} SplitJoins(n: nat)
    ensures Join(n % 0x100, n / 0x100) == n
  {
  }

  lemma {:induction false} U16RoundTrip(n: int, rest: Bytes)
    requires 0 <= n < 0x1_0000
    ensures DecodeU16(EncodeU16(n) + rest) == Some((n, rest))
  {
    assert (EncodeU16(n) + rest)[2..] == rest;
  }

  lemma {:induction false} U32RoundTrip(n: u32, rest: Bytes)
    ensures DecodeU32(EncodeU32(n) + rest) == Some((n, rest))
  {
    var n1, n2 := n / 0x100, n / 0x100 / 0x100;
    var b := EncodeU32(n) + rest;
    assert b[4..] == rest;
    assert Join(b[2], b[3]) == n2 by { SplitJoins(n2); }
    assert Join(b[1], n2) == n1 by { SplitJoins(n1); }
    assert Join(b[0], n1) == n by { SplitJoins(n); }
  }

  lemma {:induction false} U16Canonical(b: Bytes)
    requires |b| >= 2
    ensures b == EncodeU16(DecodeU16(b).value.0) + b[2..]
  {
    JoinSplits(b[0], b[1]);
  }

  lemma {:induction false} U32Canonical(b: Bytes)
    requires |b| >= 4
    ensures b == EncodeU32(DecodeU32(b).value.0) + b[4..]
  {
    hide Join;
    var n2 := Join(b[2], b[3]);
    var n1 := Join(b[1], n2);
    JoinSplits(b[2], b[3]);
    JoinSplits(b[1], n2);
    JoinSplits(b[0], n1);
  }

  /** The number that bytes stand for, lowest byte first. */
  function LittleEndian(b: Bytes): nat {
    if b == [] then 0 else b[0] + 0x100 * LittleEndian(b[1..])
  }

  lemma {:induction false} LittleEndian4(b: Bytes)
    requires |b| == 4
    ensures LittleEndian(b) == b[0] as int + 0x100 * b[1] as int + 0x1_0000 * b[2] as int + 0x100_0000 * b[3] as int
  {
    LittleEndian2(b[2..]);
    assert b[1..][1..] == b[2..];
    assert LittleEndian(b[1..]) == b[1] + 0x100 * LittleEndian(b[2..]);
  }

  lemma {:induction false} LittleEndian2(b: Bytes)
    requires |b| == 2
    ensures LittleEndian(b) == b[0] as int + 0x100 * b[1] as int
  {
    assert LittleEndian(b[1..]) == b[1] + 0x100 * LittleEndian(b[1..][1..]);
    assert b[1..][1..] == [];
  }

  /** Fixed-width integers are written lowest byte first. */
  lemma {:induction false} IntegersAreLittleEndian(n: u32)
    ensures LittleEndian(EncodeU32(n)) == n
    ensures n < 0x1_0000 ==> LittleEndian(EncodeU16(n)) == n
  {
    var n1, n2 := n / 0x100, n / 0x100 / 0x100;
    LittleEndian4(EncodeU32(n));
    SplitJoins(n);
    SplitJoins(n1);
    SplitJoins(n2);
    if n < 0x1_0000 {
      LittleEndian2(EncodeU16(n));
    }
  }

  // ---------- compact integers ----------

  /** `Compact<u32>`: the two low bits of the first byte select one of four widths. */
  function EncodeCompact(n: u32): Bytes {
    if n < 0x40 then [4 * n]
    else if n < 0x4000 then EncodeU16(4 * n + 1)
    else if n < 0x4000_0000 then EncodeU32(4 * n + 2)
    else [3] + EncodeU32(n)
  }

  /** Number of bytes of the compact prefix of a length. */
  function CompactLen(n: nat): nat {
    if n < 0x40 then 1 else if n < 0x4000 then 2 else if n < 0x4000_0000 then 4 else 5
  }

  /** A value that would fit a narrower mode is refused, as are lengths above `u32::MAX`. */
  function DecodeCompact(b: Bytes): Option<(u32, Bytes)> {
    if b == [] then None
    else match b[0] % 4
      case 0 => Some((b[0] / 4, b[1..]))
      case 1 =>
        (match DecodeU16(b)
         case None => None
         case Some((x, rest)) => if x / 4 > 0x3F then Some((x / 4, rest)) else None)
      case 2 =>
        (match DecodeU32(b)
         case None => None
         case Some((x, rest)) => if x / 4 > 0x3FFF then Some((x / 4, rest)) else None)
      case _ =>
        if b[0] != 3 then None
        else
          (match DecodeU32(b[1..])
           case None => None
           case Some((x, rest)) => if x > 0x3FFF_FFFF then Some((x, rest)) else None)
  }

  /** The first byte of a two- or four-byte mode shows the mode in its two low bits. */
  lemma {:induction false} LowBits(n: nat, mode: nat)
    requires mode < 4
    ensures (4 * n + mode) % 0x100 == 4 * (n % 0x40) + mode
  {
    var q, r := n / 0x40, n % 0x40;
    assert 4 * n + mode == 0x100 * q + (4 * r + mode);
  }

  lemma {:induction false} CompactRoundTrip16(n: u32, rest: Bytes)
    requires 0x40 <= n < 0x4000
    ensures DecodeCompact(EncodeCompact(n) + rest) == Some((n, rest))
  {
    U16RoundTrip(4 * n + 1, rest);
    LowBits(n, 1);
  }

  lemma {:induction false} CompactRoundTrip32(n: u32, rest: Bytes)
    requires 0x4000 <= n < 0x4000_0000
    ensures DecodeCompact(EncodeCompact(n) + rest) == Some((n, rest))
  {
    hide DecodeU32;
    U32RoundTrip(4 * n + 2, rest);
    LowBits(n, 2);
    assert (EncodeCompact(n) + rest)[0] == 4 * (n % 0x40) + 2;
  }

  lemma {:induction false} CompactRoundTripWide(n: u32, rest: Bytes)
    requires 0x4000_0000 <= n
    ensures DecodeCompact(EncodeCompact(n) + rest) == Some((n, rest))
  {
    U32RoundTrip(n, rest);
    assert (EncodeCompact(n) + rest)[1..] == EncodeU32(n) + rest;
  }

  lemma {:induction false} CompactRoundTrip(n: u32, rest: Bytes)
    ensures |EncodeCompact(n)| == CompactLen(n)
    ensures DecodeCompact(EncodeCompact(n) + rest) == Some((n, rest))
  {
    if n < 0x40 {
      assert (EncodeCompact(n) + rest)[1..] == rest;
    } else if n < 0x4000 {
      CompactRoundTrip16(n, rest);
    } else if n < 0x4000_0000 {
      CompactRoundTrip32(n, rest);
    } else {
      CompactRoundTripWide(n, rest);
    }
  }

  lemma {:induction false} CompactCanonical16(b: Bytes)
    requires DecodeCompact(b).Some? && b[0] % 4 == 1
    ensures b == EncodeCompact(DecodeCompact(b).value.0) + DecodeCompact(b).value.1
  {
    U16Canonical(b);
    JoinMode(b[0], b[1]);
  }

  lemma {:induction false} CompactCanonical32(b: Bytes)
    requires DecodeCompact(b).Some? && b[0] % 4 == 2
    ensures b == EncodeCompact(DecodeCompact(b).value.0) + DecodeCompact(b).value.1
  {
    hide Join;
    U32Canonical(b);
    JoinMode(b[0], Join(b[1], Join(b[2], b[3])));
  }

  lemma {:induction false} JoinMode(low: byte, high: nat)
    ensures var x := Join(low, high); x == 4 * (x / 4) + low % 4
  {
    var q := low / 4 + 0x40 * high;
    assert Join(low, high) == 4 * q + low % 4;
  }

  lemma {:induction false} CompactCanonicalWide(b: Bytes)
    requires DecodeCompact(b).Some? && b[0] % 4 == 3
    ensures b == EncodeCompact(DecodeCompact(b).value.0) + DecodeCompact(b).value.1
  {
    U32Canonical(b[1..]);
    assert b == [b[0]] + b[1..];
  }

  /** The converse: only the canonical prefix of a length is accepted. */
  lemma {:induction false} CompactCanonical(b: Bytes)
    requires DecodeCompact(b).Some?
    ensures b == EncodeCompact(DecodeCompact(b).value.0) + DecodeCompact(b).value.1
  {
    match b[0] % 4 {
      case 0 => assert b == [b[0]] + b[1..];
      case 1 => CompactCanonical16(b);
      case 2 => CompactCanonical32(b);
      case _ => CompactCanonicalWide(b);
    }
  }

  /**
   The layout of a compact length: as a little-endian number it is four times the length plus the
   number of its mode, in 1, 2 or 4 bytes; the widest mode is the byte 3 before the length itself.
   */
  lemma {:induction false} CompactLayout(n: u32)
    ensures var b := EncodeCompact(n);
            if n < 64 then b == [4 * n]
            else if n < 16_384 then |b| == 2 && LittleEndian(b) == 4 * n + 1
            else if n < 1_073_741_824 then |b| == 4 && LittleEndian(b) == 4 * n + 2
            else |b| == 5 && b[0] == 3 && LittleEndian(b[1..]) == n
  {
    hide LittleEndian;
    if n < 0x40 {
    } else if n < 0x4000_0000 {
      IntegersAreLittleEndian(4 * n + if n < 0x4000 then 1 else 2);
    } else {
      IntegersAreLittleEndian(n);
      assert EncodeCompact(n)[1..] == EncodeU32(n);
    }
  }

  // ---------- byte vectors ----------

  function EncodeVec(v: Bytes): Bytes
    requires |v| <= U32_MAX
  {
    EncodeCompact(|v|) + v
  }

  /** `Vec<u8>` for `max == u32::MAX`, otherwise `BoundedVec<u8, max>`. */
  function DecodeVec(b: Bytes, max: u32): Option<(Bytes, Bytes)> {
    match DecodeCompact(b)
    case None => None
    case Some((n, rest)) => if n <= |rest| && n <= max then Some((rest[..n], rest[n..])) else None
  }

  lemma {:induction false} VecRoundTrip(v: Bytes, rest: Bytes, max: u32)
    requires |v| <= U32_MAX
    ensures |EncodeVec(v)| == CompactLen(|v|) + |v|
    ensures DecodeVec(EncodeVec(v) + rest, max) == if |v| <= max then Some((v, rest)) else None
  {
    CompactRoundTrip(|v|, v + rest);
    assert EncodeVec(v) + rest == EncodeCompact(|v|) + (v + rest);
    assert (v + rest)[..|v|] == v && (v + rest)[|v|..] == rest;
  }

  /** A byte vector is its compact length and then its bytes, and nothing else decodes as one. */
  lemma {:induction false} VecLayout(v: Bytes, b: Bytes, max: u32)
    requires |v| <= U32_MAX
    ensures EncodeVec(v)[..CompactLen(|v|)] == EncodeCompact(|v|) && EncodeVec(v)[CompactLen(|v|)..] == v
    ensures DecodeVec(b, max).Some? ==>
              var (w, rest) := DecodeVec(b, max).value; |w| <= max && b == EncodeVec(w) + rest
  {
    CompactRoundTrip(|v|, []);
    if DecodeVec(b, max).Some? {
      CompactCanonical(b);
      var (n, rest) := DecodeCompact(b).value;
      assert rest == rest[..n] + rest[n..];
      assert b == EncodeCompact(n) + rest[..n] + rest[n..];
    }
  }

  // ---------- storage maps ----------

  /** The three bounds of `KontractStorage`. */
  datatype Limits = Limits(maxKey: u32, maxValue: u32, maxEntries: u32)

  /** The executor's `BTreeMap<Vec<u8>, Vec<u8>>`. */
  const UNBOUNDED := Limits(U32_MAX, U32_MAX, U32_MAX)

  predicate EntriesWithin(limits: Limits, m: Store) {
    forall k :: k in m ==> |k| <= limits.maxKey && |m[k]| <= limits.maxValue
  }

  predicate Within(limits: Limits, m: Store) {
    |m| <= limits.maxEntries && EntriesWithin(limits, m)
  }

  /** Lengths above `u32::MAX` make the encoder panic. */
  predicate Encodable(m: Store) {
    Within(UNBOUNDED, m)
  }

  function EncodeEntries(m: Store): Bytes
    requires EntriesWithin(UNBOUNDED, m)
    decreases |m|
  {
    if m == map[] then []
    else
      var k := Least(m.Keys);
      assert (m - {k}).Keys == m.Keys - {k};
      EncodeVec(k) + EncodeVec(m[k]) + EncodeEntries(m - {k})
  }

  function Encode(m: Store): Bytes
    requires Encodable(m)
  {
    EncodeCompact(|m|) + EncodeEntries(m)
  }

  /** A later entry overwrites an earlier one with the same key, as when a `BTreeMap` is collected. */
  function DecodeEntries(n: nat, b: Bytes, acc: Store, limits: Limits): Option<(Store, Bytes)> {
    if n == 0 then Some((acc, b))
    else match DecodeVec(b, limits.maxKey)
      case None => None
      case Some((k, b1)) =>
        match DecodeVec(b1, limits.maxValue)
        case None => None
        case Some((v, b2)) => DecodeEntries(n - 1, b2, acc[k := v], limits)
  }

  /** `BTreeMap` under `UNBOUNDED`, otherwise the pallet's `BoundedBTreeMap`; trailing bytes stay. */
  function Decode(b: Bytes, limits: Limits): Option<(Store, Bytes)> {
    match DecodeCompact(b)
    case None => None
    case Some((n, rest)) =>
      match DecodeEntries(n, rest, map[], limits)
      case None => None
      case Some((m, rest')) => if |m| <= limits.maxEntries then Some((m, rest')) else None
  }

  lemma {:induction false} EntryRoundTrip(n: nat, k: Bytes, v: Bytes, after: Bytes, acc: Store, limits: Limits)
    requires 0 < n && |k| <= U32_MAX && |v| <= U32_MAX
    ensures DecodeEntries(n, EncodeVec(k) + (EncodeVec(v) + after), acc, limits)
         == if |k| <= limits.maxKey && |v| <= limits.maxValue
            then DecodeEntries(n - 1, after, acc[k := v], limits) else None
  {
    VecRoundTrip(k, EncodeVec(v) + after, limits.maxKey);
    VecRoundTrip(v, after, limits.maxValue);
  }

  lemma {:induction false} SplitBounds(limits: Limits, m: Store, k: Bytes)
    requires k in m
    ensures EntriesWithin(limits, m) <==>
            EntriesWithin(limits, m - {k}) && |k| <= limits.maxKey && |m[k]| <= limits.maxValue
  {
    assert forall x :: x in m ==> x == k || x in m - {k};
  }

  lemma {:induction false} MergeStep(acc: Store, m: Store, k: Bytes)
    requires k in m
    ensures acc[k := m[k]] + (m - {k}) == acc + m
  {
  }

  lemma {:induction false} EncodeUnfold(m: Store, k: Bytes)
    requires EntriesWithin(UNBOUNDED, m) && m != map[] && k == Least(m.Keys)
    ensures EncodeEntries(m) == EncodeVec(k) + EncodeVec(m[k]) + EncodeEntries(m - {k})
  {
  }

  lemma {:induction false} EntriesUnfold(m: Store, rest: Bytes, acc: Store, limits: Limits, k: Bytes)
    requires EntriesWithin(UNBOUNDED, m) && m != map[] && k == Least(m.Keys)
    ensures DecodeEntries(|m|, EncodeEntries(m) + rest, acc, limits)
         == if |k| <= limits.maxKey && |m[k]| <= limits.maxValue
            then DecodeEntries(|m| - 1, EncodeEntries(m - {k}) + rest, acc[k := m[k]], limits) else None
  {
    hide EncodeVec, EncodeEntries, DecodeEntries;
    EncodeUnfold(m, k);
    Reassociate(EncodeVec(k), EncodeVec(m[k]), EncodeEntries(m - {k}), rest);
    EntryRoundTrip(|m|, k, m[k], EncodeEntries(m - {k}) + rest, acc, limits);
  }

  lemma {:induction false} Reassociate(a: Bytes, b: Bytes, c: Bytes, d: Bytes)
    ensures a + b + c + d == a + (b + (c + d))
  {
  }

  lemma {:induction false} EntriesRoundTrip(m: Store, rest: Bytes, acc: Store, limits: Limits)
    requires EntriesWithin(UNBOUNDED, m)
    ensures DecodeEntries(|m|, EncodeEntries(m) + rest, acc, limits)
         == if EntriesWithin(limits, m) then Some((acc + m, rest)) else None
    decreases |m|
  {
    hide EncodeEntries, DecodeEntries, EntriesWithin;
    if m == map[] {
      NoEntries(m, rest, acc, limits);
    } else {
      var k := Least(m.Keys);
      assert (m - {k}).Keys == m.Keys - {k};
      SplitBounds(UNBOUNDED, m, k);
      SplitBounds(limits, m, k);
      EntriesUnfold(m, rest, acc, limits, k);
      EntriesRoundTrip(m - {k}, rest, acc[k := m[k]], limits);
      MergeStep(acc, m, k);
    }
  }

  lemma {:induction false} NoEntries(m: Store, rest: Bytes, acc: Store, limits: Limits)
    requires m == map[]
    ensures EntriesWithin(UNBOUNDED, m) && EntriesWithin(limits, m)
    ensures DecodeEntries(|m|, EncodeEntries(m) + rest, acc, limits) == Some((acc + m, rest))
  {
    assert EncodeEntries(m) + rest == rest && acc + m == acc;
  }

  /**
   Any map that the host can encode decodes, under any bounds, to itself or to an error; it is an
   error exactly when a key, a value or the entry count is over bound.
   */
  lemma {:induction false} StoreRoundTrip(m: Store, rest: Bytes, limits: Limits)
    requires Encodable(m)
    ensures Decode(Encode(m) + rest, limits) == if Within(limits, m) then Some((m, rest)) else None
  {
    var entries := EncodeEntries(m) + rest;
    CompactRoundTrip(|m|, entries);
    assert Encode(m) + rest == EncodeCompact(|m|) + entries;
    assert DecodeEntries(|m|, entries, map[], limits)
        == if EntriesWithin(limits, m) then Some((m, rest)) else None by {
      EntriesRoundTrip(m, rest, map[], limits);
      assert map[] + m == m;
    }
  }

  /** The bounds are inclusive, and each of the three is enforced. */
  lemma {:induction false} DecodableExactly(m: Store, limits: Limits)
    requires |m| <= U32_MAX && forall k :: k in m ==> |k| <= U32_MAX && |m[k]| <= U32_MAX
    ensures Decode(Encode(m), limits).Some? <==>
            && |m| <= limits.maxEntries
            && forall k :: k in m ==> |k| <= limits.maxKey && |m[k]| <= limits.maxValue
  {
    StoreRoundTrip(m, [], limits);
    assert Encode(m) + [] == Encode(m);
  }

  /** Entries one after the other, with any keys in any order. */
  function EncodeList(es: seq<(Bytes, Bytes)>): Bytes
    requires forall i :: 0 <= i < |es| ==> |es[i].0| <= U32_MAX && |es[i].1| <= U32_MAX
  {
    if es == [] then [] else EncodeVec(es[0].0) + EncodeVec(es[0].1) + EncodeList(es[1..])
  }

  function Collect(es: seq<(Bytes, Bytes)>, acc: Store): Store {
    if es == [] then acc else Collect(es[1..], acc[es[0].0 := es[0].1])
  }

  /** Entries are read in the order in which they are written, and of two with the same key the later one counts. */
  lemma {:induction false} LaterEntryWins(es: seq<(Bytes, Bytes)>, rest: Bytes, acc: Store)
    requires forall i :: 0 <= i < |es| ==> |es[i].0| <= U32_MAX && |es[i].1| <= U32_MAX
    ensures DecodeEntries(|es|, EncodeList(es) + rest, acc, UNBOUNDED) == Some((Collect(es, acc), rest))
    decreases |es|
  {
    if es == [] {
      assert EncodeList(es) + rest == rest;
    } else {
      hide EncodeVec, DecodeEntries, EncodeList;
      var (k, v) := es[0];
      ListFront(es);
      LaterEntryWins(es[1..], rest, acc[k := v]);
      Reassociate(EncodeVec(k), EncodeVec(v), EncodeList(es[1..]), rest);
      EntryRoundTrip(|es|, k, v, EncodeList(es[1..]) + rest, acc, UNBOUNDED);
    }
  }

  lemma {:induction false} ListFront(es: seq<(Bytes, Bytes)>)
    requires es != [] && forall i :: 0 <= i < |es| ==> |es[i].0| <= U32_MAX && |es[i].1| <= U32_MAX
    ensures forall i :: 0 <= i < |es[1..]| ==> |es[1..][i].0| <= U32_MAX && |es[1..][i].1| <= U32_MAX
    ensures EncodeList(es) == EncodeVec(es[0].0) + EncodeVec(es[0].1) + EncodeList(es[1..])
  {
  }

  /** Two entries, byte by byte: the count, and each entry's key before its value, lower key first. */
  lemma {:induction false} TwoEntries(a: byte, b: byte, v: byte)
    requires a < b
    ensures var m: Store := map[[a] := [], [b] := [v]];
            Encodable(m) && Encode(m) == [8, 4, a, 0, 4, b, 4, v]
  {
    hide EncodeVec, EncodeEntries, EncodeInOrder, Below;
    var m: Store := map[[a] := [], [b] := [v]];
    TwoKeys(a, b, v);
    assert EncodeEntries(m) == [4, a] + [0] + ([4, b] + [4, v]) by {
      EncodedInKeyOrder([[a], [b]], m);
      InOrderFront([[a], [b]], m);
      InOrderFront([[b]], m);
      ShortVec([a]);
      ShortVec([b]);
      ShortVec([v]);
      ShortVec([]);
    }
  }

  lemma {:induction false} TwoKeys(a: byte, b: byte, v: byte)
    requires a < b
    ensures var m: Store, ks: seq<Bytes> := map[[a] := [], [b] := [v]], [[a], [b]];
            |m| == 2 && m.Keys == Elements(ks) && Ascending(ks) && EntriesWithin(UNBOUNDED, m)
  {
    var m: Store := map[[a] := [], [b] := [v]];
    assert [a][0] != [b][0];
    assert m.Keys == {[a]} + {[b]};
    assert Below([a], [b]);
  }

  lemma {:induction false} InOrderFront(ks: seq<Bytes>, m: Store)
    requires EntriesWithin(UNBOUNDED, m) && ks != [] && forall i :: 0 <= i < |ks| ==> ks[i] in m
    ensures EncodeInOrder(ks, m)
         == EncodeVec(ks[0]) + EncodeVec(m[ks[0]]) + if |ks| == 1 then [] else EncodeInOrder(ks[1..], m)
  {
    hide EncodeVec;
  }

  lemma {:induction false} ShortVec(v: Bytes)
    requires |v| < 64
    ensures EncodeVec(v) == [4 * |v|] + v
  {
  }

  /**
   The trip of a kontract's storage through one execution that leaves it alone: encoded as a
   bounded map, decoded as an unbounded one, encoded again and decoded as bounded.
   */
  lemma {:induction false} BoundedUnboundedBounded(m: Store, limits: Limits)
    requires Within(limits, m)
    ensures Encodable(m)
    ensures var host := Decode(Encode(m), UNBOUNDED);
            && host.Some? && Encodable(host.value.0)
            && Encode(host.value.0) == Encode(m)
            && Decode(Encode(host.value.0), limits) == Some((m, []))
  {
    StoreRoundTrip(m, [], UNBOUNDED);
    StoreRoundTrip(m, [], limits);
    assert Encode(m) + [] == Encode(m);
  }

  // ---------- key order ----------

  /** The entries of `m` written out in the order of a given enumeration of its keys. */
  function EncodeInOrder(ks: seq<Bytes>, m: Store): Bytes
    requires EntriesWithin(UNBOUNDED, m) && forall i :: 0 <= i < |ks| ==> ks[i] in m
  {
    if ks == [] then []
    else EncodeVec(ks[0]) + EncodeVec(m[ks[0]]) + EncodeInOrder(ks[1..], m)
  }

  function Elements(ks: seq<Bytes>): set<Bytes> {
    set k | k in ks
  }

  lemma {:induction false} AscendingTail(ks: seq<Bytes>)
    requires ks != [] && Ascending(ks)
    ensures IsLeast(ks[0], Elements(ks)) && Ascending(ks[1..])
    ensures Elements(ks[1..]) == Elements(ks) - {ks[0]}
  {
    forall k | k in ks[1..] ensures Below(ks[0], k) && k != ks[0] {
      var i :| 0 <= i < |ks[1..]| && ks[1..][i] == k;
      assert Below(ks[0], ks[i + 1]);
      Irreflexive(k);
    }
    assert ks == [ks[0]] + ks[1..];
  }

  /** Writing the entries in strictly ascending key order gives the encoding. */
  lemma {:induction false} EncodedInKeyOrder(ks: seq<Bytes>, m: Store)
    requires EntriesWithin(UNBOUNDED, m)
    requires Ascending(ks) && m.Keys == Elements(ks)
    ensures EncodeInOrder(ks, m) == EncodeEntries(m)
    decreases |ks|
  {
    if ks != [] {
      hide Below;
      AscendingTail(ks);
      LeastIsUnique(m.Keys);
      var tail := m - {ks[0]};
      assert tail.Keys == Elements(ks[1..]);
      EncodeUnfold(m, ks[0]);
      EncodedInKeyOrder(ks[1..], tail);
      OrderIgnoresOthers(ks[1..], tail, m);
    } else {
      assert m.Keys == {};
    }
  }

  lemma {:induction false} OrderIgnoresOthers(ks: seq<Bytes>, m: Store, m': Store)
    requires EntriesWithin(UNBOUNDED, m) && EntriesWithin(UNBOUNDED, m')
    requires forall i :: 0 <= i < |ks| ==> ks[i] in m && ks[i] in m' && m[ks[i]] == m'[ks[i]]
    ensures EncodeInOrder(ks, m) == EncodeInOrder(ks, m')
  {
    if ks == [] {
    } else {
      OrderIgnoresOthers(ks[1..], m, m');
    }
  }
}
