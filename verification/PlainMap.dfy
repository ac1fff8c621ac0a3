/**
 The store seen from the guest: README.md promises every kontract a `Map<Vec<u8>, Vec<u8>>`. The
 plain store is the same machine with raw bytes for keys; the hashed store refines it as long as
 the keys the run touches do not collide.
 */
module PlainMap {
  import opened Primitives
  import opened Scale
  import opened Host
  import opened Metering

  const RAW: Bytes -> Bytes := k => k

  ghost predicate InjectiveOn(hash: Bytes -> Bytes, keys: set<Bytes>) {
    forall a, b :: a in keys && b in keys && hash(a) == hash(b) ==> a == b
  }

  /** `hashed` holds exactly the entries of `raw`, each under the hash of its key. */
  ghost predicate Represents(hash: Bytes -> Bytes, raw: Store, hashed: Store) {
    && (forall k :: k in raw ==> hash(k) in hashed && hashed[hash(k)] == raw[k])
    && (forall h :: h in hashed ==> exists k :: k in raw && hash(k) == h)
  }

  /** The key an action hands to the host, when its pointer can be read. */
  function KeyOf(a: Action, memory: Option<Bytes>): set<Bytes> {
    var key := match a
      case Set(_, _, kp, ks, _, _) => ReadVec(memory, kp, ks)
      case Get(_, _, kp, ks, _, _) => ReadVec(memory, kp, ks)
      case Remove(_, _, kp, ks) => ReadVec(memory, kp, ks)
      case _ => None;
    if key.Some? then {key.value} else {}
  }

  /** Every key the guest hands to the host in a run over the plain store. */
  function Touched(step: Stepper, control: GuestState, i: Instance): set<Bytes>
    decreases i.fuel
  {
    var a := step(control, i.memory);
    if a.Finish? || a.Unreachable? || i.fuel < a.extra + 1 then {}
    else
      var r := Perform(RAW, a, i.(fuel := i.fuel - a.extra - 1));
      KeyOf(a, i.memory) + if r.signal.Fine? then Touched(step, a.next, r.after) else {}
  }

  ghost predicate SameButStorage(i: Instance, j: Instance) {
    i == j.(storage := i.storage)
  }

  ghost predicate SameOutcome(hash: Bytes -> Bytes, plain: RunResult, hashed: RunResult) {
    if plain.Completed? then hashed.Completed? && Represents(hash, plain.storage, hashed.storage)
    else hashed == plain
  }

  lemma {:induction false} SetRefines(hash: Bytes -> Bytes, raw: Store, hashed: Store, k: Bytes, v: Bytes, keys: set<Bytes>)
    requires Represents(hash, raw, hashed) && raw.Keys <= keys && k in keys && InjectiveOn(hash, keys)
    ensures Represents(hash, raw[k := v], hashed[hash(k) := v])
  {
    var raw', hashed' := raw[k := v], hashed[hash(k) := v];
    forall x | x in raw' ensures hash(x) in hashed' && hashed'[hash(x)] == raw'[x] {
      if x != k {
        assert hash(x) != hash(k);
      }
    }
    forall h | h in hashed' ensures exists x :: x in raw' && hash(x) == h {
      if h == hash(k) {
        assert k in raw';
      } else {
        var x :| x in raw && hash(x) == h;
        assert x in raw';
      }
    }
  }

  lemma {:induction false} RemoveRefines(hash: Bytes -> Bytes, raw: Store, hashed: Store, k: Bytes, keys: set<Bytes>)
    requires Represents(hash, raw, hashed) && raw.Keys <= keys && k in keys && InjectiveOn(hash, keys)
    ensures Represents(hash, raw - {k}, hashed - {hash(k)})
  {
    var raw', hashed' := raw - {k}, hashed - {hash(k)};
    forall h | h in hashed' ensures exists x :: x in raw' && hash(x) == h {
      var x :| x in raw && hash(x) == h;
      assert x in raw';
    }
    forall x | x in raw' ensures hash(x) in hashed' && hashed'[hash(x)] == raw'[x] {
      assert hash(x) != hash(k);
    }
  }

  lemma {:induction false} GetRefines(hash: Bytes -> Bytes, raw: Store, hashed: Store, k: Bytes, keys: set<Bytes>)
    requires Represents(hash, raw, hashed) && raw.Keys <= keys && k in keys && InjectiveOn(hash, keys)
    ensures Lookup(hashed, hash(k)) == Lookup(raw, k)
  {
    if hash(k) in hashed {
      var x :| x in raw && hash(x) == hash(k);
      assert x == k;
    }
  }

  /** One paid action on both stores: same signal, same instance apart from the storage. */
  lemma {:induction false} ActionRefines(hash: Bytes -> Bytes, a: Action, i: Instance, j: Instance, keys: set<Bytes>)
    requires !a.Finish? && !a.Unreachable?
    requires SameButStorage(i, j) && Represents(hash, i.storage, j.storage)
    requires i.storage.Keys + KeyOf(a, i.memory) <= keys && InjectiveOn(hash, keys)
    ensures var r, s := Perform(RAW, a, i), Perform(hash, a, j);
            && r.signal == s.signal && SameButStorage(r.after, s.after)
            && Represents(hash, r.after.storage, s.after.storage)
            && r.after.storage.Keys <= keys
  {
    hide Represents, InjectiveOn, WriteVec, Lookup;
    match a
    case Work(_, _, _) =>
    case Set(_, _, kp, ks, vp, vs) =>
      var key, value := ReadVec(i.memory, kp, ks), ReadVec(i.memory, vp, vs);
      if key.Some? && value.Some? {
        SetRefines(hash, i.storage, j.storage, key.value, value.value, keys);
      }
    case Get(_, _, kp, ks, _, _) =>
      var key := ReadVec(i.memory, kp, ks);
      if key.Some? {
        GetRefines(hash, i.storage, j.storage, key.value, keys);
      }
    case Remove(_, _, kp, ks) =>
      var key := ReadVec(i.memory, kp, ks);
      if key.Some? {
        RemoveRefines(hash, i.storage, j.storage, key.value, keys);
      }
  }

  /**
   For any guest, any budgets and any hash without collisions on the keys of the run, the run over
   the hashed store ends as the run over the plain map does: the same error, or storages that
   represent each other.
   */
  lemma {:induction false} HashedStoreRefinesMap(hash: Bytes -> Bytes, step: Stepper, control: GuestState,
                                                 i: Instance, j: Instance, keys: set<Bytes>)
    requires SameButStorage(i, j) && Represents(hash, i.storage, j.storage)
    requires i.storage.Keys + Touched(step, control, i) <= keys && InjectiveOn(hash, keys)
    ensures SameOutcome(hash, Run(RAW, step, control, i), Run(hash, step, control, j))
    decreases i.fuel
  {
    hide Perform, Represents, InjectiveOn, KeyOf, Run;
    RunFront(RAW, step, control, i);
    RunFront(hash, step, control, j);
    var a := step(control, i.memory);
    if !a.Finish? && !a.Unreachable? && i.fuel >= a.extra + 1 {
      var i', j' := i.(fuel := i.fuel - a.extra - 1), j.(fuel := j.fuel - a.extra - 1);
      ActionRefines(hash, a, i', j', keys);
      var r, s := Perform(RAW, a, i'), Perform(hash, a, j');
      if r.signal.Fine? {
        HashedStoreRefinesMap(hash, step, a.next, r.after, s.after, keys);
      }
    }
  }

  lemma {:induction false} RunAddsTouchedKeys(step: Stepper, control: GuestState, i: Instance)
    requires Run(RAW, step, control, i).Completed?
    ensures Run(RAW, step, control, i).storage.Keys <= i.storage.Keys + Touched(step, control, i)
    decreases i.fuel
  {
    var a := step(control, i.memory);
    hide Perform, Run, KeyOf;
    RunFront(RAW, step, control, i);
    if a.Finish? {
    } else {
      var i' := i.(fuel := i.fuel - a.extra - 1);
      ActionAddsItsKey(a, i');
      RunAddsTouchedKeys(step, a.next, Perform(RAW, a, i').after);
    }
  }

  lemma {:induction false} ActionAddsItsKey(a: Action, i: Instance)
    requires !a.Finish? && !a.Unreachable?
    ensures Perform(RAW, a, i).after.storage.Keys <= i.storage.Keys + KeyOf(a, i.memory)
  {
    hide WriteVec, ReadVec;
  }

  // ---------- a missing key reads as an empty value ----------

  /** No guest can tell the two stores apart: every lookup gives the same bytes. */
  ghost predicate SameReads(s: Store, s': Store) {
    forall k :: Lookup(s, k) == Lookup(s', k)
  }

  lemma {:induction false} SetKeepsSameReads(s: Store, s': Store, k: Bytes, v: Bytes)
    requires SameReads(s, s')
    ensures SameReads(s[k := v], s'[k := v])
  {
    var t, t' := s[k := v], s'[k := v];
    forall x ensures Lookup(t, x) == Lookup(t', x) {
      assert Lookup(s, x) == Lookup(s', x);
    }
  }

  lemma {:induction false} RemoveKeepsSameReads(s: Store, s': Store, k: Bytes)
    requires SameReads(s, s')
    ensures SameReads(s - {k}, s' - {k})
  {
    var t, t' := s - {k}, s' - {k};
    forall x ensures Lookup(t, x) == Lookup(t', x) {
      assert Lookup(s, x) == Lookup(s', x);
    }
  }

  lemma {:induction false} ActionKeepsSameReads(hash: Bytes -> Bytes, a: Action, i: Instance, j: Instance)
    requires !a.Finish? && !a.Unreachable?
    requires SameButStorage(i, j) && SameReads(i.storage, j.storage)
    ensures var r, s := Perform(hash, a, i), Perform(hash, a, j);
            && r.signal == s.signal && SameButStorage(r.after, s.after)
            && SameReads(r.after.storage, s.after.storage)
  {
    hide WriteVec, Lookup;
    match a
    case Work(_, _, _) =>
    case Set(_, _, kp, ks, vp, vs) =>
      var key, value := ReadVec(i.memory, kp, ks), ReadVec(i.memory, vp, vs);
      if key.Some? && value.Some? {
        SetKeepsSameReads(i.storage, j.storage, hash(key.value), value.value);
      }
    case Get(_, _, kp, ks, _, _) =>
      var key := ReadVec(i.memory, kp, ks);
      if key.Some? {
        assert Lookup(i.storage, hash(key.value)) == Lookup(j.storage, hash(key.value));
      }
    case Remove(_, _, kp, ks) =>
      var key := ReadVec(i.memory, kp, ks);
      if key.Some? {
        RemoveKeepsSameReads(i.storage, j.storage, hash(key.value));
      }
  }

  /**
   Dropping entries with an empty value, or adding some, is invisible to every guest: the whole run
   has the same outcome, and leaves storages that again read the same.
   */
  lemma {:induction false} EmptyMeansMissing(hash: Bytes -> Bytes, step: Stepper, control: GuestState,
                                             i: Instance, j: Instance)
    requires SameButStorage(i, j) && SameReads(i.storage, j.storage)
    ensures var r, s := Run(hash, step, control, i), Run(hash, step, control, j);
            if r.Completed? then s.Completed? && SameReads(r.storage, s.storage) else s == r
    decreases i.fuel
  {
    hide Perform, SameReads, Run;
    RunFront(hash, step, control, i);
    RunFront(hash, step, control, j);
    var a := step(control, i.memory);
    if !a.Finish? && !a.Unreachable? && i.fuel >= a.extra + 1 {
      var i', j' := i.(fuel := i.fuel - a.extra - 1), j.(fuel := j.fuel - a.extra - 1);
      ActionKeepsSameReads(hash, a, i', j');
      var r, s := Perform(hash, a, i'), Perform(hash, a, j');
      if r.signal.Fine? {
        EmptyMeansMissing(hash, step, a.next, r.after, s.after);
      }
    }
  }
}
