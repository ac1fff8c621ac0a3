/** What a run does to the storage as a whole: its byte size, the lengths of its keys and its entry count. */
module RunSizes {
  import opened Primitives
  import opened Scale
  import opened StorageSize
  import opened Host
  import opened Metering

  /** Bytes one paid action adds to the storage (negative when it frees some). */
  function ActionDelta(hash: Bytes -> Bytes, a: Action, i: Instance): int
    requires !a.Finish? && !a.Unreachable?
  {
    if !Perform(hash, a, i).signal.Fine? then 0
    else match a
      case Set(_, _, kp, ks, vp, vs) =>
        var key := hash(ReadVec(i.memory, kp, ks).value);
        EntrySize(key, ReadVec(i.memory, vp, vs).value) as int - SizeAt(i.storage, key)
      case Remove(_, _, kp, ks) => 0 - SizeAt(i.storage, hash(ReadVec(i.memory, kp, ks).value)) as int
      case _ => 0
  }

  /** The sum of the changes of every `set` and `remove` along a run. */
  function RunDelta(hash: Bytes -> Bytes, step: Stepper, control: GuestState, i: Instance): int
    decreases i.fuel
  {
    var a := step(control, i.memory);
    if a.Finish? || a.Unreachable? || i.fuel < a.extra + 1 then 0
    else
      var paid := i.(fuel := i.fuel - a.extra - 1);
      var r := Perform(hash, a, paid);
      ActionDelta(hash, a, paid) + if r.signal.Fine? then RunDelta(hash, step, a.next, r.after) else 0
  }

  lemma {:induction false} ActionTelescopes(hash: Bytes -> Bytes, a: Action, i: Instance)
    requires !a.Finish? && !a.Unreachable? && Perform(hash, a, i).signal.Fine?
    ensures SizeOf(Perform(hash, a, i).after.storage) == SizeOf(i.storage) + ActionDelta(hash, a, i)
  {
    match a
    case Work(_, _, _) =>
    case Get(_, _, _, _, _, _) =>
    case Set(_, _, kp, ks, vp, vs) =>
      SizeAfterSet(i.storage, hash(ReadVec(i.memory, kp, ks).value), ReadVec(i.memory, vp, vs).value);
    case Remove(_, _, kp, ks) =>
      SizeAfterRemove(i.storage, hash(ReadVec(i.memory, kp, ks).value));
  }

  /** The size difference the pallet measures is the sum of the changes made call by call. */
  lemma {:induction false} SizeTelescopes(hash: Bytes -> Bytes, step: Stepper, control: GuestState, i: Instance)
    requires Run(hash, step, control, i).Completed?
    ensures SizeOf(Run(hash, step, control, i).storage) == SizeOf(i.storage) + RunDelta(hash, step, control, i)
    decreases i.fuel
  {
    hide Perform, ActionDelta, SizeOf, Run;
    RunFront(hash, step, control, i);
    var a := step(control, i.memory);
    if a.Finish? {
    } else {
      var paid := i.(fuel := i.fuel - a.extra - 1);
      ActionTelescopes(hash, a, paid);
      SizeTelescopes(hash, step, a.next, Perform(hash, a, paid).after);
    }
  }

  /** Keys are hashes, values come out of a 32-bit memory. */
  ghost predicate HostProduced(m: Store) {
    forall k :: k in m ==> |k| == 32 && |m[k]| <= U32_MAX
  }

  /** A run keeps keys at 32 bytes, and adds at most one entry for each write it counts. */
  lemma {:induction false} RunKeepsShape(hash: Bytes -> Bytes, step: Stepper, control: GuestState, i: Instance)
    requires CountersSound(i) && HostProduced(i.storage) && forall k :: |hash(k)| == 32
    requires Run(hash, step, control, i).Completed?
    ensures var m := Run(hash, step, control, i).storage;
            HostProduced(m) && |m| <= |i.storage| + (i.maxWrite - i.currWrite) && |m| <= |i.storage| + i.fuel
    decreases i.fuel
  {
    var a := step(control, i.memory);
    if a.Finish? {
    } else {
      hide Perform;
      var paid := i.(fuel := i.fuel - a.extra - 1);
      ActionKeepsCounters(hash, a, i);
      ActionKeepsShape(hash, a, paid);
      RunKeepsShape(hash, step, a.next, Perform(hash, a, paid).after);
    }
  }

  lemma {:induction false} SetKeepsShape(m: Store, h: Bytes, v: Bytes)
    requires HostProduced(m) && |h| == 32 && |v| <= U32_MAX
    ensures HostProduced(m[h := v]) && |m[h := v]| <= |m| + 1
  {
    assert m[h := v].Keys == m.Keys + {h};
  }

  lemma {:induction false} RemoveKeepsShape(m: Store, h: Bytes)
    requires HostProduced(m)
    ensures HostProduced(m - {h}) && |m - {h}| <= |m|
  {
    assert (m - {h}).Keys == m.Keys - {h};
  }

  lemma {:induction false} HostSetKeepsShape(hash: Bytes -> Bytes, i: Instance, kp: u32, ks: u32, vp: u32, vs: u32)
    requires i.currWrite < U32_MAX && HostProduced(i.storage) && forall k :: |hash(k)| == 32
    ensures ShapeKept(i, HostSet(hash, i, kp, ks, vp, vs).after)
  {
    hide HostProduced;
    var key, value := ReadVec(i.memory, kp, ks), ReadVec(i.memory, vp, vs);
    if key.Some? && value.Some? {
      SetKeepsShape(i.storage, hash(key.value), value.value);
    }
  }

  lemma {:induction false} HostRemoveKeepsShape(hash: Bytes -> Bytes, i: Instance, kp: u32, ks: u32)
    requires i.currWrite < U32_MAX && HostProduced(i.storage)
    ensures ShapeKept(i, HostRemove(hash, i, kp, ks).after)
  {
    hide HostProduced, ReadVec;
    var key, after := ReadVec(i.memory, kp, ks), HostRemove(hash, i, kp, ks).after;
    if after != i {
      var h := hash(key.value);
      RemoveKeepsShape(i.storage, h);
      assert after.storage == i.storage - {h} && after.currWrite == i.currWrite + 1;
    }
  }

  ghost predicate ShapeKept(i: Instance, after: Instance) {
    && HostProduced(after.storage) && after.maxWrite == i.maxWrite
    && |after.storage| + i.currWrite <= |i.storage| + after.currWrite
  }

  lemma {:induction false} ActionKeepsShape(hash: Bytes -> Bytes, a: Action, i: Instance)
    requires !a.Finish? && !a.Unreachable?
    requires i.currWrite < U32_MAX && HostProduced(i.storage) && forall k :: |hash(k)| == 32
    ensures ShapeKept(i, Perform(hash, a, i).after)
  {
    hide HostSet, HostRemove, WriteVec, ReadVec, Lookup;
    match a
    case Work(_, _, _) =>
    case Get(_, _, _, _, _, _) =>
    case Set(_, _, kp, ks, vp, vs) => HostSetKeepsShape(hash, i, kp, ks, vp, vs);
    case Remove(_, _, kp, ks) => HostRemoveKeepsShape(hash, i, kp, ks);
  }
}
