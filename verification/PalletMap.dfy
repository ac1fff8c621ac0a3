/**
 The promise of a map on chain, over whole runs of the pallet: every kontract's committed storage
 represents the plain map it would have written, although executions are settled, punished and
 refused in between.
 */
module PalletMap {
  import opened Primitives
  import opened Scale
  import opened Host
  import opened Executor
  import opened PalletState
  import opened PlainMap

  /** The plain maps of all kontracts; one that was never executed has the empty map. */
  type Maps = map<CodeId, Store>

  function MapOf(maps: Maps, id: CodeId): Store {
    if id in maps then maps[id] else map[]
  }

  /** The run of a call's guest over a plain map. */
  function PlainStart(env: Env, s: State, maps: Maps, call: Call): Instance
    requires call.ExecuteCode? && call.id in s.codes && env.load(s.codes[call.id]).Loaded?
  {
    Start(env.load(s.codes[call.id]).guest, MapOf(maps, call.id), call.fuel, call.maxRead, call.maxWrite)
  }

  predicate Runs(env: Env, s: State, call: Call) {
    SignedExecution(call) && call.id in s.codes && env.load(s.codes[call.id]).Loaded?
  }

  function PlainRun(env: Env, s: State, maps: Maps, call: Call): RunResult
    requires Runs(env, s, call)
  {
    var guest := env.load(s.codes[call.id]).guest;
    Run(RAW, guest.step, guest.control, PlainStart(env, s, maps, call))
  }

  /** A call writes a plain map only when the pallet commits it; the map is then that of the plain run. */
  ghost function MapsAfter(env: Env, s: State, maps: Maps, call: Call): Maps {
    if Runs(env, s, call) && Judge(env, s, call).Committed? && PlainRun(env, s, maps, call).Completed?
    then maps[call.id := PlainRun(env, s, maps, call).storage]
    else maps
  }

  ghost function RunMaps(env: Env, s: State, maps: Maps, calls: seq<Call>): Maps
    decreases |calls|
  {
    if calls == [] then maps
    else RunMaps(env, Step(env, s, calls[0]).0, MapsAfter(env, s, maps, calls[0]), calls[1..])
  }

  /** The keys the executions of `id` hand to the host, committed or not. */
  ghost function KeysTouched(env: Env, s: State, maps: Maps, calls: seq<Call>, id: CodeId): set<Bytes>
    decreases |calls|
  {
    if calls == [] then {}
    else
      var rest := KeysTouched(env, Step(env, s, calls[0]).0, MapsAfter(env, s, maps, calls[0]), calls[1..], id);
      if Runs(env, s, calls[0]) && calls[0].id == id then KeysOfCall(env, s, maps, calls[0]) + rest else rest
  }

  function KeysOfCall(env: Env, s: State, maps: Maps, call: Call): set<Bytes>
    requires Runs(env, s, call)
  {
    var guest := env.load(s.codes[call.id]).guest;
    Touched(guest.step, guest.control, PlainStart(env, s, maps, call))
  }

  /** A committed call left its plain run completed, and committed storage that represents its map. */
  lemma {:induction false} CommitRefinesMap(env: Env, s: State, maps: Maps, call: Call, keys: set<Bytes>)
    requires Runs(env, s, call) && Judge(env, s, call).Committed?
    requires Represents(env.hash, MapOf(maps, call.id), StorageOf(s, call.id))
    requires MapOf(maps, call.id).Keys + KeysOfCall(env, s, maps, call) <= keys && InjectiveOn(env.hash, keys)
    ensures PlainRun(env, s, maps, call).Completed?
    ensures Represents(env.hash, PlainRun(env, s, maps, call).storage, Judge(env, s, call).storage)
    ensures PlainRun(env, s, maps, call).storage.Keys <= keys
  {
    hide Run, Touched, Represents, InjectiveOn, Apply, Settle, Within, SizeChange, Encodable;
    var guest := env.load(s.codes[call.id]).guest;
    var i := PlainStart(env, s, maps, call);
    var j := Start(guest, StorageOf(s, call.id), call.fuel, call.maxRead, call.maxWrite);
    HashedStoreRefinesMap(env.hash, guest.step, guest.control, i, j, keys);
    RunAddsTouchedKeys(guest.step, guest.control, i);
  }

  /** One call, seen from one kontract. */
  lemma {:induction false} StepRefinesMap(env: Env, s: State, maps: Maps, call: Call, id: CodeId, keys: set<Bytes>)
    requires Represents(env.hash, MapOf(maps, id), StorageOf(s, id))
    requires MapOf(maps, id).Keys <= keys && InjectiveOn(env.hash, keys)
    requires Runs(env, s, call) && call.id == id ==> KeysOfCall(env, s, maps, call) <= keys
    ensures Represents(env.hash, MapOf(MapsAfter(env, s, maps, call), id), StorageOf(Step(env, s, call).0, id))
    ensures MapOf(MapsAfter(env, s, maps, call), id).Keys <= keys
  {
    hide Step, Judge, Represents, InjectiveOn, PlainRun, KeysOfCall;
    StepStorages(env, s, call);
    if SignedExecution(call) && Judge(env, s, call).Committed? {
      CommittedRuns(env, s, call);
      if call.id == id {
        CommitRefinesMap(env, s, maps, call, keys);
      }
    }
  }

  lemma {:induction false} CommittedRuns(env: Env, s: State, call: Call)
    requires SignedExecution(call) && Judge(env, s, call).Committed?
    ensures Runs(env, s, call)
  {
    hide Run, Apply, Settle, Within, SizeChange;
  }

  /**
   Over every run of the pallet, for every kontract whose keys do not collide, the storage on chain
   represents the plain map the kontract has written.
   */
  lemma {:induction false} StorageIsTheMap(env: Env, s: State, maps: Maps, calls: seq<Call>, id: CodeId, keys: set<Bytes>)
    requires Represents(env.hash, MapOf(maps, id), StorageOf(s, id))
    requires MapOf(maps, id).Keys + KeysTouched(env, s, maps, calls, id) <= keys && InjectiveOn(env.hash, keys)
    ensures Represents(env.hash, MapOf(RunMaps(env, s, maps, calls), id), StorageOf(RunCalls(env, s, calls), id))
    decreases |calls|
  {
    hide Step, Represents, InjectiveOn, MapsAfter, KeysOfCall;
    if calls == [] {
    } else {
      StepRefinesMap(env, s, maps, calls[0], id, keys);
      StorageIsTheMap(env, Step(env, s, calls[0]).0, MapsAfter(env, s, maps, calls[0]), calls[1..], id, keys);
    }
  }

  /** From empty storages, all kontracts at once: each has the map it was promised. */
  lemma {:induction false} KontractsHaveTheirMaps(env: Env, s: State, calls: seq<Call>)
    requires s.storages == map[]
    requires forall id :: InjectiveOn(env.hash, KeysTouched(env, s, map[], calls, id))
    ensures forall id ::
              Represents(env.hash, MapOf(RunMaps(env, s, map[], calls), id), StorageOf(RunCalls(env, s, calls), id))
  {
    hide RunMaps, RunCalls, KeysTouched;
    forall id
      ensures Represents(env.hash, MapOf(RunMaps(env, s, map[], calls), id), StorageOf(RunCalls(env, s, calls), id))
    {
      StorageIsTheMap(env, s, map[], calls, id, KeysTouched(env, s, map[], calls, id));
    }
  }
}
