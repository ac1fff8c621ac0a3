/**
 The kontracts pallet in place: codes, storages and balances are updated by the extrinsics, storage
 goes to the executor and comes back encoded, and a failed dispatch is rolled back. Every method is
 proved against the state machine of `PalletState`.
 */
module Pallet {
  import opened Primitives
  import opened Scale
  import opened StorageSize
  import opened Executor
  import opened PalletState

  /** The executor on the encoded storage does what it does on the map, and the old size is the map's. */
  method RunEncoded(env: Env, code: Bytes, before: Store, fuel: u32, maxRead: u32, maxWrite: u32)
    returns (oldSize: i32, r: RawExecution)
    requires Encodable(before)
    ensures oldSize == AsI32(SizeOf(before))
    ensures match Executor.Execute(env.hash, env.load, code, before, fuel, maxRead, maxWrite)
            case Done(m) => Encodable(m) && r == RawDone(Encode(m))
            case Failed(e) => r == RawFailed(e)
            case Crashed => r == RawCrashed
  {
    hide SizeOf, Encode, Decode, Executor.Execute;
    MeasuredSize(before);
    StoreRoundTrip(before, [], UNBOUNDED);
    var raw := Encode(before);
    assert raw + [] == raw;
    oldSize := GetStorageSize(raw);
    r := Executor.ExecuteCode(env.hash, env.load, code, raw, fuel, maxRead, maxWrite);
    if env.load(code).Rejected? {
      RejectedFails(env, code, before, fuel, maxRead, maxWrite);
    }
  }

  lemma {:induction false} RejectedFails(env: Env, code: Bytes, before: Store, fuel: u32, maxRead: u32, maxWrite: u32)
    requires env.load(code).Rejected?
    ensures Executor.Execute(env.hash, env.load, code, before, fuel, maxRead, maxWrite) == Failed(IncorrecBinary)
  {
  }

  /** The commit reads the host's bytes as the bounded map, or fails when it is over bound. */
  method DecodeStored(raw: Bytes, limits: Limits, ghost m: Store) returns (r: Option<Store>)
    requires Encodable(m) && raw == Encode(m)
    ensures r == if Within(limits, m) then Some(m) else None
  {
    hide Encode, Decode;
    StoreRoundTrip(m, [], limits);
    assert raw + [] == raw;
    var decoded := Decode(raw, limits);
    r := if decoded == None then None else Some(decoded.value.0);
  }

  lemma {:induction false} UnknownCode(env: Env, s: State, call: Call)
    requires SignedExecution(call) && call.id !in s.codes
    ensures Step(env, s, call) == (s, Err(InvalidCodeId))
  {
  }

  /** `Step` on a known code, stage by stage. */
  lemma {:induction false} ExecutionCases(env: Env, s: State, call: Call)
    requires SignedExecution(call) && call.id in s.codes
    ensures var who, step := call.origin.who, Step(env, s, call);
            match ExecutionOf(env, s, call)
            case Crashed => step == (s, Crash)
            case Failed(e) => step == (s, Err(ExecutionCode(e)))
            case Done(m) =>
              var settlement := Settle(SizeChange(s, call.id, m), call.expected);
              match Apply(settlement, AccountOf(s.accounts, who))
              case None => step == (s, Err(DepositError))
              case Some(account) =>
                var accounts := Put(s.accounts, who, account);
                if settlement.Penalty? then
                  step == (State(s.codes, s.storages, accounts), Ok(ExceededStorage(call.id, who)))
                else if !Within(env.limits, m) then
                  step == (s, Err(ExecutionCode(UnexpectedBehavoiur)))
                else
                  step == (State(s.codes, s.storages[call.id := m], accounts), Ok(CodeExecuted(call.id, who)))
  {
    hide ExecutionOf, Settle, SizeChange, Apply, Within, Put;
  }

  class KontractsPallet {
    const env: Env
    var codes: map<CodeId, Bytes>
    var storages: map<CodeId, Store>
    var accounts: map<AccountId, Account>

    ghost function View(): State
      reads this
    {
      State(codes, storages, accounts)
    }

    /** What the types of `Codes` and `Storages` promise. */
    ghost predicate Valid()
      reads this
    {
      StoragesBounded(env, View())
    }

    constructor (env: Env, accounts: map<AccountId, Account>)
      ensures this.env == env && View() == State(map[], map[], accounts) && Valid()
    {
      this.env := env;
      codes, storages, this.accounts := map[], map[], accounts;
    }

    // ---------- the currency ----------

    method ReserveOf(who: AccountId, amount: nat) returns (ok: bool)
      modifies this`accounts
      ensures ok == Reserve(AccountOf(old(accounts), who), amount).Some?
      ensures accounts == if ok then Put(old(accounts), who, Reserve(AccountOf(old(accounts), who), amount).value) else old(accounts)
    {
      var a := AccountOf(accounts, who);
      ok := amount <= a.free;
      if ok {
        accounts := Put(accounts, who, Account(a.free - amount, a.reserved + amount));
      }
    }

    method UnreserveOf(who: AccountId, amount: nat)
      modifies this`accounts
      ensures accounts == Put(old(accounts), who, Unreserve(AccountOf(old(accounts), who), amount))
    {
      var a := AccountOf(accounts, who);
      var actual := if a.reserved <= amount then a.reserved else amount;
      accounts := Put(accounts, who, Account(a.free + actual, a.reserved - actual));
    }

    method SlashOf(who: AccountId, amount: nat)
      modifies this`accounts
      ensures accounts == Put(old(accounts), who, Slash(AccountOf(old(accounts), who), amount))
    {
      var a := AccountOf(accounts, who);
      var fromFree := if a.free <= amount then a.free else amount;
      a := Account(a.free - fromFree, a.reserved);
      var remaining := amount - fromFree;
      var fromReserve := if a.reserved <= remaining then a.reserved else remaining;
      accounts := Put(accounts, who, Account(a.free, a.reserved - fromReserve));
    }

    // ---------- the extrinsics ----------

    method Upload(origin: Origin, code: Bytes) returns (outcome: Outcome)
      requires Valid() && |code| <= env.maxCode
      modifies this`codes
      ensures (View(), outcome) == Step(env, old(View()), UploadCode(origin, code))
    {
      if !origin.Signed? {
        return Err(BadOrigin);
      }
      var id := env.hash(code);
      codes := codes[id := code];
      outcome := Ok(NewCodeUploaded(id, origin.who));
    }

    method Delete(origin: Origin, id: CodeId) returns (outcome: Outcome)
      requires Valid()
      modifies this`codes
      ensures (View(), outcome) == Step(env, old(View()), DeleteCode(origin, id))
    {
      if !origin.Root? {
        return Err(BadOrigin);
      }
      codes := codes - {id};
      outcome := Ok(CodeDeleted(id));
    }

    method Update(origin: Origin, oldId: CodeId, code: Bytes) returns (outcome: Outcome)
      requires Valid() && |code| <= env.maxCode
      modifies this`codes
      ensures (View(), outcome) == Step(env, old(View()), UpdateCode(origin, oldId, code))
    {
      if !origin.Root? {
        return Err(BadOrigin);
      }
      codes := codes - {oldId};
      var newId := env.hash(code);
      codes := codes[newId := code];
      outcome := Ok(CodeUpgraded(oldId, newId));
    }

    /**
     The arms on the size difference, in their order. `None` means the call goes on to the commit;
     an outcome ends it.
     */
    method SettleChange(who: AccountId, id: CodeId, x: i32, expected: i32) returns (ended: Option<Outcome>)
      modifies this`accounts
      ensures var settlement := Settle(x, expected);
              match Apply(settlement, AccountOf(old(accounts), who))
              case None => ended == Some(Err(DepositError)) && accounts == old(accounts)
              case Some(account) =>
                && ended == (if settlement.Penalty? then Some(Ok(ExceededStorage(id, who))) else None)
                && accounts == Put(old(accounts), who, account)
    {
      ended := None;
      if x == 0 {
      } else if x <= expected && x < 0 {
        UnreserveOf(who, AsU32(AsI32(x * -1)));
      } else if x <= expected {
        var ok := ReserveOf(who, AsU32(x));
        if !ok {
          ended := Some(Err(DepositError));
        }
      } else {
        SlashOf(who, AsU32(x));
        ended := Some(Ok(ExceededStorage(id, who)));
      }
    }

    /** From the end of the run to the end of the call: settle the change, then commit the storage. */
    method SettleAndCommit(who: AccountId, id: CodeId, oldSize: i32, newRaw: Bytes, expected: i32, ghost after: Store)
      returns (outcome: Outcome)
      requires Encodable(after) && newRaw == Encode(after)
      modifies this`accounts, this`storages
      ensures var settlement := Settle(AsI32(AsI32(SizeOf(after)) - oldSize), expected);
              match Apply(settlement, AccountOf(old(accounts), who))
              case None => outcome == Err(DepositError)
              case Some(account) =>
                if settlement.Penalty? then
                  && outcome == Ok(ExceededStorage(id, who)) && storages == old(storages)
                  && accounts == Put(old(accounts), who, account)
                else if !Within(env.limits, after) then
                  outcome == Err(ExecutionCode(UnexpectedBehavoiur))
                else
                  && outcome == Ok(CodeExecuted(id, who)) && storages == old(storages)[id := after]
                  && accounts == Put(old(accounts), who, account)
    {
      hide SizeOf, Encode, Decode, Within, Encodable, Settle, Apply, Put;
      MeasuredSize(after);
      var newSize := GetStorageSize(newRaw);
      var ended := SettleChange(who, id, AsI32(newSize - oldSize), expected);
      if ended.Some? {
        return ended.value;
      }
      var decoded := DecodeStored(newRaw, env.limits, after);
      if decoded == None {
        return Err(ExecutionCode(UnexpectedBehavoiur));
      }
      storages := storages[id := decoded.value];
      outcome := Ok(CodeExecuted(id, who));
    }

    /**
     `execute_code`. An error after the settlement leaves the balances settled: undoing that is the
     business of `Dispatch`.
     */
    method Execute(origin: Origin, id: CodeId, expected: i32, fuel: u32, maxRead: u32, maxWrite: u32)
      returns (outcome: Outcome)
      requires Valid()
      modifies this`accounts, this`storages
      ensures var step := Step(env, old(View()), ExecuteCode(origin, id, expected, fuel, maxRead, maxWrite));
              outcome == step.1 && (outcome.Ok? ==> View() == step.0)
    {
      hide SizeOf, Encode, Executor.Execute, Within, Settle, Apply, Encodable, Judge, Put;
      ghost var call := PalletState.ExecuteCode(origin, id, expected, fuel, maxRead, maxWrite);
      if !origin.Signed? {
        return Err(BadOrigin);
      }
      if id !in codes {
        UnknownCode(env, View(), call);
        return Err(InvalidCodeId);
      }
      hide Step;
      ExecutionCases(env, View(), call);
      var before := StorageOf(State(codes, storages, accounts), id);
      StoredIsEncodable(env, View(), id);
      var oldSize, execution := RunEncoded(env, codes[id], before, fuel, maxRead, maxWrite);
      ghost var result := ExecutionOf(env, View(), call);
      match execution {
        case RawFailed(e) => return Err(ExecutionCode(e));
        case RawCrashed => return Crash;
        case RawDone(newRaw) =>
          outcome := SettleAndCommit(origin.who, id, oldSize, newRaw, expected, result.storage);
      }
    }

    /** The transaction around every extrinsic: an error, or a panic, undoes all it did. */
    method Dispatch(call: Call) returns (outcome: Outcome)
      requires Valid() && (call.UploadCode? || call.UpdateCode? ==> |call.code| <= env.maxCode)
      modifies this
      ensures Valid() && (View(), outcome) == Step(env, old(View()), call)
      ensures !outcome.Ok? ==> View() == old(View())
    {
      StepKeepsBounds(env, View(), call);
      if !Step(env, View(), call).1.Ok? {
        ErrorsChangeNothing(env, View(), call);
      }
      var codesBefore, storagesBefore, accountsBefore := codes, storages, accounts;
      match call {
        case UploadCode(origin, code) => outcome := Upload(origin, code);
        case ExecuteCode(origin, id, expected, fuel, maxRead, maxWrite) =>
          outcome := Execute(origin, id, expected, fuel, maxRead, maxWrite);
        case DeleteCode(origin, id) => outcome := Delete(origin, id);
        case UpdateCode(origin, id, code) => outcome := Update(origin, id, code);
      }
      if !outcome.Ok? {
        codes, storages, accounts := codesBefore, storagesBefore, accountsBefore;
      }
    }

    /** A block of calls, dispatched in order. */
    method DispatchAll(calls: seq<Call>)
      requires Valid() && forall c :: c in calls && (c.UploadCode? || c.UpdateCode?) ==> |c.code| <= env.maxCode
      modifies this
      ensures Valid() && View() == RunCalls(env, old(View()), calls)
    {
      assert calls[0..] == calls;
      for n := 0 to |calls|
        invariant Valid()
        invariant RunCalls(env, View(), calls[n..]) == RunCalls(env, old(View()), calls)
      {
        hide Step;
        assert calls[n..][1..] == calls[n + 1..];
        var _ := Dispatch(calls[n]);
      }
    }
  }

  lemma {:induction false} StoredIsEncodable(env: Env, s: State, id: CodeId)
    requires StoragesBounded(env, s)
    ensures Encodable(StorageOf(s, id))
  {
  }

  /** Any error, from whichever stage of the execution, and any panic leave the state as it was. */
  lemma {:induction false} ErrorsChangeNothing(env: Env, s: State, call: Call)
    requires !Step(env, s, call).1.Ok?
    ensures Step(env, s, call).0 == s
  {
    hide Judge;
  }
}
