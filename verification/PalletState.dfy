/**
 The kontracts pallet as a state machine on values: the state, the four extrinsics and the
 settlement of a storage change. `Pallet` does the same in place on encoded storage.
 */
module PalletState {
  import opened Primitives
  import opened Scale
  import opened StorageSize
  import opened Executor

  type AccountId = nat
  /** The hash of a binary. */
  type CodeId = Bytes

  datatype Account = Account(free: nat, reserved: nat)

  const NO_ACCOUNT := Account(0, 0)

  /** `maxCode` bounds the `code` arguments by their type. */
  datatype Env = Env(hash: Bytes -> Bytes, load: Loader, limits: Limits, maxCode: u32)

  /** The hashing algorithm puts out an `H256`. */
  ghost predicate Hashes32(env: Env) {
    forall b :: |env.hash(b)| == 32
  }

  datatype State = State(codes: map<CodeId, Bytes>, storages: map<CodeId, Store>, accounts: map<AccountId, Account>)

  datatype Origin = Root | Signed(who: AccountId)

  datatype Call =
    | UploadCode(origin: Origin, code: Bytes)
    | ExecuteCode(origin: Origin, id: CodeId, expected: i32, fuel: u32, maxRead: u32, maxWrite: u32)
    | DeleteCode(origin: Origin, id: CodeId)
    | UpdateCode(origin: Origin, id: CodeId, code: Bytes)

  datatype DispatchError = BadOrigin | InvalidCodeId | ExecutionCode(error: ExecutionErrors) | DepositError

  datatype Event =
    | NewCodeUploaded(id: CodeId, who: AccountId)
    | CodeExecuted(id: CodeId, who: AccountId)
    | CodeDeleted(id: CodeId)
    | CodeUpgraded(oldId: CodeId, newId: CodeId)
    | ExceededStorage(id: CodeId, who: AccountId)

  /** A host panic ends the dispatch without a result. */
  datatype Outcome = Ok(event: Event) | Err(error: DispatchError) | Crash

  // ---------- the currency ----------

  function AccountOf(accounts: map<AccountId, Account>, who: AccountId): Account {
    if who in accounts then accounts[who] else NO_ACCOUNT
  }

  /** A write that changes nothing leaves no entry behind. */
  function Put(accounts: map<AccountId, Account>, who: AccountId, account: Account): map<AccountId, Account> {
    if account == AccountOf(accounts, who) then accounts else accounts[who := account]
  }

  function Min(a: nat, b: nat): nat {
    if a <= b then a else b
  }

  /** `ReservableCurrency::reserve`: all or nothing. */
  function Reserve(a: Account, amount: nat): Option<Account> {
    if amount <= a.free then Some(Account(a.free - amount, a.reserved + amount)) else None
  }

  /** `ReservableCurrency::unreserve`: as much as there is. */
  function Unreserve(a: Account, amount: nat): Account {
    var actual := Min(a.reserved, amount);
    Account(a.free + actual, a.reserved - actual)
  }

  /** `Currency::slash`: free balance first, then the reserve; what is taken is burned. */
  function Slash(a: Account, amount: nat): Account {
    var fromFree := Min(a.free, amount);
    var fromReserve := Min(a.reserved, amount - fromFree);
    Account(a.free - fromFree, a.reserved - fromReserve)
  }

  // ---------- settling a storage change ----------

  /** The difference of two measured sizes, in wrapping `i32` arithmetic. */
  function Delta(newSize: int, oldSize: int): i32 {
    AsI32(AsI32(newSize) - AsI32(oldSize))
  }

  datatype Settlement = Unchanged | Refund(amount: u32) | Deposit(amount: u32) | Penalty(amount: u32)

  /** The four arms on the size difference `x`, in their order; `x as u32` in the last one. */
  function Settle(x: i32, expected: i32): Settlement {
    if x == 0 then Unchanged
    else if x <= expected && x < 0 then Refund(AsU32(AsI32(x * -1)))
    else if x <= expected then Deposit(AsU32(x))
    else Penalty(AsU32(x))
  }

  /** The caller's account after the settlement, `None` when the deposit cannot be paid. */
  function Apply(s: Settlement, a: Account): Option<Account> {
    match s
    case Unchanged => Some(a)
    case Refund(n) => Some(Unreserve(a, n))
    case Deposit(n) => Reserve(a, n)
    case Penalty(n) => Some(Slash(a, n))
  }

  // ---------- the extrinsics ----------

  function StorageOf(s: State, id: CodeId): Store {
    if id in s.storages then s.storages[id] else map[]
  }

  function ExecutionOf(env: Env, s: State, call: Call): Execution
    requires call.ExecuteCode? && call.id in s.codes
  {
    Execute(env.hash, env.load, s.codes[call.id], StorageOf(s, call.id), call.fuel, call.maxRead, call.maxWrite)
  }

  /**
   What an execution comes to: refused with nothing changed, punished without a commit, or settled
   and committed. `account` is the caller's account afterwards.
   */
  datatype Judgement =
    | Refused(outcome: Outcome)
    | Punished(amount: u32, account: Account)
    | Committed(settlement: Settlement, account: Account, storage: Store)

  ghost function SizeChange(s: State, id: CodeId, storage: Store): i32 {
    Delta(SizeOf(storage), SizeOf(StorageOf(s, id)))
  }

  /** `execute_code`: a penalty ends the call before the storage is checked, any other settlement after it. */
  ghost function Judge(env: Env, s: State, call: Call): Judgement
    requires call.ExecuteCode? && call.origin.Signed?
  {
    if call.id !in s.codes then Refused(Err(InvalidCodeId))
    else match ExecutionOf(env, s, call)
      case Crashed => Refused(Crash)
      case Failed(e) => Refused(Err(ExecutionCode(e)))
      case Done(storage) =>
        var settlement := Settle(SizeChange(s, call.id, storage), call.expected);
        match Apply(settlement, AccountOf(s.accounts, call.origin.who))
        case None => Refused(Err(DepositError))
        case Some(account) =>
          if settlement.Penalty? then Punished(settlement.amount, account)
          else if !Within(env.limits, storage) then Refused(Err(ExecutionCode(UnexpectedBehavoiur)))
          else Committed(settlement, account, storage)
  }

  ghost function ExecuteStep(env: Env, s: State, call: Call): (State, Outcome)
    requires call.ExecuteCode? && call.origin.Signed?
  {
    var who := call.origin.who;
    match Judge(env, s, call)
    case Refused(outcome) => (s, outcome)
    case Punished(_, account) =>
      (s.(accounts := Put(s.accounts, who, account)), Ok(ExceededStorage(call.id, who)))
    case Committed(_, account, storage) =>
      (s.(accounts := Put(s.accounts, who, account), storages := s.storages[call.id := storage]),
       Ok(CodeExecuted(call.id, who)))
  }

  ghost function Step(env: Env, s: State, call: Call): (State, Outcome) {
    match call
    case UploadCode(origin, code) =>
      if !origin.Signed? then (s, Err(BadOrigin))
      else
        var id := env.hash(code);
        (s.(codes := s.codes[id := code]), Ok(NewCodeUploaded(id, origin.who)))
    case ExecuteCode(origin, _, _, _, _, _) =>
      if !origin.Signed? then (s, Err(BadOrigin)) else ExecuteStep(env, s, call)
    case DeleteCode(origin, id) =>
      if !origin.Root? then (s, Err(BadOrigin))
      else (s.(codes := s.codes - {id}), Ok(CodeDeleted(id)))
    case UpdateCode(origin, id, code) =>
      if !origin.Root? then (s, Err(BadOrigin))
      else
        var newId := env.hash(code);
        (s.(codes := (s.codes - {id})[newId := code]), Ok(CodeUpgraded(id, newId)))
  }

  // ---------- runs ----------

  ghost function RunCalls(env: Env, s: State, calls: seq<Call>): State
    decreases |calls|
  {
    if calls == [] then s else RunCalls(env, Step(env, s, calls[0]).0, calls[1..])
  }

  /** The type of `Storages`: every stored map is within its bounds. */
  ghost predicate StoragesBounded(env: Env, s: State) {
    forall id :: id in s.storages ==> Within(env.limits, s.storages[id])
  }

  /** What every judgement guarantees about the amounts and the storage it names. */
  lemma {:induction false} Judged(env: Env, s: State, call: Call)
    requires call.ExecuteCode? && call.origin.Signed?
    ensures var account := AccountOf(s.accounts, call.origin.who);
            match Judge(env, s, call)
            case Refused(outcome) => !outcome.Ok?
            case Punished(amount, account') => account' == Slash(account, amount)
            case Committed(settlement, account', storage) =>
              && !settlement.Penalty? && Some(account') == Apply(settlement, account)
              && Within(env.limits, storage)
              && settlement == Settle(SizeChange(s, call.id, storage), call.expected)
  {
    hide ExecutionOf, SizeChange, Settle, Within;
  }

  predicate SignedExecution(call: Call) {
    call.ExecuteCode? && call.origin.Signed?
  }

  /** Only a committed execution writes storage, and only under its own id. */
  lemma {:induction false} StepStorages(env: Env, s: State, call: Call)
    ensures var s' := Step(env, s, call).0;
            if SignedExecution(call) && Judge(env, s, call).Committed?
            then s'.storages == s.storages[call.id := Judge(env, s, call).storage]
            else s'.storages == s.storages
  {
    hide Judge;
  }

  /** Only a punished or committed execution changes balances, and only the caller's. */
  lemma {:induction false} StepAccounts(env: Env, s: State, call: Call)
    ensures var s' := Step(env, s, call).0;
            if SignedExecution(call) && !Judge(env, s, call).Refused?
            then s'.accounts == Put(s.accounts, call.origin.who, Judge(env, s, call).account)
            else s'.accounts == s.accounts
  {
    hide Judge;
  }

  lemma {:induction false} StepKeepsBounds(env: Env, s: State, call: Call)
    requires StoragesBounded(env, s)
    ensures StoragesBounded(env, Step(env, s, call).0)
  {
    hide Judge, Step, Within;
    StepStorages(env, s, call);
    if SignedExecution(call) {
      Judged(env, s, call);
    }
  }

  lemma {:induction false} RunKeepsBounds(env: Env, s: State, calls: seq<Call>)
    requires StoragesBounded(env, s)
    ensures StoragesBounded(env, RunCalls(env, s, calls))
    decreases |calls|
  {
    if calls == [] {
    } else {
      hide Step;
      StepKeepsBounds(env, s, calls[0]);
      RunKeepsBounds(env, Step(env, s, calls[0]).0, calls[1..]);
    }
  }
}
