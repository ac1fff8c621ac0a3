/** Deposits, refunds and penalties over whole runs of the pallet. */
module Ledger {
  import opened Primitives
  import opened Scale
  import opened StorageSize
  import opened Executor
  import opened PalletState
  import Sums

  // ---------- i32 arithmetic ----------

  /** The measured difference is the difference exactly when that is an `i32`, whatever the sizes. */
  lemma {:induction false} ExactDelta(newSize: int, oldSize: int)
    ensures Delta(newSize, oldSize) == newSize - oldSize <==> -0x8000_0000 <= newSize - oldSize < 0x8000_0000
  {
  }

  /**
   The declaration only decides between settling and punishing; the amounts depend on the change
   alone. No cast loses anything, except in a penalty for freeing fewer bytes than declared: there
   the amount is the change as an unsigned number, `2^32 + x`.
   */
  lemma {:induction false} DeclarationOnlyGates(x: i32, expected: i32)
    ensures match Settle(x, expected)
            case Unchanged => x == 0
            case Refund(n) => x < 0 && x <= expected && n as int == -(x as int)
            case Deposit(n) => x > 0 && x <= expected && n == x
            case Penalty(n) => x != 0 && x > expected && n == if x > 0 then x else 0x1_0000_0000 + x
    ensures Settle(x, expected).Penalty? <==> x != 0 && x > expected
  {
  }

  /**
   `execute_code` decided by the true change `x` of a completed run, every case exactly. A call is
   punished if and only if `x` is not 0 and exceeds the declaration; it fails for want of a deposit if
   and only if it is not punished and `x` exceeds the free balance, and as over bound if and only if
   neither holds; otherwise exactly `x` is reserved or, for `x < 0`, `-x` unreserved.
   */
  lemma {:induction false} DecidedByChange(env: Env, s: State, call: Call)
    requires SignedExecution(call) && call.id in s.codes && ExecutionOf(env, s, call).Done?
    ensures var storage, a := ExecutionOf(env, s, call).storage, AccountOf(s.accounts, call.origin.who);
            var x := SizeChange(s, call.id, storage);
            var punished, unpaid := x != 0 && x > call.expected, x > a.free;
            match Judge(env, s, call)
            case Punished(n, a') =>
              punished && a' == Slash(a, n) && n == if x > 0 then x else 0x1_0000_0000 + x
            case Committed(_, a', m) =>
              && !punished && !unpaid && m == storage && Within(env.limits, m)
              && a' == if x > 0 then Account(a.free - x, a.reserved + x) else Unreserve(a, 0 - x)
            case Refused(outcome) =>
              && !punished
              && if unpaid then outcome == Err(DepositError)
                 else outcome == Err(ExecutionCode(UnexpectedBehavoiur)) && !Within(env.limits, storage)
  {
    hide ExecutionOf, SizeChange, Within, Settle, Slash;
    var x := SizeChange(s, call.id, ExecutionOf(env, s, call).storage);
    DeclarationOnlyGates(x, call.expected);
  }

  /** Any two declarations that the true change does not exceed lead to the same state. */
  lemma {:induction false} SufficientDeclarationsAgree(env: Env, s: State, call: Call, expected: i32)
    requires SignedExecution(call)
    requires call.id in s.codes && ExecutionOf(env, s, call).Done? ==>
               var x := SizeChange(s, call.id, ExecutionOf(env, s, call).storage);
               x <= call.expected && x <= expected
    ensures Step(env, s, call) == Step(env, s, call.(expected := expected))
  {
    hide Apply, Execute, SizeChange;
  }

  // ---------- totals ----------

  ghost function Sizes(s: State): map<CodeId, int> {
    map id | id in s.storages :: SizeOf(s.storages[id])
  }

  ghost function TotalSize(s: State): int {
    Sums.Total(Sizes(s))
  }

  ghost function Frees(s: State): map<AccountId, int> {
    map a | a in s.accounts :: s.accounts[a].free
  }

  ghost function Reserves(s: State): map<AccountId, int> {
    map a | a in s.accounts :: s.accounts[a].reserved
  }

  ghost function TotalFree(s: State): int {
    Sums.Total(Frees(s))
  }

  ghost function TotalReserved(s: State): int {
    Sums.Total(Reserves(s))
  }

  lemma {:induction false} AccountWritten(s: State, s': State, who: AccountId, account: Account)
    requires s'.accounts == Put(s.accounts, who, account)
    ensures TotalFree(s') == TotalFree(s) - AccountOf(s.accounts, who).free + account.free
    ensures TotalReserved(s') == TotalReserved(s) - AccountOf(s.accounts, who).reserved + account.reserved
  {
    hide TotalFree, TotalReserved;
    if account == AccountOf(s.accounts, who) {
      AccountsKept(s, s');
    } else {
      FreeWritten(s, s', who, account);
      ReserveWritten(s, s', who, account);
    }
  }

  lemma {:induction false} FreeWritten(s: State, s': State, who: AccountId, account: Account)
    requires s'.accounts == s.accounts[who := account]
    ensures TotalFree(s') == TotalFree(s) - AccountOf(s.accounts, who).free + account.free
  {
    assert Frees(s') == Frees(s)[who := account.free];
    Sums.Write(Frees(s), who, account.free);
  }

  lemma {:induction false} ReserveWritten(s: State, s': State, who: AccountId, account: Account)
    requires s'.accounts == s.accounts[who := account]
    ensures TotalReserved(s') == TotalReserved(s) - AccountOf(s.accounts, who).reserved + account.reserved
  {
    assert Reserves(s') == Reserves(s)[who := account.reserved];
    Sums.Write(Reserves(s), who, account.reserved);
  }

  lemma {:induction false} AccountsKept(s: State, s': State)
    requires s'.accounts == s.accounts
    ensures TotalFree(s') == TotalFree(s) && TotalReserved(s') == TotalReserved(s)
  {
  }

  lemma {:induction false} StorageWritten(s: State, s': State, id: CodeId, m: Store)
    requires s'.storages == s.storages[id := m]
    ensures TotalSize(s') == TotalSize(s) - SizeOf(StorageOf(s, id)) + SizeOf(m)
  {
    EmptySize();
    assert Sizes(s') == Sizes(s)[id := SizeOf(m)];
    Sums.Write(Sizes(s), id, SizeOf(m));
  }

  lemma {:induction false} StoragesKept(s: State, s': State)
    requires s'.storages == s.storages
    ensures TotalSize(s') == TotalSize(s)
  {
  }

  // ---------- what leaves the deposits ----------

  /** Burned by a penalty in all, the part of it out of the reserve, and what a refund could not find. */
  datatype Loss = Loss(burned: nat, seized: nat, shortfall: nat)

  const NO_LOSS := Loss(0, 0, 0)

  function PlusLoss(a: Loss, b: Loss): Loss {
    Loss(a.burned + b.burned, a.seized + b.seized, a.shortfall + b.shortfall)
  }

  function LossOf(judgement: Judgement, account: Account): Loss {
    match judgement
    case Punished(n, _) =>
      Loss(Min(n, account.free + account.reserved), if n <= account.free then 0 else Min(account.reserved, n - account.free), 0)
    case Committed(Refund(n), _, _) => Loss(0, 0, if n <= account.reserved then 0 else n - account.reserved)
    case _ => NO_LOSS
  }

  ghost function StepLoss(env: Env, s: State, call: Call): Loss {
    if SignedExecution(call) then LossOf(Judge(env, s, call), AccountOf(s.accounts, call.origin.who)) else NO_LOSS
  }

  ghost function RunLoss(env: Env, s: State, calls: seq<Call>): Loss
    decreases |calls|
  {
    if calls == [] then NO_LOSS
    else PlusLoss(StepLoss(env, s, calls[0]), RunLoss(env, Step(env, s, calls[0]).0, calls[1..]))
  }

  // ---------- money ----------

  lemma {:induction false} StepConservesMoney(env: Env, s: State, call: Call)
    ensures var s' := Step(env, s, call).0;
            TotalFree(s') + TotalReserved(s') + StepLoss(env, s, call).burned == TotalFree(s) + TotalReserved(s)
    ensures var s' := Step(env, s, call).0;
            forall a ::
              var before, after := AccountOf(s.accounts, a), AccountOf(s'.accounts, a);
              after.free + after.reserved == before.free + before.reserved
                || (SignedExecution(call) && a == call.origin.who && Judge(env, s, call).Punished?)
  {
    hide Judge, Step, TotalFree, TotalReserved;
    var s' := Step(env, s, call).0;
    StepAccounts(env, s, call);
    if SignedExecution(call) && !Judge(env, s, call).Refused? {
      Judged(env, s, call);
      AccountWritten(s, s', call.origin.who, Judge(env, s, call).account);
    } else {
      AccountsKept(s, s');
    }
  }

  /** Money is moved between free and reserved or burned by penalties, never created or lost. */
  lemma {:induction false} MoneyConserved(env: Env, s: State, calls: seq<Call>)
    ensures var end := RunCalls(env, s, calls);
            TotalFree(end) + TotalReserved(end) + RunLoss(env, s, calls).burned == TotalFree(s) + TotalReserved(s)
    decreases |calls|
  {
    hide Step, StepLoss, TotalFree, TotalReserved;
    if calls == [] {
    } else {
      StepConservesMoney(env, s, calls[0]);
      MoneyConserved(env, Step(env, s, calls[0]).0, calls[1..]);
    }
  }

  // ---------- deposits ----------

  /** A committed change is measured exactly. */
  lemma {:induction false} CommittedChange(env: Env, s: State, call: Call)
    requires SignedExecution(call) && Judge(env, s, call).Committed?
    requires FitsI32(env.limits) && StoragesBounded(env, s)
    ensures var storage := Judge(env, s, call).storage;
            SizeChange(s, call.id, storage) == SizeOf(storage) - SizeOf(StorageOf(s, call.id))
  {
    hide Judge, SizeOf;
    var storage := Judge(env, s, call).storage;
    Judged(env, s, call);
    BoundedSize(env.limits, storage);
    BoundedSize(env.limits, StorageOf(s, call.id));
    ExactDelta(SizeOf(storage), SizeOf(StorageOf(s, call.id)));
  }

  lemma {:induction false} StepBalancesDeposits(env: Env, s: State, call: Call)
    requires FitsI32(env.limits) && StoragesBounded(env, s)
    ensures var s', loss := Step(env, s, call).0, StepLoss(env, s, call);
            TotalReserved(s') + loss.seized - loss.shortfall - TotalSize(s') == TotalReserved(s) - TotalSize(s)
  {
    hide Judge, Step, SizeOf, TotalReserved, TotalSize, TotalFree, SizeChange;
    var s' := Step(env, s, call).0;
    StepAccounts(env, s, call);
    StepStorages(env, s, call);
    if SignedExecution(call) && !Judge(env, s, call).Refused? {
      Judged(env, s, call);
      var judgement := Judge(env, s, call);
      AccountWritten(s, s', call.origin.who, judgement.account);
      if judgement.Committed? {
        CommittedChange(env, s, call);
        DeclarationOnlyGates(SizeChange(s, call.id, judgement.storage), call.expected);
        StorageWritten(s, s', call.id, judgement.storage);
      } else {
        StoragesKept(s, s');
      }
    } else {
      AccountsKept(s, s');
      StoragesKept(s, s');
    }
  }

  /**
   The deposit ledger: over every run, by any accounts, the reserves follow the stored bytes exactly,
   up to what penalties took out of reserves and what refunds did not find in them.
   */
  lemma {:induction false} DepositsTrackBytes(env: Env, s: State, calls: seq<Call>)
    requires FitsI32(env.limits) && StoragesBounded(env, s)
    ensures var end, loss := RunCalls(env, s, calls), RunLoss(env, s, calls);
            TotalReserved(end) + loss.seized - loss.shortfall - TotalSize(end) == TotalReserved(s) - TotalSize(s)
    decreases |calls|
  {
    hide Step, StepLoss, TotalReserved, TotalSize;
    if calls == [] {
    } else {
      StepBalancesDeposits(env, s, calls[0]);
      StepKeepsBounds(env, s, calls[0]);
      DepositsTrackBytes(env, Step(env, s, calls[0]).0, calls[1..]);
    }
  }

  /** Every byte stored since storages were empty is paid for, counting what penalties took out of reserves. */
  lemma {:induction false} DepositCoverage(env: Env, s: State, calls: seq<Call>)
    requires FitsI32(env.limits) && s.storages == map[]
    ensures var end, loss := RunCalls(env, s, calls), RunLoss(env, s, calls);
            && TotalReserved(end) + loss.seized >= TotalSize(end)
            && (TotalReserved(end) >= TotalSize(end) <==> loss.seized <= loss.shortfall + TotalReserved(s))
  {
    hide RunCalls, RunLoss;
    DepositsTrackBytes(env, s, calls);
    assert Sizes(s) == map[];
    Sums.NonNegative(Reserves(s));
  }

  /** A penalty the caller's free balance does not cover, while there is a reserve to take. */
  ghost predicate TakesFromReserve(env: Env, s: State, call: Call) {
    SignedExecution(call) && Judge(env, s, call).Punished? &&
    var a := AccountOf(s.accounts, call.origin.who);
    Judge(env, s, call).amount > a.free && a.reserved > 0
  }

  /** The reserves lose ground to the stored bytes in a call if and only if it is such a penalty. */
  lemma {:induction false} CoverageFallsExactly(env: Env, s: State, call: Call)
    requires FitsI32(env.limits) && StoragesBounded(env, s)
    ensures var s' := Step(env, s, call).0;
            TotalReserved(s') - TotalSize(s') < TotalReserved(s) - TotalSize(s) <==> TakesFromReserve(env, s, call)
  {
    hide Judge, Step, TotalReserved, TotalSize;
    StepBalancesDeposits(env, s, call);
  }

  ghost predicate PenaltiesCovered(env: Env, s: State, calls: seq<Call>)
    decreases |calls|
  {
    calls != [] ==>
      !TakesFromReserve(env, s, calls[0]) && PenaltiesCovered(env, Step(env, s, calls[0]).0, calls[1..])
  }

  lemma {:induction false} CoverageHolds(env: Env, s: State, calls: seq<Call>)
    requires FitsI32(env.limits) && StoragesBounded(env, s) && PenaltiesCovered(env, s, calls)
    ensures var end := RunCalls(env, s, calls);
            TotalReserved(end) - TotalSize(end) >= TotalReserved(s) - TotalSize(s)
    decreases |calls|
  {
    hide Step, TotalReserved, TotalSize, TakesFromReserve;
    if calls == [] {
    } else {
      CoverageFallsExactly(env, s, calls[0]);
      StepKeepsBounds(env, s, calls[0]);
      CoverageHolds(env, Step(env, s, calls[0]).0, calls[1..]);
    }
  }

  /** From empty storages, as long as no penalty takes from a reserve, the reserves alone cover every stored byte. */
  lemma {:induction false} ReservesCoverBytes(env: Env, s: State, calls: seq<Call>)
    requires FitsI32(env.limits) && s.storages == map[] && PenaltiesCovered(env, s, calls)
    ensures TotalReserved(RunCalls(env, s, calls)) >= TotalSize(RunCalls(env, s, calls))
  {
    hide RunCalls, PenaltiesCovered;
    CoverageHolds(env, s, calls);
    assert Sizes(s) == map[];
    Sums.NonNegative(Reserves(s));
  }

  // ---------- deposits per owner ----------

  ghost function OwnedSizes(owner: CodeId -> AccountId, s: State, a: AccountId): map<CodeId, int> {
    map id | id in s.storages && owner(id) == a :: SizeOf(s.storages[id])
  }

  /** Each account has reserved exactly the bytes of the storages it owns. */
  ghost predicate ExactDeposits(owner: CodeId -> AccountId, s: State) {
    forall a :: AccountOf(s.accounts, a).reserved == Sums.Total(OwnedSizes(owner, s, a))
  }

  /** An execution that changes a size is its owner's, and no penalty reaches into a reserve. */
  ghost predicate OwnerPays(env: Env, owner: CodeId -> AccountId, s: State, call: Call) {
    SignedExecution(call) ==>
      var a := AccountOf(s.accounts, call.origin.who);
      match Judge(env, s, call)
      case Refused(_) => true
      case Punished(n, _) => n <= a.free || a.reserved == 0
      case Committed(_, _, m) => call.origin.who == owner(call.id) || SizeChange(s, call.id, m) == 0
  }

  ghost predicate OwnersPay(env: Env, owner: CodeId -> AccountId, s: State, calls: seq<Call>)
    decreases |calls|
  {
    calls != [] ==>
      OwnerPays(env, owner, s, calls[0]) && OwnersPay(env, owner, Step(env, s, calls[0]).0, calls[1..])
  }

  lemma {:induction false} OwnedWritten(owner: CodeId -> AccountId, s: State, s': State, id: CodeId, m: Store, a: AccountId)
    requires s'.storages == s.storages[id := m]
    ensures Sums.Total(OwnedSizes(owner, s', a)) == Sums.Total(OwnedSizes(owner, s, a))
              + if a == owner(id) then SizeOf(m) - SizeOf(StorageOf(s, id)) else 0
  {
    hide SizeOf;
    EmptySize();
    if a == owner(id) {
      assert OwnedSizes(owner, s', a) == OwnedSizes(owner, s, a)[id := SizeOf(m)];
      Sums.Write(OwnedSizes(owner, s, a), id, SizeOf(m));
    } else {
      assert OwnedSizes(owner, s', a) == OwnedSizes(owner, s, a);
    }
  }

  lemma {:induction false} OwnedAtLeast(owner: CodeId -> AccountId, s: State, id: CodeId)
    ensures SizeOf(StorageOf(s, id)) <= Sums.Total(OwnedSizes(owner, s, owner(id)))
  {
    EmptySize();
    var owned := OwnedSizes(owner, s, owner(id));
    forall x | x in owned ensures 0 <= owned[x] {
      SizeNonNegative(s.storages[x]);
    }
    Sums.AtLeastEach(owned, id);
  }

  lemma {:induction false} OwnerCommits(env: Env, owner: CodeId -> AccountId, s: State, call: Call)
    requires FitsI32(env.limits) && StoragesBounded(env, s) && ExactDeposits(owner, s)
    requires SignedExecution(call) && call.origin.who == owner(call.id) && Judge(env, s, call).Committed?
    ensures ExactDeposits(owner, Step(env, s, call).0)
    ensures StepLoss(env, s, call) == NO_LOSS
  {
    hide Judge, Step, SizeOf, OwnedSizes, SizeChange, ExactDeposits;
    var who, s' := call.origin.who, Step(env, s, call).0;
    StepAccounts(env, s, call);
    StepStorages(env, s, call);
    Judged(env, s, call);
    var judgement := Judge(env, s, call);
    CommittedChange(env, s, call);
    DeclarationOnlyGates(SizeChange(s, call.id, judgement.storage), call.expected);
    OwnedAtLeast(owner, s, call.id);
    SizeNonNegative(judgement.storage);
    DepositsOf(owner, s, who);
    forall a ensures AccountOf(s'.accounts, a).reserved == Sums.Total(OwnedSizes(owner, s', a)) {
      OwnedWritten(owner, s, s', call.id, judgement.storage, a);
      DepositsOf(owner, s, a);
    }
    DepositsFrom(owner, s');
  }

  /** Anyone may execute a kontract as long as the size stays; a change of size that another account pays for breaks the owner's deposit. */
  lemma {:induction false} StrangerCommits(env: Env, owner: CodeId -> AccountId, s: State, call: Call)
    requires FitsI32(env.limits) && StoragesBounded(env, s) && ExactDeposits(owner, s)
    requires SignedExecution(call) && call.origin.who != owner(call.id) && Judge(env, s, call).Committed?
    ensures ExactDeposits(owner, Step(env, s, call).0)
       <==> SizeChange(s, call.id, Judge(env, s, call).storage) == 0
    ensures SizeChange(s, call.id, Judge(env, s, call).storage) == 0 ==> StepLoss(env, s, call) == NO_LOSS
  {
    hide Judge, Step, SizeOf, OwnedSizes, SizeChange, ExactDeposits;
    var o, s' := owner(call.id), Step(env, s, call).0;
    StepAccounts(env, s, call);
    StepStorages(env, s, call);
    Judged(env, s, call);
    var judgement := Judge(env, s, call);
    CommittedChange(env, s, call);
    var x := SizeChange(s, call.id, judgement.storage);
    DeclarationOnlyGates(x, call.expected);
    if x == 0 {
      forall a ensures AccountOf(s'.accounts, a).reserved == Sums.Total(OwnedSizes(owner, s', a)) {
        OwnedWritten(owner, s, s', call.id, judgement.storage, a);
        DepositsOf(owner, s, a);
      }
      DepositsFrom(owner, s');
    } else if ExactDeposits(owner, s') {
      DepositsOf(owner, s, o);
      DepositsOf(owner, s', o);
      OwnedWritten(owner, s, s', call.id, judgement.storage, o);
    }
  }

  lemma {:induction false} PenaltyAndDeposits(env: Env, owner: CodeId -> AccountId, s: State, call: Call)
    requires ExactDeposits(owner, s)
    requires SignedExecution(call) && Judge(env, s, call).Punished?
    ensures var a := AccountOf(s.accounts, call.origin.who);
            var free := Judge(env, s, call).amount <= a.free || a.reserved == 0;
            && (ExactDeposits(owner, Step(env, s, call).0) <==> free)
            && (free ==> StepLoss(env, s, call).seized == 0) && StepLoss(env, s, call).shortfall == 0
  {
    hide Judge, Step, OwnedSizes, ExactDeposits;
    var who, s' := call.origin.who, Step(env, s, call).0;
    StepAccounts(env, s, call);
    StepStorages(env, s, call);
    Judged(env, s, call);
    if AccountOf(s'.accounts, who).reserved == AccountOf(s.accounts, who).reserved {
      OwnedKept(owner, s, s');
    } else if ExactDeposits(owner, s') {
      DepositsOf(owner, s, who);
      DepositsOf(owner, s', who);
      OwnedSame(owner, s, s', who);
    }
  }

  lemma {:induction false} OwnedSame(owner: CodeId -> AccountId, s: State, s': State, a: AccountId)
    requires s'.storages == s.storages
    ensures OwnedSizes(owner, s', a) == OwnedSizes(owner, s, a)
  {
  }

  lemma {:induction false} DepositsOf(owner: CodeId -> AccountId, s: State, a: AccountId)
    requires ExactDeposits(owner, s)
    ensures AccountOf(s.accounts, a).reserved == Sums.Total(OwnedSizes(owner, s, a))
  {
  }

  lemma {:induction false} DepositsFrom(owner: CodeId -> AccountId, s: State)
    requires forall a :: AccountOf(s.accounts, a).reserved == Sums.Total(OwnedSizes(owner, s, a))
    ensures ExactDeposits(owner, s)
  {
  }

  lemma {:induction false} OwnedKept(owner: CodeId -> AccountId, s: State, s': State)
    requires s'.storages == s.storages && ExactDeposits(owner, s)
    requires forall a :: AccountOf(s'.accounts, a).reserved == AccountOf(s.accounts, a).reserved
    ensures ExactDeposits(owner, s')
  {
    forall a ensures AccountOf(s'.accounts, a).reserved == Sums.Total(OwnedSizes(owner, s', a)) {
      assert OwnedSizes(owner, s', a) == OwnedSizes(owner, s, a);
    }
  }

  /** Exact deposits survive a call if and only if its owner pays for it. */
  lemma {:induction false} ExactStep(env: Env, owner: CodeId -> AccountId, s: State, call: Call)
    requires FitsI32(env.limits) && StoragesBounded(env, s) && ExactDeposits(owner, s)
    ensures ExactDeposits(owner, Step(env, s, call).0) <==> OwnerPays(env, owner, s, call)
    ensures OwnerPays(env, owner, s, call) ==>
              StepLoss(env, s, call).seized == 0 && StepLoss(env, s, call).shortfall == 0
  {
    hide Judge, Step, OwnedSizes, ExactDeposits, SizeChange;
    if SignedExecution(call) && Judge(env, s, call).Committed? {
      if call.origin.who == owner(call.id) {
        OwnerCommits(env, owner, s, call);
      } else {
        StrangerCommits(env, owner, s, call);
      }
    } else if SignedExecution(call) && Judge(env, s, call).Punished? {
      PenaltyAndDeposits(env, owner, s, call);
    } else {
      StepAccounts(env, s, call);
      StepStorages(env, s, call);
      OwnedKept(owner, s, Step(env, s, call).0);
    }
  }

  /**
   When every change of a kontract's size is paid for by one account, its owner, and no penalty
   reaches into a reserve, each account's reserve is at all times the exact number of bytes its
   kontracts store; so no refund ever finds less than it asks for.
   */
  lemma {:induction false} ExactDepositsPerOwner(env: Env, owner: CodeId -> AccountId, s: State, calls: seq<Call>)
    requires FitsI32(env.limits) && StoragesBounded(env, s) && ExactDeposits(owner, s)
    requires OwnersPay(env, owner, s, calls)
    ensures ExactDeposits(owner, RunCalls(env, s, calls))
    ensures RunLoss(env, s, calls).seized == 0 && RunLoss(env, s, calls).shortfall == 0
    decreases |calls|
  {
    hide Step, StepLoss, ExactDeposits, OwnerPays;
    if calls == [] {
    } else {
      ExactStep(env, owner, s, calls[0]);
      StepKeepsBounds(env, s, calls[0]);
      ExactDepositsPerOwner(env, owner, Step(env, s, calls[0]).0, calls[1..]);
    }
  }

  /** The hypothesis of `ExactDepositsPerOwner` when nothing is stored or reserved yet. */
  lemma {:induction false} EmptyIsExact(owner: CodeId -> AccountId, s: State)
    requires s.storages == map[] && forall a :: a in s.accounts ==> s.accounts[a].reserved == 0
    ensures ExactDeposits(owner, s)
  {
    forall a ensures AccountOf(s.accounts, a).reserved == Sums.Total(OwnedSizes(owner, s, a)) {
      assert OwnedSizes(owner, s, a) == map[];
    }
  }
}
