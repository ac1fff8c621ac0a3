/** The Collatz kontract over whole runs of the pallet, and what it shows about deposits. */
module CollatzRuns {
  import opened Primitives
  import opened Scale
  import opened StorageSize
  import opened Executor
  import opened PalletState
  import opened GuestApi
  import opened Collatz
  import Ledger
  import Sums

  /** The state after an execution that leaves `m` and `account`. */
  function After(s: State, call: Call, m: Store, account: Account): State
    requires SignedExecution(call)
  {
    s.(accounts := Put(s.accounts, call.origin.who, account), storages := s.storages[call.id := m])
  }

  /** What `Step` does with an execution whose result is known. */
  lemma {:induction false} StepOnDone(env: Env, s: State, call: Call, m: Store, account: Account)
    requires SignedExecution(call) && call.id in s.codes && ExecutionOf(env, s, call) == Done(m)
    requires Within(env.limits, m)
    requires var settlement := Settle(SizeChange(s, call.id, m), call.expected);
             !settlement.Penalty? && Apply(settlement, AccountOf(s.accounts, call.origin.who)) == Some(account)
    ensures Step(env, s, call) == (After(s, call, m, account), Ok(CodeExecuted(call.id, call.origin.who)))
  {
    hide ExecutionOf, Settle, SizeChange, Apply, Within, Put;
  }

  lemma {:induction false} StepOnPenalty(env: Env, s: State, call: Call, m: Store, amount: u32)
    requires SignedExecution(call) && call.id in s.codes && ExecutionOf(env, s, call) == Done(m)
    requires Settle(SizeChange(s, call.id, m), call.expected) == Penalty(amount)
    ensures Step(env, s, call)
         == (s.(accounts := Put(s.accounts, call.origin.who, Slash(AccountOf(s.accounts, call.origin.who), amount))),
             Ok(ExceededStorage(call.id, call.origin.who)))
  {
    hide ExecutionOf, Settle, SizeChange, Within, Put, Slash;
  }

  lemma {:induction false} SettleGrowth(x: i32, expected: i32)
    requires x > 0
    ensures Settle(x, expected) == if x <= expected then Deposit(x) else Penalty(x)
  {
  }

  lemma {:induction false} FirstSizeChange(env: Env, s: State, id: CodeId, n: u32)
    requires StorageOf(s, id) == map[] && |env.hash(KEY)| == 32
    ensures SizeChange(s, id, Holding(env, n)) == 38
  {
    hide Holding, SizeOf;
    HoldingSize(env, n);
    EmptySize();
  }

  /** The first execution stores 38 bytes and reserves exactly 38 from the caller. */
  lemma {:induction false} FirstExecution(env: Env, s: State, call: Call, l: Layout, mem: Bytes)
    requires call.ExecuteCode? && Uploaded(env, s, call.id, l, mem) && Affordable(l, call.id, call)
    requires StorageOf(s, call.id) == map[] && 38 <= call.expected
    requires 38 <= AccountOf(s.accounts, call.origin.who).free
    ensures var a := AccountOf(s.accounts, call.origin.who);
            Step(env, s, call) == (After(s, call, Holding(env, SeriesU32(1)), Account(a.free - 38, a.reserved + 38)),
                                   Ok(CodeExecuted(call.id, call.origin.who)))
  {
    hide Uploaded, Holding, ExecutionOf, SeriesU32, Fits, SizeChange, Step, Settle, Within, StorageOf;
    ExecutionAdvances(env, s, call, l, mem, 0);
    UploadedMeans(env, s, call.id, l, mem);
    FirstSizeChange(env, s, call.id, SeriesU32(1));
    SettleGrowth(38, call.expected);
    var a := AccountOf(s.accounts, call.origin.who);
    StepOnDone(env, s, call, Holding(env, SeriesU32(1)), Account(a.free - 38, a.reserved + 38));
  }

  /** Declared too small, the same execution stores nothing, and 38 is slashed instead. */
  lemma {:induction false} UnderdeclaredExecution(env: Env, s: State, call: Call, l: Layout, mem: Bytes)
    requires call.ExecuteCode? && Uploaded(env, s, call.id, l, mem) && Affordable(l, call.id, call)
    requires StorageOf(s, call.id) == map[] && call.expected < 38
    ensures var a := AccountOf(s.accounts, call.origin.who);
            Step(env, s, call) == (s.(accounts := Put(s.accounts, call.origin.who, Slash(a, 38))),
                                   Ok(ExceededStorage(call.id, call.origin.who)))
  {
    hide Uploaded, Holding, ExecutionOf, SeriesU32, Fits, SizeChange, Step, Settle, Within, StorageOf, Put, Slash;
    ExecutionAdvances(env, s, call, l, mem, 0);
    UploadedMeans(env, s, call.id, l, mem);
    FirstSizeChange(env, s, call.id, SeriesU32(1));
    SettleGrowth(38, call.expected);
    StepOnPenalty(env, s, call, Holding(env, SeriesU32(1)), 38);
  }

  /** Every later one replaces the number in place: no change of size, so no change of any balance. */
  lemma {:induction false} LaterExecution(env: Env, s: State, call: Call, l: Layout, mem: Bytes, n: nat)
    requires call.ExecuteCode? && Uploaded(env, s, call.id, l, mem) && Affordable(l, call.id, call)
    requires n > 0 && StorageOf(s, call.id) == Holding(env, SeriesU32(n))
    ensures Step(env, s, call) == (s.(storages := s.storages[call.id := Holding(env, SeriesU32(n + 1))]),
                                   Ok(CodeExecuted(call.id, call.origin.who)))
  {
    hide Uploaded, Holding, SizeOf, ExecutionOf, Series, Fits, SeriesU32;
    ExecutionAdvances(env, s, call, l, mem, n);
    UploadedMeans(env, s, call.id, l, mem);
    HoldingSize(env, SeriesU32(n));
    HoldingSize(env, SeriesU32(n + 1));
    var a := AccountOf(s.accounts, call.origin.who);
    assert SizeChange(s, call.id, Holding(env, SeriesU32(n + 1))) == 0;
    StepOnDone(env, s, call, Holding(env, SeriesU32(n + 1)), a);
  }

  lemma {:induction false} UploadedMeans(env: Env, s: State, id: CodeId, l: Layout, mem: Bytes)
    requires Uploaded(env, s, id, l, mem)
    ensures id in s.codes && |env.hash(KEY)| == 32
    ensures forall s': State :: s'.codes == s.codes ==> Uploaded(env, s', id, l, mem)
  {
  }

  lemma {:induction false} LaterExecutions(env: Env, s: State, calls: seq<Call>, id: CodeId, l: Layout, mem: Bytes, n: nat)
    requires Uploaded(env, s, id, l, mem) && n > 0
    requires forall c :: c in calls ==> Affordable(l, id, c)
    requires StorageOf(s, id) == Holding(env, SeriesU32(n)) && id in s.storages
    ensures RunCalls(env, s, calls) == s.(storages := s.storages[id := Holding(env, SeriesU32(n + |calls|))])
    decreases |calls|
  {
    hide Uploaded, Holding, Step, SeriesU32;
    if calls != [] {
      assert calls[0] in calls;
      LaterExecution(env, s, calls[0], l, mem, n);
      var s' := Step(env, s, calls[0]).0;
      UploadedMeans(env, s, id, l, mem);
      LaterExecutions(env, s', calls[1..], id, l, mem, n + 1);
    } else {
      assert s.storages[id := Holding(env, SeriesU32(n))] == s.storages;
    }
  }

  /**
   The kontract end to end: after any number of executions, by any accounts, its storage is one entry,
   the encoded number of the series under the hashed key; exactly its 38 bytes are reserved, all from
   the account that executed it first, and no other balance, code or storage has changed.
   */
  lemma {:induction false} CollatzEndToEnd(env: Env, s: State, calls: seq<Call>, id: CodeId, l: Layout, mem: Bytes)
    requires calls != [] && Uploaded(env, s, id, l, mem) && StorageOf(s, id) == map[]
    requires Affordable(l, id, calls[0]) && 38 <= calls[0].expected
    requires 38 <= AccountOf(s.accounts, calls[0].origin.who).free
    requires forall c :: c in calls[1..] ==> Affordable(l, id, c)
    ensures var first := calls[0].origin.who;
            var a := AccountOf(s.accounts, first);
            var holding := Holding(env, SeriesU32(|calls|));
            && RunCalls(env, s, calls) == State(s.codes, s.storages[id := holding],
                                                s.accounts[first := Account(a.free - 38, a.reserved + 38)])
            && SizeOf(holding) == 38
  {
    hide Uploaded, Holding, Step, SizeOf, Fits, SeriesU32;
    FirstExecution(env, s, calls[0], l, mem);
    var s' := Step(env, s, calls[0]).0;
    UploadedMeans(env, s, id, l, mem);
    LaterExecutions(env, s', calls[1..], id, l, mem, 1);
    HoldingSize(env, SeriesU32(|calls|));
    assert s'.storages[id := Holding(env, SeriesU32(|calls|))] == s.storages[id := Holding(env, SeriesU32(|calls|))];
  }

  // ---------- a penalty can leave stored bytes without a deposit ----------

  /**
   The reserves alone do not always cover the stored bytes. An account that can pay for one execution
   but not for two pays the penalty for the second out of the deposit for the first: 38 bytes are
   stored, and fewer than 38 units of its reserve remain for them.
   */
  lemma {:induction false} PenaltyUncoversBytes(env: Env, s: State, first: Call, second: Call,
                                                l: Layout, mem: Bytes, l': Layout, mem': Bytes)
    requires SignedExecution(first) && Uploaded(env, s, first.id, l, mem) && Affordable(l, first.id, first)
    requires SignedExecution(second) && Uploaded(env, s, second.id, l', mem') && Affordable(l', second.id, second)
    requires first.id != second.id && first.origin == second.origin
    requires StorageOf(s, first.id) == map[] && StorageOf(s, second.id) == map[]
    requires second.expected < 38 <= first.expected
    requires 38 <= AccountOf(s.accounts, first.origin.who).free < 76
    ensures var end, free := RunCalls(env, s, [first, second]), AccountOf(s.accounts, first.origin.who).free;
            && Ledger.TotalSize(end) == Ledger.TotalSize(s) + 38
            && Ledger.TotalReserved(end) == Ledger.TotalReserved(s) + free - 38
            && StorageOf(end, first.id) == Holding(env, SeriesU32(1)) && StorageOf(end, second.id) == map[]
  {
    hide Uploaded, Affordable, Holding, SeriesU32, Step, SizeOf, Put, Slash, RunCalls, Ledger.TotalSize, Ledger.TotalReserved, Ledger.TotalFree;
    var who, a := first.origin.who, AccountOf(s.accounts, first.origin.who);
    var charged := Account(a.free - 38, a.reserved + 38);
    FirstExecution(env, s, first, l, mem);
    var middle := Step(env, s, first).0;
    UploadedMeans(env, s, first.id, l, mem);
    UploadedMeans(env, s, second.id, l', mem');
    UnderdeclaredExecution(env, middle, second, l', mem');
    var end := Step(env, middle, second).0;
    TwoCalls(env, s, first, second);
    PutAccount(s.accounts, who, charged);
    Ledger.AccountWritten(s, middle, who, charged);
    Ledger.AccountWritten(middle, end, who, Slash(charged, 38));
    SlashReaches(charged, 38);
    HoldingSize(env, SeriesU32(1));
    EmptySize();
    Ledger.StorageWritten(s, middle, first.id, Holding(env, SeriesU32(1)));
    Ledger.StoragesKept(middle, end);
  }

  lemma {:induction false} SlashReaches(a: Account, amount: nat)
    requires a.free <= amount <= a.free + a.reserved
    ensures Slash(a, amount) == Account(0, a.free + a.reserved - amount)
  {
  }

  lemma {:induction false} PutAccount(accounts: map<AccountId, Account>, who: AccountId, account: Account)
    ensures AccountOf(Put(accounts, who, account), who) == account
  {
  }

  lemma {:induction false} TwoCalls(env: Env, s: State, first: Call, second: Call)
    ensures RunCalls(env, s, [first, second]) == Step(env, Step(env, s, first).0, second).0
  {
    hide Step;
    var calls, s' := [first, second], Step(env, s, first).0;
    assert calls[1..] == [second] && [second][1..] == [];
    assert RunCalls(env, s', [second]) == RunCalls(env, Step(env, s', second).0, []);
  }

  // An instance of it that starts from genesis.

  const LAYOUT := Layout(0, 4, 104, 0, 0, 0, 0)

  function Digest(b: Bytes): (d: Bytes)
    ensures |d| == 32
  {
    seq(32, _ => if b == [1] then 1 else 0)
  }

  /** Both binaries load as the Collatz kontract, and they have different hashes. */
  function Example(): Env {
    Env(b => Digest(b), b => Loaded(Kontract(LAYOUT, Zeros(108))), Limits(512, 1024, 1_048_576), 1_000_000)
  }

  function Genesis(): State {
    State(map[], map[], map[7 := Account(38, 0)])
  }

  function TwoUploads(): State {
    Genesis().(codes := map[Digest([0]) := [0], Digest([1]) := [1]])
  }

  lemma {:induction false} ExampleUploaded(id: CodeId)
    requires id in TwoUploads().codes
    ensures Uploaded(Example(), TwoUploads(), id, LAYOUT, Zeros(108))
  {
    hide EncodeU32;
  }

  lemma {:induction false} UploadsReached()
    ensures RunCalls(Example(), Genesis(), [UploadCode(Signed(7), [0]), UploadCode(Signed(7), [1])]) == TwoUploads()
    ensures Digest([0]) != Digest([1])
  {
    TwoCalls(Example(), Genesis(), UploadCode(Signed(7), [0]), UploadCode(Signed(7), [1]));
    assert Digest([0])[0] == 0 && Digest([1])[0] == 1;
  }

  /** Four calls by one account, after which 38 bytes are stored and nothing is reserved. */
  lemma {:induction false} UncoveredFromGenesis()
    ensures var uploads := [UploadCode(Signed(7), [0]), UploadCode(Signed(7), [1])];
            var executions := [ExecuteCode(Signed(7), Digest([0]), 38, 4, 1, 1), ExecuteCode(Signed(7), Digest([1]), 0, 4, 1, 1)];
            var end := RunCalls(Example(), RunCalls(Example(), Genesis(), uploads), executions);
            Ledger.TotalSize(end) == 38 && Ledger.TotalReserved(end) == 0
  {
    hide Uploaded, Example, Digest, Step, Holding, SeriesU32;
    UploadsReached();
    ExampleUploaded(Digest([0]));
    ExampleUploaded(Digest([1]));
    var first, second := ExecuteCode(Signed(7), Digest([0]), 38, 4, 1, 1), ExecuteCode(Signed(7), Digest([1]), 0, 4, 1, 1);
    PenaltyUncoversBytes(Example(), TwoUploads(), first, second, LAYOUT, Zeros(108), LAYOUT, Zeros(108));
    assert Ledger.Sizes(TwoUploads()) == map[];
    Sums.AllZero(Ledger.Reserves(TwoUploads()));
  }
}
