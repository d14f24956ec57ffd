/** Gas and balances: one transaction, and a block of them. */
module Accounting {
  import opened Prelude
  type Addr = nat
  type Balances = map<Addr, nat>

  const MAX_UINT128 := 0xFFFF_FFFF_FFFF_FFFF_FFFF_FFFF_FFFF_FFFF
  const MIN_GAS_COUNT_PER_TRANSACTION := 20000
  const GAS_COUNT_PER_BYTE := 1
  const BLOCK_REWARD := 1426940000000000000

  datatype Error =
    | Overflow | BalanceInsufficient | GasFeeOverflow | InsufficientBalance | GasCntOverflow | OutOfGasLimit
    | SmallTransactionNonce | LargeTransactionNonce | PayloadFailure | InvalidTransfer

  // --- 128-bit unsigned arithmetic ---------------------------------------------------------------

  lemma Uint128Bound()
    ensures MAX_UINT128 + 1 == 0x1_0000_0000 * 0x1_0000_0000 * 0x1_0000_0000 * 0x1_0000_0000
  {
  }

  function Checked(n: int): (r: Option<nat>)
    ensures r.Some? <==> 0 <= n <= MAX_UINT128
    ensures r.Some? ==> r.value == n
  {
    if 0 <= n <= MAX_UINT128 then Some(n) else None
  }

  // --- balances ------------------------------------------------------------------------------------

  function Balance(b: Balances, a: Addr): nat
  {
    if a in b then b[a] else 0
  }

  ghost function Pick(b: Balances): Addr
    requires b != map[]
    ensures Pick(b) in b
  {
    assert b.Keys != {};
    var a :| a in b.Keys; a
  }

  /** The sum of all balances. */
  ghost function Total(b: Balances): nat
    decreases |b|
  {
    if b == map[] then 0 else
      Smaller(b, Pick(b));
      b[Pick(b)] + Total(b - {Pick(b)})
  }

  lemma Smaller(b: Balances, a: Addr)
    requires a in b
    ensures |b - {a}| < |b|
  {
  }

  /** The sum does not depend on the order it is taken in. */
  lemma {:induction false} TotalWithout(b: Balances, a: Addr)
    requires a in b
    ensures Total(b) == b[a] + Total(b - {a})
    decreases |b|
  {
    var k := Pick(b);
    if k != a {
      Smaller(b, k);
      Smaller(b, a);
      TotalWithout(b - {k}, a);
      TotalWithout(b - {a}, k);
      assert b - {k} - {a} == b - {a} - {k};
    }
  }

  lemma TotalUpdate(b: Balances, a: Addr, n: nat)
    ensures Total(b[a := n]) == Total(b) - Balance(b, a) + n
  {
    TotalWithout(b[a := n], a);
    if a in b {
      TotalWithout(b, a);
      assert b[a := n] - {a} == b - {a};
    } else {
      assert b[a := n] - {a} == b;
    }
  }

  // --- one transaction ------------------------------------------------------------------------------

  datatype Tx = Tx(from: Addr, to: Addr, value: nat, nonce: nat, gasPrice: nat, gasLimit: nat, dataLen: nat)

  predicate TxOk(tx: Tx)
  {
    tx.value <= MAX_UINT128 && tx.gasPrice <= MAX_UINT128 && tx.gasLimit <= MAX_UINT128
  }

  /** What running a payload came to: the gas the engine reports, whether it failed, and the balances it left. */
  datatype Execution = Execution(gas: nat, failed: bool, balances: Balances)

  /** A payload that cannot be loaded, or its base gas and what running it does. */
  datatype Payload = Unloadable | Payload(baseGas: nat, run: Balances -> Execution)

  /** The payload of a transaction that carries plain data: no gas of its own, no effect. */
  function Binary(): Payload
  {
    Payload(0, b => Execution(0, false, b))
  }

  ghost predicate Plain(p: Payload)
  {
    p.Payload? && p.baseGas == 0 && forall b :: p.run(b) == Execution(0, false, b)
  }

  function GasCountOfTxBase(tx: Tx): Option<nat>
  {
    if tx.dataLen > 0 then
      var dataGas := Checked(tx.dataLen * GAS_COUNT_PER_BYTE);
      if dataGas.None? then None else Checked(MIN_GAS_COUNT_PER_TRANSACTION + dataGas.value)
    else Some(MIN_GAS_COUNT_PER_TRANSACTION)
  }

  ghost predicate BalancesOk(b: Balances)
  {
    forall a :: a in b ==> b[a] <= MAX_UINT128
  }

  class WorldState {
    var balances: Balances
    var nonces: map<Addr, nat>
    var gasConsumed: map<Addr, nat>

    /** What `Reset` goes back to. */
    const base: Balances
    const baseNonces: map<Addr, nat>

    constructor (balances: Balances, nonces: map<Addr, nat>)
      ensures this.balances == base == balances && this.nonces == baseNonces == nonces && gasConsumed == map[]
    {
      this.balances, this.nonces, this.gasConsumed := balances, nonces, map[];
      base, baseNonces := balances, nonces;
    }

    ghost predicate Valid()
      reads this
    {
      BalancesOk(balances) && BalancesOk(gasConsumed) && BalancesOk(base)
    }

    /** An account that does not exist yet starts empty. */
    method GetOrCreateUserAccount(a: Addr)
      requires Valid()
      modifies `balances
      ensures Valid() && balances == Created(old(balances), a)
    {
      if a !in balances { balances := balances[a := 0]; }
    }

    method AddBalance(a: Addr, value: nat) returns (err: Option<Error>)
      requires Valid() && a in balances
      modifies `balances
      ensures Valid()
      ensures err == if old(balances[a]) + value <= MAX_UINT128 then None else Some(Overflow)
      ensures balances == if err == None then old(balances)[a := old(balances[a]) + value] else old(balances)
    {
      var sum := Checked(balances[a] + value);
      if sum.None? { return Some(Overflow); }
      balances := balances[a := sum.value];
      return None;
    }

    method SubBalance(a: Addr, value: nat) returns (err: Option<Error>)
      requires Valid() && a in balances
      modifies `balances
      ensures Valid()
      ensures err == if old(balances[a]) >= value then None else Some(BalanceInsufficient)
      ensures balances == if err == None then old(balances)[a := old(balances[a]) - value] else old(balances)
    {
      if balances[a] < value { return Some(BalanceInsufficient); }
      balances := balances[a := balances[a] - value];
      return None;
    }

    /** Takes `value` from one account and gives it to another, or the same. */
    method Move(from: Addr, to: Addr, value: nat) returns (err: Option<Error>)
      requires Valid() && from in balances && to in balances
      modifies `balances
      ensures Valid()
      ensures err == None <==> old(balances[from]) >= value && (from != to ==> old(balances[to]) + value <= MAX_UINT128)
      ensures err == None ==> Total(balances) == Total(old(balances)) && MovedOver(old(balances), balances, from, to, value)
      ensures err == None ==> balances == Handed(old(balances), from, to, value)
      ensures err == Some(BalanceInsufficient) <==> old(balances[from]) < value
      ensures err == Some(BalanceInsufficient) ==> balances == old(balances)
      ensures err == Some(Overflow) ==> balances == old(balances)[from := old(balances[from]) - value]
    {
      hide Total;
      err := SubBalance(from, value);
      if err != None { return; }
      MoveTotal(old(balances), from, to, value);
      err := AddBalance(to, value);
    }

    method Transfer(from: Addr, to: Addr, value: nat) returns (err: Option<Error>)
      requires Valid()
      modifies `balances
      ensures Valid()
      ensures err == None <==> Balance(old(balances), from) >= value && (from != to ==> Balance(old(balances), to) + value <= MAX_UINT128)
      ensures err == None ==> Total(balances) == Total(old(balances)) && MovedOver(old(balances), balances, from, to, value)
    {
      hide Total;
      CreatedSame(balances, from);
      GetOrCreateUserAccount(from);
      CreatedSame(balances, to);
      GetOrCreateUserAccount(to);
      err := Move(from, to, value);
    }

    method Reset()
      requires Valid()
      modifies `balances, `nonces
      ensures Valid() && balances == base && nonces == baseNonces
    {
      balances, nonces := base, baseNonces;
    }

    /** Ends a transaction that will be on chain: undoes a failed one and records its fee. */
    method SubmitTx(tx: Tx, gas: nat, failure: Option<Error>) returns (r: Verdict)
      requires Valid() && TxOk(tx) && gas <= tx.gasLimit && tx.gasLimit * tx.gasPrice <= MAX_UINT128 && gasConsumed == map[]
      modifies `balances, `nonces, `gasConsumed
      ensures Valid() && r == Submitted(gas, failure) && gasConsumed == map[tx.from := gas * tx.gasPrice]
      ensures balances == if failure.Some? then base else old(balances)
      ensures nonces == if failure.Some? then baseNonces else old(nonces)
    {
      if failure.Some? { Reset(); }
      Monotone(gas, tx.gasLimit, tx.gasPrice);
      gasConsumed := gasConsumed[tx.from := gas * tx.gasPrice];
      return Submitted(gas, failure);
    }

    /** The checks a transaction has to pass to be on chain at all. */
    method CheckLimits(tx: Tx) returns (refusal: Option<Error>)
      requires Valid() && TxOk(tx) && tx.from in balances
      ensures refusal == Refusal(tx, balances[tx.from])
    {
      var limitedFee := Checked(tx.gasLimit * tx.gasPrice);
      if limitedFee.None? { return Some(GasFeeOverflow); }
      if balances[tx.from] < limitedFee.value { return Some(InsufficientBalance); }
      var baseGas := GasCountOfTxBase(tx);
      if baseGas.None? { return Some(GasCntOverflow); }
      if tx.gasLimit < baseGas.value { return Some(OutOfGasLimit); }
      return None;
    }

    /** Decides whether a transaction goes on chain, runs it, and records its fee. */
    method VerifyExecution(tx: Tx, payload: Payload) returns (r: Verdict)
      requires Valid() && TxOk(tx) && PayloadOk(payload) && gasConsumed == map[] && Same(balances, base) && nonces == baseNonces
      modifies `balances, `nonces, `gasConsumed
      ensures Valid() && nonces == baseNonces
      ensures r.Rejected? <==> Refusal(tx, Balance(base, tx.from)).Some?
      ensures r.Rejected? ==> Some(r.error) == Refusal(tx, Balance(base, tx.from)) && Same(balances, base) && gasConsumed == map[]
      ensures r.Submitted? ==> BaseGas(tx) <= r.gas <= tx.gasLimit && gasConsumed == map[tx.from := r.gas * tx.gasPrice]
      ensures r.Submitted? && r.failure.Some? ==> balances == base
      ensures r.Submitted? && Plain(payload) ==> PlainOutcome(tx, base, balances, r.gas, r.failure)
      ensures r.Submitted? ==> CodeOutcome(tx, payload, Created(Created(old(balances), tx.from), tx.to), balances, r.gas, r.failure)
    {
      hide Total, Same, PlainOutcome, PayloadOk, Refusal, Plain, BaseGas;
      CreatedTwice(balances, base, tx.from, tx.to);
      TotalSame(balances, base);
      NotUnloadable(payload);
      GetOrCreateUserAccount(tx.from);
      GetOrCreateUserAccount(tx.to);
      var refusal := CheckLimits(tx);
      if refusal.Some? { return Rejected(refusal.value); }
      PassedLimits(tx, balances[tx.from]);
      if payload.Unloadable? {
        r := SubmitTx(tx, BaseGas(tx), Some(PayloadFailure));
        return;
      }
      r := RunPayload(tx, payload);
    }

    /** Runs a loaded payload of a transaction that passed the first checks. */
    method RunPayload(tx: Tx, payload: Payload) returns (r: Verdict)
      requires Valid() && TxOk(tx) && PayloadOk(payload) && payload.Payload? && gasConsumed == map[] && Same(balances, base) && nonces == baseNonces
      requires tx.from in balances && tx.to in balances && Refusal(tx, balances[tx.from]).None? && Total(balances) == Total(base)
      modifies `balances, `nonces, `gasConsumed
      ensures Valid() && nonces == baseNonces && r.Submitted? && BaseGas(tx) <= r.gas <= tx.gasLimit
      ensures gasConsumed == map[tx.from := r.gas * tx.gasPrice]
      ensures r.failure.Some? ==> balances == base
      ensures Plain(payload) ==> PlainOutcome(tx, base, balances, r.gas, r.failure)
      ensures CodeOutcome(tx, payload, old(balances), balances, r.gas, r.failure)
    {
      hide Total, Same, PlainOutcome, PayloadOk, Refusal, Plain, CanPay, BaseGas, MovedOver, Balance, CodeOutcome, Handed, Stopped;
      PassedLimits(tx, balances[tx.from]);
      ghost var was := balances;
      CanPayIs(tx, was);
      var stop, gasUsed := Affordable(tx, payload);
      if stop == None {
        stop := Move(tx.from, tx.to, tx.value);
        if stop.Some? { StoppedUnpaid(tx, payload, was, gasUsed); stop := Some(InvalidTransfer); }
      }
      if stop.Some? {
        NotRun(tx, payload, was, base, gasUsed, stop.value);
        NotRunPlain(tx, payload, was, base, gasUsed, stop.value);
        r := SubmitTx(tx, gasUsed, stop);
        return;
      }
      PayloadFacts(payload);
      CanPaySame(tx, was, base);
      PlainSuccess(tx, was, balances, base);
      r := RunCode(tx, payload, gasUsed, was);
    }

    /** The checks before a payload runs, and the gas charged for one that does not. */
    method Affordable(tx: Tx, payload: Payload) returns (stop: Option<Error>, gas: nat)
      requires Valid() && TxOk(tx) && payload.Payload? && tx.from in balances && tx.to in balances && Refusal(tx, balances[tx.from]).None?
      ensures BaseGas(tx) <= gas <= tx.gasLimit
      ensures stop.Some? ==> Stopped(tx, payload, balances, gas)
      ensures stop == None ==> gas == BaseGas(tx) + payload.baseGas <= MAX_UINT128
      ensures stop == None ==> tx.gasLimit * tx.gasPrice + tx.value <= MAX_UINT128 && balances[tx.from] >= tx.gasLimit * tx.gasPrice + tx.value
    {
      hide Refusal, BaseGas;
      PassedLimits(tx, balances[tx.from]);
      var limitedFee := tx.gasLimit * tx.gasPrice;
      var payloadGas := Checked(BaseGas(tx) + payload.baseGas);
      if payloadGas.None? { return Some(GasCntOverflow), BaseGas(tx); }
      gas := payloadGas.value;
      if tx.gasLimit < gas { return Some(OutOfGasLimit), tx.gasLimit; }
      var minBalanceRequired := Checked(limitedFee + tx.value);
      if minBalanceRequired.None? { return Some(GasFeeOverflow), gas; }
      if balances[tx.from] < minBalanceRequired.value { return Some(InsufficientBalance), gas; }
      return None, gas;
    }

    /** Runs the code of a payload, the value having been handed over. */
    method RunCode(tx: Tx, payload: Payload, gasUsed: nat, ghost was: Balances) returns (r: Verdict)
      requires Valid() && TxOk(tx) && PayloadOk(payload) && payload.Payload? && gasConsumed == map[] && nonces == baseNonces
      requires tx.from in was && tx.to in was && CanPay(tx, was) && was[tx.from] >= tx.value && balances == Handed(was, tx.from, tx.to, tx.value)
      requires gasUsed == BaseGas(tx) + payload.baseGas && gasUsed <= MAX_UINT128 && gasUsed <= tx.gasLimit && tx.gasLimit * tx.gasPrice <= MAX_UINT128
      modifies `balances, `nonces, `gasConsumed
      ensures Valid() && nonces == baseNonces && r.Submitted? && BaseGas(tx) <= r.gas <= tx.gasLimit
      ensures gasConsumed == map[tx.from := r.gas * tx.gasPrice]
      ensures r.failure.Some? ==> balances == base
      ensures Plain(payload) ==> r == Submitted(gasUsed, None) && balances == old(balances)
      ensures CodeOutcome(tx, payload, was, balances, r.gas, r.failure)
    {
      hide PayloadOk, Plain, CanPay, BaseGas, CodeOutcome, Handed;
      ghost var handed := balances;
      var done := payload.run(balances);
      RunFacts(payload, balances);
      balances := done.balances;
      var allGas := Checked(gasUsed + done.gas);
      if allGas.None? {
        Ran(tx, payload, was, handed, base, gasUsed, Some(GasCntOverflow));
        r := SubmitTx(tx, gasUsed, Some(GasCntOverflow));
        return;
      }
      if tx.gasLimit < allGas.value {
        Ran(tx, payload, was, handed, base, tx.gasLimit, Some(OutOfGasLimit));
        r := SubmitTx(tx, tx.gasLimit, Some(OutOfGasLimit));
        return;
      }
      Ran(tx, payload, was, handed, if done.failed then base else balances, allGas.value, if done.failed then Some(PayloadFailure) else None);
      r := SubmitTx(tx, allGas.value, if done.failed then Some(PayloadFailure) else None);
    }

    method CheckTransaction(tx: Tx) returns (err: Option<Error>)
      requires Valid()
      modifies `balances
      ensures Valid() && balances == Created(old(balances), tx.from)
      ensures err == if tx.nonce < Balance(nonces, tx.from) + 1 then Some(SmallTransactionNonce)
                     else if tx.nonce > Balance(nonces, tx.from) + 1 then Some(LargeTransactionNonce)
                     else None
    {
      GetOrCreateUserAccount(tx.from);
      var currentNonce := if tx.from in nonces then nonces[tx.from] else 0;
      if tx.nonce < currentNonce + 1 { return Some(SmallTransactionNonce); }
      if tx.nonce > currentNonce + 1 { return Some(LargeTransactionNonce); }
      return None;
    }

    /** Counts the transaction against its sender's nonce. */
    method AcceptTransaction(tx: Tx)
      requires Valid()
      modifies `balances, `nonces
      ensures Valid() && balances == Created(old(balances), tx.from) && nonces == old(nonces)[tx.from := Balance(old(nonces), tx.from) + 1]
    {
      GetOrCreateUserAccount(tx.from);
      nonces := nonces[tx.from := (if tx.from in nonces then nonces[tx.from] else 0) + 1];
    }

    /** Checks, runs and counts a transaction in its own state; without code the sum of balances stands. */
    method ExecuteTransaction(tx: Tx, payload: Payload) returns (err: Option<Error>)
      requires Valid() && TxOk(tx) && PayloadOk(payload) && gasConsumed == map[] && balances == base && nonces == baseNonces
      modifies `balances, `nonces, `gasConsumed
      ensures Valid()
      ensures err == None <==> tx.nonce == Balance(baseNonces, tx.from) + 1 && Refusal(tx, Balance(base, tx.from)).None?
      ensures err != None ==> nonces == baseNonces && gasConsumed == map[] && Same(balances, base)
      ensures err == None ==> nonces == baseNonces[tx.from := tx.nonce]
      ensures err == None ==> exists gas :: Charged(tx, gas, gasConsumed)
      ensures err == None && Plain(payload) ==> Total(balances) == Total(base) && Settled(tx, base, balances) && Charged(tx, BaseGas(tx), gasConsumed)
    {
      hide Total, Same, PlainOutcome, PayloadOk, Refusal, Plain, BaseGas, Settled;
      CreatedSame(balances, tx.from);
      SameBy(Created(balances, tx.from), balances);
      err := CheckTransaction(tx);
      if err != None { return; }
      var r := VerifyExecution(tx, payload);
      if r.Rejected? { return Some(r.error); }
      assert Charged(tx, r.gas, gasConsumed);
      if Plain(payload) { PlainSettled(tx, base, balances, r.gas, r.failure); }
      CreatedSame(balances, tx.from);
      SettledSame(tx, base, balances, Created(balances, tx.from));
      AcceptTransaction(tx);
    }

    /** Adds the fees a transaction recorded to the block's. */
    method ReplayGas(from: Addr, gas: nat) returns (err: Option<Error>)
      requires Valid()
      modifies `gasConsumed
      ensures Valid()
      ensures err == None <==> Balance(old(gasConsumed), from) + gas <= MAX_UINT128
      ensures gasConsumed == if err == None then old(gasConsumed)[from := Balance(old(gasConsumed), from) + gas] else old(gasConsumed)
    {
      var consumed := Checked((if from in gasConsumed then gasConsumed[from] else 0) + gas);
      if consumed.None? { return Some(Overflow); }
      gasConsumed := gasConsumed[from := consumed.value];
      return None;
    }

    /** Moves every sender's fees to the coinbase, in any order. */
    method RewardCoinbaseForGas(coinbase: Addr) returns (err: Option<Error>)
      requires Valid()
      modifies `balances, `gasConsumed
      ensures Valid()
      ensures err == None ==> Total(balances) == Total(old(balances)) && gasConsumed == map[]
      ensures err == None ==> forall a :: a != coinbase ==> Balance(balances, a) == Balance(old(balances), a) - Balance(old(gasConsumed), a)
      ensures err == None ==> Balance(balances, coinbase) == Balance(old(balances), coinbase) + Total(old(gasConsumed) - {coinbase})
    {
      hide Total;
      var gas := gasConsumed;
      gasConsumed := map[];
      var todo := gas.Keys;
      CollectedNone(gas, coinbase);
      while todo != {}
        invariant Valid() && todo <= gas.Keys && Total(balances) == Total(old(balances)) && gasConsumed == map[]
        invariant Collected(old(balances), balances, gas, coinbase, todo)
      {
        var from: Addr :| from in todo;
        ghost var was := balances;
        err := Transfer(from, coinbase, gas[from]);
        if err != None { return; }
        CollectedMore(old(balances), was, balances, gas, coinbase, todo, from);
        todo := todo - {from};
      }
      assert gas - {} - {coinbase} == gas - {coinbase};
      return None;
    }

    /** Runs one transaction in its own state and merges it. */
    method RunTransaction(tx: Tx) returns (err: Option<Error>)
      requires Valid() && TxOk(tx)
      modifies `balances, `nonces, `gasConsumed
      ensures err == None ==> Valid() && Total(balances) == Total(old(balances)) && Settled(tx, old(balances), balances)
      ensures err == None ==> gasConsumed == old(gasConsumed)[tx.from := Balance(old(gasConsumed), tx.from) + BaseGas(tx) * tx.gasPrice]
      ensures err == None ==> tx.nonce == Balance(old(nonces), tx.from) + 1 && nonces == old(nonces)[tx.from := tx.nonce]
    {
      hide Total, PayloadOk, Plain, Refusal, Settled, BaseGas;
      BinaryIsPlain();
      var ws := new WorldState(balances, nonces);
      err := ws.ExecuteTransaction(tx, Binary());
      if err != None { return; }
      balances, nonces := ws.balances, ws.nonces;
      err := ReplayGas(tx.from, ws.gasConsumed[tx.from]);
    }

    method RewardCoinbaseForMint(coinbase: Addr) returns (err: Option<Error>)
      requires Valid()
      modifies `balances
      ensures Valid() && (err == None <==> Balance(old(balances), coinbase) + BLOCK_REWARD <= MAX_UINT128)
      ensures err == None ==> Total(balances) == Total(old(balances)) + BLOCK_REWARD
      ensures err == None ==> forall a :: Balance(balances, a) == Balance(old(balances), a) + if a == coinbase then 1426940000000000000 else 0
    {
      hide Total;
      CreatedSame(balances, coinbase);
      GetOrCreateUserAccount(coinbase);
      TotalUpdate(balances, coinbase, balances[coinbase] + BLOCK_REWARD);
      err := AddBalance(coinbase, BLOCK_REWARD);
    }

    /** Executes a block of transactions without code. On success every account has what it had, less the values it
        sent and the fees it owes, plus the values it received, and the coinbase the reward and all fees on top;
        `paid` says which transactions could pay. The sum of all balances has grown by the block reward, and every
        sender's nonces have counted up one by one. */
    method Execute(coinbase: Addr, txs: seq<Tx>) returns (err: Option<Error>, ghost paid: seq<bool>)
      requires Valid() && gasConsumed == map[] && forall i :: 0 <= i < |txs| ==> TxOk(txs[i])
      modifies this
      ensures err == None ==> Total(balances) == Total(old(balances)) + BLOCK_REWARD
      ensures err == None ==> Consecutive(old(nonces), txs, |txs|) && NoncesAfter(old(nonces), nonces, txs, |txs|)
      ensures err == None ==> |paid| == |txs| && Payments(old(balances), coinbase, txs, paid)
      ensures err == None ==> forall a :: Balance(balances, a) == FinalBalance(old(balances), coinbase, txs, paid, a)
    {
      hide Total, Consecutive, NoncesAfter, TxOk, Settled, BaseGas, Payments, Running, FeesAre, Interim;
      paid := [];
      err := RewardCoinbaseForMint(coinbase);
      if err != None { return; }
      NoncesStart(nonces, txs);
      BlockStart(old(balances), balances, coinbase, txs);
      for i := 0 to |txs|
        invariant Valid() && Total(balances) == Total(old(balances)) + BLOCK_REWARD
        invariant Consecutive(old(nonces), txs, i) && NoncesAfter(old(nonces), nonces, txs, i)
        invariant |paid| == i && Interim(old(balances), balances, coinbase, txs, paid) && FeesAre(gasConsumed, txs, i)
      {
        ghost var was, wasBalances, wasGas := nonces, balances, gasConsumed;
        err := RunTransaction(txs[i]);
        if err != None { return; }
        NoncesStep(old(nonces), was, txs, i);
        BlockStep(old(balances), wasBalances, balances, coinbase, txs, paid);
        FeesStep(wasGas, txs, i);
        paid := paid + [CanPay(txs[i], wasBalances)];
      }
      ghost var before, gas := balances, gasConsumed;
      err := RewardCoinbaseForGas(coinbase);
      if err == None { BlockEnd(old(balances), before, balances, gas, coinbase, txs, paid); }
    }
  }

  // --- where the money went -----------------------------------------------------------------------

  /** The fees of those done have gone to the coinbase. */
  ghost predicate Collected(b: Balances, c: Balances, gas: map<Addr, nat>, coinbase: Addr, todo: set<Addr>)
  {
    (forall a :: a != coinbase ==> Balance(c, a) == Balance(b, a) - Balance(gas - todo, a)) &&
    Balance(c, coinbase) == Balance(b, coinbase) + Total(gas - todo - {coinbase})
  }

  lemma CollectedNone(gas: map<Addr, nat>, coinbase: Addr)
    ensures forall b :: Collected(b, b, gas, coinbase, gas.Keys)
  {
    assert gas - gas.Keys == map[] && gas - gas.Keys - {coinbase} == map[];
  }

  lemma CollectedMore(b: Balances, was: Balances, c: Balances, gas: map<Addr, nat>, coinbase: Addr, todo: set<Addr>, from: Addr)
    requires Collected(b, was, gas, coinbase, todo) && from in todo && from in gas && MovedOver(was, c, from, coinbase, gas[from])
    ensures Collected(b, c, gas, coinbase, todo - {from})
  {
    hide Total;
    var done, more := gas - todo, gas - (todo - {from});
    assert more == done[from := gas[from]];
    if from != coinbase {
      assert more - {coinbase} == (done - {coinbase})[from := gas[from]];
      TotalUpdate(done - {coinbase}, from, gas[from]);
    } else {
      assert more - {coinbase} == done - {coinbase};
    }
    forall a | a != coinbase ensures Balance(c, a) == Balance(b, a) - Balance(more, a) {
      assert Balance(c, a) == Moved(was, from, coinbase, gas[from], a);
    }
    assert Balance(c, coinbase) == Moved(was, from, coinbase, gas[from], coinbase);
  }

  /** The values `a` received, and sent, by the first `n` transactions, of those that could pay. */
  ghost function Received(txs: seq<Tx>, paid: seq<bool>, n: nat, a: Addr): nat
    requires n <= |txs| && n <= |paid|
  {
    if n == 0 then 0 else Received(txs, paid, n - 1, a) + if paid[n - 1] && txs[n - 1].to == a then txs[n - 1].value else 0
  }

  ghost function Spent(txs: seq<Tx>, paid: seq<bool>, n: nat, a: Addr): nat
    requires n <= |txs| && n <= |paid|
  {
    if n == 0 then 0 else Spent(txs, paid, n - 1, a) + if paid[n - 1] && txs[n - 1].from == a then txs[n - 1].value else 0
  }

  /** A transaction without code costs 20000 gas and one more for each byte. */
  function Fee(tx: Tx): nat
  {
    (20000 + tx.dataLen) * tx.gasPrice
  }

  ghost function FeesOwed(txs: seq<Tx>, n: nat, a: Addr): nat
    requires n <= |txs|
  {
    if n == 0 then 0 else FeesOwed(txs, n - 1, a) + if txs[n - 1].from == a then Fee(txs[n - 1]) else 0
  }

  ghost function AllFees(txs: seq<Tx>, n: nat): nat
    requires n <= |txs|
  {
    if n == 0 then 0 else AllFees(txs, n - 1) + Fee(txs[n - 1])
  }

  /** What `a` has after the first `n` transactions, before fees. */
  ghost function Running(start: Balances, coinbase: Addr, txs: seq<Tx>, paid: seq<bool>, n: nat, a: Addr): int
    requires n <= |txs| && n <= |paid|
  {
    Balance(start, a) + (if a == coinbase then BLOCK_REWARD else 0) + Received(txs, paid, n, a) - Spent(txs, paid, n, a)
  }

  /** A transaction pays exactly when its sender has the value and the whole fee at that time, and its receiver can hold it. */
  ghost predicate Payments(start: Balances, coinbase: Addr, txs: seq<Tx>, paid: seq<bool>)
    requires |paid| <= |txs|
  {
    forall i :: 0 <= i < |paid| ==>
      var limit := txs[i].gasLimit * txs[i].gasPrice + txs[i].value;
      paid[i] <==> limit <= MAX_UINT128 && Running(start, coinbase, txs, paid, i, txs[i].from) >= limit &&
                   (txs[i].from != txs[i].to ==> Running(start, coinbase, txs, paid, i, txs[i].to) + txs[i].value <= MAX_UINT128)
  }

  ghost function FinalBalance(start: Balances, coinbase: Addr, txs: seq<Tx>, paid: seq<bool>, a: Addr): int
    requires |paid| == |txs|
  {
    Balance(start, a) + Received(txs, paid, |txs|, a) - Spent(txs, paid, |txs|, a) - FeesOwed(txs, |txs|, a) +
    if a == coinbase then BLOCK_REWARD + AllFees(txs, |txs|) else 0
  }

  ghost predicate Interim(start: Balances, now: Balances, coinbase: Addr, txs: seq<Tx>, paid: seq<bool>)
  {
    |paid| <= |txs| && Payments(start, coinbase, txs, paid) && forall a :: Balance(now, a) == Running(start, coinbase, txs, paid, |paid|, a)
  }

  lemma BlockStart(start: Balances, now: Balances, coinbase: Addr, txs: seq<Tx>)
    requires forall a :: Balance(now, a) == Balance(start, a) + if a == coinbase then BLOCK_REWARD else 0
    ensures Interim(start, now, coinbase, txs, []) && FeesAre(map[], txs, 0)
  {
  }

  lemma BlockStep(start: Balances, was: Balances, now: Balances, coinbase: Addr, txs: seq<Tx>, paid: seq<bool>)
    requires |paid| < |txs| && Interim(start, was, coinbase, txs, paid) && Settled(txs[|paid|], was, now)
    ensures Interim(start, now, coinbase, txs, paid + [CanPay(txs[|paid|], was)])
  {
    hide Balance, Received, Spent;
    var n, more := |paid|, paid + [CanPay(txs[|paid|], was)];
    assert more[..n] == paid;
    forall i: nat, a | i <= n ensures Running(start, coinbase, txs, more, i, a) == Running(start, coinbase, txs, paid, i, a) { SamePrefix(txs, paid, more, i, a); }
    forall i | 0 <= i < |more| ensures
      var limit := txs[i].gasLimit * txs[i].gasPrice + txs[i].value;
      more[i] <==> limit <= MAX_UINT128 && Running(start, coinbase, txs, more, i, txs[i].from) >= limit &&
                   (txs[i].from != txs[i].to ==> Running(start, coinbase, txs, more, i, txs[i].to) + txs[i].value <= MAX_UINT128)
    {
      if i < n { assert more[i] == paid[i]; }
    }
    forall a ensures Balance(now, a) == Running(start, coinbase, txs, more, n + 1, a) { OneMorePaid(txs, more, n, a); }
  }

  lemma {:induction false} SamePrefix(txs: seq<Tx>, paid: seq<bool>, more: seq<bool>, n: nat, a: Addr)
    requires n <= |paid| <= |txs| && paid <= more
    ensures Received(txs, more, n, a) == Received(txs, paid, n, a) && Spent(txs, more, n, a) == Spent(txs, paid, n, a)
    decreases n
  {
    if n > 0 { SamePrefix(txs, paid, more, n - 1, a); }
  }

  lemma OneMorePaid(txs: seq<Tx>, paid: seq<bool>, n: nat, a: Addr)
    requires n < |txs| && n < |paid|
    ensures Received(txs, paid, n + 1, a) == Received(txs, paid, n, a) + if paid[n] && txs[n].to == a then txs[n].value else 0
    ensures Spent(txs, paid, n + 1, a) == Spent(txs, paid, n, a) + if paid[n] && txs[n].from == a then txs[n].value else 0
  {
  }

  /** The fees recorded so far. */
  ghost predicate FeesAre(gas: map<Addr, nat>, txs: seq<Tx>, n: nat)
    requires n <= |txs|
  {
    Total(gas) == AllFees(txs, n) && forall a :: Balance(gas, a) == FeesOwed(txs, n, a)
  }

  lemma FeesStep(gas: map<Addr, nat>, txs: seq<Tx>, n: nat)
    requires n < |txs| && FeesAre(gas, txs, n)
    ensures FeesAre(gas[txs[n].from := Balance(gas, txs[n].from) + BaseGas(txs[n]) * txs[n].gasPrice], txs, n + 1)
  {
    hide Total;
    var from, fee := txs[n].from, Fee(txs[n]);
    assert BaseGas(txs[n]) * txs[n].gasPrice == fee;
    TotalUpdate(gas, from, Balance(gas, from) + fee);
    assert AllFees(txs, n + 1) == AllFees(txs, n) + fee;
    var now := gas[from := Balance(gas, from) + fee];
    forall a ensures Balance(now, a) == FeesOwed(txs, n + 1, a) {
      assert Balance(gas, a) == FeesOwed(txs, n, a);
    }
  }

  lemma BlockEnd(start: Balances, before: Balances, now: Balances, gas: map<Addr, nat>, coinbase: Addr, txs: seq<Tx>, paid: seq<bool>)
    requires |paid| == |txs| && Interim(start, before, coinbase, txs, paid) && FeesAre(gas, txs, |txs|)
    requires forall a :: a != coinbase ==> Balance(now, a) == Balance(before, a) - Balance(gas, a)
    requires Balance(now, coinbase) == Balance(before, coinbase) + Total(gas - {coinbase})
    ensures Payments(start, coinbase, txs, paid) && forall a :: Balance(now, a) == FinalBalance(start, coinbase, txs, paid, a)
  {
    hide Total, Payments, Received, Spent, FeesOwed, AllFees;
    if coinbase in gas { TotalWithout(gas, coinbase); } else { assert gas - {coinbase} == gas; }
    forall a ensures Balance(now, a) == FinalBalance(start, coinbase, txs, paid, a) {
      assert Balance(before, a) == Running(start, coinbase, txs, paid, |paid|, a);
      assert Balance(gas, a) == FeesOwed(txs, |txs|, a);
    }
  }

  /** Each of the first `n` transactions carries the nonce next after those its sender sent before. */
  ghost predicate Consecutive(start: map<Addr, nat>, txs: seq<Tx>, n: nat)
    requires n <= |txs|
  {
    forall i :: 0 <= i < n ==> txs[i].nonce == Balance(start, txs[i].from) + Sent(txs, i, txs[i].from) + 1
  }

  ghost predicate NoncesAfter(start: map<Addr, nat>, now: map<Addr, nat>, txs: seq<Tx>, n: nat)
    requires n <= |txs|
  {
    forall a :: Balance(now, a) == Balance(start, a) + Sent(txs, n, a)
  }

  lemma NoncesStart(nonces: map<Addr, nat>, txs: seq<Tx>)
    ensures Consecutive(nonces, txs, 0) && NoncesAfter(nonces, nonces, txs, 0)
  {
  }

  lemma NoncesStep(start: map<Addr, nat>, now: map<Addr, nat>, txs: seq<Tx>, n: nat)
    requires n < |txs| && Consecutive(start, txs, n) && NoncesAfter(start, now, txs, n)
    requires txs[n].nonce == Balance(now, txs[n].from) + 1
    ensures Consecutive(start, txs, n + 1) && NoncesAfter(start, now[txs[n].from := txs[n].nonce], txs, n + 1)
  {
    hide Sent;
    var next := now[txs[n].from := txs[n].nonce];
    forall a ensures Balance(next, a) == Balance(start, a) + Sent(txs, n + 1, a) {
      assert Balance(now, a) == Balance(start, a) + Sent(txs, n, a);
      SentStep(txs, n, a);
    }
    assert Balance(now, txs[n].from) == Balance(start, txs[n].from) + Sent(txs, n, txs[n].from);
  }

  lemma SentStep(txs: seq<Tx>, n: nat, a: Addr)
    requires n < |txs|
    ensures Sent(txs, n + 1, a) == Sent(txs, n, a) + if txs[n].from == a then 1 else 0
  {
  }

  /** No two transactions of one sender in an executed block carry the same nonce, and later ones carry larger ones. */
  lemma {:induction false} NoncesGrow(start: map<Addr, nat>, txs: seq<Tx>, n: nat, i: nat, j: nat)
    requires n <= |txs| && Consecutive(start, txs, n) && i < j < n && txs[i].from == txs[j].from
    ensures txs[i].nonce < txs[j].nonce
  {
    SentGrows(txs, i + 1, j, txs[i].from);
  }

  lemma {:induction false} SentGrows(txs: seq<Tx>, i: nat, j: nat, a: Addr)
    requires i <= j <= |txs|
    ensures Sent(txs, i, a) <= Sent(txs, j, a)
    decreases j
  {
    if i < j { SentGrows(txs, i, j - 1, a); }
  }

  /** The fee recorded lies between the base gas and the gas limit. */
  ghost predicate Charged(tx: Tx, gas: nat, gasConsumed: map<Addr, nat>)
  {
    BaseGas(tx) <= gas <= tx.gasLimit && gasConsumed == map[tx.from := gas * tx.gasPrice]
  }

  /** How many of the first `n` transactions `a` sent. */
  function Sent(txs: seq<Tx>, n: nat, a: Addr): nat
    requires n <= |txs|
  {
    if n == 0 then 0 else Sent(txs, n - 1, a) + if txs[n - 1].from == a then 1 else 0
  }

  lemma BinaryIsPlain()
    ensures Plain(Binary()) && PayloadOk(Binary())
  {
  }

  lemma SameBy(b: Balances, c: Balances)
    requires forall a :: Balance(b, a) == Balance(c, a)
    ensures Same(b, c)
  {
  }

  /** The value went over, if the sender could pay, and no other balance changed; fees come later. */
  ghost predicate Settled(tx: Tx, b: Balances, c: Balances)
  {
    forall a :: Balance(c, a) == Balance(b, a) + if CanPay(tx, b) then (if a == tx.to then tx.value else 0) - (if a == tx.from then tx.value else 0) else 0
  }

  lemma PlainSettled(tx: Tx, b: Balances, c: Balances, gas: nat, failure: Option<Error>)
    requires PlainOutcome(tx, b, c, gas, failure)
    ensures Total(c) == Total(b) && Settled(tx, b, c) && gas == BaseGas(tx)
  {
    hide Total, BaseGas, CanPay, Balance;
  }

  lemma SettledSame(tx: Tx, b: Balances, c: Balances, d: Balances)
    requires forall a :: Balance(d, a) == Balance(c, a)
    ensures Settled(tx, b, c) ==> Settled(tx, b, d)
  {
    hide Balance;
  }

  function Created(b: Balances, a: Addr): Balances
  {
    if a in b then b else b[a := 0]
  }

  lemma CreatedSame(b: Balances, a: Addr)
    ensures a in Created(b, a) && Total(Created(b, a)) == Total(b) && forall c :: Balance(Created(b, a), c) == Balance(b, c)
  {
    hide Total;
    if a !in b { TotalUpdate(b, a, 0); }
  }

  lemma CreatedTwice(b: Balances, base: Balances, x: Addr, y: Addr)
    requires Same(b, base)
    ensures var n := Created(Created(b, x), y);
            x in n && y in n && Same(n, base) && Total(n) == Total(b) && n[x] == Balance(base, x) && n[y] == Balance(base, y)
  {
    hide Total;
    CreatedSame(b, x);
    CreatedSame(Created(b, x), y);
  }

  lemma MoveTotal(b: Balances, from: Addr, to: Addr, value: nat)
    requires from in b && to in b && b[from] >= value
    ensures var c := b[from := b[from] - value];
            var d := c[to := c[to] + value];
            Total(d) == Total(b) && MovedOver(b, d, from, to, value)
  {
    hide Total;
    var c := b[from := b[from] - value];
    TotalUpdate(b, from, b[from] - value);
    TotalUpdate(c, to, c[to] + value);
  }

  /** Balances before and after `value` went from one account to another. */
  ghost predicate MovedOver(b: Balances, c: Balances, from: Addr, to: Addr, value: nat)
  {
    forall a :: Balance(c, a) == Moved(b, from, to, value, a)
  }

  /** The outcome of a transaction without code: it succeeds exactly when the sender can pay, the value moves or
      nothing does, and the sender can still pay the recorded fee. */
  ghost predicate PlainOutcome(tx: Tx, b: Balances, c: Balances, gas: nat, failure: Option<Error>)
  {
    (failure == None <==> CanPay(tx, b)) && gas == BaseGas(tx) && gas * tx.gasPrice <= Balance(c, tx.from) && Total(c) == Total(b) &&
    if failure == None then MovedOver(b, c, tx.from, tx.to, tx.value) else Same(c, b)
  }

  function Handed(b: Balances, from: Addr, to: Addr, value: nat): Balances
    requires from in b && to in b && b[from] >= value
  {
    var c := b[from := b[from] - value];
    c[to := c[to] + value]
  }

  /** The outcome for any payload. A payload that cannot be loaded costs the base gas. One that cannot be paid for, or whose
      own base gas does not fit, does not run. One that runs does so on the balances with the value handed over, and is
      charged what it reports on top, or the whole limit when that is not enough; its balances stand when it succeeds. */
  ghost predicate CodeOutcome(tx: Tx, payload: Payload, b: Balances, after: Balances, gas: nat, failure: Option<Error>)
    requires tx.from in b && tx.to in b
  {
    if payload.Unloadable? then failure.Some? && gas == BaseGas(tx)
    else
      var first := BaseGas(tx) + payload.baseGas;
      if first > MAX_UINT128 then failure.Some? && gas == BaseGas(tx)
      else if first > tx.gasLimit then failure.Some? && gas == tx.gasLimit
      else if !CanPay(tx, b) then failure.Some? && gas == first
      else
        var done := payload.run(Handed(b, tx.from, tx.to, tx.value));
        if first + done.gas > MAX_UINT128 then failure.Some? && gas == first
        else if first + done.gas > tx.gasLimit then failure.Some? && gas == tx.gasLimit
        else gas == first + done.gas && (failure.Some? <==> done.failed) && (failure == None ==> after == done.balances)
  }

  lemma CanPayIs(tx: Tx, b: Balances)
    requires tx.from in b && tx.to in b
    ensures CanPay(tx, b) <==> tx.gasLimit * tx.gasPrice + tx.value <= MAX_UINT128 && b[tx.from] >= tx.gasLimit * tx.gasPrice + tx.value &&
                               (tx.from != tx.to ==> b[tx.to] + tx.value <= MAX_UINT128)
  {
  }

  /** A payload that does not run, and the gas it is charged. */
  ghost predicate Stopped(tx: Tx, payload: Payload, b: Balances, gas: nat)
    requires payload.Payload?
  {
    var first := BaseGas(tx) + payload.baseGas;
    if first > MAX_UINT128 then gas == BaseGas(tx) else if first > tx.gasLimit then gas == tx.gasLimit else !CanPay(tx, b) && gas == first
  }

  lemma StoppedUnpaid(tx: Tx, payload: Payload, b: Balances, gas: nat)
    requires payload.Payload? && !CanPay(tx, b) && gas == BaseGas(tx) + payload.baseGas <= MAX_UINT128 && gas <= tx.gasLimit
    ensures Stopped(tx, payload, b, gas)
  {
    hide CanPay, BaseGas;
  }

  lemma NotRun(tx: Tx, payload: Payload, b: Balances, after: Balances, gas: nat, e: Error)
    requires tx.from in b && tx.to in b && payload.Payload? && Stopped(tx, payload, b, gas)
    ensures CodeOutcome(tx, payload, b, after, gas, Some(e))
  {
    hide CanPay, BaseGas;
  }

  lemma NotRunPlain(tx: Tx, payload: Payload, b: Balances, base: Balances, gas: nat, e: Error)
    requires tx.from in b && tx.to in b && payload.Payload? && Same(b, base) && Refusal(tx, b[tx.from]).None? && Stopped(tx, payload, b, gas)
    ensures Plain(payload) ==> PlainOutcome(tx, base, base, gas, Some(e))
  {
    hide Total, Refusal, BaseGas, Same;
    PassedLimits(tx, b[tx.from]);
    if Plain(payload) {
      SameAt(b, base, tx.from);
      SameAt(b, base, tx.to);
      SameBy(base, base);
    }
  }

  lemma CanPaySame(tx: Tx, b: Balances, base: Balances)
    requires Same(b, base)
    ensures CanPay(tx, b) == CanPay(tx, base)
  {
    hide Same, Balance;
    SameAt(b, base, tx.from);
    SameAt(b, base, tx.to);
  }

  lemma SameAt(b: Balances, c: Balances, a: Addr)
    requires Same(b, c)
    ensures Balance(b, a) == Balance(c, a)
  {
  }

  lemma Ran(tx: Tx, payload: Payload, b: Balances, c: Balances, after: Balances, gas: nat, failure: Option<Error>)
    requires tx.from in b && tx.to in b && payload.Payload? && CanPay(tx, b) && b[tx.from] >= tx.value && c == Handed(b, tx.from, tx.to, tx.value)
    requires BaseGas(tx) + payload.baseGas <= MAX_UINT128 && BaseGas(tx) + payload.baseGas <= tx.gasLimit
    requires var first, done := BaseGas(tx) + payload.baseGas, payload.run(c);
             if first + done.gas > MAX_UINT128 then failure.Some? && gas == first
             else if first + done.gas > tx.gasLimit then failure.Some? && gas == tx.gasLimit
             else gas == first + done.gas && (failure.Some? <==> done.failed) && (failure == None ==> after == done.balances)
    ensures CodeOutcome(tx, payload, b, after, gas, failure)
  {
    hide BaseGas, Handed;
  }

  lemma PassedLimits(tx: Tx, balance: nat)
    requires Refusal(tx, balance).None?
    ensures tx.gasLimit * tx.gasPrice <= MAX_UINT128 && balance >= tx.gasLimit * tx.gasPrice && BaseGas(tx) <= tx.gasLimit
    ensures BaseGas(tx) <= MAX_UINT128 && BaseGas(tx) * tx.gasPrice <= balance
  {
    Monotone(BaseGas(tx), tx.gasLimit, tx.gasPrice);
  }

  /** A transaction is kept off chain for nothing else: it is let through exactly when its whole fee fits into 128 bits,
      its sender covers it, and its limit covers 20000 gas and one for each byte. */
  lemma RefusalExact(tx: Tx, balance: nat)
    requires TxOk(tx)
    ensures Refusal(tx, balance) == None <==>
            tx.gasLimit * tx.gasPrice <= MAX_UINT128 && tx.gasLimit * tx.gasPrice <= balance && 20000 + tx.dataLen <= tx.gasLimit
    ensures Refusal(tx, balance) == Some(GasFeeOverflow) <==> tx.gasLimit * tx.gasPrice > MAX_UINT128
    ensures Refusal(tx, balance) == Some(InsufficientBalance) <==> balance < tx.gasLimit * tx.gasPrice <= MAX_UINT128
  {
  }

  lemma PayloadFacts(p: Payload)
    requires PayloadOk(p) && p.Payload?
    ensures p.baseGas <= MAX_UINT128 && (Plain(p) ==> p.baseGas == 0)
  {
  }

  lemma NotUnloadable(p: Payload)
    ensures p.Unloadable? ==> !Plain(p)
  {
  }

  lemma {:induction false} TotalSame(b: Balances, c: Balances)
    requires Same(b, c)
    ensures Total(b) == Total(c)
    decreases |b|
  {
    if b == map[] {
      TotalZero(c);
    } else {
      var k := Pick(b);
      Smaller(b, k);
      var rest := c - {k};
      forall a ensures Balance(b - {k}, a) == Balance(rest, a) { assert Balance(b, a) == Balance(c, a); }
      TotalSame(b - {k}, rest);
      assert Balance(b, k) == Balance(c, k);
      if k in c { TotalWithout(c, k); } else { assert rest == c; }
    }
  }

  lemma {:induction false} TotalZero(c: Balances)
    requires forall a :: Balance(map[], a) == Balance(c, a)
    ensures Total(c) == 0
    decreases |c|
  {
    if c != map[] {
      var k := Pick(c);
      Smaller(c, k);
      forall a ensures Balance(map[], a) == Balance(c - {k}, a) { assert Balance(map[], a) == Balance(c, a); }
      TotalZero(c - {k});
      assert Balance(map[], k) == Balance(c, k);
    }
  }

  lemma RunFacts(p: Payload, b: Balances)
    requires PayloadOk(p) && p.Payload? && BalancesOk(b)
    ensures p.run(b).gas <= MAX_UINT128 && BalancesOk(p.run(b).balances)
    ensures Plain(p) ==> p.run(b) == Execution(0, false, b)
  {
  }

  lemma PlainSuccess(tx: Tx, b: Balances, c: Balances, base: Balances)
    requires Same(b, base) && tx.from in b && tx.to in b && Refusal(tx, b[tx.from]).None? && CanPay(tx, base)
    requires MovedOver(b, c, tx.from, tx.to, tx.value) && Total(c) == Total(base)
    ensures PlainOutcome(tx, base, c, BaseGas(tx), None)
  {
    hide Total;
    PassedLimits(tx, b[tx.from]);
    forall a ensures Balance(c, a) == Moved(base, tx.from, tx.to, tx.value, a) {
      assert Balance(c, a) == Moved(b, tx.from, tx.to, tx.value, a);
      assert Balance(b, a) == Balance(base, a);
    }
    assert Balance(b, tx.from) == Balance(base, tx.from) && Balance(b, tx.to) == Balance(base, tx.to);
    assert Balance(c, tx.from) == Moved(b, tx.from, tx.to, tx.value, tx.from);
    Monotone(BaseGas(tx), tx.gasLimit, tx.gasPrice);
  }

  /** What became of a transaction: not on chain, or on chain with this gas and maybe a failure. */
  datatype Verdict = Rejected(error: Error) | Submitted(gas: nat, failure: Option<Error>)

  function BaseGas(tx: Tx): nat
  {
    MIN_GAS_COUNT_PER_TRANSACTION + tx.dataLen
  }

  /** Why a transaction of a sender with this balance cannot be on chain, in the order the reasons are looked for. */
  function Refusal(tx: Tx, balance: nat): Option<Error>
  {
    if tx.gasLimit * tx.gasPrice > MAX_UINT128 then Some(GasFeeOverflow)
    else if balance < tx.gasLimit * tx.gasPrice then Some(InsufficientBalance)
    else if BaseGas(tx) > MAX_UINT128 then Some(GasCntOverflow)
    else if tx.gasLimit < BaseGas(tx) then Some(OutOfGasLimit)
    else None
  }

  /** The sender can pay the value on top of the whole fee, and the receiver can hold it. */
  predicate CanPay(tx: Tx, b: Balances)
  {
    tx.gasLimit * tx.gasPrice + tx.value <= MAX_UINT128 && Balance(b, tx.from) >= tx.gasLimit * tx.gasPrice + tx.value &&
    (tx.from != tx.to ==> Balance(b, tx.to) + tx.value <= MAX_UINT128)
  }

  ghost predicate PayloadOk(p: Payload)
  {
    p.Payload? ==> (p.baseGas <= MAX_UINT128 && forall b :: BalancesOk(b) ==> p.run(b).gas <= MAX_UINT128 && BalancesOk(p.run(b).balances))
  }

  /** The same balance, or nonce, for every address. */
  ghost predicate Same(b: Balances, c: Balances)
  {
    forall a :: Balance(b, a) == Balance(c, a)
  }

  lemma Monotone(a: nat, b: nat, c: nat)
    requires a <= b
    ensures 0 <= a * c <= b * c
  {
  }

  function Moved(b: Balances, from: Addr, to: Addr, value: nat, a: Addr): int
  {
    Balance(b, a) - (if a == from then value else 0) + (if a == to then value else 0)
  }
}
