/** Gas and ether accounting of one message, and of a whole block. */
module StateTransition {
  import opened Ledger
  import opened Prelude

  const TX_GAS: nat := 21000
  const TX_GAS_CONTRACT_CREATION: nat := 53000
  const TX_DATA_ZERO_GAS: nat := 4
  const TX_DATA_NON_ZERO_GAS: nat := 68

  type Address = nat
  type Hash = nat

  datatype Error = InsufficientBalanceForGas | GasLimitReached | OutOfGas | InsufficientBalance

  datatype Result<+T> = Ok(value: T) | Err(error: Error)

  datatype Message = Message(
    hash: Hash, from: Address, to: Option<Address>, nonce: nat,
    gasPrice: nat, gas: nat, data: seq<bv8>)

  // ---- Intrinsic gas ------------------------------------------------------------------------

  function NonZeros(data: seq<bv8>): (n: nat)
    ensures n <= |data|
  {
    if data == [] then 0
    else NonZeros(data[..|data| - 1]) + (if data[|data| - 1] != 0 then 1 else 0)
  }

  function BaseGas(contractCreation: bool, homestead: bool): nat {
    if contractCreation && homestead then TX_GAS_CONTRACT_CREATION else TX_GAS
  }

  /** The price of a message's data in unbounded arithmetic. */
  function ExactIntrinsicGas(data: seq<bv8>, contractCreation: bool, homestead: bool): nat {
    BaseGas(contractCreation, homestead)
    + NonZeros(data) * TX_DATA_NON_ZERO_GAS + (|data| - NonZeros(data)) * TX_DATA_ZERO_GAS
  }

  /** The 64-bit computation fails exactly when the exact price does not fit. */
  method IntrinsicGas(data: seq<bv8>, contractCreation: bool, homestead: bool) returns (r: Result<nat>)
    ensures r == if ExactIntrinsicGas(data, contractCreation, homestead) < TWO_TO_THE_64
                 then Ok(ExactIntrinsicGas(data, contractCreation, homestead)) else Err(OutOfGas)
  {
    var gas := if contractCreation && homestead then TX_GAS_CONTRACT_CREATION else TX_GAS;
    if |data| > 0 {
      var nz := 0;
      for i := 0 to |data|
        invariant nz == NonZeros(data[..i])
      {
        assert data[..i + 1][..i] == data[..i];
        if data[i] != 0 {
          nz := nz + 1;
        }
      }
      assert data[..|data|] == data;
      if (TWO_TO_THE_64 - 1 - gas) / TX_DATA_NON_ZERO_GAS < nz {
        return Err(OutOfGas);
      }
      gas := gas + nz * TX_DATA_NON_ZERO_GAS;
      var z := |data| - nz;
      if (TWO_TO_THE_64 - 1 - gas) / TX_DATA_ZERO_GAS < z {
        return Err(OutOfGas);
      }
      gas := gas + z * TX_DATA_ZERO_GAS;
    }
    return Ok(gas);
  }

  // ---- One message ------------------------------------------------------------------------------

  datatype VmError = NoError | NotEnoughBalance | OtherError

  /** What the virtual machine reports back: it is only trusted not to invent gas. */
  datatype Execution = Execution(gasLeft: nat, balances: seq<int>, refund: nat, error: VmError, logs: seq<nat>)

  type Evm = (Message, nat, seq<int>) -> Execution

  ghost predicate Trusted(evm: Evm) {
    forall m, gas, balances ::
      evm(m, gas, balances).gasLeft <= gas && |evm(m, gas, balances).balances| == |balances|
  }

  /** The virtual machine neither creates nor destroys ether. */
  ghost predicate Conserving(evm: Evm) {
    forall m, gas, balances :: Total(evm(m, gas, balances).balances) == Total(balances)
  }

  /** Gas charged for a message: what was not returned, less a refund of at most half of it. */
  function GasUsed(m: Message, ex: Execution): (used: int)
    requires ex.gasLeft <= m.gas
    ensures 0 <= used <= m.gas - ex.gasLeft
    ensures 2 * used >= m.gas - ex.gasLeft
  {
    var spent := m.gas - ex.gasLeft;
    spent - (if spent / 2 > ex.refund then ex.refund else spent / 2)
  }

  /** Balances after the unused gas is paid back and the used gas goes to the coinbase. */
  function Settled(m: Message, coinbase: Address, ex: Execution): (r: seq<int>)
    requires ex.gasLeft <= m.gas && m.from < |ex.balances| && coinbase < |ex.balances|
  {
    var used := GasUsed(m, ex);
    Credit(Credit(ex.balances, m.from, (m.gas - used) * m.gasPrice), coinbase, used * m.gasPrice)
  }

  /** What the virtual machine is run on: the sender has paid for all of its gas. */
  function Prepaid(m: Message, balances: seq<int>): (r: seq<int>)
    requires m.from < |balances|
    ensures |r| == |balances|
  {
    Credit(balances, m.from, -(m.gas * m.gasPrice))
  }

  function Executed(evm: Evm, m: Message, homestead: bool, balances: seq<int>): Execution
    requires m.from < |balances|
    requires ExactIntrinsicGas(m.data, m.to.None?, homestead) <= m.gas
  {
    evm(m, m.gas - ExactIntrinsicGas(m.data, m.to.None?, homestead), Prepaid(m, balances))
  }

  /**
   The gas ether a sender prepays equals what it gets back plus what the coinbase gets, also
   when sender and coinbase are one account: the total changes by what the machine did only.
   */
  lemma SettlementConserves(m: Message, coinbase: Address, balances: seq<int>, ex: Execution)
    requires m.from < |balances| && coinbase < |balances| && |ex.balances| == |balances| && ex.gasLeft <= m.gas
    ensures Total(Settled(m, coinbase, ex)) - Total(balances) == Total(ex.balances) - Total(Prepaid(m, balances))
  {
    var used := GasUsed(m, ex);
    var paid, back, fee := m.gas * m.gasPrice, (m.gas - used) * m.gasPrice, used * m.gasPrice;
    Distribute(m.gas, used, m.gasPrice);
    PaymentsCancel(balances, ex.balances, m.from, coinbase, paid, back, fee);
  }

  lemma PaymentsCancel(before: seq<int>, after: seq<int>, from: Address, to: Address, paid: int, back: int, fee: int)
    requires from < |before| && to < |before| == |after| && paid == back + fee
    ensures Total(Credit(Credit(after, from, back), to, fee)) - Total(before) == Total(after) - Total(Credit(before, from, -paid))
  {
    TotalCredit(before, from, -paid);
    TotalCredit(after, from, back);
    TotalCredit(Credit(after, from, back), to, fee);
  }

  lemma Distribute(gas: int, used: int, price: int)
    ensures gas * price == (gas - used) * price + used * price
  {
  }

  /** The gas pool of a block, used by one thread. */
  class Pool {
    var gas: nat

    constructor (limit: nat)
      ensures gas == limit
    {
      gas := limit;
    }

    method SubGas(amount: nat) returns (ok: bool)
      modifies this
      ensures ok == (old(gas) >= amount)
      ensures gas == if ok then old(gas) - amount else old(gas)
    {
      if gas < amount {
        return false;
      }
      gas := gas - amount;
      return true;
    }

    /** The source panics above 64 bits; no caller gets there. */
    method AddGas(amount: nat)
      requires gas <= TWO_TO_THE_64 - 1 - amount
      modifies this
      ensures gas == old(gas) + amount
    {
      gas := gas + amount;
    }
  }

  class StateDB {
    var balances: seq<int>
    var logSize: nat

    constructor (balances: seq<int>)
      ensures this.balances == balances && logSize == 0
    {
      this.balances := balances;
      logSize := 0;
    }

    method AddBalance(a: Address, amount: int)
      requires a < |balances|
      modifies this`balances
      ensures balances == Credit(old(balances), a, amount)
    {
      balances := balances[a := balances[a] + amount];
    }
  }

  datatype Applied = Applied(usedGas: nat, failed: bool, logs: seq<nat>)

  class StateTransition {
    const gp: Pool
    const state: StateDB
    const msg: Message
    const coinbase: Address
    const homestead: bool
    var gas: nat
    var initialGas: nat

    constructor (gp: Pool, state: StateDB, msg: Message, coinbase: Address, homestead: bool)
      ensures this.gp == gp && this.state == state && this.msg == msg && this.coinbase == coinbase
      ensures this.homestead == homestead && gas == 0 && initialGas == 0
    {
      this.gp, this.state, this.msg, this.coinbase, this.homestead := gp, state, msg, coinbase, homestead;
      gas, initialGas := 0, 0;
    }

    /** Prepays all gas: the balance is checked first, then the pool, and both are taken or none. */
    method BuyGas() returns (r: Result<()>)
      requires msg.from < |state.balances| && gas == 0
      modifies this, gp, state`balances
      ensures r == (if old(state.balances)[msg.from] < msg.gas * msg.gasPrice
                    then Err(InsufficientBalanceForGas)
                    else if old(gp.gas) < msg.gas then Err(GasLimitReached) else Ok(()))
      ensures r.Err? ==> gp.gas == old(gp.gas) && state.balances == old(state.balances)
      ensures r.Ok? ==>
                && gas == initialGas == msg.gas && gp.gas == old(gp.gas) - msg.gas
                && state.balances == Prepaid(msg, old(state.balances))
    {
      var mgval := msg.gas * msg.gasPrice;
      if state.balances[msg.from] < mgval {
        return Err(InsufficientBalanceForGas);
      }
      var ok := gp.SubGas(msg.gas);
      if !ok {
        return Err(GasLimitReached);
      }
      gas := gas + msg.gas;
      initialGas := msg.gas;
      state.AddBalance(msg.from, -mgval);
      return Ok(());
    }

    method UseGas(amount: nat) returns (r: Result<()>)
      modifies this`gas
      ensures r == if old(gas) < amount then Err(OutOfGas) else Ok(())
      ensures gas == if r.Ok? then old(gas) - amount else old(gas)
    {
      if gas < amount {
        return Err(OutOfGas);
      }
      gas := gas - amount;
      return Ok(());
    }

    /** Applies the refund counter, pays back the remaining gas and returns it to the pool. */
    method RefundGas(counter: nat)
      requires gas <= initialGas && msg.from < |state.balances|
      requires gp.gas + initialGas < TWO_TO_THE_64
      modifies this`gas, gp, state`balances
      ensures old(gas) <= gas <= initialGas
      ensures gas - old(gas) == (if (initialGas - old(gas)) / 2 > counter then counter else (initialGas - old(gas)) / 2)
      ensures gp.gas == old(gp.gas) + gas
      ensures state.balances == Credit(old(state.balances), msg.from, gas * msg.gasPrice)
    {
      var refund := (initialGas - gas) / 2;
      if refund > counter {
        refund := counter;
      }
      gas := gas + refund;
      state.AddBalance(msg.from, gas * msg.gasPrice);
      gp.AddGas(gas);
    }

    /**
     Runs the message. On success the pool has lost exactly the gas used. A message that fails
     after its gas was bought leaves pool and sender charged for the whole limit.
     */
    method TransitionDb(evm: Evm) returns (r: Result<Applied>)
      requires Trusted(evm) && gas == 0
      requires msg.from < |state.balances| && coinbase < |state.balances|
      requires gp.gas < TWO_TO_THE_64
      modifies this, gp, state`balances
      ensures r.Ok? ==>
                && ExactIntrinsicGas(msg.data, msg.to.None?, homestead) <= msg.gas <= old(gp.gas)
                && old(state.balances)[msg.from] >= msg.gas * msg.gasPrice
                && var ex := Executed(evm, msg, homestead, old(state.balances));
                   && r.value == Applied(GasUsed(msg, ex), ex.error != NoError, ex.logs)
                   && state.balances == Settled(msg, coinbase, ex)
                   && gp.gas == old(gp.gas) - r.value.usedGas
                   && ex.error != NotEnoughBalance
      ensures r == Err(InsufficientBalanceForGas) || r == Err(GasLimitReached) ==>
                gp.gas == old(gp.gas) && state.balances == old(state.balances)
      ensures r == Err(OutOfGas) ==>
                gp.gas == old(gp.gas) - msg.gas && state.balances == Prepaid(msg, old(state.balances))
      ensures r == Err(InsufficientBalance) ==>
                && ExactIntrinsicGas(msg.data, msg.to.None?, homestead) <= msg.gas
                && gp.gas == old(gp.gas) - msg.gas
                && state.balances == Executed(evm, msg, homestead, old(state.balances)).balances
      ensures r.Err? <==>
                || old(state.balances)[msg.from] < msg.gas * msg.gasPrice
                || old(gp.gas) < msg.gas
                || ExactIntrinsicGas(msg.data, msg.to.None?, homestead) > msg.gas
                || Executed(evm, msg, homestead, old(state.balances)).error == NotEnoughBalance
      ensures r.Err? ==>
                r.error == if old(state.balances)[msg.from] < msg.gas * msg.gasPrice then InsufficientBalanceForGas
                           else if old(gp.gas) < msg.gas then GasLimitReached
                           else if ExactIntrinsicGas(msg.data, msg.to.None?, homestead) > msg.gas then OutOfGas
                           else InsufficientBalance
    {
      var charged := Charge();
      if charged.Err? {
        return Err(charged.error);
      }
      r := Execute(evm, old(state.balances));
    }

    /** Buys the gas and takes the intrinsic gas out of it. */
    method Charge() returns (r: Result<()>)
      requires msg.from < |state.balances| && gas == 0 && gp.gas < TWO_TO_THE_64
      modifies this, gp, state`balances
      ensures r == (if old(state.balances)[msg.from] < msg.gas * msg.gasPrice then Err(InsufficientBalanceForGas)
                    else if old(gp.gas) < msg.gas then Err(GasLimitReached)
                    else if ExactIntrinsicGas(msg.data, msg.to.None?, homestead) > msg.gas then Err(OutOfGas)
                    else Ok(()))
      ensures if r.Ok? || r == Err(OutOfGas)
              then gp.gas == old(gp.gas) - msg.gas && state.balances == Prepaid(msg, old(state.balances))
              else gp.gas == old(gp.gas) && state.balances == old(state.balances)
      ensures r.Ok? ==> initialGas == msg.gas && gas == msg.gas - ExactIntrinsicGas(msg.data, msg.to.None?, homestead)
    {
      var bought := BuyGas();
      if bought.Err? {
        return Err(bought.error);
      }
      var intrinsic := IntrinsicGas(msg.data, msg.to.None?, homestead);
      if intrinsic.Err? {
        return Err(intrinsic.error);
      }
      r := UseGas(intrinsic.value);
    }

    /** Runs the virtual machine on the gas that is left, refunds and pays the coinbase. */
    method Execute(evm: Evm, ghost before: seq<int>) returns (r: Result<Applied>)
      requires Trusted(evm) && msg.from < |before| && coinbase < |before|
      requires ExactIntrinsicGas(msg.data, msg.to.None?, homestead) <= msg.gas && gp.gas + msg.gas < TWO_TO_THE_64
      requires initialGas == msg.gas && gas == msg.gas - ExactIntrinsicGas(msg.data, msg.to.None?, homestead)
      requires state.balances == Prepaid(msg, before)
      modifies this, gp, state`balances
      ensures var ex := Executed(evm, msg, homestead, before);
              if ex.error == NotEnoughBalance
              then r == Err(InsufficientBalance) && gp.gas == old(gp.gas) && state.balances == ex.balances
              else
                && r == Ok(Applied(GasUsed(msg, ex), ex.error != NoError, ex.logs))
                && state.balances == Settled(msg, coinbase, ex) && gp.gas == old(gp.gas) + (msg.gas - GasUsed(msg, ex))
    {
      var ex := evm(msg, gas, state.balances);
      state.balances := ex.balances;
      gas := ex.gasLeft;
      if ex.error == NotEnoughBalance {
        return Err(InsufficientBalance);
      }
      RefundGas(ex.refund);
      state.AddBalance(coinbase, (initialGas - gas) * msg.gasPrice);
      return Ok(Applied(initialGas - gas, ex.error != NoError, ex.logs));
    }
  }
}
