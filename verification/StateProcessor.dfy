/** Executing the transactions of a block, and recomputing receipts from what is stored. */
module StateProcessor {
  import opened Ledger
  import opened Prelude
  import opened StateTransition

  datatype Block = Block(hash: Hash, number: nat, gasLimit: nat, coinbase: Address, homestead: bool, txs: seq<Message>)

  datatype Log = Log(payload: nat, blockNumber: nat, blockHash: Hash, txHash: Hash, txIndex: nat, index: nat)

  /** Where a contract is created: by whom, at which nonce. */
  datatype Creation = Creation(creator: Address, nonce: nat)

  datatype Receipt = Receipt(
    failed: bool, cumulativeGasUsed: nat, logs: seq<Log>,
    txHash: Hash, gasUsed: nat, contractAddress: Option<Creation>)

  // ---- What the receipts of a block look like ----------------------------------------------

  function GasOf(receipts: seq<Receipt>): nat {
    if receipts == [] then 0 else GasOf(receipts[..|receipts| - 1]) + receipts[|receipts| - 1].gasUsed
  }

  function LogsOf(receipts: seq<Receipt>): nat {
    if receipts == [] then 0 else LogsOf(receipts[..|receipts| - 1]) + |receipts[|receipts| - 1].logs|
  }

  function AllLogs(receipts: seq<Receipt>): seq<Log> {
    if receipts == [] then [] else AllLogs(receipts[..|receipts| - 1]) + receipts[|receipts| - 1].logs
  }

  function CreationOf(m: Message): Option<Creation> {
    if m.to.None? then Some(Creation(m.from, m.nonce)) else None
  }

  /** The log stands where it belongs: transaction `i`, entry `index` of the whole block. */
  predicate Placed(b: Block, i: nat, index: nat, log: Log)
    requires i < |b.txs|
  {
    log == Log(log.payload, b.number, b.hash, b.txs[i].hash, i, index)
  }

  /** The `i`-th receipt carries the right sums, positions and identities. */
  predicate Consistent(b: Block, receipts: seq<Receipt>, i: nat)
    requires i < |receipts| <= |b.txs|
  {
    var r := receipts[i];
    && r.cumulativeGasUsed == GasOf(receipts[..i + 1])
    && r.txHash == b.txs[i].hash
    && r.contractAddress == CreationOf(b.txs[i])
    && forall k | 0 <= k < |r.logs| :: Placed(b, i, LogsOf(receipts[..i]) + k, r.logs[k])
  }

  /** The transaction's gas limit fit what its predecessors left of the block's. */
  predicate Fitted(b: Block, receipts: seq<Receipt>, i: nat)
    requires i < |receipts| <= |b.txs|
  {
    receipts[i].gasUsed <= b.txs[i].gas <= b.gasLimit - GasOf(receipts[..i])
  }

  lemma Prefixes(receipts: seq<Receipt>, r: Receipt)
    ensures GasOf(receipts + [r]) == GasOf(receipts) + r.gasUsed
    ensures LogsOf(receipts + [r]) == LogsOf(receipts) + |r.logs|
    ensures AllLogs(receipts + [r]) == AllLogs(receipts) + r.logs
  {
    assert (receipts + [r])[..|receipts|] == receipts;
  }

  // ---- Execution ------------------------------------------------------------------------------

  /** The logs of one transaction, numbered on from `first`. */
  function Numbered(b: Block, i: nat, first: nat, payloads: seq<nat>): (logs: seq<Log>)
    requires i < |b.txs|
    ensures |logs| == |payloads|
    ensures forall k | 0 <= k < |logs| :: logs[k].payload == payloads[k] && Placed(b, i, first + k, logs[k])
  {
    seq(|payloads|, k requires 0 <= k < |payloads| => Log(payloads[k], b.number, b.hash, b.txs[i].hash, i, first + k))
  }

  method ApplyTransaction(b: Block, i: nat, gp: Pool, state: StateDB, usedGas: nat, evm: Evm)
    returns (r: Result<Receipt>, used: nat)
    requires i < |b.txs| && Trusted(evm) && gp.gas < TWO_TO_THE_64
    requires b.txs[i].from < |state.balances| && b.coinbase < |state.balances|
    modifies gp, state
    ensures r.Ok? ==>
              && |state.balances| == |old(state.balances)|
              && used == usedGas + r.value.gasUsed
              && r.value.cumulativeGasUsed == used
              && gp.gas == old(gp.gas) - r.value.gasUsed
              && r.value.gasUsed <= b.txs[i].gas <= old(gp.gas)
              && r.value.txHash == b.txs[i].hash && r.value.contractAddress == CreationOf(b.txs[i])
              && (forall k | 0 <= k < |r.value.logs| :: Placed(b, i, old(state.logSize) + k, r.value.logs[k]))
              && state.logSize == old(state.logSize) + |r.value.logs|
    ensures r.Ok? && Conserving(evm) ==> Total(state.balances) == Total(old(state.balances))
  {
    used := usedGas;
    var st := new StateTransition(gp, state, b.txs[i], b.coinbase, b.homestead);
    ghost var before := state.balances;
    var applied := st.TransitionDb(evm);
    if applied.Err? {
      return Err(applied.error), used;
    }
    ghost var ex := Executed(evm, b.txs[i], b.homestead, before);
    SettlementConserves(b.txs[i], b.coinbase, before, ex);
    used := usedGas + applied.value.usedGas;
    var logs := Numbered(b, i, state.logSize, applied.value.logs);
    state.logSize := state.logSize + |logs|;
    r := Ok(Receipt(applied.value.failed, used, logs, b.txs[i].hash, applied.value.usedGas, CreationOf(b.txs[i])));
  }

  predicate Addressable(b: Block, accounts: nat) {
    b.coinbase < accounts && forall i | 0 <= i < |b.txs| :: b.txs[i].from < accounts
  }

  /** What the consensus engine pays at the end of a block. */
  datatype Reward = Reward(to: Address, amount: int)

  predicate Payable(rewards: seq<Reward>, accounts: nat) {
    forall i | 0 <= i < |rewards| :: rewards[i].to < accounts
  }

  function TotalOf(rewards: seq<Reward>): int {
    if rewards == [] then 0 else TotalOf(rewards[..|rewards| - 1]) + rewards[|rewards| - 1].amount
  }

  /** The engine's last change to the state: it credits its rewards. */
  method Finalize(state: StateDB, rewards: seq<Reward>)
    requires Payable(rewards, |state.balances|)
    modifies state`balances
    ensures |state.balances| == |old(state.balances)|
    ensures Total(state.balances) == Total(old(state.balances)) + TotalOf(rewards)
  {
    for i := 0 to |rewards|
      invariant |state.balances| == |old(state.balances)|
      invariant Total(state.balances) == Total(old(state.balances)) + TotalOf(rewards[..i])
    {
      TotalCredit(state.balances, rewards[i].to, rewards[i].amount);
      state.AddBalance(rewards[i].to, rewards[i].amount);
      assert rewards[..i + 1][..i] == rewards[..i];
    }
    assert rewards[..|rewards|] == rewards;
  }

  /**
   Executes a block. On success every transaction fit what was left of the block's gas, the
   cumulative gas of the receipts is the running sum, logs are numbered without gaps across
   the block, and no ether appeared or vanished but by the engine's rewards and inside the
   virtual machine.
   */
  method Process(b: Block, state: StateDB, evm: Evm, rewards: seq<Reward>)
    returns (error: Option<Error>, receipts: seq<Receipt>, allLogs: seq<Log>, usedGas: nat)
    requires Trusted(evm) && b.gasLimit < TWO_TO_THE_64
    requires Addressable(b, |state.balances|) && Payable(rewards, |state.balances|) && state.logSize == 0
    modifies state
    ensures error.None? ==>
              && |receipts| == |b.txs|
              && (forall i | 0 <= i < |receipts| :: Consistent(b, receipts, i) && Fitted(b, receipts, i))
              && usedGas == GasOf(receipts) <= b.gasLimit
              && allLogs == AllLogs(receipts)
    ensures error.None? && Conserving(evm) ==> Total(state.balances) == Total(old(state.balances)) + TotalOf(rewards)
    ensures error.Some? ==> receipts == [] && allLogs == [] && usedGas == 0
  {
    error, receipts, allLogs, usedGas := None, [], [], 0;
    var gp := new Pool(b.gasLimit);
    for i := 0 to |b.txs|
      invariant fresh(gp) && |state.balances| == |old(state.balances)|
      invariant |receipts| == i
      invariant forall j | 0 <= j < i :: Consistent(b, receipts, j) && Fitted(b, receipts, j)
      invariant usedGas == GasOf(receipts) && gp.gas + usedGas == b.gasLimit
      invariant allLogs == AllLogs(receipts) && state.logSize == LogsOf(receipts)
      invariant Conserving(evm) ==> Total(state.balances) == Total(old(state.balances))
    {
      var r, used := ApplyTransaction(b, i, gp, state, usedGas, evm);
      if r.Err? {
        return Some(r.error), [], [], 0;
      }
      Prefixes(receipts, r.value);
      forall j | 0 <= j < i ensures Consistent(b, receipts + [r.value], j) && Fitted(b, receipts + [r.value], j) {
        StaysConsistent(b, receipts, r.value, j);
      }
      AppendConsistent(b, receipts, r.value);
      receipts := receipts + [r.value];
      allLogs := allLogs + r.value.logs;
      usedGas := used;
    }
    Finalize(state, rewards);
  }

  /** The sums and positions of an earlier receipt do not depend on later ones. */
  lemma StaysConsistent(b: Block, receipts: seq<Receipt>, r: Receipt, j: nat)
    requires j < |receipts| < |b.txs| && Consistent(b, receipts, j) && Fitted(b, receipts, j)
    ensures Consistent(b, receipts + [r], j) && Fitted(b, receipts + [r], j)
  {
    var rs := receipts + [r];
    assert rs[..j] == receipts[..j] && rs[..j + 1] == receipts[..j + 1] && rs[j] == receipts[j];
  }

  lemma AppendConsistent(b: Block, receipts: seq<Receipt>, r: Receipt)
    requires |receipts| < |b.txs|
    requires r.cumulativeGasUsed == GasOf(receipts) + r.gasUsed
    requires r.txHash == b.txs[|receipts|].hash && r.contractAddress == CreationOf(b.txs[|receipts|])
    requires forall k | 0 <= k < |r.logs| :: Placed(b, |receipts|, LogsOf(receipts) + k, r.logs[k])
    requires r.gasUsed <= b.txs[|receipts|].gas <= b.gasLimit - GasOf(receipts)
    ensures Consistent(b, receipts + [r], |receipts|) && Fitted(b, receipts + [r], |receipts|)
  {
    var rs := receipts + [r];
    Prefixes(receipts, r);
    assert rs[..|receipts|] == receipts && rs[..|receipts| + 1] == rs;
  }

  // ---- Recomputing the derived fields -----------------------------------------------------------

  /** A stored receipt keeps only its status, cumulative gas and the log payloads. */
  function Strip(r: Receipt): Receipt {
    Receipt(r.failed, r.cumulativeGasUsed,
            seq(|r.logs|, k requires 0 <= k < |r.logs| => Log(r.logs[k].payload, 0, 0, 0, 0, 0)), 0, 0, None)
  }

  function StripAll(rs: seq<Receipt>): (s: seq<Receipt>)
    ensures |s| == |rs| && forall i | 0 <= i < |rs| :: s[i] == Strip(rs[i])
  {
    seq(|rs|, i requires 0 <= i < |rs| => Strip(rs[i]))
  }

  /** Receipt `j` with its derived fields, given the logs counted before it. */
  function Derived(b: Block, rs: seq<Receipt>, j: nat): Receipt
    requires j < |rs| == |b.txs|
  {
    var r := rs[j];
    var before := if j == 0 then 0 else rs[j - 1].cumulativeGasUsed;
    r.(txHash := b.txs[j].hash,
       contractAddress := if b.txs[j].to.None? then CreationOf(b.txs[j]) else r.contractAddress,
       gasUsed := Wrap(r.cumulativeGasUsed - before),
       logs := Relabelled(b, j, r.logs, LogsOf(rs[..j])))
  }

  /** The same log payloads, placed in transaction `j` and numbered from `first`. */
  function Relabelled(b: Block, j: nat, logs: seq<Log>, first: nat): (r: seq<Log>)
    requires j < |b.txs|
    ensures |r| == |logs|
    ensures forall k | 0 <= k < |logs| :: r[k].payload == logs[k].payload && Placed(b, j, first + k, r[k])
  {
    seq(|logs|, k requires 0 <= k < |logs| => Log(logs[k].payload, b.number, b.hash, b.txs[j].hash, j, first + k))
  }

  /** Fills in all non-consensus fields in place, or refuses a mismatched list untouched. */
  method SetReceiptsData(b: Block, receipts: array<Receipt>) returns (ok: bool)
    modifies receipts
    ensures ok == (receipts.Length == |b.txs|)
    ensures !ok ==> receipts[..] == old(receipts[..])
    ensures ok ==> forall j | 0 <= j < receipts.Length :: receipts[j] == Derived(b, old(receipts[..]), j)
  {
    if |b.txs| != receipts.Length {
      return false;
    }
    ghost var rs := receipts[..];
    var logIndex := 0;
    for j := 0 to receipts.Length
      invariant forall i | 0 <= i < j :: receipts[i] == Derived(b, rs, i)
      invariant forall i | j <= i < receipts.Length :: receipts[i] == rs[i]
      invariant logIndex == LogsOf(rs[..j])
    {
      logIndex := FillNext(b, receipts, rs, j, logIndex);
    }
    return true;
  }

  /** Derives the fields of receipt `j` and counts its logs. */
  method FillNext(b: Block, receipts: array<Receipt>, ghost rs: seq<Receipt>, j: nat, first: nat) returns (logIndex: nat)
    requires j < receipts.Length == |rs| == |b.txs| && receipts[j] == rs[j] && first == LogsOf(rs[..j])
    requires j > 0 ==> receipts[j - 1] == Derived(b, rs, j - 1)
    modifies receipts
    ensures receipts[j] == Derived(b, rs, j) && logIndex == LogsOf(rs[..j + 1])
    ensures forall i | 0 <= i < receipts.Length && i != j :: receipts[i] == old(receipts[i])
  {
    var before := if j == 0 then 0 else receipts[j - 1].cumulativeGasUsed;
    var filled := FillReceipt(b, rs, j, receipts[j], before, first);
    receipts[j] := filled;
    LogsStep(rs, j);
    logIndex := first + |filled.logs|;
  }

  /** One receipt's derived fields. */
  method FillReceipt(b: Block, ghost rs: seq<Receipt>, j: nat, r: Receipt, before: nat, logIndex: nat) returns (filled: Receipt)
    requires j < |rs| == |b.txs| && r == rs[j] && logIndex == LogsOf(rs[..j])
    requires before == if j == 0 then 0 else rs[j - 1].cumulativeGasUsed
    ensures filled == Derived(b, rs, j)
  {
    var logs := NumberLogs(b, j, r.logs, logIndex);
    filled := r.(txHash := b.txs[j].hash,
                 contractAddress := if b.txs[j].to.None? then CreationOf(b.txs[j]) else r.contractAddress,
                 gasUsed := Wrap(r.cumulativeGasUsed - before),
                 logs := logs);
  }

  lemma LogsStep(rs: seq<Receipt>, j: nat)
    requires j < |rs|
    ensures LogsOf(rs[..j + 1]) == LogsOf(rs[..j]) + |rs[j].logs|
  {
    assert rs[..j + 1][..j] == rs[..j];
  }

  method NumberLogs(b: Block, j: nat, logs: seq<Log>, first: nat) returns (numbered: seq<Log>)
    requires j < |b.txs|
    ensures numbered == Relabelled(b, j, logs, first)
  {
    numbered := [];
    for k := 0 to |logs|
      invariant |numbered| == k
      invariant forall i | 0 <= i < k ::
                  numbered[i] == Log(logs[i].payload, b.number, b.hash, b.txs[j].hash, j, first + i)
    {
      numbered := numbered + [Log(logs[k].payload, b.number, b.hash, b.txs[j].hash, j, first + k)];
    }
  }

  lemma {:induction false} StripKeepsLogCounts(rs: seq<Receipt>, n: nat)
    requires n <= |rs|
    ensures LogsOf(StripAll(rs)[..n]) == LogsOf(rs[..n])
  {
    if n > 0 {
      StripKeepsLogCounts(rs, n - 1);
      assert rs[..n][..n - 1] == rs[..n - 1];
      assert StripAll(rs)[..n][..n - 1] == StripAll(rs)[..n - 1];
    }
  }

  /**
   Storing the receipts of an executed block and recomputing their derived fields gives the
   receipts back, field by field.
   */
  lemma ReceiptsRoundTrip(b: Block, receipts: seq<Receipt>, j: nat)
    requires |receipts| == |b.txs| && j < |receipts| && b.gasLimit < TWO_TO_THE_64
    requires forall i | 0 <= i < |receipts| :: Consistent(b, receipts, i) && Fitted(b, receipts, i)
    ensures Derived(b, StripAll(receipts), j) == receipts[j]
  {
    var r := receipts[j];
    assert Consistent(b, receipts, j) && Fitted(b, receipts, j);
    assert receipts[..j + 1][..j] == receipts[..j];
    if j > 0 {
      assert Consistent(b, receipts, j - 1);
    }
    StripKeepsLogCounts(receipts, j);
    var d := Derived(b, StripAll(receipts), j);
    forall k | 0 <= k < |r.logs| ensures d.logs[k] == r.logs[k] {
      assert Placed(b, j, LogsOf(receipts[..j]) + k, r.logs[k]);
    }
    assert d.logs == r.logs;
    assert d.gasUsed == r.gasUsed;
  }
}
