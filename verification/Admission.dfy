/** What becomes of a transaction that is offered to the pool. */
module Admission {
  import opened Transactions
  import opened Prelude
  import opened TxPriced
  import opened PoolLists
  import opened PoolRules
  import opened Promotion

  /** What a decision depends on besides the settings and the chain, and the lists. */
  datatype Snap = Snap(all: set<Tx>, locals: set<Address>, lists: View) {
    ghost predicate Sound() {
      Partition(lists.pending, lists.queue, all)
    }
  }

  /** The first rule a transaction breaks, if any. */
  function FirstBroken(chain: Chain, gasPrice: nat, locals: set<Address>, tx: Tx, local: bool): Option<Error> {
    if tx.size > 32 * 1024 then Some(OversizedData)
    else if tx.value < 0 then Some(NegativeValue)
    else if chain.maxGas < tx.gas then Some(GasLimit)
    else if !tx.signed then Some(InvalidSender)
    else if !(local || tx.from in locals) && gasPrice > tx.price then Some(Error.Underpriced)
    else if chain.Nonce(tx.from) > tx.nonce then Some(NonceTooLow)
    else if chain.Balance(tx.from) < tx.cost then Some(InsufficientFunds)
    else if tx.intrinsic.None? then Some(GasOverflow)
    else if tx.gas < tx.intrinsic.value then Some(IntrinsicGas)
    else None
  }

  predicate Full(c: Config, all: set<Tx>) {
    |all| >= c.Capacity()
  }

  /** How many transactions a full pool must give up before it takes another one. */
  function Excess(c: Config, all: set<Tx>): nat
    requires Full(c, all)
  {
    if c.Capacity() > 0 then |all| - (c.Capacity() - 1) else |all|
  }

  /** The newcomer is no better than anything in a full pool. */
  predicate Outpriced(c: Config, s: Snap, tx: Tx, local: bool) {
    Full(c, s.all) && !local && Remote(tx, s.locals) && forall t | t in s.all :: t.price >= tx.price
  }

  /** Why a transaction is turned away before any room is made for it, if it is. */
  function Refusal(c: Config, chain: Chain, gasPrice: nat, s: Snap, tx: Tx, local: bool): Option<Error> {
    if tx in s.all then Some(Known)
    else if FirstBroken(chain, gasPrice, s.locals, tx, local).Some? then FirstBroken(chain, gasPrice, s.locals, tx, local)
    else if Outpriced(c, s, tx, local) then Some(Error.Underpriced)
    else None
  }

  /** What is said of a transaction, given what was dropped to make room for it. */
  ghost predicate Answered(c: Config, chain: Chain, gasPrice: nat, s: Snap, tx: Tx, local: bool, dropped: seq<Tx>, r: Outcome) {
    var refusal := Refusal(c, chain, gasPrice, s, tx, local);
    if refusal.Some? then r == Rejected(refusal.value) && dropped == []
    else
      && (if Blocked(s.all, dropped, tx, c.priceBump) then r == Rejected(ReplaceUnderpriced) else r == Added(Rivalled(s.all, dropped, tx)))
      && (if Full(c, s.all) then RoomMade(s.all, s.locals, Excess(c, s.all), dropped) else dropped == [])
  }

  /** The pool decided on a transaction and went from `s` to `s'`. */
  ghost predicate Decided(c: Config, chain: Chain, gasPrice: nat, s: Snap, s': Snap, tx: Tx, local: bool, dropped: seq<Tx>, r: Outcome) {
    && Answered(c, chain, gasPrice, s, tx, local, dropped, r)
    && Exchanged(s.all, s'.all, tx, dropped, r.Added?) && Cheapest(s.all, dropped, s.locals)
    && s.locals <= s'.locals <= s.locals + {tx.from} && (s'.locals != s.locals ==> local && r.Added?)
    && (Refusal(c, chain, gasPrice, s, tx, local).Some? ==> s'.lists == s.lists)
    && (!Full(c, s.all) ==> if r.Added? then Entrance(s.lists, s'.lists, tx) else s'.lists == s.lists)
  }

  /** A transaction that is turned away at once leaves no trace. */
  lemma TurnedAway(c: Config, chain: Chain, gasPrice: nat, s: Snap, tx: Tx, local: bool)
    requires Refusal(c, chain, gasPrice, s, tx, local).Some?
    ensures Decided(c, chain, gasPrice, s, s, tx, local, [], Rejected(Refusal(c, chain, gasPrice, s, tx, local).value))
  {
  }

  /** A batch of transactions is decided on one after the other. */
  ghost predicate AllDecided(c: Config, chain: Chain, gasPrice: nat, trace: seq<Snap>, txs: seq<Tx>, local: bool,
                             drops: seq<seq<Tx>>, results: seq<Outcome>) {
    && |trace| == |results| + 1 && |drops| == |results| <= |txs|
    && forall i {:trigger DecidedAt(c, chain, gasPrice, trace, txs, local, drops, results, i)} | 0 <= i < |results| ::
         DecidedAt(c, chain, gasPrice, trace, txs, local, drops, results, i)
  }

  ghost predicate DecidedAt(c: Config, chain: Chain, gasPrice: nat, trace: seq<Snap>, txs: seq<Tx>, local: bool,
                            drops: seq<seq<Tx>>, results: seq<Outcome>, i: nat)
    requires |trace| == |results| + 1 && |drops| == |results| <= |txs| && i < |results|
  {
    Decided(c, chain, gasPrice, trace[i], trace[i + 1], txs[i], local, drops[i], results[i])
  }

  lemma DecidedMore(c: Config, chain: Chain, gasPrice: nat, trace: seq<Snap>, txs: seq<Tx>, local: bool,
                    drops: seq<seq<Tx>>, results: seq<Outcome>, s: Snap, dropped: seq<Tx>, r: Outcome)
    requires AllDecided(c, chain, gasPrice, trace, txs, local, drops, results) && |results| < |txs|
    requires Decided(c, chain, gasPrice, trace[|results|], s, txs[|results|], local, dropped, r)
    ensures AllDecided(c, chain, gasPrice, trace + [s], txs, local, drops + [dropped], results + [r])
  {
    var n, trace', drops', results' := |results|, trace + [s], drops + [dropped], results + [r];
    forall i | 0 <= i < |results'| ensures DecidedAt(c, chain, gasPrice, trace', txs, local, drops', results', i) {
      assert i < n ==> DecidedAt(c, chain, gasPrice, trace, txs, local, drops, results, i);
    }
  }

  /** What a batch makes known was reported as added. */
  lemma {:induction false} KnownWasAdded(c: Config, chain: Chain, gasPrice: nat, trace: seq<Snap>, txs: seq<Tx>, local: bool,
                                         drops: seq<seq<Tx>>, results: seq<Outcome>, n: nat, tx: Tx)
    requires AllDecided(c, chain, gasPrice, trace, txs, local, drops, results) && n <= |results| && tx in trace[n].all
    ensures tx in trace[0].all || exists i :: 0 <= i < n && txs[i] == tx && results[i].Added?
    decreases n
  {
    if n > 0 {
      assert DecidedAt(c, chain, gasPrice, trace, txs, local, drops, results, n - 1);
      if tx in trace[n - 1].all {
        KnownWasAdded(c, chain, gasPrice, trace, txs, local, drops, results, n - 1, tx);
      }
    }
  }

  /** The accounts that a batch gave a new transaction. */
  ghost predicate Concerned(txs: seq<Tx>, results: seq<Outcome>, dirty: seq<Address>) {
    && |dirty| <= |results| <= |txs|
    && (forall i | 0 <= i < |results| :: results[i] == Added(false) ==> txs[i].from in dirty)
    && forall a | a in dirty :: exists i :: 0 <= i < |results| && results[i] == Added(false) && txs[i].from == a
  }

  lemma ConcernedMore(txs: seq<Tx>, results: seq<Outcome>, dirty: seq<Address>, r: Outcome, dirty': seq<Address>)
    requires Concerned(txs, results, dirty) && |results| < |txs|
    requires dirty' == if r == Added(false) && txs[|results|].from !in dirty then dirty + [txs[|results|].from] else dirty
    ensures Concerned(txs, results + [r], dirty')
  {
    var rs := results + [r];
    forall a | a in dirty' ensures exists i :: 0 <= i < |rs| && rs[i] == Added(false) && txs[i].from == a {
      if a in dirty {
        var i :| 0 <= i < |results| && results[i] == Added(false) && txs[i].from == a;
        assert rs[i] == results[i];
      } else {
        assert rs[|results|] == r;
      }
    }
  }
}
