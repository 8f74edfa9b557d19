/** What the pool decides by: the chain state, its settings, and its rules for nonces. */
module PoolRules {
  import opened Transactions
  import opened Prelude
  import opened PoolLists
  import opened TxPriced

  // ---- What surrounds the pool --------------------------------------------------------------------

  /** What the pool reads of the chain's head: account nonces and balances, and the gas limit. */
  datatype Chain = Chain(nonces: map<Address, nat>, balances: map<Address, int>, maxGas: nat) {
    function Nonce(a: Address): nat {
      if a in nonces then nonces[a] else 0
    }

    function Balance(a: Address): int {
      if a in balances then balances[a] else 0
    }
  }

  datatype Config = Config(
    priceLimit: nat, priceBump: nat, accountSlots: nat, globalSlots: nat, accountQueue: nat, globalQueue: nat)
  {
    predicate Sane() {
      && priceLimit >= 1 && priceBump >= 1 && accountSlots >= 1
      && globalSlots >= 1 && accountQueue >= 1 && globalQueue >= 1
    }

    /** The number of transactions from which on additions push others out. */
    function Capacity(): nat {
      globalSlots + globalQueue
    }

    /** Replaces unworkable settings by the defaults. */
    function Sanitize(): (c: Config)
      ensures c.Sane() && (Sane() ==> c == this)
    {
      Config(
        if priceLimit < 1 then 1 else priceLimit,
        if priceBump < 1 then 10 else priceBump,
        if accountSlots < 1 then 16 else accountSlots,
        if globalSlots < 1 then 4096 else globalSlots,
        if accountQueue < 1 then 64 else accountQueue,
        if globalQueue < 1 then 1024 else globalQueue)
    }
  }

  datatype Error =
    | Known | OversizedData | NegativeValue | GasLimit | InvalidSender | Underpriced | NonceTooLow
    | InsufficientFunds | GasOverflow | IntrinsicGas | ReplaceUnderpriced

  datatype Outcome = Added(replaced: bool) | Rejected(error: Error)

  datatype Status = Unknown | Queued | Pending

  // ---- Contiguous pending lists ---------------------------------------------------------------------

  /** The list holds exactly the nonces from `lo` up to `hi`. */
  ghost predicate Interval(m: Items, lo: nat, hi: nat) {
    lo <= hi && forall n :: n in m <==> lo <= n < hi
  }

  /** The next nonce the pool expects of an account: the last one set, or else the state's. */
  function NextNonce(chain: Chain, nonces: map<Address, nat>, a: Address): nat {
    if a in nonces then nonces[a] else chain.Nonce(a)
  }

  /** Every pending list runs without gaps from the state nonce up to the pending nonce. */
  ghost predicate Contiguous(pending: Lists, chain: Chain, nonces: map<Address, nat>) {
    forall a {:trigger GaplessAt(pending, chain, nonces, a)} :: GaplessAt(pending, chain, nonces, a)
  }

  ghost predicate GaplessAt(pending: Lists, chain: Chain, nonces: map<Address, nat>, a: Address) {
    Interval(At(pending, a), chain.Nonce(a), NextNonce(chain, nonces, a))
  }

  /** Rewriting the list and the pending nonce of one account. */
  lemma StaysContiguous(pending: Lists, chain: Chain, nonces: map<Address, nat>, a: Address, m: Items,
                        nonces': map<Address, nat>)
    requires Contiguous(pending, chain, nonces)
    requires Interval(m, chain.Nonce(a), NextNonce(chain, nonces', a))
    requires forall b | b != a :: NextNonce(chain, nonces', b) == NextNonce(chain, nonces, b)
    ensures Contiguous(Put(pending, a, m), chain, nonces')
  {
    forall b ensures GaplessAt(Put(pending, a, m), chain, nonces', b) {
      PutAt(pending, a, m, b);
      assert GaplessAt(pending, chain, nonces, b);
    }
  }

  /** The pending nonces after the list of account `a` is cut at nonce `n`. */
  function Lowered(chain: Chain, nonces: map<Address, nat>, a: Address, n: nat): map<Address, nat> {
    if NextNonce(chain, nonces, a) > n then nonces[a := n] else nonces
  }

  /** Cutting a list at a nonce it holds. */
  lemma CutContiguous(pending: Lists, chain: Chain, nonces: map<Address, nat>, a: Address, n: nat)
    requires n in At(pending, a) && Contiguous(pending, chain, nonces)
    ensures Contiguous(Put(pending, a, Below(At(pending, a), n)), chain, Lowered(chain, nonces, a, n))
  {
    assert GaplessAt(pending, chain, nonces, a);
    StaysContiguous(pending, chain, nonces, a, Below(At(pending, a), n), Lowered(chain, nonces, a, n));
  }

  /** The transaction that `tx` would push out. */
  function Replaced(m: Items, tx: Tx): set<Tx> {
    if tx.nonce in m then {m[tx.nonce]} else {}
  }

  // ---- Promotion --------------------------------------------------------------------------------------

  /** What an account can still have executed of a list. */
  function Live(chain: Chain, m: Items, a: Address): Items {
    Payable(From(m, chain.Nonce(a)), chain.Balance(a), chain.maxGas)
  }

  lemma SiftParts(chain: Chain, m: Items, a: Address)
    ensures Part(Live(chain, m, a), m)
    ensures forall tx :: Holds(m - Live(chain, m, a).Keys, tx) <==>
                           || Holds(Below(m, chain.Nonce(a)), tx)
                           || Holds(Unpayable(From(m, chain.Nonce(a)), chain.Balance(a), chain.maxGas), tx)
  {
  }

  /** If everything is live, nothing is too old or too costly. */
  lemma SiftNothing(chain: Chain, m: Items, a: Address)
    requires Live(chain, m, a) == m
    ensures Below(m, chain.Nonce(a)) == map[]
    ensures Unpayable(From(m, chain.Nonce(a)), chain.Balance(a), chain.maxGas) == map[]
  {
    assert forall n | n in m :: n in Live(chain, m, a);
  }

  /** If no transaction was forgotten, nothing was left out. */
  lemma NothingForgotten(all: set<Tx>, q: Items, kept: Items)
    requires Without(all, all, q - kept.Keys) && Part(kept, q)
    requires forall n | n in q :: q[n].nonce == n && q[n] in all
    ensures kept == q
  {
    forall n | n in q ensures n in kept {
      assert q[n] in all <==> q[n] in all && !Holds(q - kept.Keys, q[n]);
    }
  }

  /** The queued transactions that follow the pending ones without a gap. */
  function Promotable(chain: Chain, nonces: map<Address, nat>, queue: Lists, a: Address): Items {
    ReadyOf(chain, At(queue, a), NextNonce(chain, nonces, a), a)
  }

  function ReadyOf(chain: Chain, m: Items, next: nat, a: Address): Items {
    Ready(Live(chain, m, a), next)
  }

  /** What the queue of an account keeps after promotion. */
  function Retained(chain: Chain, nonces: map<Address, nat>, queue: Lists, a: Address, locals: set<Address>, cap: nat): Items {
    KeptOf(chain, At(queue, a), NextNonce(chain, nonces, a), a, locals, cap)
  }

  function KeptOf(chain: Chain, m: Items, next: nat, a: Address, locals: set<Address>, cap: nat): Items {
    Capped(Live(chain, m, a) - ReadyOf(chain, m, next, a).Keys, a, locals, cap)
  }

  /** The part of a list within the limit, which binds remote accounts only. */
  function Capped(m: Items, a: Address, locals: set<Address>, cap: nat): Items {
    if a in locals then m else Lowest(m, cap)
  }

  lemma CappedPart(m: Items, a: Address, locals: set<Address>, cap: nat)
    ensures Part(Capped(m, a, locals, cap), m)
  {
  }

  lemma ReadyIsLive(live: Items, next: nat)
    ensures forall n | n in Ready(live, next) :: n in live && Ready(live, next)[n] == live[n]
  {
  }

  lemma NothingQueued(chain: Chain, nonces: map<Address, nat>, queue: Lists, a: Address, locals: set<Address>, cap: nat)
    requires a !in queue
    ensures Promotable(chain, nonces, queue, a) == map[] && Retained(chain, nonces, queue, a, locals, cap) == map[]
  {
    assert Live(chain, map[], a) == map[];
    var none: Items := map[];
    assert none - none.Keys == none;
  }

  lemma PutNothing(pending: Lists, queue: Lists, a: Address)
    requires a !in queue && Stored(pending, a)
    ensures Put(pending, a, At(pending, a) + map[]) == pending && Put(queue, a, map[]) == queue
  {
    PutSame(pending, a);
    assert At(pending, a) + map[] == At(pending, a);
  }

  /** Promoting what is ready and dropping what is not live. */
  lemma AdvancePartition(pending: Lists, queue: Lists, a: Address, live: Items, ready: Items, all: set<Tx>, all': set<Tx>)
    requires Partition(pending, queue, all) && Part(live, At(queue, a)) && Part(ready, live)
    requires Without(all, all', At(queue, a) - live.Keys)
    ensures Partition(Put(pending, a, At(pending, a) + ready), Put(queue, a, live - ready.Keys), all')
  {
    var p, q := At(pending, a), At(queue, a);
    OwnTxs(pending, queue, all, a);
    AdvanceShares(p, q, live, ready);
    Redistribute(pending, queue, all, a, p + ready, live - ready.Keys, q - live.Keys, all');
  }

  lemma AdvanceShares(p: Items, q: Items, live: Items, ready: Items)
    requires p.Keys !! q.Keys && Part(live, q) && Part(ready, live)
    ensures Shares(p, q, p + ready, live - ready.Keys, q - live.Keys)
  {
  }

  /** Keeping a part of what an account has queued. */
  lemma RequeuePartition(pending: Lists, queue: Lists, a: Address, list: Items, kept: Items, all: set<Tx>, all': set<Tx>)
    requires Partition(pending, Put(queue, a, list), all) && Part(kept, list) && Without(all, all', list - kept.Keys)
    ensures Partition(pending, Put(queue, a, kept), all')
  {
    var q := Put(queue, a, list);
    PutAt(queue, a, list, a);
    PutPut(queue, a, list, kept);
    OwnTxs(pending, q, all, a);
    PutSame(pending, a);
    RequeueShares(At(pending, a), list, kept);
    Redistribute(pending, q, all, a, At(pending, a), kept, list - kept.Keys, all');
  }

  lemma QueuedOwn(pending: Lists, queue: Lists, all: set<Tx>, a: Address, list: Items, kept: Items)
    requires Partition(pending, Put(queue, a, list), all) && Part(kept, list)
    ensures ByNonce(list - kept.Keys) && (Without(all, all, list - kept.Keys) ==> list - kept.Keys == map[])
  {
    PutAt(queue, a, list, a);
    OwnTxs(pending, Put(queue, a, list), all, a);
    if Without(all, all, list - kept.Keys) {
      NothingForgotten(all, list, kept);
    }
  }

  lemma RequeueShares(p: Items, list: Items, kept: Items)
    requires p.Keys !! list.Keys && Part(kept, list)
    ensures Shares(p, list, p, kept, list - kept.Keys)
  {
  }

  /** What is ready extends an interval, and starts exactly at its end. */
  lemma ReadyExtends(p: Items, live: Items, lo: nat, hi: nat)
    requires Interval(p, lo, hi) && forall n | n in live :: lo <= n && n !in p
    ensures var ready := Ready(live, hi);
            ready != map[] ==> Least(ready) == hi && Interval(p + ready, lo, Greatest(ready) + 1)
  {
    var ready := Ready(live, hi);
    if ready != map[] {
      assert hi !in live ==> hi !in ready;
      assert Least(live) == hi;
      LeastIs(ready, hi);
      var g := Greatest(ready);
      assert Unbroken(live, hi, g);
      forall n | hi <= n <= g ensures n in ready {
        assert Unbroken(live, hi, n);
      }
    }
  }

  lemma StaysGapless(pending: Lists, queue: Lists, all: set<Tx>, chain: Chain, nonces: map<Address, nat>, a: Address)
    requires Partition(pending, queue, all)
    ensures var ready := Promotable(chain, nonces, queue, a);
            Contiguous(pending, chain, nonces) ==> Contiguous(Put(pending, a, At(pending, a) + ready), chain, Behind(nonces, a, ready))
  {
    OwnTxs(pending, queue, all, a);
    if Contiguous(pending, chain, nonces) {
      PromotionContiguous(pending, queue, chain, nonces, a);
    }
  }

  /** Promotion keeps the pending list gapless. */
  lemma PromotionContiguous(pending: Lists, queue: Lists, chain: Chain, nonces: map<Address, nat>, a: Address)
    requires Contiguous(pending, chain, nonces) && At(pending, a).Keys !! At(queue, a).Keys
    ensures var ready := Promotable(chain, nonces, queue, a);
            && (ready != map[] ==> Least(ready) == NextNonce(chain, nonces, a))
            && Contiguous(Put(pending, a, At(pending, a) + ready), chain, Behind(nonces, a, ready))
  {
    var p, live := At(pending, a), Live(chain, At(queue, a), a);
    var ready := Promotable(chain, nonces, queue, a);
    assert GaplessAt(pending, chain, nonces, a);
    ReadyExtends(p, live, chain.Nonce(a), NextNonce(chain, nonces, a));
    if ready == map[] {
      assert p + ready == p;
    }
    StaysContiguous(pending, chain, nonces, a, p + ready, Behind(nonces, a, ready));
  }

  // ---- Demotion ---------------------------------------------------------------------------------------

  /** What a pending list keeps once its account's nonce is known: all of it, provided it starts there. */
  function Executable(chain: Chain, m: Items, a: Address): Items {
    var rest := Filtered(From(m, chain.Nonce(a)), chain.Balance(a), chain.maxGas, true);
    if chain.Nonce(a) in rest then rest else map[]
  }

  /** What goes back to the queue: the live transactions that are no longer executable. */
  function Demoted(chain: Chain, m: Items, a: Address): Items {
    Live(chain, m, a) - Executable(chain, m, a).Keys
  }

  /** The live transactions are those left by the strict filter and those it invalidates. */
  lemma DemotionParts(chain: Chain, m: Items, a: Address, rest: Items, invalid: Items)
    requires rest == Filtered(From(m, chain.Nonce(a)), chain.Balance(a), chain.maxGas, true)
    requires invalid == Invalidated(From(m, chain.Nonce(a)), chain.Balance(a), chain.maxGas, true)
    ensures rest.Keys !! invalid.Keys && rest + invalid == Live(chain, m, a)
    ensures chain.Nonce(a) in rest ==> Executable(chain, m, a) == rest && Demoted(chain, m, a) == invalid
    ensures chain.Nonce(a) !in rest ==> Executable(chain, m, a) == map[] && Demoted(chain, m, a) == invalid + rest
    ensures rest == map[] ==> invalid + rest == invalid
  {
    FilteredParts(From(m, chain.Nonce(a)), chain.Balance(a), chain.maxGas, true);
    FilteredLive(From(m, chain.Nonce(a)), chain.Balance(a), chain.maxGas);
    DemotedSplit(rest, invalid);
    var none: Items := map[];
    assert Live(chain, m, a) - none.Keys == Live(chain, m, a);
  }

  lemma FilteredLive(m: Items, balance: int, maxGas: nat)
    ensures Filtered(m, balance, maxGas, true) + Invalidated(m, balance, maxGas, true) == Payable(m, balance, maxGas)
  {
    var gone := Unpayable(m, balance, maxGas);
    if gone != map[] {
      forall n | n in m && n < Least(gone) ensures n in Payable(m, balance, maxGas) {
        assert n !in gone;
      }
    }
  }

  lemma DemotedSplit(rest: Items, invalid: Items)
    requires rest.Keys !! invalid.Keys
    ensures (rest + invalid) - rest.Keys == invalid && rest + invalid == invalid + rest
  {
  }

  /** A gapless list stays gapless, from the account's nonce on. */
  lemma ExecutableInterval(chain: Chain, m: Items, a: Address, lo: nat, hi: nat)
    requires Interval(m, lo, hi)
    ensures var e := Executable(chain, m, a); e != map[] ==> Interval(e, chain.Nonce(a), Greatest(e) + 1)
  {
    var e := Executable(chain, m, a);
    if e != map[] {
      var g, young := Greatest(e), From(m, chain.Nonce(a));
      var gone := Unpayable(young, chain.Balance(a), chain.maxGas);
      forall n | chain.Nonce(a) <= n <= g ensures n in e {
        assert n in young;
        assert gone != map[] ==> n < Least(gone);
        assert gone == map[] ==> n !in gone;
      }
    }
  }

  lemma DemotionPartition(chain: Chain, pending: Lists, queue: Lists, a: Address, all: set<Tx>, all': set<Tx>)
    requires Partition(pending, queue, all)
    requires Without(all, all', At(pending, a) - Live(chain, At(pending, a), a).Keys)
    ensures var p, q := At(pending, a), At(queue, a);
            Partition(Put(pending, a, Executable(chain, p, a)), Put(queue, a, q + Demoted(chain, p, a)), all')
  {
    var p, q := At(pending, a), At(queue, a);
    var live, kept, back := Live(chain, p, a), Executable(chain, p, a), Demoted(chain, p, a);
    OwnTxs(pending, queue, all, a);
    DemotionSplit(chain, p, a, live, kept, back);
    DemotionShares(p, q, live, kept, back);
    Redistribute(pending, queue, all, a, kept, q + back, p - live.Keys, all');
  }

  lemma DemotionSplit(chain: Chain, p: Items, a: Address, live: Items, kept: Items, back: Items)
    requires live == Live(chain, p, a) && kept == Executable(chain, p, a) && back == Demoted(chain, p, a)
    ensures kept.Keys !! back.Keys && kept + back == live
    ensures forall n | n in live :: n in p && live[n] == p[n]
  {
    SiftParts(chain, p, a);
    var young := From(p, chain.Nonce(a));
    var rest := Filtered(young, chain.Balance(a), chain.maxGas, true);
    var invalid := Invalidated(young, chain.Balance(a), chain.maxGas, true);
    DemotionParts(chain, p, a, rest, invalid);
    if chain.Nonce(a) !in rest {
      assert kept + back == back && rest + invalid == invalid + rest;
    }
  }

  lemma DemotionShares(p: Items, q: Items, live: Items, kept: Items, back: Items)
    requires p.Keys !! q.Keys && kept.Keys !! back.Keys && kept + back == live
    requires forall n | n in live :: n in p && live[n] == p[n]
    ensures Shares(p, q, kept, q + back, p - live.Keys)
  {
    assert forall n | n in kept :: n in live && live[n] == kept[n];
    assert forall n | n in back :: n in live && live[n] == back[n];
    var now := kept + (q + back) + (p - live.Keys);
    forall n | n in p ensures n in now && now[n] == p[n] {
      assert n in live ==> n in kept + back;
    }
    assert now == p + q;
  }

  /** What demotion does to one account. */
  ghost predicate IsDemoted(chain: Chain, p0: Lists, q0: Lists, p: Lists, q: Lists, a: Address) {
    && At(p, a) == Executable(chain, At(p0, a), a)
    && At(q, a) == At(q0, a) + Demoted(chain, At(p0, a), a)
  }

  ghost predicate Untouched(p0: Lists, q0: Lists, p: Lists, q: Lists, a: Address) {
    At(p, a) == At(p0, a) && At(q, a) == At(q0, a)
  }

  /** Every account but those of `todo` has been demoted. */
  ghost predicate Demoting(chain: Chain, p0: Lists, q0: Lists, p: Lists, q: Lists, todo: set<Address>) {
    && (forall a {:trigger IsDemoted(chain, p0, q0, p, q, a)} | a !in todo :: IsDemoted(chain, p0, q0, p, q, a))
    && (forall a {:trigger Untouched(p0, q0, p, q, a)} | a in todo :: Untouched(p0, q0, p, q, a))
  }

  lemma NoneDemoted(chain: Chain, p: Lists, q: Lists)
    ensures Demoting(chain, p, q, p, q, p.Keys)
  {
    forall a | a !in p.Keys ensures IsDemoted(chain, p, q, p, q, a) {
      var none: Items := map[];
      assert From(none, chain.Nonce(a)) == none && Live(chain, none, a) == none;
      assert Demoted(chain, none, a) == none;
      assert At(q, a) + none == At(q, a);
    }
  }

  lemma DemotedOne(chain: Chain, p0: Lists, q0: Lists, p: Lists, q: Lists, todo: set<Address>, a: Address)
    requires Demoting(chain, p0, q0, p, q, todo) && a in todo
    ensures Demoting(chain, p0, q0, Put(p, a, Executable(chain, At(p, a), a)),
                     Put(q, a, At(q, a) + Demoted(chain, At(p, a), a)), todo - {a})
  {
    var m, back := Executable(chain, At(p, a), a), At(q, a) + Demoted(chain, At(p, a), a);
    assert Untouched(p0, q0, p, q, a);
    forall b | b !in todo - {a} ensures IsDemoted(chain, p0, q0, Put(p, a, m), Put(q, a, back), b) {
      PutAt(p, a, m, b);
      PutAt(q, a, back, b);
      assert b != a ==> IsDemoted(chain, p0, q0, p, q, b);
    }
    forall b | b in todo - {a} ensures Untouched(p0, q0, Put(p, a, m), Put(q, a, back), b) {
      PutAt(p, a, m, b);
      PutAt(q, a, back, b);
      assert Untouched(p0, q0, p, q, b);
    }
  }

  /** The pending nonces behind every pending list. */
  function Ends(pending: Lists): map<Address, nat>
    requires WellKept(pending)
  {
    map a | a in pending :: Greatest(pending[a]) + 1
  }

  /** The pending nonces once all accounts but those of `todo` were moved behind their lists. */
  ghost predicate Extended(ns: map<Address, nat>, pending: Lists, ns': map<Address, nat>, todo: set<Address>)
    requires WellKept(pending)
  {
    forall a {:trigger ExtendedAt(ns, pending, ns', todo, a)} :: ExtendedAt(ns, pending, ns', todo, a)
  }

  ghost predicate ExtendedAt(ns: map<Address, nat>, pending: Lists, ns': map<Address, nat>, todo: set<Address>, a: Address)
    requires WellKept(pending)
  {
    if a in pending && a !in todo then a in ns' && ns'[a] == Greatest(pending[a]) + 1
    else (a in ns' <==> a in ns) && (a in ns ==> ns'[a] == ns[a])
  }

  lemma NoneExtended(ns: map<Address, nat>, pending: Lists)
    requires WellKept(pending)
    ensures Extended(ns, pending, ns, pending.Keys)
  {
  }

  lemma ExtendedNext(ns: map<Address, nat>, pending: Lists, ns': map<Address, nat>, todo: set<Address>, a: Address)
    requires WellKept(pending) && a in pending && Extended(ns, pending, ns', todo)
    ensures Extended(ns, pending, ns'[a := Greatest(pending[a]) + 1], todo - {a})
  {
    var now, rest := ns'[a := Greatest(pending[a]) + 1], todo - {a};
    forall b ensures ExtendedAt(ns, pending, now, rest, b) {
      assert ExtendedAt(ns, pending, ns', todo, b);
    }
  }

  lemma AllExtended(ns: map<Address, nat>, pending: Lists, ns': map<Address, nat>)
    requires WellKept(pending) && Extended(ns, pending, ns', {})
    ensures ns' == ns + Ends(pending)
  {
    forall a ensures a in ns' <==> a in ns + Ends(pending) {
      assert ExtendedAt(ns, pending, ns', {}, a);
    }
    forall a | a in ns' ensures ns'[a] == (ns + Ends(pending))[a] {
      assert ExtendedAt(ns, pending, ns', {}, a);
    }
  }

  /** What is executable of a list has no gap; if nothing is, the account has no pending nonce of its own. */
  ghost predicate SeamlessAt(chain: Chain, pending: Lists, nonces: map<Address, nat>, a: Address) {
    var e := Executable(chain, At(pending, a), a);
    if e == map[] then NextNonce(chain, nonces, a) == chain.Nonce(a) else Interval(e, chain.Nonce(a), Greatest(e) + 1)
  }

  ghost predicate Seamless(chain: Chain, pending: Lists, nonces: map<Address, nat>) {
    forall a {:trigger SeamlessAt(chain, pending, nonces, a)} :: SeamlessAt(chain, pending, nonces, a)
  }

  /** Demoting lists and recomputing the pending nonces gives gapless lists exactly if they were seamless. */
  lemma ResetContiguous(p0: Lists, q0: Lists, nonces: map<Address, nat>, chain: Chain, p: Lists, q: Lists)
    requires WellKept(p) && Demoting(chain, p0, q0, p, q, {})
    ensures Contiguous(p, chain, nonces + Ends(p)) <==> Seamless(chain, p0, nonces)
  {
    if Contiguous(p, chain, nonces + Ends(p)) {
      forall a ensures SeamlessAt(chain, p0, nonces, a) {
        assert GaplessAt(p, chain, nonces + Ends(p), a);
        ResetAt(p0, q0, nonces, chain, p, q, a);
      }
    }
    if Seamless(chain, p0, nonces) {
      forall a ensures GaplessAt(p, chain, nonces + Ends(p), a) {
        assert SeamlessAt(chain, p0, nonces, a);
        ResetAt(p0, q0, nonces, chain, p, q, a);
      }
    }
  }

  lemma ResetAt(p0: Lists, q0: Lists, nonces: map<Address, nat>, chain: Chain, p: Lists, q: Lists, a: Address)
    requires WellKept(p) && Demoting(chain, p0, q0, p, q, {})
    ensures GaplessAt(p, chain, nonces + Ends(p), a) <==> SeamlessAt(chain, p0, nonces, a)
  {
    assert IsDemoted(chain, p0, q0, p, q, a);
    EndAt(p, chain, nonces, a);
    EmptyInterval(chain.Nonce(a), NextNonce(chain, nonces, a));
  }

  lemma EndAt(p: Lists, chain: Chain, nonces: map<Address, nat>, a: Address)
    requires WellKept(p)
    ensures NextNonce(chain, nonces + Ends(p), a) == if At(p, a) == map[] then NextNonce(chain, nonces, a) else Greatest(At(p, a)) + 1
  {
  }

  lemma EmptyInterval(lo: nat, hi: nat)
    ensures Interval(map[], lo, hi) <==> lo == hi
  {
    var none: Items := map[];
    if Interval(map[], lo, hi) {
      assert lo in none <==> lo <= lo < hi;
    }
  }

  /** Gapless lists are seamless for any new head. */
  lemma GaplessSeamless(chain0: Chain, nonces0: map<Address, nat>, p: Lists, chain: Chain)
    requires Contiguous(p, chain0, nonces0)
    ensures Seamless(chain, p, map[])
  {
    forall a ensures SeamlessAt(chain, p, map[], a) {
      assert GaplessAt(p, chain0, nonces0, a);
      ExecutableInterval(chain, At(p, a), a, chain0.Nonce(a), NextNonce(chain0, nonces0, a));
    }
  }

  // ---- Losing nothing ------------------------------------------------------------------------------------

  /** Every transaction on the lists is still on them later. */
  ghost predicate Grows(before: Lists, after: Lists) {
    forall tx {:trigger Listed(after, tx)} :: Listed(before, tx) ==> Listed(after, tx)
  }

  // ---- Inserting -----------------------------------------------------------------------------------------

  lemma InsertPending(pending: Lists, queue: Lists, all: set<Tx>, tx: Tx, p: Items)
    requires Partition(pending, queue, all) && p == At(pending, tx.from) && tx.nonce in p && tx !in all
    ensures Partition(Put(pending, tx.from, p[tx.nonce := tx]), queue, all - Replaced(p, tx) + {tx})
  {
    var a, q := tx.from, At(queue, tx.from);
    var all' := all - Replaced(p, tx) + {tx};
    OwnTxs(pending, queue, all, a);
    forall t ensures t in all' <==> if t.from == a then Holds(p[tx.nonce := tx], t) || Holds(q, t) else t in all {
      assert t in all' <==> t == tx || (t in all && t != p[tx.nonce]);
    }
    Reassign(pending, queue, all, a, p[tx.nonce := tx], q, all');
    PutSame(queue, a);
  }

  lemma InsertQueued(pending: Lists, queue: Lists, all: set<Tx>, tx: Tx, q: Items)
    requires Partition(pending, queue, all) && q == At(queue, tx.from) && tx.nonce !in At(pending, tx.from) && tx !in all
    ensures Partition(pending, Put(queue, tx.from, q[tx.nonce := tx]), all - Replaced(q, tx) + {tx})
  {
    var a, p := tx.from, At(pending, tx.from);
    var all' := all - Replaced(q, tx) + {tx};
    OwnTxs(pending, queue, all, a);
    forall t ensures t in all' <==> if t.from == a then Holds(p, t) || Holds(q[tx.nonce := tx], t) else t in all {
      assert t in all' <==> t == tx || (t in all && t !in Replaced(q, tx));
    }
    Reassign(pending, queue, all, a, p, q[tx.nonce := tx], all');
    PutSame(pending, a);
  }

  lemma InsertContiguous(pending: Lists, chain: Chain, nonces: map<Address, nat>, a: Address, n: nat, tx: Tx)
    requires Contiguous(pending, chain, nonces) && n in At(pending, a)
    ensures Contiguous(Put(pending, a, At(pending, a)[n := tx]), chain, nonces)
  {
    assert GaplessAt(pending, chain, nonces, a);
    StaysContiguous(pending, chain, nonces, a, At(pending, a)[n := tx], nonces);
  }

  /** Known transactions change by the newcomer, at most one rival of its account and nonce, and `dropped`. */
  ghost predicate Exchanged(before: set<Tx>, after: set<Tx>, tx: Tx, dropped: seq<Tx>, added: bool) {
    && (added ==> tx !in before && tx in after)
    && (forall t {:trigger t in after} | t in after :: (t in before && t !in dropped) || (added && t == tx))
    && (forall t {:trigger t in after} | t in before && t !in dropped && t !in after ::
          added && t.from == tx.from && t.nonce == tx.nonce && t.price < tx.price)
  }

  /** Nothing remote that was kept is worse than anything dropped, and nothing local was dropped. */
  ghost predicate Cheapest(all: set<Tx>, dropped: seq<Tx>, locals: set<Address>) {
    && (forall d | d in dropped :: d in all && Remote(d, locals))
    && (forall t, d | t in all && Remote(t, locals) && t !in dropped && d in dropped :: !Worse(t, d))
  }

  lemma Exchange(before: set<Tx>, mid: set<Tx>, after: set<Tx>, tx: Tx, dropped: seq<Tx>, rivals: Items, priceBump: nat, added: bool)
    requires tx !in before && Proper(rivals, tx.from)
    requires forall t {:trigger t in mid} :: t in mid <==> t in before && t !in dropped
    requires after == if added then mid - Replaced(rivals, tx) + {tx} else mid
    requires added ==> Accepts(rivals, tx, priceBump)
    ensures Exchanged(before, after, tx, dropped, added)
  {
    forall t | t in before && t !in dropped && t !in after
      ensures added && t.from == tx.from && t.nonce == tx.nonce && t.price < tx.price
    {
      assert t in mid;
    }
    forall t | t in after ensures (t in before && t !in dropped) || (added && t == tx) {
      assert t in mid || (added && t == tx);
    }
  }

  // ---- Nothing left to promote ---------------------------------------------------------------------------

  /** Every transaction the account could still have executed has a gap before it. */
  ghost predicate Quiet(chain: Chain, nonces: map<Address, nat>, queue: Lists, a: Address) {
    forall n | n in Live(chain, At(queue, a), a) :: n > NextNonce(chain, nonces, a)
  }

  lemma QuietIff(chain: Chain, nonces: map<Address, nat>, queue: Lists, a: Address)
    ensures Quiet(chain, nonces, queue, a) <==> Promotable(chain, nonces, queue, a) == map[]
  {
    var live := Live(chain, At(queue, a), a);
    if live != map[] && Least(live) <= NextNonce(chain, nonces, a) {
      assert Unbroken(live, Least(live), Least(live));
      assert Least(live) in Promotable(chain, nonces, queue, a);
    }
  }

  /** Promotion is complete: a second one would find nothing. */
  lemma PromotionQuiets(chain: Chain, nonces: map<Address, nat>, queue: Lists, a: Address, locals: set<Address>, cap: nat)
    ensures Quiet(chain, Behind(nonces, a, Promotable(chain, nonces, queue, a)),
                  Put(queue, a, Retained(chain, nonces, queue, a, locals, cap)), a)
  {
    var live, ready := Live(chain, At(queue, a), a), Promotable(chain, nonces, queue, a);
    var kept := Retained(chain, nonces, queue, a, locals, cap);
    PutAt(queue, a, kept, a);
    CappedPart(live - ready.Keys, a, locals, cap);
    forall n | n in kept ensures n > NextNonce(chain, Behind(nonces, a, ready), a) {
      BeyondReady(live, NextNonce(chain, nonces, a), n);
    }
    forall n | n in Live(chain, kept, a) ensures n in kept {
    }
  }

  lemma BeyondReady(live: Items, next: nat, n: nat)
    requires n in live && n !in Ready(live, next)
    ensures var ready := Ready(live, next); if ready == map[] then n > next else n > Greatest(ready) + 1
  {
    var ready, l := Ready(live, next), Least(live);
    if l <= next {
      assert Unbroken(live, l, l);
      assert l in ready;
      var g := Greatest(ready);
      assert Unbroken(live, l, g);
      assert n <= g + 1 ==> Unbroken(live, l, n);
    }
  }

  /** Removing queued transactions and lowering pending nonces creates nothing to promote. */
  lemma StaysQuiet(chain: Chain, nonces: map<Address, nat>, queue: Lists, nonces': map<Address, nat>, queue': Lists, a: Address)
    requires Quiet(chain, nonces, queue, a) && NextNonce(chain, nonces', a) <= NextNonce(chain, nonces, a)
    requires forall n | n in At(queue', a) :: n in At(queue, a) && At(queue', a)[n] == At(queue, a)[n]
    ensures Quiet(chain, nonces', queue', a)
  {
    forall n | n in Live(chain, At(queue', a), a) ensures n in Live(chain, At(queue, a), a) {
    }
  }

  /** No account is expected to continue at a higher nonce than before. */
  ghost predicate NoHigher(chain: Chain, before: map<Address, nat>, now: map<Address, nat>) {
    forall a {:trigger NextNonce(chain, now, a)} :: NextNonce(chain, now, a) <= NextNonce(chain, before, a)
  }

  lemma LoweredNoHigher(chain: Chain, nonces: map<Address, nat>, a: Address, n: nat)
    ensures NoHigher(chain, nonces, Lowered(chain, nonces, a, n))
  {
  }

  lemma NoHigherTwice(chain: Chain, n0: map<Address, nat>, n1: map<Address, nat>, n2: map<Address, nat>)
    requires NoHigher(chain, n0, n1) && NoHigher(chain, n1, n2)
    ensures NoHigher(chain, n0, n2)
  {
    forall a ensures NextNonce(chain, n2, a) <= NextNonce(chain, n0, a) {
      assert NextNonce(chain, n1, a) <= NextNonce(chain, n0, a);
    }
  }

  predicate Part(m: Items, of: Items) {
    forall n | n in m :: n in of && m[n] == of[n]
  }

  /** Every list is part of what it was before. */
  ghost predicate Shrinks(before: Lists, after: Lists) {
    forall a {:trigger Part(At(after, a), At(before, a))} :: Part(At(after, a), At(before, a))
  }

  lemma QuietAfter(chain: Chain, nonces: map<Address, nat>, queue: Lists, nonces': map<Address, nat>, queue': Lists, a: Address)
    requires Quiet(chain, nonces, queue, a) && NoHigher(chain, nonces, nonces') && Shrinks(queue, queue')
    ensures Quiet(chain, nonces', queue', a)
  {
    assert NextNonce(chain, nonces', a) <= NextNonce(chain, nonces, a) && Part(At(queue', a), At(queue, a));
    StaysQuiet(chain, nonces, queue, nonces', queue', a);
  }

  // ---- Heartbeats ------------------------------------------------------------------------------------------

  /** A moment after the zero time. */
  type Time = t: nat | t > 0 witness 1

  /** The heartbeats once something of `m` was promoted for account `a` at time `now`. */
  function Stamped(beats: map<Address, Time>, a: Address, m: Items, now: Time): map<Address, Time> {
    if m == map[] then beats else beats[a := now]
  }

  /** The heartbeats once the pending list of account `a` is down to `m`. */
  function Tidied(beats: map<Address, Time>, m: Items, a: Address): map<Address, Time> {
    if m == map[] then beats - {a} else beats
  }

  /** Exactly the accounts with pending transactions have a heartbeat. */
  ghost predicate Paced(pending: Lists, beats: map<Address, Time>) {
    forall a {:trigger PacedAt(pending, beats, a)} :: PacedAt(pending, beats, a)
  }

  predicate PacedAt(pending: Lists, beats: map<Address, Time>, a: Address) {
    a in beats <==> a in pending
  }

  lemma StampedPaced(pending: Lists, beats: map<Address, Time>, a: Address, m: Items, now: Time)
    requires Paced(pending, beats) && Stored(pending, a)
    ensures Paced(Put(pending, a, At(pending, a) + m), Stamped(beats, a, m, now))
  {
    assert m == map[] ==> At(pending, a) + m == At(pending, a);
    forall b ensures PacedAt(Put(pending, a, At(pending, a) + m), Stamped(beats, a, m, now), b) {
      assert PacedAt(pending, beats, b);
    }
  }

  lemma TidiedPaced(pending: Lists, beats: map<Address, Time>, a: Address, m: Items)
    requires Paced(pending, beats) && (m != map[] ==> a in pending)
    ensures Paced(Put(pending, a, m), Tidied(beats, m, a))
  {
    forall b ensures PacedAt(Put(pending, a, m), Tidied(beats, m, a), b) {
      assert PacedAt(pending, beats, b);
    }
  }

  lemma RemovalPaced(pending: Lists, beats: map<Address, Time>, tx: Tx)
    ensures Paced(pending, beats) ==>
              var rest := PendingWithout(pending, tx);
              Paced(rest, if Listed(pending, tx) then Tidied(beats, At(rest, tx.from), tx.from) else beats)
  {
    if Paced(pending, beats) && Listed(pending, tx) {
      PutAt(pending, tx.from, Below(At(pending, tx.from), tx.nonce), tx.from);
      TidiedPaced(pending, beats, tx.from, Below(At(pending, tx.from), tx.nonce));
    }
  }

  // ---- Capacity --------------------------------------------------------------------------------------------

  /** At most one live transaction is remote, and it has one entry in the price heap. */
  ghost predicate LoneRemote(all: set<Tx>, items: multiset<Tx>, locals: set<Address>) {
    && (forall t, u | t in all && u in all && Remote(t, locals) && Remote(u, locals) :: t == u)
    && Single(items, all, locals)
  }

  /** The pool is within its capacity, or nearly all of it is local. */
  ghost predicate Roomy(all: set<Tx>, items: multiset<Tx>, locals: set<Address>, capacity: nat) {
    |all| > capacity ==> LoneRemote(all, items, locals)
  }

  /** Transactions were forgotten, and no entry of the others is gone or new. */
  ghost predicate Fewer(all: set<Tx>, items: multiset<Tx>, all': set<Tx>, items': multiset<Tx>) {
    all' <= all && Keeps(items, items', all')
  }

  lemma FewerTwice(all: set<Tx>, items: multiset<Tx>, all': set<Tx>, items': multiset<Tx>, all'': set<Tx>, items'': multiset<Tx>)
    requires Fewer(all, items, all', items') && Fewer(all', items', all'', items'')
    ensures Fewer(all, items, all'', items'') && (all'' == all ==> all' == all)
  {
  }

  /** Forgetting transactions keeps the pool roomy. */
  lemma RoomyShrinks(all: set<Tx>, items: multiset<Tx>, all': set<Tx>, items': multiset<Tx>, locals: set<Address>, capacity: nat)
    requires Roomy(all, items, locals, capacity) && all' <= all && Keeps(items, items', all')
    requires forall tx | tx in all :: tx in items
    ensures Roomy(all', items', locals, capacity)
  {
    SubsetSize(all', all);
  }

  /** The heap entries once `tx` was made known: the others keep theirs, and `tx` has one more at most. */
  ghost predicate Entered(before: multiset<Tx>, after: multiset<Tx>, known: set<Tx>, all: set<Tx>, tx: Tx) {
    && Keeps(before, after, all - {tx})
    && (tx in known && tx in before ==> 1 <= after[tx])
    && (tx !in known ==> 1 <= after[tx] <= before[tx] + 1)
  }

  /** The heap after one transaction left the pool without leaving the heap. */
  ghost predicate Noted(before: multiset<Tx>, stales: int, after: multiset<Tx>, stales': int, all: set<Tx>) {
    if stales + 1 <= |before| / 4 then after == before && stales' == stales + 1 else after == multiset(all) && stales' == 0
  }

  /** The heap after `k` transactions left the pool: no entry has gone, unless too many are stale by now. */
  ghost predicate Aged(before: multiset<Tx>, stales: int, after: multiset<Tx>, stales': int, k: int) {
    stales + k <= |before| / 4 ==> after == before && stales' == stales + k
  }

  /** There is room, or nothing remote and nothing stale is left. */
  ghost predicate Cleared(all: set<Tx>, items: multiset<Tx>, locals: set<Address>, capacity: nat) {
    |all| < capacity || ((forall tx | tx in all :: !Remote(tx, locals)) && forall tx | tx in items :: tx in all)
  }

  /** As many transactions were dropped as had to be, or all remote ones; none twice. */
  predicate RoomMade(all: set<Tx>, locals: set<Address>, excess: nat, dropped: seq<Tx>) {
    && NoRepeats(dropped)
    && |dropped| == if excess <= |RemoteOf(all, locals)| then excess else |RemoteOf(all, locals)|
  }

  /** In a roomy pool a discard never repeats a transaction, and makes the room asked for. */
  lemma DiscardMakesRoom(items: multiset<Tx>, all: set<Tx>, locals: set<Address>, capacity: nat, drop: seq<Tx>)
    requires Roomy(all, items, locals, capacity) && (forall tx | tx in all :: tx in items)
    requires 1 <= capacity <= |all| && Discarded(items, all, locals, |all| - (capacity - 1), drop)
    ensures RoomMade(all, locals, |all| - (capacity - 1), drop) && Cheapest(all, drop, locals)
  {
    if |all| > capacity {
      SingleMakesRoom(items, all, locals, |all| - (capacity - 1), drop);
    } else {
      var remote := RemoteOf(all, locals);
      if |drop| == 0 {
        forall tx ensures tx !in remote {
          assert tx in all && Remote(tx, locals) ==> multiset(drop)[tx] == items[tx];
        }
        assert remote == {};
      } else {
        SubsetSize({drop[0]}, remote);
      }
    }
    forall t, d | t in all && Remote(t, locals) && t !in drop && d in drop ensures !Worse(t, d) {
      assert t in items - multiset(drop);
    }
  }

  lemma ClearedOut(items0: multiset<Tx>, known: set<Tx>, all: set<Tx>, locals: set<Address>, capacity: nat, drop: seq<Tx>, items: multiset<Tx>)
    requires 1 <= capacity <= |known| && RoomMade(known, locals, |known| - (capacity - 1), drop)
    requires Discarded(items0, known, locals, |known| - (capacity - 1), drop) && forall tx | tx in known :: tx in items0
    requires |drop| < |known| - (capacity - 1) ==> forall tx | tx in items :: tx in known && !Remote(tx, locals)
    requires forall t {:trigger t in all} :: t in all <==> t in known && t !in drop
    ensures Cleared(all, items, locals, capacity)
  {
    if |drop| == |known| - (capacity - 1) {
      DistinctSize(drop);
      var gone := set tx | tx in drop;
      assert all == known - gone && gone <= known;
    } else {
      forall tx | tx in all ensures !Remote(tx, locals) {
        assert Remote(tx, locals) ==> multiset(drop)[tx] == items0[tx];
      }
    }
  }

  /** After room was made the pool is still full exactly when there was not enough remote to drop. */
  lemma StillFullIff(known: set<Tx>, all: set<Tx>, locals: set<Address>, capacity: nat, drop: seq<Tx>)
    requires 1 <= capacity <= |known| && RoomMade(known, locals, |known| - (capacity - 1), drop)
    requires (forall tx | tx in drop :: tx in known) && forall t {:trigger t in all} :: t in all <==> t in known && t !in drop
    ensures |all| >= capacity <==> |RemoteOf(known, locals)| < |known| - (capacity - 1)
  {
    DistinctSize(drop);
    var gone := set tx | tx in drop;
    assert all == known - gone && gone <= known;
  }

  /** One more transaction, once there is room for it. */
  lemma RoomyEnters(known: set<Tx>, items: multiset<Tx>, all: set<Tx>, items': multiset<Tx>, tx: Tx, locals: set<Address>, capacity: nat)
    requires Cleared(known, items, locals, capacity) && Entered(items, items', known, all, tx)
    requires tx !in known && all <= known + {tx}
    ensures Roomy(all, items', locals, capacity)
  {
    SubsetSize(all, known + {tx});
  }

  lemma RoomyLocals(all: set<Tx>, items: multiset<Tx>, locals: set<Address>, locals': set<Address>, capacity: nat)
    requires Roomy(all, items, locals, capacity) && locals <= locals'
    ensures Roomy(all, items, locals', capacity)
  {
  }

  /** A new transaction took the place of a pending one, or went to the queue; nothing else moved. */
  ghost predicate Placed(p0: Lists, q0: Lists, p: Lists, q: Lists, tx: Tx) {
    if tx.nonce in At(p0, tx.from) then p == Put(p0, tx.from, At(p0, tx.from)[tx.nonce := tx]) && q == q0
    else q == Put(q0, tx.from, At(q0, tx.from)[tx.nonce := tx]) && p == p0
  }

  lemma PlacedListed(p0: Lists, q0: Lists, p: Lists, q: Lists, tx: Tx)
    requires Placed(p0, q0, p, q, tx)
    ensures Listed(p, tx) || Listed(q, tx)
  {
  }

  predicate Rival(t: Tx, tx: Tx) {
    t.from == tx.from && t.nonce == tx.nonce
  }

  /** A transaction of the same account and nonce was left when room had been made. */
  ghost predicate Rivalled(all: set<Tx>, dropped: seq<Tx>, tx: Tx) {
    exists t :: t in all && t !in dropped && Rival(t, tx)
  }

  /** One was left that the newcomer does not outbid. */
  ghost predicate Blocked(all: set<Tx>, dropped: seq<Tx>, tx: Tx, priceBump: nat) {
    exists t :: t in all && t !in dropped && Rival(t, tx) && !Outbids(t, tx, priceBump)
  }

  ghost predicate Represents(rivals: Items, all: set<Tx>, tx: Tx) {
    && (forall t | t in all && Rival(t, tx) :: tx.nonce in rivals && rivals[tx.nonce] == t)
    && (tx.nonce in rivals ==> rivals[tx.nonce] in all && Rival(rivals[tx.nonce], tx))
  }

  lemma RivalsFound(pending: Lists, queue: Lists, all: set<Tx>, tx: Tx, rivals: Items)
    requires Partition(pending, queue, all)
    requires rivals == if tx.nonce in At(pending, tx.from) then At(pending, tx.from) else At(queue, tx.from)
    ensures Represents(rivals, all, tx) && Proper(rivals, tx.from)
  {
    OwnTxs(pending, queue, all, tx.from);
    if tx.nonce in rivals {
      var t := rivals[tx.nonce];
      assert t.from == tx.from && t.nonce == tx.nonce;
      assert Holds(At(pending, tx.from), t) || Holds(At(queue, tx.from), t);
    }
  }

  lemma BlockedBy(before: set<Tx>, mid: set<Tx>, dropped: seq<Tx>, tx: Tx, rivals: Items, priceBump: nat)
    requires Represents(rivals, mid, tx)
    requires forall t {:trigger t in mid} :: t in mid <==> t in before && t !in dropped
    ensures Blocked(before, dropped, tx, priceBump) <==> !Accepts(rivals, tx, priceBump)
    ensures Rivalled(before, dropped, tx) <==> tx.nonce in rivals
  {
    if tx.nonce in rivals {
      var t := rivals[tx.nonce];
      assert t in mid && t in before && t !in dropped && Rival(t, tx);
    }
    if Rivalled(before, dropped, tx) {
      var t :| t in before && t !in dropped && Rival(t, tx);
      assert t in mid;
    }
    if Blocked(before, dropped, tx, priceBump) {
      var t :| t in before && t !in dropped && Rival(t, tx) && !Outbids(t, tx, priceBump);
      assert t in mid;
    }
  }

  /** What an insertion comes to, told from what was known before room was made. */
  lemma Taken(pending: Lists, queue: Lists, before: set<Tx>, mid: set<Tx>, after: set<Tx>, tx: Tx, dropped: seq<Tx>, rivals: Items,
              priceBump: nat, r: Outcome)
    requires Partition(pending, queue, mid) && tx !in before
    requires rivals == if tx.nonce in At(pending, tx.from) then At(pending, tx.from) else At(queue, tx.from)
    requires forall t {:trigger t in mid} :: t in mid <==> t in before && t !in dropped
    requires r.Added? <==> Accepts(rivals, tx, priceBump)
    requires if r.Added? then r.replaced == (tx.nonce in rivals) && after == mid - Replaced(rivals, tx) + {tx}
             else r.error == ReplaceUnderpriced && after == mid
    ensures Exchanged(before, after, tx, dropped, r.Added?)
    ensures if Blocked(before, dropped, tx, priceBump) then r == Rejected(ReplaceUnderpriced) else r == Added(Rivalled(before, dropped, tx))
  {
    RivalsFound(pending, queue, mid, tx, rivals);
    Exchange(before, mid, after, tx, dropped, rivals, priceBump, r.Added?);
    BlockedBy(before, mid, dropped, tx, rivals, priceBump);
  }
}
