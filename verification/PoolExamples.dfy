/** Runs of a pool in which promises of the code's own comments fail. */
module PoolExamples {
  import opened Transactions
  import opened Prelude
  import opened PoolLists
  import opened PoolRules
  import opened FairShare
  import opened QueueCap
  import opened Promotion
  import opened Admission
  import opened TxPriced
  import opened TxPool
  import Reinjection

  /** Room for many pending transactions, and for `queued` waiting ones. */
  function Settings(queued: nat): Config {
    Config(1, 10, 16, 64, 64, queued)
  }

  /** A plain transfer at price one. */
  function Transfer(from: Address, nonce: nat): Tx {
    Tx(from, nonce, 1, 21000, 0, 21000, 100, true, Some(21000), 0)
  }

  /** Two accounts with ether, the first of which has sent `nonce` transactions. */
  function Head(nonce: nat): Chain {
    Chain(map[1 := nonce], map[1 := 1000000, 2 := 1000000], 1000000)
  }

  // ---- Where two accounts stand -------------------------------------------------------------------------

  /** What an account has pending and queued, its pending nonce and when it was last active. */
  datatype Account = Account(pending: Items, queue: Items, next: nat, beat: nat)

  ghost predicate Stands(chain: Chain, v: View, a: Address, x: Account) {
    && At(v.pending, a) == x.pending && At(v.queue, a) == x.queue
    && NextNonce(chain, v.nonces, a) == x.next && BeatOf(v.beats, a) == x.beat
  }

  predicate Vacant(v: View, a: Address) {
    At(v.pending, a) == map[] && At(v.queue, a) == map[]
  }

  /** Where the two accounts stand; nobody else has any transactions. */
  ghost predicate Shows(chain: Chain, v: View, x: Account, y: Account) {
    && Stands(chain, v, 1, x) && Stands(chain, v, 2, y)
    && forall a {:trigger Vacant(v, a)} | a != 1 && a != 2 :: Vacant(v, a)
  }

  lemma SizeOfBoth(lists: Lists)
    requires forall a :: Stored(lists, a) && (a == 1 || a == 2 || At(lists, a) == map[])
    ensures Size(lists) == |At(lists, 1)| + |At(lists, 2)|
  {
    var one := Put(lists, 1, map[]);
    var none := Put(one, 2, map[]);
    PutAt(lists, 1, map[], 2);
    SizePut(lists, 1, map[]);
    SizePut(one, 2, map[]);
    forall a ensures a !in none {
      assert Stored(lists, a) && (a == 1 || a == 2 || At(lists, a) == map[]);
    }
    assert none == map[];
  }

  /** The pool knows what the two accounts have. */
  lemma Counted(chain: Chain, s: Snap, x: Account, y: Account)
    requires s.Sound() && Shows(chain, s.lists, x, y)
    ensures Size(s.lists.pending) == |x.pending| + |y.pending| && Size(s.lists.queue) == |x.queue| + |y.queue|
    ensures |s.all| == |x.pending| + |y.pending| + |x.queue| + |y.queue|
  {
    var p, q := s.lists.pending, s.lists.queue;
    forall a ensures Stored(p, a) && Stored(q, a) && (a == 1 || a == 2 || (At(p, a) == map[] && At(q, a) == map[])) {
      OwnTxs(p, q, s.all, a);
      assert a != 1 && a != 2 ==> Vacant(s.lists, a);
    }
    PartitionSize(p, q, s.all);
    SizeOfBoth(p);
    SizeOfBoth(q);
  }

  // ---- Offering a transaction ---------------------------------------------------------------------------

  /** Where an account stands once a transaction was queued and what is ready promoted. */
  function Offered(chain: Chain, x: Account, tx: Tx, now: nat, cap: nat): Account {
    var q := x.queue[tx.nonce := tx];
    var ready, kept := ReadyOf(chain, q, x.next, tx.from), KeptOf(chain, q, x.next, tx.from, {}, cap);
    if ready == map[] then x.(queue := kept) else Account(x.pending + ready, kept, Greatest(ready) + 1, now)
  }

  lemma OfferedStands(chain: Chain, cap: nat, v: View, e: View, w: View, now: Time, tx: Tx, x: Account, q: Items)
    requires Stands(chain, v, tx.from, x) && Entrance(v, e, tx) && tx.nonce !in x.pending && q == x.queue[tx.nonce := tx]
    requires PromotedAt(chain, {}, cap, e, w, now, tx.from)
    ensures Stands(chain, w, tx.from, Offered(chain, x, tx, now, cap))
  {
    PutAt(v.queue, tx.from, q, tx.from);
    BecameStands(chain, e, w, ReadyOf(chain, q, x.next, tx.from), KeptOf(chain, q, x.next, tx.from, {}, cap), now, tx.from, x.(queue := q));
  }

  lemma BecameStands(chain: Chain, v: View, w: View, ready: Items, kept: Items, now: Time, a: Address, x: Account)
    requires Stands(chain, v, a, x) && Became(chain, v, w, ready, kept, now, a)
    ensures Stands(chain, w, a, if ready == map[] then x.(queue := kept) else Account(x.pending + ready, kept, Greatest(ready) + 1, now))
  {
    assert x.pending + map[] == x.pending;
  }

  lemma OthersStand(chain: Chain, v: View, e: View, w: View, tx: Tx, b: Address)
    requires Entrance(v, e, tx) && Unmoved(chain, e, w, b) && b != tx.from
    ensures Unmoved(chain, v, w, b)
  {
  }

  lemma ShowsOffered(chain: Chain, cap: nat, v: View, e: View, w: View, now: Address -> Time, tx: Tx, x: Account, y: Account)
    requires Shows(chain, v, x, y) && Entrance(v, e, tx) && tx.nonce !in At(v.pending, tx.from) && (tx.from == 1 || tx.from == 2)
    requires Promoting(chain, {}, cap, e, w, now, [tx.from])
    ensures if tx.from == 1 then Shows(chain, w, Offered(chain, x, tx, now(1), cap), y)
            else Shows(chain, w, x, Offered(chain, y, tx, now(2), cap))
  {
    forall b ensures if b == tx.from then PromotedAt(chain, {}, cap, e, w, now(b), b) else Unmoved(chain, v, w, b) {
      assert MovedAt(chain, {}, cap, e, w, now, [tx.from], b);
      if b != tx.from {
        OthersStand(chain, v, e, w, tx, b);
      }
    }
    var here := if tx.from == 1 then x else y;
    OfferedStands(chain, cap, v, e, w, now(tx.from), tx, here, here.queue[tx.nonce := tx]);
    assert Unmoved(chain, v, w, 3 - tx.from);
    forall a | a != 1 && a != 2 ensures Vacant(w, a) {
      assert Vacant(v, a) && Unmoved(chain, v, w, a);
    }
  }

  /** Nothing stands against a transaction, and nothing of its nonce is known. */
  ghost predicate Welcome(c: Config, chain: Chain, gasPrice: nat, v: View, all: set<Tx>, tx: Tx) {
    && FirstBroken(chain, gasPrice, {}, tx, false).None? && !Full(c, all)
    && tx.nonce !in At(v.pending, tx.from) && tx.nonce !in At(v.queue, tx.from)
  }

  lemma WelcomeAnswer(c: Config, chain: Chain, gasPrice: nat, s: Snap, tx: Tx, dropped: seq<Tx>, r: Outcome)
    requires Welcome(c, chain, gasPrice, s.lists, s.all, tx) && s.Sound() && s.locals == {}
    requires Answered(c, chain, gasPrice, s, tx, false, dropped, r)
    ensures tx !in s.all && r == Added(false)
  {
    forall t | t == tx || t in s.all ensures !(Rival(t, tx) && t in s.all) {
      OwnTxs(s.lists.pending, s.lists.queue, s.all, t.from);
    }
  }

  /** A pool with the given settings and head, and no local accounts. */
  ghost predicate Ordinary(pool: TxPool, nonce: nat, queued: nat)
    reads pool, pool.priced
  {
    pool.Inv() && pool.locals == {} && pool.chain == Head(nonce) && pool.gasPrice == 1 && pool.config == Settings(queued)
  }

  /** Adds a transaction; `m` is what the pool held before the limits were enforced. */
  method Submit(pool: TxPool, nonce: nat, queued: nat, tx: Tx, now: Time, ghost x: Account, ghost y: Account)
    returns (ghost m: Snap, ghost level: nat)
    requires Ordinary(pool, nonce, queued) && Shows(Head(nonce), pool.Current(), x, y) && (tx.from == 1 || tx.from == 2)
    requires Welcome(Settings(queued), Head(nonce), 1, pool.Current(), pool.all, tx)
    modifies pool, pool.priced
    ensures Ordinary(pool, nonce, queued) && Enforced(Settings(queued), {}, m.lists, pool.Current(), level)
    ensures m.Sound() && pool.all <= m.all <= old(pool.all) + {tx} && tx !in old(pool.all)
    ensures if tx.from == 1 then Shows(Head(nonce), m.lists, Offered(Head(nonce), x, tx, now, 64), y)
            else Shows(Head(nonce), m.lists, x, Offered(Head(nonce), y, tx, now, 64))
    ensures pool.all == old(pool.all) + {tx} && Spacious(Settings(queued), m.lists) ==>
              pool.priced.items == old(pool.priced.items) + multiset{tx} && pool.priced.stales == old(pool.priced.stales)
  {
    ghost var before := pool.Snapshot();
    var r;
    ghost var dropped, s;
    r, dropped, s, m, level := pool.AddTx(tx, false, now);
    WelcomeAnswer(pool.config, pool.chain, pool.gasPrice, before, tx, dropped, r);
    ShowsOffered(pool.chain, 64, before.lists, s.lists, m.lists, AtOnce(now), tx, x, y);
  }

  lemma SubsetWhole<T>(s: set<T>, t: set<T>)
    requires s <= t && |s| == |t|
    ensures s == t
  {
    assert t == s + (t - s);
  }

  /** Nothing is lost while both limits hold. */
  lemma OfferDone(c: Config, chain: Chain, before: Snap, m: Snap, s: Snap, level: nat, tx: Tx, x: Account, y: Account, x': Account, y': Account)
    requires before.Sound() && m.Sound() && s.Sound() && s.all <= m.all <= before.all + {tx} && tx !in before.all
    requires Shows(chain, before.lists, x, y) && Shows(chain, m.lists, x', y') && Enforced(c, {}, m.lists, s.lists, level)
    requires |x'.pending| + |y'.pending| <= c.globalSlots && |x'.queue| + |y'.queue| <= c.globalQueue
    requires |x'.pending| + |y'.pending| + |x'.queue| + |y'.queue| == |x.pending| + |y.pending| + |x.queue| + |y.queue| + 1
    ensures Spacious(c, m.lists) && Shows(chain, s.lists, x', y') && s.all == before.all + {tx}
  {
    Counted(chain, before, x, y);
    Counted(chain, m, x', y');
    Counted(chain, s, x', y');
    SubsetWhole(s.all, before.all + {tx});
  }

  /** Adds a transaction to a pool that has room: nothing is lost, and it alone is new in the price heap. */
  method Offer(pool: TxPool, nonce: nat, queued: nat, tx: Tx, now: Time, ghost x: Account, ghost y: Account, ghost x': Account, ghost y': Account)
    requires Ordinary(pool, nonce, queued) && Shows(Head(nonce), pool.Current(), x, y) && (tx.from == 1 || tx.from == 2)
    requires Welcome(Settings(queued), Head(nonce), 1, pool.Current(), pool.all, tx)
    requires if tx.from == 1 then x' == Offered(Head(nonce), x, tx, now, 64) && y' == y else x' == x && y' == Offered(Head(nonce), y, tx, now, 64)
    requires |x'.pending| + |y'.pending| <= 64 && |x'.queue| + |y'.queue| <= queued
    requires |x'.pending| + |y'.pending| + |x'.queue| + |y'.queue| == |x.pending| + |y.pending| + |x.queue| + |y.queue| + 1
    modifies pool, pool.priced
    ensures Ordinary(pool, nonce, queued) && Shows(Head(nonce), pool.Current(), x', y')
    ensures pool.all == old(pool.all) + {tx} && tx !in old(pool.all)
    ensures pool.priced.items == old(pool.priced.items) + multiset{tx} && pool.priced.stales == old(pool.priced.stales)
  {
    ghost var before := pool.Snapshot();
    ghost var m, level := Submit(pool, nonce, queued, tx, now, x, y);
    OfferDone(Settings(queued), Head(nonce), before, m, pool.Snapshot(), level, tx, x, y, x', y');
  }

  lemma LiveWhole(chain: Chain, m: Items, a: Address)
    requires forall n | n in m :: chain.Nonce(a) <= n && m[n].cost <= chain.Balance(a) && m[n].gas <= chain.maxGas
    ensures Live(chain, m, a) == m
  {
  }

  lemma ReadyOnly(m: Items, n: nat, a: Address, cap: nat)
    requires m.Keys == {n}
    ensures Ready(m, n) == m && Capped(m - Ready(m, n).Keys, a, {}, cap) == map[] && Greatest(m) == n
  {
    LeastIs(m, n);
    assert Streak(m, n) == m;
    assert m - m.Keys == map[];
  }

  /** A transaction that follows the pending ones becomes pending. */
  lemma Executes(chain: Chain, x: Account, tx: Tx, now: nat, list: Items)
    requires x.queue == map[] && tx.nonce == x.next && tx.nonce !in x.pending && list == map[tx.nonce := tx] && Live(chain, list, tx.from) == list
    ensures Offered(chain, x, tx, now, 64) == Account(x.pending[tx.nonce := tx], map[], tx.nonce + 1, now)
  {
    assert x.queue[tx.nonce := tx] == list;
    ReadyOnly(list, tx.nonce, tx.from, 64);
    assert x.pending + list == x.pending[tx.nonce := tx];
  }

  lemma KeptWhole(chain: Chain, q: Items, next: nat, a: Address)
    requires Live(chain, q, a) == q && q != map[] && |q| <= 64 && forall n | n in q :: n > next
    ensures ReadyOf(chain, q, next, a) == map[] && KeptOf(chain, q, next, a, {}, 64) == q
  {
    assert Least(q) in q;
    KeepAll(chain, q, next, a, {}, 64);
  }

  /** A transaction behind a gap waits. */
  lemma Waits(chain: Chain, x: Account, tx: Tx, now: nat, q: Items)
    requires q == x.queue[tx.nonce := tx] && tx.nonce !in x.queue && |x.queue| < 64
    requires Live(chain, q, tx.from) == q && forall n | n in q :: n > x.next
    ensures Offered(chain, x, tx, now, 64) == x.(queue := q) && |q| == |x.queue| + 1
  {
    assert q.Keys == x.queue.Keys + {tx.nonce};
    KeptWhole(chain, q, x.next, tx.from);
  }

  // ---- A transaction with two entries in the price heap ---------------------------------------------------

  /** A queued transaction leaves and comes back: while the heap keeps its stale entry, it then has one more. */
  method LeaveAndReturn(pool: TxPool, tx: Tx)
    requires pool.Inv() && At(pool.queue, tx.from) == map[tx.nonce := tx] && |pool.all| <= pool.config.Capacity()
    modifies pool, pool.priced
    ensures pool.Inv() && pool.all == old(pool.all) && pool.locals == old(pool.locals)
    ensures pool.priced.items[tx] ==
              if old(pool.priced.stales) + 1 <= |old(pool.priced.items)| / 4 then old(pool.priced.items)[tx] + 1 else 1
  {
    ghost var known := pool.all;
    OwnTxs(pool.pending, pool.queue, known, tx.from);
    assert known - {tx} - {} + {tx} == known;
    pool.RemoveFromQueue(tx);
    var r := pool.EnqueueNew(tx);
  }

  /** A pool without transactions. */
  method Empty(nonce: nat, queued: nat) returns (pool: TxPool)
    requires queued > 0
    ensures fresh(pool) && fresh(pool.priced) && Ordinary(pool, nonce, queued) && pool.all == {}
    ensures Shows(Head(nonce), pool.Current(), Account(map[], map[], nonce, 0), Account(map[], map[], 0, 0))
    ensures pool.priced.items == multiset{} && pool.priced.stales == 0
  {
    pool := new TxPool(Settings(queued), {}, Head(nonce));
  }

  function Of(x: Account, y: Account, a: Address): Account {
    if a == 1 then x else y
  }

  /** Both accounts can pay for a transfer of a new nonce. */
  lemma Affordable(nonce: nat, queued: nat, v: View, all: set<Tx>, tx: Tx, x: Account, y: Account)
    requires Shows(Head(nonce), v, x, y) && (tx.from == 1 || tx.from == 2) && tx == Transfer(tx.from, tx.nonce) && |all| < 64
    requires Head(nonce).Nonce(tx.from) <= tx.nonce && tx.nonce !in Of(x, y, tx.from).pending && tx.nonce !in Of(x, y, tx.from).queue
    ensures Welcome(Settings(queued), Head(nonce), 1, v, all, tx)
    ensures Live(Head(nonce), map[tx.nonce := tx], tx.from) == map[tx.nonce := tx]
  {
    LiveWhole(Head(nonce), map[tx.nonce := tx], tx.from);
  }

  /** The next transaction of an account that has nothing queued becomes pending. */
  method Pays(pool: TxPool, nonce: nat, queued: nat, tx: Tx, now: Time, ghost x: Account, ghost y: Account, ghost z: Account)
    requires Ordinary(pool, nonce, queued) && Shows(Head(nonce), pool.Current(), x, y) && (tx.from == 1 || tx.from == 2)
    requires tx == Transfer(tx.from, tx.nonce) && |pool.all| < 64 && Head(nonce).Nonce(tx.from) <= tx.nonce
    requires Of(x, y, tx.from).queue == map[] && Of(x, y, tx.from).next == tx.nonce && tx.nonce !in Of(x, y, tx.from).pending
    requires z == Account(Of(x, y, tx.from).pending[tx.nonce := tx], map[], tx.nonce + 1, now)
    requires |x.pending| + |y.pending| < 64 && |x.queue| + |y.queue| <= queued
    modifies pool, pool.priced
    ensures Ordinary(pool, nonce, queued) && Shows(Head(nonce), pool.Current(), if tx.from == 1 then z else x, if tx.from == 1 then y else z)
    ensures pool.all == old(pool.all) + {tx} && tx !in old(pool.all)
    ensures pool.priced.items == old(pool.priced.items) + multiset{tx} && pool.priced.stales == old(pool.priced.stales)
  {
    Affordable(nonce, queued, pool.Current(), pool.all, tx, x, y);
    Executes(Head(nonce), Of(x, y, tx.from), tx, now, map[tx.nonce := tx]);
    Offer(pool, nonce, queued, tx, now, x, y, if tx.from == 1 then z else x, if tx.from == 1 then y else z);
  }

  /** A transaction behind a gap is queued. */
  method Defers(pool: TxPool, nonce: nat, queued: nat, tx: Tx, now: Time, ghost x: Account, ghost y: Account, ghost z: Account)
    requires Ordinary(pool, nonce, queued) && Shows(Head(nonce), pool.Current(), x, y) && (tx.from == 1 || tx.from == 2)
    requires tx == Transfer(tx.from, tx.nonce) && |pool.all| < 64 && Head(nonce).Nonce(tx.from) <= tx.nonce
    requires Of(x, y, tx.from).queue == map[] && Of(x, y, tx.from).next < tx.nonce && tx.nonce !in Of(x, y, tx.from).pending
    requires z == Of(x, y, tx.from).(queue := map[tx.nonce := tx])
    requires |x.pending| + |y.pending| <= 64 && |x.queue| + |y.queue| < queued
    modifies pool, pool.priced
    ensures Ordinary(pool, nonce, queued) && Shows(Head(nonce), pool.Current(), if tx.from == 1 then z else x, if tx.from == 1 then y else z)
    ensures pool.all == old(pool.all) + {tx} && tx !in old(pool.all)
    ensures pool.priced.items == old(pool.priced.items) + multiset{tx} && pool.priced.stales == old(pool.priced.stales)
  {
    Affordable(nonce, queued, pool.Current(), pool.all, tx, x, y);
    Waits(Head(nonce), Of(x, y, tx.from), tx, now, map[tx.nonce := tx]);
    Offer(pool, nonce, queued, tx, now, x, y, if tx.from == 1 then z else x, if tx.from == 1 then y else z);
  }

  /** An account without a heartbeat is idle: what it has queued is evicted. */
  lemma EvictedFirst(chain: Chain, now: nat, lifetime: nat, s: Snap, s': Snap, x: Account, y: Account)
    requires s.Sound() && s'.Sound() && Shows(chain, s.lists, x, y) && y.queue == map[] && Idle({}, s.lists.beats, now, lifetime, 1)
    requires s'.lists == s.lists.(queue := s'.lists.queue) && Evicted({}, s.lists.beats, now, lifetime, s.lists.queue, s'.lists.queue, {})
    ensures Shows(chain, s'.lists, x.(queue := map[]), y) && Size(s.lists.queue) == |x.queue| && Size(s'.lists.queue) == 0
    ensures |s'.all| == |s.all| - |x.queue|
  {
    forall a | a != 1 && a != 2 ensures Vacant(s'.lists, a) {
      assert Vacant(s.lists, a) && EvictedAt({}, s.lists.beats, now, lifetime, s.lists.queue, s'.lists.queue, {}, a);
    }
    assert EvictedAt({}, s.lists.beats, now, lifetime, s.lists.queue, s'.lists.queue, {}, 1);
    assert EvictedAt({}, s.lists.beats, now, lifetime, s.lists.queue, s'.lists.queue, {}, 2);
    Counted(chain, s, x, y);
    Counted(chain, s', x.(queue := map[]), y);
  }

  /** Account 2 has three transactions pending. */
  method Start() returns (pool: TxPool, ghost y: Account)
    ensures fresh(pool) && fresh(pool.priced) && Ordinary(pool, 0, 64) && |pool.all| == 3 && |y.pending| == 3 && y.queue == map[]
    ensures Shows(Head(0), pool.Current(), Account(map[], map[], 0, 0), y)
    ensures pool.priced.items == multiset(pool.all) && pool.priced.stales == 0
  {
    pool := Empty(0, 64);
    ghost var x := Account(map[], map[], 0, 0);
    y := x;
    for n := 0 to 3
      invariant fresh(pool) && fresh(pool.priced) && Ordinary(pool, 0, 64) && |pool.all| == |y.pending| == y.next == n && y.queue == map[]
      invariant Shows(Head(0), pool.Current(), x, y) && forall k | k in y.pending :: k < n
      invariant pool.priced.items == multiset(pool.all) && pool.priced.stales == 0
    {
      var tx := Transfer(2, n);
      ghost var z := Account(y.pending[n := tx], map[], n + 1, 1);
      Pays(pool, 0, 64, tx, 1, x, y, z);
      y := z;
    }
  }

  /** A transaction that was evicted and came back has two entries in the price heap. */
  method DoubleEntry() returns (pool: TxPool, tx: Tx)
    ensures pool.Inv() && tx in pool.all && tx.from !in pool.locals && pool.priced.items[tx] == 2
  {
    tx := Transfer(1, 5);
    ghost var x, z := Account(map[], map[], 0, 0), Account(map[], map[5 := tx], 0, 0);
    ghost var y;
    pool, y := Start();
    Defers(pool, 0, 64, tx, 2, x, y, z);
    EvictFirst(pool, z, y);
    Defers(pool, 0, 64, tx, 4, x, y, z);
  }

  /** Evicts what account 1 has queued. */
  method EvictFirst(pool: TxPool, ghost x: Account, ghost y: Account)
    requires Ordinary(pool, 0, 64) && Shows(Head(0), pool.Current(), x, y) && x.pending == map[] && y.queue == map[] && |x.queue| == 1
    requires pool.priced.items == multiset(pool.all) && pool.priced.stales == 0 && |pool.all| == 4
    modifies pool, pool.priced
    ensures Ordinary(pool, 0, 64) && Shows(Head(0), pool.Current(), x.(queue := map[]), y) && |pool.all| == 3
    ensures pool.priced.items == old(pool.priced.items)
  {
    ghost var s := pool.Snapshot();
    OwnTxs(pool.pending, pool.queue, pool.all, 1);
    assert PacedAt(pool.pending, pool.beats, 1);
    pool.Evict(3, 1);
    EvictedFirst(Head(0), 3, 1, s, pool.Snapshot(), x, y);
  }

  // ---- The queue limit and the order of heartbeats --------------------------------------------------------

  /** What a queue limit of two leaves of two and one transactions: the account that was active later loses its one. */
  lemma LaterLoses(c: Config, chain: Chain, m: Snap, s: Snap, level: nat, x: Account, y: Account)
    requires m.Sound() && s.Sound() && Shows(chain, m.lists, x, y) && Enforced(c, {}, m.lists, s.lists, level) && c.globalQueue == 2
    requires |x.queue| == 2 && |y.queue| == 1 && x.beat < y.beat
    ensures At(s.lists.queue, 1) == x.queue && At(s.lists.queue, 2) == map[] && s.lists.beats == m.lists.beats
  {
    var q0, q := m.lists.queue, s.lists.queue;
    Counted(chain, m, x, y);
    forall a ensures Stored(q, a) && Part(At(q, a), At(q0, a)) && (a == 1 || a == 2 || At(q, a) == map[]) {
      OwnTxs(s.lists.pending, q, s.all, a);
      assert Part(At(q, a), At(q0, a)) && (a != 1 && a != 2 ==> Vacant(m.lists, a));
    }
    SizeOfBoth(q);
    assert QueueCap.Queued(q0, {}, 1) && QueueCap.Queued(q0, {}, 2);
    Remaining(At(q, 1), x.queue, At(q, 2), At(q, 1) == x.queue);
  }

  /** If the first list is cut only after the second is gone and two transactions are left, the first is whole. */
  lemma Remaining(r1: Items, q1: Items, r2: Items, whole: bool)
    requires Part(r1, q1) && |q1| == 2 && (whole <==> r1 == q1) && (!whole ==> r2 == map[]) && |r1| + |r2| == 2
    ensures r1 == q1 && r2 == map[]
  {
    assert r1.Keys <= q1.Keys;
    if |r1| == 2 {
      SubsetWhole(r1.Keys, q1.Keys);
    }
  }

  /** Where account `a` stands with its first transaction pending and the given ones queued. */
  function Paid(a: Address, queue: Items, beat: nat): Account {
    Account(map[0 := Transfer(a, 0)], queue, 1, beat)
  }

  /** Both accounts have a pending transaction; the second was active later. */
  method BothPay() returns (pool: TxPool)
    ensures fresh(pool) && fresh(pool.priced) && Ordinary(pool, 0, 2) && |pool.all| == 2
    ensures Shows(Head(0), pool.Current(), Paid(1, map[], 1), Paid(2, map[], 2))
  {
    pool := Empty(0, 2);
    var tx, tx' := Transfer(1, 0), Transfer(2, 0);
    ghost var x := Account(map[], map[], 0, 0);
    Pays(pool, 0, 2, tx, 1, x, x, Paid(1, map[], 1));
    Pays(pool, 0, 2, tx', 2, Paid(1, map[], 1), x, Paid(2, map[], 2));
  }

  /** Both accounts have a pending and a queued transaction. */
  method BothWait() returns (pool: TxPool)
    ensures fresh(pool) && fresh(pool.priced) && Ordinary(pool, 0, 2) && |pool.all| == 4
    ensures Shows(Head(0), pool.Current(), Paid(1, map[5 := Transfer(1, 5)], 1), Paid(2, map[5 := Transfer(2, 5)], 2))
  {
    pool := BothPay();
    var tx, tx' := Transfer(1, 5), Transfer(2, 5);
    ghost var x, y, z := Paid(1, map[], 1), Paid(2, map[], 2), Paid(1, map[5 := tx], 1);
    Defers(pool, 0, 2, tx, 3, x, y, z);
    Defers(pool, 0, 2, tx', 4, z, y, Paid(2, map[5 := tx'], 2));
  }

  /** A second queued transaction of account 1 waits like the first. */
  lemma SecondWaits(x: Account, tx: Tx, now: nat)
    requires x == Paid(1, map[5 := Transfer(1, 5)], 1) && tx == Transfer(1, 6)
    ensures Offered(Head(0), x, tx, now, 64) == x.(queue := map[5 := Transfer(1, 5), 6 := tx])
    ensures |Offered(Head(0), x, tx, now, 64).queue| == 2
  {
    var q := map[5 := Transfer(1, 5), 6 := tx];
    assert x.queue[6 := tx] == q;
    LiveWhole(Head(0), q, 1);
    Waits(Head(0), x, tx, now, q);
  }

  /**
   The queue limit costs the account that was active later everything it has queued, and the
   other one nothing.
   */
  method NewestGoesFirst() returns (pool: TxPool, ghost before: View)
    ensures pool.Inv() && pool.locals == {} && BeatOf(pool.beats, 1) < BeatOf(pool.beats, 2)
    ensures At(before.queue, 1) == map[5 := Transfer(1, 5)] && At(before.queue, 2) == map[5 := Transfer(2, 5)]
    ensures At(pool.queue, 1) == map[5 := Transfer(1, 5), 6 := Transfer(1, 6)] && At(pool.queue, 2) == map[]
  {
    pool := BothWait();
    before := pool.Current();
    var tx := Transfer(1, 6);
    ghost var x, y := Paid(1, map[5 := Transfer(1, 5)], 1), Paid(2, map[5 := Transfer(2, 5)], 2);
    SecondWaits(x, tx, 5);
    Affordable(0, 2, before, pool.all, tx, x, y);
    ghost var m, level := Submit(pool, 0, 2, tx, 5, x, y);
    LaterLoses(Settings(2), Head(0), m, pool.Snapshot(), level, Offered(Head(0), x, tx, 5, 64), y);
  }

  // ---- A gap after a reorganisation -----------------------------------------------------------------------

  /** Of two transactions, the first is too cheap for the pool and the second becomes pending. */
  lemma Reinjected(c: Config, chain: Chain, gasPrice: nat, s: Snap, s': Snap, cheap: Tx, tx: Tx, now: Address -> Time,
                   results: seq<Outcome>, b: Batch, x: Account, y: Account)
    requires BatchDone(c, chain, gasPrice, s, s', [cheap, tx], false, now, results, b) && s.Sound() && Shows(chain, s.lists, x, y)
    requires s.locals == {} && FirstBroken(chain, gasPrice, {}, cheap, false).Some? && Welcome(c, chain, gasPrice, s.lists, s.all, tx)
    requires tx.from == 1 && c.accountQueue == 64
    ensures s'.locals == {} && Shows(chain, b.mid.lists, Offered(chain, x, tx, now(1), 64), y)
    ensures Enforced(c, {}, b.mid.lists, s'.lists, b.level) && b.mid.Sound()
  {
    var txs, t := [cheap, tx], b.trace;
    assert DecidedAt(c, chain, gasPrice, t, txs, false, b.drops, results, 0);
    assert DecidedAt(c, chain, gasPrice, t, txs, false, b.drops, results, 1);
    Refused(c, chain, gasPrice, s, t[1], cheap, b.drops[0], results[0]);
    WelcomeAnswer(c, chain, gasPrice, s, tx, b.drops[1], results[1]);
    OnlyConcerned(txs, results, b.dirty);
    PromotingSame(chain, {}, 64, t[2].lists, b.mid.lists, now, b.dirty, [tx.from]);
    ShowsOffered(chain, 64, s.lists, t[2].lists, b.mid.lists, now, tx, x, y);
  }

  lemma Refused(c: Config, chain: Chain, gasPrice: nat, s: Snap, s': Snap, tx: Tx, dropped: seq<Tx>, r: Outcome)
    requires Decided(c, chain, gasPrice, s, s', tx, false, dropped, r) && FirstBroken(chain, gasPrice, s.locals, tx, false).Some?
    ensures s' == s && r.Rejected?
  {
    assert s'.all == s.all;
  }

  lemma OnlyConcerned(txs: seq<Tx>, results: seq<Outcome>, dirty: seq<Address>)
    requires |txs| == 2 == |results| && Concerned(txs, results, dirty) && results[0].Rejected? && results[1] == Added(false)
    ensures forall a :: a in dirty <==> a in [txs[1].from]
  {
  }

  /** What is promoted depends on the set of accounts only. */
  lemma PromotingSame(chain: Chain, locals: set<Address>, cap: nat, v: View, w: View, now: Address -> Time, some: seq<Address>, same: seq<Address>)
    requires Promoting(chain, locals, cap, v, w, now, some) && forall a :: a in some <==> a in same
    ensures Promoting(chain, locals, cap, v, w, now, same)
  {
    forall a ensures MovedAt(chain, locals, cap, v, w, now, same, a) {
      assert MovedAt(chain, locals, cap, v, w, now, some, a);
    }
  }

  lemma AllExecutable(chain: Chain, m: Items, a: Address, first: nat, last: nat)
    requires first in m && last in m && (forall n | n in m :: first <= n <= last) && chain.Nonce(a) == first
    requires forall n | n in m :: m[n].cost <= chain.Balance(a) && m[n].gas <= chain.maxGas
    ensures Executable(chain, m, a) == m && Demoted(chain, m, a) == map[] && Greatest(m) == last
  {
    assert From(m, first) == m;
    assert Unpayable(m, chain.Balance(a), chain.maxGas) == map[];
    assert Payable(m, chain.Balance(a), chain.maxGas) == m;
    assert last <= Greatest(m);
  }

  lemma NoneExecutable(chain: Chain, a: Address)
    ensures Executable(chain, map[], a) == map[] && Demoted(chain, map[], a) == map[]
  {
    assert From(map[], chain.Nonce(a)) == map[];
  }

  /** If all of account 1 is executable and there is nothing else, nothing is cut. */
  lemma NothingCut(chain: Chain, v: View, cut: View, x: Account, y: Account, b: Address)
    requires Shows(chain, v, x, y) && x.queue == map[] && Vacant(v, 2) && Demoting(chain, v.pending, v.queue, cut.pending, cut.queue, {})
    requires Executable(chain, x.pending, 1) == x.pending && Demoted(chain, x.pending, 1) == map[]
    ensures At(cut.pending, b) == (if b == 1 then x.pending else map[]) && At(cut.queue, b) == map[]
  {
    assert IsDemoted(chain, v.pending, v.queue, cut.pending, cut.queue, b);
    NoneExecutable(chain, b);
    assert b != 1 ==> Vacant(v, b);
  }

  /** Nothing is promoted where nothing is queued. */
  lemma NothingPromoted(chain: Chain, cap: nat, cut: Snap, m: Snap, now: Address -> Time, some: seq<Address>)
    requires (forall b :: b !in cut.lists.queue && (b == 1 || At(cut.lists.pending, b) == map[])) && m.Sound()
    requires Promoting(chain, {}, cap, cut.lists, m.lists, now, some) && forall a :: a in some <==> a in cut.lists.queue
    ensures Unmoved(chain, cut.lists, m.lists, 1) && Size(m.lists.pending) == |At(cut.lists.pending, 1)|
  {
    var p := m.lists.pending;
    forall b ensures Stored(p, b) && At(p, b) == At(cut.lists.pending, b) && (b == 1 || At(p, b) == map[]) {
      assert MovedAt(chain, {}, cap, cut.lists, m.lists, now, some, b) && b !in cut.lists.queue;
      OwnTxs(p, m.lists.queue, m.all, b);
    }
    assert MovedAt(chain, {}, cap, cut.lists, m.lists, now, some, 1);
    SizeOfBoth(p);
    assert At(p, 2) == map[];
  }

  /** The pending list of account 1 stays as it is, and the pending nonce comes to lie behind it. */
  lemma Settled(config: Config, chain: Chain, v: View, w: View, now: Address -> Time, c: Course, x: Account, y: Account)
    requires Resumed(config, chain, {}, v, w, now, c) && Shows(chain, v, x, y) && x.queue == map[] && Vacant(v, 2)
    requires Executable(chain, x.pending, 1) == x.pending && Demoted(chain, x.pending, 1) == map[]
    requires x.pending != map[] && |x.pending| <= config.globalSlots
    ensures At(w.pending, 1) == x.pending && NextNonce(chain, w.nonces, 1) == Greatest(x.pending) + 1
  {
    var cut := c.cut.lists;
    forall b ensures b !in cut.queue && At(cut.pending, b) == (if b == 1 then x.pending else map[]) {
      NothingCut(chain, v, cut, x, y, b);
      OwnTxs(cut.pending, cut.queue, c.cut.all, b);
    }
    EndAt(cut.pending, chain, v.nonces, 1);
    NothingPromoted(chain, config.accountQueue, c.cut, c.mid, now, c.some);
  }

  /** A transaction at price zero. */
  function Free(from: Address, nonce: nat): Tx {
    Transfer(from, nonce).(price := 0)
  }

  /**
   Block 70 has two branches. On one, account 1 sent the transactions of nonces 3 and 4; the
   other one is empty.
   */
  function Branches(): Reinjection.Blocks {
    map[70 := Reinjection.Block(69, 7, []),
        81 := Reinjection.Block(70, 8, [Transfer(1, 3)]), 91 := Reinjection.Block(81, 9, [Free(1, 4)]),
        82 := Reinjection.Block(70, 8, []), 92 := Reinjection.Block(82, 9, [])]
  }

  lemma Walks(bs: Reinjection.Blocks, top: nat, mid: nat)
    requires bs == Branches() && ((top == 91 && mid == 81) || (top == 92 && mid == 82))
    ensures Reinjection.Rooted(bs, top, 9) && Reinjection.Rooted(bs, top, 8) && Reinjection.Rooted(bs, top, 7)
    ensures Reinjection.Ancestor(bs, top, 9) == top && Reinjection.Ancestor(bs, top, 8) == mid && Reinjection.Ancestor(bs, top, 7) == 70
    ensures Reinjection.Above(bs, top, 7) == bs[top].txs + bs[mid].txs
  {
    assert Reinjection.Parent(bs, top) == Some(mid) && Reinjection.Parent(bs, mid) == Some(70);
    assert Reinjection.Rooted(bs, 70, 7) && Reinjection.Above(bs, 70, 7) == [];
    assert Reinjection.Rooted(bs, mid, 7) && Reinjection.Above(bs, mid, 7) == bs[mid].txs + [];
    assert Reinjection.Rooted(bs, mid, 8);
  }

  lemma BranchesFork(bs: Reinjection.Blocks)
    requires bs == Branches()
    ensures Reinjection.Fork(bs, 91, 92, 7)
  {
    Walks(bs, 91, 81);
    Walks(bs, 92, 82);
    forall m: nat | Reinjection.Meet(bs, 91, 92, m) ensures m <= 7 {
      Reinjection.RootedDepth(bs, 91, m);
    }
  }

  lemma BranchesDrop(bs: Reinjection.Blocks)
    requires bs == Branches()
    ensures Reinjection.Dropped(bs, Some(91), 92) == Some([Free(1, 4), Transfer(1, 3)])
  {
    BranchesFork(bs);
    Reinjection.ForkUnique(bs, 91, 92);
    Walks(bs, 91, 81);
    Walks(bs, 92, 82);
    assert bs[91].txs + bs[81].txs == [Free(1, 4), Transfer(1, 3)] && bs[92].txs + bs[82].txs == [];
    MinusNothing([Free(1, 4), Transfer(1, 3)]);
  }

  lemma {:induction false} MinusNothing(a: seq<Tx>)
    ensures Reinjection.Minus(a, []) == a
  {
    if a != [] {
      MinusNothing(a[..|a| - 1]);
    }
  }

  /** Account 1 has sent five transactions, and its sixth is pending. */
  method SixthPending(later: Tx) returns (pool: TxPool)
    requires later == Transfer(1, 5)
    ensures fresh(pool) && fresh(pool.priced) && Ordinary(pool, 5, 64) && |pool.all| == 1
    ensures Shows(Head(3), pool.Rewound().lists, Account(map[5 := later], map[], 3, 1), Account(map[], map[], 0, 0))
  {
    pool := Empty(5, 64);
    ghost var x, y := Account(map[], map[], 5, 0), Account(map[], map[], 0, 0);
    Pays(pool, 5, 64, later, 1, x, y, Account(map[5 := later], map[], 6, 1));
    forall a | a != 1 && a != 2 ensures Vacant(pool.Rewound().lists, a) {
      assert Vacant(pool.Current(), a);
    }
  }

  /** The list with a gap: everything in it is executable on its own. */
  lemma WithGap(m: Items, tx: Tx, later: Tx)
    requires m == map[5 := later][3 := tx] && tx == Transfer(1, 3) && later == Transfer(1, 5)
    ensures m.Keys == {3, 5} && |m| == 2 && !Interval(m, 3, 6) && Greatest(m) == 5
    ensures Executable(Head(3), m, 1) == m && Demoted(Head(3), m, 1) == map[]
  {
    assert m.Keys == {3, 5} && 4 !in m;
    AllExecutable(Head(3), m, 1, 3, 5);
  }

  /** Of the two transactions that are offered again, the second becomes pending. */
  lemma OneReturns(s: Snap, s': Snap, tx: Tx, now: Address -> Time, results: seq<Outcome>, b: Batch, x: Account, y: Account, m: Items)
    requires s.Sound() && Shows(Head(3), s.lists, x, y) && s.locals == {} && |s.all| == 1 && tx == Transfer(1, 3)
    requires x.queue == map[] && x.next == 3 && 3 !in x.pending && |x.pending| == 1 && y == Account(map[], map[], 0, 0) && m == x.pending[3 := tx]
    requires BatchDone(Settings(64), Head(3), 1, s, s', [Free(1, 4), tx], false, now, results, b)
    ensures s'.locals == {} && Shows(Head(3), s'.lists, Account(m, map[], 4, now(1)), y)
  {
    Affordable(3, 64, s.lists, s.all, tx, x, y);
    Executes(Head(3), x, tx, now(1), map[3 := tx]);
    Reinjected(Settings(64), Head(3), 1, s, s', Free(1, 4), tx, now, results, b, x, y);
    Counted(Head(3), b.mid, Account(m, map[], 4, now(1)), y);
    KeptBySpace(Settings(64), Head(3), b.mid.lists, s'.lists, b.level, Account(m, map[], 4, now(1)), y);
  }

  lemma KeptBySpace(c: Config, chain: Chain, v: View, w: View, level: nat, x: Account, y: Account)
    requires Enforced(c, {}, v, w, level) && Spacious(c, v) && Shows(chain, v, x, y)
    ensures Shows(chain, w, x, y)
  {
    assert w.pending == v.pending && w.queue == v.queue;
    forall a | a != 1 && a != 2 ensures Vacant(w, a) {
      assert Vacant(v, a);
    }
  }

  /** Then the pending list has a gap. */
  lemma GapRemains(s: Snap, s': Snap, w: View, tx: Tx, later: Tx, now: Address -> Time, after: Address -> Time, results: seq<Outcome>,
                   b: Batch, c: Course, x: Account, y: Account, m: Items)
    requires x == Account(map[5 := later], map[], 3, 1) && y == Account(map[], map[], 0, 0) && m == map[5 := later][3 := tx]
    requires s.Sound() && Shows(Head(3), s.lists, x, y) && s.locals == {} && |s.all| == 1 && tx == Transfer(1, 3) && later == Transfer(1, 5)
    requires BatchDone(Settings(64), Head(3), 1, s, s', [Free(1, 4), tx], false, now, results, b)
    requires Resumed(Settings(64), Head(3), s'.locals, s'.lists, w, after, c)
    ensures At(w.pending, 1).Keys == {3, 5} && NextNonce(Head(3), w.nonces, 1) == 6 && !Contiguous(w.pending, Head(3), w.nonces)
  {
    OneReturns(s, s', tx, now, results, b, x, y, m);
    WithGap(m, tx, later);
    assert Vacant(s'.lists, 2);
    Settled(Settings(64), Head(3), s'.lists, w, after, c, Account(m, map[], 4, now(1)), y);
    assert !GaplessAt(w.pending, Head(3), w.nonces, 1);
  }

  /**
   A reorganisation takes account 1 from nonce 5 back to nonce 3. The transaction of nonce 3 comes
   back and that of nonce 4 does not, as it is too cheap: the pending list has a gap and the
   pending nonce lies behind it.
   */
  method GapAfterReset() returns (pool: TxPool)
    ensures pool.Inv() && !pool.Gapless() && pool.chain.Nonce(1) == 3
    ensures At(pool.pending, 1).Keys == {3, 5} && NextNonce(pool.chain, pool.nonces, 1) == 6
  {
    var blocks, tx, later := Branches(), Transfer(1, 3), Transfer(1, 5);
    pool := SixthPending(later);
    ghost var s := pool.Rewound();
    BranchesDrop(blocks);
    ghost var txs, rs, b, known, back, c := pool.Reset(blocks, Some(91), 92, Some(Head(3)), AtOnce(2), AtOnce(3));
    GapRemains(s, Snap(known, pool.locals, back), pool.Current(), tx, later, AtOnce(2), AtOnce(3), rs, b, c,
               Account(map[5 := later], map[], 3, 1), Account(map[], map[], 0, 0), map[5 := later][3 := tx]);
  }
}
