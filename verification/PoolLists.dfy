/** The per-account lists of the transaction pool, pending or queued, as values. */
module PoolLists {
  import opened Transactions

  type Lists = map<Address, Items>

  function At(lists: Lists, a: Address): Items {
    if a in lists then lists[a] else map[]
  }

  /** Stores an account's list; empty lists are not kept. */
  function Put(lists: Lists, a: Address, m: Items): Lists {
    if m == map[] then lists - {a} else lists[a := m]
  }

  lemma PutAt(lists: Lists, a: Address, m: Items, b: Address)
    ensures At(Put(lists, a, m), b) == if b == a then m else At(lists, b)
  {
  }

  predicate Proper(m: Items, a: Address) {
    forall n | n in m :: m[n].nonce == n && m[n].from == a
  }

  predicate WellKept(lists: Lists) {
    forall a | a in lists :: lists[a] != map[] && Proper(lists[a], a)
  }

  predicate Stored(lists: Lists, a: Address) {
    a in lists ==> lists[a] != map[]
  }

  predicate Listed(lists: Lists, tx: Tx) {
    Holds(At(lists, tx.from), tx)
  }

  /** The known transactions are exactly those of the two lists, which overlap nowhere. */
  ghost predicate Partition(pending: Lists, queue: Lists, all: set<Tx>) {
    forall a {:trigger Divided(pending, queue, all, a)} :: Divided(pending, queue, all, a)
  }

  /** The known transactions of an account are exactly those of its two lists, which share no nonce; no stored list is empty. */
  ghost predicate Divided(pending: Lists, queue: Lists, all: set<Tx>, a: Address) {
    && Stored(pending, a) && Stored(queue, a)
    && Proper(At(pending, a), a) && Proper(At(queue, a), a) && At(pending, a).Keys !! At(queue, a).Keys
    && forall tx: Tx {:trigger tx in all} | tx.from == a :: tx in all <==> Holds(At(pending, a), tx) || Holds(At(queue, a), tx)
  }

  lemma BothKept(pending: Lists, queue: Lists, all: set<Tx>)
    requires Partition(pending, queue, all)
    ensures WellKept(pending) && WellKept(queue)
  {
    forall a ensures a in pending ==> pending[a] != map[] && Proper(pending[a], a) {
      assert Divided(pending, queue, all, a);
    }
    forall a ensures a in queue ==> queue[a] != map[] && Proper(queue[a], a) {
      assert Divided(pending, queue, all, a);
    }
  }

  /** `after` is `before` with the transactions of account `a` replaced by those of `p` and `q`. */
  ghost predicate Swapped(before: set<Tx>, after: set<Tx>, a: Address, p: Items, q: Items) {
    forall tx {:trigger tx in after} ::
      tx in after <==> if tx.from == a then Holds(p, tx) || Holds(q, tx) else tx in before
  }

  /** Rewriting the two lists of one account. */
  lemma Reassign(pending: Lists, queue: Lists, all: set<Tx>, a: Address, p: Items, q: Items, all': set<Tx>)
    requires Partition(pending, queue, all) && Proper(p, a) && Proper(q, a) && p.Keys !! q.Keys
    requires Swapped(all, all', a, p, q)
    ensures Partition(Put(pending, a, p), Put(queue, a, q), all')
  {
    var pending', queue' := Put(pending, a, p), Put(queue, a, q);
    forall b ensures Divided(pending', queue', all', b) {
      PutAt(pending, a, p, b);
      PutAt(queue, a, q, b);
      assert Divided(pending, queue, all, b);
    }
  }

  /** An account's transactions are those of its two lists. */
  lemma OwnTxs(pending: Lists, queue: Lists, all: set<Tx>, a: Address)
    requires Partition(pending, queue, all)
    ensures forall tx: Tx | tx.from == a :: tx in all <==> Holds(At(pending, a), tx) || Holds(At(queue, a), tx)
    ensures Proper(At(pending, a), a) && Proper(At(queue, a), a) && At(pending, a).Keys !! At(queue, a).Keys
    ensures Stored(pending, a) && Stored(queue, a)
  {
    assert Divided(pending, queue, all, a);
  }

  lemma PutSame(lists: Lists, a: Address)
    requires Stored(lists, a)
    ensures Put(lists, a, At(lists, a)) == lists
  {
  }

  lemma PutPut(lists: Lists, a: Address, m: Items, m': Items)
    ensures Put(Put(lists, a, m), a, m') == Put(lists, a, m')
    ensures m' != map[] ==> Put(lists, a, m)[a := m'] == Put(lists, a, m')
  {
  }

  /** `lists` is `before` with all of `m` but `rest` added to the list of account `a`. */
  ghost predicate Moved(before: Lists, lists: Lists, a: Address, m: Items, rest: Items) {
    rest.Keys <= m.Keys && lists == Put(before, a, At(before, a) + (m - rest.Keys))
  }

  lemma MovedNone(before: Lists, a: Address, m: Items)
    requires Stored(before, a)
    ensures Moved(before, before, a, m, m)
  {
    PutSame(before, a);
    assert At(before, a) + (m - m.Keys) == At(before, a);
  }

  lemma MovedOne(before: Lists, lists: Lists, a: Address, m: Items, rest: Items, n: nat)
    requires Moved(before, lists, a, m, rest) && n in rest && m.Keys !! At(before, a).Keys
    ensures n !in At(lists, a) && Moved(before, Put(lists, a, At(lists, a)[n := m[n]]), a, m, rest - {n})
  {
    var q := At(before, a);
    var now, then_ := q + (m - rest.Keys), q + (m - (rest - {n}).Keys);
    assert now[n := m[n]] == then_;
    PutAt(before, a, now, a);
    PutPut(before, a, now, then_);
  }

  lemma MovedAll(before: Lists, lists: Lists, a: Address, m: Items)
    requires Moved(before, lists, a, m, map[])
    ensures lists == Put(before, a, At(before, a) + m)
  {
    var none: Items := map[];
    assert m - none.Keys == m;
  }

  /** `rest` holds the highest nonces of `m`. */
  ghost predicate Suffix(m: Items, rest: Items) {
    rest.Keys <= m.Keys && forall n, k | n in m && n !in rest && k in rest :: n < k
  }

  /** The pending nonces once account `a` was promoted through the nonces of `m`. */
  function Behind(nonces: map<Address, nat>, a: Address, m: Items): map<Address, nat> {
    if m == map[] then nonces else nonces[a := Greatest(m) + 1]
  }

  /** `now` are the pending nonces once all of `m` but `rest` was promoted. */
  ghost predicate Advanced(before: map<Address, nat>, now: map<Address, nat>, a: Address, m: Items, rest: Items) {
    Suffix(m, rest) && now == Behind(before, a, m - rest.Keys)
  }

  lemma AdvancedNone(before: map<Address, nat>, a: Address, m: Items)
    ensures Advanced(before, before, a, m, m)
  {
    assert m - m.Keys == map[];
  }

  lemma AdvancedOne(before: map<Address, nat>, now: map<Address, nat>, a: Address, m: Items, rest: Items, n: nat)
    requires Advanced(before, now, a, m, rest) && rest != map[] && n == Least(rest)
    ensures Advanced(before, now[a := n + 1], a, m, rest - {n})
  {
    var done := m - (rest - {n}).Keys;
    assert n in done;
    GreatestIs(done, n);
  }

  lemma AdvancedAll(before: map<Address, nat>, now: map<Address, nat>, a: Address, m: Items)
    requires Advanced(before, now, a, m, map[])
    ensures now == Behind(before, a, m)
  {
    var none: Items := map[];
    assert m - none.Keys == m;
  }

  lemma PutOne(lists: Lists, a: Address, m: Items, n: nat, tx: Tx)
    ensures Put(lists, a, m[n := tx]) == lists[a := m[n := tx]]
  {
    assert n in m[n := tx];
  }

  // ---- Rearranging one account -----------------------------------------------------------------------

  /** `p`, `q` and `d` share out the transactions of `p0` and `q0`. */
  ghost predicate Shares(p0: Items, q0: Items, p: Items, q: Items, d: Items) {
    && p.Keys !! q.Keys && p.Keys !! d.Keys && q.Keys !! d.Keys
    && p + q + d == p0 + q0
  }

  ghost predicate Without(before: set<Tx>, after: set<Tx>, d: Items) {
    forall tx {:trigger tx in after} :: tx in after <==> tx in before && !Holds(d, tx)
  }

  /** Moving the transactions of one account between its lists, and forgetting those of `d`. */
  lemma Redistribute(pending: Lists, queue: Lists, all: set<Tx>, a: Address, p: Items, q: Items, d: Items, all': set<Tx>)
    requires Partition(pending, queue, all) && Shares(At(pending, a), At(queue, a), p, q, d) && Without(all, all', d)
    ensures Partition(Put(pending, a, p), Put(queue, a, q), all')
  {
    OwnTxs(pending, queue, all, a);
    SharesHold(At(pending, a), At(queue, a), p, q, d, a);
    forall tx ensures tx in all' <==> if tx.from == a then Holds(p, tx) || Holds(q, tx) else tx in all {
      assert tx in all' <==> tx in all && !Holds(d, tx);
    }
    Reassign(pending, queue, all, a, p, q, all');
  }

  lemma SharesHold(p0: Items, q0: Items, p: Items, q: Items, d: Items, a: Address)
    requires Proper(p0, a) && Proper(q0, a) && p0.Keys !! q0.Keys && Shares(p0, q0, p, q, d)
    ensures Proper(p, a) && Proper(q, a) && Proper(d, a)
    ensures forall tx :: (Holds(p0, tx) || Holds(q0, tx)) && !Holds(d, tx) <==> Holds(p, tx) || Holds(q, tx)
  {
    var old_, now := p0 + q0, p + q + d;
    forall n | n in now ensures now[n].nonce == n && now[n].from == a {
      assert now[n] == old_[n];
    }
    assert forall n | n in p :: now[n] == p[n];
    assert forall n | n in q :: now[n] == q[n];
    assert forall n | n in d :: now[n] == d[n];
    forall tx ensures (Holds(p0, tx) || Holds(q0, tx)) && !Holds(d, tx) <==> Holds(p, tx) || Holds(q, tx) {
      assert Holds(old_, tx) <==> Holds(p0, tx) || Holds(q0, tx);
      assert Holds(now, tx) <==> Holds(p, tx) || Holds(q, tx) || Holds(d, tx);
    }
  }

  // ---- Removing one transaction --------------------------------------------------------------------

  /** The pending lists without `tx` and without the later transactions of its account. */
  function PendingWithout(pending: Lists, tx: Tx): Lists {
    if Listed(pending, tx) then Put(pending, tx.from, Below(At(pending, tx.from), tx.nonce)) else pending
  }

  /** The queue without `tx`, but with the later pending transactions of its account. */
  function QueueWithout(pending: Lists, queue: Lists, tx: Tx): Lists {
    if Listed(pending, tx) then
      Put(queue, tx.from, At(queue, tx.from) + From(At(pending, tx.from), tx.nonce + 1))
    else if Listed(queue, tx) then Put(queue, tx.from, At(queue, tx.from) - {tx.nonce})
    else queue
  }

  /** Which list holds a known transaction can be told from its nonce. */
  lemma FoundByNonce(pending: Lists, queue: Lists, all: set<Tx>, tx: Tx)
    requires Partition(pending, queue, all) && tx in all
    ensures tx.nonce in At(pending, tx.from) <==> Listed(pending, tx)
    ensures tx.nonce in At(queue, tx.from) <==> Listed(queue, tx)
    ensures Listed(pending, tx) <==> !Listed(queue, tx)
  {
    OwnTxs(pending, queue, all, tx.from);
  }

  lemma UnknownUnlisted(pending: Lists, queue: Lists, all: set<Tx>, tx: Tx)
    requires Partition(pending, queue, all) && tx !in all
    ensures !Listed(pending, tx) && !Listed(queue, tx)
  {
    OwnTxs(pending, queue, all, tx.from);
  }

  lemma Removal(pending: Lists, queue: Lists, all: set<Tx>, tx: Tx)
    requires Partition(pending, queue, all)
    ensures Partition(PendingWithout(pending, tx), QueueWithout(pending, queue, tx), all - {tx})
  {
    if tx in all {
      KnownRemoval(pending, queue, all, tx);
    } else {
      UnknownUnlisted(pending, queue, all, tx);
      assert all - {tx} == all;
    }
  }

  lemma KnownRemoval(pending: Lists, queue: Lists, all: set<Tx>, tx: Tx)
    requires Partition(pending, queue, all) && tx in all
    ensures Partition(PendingWithout(pending, tx), QueueWithout(pending, queue, tx), all - {tx})
  {
    FoundByNonce(pending, queue, all, tx);
    WithoutIs(pending, queue, tx);
    if Listed(pending, tx) {
      var p, q := At(pending, tx.from), At(queue, tx.from);
      RemovePending(pending, queue, all, tx, Below(p, tx.nonce), q + From(p, tx.nonce + 1));
    } else {
      RemoveQueued(pending, queue, all, tx);
    }
  }

  lemma WithoutIs(pending: Lists, queue: Lists, tx: Tx)
    requires Listed(pending, tx) || Listed(queue, tx)
    ensures var p, q := At(pending, tx.from), At(queue, tx.from);
            if Listed(pending, tx)
            then PendingWithout(pending, tx) == Put(pending, tx.from, Below(p, tx.nonce))
                 && QueueWithout(pending, queue, tx) == Put(queue, tx.from, q + From(p, tx.nonce + 1))
            else PendingWithout(pending, tx) == pending
                 && QueueWithout(pending, queue, tx) == Put(queue, tx.from, q - {tx.nonce})
  {
  }

  /** What has to be done to remove a pending transaction. */
  lemma RemovalSteps(pending: Lists, queue: Lists, tx: Tx, later: Items)
    requires Proper(At(pending, tx.from), tx.from) && Listed(pending, tx) && At(pending, tx.from).Keys !! At(queue, tx.from).Keys
    requires later == From(At(pending, tx.from), tx.nonce + 1)
    ensures PendingWithout(pending, tx) == Put(pending, tx.from, Below(At(pending, tx.from), tx.nonce))
    ensures QueueWithout(pending, queue, tx) == Put(queue, tx.from, At(queue, tx.from) + later)
    ensures Proper(later, tx.from) && later.Keys !! At(queue, tx.from).Keys
    ensures forall t | Holds(later, t) :: Holds(At(pending, tx.from), t) && t != tx
  {
  }

  lemma RemovePending(pending: Lists, queue: Lists, all: set<Tx>, tx: Tx, p': Items, q': Items)
    requires Partition(pending, queue, all) && Listed(pending, tx)
    requires p' == Below(At(pending, tx.from), tx.nonce)
    requires q' == At(queue, tx.from) + From(At(pending, tx.from), tx.nonce + 1)
    ensures Partition(Put(pending, tx.from, p'), Put(queue, tx.from, q'), all - {tx})
  {
    var p, q := At(pending, tx.from), At(queue, tx.from);
    OwnTxs(pending, queue, all, tx.from);
    CutShares(p, q, tx);
    Redistribute(pending, queue, all, tx.from, p', q', map[tx.nonce := tx], all - {tx});
  }

  lemma CutShares(p: Items, q: Items, tx: Tx)
    requires Holds(p, tx) && p.Keys !! q.Keys
    ensures Shares(p, q, Below(p, tx.nonce), q + From(p, tx.nonce + 1), map[tx.nonce := tx])
  {
  }

  lemma RemoveQueued(pending: Lists, queue: Lists, all: set<Tx>, tx: Tx)
    requires Partition(pending, queue, all) && Listed(queue, tx)
    ensures Partition(pending, Put(queue, tx.from, At(queue, tx.from) - {tx.nonce}), all - {tx})
  {
    var p, q := At(pending, tx.from), At(queue, tx.from);
    OwnTxs(pending, queue, all, tx.from);
    assert Shares(p, q, p, q - {tx.nonce}, map[tx.nonce := tx]);
    Redistribute(pending, queue, all, tx.from, p, q - {tx.nonce}, map[tx.nonce := tx], all - {tx});
    PutSame(pending, tx.from);
  }

  // ---- Sizes ---------------------------------------------------------------------------------------

  lemma Smaller<K, V>(m: map<K, V>, k: K)
    requires k in m
    ensures |m - {k}| == |m| - 1
  {
    assert m.Keys == (m - {k}).Keys + {k};
  }

  lemma Commute<K, V>(m: map<K, V>, j: K, k: K)
    ensures m - {j} - {k} == m - {k} - {j}
  {
  }

  lemma Overwrite<K, V>(m: map<K, V>, k: K, v: V, w: V)
    ensures m[k := v][k := w] == m[k := w]
  {
  }

  lemma PutBack<K, V>(m: map<K, V>, k: K, v: V)
    ensures m[k := v] - {k} == m - {k} && (k !in m ==> m - {k} == m)
  {
  }

  method Pick<T>(s: set<T>) returns (x: T)
    requires s != {}
    ensures x in s
  {
    x :| x in s;
  }

  ghost function SomeKey<K, V>(m: map<K, V>): (k: K)
    requires m != map[]
    ensures k in m
  {
    var k :| k in m;
    k
  }

  /** The number of transactions on all lists. */
  ghost function Size(lists: Lists): nat
    decreases |lists|
  {
    if lists == map[] then 0
    else
      var a := SomeKey(lists);
      Smaller(lists, a);
      |lists[a]| + Size(lists - {a})
  }

  lemma {:induction false} SizeWithout(lists: Lists, a: Address)
    requires a in lists
    ensures Size(lists) == |lists[a]| + Size(lists - {a})
    decreases |lists|
  {
    var b := SomeKey(lists);
    Smaller(lists, a);
    Smaller(lists, b);
    if b != a {
      SizeWithout(lists - {b}, a);
      SizeWithout(lists - {a}, b);
      Commute(lists, a, b);
    }
  }

  lemma SizePut(lists: Lists, a: Address, m: Items)
    ensures Size(Put(lists, a, m)) == Size(lists) - |At(lists, a)| + |m|
  {
    PutBack(lists, a, m);
    if a in lists {
      SizeWithout(lists, a);
    }
    if m != map[] {
      SizeWithout(lists[a := m], a);
    }
  }

  function TxsOf(m: Items): set<Tx> {
    set n | n in m :: m[n]
  }

  lemma TxsHeld(m: Items, tx: Tx)
    requires ByNonce(m)
    ensures tx in TxsOf(m) <==> Holds(m, tx)
  {
  }

  lemma {:induction false} CountTxs(m: Items)
    requires ByNonce(m)
    ensures |TxsOf(m)| == |m|
    decreases |m|
  {
    if m != map[] {
      var n := SomeKey(m);
      var rest := m - {n};
      Smaller(m, n);
      CountTxs(rest);
      forall tx ensures tx in TxsOf(m) <==> tx in TxsOf(rest) + {m[n]} {
        TxsHeld(m, tx);
        TxsHeld(rest, tx);
      }
      assert TxsOf(m) == TxsOf(rest) + {m[n]};
      TxsHeld(rest, m[n]);
    }
  }

  lemma Mirrored(pending: Lists, queue: Lists, all: set<Tx>)
    requires Partition(pending, queue, all)
    ensures Partition(queue, pending, all)
  {
    forall a ensures Divided(queue, pending, all, a) {
      assert Divided(pending, queue, all, a);
    }
  }

  lemma ForgetList(pending: Lists, queue: Lists, all: set<Tx>, a: Address, m: Items)
    requires Partition(pending, queue, all) && a in pending && m == pending[a]
    ensures Partition(pending - {a}, queue, all - TxsOf(m)) && |all - TxsOf(m)| == |all| - |m|
  {
    var q, none, ts := At(queue, a), map[], TxsOf(m);
    OwnTxs(pending, queue, all, a);
    KeepsOne(m, q);
    forall tx ensures (tx in ts <==> Holds(m, tx)) && (tx in ts ==> tx in all) {
      TxsHeld(m, tx);
    }
    Redistribute(pending, queue, all, a, none, q, m, all - ts);
    PutSame(queue, a);
    CountTxs(m);
    assert |all| == |ts| + |all - ts| by {
      assert all == ts + (all - ts);
    }
  }

  lemma KeepsOne(m: Items, q: Items)
    requires m.Keys !! q.Keys
    ensures Shares(m, q, map[], q, m)
  {
  }

  /** There are as many known transactions as the lists are long together. */
  lemma {:induction false} PartitionSize(pending: Lists, queue: Lists, all: set<Tx>)
    requires Partition(pending, queue, all)
    ensures |all| == Size(pending) + Size(queue)
    decreases |pending| + |queue|
  {
    if pending != map[] {
      var a := SomeKey(pending);
      Smaller(pending, a);
      ForgetList(pending, queue, all, a, pending[a]);
      PartitionSize(pending - {a}, queue, all - TxsOf(pending[a]));
      SizeWithout(pending, a);
    } else if queue != map[] {
      var a := SomeKey(queue);
      Smaller(queue, a);
      Mirrored(pending, queue, all);
      ForgetList(queue, pending, all, a, queue[a]);
      Mirrored(queue - {a}, pending, all - TxsOf(queue[a]));
      PartitionSize(pending, queue - {a}, all - TxsOf(queue[a]));
      SizeWithout(queue, a);
    } else {
      assert all == {} by {
        forall tx ensures tx !in all {
          OwnTxs(pending, queue, all, tx.from);
        }
      }
    }
  }
}
