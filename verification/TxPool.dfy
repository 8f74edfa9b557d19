/**
 The transaction pool. Account lists are values; the operations on them are the functions
 that the list classes are proved to compute.
 */
module TxPool {
  import opened Transactions
  import opened Prelude
  import opened PoolLists
  import opened PoolRules
  import opened FairShare
  import opened QueueCap
  import opened Promotion
  import opened Admission
  import opened TxPriced
  import Reinjection

  class TxPool {
    const config: Config
    const priced: TxPricedList
    var pending: Lists
    var queue: Lists
    var all: set<Tx>
    var locals: set<Address>
    var nonces: map<Address, nat>
    var beats: map<Address, Time>
    var chain: Chain
    var gasPrice: nat

    /**
     Every pooled transaction is on exactly one list and has an entry in the price heap; exactly
     the accounts with pending transactions have a heartbeat; above its capacity the pool holds
     at most one remote transaction, with one entry.
     */
    ghost predicate Inv()
      reads this, priced
    {
      && config.Sane() && Partition(pending, queue, all) && priced.Tracks(all) && Paced(pending, beats)
      && Roomy(all, priced.items, locals, config.Capacity())
    }

    ghost predicate Core()
      reads this, priced
    {
      config.Sane() && Partition(pending, queue, all) && priced.Tracks(all) && Paced(pending, beats)
    }

    ghost function Current(): View
      reads this
    {
      View(pending, queue, nonces, beats)
    }

    ghost predicate Gapless()
      reads this
    {
      Contiguous(pending, chain, nonces)
    }

    constructor (settings: Config, locals: set<Address>, chain: Chain)
      ensures Inv() && Gapless() && fresh(priced) && this.chain == chain && this.locals == locals
      ensures config == settings.Sanitize() && gasPrice == config.priceLimit
      ensures pending == map[] && queue == map[] && all == {} && nonces == map[] && beats == map[]
      ensures priced.items == multiset{} && priced.stales == 0
    {
      config := settings.Sanitize();
      priced := new TxPricedList();
      pending, queue, all, nonces := map[], map[], {}, map[];
      beats := map[];
      this.locals, this.chain := locals, chain;
      gasPrice := settings.Sanitize().priceLimit;
    }

    // ---- Single transactions ------------------------------------------------------------------------

    /** Forgets the transactions of `m`. */
    method DropAll(m: Items)
      requires ByNonce(m) && priced.Tracks(all)
      modifies this`all, priced
      ensures priced.Tracks(all) && Keeps(old(priced.items), priced.items, all)
      ensures Without(old(all), all, m) && (m == map[] ==> all == old(all) && unchanged(priced))
    {
      var rest := m;
      while rest != map[]
        invariant rest.Keys <= m.Keys && priced.Tracks(all) && Keeps(old(priced.items), priced.items, all)
        invariant forall tx {:trigger tx in all} ::
                    tx in all <==> tx in old(all) && !(Holds(m, tx) && tx.nonce !in rest)
        invariant m == map[] ==> all == old(all) && unchanged(priced)
        decreases |rest|
      {
        var n :| n in rest;
        all := all - {m[n]};
        priced.Removed(all);
        Smaller(rest, n);
        rest := rest - {n};
      }
    }

    /** Forgets what `tx` pushes out of the list, and makes `tx` known. */
    method Register(list: Items, tx: Tx)
      modifies this`all, priced
      ensures all == old(all) - Replaced(list, tx) + {tx}
      ensures Entered(old(priced.items), priced.items, old(all), all, tx)
      ensures tx.nonce !in list ==>
                if tx in old(all) then unchanged(priced)
                else priced.items == old(priced.items) + multiset{tx} && priced.stales == old(priced.stales)
    {
      if tx.nonce in list {
        all := all - {list[tx.nonce]};
        priced.Removed(all);
      }
      if tx !in all {
        all := all + {tx};
        priced.Put(tx);
      }
    }

    /** Adds to the pending list and moves the pending nonce behind it, or forgets the transaction. */
    method PromoteTx(a: Address, tx: Tx, now: Time) returns (promoted: bool)
      requires priced.Tracks(all)
      modifies this`pending, this`all, this`nonces, this`beats, priced
      ensures priced.Tracks(all) && promoted == Accepts(At(old(pending), a), tx, config.priceBump)
      ensures promoted ==> pending == old(pending)[a := At(old(pending), a)[tx.nonce := tx]]
      ensures promoted ==> all == old(all) - Replaced(At(old(pending), a), tx) + {tx}
      ensures promoted ==> nonces == old(nonces)[a := tx.nonce + 1]
      ensures promoted ==> beats == old(beats)[a := now]
      ensures !promoted ==> pending == old(pending) && all == old(all) - {tx} && nonces == old(nonces) && beats == old(beats)
      ensures tx in old(all) && tx.nonce !in At(old(pending), a) ==> unchanged(priced)
    {
      var list := At(pending, a);
      if !Accepts(list, tx, config.priceBump) {
        all := all - {tx};
        priced.Removed(all);
        return false;
      }
      Register(list, tx);
      pending := pending[a := list[tx.nonce := tx]];
      beats := beats[a := now];
      nonces := nonces[a := tx.nonce + 1];
      return true;
    }

    /** Adds to the queue, unless a queued transaction of the same nonce is too dear. */
    method EnqueueTx(tx: Tx) returns (r: Outcome)
      modifies this`queue, this`all, priced
      ensures r.Added? <==> Accepts(At(old(queue), tx.from), tx, config.priceBump)
      ensures r.Added? ==> r.replaced == (tx.nonce in At(old(queue), tx.from))
      ensures r.Added? ==> queue == old(queue)[tx.from := At(old(queue), tx.from)[tx.nonce := tx]]
      ensures r.Added? ==> all == old(all) - Replaced(At(old(queue), tx.from), tx) + {tx}
      ensures r.Added? ==> Entered(old(priced.items), priced.items, old(all), all, tx)
      ensures r.Added? && tx.nonce !in At(old(queue), tx.from) ==>
                if tx in old(all) then unchanged(priced)
                else priced.items == old(priced.items) + multiset{tx} && priced.stales == old(priced.stales)
      ensures r.Rejected? ==> r.error == ReplaceUnderpriced && queue == old(queue) && all == old(all) && unchanged(priced)
    {
      var list := At(queue, tx.from);
      if !Accepts(list, tx, config.priceBump) {
        return Rejected(ReplaceUnderpriced);
      }
      Register(list, tx);
      queue := queue[tx.from := list[tx.nonce := tx]];
      return Added(tx.nonce in list);
    }

    /** Queues a known transaction of a nonce that the queue does not hold: it cannot be refused. */
    method EnqueueKnown(a: Address, tx: Tx)
      requires tx.from == a && tx in all && tx.nonce !in At(queue, a)
      modifies this`queue, this`all, priced
      ensures queue == Put(old(queue), a, At(old(queue), a)[tx.nonce := tx])
      ensures all == old(all) && unchanged(priced)
    {
      PutOne(queue, a, At(queue, a), tx.nonce, tx);
      var r := EnqueueTx(tx);
      assert r == Added(false);
    }

    /** Queues known transactions of nonces that the queue does not hold. */
    method EnqueueAll(a: Address, m: Items)
      requires Stored(queue, a) && Proper(m, a) && m.Keys !! At(queue, a).Keys
      requires forall tx | Holds(m, tx) :: tx in all
      modifies this`queue, this`all, priced
      ensures queue == Put(old(queue), a, At(old(queue), a) + m)
      ensures all == old(all) && unchanged(priced)
    {
      var rest := m;
      ghost var before := queue;
      MovedNone(queue, a, m);
      while rest != map[]
        invariant Moved(before, queue, a, m, rest)
        invariant all == old(all) && unchanged(priced)
        decreases |rest|
      {
        var n :| n in rest;
        assert Holds(m, m[n]);
        MovedOne(before, queue, a, m, rest, n);
        EnqueueKnown(a, m[n]);
        Smaller(rest, n);
        rest := rest - {n};
      }
      MovedAll(before, queue, a, m);
    }

    /** Promotes a known transaction of a nonce that is not pending: it cannot be refused. */
    method PromoteKnown(a: Address, tx: Tx, now: Time)
      requires tx.from == a && tx in all && tx.nonce !in At(pending, a) && priced.Tracks(all)
      modifies this`pending, this`all, this`nonces, this`beats, priced
      ensures pending == Put(old(pending), a, At(old(pending), a)[tx.nonce := tx])
      ensures nonces == old(nonces)[a := tx.nonce + 1] && beats == old(beats)[a := now]
      ensures all == old(all) && unchanged(priced)
    {
      PutOne(pending, a, At(pending, a), tx.nonce, tx);
      var promoted := PromoteTx(a, tx, now);
      assert promoted;
    }

    /** Promotes known transactions, lowest nonce first. */
    method PromoteAll(a: Address, m: Items, now: Time)
      requires Stored(pending, a) && Proper(m, a) && m.Keys !! At(pending, a).Keys && priced.Tracks(all)
      requires forall tx | Holds(m, tx) :: tx in all
      modifies this`pending, this`all, this`nonces, this`beats, priced
      ensures pending == Put(old(pending), a, At(old(pending), a) + m)
      ensures nonces == Behind(old(nonces), a, m) && beats == Stamped(old(beats), a, m, now)
      ensures all == old(all) && unchanged(priced)
    {
      var rest := m;
      ghost var before, ns, stamps := pending, nonces, beats;
      MovedNone(pending, a, m);
      AdvancedNone(nonces, a, m);
      while rest != map[]
        invariant Moved(before, pending, a, m, rest) && Advanced(ns, nonces, a, m, rest)
        invariant beats == if rest == m then stamps else stamps[a := now]
        invariant all == old(all) && unchanged(priced)
        decreases |rest|
      {
        var n := Least(rest);
        assert Holds(m, m[n]);
        PromoteOne(a, m, rest, n, now, before, ns);
        Overwrite(stamps, a, now, now);
        Smaller(rest, n);
        rest := rest - {n};
      }
      MovedAll(before, pending, a, m);
      AdvancedAll(ns, nonces, a, m);
    }

    method PromoteOne(a: Address, m: Items, rest: Items, n: nat, now: Time, ghost before: Lists, ghost ns: map<Address, nat>)
      requires Moved(before, pending, a, m, rest) && Advanced(ns, nonces, a, m, rest) && m.Keys !! At(before, a).Keys
      requires rest != map[] && n == Least(rest) && n in m && m[n].nonce == n && m[n].from == a && m[n] in all
      requires priced.Tracks(all)
      modifies this`pending, this`all, this`nonces, this`beats, priced
      ensures Moved(before, pending, a, m, rest - {n}) && Advanced(ns, nonces, a, m, rest - {n})
      ensures beats == old(beats)[a := now] && all == old(all) && unchanged(priced)
    {
      MovedOne(before, pending, a, m, rest, n);
      AdvancedOne(ns, nonces, a, m, rest, n);
      PromoteKnown(a, m[n], now);
    }

    /**
     Removes a transaction; if it was pending, the later ones of its account go back to the
     queue. Lists delete by nonce, so that this removes the given transaction and no other
     rests on the two lists being apart.
     */
    method RemoveTx(tx: Tx, outOfBound: bool)
      requires Partition(pending, queue, all)
      modifies this`pending, this`queue, this`all, this`nonces, this`beats, priced
      ensures Partition(pending, queue, all) && all == old(all) - {tx}
      ensures Keeps(old(priced.items), priced.items, all)
      ensures if outOfBound && tx in old(all)
              then Noted(old(priced.items), old(priced.stales), priced.items, priced.stales, all) else unchanged(priced)
      ensures beats == if Listed(old(pending), tx) then Tidied(old(beats), At(pending, tx.from), tx.from) else old(beats)
      ensures pending == PendingWithout(old(pending), tx) && queue == QueueWithout(old(pending), old(queue), tx)
      ensures nonces == if Listed(old(pending), tx) then Lowered(chain, old(nonces), tx.from, tx.nonce) else old(nonces)
      ensures (old(Gapless()) ==> Gapless()) && (old(Paced(pending, beats)) ==> Paced(pending, beats))
    {
      RemovalPaced(pending, beats, tx);
      Removal(pending, queue, all, tx);
      if tx !in all {
        UnknownUnlisted(pending, queue, all, tx);
        return;
      }
      ghost var known := all;
      Forget(tx, outOfBound);
      Unlist(tx, known);
    }

    method Forget(tx: Tx, outOfBound: bool)
      modifies this`all, priced
      ensures all == old(all) - {tx} && Keeps(old(priced.items), priced.items, all)
      ensures if outOfBound then Noted(old(priced.items), old(priced.stales), priced.items, priced.stales, all) else unchanged(priced)
    {
      all := all - {tx};
      if outOfBound {
        priced.Removed(all);
      }
    }

    /** Takes a forgotten transaction off its list. */
    method Unlist(tx: Tx, ghost known: set<Tx>)
      requires Partition(pending, queue, known) && tx in known && all == known - {tx}
      modifies this`pending, this`queue, this`all, this`nonces, this`beats, priced
      ensures all == old(all) && unchanged(priced)
      ensures beats == if Listed(old(pending), tx) then Tidied(old(beats), At(pending, tx.from), tx.from) else old(beats)
      ensures pending == PendingWithout(old(pending), tx) && queue == QueueWithout(old(pending), old(queue), tx)
      ensures nonces == if Listed(old(pending), tx) then Lowered(chain, old(nonces), tx.from, tx.nonce) else old(nonces)
      ensures old(Gapless()) ==> Gapless()
    {
      FoundByNonce(pending, queue, known, tx);
      assert !Listed(pending, tx) ==> tx.from in queue;
      if tx.nonce in At(pending, tx.from) {
        OwnTxs(pending, queue, known, tx.from);
        Unpend(tx);
      } else if tx.from in queue {
        queue := Put(queue, tx.from, queue[tx.from] - {tx.nonce});
      }
    }

    /** Cuts the pending list at a transaction and queues the later ones. */
    method Unpend(tx: Tx)
      requires Proper(At(pending, tx.from), tx.from) && Stored(queue, tx.from) && Listed(pending, tx)
      requires At(pending, tx.from).Keys !! At(queue, tx.from).Keys
      requires forall t | Holds(At(pending, tx.from), t) && t != tx :: t in all
      modifies this`pending, this`queue, this`all, this`nonces, this`beats, priced
      ensures pending == PendingWithout(old(pending), tx) && queue == QueueWithout(old(pending), old(queue), tx)
      ensures nonces == Lowered(chain, old(nonces), tx.from, tx.nonce)
      ensures beats == Tidied(old(beats), At(pending, tx.from), tx.from)
      ensures all == old(all) && unchanged(priced)
      ensures old(Gapless()) ==> Gapless()
    {
      var a := tx.from;
      var list := At(pending, a);
      var later := From(list, tx.nonce + 1);
      RemovalSteps(pending, queue, tx, later);
      if Gapless() {
        CutContiguous(pending, chain, nonces, a, tx.nonce);
      }
      PutAt(pending, a, Below(list, tx.nonce), a);
      CutPending(a, tx.nonce, Below(list, tx.nonce), later);
    }

    method CutPending(a: Address, n: nat, rest: Items, later: Items)
      requires Stored(queue, a) && Proper(later, a) && later.Keys !! At(queue, a).Keys
      requires forall t | Holds(later, t) :: t in all
      modifies this`pending, this`queue, this`all, this`nonces, this`beats, priced
      ensures pending == Put(old(pending), a, rest) && queue == Put(old(queue), a, At(old(queue), a) + later)
      ensures beats == Tidied(old(beats), rest, a) && nonces == Lowered(chain, old(nonces), a, n)
      ensures all == old(all) && unchanged(priced)
    {
      pending := Put(pending, a, rest);
      beats := Tidied(beats, rest, a);
      EnqueueAll(a, later);
      nonces := Lowered(chain, nonces, a, n);
    }

    // ---- Promotion ------------------------------------------------------------------------------------

    /** Moves what became executable from the queue of one account to its pending list. */
    method PromoteAccount(a: Address, now: Time)
      requires Inv()
      modifies this`pending, this`queue, this`all, this`nonces, this`beats, priced
      ensures Inv() && (old(Gapless()) ==> Gapless()) && all <= old(all)
      ensures Current() == PromoteIn(chain, locals, config.accountQueue, old(Current()), now, a)
      ensures all == old(all) ==> unchanged(priced)
    {
      if a in queue {
        ghost var known, entries := all, priced.items;
        PromoteQueued(a, now);
        RoomyShrinks(known, entries, all, priced.items, locals, config.Capacity());
      } else {
        OwnTxs(pending, queue, all, a);
        NothingQueued(chain, nonces, queue, a, locals, config.accountQueue);
        PutNothing(pending, queue, a);
      }
    }

    method PromoteQueued(a: Address, now: Time)
      requires Core() && a in queue
      modifies this`pending, this`queue, this`all, this`nonces, this`beats, priced
      ensures Core() && (old(Gapless()) ==> Gapless())
      ensures Fewer(old(all), old(priced.items), all, priced.items)
      ensures Current() == PromoteIn(chain, locals, config.accountQueue, old(Current()), now, a)
      ensures all == old(all) ==> unchanged(priced)
    {
      ghost var known, entries := all, priced.items;
      var rest := Advance(a, now);
      ghost var known', entries' := all, priced.items;
      Requeue(a, rest);
      FewerTwice(known, entries, known', entries', all, priced.items);
    }

    /** Promotes what is ready in the queue of an account; `rest` is what it may still keep. */
    method Advance(a: Address, now: Time) returns (rest: Items)
      requires Core() && a in queue
      modifies this`pending, this`all, this`nonces, this`beats, priced
      ensures rest == Live(chain, At(queue, a), a) - Promotable(chain, old(nonces), queue, a).Keys
      ensures pending == Put(old(pending), a, At(old(pending), a) + Promotable(chain, old(nonces), queue, a))
      ensures nonces == Behind(old(nonces), a, Promotable(chain, old(nonces), queue, a))
      ensures beats == Stamped(old(beats), a, Promotable(chain, old(nonces), queue, a), now)
      ensures Partition(pending, Put(queue, a, rest), all) && priced.Tracks(all) && Paced(pending, beats)
      ensures Fewer(old(all), old(priced.items), all, priced.items) && (all == old(all) ==> unchanged(priced))
      ensures old(Gapless()) ==> Gapless()
    {
      ghost var known := all;
      StaysGapless(pending, queue, all, chain, nonces, a);
      var live, ready := Extract(a);
      AdvancePartition(pending, queue, a, live, ready, known, all);
      StampedPaced(pending, beats, a, ready, now);
      PromoteAll(a, ready, now);
      rest := live - ready.Keys;
    }

    /** Takes the live and the ready transactions of a queued account. */
    method Extract(a: Address) returns (live: Items, ready: Items)
      requires Core() && a in queue
      modifies this`all, priced
      ensures live == Live(chain, At(queue, a), a) && ready == Promotable(chain, nonces, queue, a)
      ensures Part(live, At(queue, a)) && Part(ready, live) && Without(old(all), all, At(queue, a) - live.Keys)
      ensures Stored(pending, a) && Proper(ready, a) && ready.Keys !! At(pending, a).Keys && forall tx | Holds(ready, tx) :: tx in all
      ensures priced.Tracks(all) && Fewer(old(all), old(priced.items), all, priced.items) && (all == old(all) ==> unchanged(priced))
    {
      OwnTxs(pending, queue, all, a);
      live := Sift(a, queue[a]);
      ready := Ready(live, NextNonce(chain, nonces, a));
      SiftParts(chain, queue[a], a);
      ReadyIsLive(live, NextNonce(chain, nonces, a));
    }

    /** Drops what is too old or too costly. */
    method Sift(a: Address, list: Items) returns (live: Items)
      requires Proper(list, a) && priced.Tracks(all) && forall n | n in list :: list[n] in all
      modifies this`all, priced
      ensures live == Live(chain, list, a) && priced.Tracks(all) && Without(old(all), all, list - live.Keys)
      ensures Fewer(old(all), old(priced.items), all, priced.items) && (all == old(all) ==> unchanged(priced))
    {
      ghost var known := all;
      live := Live(chain, list, a);
      SiftParts(chain, list, a);
      if live == list {
        SiftNothing(chain, list, a);
      }
      DropAll(Below(list, chain.Nonce(a)));
      DropAll(Unpayable(From(list, chain.Nonce(a)), chain.Balance(a), chain.maxGas));
      if all == known {
        NothingForgotten(all, list, live);
      }
    }

    /** Drops what a remote account queues over its limit, and an empty list altogether. */
    method Requeue(a: Address, list: Items)
      requires Partition(pending, Put(queue, a, list), all) && priced.Tracks(all)
      modifies this`queue, this`all, priced
      ensures queue == Put(old(queue), a, Capped(list, a, locals, config.accountQueue))
      ensures Partition(pending, queue, all) && priced.Tracks(all)
      ensures Fewer(old(all), old(priced.items), all, priced.items) && (all == old(all) ==> unchanged(priced))
    {
      ghost var known := all;
      var kept := Capped(list, a, locals, config.accountQueue);
      CappedPart(list, a, locals, config.accountQueue);
      QueuedOwn(pending, queue, all, a, list, kept);
      DropAll(list - kept.Keys);
      RequeuePartition(pending, queue, a, list, kept, known, all);
      queue := Put(queue, a, kept);
    }

    // ---- Demotion -------------------------------------------------------------------------------------

    /** Drops what is too old or too costly of one pending list; what it leaves behind a gap is queued. */
    method DemoteAccount(a: Address)
      requires Inv() && a in pending
      modifies this`pending, this`queue, this`all, this`beats, priced
      ensures Inv()
      ensures pending == Put(old(pending), a, Executable(chain, At(old(pending), a), a))
      ensures queue == Put(old(queue), a, At(old(queue), a) + Demoted(chain, At(old(pending), a), a))
    {
      var rest, invalid := SiftPending(a);
      TidiedPaced(pending, beats, a, rest);
      Demote(a, rest, invalid);
    }

    /** Drops what is too old or too costly of one pending list, and splits the rest. */
    method SiftPending(a: Address) returns (rest: Items, invalid: Items)
      requires Inv() && a in pending
      modifies this`all, priced
      ensures rest == Executable(chain, At(pending, a), a) && invalid == Demoted(chain, At(pending, a), a)
      ensures Partition(Put(pending, a, rest), Put(queue, a, At(queue, a) + invalid), all) && priced.Tracks(all)
      ensures Roomy(all, priced.items, locals, config.Capacity())
      ensures Stored(queue, a) && Proper(invalid, a) && invalid.Keys !! At(queue, a).Keys && forall tx | Holds(invalid, tx) :: tx in all
    {
      ghost var known, entries := all, priced.items;
      OwnTxs(pending, queue, all, a);
      var live := Sift(a, pending[a]);
      SiftParts(chain, pending[a], a);
      DemotionPartition(chain, pending, queue, a, known, all);
      RoomyShrinks(known, entries, all, priced.items, locals, config.Capacity());
      rest, invalid := SplitPending(chain, pending[a], a);
      DemotionSplit(chain, pending[a], a, live, rest, invalid);
    }

    /** Stores what is left of a pending list and queues what the strict filter invalidated. */
    method Demote(a: Address, rest: Items, invalid: Items)
      requires Stored(queue, a) && Proper(invalid, a) && invalid.Keys !! At(queue, a).Keys
      requires forall tx | Holds(invalid, tx) :: tx in all
      modifies this`pending, this`queue, this`all, this`beats, priced
      ensures pending == Put(old(pending), a, rest) && queue == Put(old(queue), a, At(old(queue), a) + invalid)
      ensures beats == Tidied(old(beats), rest, a) && all == old(all) && unchanged(priced)
    {
      pending := Put(pending, a, rest);
      beats := Tidied(beats, rest, a);
      EnqueueAll(a, invalid);
    }

    /** Demotes every pending account, in any order. */
    method DemoteUnexecutables()
      requires Inv()
      modifies this`pending, this`queue, this`all, this`beats, priced
      ensures Inv() && Demoting(chain, old(pending), old(queue), pending, queue, {})
    {
      ghost var p0, q0 := pending, queue;
      var todo := pending.Keys;
      NoneDemoted(chain, pending, queue);
      while todo != {}
        invariant Inv() && Demoting(chain, p0, q0, pending, queue, todo)
        invariant todo <= pending.Keys
        decreases |todo|
      {
        var a := Pick(todo);
        DemotedOne(chain, p0, q0, pending, queue, todo, a);
        DemoteAccount(a);
        todo := todo - {a};
      }
    }

    /** Moves the pending nonces behind the pending lists. */
    method SyncNonces()
      requires WellKept(pending)
      modifies this`nonces
      ensures nonces == old(nonces) + Ends(pending)
    {
      ghost var ns := nonces;
      var todo := pending.Keys;
      NoneExtended(ns, pending);
      while todo != {}
        invariant todo <= pending.Keys && Extended(ns, pending, nonces, todo)
        decreases |todo|
      {
        var a := Pick(todo);
        ExtendedNext(ns, pending, nonces, todo, a);
        nonces := nonces[a := Greatest(pending[a]) + 1];
        todo := todo - {a};
      }
      AllExtended(ns, pending, nonces);
    }

    // ---- Equalising the pending lists -----------------------------------------------------------------

    /** Drops the last pending transaction of an account. */
    method CapOne(a: Address)
      requires Inv() && a in pending && |pending[a]| > 1
      modifies this`pending, this`all, this`nonces, priced
      ensures Inv() && (old(Gapless()) ==> Gapless())
      ensures pending == Put(old(pending), a, Lowest(old(pending)[a], |old(pending)[a]| - 1))
      ensures NoHigher(chain, old(nonces), nonces)
    {
      ghost var known, entries := all, priced.items;
      CapLast(a);
      RoomyShrinks(known, entries, all, priced.items, locals, config.Capacity());
    }

    method CapLast(a: Address)
      requires Core() && a in pending && |pending[a]| > 1
      modifies this`pending, this`all, this`nonces, priced
      ensures Core() && (old(Gapless()) ==> Gapless())
      ensures pending == Put(old(pending), a, Lowest(old(pending)[a], |old(pending)[a]| - 1))
      ensures NoHigher(chain, old(nonces), nonces) && all <= old(all) && Keeps(old(priced.items), priced.items, all)
    {
      var list := pending[a];
      var last := Greatest(list);
      CapPartition(pending, queue, all, a, list, last);
      if Gapless() {
        CapContiguous(pending, chain, nonces, a, list, last);
      }
      LoweredNoHigher(chain, nonces, a, last);
      assert |Lowest(list, |list| - 1)| > 0;
      TidiedPaced(pending, beats, a, Lowest(list, |list| - 1));
      Shorten(a, list, last);
    }

    method Shorten(a: Address, list: Items, last: nat)
      requires last in list && |list| > 0
      modifies this`pending, this`all, this`nonces, priced
      ensures pending == Put(old(pending), a, Lowest(list, |list| - 1)) && nonces == Lowered(chain, old(nonces), a, last)
      ensures all == old(all) - {list[last]} && Keeps(old(priced.items), priced.items, all)
    {
      Forget(list[last], true);
      nonces := Lowered(chain, nonces, a, last);
      pending := Put(pending, a, Lowest(list, |list| - 1));
    }

    /** Cuts the next offender of a round. */
    method CutOne(offenders: seq<Address>, i: nat, count: nat, ghost lists: Lists, ghost level: nat) returns (left: nat)
      requires Inv() && level > 1 && i < |offenders| && Leading(lists, locals, offenders, level, level - 1)
      requires pending == Mixed(lists, locals, level, Elements(offenders[..i])) && count == Size(pending)
      modifies this`pending, this`all, this`nonces, priced
      ensures Inv() && (old(Gapless()) ==> Gapless())
      ensures pending == Mixed(lists, locals, level, Elements(offenders[..i + 1])) && left == Size(pending)
      ensures NoHigher(chain, old(nonces), nonces)
    {
      ghost var p := pending;
      CutNext(lists, locals, level, offenders, i);
      SizePut(p, offenders[i], Lowest(p[offenders[i]], level - 1));
      CapOne(offenders[i]);
      left := count - 1;
    }

    /** Cuts every offender by one: the common level drops by one. */
    method CutRound(offenders: seq<Address>, count: nat, ghost lists: Lists, ghost level: nat, ghost lower: nat)
      returns (left: nat)
      requires Inv() && pending == Levelled(lists, locals, level) && count == Size(pending)
      requires level == lower + 1 && lower > 0 && Leading(lists, locals, offenders, level, lower)
      modifies this`pending, this`all, this`nonces, priced
      ensures Inv() && (old(Gapless()) ==> Gapless())
      ensures pending == Levelled(lists, locals, lower) && left == Size(pending)
      ensures NoHigher(chain, old(nonces), nonces)
    {
      left := count;
      MixedNone(lists, locals, level);
      for i := 0 to |offenders|
        invariant Inv() && (old(Gapless()) ==> Gapless()) && NoHigher(chain, old(nonces), nonces)
        invariant pending == Mixed(lists, locals, level, Elements(offenders[..i])) && left == Size(pending)
      {
        ghost var ns := nonces;
        left := CutOne(offenders, i, left, lists, level);
        NoHigherTwice(chain, old(nonces), ns, nonces);
      }
      CutDone(lists, locals, level, offenders);
    }

    /** One round of offenders that are still above the floor. */
    method CutLevel(offenders: seq<Address>, last: Address, floor: nat, count: nat,
                    ghost lists: Lists, ghost level: nat, ghost reached: nat) returns (left: nat, ghost lower: nat)
      requires Inv() && Watered(lists, locals, pending, reached, config.globalSlots)
      requires count == Size(pending) && count > config.globalSlots
      requires 1 <= floor < reached <= level && Leading(lists, locals, offenders, level, floor) && last in offenders
      modifies this`pending, this`all, this`nonces, priced
      ensures Inv() && (old(Gapless()) ==> Gapless()) && NoHigher(chain, old(nonces), nonces)
      ensures lower == reached - 1 && Watered(lists, locals, pending, lower, config.globalSlots)
      ensures left == Size(pending) && |At(pending, last)| == lower
    {
      lower := reached - 1;
      LevelStep(lists, locals, offenders, level, floor, reached, lower, pending, config.globalSlots, last);
      left := CutRound(offenders, count, lists, reached, lower);
    }

    /** Cuts the offenders round by round until the total fits or they are down to the floor. */
    method CutDown(offenders: seq<Address>, floor: nat, count: nat, ghost lists: Lists, ghost level: nat)
      returns (left: nat, ghost reached: nat)
      requires Inv() && Watered(lists, locals, pending, level, config.globalSlots) && count == Size(pending)
      requires |offenders| > 0 && 1 <= floor <= level && Leading(lists, locals, offenders, level, floor)
      modifies this`pending, this`all, this`nonces, priced
      ensures Inv() && (old(Gapless()) ==> Gapless())
      ensures floor <= reached <= level && Watered(lists, locals, pending, reached, config.globalSlots)
      ensures left == Size(pending) && (left <= config.globalSlots || reached == floor)
      ensures NoHigher(chain, old(nonces), nonces)
    {
      left, reached := count, level;
      var last := offenders[|offenders| - 1];
      LevelOf(lists, locals, offenders, level, last);
      while left > config.globalSlots && |At(pending, last)| > floor
        invariant Inv() && (old(Gapless()) ==> Gapless()) && NoHigher(chain, old(nonces), nonces)
        invariant floor <= reached <= level && Watered(lists, locals, pending, reached, config.globalSlots)
        invariant left == Size(pending) && |At(pending, last)| == reached
        decreases reached
      {
        ghost var ns := nonces;
        left, reached := CutLevel(offenders, last, floor, left, lists, level, reached);
        NoHigherTwice(chain, old(nonces), ns, nonces);
      }
    }

    /**
     Shares out the pending slots. Remote accounts are cut to a common level, the highest one
     at which everything fits, but never below the guaranteed allowance.
     */
    method Equalise() returns (ghost level: nat)
      requires Inv()
      modifies this`pending, this`all, this`nonces, priced
      ensures Inv() && (old(Gapless()) ==> Gapless())
      ensures Fair(old(pending), locals, pending, level, config.accountSlots, config.globalSlots)
      ensures NoHigher(chain, old(nonces), nonces)
      ensures Size(old(pending)) <= config.globalSlots ==>
                pending == old(pending) && nonces == old(nonces) && all == old(all) && unchanged(priced)
    {
      ghost var lists := pending;
      var count := Count(pending);
      level := Brim(config.accountSlots, count);
      Brimming(lists, locals, config.accountSlots, config.globalSlots, count);
      if count <= config.globalSlots {
        return;
      }
      var offenders;
      count, offenders, level := PopOffenders(count, level);
      if count > config.globalSlots {
        ghost var ns := nonces;
        level := CutFinally(count, offenders, lists, level);
        NoHigherTwice(chain, old(nonces), ns, nonces);
      }
    }

    /** Takes up the largest accounts one by one while the total is too much. */
    method PopOffenders(total: nat, ghost brim: nat) returns (count: nat, offenders: seq<Address>, ghost level: nat)
      requires Inv() && total == Size(pending)
      requires Watered(pending, locals, pending, brim, config.globalSlots)
      requires Popping(pending, locals, config.accountSlots, Spammers(pending, locals, config.accountSlots), [], brim, false)
      modifies this`pending, this`all, this`nonces, priced
      ensures Inv() && (old(Gapless()) ==> Gapless()) && NoHigher(chain, old(nonces), nonces)
      ensures Watered(old(pending), locals, pending, level, config.globalSlots) && count == Size(pending) && level > config.accountSlots
      ensures count > config.globalSlots ==>
                && Popping(old(pending), locals, config.accountSlots, map[], offenders, level, false)
                && (offenders == [] ==> pending == old(pending))
    {
      ghost var lists, ns := pending, nonces;
      count, level, offenders := total, brim, [];
      var spammers := Spammers(pending, locals, config.accountSlots);
      while count > config.globalSlots && spammers != map[]
        invariant Inv() && (old(Gapless()) ==> Gapless())
        invariant Popping(lists, locals, config.accountSlots, spammers, offenders, level, count <= config.globalSlots)
        invariant Watered(lists, locals, pending, level, config.globalSlots) && count == Size(pending)
        invariant offenders == [] ==> pending == lists
        invariant NoHigher(chain, ns, nonces)
        decreases |spammers|
      {
        count, spammers, offenders, level := PopOffender(count, spammers, offenders, lists, level, ns);
      }
    }

    /** Cuts all offenders to the limit or to the guaranteed allowance. */
    method CutFinally(count: nat, offenders: seq<Address>, ghost lists: Lists, ghost level: nat) returns (ghost reached: nat)
      requires Inv() && count == Size(pending) && count > config.globalSlots
      requires Watered(lists, locals, pending, level, config.globalSlots) && level > config.accountSlots
      requires Popping(lists, locals, config.accountSlots, map[], offenders, level, false)
      requires offenders == [] ==> pending == lists
      modifies this`pending, this`all, this`nonces, priced
      ensures Inv() && (old(Gapless()) ==> Gapless()) && NoHigher(chain, old(nonces), nonces)
      ensures Fair(lists, locals, pending, reached, config.accountSlots, config.globalSlots)
    {
      AllPopped(lists, locals, config.accountSlots, offenders, level);
      if |offenders| > 0 {
        var left;
        left, reached := CutDown(offenders, config.accountSlots, count, lists, level);
      } else {
        reached := config.accountSlots;
      }
    }

    /** Takes the largest account not yet considered and cuts the earlier offenders down to its size. */
    method PopOffender(count: nat, spammers: map<Address, nat>, offenders: seq<Address>, ghost lists: Lists, ghost level: nat,
                       ghost ns: map<Address, nat>)
      returns (left: nat, spammers': map<Address, nat>, offenders': seq<Address>, ghost reached: nat)
      requires Inv() && spammers != map[] && count == Size(pending) && count > config.globalSlots
      requires Popping(lists, locals, config.accountSlots, spammers, offenders, level, false)
      requires Watered(lists, locals, pending, level, config.globalSlots) && (offenders == [] ==> pending == lists)
      requires NoHigher(chain, ns, nonces)
      modifies this`pending, this`all, this`nonces, priced
      ensures Inv() && (old(Gapless()) ==> Gapless())
      ensures Popping(lists, locals, config.accountSlots, spammers', offenders', reached, left <= config.globalSlots)
      ensures Watered(lists, locals, pending, reached, config.globalSlots) && left == Size(pending)
      ensures offenders' != [] && |spammers'| < |spammers|
      ensures NoHigher(chain, ns, nonces)
    {
      var a := PopMax(spammers);
      Smaller(spammers, a);
      spammers', offenders' := spammers - {a}, offenders + [a];
      ghost var before := nonces;
      left, reached := Consider(count, spammers, offenders, a, lists, level);
      NoHigherTwice(chain, ns, before, nonces);
    }

    /** The first offender sets the level; from the second one on, the earlier ones are cut down to it. */
    method Consider(count: nat, spammers: map<Address, nat>, offenders: seq<Address>, a: Address, ghost lists: Lists, ghost level: nat)
      returns (left: nat, ghost reached: nat)
      requires Inv() && count == Size(pending) && count > config.globalSlots && Maximal(spammers, a)
      requires Popping(lists, locals, config.accountSlots, spammers, offenders, level, false)
      requires Watered(lists, locals, pending, level, config.globalSlots) && (offenders == [] ==> pending == lists)
      modifies this`pending, this`all, this`nonces, priced
      ensures Inv() && (old(Gapless()) ==> Gapless()) && NoHigher(chain, old(nonces), nonces)
      ensures Popping(lists, locals, config.accountSlots, spammers - {a}, offenders + [a], reached, left <= config.globalSlots)
      ensures Watered(lists, locals, pending, reached, config.globalSlots) && left == Size(pending)
    {
      if |offenders| == 0 {
        left, reached := count, spammers[a];
        FirstPopped(lists, locals, config.accountSlots, spammers, level, a, config.globalSlots);
      } else {
        left, reached := CutToNext(count, spammers, offenders, a, lists, level);
      }
    }

    /** Cuts the offenders down to the size of the next account. */
    method CutToNext(count: nat, ghost spammers: map<Address, nat>, offenders: seq<Address>, a: Address,
                     ghost lists: Lists, ghost level: nat) returns (left: nat, ghost reached: nat)
      requires Inv() && count == Size(pending) && |offenders| > 0 && Maximal(spammers, a)
      requires Popping(lists, locals, config.accountSlots, spammers, offenders, level, false)
      requires Watered(lists, locals, pending, level, config.globalSlots)
      modifies this`pending, this`all, this`nonces, priced
      ensures Inv() && (old(Gapless()) ==> Gapless())
      ensures Popping(lists, locals, config.accountSlots, spammers - {a}, offenders + [a], reached, left <= config.globalSlots)
      ensures Watered(lists, locals, pending, reached, config.globalSlots) && left == Size(pending)
      ensures NoHigher(chain, old(nonces), nonces)
    {
      NextLeads(lists, locals, config.accountSlots, spammers, offenders, level, a);
      UncutAt(lists, locals, level, a);
      left, reached := CutDown(offenders, |At(pending, a)|, count, lists, level);
      NextPopped(lists, locals, config.accountSlots, spammers, offenders, level, a, reached, left <= config.globalSlots);
    }

    // ---- Trimming the queue ---------------------------------------------------------------------------

    /** Removes a queued transaction: nothing else moves. */
    method RemoveFromQueue(tx: Tx)
      requires Inv() && Listed(queue, tx)
      modifies this`pending, this`queue, this`all, this`nonces, this`beats, priced
      ensures Inv() && pending == old(pending) && nonces == old(nonces) && beats == old(beats)
      ensures queue == Put(old(queue), tx.from, At(old(queue), tx.from) - {tx.nonce}) && all == old(all) - {tx}
      ensures Noted(old(priced.items), old(priced.stales), priced.items, priced.stales, all)
    {
      OwnTxs(pending, queue, all, tx.from);
      FoundByNonce(pending, queue, all, tx);
      ghost var known, entries := all, priced.items;
      RemoveTx(tx, true);
      RoomyShrinks(known, entries, all, priced.items, locals, config.Capacity());
    }

    method RemoveQueued(a: Address, list: Items, n: nat, ghost q: Lists)
      requires Inv() && queue == Put(q, a, list) && Proper(list, a) && n in list
      modifies this`pending, this`queue, this`all, this`nonces, this`beats, priced
      ensures Inv() && pending == old(pending) && nonces == old(nonces) && beats == old(beats)
      ensures queue == Put(q, a, list - {n})
      ensures Aged(old(priced.items), old(priced.stales), priced.items, priced.stales, 1)
    {
      PutAt(q, a, list, a);
      PutPut(q, a, list, list - {n});
      RemoveFromQueue(list[n]);
    }

    /** Removes everything an account has queued. */
    method EmptyQueue(a: Address)
      requires Inv() && a in queue
      modifies this`pending, this`queue, this`all, this`nonces, this`beats, priced
      ensures Inv() && pending == old(pending) && nonces == old(nonces) && beats == old(beats)
      ensures queue == Put(old(queue), a, map[])
      ensures Aged(old(priced.items), old(priced.stales), priced.items, priced.stales, |old(queue)[a]|)
    {
      ghost var q, items, stales := queue, priced.items, priced.stales;
      var list := queue[a];
      var rest := list;
      OwnTxs(pending, queue, all, a);
      PutSame(queue, a);
      while rest != map[]
        invariant Inv() && pending == old(pending) && nonces == old(nonces) && beats == old(beats)
        invariant queue == Put(q, a, rest) && Proper(rest, a)
        invariant |rest| <= |list| && Aged(items, stales, priced.items, priced.stales, |list| - |rest|)
        decreases |rest|
      {
        var n := Least(rest);
        RemoveQueued(a, rest, n, q);
        Smaller(rest, n);
        rest := rest - {n};
      }
    }

    /** Removes the last `drop` transactions an account has queued. */
    method DropLast(a: Address, drop: nat)
      requires Inv() && a in queue && drop < |queue[a]|
      modifies this`pending, this`queue, this`all, this`nonces, this`beats, priced
      ensures Inv() && pending == old(pending) && nonces == old(nonces) && beats == old(beats)
      ensures queue == Put(old(queue), a, Lowest(old(queue)[a], |old(queue)[a]| - drop))
    {
      ghost var q := queue;
      var list := queue[a];
      var keep, rest := |list| - drop, list;
      OwnTxs(pending, queue, all, a);
      PutSame(queue, a);
      while |rest| > keep
        invariant Inv() && pending == old(pending) && nonces == old(nonces) && beats == old(beats)
        invariant |rest| >= keep && Lowest(list, keep) == Lowest(rest, keep)
        invariant queue == Put(q, a, rest) && Proper(rest, a)
        decreases |rest|
      {
        LowestNext(list, rest, keep);
        var n := Greatest(rest);
        RemoveQueued(a, rest, n, q);
        rest := rest - {n};
      }
    }

    /**
     Trims the queue to its limit. Accounts lose everything from the end of the order until the
     rest fits; the last one concerned loses just its highest nonces.
     */
    method CapQueue(addresses: seq<Address>) returns (ghost from: nat)
      requires Inv() && Orders(addresses, queue, locals)
      modifies this`pending, this`queue, this`all, this`nonces, this`beats, priced
      ensures Inv() && pending == old(pending) && nonces == old(nonces) && beats == old(beats)
      ensures Trimmed(old(queue), queue, addresses, from)
      ensures Fits(old(queue), queue, locals, config.globalQueue)
      ensures Size(old(queue)) <= config.globalQueue ==> all == old(all) && unchanged(priced)
    {
      ghost var q := queue;
      var count := Count(queue);
      NoneTrimmed(queue, addresses);
      from := |addresses|;
      if count <= config.globalQueue {
        return;
      }
      var drop;
      drop, from := Overflow(addresses, count - config.globalQueue);
      if drop > 0 {
        BothKept(pending, queue, all);
        OnlyLocals(q, queue, locals, addresses);
      }
    }

    /** Drops transactions until the total is down to the limit or no account is left. */
    method Overflow(addresses: seq<Address>, overflow: nat) returns (drop: nat, i: nat)
      requires Inv() && Orders(addresses, queue, locals) && Size(queue) == config.globalQueue + overflow
      modifies this`pending, this`queue, this`all, this`nonces, this`beats, priced
      ensures Inv() && pending == old(pending) && nonces == old(nonces) && beats == old(beats)
      ensures Trimmed(old(queue), queue, addresses, i) && Size(queue) == config.globalQueue + drop
      ensures drop > 0 ==> i == 0 && Emptied(queue, addresses, 0)
    {
      ghost var q := queue;
      BothKept(pending, queue, all);
      NoneTrimmed(queue, addresses);
      drop, i := overflow, |addresses|;
      while drop > 0 && i > 0
        invariant Inv() && pending == old(pending) && nonces == old(nonces) && beats == old(beats)
        invariant Trimmed(q, queue, addresses, i) && Size(queue) == config.globalQueue + drop
        invariant drop > 0 ==> Emptied(queue, addresses, i)
        decreases i
      {
        ghost var next := i;
        i := i - 1;
        drop := CapAccount(addresses, i, next, drop, q);
      }
    }

    /** Takes the overflow out of the last account not yet considered. */
    method CapAccount(addresses: seq<Address>, i: nat, ghost next: nat, drop: nat, ghost q: Lists) returns (left: nat)
      requires Inv() && Orders(addresses, q, locals) && WellKept(q) && next == i + 1 && drop > 0
      requires Trimmed(q, queue, addresses, next) && Emptied(queue, addresses, next)
      requires Size(queue) == config.globalQueue + drop
      modifies this`pending, this`queue, this`all, this`nonces, this`beats, priced
      ensures Inv() && pending == old(pending) && nonces == old(nonces) && beats == old(beats)
      ensures Trimmed(q, queue, addresses, i) && Size(queue) == config.globalQueue + left
      ensures left > 0 ==> Emptied(queue, addresses, i)
    {
      var a := addresses[i];
      assert a in addresses && At(queue, a) == q[a];
      ghost var kept := CutBack(At(queue, a), drop);
      TrimNext(q, queue, addresses, i, next, kept, drop, drop - (|At(queue, a)| - |kept|));
      left := CutQueued(a, drop);
    }

    /** Drops everything an account has queued, or the last few transactions only. */
    method CutQueued(a: Address, drop: nat) returns (left: nat)
      requires Inv() && a in queue
      modifies this`pending, this`queue, this`all, this`nonces, this`beats, priced
      ensures Inv() && pending == old(pending) && nonces == old(nonces) && beats == old(beats)
      ensures queue == Put(old(queue), a, CutBack(old(queue)[a], drop))
      ensures left == drop - (|old(queue)[a]| - |CutBack(old(queue)[a], drop)|)
    {
      var size := |queue[a]|;
      if size <= drop {
        EmptyQueue(a);
        left := drop - size;
      } else {
        DropLast(a, drop);
        left := 0;
      }
    }

    // ---- Promoting everything -------------------------------------------------------------------------

    /** The remote accounts of the queue, the least recently active first. */
    method Remotes() returns (addresses: seq<Address>)
      ensures Orders(addresses, queue, locals) && ByBeat(addresses, beats)
    {
      addresses := [];
      var todo := map a | a in queue && a !in locals :: BeatOf(beats, a);
      while todo != map[]
        invariant forall a | a in todo :: a in queue && a !in locals && todo[a] == BeatOf(beats, a)
        invariant Distinct(addresses) && ByBeat(addresses, beats)
        invariant forall a :: a in addresses <==> a in queue && a !in locals && a !in todo
        invariant forall a, b | a in todo && b in addresses :: todo[a] <= BeatOf(beats, b)
        decreases |todo|
      {
        var a := PopMax(todo);
        OrdersCons(addresses, beats, a);
        Smaller(todo, a);
        addresses, todo := [a] + addresses, todo - {a};
      }
    }

    /** All accounts with queued transactions, in any order. */
    method QueuedAccounts() returns (accounts: seq<Address>)
      ensures forall a :: a in accounts <==> a in queue
    {
      accounts := [];
      var todo := queue.Keys;
      while todo != {}
        invariant todo <= queue.Keys
        invariant forall a :: a in accounts <==> a in queue && a !in todo
        decreases |todo|
      {
        var a := Pick(todo);
        accounts, todo := accounts + [a], todo - {a};
      }
    }

    /** Promotes the accounts one after the other, each as if alone. */
    method PromoteAccounts(accounts: seq<Address>, now: Address -> Time)
      requires Inv()
      modifies this`pending, this`queue, this`all, this`nonces, this`beats, priced
      ensures Inv() && (old(Gapless()) ==> Gapless()) && all <= old(all)
      ensures Promoting(chain, locals, config.accountQueue, old(Current()), Current(), now, accounts)
      ensures all == old(all) ==> unchanged(priced)
    {
      ghost var v, known := Current(), all;
      NonePromoted(chain, locals, config.accountQueue, v, now);
      assert accounts[..0] == [];
      for i := 0 to |accounts|
        invariant Inv() && (old(Gapless()) ==> Gapless()) && all <= known
        invariant Promoting(chain, locals, config.accountQueue, v, Current(), now, accounts[..i])
        invariant all == known ==> unchanged(priced)
      {
        PromoteNext(accounts, i, i + 1, now, v);
      }
      assert accounts[..|accounts|] == accounts;
    }

    method PromoteNext(accounts: seq<Address>, i: nat, ghost next: nat, now: Address -> Time, ghost v: View)
      requires Inv() && next == i + 1 <= |accounts|
      requires Promoting(chain, locals, config.accountQueue, v, Current(), now, accounts[..i])
      modifies this`pending, this`queue, this`all, this`nonces, this`beats, priced
      ensures Inv() && (old(Gapless()) ==> Gapless()) && all <= old(all) && (all == old(all) ==> unchanged(priced))
      ensures Promoting(chain, locals, config.accountQueue, v, Current(), now, accounts[..next])
    {
      PromotedNext(chain, locals, config.accountQueue, v, Current(), now, accounts, i);
      PromoteAccount(accounts[i], now(accounts[i]));
    }

    /**
     Moves what has become executable to the pending lists, then enforces both limits. `mid` are
     the lists in between.
     */
    method PromoteExecutables(accounts: Option<seq<Address>>, now: Address -> Time)
      returns (ghost some: seq<Address>, ghost mid: Snap, ghost level: nat)
      requires Inv()
      modifies this`pending, this`queue, this`all, this`nonces, this`beats, priced
      ensures Inv() && (old(Gapless()) ==> Gapless()) && all <= mid.all <= old(all) && mid.Sound()
      ensures if accounts.Some? then some == accounts.value else forall a :: a in some <==> a in old(queue)
      ensures Promoting(chain, locals, config.accountQueue, old(Current()), mid.lists, now, some) && Grows(old(pending), mid.lists.pending)
      ensures Enforced(config, locals, mid.lists, Current(), level) && WithinLimits()
      ensures forall a | accounts.None? || a in some :: Quiet(chain, nonces, queue, a)
      ensures all == old(all) && Spacious(config, mid.lists) ==> unchanged(priced)
    {
      var list;
      if accounts.Some? {
        list := accounts.value;
      } else {
        list := QueuedAccounts();
      }
      some := list;
      ghost var v, known := Current(), all;
      PromoteAccounts(list, now);
      mid := Snapshot();
      PromotingGrows(chain, locals, config.accountQueue, v, mid.lists, now, some, known);
      level := EnforceLimits();
      forall a | accounts.None? || a in some ensures Quiet(chain, nonces, queue, a) {
        PromotingQuiets(chain, locals, config.accountQueue, v, mid.lists, now, some, a);
        QuietAfter(chain, mid.lists.nonces, mid.lists.queue, nonces, queue, a);
      }
    }

    /** Shares out the pending slots, then trims the queue. */
    method EnforceLimits() returns (ghost level: nat)
      requires Inv()
      modifies this`pending, this`queue, this`all, this`nonces, this`beats, priced
      ensures Inv() && (old(Gapless()) ==> Gapless()) && all <= old(all) && WithinLimits()
      ensures Enforced(config, locals, old(Current()), Current(), level) && NoHigher(chain, old(nonces), nonces)
      ensures Spacious(config, old(Current())) ==> all == old(all) && unchanged(priced)
    {
      ghost var v, known := Current(), all;
      level := Equalise();
      TrimQueue();
      EnforcedBy(config, locals, v, Current(), level);
      EnforcedKnown(config, locals, v, Current(), level, known, all);
    }

    /**
     Trims the queue to its limit. The most recently active accounts go first; the exact
     condition is given under which that is also true of the least recently active ones.
     */
    method TrimQueue()
      requires Inv()
      modifies this`pending, this`queue, this`all, this`nonces, this`beats, priced
      ensures Inv() && pending == old(pending) && nonces == old(nonces) && beats == old(beats) && Shrinks(old(queue), queue)
      ensures Fits(old(queue), queue, locals, config.globalQueue) && LatestFirst(beats, old(queue), queue, locals)
      ensures OldestFirst(beats, old(queue), queue, locals) <==>
                || Size(old(queue)) <= config.globalQueue
                || config.globalQueue <= Size(LocalPart(old(queue), locals))
                || SameBeat(beats, old(queue), locals)
      ensures Size(old(queue)) <= config.globalQueue ==> all == old(all) && unchanged(priced)
    {
      ghost var q := queue;
      BothKept(pending, queue, all);
      var addresses := Remotes();
      ghost var from := CapQueue(addresses);
      BothKept(pending, queue, all);
      TrimmedShrinks(q, queue, locals, addresses, from);
      TrimmedByBeat(beats, q, queue, locals, addresses, from);
      OldestFirstIff(beats, q, queue, locals, addresses, from, config.globalQueue);
    }

    // ---- Adding transactions --------------------------------------------------------------------------

    /** The first rule a transaction breaks, if any. */
    function ValidateTx(tx: Tx, local: bool): (r: Option<Error>)
      reads this
      ensures r.None? <==>
                && chain.Nonce(tx.from) <= tx.nonce && 0 <= tx.value && tx.cost <= chain.Balance(tx.from)
                && tx.intrinsic.Some? && tx.intrinsic.value <= tx.gas <= chain.maxGas
                && tx.signed && tx.size <= 32 * 1024 && (local || tx.from in locals || tx.price >= gasPrice)
      ensures r == Some(NonceTooLow) ==> tx.nonce < chain.Nonce(tx.from)
      ensures r == Some(InsufficientFunds) ==> tx.nonce >= chain.Nonce(tx.from) && tx.cost > chain.Balance(tx.from)
    {
      FirstBroken(chain, gasPrice, locals, tx, local)
    }

    ghost function Snapshot(): Snap
      reads this
    {
      Snap(all, locals, Current())
    }

    /** The same without any pending nonce. */
    ghost function Rewound(): Snap
      reads this
    {
      Snap(all, locals, Current().(nonces := map[]))
    }

    /** Removes transactions that have already left the price heap. */
    method RemoveDropped(drop: seq<Tx>)
      requires config.Sane() && Partition(pending, queue, all) && Paced(pending, beats) && Covers(priced.items, all, drop)
      modifies this`pending, this`queue, this`all, this`nonces, this`beats, priced
      ensures Core() && (old(Gapless()) ==> Gapless()) && unchanged(priced)
      ensures forall tx {:trigger tx in all} :: tx in all <==> tx in old(all) && tx !in drop
    {
      for i := 0 to |drop|
        invariant Partition(pending, queue, all) && Paced(pending, beats) && unchanged(priced) && (old(Gapless()) ==> Gapless())
        invariant forall tx {:trigger tx in all} :: tx in all <==> tx in old(all) && tx !in drop[..i]
      {
        assert drop[..i + 1] == drop[..i] + [drop[i]];
        RemoveTx(drop[i], false);
      }
      assert drop[..|drop|] == drop;
    }

    /**
     Makes room in a full pool, unless the newcomer is no better than anything in it: as many
     transactions leave as have to, the worst remote ones, or all remote ones.
     */
    method MakeRoom(tx: Tx, local: bool) returns (underpriced: bool, ghost dropped: seq<Tx>)
      requires Inv() && Full(config, all)
      modifies this`pending, this`queue, this`all, this`nonces, this`beats, priced
      ensures Inv() && (old(Gapless()) ==> Gapless())
      ensures underpriced <==> Outpriced(config, old(Snapshot()), tx, local)
      ensures underpriced ==> dropped == [] && Current() == old(Current())
      ensures forall t {:trigger t in all} :: t in all <==> t in old(all) && t !in dropped
      ensures Cheapest(old(all), dropped, locals)
      ensures !underpriced ==> RoomMade(old(all), locals, Excess(config, old(all)), dropped)
      ensures !underpriced ==> (Full(config, all) <==> |RemoteOf(old(all), locals)| < Excess(config, old(all)))
      ensures !underpriced ==> Cleared(all, priced.items, locals, config.Capacity())
    {
      dropped := [];
      underpriced := false;
      if !local {
        underpriced := priced.Underpriced(tx, all, locals);
        RoomyShrinks(all, old(priced.items), all, priced.items, locals, config.Capacity());
        if underpriced {
          return;
        }
      }
      dropped := PushOut();
      StillFullIff(old(all), all, locals, config.Capacity(), dropped);
    }

    /** Gives up the worst remote transactions. */
    method PushOut() returns (drop: seq<Tx>)
      requires Inv() && Full(config, all)
      modifies this`pending, this`queue, this`all, this`nonces, this`beats, priced
      ensures Inv() && (old(Gapless()) ==> Gapless())
      ensures forall t {:trigger t in all} :: t in all <==> t in old(all) && t !in drop
      ensures Cheapest(old(all), drop, locals) && RoomMade(old(all), locals, Excess(config, old(all)), drop)
      ensures Cleared(all, priced.items, locals, config.Capacity())
    {
      ghost var known, entries := all, priced.items;
      drop := priced.Discard(|all| - (config.globalSlots + config.globalQueue - 1), all, locals);
      DiscardMakesRoom(entries, known, locals, config.Capacity(), drop);
      ghost var left := priced.items;
      RemoveDropped(drop);
      RoomyShrinks(known, entries, all, priced.items, locals, config.Capacity());
      ClearedOut(entries, known, all, locals, config.Capacity(), drop, left);
    }

    /** The lists that could hold a transaction of the same account and nonce. */
    function Rivals(tx: Tx): Items
      reads this
    {
      if tx.nonce in At(pending, tx.from) then At(pending, tx.from) else At(queue, tx.from)
    }

    /** Replaces a pending transaction directly, or else adds to the queue. */
    method Insert(tx: Tx) returns (r: Outcome)
      requires Inv() && tx !in all && Cleared(all, priced.items, locals, config.Capacity())
      modifies this`pending, this`queue, this`all, priced
      ensures Inv() && (old(Gapless()) ==> Gapless())
      ensures r.Added? <==> Accepts(old(Rivals(tx)), tx, config.priceBump)
      ensures r.Added? ==> r.replaced == (tx.nonce in old(Rivals(tx))) && all == old(all) - Replaced(old(Rivals(tx)), tx) + {tx}
      ensures r.Added? ==> Placed(old(pending), old(queue), pending, queue, tx) && (Listed(pending, tx) || Listed(queue, tx))
      ensures r == Added(false) ==> priced.items == old(priced.items) + multiset{tx} && priced.stales == old(priced.stales)
      ensures r.Rejected? ==> r.error == ReplaceUnderpriced && pending == old(pending) && queue == old(queue) && all == old(all)
    {
      ghost var p, q := pending, queue;
      if tx.nonce in At(pending, tx.from) {
        r := ReplacePending(tx);
      } else {
        r := EnqueueNew(tx);
      }
      if r.Added? {
        PlacedListed(p, q, pending, queue, tx);
      }
    }

    method EnqueueNew(tx: Tx) returns (r: Outcome)
      requires Inv() && tx !in all && Cleared(all, priced.items, locals, config.Capacity())
      requires tx.nonce !in At(pending, tx.from)
      modifies this`queue, this`all, priced
      ensures Inv()
      ensures r.Added? <==> Accepts(At(old(queue), tx.from), tx, config.priceBump)
      ensures r.Added? ==> r.replaced == (tx.nonce in At(old(queue), tx.from))
      ensures r.Added? ==> all == old(all) - Replaced(At(old(queue), tx.from), tx) + {tx}
      ensures r.Added? ==> queue == Put(old(queue), tx.from, At(old(queue), tx.from)[tx.nonce := tx])
      ensures r == Added(false) ==> priced.items == old(priced.items) + multiset{tx} && priced.stales == old(priced.stales)
      ensures r.Rejected? ==> r.error == ReplaceUnderpriced && queue == old(queue) && all == old(all)
    {
      ghost var known, entries := all, priced.items;
      InsertQueued(pending, queue, all, tx, At(queue, tx.from));
      PutOne(queue, tx.from, At(queue, tx.from), tx.nonce, tx);
      r := EnqueueTx(tx);
      if r.Added? {
        RoomyEnters(known, entries, all, priced.items, tx, locals, config.Capacity());
      }
    }

    method ReplacePending(tx: Tx) returns (r: Outcome)
      requires Inv() && tx !in all && Cleared(all, priced.items, locals, config.Capacity())
      requires tx.nonce in At(pending, tx.from)
      modifies this`pending, this`all, priced
      ensures Inv() && (old(Gapless()) ==> Gapless())
      ensures r.Added? <==> Accepts(At(old(pending), tx.from), tx, config.priceBump)
      ensures r.Added? ==> r.replaced && all == old(all) - Replaced(At(old(pending), tx.from), tx) + {tx}
      ensures r.Added? ==> pending == Put(old(pending), tx.from, At(old(pending), tx.from)[tx.nonce := tx])
      ensures r.Rejected? ==> r.error == ReplaceUnderpriced && pending == old(pending) && all == old(all)
    {
      var list := At(pending, tx.from);
      if !Accepts(list, tx, config.priceBump) {
        return Rejected(ReplaceUnderpriced);
      }
      Overbid(tx, list);
      return Added(true);
    }

    method Overbid(tx: Tx, list: Items)
      requires Inv() && tx !in all && Cleared(all, priced.items, locals, config.Capacity())
      requires tx.nonce in list && list == At(pending, tx.from)
      modifies this`pending, this`all, priced
      ensures Inv() && (old(Gapless()) ==> Gapless())
      ensures all == old(all) - Replaced(list, tx) + {tx}
      ensures pending == Put(old(pending), tx.from, list[tx.nonce := tx])
    {
      ghost var known, entries := all, priced.items;
      Substitute(tx, list);
      RoomyEnters(known, entries, all, priced.items, tx, locals, config.Capacity());
    }

    method Substitute(tx: Tx, list: Items)
      requires Core() && tx !in all && tx.nonce in list && list == At(pending, tx.from)
      modifies this`pending, this`all, priced
      ensures Core() && (old(Gapless()) ==> Gapless())
      ensures all == old(all) - Replaced(list, tx) + {tx} && Entered(old(priced.items), priced.items, old(all), all, tx)
      ensures pending == Put(old(pending), tx.from, list[tx.nonce := tx])
    {
      InsertPending(pending, queue, all, tx, list);
      TidiedPaced(pending, beats, tx.from, list[tx.nonce := tx]);
      PutOne(pending, tx.from, list, tx.nonce, tx);
      if Gapless() {
        InsertContiguous(pending, chain, nonces, tx.from, tx.nonce, tx);
      }
      Register(list, tx);
      pending := pending[tx.from := list[tx.nonce := tx]];
    }

    /** The newcomer alone is new, and has an entry in the price heap. */
    twostate predicate Joined(tx: Tx)
      reads this, priced
    {
      && all == old(all) + {tx}
      && priced.items == old(priced.items) + multiset{tx} && priced.stales == old(priced.stales)
    }

    /** Makes room if the pool is full, then inserts. */
    method Admit(tx: Tx, local: bool) returns (r: Outcome, ghost dropped: seq<Tx>)
      requires Inv() && tx !in all
      modifies this`pending, this`queue, this`all, this`nonces, this`beats, priced
      ensures Inv() && (old(Gapless()) ==> Gapless())
      ensures r == Rejected(Error.Underpriced) <==> Outpriced(config, old(Snapshot()), tx, local)
      ensures Outpriced(config, old(Snapshot()), tx, local) ==> Current() == old(Current())
      ensures !Outpriced(config, old(Snapshot()), tx, local) ==>
                if Blocked(old(all), dropped, tx, config.priceBump) then r == Rejected(ReplaceUnderpriced)
                else r == Added(Rivalled(old(all), dropped, tx))
      ensures if Full(config, old(all)) && !Outpriced(config, old(Snapshot()), tx, local)
              then RoomMade(old(all), locals, Excess(config, old(all)), dropped) else dropped == []
      ensures Exchanged(old(all), all, tx, dropped, r.Added?) && Cheapest(old(all), dropped, locals)
      ensures r.Added? ==> Listed(pending, tx) || Listed(queue, tx)
      ensures !Full(config, old(all)) ==> if r.Added? then Entrance(old(Current()), Current(), tx) else Current() == old(Current())
      ensures !Full(config, old(all)) && r == Added(false) ==> Joined(tx)
    {
      var underpriced;
      underpriced, dropped := Prepare(tx, local);
      if underpriced {
        return Rejected(Error.Underpriced), [];
      }
      r := Take(tx, old(all), dropped);
    }

    /** Inserts once there is room. */
    method Take(tx: Tx, ghost before: set<Tx>, ghost dropped: seq<Tx>) returns (r: Outcome)
      requires Inv() && tx !in before && Cleared(all, priced.items, locals, config.Capacity())
      requires forall t {:trigger t in all} :: t in all <==> t in before && t !in dropped
      modifies this`pending, this`queue, this`all, priced
      ensures Inv() && (old(Gapless()) ==> Gapless()) && Exchanged(before, all, tx, dropped, r.Added?)
      ensures if Blocked(before, dropped, tx, config.priceBump) then r == Rejected(ReplaceUnderpriced)
              else r == Added(Rivalled(before, dropped, tx))
      ensures if r.Added? then Entrance(old(Current()), Current(), tx) else Current() == old(Current())
      ensures r.Added? ==> Listed(pending, tx) || Listed(queue, tx)
      ensures r == Added(false) ==> Joined(tx)
    {
      ghost var p, q, mid, rivals := pending, queue, all, Rivals(tx);
      r := Insert(tx);
      Taken(p, q, before, mid, all, tx, dropped, rivals, config.priceBump, r);
    }

    method Prepare(tx: Tx, local: bool) returns (underpriced: bool, ghost dropped: seq<Tx>)
      requires Inv()
      modifies this`pending, this`queue, this`all, this`nonces, this`beats, priced
      ensures Inv() && (old(Gapless()) ==> Gapless())
      ensures underpriced <==> Outpriced(config, old(Snapshot()), tx, local)
      ensures underpriced || !Full(config, old(all)) ==> dropped == [] && Current() == old(Current())
      ensures !Full(config, old(all)) ==> all == old(all) && unchanged(priced)
      ensures forall t {:trigger t in all} :: t in all <==> t in old(all) && t !in dropped
      ensures Cheapest(old(all), dropped, locals)
      ensures !underpriced && Full(config, old(all)) ==> RoomMade(old(all), locals, Excess(config, old(all)), dropped)
      ensures !underpriced ==> Cleared(all, priced.items, locals, config.Capacity())
    {
      underpriced, dropped := false, [];
      if Full(config, all) {
        underpriced, dropped := MakeRoom(tx, local);
      }
    }

    /**
     Validates a transaction and inserts it. A full pool first gives up its worst remote
     transactions (`dropped`), even if the newcomer is then refused for not outbidding a rival.
     */
    method Add(tx: Tx, local: bool) returns (r: Outcome, ghost dropped: seq<Tx>)
      requires Inv()
      modifies this`pending, this`queue, this`all, this`nonces, this`beats, this`locals, priced
      ensures Inv() && (old(Gapless()) ==> Gapless())
      ensures Decided(config, chain, gasPrice, old(Snapshot()), Snapshot(), tx, local, dropped, r)
      ensures !Full(config, old(all)) && r == Added(false) ==> Joined(tx)
    {
      ghost var s := Snapshot();
      if tx in all {
        TurnedAway(config, chain, gasPrice, s, tx, local);
        return Rejected(Known), [];
      }
      var invalid := ValidateTx(tx, local);
      if invalid.Some? {
        TurnedAway(config, chain, gasPrice, s, tx, local);
        return Rejected(invalid.value), [];
      }
      r, dropped := Admit(tx, local);
      if r.Added? && local && Listed(queue, tx) {
        RoomyLocals(all, priced.items, locals, locals + {tx.from}, config.Capacity());
        locals := locals + {tx.from};
      }
    }

    ghost predicate WithinLimits()
      reads this
    {
      Within(config, locals, Current())
    }

    /**
     Adds a transaction and, unless it replaced another, promotes for its account. `s` is what the
     pool holds once it was added, `mid` once the account was promoted.
     */
    method AddTx(tx: Tx, local: bool, now: Time)
      returns (r: Outcome, ghost dropped: seq<Tx>, ghost s: Snap, ghost mid: Snap, ghost level: nat)
      requires Inv()
      modifies this`pending, this`queue, this`all, this`nonces, this`beats, this`locals, priced
      ensures Inv() && (old(Gapless()) ==> Gapless())
      ensures Decided(config, chain, gasPrice, old(Snapshot()), s, tx, local, dropped, r)
      ensures locals == s.locals && if r == Added(false) then all <= mid.all <= s.all else Snapshot() == s
      ensures r == Added(false) ==>
                && Promoting(chain, locals, config.accountQueue, s.lists, mid.lists, AtOnce(now), [tx.from]) && mid.Sound()
                && Enforced(config, locals, mid.lists, Current(), level) && WithinLimits() && Quiet(chain, nonces, queue, tx.from)
      ensures r == Added(false) && !Full(config, old(all)) && all == old(all) + {tx} && Spacious(config, mid.lists) ==>
                priced.items == old(priced.items) + multiset{tx} && priced.stales == old(priced.stales)
    {
      r, dropped := Add(tx, local);
      s, mid, level := Snapshot(), Snapshot(), 0;
      if r == Added(false) {
        mid, level := PromoteFor(tx.from, now);
      }
    }

    method PromoteFor(a: Address, now: Time) returns (ghost mid: Snap, ghost level: nat)
      requires Inv()
      modifies this`pending, this`queue, this`all, this`nonces, this`beats, priced
      ensures Inv() && (old(Gapless()) ==> Gapless()) && all <= mid.all <= old(all) && mid.Sound()
      ensures Promoting(chain, locals, config.accountQueue, old(Current()), mid.lists, AtOnce(now), [a])
      ensures Enforced(config, locals, mid.lists, Current(), level) && WithinLimits() && Quiet(chain, nonces, queue, a)
      ensures all == old(all) && Spacious(config, mid.lists) ==> unchanged(priced)
    {
      ghost var some;
      some, mid, level := PromoteExecutables(Some([a]), AtOnce(now));
    }

    /** Adds a batch and promotes for the accounts concerned. */
    method AddTxs(txs: seq<Tx>, local: bool, now: Address -> Time) returns (results: seq<Outcome>, ghost b: Batch)
      requires Inv()
      modifies this`pending, this`queue, this`all, this`nonces, this`beats, this`locals, priced
      ensures Inv() && (old(Gapless()) ==> Gapless())
      ensures BatchDone(config, chain, gasPrice, old(Snapshot()), Snapshot(), txs, local, now, results, b)
      ensures b.dirty != [] ==> WithinLimits()
      ensures forall a | a in b.dirty :: Quiet(chain, nonces, queue, a)
    {
      var dirty;
      ghost var trace, drops;
      results, dirty, trace, drops := AddEach(txs, local);
      b := Batch(trace, drops, dirty, Snapshot(), 0);
      if |dirty| > 0 {
        ghost var some, mid, level := PromoteExecutables(Some(dirty), now);
        b := b.(mid := mid, level := level);
      }
    }

    method AddEach(txs: seq<Tx>, local: bool)
      returns (results: seq<Outcome>, dirty: seq<Address>, ghost trace: seq<Snap>, ghost drops: seq<seq<Tx>>)
      requires Inv()
      modifies this`pending, this`queue, this`all, this`nonces, this`beats, this`locals, priced
      ensures Inv() && (old(Gapless()) ==> Gapless()) && |results| == |txs|
      ensures AllDecided(config, chain, gasPrice, trace, txs, local, drops, results)
      ensures trace[0] == old(Snapshot()) && trace[|txs|] == Snapshot() && Concerned(txs, results, dirty)
    {
      results, dirty, trace, drops := [], [], [Snapshot()], [];
      for i := 0 to |txs|
        invariant Inv() && (old(Gapless()) ==> Gapless()) && |results| == i
        invariant AllDecided(config, chain, gasPrice, trace, txs, local, drops, results)
        invariant trace[0] == old(Snapshot()) && trace[i] == Snapshot() && Concerned(txs, results, dirty)
      {
        results, dirty, trace, drops := AddNext(txs, local, results, dirty, trace, drops);
      }
    }

    /** Adds the next transaction of a batch and notes its account unless it replaced another. */
    method AddNext(txs: seq<Tx>, local: bool, results: seq<Outcome>, dirty: seq<Address>, ghost trace: seq<Snap>, ghost drops: seq<seq<Tx>>)
      returns (results': seq<Outcome>, dirty': seq<Address>, ghost trace': seq<Snap>, ghost drops': seq<seq<Tx>>)
      requires Inv() && |results| < |txs| && AllDecided(config, chain, gasPrice, trace, txs, local, drops, results)
      requires trace[|results|] == Snapshot() && Concerned(txs, results, dirty)
      modifies this`pending, this`queue, this`all, this`nonces, this`beats, this`locals, priced
      ensures Inv() && (old(Gapless()) ==> Gapless()) && |results'| == |results| + 1
      ensures AllDecided(config, chain, gasPrice, trace', txs, local, drops', results')
      ensures trace'[0] == trace[0] && trace'[|results'|] == Snapshot() && Concerned(txs, results', dirty')
    {
      var tx := txs[|results|];
      var r;
      ghost var dropped;
      r, dropped := Add(tx, local);
      results', dirty' := results + [r], dirty;
      if r == Added(false) && tx.from !in dirty {
        dirty' := dirty + [tx.from];
      }
      trace', drops' := trace + [Snapshot()], drops + [dropped];
      DecidedMore(config, chain, gasPrice, trace, txs, local, drops, results, Snapshot(), dropped, r);
      ConcernedMore(txs, results, dirty, r, dirty');
    }

    // ---- Outside events -------------------------------------------------------------------------------

    /** Raises or lowers the accepted price; exactly the remote transactions below it leave. */
    method SetGasPrice(price: nat)
      requires Inv()
      modifies this`pending, this`queue, this`all, this`nonces, this`beats, this`gasPrice, priced
      ensures Inv() && (old(Gapless()) ==> Gapless()) && gasPrice == price
      ensures forall tx {:trigger tx in all} :: tx in all <==> tx in old(all) && !(Remote(tx, locals) && tx.price < price)
    {
      ghost var known, entries := all, priced.items;
      gasPrice := price;
      var drop := priced.Cap(price, all, locals);
      RemoveDropped(drop);
      RoomyShrinks(known, entries, all, priced.items, locals, config.Capacity());
    }

    /** Drops what idle accounts have queued. */
    method Evict(now: nat, lifetime: nat)
      requires Inv()
      modifies this`pending, this`queue, this`all, this`nonces, this`beats, priced
      ensures Inv() && (old(Gapless()) ==> Gapless()) && pending == old(pending) && nonces == old(nonces) && beats == old(beats)
      ensures Evicted(locals, beats, now, lifetime, old(queue), queue, {})
      ensures Aged(old(priced.items), old(priced.stales), priced.items, priced.stales, Size(old(queue)) - Size(queue))
    {
      ghost var q, items, stales := queue, priced.items, priced.stales;
      var todo := queue.Keys;
      NoneEvicted(locals, beats, now, lifetime, q);
      while todo != {}
        invariant Inv() && pending == old(pending) && nonces == old(nonces) && beats == old(beats) && todo <= queue.Keys
        invariant Evicted(locals, beats, now, lifetime, q, queue, todo)
        invariant Size(queue) <= Size(q) && Aged(items, stales, priced.items, priced.stales, Size(q) - Size(queue))
        decreases |todo|
      {
        var a := Pick(todo);
        EvictedNext(locals, beats, now, lifetime, q, queue, todo, a);
        if Idle(locals, beats, now, lifetime, a) {
          EvictAccount(a, q, items, stales);
        }
        todo := todo - {a};
      }
    }

    method EvictAccount(a: Address, ghost q: Lists, ghost items: multiset<Tx>, ghost stales: int)
      requires Inv() && a in queue && Size(queue) <= Size(q) && Aged(items, stales, priced.items, priced.stales, Size(q) - Size(queue))
      modifies this`pending, this`queue, this`all, this`nonces, this`beats, priced
      ensures Inv() && pending == old(pending) && nonces == old(nonces) && beats == old(beats)
      ensures queue == Put(old(queue), a, map[])
      ensures Size(queue) <= Size(q) && Aged(items, stales, priced.items, priced.stales, Size(q) - Size(queue))
    {
      SizePut(queue, a, map[]);
      EmptyQueue(a);
    }

    /** Whether and where the pool holds a transaction; the nonce alone tells which list. */
    method StatusOf(tx: Tx) returns (s: Status)
      requires Inv()
      ensures s == Pending <==> Listed(pending, tx)
      ensures s == Queued <==> Listed(queue, tx)
    {
      if tx !in all {
        UnknownUnlisted(pending, queue, all, tx);
        return Unknown;
      }
      FoundByNonce(pending, queue, all, tx);
      return if tx.nonce in At(pending, tx.from) then Pending else Queued;
    }

    /**
     Moves to a new head: transactions that a reorganisation dropped are added again, the pending
     lists are cut to what is executable there, and the pending nonces are recomputed. Nothing
     happens if the old and the new branch do not meet in the store, or if there is no state for
     the new head. `back` are the lists after the reinjection and `c` tells how they go on. The
     lists are gapless once cut exactly if what was executable of them had no gap, in particular
     if nothing was reinjected and they were gapless before.
     */
    method Reset(blocks: Reinjection.Blocks, oldHead: Option<Reinjection.Hash>, newHead: Reinjection.Hash, state: Option<Chain>,
                 now: Address -> Time, later: Address -> Time)
      returns (ghost reinject: seq<Tx>, ghost results: seq<Outcome>, ghost b: Batch, ghost known: set<Tx>, ghost back: View, ghost c: Course)
      requires Inv() && newHead in blocks && (oldHead.Some? ==> oldHead.value in blocks)
      modifies this`pending, this`queue, this`all, this`nonces, this`beats, this`locals, this`chain, priced
      ensures Inv() && chain == (if Moves(blocks, oldHead, newHead, state) then state.value else old(chain))
      ensures !Moves(blocks, oldHead, newHead, state) ==> Current() == old(Current()) && Snapshot() == old(Snapshot())
      ensures Moves(blocks, oldHead, newHead, state) ==>
                && Reinjection.Dropped(blocks, oldHead, newHead) == Some(reinject)
                && BatchDone(config, chain, gasPrice, old(Rewound()), Snap(known, locals, back), reinject, false, now, results, b)
                && Resumed(config, chain, locals, back, Current(), later, c)
                && WithinLimits() && forall a :: Quiet(chain, nonces, queue, a)
      ensures Moves(blocks, oldHead, newHead, state) && Seamless(chain, back.pending, back.nonces) ==> Gapless()
      ensures old(Gapless()) && !(Moves(blocks, oldHead, newHead, state) && reinject != []) ==> Gapless()
    {
      reinject, results, b, known, back, c := [], [], *, all, Current(), *;
      var dropped := Reinjection.FindDropped(blocks, oldHead, newHead);
      if dropped.Some? && state.Some? {
        reinject := dropped.value;
        results, b, known, back, c := Rebase(state.value, dropped.value, now, later);
      }
    }

    method Rebase(head: Chain, reinject: seq<Tx>, now: Address -> Time, later: Address -> Time)
      returns (ghost results: seq<Outcome>, ghost b: Batch, ghost known: set<Tx>, ghost back: View, ghost c: Course)
      requires Inv()
      modifies this`pending, this`queue, this`all, this`nonces, this`beats, this`locals, this`chain, priced
      ensures Inv() && chain == head
      ensures BatchDone(config, chain, gasPrice, old(Rewound()), Snap(known, locals, back), reinject, false, now, results, b)
      ensures Resumed(config, chain, locals, back, Current(), later, c)
      ensures WithinLimits() && forall a :: Quiet(chain, nonces, queue, a)
      ensures Seamless(chain, back.pending, back.nonces) ==> Gapless()
      ensures old(Gapless()) && reinject == [] ==> Gapless()
    {
      ghost var v, s, chain0, gapless := Current(), Rewound(), chain, Gapless();
      chain, nonces := head, map[];
      results, b := Reinject(reinject, now);
      known, back := all, Current();
      if gapless && reinject == [] {
        EmptyBatch(config, chain, gasPrice, s, Snapshot(), now, results, b);
        GaplessSeamless(chain0, v.nonces, back.pending, chain);
      }
      c := Resume(later);
    }

    method Reinject(reinject: seq<Tx>, now: Address -> Time) returns (ghost results: seq<Outcome>, ghost b: Batch)
      requires Inv()
      modifies this`pending, this`queue, this`all, this`nonces, this`beats, this`locals, priced
      ensures Inv()
      ensures BatchDone(config, chain, gasPrice, old(Snapshot()), Snapshot(), reinject, false, now, results, b)
    {
      var rs;
      rs, b := AddTxs(reinject, false, now);
      results := rs;
    }

    /** Cuts the pending lists to what is executable, recomputes the pending nonces and promotes. */
    method Resume(now: Address -> Time) returns (ghost c: Course)
      requires Inv()
      modifies this`pending, this`queue, this`all, this`nonces, this`beats, priced
      ensures Inv() && WithinLimits() && forall a :: Quiet(chain, nonces, queue, a)
      ensures Resumed(config, chain, locals, old(Current()), Current(), now, c)
      ensures Seamless(chain, old(pending), old(nonces)) ==> Gapless()
    {
      ghost var v := Current();
      DemoteUnexecutables();
      BothKept(pending, queue, all);
      SyncNonces();
      ResetContiguous(v.pending, v.queue, v.nonces, chain, pending, queue);
      ghost var cut := Snapshot();
      ghost var some, mid, level := PromoteExecutables(None, now);
      c := Course(cut, some, mid, level);
    }
  }

  /** The branches of the old and the new head meet, and there is a state to move to. */
  ghost predicate Moves(blocks: Reinjection.Blocks, oldHead: Option<Reinjection.Hash>, newHead: Reinjection.Hash, state: Option<Chain>)
    requires newHead in blocks && (oldHead.Some? ==> oldHead.value in blocks)
  {
    Reinjection.Dropped(blocks, oldHead, newHead).Some? && state.Some?
  }

  /** What happened while a batch was added: the decisions, the accounts concerned, and the lists once these were promoted. */
  datatype Batch = Batch(trace: seq<Snap>, drops: seq<seq<Tx>>, dirty: seq<Address>, mid: Snap, level: nat)

  /** Every transaction was decided on in turn, then the accounts that got a new one were promoted and the limits enforced. */
  ghost predicate BatchDone(c: Config, chain: Chain, gasPrice: nat, s: Snap, s': Snap,
                            txs: seq<Tx>, local: bool, now: Address -> Time, results: seq<Outcome>, b: Batch) {
    && |results| == |txs| && AllDecided(c, chain, gasPrice, b.trace, txs, local, b.drops, results) && b.trace[0] == s
    && s'.all <= b.trace[|txs|].all && s'.locals == b.trace[|txs|].locals && Concerned(txs, results, b.dirty)
    && (if b.dirty == [] then s' == b.trace[|txs|]
        else
          && Promoting(chain, s'.locals, c.accountQueue, b.trace[|txs|].lists, b.mid.lists, now, b.dirty)
          && b.mid.Sound() && s'.all <= b.mid.all <= b.trace[|txs|].all && Enforced(c, s'.locals, b.mid.lists, s'.lists, b.level))
  }

  lemma EmptyBatch(c: Config, chain: Chain, gasPrice: nat, s: Snap, s': Snap, now: Address -> Time, results: seq<Outcome>, b: Batch)
    requires BatchDone(c, chain, gasPrice, s, s', [], false, now, results, b)
    ensures s' == s
  {
  }

  /** The lists once cut to what is executable, the accounts then promoted, and the lists before the limits are enforced. */
  datatype Course = Course(cut: Snap, some: seq<Address>, mid: Snap, level: nat)

  ghost predicate Resumed(config: Config, chain: Chain, locals: set<Address>, v: View, w: View, now: Address -> Time, c: Course) {
    && Demoting(chain, v.pending, v.queue, c.cut.lists.pending, c.cut.lists.queue, {}) && c.cut.Sound() && WellKept(c.cut.lists.pending)
    && c.cut.lists.nonces == v.nonces + Ends(c.cut.lists.pending)
    && (Contiguous(c.cut.lists.pending, chain, c.cut.lists.nonces) <==> Seamless(chain, v.pending, v.nonces))
    && Promoting(chain, locals, config.accountQueue, c.cut.lists, c.mid.lists, now, c.some) && c.mid.Sound() && c.mid.all <= c.cut.all
    && (forall a :: a in c.some <==> a in c.cut.lists.queue)
    && Enforced(config, locals, c.mid.lists, w, c.level)
  }

  /** What the strict filter leaves of a pending list, unless there is a gap in front, and the rest. */
  method SplitPending(chain: Chain, list: Items, a: Address) returns (rest: Items, invalid: Items)
    ensures rest == Executable(chain, list, a) && invalid == Demoted(chain, list, a)
  {
    var young := From(list, chain.Nonce(a));
    rest := Filtered(young, chain.Balance(a), chain.maxGas, true);
    invalid := Invalidated(young, chain.Balance(a), chain.maxGas, true);
    DemotionParts(chain, list, a, rest, invalid);
    if rest != map[] && chain.Nonce(a) !in rest {
      invalid, rest := invalid + rest, map[];
    }
  }

  /** A remote account that has not been active for longer than the lifetime. */
  predicate Idle(locals: set<Address>, beats: map<Address, Time>, now: nat, lifetime: nat, a: Address) {
    a !in locals && (a !in beats || now > beats[a] + lifetime)
  }

  /** The idle accounts, except those of `todo`, have nothing queued any more; the others are as they were. */
  ghost predicate Evicted(locals: set<Address>, beats: map<Address, Time>, now: nat, lifetime: nat, q0: Lists, q: Lists, todo: set<Address>) {
    forall a {:trigger EvictedAt(locals, beats, now, lifetime, q0, q, todo, a)} :: EvictedAt(locals, beats, now, lifetime, q0, q, todo, a)
  }

  ghost predicate EvictedAt(locals: set<Address>, beats: map<Address, Time>, now: nat, lifetime: nat, q0: Lists, q: Lists, todo: set<Address>,
                            a: Address) {
    At(q, a) == if Idle(locals, beats, now, lifetime, a) && a !in todo then map[] else At(q0, a)
  }

  lemma NoneEvicted(locals: set<Address>, beats: map<Address, Time>, now: nat, lifetime: nat, q: Lists)
    ensures Evicted(locals, beats, now, lifetime, q, q, q.Keys)
  {
  }

  lemma EvictedNext(locals: set<Address>, beats: map<Address, Time>, now: nat, lifetime: nat, q0: Lists, q: Lists, todo: set<Address>, a: Address)
    requires Evicted(locals, beats, now, lifetime, q0, q, todo) && a in todo
    ensures Evicted(locals, beats, now, lifetime, q0, if Idle(locals, beats, now, lifetime, a) then Put(q, a, map[]) else q, todo - {a})
  {
    var q' := if Idle(locals, beats, now, lifetime, a) then Put(q, a, map[]) else q;
    forall b ensures EvictedAt(locals, beats, now, lifetime, q0, q', todo - {a}, b) {
      assert EvictedAt(locals, beats, now, lifetime, q0, q, todo, b);
      PutAt(q, a, map[], b);
    }
  }

  // ---- Whole runs -------------------------------------------------------------------------------------------

  /** What can happen to a pool. */
  datatype Event =
    | AddOne(tx: Tx, local: bool, now: Time)
    | AddBatch(txs: seq<Tx>, local: bool, time: Address -> Time)
    | Reprice(price: nat)
    | Expire(at: nat, lifetime: nat)
    | NewHead(blocks: Reinjection.Blocks, oldHead: Option<Reinjection.Hash>, newHead: Reinjection.Hash, state: Option<Chain>,
              early: Address -> Time, late: Address -> Time)
  {
    /** Both heads are stored blocks. */
    predicate Stored() {
      NewHead? ==> newHead in blocks && (oldHead.Some? ==> oldHead.value in blocks)
    }

    /** A new head brings transactions back. */
    ghost predicate Reinjects()
      requires Stored()
    {
      NewHead? && Moves(blocks, oldHead, newHead, state) && Reinjection.Dropped(blocks, oldHead, newHead) != Some([])
    }
  }

  /** No new head brings transactions back. */
  ghost predicate NothingReturns(events: seq<Event>)
    requires forall i | 0 <= i < |events| :: events[i].Stored()
  {
    forall i | 0 <= i < |events| :: !events[i].Reinjects()
  }

  /** In every run the lists partition the known transactions, and stay gapless if nothing is reinjected. */
  method Run(pool: TxPool, events: seq<Event>)
    requires pool.Inv() && pool.Gapless() && forall i | 0 <= i < |events| :: events[i].Stored()
    modifies pool, pool.priced
    ensures pool.Inv() && (NothingReturns(events) ==> pool.Gapless())
  {
    for i := 0 to |events|
      invariant pool.Inv() && (NothingReturns(events) ==> pool.Gapless())
    {
      match events[i] {
        case AddOne(tx, local, now) =>
          var r;
          ghost var dropped, s, mid, level;
          r, dropped, s, mid, level := pool.AddTx(tx, local, now);
        case AddBatch(txs, local, now) =>
          var rs;
          ghost var b;
          rs, b := pool.AddTxs(txs, local, now);
        case Reprice(price) =>
          pool.SetGasPrice(price);
        case Expire(now, lifetime) =>
          pool.Evict(now, lifetime);
        case NewHead(blocks, oldHead, newHead, state, now, later) =>
          assert events[i].Stored();
          ghost var reinject, rs, b, known, back, c := pool.Reset(blocks, oldHead, newHead, state, now, later);
      }
    }
  }
}
