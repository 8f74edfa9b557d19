/**
 Nonce-sorted transaction lists: a hash map, a heap of its keys and a cache of the sorted
 contents, kept in step by every operation.
 */
module TxList {
  import opened Transactions
  import opened Prelude
  import Heaps

  // ---- Sorted contents --------------------------------------------------------------------

  /** The transactions of `m` by increasing nonce. */
  function Flat(m: Items): seq<Tx>
    decreases |m|
  {
    if m == map[] then []
    else
      var g := Greatest(m);
      assert m.Keys == (m - {g}).Keys + {g};
      Flat(m - {g}) + [m[g]]
  }

  lemma {:induction false} FlatSize(m: Items)
    ensures |Flat(m)| == |m|
    decreases |m|
  {
    if m != map[] {
      var g := Greatest(m);
      assert m.Keys == (m - {g}).Keys + {g};
      FlatSize(m - {g});
    }
  }

  /** Appending a transaction with a greater nonce. */
  lemma FlatSnoc(m: Items, tx: Tx)
    requires forall n | n in m :: n < tx.nonce
    ensures Flat(m[tx.nonce := tx]) == Flat(m) + [tx]
  {
    var m' := m[tx.nonce := tx];
    GreatestIs(m', tx.nonce);
    assert m' - {tx.nonce} == m;
  }

  lemma FlatLast(m: Items, g: nat)
    requires g in m && forall n | n in m :: n <= g
    ensures Flat(m) == Flat(m - {g}) + [m[g]]
  {
    GreatestIs(m, g);
  }

  /** It is sorted, and holds exactly the map's transactions. */
  lemma {:induction false} FlatSorts(m: Items)
    requires ByNonce(m)
    ensures forall i, j | 0 <= i < j < |Flat(m)| :: Flat(m)[i].nonce < Flat(m)[j].nonce
    ensures forall tx :: tx in Flat(m) <==> Holds(m, tx)
    decreases |m|
  {
    if m != map[] {
      var g := Greatest(m);
      var rest := m - {g};
      assert m.Keys == rest.Keys + {g};
      FlatSorts(rest);
      var c := Flat(rest);
      forall i | 0 <= i < |c| ensures c[i].nonce < g {
        assert c[i] in c;
        assert Holds(rest, c[i]);
      }
      assert Flat(m) == c + [m[g]];
      forall tx ensures tx in Flat(m) <==> Holds(m, tx) {
        assert tx in Flat(m) <==> tx in c || tx == m[g];
      }
    }
  }

  /** A sorted list splits where the map splits. */
  lemma {:induction false} FlatSplit(m: Items, t: nat)
    ensures Flat(m) == Flat(Below(m, t)) + Flat(From(m, t))
    decreases |m|
  {
    if m != map[] {
      var g := Greatest(m);
      var rest := m - {g};
      assert m.Keys == rest.Keys + {g};
      if g >= t {
        FlatSplit(rest, t);
        WithoutHigh(m, t, g);
        FlatLast(From(m, t), g);
        FlatLast(m, g);
        Associate(Flat(Below(m, t)), Flat(From(rest, t)), [m[g]]);
      } else {
        AllBelow(m, t);
      }
    }
  }

  lemma WithoutHigh(m: Items, t: nat, g: nat)
    requires g in m && g >= t
    ensures Below(m - {g}, t) == Below(m, t) && From(m - {g}, t) == From(m, t) - {g}
  {
  }

  lemma AllBelow(m: Items, t: nat)
    requires forall n | n in m :: n < t
    ensures From(m, t) == map[] && Below(m, t) == m
  {
  }

  lemma Associate<T>(a: seq<T>, b: seq<T>, c: seq<T>)
    ensures (a + b) + c == a + (b + c)
  {
  }

  /** The lowest nonces are a prefix of the list. */
  lemma {:induction false} FlatLowest(m: Items, k: nat)
    requires k <= |m|
    ensures |Flat(m)| == |m| && Flat(Lowest(m, k)) == Flat(m)[..k]
    decreases |m|
  {
    FlatSize(m);
    if |m| > k {
      var g := Greatest(m);
      assert m.Keys == (m - {g}).Keys + {g};
      FlatLowest(m - {g}, k);
    }
  }

  /** Lowering the limit by one drops the greatest of what was left. */
  lemma {:induction false} LowestStep(m: Items, k: nat)
    requires k < |m|
    ensures Lowest(m, k + 1) != map[]
    ensures Lowest(m, k) == Lowest(m, k + 1) - {Greatest(Lowest(m, k + 1))}
    decreases |m|
  {
    var g := Greatest(m);
    assert m.Keys == (m - {g}).Keys + {g};
    if |m| > k + 1 {
      LowestStep(m - {g}, k);
    }
  }

  // ---- The heap of keys -----------------------------------------------------------------------

  /** The index is a heap of exactly the map's keys, each once. */
  ghost predicate Indexes(index: seq<nat>, m: Items) {
    && Heaps.IsHeap(index) && Heaps.Distinct(index)
    && forall n {:trigger n in index} :: n in index <==> n in m
  }

  lemma RootIsLeastKey(index: seq<nat>, m: Items)
    requires Indexes(index, m) && index != []
    ensures m != map[] && index[0] == Least(m)
  {
    assert index[0] in index;
    forall k | k in m ensures index[0] <= k {
      assert k in index;
      var i :| 0 <= i < |index| && index[i] == k;
      Heaps.RootIsLeast(index, i);
    }
    LeastIs(m, index[0]);
  }

  lemma EmptyIndex(index: seq<nat>, m: Items)
    requires (forall n {:trigger n in index} :: n in index <==> n in m) && index == []
    ensures m == map[]
  {
    assert forall n :: n !in m by {
      forall n ensures n !in m {
        assert n in index <==> n in m;
      }
    }
  }

  lemma {:induction false} IndexSize(index: seq<nat>, m: Items)
    requires Heaps.Distinct(index) && forall n {:trigger n in index} :: n in index <==> n in m
    ensures |index| == |m|
  {
    if index == [] {
      EmptyIndex(index, m);
    } else {
      var last := index[|index| - 1];
      assert last in index;
      var init := index[..|index| - 1];
      assert index == init + [last];
      assert m.Keys == (m - {last}).Keys + {last};
      forall n ensures n in init <==> n in m - {last} {
        assert n in index <==> n in init || n == last;
      }
      IndexSize(init, m - {last});
    }
  }

  /** `index` lists the keys of `m` in increasing order. */
  ghost predicate Sorts(index: seq<nat>, m: Items) {
    Heaps.Increasing(index) && |index| == |m| && forall n {:trigger n in index} :: n in index <==> n in m
  }

  /** A sorted index lists the greatest key last. */
  lemma SortedIndex(index: seq<nat>, m: Items, init: seq<nat>, last: nat)
    requires Sorts(index, m) && index == init + [last]
    ensures m != map[] && last == Greatest(m) && Sorts(init, m - {last})
  {
    assert index[|init|] == last && forall i | 0 <= i < |init| :: init[i] == index[i];
    assert last in index;
    forall k | k in m ensures k <= last {
      assert k in index;
    }
    GreatestIs(m, last);
    assert m.Keys == (m - {last}).Keys + {last};
    forall n ensures n in init <==> n in m - {last} {
      assert n in index <==> n in init || n == last;
    }
  }

  // ---- The sorted map ---------------------------------------------------------------------------

  class TxSortedMap {
    var items: Items
    var index: seq<nat>
    var cache: Option<seq<Tx>>

    ghost predicate Valid()
      reads this
    {
      && ByNonce(items)
      && Indexes(index, items)
      && (cache.Some? ==> cache.value == Flat(items))
    }

    constructor ()
      ensures Valid() && items == map[]
    {
      items, index, cache := map[], [], None;
    }

    /** Inserts or overwrites. */
    method Put(tx: Tx)
      requires Valid()
      modifies this
      ensures Valid() && items == old(items)[tx.nonce := tx]
    {
      if tx.nonce !in items {
        index := Heaps.Push(index, tx.nonce);
      }
      items, cache := items[tx.nonce := tx], None;
    }

    /** Removes and returns everything below the threshold, lowest first. */
    method Forward(threshold: nat) returns (removed: seq<Tx>)
      requires Valid()
      modifies this
      ensures Valid() && items == From(old(items), threshold)
      ensures removed == Flat(Below(old(items), threshold))
    {
      FlatSplit(items, threshold);
      removed := PopBelow(threshold);
      if cache.Some? {
        cache := Some(cache.value[|removed|..]);
      }
    }

    /** Pops heap items until the threshold is reached. */
    method PopBelow(threshold: nat) returns (removed: seq<Tx>)
      requires ByNonce(items) && Indexes(index, items)
      modifies this`items, this`index
      ensures ByNonce(items) && Indexes(index, items) && items == From(old(items), threshold)
      ensures removed == Flat(Below(old(items), threshold))
    {
      removed := [];
      ghost var all, gone: Items := items, map[];
      while |index| > 0 && index[0] < threshold
        invariant ByNonce(items) && Indexes(index, items)
        invariant Parted(all, gone, items)
        invariant forall n | n in gone :: n < threshold
        invariant removed == Flat(gone)
        decreases |index|
      {
        RootIsLeastKey(index, items);
        PartedStep(all, gone, items);
        var tx := PopLeast();
        FlatSnoc(gone, tx);
        removed := removed + [tx];
        gone := gone[tx.nonce := tx];
      }
      LeastAtLeast(index, items, threshold);
      PartedAt(all, gone, items, threshold);
    }

    /** Removes and returns, in no particular order, everything the filter matches. */
    method Filter(filter: Tx -> bool) returns (removed: seq<Tx>)
      requires Valid()
      modifies this
      ensures Valid() && items == Unmatched(old(items), filter)
      ensures forall tx :: tx in removed <==> Holds(old(items), tx) && filter(tx)
      ensures forall i, j | 0 <= i < j < |removed| :: removed[i] != removed[j]
    {
      removed := Collect(items, filter);
      if |removed| > 0 {
        items := Unmatched(items, filter);
        var keys := KeysOf(items);
        index := Heaps.Init(keys);
        cache := None;
      } else {
        assert Unmatched(items, filter) == items by {
          forall n | n in items ensures !filter(items[n]) {
            assert Holds(items, items[n]);
          }
        }
      }
    }

    /** Drops the highest nonces until at most `threshold` are left; returns what it dropped. */
    method Cap(threshold: nat) returns (drops: seq<Tx>)
      requires Valid()
      modifies this
      ensures Valid() && items == Lowest(old(items), threshold)
      ensures Dropped(drops, old(items), items) && |drops| == |old(items)| - |items|
    {
      if |items| <= threshold {
        NothingToCut(items, threshold);
        return [];
      }
      ghost var all := items;
      drops, items, index := CutTo(items, index, threshold);
      if cache.Some? {
        CutSorted(all, threshold, cache.value);
        cache := Some(cache.value[..|cache.value| - |drops|]);
      }
    }

    /** Deletes one nonce. */
    method Remove(nonce: nat) returns (found: bool)
      requires Valid()
      modifies this
      ensures Valid() && found == (nonce in old(items)) && items == old(items) - {nonce}
    {
      if nonce !in items {
        assert items - {nonce} == items;
        return false;
      }
      var i := 0;
      assert nonce in index;
      while index[i] != nonce
        invariant 0 <= i < |index| && nonce in index[i..]
        decreases |index| - i
      {
        i := i + 1;
      }
      index := Heaps.RemoveAt(index, i);
      items := items - {nonce};
      cache := None;
      return true;
    }

    /** Removes and returns the unbroken run of nonces at the front, if it starts at or below `start`. */
    method TakeReady(start: nat) returns (ready: seq<Tx>)
      requires Valid()
      modifies this
      ensures Valid() && items == old(items) - Ready(old(items), start).Keys
      ensures ready == Flat(Ready(old(items), start))
    {
      if |index| > 0 {
        RootIsLeastKey(index, items);
      } else {
        EmptyIndex(index, items);
      }
      if |index| == 0 || index[0] > start {
        NoneReady(items, start);
        return [];
      }
      ready, items, index := PopStreak(items, index);
      cache := None;
    }

    /** The sorted contents, computed once and cached until the next change. */
    method Flatten() returns (txs: seq<Tx>)
      requires Valid()
      modifies this`cache
      ensures Valid() && txs == Flat(items)
    {
      if cache.None? {
        var sorted := SortIndex(index, items);
        var all := Lookup(items, sorted);
        cache := Some(all);
      }
      txs := cache.value;
    }

    /** Takes the lowest nonce out of the heap and the map. */
    method PopLeast() returns (tx: Tx)
      requires ByNonce(items) && Indexes(index, items) && |index| > 0
      modifies this`items, this`index
      ensures ByNonce(items) && Indexes(index, items) && |index| == |old(index)| - 1
      ensures old(items) != map[] && tx.nonce == Least(old(items)) && tx == old(items)[tx.nonce]
      ensures items == old(items) - {tx.nonce}
    {
      RootIsLeastKey(index, items);
      var nonce;
      nonce, index := Heaps.Pop(index);
      tx := items[nonce];
      items := items - {nonce};
    }
  }

  // ---- Account lists --------------------------------------------------------------------------------

  /** The nonce-sorted transactions of one account, with caps that speed up filtering. */
  class TxList {
    const strict: bool
    const txs: TxSortedMap
    var costcap: int
    var gascap: nat

    ghost predicate Valid()
      reads this, txs
    {
      && txs.Valid()
      && forall n | n in txs.items :: txs.items[n].cost <= costcap && txs.items[n].gas <= gascap
    }

    constructor (strict: bool)
      ensures Valid() && fresh(txs) && this.strict == strict && txs.items == map[]
    {
      this.strict := strict;
      txs := new TxSortedMap();
      costcap, gascap := 0, 0;
    }

    /** Inserts a transaction unless one with its nonce is too dear to replace. */
    method Add(tx: Tx, priceBump: nat) returns (inserted: bool, replaced: Option<Tx>)
      requires Valid()
      modifies this, txs
      ensures Valid()
      ensures inserted == Accepts(old(txs.items), tx, priceBump)
      ensures txs.items == if inserted then old(txs.items)[tx.nonce := tx] else old(txs.items)
      ensures replaced == if inserted && tx.nonce in old(txs.items) then Some(old(txs.items)[tx.nonce]) else None
    {
      replaced := None;
      if tx.nonce in txs.items {
        var other := txs.items[tx.nonce];
        var threshold := other.price * (100 + priceBump) / 100;
        if other.price >= tx.price || threshold > tx.price {
          return false, None;
        }
        replaced := Some(other);
      }
      txs.Put(tx);
      if costcap < tx.cost {
        costcap := tx.cost;
      }
      if gascap < tx.gas {
        gascap := tx.gas;
      }
      inserted := true;
    }

    method Forward(threshold: nat) returns (removed: seq<Tx>)
      requires Valid()
      modifies txs
      ensures Valid() && txs.items == From(old(txs.items), threshold)
      ensures removed == Flat(Below(old(txs.items), threshold))
    {
      removed := txs.Forward(threshold);
    }

    /** Drops what costs or burns too much; the caps skip the work without changing the outcome. */
    method Filter(costLimit: int, gasLimit: nat) returns (removed: seq<Tx>, invalids: seq<Tx>)
      requires Valid()
      modifies this, txs
      ensures Valid() && txs.items == Filtered(old(txs.items), costLimit, gasLimit, strict)
      ensures forall tx :: tx in removed <==> Holds(Unpayable(old(txs.items), costLimit, gasLimit), tx)
      ensures forall tx :: tx in invalids <==> Holds(Invalidated(old(txs.items), costLimit, gasLimit, strict), tx)
    {
      ghost var all := txs.items;
      if costcap <= costLimit && gascap <= gasLimit {
        WithinCaps(all, costLimit, gasLimit, strict);
        return [], [];
      }
      var tooMuch := (tx: Tx) => tx.cost > costLimit || tx.gas > gasLimit;
      removed := txs.Filter(tooMuch);
      costcap, gascap := costLimit, gasLimit;
      invalids := [];
      assert txs.items == Payable(all, costLimit, gasLimit);
      RemovedUnpayable(all, removed, costLimit, gasLimit);
      if strict && |removed| > 0 {
        invalids := Invalidate(all, costLimit, gasLimit, removed);
      } else {
        NoneRemoved(Unpayable(all, costLimit, gasLimit), removed);
      }
    }

    /** Filters anything above the lowest removed nonce. */
    method Invalidate(ghost all: Items, costLimit: int, gasLimit: nat, removed: seq<Tx>) returns (invalids: seq<Tx>)
      requires Valid() && ByNonce(all) && txs.items == Payable(all, costLimit, gasLimit) && |removed| > 0
      requires forall tx :: tx in removed <==> Holds(Unpayable(all, costLimit, gasLimit), tx)
      modifies txs
      ensures Valid() && txs.items == Filtered(all, costLimit, gasLimit, true)
      ensures forall tx :: tx in invalids <==> Holds(Invalidated(all, costLimit, gasLimit, true), tx)
    {
      var lowest := LowestNonce(removed);
      LowestIsLeast(Unpayable(all, costLimit, gasLimit), removed, lowest);
      var above := (tx: Tx) => tx.nonce > lowest;
      invalids := txs.Filter(above);
      AboveLowest(all, costLimit, gasLimit, lowest, above, invalids);
    }

    method Cap(threshold: nat) returns (drops: seq<Tx>)
      requires Valid()
      modifies txs
      ensures Valid() && txs.items == Lowest(old(txs.items), threshold)
      ensures Dropped(drops, old(txs.items), txs.items)
    {
      drops := txs.Cap(threshold);
    }

    /** Deletes the transaction with the same nonce; a strict list also gives up everything above. */
    method Remove(tx: Tx) returns (found: bool, invalids: seq<Tx>)
      requires Valid()
      modifies txs
      ensures Valid() && found == (tx.nonce in old(txs.items))
      ensures txs.items == if found && strict then Below(old(txs.items), tx.nonce) else old(txs.items) - {tx.nonce}
      ensures forall t :: t in invalids <==> found && strict && Holds(old(txs.items), t) && t.nonce > tx.nonce
    {
      ghost var all := txs.items;
      var nonce := tx.nonce;
      found := txs.Remove(nonce);
      invalids := [];
      if found && strict {
        var above := (t: Tx) => t.nonce > nonce;
        invalids := txs.Filter(above);
        assert Unmatched(all - {nonce}, above) == Below(all, nonce);
      }
    }

    method TakeReady(start: nat) returns (ready: seq<Tx>)
      requires Valid()
      modifies txs
      ensures Valid() && txs.items == old(txs.items) - Ready(old(txs.items), start).Keys
      ensures ready == Flat(Ready(old(txs.items), start))
    {
      ready := txs.TakeReady(start);
    }
  }

  lemma WithinCaps(m: Items, cost: int, gas: nat, strict: bool)
    requires forall n | n in m :: m[n].cost <= cost && m[n].gas <= gas
    ensures Unpayable(m, cost, gas) == map[] && Filtered(m, cost, gas, strict) == m
    ensures Invalidated(m, cost, gas, strict) == map[]
  {
  }

  lemma RemovedUnpayable(m: Items, removed: seq<Tx>, cost: int, gas: nat)
    requires forall tx :: tx in removed <==> Holds(m, tx) && (tx.cost > cost || tx.gas > gas)
    ensures forall tx :: tx in removed <==> Holds(Unpayable(m, cost, gas), tx)
  {
  }

  lemma NoneRemoved(gone: Items, removed: seq<Tx>)
    requires ByNonce(gone) && (forall tx :: tx in removed <==> Holds(gone, tx))
    ensures |removed| == 0 ==> gone == map[]
  {
    if n :| n in gone {
      assert Holds(gone, gone[n]);
    }
  }

  method LowestNonce(txs: seq<Tx>) returns (lowest: nat)
    requires |txs| > 0
    ensures (exists i :: 0 <= i < |txs| && txs[i].nonce == lowest)
    ensures forall i | 0 <= i < |txs| :: lowest <= txs[i].nonce
  {
    lowest := txs[0].nonce;
    for k := 1 to |txs|
      invariant exists i :: 0 <= i < k && txs[i].nonce == lowest
      invariant forall i | 0 <= i < k :: lowest <= txs[i].nonce
    {
      if lowest > txs[k].nonce {
        lowest := txs[k].nonce;
      }
    }
  }

  lemma LowestIsLeast(gone: Items, removed: seq<Tx>, lowest: nat)
    requires ByNonce(gone) && (forall tx :: tx in removed <==> Holds(gone, tx))
    requires exists i :: 0 <= i < |removed| && removed[i].nonce == lowest
    requires forall i | 0 <= i < |removed| :: lowest <= removed[i].nonce
    ensures gone != map[] && lowest == Least(gone)
  {
    var i :| 0 <= i < |removed| && removed[i].nonce == lowest;
    assert Holds(gone, removed[i]);
    forall k | k in gone ensures lowest <= k {
      assert Holds(gone, gone[k]);
    }
    LeastIs(gone, lowest);
  }

  lemma AboveLowest(m: Items, cost: int, gas: nat, lowest: nat, above: Tx -> bool, invalids: seq<Tx>)
    requires ByNonce(m) && forall tx: Tx :: above(tx) == (tx.nonce > lowest)
    requires Unpayable(m, cost, gas) != map[] && lowest == Least(Unpayable(m, cost, gas))
    requires forall tx :: tx in invalids <==> Holds(Payable(m, cost, gas), tx) && above(tx)
    ensures Unmatched(Payable(m, cost, gas), above) == Below(m, lowest)
    ensures forall tx :: tx in invalids <==> Holds(From(Payable(m, cost, gas), lowest), tx)
  {
    var gone, kept := Unpayable(m, cost, gas), Payable(m, cost, gas);
    forall n | n in m && n < lowest ensures n in kept {
      assert n !in gone;
    }
    forall n | n in kept ensures n != lowest {
      assert lowest in gone;
    }
  }

  /** `all` is `low` and `high` together, every nonce of `low` below every nonce of `high`. */
  ghost predicate Parted(all: Items, low: Items, high: Items) {
    && all == low + high
    && forall n, k | n in low && k in high :: n < k
  }

  /** Moving the least of the high part to the low part. */
  lemma PartedStep(all: Items, low: Items, high: Items)
    requires Parted(all, low, high) && high != map[]
    ensures var l := Least(high); Parted(all, low[l := high[l]], high - {l})
  {
  }

  lemma LeastAtLeast(index: seq<nat>, m: Items, t: nat)
    requires Indexes(index, m) && (|index| > 0 ==> index[0] >= t)
    ensures forall n | n in m :: t <= n
  {
    if |index| > 0 {
      RootIsLeastKey(index, m);
    } else {
      EmptyIndex(index, m);
    }
  }

  lemma PartedAt(all: Items, low: Items, high: Items, t: nat)
    requires Parted(all, low, high)
    requires (forall n | n in low :: n < t) && (forall k | k in high :: t <= k)
    ensures low == Below(all, t) && high == From(all, t)
  {
  }

  function Unmatched(m: Items, filter: Tx -> bool): Items {
    map n | n in m && !filter(m[n]) :: m[n]
  }

  method Collect(m: Items, filter: Tx -> bool) returns (removed: seq<Tx>)
    requires ByNonce(m)
    ensures forall tx :: tx in removed <==> Holds(m, tx) && filter(tx)
    ensures forall i, j | 0 <= i < j < |removed| :: removed[i] != removed[j]
  {
    removed := [];
    var todo := m.Keys;
    while todo != {}
      invariant todo <= m.Keys
      invariant forall tx :: tx in removed <==> Holds(m, tx) && filter(tx) && tx.nonce !in todo
      invariant forall i, j | 0 <= i < j < |removed| :: removed[i] != removed[j]
      decreases |todo|
    {
      var n :| n in todo;
      if filter(m[n]) {
        assert m[n] !in removed;
        removed := removed + [m[n]];
      }
      todo := todo - {n};
    }
  }

  method KeysOf(m: Items) returns (keys: seq<nat>)
    ensures Heaps.Distinct(keys) && forall n :: n in keys <==> n in m
  {
    keys := [];
    var todo := m.Keys;
    while todo != {}
      invariant todo <= m.Keys
      invariant Heaps.Distinct(keys) && forall n :: n in keys <==> n in m && n !in todo
      decreases |todo|
    {
      var n :| n in todo;
      keys := keys + [n];
      todo := todo - {n};
    }
  }

  /** Sorts the index, cuts off the highest nonces and restores the heap. */
  method CutTo(m: Items, index: seq<nat>, threshold: nat) returns (drops: seq<Tx>, rest: Items, heap: seq<nat>)
    requires ByNonce(m) && Indexes(index, m) && threshold <= |m|
    ensures rest == Lowest(m, threshold) && Indexes(heap, rest)
    ensures Dropped(drops, m, rest) && |drops| == |m| - threshold
  {
    var sorted := SortIndex(index, m);
    drops, rest := DropHighest(m, sorted, threshold);
    heap := Heaps.Init(sorted[..threshold]);
  }

  method SortIndex(index: seq<nat>, ghost m: Items) returns (sorted: seq<nat>)
    requires Indexes(index, m)
    ensures Sorts(sorted, m)
  {
    IndexSize(index, m);
    sorted := Heaps.Sort(index);
  }

  /** Gathers and drops the highest nonces of a sorted index. */
  method DropHighest(m: Items, index: seq<nat>, threshold: nat) returns (drops: seq<Tx>, rest: Items)
    requires ByNonce(m) && Sorts(index, m) && threshold <= |m|
    ensures rest == Lowest(m, threshold) && Sorts(index[..threshold], rest)
    ensures Dropped(drops, m, rest) && |drops| == |m| - threshold
  {
    drops, rest := [], m;
    var size := |m|;
    assert index[..size] == index;
    while size > threshold
      invariant threshold <= size <= |m|
      invariant rest == Lowest(m, size) && Sorts(index[..size], rest)
      invariant Dropped(drops, m, rest) && |drops| == |m| - size
    {
      var nonce := index[size - 1];
      CutStep(m, index, size, nonce);
      DroppedStep(drops, m, rest, nonce);
      drops := drops + [rest[nonce]];
      rest := rest - {nonce};
      size := size - 1;
    }
  }

  /** Accumulates incremental transactions from the heap. */
  method PopStreak(m: Items, heap: seq<nat>) returns (ready: seq<Tx>, rest: Items, index: seq<nat>)
    requires ByNonce(m) && Indexes(heap, m) && |heap| > 0
    ensures Indexes(index, rest) && m != map[]
    ensures rest == m - Streak(m, Least(m)).Keys
    ensures ready == Flat(Streak(m, Least(m)))
  {
    RootIsLeastKey(heap, m);
    ready, rest, index := [], m, heap;
    var next := index[0];
    Untouched(m, next);
    while |index| > 0 && index[0] == next
      invariant Indexes(index, rest)
      invariant Underway(m, next, ready, rest)
      decreases |index|
    {
      assert next in index;
      UnderwayStep(m, next, ready, rest);
      ready, rest := ready + [rest[next]], rest - {next};
      index := PopIndex(index, rest, next);
      next := next + 1;
    }
    UnderwayDone(m, next, ready, rest, index);
  }

  /** Takes the root off the index. */
  method PopIndex(index: seq<nat>, ghost rest: Items, n: nat) returns (r: seq<nat>)
    requires Heaps.IsHeap(index) && Heaps.Distinct(index) && index != [] && index[0] == n
    requires forall x :: x in index <==> x in rest || x == n
    requires n !in rest
    ensures Indexes(r, rest) && |r| < |index|
  {
    var nonce;
    nonce, r := Heaps.Pop(index);
  }

  /** The transactions of sorted nonces. */
  method Lookup(m: Items, sorted: seq<nat>) returns (txs: seq<Tx>)
    requires ByNonce(m) && Sorts(sorted, m)
    ensures txs == Flat(m)
  {
    SortedFlat(m, sorted);
    txs := [];
    for i := 0 to |sorted|
      invariant |txs| == i && forall k | 0 <= k < i :: txs[k] == Flat(m)[k]
    {
      assert sorted[i] in sorted;
      txs := txs + [m[sorted[i]]];
    }
  }

  lemma {:induction false} SortedFlat(m: Items, sorted: seq<nat>)
    requires Sorts(sorted, m)
    ensures |Flat(m)| == |sorted|
    ensures forall i | 0 <= i < |sorted| :: sorted[i] in m && Flat(m)[i] == m[sorted[i]]
  {
    if sorted != [] {
      var init, last := sorted[..|sorted| - 1], sorted[|sorted| - 1];
      SortedIndex(sorted, m, init, last);
      SortedFlat(m - {last}, init);
      FlatLast(m, last);
    }
  }

  // ---- Cutting off the highest nonces -----------------------------------------------------------

  /** The last of the first `k` sorted keys is the one that the limit `k - 1` drops. */
  lemma CutStep(m: Items, index: seq<nat>, k: nat, n: nat)
    requires 0 < k <= |m| && k <= |index| && n == index[k - 1] && Sorts(index[..k], Lowest(m, k))
    ensures n in Lowest(m, k) && Lowest(m, k - 1) == Lowest(m, k) - {n}
    ensures Sorts(index[..k - 1], Lowest(m, k - 1))
  {
    assert index[..k] == index[..k - 1] + [n];
    SortedIndex(index[..k], Lowest(m, k), index[..k - 1], n);
    LowestStep(m, k - 1);
  }

  /** The cached order of what a limit leaves. */
  lemma CutSorted(m: Items, k: nat, cache: seq<Tx>)
    requires cache == Flat(m) && k <= |m|
    ensures |cache| == |m| && cache[..k] == Flat(Lowest(m, k))
  {
    FlatLowest(m, k);
  }

  lemma NothingToCut(m: Items, k: nat)
    requires |m| <= k
    ensures Lowest(m, k) == m && Dropped([], m, m)
  {
  }

  /** Exactly the transactions of `all` missing from `rest` were dropped. */
  ghost predicate Dropped(drops: seq<Tx>, all: Items, rest: Items) {
    forall tx :: tx in drops <==> Holds(all, tx) && tx.nonce !in rest
  }

  lemma DroppedStep(drops: seq<Tx>, all: Items, rest: Items, n: nat)
    requires Dropped(drops, all, rest) && n in rest && n in all && rest[n] == all[n] && all[n].nonce == n
    ensures Dropped(drops + [all[n]], all, rest - {n})
  {
    forall tx ensures tx in drops + [all[n]] <==> Holds(all, tx) && tx.nonce !in rest - {n} {
      assert tx in drops + [all[n]] <==> tx in drops || tx == all[n];
    }
  }

  // ---- Collecting a run of nonces -----------------------------------------------------------------

  /** Every nonce from the least up to `next` is there, and has been moved to `ready`. */
  ghost predicate Underway(m: Items, next: nat, ready: seq<Tx>, rest: Items) {
    && m != map[] && Least(m) <= next && (forall n | Least(m) <= n < next :: n in m)
    && rest == From(m, next) && ready == Flat(Below(m, next))
  }

  lemma Untouched(m: Items, least: nat)
    requires m != map[] && least == Least(m)
    ensures Underway(m, least, [], m)
  {
    assert Below(m, least) == map[] && From(m, least) == m;
  }

  lemma UnderwayStep(m: Items, next: nat, ready: seq<Tx>, rest: Items)
    requires Underway(m, next, ready, rest) && ByNonce(m) && next in rest
    ensures Underway(m, next + 1, ready + [rest[next]], rest - {next})
  {
    StepSplit(m, next);
    FlatSnoc(Below(m, next), m[next]);
  }

  lemma StepSplit(m: Items, n: nat)
    requires n in m
    ensures Below(m, n + 1) == Below(m, n)[n := m[n]] && From(m, n + 1) == From(m, n) - {n}
  {
  }

  lemma UnderwayDone(m: Items, next: nat, ready: seq<Tx>, rest: Items, index: seq<nat>)
    requires Underway(m, next, ready, rest) && Indexes(index, rest) && (|index| > 0 ==> index[0] != next)
    ensures ready == Flat(Streak(m, Least(m))) && rest == m - Streak(m, Least(m)).Keys
  {
    assert next !in m by {
      RunEnds(m, next, index);
    }
    BrokenAt(m, Least(m), next);
  }

  lemma RunEnds(m: Items, next: nat, index: seq<nat>)
    requires Indexes(index, From(m, next)) && (|index| > 0 ==> index[0] != next)
    ensures next !in m
  {
    if next in m {
      assert next in From(m, next);
      assert next in index;
      RootIsLeastKey(index, From(m, next));
    }
  }

  lemma BrokenAt(m: Items, least: nat, next: nat)
    requires (forall n | n in m :: least <= n) && (forall n | least <= n < next :: n in m)
    requires least <= next && next !in m
    ensures Below(m, next) == Streak(m, least) && From(m, next) == m - Streak(m, least).Keys
  {
    forall k | k in m && k > next ensures !Unbroken(m, least, k) {
      assert next !in m;
    }
  }

  lemma NoneReady(m: Items, start: nat)
    requires m == map[] || Least(m) > start
    ensures Flat(Ready(m, start)) == [] && m - Ready(m, start).Keys == m
  {
  }
}
