/**
 The price-ordered list of all pooled transactions. Transactions leave the pool without
 leaving the heap, so the heap may hold stale entries; every query steps over them.

 The heap is a bag from which the library takes some entry that no other entry is worse than.
 */
module TxPriced {
  import opened Transactions

  /** The heap's order: the lower price is worse, then the higher nonce. */
  predicate Worse(a: Tx, b: Tx) {
    a.price < b.price || (a.price == b.price && a.nonce > b.nonce)
  }

  predicate Worst(h: multiset<Tx>, tx: Tx) {
    tx in h && forall t | t in h :: !Worse(t, tx)
  }

  lemma {:induction false} WorstExists(h: multiset<Tx>)
    requires h != multiset{}
    ensures exists tx :: Worst(h, tx)
    decreases |h|
  {
    var some :| some in h;
    var rest := h - multiset{some};
    assert forall t | t in h :: t == some || t in rest;
    if rest == multiset{} {
      assert Worst(h, some);
    } else {
      WorstExists(rest);
      var w :| Worst(rest, w);
      assert Worst(h, if Worse(some, w) then some else w);
    }
  }

  /** The root of the heap. */
  method Root(h: multiset<Tx>) returns (tx: Tx)
    requires h != multiset{}
    ensures Worst(h, tx)
  {
    WorstExists(h);
    tx :| Worst(h, tx);
  }

  predicate Remote(tx: Tx, locals: set<Address>) {
    tx.from !in locals
  }

  /** Every live transaction has an entry, or is one of `out`. */
  predicate Covers(items: multiset<Tx>, all: set<Tx>, out: seq<Tx>) {
    forall tx | tx in all :: tx in items || tx in out
  }

  /** No live transaction lost its last entry or gained one. */
  predicate Keeps(before: multiset<Tx>, after: multiset<Tx>, all: set<Tx>) {
    forall tx | tx in all && tx in before :: 1 <= after[tx] <= before[tx]
  }

  class TxPricedList {
    var items: multiset<Tx>
    var stales: int

    constructor ()
      ensures items == multiset{} && stales == 0
    {
      items, stales := multiset{}, 0;
    }

    predicate Tracks(all: set<Tx>)
      reads this
    {
      forall tx | tx in all :: tx in items
    }

    method Put(tx: Tx)
      modifies this
      ensures items == old(items) + multiset{tx} && stales == old(stales)
    {
      items := items + multiset{tx};
    }

    /** A transaction left the pool: count one more stale entry, or rebuild the heap. */
    method Removed(all: set<Tx>)
      modifies this
      ensures Keeps(old(items), items, all)
      ensures if old(stales) + 1 <= |old(items)| / 4
              then items == old(items) && stales == old(stales) + 1
              else items == multiset(all) && stales == 0
    {
      stales := stales + 1;
      if stales <= |items| / 4 {
        return;
      }
      stales, items := 0, multiset(all);
    }

    /** Takes out exactly the remote transactions below the threshold. */
    method Cap(threshold: nat, all: set<Tx>, locals: set<Address>) returns (drop: seq<Tx>)
      requires Tracks(all)
      modifies this
      ensures forall tx :: tx in drop <==> tx in all && Remote(tx, locals) && tx.price < threshold
      ensures Covers(items, all, drop) && items <= old(items)
      ensures |items| + |drop| - stales == old(|items| - stales)
    {
      var save;
      drop, save := Drain(threshold, all, locals);
      items := items + multiset(save);
    }

    /** Pops entries until a live one reaches the threshold, setting the local ones aside. */
    method Drain(threshold: nat, all: set<Tx>, locals: set<Address>) returns (drop: seq<Tx>, save: seq<Tx>)
      requires Tracks(all)
      modifies this
      ensures forall tx :: tx in drop <==> tx in all && Remote(tx, locals) && tx.price < threshold
      ensures Covers(items, all, drop + save) && items + multiset(save) <= old(items)
      ensures |items| + |drop| + |save| - stales == old(|items| - stales)
    {
      drop, save := [], [];
      ghost var before, gone := items, multiset{};
      while |items| > 0
        invariant Popped(before, items, drop, save, gone, all) && stales + |gone| == old(stales)
        invariant forall tx | tx in drop :: tx in all && Remote(tx, locals) && tx.price < threshold
        invariant forall tx | tx in save :: Remote(tx, locals) ==> tx.price >= threshold
        decreases |items|
      {
        var tx := Root(items);
        PopOne(before, items, drop, save, gone, all, tx);
        items := items - multiset{tx};
        if tx !in all {
          stales := stales - 1;
          gone := gone + multiset{tx};
          continue;
        }
        if tx.price >= threshold {
          save := save + [tx];
          break;
        }
        if Remote(tx, locals) {
          drop := drop + [tx];
        } else {
          save := save + [tx];
        }
      }
      DrainedExactly(before, items, drop, save, gone, all, locals, threshold);
    }

    /**
     Whether no live transaction is cheaper than the given one: the same answer as a scan of
     all of them, although the heap may be full of stale entries.
     */
    method Underpriced(tx: Tx, all: set<Tx>, locals: set<Address>) returns (under: bool)
      requires Tracks(all)
      modifies this
      ensures Tracks(all) && items <= old(items) && |items| - stales == old(|items| - stales)
      ensures under <==> Remote(tx, locals) && all != {} && forall t | t in all :: t.price >= tx.price
    {
      if !Remote(tx, locals) {
        return false;
      }
      ghost var count := |items| - stales;
      while |items| > 0
        invariant Tracks(all) && items <= old(items) && |items| - stales == count
        decreases |items|
      {
        var head := Root(items);
        if head in all {
          return head.price >= tx.price;
        }
        stales := stales - 1;
        items := items - multiset{head};
      }
      return false;
    }

    /**
     Takes out the worst remote entries: `count` of them, or else every one, and then no stale
     entry is left either. No remote entry that stays is worse than one taken out.
     */
    method Discard(count: nat, all: set<Tx>, locals: set<Address>) returns (drop: seq<Tx>)
      requires Tracks(all)
      modifies this
      ensures Discarded(old(items), all, locals, count, drop)
      ensures Covers(items, all, drop) && items <= old(items)
      ensures |drop| < count ==> forall tx | tx in items :: tx in all && !Remote(tx, locals)
      ensures |items| + |drop| - stales == old(|items| - stales)
    {
      var save;
      drop, save := Skim(count, all, locals);
      items := items + multiset(save);
    }

    /** Pops entries until enough remote ones are found, setting the local ones aside. */
    method Skim(count: nat, all: set<Tx>, locals: set<Address>) returns (drop: seq<Tx>, save: seq<Tx>)
      requires Tracks(all)
      modifies this
      ensures Discarded(old(items), all, locals, count, drop)
      ensures Covers(items, all, drop + save) && items + multiset(save) <= old(items)
      ensures forall tx | tx in save :: tx in all && !Remote(tx, locals)
      ensures |drop| < count ==> items == multiset{}
      ensures |items| + |drop| + |save| - stales == old(|items| - stales)
    {
      drop, save := [], [];
      ghost var before, gone := items, multiset{};
      var left := count;
      while |items| > 0 && left > 0
        invariant Popped(before, items, drop, save, gone, all) && stales + |gone| == old(stales)
        invariant |drop| + left == count
        invariant forall tx | tx in drop :: tx in all && Remote(tx, locals)
        invariant forall tx | tx in save :: tx in all && !Remote(tx, locals)
        invariant forall t, d | t in items && d in drop :: !Worse(t, d)
        decreases |items|
      {
        var tx := Root(items);
        PopOne(before, items, drop, save, gone, all, tx);
        items := items - multiset{tx};
        if tx !in all {
          stales := stales - 1;
          gone := gone + multiset{tx};
          continue;
        }
        if Remote(tx, locals) {
          drop := drop + [tx];
          left := left - 1;
        } else {
          save := save + [tx];
        }
      }
      PoppedMeans(before, items, drop, save, gone, all);
      SkimmedDiscards(before, items, all, locals, count, drop, save, gone);
    }
  }

  /** Every entry of `before` is still there, or was dropped, saved or found stale. */
  ghost predicate Popped(before: multiset<Tx>, items: multiset<Tx>, drop: seq<Tx>, save: seq<Tx>, gone: multiset<Tx>, all: set<Tx>) {
    items + multiset(drop) + multiset(save) + gone == before && forall tx | tx in gone :: tx !in all
  }

  lemma PopOne(before: multiset<Tx>, items: multiset<Tx>, drop: seq<Tx>, save: seq<Tx>, gone: multiset<Tx>, all: set<Tx>, tx: Tx)
    requires Popped(before, items, drop, save, gone, all) && tx in items
    ensures tx !in all ==> Popped(before, items - multiset{tx}, drop, save, gone + multiset{tx}, all)
    ensures Popped(before, items - multiset{tx}, drop + [tx], save, gone, all)
    ensures Popped(before, items - multiset{tx}, drop, save + [tx], gone, all)
  {
    assert multiset(drop + [tx]) == multiset(drop) + multiset{tx};
    assert multiset(save + [tx]) == multiset(save) + multiset{tx};
  }

  lemma PoppedMeans(before: multiset<Tx>, items: multiset<Tx>, drop: seq<Tx>, save: seq<Tx>, gone: multiset<Tx>, all: set<Tx>)
    requires Popped(before, items, drop, save, gone, all)
    ensures items + multiset(save) <= before
    ensures (forall tx | tx in all :: tx in before) ==> Covers(items, all, drop + save)
    ensures |items| + |drop| + |save| + |gone| == |before|
  {
    if forall tx | tx in all :: tx in before {
      forall tx | tx in all ensures tx in items || tx in drop + save {
        assert tx in before && tx !in gone;
      }
    }
  }

  // ---- What a discard takes out ---------------------------------------------------------------------

  /**
   `drop` are remote live entries of the heap, `count` of them or all there are, and no remote
   live entry left behind is worse than one of them.
   */
  ghost predicate Discarded(items: multiset<Tx>, all: set<Tx>, locals: set<Address>, count: nat, drop: seq<Tx>) {
    && |drop| <= count && multiset(drop) <= items
    && (forall tx | tx in drop :: tx in all && Remote(tx, locals))
    && (forall t, d | t in items - multiset(drop) && t in all && Remote(t, locals) && d in drop :: !Worse(t, d))
    && (|drop| < count ==> forall tx | tx in all && Remote(tx, locals) :: multiset(drop)[tx] == items[tx])
  }

  lemma SkimmedDiscards(before: multiset<Tx>, items: multiset<Tx>, all: set<Tx>, locals: set<Address>, count: nat,
                        drop: seq<Tx>, save: seq<Tx>, gone: multiset<Tx>)
    requires Popped(before, items, drop, save, gone, all)
    requires |drop| <= count && (|drop| < count ==> items == multiset{})
    requires forall tx | tx in drop :: tx in all && Remote(tx, locals)
    requires forall tx | tx in save :: tx in all && !Remote(tx, locals)
    requires forall t, d | t in items && d in drop :: !Worse(t, d)
    ensures Discarded(before, all, locals, count, drop)
  {
    forall tx | tx in all && Remote(tx, locals) ensures before[tx] == items[tx] + multiset(drop)[tx] {
      assert tx !in save && tx !in gone;
    }
  }

  lemma DrainedExactly(before: multiset<Tx>, items: multiset<Tx>, drop: seq<Tx>, save: seq<Tx>, gone: multiset<Tx>, all: set<Tx>,
                       locals: set<Address>, threshold: nat)
    requires Popped(before, items, drop, save, gone, all) && forall tx | tx in all :: tx in before
    requires forall tx | tx in drop :: tx in all && Remote(tx, locals) && tx.price < threshold
    requires forall tx | tx in save :: Remote(tx, locals) ==> tx.price >= threshold
    requires forall tx | tx in items :: tx.price >= threshold
    ensures forall tx :: tx in drop <==> tx in all && Remote(tx, locals) && tx.price < threshold
    ensures Covers(items, all, drop + save) && items + multiset(save) <= before
    ensures |items| + |drop| + |save| + |gone| == |before|
  {
    PoppedMeans(before, items, drop, save, gone, all);
    forall tx | tx in all && Remote(tx, locals) && tx.price < threshold ensures tx in drop {
      assert tx in items || tx in drop + save;
    }
  }

  function RemoteOf(all: set<Tx>, locals: set<Address>): set<Tx> {
    set tx | tx in all && Remote(tx, locals)
  }

  /** Every live remote transaction has exactly one entry. */
  predicate Single(items: multiset<Tx>, all: set<Tx>, locals: set<Address>) {
    forall tx | tx in all && Remote(tx, locals) :: items[tx] == 1
  }

  predicate NoRepeats(s: seq<Tx>) {
    forall i, j | 0 <= i < j < |s| :: s[i] != s[j]
  }

  /** With one entry each, as many transactions leave as asked for, or every remote one. */
  lemma SingleMakesRoom(items: multiset<Tx>, all: set<Tx>, locals: set<Address>, count: nat, drop: seq<Tx>)
    requires Single(items, all, locals) && Discarded(items, all, locals, count, drop)
    ensures NoRepeats(drop)
    ensures |drop| == if count <= |RemoteOf(all, locals)| then count else |RemoteOf(all, locals)|
  {
    assert NoRepeats(drop) by {
      forall i, j | 0 <= i < j < |drop| ensures drop[i] != drop[j] {
        assert drop[i] in all;
        if drop[i] == drop[j] {
          TwiceIn(drop, i, j);
        }
      }
    }
    DistinctSize(drop);
    var gone := set tx | tx in drop;
    SubsetSize(gone, RemoteOf(all, locals));
    if |drop| < count {
      assert gone == RemoteOf(all, locals) by {
        forall tx | tx in RemoteOf(all, locals) ensures tx in drop {
          assert multiset(drop)[tx] == 1;
        }
      }
    }
  }

  /**
   A discard of everything repeats a transaction exactly when some live remote transaction has
   more than one entry.
   */
  lemma RepeatsIff(items: multiset<Tx>, all: set<Tx>, locals: set<Address>, count: nat, drop: seq<Tx>)
    requires forall tx | tx in all :: tx in items
    requires Discarded(items, all, locals, count, drop) && count >= |items|
    ensures NoRepeats(drop) <==> Single(items, all, locals)
    ensures forall tx | tx in all && Remote(tx, locals) :: multiset(drop)[tx] == items[tx]
  {
    if |drop| == count {
      assert |items - multiset(drop)| == 0;
      assert items - multiset(drop) == multiset{};
      assert items == multiset(drop);
    }
    if Single(items, all, locals) {
      SingleMakesRoom(items, all, locals, count, drop);
    }
    if NoRepeats(drop) {
      forall tx | tx in all && Remote(tx, locals) ensures items[tx] == 1 {
        OnceIn(drop, tx);
      }
    }
  }

  /** The entries of live remote transactions that leave the heap before `tx`. */
  ghost function Before(items: multiset<Tx>, all: set<Tx>, locals: set<Address>, tx: Tx): (w: multiset<Tx>)
    ensures forall t :: w[t] == if t in all && Remote(t, locals) && Worse(t, tx) then items[t] else 0
    decreases |items|
  {
    if items == multiset{} then multiset{}
    else
      var t :| t in items;
      var w := Before(items[t := 0], all, locals, tx);
      if t in all && Remote(t, locals) && Worse(t, tx) then w[t := items[t]] else w
  }

  /** The heap's order decides between any two live remote transactions. */
  ghost predicate NoTies(all: set<Tx>, locals: set<Address>) {
    forall t, u | t in all && u in all && Remote(t, locals) && Remote(u, locals) && t != u :: Worse(t, u) || Worse(u, t)
  }

  /** Two entries of `tx` are among the first `count` to leave the heap. */
  ghost predicate LeavesTwice(items: multiset<Tx>, all: set<Tx>, locals: set<Address>, count: nat, tx: Tx) {
    tx in all && Remote(tx, locals) && items[tx] >= 2 && |Before(items, all, locals, tx)| + 2 <= count
  }

  /**
   A discard repeats a transaction only if two of its entries are among the first to go, and,
   unless the order leaves a tie, exactly then.
   */
  lemma RepeatsExactly(items: multiset<Tx>, all: set<Tx>, locals: set<Address>, count: nat, drop: seq<Tx>)
    requires Discarded(items, all, locals, count, drop)
    ensures !NoRepeats(drop) ==> exists tx :: LeavesTwice(items, all, locals, count, tx)
    ensures NoTies(all, locals) && (exists tx :: LeavesTwice(items, all, locals, count, tx)) ==> !NoRepeats(drop)
  {
    if i, j :| 0 <= i < j < |drop| && drop[i] == drop[j] {
      TwiceIn(drop, i, j);
      RepeatedLeavesTwice(items, all, locals, count, drop, drop[i]);
    }
    if NoTies(all, locals) {
      forall tx | LeavesTwice(items, all, locals, count, tx) ensures !NoRepeats(drop) {
        LeavingTwiceRepeats(items, all, locals, count, drop, tx);
        if NoRepeats(drop) {
          OnceIn(drop, tx);
        }
      }
    }
  }

  lemma RepeatedLeavesTwice(items: multiset<Tx>, all: set<Tx>, locals: set<Address>, count: nat, drop: seq<Tx>, tx: Tx)
    requires Discarded(items, all, locals, count, drop) && multiset(drop)[tx] >= 2
    ensures LeavesTwice(items, all, locals, count, tx)
  {
    var w := Before(items, all, locals, tx);
    assert tx in drop;
    forall t ensures (w + multiset{tx, tx})[t] <= multiset(drop)[t] {
      assert w[t] > multiset(drop)[t] ==> t in items - multiset(drop);
    }
    assert w + multiset{tx, tx} <= multiset(drop);
    SmallerBag(w + multiset{tx, tx}, multiset(drop));
  }

  lemma LeavingTwiceRepeats(items: multiset<Tx>, all: set<Tx>, locals: set<Address>, count: nat, drop: seq<Tx>, tx: Tx)
    requires Discarded(items, all, locals, count, drop) && NoTies(all, locals) && LeavesTwice(items, all, locals, count, tx)
    ensures multiset(drop)[tx] >= 2
  {
    if multiset(drop)[tx] < 2 {
      var w := Before(items, all, locals, tx);
      assert tx in items - multiset(drop);
      forall t ensures multiset(drop)[t] <= (w + multiset{tx})[t] {
        if t in drop && t != tx {
          assert !Worse(tx, t);
          assert Worse(t, tx);
        }
      }
      SmallerBag(multiset(drop), w + multiset{tx});
    }
  }

  lemma SmallerBag<T>(a: multiset<T>, b: multiset<T>)
    requires a <= b
    ensures |a| <= |b|
  {
    assert b == a + (b - a);
  }

  lemma TwiceIn(s: seq<Tx>, i: nat, j: nat)
    requires i < j < |s| && s[i] == s[j]
    ensures multiset(s)[s[i]] >= 2
  {
    assert s == s[..j] + s[j..];
    assert s[..j][i] in s[..j] && s[j..][0] in s[j..];
  }

  lemma {:induction false} OnceIn(s: seq<Tx>, tx: Tx)
    requires NoRepeats(s)
    ensures multiset(s)[tx] <= 1
  {
    if s != [] {
      assert s == [s[0]] + s[1..];
      OnceIn(s[1..], tx);
      assert s[0] !in s[1..];
    }
  }

  lemma {:induction false} DistinctSize(s: seq<Tx>)
    requires NoRepeats(s)
    ensures |s| == |set tx | tx in s|
  {
    if s != [] {
      assert s == [s[0]] + s[1..];
      DistinctSize(s[1..]);
      assert (set tx | tx in s) == (set tx | tx in s[1..]) + {s[0]};
    }
  }

  lemma {:induction false} SubsetSize<T>(a: set<T>, b: set<T>)
    requires a <= b
    ensures |a| <= |b| && (|a| == |b| ==> a == b)
  {
    if x :| x in a {
      SubsetSize(a - {x}, b - {x});
    } else {
      assert |b| == 0 ==> b == {};
    }
  }

  /**
   A heap as eviction and a second addition leave it: one of four live transactions has two
   entries. Asked to take out two transactions, the list returns the same one twice.
   */
  method DiscardTwice(tx: Tx, u: Tx, v: Tx, w: Tx) returns (list: TxPricedList, all: set<Tx>, drop: seq<Tx>)
    requires tx.price < u.price < v.price < w.price
    ensures all == {tx, u, v, w} && list.Tracks({u, v, w}) && drop == [tx, tx]
  {
    list := TwoEntries(tx, u, v, w);
    all := {tx, u, v, w};
    drop := list.Discard(2, all, {});
    TwoOfTwo(tx, u, v, w, drop);
  }

  method TwoEntries(tx: Tx, u: Tx, v: Tx, w: Tx) returns (list: TxPricedList)
    requires tx.price < u.price < v.price < w.price
    ensures fresh(list) && list.items == multiset{tx, tx, u, v, w}
  {
    list := new TxPricedList();
    list.Put(tx);
    list.Put(u);
    list.Put(v);
    list.Put(w);
    list.Removed({u, v, w});
    list.Put(tx);
    assert list.items == multiset{tx, tx, u, v, w};
  }

  lemma TwoOfTwo(tx: Tx, u: Tx, v: Tx, w: Tx, drop: seq<Tx>)
    requires tx.price < u.price < v.price < w.price
    requires Discarded(multiset{tx, tx, u, v, w}, {tx, u, v, w}, {}, 2, drop)
    ensures drop == [tx, tx]
  {
    var items := multiset{tx, tx, u, v, w};
    assert items[tx] == 2 && multiset(drop)[tx] <= |multiset(drop)| == |drop|;
    assert drop == [drop[0], drop[1]];
    var d := if drop[0] != tx then drop[0] else drop[1];
    assert d in drop && d in {tx, u, v, w};
    assert d != tx ==> tx in items - multiset(drop);
  }
}
