/**
 Sharing out the pending slots: remote accounts are cut down to a common level, like water
 finding its level, until the total fits or the level reaches the guaranteed allowance.
 */
module FairShare {
  import opened Transactions
  import opened PoolLists
  import opened PoolRules

  /** Every remote list cut down to `level`. */
  function Levelled(lists: Lists, locals: set<Address>, level: nat): Lists {
    map a | a in lists :: Capped(lists[a], a, locals, level)
  }

  /** In the middle of lowering the level by one: the accounts of `done` have been cut. */
  function Mixed(lists: Lists, locals: set<Address>, level: nat, done: set<Address>): Lists
    requires level > 0
  {
    map a | a in lists :: if a in done then Lowest(lists[a], level - 1) else Capped(lists[a], a, locals, level)
  }

  lemma MixedNone(lists: Lists, locals: set<Address>, level: nat)
    requires level > 0
    ensures Mixed(lists, locals, level, {}) == Levelled(lists, locals, level)
  {
  }

  /** Everything above the limit goes; a lower limit overrides a higher one. */
  lemma {:induction false} LowestTwice(m: Items, k: nat, j: nat)
    requires j <= k
    ensures Lowest(Lowest(m, k), j) == Lowest(m, j)
    decreases |m|
  {
    if |m| > k {
      Smaller(m, Greatest(m));
      LowestTwice(m - {Greatest(m)}, k, j);
    }
  }

  /** Cutting one account. */
  lemma MixedOne(lists: Lists, locals: set<Address>, level: nat, done: set<Address>, a: Address)
    requires level > 1 && a in lists && a !in locals && a !in done && |lists[a]| >= level
    ensures var cur := Mixed(lists, locals, level, done);
            && a in cur && |cur[a]| == level
            && Put(cur, a, Lowest(cur[a], level - 1)) == Mixed(lists, locals, level, done + {a})
  {
    var cur := Mixed(lists, locals, level, done);
    LowestTwice(lists[a], level, level - 1);
    assert cur[a] == Lowest(lists[a], level);
    MixedPut(lists, locals, level, done, a);
  }

  lemma MixedPut(lists: Lists, locals: set<Address>, level: nat, done: set<Address>, a: Address)
    requires level > 1 && a in lists && |lists[a]| >= level
    ensures Put(Mixed(lists, locals, level, done), a, Lowest(lists[a], level - 1)) == Mixed(lists, locals, level, done + {a})
  {
    assert |Lowest(lists[a], level - 1)| > 0;
    assert Lowest(lists[a], level - 1) != map[];
  }

  /** Once everything that reached the level is cut, the level is one lower. */
  lemma MixedAll(lists: Lists, locals: set<Address>, level: nat, done: set<Address>)
    requires level > 0
    requires forall a | a in lists && a !in locals && a !in done :: |lists[a]| < level
    requires forall a | a in done :: a !in locals
    ensures Mixed(lists, locals, level, done) == Levelled(lists, locals, level - 1)
  {
    forall a | a in lists
      ensures (if a in done then Lowest(lists[a], level - 1) else Capped(lists[a], a, locals, level)) == Capped(lists[a], a, locals, level - 1)
    {
    }
  }

  /** A level that no remote list exceeds changes nothing. */
  lemma LevelledSame(lists: Lists, locals: set<Address>, level: nat)
    requires forall a | a in lists && a !in locals :: |lists[a]| <= level
    ensures Levelled(lists, locals, level) == lists
  {
    forall a | a in lists ensures Capped(lists[a], a, locals, level) == lists[a] {
    }
  }

  lemma SizeBounds(lists: Lists, a: Address)
    requires a in lists
    ensures |lists[a]| <= Size(lists)
  {
    SizeWithout(lists, a);
  }

  lemma LowestButOne(m: Items)
    requires m != map[]
    ensures Lowest(m, |m| - 1) == m - {Greatest(m)} == Below(m, Greatest(m))
  {
    Smaller(m, Greatest(m));
    BelowGreatest(m, Greatest(m));
    LowestOfMore(m, |m| - 1);
  }

  lemma BelowGreatest(m: Items, g: nat)
    requires g in m && forall n | n in m :: n <= g
    ensures Below(m, g) == m - {g}
  {
  }

  lemma {:induction false} LowestOfMore(m: Items, k: nat)
    requires |m| == k + 1 && |m - {Greatest(m)}| == k
    ensures Lowest(m, k) == m - {Greatest(m)}
  {
  }

  /** The lists at some level; unless nothing was cut, one level more would have been too much. */
  ghost predicate Watered(lists: Lists, locals: set<Address>, cur: Lists, level: nat, limit: nat) {
    && cur == Levelled(lists, locals, level)
    && (cur == lists || Size(Levelled(lists, locals, level + 1)) > limit)
  }

  lemma WateredLower(lists: Lists, locals: set<Address>, cur: Lists, level: nat, lower: nat, limit: nat)
    requires level == lower + 1 && cur == Levelled(lists, locals, level) && Size(cur) > limit
    ensures Watered(lists, locals, Levelled(lists, locals, lower), lower, limit)
  {
  }

  /** The outcome of equalising: the highest level that fits, but never below the allowance. */
  ghost predicate Fair(lists: Lists, locals: set<Address>, cur: Lists, level: nat, slots: nat, limit: nat) {
    level >= slots && Watered(lists, locals, cur, level, limit) && (Size(cur) <= limit || level == slots)
  }

  lemma {:induction false} LevelledMeans(lists: Lists, locals: set<Address>, cur: Lists, level: nat)
    requires cur == Levelled(lists, locals, level)
    ensures forall a | a in cur :: a in lists
    ensures forall a | a in lists && a in locals :: a in cur && cur[a] == lists[a]
    ensures forall a | a in lists && a !in locals :: a in cur && cur[a] == Lowest(lists[a], level)
  {
  }

  /** What a fair share means for the accounts. */
  lemma {:induction false} FairMeans(lists: Lists, locals: set<Address>, cur: Lists, level: nat, slots: nat, limit: nat)
    requires Fair(lists, locals, cur, level, slots, limit)
    ensures Size(cur) <= limit || forall a | a in cur && a !in locals :: |cur[a]| <= slots
    ensures forall a | a in lists && a in locals :: a in cur && cur[a] == lists[a]
    ensures forall a | a in lists && a !in locals :: a in cur && cur[a] == Lowest(lists[a], level)
    ensures forall a | a in lists && a !in locals && |lists[a]| <= slots :: a in cur && cur[a] == lists[a]
    ensures forall a, b | a in lists && b in lists && a !in locals && b !in locals && cur[a] != lists[a] :: |cur[b]| <= |cur[a]|
  {
    LevelledMeans(lists, locals, cur, level);
    forall a, b | a in lists && b in lists && a !in locals && b !in locals && cur[a] != lists[a] ensures |cur[b]| <= |cur[a]| {
      assert cur[a] == Lowest(lists[a], level) && cur[b] == Lowest(lists[b], level);
    }
  }

  // ---- The priority queue of the largest accounts -----------------------------------------------------

  lemma {:induction false} MaxExists(q: map<Address, nat>)
    requires q != map[]
    ensures exists a :: Maximal(q, a)
    decreases |q|
  {
    var some := SomeKey(q);
    var rest := q - {some};
    Smaller(q, some);
    if rest == map[] {
      assert forall b | b in q :: b == some;
      assert Maximal(q, some);
    } else {
      MaxExists(rest);
      var a :| Maximal(rest, a);
      assert forall b | b in q :: b == some || b in rest;
      assert Maximal(q, if q[some] > q[a] then some else a);
    }
  }

  predicate Maximal(q: map<Address, nat>, a: Address) {
    a in q && forall b | b in q :: q[b] <= q[a]
  }

  /** An account of the greatest priority. */
  method PopMax(q: map<Address, nat>) returns (a: Address)
    requires q != map[]
    ensures Maximal(q, a)
  {
    MaxExists(q);
    a :| Maximal(q, a);
  }

  /** The remote accounts with more than the guaranteed allowance, by size. */
  function Spammers(lists: Lists, locals: set<Address>, slots: nat): map<Address, nat> {
    map a | a in lists && a !in locals && |lists[a]| > slots :: |lists[a]|
  }

  predicate Distinct(s: seq<Address>) {
    forall i, j | 0 <= i < j < |s| :: s[i] != s[j]
  }

  /** All of `some` reach the level, and no other remote account exceeds the floor. */
  ghost predicate Leading(lists: Lists, locals: set<Address>, some: seq<Address>, level: nat, floor: nat) {
    && Distinct(some)
    && (forall a | a in some :: a in lists && a !in locals && |lists[a]| >= level)
    && (forall a | a in lists && a !in locals && a !in some :: |lists[a]| <= floor)
  }

  function Elements(s: seq<Address>): set<Address> {
    set a | a in s
  }

  /** A leader is exactly at the level. */
  lemma LevelOf(lists: Lists, locals: set<Address>, some: seq<Address>, level: nat, a: Address)
    requires (forall b | b in some :: b in lists && b !in locals && |lists[b]| >= level) && a in some
    ensures a in Levelled(lists, locals, level) && |Levelled(lists, locals, level)[a]| == level
  {
  }

  lemma LeadingLower(lists: Lists, locals: set<Address>, some: seq<Address>, level: nat, floor: nat, reached: nat, lower: nat)
    requires Leading(lists, locals, some, level, floor) && floor < reached <= level && reached == lower + 1
    ensures Leading(lists, locals, some, reached, lower)
  {
  }

  /** What holds before and after the level is lowered by one. */
  lemma LevelStep(lists: Lists, locals: set<Address>, some: seq<Address>, level: nat, floor: nat, reached: nat, lower: nat, cur: Lists,
                  limit: nat, a: Address)
    requires Leading(lists, locals, some, level, floor) && floor < reached <= level && reached == lower + 1 && a in some
    requires Watered(lists, locals, cur, reached, limit) && Size(cur) > limit
    ensures Leading(lists, locals, some, reached, lower) && cur == Levelled(lists, locals, reached)
    ensures Watered(lists, locals, Levelled(lists, locals, lower), lower, limit) && |At(Levelled(lists, locals, lower), a)| == lower
  {
    LeadingLower(lists, locals, some, level, floor, reached, lower);
    WateredLower(lists, locals, cur, reached, lower, limit);
    LevelOf(lists, locals, some, lower, a);
  }

  lemma CutNext(lists: Lists, locals: set<Address>, level: nat, some: seq<Address>, i: nat)
    requires level > 1 && Leading(lists, locals, some, level, level - 1) && i < |some|
    ensures var cur := Mixed(lists, locals, level, Elements(some[..i]));
            && some[i] in cur && |cur[some[i]]| == level
            && Put(cur, some[i], Lowest(cur[some[i]], level - 1)) == Mixed(lists, locals, level, Elements(some[..i + 1]))
  {
    NextElement(some, i);
    MixedOne(lists, locals, level, Elements(some[..i]), some[i]);
  }

  lemma NextElement(some: seq<Address>, i: nat)
    requires Distinct(some) && i < |some|
    ensures some[i] in some && some[i] !in Elements(some[..i])
    ensures Elements(some[..i + 1]) == Elements(some[..i]) + {some[i]}
  {
    assert some[..i + 1] == some[..i] + [some[i]];
  }

  lemma CutDone(lists: Lists, locals: set<Address>, level: nat, some: seq<Address>)
    requires level > 1 && Leading(lists, locals, some, level, level - 1)
    ensures Mixed(lists, locals, level, Elements(some[..|some|])) == Levelled(lists, locals, level - 1)
  {
    assert some[..|some|] == some;
    MixedAll(lists, locals, level, Elements(some));
  }

  lemma DropPartition(pending: Lists, queue: Lists, all: set<Tx>, a: Address, p: Items, n: nat)
    requires Partition(pending, queue, all) && p == At(pending, a) && n in p
    ensures Partition(Put(pending, a, p - {n}), queue, all - {p[n]})
  {
    var q := At(queue, a);
    OwnTxs(pending, queue, all, a);
    assert Shares(p, q, p - {n}, q, map[n := p[n]]);
    Redistribute(pending, queue, all, a, p - {n}, q, map[n := p[n]], all - {p[n]});
    PutSame(queue, a);
  }

  /** Dropping the last pending transaction of an account. */
  lemma CapPartition(pending: Lists, queue: Lists, all: set<Tx>, a: Address, p: Items, n: nat)
    requires Partition(pending, queue, all) && p == At(pending, a) && p != map[] && n == Greatest(p)
    ensures Partition(Put(pending, a, Lowest(p, |p| - 1)), queue, all - {p[n]})
  {
    DropPartition(pending, queue, all, a, p, n);
    LowestButOne(p);
  }

  lemma CapContiguous(pending: Lists, chain: Chain, nonces: map<Address, nat>, a: Address, p: Items, n: nat)
    requires Contiguous(pending, chain, nonces) && p == At(pending, a) && p != map[] && n == Greatest(p)
    ensures Contiguous(Put(pending, a, Lowest(p, |p| - 1)), chain, Lowered(chain, nonces, a, n))
  {
    LowestButOne(p);
    CutContiguous(pending, chain, nonces, a, n);
  }

  // ---- The main loop -------------------------------------------------------------------------------------

  /**
   The offenders popped so far have all been cut to the level, unless everything fits by now;
   the spammers still queued are not above it.
   */
  ghost predicate Popping(lists: Lists, locals: set<Address>, slots: nat, spammers: map<Address, nat>,
                          offenders: seq<Address>, level: nat, fits: bool) {
    && Distinct(offenders)
    && (forall a :: a in spammers || a in offenders <==> a in Spammers(lists, locals, slots))
    && (forall a | a in spammers :: a !in offenders && spammers[a] == |lists[a]| <= level)
    && (fits || forall a | a in offenders :: |lists[a]| >= level)
    && level > slots
  }

  lemma NothingPopped(lists: Lists, locals: set<Address>, slots: nat, level: nat, fits: bool)
    requires level > slots && forall a | a in lists :: |lists[a]| <= level
    ensures Popping(lists, locals, slots, Spammers(lists, locals, slots), [], level, fits)
  {
  }

  /** The first offender sets the level. */
  lemma FirstPopped(lists: Lists, locals: set<Address>, slots: nat, spammers: map<Address, nat>, level: nat, a: Address, limit: nat)
    requires Popping(lists, locals, slots, spammers, [], level, false) && Maximal(spammers, a)
    requires Watered(lists, locals, lists, level, limit)
    ensures Popping(lists, locals, slots, spammers - {a}, [a], spammers[a], false)
    ensures Watered(lists, locals, lists, spammers[a], limit)
  {
    forall b | b in lists && b !in locals ensures |lists[b]| <= spammers[a] {
      assert b in spammers || b in [] <==> b in Spammers(lists, locals, slots);
    }
    LevelledSame(lists, locals, spammers[a]);
    forall b ensures b in spammers - {a} || b in [a] <==> b in Spammers(lists, locals, slots) {
      assert b in spammers || b in [] <==> b in Spammers(lists, locals, slots);
    }
  }

  /** Before a later offender joins, the earlier ones lead it and everything else. */
  lemma NextLeads(lists: Lists, locals: set<Address>, slots: nat, spammers: map<Address, nat>, offenders: seq<Address>,
                  level: nat, a: Address)
    requires Popping(lists, locals, slots, spammers, offenders, level, false) && Maximal(spammers, a)
    ensures Leading(lists, locals, offenders, level, spammers[a]) && slots < spammers[a] <= level
  {
    forall b | b in offenders ensures b in lists && b !in locals {
      assert b in spammers || b in offenders <==> b in Spammers(lists, locals, slots);
    }
    forall b | b in lists && b !in locals && b !in offenders ensures |lists[b]| <= spammers[a] {
      assert b in spammers || b in offenders <==> b in Spammers(lists, locals, slots);
    }
    assert a in spammers || a in offenders <==> a in Spammers(lists, locals, slots);
  }

  lemma NextPopped(lists: Lists, locals: set<Address>, slots: nat, spammers: map<Address, nat>, offenders: seq<Address>,
                   level: nat, a: Address, reached: nat, fits: bool)
    requires Popping(lists, locals, slots, spammers, offenders, level, false) && Maximal(spammers, a)
    requires slots < spammers[a] <= reached <= level && (fits || reached == spammers[a])
    ensures Popping(lists, locals, slots, spammers - {a}, offenders + [a], reached, fits)
  {
    var offenders' := offenders + [a];
    forall b ensures b in spammers - {a} || b in offenders' <==> b in Spammers(lists, locals, slots) {
      assert b in spammers || b in offenders <==> b in Spammers(lists, locals, slots);
      assert b in offenders' <==> b in offenders || b == a;
    }
    forall i, j | 0 <= i < j < |offenders'| ensures offenders'[i] != offenders'[j] {
      assert offenders'[i] in offenders;
    }
  }

  /** When every spammer has been popped, they lead everything down to the allowance. */
  lemma AllPopped(lists: Lists, locals: set<Address>, slots: nat, offenders: seq<Address>, level: nat)
    requires Popping(lists, locals, slots, map[], offenders, level, false)
    ensures Leading(lists, locals, offenders, level, slots)
    ensures offenders == [] ==> Levelled(lists, locals, slots) == lists
  {
    var none: map<Address, nat> := map[];
    forall b ensures b in offenders <==> b in Spammers(lists, locals, slots) {
      assert b in none || b in offenders <==> b in Spammers(lists, locals, slots);
    }
    if offenders == [] {
      LevelledSame(lists, locals, slots);
    }
  }

  lemma UncutAt(lists: Lists, locals: set<Address>, level: nat, a: Address)
    requires a in lists && |lists[a]| <= level
    ensures At(Levelled(lists, locals, level), a) == lists[a]
  {
  }

  /** A level above every list, to start from. */
  function Brim(slots: nat, total: nat): nat {
    if total > slots then total else slots + 1
  }

  lemma Brimming(lists: Lists, locals: set<Address>, slots: nat, limit: nat, total: nat)
    requires total == Size(lists)
    ensures Watered(lists, locals, lists, Brim(slots, total), limit)
    ensures Popping(lists, locals, slots, Spammers(lists, locals, slots), [], Brim(slots, total), false)
  {
    forall a | a in lists ensures |lists[a]| <= Brim(slots, total) {
      SizeBounds(lists, a);
    }
    LevelledSame(lists, locals, Brim(slots, total));
    NothingPopped(lists, locals, slots, Brim(slots, total), false);
  }

  /** Adds up the sizes of all lists. */
  method Count(lists: Lists) returns (n: nat)
    ensures n == Size(lists)
  {
    n := 0;
    var rest := lists;
    while rest != map[]
      invariant n + Size(rest) == Size(lists)
      decreases |rest|
    {
      assert rest.Keys != {};
      var a := Pick(rest.Keys);
      SizeWithout(rest, a);
      Smaller(rest, a);
      n := n + |rest[a]|;
      rest := rest - {a};
    }
  }

  lemma LevelledShrinks(lists: Lists, locals: set<Address>, level: nat)
    ensures Shrinks(lists, Levelled(lists, locals, level))
  {
    forall a ensures Part(At(Levelled(lists, locals, level), a), At(lists, a)) {
      if a in lists {
        CappedPart(lists[a], a, locals, level);
      }
    }
  }

  /** Lists that only lost transactions know no new ones. */
  lemma ShrinksKnown(p0: Lists, q0: Lists, all0: set<Tx>, p: Lists, q: Lists, all: set<Tx>)
    requires Partition(p0, q0, all0) && Partition(p, q, all) && Shrinks(p0, p) && Shrinks(q0, q)
    ensures all <= all0
  {
    forall tx | tx in all ensures tx in all0 {
      assert Part(At(p, tx.from), At(p0, tx.from)) && Part(At(q, tx.from), At(q0, tx.from));
      OwnTxs(p, q, all, tx.from);
      OwnTxs(p0, q0, all0, tx.from);
    }
  }
}
