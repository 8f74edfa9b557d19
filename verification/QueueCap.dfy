/** Trimming the queue: whole accounts from the end of an order, then the last few of one more. */
module QueueCap {
  import opened Transactions
  import opened PoolLists
  import opened PoolRules
  import opened FairShare

  /** `addresses` lists the remote accounts of the queue, each once. */
  ghost predicate Orders(addresses: seq<Address>, queue: Lists, locals: set<Address>) {
    Distinct(addresses) && forall a :: a in addresses <==> a in queue && a !in locals
  }

  /** Only the accounts from position `i` on were cut: all but the one at `i` lost everything. */
  ghost predicate Trimmed(q0: Lists, q: Lists, addresses: seq<Address>, i: nat) {
    && i <= |addresses|
    && (forall a {:trigger At(q, a)} | a !in addresses :: At(q, a) == At(q0, a))
    && (forall j | 0 <= j < i :: At(q, addresses[j]) == At(q0, addresses[j]))
    && (forall j | i < j < |addresses| :: At(q, addresses[j]) == map[])
    && (i < |addresses| ==> At(q, addresses[i]) == Lowest(At(q0, addresses[i]), |At(q, addresses[i])|))
  }

  /** All accounts from position `i` on are gone. */
  ghost predicate Emptied(q: Lists, addresses: seq<Address>, i: nat) {
    i < |addresses| ==> At(q, addresses[i]) == map[]
  }

  lemma NoneTrimmed(q: Lists, addresses: seq<Address>)
    ensures Trimmed(q, q, addresses, |addresses|) && Emptied(q, addresses, |addresses|)
  {
  }

  lemma TrimOne(q0: Lists, q: Lists, addresses: seq<Address>, i: nat, next: nat, m: Items)
    requires Trimmed(q0, q, addresses, next) && Emptied(q, addresses, next) && Distinct(addresses) && next == i + 1
    requires m == Lowest(At(q0, addresses[i]), |m|)
    ensures Trimmed(q0, Put(q, addresses[i], m), addresses, i)
    ensures m == map[] ==> Emptied(Put(q, addresses[i], m), addresses, i)
  {
    var q' := Put(q, addresses[i], m);
    PutAt(q, addresses[i], m, addresses[i]);
    forall b | b !in addresses ensures At(q', b) == At(q0, b) {
      PutAt(q, addresses[i], m, b);
      assert At(q, b) == At(q0, b);
    }
    forall j | 0 <= j < |addresses| && j != i ensures At(q', addresses[j]) == if j < i then At(q0, addresses[j]) else map[] {
      OtherTrimmed(q0, q, addresses, i, next, j, m);
    }
  }

  lemma OtherTrimmed(q0: Lists, q: Lists, addresses: seq<Address>, i: nat, next: nat, j: nat, m: Items)
    requires Trimmed(q0, q, addresses, next) && Emptied(q, addresses, next) && Distinct(addresses) && next == i + 1
    requires j < |addresses| && j != i
    ensures At(Put(q, addresses[i], m), addresses[j]) == if j < i then At(q0, addresses[j]) else map[]
  {
    OtherAt(q, addresses, i, j, m);
  }

  lemma OtherAt(q: Lists, addresses: seq<Address>, i: nat, j: nat, m: Items)
    requires Distinct(addresses) && i < |addresses| && j < |addresses| && i != j
    ensures At(Put(q, addresses[i], m), addresses[j]) == At(q, addresses[j])
  {
    PutAt(q, addresses[i], m, addresses[j]);
  }

  /** What trimming leaves: as much as fits, the lowest nonces, and everything local. */
  lemma TrimmedMeans(q0: Lists, q: Lists, locals: set<Address>, addresses: seq<Address>, i: nat)
    requires Orders(addresses, q0, locals) && Trimmed(q0, q, addresses, i)
    ensures forall a | a in locals :: At(q, a) == At(q0, a)
    ensures forall a :: At(q, a) == Lowest(At(q0, a), |At(q, a)|)
    ensures forall j, k | 0 <= j < k < |addresses| && At(q, addresses[j]) != At(q0, addresses[j]) :: At(q, addresses[k]) == map[]
  {
    forall a ensures At(q, a) == Lowest(At(q0, a), |At(q, a)|) {
      TrimmedAt(q0, q, addresses, i, a);
    }
  }

  lemma TrimmedAt(q0: Lists, q: Lists, addresses: seq<Address>, i: nat, a: Address)
    requires Trimmed(q0, q, addresses, i)
    ensures At(q, a) == Lowest(At(q0, a), |At(q, a)|)
  {
    if a in addresses {
      var j :| 0 <= j < |addresses| && addresses[j] == a;
      if j > i {
        LowestNone(At(q0, a));
      } else if j < i {
        LowestWhole(At(q0, a), At(q, a));
      }
    } else {
      LowestWhole(At(q0, a), At(q, a));
    }
  }

  lemma LowestWhole(m: Items, m': Items)
    requires m' == m
    ensures m' == Lowest(m, |m'|)
  {
  }

  lemma LowestNone(m: Items)
    ensures Lowest(m, 0) == map[]
  {
    assert |Lowest(m, 0)| == 0;
  }

  /** When all of them are gone, only local accounts are left. */
  lemma OnlyLocals(q0: Lists, q: Lists, locals: set<Address>, addresses: seq<Address>)
    requires Orders(addresses, q0, locals) && Trimmed(q0, q, addresses, 0) && WellKept(q) && Emptied(q, addresses, 0)
    ensures forall a | a in q :: a in locals
  {
    forall a | a in addresses ensures a !in q {
      var j :| 0 <= j < |addresses| && addresses[j] == a;
      assert At(q, addresses[j]) == map[];
    }
    forall a | a in q ensures a in locals {
      assert At(q, a) == At(q0, a);
    }
  }

  lemma LowestNext(m: Items, rest: Items, keep: nat)
    requires keep < |rest| && Lowest(m, keep) == Lowest(rest, keep)
    ensures rest != map[] && Lowest(m, keep) == Lowest(rest - {Greatest(rest)}, keep) && |rest - {Greatest(rest)}| == |rest| - 1
  {
    assert rest.Keys == (rest - {Greatest(rest)}).Keys + {Greatest(rest)};
  }

  /** A list without its last `drop` transactions. */
  function CutBack(m: Items, drop: nat): Items {
    if |m| <= drop then map[] else Lowest(m, |m| - drop)
  }

  /** Taking the overflow out of one account. */
  lemma TrimNext(q0: Lists, q: Lists, addresses: seq<Address>, i: nat, next: nat, m: Items, drop: nat, left: nat)
    requires Trimmed(q0, q, addresses, next) && Emptied(q, addresses, next) && Distinct(addresses) && next == i + 1
    requires m == CutBack(At(q, addresses[i]), drop) && left == drop - (|At(q, addresses[i])| - |m|)
    ensures Trimmed(q0, Put(q, addresses[i], m), addresses, i)
    ensures Size(Put(q, addresses[i], m)) == Size(q) - drop + left
    ensures left > 0 ==> Emptied(Put(q, addresses[i], m), addresses, i)
  {
    assert At(q, addresses[i]) == At(q0, addresses[i]);
    LowestNone(At(q, addresses[i]));
    TrimOne(q0, q, addresses, i, next, m);
    SizePut(q, addresses[i], m);
  }

  lemma TrimmedShrinks(q0: Lists, q: Lists, locals: set<Address>, addresses: seq<Address>, i: nat)
    requires Orders(addresses, q0, locals) && Trimmed(q0, q, addresses, i)
    ensures Shrinks(q0, q)
  {
    forall a ensures Part(At(q, a), At(q0, a)) {
      TrimmedAt(q0, q, addresses, i, a);
    }
  }

  // ---- The order of heartbeats --------------------------------------------------------------------------

  /** When an account last had something promoted; zero if it has nothing pending. */
  function BeatOf(beats: map<Address, Time>, a: Address): nat {
    if a in beats then beats[a] else 0
  }

  predicate ByBeat(addresses: seq<Address>, beats: map<Address, Time>) {
    forall i, j | 0 <= i < j < |addresses| :: BeatOf(beats, addresses[i]) <= BeatOf(beats, addresses[j])
  }

  predicate Queued(q: Lists, locals: set<Address>, a: Address) {
    a in q && a !in locals
  }

  /** A remote account is cut only if every more recently active one lost everything. */
  ghost predicate LatestFirst(beats: map<Address, Time>, q0: Lists, q: Lists, locals: set<Address>) {
    forall a, b | Queued(q0, locals, a) && Queued(q0, locals, b) && BeatOf(beats, a) < BeatOf(beats, b) && At(q, a) != At(q0, a) ::
      At(q, b) == map[]
  }

  /** A remote account is cut only if every less recently active one lost everything. */
  ghost predicate OldestFirst(beats: map<Address, Time>, q0: Lists, q: Lists, locals: set<Address>) {
    forall a, b | Queued(q0, locals, a) && Queued(q0, locals, b) && BeatOf(beats, a) < BeatOf(beats, b) && At(q, b) != At(q0, b) ::
      At(q, a) == map[]
  }

  /** No two remote accounts of the queue were last active at different times. */
  ghost predicate SameBeat(beats: map<Address, Time>, q: Lists, locals: set<Address>) {
    forall a, b | Queued(q, locals, a) && Queued(q, locals, b) :: BeatOf(beats, a) == BeatOf(beats, b)
  }

  function LocalPart(q: Lists, locals: set<Address>): Lists {
    map a | a in q && a in locals :: q[a]
  }

  /** Where an account stands in the order. */
  ghost function Position(addresses: seq<Address>, a: Address): (i: nat)
    requires a in addresses
    ensures i < |addresses| && addresses[i] == a
  {
    var i :| 0 <= i < |addresses| && addresses[i] == a;
    i
  }

  lemma TrimmedByBeat(beats: map<Address, Time>, q0: Lists, q: Lists, locals: set<Address>, addresses: seq<Address>, i: nat)
    requires Orders(addresses, q0, locals) && ByBeat(addresses, beats) && Trimmed(q0, q, addresses, i)
    ensures LatestFirst(beats, q0, q, locals)
  {
    forall a, b | Queued(q0, locals, a) && Queued(q0, locals, b) && BeatOf(beats, a) < BeatOf(beats, b)
      ensures At(q, a) != At(q0, a) ==> At(q, b) == map[]
    {
      var j, k := Position(addresses, a), Position(addresses, b);
      LaterGoes(q0, q, addresses, i, j, k);
    }
  }

  lemma LaterGoes(q0: Lists, q: Lists, addresses: seq<Address>, i: nat, j: nat, k: nat)
    requires Trimmed(q0, q, addresses, i) && j < k < |addresses|
    ensures At(q, addresses[j]) != At(q0, addresses[j]) ==> At(q, addresses[k]) == map[]
  {
  }

  /** The local part is never larger, and as large only if there is nothing else. */
  lemma {:induction false} LocalSize(q: Lists, locals: set<Address>)
    requires WellKept(q)
    ensures Size(LocalPart(q, locals)) <= Size(q)
    ensures Size(LocalPart(q, locals)) == Size(q) <==> forall a | a in q :: a in locals
    decreases |q|
  {
    if exists a :: Queued(q, locals, a) {
      var a :| Queued(q, locals, a);
      Smaller(q, a);
      SizeWithout(q, a);
      LocalWithout(q, locals, a);
      LocalSize(q - {a}, locals);
      assert a in q && a !in locals;
    } else {
      AllLocal(q, locals);
    }
  }

  lemma LocalWithout(q: Lists, locals: set<Address>, a: Address)
    requires WellKept(q) && Queued(q, locals, a)
    ensures LocalPart(q - {a}, locals) == LocalPart(q, locals) && |q[a]| > 0
  {
  }

  lemma AllLocal(q: Lists, locals: set<Address>)
    requires !exists a :: Queued(q, locals, a)
    ensures LocalPart(q, locals) == q && forall a | a in q :: a in locals
  {
    forall a | a in q ensures a in locals {
      assert !Queued(q, locals, a);
    }
  }

  /** What the limit asks of the trimmed queue. */
  ghost predicate Fits(q0: Lists, q: Lists, locals: set<Address>, limit: nat) {
    && (Size(q) <= limit || forall a | a in q :: a in locals)
    && (if Size(q0) <= limit then q == q0 else Size(q) >= limit)
  }

  /** Once something was cut and something remote is left, the least active account has some left and the most active lost some. */
  lemma FirstAndLast(q0: Lists, q: Lists, locals: set<Address>, addresses: seq<Address>, i: nat, cut: Address, left: Address)
    requires Orders(addresses, q0, locals) && Trimmed(q0, q, addresses, i) && WellKept(q0)
    requires Queued(q0, locals, cut) && At(q, cut) != At(q0, cut)
    requires Queued(q0, locals, left) && At(q, left) != map[]
    ensures |addresses| > 0
    ensures At(q, addresses[0]) != map[] && At(q, addresses[|addresses| - 1]) != At(q0, addresses[|addresses| - 1])
  {
    var j, k, last := Position(addresses, cut), Position(addresses, left), |addresses| - 1;
    assert addresses[0] in addresses && addresses[last] in addresses;
    assert At(q0, addresses[0]) != map[] && At(q0, addresses[last]) != map[];
    if k > 0 {
      LaterGoes(q0, q, addresses, i, 0, k);
    }
    if j < last {
      LaterGoes(q0, q, addresses, i, j, last);
    }
  }

  lemma LocalsKept(q0: Lists, q: Lists, locals: set<Address>, addresses: seq<Address>, i: nat)
    requires Orders(addresses, q0, locals) && Trimmed(q0, q, addresses, i) && WellKept(q0) && WellKept(q)
    ensures LocalPart(q, locals) == LocalPart(q0, locals)
    ensures forall a | a in q :: a in q0
  {
    forall a ensures a in q ==> a in q0 {
      TrimmedAt(q0, q, addresses, i, a);
      LowestNone(At(q0, a));
    }
    forall a | a in locals ensures (a in q <==> a in q0) && (a in q ==> q[a] == q0[a]) {
      assert a !in addresses && At(q, a) == At(q0, a);
    }
    SameLocals(q0, q, locals);
  }

  lemma SameLocals(q0: Lists, q: Lists, locals: set<Address>)
    requires forall a | a in locals :: (a in q <==> a in q0) && (a in q ==> q[a] == q0[a])
    ensures LocalPart(q, locals) == LocalPart(q0, locals)
  {
    var l0, l := LocalPart(q0, locals), LocalPart(q, locals);
    forall a ensures a in l <==> a in l0 {
    }
    forall a | a in l ensures l[a] == l0[a] {
    }
  }

  /**
   The least active accounts are cut first, as the code's comment has it, exactly when nothing
   has to go, or everything remote, or all remote accounts were last active at the same time.
   */
  lemma OldestFirstIff(beats: map<Address, Time>, q0: Lists, q: Lists, locals: set<Address>, addresses: seq<Address>, i: nat, limit: nat)
    requires Orders(addresses, q0, locals) && ByBeat(addresses, beats) && Trimmed(q0, q, addresses, i)
    requires WellKept(q0) && WellKept(q) && Fits(q0, q, locals, limit)
    ensures OldestFirst(beats, q0, q, locals) <==>
              Size(q0) <= limit || limit <= Size(LocalPart(q0, locals)) || SameBeat(beats, q0, locals)
  {
    LocalsKept(q0, q, locals, addresses, i);
    LocalSize(q, locals);
    if Size(q0) > limit && limit <= Size(LocalPart(q0, locals)) {
      NoneRemote(q, locals);
    } else if Size(q0) > limit && !SameBeat(beats, q0, locals) {
      var cut := WhatWasCut(q0, q, locals, addresses, i);
      var left := WhatIsLeft(q0, q, locals);
      FirstAndLast(q0, q, locals, addresses, i, cut, left);
      EndsDiffer(beats, q0, locals, addresses);
      assert Queued(q0, locals, addresses[0]) && Queued(q0, locals, addresses[|addresses| - 1]);
    }
  }

  lemma NoneRemote(q: Lists, locals: set<Address>)
    requires forall a | a in q :: a in locals
    ensures forall a | a !in locals :: At(q, a) == map[]
  {
  }

  lemma WhatWasCut(q0: Lists, q: Lists, locals: set<Address>, addresses: seq<Address>, i: nat) returns (cut: Address)
    requires Orders(addresses, q0, locals) && Trimmed(q0, q, addresses, i) && WellKept(q0) && WellKept(q) && Size(q) < Size(q0)
    ensures Queued(q0, locals, cut) && At(q, cut) != At(q0, cut)
  {
    if forall a :: At(q, a) == At(q0, a) {
      SameLists(q0, q);
    }
    cut :| At(q, cut) != At(q0, cut);
    assert cut in addresses;
  }

  lemma SameLists(q0: Lists, q: Lists)
    requires WellKept(q0) && WellKept(q) && forall a :: At(q, a) == At(q0, a)
    ensures q == q0
  {
    forall a ensures a in q <==> a in q0 {
      assert At(q, a) == At(q0, a);
    }
    forall a | a in q ensures q[a] == q0[a] {
      assert At(q, a) == At(q0, a);
    }
  }

  lemma WhatIsLeft(q0: Lists, q: Lists, locals: set<Address>) returns (left: Address)
    requires WellKept(q) && (exists a :: a in q && a !in locals) && forall a | a in q :: a in q0
    ensures Queued(q0, locals, left) && At(q, left) != map[]
  {
    left :| left in q && left !in locals;
  }

  lemma EndsDiffer(beats: map<Address, Time>, q0: Lists, locals: set<Address>, addresses: seq<Address>)
    requires Orders(addresses, q0, locals) && ByBeat(addresses, beats) && !SameBeat(beats, q0, locals)
    ensures |addresses| > 0 && BeatOf(beats, addresses[0]) < BeatOf(beats, addresses[|addresses| - 1])
  {
    var a, b :| Queued(q0, locals, a) && Queued(q0, locals, b) && BeatOf(beats, a) != BeatOf(beats, b);
    var j, k := Position(addresses, a), Position(addresses, b);
    var last := |addresses| - 1;
    assert BeatOf(beats, addresses[0]) <= BeatOf(beats, addresses[j]) <= BeatOf(beats, addresses[last]);
    assert BeatOf(beats, addresses[0]) <= BeatOf(beats, addresses[k]) <= BeatOf(beats, addresses[last]);
  }

  /** Putting an account in front that nobody was active before. */
  lemma OrdersCons(addresses: seq<Address>, beats: map<Address, Time>, a: Address)
    requires Distinct(addresses) && ByBeat(addresses, beats) && a !in addresses
    requires forall b | b in addresses :: BeatOf(beats, a) <= BeatOf(beats, b)
    ensures Distinct([a] + addresses) && ByBeat([a] + addresses, beats)
  {
    var r := [a] + addresses;
    forall i, j | 0 <= i < j < |r| ensures r[i] != r[j] && BeatOf(beats, r[i]) <= BeatOf(beats, r[j]) {
      assert r[j] == addresses[j - 1] && r[j] in addresses;
      if i > 0 {
        assert r[i] == addresses[i - 1];
      }
    }
  }
}
