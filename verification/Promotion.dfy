/** What promoting the accounts of a list, and then enforcing the limits, does to the pool's lists. */
module Promotion {
  import opened Transactions
  import opened Prelude
  import opened PoolLists
  import opened PoolRules
  import opened FairShare
  import opened QueueCap

  /** The lists of the pool with what it notes about accounts. */
  datatype View = View(pending: Lists, queue: Lists, nonces: map<Address, nat>, beats: map<Address, Time>)

  /** What can be promoted of an account. */
  function ReadyAt(chain: Chain, v: View, a: Address): Items {
    Promotable(chain, v.nonces, v.queue, a)
  }

  function KeptAt(chain: Chain, locals: set<Address>, cap: nat, v: View, a: Address): Items {
    Retained(chain, v.nonces, v.queue, a, locals, cap)
  }

  /** Everything happens at the same time. */
  function AtOnce(now: Time): Address -> Time {
    _ => now
  }

  /** Account `a` has been promoted. */
  ghost predicate PromotedAt(chain: Chain, locals: set<Address>, cap: nat, v: View, w: View, now: Time, a: Address) {
    Became(chain, v, w, ReadyAt(chain, v, a), KeptAt(chain, locals, cap, v, a), now, a)
  }

  /** Of account `a`, `ready` has become pending and `kept` is what the queue still holds. */
  ghost predicate Became(chain: Chain, v: View, w: View, ready: Items, kept: Items, now: Time, a: Address) {
    && At(w.pending, a) == At(v.pending, a) + ready && At(w.queue, a) == kept
    && NextNonce(chain, w.nonces, a) == NextNonce(chain, Behind(v.nonces, a, ready), a)
    && SameAt(w.beats, Stamped(v.beats, a, ready, now), a)
  }

  lemma BecameAgain(chain: Chain, v: View, w: View, w': View, ready: Items, kept: Items, now: Time, a: Address)
    requires Became(chain, v, w, ready, kept, now, a) && Became(chain, w, w', map[], kept, now, a)
    ensures Became(chain, v, w', ready, kept, now, a)
  {
    assert At(w.pending, a) + map[] == At(w.pending, a);
  }

  lemma BecameFirst(chain: Chain, v: View, w: View, w': View, ready: Items, kept: Items, now: Time, a: Address)
    requires Unmoved(chain, v, w, a) && Became(chain, w, w', ready, kept, now, a)
    ensures Became(chain, v, w', ready, kept, now, a)
  {
  }

  predicate SameAt(m: map<Address, Time>, m': map<Address, Time>, a: Address) {
    (a in m <==> a in m') && (a in m ==> m[a] == m'[a])
  }

  ghost predicate Unmoved(chain: Chain, v: View, w: View, a: Address) {
    && At(w.pending, a) == At(v.pending, a) && At(w.queue, a) == At(v.queue, a)
    && NextNonce(chain, w.nonces, a) == NextNonce(chain, v.nonces, a) && SameAt(w.beats, v.beats, a)
  }

  ghost predicate MovedAt(chain: Chain, locals: set<Address>, cap: nat, v: View, w: View, now: Address -> Time, some: seq<Address>, a: Address) {
    if a in some then PromotedAt(chain, locals, cap, v, w, now(a), a) else Unmoved(chain, v, w, a)
  }

  /** The accounts of `some` have been promoted, each as if alone, and the others are as they were. */
  ghost predicate Promoting(chain: Chain, locals: set<Address>, cap: nat, v: View, w: View, now: Address -> Time, some: seq<Address>) {
    forall a {:trigger MovedAt(chain, locals, cap, v, w, now, some, a)} :: MovedAt(chain, locals, cap, v, w, now, some, a)
  }

  lemma NonePromoted(chain: Chain, locals: set<Address>, cap: nat, v: View, now: Address -> Time)
    ensures Promoting(chain, locals, cap, v, v, now, [])
  {
  }

  /** The lists after one account was promoted. */
  function PromoteIn(chain: Chain, locals: set<Address>, cap: nat, w: View, now: Time, a: Address): View {
    var ready := ReadyAt(chain, w, a);
    View(Put(w.pending, a, At(w.pending, a) + ready), Put(w.queue, a, KeptAt(chain, locals, cap, w, a)),
         Behind(w.nonces, a, ready), Stamped(w.beats, a, ready, now))
  }

  lemma PromoteInAt(chain: Chain, locals: set<Address>, cap: nat, w: View, now: Time, a: Address, b: Address)
    ensures var w' := PromoteIn(chain, locals, cap, w, now, a);
            if b == a then PromotedAt(chain, locals, cap, w, w', now, a) else Unmoved(chain, w, w', b)
  {
    PutAt(w.pending, a, At(w.pending, a) + ReadyAt(chain, w, a), b);
    PutAt(w.queue, a, KeptAt(chain, locals, cap, w, a), b);
  }

  lemma SameReady(chain: Chain, locals: set<Address>, cap: nat, v: View, w: View, a: Address)
    requires Unmoved(chain, v, w, a)
    ensures ReadyAt(chain, w, a) == ReadyAt(chain, v, a) && KeptAt(chain, locals, cap, w, a) == KeptAt(chain, locals, cap, v, a)
  {
  }

  /** What is kept is live and within the cap, so promoting again keeps it. */
  lemma KeptAgain(chain: Chain, locals: set<Address>, cap: nat, v: View, w: View, now: Time, a: Address)
    requires PromotedAt(chain, locals, cap, v, w, now, a)
    ensures ReadyAt(chain, w, a) == map[] && KeptAt(chain, locals, cap, w, a) == At(w.queue, a)
  {
    PromotedQuiet(chain, locals, cap, v, w, now, a);
    QuietIff(chain, w.nonces, w.queue, a);
    KeptIsLive(chain, At(v.queue, a), NextNonce(chain, v.nonces, a), a, locals, cap);
    KeepAll(chain, At(w.queue, a), NextNonce(chain, w.nonces, a), a, locals, cap);
  }

  lemma KeptIsLive(chain: Chain, m: Items, next: nat, a: Address, locals: set<Address>, cap: nat)
    ensures var kept := KeptOf(chain, m, next, a, locals, cap); Live(chain, kept, a) == kept && Capped(kept, a, locals, cap) == kept
  {
    var kept := KeptOf(chain, m, next, a, locals, cap);
    CappedPart(Live(chain, m, a) - ReadyOf(chain, m, next, a).Keys, a, locals, cap);
    LiveAgain(chain, m, kept, a);
  }

  lemma KeepAll(chain: Chain, m: Items, next: nat, a: Address, locals: set<Address>, cap: nat)
    requires Live(chain, m, a) == m && Capped(m, a, locals, cap) == m && ReadyOf(chain, m, next, a) == map[]
    ensures KeptOf(chain, m, next, a, locals, cap) == m
  {
    var none: Items := map[];
    assert m - none.Keys == m;
  }

  lemma LiveAgain(chain: Chain, m: Items, kept: Items, a: Address)
    requires Part(kept, Live(chain, m, a))
    ensures Live(chain, kept, a) == kept
  {
  }

  lemma PromotedQuiet(chain: Chain, locals: set<Address>, cap: nat, v: View, w: View, now: Time, a: Address)
    requires PromotedAt(chain, locals, cap, v, w, now, a)
    ensures Quiet(chain, w.nonces, w.queue, a)
  {
    PromotionQuiets(chain, v.nonces, v.queue, a, locals, cap);
    PutAt(v.queue, a, KeptAt(chain, locals, cap, v, a), a);
  }

  /** Promoting one more account, or one again, which changes nothing. */
  lemma PromotedOne(chain: Chain, locals: set<Address>, cap: nat, v: View, w: View, now: Address -> Time, some: seq<Address>, a: Address)
    requires Promoting(chain, locals, cap, v, w, now, some)
    ensures Promoting(chain, locals, cap, v, PromoteIn(chain, locals, cap, w, now(a), a), now, some + [a])
  {
    var w' := PromoteIn(chain, locals, cap, w, now(a), a);
    forall b ensures MovedAt(chain, locals, cap, v, w', now, some + [a], b) {
      assert MovedAt(chain, locals, cap, v, w, now, some, b);
      PromoteInAt(chain, locals, cap, w, now(a), a, b);
      if b == a {
        PromotedHere(chain, locals, cap, v, w, w', now, some, a);
      } else {
        OtherMoved(chain, locals, cap, v, w, w', now, some, a, b);
      }
    }
  }

  lemma OtherMoved(chain: Chain, locals: set<Address>, cap: nat, v: View, w: View, w': View, now: Address -> Time, some: seq<Address>, a: Address, b: Address)
    requires MovedAt(chain, locals, cap, v, w, now, some, b) && Unmoved(chain, w, w', b) && b != a
    ensures MovedAt(chain, locals, cap, v, w', now, some + [a], b)
  {
    assert b in some + [a] <==> b in some;
  }

  lemma PromotedHere(chain: Chain, locals: set<Address>, cap: nat, v: View, w: View, w': View, now: Address -> Time, some: seq<Address>, a: Address)
    requires MovedAt(chain, locals, cap, v, w, now, some, a) && PromotedAt(chain, locals, cap, w, w', now(a), a)
    ensures PromotedAt(chain, locals, cap, v, w', now(a), a)
  {
    var ready, kept := ReadyAt(chain, v, a), KeptAt(chain, locals, cap, v, a);
    if a in some {
      KeptAgain(chain, locals, cap, v, w, now(a), a);
      BecameAgain(chain, v, w, w', ready, kept, now(a), a);
    } else {
      SameReady(chain, locals, cap, v, w, a);
      BecameFirst(chain, v, w, w', ready, kept, now(a), a);
    }
  }

  /** The step of a loop that promotes one account after the other. */
  lemma PromotedNext(chain: Chain, locals: set<Address>, cap: nat, v: View, w: View, now: Address -> Time, some: seq<Address>, i: nat)
    requires i < |some| && Promoting(chain, locals, cap, v, w, now, some[..i])
    ensures Promoting(chain, locals, cap, v, PromoteIn(chain, locals, cap, w, now(some[i]), some[i]), now, some[..i + 1])
  {
    assert some[..i + 1] == some[..i] + [some[i]];
    PromotedOne(chain, locals, cap, v, w, now, some[..i], some[i]);
  }

  /** Nothing pending is lost by promoting. */
  lemma PromotingGrows(chain: Chain, locals: set<Address>, cap: nat, v: View, w: View, now: Address -> Time, some: seq<Address>, all: set<Tx>)
    requires Promoting(chain, locals, cap, v, w, now, some) && Partition(v.pending, v.queue, all)
    ensures Grows(v.pending, w.pending)
  {
    forall tx ensures Listed(v.pending, tx) ==> Listed(w.pending, tx) {
      assert MovedAt(chain, locals, cap, v, w, now, some, tx.from);
      ReadyApart(chain, v, tx.from, all);
    }
  }

  lemma ReadyApart(chain: Chain, v: View, a: Address, all: set<Tx>)
    requires Partition(v.pending, v.queue, all)
    ensures At(v.pending, a).Keys !! ReadyAt(chain, v, a).Keys
  {
    OwnTxs(v.pending, v.queue, all, a);
    SiftParts(chain, At(v.queue, a), a);
    ReadyIsLive(Live(chain, At(v.queue, a), a), NextNonce(chain, v.nonces, a));
  }

  /** Promoted accounts, and accounts with nothing queued, have nothing left to promote. */
  lemma PromotingQuiets(chain: Chain, locals: set<Address>, cap: nat, v: View, w: View, now: Address -> Time, some: seq<Address>, a: Address)
    requires Promoting(chain, locals, cap, v, w, now, some) && (a in some || a !in v.queue)
    ensures Quiet(chain, w.nonces, w.queue, a)
  {
    assert MovedAt(chain, locals, cap, v, w, now, some, a);
    if a in some {
      PromotedQuiet(chain, locals, cap, v, w, now(a), a);
    }
  }

  /** A transaction was added to a pool with room: it took the place of a pending one or went to the queue. */
  ghost predicate Entrance(v: View, w: View, tx: Tx) {
    Placed(v.pending, v.queue, w.pending, w.queue, tx) && w.nonces == v.nonces && w.beats == v.beats
  }

  /** What the limits leave: a fair share of the slots, and a queue cut from the most recently active accounts on. */
  ghost predicate Enforced(c: Config, locals: set<Address>, v: View, w: View, level: nat) {
    && Fair(v.pending, locals, w.pending, level, c.accountSlots, c.globalSlots)
    && Shrinks(v.queue, w.queue) && LatestFirst(v.beats, v.queue, w.queue, locals) && Fits(v.queue, w.queue, locals, c.globalQueue)
    && (Size(v.pending) <= c.globalSlots ==> w.pending == v.pending && w.nonces == v.nonces)
    && w.beats == v.beats
  }

  lemma EnforcedBy(c: Config, locals: set<Address>, v: View, w: View, level: nat)
    requires Fair(v.pending, locals, w.pending, level, c.accountSlots, c.globalSlots)
    requires Shrinks(v.queue, w.queue) && LatestFirst(v.beats, v.queue, w.queue, locals) && Fits(v.queue, w.queue, locals, c.globalQueue)
    requires Size(v.pending) <= c.globalSlots ==> w.pending == v.pending && w.nonces == v.nonces
    requires w.beats == v.beats
    ensures Enforced(c, locals, v, w, level)
  {
  }

  /** Both limits hold, as far as local accounts and guaranteed allowances permit. */
  ghost predicate Within(c: Config, locals: set<Address>, v: View) {
    && (Size(v.pending) <= c.globalSlots || forall a | a in v.pending && a !in locals :: |v.pending[a]| <= c.accountSlots)
    && (Size(v.queue) <= c.globalQueue || forall a | a in v.queue :: a in locals)
  }

  lemma EnforcedWithin(c: Config, locals: set<Address>, v: View, w: View, level: nat)
    requires Enforced(c, locals, v, w, level)
    ensures Within(c, locals, w)
  {
    FairMeans(v.pending, locals, w.pending, level, c.accountSlots, c.globalSlots);
  }

  /** The limits make nothing known. */
  lemma EnforcedKnown(c: Config, locals: set<Address>, v: View, w: View, level: nat, known: set<Tx>, all: set<Tx>)
    requires Enforced(c, locals, v, w, level) && Partition(v.pending, v.queue, known) && Partition(w.pending, w.queue, all)
    ensures all <= known && Within(c, locals, w)
  {
    LevelledShrinks(v.pending, locals, level);
    ShrinksKnown(v.pending, v.queue, known, w.pending, w.queue, all);
    EnforcedWithin(c, locals, v, w, level);
  }

  /** Neither limit is exceeded. */
  ghost predicate Spacious(c: Config, v: View) {
    Size(v.pending) <= c.globalSlots && Size(v.queue) <= c.globalQueue
  }

  /**
   When heartbeats belong to exactly the accounts with pending transactions, the queue limit takes
   from accounts that have some before any account that has none.
   */
  lemma IdleKeepLongest(beats: map<Address, Time>, pending: Lists, q0: Lists, q: Lists, locals: set<Address>, a: Address, b: Address)
    requires LatestFirst(beats, q0, q, locals) && Paced(pending, beats)
    requires QueueCap.Queued(q0, locals, a) && QueueCap.Queued(q0, locals, b) && a !in pending && b in pending
    ensures At(q, a) != At(q0, a) ==> At(q, b) == map[]
  {
    assert PacedAt(pending, beats, a) && PacedAt(pending, beats, b);
  }
}
