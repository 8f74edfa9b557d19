/**
 The light client's request distributor: a queue of requests in creation order, handed out
 to server peers under flow control.
 */
module Distributor {

  type Peer = nat
  type Req = nat

  /** The peers and requests as seen during one pass over the queue. */
  datatype Flow = Flow(
    canQueue: set<Peer>,               // peers that accept another request now
    canSend: (Peer, Req) -> bool,      // the peer is suitable to serve the request
    waitBefore: (Peer, Req) -> nat     // how long to wait before the peer can take it
  )

  datatype Choice = Nothing | Chosen(peer: Peer, req: Req, wait: nat)

  predicate CanServe(f: Flow, p: Peer, r: Req) {
    p in f.canQueue && f.canSend(p, r)
  }

  ghost predicate Servable(f: Flow, peers: set<Peer>, r: Req) {
    exists p :: p in peers && CanServe(f, p, r)
  }

  /** Request `q[i]` is the oldest in `q` that peer `p` could take. */
  ghost predicate First(f: Flow, p: Peer, q: seq<Req>, i: nat) {
    i < |q| && CanServe(f, p, q[i]) && forall j | 0 <= j < i :: !CanServe(f, p, q[j])
  }

  lemma {:induction false} FirstExists(f: Flow, p: Peer, q: seq<Req>, i: nat)
    requires i < |q| && CanServe(f, p, q[i])
    ensures exists k :: First(f, p, q, k)
  {
    if j :| 0 <= j < i && CanServe(f, p, q[j]) {
      FirstExists(f, p, q, j);
    } else {
      assert First(f, p, q, i);
    }
  }

  /** The index of the oldest request in `q` that peer `p` could take, or `|q|`. */
  ghost function FirstFor(f: Flow, p: Peer, q: seq<Req>): (i: nat)
    ensures i <= |q|
    ensures i < |q| ==> CanServe(f, p, q[i])
    ensures forall j | 0 <= j < i :: !CanServe(f, p, q[j])
  {
    if k: nat :| First(f, p, q, k) then k
    else
      assert forall j | 0 <= j < |q| :: !CanServe(f, p, q[j]) by {
        if j :| 0 <= j < |q| && CanServe(f, p, q[j]) {
          FirstExists(f, p, q, j);
        }
      }
      |q|
  }

  lemma FirstIs(f: Flow, p: Peer, q: seq<Req>, i: nat)
    requires First(f, p, q, i)
    ensures FirstFor(f, p, q) == i
  {
    var k := FirstFor(f, p, q);
    assert !(k < i) && !(i < k);
  }

  ghost predicate Busy(f: Flow, p: Peer, q: seq<Req>) {
    FirstFor(f, p, q) < |q|
  }

  /** How long peer `p` would wait for the oldest request it could take. */
  ghost function FirstWait(f: Flow, p: Peer, q: seq<Req>): nat
    requires Busy(f, p, q)
  {
    f.waitBefore(p, q[FirstFor(f, p, q)])
  }

  /** An assignment that respects creation order: no older request could go to that peer. */
  ghost predicate InOrder(f: Flow, peers: set<Peer>, q: seq<Req>, c: Choice)
    requires c.Chosen?
  {
    && c.peer in peers
    && Busy(f, c.peer, q)
    && c.req == q[FirstFor(f, c.peer, q)]
    && c.wait == f.waitBefore(c.peer, c.req)
  }

  // ---- One pass over the queue ----------------------------------------------------------------

  /** What a pass has found so far. */
  datatype Scan = Scan(checked: set<Peer>, ready: set<Choice>, best: Choice)

  const NOTHING_FOUND: Scan := Scan({}, {}, Nothing)

  /** A waiting time is no better than what the pass has found. */
  ghost predicate Covered(s: Scan, wait: nat) {
    if wait == 0 then s.ready != {} else s.best.Chosen? && s.best.wait <= wait
  }

  /** Peer `p` was checked exactly if one of the first `i` requests could go to it. */
  ghost predicate CheckedUpTo(f: Flow, q: seq<Req>, i: nat, s: Scan, p: Peer) {
    p in s.checked <==> Busy(f, p, q) && FirstFor(f, p, q) < i
  }

  /** The findings are sound, and complete for the peers checked. */
  ghost predicate Sound(f: Flow, peers: set<Peer>, q: seq<Req>, s: Scan) {
    && s.checked <= peers
    && (forall c | c in s.ready :: c.Chosen? && InOrder(f, peers, q, c) && c.wait == 0)
    && (s.best.Chosen? ==> InOrder(f, peers, q, s.best))
    && (forall p | p in s.checked :: Busy(f, p, q) && Covered(s, FirstWait(f, p, q)))
  }

  /** Records what peer `p` would do with its first request `r`. */
  function Record(f: Flow, p: Peer, r: Req, s: Scan): Scan {
    var wait := f.waitBefore(p, r);
    var s1 := s.(checked := s.checked + {p});
    if wait == 0 then s1.(ready := s.ready + {Chosen(p, r, 0)})
    else if s.best.Nothing? || wait < s.best.wait then s1.(best := Chosen(p, r, wait))
    else s1
  }

  lemma RecordSound(f: Flow, peers: set<Peer>, q: seq<Req>, i: nat, p: Peer, s: Scan)
    requires i < |q| && p in peers && Sound(f, peers, q, s) && FirstFor(f, p, q) == i
    ensures Sound(f, peers, q, Record(f, p, q[i], s))
  {
    var s' := Record(f, p, q[i], s);
    forall x | x in s'.checked ensures Busy(f, x, q) && Covered(s', FirstWait(f, x, q)) {
      if x in s.checked {
        assert Covered(s, FirstWait(f, x, q));
      }
    }
  }

  /** Offers request `q[i]` to every peer that could take none of the older ones. */
  method Offer(f: Flow, peers: set<Peer>, q: seq<Req>, i: nat, before: Scan) returns (canSend: bool, after: Scan)
    requires i < |q| && Sound(f, peers, q, before)
    requires forall p | p in peers :: CheckedUpTo(f, q, i, before, p)
    ensures Sound(f, peers, q, after)
    ensures forall p | p in peers :: CheckedUpTo(f, q, i + 1, after, p)
    ensures canSend <==> exists p :: p in peers && FirstFor(f, p, q) == i
    ensures !canSend ==> after == before
  {
    canSend, after := false, before;
    var todo := peers;
    while todo != {}
      invariant todo <= peers
      invariant Sound(f, peers, q, after)
      invariant forall p | p in todo :: CheckedUpTo(f, q, i, after, p)
      invariant forall p | p in peers && p !in todo :: CheckedUpTo(f, q, i + 1, after, p)
      invariant canSend <==> exists p :: p in peers && p !in todo && FirstFor(f, p, q) == i
      invariant !canSend ==> after == before
      decreases |todo|
    {
      var p :| p in todo;
      var took;
      took, after := OfferTo(f, peers, q, i, p, after);
      canSend := canSend || took;
      todo := todo - {p};
    }
  }

  method OfferTo(f: Flow, peers: set<Peer>, q: seq<Req>, i: nat, p: Peer, s: Scan) returns (took: bool, s': Scan)
    requires i < |q| && Sound(f, peers, q, s) && p in peers && CheckedUpTo(f, q, i, s, p)
    ensures Sound(f, peers, q, s') && CheckedUpTo(f, q, i + 1, s', p)
    ensures forall x | x != p :: x in s'.checked <==> x in s.checked
    ensures took <==> FirstFor(f, p, q) == i
    ensures !took ==> s' == s
  {
    took, s' := false, s;
    if p !in s.checked && CanServe(f, p, q[i]) {
      assert First(f, p, q, i);
      FirstIs(f, p, q, i);
      RecordSound(f, peers, q, i, p, s);
      took := true;
      s' := Record(f, p, q[i], s);
    }
  }

  /** The state of the pass before it looks at position `elem`. */
  ghost predicate PassOk(f: Flow, peers: set<Peer>, q: seq<Req>, elem: nat, s: Scan) {
    && elem <= |q|
    && Sound(f, peers, q, s)
    && (forall p | p in peers :: CheckedUpTo(f, q, elem, s, p))
    && (elem == 0 ==> s == NOTHING_FOUND)
    && (elem > 0 ==> Servable(f, peers, q[0]))
  }

  lemma FreshPass(f: Flow, peers: set<Peer>, q: seq<Req>)
    ensures PassOk(f, peers, q, 0, NOTHING_FOUND)
  {
  }

  /** The front request has a taker exactly if it is some peer's first. */
  lemma FrontServable(f: Flow, peers: set<Peer>, q: seq<Req>)
    requires q != []
    ensures Servable(f, peers, q[0]) <==> exists p :: p in peers && FirstFor(f, p, q) == 0
  {
    if Servable(f, peers, q[0]) {
      var p :| p in peers && CanServe(f, p, q[0]);
      assert First(f, p, q, 0);
      FirstIs(f, p, q, 0);
    }
  }

  /** Any assignment that needs no waiting; otherwise the one with the shortest wait. */
  method Select(f: Flow, peers: set<Peer>, q: seq<Req>, elem: nat, s: Scan) returns (c: Choice)
    requires PassOk(f, peers, q, elem, s)
    requires !((peers != {} || elem == 0) && elem < |q|)
    ensures q != [] ==> Servable(f, peers, q[0])
    ensures c.Nothing? <==> q == []
    ensures c.Chosen? ==> InOrder(f, peers, q, c)
    ensures c.Chosen? ==> forall p | p in peers && Busy(f, p, q) :: c.wait <= FirstWait(f, p, q)
  {
    if s.ready != {} {
      c :| c in s.ready;
    } else {
      c := s.best;
    }
    forall p | p in peers && Busy(f, p, q) ensures c.Chosen? && c.wait <= FirstWait(f, p, q) {
      assert CheckedUpTo(f, q, elem, s, p);
      assert Covered(s, FirstWait(f, p, q));
    }
    if q != [] {
      FrontServable(f, peers, q);
      ghost var p :| p in peers && FirstFor(f, p, q) == 0;
      assert Busy(f, p, q);
    }
  }

  // ---- The queue ----------------------------------------------------------------------------------

  ghost predicate Distinct(q: seq<Req>) {
    forall i, j | 0 <= i < j < |q| :: q[i] != q[j]
  }

  /** The requests stand in creation order. */
  ghost predicate Sorted(q: seq<Req>, order: map<Req, nat>) {
    && (forall i | 0 <= i < |q| :: q[i] in order)
    && (forall i, j | 0 <= i < j < |q| :: order[q[i]] <= order[q[j]])
  }

  /** Inserting a request at its place keeps the order; all stay distinct iff it is new. */
  lemma InsertKeeps(q: seq<Req>, order: map<Req, nat>, k: nat, r: Req)
    requires Sorted(q, order) && k <= |q| && r in order
    requires forall i | 0 <= i < k :: order[q[i]] <= order[r]
    requires forall i | k <= i < |q| :: order[r] <= order[q[i]]
    ensures Sorted(q[..k] + [r] + q[k..], order)
    ensures forall x :: x in q[..k] + [r] + q[k..] <==> x in q || x == r
    ensures Distinct(q[..k] + [r] + q[k..]) <==> Distinct(q) && r !in q
  {
    var q' := q[..k] + [r] + q[k..];
    assert forall i | 0 <= i < |q'| :: q'[i] == if i < k then q[i] else if i == k then r else q[i - 1];
    forall i | 0 <= i < |q| ensures q[i] == q'[if i < k then i else i + 1] {
    }
    assert q'[k] == r;
  }

  lemma RemoveKeeps(q: seq<Req>, order: map<Req, nat>, k: nat)
    requires Sorted(q, order) && k < |q|
    ensures Sorted(q[..k] + q[k + 1..], order)
    ensures forall x | x != q[k] :: x in q[..k] + q[k + 1..] <==> x in q
    ensures Distinct(q) ==> Distinct(q[..k] + q[k + 1..]) && q[k] !in q[..k] + q[k + 1..]
  {
    var q' := q[..k] + q[k + 1..];
    assert forall i | 0 <= i < |q'| :: q'[i] == if i < k then q[i] else q[i + 1];
    forall x | x in q && x != q[k] ensures x in q' {
      var i :| 0 <= i < |q| && q[i] == x;
      assert q'[if i < k then i else i - 1] == x;
    }
  }

  lemma InsertedTwice(q: seq<Req>, q': seq<Req>, k: nat, r: Req)
    requires r in q && k <= |q| && q' == q[..k] + [r] + q[k..]
    ensures multiset(q')[r] >= 2
  {
    assert q == q[..k] + q[k..];
    assert multiset(q)[r] >= 1;
  }

  class RequestDistributor {
    var reqQueue: seq<Req>
    var order: map<Req, nat>    // creation orders given out so far
    var open: set<Req>          // requests that know their place in the queue and whose sent channel is not closed
    var lastReqOrder: nat
    var peers: set<Peer>

    ghost predicate Ordered()
      reads this
    {
      && Sorted(reqQueue, order)
      && (forall r | r in order :: 0 < order[r] <= lastReqOrder)
      && (forall r | r in open :: r in reqQueue)
    }

    /** Besides, every queued request is there once and knows its place. */
    ghost predicate Valid()
      reads this
    {
      Ordered() && Distinct(reqQueue) && forall r | r in reqQueue :: r in open
    }

    constructor ()
      ensures Valid() && reqQueue == [] && peers == {} && order == map[]
    {
      reqQueue, order, open, lastReqOrder, peers := [], map[], {}, 0, {};
    }

    /**
     Inserts a request by creation order; a resent one goes back to its old place. Queueing a
     request that is queued already leaves an entry behind that nothing can remove.
     */
    method Queue(r: Req) returns (k: nat)
      requires Ordered()
      modifies this`reqQueue, this`order, this`open, this`lastReqOrder
      ensures Ordered() && open == old(open) + {r}
      ensures Valid() <==> old(Valid()) && r !in old(reqQueue)
      ensures r in old(order) ==> order == old(order)
      ensures r !in old(order) ==> order == old(order)[r := lastReqOrder] && lastReqOrder == old(lastReqOrder) + 1
      ensures k <= |old(reqQueue)| && reqQueue == old(reqQueue)[..k] + [r] + old(reqQueue)[k..]
      ensures forall i | 0 <= i < k :: order[old(reqQueue)[i]] < order[r]
      ensures forall i | k <= i < |old(reqQueue)| :: order[r] <= order[old(reqQueue)[i]]
      ensures r !in old(order) ==> k == |old(reqQueue)|
    {
      AssignOrder(r);
      k := Position(r);
      assert k < |reqQueue| ==> order[r] <= order[reqQueue[k]];
      Enlist(r, k);
    }

    /** A request queued for the first time is the newest. */
    method AssignOrder(r: Req)
      requires Ordered()
      modifies this`order, this`lastReqOrder
      ensures Ordered() && (Valid() <==> old(Valid())) && r in order
      ensures r in old(order) ==> order == old(order) && lastReqOrder == old(lastReqOrder)
      ensures r !in old(order) ==> order == old(order)[r := lastReqOrder] && lastReqOrder == old(lastReqOrder) + 1
      ensures r !in old(order) ==> forall i | 0 <= i < |reqQueue| :: order[reqQueue[i]] < order[r]
    {
      if r !in order {
        lastReqOrder := lastReqOrder + 1;
        order := order[r := lastReqOrder];
      }
    }

    /** Puts a request at its position. */
    method Enlist(r: Req, k: nat)
      requires Ordered() && r in order && k <= |reqQueue|
      requires forall i | 0 <= i < k :: order[reqQueue[i]] <= order[r]
      requires forall i | k <= i < |reqQueue| :: order[r] <= order[reqQueue[i]]
      modifies this`reqQueue, this`open
      ensures Ordered() && open == old(open) + {r} && reqQueue == old(reqQueue)[..k] + [r] + old(reqQueue)[k..]
      ensures Valid() <==> old(Valid()) && r !in old(reqQueue)
    {
      InsertKeeps(reqQueue, order, k, r);
      reqQueue := reqQueue[..k] + [r] + reqQueue[k..];
      open := open + {r};
    }

    /** Where a request belongs: behind everything older, in front of the rest. */
    method Position(r: Req) returns (before: nat)
      requires Sorted(reqQueue, order) && r in order
      ensures before <= |reqQueue|
      ensures forall i | 0 <= i < before :: order[reqQueue[i]] < order[r]
      ensures forall i | before <= i < |reqQueue| :: order[r] <= order[reqQueue[i]]
    {
      var n := |reqQueue|;
      before := n;
      if n != 0 && order[r] <= order[reqQueue[n - 1]] {
        before := 0;
        while order[reqQueue[before]] < order[r]
          invariant 0 <= before < n
          invariant forall i | 0 <= i < before :: order[reqQueue[i]] < order[r]
          decreases n - before
        {
          before := before + 1;
        }
      }
    }

    /** Takes a request out of the queue if it knows its place there, which is in front of any older entry of its own. */
    method Remove(r: Req) returns (ghost k: nat)
      requires Ordered()
      modifies this`reqQueue, this`open
      ensures Ordered() && open == old(open) - {r} && (old(Valid()) ==> Valid() && r !in reqQueue)
      ensures r in old(open) ==>
                && k < |old(reqQueue)| && old(reqQueue)[k] == r && r !in old(reqQueue)[..k]
                && reqQueue == old(reqQueue)[..k] + old(reqQueue)[k + 1..]
      ensures r !in old(open) ==> reqQueue == old(reqQueue)
      ensures forall x | x != r :: x in reqQueue <==> x in old(reqQueue)
    {
      k := 0;
      if r in open {
        var i := 0;
        while reqQueue[i] != r
          invariant 0 <= i < |reqQueue|
          invariant r in reqQueue[i..] && r !in reqQueue[..i]
          decreases |reqQueue| - i
        {
          i := i + 1;
        }
        k := i;
        RemoveKeeps(reqQueue, order, i);
        reqQueue := reqQueue[..i] + reqQueue[i + 1..];
      }
      open := open - {r};
    }

    /** Cancels a request unless it was sent or dropped before. */
    method Cancel(r: Req) returns (ok: bool)
      requires Ordered()
      modifies this`reqQueue, this`open
      ensures Ordered() && (old(Valid()) ==> Valid() && r !in reqQueue) && ok == (r in old(open)) && open == old(open) - {r}
      ensures multiset(reqQueue) == multiset(old(reqQueue)) - (if ok then multiset{r} else multiset{})
      ensures forall x :: x != r ==> (x in reqQueue <==> x in old(reqQueue))
    {
      if r !in open {
        return false;
      }
      ghost var q := reqQueue;
      var k := Remove(r);
      assert q == q[..k] + [r] + q[k + 1..];
      return true;
    }

    /** A request queued again while it is queued stays there, however often it is cancelled. */
    method QueuedAgain(r: Req) returns (ok: bool)
      requires Valid() && r in reqQueue
      modifies this`reqQueue, this`order, this`open, this`lastReqOrder
      ensures Ordered() && !Valid() && !ok && r in reqQueue && r !in open
    {
      ghost var q := reqQueue;
      var k := Queue(r);
      InsertedTwice(q, reqQueue, k, r);
      ok := Cancel(r);
      assert multiset(reqQueue)[r] >= 1;
      assert r in reqQueue;
      ok := Cancel(r);
      assert multiset(reqQueue)[r] >= 1;
      assert r in reqQueue;
    }

    /**
     The next request to send, with its peer and waiting time. Requests at the front that no
     queueable peer can serve are dropped. The chosen request is the oldest its peer could
     take, and no peer would take its own oldest request sooner.
     */
    method NextRequest(f: Flow) returns (c: Choice, ghost dropped: nat)
      requires Valid()
      modifies this`reqQueue, this`open
      ensures Valid()
      ensures dropped <= |old(reqQueue)| && reqQueue == old(reqQueue)[dropped..]
      ensures forall i | 0 <= i < dropped :: !Servable(f, peers, old(reqQueue)[i])
      ensures reqQueue != [] ==> Servable(f, peers, reqQueue[0])
      ensures c.Nothing? <==> reqQueue == []
      ensures c.Chosen? ==> InOrder(f, peers, reqQueue, c)
      ensures c.Chosen? ==> forall p | p in peers && Busy(f, p, reqQueue) :: c.wait <= FirstWait(f, p, reqQueue)
    {
      dropped := 0;
      var scan := NOTHING_FOUND;
      var elem: nat := 0;
      FreshPass(f, peers, reqQueue);
      while (peers != {} || elem == 0) && elem < |reqQueue|
        invariant Valid()
        invariant dropped <= |old(reqQueue)| && reqQueue == old(reqQueue)[dropped..]
        invariant forall i | 0 <= i < dropped :: !Servable(f, peers, old(reqQueue)[i])
        invariant PassOk(f, peers, reqQueue, elem, scan)
        decreases |reqQueue| - elem
      {
        var gone;
        elem, scan, gone := Visit(f, elem, scan);
        if gone {
          dropped := dropped + 1;
        }
      }
      c := Select(f, peers, reqQueue, elem, scan);
    }

    /** One round of the pass: offer the request, and drop it if it is the front and has no taker. */
    method Visit(f: Flow, elem: nat, scan: Scan) returns (elem': nat, scan': Scan, gone: bool)
      requires Valid() && elem < |reqQueue| && PassOk(f, peers, reqQueue, elem, scan)
      modifies this`reqQueue, this`open
      ensures Valid() && PassOk(f, peers, reqQueue, elem', scan')
      ensures gone ==> elem' == 0 && reqQueue == old(reqQueue)[1..] && !Servable(f, peers, old(reqQueue)[0])
      ensures !gone ==> elem' == elem + 1 && reqQueue == old(reqQueue)
    {
      var req := reqQueue[elem];
      var canSend;
      canSend, scan' := Offer(f, peers, reqQueue, elem, scan);
      FrontServable(f, peers, reqQueue);
      gone := !canSend && elem == 0;
      if gone {
        var k := Remove(req);
        assert k == 0;
        FreshPass(f, peers, reqQueue);
        elem' := 0;
      } else {
        elem' := elem + 1;
      }
    }
  }
}
