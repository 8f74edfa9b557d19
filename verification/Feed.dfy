/**
 An event feed: one Send at a time delivers a value to every subscribed channel while
 other goroutines subscribe and unsubscribe.

 The select list holds, at index 0, the channel on which unsubscribers interrupt a Send, and
 after it the subscribed channels. A Send works on a prefix of that list, swapping each
 served channel behind the prefix.
 */
module Feed {

  type Chan = nat

  const REMOVE_SUB: Chan := 0

  datatype Sender =
    | Idle
    | Trying(i: nat)  // non-blocking round, about to try case i
    | Selecting       // blocked on all remaining cases

  datatype State = State(
    sendCases: seq<Chan>,    // the select list
    active: nat,             // length of the prefix the current Send still works on
    inbox: seq<Chan>,        // subscribed, not yet merged into the select list
    leaving: set<Chan>,      // unsubscribing, not found in the inbox
    sender: Sender,
    nsent: nat,
    merged: set<Chan>,       // history: channels in the list when the current Send began
    delivered: seq<Chan>,    // history: channels the current Send delivered to, in order
    dropped: set<Chan>       // history: channels removed before the current Send reached them
  )

  datatype Event =
    | Subscribe(ch: Chan)
    | Unsubscribe(ch: Chan)       // look into the inbox
    | RemoveIdle(ch: Chan)        // no Send in progress: delete from the select list
    | SendStart
    | Try(ok: bool)
    | EndRound
    | SelectSend(i: nat)
    | SelectRemove(ch: Chan)      // the Send is interrupted by an unsubscriber

  const INITIAL: State := State([REMOVE_SUB], 0, [], {}, Idle, 0, {}, [], {})

  // ---- The select list ------------------------------------------------------------------

  predicate NoDuplicates(s: seq<Chan>) {
    forall i, j | 0 <= i < j < |s| :: s[i] != s[j]
  }

  function Elements(s: seq<Chan>): set<Chan> {
    set x | x in s
  }

  /** The first index of `ch`, or the length of the list. */
  function IndexOf(cs: seq<Chan>, ch: Chan): (i: nat)
    ensures i <= |cs|
    ensures i < |cs| ==> cs[i] == ch
    ensures i == |cs| <==> ch !in cs
  {
    if cs == [] then 0 else if cs[0] == ch then 0 else 1 + IndexOf(cs[1..], ch)
  }

  function Delete(cs: seq<Chan>, index: nat): seq<Chan>
    requires index < |cs|
  {
    cs[..index] + cs[index + 1..]
  }

  /** Swaps case `index` behind the active prefix. */
  function Deactivate(cs: seq<Chan>, active: nat, index: nat): (r: seq<Chan>)
    requires index < active <= |cs|
    ensures |r| == |cs|
  {
    cs[index := cs[active - 1]][active - 1 := cs[index]]
  }

  method Find(cs: array<Chan>, n: nat, ch: Chan) returns (index: int)
    requires n <= cs.Length
    ensures index == if ch in cs[..n] then IndexOf(cs[..n], ch) else -1
  {
    for i := 0 to n
      invariant ch !in cs[..i]
    {
      if cs[i] == ch {
        FirstIndex(cs[..n], i, ch);
        return i;
      }
    }
    return -1;
  }

  lemma {:induction false} FirstIndex(cs: seq<Chan>, i: nat, ch: Chan)
    requires i < |cs| && cs[i] == ch && ch !in cs[..i]
    ensures IndexOf(cs, ch) == i
  {
    if i > 0 {
      assert cs[0] in cs[..i];
      assert cs[1..][..i - 1] == cs[..i][1..];
      FirstIndex(cs[1..], i - 1, ch);
    }
  }

  lemma Shifted(now: seq<Chan>, was: seq<Chan>, n: nat, index: nat)
    requires index < n <= |was| == |now|
    requires forall k | 0 <= k < n - 1 :: now[k] == was[if k < index then k else k + 1]
    requires forall k | n <= k < |now| :: now[k] == was[k]
    ensures now[..n - 1] == Delete(was[..n], index) && now[n..] == was[n..]
  {
  }

  /** Shifts the cases after `index` down by one, in place. */
  method DeleteInPlace(cs: array<Chan>, n: nat, index: nat)
    requires index < n <= cs.Length
    modifies cs
    ensures cs[..n - 1] == Delete(old(cs[..n]), index)
    ensures cs[n..] == old(cs[n..])
  {
    ghost var was := cs[..];
    var i := index;
    while i < n - 1
      invariant index <= i <= n - 1
      invariant forall k | 0 <= k < i :: cs[k] == was[if k < index then k else k + 1]
      invariant forall k | i < k < cs.Length :: cs[k] == was[k]
    {
      cs[i] := cs[i + 1];
      i := i + 1;
    }
    Shifted(cs[..], was, n, index);
  }

  method DeactivateInPlace(cs: array<Chan>, active: nat, index: nat)
    requires index < active <= cs.Length
    modifies cs
    ensures cs[..] == Deactivate(old(cs[..]), active, index)
  {
    var last := active - 1;
    cs[index], cs[last] := cs[last], cs[index];
  }

  // ---- Steps ----------------------------------------------------------------------------------

  predicate Subscribed(s: State, ch: Chan) {
    ch in s.inbox || ch in s.sendCases
  }

  predicate Enabled(s: State, e: Event) {
    match e
    case Subscribe(ch) => ch != REMOVE_SUB && !Subscribed(s, ch)
    case Unsubscribe(ch) => ch != REMOVE_SUB && Subscribed(s, ch) && ch !in s.leaving
    case RemoveIdle(ch) => s.sender.Idle? && ch in s.leaving
    case SendStart => s.sender.Idle?
    case Try(_) => s.sender.Trying? && s.sender.i < s.active <= |s.sendCases|
    case EndRound => s.sender.Trying? && s.sender.i >= s.active
    case SelectSend(i) => s.sender.Selecting? && 1 <= i < s.active <= |s.sendCases|
    case SelectRemove(ch) => s.sender.Selecting? && ch in s.leaving
  }

  /** The removal finds its channel in the select list; otherwise the slice operation panics. */
  predicate Safe(s: State, e: Event) {
    e.RemoveIdle? || e.SelectRemove? ==> e.ch in s.sendCases
  }

  function Deliver(s: State, i: nat): State
    requires i < s.active <= |s.sendCases|
  {
    s.(sendCases := Deactivate(s.sendCases, s.active, i), active := s.active - 1, nsent := s.nsent + 1,
       delivered := s.delivered + [s.sendCases[i]])
  }

  function Next(s: State, e: Event): State
    requires Enabled(s, e) && Safe(s, e)
  {
    match e
    case Subscribe(ch) => s.(inbox := s.inbox + [ch])
    case Unsubscribe(ch) =>
      if ch in s.inbox then s.(inbox := Delete(s.inbox, IndexOf(s.inbox, ch)))
      else s.(leaving := s.leaving + {ch})
    case RemoveIdle(ch) =>
      s.(sendCases := Delete(s.sendCases, IndexOf(s.sendCases, ch)), leaving := s.leaving - {ch})
    case SendStart =>
      var cases := s.sendCases + s.inbox;
      s.(sendCases := cases, active := |cases|, inbox := [], sender := Trying(1), nsent := 0,
         merged := Elements(cases) - {REMOVE_SUB}, delivered := [], dropped := {})
    case Try(ok) => if ok then Deliver(s, s.sender.i) else s.(sender := Trying(s.sender.i + 1))
    case EndRound => s.(sender := if s.active <= 1 then Idle else Selecting)
    case SelectSend(i) => Deliver(s, i).(sender := Trying(1))
    case SelectRemove(ch) =>
      var index := IndexOf(s.sendCases, ch);
      var s1 := s.(sendCases := Delete(s.sendCases, index), leaving := s.leaving - {ch}, sender := Trying(1));
      if index < s.active then s1.(active := s.active - 1, dropped := s.dropped + {ch}) else s1
  }

  predicate Possible(s: State, run: seq<Event>)
    decreases |run|
  {
    run == [] || (Enabled(s, run[0]) && Safe(s, run[0]) && Possible(Next(s, run[0]), run[1..]))
  }

  function Run(s: State, run: seq<Event>): State
    requires Possible(s, run)
    decreases |run|
  {
    if run == [] then s else Run(Next(s, run[0]), run[1..])
  }

  // ---- Invariant --------------------------------------------------------------------------------

  /** Every channel is subscribed once; those leaving are in the select list. */
  predicate ListsOk(s: State) {
    && s.sendCases != [] && s.sendCases[0] == REMOVE_SUB
    && NoDuplicates(s.sendCases) && NoDuplicates(s.inbox)
    && (forall ch | ch in s.inbox :: ch !in s.sendCases)
    && (forall ch | ch in s.leaving :: ch in s.sendCases && ch != REMOVE_SUB)
  }

  /** The active prefix is what is still to be served; the rest has been served. */
  predicate SendOk(s: State) {
    && s.nsent == |s.delivered|
    && NoDuplicates(s.delivered)
    && s.dropped !! Elements(s.delivered)
    && (!s.sender.Idle? ==>
          && 1 <= s.active <= |s.sendCases|
          && (s.sender.Trying? ==> 1 <= s.sender.i <= s.active)
          && Elements(s.sendCases[1..s.active]) == s.merged - Elements(s.delivered) - s.dropped
          && Elements(s.sendCases[s.active..]) <= Elements(s.delivered))
    && Elements(s.delivered) <= s.merged
    && s.dropped <= s.merged
    && (s.sender.Idle? ==> s.merged == Elements(s.delivered) + s.dropped)
  }

  predicate Inv(s: State) {
    ListsOk(s) && SendOk(s)
  }

  lemma DeleteAt(cs: seq<Chan>, i: nat)
    requires NoDuplicates(cs) && i < |cs|
    ensures var r := Delete(cs, i);
            NoDuplicates(r) && Elements(r) == Elements(cs) - {cs[i]} && |r| == |cs| - 1
  {
    var r := Delete(cs, i);
    forall x ensures x in r <==> x in cs && x != cs[i] {
      if x in cs && x != cs[i] {
        var k :| 0 <= k < |cs| && cs[k] == x;
        assert r[if k < i then k else k - 1] == x;
      }
    }
  }

  lemma DeleteMember(cs: seq<Chan>, ch: Chan)
    requires NoDuplicates(cs) && ch in cs
    ensures var r := Delete(cs, IndexOf(cs, ch));
            NoDuplicates(r) && Elements(r) == Elements(cs) - {ch} && |r| == |cs| - 1
  {
    DeleteAt(cs, IndexOf(cs, ch));
  }

  lemma DeactivateMembers(cs: seq<Chan>, active: nat, i: nat)
    requires NoDuplicates(cs) && 1 <= i < active <= |cs|
    ensures var r := Deactivate(cs, active, i);
            && NoDuplicates(r) && r[0] == cs[0]
            && Elements(r) == Elements(cs)
            && Elements(r[1..active - 1]) == Elements(cs[1..active]) - {cs[i]}
            && Elements(r[active - 1..]) == Elements(cs[active..]) + {cs[i]}
  {
    var r := Deactivate(cs, active, i);
    assert NoDuplicates(r) && r[0] == cs[0];
    ActiveMembers(cs, active, i);
    assert r[active - 1..] == [cs[i]] + cs[active..];
    Halves(r, active - 1);
    Halves(cs, active);
    assert cs[1..active][i - 1] == cs[i];
  }

  lemma ActiveMembers(cs: seq<Chan>, active: nat, i: nat)
    requires NoDuplicates(cs) && 1 <= i < active <= |cs|
    ensures Elements(Deactivate(cs, active, i)[1..active - 1]) == Elements(cs[1..active]) - {cs[i]}
  {
    var r := Deactivate(cs, active, i);
    forall x ensures x in r[1..active - 1] <==> x in cs[1..active] && x != cs[i] {
      if x in cs[1..active] && x != cs[i] {
        var k :| 1 <= k < active && cs[k] == x;
        assert r[1..active - 1][if k == active - 1 then i - 1 else k - 1] == x;
      }
      if x in r[1..active - 1] {
        var k :| 1 <= k < active - 1 && r[k] == x;
        assert cs[1..active][if k == i then active - 2 else k - 1] == x;
      }
    }
  }

  /** A list that starts with the interrupt channel, seen as active and served part. */
  lemma Halves(cs: seq<Chan>, active: nat)
    requires 1 <= active <= |cs|
    ensures Elements(cs) == {cs[0]} + Elements(cs[1..active]) + Elements(cs[active..])
  {
    assert cs == [cs[0]] + cs[1..active] + cs[active..];
  }

  lemma DeleteHalves(cs: seq<Chan>, active: nat, ch: Chan)
    requires NoDuplicates(cs) && 1 <= active <= |cs| && ch in cs && ch != cs[0]
    ensures var i := IndexOf(cs, ch); var r := Delete(cs, i);
            && r[0] == cs[0]
            && (i < active ==> 2 <= active && Elements(r[1..active - 1]) == Elements(cs[1..active]) - {ch}
                               && ch in cs[1..active] && r[active - 1..] == cs[active..])
            && (i >= active ==> r[1..active] == cs[1..active] && ch in cs[active..]
                                && Elements(r[active..]) <= Elements(cs[active..]))
  {
    var i := IndexOf(cs, ch);
    if i < active {
      DeleteActive(cs, active, i);
      DeleteAt(cs[1..active], i - 1);
    } else {
      DeleteServed(cs, active, i);
    }
  }

  lemma DeleteActive(cs: seq<Chan>, active: nat, i: nat)
    requires NoDuplicates(cs) && 1 <= i < active <= |cs|
    ensures var r := Delete(cs, i);
            && r[0] == cs[0] && r[1..active - 1] == Delete(cs[1..active], i - 1) && r[active - 1..] == cs[active..]
            && cs[1..active][i - 1] == cs[i] && NoDuplicates(cs[1..active])
  {
  }

  lemma DeleteServed(cs: seq<Chan>, active: nat, i: nat)
    requires 1 <= active <= i < |cs|
    ensures var r := Delete(cs, i);
            && r[0] == cs[0] && r[1..active] == cs[1..active] && cs[i] in cs[active..]
            && Elements(r[active..]) <= Elements(cs[active..])
  {
    var r := Delete(cs, i);
    assert cs[active..][i - active] == cs[i];
    assert r[active..] == cs[active..i] + cs[i + 1..];
  }

  lemma MergeKeeps(a: seq<Chan>, b: seq<Chan>)
    requires NoDuplicates(a) && NoDuplicates(b) && forall ch | ch in b :: ch !in a
    ensures NoDuplicates(a + b)
  {
    forall i, j | 0 <= i < j < |a + b| ensures (a + b)[i] != (a + b)[j] {
      if i < |a| <= j {
        assert b[j - |a|] in b && a[i] in a;
      }
    }
  }

  lemma DeliverKeeps(s: State, i: nat)
    requires Inv(s) && !s.sender.Idle? && 1 <= i < s.active
    ensures ListsOk(Deliver(s, i))
    ensures var s' := Deliver(s, i);
            && s'.nsent == |s'.delivered| && NoDuplicates(s'.delivered) && s'.dropped !! Elements(s'.delivered)
            && Elements(s'.sendCases[1..s'.active]) == s'.merged - Elements(s'.delivered) - s'.dropped
            && Elements(s'.sendCases[s'.active..]) <= Elements(s'.delivered)
            && Elements(s'.delivered) <= s'.merged
  {
    var s' := Deliver(s, i);
    var ch := s.sendCases[i];
    DeactivateMembers(s.sendCases, s.active, i);
    assert s.sendCases[1..s.active][i - 1] == ch;
    assert ch in Elements(s.sendCases[1..s.active]);
    assert Elements(s'.delivered) == Elements(s.delivered) + {ch};
    forall c | c in s.leaving ensures c in s'.sendCases {
      assert c in Elements(s.sendCases);
    }
    forall c | c in s.inbox ensures c !in s'.sendCases {
      assert c !in Elements(s.sendCases);
    }
  }

  lemma RemoveKeeps(s: State, ch: Chan)
    requires Inv(s) && ch in s.leaving
    ensures var cs := Delete(s.sendCases, IndexOf(s.sendCases, ch));
            ListsOk(s.(sendCases := cs, leaving := s.leaving - {ch}))
  {
    DeleteMember(s.sendCases, ch);
    var cs := Delete(s.sendCases, IndexOf(s.sendCases, ch));
    forall c | c in s.leaving - {ch} ensures c in cs {
      assert c in Elements(cs);
    }
    forall c | c in s.inbox ensures c !in cs {
      assert c !in Elements(cs);
    }
  }

  lemma SelectRemoveKeeps(s: State, ch: Chan)
    requires Inv(s) && s.sender.Selecting? && ch in s.leaving
    ensures Inv(Next(s, SelectRemove(ch)))
  {
    RemoveKeeps(s, ch);
    DeleteHalves(s.sendCases, s.active, ch);
    var s' := Next(s, SelectRemove(ch));
    if IndexOf(s.sendCases, ch) < s.active {
      assert ch in Elements(s.sendCases[1..s.active]);
    }
  }

  lemma StartKeeps(s: State)
    requires Inv(s) && s.sender.Idle?
    ensures Inv(Next(s, SendStart))
  {
    var s' := Next(s, SendStart);
    MergeKeeps(s.sendCases, s.inbox);
    Halves(s'.sendCases, s'.active);
    assert s'.sendCases[s'.active..] == [];
    forall x | x in s'.sendCases[1..] ensures x != REMOVE_SUB {
      var k :| 0 <= k < |s'.sendCases[1..]| && s'.sendCases[1..][k] == x;
      assert s'.sendCases[k + 1] == x;
    }
    assert s'.sendCases[1..s'.active] == s'.sendCases[1..];
  }

  lemma InboxKeeps(s: State, e: Event)
    requires Inv(s) && Enabled(s, e) && (e.Subscribe? || e.Unsubscribe?)
    ensures Inv(Next(s, e))
  {
    if e.Unsubscribe? && e.ch in s.inbox {
      DeleteMember(s.inbox, e.ch);
      var inbox := Delete(s.inbox, IndexOf(s.inbox, e.ch));
      forall c | c in inbox ensures c !in s.sendCases {
        assert c in Elements(inbox);
      }
    }
  }

  lemma NothingLeft(merged: set<Chan>, delivered: set<Chan>, dropped: set<Chan>)
    requires merged - delivered - dropped == {} && delivered <= merged && dropped <= merged
    ensures merged == delivered + dropped
  {
    forall x | x in merged ensures x in delivered + dropped {
      assert x !in merged - delivered - dropped;
    }
  }

  /** A removal always finds its channel, and every step keeps the invariant. */
  lemma StepKeepsInv(s: State, e: Event)
    requires Inv(s) && Enabled(s, e)
    ensures Safe(s, e) && Inv(Next(s, e))
  {
    match e
    case Subscribe(_) => InboxKeeps(s, e);
    case Unsubscribe(_) => InboxKeeps(s, e);
    case RemoveIdle(ch) => RemoveKeeps(s, ch);
    case SendStart => StartKeeps(s);
    case Try(ok) => if ok { DeliverKeeps(s, s.sender.i); }
    case EndRound =>
      if s.active <= 1 {
        assert s.sendCases[1..s.active] == [];
        NothingLeft(s.merged, Elements(s.delivered), s.dropped);
      }
    case SelectSend(i) => DeliverKeeps(s, i);
    case SelectRemove(ch) => SelectRemoveKeeps(s, ch);
  }

  lemma {:induction false} RunKeepsInv(s: State, run: seq<Event>)
    requires Inv(s) && Possible(s, run)
    ensures Inv(Run(s, run))
    decreases |run|
  {
    if run != [] {
      StepKeepsInv(s, run[0]);
      RunKeepsInv(Next(s, run[0]), run[1..]);
    }
  }

  /**
   At every moment of every interleaving of sends, subscriptions and unsubscriptions:
   whatever happens next, a removal finds its channel; the count of sends is the number of
   deliveries and nobody got the value twice; the active prefix is exactly what was there at
   the start, minus those served, minus those that left unserved. Once the Send returns,
   each channel that was there at the start either got the value or left before.
   */
  lemma EveryInterleavingDelivers(run: seq<Event>, next: Event)
    requires Possible(INITIAL, run)
    ensures var s := Run(INITIAL, run);
            && (Enabled(s, next) ==> Safe(s, next))
            && s.nsent == |s.delivered| && NoDuplicates(s.delivered)
            && (!s.sender.Idle? ==>
                  && 1 <= s.active <= |s.sendCases|
                  && Elements(s.sendCases[1..s.active]) == s.merged - Elements(s.delivered) - s.dropped)
            && (s.sender.Idle? ==> forall ch | ch in s.merged :: ch in s.delivered <==> ch !in s.dropped)
  {
    assert Inv(INITIAL);
    RunKeepsInv(INITIAL, run);
    var s := Run(INITIAL, run);
    if Enabled(s, next) {
      StepKeepsInv(s, next);
    }
    forall ch | s.sender.Idle? && ch in s.merged ensures ch in s.delivered <==> ch !in s.dropped {
      assert ch in Elements(s.delivered) <==> ch in s.delivered;
    }
  }

  /** A channel leaves unserved only by an unsubscription that interrupts the Send. */
  lemma DroppedOnlyByRemoval(s: State, e: Event, ch: Chan)
    requires Inv(s) && Enabled(s, e) && Safe(s, e)
    requires ch in Next(s, e).dropped && ch !in s.dropped
    ensures e == SelectRemove(ch) && ch in s.leaving && ch !in s.delivered && ch !in Next(s, e).sendCases
  {
    if e.SelectRemove? {
      DeleteMember(s.sendCases, e.ch);
      DeleteHalves(s.sendCases, s.active, e.ch);
      assert e.ch in Elements(s.sendCases[1..s.active]);
      assert e.ch !in Elements(Next(s, e).sendCases);
    }
  }
}
