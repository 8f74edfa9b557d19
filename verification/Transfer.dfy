/**
 Value transfers executed by any number of threads at once.

 A thread takes the in-use mark of its sender, then of its recipient, and gives the
 first one back when the second is taken. One step is one atomic operation on the
 shared mark table or one read or write of a balance, so an update is a read followed
 later by a write and is lost if another thread writes in between.
 */
module Transfer {
  import opened Ledger

  type Account = nat

  datatype Move = Move(sender: Account, recipient: Account, amount: int)

  datatype Pc =
    | Start                // about to mark the sender
    | GotSender            // about to mark the recipient
    | SubRead              // about to read the sender's balance
    | SubWrite(seen: int)  // about to write it back, reduced
    | AddRead              // about to read the recipient's balance
    | AddWrite(seen: int)  // about to write it back, increased
    | DelSender            // about to clear the sender's mark
    | DelRecipient         // about to clear the recipient's mark
    | Release              // recipient was taken: about to clear the sender's mark and retry
    | Done

  datatype Thread = Thread(move: Move, pc: Pc)

  datatype State = State(inUse: set<Account>, balances: seq<int>, threads: seq<Thread>)

  predicate WellFormed(s: State) {
    forall i :: 0 <= i < |s.threads| ==>
      s.threads[i].move.sender < |s.balances| && s.threads[i].move.recipient < |s.balances|
  }

  /** Every transfer is between two different accounts. */
  predicate AllDistinct(s: State) {
    forall i :: 0 <= i < |s.threads| ==> s.threads[i].move.sender != s.threads[i].move.recipient
  }

  function Initial(balances: seq<int>, moves: seq<Move>): State {
    State({}, balances, seq(|moves|, i requires 0 <= i < |moves| => Thread(moves[i], Start)))
  }

  predicate AllDone(s: State) {
    forall i :: 0 <= i < |s.threads| ==> s.threads[i].pc.Done?
  }

  /** Thread `t` performs its next atomic operation. */
  function Next(s: State, t: nat): (s': State)
    requires WellFormed(s) && t < |s.threads|
    ensures WellFormed(s') && |s'.threads| == |s.threads| && |s'.balances| == |s.balances|
    ensures forall i :: 0 <= i < |s.threads| ==> s'.threads[i].move == s.threads[i].move
    ensures forall i :: 0 <= i < |s.threads| && i != t ==> s'.threads[i] == s.threads[i]
  {
    var m := s.threads[t].move;
    match s.threads[t].pc
    case Start =>
      if m.sender in s.inUse then s
      else Goto(s.(inUse := s.inUse + {m.sender}), t, GotSender)
    case GotSender =>
      if m.recipient in s.inUse && m.sender != m.recipient then Goto(s, t, Release)
      else Goto(s.(inUse := s.inUse + {m.recipient}), t, SubRead)
    case SubRead => Goto(s, t, SubWrite(s.balances[m.sender]))
    case SubWrite(seen) => Goto(s.(balances := s.balances[m.sender := seen - m.amount]), t, AddRead)
    case AddRead => Goto(s, t, AddWrite(s.balances[m.recipient]))
    case AddWrite(seen) => Goto(s.(balances := s.balances[m.recipient := seen + m.amount]), t, DelSender)
    case DelSender => Goto(s.(inUse := s.inUse - {m.sender}), t, DelRecipient)
    case DelRecipient => Goto(s.(inUse := s.inUse - {m.recipient}), t, Done)
    case Release => Goto(s.(inUse := s.inUse - {m.sender}), t, Start)
    case Done => s
  }

  function Goto(s: State, t: nat, pc: Pc): State
    requires t < |s.threads|
  {
    s.(threads := s.threads[t := s.threads[t].(pc := pc)])
  }

  predicate Valid(schedule: seq<nat>, threads: nat) {
    forall i :: 0 <= i < |schedule| ==> schedule[i] < threads
  }

  /** The state after the threads ran in the order given by `schedule`. */
  function Run(s: State, schedule: seq<nat>): (s': State)
    requires WellFormed(s)
    requires Valid(schedule, |s.threads|)
    ensures WellFormed(s') && |s'.threads| == |s.threads| && |s'.balances| == |s.balances|
    ensures forall i :: 0 <= i < |s.threads| ==> s'.threads[i].move == s.threads[i].move
    decreases |schedule|
  {
    if schedule == [] then s else Run(Next(s, schedule[0]), schedule[1..])
  }

  lemma {:induction false} RunConcat(s: State, a: seq<nat>, b: seq<nat>)
    requires WellFormed(s)
    requires Valid(a, |s.threads|)
    requires Valid(b, |s.threads|)
    ensures Valid(a + b, |s.threads|)
    ensures Run(s, a + b) == Run(Run(s, a), b)
    decreases |a|
  {
    if a == [] {
      assert a + b == b;
    } else {
      assert (a + b)[1..] == a[1..] + b;
      RunConcat(Next(s, a[0]), a[1..], b);
    }
  }

  // ---- Who is where ---------------------------------------------------------------

  /** The thread is between winning both marks and giving the first one back. */
  predicate InUpdate(th: Thread) {
    th.pc.SubRead? || th.pc.SubWrite? || th.pc.AddRead? || th.pc.AddWrite? || th.pc.DelSender?
  }

  predicate Touches(m: Move, a: Account) {
    a == m.sender || a == m.recipient
  }

  /** The thread is entitled to account `a`'s mark. */
  predicate Owns(th: Thread, a: Account) {
    || ((th.pc.GotSender? || th.pc.Release?) && a == th.move.sender)
    || (InUpdate(th) && Touches(th.move, a))
    || (th.pc.DelRecipient? && a == th.move.recipient)
  }

  /** No two threads are inside the update of one account. */
  ghost predicate Exclusive(s: State) {
    forall t, u, a | 0 <= t < |s.threads| && 0 <= u < |s.threads| && t != u ::
      !(InUpdate(s.threads[t]) && InUpdate(s.threads[u])
        && Touches(s.threads[t].move, a) && Touches(s.threads[u].move, a))
  }

  ghost predicate OwnersUnique(s: State) {
    forall t, u, a | 0 <= t < |s.threads| && 0 <= u < |s.threads| && t != u ::
      !(Owns(s.threads[t], a) && Owns(s.threads[u], a))
  }

  ghost predicate MarksAreOwners(s: State) {
    && (forall t, a | 0 <= t < |s.threads| && Owns(s.threads[t], a) :: a in s.inUse)
    && (forall a | a in s.inUse :: exists t :: 0 <= t < |s.threads| && Owns(s.threads[t], a))
  }

  /** What a thread read is still the balance when it comes to write. */
  predicate ReadsFresh(s: State)
    requires WellFormed(s)
  {
    forall t | 0 <= t < |s.threads| ::
      var th := s.threads[t];
      && (th.pc.SubWrite? ==> th.pc.seen == s.balances[th.move.sender])
      && (th.pc.AddWrite? ==> th.pc.seen == s.balances[th.move.recipient])
  }

  // ---- What has been paid so far ---------------------------------------------------

  predicate Subtracted(pc: Pc) {
    pc.AddRead? || pc.AddWrite? || Added(pc)
  }

  predicate Added(pc: Pc) {
    pc.DelSender? || pc.DelRecipient? || pc.Done?
  }

  /** What thread `th` has so far done to account `a`. */
  function Effect(th: Thread, a: Account): int {
    (if Subtracted(th.pc) && a == th.move.sender then -th.move.amount else 0)
    + (if Added(th.pc) && a == th.move.recipient then th.move.amount else 0)
  }

  function Effects(ths: seq<Thread>, a: Account): int {
    if ths == [] then 0 else Effect(ths[0], a) + Effects(ths[1..], a)
  }

  lemma {:induction false} EffectsUpdate(ths: seq<Thread>, t: nat, th: Thread, a: Account)
    requires t < |ths|
    ensures Effects(ths[t := th], a) == Effects(ths, a) - Effect(ths[t], a) + Effect(th, a)
  {
    if t == 0 {
      assert ths[t := th][1..] == ths[1..];
    } else {
      assert ths[t := th][1..] == ths[1..][t - 1 := th];
      EffectsUpdate(ths[1..], t - 1, th, a);
    }
  }

  /** No update is lost: each balance is its initial value plus every effect so far. */
  predicate Accounted(initial: seq<int>, s: State) {
    && |s.balances| == |initial|
    && forall a | 0 <= a < |initial| :: s.balances[a] == initial[a] + Effects(s.threads, a)
  }

  ghost predicate Inv(initial: seq<int>, s: State) {
    && WellFormed(s)
    && AllDistinct(s)
    && OwnersUnique(s)
    && MarksAreOwners(s)
    && ReadsFresh(s)
    && Accounted(initial, s)
  }

  lemma UniqueStep(s: State, t: nat)
    requires WellFormed(s) && AllDistinct(s) && t < |s.threads|
    requires OwnersUnique(s) && MarksAreOwners(s)
    ensures OwnersUnique(Next(s, t))
  {
    var s' := Next(s, t);
    forall u, a | 0 <= u < |s.threads| && u != t && Owns(s'.threads[t], a)
      ensures !Owns(s.threads[u], a)
    {
      assert Owns(s.threads[t], a) || a !in s.inUse;
    }
  }

  lemma OwnedIsMarked(s: State, t: nat, u: nat, a: Account)
    requires WellFormed(s) && AllDistinct(s) && t < |s.threads| && u < |s.threads|
    requires OwnersUnique(s) && MarksAreOwners(s) && Owns(Next(s, t).threads[u], a)
    ensures a in Next(s, t).inUse
  {
    if u != t {
      assert Owns(s.threads[u], a);
      assert !Owns(s.threads[t], a);
    }
  }

  lemma MarkedIsOwned(s: State, t: nat, a: Account) returns (u: nat)
    requires WellFormed(s) && AllDistinct(s) && t < |s.threads|
    requires MarksAreOwners(s) && a in Next(s, t).inUse
    ensures u < |s.threads| && Owns(Next(s, t).threads[u], a)
  {
    if Owns(Next(s, t).threads[t], a) {
      u := t;
    } else {
      assert a in s.inUse && !Owns(s.threads[t], a);
      u :| 0 <= u < |s.threads| && Owns(s.threads[u], a);
    }
  }

  lemma MarksStep(s: State, t: nat)
    requires WellFormed(s) && AllDistinct(s) && t < |s.threads|
    requires OwnersUnique(s) && MarksAreOwners(s)
    ensures MarksAreOwners(Next(s, t))
  {
    var s' := Next(s, t);
    forall u, a | 0 <= u < |s'.threads| && Owns(s'.threads[u], a) ensures a in s'.inUse {
      OwnedIsMarked(s, t, u, a);
    }
    forall a | a in s'.inUse ensures exists u :: 0 <= u < |s'.threads| && Owns(s'.threads[u], a) {
      var u := MarkedIsOwned(s, t, a);
    }
  }

  lemma ReadsStep(s: State, t: nat)
    requires WellFormed(s) && AllDistinct(s) && t < |s.threads|
    requires OwnersUnique(s) && ReadsFresh(s)
    ensures ReadsFresh(Next(s, t))
  {
    var s' := Next(s, t);
    forall u | 0 <= u < |s'.threads| && u != t
      ensures s'.threads[u].pc.SubWrite? ==> s'.threads[u].pc.seen == s'.balances[s'.threads[u].move.sender]
      ensures s'.threads[u].pc.AddWrite? ==> s'.threads[u].pc.seen == s'.balances[s'.threads[u].move.recipient]
    {
      var w := s.threads[u];
      assert !(Owns(s.threads[t], w.move.sender) && Owns(w, w.move.sender));
      assert !(Owns(s.threads[t], w.move.recipient) && Owns(w, w.move.recipient));
    }
  }

  lemma AccountedStep(initial: seq<int>, s: State, t: nat)
    requires Inv(initial, s) && t < |s.threads|
    ensures Accounted(initial, Next(s, t))
  {
    var s' := Next(s, t);
    forall a | 0 <= a < |initial|
      ensures s'.balances[a] == initial[a] + Effects(s'.threads, a)
    {
      EffectsUpdate(s.threads, t, s'.threads[t], a);
      assert s.threads[t := s'.threads[t]] == s'.threads;
    }
  }

  lemma StepKeepsInv(initial: seq<int>, s: State, t: nat)
    requires Inv(initial, s) && t < |s.threads|
    ensures Inv(initial, Next(s, t))
  {
    UniqueStep(s, t);
    MarksStep(s, t);
    ReadsStep(s, t);
    AccountedStep(initial, s, t);
  }

  lemma {:induction false} RunKeepsInv(initial: seq<int>, s: State, schedule: seq<nat>)
    requires Inv(initial, s)
    requires Valid(schedule, |s.threads|)
    ensures Inv(initial, Run(s, schedule))
    decreases |schedule|
  {
    if schedule != [] {
      StepKeepsInv(initial, s, schedule[0]);
      RunKeepsInv(initial, Next(s, schedule[0]), schedule[1..]);
    }
  }

  lemma InvExclusive(initial: seq<int>, s: State)
    requires Inv(initial, s)
    ensures Exclusive(s)
  {
    forall t, u, a | 0 <= t < |s.threads| && 0 <= u < |s.threads| && t != u
      ensures !(InUpdate(s.threads[t]) && InUpdate(s.threads[u])
                && Touches(s.threads[t].move, a) && Touches(s.threads[u].move, a))
    {
      assert !(Owns(s.threads[t], a) && Owns(s.threads[u], a));
    }
  }

  predicate MovesOk(balances: seq<int>, moves: seq<Move>) {
    forall i :: 0 <= i < |moves| ==>
      moves[i].sender < |balances| && moves[i].recipient < |balances|
  }

  lemma {:induction false} NoEffectsYet(ths: seq<Thread>, a: Account)
    requires forall i :: 0 <= i < |ths| ==> ths[i].pc.Start?
    ensures Effects(ths, a) == 0
  {
    if ths != [] {
      NoEffectsYet(ths[1..], a);
    }
  }

  lemma InitialInv(balances: seq<int>, moves: seq<Move>)
    requires MovesOk(balances, moves)
    requires forall i :: 0 <= i < |moves| ==> moves[i].sender != moves[i].recipient
    ensures Inv(balances, Initial(balances, moves))
  {
    var s := Initial(balances, moves);
    forall a | 0 <= a < |balances| ensures s.balances[a] == balances[a] + Effects(s.threads, a) {
      NoEffectsYet(s.threads, a);
    }
  }

  // ---- Serial executions ------------------------------------------------------------

  /** One transfer alone, as the sequential program performs it. */
  function Apply(balances: seq<int>, m: Move): (r: seq<int>)
    requires m.sender < |balances| && m.recipient < |balances|
    ensures |r| == |balances|
  {
    var b := balances[m.sender := balances[m.sender] - m.amount];
    b[m.recipient := b[m.recipient] + m.amount]
  }

  function Serial(balances: seq<int>, order: seq<Move>): (r: seq<int>)
    requires MovesOk(balances, order)
    ensures |r| == |balances|
    decreases |order|
  {
    if order == [] then balances else Serial(Apply(balances, order[0]), order[1..])
  }

  /** What a set of completed transfers does to one account. */
  function Net(order: seq<Move>, a: Account): int {
    if order == [] then 0
    else Effect(Thread(order[0], Done), a) + Net(order[1..], a)
  }

  lemma {:induction false} SerialIsNet(balances: seq<int>, order: seq<Move>, a: Account)
    requires MovesOk(balances, order) && a < |balances|
    ensures Serial(balances, order)[a] == balances[a] + Net(order, a)
    decreases |order|
  {
    if order != [] {
      SerialIsNet(Apply(balances, order[0]), order[1..], a);
    }
  }

  lemma {:induction false} NetSplit(p: seq<Move>, q: seq<Move>, a: Account)
    ensures Net(p + q, a) == Net(p, a) + Net(q, a)
  {
    if p == [] {
      assert p + q == q;
    } else {
      assert (p + q)[1..] == p[1..] + q;
      NetSplit(p[1..], q, a);
    }
  }

  function Without(q: seq<Move>, k: nat): (r: seq<Move>)
    requires k < |q|
    ensures |r| == |q| - 1
  {
    q[..k] + q[k + 1..]
  }

  /** Taking one move out of a sequence. */
  lemma NetWithout(q: seq<Move>, k: nat, a: Account)
    requires k < |q|
    ensures Net(q, a) == Net([q[k]], a) + Net(Without(q, k), a)
  {
    NetSplit(q[..k], q[k + 1..], a);
    NetSplit(q[..k], [q[k]] + q[k + 1..], a);
    NetSplit([q[k]], q[k + 1..], a);
    assert q == q[..k] + ([q[k]] + q[k + 1..]);
  }

  lemma BagWithout(q: seq<Move>, k: nat)
    requires k < |q|
    ensures multiset(Without(q, k)) == multiset(q) - multiset{q[k]}
  {
    assert q == q[..k] + [q[k]] + q[k + 1..];
  }

  lemma {:induction false} NetPermutation(p: seq<Move>, q: seq<Move>, a: Account)
    requires multiset(p) == multiset(q)
    ensures Net(p, a) == Net(q, a)
    decreases |p|
  {
    if p == [] {
      assert |multiset(q)| == 0;
      assert q == [];
    } else {
      assert p[0] in multiset(q);
      var k :| 0 <= k < |q| && q[k] == p[0];
      BagWithout(p, 0);
      BagWithout(q, k);
      NetWithout(p, 0, a);
      NetWithout(q, k, a);
      NetPermutation(Without(p, 0), Without(q, k), a);
    }
  }

  lemma {:induction false} DoneEffectsAreNet(ths: seq<Thread>, moves: seq<Move>, a: Account)
    requires |ths| == |moves|
    requires forall i :: 0 <= i < |ths| ==> ths[i] == Thread(moves[i], Done)
    ensures Effects(ths, a) == Net(moves, a)
  {
    if ths != [] {
      DoneEffectsAreNet(ths[1..], moves[1..], a);
    }
  }

  /**
   Every interleaving of any number of transfers between distinct accounts keeps the
   updates of an account mutually exclusive, and once all threads are done the balances
   are those of the same transfers performed one at a time, in any order at all.
   */
  lemma InterleavingIsSerial(balances: seq<int>, moves: seq<Move>, schedule: seq<nat>, order: seq<Move>)
    requires MovesOk(balances, moves)
    requires forall i :: 0 <= i < |moves| ==> moves[i].sender != moves[i].recipient
    requires Valid(schedule, |moves|)
    requires multiset(order) == multiset(moves)
    ensures var s := Run(Initial(balances, moves), schedule);
            && Exclusive(s)
            && MovesOk(balances, order)
            && (AllDone(s) ==> s.balances == Serial(balances, order))
  {
    var s0 := Initial(balances, moves);
    InitialInv(balances, moves);
    RunKeepsInv(balances, s0, schedule);
    var s := Run(s0, schedule);
    InvExclusive(balances, s);
    forall i | 0 <= i < |order|
      ensures order[i].sender < |balances| && order[i].recipient < |balances|
    {
      assert order[i] in multiset(moves);
    }
    if AllDone(s) {
      forall a | 0 <= a < |balances| ensures s.balances[a] == Serial(balances, order)[a] {
        DoneEffectsAreNet(s.threads, moves, a);
        NetPermutation(moves, order, a);
        SerialIsNet(balances, order, a);
      }
    }
  }

  // ---- Conservation -------------------------------------------------------------------

  /** What the thread took from its sender and has not yet given to its recipient. */
  function Flying(th: Thread): int {
    if Subtracted(th.pc) && !Added(th.pc) then th.move.amount else 0
  }

  function InFlight(ths: seq<Thread>): int {
    if ths == [] then 0 else Flying(ths[0]) + InFlight(ths[1..])
  }

  lemma {:induction false} InFlightUpdate(ths: seq<Thread>, t: nat, th: Thread)
    requires t < |ths|
    ensures InFlight(ths[t := th]) == InFlight(ths) - Flying(ths[t]) + Flying(th)
  {
    if t == 0 {
      assert ths[t := th][1..] == ths[1..];
    } else {
      assert ths[t := th][1..] == ths[1..][t - 1 := th];
      InFlightUpdate(ths[1..], t - 1, th);
    }
  }

  lemma TotalStep(initial: seq<int>, s: State, t: nat)
    requires Inv(initial, s) && t < |s.threads|
    ensures Total(Next(s, t).balances) + InFlight(Next(s, t).threads) == Total(s.balances) + InFlight(s.threads)
  {
    var s' := Next(s, t);
    var m := s.threads[t].move;
    InFlightUpdate(s.threads, t, s'.threads[t]);
    assert s.threads[t := s'.threads[t]] == s'.threads;
    if s.threads[t].pc.SubWrite? {
      TotalUpdate(s.balances, m.sender, s.threads[t].pc.seen - m.amount);
    } else if s.threads[t].pc.AddWrite? {
      TotalUpdate(s.balances, m.recipient, s.threads[t].pc.seen + m.amount);
    }
  }

  /** At every moment of every run, balances plus money in flight is the initial total. */
  lemma {:induction false} TotalConserved(initial: seq<int>, s: State, schedule: seq<nat>)
    requires Inv(initial, s)
    requires Valid(schedule, |s.threads|)
    ensures var s' := Run(s, schedule);
            Total(s'.balances) + InFlight(s'.threads) == Total(s.balances) + InFlight(s.threads)
    decreases |schedule|
  {
    if schedule != [] {
      TotalStep(initial, s, schedule[0]);
      StepKeepsInv(initial, s, schedule[0]);
      TotalConserved(initial, Next(s, schedule[0]), schedule[1..]);
    }
  }

  // ---- No deadlock --------------------------------------------------------------------

  /** How much work a thread still has to do, if it is never turned away again. */
  function Weight(pc: Pc): nat {
    match pc
    case GotSender => 9
    case Release => 8
    case Start => 7
    case SubRead => 6
    case SubWrite(_) => 5
    case AddRead => 4
    case AddWrite(_) => 3
    case DelSender => 2
    case DelRecipient => 1
    case Done => 0
  }

  function Work(ths: seq<Thread>): nat {
    if ths == [] then 0 else Weight(ths[0].pc) + Work(ths[1..])
  }

  lemma {:induction false} WorkUpdate(ths: seq<Thread>, t: nat, th: Thread)
    requires t < |ths|
    ensures Work(ths[t := th]) == Work(ths) - Weight(ths[t].pc) + Weight(th.pc)
  {
    if t == 0 {
      assert ths[t := th][1..] == ths[1..];
    } else {
      assert ths[t := th][1..] == ths[1..][t - 1 := th];
      WorkUpdate(ths[1..], t - 1, th);
    }
  }

  /** A thread past its first mark always moves closer to the end. */
  lemma EngagedProgress(s: State, t: nat)
    requires WellFormed(s) && t < |s.threads|
    requires !s.threads[t].pc.Done? && !s.threads[t].pc.Start?
    ensures Work(Next(s, t).threads) < Work(s.threads)
  {
    var s' := Next(s, t);
    WorkUpdate(s.threads, t, s'.threads[t]);
    assert s.threads[t := s'.threads[t]] == s'.threads;
  }

  /** When no thread is past its first mark, a waiting thread wins both marks in two steps. */
  lemma FreshProgress(initial: seq<int>, s: State, t: nat)
    requires Inv(initial, s) && t < |s.threads| && s.threads[t].pc.Start?
    requires forall u :: 0 <= u < |s.threads| ==> s.threads[u].pc.Start? || s.threads[u].pc.Done?
    ensures Work(Next(Next(s, t), t).threads) < Work(s.threads)
  {
    assert forall a :: a in s.inUse ==> exists u :: 0 <= u < |s.threads| && Owns(s.threads[u], a);
    assert s.inUse == {};
    var s2 := Next(Next(s, t), t);
    WorkUpdate(s.threads, t, s2.threads[t]);
    assert s.threads[t := s2.threads[t]] == s2.threads;
  }

  /** From any reachable state some thread can make progress in at most two steps. */
  lemma SomeProgress(initial: seq<int>, s: State) returns (steps: seq<nat>)
    requires Inv(initial, s) && !AllDone(s)
    ensures Valid(steps, |s.threads|)
    ensures Work(Run(s, steps).threads) < Work(s.threads)
  {
    if t :| 0 <= t < |s.threads| && !s.threads[t].pc.Done? && !s.threads[t].pc.Start? {
      steps := [t];
      EngagedProgress(s, t);
      assert Run(Next(s, t), []) == Next(s, t);
    } else {
      var t :| 0 <= t < |s.threads| && !s.threads[t].pc.Done?;
      steps := [t, t];
      FreshProgress(initial, s, t);
      RunTwo(s, t);
    }
  }

  lemma RunTwo(s: State, t: nat)
    requires WellFormed(s) && t < |s.threads|
    ensures Run(s, [t, t]) == Next(Next(s, t), t)
  {
    var s1 := Next(s, t);
    assert [t, t][1..] == [t] && [t][1..] == [];
    assert Run(s1, [t]) == Run(Next(s1, t), []);
  }

  /** From every reachable state some schedule completes all transfers. */
  lemma {:induction false} CanComplete(initial: seq<int>, s: State) returns (schedule: seq<nat>)
    requires Inv(initial, s)
    ensures Valid(schedule, |s.threads|)
    ensures AllDone(Run(s, schedule))
    decreases Work(s.threads)
  {
    if AllDone(s) {
      schedule := [];
    } else {
      var steps := SomeProgress(initial, s);
      RunKeepsInv(initial, s, steps);
      var rest := CanComplete(initial, Run(s, steps));
      RunConcat(s, steps, rest);
      schedule := steps + rest;
    }
  }

  // ---- Transfers from an account to itself ---------------------------------------------

  /** Every run of these transfers keeps updates exclusive and, when done, the total unchanged. */
  ghost predicate Sound(balances: seq<int>, moves: seq<Move>, schedule: seq<nat>)
    requires MovesOk(balances, moves) && Valid(schedule, |moves|)
  {
    var s := Run(Initial(balances, moves), schedule);
    Exclusive(s) && (AllDone(s) ==> Total(s.balances) == Total(balances))
  }

  /** The transfer can run beside any company of transfers between distinct accounts. */
  ghost predicate SafeInCompany(m: Move) {
    forall balances: seq<int>, others: seq<Move>, schedule: seq<nat> |
      && MovesOk(balances, [m] + others)
      && (forall i :: 0 <= i < |others| ==> others[i].sender != others[i].recipient)
      && Valid(schedule, 1 + |others|)
      :: Sound(balances, [m] + others, schedule)
  }

  lemma {:induction false} NothingInFlight(ths: seq<Thread>)
    requires forall i :: 0 <= i < |ths| ==> ths[i].pc.Start? || ths[i].pc.Done?
    ensures InFlight(ths) == 0
  {
    if ths != [] {
      NothingInFlight(ths[1..]);
    }
  }

  lemma DistinctIsSound(balances: seq<int>, moves: seq<Move>, schedule: seq<nat>)
    requires MovesOk(balances, moves) && Valid(schedule, |moves|)
    requires forall i :: 0 <= i < |moves| ==> moves[i].sender != moves[i].recipient
    ensures Sound(balances, moves, schedule)
  {
    var s0 := Initial(balances, moves);
    InitialInv(balances, moves);
    RunKeepsInv(balances, s0, schedule);
    var s := Run(s0, schedule);
    InvExclusive(balances, s);
    if AllDone(s) {
      TotalConserved(balances, s0, schedule);
      NothingInFlight(s0.threads);
      NothingInFlight(s.threads);
    }
  }

  /** The thread `t` takes `n` steps in a row. */
  function Burst(t: nat, n: nat): (r: seq<nat>)
    ensures |r| == n && forall i :: 0 <= i < n ==> r[i] == t
  {
    seq(n, i => t)
  }

  lemma BurstStep(s: State, t: nat, n: nat)
    requires WellFormed(s) && t < |s.threads| && n > 0
    ensures Run(s, Burst(t, n)) == Run(Next(s, t), Burst(t, n - 1))
  {
    assert Burst(t, n)[1..] == Burst(t, n - 1);
  }

  /** A thread that finds its accounts free reaches its update in two steps. */
  lemma EntersUpdate(s: State, t: nat)
    requires WellFormed(s) && t < |s.threads| && s.threads[t].pc.Start?
    requires s.threads[t].move.sender !in s.inUse && s.threads[t].move.recipient !in s.inUse
    ensures var m := s.threads[t].move;
            Run(s, Burst(t, 2)) ==
            s.(inUse := s.inUse + {m.sender, m.recipient},
               threads := s.threads[t := Thread(m, SubRead)])
  {
    BurstStep(s, t, 2);
    BurstStep(Next(s, t), t, 1);
    var m := s.threads[t].move;
    assert s.inUse + {m.sender} + {m.recipient} == s.inUse + {m.sender, m.recipient};
    assert s.threads[t := Thread(m, GotSender)][t := Thread(m, SubRead)] == s.threads[t := Thread(m, SubRead)];
  }

  /** A thread in its update gives its first mark back and touches no other mark meanwhile. */
  lemma {:induction false} LeavesUpdate(s: State, t: nat, n: nat)
    requires WellFormed(s) && t < |s.threads| && InUpdate(s.threads[t])
    requires n == Weight(s.threads[t].pc) - 1
    ensures var m := s.threads[t].move;
            var s' := Run(s, Burst(t, n));
            s'.inUse == s.inUse - {m.sender} && s'.threads == s.threads[t := Thread(m, DelRecipient)]
    decreases n
  {
    BurstStep(s, t, n);
    var s1 := Next(s, t);
    assert s1.threads == s.threads[t := s1.threads[t]];
    if !s.threads[t].pc.DelSender? {
      LeavesUpdate(s1, t, n - 1);
    }
  }

  /** A self-transfer that runs alone up to its second clearing leaves no mark behind. */
  lemma SelfTransferClears(s: State, t: nat)
    requires WellFormed(s) && t < |s.threads| && s.threads[t].pc.Start? && s.inUse == {}
    requires s.threads[t].move.sender == s.threads[t].move.recipient
    ensures var s' := Run(s, Burst(t, 2) + Burst(t, 5));
            s'.inUse == {} && s'.threads == s.threads[t := Thread(s.threads[t].move, DelRecipient)]
  {
    EntersUpdate(s, t);
    var s1 := Run(s, Burst(t, 2));
    LeavesUpdate(s1, t, 5);
    RunConcat(s, Burst(t, 2), Burst(t, 5));
  }

  lemma SecondClearing(s: State, t: nat)
    requires WellFormed(s) && t < |s.threads| && s.threads[t].pc.DelRecipient?
    ensures var m := s.threads[t].move;
            Run(s, [t]) == s.(inUse := s.inUse - {m.recipient}, threads := s.threads[t := Thread(m, Done)])
  {
    assert Run(Next(s, t), []) == Next(s, t);
  }

  predicate BothUpdate(s: State, t: nat, u: nat, a: Account) {
    && t < |s.threads| && u < |s.threads| && t != u
    && InUpdate(s.threads[t]) && InUpdate(s.threads[u])
    && Touches(s.threads[t].move, a) && Touches(s.threads[u].move, a)
  }

  /** Clearing a mark one no longer owns lets a third thread into the second one's update. */
  lemma SecondClearingLetsIn(s: State, a: Account)
    requires WellFormed(s) && |s.threads| == 3 && s.inUse == {}
    requires s.threads[0].pc.DelRecipient? && s.threads[0].move.recipient == a
    requires s.threads[1] == Thread(Move(a, a + 1, 1), Start)
    requires s.threads[2] == Thread(Move(a, a + 2, 1), Start)
    ensures BothUpdate(Run(s, Burst(1, 2) + ([0] + Burst(2, 2))), 1, 2, a)
  {
    EntersUpdate(s, 1);
    var s1 := Run(s, Burst(1, 2));
    SecondClearing(s1, 0);
    var s2 := Run(s1, [0]);
    EntersUpdate(s2, 2);
    RunConcat(s1, [0], Burst(2, 2));
    RunConcat(s, Burst(1, 2), [0] + Burst(2, 2));
  }

  /**
   A self-transfer clears its account's mark twice. A second thread that marks the account
   between the two clearings is then joined inside its update by a third.
   */
  lemma SelfTransferBreaksExclusion(m: Move) returns (balances: seq<int>, others: seq<Move>, schedule: seq<nat>)
    requires m.sender == m.recipient
    ensures MovesOk(balances, [m] + others) && Valid(schedule, 1 + |others|)
    ensures forall i :: 0 <= i < |others| ==> others[i].sender != others[i].recipient
    ensures !Exclusive(Run(Initial(balances, [m] + others), schedule))
  {
    var a := m.sender;
    balances := seq(a + 3, i => 0);
    others := [Move(a, a + 1, 1), Move(a, a + 2, 1)];
    var s := Initial(balances, [m] + others);
    SelfTransferClears(s, 0);
    var first, second := Burst(0, 2) + Burst(0, 5), Burst(1, 2) + ([0] + Burst(2, 2));
    SecondClearingLetsIn(Run(s, first), a);
    RunConcat(s, first, second);
    schedule := first + second;
  }

  /** A transfer is safe beside all others exactly when its two accounts differ. */
  lemma SafeIffDistinct(m: Move)
    ensures SafeInCompany(m) <==> m.sender != m.recipient
  {
    if m.sender == m.recipient {
      var balances, others, schedule := SelfTransferBreaksExclusion(m);
      assert !Sound(balances, [m] + others, schedule);
    } else {
      forall balances: seq<int>, others: seq<Move>, schedule: seq<nat> |
        && MovesOk(balances, [m] + others)
        && (forall i :: 0 <= i < |others| ==> others[i].sender != others[i].recipient)
        && Valid(schedule, 1 + |others|)
        ensures Sound(balances, [m] + others, schedule)
      {
        DistinctIsSound(balances, [m] + others, schedule);
      }
    }
  }
}
