/**
 The block gas pool shared by threads that execute transactions in parallel.

 Each thread takes its gas limit with a load / compare / compare-and-swap loop, burns part
 of it, and gives the rest back with a check followed by a separate atomic add. The pool is
 a 64-bit word: subtraction and addition wrap around.
 */
module GasPool {
  import opened Prelude

  /** A transaction that takes `limit` gas and returns `back` of it. */
  datatype Job = Job(limit: nat, back: nat)

  datatype Pc =
    | Load              // SubGas: about to load the pool
    | Cas(seen: nat)    // SubGas: enough gas seen, about to swap
    | Rejected          // SubGas reported that the gas limit is reached
    | Check             // AddGas: about to check for overflow
    | Add               // AddGas: check passed, about to add
    | Panicked          // AddGas found the pool too full
    | Done

  datatype Thread = Thread(job: Job, pc: Pc)

  datatype State = State(pool: nat, threads: seq<Thread>)

  predicate WellFormed(s: State) {
    && s.pool < TWO_TO_THE_64
    && forall i :: 0 <= i < |s.threads| ==>
         s.threads[i].job.back <= s.threads[i].job.limit < TWO_TO_THE_64
  }

  function Goto(s: State, t: nat, pc: Pc): State
    requires t < |s.threads|
  {
    s.(threads := s.threads[t := s.threads[t].(pc := pc)])
  }

  /** Thread `t` performs its next atomic operation. */
  function Next(s: State, t: nat): (s': State)
    requires WellFormed(s) && t < |s.threads|
    ensures WellFormed(s') && |s'.threads| == |s.threads|
    ensures s'.threads == s.threads[t := s'.threads[t]] && s'.threads[t].job == s.threads[t].job
  {
    var job := s.threads[t].job;
    match s.threads[t].pc
    case Load =>
      if s.pool < job.limit then Goto(s, t, Rejected) else Goto(s, t, Cas(s.pool))
    case Cas(seen) =>
      if s.pool == seen then Goto(s.(pool := Wrap(seen - job.limit)), t, Check)
      else Goto(s, t, Load)
    case Check =>
      if s.pool > TWO_TO_THE_64 - 1 - job.back then Goto(s, t, Panicked) else Goto(s, t, Add)
    case Add => Goto(s.(pool := Wrap(s.pool + job.back)), t, Done)
    case Rejected => s
    case Panicked => s
    case Done => s
  }

  predicate Valid(schedule: seq<nat>, threads: nat) {
    forall i :: 0 <= i < |schedule| ==> schedule[i] < threads
  }

  function Run(s: State, schedule: seq<nat>): (s': State)
    requires WellFormed(s) && Valid(schedule, |s.threads|)
    ensures WellFormed(s') && |s'.threads| == |s.threads|
    ensures forall i :: 0 <= i < |s.threads| ==> s'.threads[i].job == s.threads[i].job
    decreases |schedule|
  {
    if schedule == [] then s else Run(Next(s, schedule[0]), schedule[1..])
  }

  lemma {:induction false} RunConcat(s: State, a: seq<nat>, b: seq<nat>)
    requires WellFormed(s) && Valid(a, |s.threads|) && Valid(b, |s.threads|)
    ensures Run(s, a + b) == Run(Run(s, a), b)
    decreases |a|
  {
    if a == [] {
      assert a + b == b;
    } else {
      assert (a + b)[1..] == a[1..] + b;
      RunConcat(Next(s, a[0]), a[1..], b);
    }
  }

  // ---- Conservation --------------------------------------------------------------------

  /** Gas a thread holds right now. */
  function Outstanding(th: Thread): nat {
    if th.pc.Check? || th.pc.Add? || th.pc.Panicked? then th.job.limit else 0
  }

  /** Gas a thread has burned for good. */
  function Burned(th: Thread): nat
    requires th.job.back <= th.job.limit
  {
    if th.pc.Done? then th.job.limit - th.job.back else 0
  }

  predicate JobsOk(ths: seq<Thread>) {
    forall i :: 0 <= i < |ths| ==> ths[i].job.back <= ths[i].job.limit
  }

  /** Gas taken out of the pool by all threads together, returned or not yet. */
  function Taken(ths: seq<Thread>): (n: nat)
    requires JobsOk(ths)
    ensures forall i :: 0 <= i < |ths| ==> Outstanding(ths[i]) + Burned(ths[i]) <= n
  {
    if ths == [] then 0 else Outstanding(ths[0]) + Burned(ths[0]) + Taken(ths[1..])
  }

  lemma {:induction false} TakenUpdate(ths: seq<Thread>, t: nat, th: Thread)
    requires JobsOk(ths) && t < |ths| && th.job == ths[t].job
    ensures JobsOk(ths[t := th])
    ensures Taken(ths[t := th])
         == Taken(ths) - Outstanding(ths[t]) - Burned(ths[t]) + Outstanding(th) + Burned(th)
  {
    if t == 0 {
      assert ths[t := th][1..] == ths[1..];
    } else {
      assert ths[t := th][1..] == ths[1..][t - 1 := th];
      TakenUpdate(ths[1..], t - 1, th);
    }
  }

  /** Pool, outstanding and burned gas add up to the block's gas limit. */
  ghost predicate Inv(blockLimit: nat, s: State) {
    && WellFormed(s)
    && blockLimit < TWO_TO_THE_64
    && s.pool + Taken(s.threads) == blockLimit
    && (forall i :: 0 <= i < |s.threads| && s.threads[i].pc.Cas? ==>
          s.threads[i].job.limit <= s.threads[i].pc.seen)
    && (forall i :: 0 <= i < |s.threads| ==> !s.threads[i].pc.Panicked?)
  }

  /**
   A step of any thread keeps the gas balance; a successful swap never underflows, the
   overflow check never fires, and the later add never wraps whatever ran in between.
   */
  lemma StepConserves(blockLimit: nat, s: State, t: nat)
    requires Inv(blockLimit, s) && t < |s.threads|
    ensures Inv(blockLimit, Next(s, t))
    ensures var s' := Next(s, t); var th := s.threads[t];
            && (th.pc.Cas? && s'.threads[t].pc.Check? ==> s'.pool == s.pool - th.job.limit)
            && (th.pc.Add? ==> s'.pool == s.pool + th.job.back)
            && (th.pc.Check? ==> s'.threads[t].pc.Add?)
  {
    TakenUpdate(s.threads, t, Next(s, t).threads[t]);
    StepKeepsInv(blockLimit, s, t);
  }

  lemma StepKeepsInv(blockLimit: nat, s: State, t: nat)
    requires Inv(blockLimit, s) && t < |s.threads|
    ensures Inv(blockLimit, Next(s, t))
  {
    var s' := Next(s, t);
    TakenUpdate(s.threads, t, s'.threads[t]);
  }

  lemma {:induction false} RunConserves(blockLimit: nat, s: State, schedule: seq<nat>)
    requires Inv(blockLimit, s) && Valid(schedule, |s.threads|)
    ensures Inv(blockLimit, Run(s, schedule))
    decreases |schedule|
  {
    if schedule != [] {
      StepConserves(blockLimit, s, schedule[0]);
      RunConserves(blockLimit, Next(s, schedule[0]), schedule[1..]);
    }
  }

  predicate Finished(pc: Pc) {
    pc.Done? || pc.Rejected? || pc.Panicked?
  }

  function Demand(jobs: seq<Job>): nat {
    if jobs == [] then 0 else jobs[0].limit + Demand(jobs[1..])
  }

  function Usage(ths: seq<Thread>): int {
    if ths == [] then 0
    else (if ths[0].pc.Done? then ths[0].job.limit - ths[0].job.back else 0) + Usage(ths[1..])
  }

  lemma {:induction false} FinishedTakenIsUsage(ths: seq<Thread>)
    requires JobsOk(ths)
    requires forall i :: 0 <= i < |ths| ==> Finished(ths[i].pc) && !ths[i].pc.Panicked?
    ensures Taken(ths) == Usage(ths)
  {
    if ths != [] {
      FinishedTakenIsUsage(ths[1..]);
    }
  }

  function Initial(blockLimit: nat, jobs: seq<Job>): State {
    State(blockLimit, seq(|jobs|, i requires 0 <= i < |jobs| => Thread(jobs[i], Load)))
  }

  lemma {:induction false} NothingTakenYet(ths: seq<Thread>)
    requires JobsOk(ths)
    requires forall i :: 0 <= i < |ths| ==> ths[i].pc.Load?
    ensures Taken(ths) == 0
  {
    if ths != [] {
      NothingTakenYet(ths[1..]);
    }
  }

  predicate JobsFit(jobs: seq<Job>) {
    forall i :: 0 <= i < |jobs| ==> jobs[i].back <= jobs[i].limit < TWO_TO_THE_64
  }

  /**
   For every interleaving of any number of jobs: no thread ever panics, and when all threads
   are finished the pool holds the block limit minus exactly what the accepted jobs burned.
   */
  lemma EveryInterleavingConserves(blockLimit: nat, jobs: seq<Job>, schedule: seq<nat>)
    requires blockLimit < TWO_TO_THE_64 && JobsFit(jobs) && Valid(schedule, |jobs|)
    ensures var s := Run(Initial(blockLimit, jobs), schedule);
            && (forall i :: 0 <= i < |jobs| ==> !s.threads[i].pc.Panicked?)
            && s.pool <= blockLimit
            && ((forall i :: 0 <= i < |jobs| ==> Finished(s.threads[i].pc))
                ==> s.pool == blockLimit - Usage(s.threads))
  {
    var s0 := Initial(blockLimit, jobs);
    NothingTakenYet(s0.threads);
    RunConserves(blockLimit, s0, schedule);
    var s := Run(s0, schedule);
    if forall i :: 0 <= i < |jobs| ==> Finished(s.threads[i].pc) {
      FinishedTakenIsUsage(s.threads);
    }
  }

  // ---- When is a job turned away? --------------------------------------------------------

  /** An upper bound on what the threads can still hold at once. */
  lemma {:induction false} TakenBelowDemand(ths: seq<Thread>, jobs: seq<Job>, t: nat)
    requires JobsOk(ths) && |ths| == |jobs| && t < |ths|
    requires forall i :: 0 <= i < |ths| ==> ths[i].job == jobs[i]
    requires Outstanding(ths[t]) + Burned(ths[t]) == 0
    ensures Taken(ths) + jobs[t].limit <= Demand(jobs)
  {
    if t == 0 {
      TakenAtMostDemand(ths[1..], jobs[1..]);
    } else {
      TakenBelowDemand(ths[1..], jobs[1..], t - 1);
    }
  }

  lemma {:induction false} TakenAtMostDemand(ths: seq<Thread>, jobs: seq<Job>)
    requires JobsOk(ths) && |ths| == |jobs|
    requires forall i :: 0 <= i < |ths| ==> ths[i].job == jobs[i]
    ensures Taken(ths) <= Demand(jobs)
  {
    if ths != [] {
      TakenAtMostDemand(ths[1..], jobs[1..]);
    }
  }

  ghost predicate NoneRejected(s: State) {
    forall i :: 0 <= i < |s.threads| ==> !s.threads[i].pc.Rejected?
  }

  lemma {:induction false} NoRejectionFrom(blockLimit: nat, jobs: seq<Job>, s: State, schedule: seq<nat>)
    requires Inv(blockLimit, s) && Valid(schedule, |s.threads|) && NoneRejected(s)
    requires |s.threads| == |jobs| && forall i :: 0 <= i < |jobs| ==> s.threads[i].job == jobs[i]
    requires Demand(jobs) <= blockLimit
    ensures NoneRejected(Run(s, schedule))
    decreases |schedule|
  {
    if schedule != [] {
      var t := schedule[0];
      StepConserves(blockLimit, s, t);
      if s.threads[t].pc.Load? {
        TakenBelowDemand(s.threads, jobs, t);
      }
      NoRejectionFrom(blockLimit, jobs, Next(s, t), schedule[1..]);
    }
  }

  /** If the limits of all jobs together fit the block, no interleaving turns a job away. */
  lemma FittingJobsAllAccepted(blockLimit: nat, jobs: seq<Job>, schedule: seq<nat>)
    requires blockLimit < TWO_TO_THE_64 && JobsFit(jobs) && Valid(schedule, |jobs|)
    requires Demand(jobs) <= blockLimit
    ensures NoneRejected(Run(Initial(blockLimit, jobs), schedule))
  {
    var s0 := Initial(blockLimit, jobs);
    NothingTakenYet(s0.threads);
    NoRejectionFrom(blockLimit, jobs, s0, schedule);
  }

  lemma RunOne(s: State, t: nat, rest: seq<nat>)
    requires WellFormed(s) && t < |s.threads| && Valid(rest, |s.threads|)
    ensures Run(s, [t] + rest) == Run(Next(s, t), rest)
  {
    assert ([t] + rest)[1..] == rest;
  }

  /** Threads that take their gas one after the other empty the pool before the last is served. */
  lemma {:induction false} OneIsRejected(jobs: seq<Job>, s: State, k: nat) returns (schedule: seq<nat>)
    requires WellFormed(s) && JobsFit(jobs) && |s.threads| == |jobs| && k <= |jobs|
    requires forall i | k <= i < |jobs| :: s.threads[i] == Thread(jobs[i], Load)
    requires s.pool < Demand(jobs[k..])
    ensures Valid(schedule, |jobs|) && !NoneRejected(Run(s, schedule))
    decreases |jobs| - k
  {
    assert k < |jobs| && jobs[k..][0] == jobs[k] && jobs[k..][1..] == jobs[k + 1..];
    if s.pool < jobs[k].limit {
      schedule := [k];
      assert Run(s, schedule).threads[k].pc.Rejected?;
    } else {
      var loaded := Next(s, k);
      var swapped := Next(loaded, k);
      assert swapped.pool == s.pool - jobs[k].limit;
      var rest := OneIsRejected(jobs, swapped, k + 1);
      RunOne(loaded, k, rest);
      RunOne(s, k, [k] + rest);
      schedule := [k] + ([k] + rest);
    }
  }

  /** No interleaving turns a job away exactly when the limits of all jobs together fit the block. */
  lemma AllAcceptedIff(blockLimit: nat, jobs: seq<Job>)
    requires blockLimit < TWO_TO_THE_64 && JobsFit(jobs)
    ensures (forall schedule | Valid(schedule, |jobs|) :: NoneRejected(Run(Initial(blockLimit, jobs), schedule)))
            <==> Demand(jobs) <= blockLimit
  {
    if Demand(jobs) <= blockLimit {
      forall schedule | Valid(schedule, |jobs|) ensures NoneRejected(Run(Initial(blockLimit, jobs), schedule)) {
        FittingJobsAllAccepted(blockLimit, jobs, schedule);
      }
    } else {
      assert jobs[0..] == jobs;
      var schedule := OneIsRejected(jobs, Initial(blockLimit, jobs), 0);
    }
  }

  // ---- The retry loop cannot livelock the whole system -----------------------------------

  /** Steps a thread needs when nobody interferes, a stale swap costing one extra round. */
  function Remaining(s: State, t: nat): nat
    requires t < |s.threads|
  {
    match s.threads[t].pc
    case Load => 4
    case Cas(seen) => if seen == s.pool then 3 else 5
    case Check => 2
    case Add => 1
    case _ => 0
  }

  /** A thread running alone finishes; with RunConcat, any state can be driven to completion. */
  lemma {:induction false} SoloFinishes(s: State, t: nat) returns (schedule: seq<nat>)
    requires WellFormed(s) && t < |s.threads|
    ensures Valid(schedule, |s.threads|)
    ensures Finished(Run(s, schedule).threads[t].pc)
    ensures forall i :: 0 <= i < |s.threads| && i != t ==> Run(s, schedule).threads[i] == s.threads[i]
    decreases Remaining(s, t)
  {
    if Finished(s.threads[t].pc) {
      schedule := [];
    } else {
      var rest := SoloFinishes(Next(s, t), t);
      schedule := [t] + rest;
      assert schedule[1..] == rest;
    }
  }

  lemma {:induction false} CanFinishFrom(s: State, k: nat) returns (schedule: seq<nat>)
    requires WellFormed(s) && k <= |s.threads|
    requires forall i :: 0 <= i < k ==> Finished(s.threads[i].pc)
    ensures Valid(schedule, |s.threads|)
    ensures forall i :: 0 <= i < |s.threads| ==> Finished(Run(s, schedule).threads[i].pc)
    decreases |s.threads| - k
  {
    if k == |s.threads| {
      schedule := [];
    } else {
      var solo := SoloFinishes(s, k);
      var rest := CanFinishFrom(Run(s, solo), k + 1);
      RunConcat(s, solo, rest);
      schedule := solo + rest;
    }
  }
}
