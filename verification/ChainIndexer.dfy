/**
 The chain indexer: sections of the canonical chain are processed without holding the lock,
 while head and re-organisation notifications keep arriving.

 Processing that fails in the backend clears the index without the lock, so the section
 counter, its persisted copy and the section heads are then shared by two threads. Every step
 below is one access to them, one critical section that shares nothing with the clearing, or
 one read of the canonical chain. A read may return any header with the requested number,
 since the chain can change between any two reads.
 */
module ChainIndexer {
  import opened BlockTree
  import opened Prelude

  const NO_HASH: Hash := 0

  datatype Config = Config(sectionSize: nat, confirms: nat, genesis: Hash)

  /** The counter in memory, and the count and the section heads in the database. */
  datatype Index = Index(stored: nat, count: nat, heads: map<nat, Hash>)

  /** What setValidSections is about to do next. */
  datatype Access =
    | Put                   // write the count
    | Test                  // compare the counter with the target
    | Load                  // load the counter to decrement it
    | Write(value: nat)     // write the loaded value less one
    | Pick                  // load the counter to name the head to delete
    | Delete(section: nat)  // delete that head
    | Store                 // set the counter to the target
    | Done

  function Touch(m: Index, target: nat, a: Access): Index {
    match a
    case Put => m.(count := target)
    case Write(value) => m.(stored := Wrap(value - 1))
    case Delete(section) => m.(heads := m.heads - {section})
    case Store => m.(stored := target)
    case _ => m
  }

  function After(m: Index, target: nat, a: Access): Access {
    match a
    case Put => Test
    case Test => if m.stored > target then Load else Store
    case Load => Write(m.stored)
    case Write(_) => Pick
    case Pick => Delete(m.stored)
    case Delete(_) => Test
    case _ => Done
  }

  /** The worker of updateLoop; it holds the lock only within Begin, Commit and GiveUp. */
  datatype Worker =
    | Idle
    | Starting(section: nat, oldHead: Hash)
    | Reading(section: nat, oldHead: Hash, number: nat, lastHead: Hash)
    | Processed(section: nat, oldHead: Hash, newHead: Hash)
    | Clearing(next: Access)
    | Failed

  /** A re-organisation notification; it holds the lock unless it is free. */
  datatype Notifier = Free | Cutting(target: nat, next: Access) | Leaving(target: nat)

  datatype State = State(index: Index, known: nat, cascaded: nat, worker: Worker, notifier: Notifier)

  datatype Event =
    | Head(head: nat)             // a new head: needs the lock, touches only what it protects
    | Reorg(head: nat)            // takes the lock and compares the counter with the section reverted to
    | Notify                      // the next access of its setValidSections
    | Unlock
    | Begin
    | Reset(ok: bool)
    | Clear                       // the next access of the unlocked setValidSections
    | Read(hash: Hash, ok: bool)  // NO_HASH if nothing was found; ok if the backend took it
    | Seal(ok: bool)
    | Commit
    | GiveUp

  function SectionHead(heads: map<nat, Hash>, section: nat): Hash {
    if section in heads then heads[section] else NO_HASH
  }

  predicate Enabled(c: Config, hs: map<Hash, Header>, s: State, e: Event) {
    && c.sectionSize > 0
    && match e
       case Head(head) => s.notifier.Free? && head + 1 < TWO_TO_THE_64
       case Reorg(head) => s.notifier.Free? && head < TWO_TO_THE_64
       case Notify => s.notifier.Cutting?
       case Unlock => s.notifier.Leaving?
       case Begin => s.notifier.Free? && s.worker.Idle? && s.known > s.index.stored
       case Reset(_) => s.worker.Starting?
       case Clear => s.worker.Clearing?
       case Read(hash, _) =>
         && s.worker.Reading? && s.worker.number < (s.worker.section + 1) * c.sectionSize
         && (hash != NO_HASH ==> hash in hs && hs[hash].number == s.worker.number)
       case Seal(_) => s.worker.Reading? && s.worker.number == (s.worker.section + 1) * c.sectionSize
       case Commit => s.notifier.Free? && s.worker.Processed?
       case GiveUp => s.notifier.Free? && s.worker.Failed?
  }

  function Next(c: Config, hs: map<Hash, Header>, s: State, e: Event): State
    requires Enabled(c, hs, s, e)
  {
    match e
    case Head(head) =>
      var sections := if head >= c.confirms then (head + 1 - c.confirms) / c.sectionSize else 0;
      if sections > s.known then s.(known := sections) else s
    case Reorg(head) =>
      var target := head / c.sectionSize;
      s.(known := if target < s.known then target else s.known,
         notifier := if target < s.index.stored then Cutting(target, Put) else Leaving(target))
    case Notify =>
      var n := s.notifier;
      s.(index := Touch(s.index, n.target, n.next),
         notifier := var a := After(s.index, n.target, n.next); if a.Done? then Leaving(n.target) else Cutting(n.target, a))
    case Unlock =>
      var head := s.notifier.target * c.sectionSize;
      s.(cascaded := if head < s.cascaded then head else s.cascaded, notifier := Free)
    case Begin =>
      var section := s.index.stored;
      s.(worker := Starting(section, if section > 0 then SectionHead(s.index.heads, section - 1) else NO_HASH))
    case Reset(ok) =>
      var w := s.worker;
      s.(worker := if ok then Reading(w.section, w.oldHead, w.section * c.sectionSize, w.oldHead) else Clearing(Put))
    case Clear =>
      s.(index := Touch(s.index, 0, s.worker.next),
         worker := var a := After(s.index, 0, s.worker.next); if a.Done? then Failed else Clearing(a))
    case Read(hash, ok) =>
      if hash != NO_HASH && hs[hash].parent == s.worker.lastHead && ok
      then s.(worker := s.worker.(number := s.worker.number + 1, lastHead := hash))
      else s.(worker := Failed)
    case Seal(ok) =>
      s.(worker := if ok then Processed(s.worker.section, s.worker.oldHead, s.worker.lastHead) else Failed)
    case Commit =>
      var w := s.worker;
      if w.oldHead == SectionHead(s.index.heads, Wrap(w.section - 1)) then
        var m := s.index.(heads := s.index.heads[w.section := w.newHead]);
        Committed(c, s, SetValidSections(m, Wrap(w.section + 1)))
      else s.(known := s.index.stored, worker := Idle)
    case GiveUp => s.(known := s.index.stored, worker := Idle)
  }

  function Committed(c: Config, s: State, m: Index): State {
    s.(index := m, cascaded := Wrap(m.stored * c.sectionSize - 1), worker := Idle)
  }

  /** The whole of setValidSections, when nobody else touches the index. */
  function SetValidSections(m: Index, sections: nat): Index {
    Index(sections, sections, map k | k in m.heads && !(sections <= k < m.stored) :: m.heads[k])
  }

  /** Every event of the run could happen when it did. */
  predicate Possible(c: Config, hs: map<Hash, Header>, s: State, run: seq<Event>)
    decreases |run|
  {
    run == [] || (Enabled(c, hs, s, run[0]) && Possible(c, hs, Next(c, hs, s, run[0]), run[1..]))
  }

  function Run(c: Config, hs: map<Hash, Header>, s: State, run: seq<Event>): State
    requires Possible(c, hs, s, run)
    decreases |run|
  {
    if run == [] then s else Run(c, hs, Next(c, hs, s, run[0]), run[1..])
  }

  const EMPTY: State := State(Index(0, 0, map[]), 0, 0, Idle, Free)

  // ---- What the index should be -------------------------------------------------------------

  /** All headers that can exist; the genesis is the only one whose parent is no hash. */
  ghost predicate Chain(c: Config, hs: map<Hash, Header>) {
    && c.sectionSize > 0
    && Tree(hs, c.genesis)
    && NO_HASH !in hs
    && hs[c.genesis].parent == NO_HASH
  }

  /** `h` is the last block of `section`, and the one before it ended in `before`. */
  ghost predicate Ends(c: Config, hs: map<Hash, Header>, section: nat, h: Hash, before: Hash)
    requires Chain(c, hs)
  {
    && h in hs && hs[h].number == (section + 1) * c.sectionSize - 1
    && (section == 0 ==> before == NO_HASH)
    && (section > 0 ==> hs[h].number >= c.sectionSize && Up(hs, c.genesis, h, c.sectionSize) == before)
  }

  ghost predicate LinkAt(c: Config, hs: map<Hash, Header>, heads: map<nat, Hash>, k: nat)
    requires Chain(c, hs)
  {
    k in heads && Ends(c, hs, k, heads[k], if k > 0 then SectionHead(heads, k - 1) else NO_HASH)
  }

  /** The stored heads form one parent chain, exactly one section apart. */
  ghost predicate HeadsLinked(c: Config, hs: map<Hash, Header>, m: Index)
    requires Chain(c, hs)
  {
    forall k: nat {:trigger LinkAt(c, hs, m.heads, k)} | k < m.stored :: LinkAt(c, hs, m.heads, k)
  }

  ghost predicate Exactly(heads: map<nat, Hash>, n: nat) {
    forall k :: k in heads <==> 0 <= k < n
  }

  /** The database holds the heads of exactly the stored sections, and their number. */
  ghost predicate Consistent(m: Index) {
    m.count == m.stored && Exactly(m.heads, m.stored)
  }

  /** Somebody is changing the index. */
  predicate Busy(s: State) {
    s.worker.Clearing? || s.notifier.Cutting?
  }

  /**
   Whoever holds the lock finds the heads of all stored sections, linked; and when nobody is
   changing the index, database and memory agree.
   */
  ghost predicate Agrees(c: Config, hs: map<Hash, Header>, s: State)
    requires Chain(c, hs)
  {
    (s.notifier.Free? ==> HeadsLinked(c, hs, s.index)) && (!Busy(s) ==> Consistent(s.index))
  }

  // ---- The invariant of runs without overlap --------------------------------------------------

  /** A notification is shortening the index while it is being cleared without the lock. */
  predicate Overlap(s: State) {
    s.worker.Clearing? && s.notifier.Cutting?
  }

  /** At no moment of the run does a shortening notification overlap a clearing. */
  predicate Separate(c: Config, hs: map<Hash, Header>, s: State, run: seq<Event>)
    requires Possible(c, hs, s, run)
    decreases |run|
  {
    !Overlap(s) && (run == [] || Separate(c, hs, Next(c, hs, s, run[0]), run[1..]))
  }

  predicate Midway(a: Access) {
    a.Pick? || a.Delete?
  }

  /** The index while setValidSections, alone, is about to do `a`. */
  ghost predicate Underway(m: Index, target: nat, a: Access) {
    && !a.Done? && target <= m.stored
    && m.count == (if a.Put? then m.stored else target)
    && Exactly(m.heads, if Midway(a) then m.stored + 1 else m.stored)
    && (a.Load? ==> m.stored > target)
    && (a.Write? ==> a.value == m.stored > target)
    && (a.Delete? ==> a.section == m.stored)
    && (a.Store? ==> m.stored == target)
  }

  ghost predicate IndexOk(s: State) {
    if s.worker.Clearing? then !s.notifier.Cutting? && Underway(s.index, 0, s.worker.next)
    else if s.notifier.Cutting? then Underway(s.index, s.notifier.target, s.notifier.next)
    else Consistent(s.index)
  }

  /** What the worker remembers while it holds no lock. */
  ghost predicate Remembers(c: Config, hs: map<Hash, Header>, m: Index, section: nat, oldHead: Hash)
    requires Chain(c, hs)
  {
    && m.stored <= section && section + 1 < TWO_TO_THE_64
    && (section == 0 ==> oldHead == NO_HASH)
    && (section > 0 ==> oldHead in hs && hs[oldHead].number == section * c.sectionSize - 1)
    && (m.stored == section > 0 ==> oldHead == SectionHead(m.heads, section - 1))
  }

  /** The worker has read an unbroken parent chain from `oldHead` up to block `number - 1`. */
  ghost predicate Followed(c: Config, hs: map<Hash, Header>, section: nat, oldHead: Hash, number: nat, lastHead: Hash)
    requires Chain(c, hs)
  {
    var first := section * c.sectionSize;
    && first <= number <= (section + 1) * c.sectionSize
    && (number == first ==> lastHead == oldHead)
    && (number > first ==>
          && lastHead in hs && hs[lastHead].number == number - 1
          && (section > 0 ==> Up(hs, c.genesis, lastHead, number - first) == oldHead))
  }

  ghost predicate WorkerOk(c: Config, hs: map<Hash, Header>, m: Index, w: Worker)
    requires Chain(c, hs)
  {
    match w
    case Starting(section, oldHead) => Remembers(c, hs, m, section, oldHead)
    case Reading(section, oldHead, number, lastHead) =>
      Remembers(c, hs, m, section, oldHead) && Followed(c, hs, section, oldHead, number, lastHead)
    case Processed(section, oldHead, newHead) =>
      Remembers(c, hs, m, section, oldHead) && Ends(c, hs, section, newHead, oldHead)
    case _ => true
  }

  ghost predicate Inv(c: Config, hs: map<Hash, Header>, s: State) {
    && Chain(c, hs)
    && s.index.stored < TWO_TO_THE_64 && s.known < TWO_TO_THE_64
    && HeadsLinked(c, hs, s.index)
    && IndexOk(s)
    && WorkerOk(c, hs, s.index, s.worker)
  }

  /** Alone, setValidSections goes through the accesses it should. */
  lemma TouchUnderway(m: Index, target: nat, a: Access)
    requires Underway(m, target, a) && m.stored < TWO_TO_THE_64
    ensures var m', a' := Touch(m, target, a), After(m, target, a);
            if a'.Done? then Consistent(m') && m'.stored == target else Underway(m', target, a')
    ensures Touch(m, target, a).stored <= m.stored
  {
  }

  lemma TouchKeepsLinks(c: Config, hs: map<Hash, Header>, m: Index, target: nat, a: Access)
    requires Chain(c, hs) && HeadsLinked(c, hs, m) && Underway(m, target, a) && m.stored < TWO_TO_THE_64
    ensures HeadsLinked(c, hs, Touch(m, target, a))
  {
    var m' := Touch(m, target, a);
    TouchUnderway(m, target, a);
    forall k: nat | k < m'.stored ensures LinkAt(c, hs, m'.heads, k) {
      assert LinkAt(c, hs, m.heads, k);
      assert k > 0 ==> LinkAt(c, hs, m.heads, k - 1);
    }
  }

  lemma NotifyKeepsInv(c: Config, hs: map<Hash, Header>, s: State)
    requires Inv(c, hs, s) && s.notifier.Cutting?
    ensures Inv(c, hs, Next(c, hs, s, Notify))
  {
    TouchUnderway(s.index, s.notifier.target, s.notifier.next);
    TouchKeepsLinks(c, hs, s.index, s.notifier.target, s.notifier.next);
    var s' := Next(c, hs, s, Notify);
    assert WorkerOk(c, hs, s'.index, s'.worker);
  }

  lemma ClearKeepsInv(c: Config, hs: map<Hash, Header>, s: State)
    requires Inv(c, hs, s) && s.worker.Clearing?
    ensures Inv(c, hs, Next(c, hs, s, Clear))
  {
    TouchUnderway(s.index, 0, s.worker.next);
    TouchKeepsLinks(c, hs, s.index, 0, s.worker.next);
  }

  lemma ReadFollows(c: Config, hs: map<Hash, Header>, section: nat, oldHead: Hash, number: nat, lastHead: Hash, hash: Hash)
    requires Chain(c, hs) && Followed(c, hs, section, oldHead, number, lastHead)
    requires number < (section + 1) * c.sectionSize
    requires hash in hs && hs[hash].number == number && hs[hash].parent == lastHead
    ensures Followed(c, hs, section, oldHead, number + 1, hash)
  {
    if section > 0 {
      assert Linked(hs, c.genesis, hash);
      var first := section * c.sectionSize;
      assert Up(hs, c.genesis, hash, number + 1 - first) == Up(hs, c.genesis, lastHead, number - first);
    }
  }

  /** The commit test tells whether the finished section continues what is stored. */
  lemma CommitTest(c: Config, hs: map<Hash, Header>, m: Index, section: nat, oldHead: Hash)
    requires Chain(c, hs) && Consistent(m) && m.stored < TWO_TO_THE_64 && Remembers(c, hs, m, section, oldHead)
    ensures oldHead == SectionHead(m.heads, Wrap(section - 1)) <==> m.stored == section
  {
    if section == 0 {
      assert Wrap(section - 1) == TWO_TO_THE_64 - 1;
    } else {
      assert Wrap(section - 1) == section - 1;
    }
  }

  lemma AppendLinks(c: Config, hs: map<Hash, Header>, m: Index, newHead: Hash)
    requires Chain(c, hs) && HeadsLinked(c, hs, m) && Consistent(m)
    requires Ends(c, hs, m.stored, newHead, if m.stored > 0 then SectionHead(m.heads, m.stored - 1) else NO_HASH)
    ensures var m' := SetValidSections(m.(heads := m.heads[m.stored := newHead]), m.stored + 1);
            HeadsLinked(c, hs, m') && Consistent(m')
  {
    var m' := SetValidSections(m.(heads := m.heads[m.stored := newHead]), m.stored + 1);
    forall k: nat | k < m'.stored ensures LinkAt(c, hs, m'.heads, k) {
      assert k < m.stored ==> LinkAt(c, hs, m.heads, k);
      assert 0 < k <= m.stored ==> LinkAt(c, hs, m.heads, k - 1);
    }
  }

  lemma CommittedInv(c: Config, hs: map<Hash, Header>, s: State, m: Index)
    requires Inv(c, hs, s) && s.notifier.Free? && s.worker.Processed?
    requires HeadsLinked(c, hs, m) && Consistent(m) && m.stored < TWO_TO_THE_64
    ensures Inv(c, hs, Committed(c, s, m))
  {
  }

  /** A finished section is committed exactly if it continues what is stored. */
  lemma CommitKeepsInv(c: Config, hs: map<Hash, Header>, s: State)
    requires Inv(c, hs, s) && Enabled(c, hs, s, Commit)
    ensures var s' := Next(c, hs, s, Commit);
            && Inv(c, hs, s')
            && s'.index.stored == if s.index.stored == s.worker.section then s.worker.section + 1 else s.index.stored
  {
    var w, m := s.worker, s.index;
    CommitTest(c, hs, m, w.section, w.oldHead);
    if m.stored == w.section {
      AppendLinks(c, hs, m, w.newHead);
      assert Wrap(w.section + 1) == m.stored + 1;
      CommittedInv(c, hs, s, SetValidSections(m.(heads := m.heads[m.stored := w.newHead]), m.stored + 1));
    }
  }

  lemma QuotientBound(a: nat, b: nat)
    requires b > 0
    ensures a / b <= a
  {
    var q := a / b;
    assert a == b * q + a % b;
    assert b * q == q + (b - 1) * q;
    Positive(b - 1, q);
  }

  lemma Positive(a: nat, b: nat)
    ensures a * b >= 0
  {
  }

  lemma HeadKeepsInv(c: Config, hs: map<Hash, Header>, s: State, head: nat)
    requires Inv(c, hs, s) && Enabled(c, hs, s, Head(head))
    ensures Inv(c, hs, Next(c, hs, s, Head(head)))
  {
    if head >= c.confirms {
      QuotientBound(head + 1 - c.confirms, c.sectionSize);
    }
  }

  lemma ReorgKeepsInv(c: Config, hs: map<Hash, Header>, s: State, head: nat)
    requires Inv(c, hs, s) && Enabled(c, hs, s, Reorg(head)) && !Overlap(Next(c, hs, s, Reorg(head)))
    ensures Inv(c, hs, Next(c, hs, s, Reorg(head)))
  {
    QuotientBound(head, c.sectionSize);
  }

  lemma WorkKeepsInv(c: Config, hs: map<Hash, Header>, s: State, e: Event)
    requires Inv(c, hs, s) && Enabled(c, hs, s, e) && !Overlap(Next(c, hs, s, e))
    requires e.Begin? || e.Reset? || e.Read? || e.Seal? || e.GiveUp?
    ensures Inv(c, hs, Next(c, hs, s, e))
  {
    if e.Begin? && s.index.stored > 0 {
      assert LinkAt(c, hs, s.index.heads, s.index.stored - 1);
    }
    if e.Read? && e.hash != NO_HASH && hs[e.hash].parent == s.worker.lastHead {
      ReadFollows(c, hs, s.worker.section, s.worker.oldHead, s.worker.number, s.worker.lastHead, e.hash);
    }
  }

  lemma UnlockKeepsInv(c: Config, hs: map<Hash, Header>, s: State)
    requires Inv(c, hs, s) && Enabled(c, hs, s, Unlock)
    ensures Inv(c, hs, Next(c, hs, s, Unlock))
  {
  }

  lemma StepKeepsInv(c: Config, hs: map<Hash, Header>, s: State, e: Event)
    requires Inv(c, hs, s) && Enabled(c, hs, s, e) && !Overlap(Next(c, hs, s, e))
    ensures Inv(c, hs, Next(c, hs, s, e))
  {
    match e
    case Head(head) => HeadKeepsInv(c, hs, s, head);
    case Reorg(head) => ReorgKeepsInv(c, hs, s, head);
    case Notify => NotifyKeepsInv(c, hs, s);
    case Unlock => UnlockKeepsInv(c, hs, s);
    case Clear => ClearKeepsInv(c, hs, s);
    case Commit => CommitKeepsInv(c, hs, s);
    case _ => WorkKeepsInv(c, hs, s, e);
  }

  lemma {:induction false} RunKeepsInv(c: Config, hs: map<Hash, Header>, s: State, run: seq<Event>)
    requires Inv(c, hs, s) && Possible(c, hs, s, run) && Separate(c, hs, s, run)
    ensures Inv(c, hs, Run(c, hs, s, run))
    decreases |run|
  {
    if run != [] {
      StepKeepsInv(c, hs, s, run[0]);
      RunKeepsInv(c, hs, Next(c, hs, s, run[0]), run[1..]);
    }
  }

  // ---- Main results -------------------------------------------------------------------------

  /**
   In every run in which no shortening notification overlaps a clearing, the stored heads are
   at every moment one parent chain, a section apart; and whenever nobody is changing the
   index, the database holds exactly the heads of the stored sections and their number.
   */
  lemma SeparateRunsAgree(c: Config, hs: map<Hash, Header>, run: seq<Event>)
    requires Chain(c, hs) && Possible(c, hs, EMPTY, run) && Separate(c, hs, EMPTY, run)
    ensures var s := Run(c, hs, EMPTY, run);
            HeadsLinked(c, hs, s.index) && Agrees(c, hs, s)
  {
    assert Inv(c, hs, EMPTY);
    RunKeepsInv(c, hs, EMPTY, run);
  }

  /** Events of one notification and one clearing only. */
  predicate JustThese(run: seq<Event>) {
    forall i | 0 <= i < |run| :: run[i].Notify? || run[i].Unlock? || run[i].Clear?
  }

  /** However the notification and the clearing interleave, the index is never found wrong. */
  ghost predicate Harmless(c: Config, hs: map<Hash, Header>, s: State, head: nat)
    requires Chain(c, hs) && Enabled(c, hs, s, Reorg(head))
  {
    var s' := Next(c, hs, s, Reorg(head));
    forall run {:trigger Run(c, hs, s', run)} | JustThese(run) && Possible(c, hs, s', run) :: Agrees(c, hs, Run(c, hs, s', run))
  }

  /**
   A notification that arrives while the index is being cleared, at whatever point, is harmless
   exactly when it does not shorten the index.
   */
  lemma HarmlessIff(c: Config, hs: map<Hash, Header>, s: State, head: nat)
    requires Inv(c, hs, s) && s.worker.Clearing? && Enabled(c, hs, s, Reorg(head))
    ensures Harmless(c, hs, s, head) <==> head / c.sectionSize >= s.index.stored
  {
    var s' := Next(c, hs, s, Reorg(head));
    if head / c.sectionSize >= s.index.stored {
      ReorgKeepsInv(c, hs, s, head);
      forall run | JustThese(run) && Possible(c, hs, s', run) ensures Agrees(c, hs, Run(c, hs, s', run)) {
        StaySeparate(c, hs, s', run);
        RunKeepsInv(c, hs, s', run);
      }
    } else {
      var run := Collide(c, hs, s');
      assert !Agrees(c, hs, Run(c, hs, s', run));
    }
  }

  lemma {:induction false} StaySeparate(c: Config, hs: map<Hash, Header>, s: State, run: seq<Event>)
    requires JustThese(run) && Possible(c, hs, s, run) && !s.notifier.Cutting?
    ensures Separate(c, hs, s, run)
    decreases |run|
  {
    if run != [] {
      StaySeparate(c, hs, Next(c, hs, s, run[0]), run[1..]);
    }
  }

  // ---- Two threads in the index -------------------------------------------------------------

  lemma Prepend(c: Config, hs: map<Hash, Header>, s: State, e: Event, run: seq<Event>) returns (run': seq<Event>)
    requires Enabled(c, hs, s, e) && Possible(c, hs, Next(c, hs, s, e), run)
    ensures run' == [e] + run && Possible(c, hs, s, run')
    ensures Run(c, hs, s, run') == Run(c, hs, Next(c, hs, s, e), run)
  {
    run' := [e] + run;
    assert run'[1..] == run;
  }

  /** No head belongs to a section from `n` on. */
  ghost predicate Within(heads: map<nat, Hash>, n: nat) {
    forall k | k in heads :: k < n
  }

  /** The notification shortens the index undisturbed and lets go of the lock. */
  lemma {:induction false} FinishCut(c: Config, hs: map<Hash, Header>, s: State) returns (run: seq<Event>)
    requires c.sectionSize > 0 && s.notifier.Cutting? && s.notifier.next == Test
    requires s.notifier.target <= s.index.stored < TWO_TO_THE_64 && Within(s.index.heads, s.index.stored)
    ensures JustThese(run) && Possible(c, hs, s, run)
    ensures var t := Run(c, hs, s, run);
            && t.notifier.Free? && t.worker == s.worker
            && t.index.stored == s.notifier.target && t.index.count == s.index.count
            && Within(t.index.heads, t.index.stored)
    decreases s.index.stored
  {
    if s.index.stored == s.notifier.target {
      var s1 := Next(c, hs, s, Notify);
      var s2 := Next(c, hs, s1, Notify);
      run := Prepend(c, hs, s2, Unlock, []);
      run := Prepend(c, hs, s1, Notify, run);
      run := Prepend(c, hs, s, Notify, run);
    } else {
      var once, t := CutOnce(c, hs, s);
      var rest := FinishCut(c, hs, t);
      Concat(c, hs, s, once, rest);
      run := once + rest;
    }
  }

  /** The notification removes one section undisturbed. */
  lemma CutOnce(c: Config, hs: map<Hash, Header>, s: State) returns (run: seq<Event>, t: State)
    requires c.sectionSize > 0 && s.notifier.Cutting? && s.notifier.next == Test
    requires s.notifier.target < s.index.stored < TWO_TO_THE_64 && Within(s.index.heads, s.index.stored)
    ensures JustThese(run) && Possible(c, hs, s, run) && t == Run(c, hs, s, run)
    ensures t.worker == s.worker && t.notifier == s.notifier
    ensures t.index.stored == s.index.stored - 1 && t.index.count == s.index.count && Within(t.index.heads, t.index.stored)
  {
    var s1 := Next(c, hs, s, Notify);
    var s2 := Next(c, hs, s1, Notify);
    var s3 := Next(c, hs, s2, Notify);
    assert s3.notifier == Cutting(s.notifier.target, Pick) && s3.index == s.index.(stored := s.index.stored - 1);
    var s4 := Next(c, hs, s3, Notify);
    t := Next(c, hs, s4, Notify);
    run := Prepend(c, hs, s4, Notify, []);
    run := Prepend(c, hs, s3, Notify, run);
    run := Prepend(c, hs, s2, Notify, run);
    run := Prepend(c, hs, s1, Notify, run);
    run := Prepend(c, hs, s, Notify, run);
  }

  /** The clearing goes through undisturbed. */
  lemma {:induction false} FinishClear(c: Config, hs: map<Hash, Header>, s: State) returns (run: seq<Event>)
    requires c.sectionSize > 0 && s.worker == Clearing(Test) && s.index.stored < TWO_TO_THE_64
    ensures JustThese(run) && Possible(c, hs, s, run)
    ensures var t := Run(c, hs, s, run);
            t.notifier == s.notifier && t.worker.Failed? && t.index.stored == 0 && t.index.count == s.index.count
    decreases s.index.stored
  {
    var s1 := Next(c, hs, s, Clear);
    if s.index.stored == 0 {
      run := Prepend(c, hs, s1, Clear, []);
      run := Prepend(c, hs, s, Clear, run);
    } else {
      run := FinishLoop(c, hs, s1);
      run := Prepend(c, hs, s, Clear, run);
    }
  }

  lemma {:induction false} FinishLoop(c: Config, hs: map<Hash, Header>, s: State) returns (run: seq<Event>)
    requires c.sectionSize > 0 && s.worker == Clearing(Load) && 0 < s.index.stored < TWO_TO_THE_64
    ensures JustThese(run) && Possible(c, hs, s, run)
    ensures var t := Run(c, hs, s, run);
            t.notifier == s.notifier && t.worker.Failed? && t.index.stored == 0 && t.index.count == s.index.count
    decreases s.index.stored, 0
  {
    var s1 := Next(c, hs, s, Clear);
    var s2 := Next(c, hs, s1, Clear);
    var s3 := Next(c, hs, s2, Clear);
    var s4 := Next(c, hs, s3, Clear);
    run := FinishClear(c, hs, s4);
    run := Prepend(c, hs, s3, Clear, run);
    run := Prepend(c, hs, s2, Clear, run);
    run := Prepend(c, hs, s1, Clear, run);
    run := Prepend(c, hs, s, Clear, run);
  }

  lemma {:induction false} Concat(c: Config, hs: map<Hash, Header>, s: State, a: seq<Event>, b: seq<Event>)
    requires Possible(c, hs, s, a) && Possible(c, hs, Run(c, hs, s, a), b)
    ensures Possible(c, hs, s, a + b) && Run(c, hs, s, a + b) == Run(c, hs, Run(c, hs, s, a), b)
    decreases |a|
  {
    if a == [] {
      assert a + b == b;
    } else {
      assert (a + b)[1..] == a[1..] + b;
      Concat(c, hs, Next(c, hs, s, a[0]), a[1..], b);
    }
  }

  /** How many accesses the clearing is away from its next load, if there is something left to clear. */
  function Distance(a: Access): nat {
    match a
    case Write(_) => 4
    case Pick => 3
    case Delete(_) => 2
    case Put => 2
    case Test => 1
    case _ => 0
  }

  /** The clearing goes on undisturbed until it is about to load the counter. */
  lemma {:induction false} ClearToLoad(c: Config, hs: map<Hash, Header>, s: State) returns (run: seq<Event>, t: State)
    requires c.sectionSize > 0 && s.worker.Clearing? && Underway(s.index, 0, s.worker.next)
    requires 0 < s.index.stored < TWO_TO_THE_64 && (s.worker.next.Write? ==> s.index.stored > 1)
    ensures JustThese(run) && Possible(c, hs, s, run) && t == Run(c, hs, s, run)
    ensures t.worker == Clearing(Load) && t.notifier == s.notifier && Within(t.index.heads, t.index.stored)
    ensures t.index.stored == if s.worker.next.Write? then s.index.stored - 1 else s.index.stored
    decreases Distance(s.worker.next)
  {
    if s.worker.next.Load? {
      run, t := [], s;
    } else {
      TouchUnderway(s.index, 0, s.worker.next);
      run, t := ClearToLoad(c, hs, Next(c, hs, s, Clear));
      run := Prepend(c, hs, s, Clear, run);
    }
  }

  /**
   The clearing sees that there is something to clear and is then overtaken by the whole
   notification. It goes on to decrement a counter that is zero, which wraps around, or else
   clears the rest while the count stays at what the notification wrote.
   */
  lemma Collide(c: Config, hs: map<Hash, Header>, s: State) returns (run: seq<Event>)
    requires Chain(c, hs) && s.worker.Clearing? && Underway(s.index, 0, s.worker.next)
    requires s.notifier.Cutting? && s.notifier.next == Put && s.notifier.target < s.index.stored < TWO_TO_THE_64
    ensures JustThese(run) && Possible(c, hs, s, run)
    ensures !Agrees(c, hs, Run(c, hs, s, run))
  {
    if s.worker.next.Write? && s.index.stored == 1 {
      run := CollideAtLast(c, hs, s);
    } else {
      var clear, t := ClearToLoad(c, hs, s);
      var t1 := Next(c, hs, t, Notify);
      var rest := Overtake(c, hs, t1);
      rest := Prepend(c, hs, t, Notify, rest);
      Concat(c, hs, s, clear, rest);
      run := clear + rest;
    }
  }

  /** The notification goes through while the clearing waits to load the counter. */
  lemma Overtake(c: Config, hs: map<Hash, Header>, s: State) returns (run: seq<Event>)
    requires Chain(c, hs) && s.worker == Clearing(Load) && s.notifier == Cutting(s.index.count, Test)
    requires s.index.count <= s.index.stored < TWO_TO_THE_64 && Within(s.index.heads, s.index.stored)
    ensures JustThese(run) && Possible(c, hs, s, run)
    ensures !Agrees(c, hs, Run(c, hs, s, run))
  {
    var cut := FinishCut(c, hs, s);
    var rest := ClearAfterCut(c, hs, Run(c, hs, s, cut));
    Concat(c, hs, s, cut, rest);
    run := cut + rest;
  }

  /**
   The clearing is about to write that no section is left. The notification tests the counter
   before and loads it after that write, so it is the one to wrap it around; the clearing then
   sees more to clear, and waits for the notification to count all the way down.
   */
  lemma CollideAtLast(c: Config, hs: map<Hash, Header>, s: State) returns (run: seq<Event>)
    requires Chain(c, hs) && s.worker == Clearing(Write(1)) && s.notifier == Cutting(0, Put)
    requires s.index.stored == 1 && Within(s.index.heads, 1)
    ensures JustThese(run) && Possible(c, hs, s, run)
    ensures !Agrees(c, hs, Run(c, hs, s, run))
  {
    var s1 := Next(c, hs, s, Notify);
    var s2 := Next(c, hs, s1, Notify);
    var s3 := Next(c, hs, s2, Clear);
    var s4 := Next(c, hs, s3, Notify);
    assert s4.worker == Clearing(Pick) && s4.notifier == Cutting(0, Write(0)) && s4.index == Index(0, 0, s.index.heads);
    var s5 := Next(c, hs, s4, Notify);
    run := AfterWrap(c, hs, s5);
    run := Prepend(c, hs, s4, Notify, run);
    run := Prepend(c, hs, s3, Notify, run);
    run := Prepend(c, hs, s2, Clear, run);
    run := Prepend(c, hs, s1, Notify, run);
    run := Prepend(c, hs, s, Notify, run);
  }

  lemma AfterWrap(c: Config, hs: map<Hash, Header>, s: State) returns (run: seq<Event>)
    requires Chain(c, hs) && s.worker == Clearing(Pick) && s.notifier == Cutting(0, Pick)
    requires s.index.stored == TWO_TO_THE_64 - 1 && s.index.count == 0 && Within(s.index.heads, 1)
    ensures JustThese(run) && Possible(c, hs, s, run)
    ensures !Agrees(c, hs, Run(c, hs, s, run))
  {
    var s1 := Next(c, hs, s, Clear);
    var s2 := Next(c, hs, s1, Clear);
    var s3 := Next(c, hs, s2, Clear);
    assert s3.worker == Clearing(Load) && s3.index.stored == s.index.stored;
    var s4 := Next(c, hs, s3, Notify);
    var s5 := Next(c, hs, s4, Notify);
    run := Overtake(c, hs, s5);
    run := Prepend(c, hs, s4, Notify, run);
    run := Prepend(c, hs, s3, Notify, run);
    run := Prepend(c, hs, s2, Clear, run);
    run := Prepend(c, hs, s1, Clear, run);
    run := Prepend(c, hs, s, Clear, run);
  }

  lemma ClearAfterCut(c: Config, hs: map<Hash, Header>, s: State) returns (run: seq<Event>)
    requires Chain(c, hs) && s.worker == Clearing(Load) && s.notifier.Free?
    requires s.index.stored == s.index.count < TWO_TO_THE_64 && Within(s.index.heads, s.index.stored)
    ensures JustThese(run) && Possible(c, hs, s, run)
    ensures !Agrees(c, hs, Run(c, hs, s, run))
  {
    if s.index.stored == 0 {
      var s1 := Next(c, hs, s, Clear);
      run := Prepend(c, hs, s1, Clear, []);
      run := Prepend(c, hs, s, Clear, run);
      assert Run(c, hs, s, run).index.stored == TWO_TO_THE_64 - 1;
      assert !LinkAt(c, hs, s.index.heads, 0);
    } else {
      run := FinishLoop(c, hs, s);
    }
  }

  // ---- Runs that leave the index wrong --------------------------------------------------------

  const ONE_BLOCK_SECTIONS: Config := Config(1, 0, 1)
  const THREE_BLOCKS: map<Hash, Header> := map[1 := Header(NO_HASH, 0, 1), 2 := Header(1, 1, 1), 3 := Header(2, 2, 1)]

  lemma ExampleChain()
    ensures Chain(ONE_BLOCK_SECTIONS, THREE_BLOCKS)
  {
    forall h | h in THREE_BLOCKS ensures Linked(THREE_BLOCKS, 1, h) {
    }
  }

  /** `run` leads from the empty index to `s`. */
  predicate Leads(run: seq<Event>, s: State) {
    Possible(ONE_BLOCK_SECTIONS, THREE_BLOCKS, EMPTY, run) && Run(ONE_BLOCK_SECTIONS, THREE_BLOCKS, EMPTY, run) == s
  }

  lemma Then(run: seq<Event>, s: State, e: Event) returns (run': seq<Event>, s': State)
    requires Leads(run, s) && Enabled(ONE_BLOCK_SECTIONS, THREE_BLOCKS, s, e)
    ensures s' == Next(ONE_BLOCK_SECTIONS, THREE_BLOCKS, s, e) && Leads(run', s')
  {
    var c, hs := ONE_BLOCK_SECTIONS, THREE_BLOCKS;
    run', s' := run + [e], Next(c, hs, s, e);
    var last := Prepend(c, hs, s, e, []);
    Concat(c, hs, EMPTY, run, [e]);
  }

  /** Indexes block number `s.index.stored`, one section, without interference. */
  lemma IndexOne(run: seq<Event>, s: State, hash: Hash) returns (run': seq<Event>, s': State)
    requires Leads(run, s) && s.worker.Idle? && s.notifier.Free? && s.known > s.index.stored
    requires s.index.stored + 1 < TWO_TO_THE_64 && Consistent(s.index)
    requires hash in THREE_BLOCKS && THREE_BLOCKS[hash].number == s.index.stored
    requires THREE_BLOCKS[hash].parent == if s.index.stored > 0 then SectionHead(s.index.heads, s.index.stored - 1) else NO_HASH
    ensures Leads(run', s') && s'.worker.Idle? && s'.notifier.Free? && s'.known == s.known
    ensures s'.index == Index(s.index.stored + 1, s.index.stored + 1, s.index.heads[s.index.stored := hash])
  {
    run', s' := ProcessOne(run, s, hash);
    assert s.index.stored == 0 ==> Wrap(s.index.stored - 1) == TWO_TO_THE_64 - 1;
    run', s' := Then(run', s', Commit);
    assert s'.index.heads == s.index.heads[s.index.stored := hash];
  }

  lemma ProcessOne(run: seq<Event>, s: State, hash: Hash) returns (run': seq<Event>, s': State)
    requires Leads(run, s) && s.worker.Idle? && s.notifier.Free? && s.known > s.index.stored
    requires hash in THREE_BLOCKS && THREE_BLOCKS[hash].number == s.index.stored
    requires THREE_BLOCKS[hash].parent == if s.index.stored > 0 then SectionHead(s.index.heads, s.index.stored - 1) else NO_HASH
    ensures Leads(run', s') && s' == s.(worker := Processed(s.index.stored, THREE_BLOCKS[hash].parent, hash))
  {
    run', s' := Then(run, s, Begin);
    run', s' := Then(run', s', Reset(true));
    run', s' := Then(run', s', Read(hash, true));
    run', s' := Then(run', s', Seal(true));
  }

  /** Two sections are indexed, a third is known, and the backend refuses to go on. */
  lemma ResetFails() returns (run: seq<Event>, s: State)
    ensures Leads(run, s) && s.known == 3 && s.worker == Clearing(Put) && s.notifier.Free?
    ensures s.index == Index(2, 2, map[0 := 1, 1 := 2])
  {
    run, s := Then([], EMPTY, Head(2));
    run, s := IndexOne(run, s, 1);
    run, s := IndexOne(run, s, 2);
    run, s := Then(run, s, Begin);
    run, s := Then(run, s, Reset(false));
  }

  /** Overtaken after it wrote the count, a clearing leaves a count of 1 for 0 sections. */
  lemma OvertakenClearing() returns (run: seq<Event>, s: State)
    ensures Chain(ONE_BLOCK_SECTIONS, THREE_BLOCKS) && Leads(run, s)
    ensures !Busy(s) && s.notifier.Free? && s.index == Index(0, 1, map[])
  {
    ExampleChain();
    run, s := ResetFails();
    run, s := Then(run, s, Clear);
    run, s := CutToOne(run, s);
    run, s := ClearOne(run, s);
    run, s := Then(run, s, Clear);
  }

  /** The whole notification of a re-organisation at block 1, with two sections indexed. */
  lemma CutToOne(run: seq<Event>, s: State) returns (run': seq<Event>, s': State)
    requires Leads(run, s) && s.notifier.Free? && s.index.stored == 2 && s.index.heads == map[0 := 1, 1 := 2]
    ensures Leads(run', s') && s'.notifier.Free? && s'.worker == s.worker && s'.index == Index(1, 1, map[0 := 1])
  {
    run', s' := StartCut(run, s);
    run', s' := Then(run', s', Notify);
    run', s' := Then(run', s', Unlock);
  }

  /** The same up to, but not including, the final write of the counter. */
  lemma StartCut(run: seq<Event>, s: State) returns (run': seq<Event>, s': State)
    requires Leads(run, s) && s.notifier.Free? && s.index.stored == 2 && s.index.heads == map[0 := 1, 1 := 2]
    ensures Leads(run', s') && s'.notifier == Cutting(1, Store) && s'.worker == s.worker && s'.index == Index(1, 1, map[0 := 1])
  {
    run', s' := Then(run, s, Reorg(1));
    run', s' := Then(run', s', Notify);
    run', s' := Then(run', s', Notify);
    assert s'.notifier == Cutting(1, Load) && s'.index == Index(2, 1, s.index.heads);
    run', s' := Then(run', s', Notify);
    run', s' := Then(run', s', Notify);
    assert s'.notifier == Cutting(1, Pick) && s'.index == Index(1, 1, s.index.heads);
    run', s' := Then(run', s', Notify);
    run', s' := Then(run', s', Notify);
    assert s'.index.heads == map[0 := 1];
    run', s' := Then(run', s', Notify);
  }

  /** The clearing finds one section and removes it. */
  lemma ClearOne(run: seq<Event>, s: State) returns (run': seq<Event>, s': State)
    requires Leads(run, s) && s.worker == Clearing(Test) && s.index.stored == 1 && s.index.heads == map[0 := 1]
    ensures Leads(run', s') && s'.worker == Clearing(Store) && s'.notifier == s.notifier
    ensures s'.index == Index(0, s.index.count, map[])
  {
    run', s' := Then(run, s, Clear);
    run', s' := Then(run', s', Clear);
    run', s' := Then(run', s', Clear);
    run', s' := Then(run', s', Clear);
    run', s' := Then(run', s', Clear);
    assert s'.index.heads == map[];
    run', s' := Then(run', s', Clear);
  }

  /** Overtaken between its decrement and its delete, a clearing leaves a head behind. */
  lemma OrphanedHead() returns (run: seq<Event>, s: State)
    ensures Chain(ONE_BLOCK_SECTIONS, THREE_BLOCKS) && Leads(run, s)
    ensures !Busy(s) && s.notifier.Free? && s.index == Index(0, 0, map[1 := 2])
  {
    ExampleChain();
    run, s := ResetFails();
    run, s := Then(run, s, Clear);
    run, s := Then(run, s, Clear);
    run, s := Then(run, s, Clear);
    run, s := Then(run, s, Clear);
    assert s.worker == Clearing(Pick) && s.index.stored == 1;
    run, s := CutToNone(run, s);
    run, s := Then(run, s, Clear);
    run, s := Then(run, s, Clear);
    assert s.index.heads == map[1 := 2];
    run, s := Then(run, s, Clear);
    run, s := Then(run, s, Clear);
  }

  /** The whole notification of a re-organisation at the genesis, when the counter is at 1. */
  lemma CutToNone(run: seq<Event>, s: State) returns (run': seq<Event>, s': State)
    requires Leads(run, s) && s.notifier.Free? && s.index.stored == 1 && s.index.heads == map[0 := 1, 1 := 2]
    ensures Leads(run', s') && s'.notifier.Free? && s'.worker == s.worker && s'.index == Index(0, 0, map[1 := 2])
  {
    run', s' := Then(run, s, Reorg(0));
    run', s' := Then(run', s', Notify);
    run', s' := Then(run', s', Notify);
    assert s'.notifier == Cutting(0, Load) && s'.index == Index(1, 0, s.index.heads);
    run', s' := Then(run', s', Notify);
    run', s' := Then(run', s', Notify);
    assert s'.notifier == Cutting(0, Pick) && s'.index == Index(0, 0, s.index.heads);
    run', s' := Then(run', s', Notify);
    run', s' := Then(run', s', Notify);
    assert s'.index.heads == map[1 := 2];
    run', s' := Then(run', s', Notify);
    run', s' := Then(run', s', Notify);
    run', s' := Then(run', s', Unlock);
  }

  /**
   A clearing that runs between the last test and the final write of a notification: the
   counter and the count say 1, and no head is left.
   */
  lemma LostHeads() returns (run: seq<Event>, s: State)
    ensures Chain(ONE_BLOCK_SECTIONS, THREE_BLOCKS) && Leads(run, s)
    ensures !Busy(s) && s.notifier.Free? && s.index == Index(1, 1, map[])
  {
    ExampleChain();
    run, s := ResetFails();
    run, s := Then(run, s, Clear);
    run, s := StartCut(run, s);
    run, s := ClearOne(run, s);
    run, s := Then(run, s, Clear);
    run, s := Then(run, s, Notify);
    run, s := Then(run, s, Unlock);
  }

  /** A notification that empties the index between a clearing's test and its decrement. */
  lemma WrappedCounter() returns (run: seq<Event>, s: State)
    ensures Chain(ONE_BLOCK_SECTIONS, THREE_BLOCKS) && Leads(run, s)
    ensures s.notifier.Free? && s.index.stored == TWO_TO_THE_64 - 1 && s.index.count == 0
  {
    ExampleChain();
    run, s := ResetFails();
    run, s := Then(run, s, Clear);
    run, s := CutToOne(run, s);
    run, s := Then(run, s, Clear);
    assert s.worker == Clearing(Load) && s.index.stored == 1;
    run, s := Then(run, s, Reorg(0));
    run, s := Then(run, s, Notify);
    run, s := Overtaken(run, s);
    run, s := Then(run, s, Clear);
    run, s := Then(run, s, Clear);
  }

  lemma Overtaken(run: seq<Event>, s: State) returns (run': seq<Event>, s': State)
    requires Leads(run, s) && s.notifier == Cutting(0, Test) && s.index.stored == 1 && Within(s.index.heads, 1)
    ensures Leads(run', s') && s'.notifier.Free? && s'.worker == s.worker && s'.index.stored == 0 && s'.index.count == s.index.count
  {
    var cut := FinishCut(ONE_BLOCK_SECTIONS, THREE_BLOCKS, s);
    Concat(ONE_BLOCK_SECTIONS, THREE_BLOCKS, EMPTY, run, cut);
    run', s' := run + cut, Run(ONE_BLOCK_SECTIONS, THREE_BLOCKS, s, cut);
  }
}
