/**
 * Whether a search will be atomic can be told when it begins: it is, in every continuation,
 * exactly when no matching posting of the hot index belongs to a line still pending.
 */
module AtomicStart {
  import opened Seqs
  import opened Schema
  import opened MemIndex
  import opened Ingest
  import opened BatchLoop
  import opened LoopInvariant
  import opened Search
  import opened Consistency
  import opened ConcurrentSearch
  import opened Atomicity

  /** What the memory phase of a search that begins in s will ask for. */
  function HotIds(p: Params, s: State): seq<RecordId> {
    HotMatches(Tier(s, p.hot), p.term, p.start, p.end)
  }

  /** The condition: memory will not be asked for a line that the loop still holds back. */
  ghost predicate NothingPending(r: Reading, p: Params, s: State) {
    forall l :: l in s.pending ==> r.id(l) !in HotIds(p, s)
  }

  /** A search that begins after `front` and has taken these steps. */
  function Begun(front: seq<Step>, more: seq<Step>): seq<Step> {
    front + [Begin] + more
  }

  // ---------------------------------------------------------------- the memory phase

  /** In the memory phase, nothing is asked for but what was found at the beginning. */
  ghost predicate AsksFor(p: Params, s: State, q: Progress) {
    && !q.Idle?
    && (q.Hot? ==>
          && q.origin == s && (forall id :: id in q.got.seen ==> id in HotIds(p, s))
          && (forall id :: id in q.todo ==> id in HotIds(p, s)))
  }

  lemma AsksStep(r: Reading, p: Params, s: State, sys: System, step: Step)
    requires AsksFor(p, s, sys.q) && Later(s, sys.s) && s.lost <= sys.s.lost && step != LoopStep(Restart)
    ensures var next := StepOf(r, p, sys, step);
            AsksFor(p, s, next.q) && Later(s, next.s) && s.lost <= next.s.lost
  {
    ReceivedGrows(r, p, sys, step);
    if step.FetchPosting? && sys.q.Hot? && sys.q.todo != [] {
      assert sys.q.todo[0] in sys.q.todo;
    }
  }

  lemma {:induction false} MemoryPhase(r: Reading, p: Params, front: seq<Step>, more: seq<Step>)
    requires RunSystem(r, p, front).q.Idle? && NoRestart(more)
    ensures var s, sys := RunSystem(r, p, front).s, RunSystem(r, p, Begun(front, more));
            AsksFor(p, s, sys.q) && Later(s, sys.s) && s.lost <= sys.s.lost
  {
    if more == [] {
      assert Begun(front, more) == front + [Begin];
      RunSystemOneMore(r, p, front, Begin);
    } else {
      var before, step := more[..|more| - 1], more[|more| - 1];
      MemoryPhase(r, p, front, before);
      AsksStep(r, p, RunSystem(r, p, front).s, RunSystem(r, p, Begun(front, before)), step);
      RunSystemOneMore(r, p, Begun(front, before), step);
      assert Begun(front, more) == Begun(front, before) + [step];
    }
  }

  // ---------------------------------------------------------------- where a line can be

  lemma LineIsSomewhere(s: State, l: Line)
    requires LinesAccounted(s.received, s.committed, s.lost, s.pending) && l in s.received
    ensures l in s.committed || l in s.lost || l in s.pending
  {
    assert l in multiset(s.received);
  }

  /** With distinct identities a line is in one place only. */
  lemma LineIsInOnePlace(r: Reading, s: State, l: Line)
    requires LinesAccounted(s.received, s.committed, s.lost, s.pending) && DistinctIds(r, s.received) && l in s.committed
    ensures l !in s.lost && l !in s.pending
  {
    forall i, j | 0 <= i < j < |s.received| ensures s.received[i] != s.received[j] {
      assert Map(r.id, s.received)[i] != Map(r.id, s.received)[j];
    }
    DistinctCount(s.received, l);
    assert multiset(s.committed)[l] >= 1;
    assert multiset(s.received)[l] == multiset(s.committed)[l] + multiset(s.lost)[l] + multiset(s.pending)[l];
  }

  lemma GrepLine(r: Reading, p: Params, s: State, id: RecordId) returns (l: Line)
    requires id in GrepIds(r, p, s)
    ensures l in s.committed && r.id(l) == id && Matches(r, l, p.term, p.start, p.end)
  {
    IdsOfGrep(r, s.committed, p.term, p.start, p.end, id);
    l :| l in s.committed && r.id(l) == id && Matches(r, l, p.term, p.start, p.end);
  }

  /** An identity of the hot index that is committed later, and whose line was not pending, was committed before. */
  lemma CommittedAtStart(r: Reading, p: Params, s: State, o: State, id: RecordId) returns (l: Line)
    requires ValidReading(r) && NulFree(p.term) && Inv(Worker(r), s) && Inv(Worker(r), o)
    requires Later(s, o) && s.lost <= o.lost && DistinctIds(r, o.received)
    requires NothingPending(r, p, s) && id in HotIds(p, s) && id in GrepIds(r, p, o)
    ensures l in s.committed && r.id(l) == id
  {
    l := GrepLine(r, p, o, id);
    CommittedWasReceived(o, l);
    WindowElements(PostingsOf(s.core.mem, p.term), p.start, p.end, id);
    HotPostingHasLine(r, s, p.term, id);
    var h :| h in s.hot && h in s.received && r.id(h) == id && p.term in r.terms(h);
    InPrefix(s.received, o.received, h);
    SameIdSameLine(r, o.received, h, l);
    LineIsSomewhere(s, l);
    LineIsInOnePlace(r, o, l);
    if l in s.lost {
      InPrefix(s.lost, o.lost, l);
    }
  }

  // ---------------------------------------------------------------- the condition suffices

  /** The steps after Begin: memory phase, opening of the iterator, rest; the answer stays below the limit. */
  ghost predicate Completes(r: Reading, p: Params, front: seq<Step>, hotSteps: seq<Step>, diskSteps: seq<Step>) {
    && NoRestart(hotSteps) && NoRestart(diskSteps)
    && (var open := RunSystem(r, p, Begun(front, hotSteps));
        ReadyToOpen(open.q) && WellTimed(r, open.s, p.start) && DistinctIds(r, open.s.received))
    && (var q := RunSystem(r, p, OpenedAfter(Begun(front, hotSteps), diskSteps)).q;
        q.Done? && |q.got.found| < EffectiveLimit(p.limit))
  }

  /** The answer is what grep finds in the state in which the iterator was opened. */
  ghost predicate IsGrepAtOpening(r: Reading, p: Params, front: seq<Step>, hotSteps: seq<Step>, diskSteps: seq<Step>)
    requires Completes(r, p, front, hotSteps, diskSteps)
  {
    SameIds(RunSystem(r, p, OpenedAfter(Begun(front, hotSteps), diskSteps)).q.got.found,
            GrepIds(r, p, RunSystem(r, p, Begun(front, hotSteps)).s))
  }

  ghost predicate AlwaysAtomic(r: Reading, p: Params, front: seq<Step>) {
    forall hotSteps, diskSteps :: Completes(r, p, front, hotSteps, diskSteps) ==>
      IsGrepAtOpening(r, p, front, hotSteps, diskSteps)
  }

  lemma AtomicRun(r: Reading, p: Params, front: seq<Step>, hotSteps: seq<Step>, diskSteps: seq<Step>)
    requires ValidReading(r) && NulFree(p.term) && RunSystem(r, p, front).q.Idle?
    requires NothingPending(r, p, RunSystem(r, p, front).s) && Completes(r, p, front, hotSteps, diskSteps)
    ensures IsGrepAtOpening(r, p, front, hotSteps, diskSteps)
  {
    var s, open := RunSystem(r, p, front).s, RunSystem(r, p, Begun(front, hotSteps));
    MemoryPhase(r, p, front, hotSteps);
    ProgressHolds(r, p, Begun(front, hotSteps));
    SystemLoopInv(r, p, front);
    SystemLoopInv(r, p, Begun(front, hotSteps));
    forall id | id in GrepIds(r, p, open.s) && id in open.q.got.seen ensures id in open.q.got.found {
      var l := CommittedAtStart(r, p, s, open.s, id);
    }
    AtomicAtOpeningIff(r, p, Begun(front, hotSteps), diskSteps);
  }

  /** When nothing of the hot index is pending, every continuation is atomic. */
  lemma AtomicWhenNothingPending(r: Reading, p: Params, front: seq<Step>)
    requires ValidReading(r) && NulFree(p.term) && RunSystem(r, p, front).q.Idle?
    requires NothingPending(r, p, RunSystem(r, p, front).s)
    ensures AlwaysAtomic(r, p, front)
  {
    forall hotSteps, diskSteps | Completes(r, p, front, hotSteps, diskSteps)
      ensures IsGrepAtOpening(r, p, front, hotSteps, diskSteps)
    {
      AtomicRun(r, p, front, hotSteps, diskSteps);
    }
  }

  /** A search that does without the hot index is atomic at its snapshot. */
  lemma ColdSearchIsAtomic(r: Reading, p: Params, front: seq<Step>)
    requires ValidReading(r) && NulFree(p.term) && RunSystem(r, p, front).q.Idle? && !p.hot
    ensures AlwaysAtomic(r, p, front)
  {
    AtomicWhenNothingPending(r, p, front);
  }

  // ---------------------------------------------------------------- the condition is necessary

  /** Fewer received lines match than the limit allows. */
  ghost predicate BelowLimit(r: Reading, p: Params, s: State) {
    |Grep(r, s.received, p.term, p.start, p.end)| < EffectiveLimit(p.limit)
  }

  lemma PartIsShorter<T(!new)>(a: seq<T>, b: seq<T>)
    requires Distinct(a) && forall x :: x in a ==> x in b
    ensures |a| <= |b|
  {
    DistinctSize(a);
    DedupElements(b);
    DistinctSize(Dedup(b));
    DedupShorter(b);
    assert Elements(a) <= Elements(Dedup(b));
    SubsetSize(Elements(a), Elements(Dedup(b)));
  }

  /** As long as only those lines are there, the answer does not fill up. */
  lemma StaysBelow(r: Reading, p: Params, steps: seq<Step>)
    requires ValidReading(r) && NulFree(p.term) && WellTimed(r, RunSystem(r, p, steps).s, p.start)
    requires var sys := RunSystem(r, p, steps); !sys.q.Idle? && BelowLimit(r, p, sys.s)
    ensures |RunSystem(r, p, steps).q.got.found| < EffectiveLimit(p.limit)
  {
    var sys := RunSystem(r, p, steps);
    var ids := Map(r.id, Grep(r, sys.s.received, p.term, p.start, p.end));
    ProgressHolds(r, p, steps);
    forall id | id in sys.q.got.found ensures id in ids {
      var i :| 0 <= i < |sys.q.got.found| && sys.q.got.found[i] == id;
      assert HasLine(r, p, sys.s, id);
      IdsOfGrep(r, sys.s.received, p.term, p.start, p.end, id);
    }
    PartIsShorter(sys.q.got.found, ids);
  }

  function Fetches(n: nat): seq<Step> {
    seq(n, _ => FetchPosting)
  }

  /** The memory phase up to its n-th posting, the loop standing still. */
  ghost predicate Fetching(p: Params, s: State, n: nat, sys: System) {
    && n <= |HotIds(p, s)|
    && sys.s == s && sys.q.Hot? && sys.q.todo == HotIds(p, s)[n..]
    && (forall k :: 0 <= k < n ==> HotIds(p, s)[k] in sys.q.got.seen)
    && (forall id :: id in sys.q.got.found ==> LogKey(id) in s.core.store)
  }

  lemma FetchOne(r: Reading, p: Params, s: State, n: nat, sys: System)
    requires Fetching(p, s, n, sys) && n < |HotIds(p, s)|
    requires |Fetch(s.core.store, sys.q.got, sys.q.todo[0]).found| < EffectiveLimit(p.limit)
    ensures Fetching(p, s, n + 1, StepOf(r, p, sys, FetchPosting))
  {
    var all := HotIds(p, s);
    assert all[n..][0] == all[n] && all[n..][1..] == all[n + 1..];
  }

  lemma FetchOneMore(r: Reading, p: Params, s: State, n: nat, steps: seq<Step>)
    requires ValidReading(r) && NulFree(p.term) && BelowLimit(r, p, s) && WellTimed(r, s, p.start)
    requires Fetching(p, s, n, RunSystem(r, p, steps)) && n < |HotIds(p, s)|
    ensures Fetching(p, s, n + 1, RunSystem(r, p, steps + [FetchPosting]))
  {
    RunSystemOneMore(r, p, steps, FetchPosting);
    StaysBelow(r, p, steps + [FetchPosting]);
    FetchOne(r, p, s, n, RunSystem(r, p, steps));
  }

  lemma {:induction false} FetchAll(r: Reading, p: Params, front: seq<Step>, n: nat)
    requires ValidReading(r) && NulFree(p.term) && RunSystem(r, p, front).q.Idle?
    requires var s := RunSystem(r, p, front).s; n <= |HotIds(p, s)| && BelowLimit(r, p, s) && WellTimed(r, s, p.start)
    ensures Fetching(p, RunSystem(r, p, front).s, n, RunSystem(r, p, Begun(front, Fetches(n))))
  {
    if n == 0 {
      assert Begun(front, Fetches(0)) == front + [Begin];
      RunSystemOneMore(r, p, front, Begin);
    } else {
      FetchAll(r, p, front, n - 1);
      assert Begun(front, Fetches(n)) == Begun(front, Fetches(n - 1)) + [FetchPosting];
      FetchOneMore(r, p, RunSystem(r, p, front).s, n - 1, Begun(front, Fetches(n - 1)));
    }
  }

  // ---------------------------------------------------------------- the loop catches up

  /** The events of the loop among the steps. */
  function LoopEvents(steps: seq<Step>): seq<Event> {
    if steps == [] then [] else
    var front, last := LoopEvents(steps[..|steps| - 1]), steps[|steps| - 1];
    if last.LoopStep? then front + [last.e] else front
  }

  lemma {:induction false} LoopSide(r: Reading, p: Params, steps: seq<Step>)
    ensures RunSystem(r, p, steps).s == Run(Worker(r), LoopEvents(steps))
  {
    if steps != [] {
      var front, last := steps[..|steps| - 1], steps[|steps| - 1];
      LoopSide(r, p, front);
      if last.LoopStep? {
        RunOneMore(Worker(r), LoopEvents(front), last.e);
      }
    }
  }

  function Lift(events: seq<Event>): seq<Step> {
    seq(|events|, i requires 0 <= i < |events| => LoopStep(events[i]))
  }

  /** Steps of the loop alone leave the search where it is. */
  lemma {:induction false} LiftedRun(r: Reading, p: Params, steps: seq<Step>, events: seq<Event>)
    requires Restart !in events
    ensures LoopEvents(steps + Lift(events)) == LoopEvents(steps) + events
    ensures RunSystem(r, p, steps + Lift(events)).q == RunSystem(r, p, steps).q
  {
    if events == [] {
      assert steps + Lift(events) == steps;
    } else {
      var front, last := events[..|events| - 1], events[|events| - 1];
      LiftedRun(r, p, steps, front);
      var all := steps + Lift(events);
      assert all[..|all| - 1] == steps + Lift(front);
      assert events == front + [last];
    }
  }

  /** The item at hand is finished, and the batch is written. */
  function CatchUp(s: State): seq<Event> {
    Indexing(|s.todo|) + [EndItem(true), Tick(true)]
  }

  lemma FlushCommits(make: Maker, s: State)
    requires Inv(make, s) && s.todo == []
    ensures var f := FlushState(s, true);
            f.committed == s.committed + s.pending && f.pending == [] && f.received == s.received
  {
    if s.core.batchSize == 0 {
      assert s.core.batch + IndexPuts([]) == [];
      PutsOfNothing(make, s.pending);
      assert s.committed + [] == s.committed;
    }
  }

  lemma EndCommits(make: Maker, s: State)
    requires Inv(make, s) && s.todo == []
    ensures var after := Next(make, Next(make, s, EndItem(true)), Tick(true));
            after.committed == s.committed + s.pending && after.received == s.received
  {
    var ended := Next(make, s, EndItem(true));
    EndItemKeepsInv(make, s, true);
    FlushCommits(make, s);
    FlushCommits(make, ended);
    assert (s.committed + s.pending) + [] == s.committed + s.pending;
  }

  lemma CaughtUp(make: Maker, events: seq<Event>)
    ensures var s, after := Run(make, events), Run(make, events + CatchUp(Run(make, events)));
            after.committed == s.committed + s.pending && after.received == s.received
  {
    var s := Run(make, events);
    var indexed := events + Indexing(|s.todo|);
    RunIndexing(make, events, |s.todo|);
    assert s.todo[|s.todo|..] == [];
    InvHolds(make, indexed);
    EndCommits(make, Run(make, indexed));
    RunOneMore(make, indexed, EndItem(true));
    RunOneMore(make, indexed + [EndItem(true)], Tick(true));
    assert events + CatchUp(s) == indexed + [EndItem(true)] + [Tick(true)];
  }

  // ---------------------------------------------------------------- the stale search

  function NextKeys(n: nat): seq<Step> {
    seq(n, _ => NextKey)
  }

  lemma OneMoreNextKey(steps: seq<Step>, n: nat)
    ensures steps + [NextKey] + NextKeys(n) == steps + NextKeys(n + 1)
  {
  }

  lemma ScanShortens(r: Reading, p: Params, steps: seq<Step>)
    requires RunSystem(r, p, steps).q.Disk?
    ensures var before, after := RunSystem(r, p, steps), RunSystem(r, p, steps + [NextKey]);
            after.s == before.s && (after.q.Done? || (after.q.Disk? && |after.q.keys| < |before.q.keys|))
  {
    RunSystemOneMore(r, p, steps, NextKey);
  }

  /** With the loop standing still, the scan comes to an end. */
  lemma {:induction false} ScanFinishes(r: Reading, p: Params, steps: seq<Step>) returns (n: nat)
    requires RunSystem(r, p, steps).q.Disk? || RunSystem(r, p, steps).q.Done?
    ensures var sys := RunSystem(r, p, steps + NextKeys(n)); sys.q.Done? && sys.s == RunSystem(r, p, steps).s
    decreases if RunSystem(r, p, steps).q.Disk? then |RunSystem(r, p, steps).q.keys| + 1 else 0
  {
    if RunSystem(r, p, steps).q.Done? {
      n := 0;
      assert steps + NextKeys(0) == steps;
    } else {
      ScanShortens(r, p, steps);
      n := ScanFinishes(r, p, steps + [NextKey]);
      OneMoreNextKey(steps, n);
      n := n + 1;
    }
  }

  /** All postings are fetched, and then the loop catches up. */
  function StaleSteps(p: Params, s: State): seq<Step> {
    Fetches(|HotIds(p, s)|) + Lift(CatchUp(s))
  }

  lemma NoEventsInSearch(r: Reading, p: Params, front: seq<Step>, n: nat)
    ensures LoopEvents(Begun(front, Fetches(n))) == LoopEvents(front)
    decreases n
  {
    var all := Begun(front, Fetches(n));
    if n == 0 {
      assert all == front + [Begin] && all[..|all| - 1] == front;
    } else {
      NoEventsInSearch(r, p, front, n - 1);
      assert all[..|all| - 1] == Begun(front, Fetches(n - 1));
    }
  }

  /** The state in which memory was asked for all its postings and all that was received is committed. */
  ghost predicate Stale(p: Params, s: State, open: System) {
    && ReadyToOpen(open.q)
    && open.s.received == s.received && open.s.committed == s.committed + s.pending
    && (forall id :: id in HotIds(p, s) ==> id in open.q.got.seen)
    && (forall id :: id in open.q.got.found ==> LogKey(id) in s.core.store)
  }

  lemma CatchUpDoesNotRestart(s: State)
    ensures Restart !in CatchUp(s)
  {
  }

  lemma LoopCatchesUp(r: Reading, p: Params, events: seq<Event>, fetched: seq<Step>)
    requires LoopEvents(fetched) == events
    ensures var s, before := Run(Worker(r), events), RunSystem(r, p, fetched);
            var after := RunSystem(r, p, fetched + Lift(CatchUp(s)));
            && after.q == before.q
            && after.s.committed == s.committed + s.pending && after.s.received == s.received
  {
    var more := CatchUp(Run(Worker(r), events));
    CatchUpDoesNotRestart(Run(Worker(r), events));
    LiftedRun(r, p, fetched, more);
    LoopSide(r, p, fetched + Lift(more));
    CaughtUp(Worker(r), events);
  }

  lemma FetchedAll(p: Params, s: State, sys: System)
    requires Fetching(p, s, |HotIds(p, s)|, sys)
    ensures ReadyToOpen(sys.q) && forall id :: id in HotIds(p, s) ==> id in sys.q.got.seen
  {
    assert HotIds(p, s)[|HotIds(p, s)|..] == [];
  }

  lemma StaleStepsDoNotRestart(p: Params, s: State, front: seq<Step>)
    ensures NoRestart(StaleSteps(p, s))
    ensures Begun(front, StaleSteps(p, s)) == Begun(front, Fetches(|HotIds(p, s)|)) + Lift(CatchUp(s))
  {
    ConcatAssociative(front + [Begin], Fetches(|HotIds(p, s)|), Lift(CatchUp(s)));
  }

  lemma BecomesStale(r: Reading, p: Params, front: seq<Step>)
    requires ValidReading(r) && NulFree(p.term) && RunSystem(r, p, front).q.Idle?
    requires var s := RunSystem(r, p, front).s; BelowLimit(r, p, s) && WellTimed(r, s, p.start)
    ensures Stale(p, RunSystem(r, p, front).s, RunSystem(r, p, Begun(front, StaleSteps(p, RunSystem(r, p, front).s))))
  {
    var s := RunSystem(r, p, front).s;
    var fetched := Begun(front, Fetches(|HotIds(p, s)|));
    FetchAll(r, p, front, |HotIds(p, s)|);
    FetchedAll(p, s, RunSystem(r, p, fetched));
    NoEventsInSearch(r, p, front, |HotIds(p, s)|);
    LoopSide(r, p, front);
    LoopCatchesUp(r, p, LoopEvents(front), fetched);
    StaleStepsDoNotRestart(p, s, front);
  }

  lemma PendingIsAskedTooEarly(r: Reading, p: Params, s: State, open: System, l: Line)
    requires ValidReading(r) && NulFree(p.term) && Inv(Worker(r), s) && DistinctIds(r, s.received)
    requires Stale(p, s, open) && l in s.pending && r.id(l) in HotIds(p, s)
    ensures AskedTooEarly(r, p, open, r.id(l))
  {
    var id := r.id(l);
    WindowElements(PostingsOf(s.core.mem, p.term), p.start, p.end, id);
    HotPostingHasLine(r, s, p.term, id);
    var h :| h in s.hot && h in s.received && r.id(h) == id && p.term in r.terms(h);
    assert l in multiset(s.pending) && l in multiset(s.received);
    SameIdSameLine(r, s.received, h, l);
    assert l in open.s.committed;
    IdsOfGrep(r, open.s.committed, p.term, p.start, p.end, id);
    LogKeyStored(r, s.committed, id);
    forall c | c in s.committed ensures r.id(c) != id {
      CommittedWasReceived(s, c);
      LineIsInOnePlace(r, s, c);
      if r.id(c) == id { SameIdSameLine(r, s.received, c, l); }
    }
  }

  lemma StaleSearch(r: Reading, p: Params, front: seq<Step>, l: Line) returns (more: seq<Step>)
    requires ValidReading(r) && NulFree(p.term) && RunSystem(r, p, front).q.Idle?
    requires var s := RunSystem(r, p, front).s;
             && BelowLimit(r, p, s) && WellTimed(r, s, p.start) && DistinctIds(r, s.received)
             && l in s.pending && r.id(l) in HotIds(p, s)
    ensures Completes(r, p, front, StaleSteps(p, RunSystem(r, p, front).s), more)
    ensures !IsGrepAtOpening(r, p, front, StaleSteps(p, RunSystem(r, p, front).s), more)
  {
    var s := RunSystem(r, p, front).s;
    var before := Begun(front, StaleSteps(p, s));
    var open := RunSystem(r, p, before);
    StaleStepsDoNotRestart(p, s, front);
    BecomesStale(r, p, front);
    RunSystemOneMore(r, p, before, OpenIterator);
    var n := ScanFinishes(r, p, before + [OpenIterator]);
    more := NextKeys(n);
    StaysBelow(r, p, OpenedAfter(before, more));
    SystemLoopInv(r, p, front);
    PendingIsAskedTooEarly(r, p, s, open, l);
    AtomicAtOpeningIff(r, p, before, more);
  }

  /**
   * Below the limit, a search is atomic at the opening of its iterator in every continuation
   * exactly when, at its beginning, no matching posting of the hot index belongs to a line that
   * is still pending.
   */
  lemma AtomicIff(r: Reading, p: Params, front: seq<Step>)
    requires ValidReading(r) && NulFree(p.term) && RunSystem(r, p, front).q.Idle?
    requires var s := RunSystem(r, p, front).s;
             BelowLimit(r, p, s) && WellTimed(r, s, p.start) && DistinctIds(r, s.received)
    ensures AlwaysAtomic(r, p, front) <==> NothingPending(r, p, RunSystem(r, p, front).s)
  {
    var s := RunSystem(r, p, front).s;
    if NothingPending(r, p, s) {
      AtomicWhenNothingPending(r, p, front);
    } else {
      var l :| l in s.pending && r.id(l) in HotIds(p, s);
      var more := StaleSearch(r, p, front, l);
      assert Completes(r, p, front, StaleSteps(p, s), more);
    }
  }
}
