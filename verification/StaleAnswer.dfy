/** A search whose answer is what grep finds in no state of the loop, before, during or after it. */
module StaleAnswer {
  import opened Bytes
  import opened Seqs
  import opened Schema
  import opened MemIndex
  import opened Ingest
  import opened BatchLoop
  import opened Consistency
  import opened ConcurrentSearch
  import opened Atomicity
  import opened AtomicStart

  /** The first line arrives. */
  function Arrival(line: Line): seq<Event> {
    [Receive(line)] + [IndexNext] + [EndItem(true)]
  }

  /** The first line, the second line, and then both are written. */
  function Events(x: Line, y: Line): seq<Event> {
    Arrival(x) + Arrival(y) + [Tick(true)]
  }

  /** The search asks memory for the first line while it is pending. */
  function HotSteps(x: Line): seq<Step> {
    Begun(Lift(Arrival(x)), [FetchPosting])
  }

  /** The second line arrives and both are written, before the iterator is opened. */
  function UpToOpening(x: Line, y: Line): seq<Step> {
    HotSteps(x) + Lift(Arrival(y) + [Tick(true)])
  }

  // ---------------------------------------------------------------- the loop's side

  /** Nothing is committed yet, and the batch has room. */
  ghost predicate Waiting(s: State, lines: seq<Line>) {
    && s.committed == [] && s.pending == lines && s.received == lines && s.core.store == map[]
    && !s.busy && s.todo == [] && s.core.batchSize == 2 * |lines|
  }

  lemma OneArrival(make: Maker, events: seq<Event>, lines: seq<Line>, line: Line, key: bytes)
    requires Waiting(Run(make, events), lines) && |lines| <= 1 && make(line).termKeys == [key]
    ensures var s, after := Run(make, events), Run(make, events + Arrival(line));
            Waiting(after, lines + [line]) && after.core.mem == Register(s.core.mem, key)
  {
    var e1 := events + [Receive(line)];
    var e2 := e1 + [IndexNext];
    RunOneMore(make, events, Receive(line));
    RunOneMore(make, e1, IndexNext);
    RunOneMore(make, e2, EndItem(true));
    assert [key][1..] == [];
    assert events + Arrival(line) == e2 + [EndItem(true)];
  }

  lemma BothWritten(make: Maker, events: seq<Event>, lines: seq<Line>)
    requires Waiting(Run(make, events), lines) && |lines| == 2
    ensures var after := Run(make, events + [Tick(true)]); after.committed == lines && after.received == lines
  {
    RunOneMore(make, events, Tick(true));
    assert [] + lines == lines;
  }

  /** Lines with this one term. */
  ghost predicate HasTerm(r: Reading, p: Params, line: Line) {
    r.terms(line) == [p.term] && InWindow(r.id(line), p.start, p.end) && r.id(line).ts >= 0
  }

  lemma RegisterFirst(t: bytes, id: RecordId)
    requires NulFree(t)
    ensures Register(map[], IndexKey(t, id)) == map[t := [id]]
  {
    DecodeOfEncoding(t, id);
    assert PostingsOf(map[], t) + [id] == [id];
  }

  lemma FirstLine(r: Reading, p: Params, x: Line)
    requires HasTerm(r, p, x) && NulFree(p.term)
    ensures var s := Run(Worker(r), Arrival(x)); Waiting(s, [x]) && s.core.mem == map[p.term := [r.id(x)]]
  {
    assert Worker(r)(x).termKeys == [IndexKey(p.term, r.id(x))];
    OneArrival(Worker(r), [], [], x, IndexKey(p.term, r.id(x)));
    assert [] + Arrival(x) == Arrival(x) && [] + [x] == [x];
    RegisterFirst(p.term, r.id(x));
  }

  lemma LoopOfTwo(r: Reading, p: Params, x: Line, y: Line)
    requires HasTerm(r, p, x) && HasTerm(r, p, y) && NulFree(p.term)
    ensures Waiting(Run(Worker(r), Arrival(x) + Arrival(y)), [x, y])
    ensures var s := Run(Worker(r), Events(x, y)); s.committed == [x, y] && s.received == [x, y]
  {
    var make := Worker(r);
    FirstLine(r, p, x);
    assert make(y).termKeys == [IndexKey(p.term, r.id(y))];
    OneArrival(make, Arrival(x), [x], y, IndexKey(p.term, r.id(y)));
    assert [x] + [y] == [x, y];
    BothWritten(make, Arrival(x) + Arrival(y), [x, y]);
  }

  lemma {:induction false} CommittedGrows(make: Maker, events: seq<Event>, more: seq<Event>)
    ensures Run(make, events).committed <= Run(make, events + more).committed
  {
    if more == [] {
      assert events + more == events;
    } else {
      var front, last := more[..|more| - 1], more[|more| - 1];
      CommittedGrows(make, events, front);
      RunOneMore(make, events + front, last);
      NextIsLater(make, Run(make, events + front), last);
      assert events + more == events + front + [last];
    }
  }

  /** Up to the last event nothing is committed, then everything. */
  lemma AllOrNothing(r: Reading, p: Params, x: Line, y: Line, events: seq<Event>)
    requires HasTerm(r, p, x) && HasTerm(r, p, y) && NulFree(p.term) && events <= Events(x, y)
    ensures var s := Run(Worker(r), events); s.committed == [] || s.committed == [x, y]
  {
    var before := Arrival(x) + Arrival(y);
    LoopOfTwo(r, p, x, y);
    if |events| <= |before| {
      assert before == events + before[|events|..];
      CommittedGrows(Worker(r), events, before[|events|..]);
    } else {
      assert events == Events(x, y);
    }
  }

  // ---------------------------------------------------------------- the search's side

  lemma AskedForFirst(r: Reading, p: Params, x: Line, y: Line)
    requires HasTerm(r, p, x) && HasTerm(r, p, y) && NulFree(p.term) && p.hot
    ensures var open := RunSystem(r, p, UpToOpening(x, y));
            && ReadyToOpen(open.q) && open.q.got.found == [] && open.q.got.seen == {r.id(x)}
            && open.s.committed == [x, y] && open.s.received == [x, y]
    ensures LoopEvents(UpToOpening(x, y)) == Events(x, y)
  {
    var front := Lift(Arrival(x));
    LoopOfTwo(r, p, x, y);
    FirstPosting(r, p, x);
    EventsOfHotSteps(x);
    LiftedRun(r, p, HotSteps(x), Arrival(y) + [Tick(true)]);
    LoopSide(r, p, UpToOpening(x, y));
    ConcatAssociative(Arrival(x), Arrival(y), [Tick(true)]);
  }

  lemma EventsOfHotSteps(x: Line)
    ensures LoopEvents(HotSteps(x)) == Arrival(x)
  {
    var front := Lift(Arrival(x));
    LoopEventsOfLift(Arrival(x));
    assert (front + [Begin])[..|front|] == front;
    assert HotSteps(x)[..|front| + 1] == front + [Begin];
  }

  lemma {:induction false} LoopEventsOfLift(events: seq<Event>)
    ensures LoopEvents(Lift(events)) == events
  {
    if events != [] {
      var front := events[..|events| - 1];
      LoopEventsOfLift(front);
      assert Lift(events)[..|events| - 1] == Lift(front);
    }
  }

  lemma WindowOfOne(id: RecordId, start: int64, end: int64)
    requires InWindow(id, start, end)
    ensures Window([id], start, end) == [id]
  {
    assert [id][..0] == [];
  }

  lemma HotIdsOfFirst(r: Reading, p: Params, x: Line)
    requires HasTerm(r, p, x) && NulFree(p.term) && p.hot
    ensures var sys := RunSystem(r, p, Lift(Arrival(x)));
            sys.q.Idle? && sys.s.core.store == map[] && HotIds(p, sys.s) == [r.id(x)]
  {
    var front := Lift(Arrival(x));
    FirstLine(r, p, x);
    LoopEventsOfLift(Arrival(x));
    LoopSide(r, p, front);
    LiftedRun(r, p, [], Arrival(x));
    assert [] + front == front;
    WindowOfOne(r.id(x), p.start, p.end);
  }

  lemma FirstPosting(r: Reading, p: Params, x: Line)
    requires HasTerm(r, p, x) && NulFree(p.term) && p.hot
    ensures var q := RunSystem(r, p, HotSteps(x)).q;
            ReadyToOpen(q) && q.got.found == [] && q.got.seen == {r.id(x)}
  {
    var front := Lift(Arrival(x));
    HotIdsOfFirst(r, p, x);
    RunSystemOneMore(r, p, front, Begin);
    RunSystemOneMore(r, p, front + [Begin], FetchPosting);
    assert [r.id(x)][1..] == [];
  }

  lemma {:induction false} EventsOfPrefix(steps: seq<Step>, k: nat)
    requires k <= |steps|
    ensures LoopEvents(steps[..k]) <= LoopEvents(steps)
  {
    if k < |steps| {
      var front := steps[..|steps| - 1];
      EventsOfPrefix(front, k);
      assert front[..k] == steps[..k];
    } else {
      assert steps[..k] == steps;
    }
  }

  lemma {:induction false} NoEventsInScan(steps: seq<Step>, n: nat)
    ensures LoopEvents(OpenedAfter(steps, NextKeys(n))) == LoopEvents(steps)
  {
    var all := OpenedAfter(steps, NextKeys(n));
    if n == 0 {
      assert all[..|all| - 1] == steps;
    } else {
      NoEventsInScan(steps, n - 1);
      assert all[..|all| - 1] == OpenedAfter(steps, NextKeys(n - 1));
    }
  }

  // ---------------------------------------------------------------- the answer

  lemma GrepOfTwo(r: Reading, p: Params, x: Line, y: Line, s: State, id: RecordId)
    requires HasTerm(r, p, x) && HasTerm(r, p, y)
    requires s.committed == [x, y] || s.committed == []
    ensures id in GrepIds(r, p, s) <==> s.committed != [] && (id == r.id(x) || id == r.id(y))
  {
    IdsOfGrep(r, s.committed, p.term, p.start, p.end, id);
    assert p.term in [p.term];
    assert s.committed != [] ==> x in s.committed && y in s.committed;
    assert forall l :: l in s.committed ==> l == x || l == y;
  }

  lemma AnswerIsSecond(r: Reading, p: Params, x: Line, y: Line) returns (n: nat)
    requires ValidReading(r) && HasTerm(r, p, x) && HasTerm(r, p, y) && NulFree(p.term) && p.hot
    requires r.id(x) != r.id(y) && Search.EffectiveLimit(p.limit) > 2
    ensures var end := RunSystem(r, p, OpenedAfter(UpToOpening(x, y), NextKeys(n)));
            end.q.Done? && SameIds(end.q.got.found, [r.id(y)])
  {
    var steps := UpToOpening(x, y);
    AskedForFirst(r, p, x, y);
    RunSystemOneMore(r, p, steps, OpenIterator);
    n := ScanFinishes(r, p, steps + [OpenIterator]);
    var end := RunSystem(r, p, OpenedAfter(steps, NextKeys(n)));
    GrepOfAtMost(r, [x, y], p);
    StaysBelow(r, p, OpenedAfter(steps, NextKeys(n)));
    forall id ensures id in end.q.got.found <==> id in [r.id(y)] {
      AnswerOfRun(r, p, steps, NextKeys(n), id);
      GrepOfTwo(r, p, x, y, RunSystem(r, p, steps).s, id);
    }
  }

  lemma {:induction false} GrepOfAtMost(r: Reading, lines: seq<Line>, p: Params)
    ensures |Grep(r, lines, p.term, p.start, p.end)| <= |lines|
  {
    if lines != [] {
      GrepOfAtMost(r, lines[..|lines| - 1], p);
    }
  }

  /** The search has ended, with an answer that grep gives in no state up to its end. */
  ghost predicate IsStale(r: Reading, p: Params, steps: seq<Step>) {
    && RunSystem(r, p, steps).q.Done?
    && forall k :: 0 <= k <= |steps| ==>
         !SameIds(RunSystem(r, p, steps).q.got.found, GrepIds(r, p, RunSystem(r, p, steps[..k]).s))
  }

  /**
   * Two lines with the term of the query: memory is asked for the first while it is pending,
   * both are written, and the scan does not ask for it again. The answer is the second line
   * alone, though in every state of the run either none or both of them are committed.
   */
  lemma AnswerOfNoState(r: Reading, p: Params, x: Line, y: Line) returns (steps: seq<Step>)
    requires ValidReading(r) && HasTerm(r, p, x) && HasTerm(r, p, y) && NulFree(p.term) && p.hot
    requires r.id(x) != r.id(y) && Search.EffectiveLimit(p.limit) > 2
    ensures IsStale(r, p, steps) && SameIds(RunSystem(r, p, steps).q.got.found, [r.id(y)])
  {
    var n := AnswerIsSecond(r, p, x, y);
    steps := OpenedAfter(UpToOpening(x, y), NextKeys(n));
    AskedForFirst(r, p, x, y);
    NoEventsInScan(UpToOpening(x, y), n);
    forall k | 0 <= k <= |steps|
      ensures !SameIds(RunSystem(r, p, steps).q.got.found, GrepIds(r, p, RunSystem(r, p, steps[..k]).s))
    {
      var s := RunSystem(r, p, steps[..k]).s;
      EventsOfPrefix(steps, k);
      LoopSide(r, p, steps[..k]);
      AllOrNothing(r, p, x, y, LoopEvents(steps[..k]));
      GrepOfTwo(r, p, x, y, s, r.id(x));
      GrepOfTwo(r, p, x, y, s, r.id(y));
      assert r.id(y) in [r.id(y)] && r.id(x) !in [r.id(y)];
    }
  }

  /**
   * The line "aa", sent twice, will do: for any reader of one-word lines, which the engine's is
   * (Ingest.EngineReadsWord).
   */
  lemma RepeatedWordIsStale(r: Reading) returns (steps: seq<Step>, p: Params)
    requires ValidReading(r) && ReadsWord(r, [0x61, 0x61], 0) && ReadsWord(r, [0x61, 0x61], 1)
    ensures IsStale(r, p, steps)
  {
    p := Params(true, [0x61, 0x61], 0, 1, 50);
    steps := AnswerOfNoState(r, p, Line([0x61, 0x61], 0), Line([0x61, 0x61], 1));
  }
}
