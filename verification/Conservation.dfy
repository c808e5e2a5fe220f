/** No line is lost or made twice between the sockets and the batch loop, and Close drains the workers. */
module Conservation {
  import opened Bytes
  import opened Seqs
  import opened Sums
  import opened Ingest
  import opened WorkerPool
  import opened PacketFlow
  import opened BufferOwnership
  import opened PoolRuns

  function OriginIs(data: bytes): Packet -> nat {
    (p: Packet) => if p.origin == data then 1 else 0
  }

  function LineIs(data: bytes): Item -> nat {
    (item: Item) => if item.line.data == data then 1 else 0
  }

  /** Every copy of a line that was read is in exactly one place. */
  ghost predicate Conserved(s: State, data: bytes) {
    multiset(s.submitted)[data] == InFlight(OriginIs(data), s) + Finished(LineIs(data), s)
  }

  lemma ReleaseConserves(st: Stages, s: State, step: Step, data: bytes)
    requires WorkersOk(st, s) && Releases(st, s, step)
    ensures Held(OriginIs(data), s.workers[step.w]) == LineIs(data)(s.workers[step.w].item)
  {
    assert WorkerOk(st, s.heap, s.buffers, s.workers[step.w]);
  }

  lemma NothingSubmitted(st: Stages, s: State, step: Step)
    requires Enabled(st, s, step) && (step.Pass? || step.Work?)
    ensures Effect(st, s, step).submitted == s.submitted
  {
  }

  lemma SubmittedOfStep(st: Stages, s: State, step: Step, data: bytes)
    ensures multiset(Next(st, s, step).submitted)[data]
            == multiset(s.submitted)[data] + Arriving(OriginIs(data), st, s, step)
  {
    if Enabled(st, s, step) && (step.Pass? || step.Work?) {
      NothingSubmitted(st, s, step);
    }
  }

  lemma ConservedStep(st: Stages, s: State, step: Step, data: bytes)
    requires WorkersOk(st, s) && Conserved(s, data)
    ensures Conserved(Next(st, s, step), data)
  {
    PacketsMove(OriginIs(data), st, s, step);
    ItemsMove(LineIs(data), st, s, step);
    SubmittedOfStep(st, s, step, data);
    if Releases(st, s, step) {
      ReleaseConserves(st, s, step, data);
    }
  }

  lemma {:induction false} NoneFinished(g: Item -> nat, workers: nat)
    ensures Sum(Finishing(g), seq(workers, _ => Idle)) == 0
  {
    if workers > 0 {
      NoneFinished(g, workers - 1);
      assert seq(workers, _ => Idle)[..workers - 1] == seq(workers - 1, _ => Idle);
    }
  }

  /**
   * In every run, each line that was read is, as often as it was read, in the reader's or a
   * handler's hands, in a queue, with a worker, or in an item.
   */
  lemma {:induction false} LinesAreConserved(st: Stages, workers: nat, steps: seq<Step>, data: bytes)
    requires TextIsTail(st)
    ensures Conserved(Run(st, workers, steps), data)
  {
    if steps == [] {
      NoneHeld(OriginIs(data), workers);
      NoneFinished(LineIs(data), workers);
    } else {
      LinesAreConserved(st, workers, steps[..|steps| - 1], data);
      InvHolds(st, workers, steps[..|steps| - 1]);
      ConservedStep(st, Run(st, workers, steps[..|steps| - 1]), steps[|steps| - 1], data);
    }
  }

  lemma SubmittedFit(st: Stages, workers: nat, steps: seq<Step>, data: bytes)
    ensures data in Run(st, workers, steps).submitted ==> |data| <= 2048
  {
    if steps != [] {
      var before, step := Run(st, workers, steps[..|steps| - 1]), steps[|steps| - 1];
      SubmittedFit(st, workers, steps[..|steps| - 1], data);
      SubmittedOfStep(st, before, step, data);
    }
  }

  /** Every item comes from a line that was read, which fits a receive buffer. */
  lemma ItemsComeFromLines(st: Stages, workers: nat, steps: seq<Step>, item: Item)
    requires TextIsTail(st)
    requires item in Run(st, workers, steps).outQueue || item in Run(st, workers, steps).consumed
    ensures item.line.data in Run(st, workers, steps).submitted && |item.line.data| <= 2048
  {
    var s, data := Run(st, workers, steps), item.line.data;
    LinesAreConserved(st, workers, steps, data);
    var queue := if item in s.outQueue then s.outQueue else s.consumed;
    var k :| 0 <= k < |queue| && queue[k] == item;
    SumWithout(LineIs(data), queue, k);
    assert multiset(s.submitted)[data] > 0;
    SubmittedFit(st, workers, steps, data);
  }

  // ---------------------------------------------------------------- bounds

  ghost predicate Bounded(s: State) {
    && |s.udp.channel| <= 20000 && |s.http.channel| <= 10000
    && |s.udp.hand| <= 1 && |s.http.hand| <= 1
    && |s.rawQueue| <= 20000 && |s.outQueue| <= 20000
  }

  lemma BoundedPass(s: State, move: Move)
    requires Bounded(s) && MoveEnabled(s, move)
    ensures Bounded(MoveEffect(s, move))
  {
  }

  lemma BoundedAction(st: Stages, s: State, w: nat, action: Action)
    requires Bounded(s) && ActionEnabled(st, s, w, action)
    ensures Bounded(ActionEffect(st, s, w, action))
  {
  }

  lemma BoundedStep(st: Stages, s: State, step: Step)
    requires Bounded(s)
    ensures Bounded(Next(st, s, step))
  {
    if Enabled(st, s, step) {
      match step {
        case Pass(move) => BoundedPass(s, move);
        case Work(w, action) => BoundedAction(st, s, w, action);
        case _ =>
      }
    }
  }

  lemma {:induction false} QueuesAreBounded(st: Stages, workers: nat, steps: seq<Step>)
    ensures Bounded(Run(st, workers, steps))
  {
    if steps != [] {
      QueuesAreBounded(st, workers, steps[..|steps| - 1]);
      BoundedStep(st, Run(st, workers, steps[..|steps| - 1]), steps[|steps| - 1]);
    }
  }

  /** In every run, who wants to send waits exactly while the queue is full, and who takes while it is empty. */
  lemma SendersWaitIff(st: Stages, workers: nat, steps: seq<Step>)
    ensures var s := Run(st, workers, steps);
            && (s.reader.Filled? ==> (MoveEnabled(s, SendUdp) <==> |s.udp.channel| != 20000))
            && (forall k: nat :: k < |s.handlers| ==> (MoveEnabled(s, SendHttp(k)) <==> |s.http.channel| != 10000))
            && (s.udp.hand != [] && !s.closed ==> (MoveEnabled(s, SubmitUdp) <==> |s.rawQueue| != 20000))
            && (s.http.hand != [] && !s.closed ==> (MoveEnabled(s, SubmitHttp) <==> |s.rawQueue| != 20000))
            && (forall w: nat :: w < |s.workers| && s.workers[w].Released? ==>
                  (ActionEnabled(st, s, w, Emit) <==> |s.outQueue| != 20000))
  {
    QueuesAreBounded(st, workers, steps);
  }

  // ---------------------------------------------------------------- Close

  /** A worker exits only when the raw queue is closed and empty, and then it stays empty. */
  ghost predicate ExitedLast(s: State) {
    Exited in s.workers ==> s.closed && s.rawQueue == []
  }

  lemma ExitedLastStep(st: Stages, s: State, step: Step)
    requires ExitedLast(s)
    ensures ExitedLast(Next(st, s, step))
  {
    if Enabled(st, s, step) {
      if step.Work? {
        OnlyOneActs(st, s, step.w, step.action);
      } else {
        NoOneActs(st, s, step);
      }
    }
  }

  lemma {:induction false} ExitedLastHolds(st: Stages, workers: nat, steps: seq<Step>)
    ensures ExitedLast(Run(st, workers, steps)) && |Run(st, workers, steps).workers| == workers
  {
    if steps != [] {
      var before := Run(st, workers, steps[..|steps| - 1]);
      ExitedLastHolds(st, workers, steps[..|steps| - 1]);
      ExitedLastStep(st, before, steps[|steps| - 1]);
      if Enabled(st, before, steps[|steps| - 1]) && !steps[|steps| - 1].Work? {
        NoOneActs(st, before, steps[|steps| - 1]);
      }
    }
  }

  lemma {:induction false} RestingHoldNothing(f: Packet -> nat, g: Item -> nat, ws: seq<Worker>)
    requires forall w :: 0 <= w < |ws| ==> ws[w].Exited? || ws[w].Idle?
    ensures Sum(Holding(f), ws) == 0 && Sum(Finishing(g), ws) == 0
  {
    if ws != [] {
      RestingHoldNothing(f, g, ws[..|ws| - 1]);
    }
  }

  function DataOf(item: Item): bytes {
    item.line.data
  }

  lemma {:induction false} SumCounts(items: seq<Item>, data: bytes)
    ensures Sum(LineIs(data), items) == multiset(Map(DataOf, items))[data]
  {
    if items != [] {
      var n := |items| - 1;
      SumCounts(items[..n], data);
      assert Map(DataOf, items) == Map(DataOf, items[..n]) + [DataOf(items[n])];
    }
  }

  ghost predicate AllExited(s: State) {
    forall w :: 0 <= w < |s.workers| ==> s.workers[w].Exited?
  }

  /**
   * When Close returns, every line that reached the raw queue came out as an item: what was
   * read is with the sockets' goroutines, in the output queue or with the loop.
   */
  lemma CloseDrains(st: Stages, workers: nat, steps: seq<Step>, data: bytes)
    requires TextIsTail(st) && workers > 0 && AllExited(Run(st, workers, steps))
    ensures var s := Run(st, workers, steps);
            multiset(s.submitted)[data]
            == Upstream(OriginIs(data), s) + multiset(Map(DataOf, s.consumed + s.outQueue))[data]
  {
    var s := Run(st, workers, steps);
    LinesAreConserved(st, workers, steps, data);
    ExitedLastHolds(st, workers, steps);
    assert s.workers[0] in s.workers;
    RestingHoldNothing(OriginIs(data), LineIs(data), s.workers);
    SumCounts(s.outQueue, data);
    SumCounts(s.consumed, data);
    MapConcat(DataOf, s.consumed, s.outQueue);
  }

  // ---------------------------------------------------------------- progress

  function StepsLeft(): Worker -> nat {
    (w: Worker) =>
      match w
      case Took(_) => 6
      case Parsed(_, _, _, _) => 5
      case Copied(_, _, _, _, _, _) => 4
      case Indexed(_, _) => 3
      case Released(_) => 2
      case Idle => 1
      case Exited => 0
  }

  /** What is left to do for the workers once the raw queue is closed. */
  ghost function WorkLeft(s: State): nat {
    6 * |s.rawQueue| + Sum(StepsLeft(), s.workers)
  }

  lemma ActionWorks(st: Stages, s: State, w: nat, action: Action)
    requires ActionEnabled(st, s, w, action)
    ensures WorkLeft(ActionEffect(st, s, w, action)) == WorkLeft(s) - 1
  {
    SumUpdate(StepsLeft(), s.workers, w, ActionEffect(st, s, w, action).workers[w]);
  }

  /** Once the raw queue is closed, each step of a worker is one step less to do, and nothing adds to it. */
  lemma ClosedWorkShrinks(st: Stages, s: State, step: Step)
    requires s.closed
    ensures WorkLeft(Next(st, s, step)) == WorkLeft(s) - if step.Work? && Enabled(st, s, step) then 1 else 0
  {
    if Enabled(st, s, step) {
      if step.Work? {
        ActionWorks(st, s, step.w, step.action);
      } else {
        NoOneActs(st, s, step);
      }
    }
  }

  lemma {:induction false} Above(refs: set<Ref>) returns (top: nat)
    ensures forall r :: r in refs ==> r < top
  {
    if refs == {} {
      top := 0;
    } else {
      var r :| r in refs;
      top := Above(refs - {r});
      if top <= r {
        top := r + 1;
      }
      forall q | q in refs ensures q < top {
        assert q == r || q in refs - {r};
      }
    }
  }

  lemma NewArrays(s: State, n: nat) returns (refs: seq<Ref>)
    ensures |refs| == n && AllUnused(s, refs)
  {
    var top := Above(s.heap.Keys + s.buffers);
    refs := seq(n, k requires 0 <= k < n => top + k);
    assert forall k :: 0 <= k < n ==> refs[k] !in s.heap.Keys + s.buffers;
  }

  /** A worker that holds a packet or an item can take its next step, unless the output queue is full. */
  lemma BusyWorkerGoesOn(st: Stages, s: State, w: nat) returns (action: Action)
    requires w < |s.workers| && !s.workers[w].Idle? && !s.workers[w].Exited?
    requires s.workers[w].Released? ==> |s.outQueue| < OUT_QUEUE_SIZE
    ensures ActionEnabled(st, s, w, action) && !action.Exit?
  {
    match s.workers[w] {
      case Took(_) => action := Parse(0);
      case Parsed(_, _, _, _) =>
        var refs := NewArrays(s, 2);
        assert refs == [refs[0], refs[1]];
        action := CopyValue(refs[0], refs[1]);
      case Copied(_, _, _, _, _, _) =>
        var refs := NewArrays(s, |KeysAt(st, s.heap, s.workers[w])|);
        action := EncodeKeys(refs);
      case Indexed(_, _) => action := Release;
      case Released(_) => action := Emit;
    }
  }

  /**
   * Close cannot get stuck while the loop receives: until every worker has exited, a worker can
   * go on, or the output queue holds an item for the loop.
   */
  lemma CloseMakesProgress(st: Stages, s: State) returns (step: Step)
    requires s.closed && !AllExited(s)
    ensures (step.Work? || step.Consume?) && Enabled(st, s, step)
  {
    var w :| 0 <= w < |s.workers| && !s.workers[w].Exited?;
    if s.workers[w].Idle? {
      step := Work(w, if s.rawQueue == [] then Exit else Receive);
    } else if s.workers[w].Released? && |s.outQueue| >= OUT_QUEUE_SIZE {
      step := Consume;
    } else {
      var action := BusyWorkerGoesOn(st, s, w);
      step := Work(w, action);
    }
  }

  lemma ConsumeShortens(st: Stages, s: State, step: Step)
    requires s.closed && Enabled(st, s, step) && (step.Work? || step.Consume?)
    ensures Next(st, s, step).closed
    ensures WorkLeft(Next(st, s, step)) < WorkLeft(s)
            || (WorkLeft(Next(st, s, step)) == WorkLeft(s) && |Next(st, s, step).outQueue| < |s.outQueue|)
  {
    ClosedWorkShrinks(st, s, step);
  }

  /** From every state after Close there is a way to the end, and no worker takes more than WorkLeft steps to it. */
  lemma {:induction false} CloseCanReturn(st: Stages, workers: nat, steps: seq<Step>) returns (more: seq<Step>)
    requires Run(st, workers, steps).closed
    ensures AllExited(Run(st, workers, steps + more))
    decreases WorkLeft(Run(st, workers, steps)), |Run(st, workers, steps).outQueue|
  {
    var s := Run(st, workers, steps);
    if AllExited(s) {
      more := [];
      assert steps + more == steps;
    } else {
      var step := CloseMakesProgress(st, s);
      ConsumeShortens(st, s, step);
      assert (steps + [step])[..|steps|] == steps;
      var rest := CloseCanReturn(st, workers, steps + [step]);
      more := [step] + rest;
      assert steps + more == steps + [step] + rest;
    }
  }
}
