/** The pool comes to rest: without new lines, everything on its way reaches the loop. */
module Quiescence {
  import opened Sums
  import opened WorkerPool
  import opened PoolRuns
  import opened Conservation

  /** No line is on its way: everything that was read has reached the loop. */
  ghost predicate Quiet(s: State) {
    && !s.reader.Filled? && s.handlers == [] && s.rawQueue == [] && s.outQueue == []
    && s.udp == Route([], []) && s.http == Route([], [])
    && forall w :: 0 <= w < |s.workers| ==> s.workers[w].Exited? || s.workers[w].Idle?
  }

  function Load(): Worker -> nat {
    (w: Worker) =>
      match w
      case Took(_) => 6
      case Parsed(_, _, _, _) => 5
      case Copied(_, _, _, _, _, _) => 4
      case Indexed(_, _) => 3
      case Released(_) => 2
      case _ => 0
  }

  function RouteDistance(route: Route): nat {
    9 * |route.channel| + 8 * |route.hand|
  }

  /** How many steps all lines together still have to go. */
  ghost function Distance(s: State): nat {
    (if s.reader.Filled? then 10 else 0) + 10 * |s.handlers| + RouteDistance(s.udp) + RouteDistance(s.http)
    + 7 * |s.rawQueue| + Sum(Load(), s.workers) + |s.outQueue|
  }

  /** A step that moves a line on, and reads none. */
  ghost predicate MovesOn(step: Step) {
    step.Pass? || step.Consume? || (step.Work? && !step.action.Exit?)
  }

  lemma WorkMovesOn(st: Stages, s: State, w: nat, action: Action)
    requires ActionEnabled(st, s, w, action) && !action.Exit?
    ensures Distance(ActionEffect(st, s, w, action)) == Distance(s) - 1
  {
    SumUpdate(Load(), s.workers, w, ActionEffect(st, s, w, action).workers[w]);
  }

  lemma PassMovesOn(s: State, move: Move)
    requires MoveEnabled(s, move)
    ensures Distance(MoveEffect(s, move)) == Distance(s) - 1
  {
  }

  /** Every such step brings some line one step nearer to the loop. */
  lemma StepMovesOn(st: Stages, s: State, step: Step)
    requires Enabled(st, s, step) && MovesOn(step)
    ensures Distance(Next(st, s, step)) == Distance(s) - 1
    ensures Next(st, s, step).closed == s.closed && Next(st, s, step).submitted == s.submitted
  {
    match step {
      case Pass(move) => PassMovesOn(s, move);
      case Work(w, action) => WorkMovesOn(st, s, w, action);
      case _ =>
    }
  }

  /** A move between the sockets and the raw queue, when that queue is empty. */
  lemma FeedGoesOn(s: State) returns (move: Move)
    requires !s.closed && s.rawQueue == []
    requires s.reader.Filled? || s.handlers != [] || s.udp != Route([], []) || s.http != Route([], [])
    ensures MoveEnabled(s, move)
  {
    if s.udp.hand != [] {
      move := SubmitUdp;
    } else if s.http.hand != [] {
      move := SubmitHttp;
    } else if s.udp.channel != [] {
      move := ForwardUdp;
    } else if s.http.channel != [] {
      move := ForwardHttp;
    } else if s.reader.Filled? {
      move := SendUdp;
    } else {
      move := SendHttp(0);
    }
  }

  /** Until the pool is quiet, some line can move on. */
  lemma SomethingMoves(st: Stages, s: State) returns (step: Step)
    requires !s.closed && ExitedLast(s) && |s.workers| > 0 && !Quiet(s)
    ensures MovesOn(step) && Enabled(st, s, step)
  {
    if s.outQueue != [] {
      step := Consume;
    } else if w :| 0 <= w < |s.workers| && !s.workers[w].Idle? && !s.workers[w].Exited? {
      var action := BusyWorkerGoesOn(st, s, w);
      step := Work(w, action);
    } else if s.rawQueue != [] {
      assert s.workers[0] in s.workers;
      step := Work(0, Receive);
    } else {
      var move := FeedGoesOn(s);
      step := Pass(move);
    }
  }

  /**
   * From every state that is not closed, with at least one worker, the pool comes to rest in
   * at most as many steps as its lines have to go, none of which reads a line.
   */
  lemma {:induction false} BecomesQuiet(st: Stages, workers: nat, steps: seq<Step>) returns (more: seq<Step>)
    requires workers > 0 && !Run(st, workers, steps).closed
    ensures Quiet(Run(st, workers, steps + more)) && |more| <= Distance(Run(st, workers, steps))
    ensures forall i :: 0 <= i < |more| ==> MovesOn(more[i])
    ensures Run(st, workers, steps + more).submitted == Run(st, workers, steps).submitted
    decreases Distance(Run(st, workers, steps))
  {
    var s := Run(st, workers, steps);
    if Quiet(s) {
      more := [];
      assert steps + more == steps;
    } else {
      ExitedLastHolds(st, workers, steps);
      var step := SomethingMoves(st, s);
      RunOneMore(st, workers, steps, step);
      StepMovesOn(st, s, step);
      var rest := BecomesQuiet(st, workers, steps + [step]);
      more := [step] + rest;
      assert steps + more == steps + [step] + rest;
    }
  }
}
