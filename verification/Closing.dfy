/** Whether Close returns when nobody receives items any more, as in the engine's own shutdown. */
module Closing {
  import opened Sums
  import opened WorkerPool
  import opened PoolRuns
  import opened Conservation

  function Unfinished(): Worker -> nat {
    (w: Worker) => if w.Idle? || w.Exited? then 0 else 1
  }

  /** The items in the output queue, and those still to come from what the workers have or will take. */
  ghost function ItemsDue(s: State): nat {
    |s.outQueue| + |s.rawQueue| + Sum(Unfinished(), s.workers)
  }

  lemma ActionKeepsItemsDue(st: Stages, s: State, w: nat, action: Action)
    requires ActionEnabled(st, s, w, action)
    ensures ItemsDue(ActionEffect(st, s, w, action)) == ItemsDue(s)
  {
    SumUpdate(Unfinished(), s.workers, w, ActionEffect(st, s, w, action).workers[w]);
  }

  lemma StepKeepsItemsDue(st: Stages, s: State, step: Step)
    requires s.closed && !step.Consume?
    ensures ItemsDue(Next(st, s, step)) == ItemsDue(s) && Next(st, s, step).closed
  {
    if Enabled(st, s, step) {
      if step.Work? {
        ActionKeepsItemsDue(st, s, step.w, step.action);
      } else {
        NoOneActs(st, s, step);
      }
    }
  }

  /** The loop receives nothing. */
  ghost predicate NoConsume(steps: seq<Step>) {
    Consume !in steps
  }

  lemma {:induction false} ItemsDueStay(st: Stages, workers: nat, steps: seq<Step>, more: seq<Step>)
    requires Run(st, workers, steps).closed && NoConsume(more)
    ensures var s, after := Run(st, workers, steps), Run(st, workers, steps + more);
            ItemsDue(after) == ItemsDue(s) && after.closed
  {
    if more == [] {
      assert steps + more == steps;
    } else {
      var front, step := more[..|more| - 1], more[|more| - 1];
      ItemsDueStay(st, workers, steps, front);
      RunOneMore(st, workers, steps + front, step);
      assert more == front + [step];
      assert steps + more == steps + front + [step];
      StepKeepsItemsDue(st, Run(st, workers, steps + front), step);
    }
  }

  lemma {:induction false} ExitedOweNothing(ws: seq<Worker>)
    requires forall w :: 0 <= w < |ws| ==> ws[w].Exited?
    ensures Sum(Unfinished(), ws) == 0
  {
    if ws != [] {
      ExitedOweNothing(ws[..|ws| - 1]);
    }
  }

  /** When all workers have exited, what was due is in the output queue, so it must have fit. */
  lemma ExitedFit(st: Stages, workers: nat, steps: seq<Step>)
    requires workers > 0 && AllExited(Run(st, workers, steps))
    ensures ItemsDue(Run(st, workers, steps)) <= OUT_QUEUE_SIZE
  {
    var s := Run(st, workers, steps);
    ExitedLastHolds(st, workers, steps);
    assert s.workers[0] in s.workers;
    ExitedOweNothing(s.workers);
    QueuesAreBounded(st, workers, steps);
  }

  lemma OneIsDue(s: State, w: nat)
    requires w < |s.workers| && s.workers[w].Released?
    ensures |s.outQueue| < ItemsDue(s)
  {
    SumWithout(Unfinished(), s.workers, w);
  }

  /** While what is due fits, a worker can go on by itself. */
  lemma WorkersGoOnAlone(st: Stages, s: State) returns (step: Step)
    requires s.closed && !AllExited(s) && ItemsDue(s) <= OUT_QUEUE_SIZE
    ensures step.Work? && Enabled(st, s, step)
  {
    var w :| 0 <= w < |s.workers| && !s.workers[w].Exited?;
    if s.workers[w].Idle? {
      step := Work(w, if s.rawQueue == [] then Exit else Receive);
    } else {
      if s.workers[w].Released? {
        OneIsDue(s, w);
      }
      var action := BusyWorkerGoesOn(st, s, w);
      step := Work(w, action);
    }
  }

  lemma {:induction false} AllExitAlone(st: Stages, workers: nat, steps: seq<Step>) returns (more: seq<Step>)
    requires Run(st, workers, steps).closed && ItemsDue(Run(st, workers, steps)) <= OUT_QUEUE_SIZE
    ensures NoConsume(more) && AllExited(Run(st, workers, steps + more))
    decreases WorkLeft(Run(st, workers, steps))
  {
    var s := Run(st, workers, steps);
    if AllExited(s) {
      more := [];
      assert steps + more == steps;
    } else {
      var step := WorkersGoOnAlone(st, s);
      RunOneMore(st, workers, steps, step);
      ClosedWorkShrinks(st, s, step);
      StepKeepsItemsDue(st, s, step);
      var rest := AllExitAlone(st, workers, steps + [step]);
      more := [step] + rest;
      assert steps + more == steps + [step] + rest;
    }
  }

  ghost predicate ReturnsAlone(st: Stages, workers: nat, steps: seq<Step>) {
    exists more :: NoConsume(more) && AllExited(Run(st, workers, steps + more))
  }

  /**
   * Close returns without a receiver exactly when all items still due, with those already in the
   * output queue, fit into it. Otherwise the workers wait for ever.
   */
  lemma CloseReturnsAloneIff(st: Stages, workers: nat, steps: seq<Step>)
    requires workers > 0 && Run(st, workers, steps).closed
    ensures ReturnsAlone(st, workers, steps) <==> ItemsDue(Run(st, workers, steps)) <= 20000
  {
    if ReturnsAlone(st, workers, steps) {
      var more :| NoConsume(more) && AllExited(Run(st, workers, steps + more));
      ItemsDueStay(st, workers, steps, more);
      ExitedFit(st, workers, steps + more);
    }
    if ItemsDue(Run(st, workers, steps)) <= OUT_QUEUE_SIZE {
      var more := AllExitAlone(st, workers, steps);
    }
  }
}
