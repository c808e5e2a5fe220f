/**
 * When a search beside the running loop is atomic. What a run returns is computed exactly from
 * the state in which the iterator was opened and from what the memory phase had asked for.
 */
module Atomicity {
  import opened Bytes
  import opened Seqs
  import opened Schema
  import opened Store
  import opened MemIndex
  import opened Ingest
  import opened BatchLoop
  import opened LoopInvariant
  import opened Search
  import opened Consistency
  import opened ConcurrentSearch

  /** What grep finds in a state of the loop, as identities. */
  function GrepIds(r: Reading, p: Params, s: State): seq<RecordId> {
    Map(r.id, Grep(r, s.committed, p.term, p.start, p.end))
  }

  /** A snapshot of this state offers the identity to the scan. */
  ghost predicate Offered(p: Params, o: State, id: RecordId) {
    InWindow(id, p.start, p.end) && IndexKey(p.term, id) in o.core.store
  }

  lemma OfferedIsGrep(r: Reading, p: Params, o: State, id: RecordId)
    requires ValidReading(r) && Inv(Worker(r), o) && NulFree(p.term)
    ensures Offered(p, o, id) <==> id in GrepIds(r, p, o)
  {
    IndexKeyStored(r, o.committed, p.term, id);
    IdsOfGrep(r, o.committed, p.term, p.start, p.end, id);
  }

  lemma OfferedIsStored(r: Reading, p: Params, o: State, s: State, id: RecordId)
    requires ValidReading(r) && NulFree(p.term) && Inv(Worker(r), o) && Inv(Worker(r), s) && Later(o, s)
    requires Offered(p, o, id)
    ensures LogKey(id) in s.core.store
  {
    IndexKeyStored(r, o.committed, p.term, id);
    LogKeyStored(r, o.committed, id);
    StoreGrows(r, o, s, LogKey(id));
  }

  lemma RunSystemOneMore(r: Reading, p: Params, steps: seq<Step>, step: Step)
    ensures RunSystem(r, p, steps + [step]) == StepOf(r, p, RunSystem(r, p, steps), step)
  {
    assert (steps + [step])[..|steps|] == steps;
  }

  // ---------------------------------------------------------------- the scan, exactly

  /** The keys still to come are of the snapshot; all other offers were asked for. */
  ghost predicate Left(p: Params, o: State, before: Collected, keys: seq<bytes>, got: Collected) {
    && Sorted(keys)
    && (forall k :: k in keys ==> HasPrefix(TermPrefix(p.term), k) && k in o.core.store)
    && (forall id :: id in got.seen <==>
          id in before.seen || (Offered(p, o, id) && IndexKey(p.term, id) !in keys))
    && (forall id :: id in got.found <==>
          id in before.found || (Offered(p, o, id) && id !in before.seen && IndexKey(p.term, id) !in keys))
  }

  /** The answer: what memory gave, and what the snapshot offers and memory was not asked for. */
  ghost predicate Answered(p: Params, o: State, before: Collected, got: Collected) {
    forall id :: id in got.found <==> id in before.found || (Offered(p, o, id) && id !in before.seen)
  }

  ghost predicate ScanState(p: Params, o: State, before: Collected, q: Progress) {
    match q
    case Disk(_, keys, got) => Left(p, o, before, keys, got)
    case Done(_, got) => |got.found| < EffectiveLimit(p.limit) ==> Answered(p, o, before, got)
    case _ => false
  }

  lemma KeyPassed(p: Params, o: State, before: Collected, keys: seq<bytes>, got: Collected)
    requires Left(p, o, before, keys, got) && keys != []
    requires forall id :: IndexKey(p.term, id) == keys[0] ==> !InWindow(id, p.start, p.end)
    ensures Left(p, o, before, keys[1..], got)
  {
    assert forall k :: k in keys <==> k == keys[0] || k in keys[1..];
  }

  lemma KeyFetched(p: Params, kv: KV, o: State, before: Collected, keys: seq<bytes>, got: Collected, id: RecordId)
    requires Left(p, o, before, keys, got) && keys != [] && NulFree(p.term)
    requires keys[0] == IndexKey(p.term, id) && Offered(p, o, id) && LogKey(id) in kv
    ensures Left(p, o, before, keys[1..], Fetch(kv, got, id))
  {
    var rest := keys[1..];
    assert forall k :: k in keys <==> k == keys[0] || k in rest;
    assert keys[0] in keys;
    forall other ensures IndexKey(p.term, other) == keys[0] <==> other == id {
      IndexKeyInjective(p.term, other, p.term, id);
    }
    if keys[0] in rest {
      var j :| 0 <= j < |rest| && rest[j] == keys[0];
      assert Less(keys[0], keys[j + 1]);
      LessIrreflexive(keys[0]);
    }
  }

  lemma ScanEnds(p: Params, o: State, before: Collected, keys: seq<bytes>, got: Collected)
    requires Left(p, o, before, keys, got)
    requires forall id :: IndexKey(p.term, id) in keys ==> !InWindow(id, p.start, p.end)
    ensures Answered(p, o, before, got)
  {
  }

  /** Past a key that is beyond the window, the snapshot offers nothing. */
  lemma NothingLeft(r: Reading, p: Params, o: State, before: Collected, keys: seq<bytes>, got: Collected)
    requires ValidReading(r) && Inv(Worker(r), o) && NulFree(p.term) && WellTimed(r, o, p.start)
    requires Left(p, o, before, keys, got) && keys != [] && DecodeIndexKey(keys[0]).Some?
    requires Breaks(DecodeIndexKey(keys[0]).value.id, p.start, p.end)
    ensures Answered(p, o, before, got)
  {
    assert keys[0] in keys;
    forall id | IndexKey(p.term, id) in keys ensures !InWindow(id, p.start, p.end) {
      NothingAfterBreak(r, p, o, keys, id);
    }
    ScanEnds(p, o, before, keys, got);
  }

  lemma EntryScanned(r: Reading, p: Params, o: State, s: State, before: Collected, q: Progress)
    requires ValidReading(r) && NulFree(p.term) && Inv(Worker(r), o) && Inv(Worker(r), s) && Later(o, s)
    requires WellTimed(r, o, p.start) && q.Disk? && ScanState(p, o, before, q)
    requires q.keys != [] && DecodeIndexKey(q.keys[0]).Some?
    ensures ScanState(p, o, before, StepKey(p, s.core.store, q))
  {
    var key, id := q.keys[0], DecodeIndexKey(q.keys[0]).value.id;
    assert key in q.keys;
    SnapshotEntry(r, p, o, key);
    if id.ts < p.start {
      forall other | IndexKey(p.term, other) == key ensures !InWindow(other, p.start, p.end) {
        IndexKeyInjective(p.term, other, p.term, id);
      }
      KeyPassed(p, o, before, q.keys, q.got);
    } else if id.ts > p.end {
      NothingLeft(r, p, o, before, q.keys, q.got);
    } else {
      OfferedIsStored(r, p, o, s, id);
      KeyFetched(p, s.core.store, o, before, q.keys, q.got, id);
    }
  }

  lemma KeyScanned(r: Reading, p: Params, o: State, s: State, before: Collected, q: Progress)
    requires ValidReading(r) && NulFree(p.term) && Inv(Worker(r), o) && Inv(Worker(r), s) && Later(o, s)
    requires WellTimed(r, o, p.start) && q.Disk? && ScanState(p, o, before, q)
    ensures ScanState(p, o, before, StepKey(p, s.core.store, q))
  {
    if q.keys == [] {
      ScanEnds(p, o, before, q.keys, q.got);
    } else if DecodeIndexKey(q.keys[0]).None? {
      forall id ensures IndexKey(p.term, id) != q.keys[0] { DecodeOfEncoding(p.term, id); }
      KeyPassed(p, o, before, q.keys, q.got);
    } else {
      EntryScanned(r, p, o, s, before, q);
    }
  }

  ghost predicate NoRestart(steps: seq<Step>) {
    forall i :: 0 <= i < |steps| ==> steps[i] != LoopStep(Restart)
  }

  /** The memory phase has ended; the iterator can be opened. */
  ghost predicate ReadyToOpen(q: Progress) {
    q.Hot? && q.todo == []
  }

  lemma Opens(r: Reading, p: Params, o: State, q: Progress)
    requires ReadyToOpen(q) && forall k :: k in RangeKeys(o.core.store, TermPrefix(p.term)) <==>
               k in o.core.store && HasPrefix(TermPrefix(p.term), k)
    ensures Left(p, o, q.got, RangeKeys(o.core.store, TermPrefix(p.term)), q.got)
  {
    forall id ensures HasPrefix(TermPrefix(p.term), IndexKey(p.term, id)) {
      assert IndexKey(p.term, id)[..|p.term| + 2] == TermPrefix(p.term);
    }
  }

  lemma RangeKeysOf(kv: KV, term: bytes)
    ensures forall k :: k in RangeKeys(kv, TermPrefix(term)) <==> k in kv && HasPrefix(TermPrefix(term), k)
  {
    forall k ensures k in RangeKeys(kv, TermPrefix(term)) <==> k in kv && HasPrefix(TermPrefix(term), k) {
      RangeIsPrefix(TermPrefix(term), k);
    }
  }

  /** A whole run: these steps, the iterator is opened, and these steps. */
  function OpenedAfter(steps: seq<Step>, more: seq<Step>): seq<Step> {
    steps + [OpenIterator] + more
  }

  lemma ScanStep(r: Reading, p: Params, o: State, before: Collected, sys: System, step: Step)
    requires ValidReading(r) && NulFree(p.term) && Inv(Worker(r), o) && Inv(Worker(r), sys.s) && Later(o, sys.s)
    requires WellTimed(r, o, p.start) && ScanState(p, o, before, sys.q) && step != LoopStep(Restart)
    ensures var next := StepOf(r, p, sys, step); Later(o, next.s) && ScanState(p, o, before, next.q)
  {
    ReceivedGrows(r, p, sys, step);
    if step.NextKey? && sys.q.Disk? {
      KeyScanned(r, p, o, sys.s, before, sys.q);
    }
  }

  lemma OpenedOneMore(steps: seq<Step>, front: seq<Step>, step: Step)
    ensures OpenedAfter(steps, front + [step]) == OpenedAfter(steps, front) + [step]
  {
  }

  lemma ScanPhaseStep(r: Reading, p: Params, steps: seq<Step>, front: seq<Step>, step: Step)
    requires ValidReading(r) && NulFree(p.term) && step != LoopStep(Restart)
    requires WellTimed(r, RunSystem(r, p, steps).s, p.start) && RunSystem(r, p, steps).q.Hot?
    requires var open, sys := RunSystem(r, p, steps), RunSystem(r, p, OpenedAfter(steps, front));
             Later(open.s, sys.s) && ScanState(p, open.s, open.q.got, sys.q)
    ensures var open, end := RunSystem(r, p, steps), RunSystem(r, p, OpenedAfter(steps, front + [step]));
            Later(open.s, end.s) && ScanState(p, open.s, open.q.got, end.q)
  {
    var open := RunSystem(r, p, steps);
    SystemLoopInv(r, p, steps);
    SystemLoopInv(r, p, OpenedAfter(steps, front));
    ScanStep(r, p, open.s, open.q.got, RunSystem(r, p, OpenedAfter(steps, front)), step);
    RunSystemOneMore(r, p, OpenedAfter(steps, front), step);
    OpenedOneMore(steps, front, step);
  }

  lemma {:induction false} ScanPhase(r: Reading, p: Params, steps: seq<Step>, more: seq<Step>)
    requires ValidReading(r) && NulFree(p.term) && NoRestart(more)
    requires ReadyToOpen(RunSystem(r, p, steps).q) && WellTimed(r, RunSystem(r, p, steps).s, p.start)
    ensures var open, end := RunSystem(r, p, steps), RunSystem(r, p, OpenedAfter(steps, more));
            Later(open.s, end.s) && ScanState(p, open.s, open.q.got, end.q)
  {
    var open := RunSystem(r, p, steps);
    if more == [] {
      assert OpenedAfter(steps, more) == steps + [OpenIterator];
      RunSystemOneMore(r, p, steps, OpenIterator);
      RangeKeysOf(open.s.core.store, p.term);
      Opens(r, p, open.s, open.q);
    } else {
      var front, step := more[..|more| - 1], more[|more| - 1];
      ScanPhase(r, p, steps, front);
      ScanPhaseStep(r, p, steps, front, step);
      assert more == front + [step];
    }
  }

  /**
   * The answer of every run, below its limit: what the memory phase found, and of what grep
   * finds in the state in which the iterator was opened, all that memory was not asked for.
   */
  lemma AnswerOfRun(r: Reading, p: Params, steps: seq<Step>, more: seq<Step>, id: RecordId)
    requires ValidReading(r) && NulFree(p.term) && NoRestart(more)
    requires ReadyToOpen(RunSystem(r, p, steps).q) && WellTimed(r, RunSystem(r, p, steps).s, p.start)
    requires var q := RunSystem(r, p, OpenedAfter(steps, more)).q; q.Done? && |q.got.found| < EffectiveLimit(p.limit)
    ensures var open := RunSystem(r, p, steps);
            id in RunSystem(r, p, OpenedAfter(steps, more)).q.got.found <==>
              id in open.q.got.found || (id in GrepIds(r, p, open.s) && id !in open.q.got.seen)
  {
    ScanPhase(r, p, steps, more);
    SystemLoopInv(r, p, steps);
    OfferedIsGrep(r, p, RunSystem(r, p, steps).s, id);
  }

  // ---------------------------------------------------------------- atomic runs

  ghost predicate SameIds(found: seq<RecordId>, expected: seq<RecordId>) {
    forall id :: id in found <==> id in expected
  }

  /** Memory was asked in vain for an identity that grep finds when the iterator is opened. */
  ghost predicate AskedTooEarly(r: Reading, p: Params, open: System, id: RecordId)
    requires open.q.Hot?
  {
    id in GrepIds(r, p, open.s) && id in open.q.got.seen && id !in open.q.got.found
  }

  lemma MemoryFoundIsGrep(r: Reading, p: Params, steps: seq<Step>, id: RecordId)
    requires ValidReading(r) && NulFree(p.term)
    requires var sys := RunSystem(r, p, steps);
             sys.q.Hot? && id in sys.q.got.found && DistinctIds(r, sys.s.received) && WellTimed(r, sys.s, p.start)
    ensures id in GrepIds(r, p, RunSystem(r, p, steps).s)
  {
    var sys := RunSystem(r, p, steps);
    ProgressHolds(r, p, steps);
    SystemLoopInv(r, p, steps);
    var i :| 0 <= i < |sys.q.got.found| && sys.q.got.found[i] == id;
    SoundAnswer(r, p, sys.s, id, sys.q.got.texts[i]);
    IdsOfGrep(r, sys.s.committed, p.term, p.start, p.end, id);
  }

  /**
   * A run is atomic at the opening of its iterator exactly when memory was asked for nothing too
   * early.
   */
  lemma AtomicAtOpeningIff(r: Reading, p: Params, steps: seq<Step>, more: seq<Step>)
    requires ValidReading(r) && NulFree(p.term) && NoRestart(more)
    requires var open := RunSystem(r, p, steps);
             ReadyToOpen(open.q) && WellTimed(r, open.s, p.start) && DistinctIds(r, open.s.received)
    requires var q := RunSystem(r, p, OpenedAfter(steps, more)).q; q.Done? && |q.got.found| < EffectiveLimit(p.limit)
    ensures var open := RunSystem(r, p, steps);
            SameIds(RunSystem(r, p, OpenedAfter(steps, more)).q.got.found, GrepIds(r, p, open.s)) <==>
            forall id :: !AskedTooEarly(r, p, open, id)
  {
    var open, end := RunSystem(r, p, steps), RunSystem(r, p, OpenedAfter(steps, more));
    forall id
      ensures id in open.q.got.found ==> id in GrepIds(r, p, open.s)
      ensures id in end.q.got.found <==>
                id in open.q.got.found || (id in GrepIds(r, p, open.s) && id !in open.q.got.seen)
    {
      AnswerOfRun(r, p, steps, more, id);
      if id in open.q.got.found {
        MemoryFoundIsGrep(r, p, steps, id);
      }
    }
    assert forall id :: AskedTooEarly(r, p, open, id) <==> id in GrepIds(r, p, open.s) && id !in end.q.got.found;
  }
}
