/**
 * SearchTerm while the batch loop keeps running: every access to the hot index and to the
 * store is one step, and steps of the loop fall between them in any order.
 */
module ConcurrentSearch {
  import opened Bytes
  import opened Seqs
  import opened Schema
  import opened Store
  import opened MemIndex
  import opened Ingest
  import opened BatchLoop
  import opened LoopInvariant
  import opened Search
  import opened Consistency

  datatype Params = Params(hot: bool, term: bytes, start: int64, end: int64, limit: int)

  /** What fetchLog has collected: identities and texts returned so far, identities asked for. */
  datatype Collected = Collected(found: seq<RecordId>, texts: seq<bytes>, seen: set<RecordId>)

  /** `origin` records the state of the loop when the search began. */
  datatype Progress =
    | Idle
    | Hot(origin: State, todo: seq<RecordId>, got: Collected)   // postings still to be fetched
    | Disk(origin: State, keys: seq<bytes>, got: Collected)     // what the iterator has left of its snapshot
    | Done(origin: State, got: Collected)

  datatype System = System(s: State, q: Progress)

  datatype Step =
    | LoopStep(e: Event)
    | Begin              // MemoryIndex.Query: a copy of the matching postings
    | FetchPosting       // one turn of the first loop
    | OpenIterator       // a snapshot of the key range
    | NextKey            // one turn of the second loop, or its end

  function Fetch(kv: KV, got: Collected, id: RecordId): Collected {
    if id in got.seen then got
    else if LogKey(id) in kv then Collected(got.found + [id], got.texts + [kv[LogKey(id)]], got.seen + {id})
    else got.(seen := got.seen + {id})
  }

  /** Whether this fetch was successful and filled the answer up. */
  predicate FilledUp(p: Params, before: Collected, after: Collected) {
    |after.found| > |before.found| && |after.found| >= EffectiveLimit(p.limit)
  }

  function StepPosting(p: Params, kv: KV, q: Progress): Progress
    requires q.Hot? && q.todo != []
  {
    var got := Fetch(kv, q.got, q.todo[0]);
    if FilledUp(p, q.got, got) then Done(q.origin, got) else Hot(q.origin, q.todo[1..], got)
  }

  function StepKey(p: Params, kv: KV, q: Progress): Progress
    requires q.Disk?
  {
    if q.keys == [] then Done(q.origin, q.got)
    else match DecodeIndexKey(q.keys[0])
      case None => q.(keys := q.keys[1..])
      case Some(entry) =>
        if entry.id.ts < p.start then q.(keys := q.keys[1..])
        else if entry.id.ts > p.end then Done(q.origin, q.got)
        else
          var got := Fetch(kv, q.got, entry.id);
          if FilledUp(p, q.got, got) then Done(q.origin, got) else Disk(q.origin, q.keys[1..], got)
  }

  /** One step; a restart ends the search as well. Steps that are not enabled change nothing. */
  ghost function StepOf(r: Reading, p: Params, sys: System, step: Step): System {
    var (s, q) := (sys.s, sys.q);
    match step
    case LoopStep(e) => System(Next(Worker(r), s, e), if e.Restart? then Idle else q)
    case Begin =>
      if q.Idle? then System(s, Hot(s, HotMatches(Tier(s, p.hot), p.term, p.start, p.end), Collected([], [], {})))
      else sys
    case FetchPosting => if q.Hot? && q.todo != [] then System(s, StepPosting(p, s.core.store, q)) else sys
    case OpenIterator =>
      if q.Hot? && q.todo == [] then System(s, Disk(q.origin, RangeKeys(s.core.store, TermPrefix(p.term)), q.got))
      else sys
    case NextKey => if q.Disk? then System(s, StepKey(p, s.core.store, q)) else sys
  }

  ghost function RunSystem(r: Reading, p: Params, steps: seq<Step>): System {
    if steps == [] then System(Init(), Idle)
    else StepOf(r, p, RunSystem(r, p, steps[..|steps| - 1]), steps[|steps| - 1])
  }

  // ---------------------------------------------------------------- the loop's side

  /** What a later state of the loop keeps of an earlier one of the same process. */
  ghost predicate Later(a: State, b: State) {
    a.committed <= b.committed && a.received <= b.received
  }

  lemma NextIsLater(make: Maker, s: State, e: Event)
    ensures Later(s, Next(make, s, e))
  {
  }

  lemma StepKeepsInv(r: Reading, p: Params, sys: System, step: Step)
    requires Inv(Worker(r), sys.s)
    ensures Inv(Worker(r), StepOf(r, p, sys, step).s)
  {
    if step.LoopStep? { InvKept(Worker(r), sys.s, step.e); }
  }

  lemma {:induction false} SystemLoopInv(r: Reading, p: Params, steps: seq<Step>)
    ensures Inv(Worker(r), RunSystem(r, p, steps).s)
  {
    if steps != [] {
      var sys, step := RunSystem(r, p, steps[..|steps| - 1]), steps[|steps| - 1];
      SystemLoopInv(r, p, steps[..|steps| - 1]);
      StepKeepsInv(r, p, sys, step);
    } else {
      InvHolds(Worker(r), []);
    }
  }

  // ---------------------------------------------------------------- what a search keeps

  /** A received line of this identity with this term; it need not be committed. */
  ghost predicate HasLine(r: Reading, p: Params, s: State, id: RecordId) {
    InWindow(id, p.start, p.end) && exists l :: l in s.received && r.id(l) == id && p.term in r.terms(l)
  }

  /** The text is that of a committed line of this identity. */
  ghost predicate IsTextOf(r: Reading, s: State, id: RecordId, text: bytes) {
    exists l :: l in s.committed && r.id(l) == id && r.text(l) == text
  }

  /** Every returned record has a line and a committed text, and none is returned twice. */
  ghost predicate Sound(r: Reading, p: Params, s: State, got: Collected) {
    && Distinct(got.found) && |got.texts| == |got.found| <= EffectiveLimit(p.limit)
    && (forall i :: 0 <= i < |got.found| ==>
          && got.found[i] in got.seen
          && HasLine(r, p, s, got.found[i])
          && IsTextOf(r, s, got.found[i], got.texts[i]))
  }

  /** A line that was committed at the start and asked for was also found. */
  ghost predicate Complete(r: Reading, origin: State, got: Collected) {
    forall l :: l in origin.committed && r.id(l) in got.seen ==> r.id(l) in got.found
  }

  /** Nothing of the window is left that was committed at the start and not asked for. */
  ghost predicate AllSeen(r: Reading, p: Params, origin: State, got: Collected) {
    forall l :: l in origin.committed && Matches(r, l, p.term, p.start, p.end) ==> r.id(l) in got.seen
  }

  ghost predicate Progressing(r: Reading, p: Params, s: State, q: Progress) {
    q.Idle? || (
      && Later(q.origin, s)
      && Sound(r, p, s, q.got)
      && Complete(r, q.origin, q.got)
      && (!q.Done? ==> |q.got.found| < EffectiveLimit(p.limit))
      && match q
         case Hot(_, todo, _) => forall id :: id in todo ==> HasLine(r, p, s, id)
         case Disk(origin, keys, got) => DiskLeft(r, p, s, origin, keys, got)
         case Done(origin, got) => |got.found| < EffectiveLimit(p.limit) ==> AllSeen(r, p, origin, got)
    )
  }

  /** What is left of the snapshot: sorted, of this term, and all that is not yet asked for. */
  ghost predicate DiskLeft(r: Reading, p: Params, s: State, origin: State, keys: seq<bytes>, got: Collected) {
    && Sorted(keys)
    && (forall k :: k in keys ==> HasPrefix(TermPrefix(p.term), k) && k in s.core.store)
    && (forall l :: l in origin.committed && Matches(r, l, p.term, p.start, p.end) ==>
          r.id(l) in got.seen || IndexKey(p.term, r.id(l)) in keys)
  }

  // ---------------------------------------------------------------- steps of the loop

  lemma SoundLater(r: Reading, p: Params, a: State, b: State, got: Collected)
    requires Later(a, b) && Sound(r, p, a, got)
    ensures Sound(r, p, b, got)
  {
    forall l | l in a.received ensures l in b.received { InPrefix(a.received, b.received, l); }
    forall l | l in a.committed ensures l in b.committed { InPrefix(a.committed, b.committed, l); }
    forall i | 0 <= i < |got.found|
      ensures HasLine(r, p, b, got.found[i]) && IsTextOf(r, b, got.found[i], got.texts[i])
    {
      HasLineLater(r, p, a, b, got.found[i]);
      var l :| l in a.committed && r.id(l) == got.found[i] && r.text(l) == got.texts[i];
      assert l in b.committed;
    }
  }

  lemma InPrefix<T>(a: seq<T>, b: seq<T>, x: T)
    requires a <= b && x in a
    ensures x in b
  {
    var i :| 0 <= i < |a| && a[i] == x;
    assert b[i] == x;
  }

  lemma HasLineLater(r: Reading, p: Params, a: State, b: State, id: RecordId)
    requires Later(a, b) && HasLine(r, p, a, id)
    ensures HasLine(r, p, b, id)
  {
    var l :| l in a.received && r.id(l) == id && p.term in r.terms(l);
    InPrefix(a.received, b.received, l);
  }

  lemma StoreGrows(r: Reading, a: State, b: State, key: bytes)
    requires Inv(Worker(r), a) && Inv(Worker(r), b) && Later(a, b) && key in a.core.store
    ensures key in b.core.store
  {
    StoreContents(Worker(r), a.committed, key);
    StoreContents(Worker(r), b.committed, key);
    var l :| l in a.committed && (key == Worker(r)(l).logKey || key in Worker(r)(l).termKeys);
    InPrefix(a.committed, b.committed, l);
  }

  lemma LaterKeepsProgress(r: Reading, p: Params, a: State, b: State, q: Progress)
    requires Inv(Worker(r), a) && Inv(Worker(r), b) && Later(a, b) && Progressing(r, p, a, q)
    ensures Progressing(r, p, b, q)
  {
    if !q.Idle? {
      SoundLater(r, p, a, b, q.got);
      if q.Hot? {
        forall id | id in q.todo ensures HasLine(r, p, b, id) { HasLineLater(r, p, a, b, id); }
      }
      if q.Disk? {
        forall k | k in q.keys ensures k in b.core.store { StoreGrows(r, a, b, k); }
      }
    }
  }

  // ---------------------------------------------------------------- steps of the search

  lemma FetchKeeps(r: Reading, p: Params, s: State, origin: State, got: Collected, id: RecordId)
    requires Inv(Worker(r), s) && Later(origin, s) && HasLine(r, p, s, id)
    requires Sound(r, p, s, got) && Complete(r, origin, got) && |got.found| < EffectiveLimit(p.limit)
    ensures var after := Fetch(s.core.store, got, id);
            && Sound(r, p, s, after) && Complete(r, origin, after)
            && after.seen == got.seen + {id}
            && (|after.found| < EffectiveLimit(p.limit) <==> !FilledUp(p, got, after))
  {
    LogKeyStored(r, s.committed, id);
    StoredText(r, s.committed, id);
    forall l | l in origin.committed ensures l in s.committed { InPrefix(origin.committed, s.committed, l); }
    var after := Fetch(s.core.store, got, id);
    if id !in got.seen && LogKey(id) in s.core.store {
      assert IsTextOf(r, s, id, s.core.store[LogKey(id)]);
      forall i | 0 <= i < |got.found| ensures got.found[i] != id { assert got.found[i] in got.seen; }
    }
  }

  lemma BeginProgress(r: Reading, p: Params, s: State)
    requires ValidReading(r) && Inv(Worker(r), s) && NulFree(p.term)
    ensures Progressing(r, p, s, Hot(s, HotMatches(Tier(s, p.hot), p.term, p.start, p.end), Collected([], [], {})))
  {
    forall id | id in HotMatches(Tier(s, p.hot), p.term, p.start, p.end) ensures HasLine(r, p, s, id) {
      WindowElements(PostingsOf(s.core.mem, p.term), p.start, p.end, id);
      HotPostingHasLine(r, s, p.term, id);
    }
  }

  lemma PostingProgress(r: Reading, p: Params, s: State, q: Progress)
    requires Inv(Worker(r), s) && Progressing(r, p, s, q) && q.Hot? && q.todo != []
    ensures Progressing(r, p, s, StepPosting(p, s.core.store, q))
  {
    assert q.todo[0] in q.todo;
    FetchKeeps(r, p, s, q.origin, q.got, q.todo[0]);
  }

  lemma OpenProgress(r: Reading, p: Params, s: State, q: Progress)
    requires ValidReading(r) && Inv(Worker(r), s) && NulFree(p.term)
    requires Progressing(r, p, s, q) && q.Hot? && q.todo == []
    ensures Progressing(r, p, s, Disk(q.origin, RangeKeys(s.core.store, TermPrefix(p.term)), q.got))
  {
    var keys := RangeKeys(s.core.store, TermPrefix(p.term));
    forall k ensures k in keys <==> k in s.core.store && HasPrefix(TermPrefix(p.term), k) {
      RangeIsPrefix(TermPrefix(p.term), k);
    }
    forall l | l in q.origin.committed && Matches(r, l, p.term, p.start, p.end)
      ensures IndexKey(p.term, r.id(l)) in keys
    {
      InPrefix(q.origin.committed, s.committed, l);
      IndexKeyStored(r, s.committed, p.term, r.id(l));
      assert IndexKey(p.term, r.id(l))[..|p.term| + 2] == TermPrefix(p.term);
    }
  }

  /** A key of the snapshot that decodes is the entry of a committed line. */
  lemma SnapshotEntry(r: Reading, p: Params, s: State, key: bytes)
    requires ValidReading(r) && Inv(Worker(r), s) && NulFree(p.term)
    requires key in s.core.store && HasPrefix(TermPrefix(p.term), key) && DecodeIndexKey(key).Some?
    ensures var id := DecodeIndexKey(key).value.id;
            key == IndexKey(p.term, id) && exists l :: l in s.received && r.id(l) == id && p.term in r.terms(l)
  {
    var id := DecodeIndexKey(key).value.id;
    RangeOfTerm(p.term, key);
    DecodedKeyIsEncoding(key);
    IndexKeyStored(r, s.committed, p.term, id);
    var l :| l in s.committed && r.id(l) == id && p.term in r.terms(l);
    CommittedWasReceived(s, l);
  }

  /** Keys after one that is past the window are not of the window. */
  lemma NothingAfterBreak(r: Reading, p: Params, s: State, keys: seq<bytes>, id: RecordId)
    requires ValidReading(r) && Inv(Worker(r), s) && NulFree(p.term) && WellTimed(r, s, p.start)
    requires Sorted(keys) && keys != [] && keys[0] in s.core.store && HasPrefix(TermPrefix(p.term), keys[0])
    requires DecodeIndexKey(keys[0]).Some? && Breaks(DecodeIndexKey(keys[0]).value.id, p.start, p.end)
    requires IndexKey(p.term, id) in keys && IndexKey(p.term, id) in s.core.store
    ensures !InWindow(id, p.start, p.end)
  {
    var first := DecodeIndexKey(keys[0]).value.id;
    SnapshotEntry(r, p, s, keys[0]);
    DecodeOfEncoding(p.term, id);
    assert IndexKey(p.term, id)[..|p.term| + 2] == TermPrefix(p.term);
    SnapshotEntry(r, p, s, IndexKey(p.term, id));
    var i :| 0 <= i < |keys| && keys[i] == IndexKey(p.term, id);
    if i > 0 {
      IndexKeyOrderUnsigned(p.term, first, p.term, id);
      SuffixOrder(first, id);
    }
  }

  lemma KeyProgress(r: Reading, p: Params, s: State, q: Progress)
    requires ValidReading(r) && Inv(Worker(r), s) && NulFree(p.term) && WellTimed(r, s, p.start)
    requires Progressing(r, p, s, q) && q.Disk?
    ensures Progressing(r, p, s, StepKey(p, s.core.store, q))
  {
    if q.keys != [] {
      var key, rest := q.keys[0], q.keys[1..];
      assert key in q.keys;
      assert forall k :: k in q.keys <==> k == key || k in rest;
      assert Sorted(rest);
      if DecodeIndexKey(key).None? {
        forall id ensures IndexKey(p.term, id) != key { DecodeOfEncoding(p.term, id); }
        assert DiskLeft(r, p, s, q.origin, rest, q.got);
      } else {
        EntryProgress(r, p, s, q);
      }
    }
  }

  lemma EntryProgress(r: Reading, p: Params, s: State, q: Progress)
    requires ValidReading(r) && Inv(Worker(r), s) && NulFree(p.term) && WellTimed(r, s, p.start)
    requires Progressing(r, p, s, q) && q.Disk? && q.keys != [] && DecodeIndexKey(q.keys[0]).Some?
    ensures Progressing(r, p, s, StepKey(p, s.core.store, q))
  {
    var key, rest := q.keys[0], q.keys[1..];
    var id := DecodeIndexKey(key).value.id;
    assert key in q.keys;
    assert forall k :: k in q.keys <==> k == key || k in rest;
    SnapshotEntry(r, p, s, key);
    forall other ensures IndexKey(p.term, other) == key <==> other == id { IndexKeyInjective(p.term, other, p.term, id); }
    if id.ts < p.start {
      assert DiskLeft(r, p, s, q.origin, rest, q.got);
    } else if id.ts > p.end {
      BreakSeesAll(r, p, s, q);
    } else {
      FetchKeeps(r, p, s, q.origin, q.got, id);
      assert DiskLeft(r, p, s, q.origin, rest, Fetch(s.core.store, q.got, id));
    }
  }

  lemma BreakSeesAll(r: Reading, p: Params, s: State, q: Progress)
    requires ValidReading(r) && Inv(Worker(r), s) && NulFree(p.term) && WellTimed(r, s, p.start)
    requires Progressing(r, p, s, q) && q.Disk? && q.keys != [] && DecodeIndexKey(q.keys[0]).Some?
    requires Breaks(DecodeIndexKey(q.keys[0]).value.id, p.start, p.end)
    ensures AllSeen(r, p, q.origin, q.got)
  {
    assert q.keys[0] in q.keys;
    forall l | l in q.origin.committed && Matches(r, l, p.term, p.start, p.end) ensures r.id(l) in q.got.seen {
      if IndexKey(p.term, r.id(l)) in q.keys {
        NothingAfterBreak(r, p, s, q.keys, r.id(l));
      }
    }
  }

  // ---------------------------------------------------------------- every interleaving

  lemma StepKeepsProgress(r: Reading, p: Params, sys: System, step: Step)
    requires ValidReading(r) && NulFree(p.term) && Inv(Worker(r), sys.s)
    requires WellTimed(r, StepOf(r, p, sys, step).s, p.start)
    requires Progressing(r, p, sys.s, sys.q)
    ensures Progressing(r, p, StepOf(r, p, sys, step).s, StepOf(r, p, sys, step).q)
  {
    match step
    case LoopStep(e) =>
      InvKept(Worker(r), sys.s, e);
      NextIsLater(Worker(r), sys.s, e);
      LaterKeepsProgress(r, p, sys.s, Next(Worker(r), sys.s, e), sys.q);
    case Begin => if sys.q.Idle? { BeginProgress(r, p, sys.s); }
    case FetchPosting => if sys.q.Hot? && sys.q.todo != [] { PostingProgress(r, p, sys.s, sys.q); }
    case OpenIterator => if sys.q.Hot? && sys.q.todo == [] { OpenProgress(r, p, sys.s, sys.q); }
    case NextKey => if sys.q.Disk? { KeyProgress(r, p, sys.s, sys.q); }
  }

  lemma ReceivedGrows(r: Reading, p: Params, sys: System, step: Step)
    ensures Later(sys.s, StepOf(r, p, sys, step).s)
  {
    if step.LoopStep? { NextIsLater(Worker(r), sys.s, step.e); }
  }

  lemma {:induction false} ProgressHolds(r: Reading, p: Params, steps: seq<Step>)
    requires ValidReading(r) && NulFree(p.term) && WellTimed(r, RunSystem(r, p, steps).s, p.start)
    ensures var sys := RunSystem(r, p, steps); Progressing(r, p, sys.s, sys.q)
  {
    if steps != [] {
      var front := steps[..|steps| - 1];
      var sys := RunSystem(r, p, front);
      ReceivedGrows(r, p, sys, steps[|steps| - 1]);
      WellTimedBefore(r, sys.s, RunSystem(r, p, steps).s, p.start);
      ProgressHolds(r, p, front);
      SystemLoopInv(r, p, front);
      StepKeepsProgress(r, p, sys, steps[|steps| - 1]);
    }
  }

  lemma WellTimedBefore(r: Reading, a: State, b: State, start: int64)
    requires Later(a, b) && WellTimed(r, b, start)
    ensures WellTimed(r, a, start)
  {
    forall l | l in a.received ensures l in b.received { InPrefix(a.received, b.received, l); }
  }

  /** This answer is the text of a committed line of the window that contains the term. */
  ghost predicate Returns(r: Reading, p: Params, s: State, id: RecordId, text: bytes) {
    exists l :: l in s.committed && Matches(r, l, p.term, p.start, p.end) && r.id(l) == id && r.text(l) == text
  }

  /**
   * The sandwich: however the steps of the loop and of one search are interleaved, the search
   * returns each record once, only records of matching lines committed by its end, and, if it
   * stays below its limit, every record of a matching line committed before its start.
   */
  lemma Sandwich(r: Reading, p: Params, steps: seq<Step>)
    requires ValidReading(r) && NulFree(p.term)
    requires RunSystem(r, p, steps).q.Done?
    requires var s := RunSystem(r, p, steps).s; DistinctIds(r, s.received) && WellTimed(r, s, p.start)
    ensures var s, q := RunSystem(r, p, steps).s, RunSystem(r, p, steps).q;
            && Distinct(q.got.found)
            && |q.got.texts| == |q.got.found| <= (if p.limit > 0 then p.limit else 50)
            && (forall i :: 0 <= i < |q.got.found| ==> Returns(r, p, s, q.got.found[i], q.got.texts[i]))
            && (|q.got.found| < (if p.limit > 0 then p.limit else 50) ==>
                  forall l :: l in q.origin.committed && Matches(r, l, p.term, p.start, p.end) ==> r.id(l) in q.got.found)
            && q.origin.committed <= s.committed
  {
    var s, q := RunSystem(r, p, steps).s, RunSystem(r, p, steps).q;
    ProgressHolds(r, p, steps);
    SystemLoopInv(r, p, steps);
    forall i | 0 <= i < |q.got.found| ensures Returns(r, p, s, q.got.found[i], q.got.texts[i]) {
      SoundAnswer(r, p, s, q.got.found[i], q.got.texts[i]);
    }
  }

  lemma SoundAnswer(r: Reading, p: Params, s: State, id: RecordId, text: bytes)
    requires Inv(Worker(r), s) && DistinctIds(r, s.received)
    requires HasLine(r, p, s, id) && IsTextOf(r, s, id, text)
    ensures Returns(r, p, s, id, text)
  {
    var l :| l in s.received && r.id(l) == id && p.term in r.terms(l);
    var c :| c in s.committed && r.id(c) == id && r.text(c) == text;
    CommittedWasReceived(s, c);
    SameIdSameLine(r, s.received, l, c);
  }

  // ---------------------------------------------------------------- without interference

  /** The turns of the first loop, with nothing in between. */
  function QuietHot(p: Params, kv: KV, q: Progress): Progress
    decreases if q.Hot? then |q.todo| else 0
  {
    if q.Hot? && q.todo != [] then QuietHot(p, kv, StepPosting(p, kv, q)) else q
  }

  /** The turns of the second loop, with nothing in between. */
  function QuietDisk(p: Params, kv: KV, q: Progress): Progress
    decreases if q.Disk? then |q.keys| + 1 else 0
  {
    if q.Disk? then QuietDisk(p, kv, StepKey(p, kv, q)) else q
  }

  /** A whole search that no step of the loop interrupts. */
  ghost function QuietSearch(p: Params, s: State): Progress {
    var q := QuietHot(p, s.core.store, Hot(s, HotMatches(Tier(s, p.hot), p.term, p.start, p.end), Collected([], [], {})));
    if q.Hot? then
      QuietDisk(p, s.core.store, Disk(s, RangeKeys(s.core.store, TermPrefix(p.term)), q.got))
    else q
  }

  ghost predicate Asked(kv: KV, ids: seq<RecordId>, got: Collected) {
    got.found == Answer(kv, ids) && Fetched(kv, ids, got.texts, got.seen)
  }

  lemma FetchAsked(kv: KV, ids: seq<RecordId>, got: Collected, id: RecordId)
    requires Asked(kv, ids, got)
    ensures Asked(kv, ids + [id], Fetch(kv, got, id))
  {
    FetchOneMore(kv, ids, got.texts, got.seen, id);
    AnswerOfOneMore(kv, ids, id);
    assert id in ids ==> got.seen + {id} == got.seen;
  }

  lemma {:induction false} QuietHotAsks(p: Params, kv: KV, q: Progress, ids: seq<RecordId>) returns (asked: seq<RecordId>)
    requires q.Hot? && Asked(kv, ids, q.got) && |q.got.found| < EffectiveLimit(p.limit)
    ensures var after := QuietHot(p, kv, q);
            && !after.Idle? && Asked(kv, asked, after.got) && asked <= ids + q.todo
            && (if after.Hot? then asked == ids + q.todo && |after.got.found| < EffectiveLimit(p.limit)
                else after.Done? && |after.got.found| == EffectiveLimit(p.limit))
    decreases |q.todo|
  {
    if q.todo == [] {
      asked := ids;
      assert ids + q.todo == ids;
    } else {
      var next := StepPosting(p, kv, q);
      FetchAsked(kv, ids, q.got, q.todo[0]);
      assert ids + q.todo == ids + [q.todo[0]] + q.todo[1..];
      if next.Hot? {
        asked := QuietHotAsks(p, kv, next, ids + [q.todo[0]]);
      } else {
        asked := ids + [q.todo[0]];
      }
    }
  }

  lemma {:induction false} QuietDiskAsks(p: Params, kv: KV, q: Progress, keys: seq<bytes>, i: nat,
                                        hot: seq<RecordId>, scanned: seq<RecordId>) returns (asked: seq<RecordId>)
    requires q.Disk? && Scanning(keys, i, p.start, p.end, scanned) && q.keys == keys[i..]
    requires Asked(kv, hot + scanned, q.got) && |q.got.found| < EffectiveLimit(p.limit)
    ensures var after := QuietDisk(p, kv, q);
            && after.Done? && Asked(kv, hot + asked, after.got)
            && asked <= Scan(EntryIds(keys), p.start, p.end)
            && (|after.got.found| == EffectiveLimit(p.limit) ||
                (|after.got.found| < EffectiveLimit(p.limit) && asked == Scan(EntryIds(keys), p.start, p.end)))
    decreases |q.keys|
  {
    asked := scanned;
    if q.keys != [] {
      var next := StepKey(p, kv, q);
      var entry := DecodeIndexKey(keys[i]);
      OneMoreKey(keys, i, p.start, p.end, scanned);
      assert q.keys[0] == keys[i] && q.keys[1..] == keys[i + 1..];
      if entry.None? || entry.value.id.ts < p.start {
        asked := QuietDiskAsks(p, kv, next, keys, i + 1, hot, scanned);
      } else if entry.value.id.ts <= p.end {
        FetchAsked(kv, hot + scanned, q.got, entry.value.id);
        ConcatAssociative(hot, scanned, [entry.value.id]);
        asked := scanned + [entry.value.id];
        if next.Disk? {
          asked := QuietDiskAsks(p, kv, next, keys, i + 1, hot, asked);
        }
      }
    }
  }

  /** The second loop, from the opening of the iterator on. */
  lemma QuietScan(p: Params, s: State, hot: seq<RecordId>, got: Collected) returns (asked: seq<RecordId>)
    requires Asked(s.core.store, hot, got) && |got.found| < EffectiveLimit(p.limit)
    ensures var keys := RangeKeys(s.core.store, TermPrefix(p.term));
            var after := QuietDisk(p, s.core.store, Disk(s, keys, got));
            && after.Done? && Asked(s.core.store, hot + asked, after.got)
            && asked <= Scan(EntryIds(keys), p.start, p.end)
            && (|after.got.found| == EffectiveLimit(p.limit) ||
                (|after.got.found| < EffectiveLimit(p.limit) && asked == Scan(EntryIds(keys), p.start, p.end)))
  {
    var keys := RangeKeys(s.core.store, TermPrefix(p.term));
    assert keys[..0] == [] && keys[0..] == keys && hot + [] == hot;
    asked := QuietDiskAsks(p, s.core.store, Disk(s, keys, got), keys, 0, hot, []);
  }

  /** The steps are those of SearchTerm: uninterrupted, they return what SearchTerm returns. */
  lemma QuietSearchIsSearchTerm(p: Params, s: State)
    ensures var q, kv := QuietSearch(p, s), s.core.store;
            q.Done? && q.got.texts == Take(EffectiveLimit(p.limit),
              Map(Reader(kv), Found(kv, Tier(s, p.hot), p.term, p.start, p.end)))
  {
    var kv := s.core.store;
    var hot := HotMatches(Tier(s, p.hot), p.term, p.start, p.end);
    var scan := Scan(Entries(kv, p.term), p.start, p.end);
    var q := Hot(s, hot, Collected([], [], {}));
    var asked := QuietHotAsks(p, kv, q, []);
    var after := QuietHot(p, kv, q);
    assert [] + hot == hot;
    if after.Hot? {
      var more := QuietScan(p, s, hot, after.got);
      asked := hot + more;
    }
    var got := QuietSearch(p, s).got;
    LoopsCollect(kv, hot, scan, asked, got.texts, got.seen, EffectiveLimit(p.limit));
  }
}
