/** What holds in every run of the worker pool, whatever the interleaving. */
module PoolRuns {
  import opened Bytes
  import opened Sums
  import opened Schema
  import opened Tokenizer
  import opened Ingest
  import opened WorkerPool
  import opened PacketFlow
  import opened BufferOwnership

  // ---------------------------------------------------------------- what workers and items know

  /** An array that is no buffer and holds this content. */
  ghost predicate Private(heap: Heap, buffers: set<Ref>, r: Ref, content: bytes) {
    r in heap && r !in buffers && heap[r] == content
  }

  /** The item's arrays hold the item of its line. */
  ghost predicate ItemOk(st: Stages, heap: Heap, buffers: set<Ref>, item: Item) {
    var made := Made(st, item.line);
    && Private(heap, buffers, item.logKey, made.logKey)
    && Private(heap, buffers, item.logValue, made.logValue)
    && |item.termKeys| == |made.termKeys|
    && forall k :: 0 <= k < |item.termKeys| ==> Private(heap, buffers, item.termKeys[k], made.termKeys[k])
  }

  ghost predicate ParsedOk(st: Stages, p: Packet, now: int64, id: RecordId, lo: nat) {
    var line := Line(p.origin, now);
    && id == st.id(line)
    && lo <= p.size == |p.origin|
    && p.origin[lo..] == st.text(line)
  }

  ghost predicate WorkerOk(st: Stages, heap: Heap, buffers: set<Ref>, w: Worker) {
    match w
    case Parsed(p, now, id, lo) => ParsedOk(st, p, now, id, lo)
    case Copied(p, now, id, lo, k, v) =>
      && ParsedOk(st, p, now, id, lo)
      && Private(heap, buffers, k, LogKey(id))
      && Private(heap, buffers, v, st.text(Line(p.origin, now)))
    case Indexed(p, item) => ItemOk(st, heap, buffers, item) && item.line.data == p.origin
    case Released(item) => ItemOk(st, heap, buffers, item)
    case _ => true
  }

  ghost predicate WorkersOk(st: Stages, s: State) {
    forall w :: 0 <= w < |s.workers| ==> WorkerOk(st, s.heap, s.buffers, s.workers[w])
  }

  ghost predicate ItemsOk(st: Stages, s: State) {
    forall item :: item in s.outQueue || item in s.consumed ==> ItemOk(st, s.heap, s.buffers, item)
  }

  ghost predicate Inv(st: Stages, s: State) {
    Allocated(s) && OneOwner(s) && PacketsIntact(s) && WorkersOk(st, s) && ItemsOk(st, s)
  }

  // ---------------------------------------------------------------- frames

  /** No array that is not a buffer changes or becomes one. */
  ghost predicate Frame(s: State, s': State) {
    forall r :: r in s.heap && r !in s.buffers ==> r in s'.heap && r !in s'.buffers && s'.heap[r] == s.heap[r]
  }

  lemma FrameOfStep(st: Stages, s: State, step: Step)
    requires OneOwner(s) && Enabled(st, s, step)
    ensures Frame(s, Effect(st, s, step))
  {
    BuffersGrow(st, s, step);
    forall r | r in s.heap && r !in s.buffers
      ensures r in Effect(st, s, step).heap && Effect(st, s, step).heap[r] == s.heap[r]
    {
      assert Owners(s, r) == 0;
      ArraysKept(st, s, step, r);
    }
  }

  lemma ItemFramed(st: Stages, s: State, s': State, item: Item)
    requires Frame(s, s') && ItemOk(st, s.heap, s.buffers, item)
    ensures ItemOk(st, s'.heap, s'.buffers, item)
  {
  }

  lemma WorkerFramed(st: Stages, s: State, s': State, w: Worker)
    requires Frame(s, s') && WorkerOk(st, s.heap, s.buffers, w)
    ensures WorkerOk(st, s'.heap, s'.buffers, w)
  {
    if w.Indexed? || w.Released? {
      ItemFramed(st, s, s', w.item);
    }
  }

  // ---------------------------------------------------------------- one step of a worker

  lemma HeldPacketIntact(s: State, w: nat, p: Packet)
    requires PacketsIntact(s) && w < |s.workers| && Held(Is(p), s.workers[w]) == 1
    ensures Intact(s.heap, p) && |p.origin| == p.size
    ensures forall lo :: 0 <= lo <= p.size ==> Slice(s.heap, p, lo) == p.origin[lo..]
  {
    SumWithout(Holding(Is(p)), s.workers, w);
    assert Carried(s, p);
    forall lo | 0 <= lo <= p.size ensures Slice(s.heap, p, lo) == p.origin[lo..] {
      assert s.heap[p.buf][lo..p.size] == s.heap[p.buf][..p.size][lo..];
    }
  }

  lemma ParseOk(st: Stages, s: State, w: nat, now: int64)
    requires TextIsTail(st) && PacketsIntact(s) && ActionEnabled(st, s, w, Parse(now))
    ensures var me := ActionEffect(st, s, w, Parse(now)).workers[w];
            me.Parsed? && ParsedOk(st, me.packet, me.now, me.id, me.lo)
  {
    var p := s.workers[w].packet;
    HeldPacketIntact(s, w, p);
    assert Slice(s.heap, p, 0) == p.origin;
    assert IsTail(st, Line(p.origin, now));
  }

  lemma CopyOk(st: Stages, s: State, w: nat, k: Ref, v: Ref)
    requires WorkersOk(st, s) && PacketsIntact(s) && ActionEnabled(st, s, w, CopyValue(k, v))
    ensures var s' := ActionEffect(st, s, w, CopyValue(k, v)); WorkerOk(st, s'.heap, s'.buffers, s'.workers[w])
  {
    var me := s.workers[w];
    HeldPacketIntact(s, w, me.packet);
    var refs, contents := [k, v], [LogKey(me.id), Slice(s.heap, me.packet, me.lo)];
    StoreHolds(s.heap, refs, contents, 0);
    StoreHolds(s.heap, refs, contents, 1);
    assert Unused(s, refs[0]) && Unused(s, refs[1]);
  }

  lemma EncodeOk(st: Stages, s: State, w: nat, refs: seq<Ref>)
    requires WorkersOk(st, s) && PacketsIntact(s) && OneOwner(s) && ActionEnabled(st, s, w, EncodeKeys(refs))
    ensures var s' := ActionEffect(st, s, w, EncodeKeys(refs)); WorkerOk(st, s'.heap, s'.buffers, s'.workers[w])
  {
    var me := s.workers[w];
    var s' := ActionEffect(st, s, w, EncodeKeys(refs));
    HeldPacketIntact(s, w, me.packet);
    var line := Line(me.packet.origin, me.now);
    assert KeysAt(st, s.heap, me) == Made(st, line).termKeys;
    FrameOfStep(st, s, Work(w, EncodeKeys(refs)));
    forall k | 0 <= k < |refs| ensures Private(s'.heap, s'.buffers, refs[k], Made(st, line).termKeys[k]) {
      StoreHolds(s.heap, refs, KeysAt(st, s.heap, me), k);
      assert Unused(s, refs[k]);
    }
  }

  lemma ActionOk(st: Stages, s: State, w: nat, action: Action)
    requires TextIsTail(st) && Inv(st, s) && ActionEnabled(st, s, w, action)
    ensures var s' := ActionEffect(st, s, w, action); WorkerOk(st, s'.heap, s'.buffers, s'.workers[w])
  {
    match action {
      case Parse(now) => ParseOk(st, s, w, now);
      case CopyValue(k, v) => CopyOk(st, s, w, k, v);
      case EncodeKeys(refs) => EncodeOk(st, s, w, refs);
      case _ =>
    }
  }

  // ---------------------------------------------------------------- every step

  lemma OnlyOneActs(st: Stages, s: State, w: nat, action: Action)
    requires ActionEnabled(st, s, w, action)
    ensures var s' := ActionEffect(st, s, w, action); s'.workers == s.workers[w := s'.workers[w]]
  {
  }

  lemma NoOneActs(st: Stages, s: State, step: Step)
    requires Enabled(st, s, step) && !step.Work?
    ensures Effect(st, s, step).workers == s.workers
  {
  }

  lemma WorkersKept(st: Stages, s: State, step: Step)
    requires TextIsTail(st) && Inv(st, s) && Enabled(st, s, step)
    ensures WorkersOk(st, Effect(st, s, step))
  {
    FrameOfStep(st, s, step);
    if step.Work? {
      ActionOk(st, s, step.w, step.action);
      OnlyOneActs(st, s, step.w, step.action);
    } else {
      NoOneActs(st, s, step);
    }
    WorkersFramed(st, s, Effect(st, s, step), if step.Work? then step.w else |s.workers|);
  }

  /** All workers are fine when one of them is and nothing happened to the others. */
  lemma WorkersFramed(st: Stages, s: State, s': State, one: nat)
    requires Frame(s, s') && WorkersOk(st, s) && |s'.workers| == |s.workers|
    requires forall w :: 0 <= w < |s.workers| && w != one ==> s'.workers[w] == s.workers[w]
    requires one < |s.workers| ==> WorkerOk(st, s'.heap, s'.buffers, s'.workers[one])
    ensures WorkersOk(st, s')
  {
    forall w | 0 <= w < |s'.workers| && w != one ensures WorkerOk(st, s'.heap, s'.buffers, s'.workers[w]) {
      WorkerFramed(st, s, s', s.workers[w]);
    }
  }

  lemma QueuesOfStep(st: Stages, s: State, step: Step)
    requires Enabled(st, s, step)
    ensures var s' := Effect(st, s, step);
            && (forall item :: item in s'.outQueue ==>
                  item in s.outQueue || (step.Work? && s.workers[step.w].Released? && item == s.workers[step.w].item))
            && (forall item :: item in s'.consumed ==> item in s.consumed || item in s.outQueue)
  {
  }

  lemma ItemsKept(st: Stages, s: State, step: Step)
    requires OneOwner(s) && WorkersOk(st, s) && ItemsOk(st, s) && Enabled(st, s, step)
    ensures ItemsOk(st, Effect(st, s, step))
  {
    FrameOfStep(st, s, step);
    QueuesOfStep(st, s, step);
    ItemsFramed(st, s, Effect(st, s, step), if step.Work? then step.w else |s.workers|);
  }

  lemma ItemsFramed(st: Stages, s: State, s': State, one: nat)
    requires Frame(s, s') && WorkersOk(st, s) && ItemsOk(st, s)
    requires forall item :: item in s'.outQueue ==>
               item in s.outQueue || (one < |s.workers| && s.workers[one].Released? && item == s.workers[one].item)
    requires forall item :: item in s'.consumed ==> item in s.consumed || item in s.outQueue
    ensures ItemsOk(st, s')
  {
    assert one < |s.workers| ==> WorkerOk(st, s.heap, s.buffers, s.workers[one]);
    forall item | item in s'.outQueue || item in s'.consumed ensures ItemOk(st, s'.heap, s'.buffers, item) {
      ItemFramed(st, s, s', item);
    }
  }

  lemma InvKept(st: Stages, s: State, step: Step)
    requires TextIsTail(st) && Inv(st, s)
    ensures Inv(st, Next(st, s, step))
  {
    if Enabled(st, s, step) {
      AllocatedKept(st, s, step);
      OneOwnerKept(st, s, step);
      PacketsIntactKept(st, s, step);
      WorkersKept(st, s, step);
      ItemsKept(st, s, step);
    }
  }

  lemma InvAtStart(st: Stages, workers: nat)
    ensures Inv(st, Init(workers))
  {
    forall r ensures Owners(Init(workers), r) == 0 {
      InitHasNoOwners(workers, r);
    }
    forall p ensures !Carried(Init(workers), p) {
      NoneHeld(Is(p), workers);
    }
  }

  lemma {:induction false} InvHolds(st: Stages, workers: nat, steps: seq<Step>)
    requires TextIsTail(st)
    ensures Inv(st, Run(st, workers, steps))
  {
    if steps == [] {
      InvAtStart(st, workers);
    } else {
      InvHolds(st, workers, steps[..|steps| - 1]);
      InvKept(st, Run(st, workers, steps[..|steps| - 1]), steps[|steps| - 1]);
    }
  }

  // ---------------------------------------------------------------- main results

  /** No array is ever in two hands: of the pool, the reader and the packets on their way, at most one has it. */
  lemma BufferHasOneOwner(st: Stages, workers: nat, steps: seq<Step>, r: Ref)
    requires TextIsTail(st)
    ensures Owners(Run(st, workers, steps), r) <= 1
    ensures Owners(Run(st, workers, steps), r) == 1 ==> r in Run(st, workers, steps).buffers
  {
    InvHolds(st, workers, steps);
  }

  /** Wherever a packet is, its buffer holds what was read from the network. */
  lemma PacketKeepsItsBytes(st: Stages, workers: nat, steps: seq<Step>, p: Packet)
    requires TextIsTail(st) && Carried(Run(st, workers, steps), p)
    ensures Intact(Run(st, workers, steps).heap, p)
  {
    InvHolds(st, workers, steps);
  }

  ghost predicate InArrays(heap: Heap, item: Item) {
    item.logKey in heap && item.logValue in heap && forall k :: 0 <= k < |item.termKeys| ==> item.termKeys[k] in heap
  }

  /** What the loop finds in the arrays of an item. */
  ghost function Contents(heap: Heap, item: Item): IndexItem
    requires InArrays(heap, item)
  {
    IndexItem(heap[item.logKey], heap[item.logValue],
              seq(|item.termKeys|, k requires 0 <= k < |item.termKeys| => heap[item.termKeys[k]]))
  }

  lemma ItemOkContents(st: Stages, heap: Heap, buffers: set<Ref>, item: Item)
    requires ItemOk(st, heap, buffers, item)
    ensures InArrays(heap, item) && Contents(heap, item) == Made(st, item.line)
  {
  }

  lemma RunOneMore(st: Stages, workers: nat, steps: seq<Step>, step: Step)
    ensures Run(st, workers, steps + [step]) == Next(st, Run(st, workers, steps), step)
  {
    assert (steps + [step])[..|steps|] == steps;
  }

  lemma FrameOfNext(st: Stages, first: State, s: State, step: Step)
    requires OneOwner(s) && Frame(first, s)
    ensures Frame(first, Next(st, s, step))
  {
    if Enabled(st, s, step) {
      FrameOfStep(st, s, step);
    }
  }

  lemma {:induction false} FrameOfRun(st: Stages, workers: nat, steps: seq<Step>, more: seq<Step>)
    requires TextIsTail(st)
    ensures Frame(Run(st, workers, steps), Run(st, workers, steps + more))
  {
    if more == [] {
      assert steps + more == steps;
    } else {
      var front, step := steps + more[..|more| - 1], more[|more| - 1];
      FrameOfRun(st, workers, steps, more[..|more| - 1]);
      InvHolds(st, workers, front);
      FrameOfNext(st, Run(st, workers, steps), Run(st, workers, front), step);
      RunOneMore(st, workers, front, step);
      assert steps + more == front + [step];
    }
  }

  /**
   * An item that left a worker holds the index item of its line, now and after any further
   * steps: no reuse of a buffer reaches it, and its arrays are no buffers.
   */
  lemma ItemsNeverChange(decode: Decoder, workers: nat, steps: seq<Step>, more: seq<Step>, item: Item)
    requires var s := Run(EngineStages(decode), workers, steps); item in s.outQueue || item in s.consumed
    ensures var later := Run(EngineStages(decode), workers, steps + more);
            && InArrays(later.heap, item)
            && Contents(later.heap, item) == ItemOf(decode, item.line)
            && item.logKey !in later.buffers && item.logValue !in later.buffers
            && forall k :: 0 <= k < |item.termKeys| ==> item.termKeys[k] !in later.buffers
  {
    var st := EngineStages(decode);
    EngineStagesAreValid(decode);
    var s, later := Run(st, workers, steps), Run(st, workers, steps + more);
    InvHolds(st, workers, steps);
    FrameOfRun(st, workers, steps, more);
    ItemFramed(st, s, later, item);
    ItemOkContents(st, later.heap, later.buffers, item);
  }
}
