/**
 * Every buffer has at most one owner, packets keep their bytes until they are released, and
 * items never change, in every interleaving of the worker pool.
 */
module BufferOwnership {
  import opened Bytes
  import opened Seqs
  import opened Sums
  import opened Schema
  import opened Ingest
  import opened WorkerPool
  import opened PacketFlow

  ghost function In(r: Ref): Packet -> nat {
    (p: Packet) => if p.buf == r then 1 else 0
  }

  ghost function Is(p: Packet): Packet -> nat {
    (q: Packet) => if q == p then 1 else 0
  }

  /** In how many places an array is: the pool, the reader's hands, or a packet on its way. */
  ghost function Owners(s: State, r: Ref): nat {
    multiset(s.pool)[r] + (if s.reader == Empty(r) then 1 else 0) + InFlight(In(r), s)
  }

  ghost predicate OneOwner(s: State) {
    forall r :: Owners(s, r) <= if r in s.buffers then 1 else 0
  }

  ghost predicate Allocated(s: State) {
    forall r :: r in s.buffers ==> r in s.heap && |s.heap[r]| == BUFFER_SIZE
  }

  // ---------------------------------------------------------------- ownership

  lemma PoolWithout(pool: seq<Ref>, k: nat, r: Ref)
    requires k < |pool|
    ensures multiset(pool[..k] + pool[k + 1..])[r] + (if pool[k] == r then 1 else 0) == multiset(pool)[r]
  {
    MultisetWithout(pool, k);
  }

  lemma PoolKeepsOwners(st: Stages, s: State, step: Step, r: Ref)
    requires Enabled(st, s, step) && (step.GetPooled? || step.DropPooled?)
    ensures Owners(Effect(st, s, step), r) <= Owners(s, r)
  {
    PacketsMove(In(r), st, s, step);
    PoolWithout(s.pool, step.k, r);
  }

  lemma WorkKeepsOwners(st: Stages, s: State, w: nat, action: Action, r: Ref)
    requires ActionEnabled(st, s, w, action)
    ensures Owners(ActionEffect(st, s, w, action), r) == Owners(s, r)
  {
    ActionMoves(In(r), st, s, w, action);
  }

  lemma ReaderKeepsOwners(st: Stages, s: State, step: Step, r: Ref)
    requires Enabled(st, s, step) && !step.Pass? && !step.Work? && !step.GetPooled? && !step.DropPooled?
    ensures Owners(Effect(st, s, step), r)
            <= Owners(s, r) + if (step.GetNew? || step.HttpLine?) && step.r == r then 1 else 0
  {
    PacketsMove(In(r), st, s, step);
  }

  /** Only a new buffer gets an owner. */
  lemma OwnersStep(st: Stages, s: State, step: Step, r: Ref)
    requires Enabled(st, s, step)
    ensures Owners(Effect(st, s, step), r)
            <= Owners(s, r) + if (step.GetNew? || step.HttpLine?) && step.r == r then 1 else 0
  {
    match step {
      case GetPooled(_) => PoolKeepsOwners(st, s, step, r);
      case DropPooled(_) => PoolKeepsOwners(st, s, step, r);
      case Pass(move) => PassMoves(In(r), s, move);
      case Work(w, action) => WorkKeepsOwners(st, s, w, action, r);
      case _ => ReaderKeepsOwners(st, s, step, r);
    }
  }

  lemma OneOwnerKept(st: Stages, s: State, step: Step)
    requires OneOwner(s) && Enabled(st, s, step)
    ensures OneOwner(Effect(st, s, step))
  {
    var s' := Effect(st, s, step);
    forall r ensures Owners(s', r) <= if r in s'.buffers then 1 else 0 {
      OwnersStep(st, s, step, r);
      BuffersGrow(st, s, step);
    }
  }

  lemma BuffersGrow(st: Stages, s: State, step: Step)
    requires Enabled(st, s, step)
    ensures Effect(st, s, step).buffers
            == if step.GetNew? || step.HttpLine? then s.buffers + {step.r} else s.buffers
    ensures step.GetNew? || step.HttpLine? ==> Unused(s, step.r)
  {
  }

  lemma InitHasNoOwners(workers: nat, r: Ref)
    ensures Owners(Init(workers), r) == 0
  {
    NoneHeld(In(r), workers);
  }

  lemma {:induction false} NoneHeld(f: Packet -> nat, workers: nat)
    ensures Sum(Holding(f), seq(workers, _ => Idle)) == 0
  {
    if workers > 0 {
      NoneHeld(f, workers - 1);
      assert seq(workers, _ => Idle)[..workers - 1] == seq(workers - 1, _ => Idle);
    }
  }

  // ---------------------------------------------------------------- contents of packets

  ghost predicate Carried(s: State, p: Packet) {
    InFlight(Is(p), s) > 0
  }

  /** The packet's part of its buffer still holds what was read. */
  ghost predicate Intact(heap: Heap, p: Packet) {
    && p.buf in heap && p.size <= |heap[p.buf]|
    && heap[p.buf][..p.size] == p.origin
  }

  ghost predicate PacketsIntact(s: State) {
    forall p :: Carried(s, p) ==> Intact(s.heap, p)
  }

  lemma CarriedPacketOwns(s: State, p: Packet)
    requires Carried(s, p)
    ensures Owners(s, p.buf) >= 1
    ensures s.reader == Empty(p.buf) ==> Owners(s, p.buf) >= 2
  {
    var f, g := Is(p), In(p.buf);
    SumMonotone(f, g, s.handlers);
    SumMonotone(f, g, s.udp.channel);
    SumMonotone(f, g, s.udp.hand);
    SumMonotone(f, g, s.http.channel);
    SumMonotone(f, g, s.http.hand);
    SumMonotone(f, g, s.rawQueue);
    SumMonotone(Holding(f), Holding(g), s.workers);
  }

  /** A step writes no array but the reader's own and new ones. */
  lemma ArraysKept(st: Stages, s: State, step: Step, r: Ref)
    requires Enabled(st, s, step) && r in s.heap && (step.Read? ==> s.reader != Empty(r))
    ensures r in Effect(st, s, step).heap && Effect(st, s, step).heap[r] == s.heap[r]
  {
    if step.Work? && step.action.CopyValue? {
      var me, refs := s.workers[step.w], [step.action.logKey, step.action.logValue];
      StoreKeeps(s.heap, refs, [LogKey(me.id), Slice(s.heap, me.packet, me.lo)], r);
    } else if step.Work? && step.action.EncodeKeys? {
      StoreKeeps(s.heap, step.action.refs, KeysAt(st, s.heap, s.workers[step.w]), r);
    }
  }

  lemma {:induction false} StoreKeeps(heap: Heap, refs: seq<Ref>, contents: seq<bytes>, r: Ref)
    requires |refs| == |contents| && r in heap && r !in refs
    ensures r in Store(heap, refs, contents) && Store(heap, refs, contents)[r] == heap[r]
  {
    if refs != [] {
      StoreKeeps(heap, refs[..|refs| - 1], contents[..|refs| - 1], r);
    }
  }

  lemma {:induction false} StoreHolds(heap: Heap, refs: seq<Ref>, contents: seq<bytes>, k: nat)
    requires |refs| == |contents| && Distinct(refs) && k < |refs|
    ensures refs[k] in Store(heap, refs, contents) && Store(heap, refs, contents)[refs[k]] == contents[k]
  {
    var n := |refs| - 1;
    if k < n {
      StoreHolds(heap, refs[..n], contents[..n], k);
      assert refs[k] != refs[n];
    }
  }

  lemma ArrivingIntact(st: Stages, s: State, step: Step, p: Packet)
    requires Allocated(s) && OneOwner(s)
    requires Enabled(st, s, step) && Arriving(Is(p), st, s, step) > 0
    ensures Intact(Effect(st, s, step).heap, p)
  {
    if step.Read? {
      assert p == ReadPacket(s, step.data);
      assert Owners(s, s.reader.buf) >= 1;
    } else {
      assert p == HttpPacket(step.r, step.line);
    }
  }

  lemma PacketsIntactKept(st: Stages, s: State, step: Step)
    requires Allocated(s) && OneOwner(s) && PacketsIntact(s) && Enabled(st, s, step)
    ensures PacketsIntact(Effect(st, s, step))
  {
    var s' := Effect(st, s, step);
    forall p | Carried(s', p) ensures Intact(s'.heap, p) {
      PacketsMove(Is(p), st, s, step);
      if Arriving(Is(p), st, s, step) > 0 {
        ArrivingIntact(st, s, step, p);
      } else {
        assert Carried(s, p);
        CarriedPacketOwns(s, p);
        assert Owners(s, p.buf) <= 1;
        ArraysKept(st, s, step, p.buf);
      }
    }
  }

  lemma AllocatedKept(st: Stages, s: State, step: Step)
    requires Allocated(s) && Enabled(st, s, step)
    ensures Allocated(Effect(st, s, step))
  {
    var s' := Effect(st, s, step);
    BuffersGrow(st, s, step);
    forall r | r in s'.buffers ensures r in s'.heap && |s'.heap[r]| == BUFFER_SIZE {
      if step.Read? {
        assert |Overwritten(s.heap[s.reader.buf], step.data)| == |s.heap[s.reader.buf]|;
      } else if r in s.buffers {
        ArraysKept(st, s, step, r);
      }
    }
  }
}
