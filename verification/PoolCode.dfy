/** The steps of the worker pool are those of the code: Ingest.ProcessPacket and Listeners.BufferPool. */
module PoolCode {
  import opened Bytes
  import opened Sums
  import opened Tokenizer
  import opened Ingest
  import opened WorkerPool
  import opened PacketFlow
  import opened BufferOwnership
  import opened PoolRuns
  import Listeners

  /** The three steps between taking a packet and releasing it, with nothing in between. */
  ghost function Round(st: Stages, s: State, w: nat, now: int64, logKey: Ref, logValue: Ref, refs: seq<Ref>): State {
    Next(st, Next(st, Next(st, s, Work(w, Parse(now))), Work(w, CopyValue(logKey, logValue))), Work(w, EncodeKeys(refs)))
  }

  lemma ParseStep(st: Stages, s: State, w: nat, now: int64)
    requires TextIsTail(st) && Inv(st, s) && w < |s.workers| && s.workers[w].Took?
    ensures var s' := Next(st, s, Work(w, Parse(now)));
            && Inv(st, s') && s'.heap == s.heap && s'.buffers == s.buffers && |s'.workers| == |s.workers|
            && s'.workers[w].Parsed? && s'.workers[w].packet == s.workers[w].packet && s'.workers[w].now == now
  {
    InvKept(st, s, Work(w, Parse(now)));
  }

  lemma CopyStep(st: Stages, s: State, w: nat, k: Ref, v: Ref)
    requires TextIsTail(st) && Inv(st, s) && w < |s.workers| && s.workers[w].Parsed? && AllUnused(s, [k, v])
    ensures var s', me := Next(st, s, Work(w, CopyValue(k, v))), s.workers[w];
            && Inv(st, s') && |s'.workers| == |s.workers|
            && s'.workers[w] == Copied(me.packet, me.now, me.id, me.lo, k, v)
  {
    InvKept(st, s, Work(w, CopyValue(k, v)));
  }

  lemma EncodeStep(st: Stages, s: State, w: nat, refs: seq<Ref>)
    requires TextIsTail(st) && Inv(st, s) && w < |s.workers| && s.workers[w].Copied?
    requires AllUnused(s, refs) && |refs| == |KeysAt(st, s.heap, s.workers[w])|
    ensures var s', me := Next(st, s, Work(w, EncodeKeys(refs))), s.workers[w];
            && Inv(st, s') && |s'.workers| == |s.workers|
            && s'.workers[w] == Indexed(me.packet, Item(me.logKey, me.logValue, refs, Line(me.packet.origin, me.now)))
  {
    InvKept(st, s, Work(w, EncodeKeys(refs)));
  }

  lemma IndexedHolds(st: Stages, s: State, w: nat)
    requires WorkersOk(st, s) && w < |s.workers| && s.workers[w].Indexed?
    ensures var item := s.workers[w].item; InArrays(s.heap, item) && Contents(s.heap, item) == Made(st, item.line)
  {
    assert WorkerOk(st, s.heap, s.buffers, s.workers[w]);
    ItemOkContents(st, s.heap, s.buffers, s.workers[w].item);
  }

  /** Each of the three steps is enabled when its turn comes. */
  ghost predicate RoundEnabled(st: Stages, s: State, w: nat, now: int64, k: Ref, v: Ref, refs: seq<Ref>) {
    && Enabled(st, s, Work(w, Parse(now)))
    && (var s1 := Next(st, s, Work(w, Parse(now)));
        && Enabled(st, s1, Work(w, CopyValue(k, v)))
        && Enabled(st, Next(st, s1, Work(w, CopyValue(k, v))), Work(w, EncodeKeys(refs))))
  }

  /** data[:size] of the packet that a worker took. */
  ghost function Taken(s: State, w: nat): bytes {
    if w < |s.workers| && s.workers[w].Took? then Slice(s.heap, s.workers[w].packet, 0) else []
  }

  /** The worker has this item in these arrays. */
  ghost predicate HasItem(s: State, w: nat, k: Ref, v: Ref, refs: seq<Ref>, item: IndexItem) {
    && w < |s.workers| && s.workers[w].Indexed?
    && (var mine := s.workers[w].item;
        && mine.logKey == k && mine.logValue == v && mine.termKeys == refs
        && InArrays(s.heap, mine) && Contents(s.heap, mine) == item)
  }

  lemma RoundMakesItem(st: Stages, s: State, w: nat, now: int64, k: Ref, v: Ref, refs: seq<Ref>)
    requires TextIsTail(st) && Inv(st, s) && RoundEnabled(st, s, w, now, k, v, refs)
    ensures HasItem(Round(st, s, w, now, k, v, refs), w, k, v, refs, Made(st, Line(Taken(s, w), now)))
  {
    var s1 := Next(st, s, Work(w, Parse(now)));
    var s2 := Next(st, s1, Work(w, CopyValue(k, v)));
    HeldPacketIntact(s, w, s.workers[w].packet);
    assert Taken(s, w) == s.workers[w].packet.origin;
    ParseStep(st, s, w, now);
    CopyStep(st, s1, w, k, v);
    EncodeStep(st, s2, w, refs);
    IndexedHolds(st, Next(st, s2, Work(w, EncodeKeys(refs))), w);
  }

  /**
   * What a worker's round makes of the packet's slice of its buffer is what ProcessPacket makes of
   * it, in the arrays that it was given.
   */
  lemma RoundIsProcessPacket(decode: Decoder, s: State, w: nat, now: int64, k: Ref, v: Ref, refs: seq<Ref>)
    requires Inv(EngineStages(decode), s) && RoundEnabled(EngineStages(decode), s, w, now, k, v, refs)
    ensures HasItem(Round(EngineStages(decode), s, w, now, k, v, refs), w, k, v, refs,
                    ItemOf(decode, Line(Taken(s, w), now)))
  {
    EngineStagesAreValid(decode);
    RoundMakesItem(EngineStages(decode), s, w, now, k, v, refs);
  }

  /** Taking a buffer from the pool and reading into it: what one round of BufferPool.Receive does. */
  lemma ReadIsReceive(st: Stages, s: State, k: nat, data: bytes)
    requires Allocated(s) && OneOwner(s) && Enabled(st, s, GetPooled(k))
    ensures var end := Next(st, Next(st, s, GetPooled(k)), Read(data));
            && end.pool == Listeners.RemoveAt(s.pool, k) && s.pool[k] !in end.pool
            && (var n := if |data| <= 2048 then |data| else 2048;
                && end.reader == Filled(Packet(s.pool[k], n, data[..n]))
                && s.pool[k] in end.heap && |end.heap[s.pool[k]]| == 2048
                && end.heap[s.pool[k]][..n] == data[..n])
            && (forall r :: r in s.heap && r != s.pool[k] ==> r in end.heap && end.heap[r] == s.heap[r])
            && end.submitted == s.submitted + [if |data| <= 2048 then data else data[..2048]]
  {
    var got := Next(st, s, GetPooled(k));
    OneOwnerKept(st, s, GetPooled(k));
    assert Owners(got, s.pool[k]) <= 1;
    assert Owners(s, s.pool[k]) >= 1;
  }

  /** A line of a request goes into a buffer of its own, as Listeners.NewPacket puts it there. */
  lemma LineIsNewPacket(st: Stages, s: State, r: Ref, line: bytes)
    requires Enabled(st, s, HttpLine(r, line))
    ensures var end := Next(st, s, HttpLine(r, line));
            && r !in s.heap
            && (var n := if |line| <= 2048 then |line| else 2048;
                && end.handlers == s.handlers + [Packet(r, n, line[..n])]
                && r in end.heap && |end.heap[r]| == 2048 && end.heap[r][..n] == line[..n]
                && end.submitted == s.submitted + [line[..n]])
            && (forall q :: q in s.heap ==> q in end.heap && end.heap[q] == s.heap[q])
  {
    assert line[..|line|] == line;
  }

  /** When a worker releases a buffer it is not in the pool: what BufferPool.Put asks for, and does. */
  lemma ReleaseIsPut(st: Stages, s: State, w: nat)
    requires Allocated(s) && OneOwner(s) && Enabled(st, s, Work(w, Release))
    ensures var buf := s.workers[w].packet.buf;
            && buf in s.heap && |s.heap[buf]| == BUFFER_SIZE && buf !in s.pool
            && Next(st, s, Work(w, Release)).pool == s.pool + [buf]
  {
    var buf := s.workers[w].packet.buf;
    SumWithout(Holding(In(buf)), s.workers, w);
    assert Owners(s, buf) >= 1;
  }
}
