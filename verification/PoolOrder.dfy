/** Channels keep the order: with one worker, lines that come over UDP come out as items in the order in which they were read. */
module PoolOrder {
  import opened Bytes
  import opened Seqs
  import opened Ingest
  import opened WorkerPool
  import opened PoolRuns
  import opened Conservation

  function OriginOf(p: Packet): bytes {
    p.origin
  }

  function ReaderLine(r: Reader): seq<bytes> {
    if r.Filled? then [r.packet.origin] else []
  }

  function WorkerLine(w: Worker): seq<bytes> {
    match w
    case Took(p) => [p.origin]
    case Parsed(p, _, _, _) => [p.origin]
    case Copied(p, _, _, _, _, _) => [p.origin]
    case Indexed(p, _) => [p.origin]
    case Released(item) => [item.line.data]
    case _ => []
  }

  /** The lines between the network and the loop, the oldest first. */
  datatype Places = Places(consumed: seq<bytes>, out: seq<bytes>, worker: seq<bytes>, raw: seq<bytes>,
                           hand: seq<bytes>, channel: seq<bytes>, reader: seq<bytes>)

  function PlacesOf(s: State): Places
    requires |s.workers| == 1
  {
    Places(Map(DataOf, s.consumed), Map(DataOf, s.outQueue), WorkerLine(s.workers[0]), Map(OriginOf, s.rawQueue),
           Map(OriginOf, s.udp.hand), Map(OriginOf, s.udp.channel), ReaderLine(s.reader))
  }

  function Row(p: Places): seq<bytes> {
    p.consumed + (p.out + (p.worker + (p.raw + (p.hand + (p.channel + p.reader)))))
  }

  // ---------------------------------------------------------------- one line moves on

  lemma MovesOn<T>(a: seq<T>, x: T, b: seq<T>)
    ensures a + ([x] + b) == (a + [x]) + b
  {
  }

  lemma FirstMoves<T>(a: seq<T>, b: seq<T>, rest: seq<T>)
    requires b != []
    ensures a + (b + rest) == (a + [b[0]]) + (b[1..] + rest)
  {
    assert b == [b[0]] + b[1..];
    ConcatAssociative([b[0]], b[1..], rest);
    MovesOn(a, b[0], b[1..] + rest);
  }

  lemma LastArrives(p: Places, x: bytes)
    requires p.reader == []
    ensures Row(p.(reader := [x])) == Row(p) + [x]
  {
    assert p.channel + [] == p.channel;
    ConcatAssociative(p.hand, p.channel, [x]);
    ConcatAssociative(p.raw, p.hand + p.channel, [x]);
    ConcatAssociative(p.worker, p.raw + (p.hand + p.channel), [x]);
    ConcatAssociative(p.out, p.worker + (p.raw + (p.hand + p.channel)), [x]);
    ConcatAssociative(p.consumed, p.out + (p.worker + (p.raw + (p.hand + p.channel))), [x]);
  }

  lemma MapFirst<T, U>(f: T -> U, s: seq<T>)
    requires s != []
    ensures Map(f, s) == [f(s[0])] + Map(f, s[1..]) && Map(f, s)[1..] == Map(f, s[1..])
  {
  }

  lemma MapLast<T, U>(f: T -> U, s: seq<T>, x: T)
    ensures Map(f, s + [x]) == Map(f, s) + [f(x)]
  {
  }

  // ---------------------------------------------------------------- the steps

  /** No HTTP request is under way. */
  ghost predicate UdpOnly(s: State) {
    |s.workers| == 1 && s.handlers == [] && s.http == Route([], [])
  }

  lemma ReaderStep(st: Stages, s: State, step: Step)
    requires UdpOnly(s) && Enabled(st, s, step)
    requires step.GetPooled? || step.GetNew? || step.DropPooled? || step.Read? || step.ReadError? || step.Close?
    ensures var s' := Effect(st, s, step);
            UdpOnly(s') && (Row(PlacesOf(s)) == s.submitted ==> Row(PlacesOf(s')) == s'.submitted)
  {
    if step.Read? {
      LastArrives(PlacesOf(s), CutOff(step.data));
      assert PlacesOf(Effect(st, s, step)) == PlacesOf(s).(reader := [CutOff(step.data)]);
    } else {
      assert PlacesOf(Effect(st, s, step)) == PlacesOf(s);
    }
  }

  lemma SendStep(s: State)
    requires UdpOnly(s) && MoveEnabled(s, SendUdp)
    ensures Row(PlacesOf(MoveEffect(s, SendUdp))) == Row(PlacesOf(s))
  {
    MapLast(OriginOf, s.udp.channel, s.reader.packet);
    assert ReaderLine(s.reader) + [] == ReaderLine(s.reader);
    MovesOn(Map(OriginOf, s.udp.channel), s.reader.packet.origin, []);
  }

  lemma ForwardStep(s: State)
    requires UdpOnly(s) && MoveEnabled(s, ForwardUdp)
    ensures Row(PlacesOf(MoveEffect(s, ForwardUdp))) == Row(PlacesOf(s))
  {
    MapFirst(OriginOf, s.udp.channel);
    FirstMoves([], Map(OriginOf, s.udp.channel), ReaderLine(s.reader));
    assert Map(OriginOf, [s.udp.channel[0]]) == [s.udp.channel[0].origin];
    assert [] + [s.udp.channel[0].origin] == [s.udp.channel[0].origin];
  }

  lemma SubmitStep(s: State)
    requires UdpOnly(s) && MoveEnabled(s, SubmitUdp)
    ensures Row(PlacesOf(MoveEffect(s, SubmitUdp))) == Row(PlacesOf(s))
  {
    MapFirst(OriginOf, s.udp.hand);
    MapLast(OriginOf, s.rawQueue, s.udp.hand[0]);
    FirstMoves(Map(OriginOf, s.rawQueue), Map(OriginOf, s.udp.hand), Map(OriginOf, s.udp.channel) + ReaderLine(s.reader));
  }

  lemma PassStep(s: State, move: Move)
    requires UdpOnly(s) && MoveEnabled(s, move)
    ensures var s' := MoveEffect(s, move);
            UdpOnly(s') && s'.submitted == s.submitted && Row(PlacesOf(s')) == Row(PlacesOf(s))
  {
    match move {
      case SendUdp => SendStep(s);
      case ForwardUdp => ForwardStep(s);
      case SubmitUdp => SubmitStep(s);
      case _ =>
    }
  }

  lemma ReceiveStep(st: Stages, s: State)
    requires UdpOnly(s) && ActionEnabled(st, s, 0, Receive)
    ensures Row(PlacesOf(ActionEffect(st, s, 0, Receive))) == Row(PlacesOf(s))
  {
    var p := PlacesOf(s);
    MapFirst(OriginOf, s.rawQueue);
    FirstMoves([], p.raw, p.hand + (p.channel + p.reader));
    assert [] + [p.raw[0]] == [p.raw[0]];
  }

  lemma EmitStep(st: Stages, s: State)
    requires UdpOnly(s) && ActionEnabled(st, s, 0, Emit)
    ensures Row(PlacesOf(ActionEffect(st, s, 0, Emit))) == Row(PlacesOf(s))
  {
    var p, item := PlacesOf(s), s.workers[0].item;
    MapLast(DataOf, s.outQueue, item);
    FirstMoves(p.out, p.worker, p.raw + (p.hand + (p.channel + p.reader)));
  }

  lemma WorkStep(st: Stages, s: State, w: nat, action: Action)
    requires UdpOnly(s) && WorkersOk(st, s) && ActionEnabled(st, s, w, action)
    ensures var s' := ActionEffect(st, s, w, action);
            UdpOnly(s') && s'.submitted == s.submitted && Row(PlacesOf(s')) == Row(PlacesOf(s))
  {
    assert w == 0 && WorkerOk(st, s.heap, s.buffers, s.workers[0]);
    match action {
      case Receive => ReceiveStep(st, s);
      case Emit => EmitStep(st, s);
      case _ => assert PlacesOf(ActionEffect(st, s, w, action)) == PlacesOf(s);
    }
  }

  lemma ConsumeStep(st: Stages, s: State)
    requires UdpOnly(s) && Enabled(st, s, Consume)
    ensures Row(PlacesOf(Effect(st, s, Consume))) == Row(PlacesOf(s))
  {
    var p := PlacesOf(s);
    MapFirst(DataOf, s.outQueue);
    MapLast(DataOf, s.consumed, s.outQueue[0]);
    FirstMoves(p.consumed, p.out, p.worker + (p.raw + (p.hand + (p.channel + p.reader))));
  }

  ghost predicate InOrder(s: State) {
    UdpOnly(s) && Row(PlacesOf(s)) == s.submitted
  }

  lemma OrderKept(st: Stages, s: State, step: Step)
    requires InOrder(s) && WorkersOk(st, s) && !step.HttpLine?
    ensures InOrder(Next(st, s, step))
  {
    if Enabled(st, s, step) {
      match step {
        case Pass(move) => PassStep(s, move);
        case Work(w, action) => WorkStep(st, s, w, action);
        case Consume => ConsumeStep(st, s);
        case _ => ReaderStep(st, s, step);
      }
    }
  }

  ghost predicate NoHttp(steps: seq<Step>) {
    forall k :: 0 <= k < |steps| ==> !steps[k].HttpLine?
  }

  lemma {:induction false} RunInOrder(st: Stages, steps: seq<Step>)
    requires TextIsTail(st) && NoHttp(steps)
    ensures InOrder(Run(st, 1, steps))
  {
    if steps != [] {
      var front := steps[..|steps| - 1];
      RunInOrder(st, front);
      InvHolds(st, 1, front);
      OrderKept(st, Run(st, 1, front), steps[|steps| - 1]);
    }
  }

  /**
   * Whatever is still on its way: the lines of the items received so far are the lines read, in
   * the same order, up to some point.
   */
  lemma ItemsComeInOrder(st: Stages, steps: seq<Step>)
    requires TextIsTail(st) && NoHttp(steps)
    ensures var s := Run(st, 1, steps);
            |s.consumed| <= |s.submitted| && forall k :: 0 <= k < |s.consumed| ==> s.consumed[k].line.data == s.submitted[k]
  {
    var s := Run(st, 1, steps);
    RunInOrder(st, steps);
    FirstPlace(PlacesOf(s));
    forall k | 0 <= k < |s.consumed| ensures s.consumed[k].line.data == s.submitted[k] {
      assert Map(DataOf, s.consumed)[k] == DataOf(s.consumed[k]);
    }
  }

  lemma FirstPlace(p: Places)
    ensures p.consumed <= Row(p)
  {
  }
}
