/** How packets and items move through the stages of the worker pool, counted with any weight. */
module PacketFlow {
  import opened Sums
  import opened WorkerPool

  ghost function ReaderSum(f: Packet -> nat, r: Reader): nat {
    if r.Filled? then f(r.packet) else 0
  }

  ghost function RouteSum(f: Packet -> nat, route: Route): nat {
    Sum(f, route.channel) + Sum(f, route.hand)
  }

  ghost function Held(f: Packet -> nat, w: Worker): nat {
    match w
    case Took(p) => f(p)
    case Parsed(p, _, _, _) => f(p)
    case Copied(p, _, _, _, _, _) => f(p)
    case Indexed(p, _) => f(p)
    case _ => 0
  }

  ghost function Holding(f: Packet -> nat): Worker -> nat {
    w => Held(f, w)
  }

  /** f, summed over every packet that was read and is not yet released. */
  ghost function Upstream(f: Packet -> nat, s: State): nat {
    ReaderSum(f, s.reader) + Sum(f, s.handlers) + RouteSum(f, s.udp) + RouteSum(f, s.http)
  }

  ghost function InFlight(f: Packet -> nat, s: State): nat {
    Upstream(f, s) + Sum(f, s.rawQueue) + Sum(Holding(f), s.workers)
  }

  ghost function FinishedBy(g: Item -> nat, w: Worker): nat {
    if w.Released? then g(w.item) else 0
  }

  ghost function Finishing(g: Item -> nat): Worker -> nat {
    w => FinishedBy(g, w)
  }

  /** g, summed over every item whose packet is released. */
  ghost function Finished(g: Item -> nat, s: State): nat {
    Sum(Finishing(g), s.workers) + Sum(g, s.outQueue) + Sum(g, s.consumed)
  }

  /** The weight of the packet that a step reads from the network. */
  ghost function Arriving(f: Packet -> nat, st: Stages, s: State, step: Step): nat {
    if !Enabled(st, s, step) then 0 else
    match step
    case Read(data) => f(ReadPacket(s, data))
    case HttpLine(r, line) => f(HttpPacket(r, line))
    case _ => 0
  }

  ghost predicate Releases(st: Stages, s: State, step: Step) {
    step.Work? && step.action.Release? && Enabled(st, s, step)
  }

  lemma ActionMoves(f: Packet -> nat, st: Stages, s: State, w: nat, action: Action)
    requires ActionEnabled(st, s, w, action)
    ensures InFlight(f, ActionEffect(st, s, w, action)) + (if action.Release? then Held(f, s.workers[w]) else 0)
            == InFlight(f, s)
  {
    var s' := ActionEffect(st, s, w, action);
    SumUpdate(Holding(f), s.workers, w, s'.workers[w]);
    if action.Receive? {
      SumHead(f, s.rawQueue);
    }
  }

  lemma SendMoves(f: Packet -> nat, s: State, move: Move)
    requires MoveEnabled(s, move) && (move.SendUdp? || move.SendHttp?)
    ensures InFlight(f, MoveEffect(s, move)) == InFlight(f, s)
  {
    if move.SendUdp? {
      SumSnoc(f, s.udp.channel, s.reader.packet);
    } else {
      SumWithout(f, s.handlers, move.k);
      SumSnoc(f, s.http.channel, s.handlers[move.k]);
    }
  }

  lemma ForwardMoves(f: Packet -> nat, route: Route)
    requires route.channel != [] && route.hand == []
    ensures RouteSum(f, Forwarded(route)) == RouteSum(f, route)
  {
    SumHead(f, route.channel);
    SumSnoc(f, [], route.channel[0]);
  }

  lemma SubmitMoves(f: Packet -> nat, route: Route, queue: seq<Packet>)
    requires route.hand != []
    ensures RouteSum(f, route.(hand := route.hand[1..])) + Sum(f, queue + [route.hand[0]])
            == RouteSum(f, route) + Sum(f, queue)
  {
    SumHead(f, route.hand);
    SumSnoc(f, queue, route.hand[0]);
  }

  lemma PassMoves(f: Packet -> nat, s: State, move: Move)
    requires MoveEnabled(s, move)
    ensures InFlight(f, MoveEffect(s, move)) == InFlight(f, s)
  {
    match move {
      case SendUdp => SendMoves(f, s, move);
      case SendHttp(k) => SendMoves(f, s, move);
      case ForwardUdp => ForwardMoves(f, s.udp);
      case ForwardHttp => ForwardMoves(f, s.http);
      case SubmitUdp => SubmitMoves(f, s.udp, s.rawQueue);
      case SubmitHttp => SubmitMoves(f, s.http, s.rawQueue);
    }
  }

  /** Packets only come in when they are read and only go when a worker releases them. */
  lemma PacketsMove(f: Packet -> nat, st: Stages, s: State, step: Step)
    ensures InFlight(f, Next(st, s, step)) + (if Releases(st, s, step) then Held(f, s.workers[step.w]) else 0)
            == InFlight(f, s) + Arriving(f, st, s, step)
  {
    if Enabled(st, s, step) {
      match step {
        case HttpLine(r, line) => SumSnoc(f, s.handlers, HttpPacket(r, line));
        case Pass(move) => PassMoves(f, s, move);
        case Work(w, action) => ActionMoves(f, st, s, w, action);
        case _ =>
      }
    }
  }

  lemma ActionFinishes(g: Item -> nat, st: Stages, s: State, w: nat, action: Action)
    requires ActionEnabled(st, s, w, action)
    ensures Finished(g, ActionEffect(st, s, w, action))
            == Finished(g, s) + (if action.Release? then g(s.workers[w].item) else 0)
  {
    SumUpdate(Finishing(g), s.workers, w, ActionEffect(st, s, w, action).workers[w]);
    if action.Emit? {
      SumSnoc(g, s.outQueue, s.workers[w].item);
    }
  }

  /** Items are finished when their packet is released, and stay. */
  lemma ItemsMove(g: Item -> nat, st: Stages, s: State, step: Step)
    ensures Finished(g, Next(st, s, step))
            == Finished(g, s) + (if Releases(st, s, step) then g(s.workers[step.w].item) else 0)
  {
    if Enabled(st, s, step) {
      match step {
        case Work(w, action) => ActionFinishes(g, st, s, w, action);
        case Consume =>
          SumHead(g, s.outQueue);
          SumSnoc(g, s.consumed, s.outQueue[0]);
        case _ =>
      }
    }
  }
}
