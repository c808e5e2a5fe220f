/**
 * Packets on their way from the sockets to the batch loop: the UDP reader with its buffer
 * pool (engine/internal/ingestion/udp.go), the HTTP handlers (http.go), the two forwarders
 * (engine/cmd/server/main.go) and N workers (engine/internal/pipeline/worker_pool.go), as a
 * state machine over all their interleavings. Arrays live in a heap, so that reuse of a
 * buffer is an overwrite that others could see.
 */
module WorkerPool {
  import opened Bytes
  import opened Seqs
  import opened Schema
  import opened Parser
  import opened Tokenizer
  import opened Ingest

  const RAW_QUEUE_SIZE: nat := 20000
  const OUT_QUEUE_SIZE: nat := 20000
  const UDP_QUEUE_SIZE: nat := 20000
  const HTTP_QUEUE_SIZE: nat := 10000

  /** The address of an array. */
  type Ref = nat
  type Heap = map<Ref, bytes>

  /** `origin` records what was read from the network when the packet was made. */
  datatype Packet = Packet(buf: Ref, size: nat, origin: bytes)

  /** An item as its arrays; `line` records the packet and the clock reading that it was made from. */
  datatype Item = Item(logKey: Ref, logValue: Ref, termKeys: seq<Ref>, line: Line)

  datatype Reader = NoBuffer | Empty(buf: Ref) | Filled(packet: Packet)

  /** A channel and the goroutine that empties it, with the packet that it holds, if any. */
  datatype Route = Route(channel: seq<Packet>, hand: seq<Packet>)

  /** Where a worker is in the body of its loop. The message is the buffer from `lo` to the packet's size. */
  datatype Worker =
    | Idle
    | Took(packet: Packet)
    | Parsed(packet: Packet, now: int64, id: RecordId, lo: nat)
    | Copied(packet: Packet, now: int64, id: RecordId, lo: nat, logKey: Ref, logValue: Ref)
    | Indexed(packet: Packet, item: Item)
    | Released(item: Item)
    | Exited

  /**
   * `handlers` holds the filled buffers of HTTP requests that wait for room in their channel.
   * `submitted` records every line that was read, `buffers` every buffer ever allocated.
   */
  datatype State = State(heap: Heap, buffers: set<Ref>, pool: seq<Ref>, reader: Reader, handlers: seq<Packet>,
                         udp: Route, http: Route, rawQueue: seq<Packet>, closed: bool,
                         workers: seq<Worker>, outQueue: seq<Item>, consumed: seq<Item>, submitted: seq<bytes>)

  datatype Step =
    | GetPooled(k: nat)             // bufferPool.Get finds a buffer
    | GetNew(r: Ref)                // bufferPool.Get allocates one
    | DropPooled(k: nat)            // the garbage collector takes a buffer out of the pool
    | Read(data: bytes)             // ReadFromUDP: what does not fit is cut off
    | ReadError                     // the buffer is not returned to the pool
    | HttpLine(r: Ref, line: bytes) // a fresh buffer for each non-empty line
    | Pass(move: Move)
    | Close                         // Pipeline.Close closes the raw queue
    | Work(w: nat, action: Action)
    | Consume                       // the batch loop receives an item

  /** A packet goes from the reader or a handler to a forwarder and on to the raw queue. */
  datatype Move = SendUdp | SendHttp(k: nat) | ForwardUdp | ForwardHttp | SubmitUdp | SubmitHttp

  /** What a worker does in one round of its loop, in this order; it exits when the queue is closed and empty. */
  datatype Action =
    | Receive
    | Parse(now: int64)
    | CopyValue(logKey: Ref, logValue: Ref)
    | EncodeKeys(refs: seq<Ref>)
    | Release
    | Emit
    | Exit

  /** What the parser reads out of a line, and what the tokenizer makes of the message. */
  datatype Stages = Stages(id: Line -> RecordId, text: Line -> bytes, terms: bytes -> seq<bytes>)

  /** The item of a line. */
  function Made(st: Stages, line: Line): IndexItem {
    IndexItem(LogKey(st.id(line)), st.text(line), KeysOf(st.terms(st.text(line)), st.id(line)))
  }

  /** The parsed message is a slice of the packet that ends where the packet ends. */
  ghost predicate IsTail(st: Stages, line: Line) {
    |st.text(line)| <= |line.data| && st.text(line) == line.data[|line.data| - |st.text(line)|..]
  }

  ghost predicate TextIsTail(st: Stages) {
    forall line :: IsTail(st, line)
  }

  function EngineStages(decode: Decoder): Stages {
    Stages(line => IdOf(line), line => TextOf(line), text => Terms(decode(text)))
  }

  lemma EngineStagesAreValid(decode: Decoder)
    ensures TextIsTail(EngineStages(decode))
    ensures forall line :: Made(EngineStages(decode), line) == ItemOf(decode, line)
  {
    forall line: Line ensures IsTail(EngineStages(decode), line) {
      ParseShape(line.data, line.now);
    }
  }

  // ---------------------------------------------------------------- steps

  function Init(workers: nat): State {
    State(map[], {}, [], NoBuffer, [], Route([], []), Route([], []), [], false, seq(workers, _ => Idle), [], [], [])
  }

  function Zeros(): bytes {
    seq(BUFFER_SIZE, _ => 0)
  }

  /** copy(buf, data): the bytes that fit, then what was in the rest of the buffer before. */
  function Overwritten(buf: bytes, data: bytes): bytes {
    if |data| <= |buf| then data + buf[|data|..] else data[..|buf|]
  }

  predicate Unused(s: State, r: Ref) {
    r !in s.heap && r !in s.buffers
  }

  /** New, pairwise different arrays. */
  ghost predicate AllUnused(s: State, refs: seq<Ref>) {
    Distinct(refs) && forall k :: 0 <= k < |refs| ==> Unused(s, refs[k])
  }

  function Store(heap: Heap, refs: seq<Ref>, contents: seq<bytes>): Heap
    requires |refs| == |contents|
  {
    if refs == [] then heap
    else Store(heap, refs[..|refs| - 1], contents[..|refs| - 1])[refs[|refs| - 1] := contents[|refs| - 1]]
  }

  /** What the slice of the buffer from `lo` on holds at this moment. */
  function Slice(heap: Heap, packet: Packet, lo: nat): bytes {
    if packet.buf in heap && lo <= packet.size <= |heap[packet.buf]| then heap[packet.buf][lo..packet.size] else []
  }

  /** The line that a worker sees when it parses the packet. */
  function LineAt(heap: Heap, packet: Packet, now: int64): Line {
    Line(Slice(heap, packet, 0), now)
  }

  function TextStart(st: Stages, packet: Packet, line: Line): nat {
    if |st.text(line)| <= packet.size then packet.size - |st.text(line)| else 0
  }

  function KeysAt(st: Stages, heap: Heap, w: Worker): seq<bytes>
    requires w.Copied?
  {
    KeysOf(st.terms(Slice(heap, w.packet, w.lo)), w.id)
  }

  ghost predicate MoveEnabled(s: State, move: Move) {
    match move
    case SendUdp => s.reader.Filled? && |s.udp.channel| < UDP_QUEUE_SIZE
    case SendHttp(k) => k < |s.handlers| && |s.http.channel| < HTTP_QUEUE_SIZE
    case ForwardUdp => s.udp.channel != [] && s.udp.hand == []
    case ForwardHttp => s.http.channel != [] && s.http.hand == []
    case SubmitUdp => s.udp.hand != [] && !s.closed && |s.rawQueue| < RAW_QUEUE_SIZE
    case SubmitHttp => s.http.hand != [] && !s.closed && |s.rawQueue| < RAW_QUEUE_SIZE
  }

  ghost predicate ActionEnabled(st: Stages, s: State, w: nat, action: Action) {
    && w < |s.workers|
    && match action
       case Receive => s.workers[w].Idle? && s.rawQueue != []
       case Parse(_) => s.workers[w].Took?
       case CopyValue(k, v) => s.workers[w].Parsed? && AllUnused(s, [k, v])
       case EncodeKeys(refs) =>
         s.workers[w].Copied? && AllUnused(s, refs) && |refs| == |KeysAt(st, s.heap, s.workers[w])|
       case Release => s.workers[w].Indexed?
       case Emit => s.workers[w].Released? && |s.outQueue| < OUT_QUEUE_SIZE
       case Exit => s.workers[w].Idle? && s.closed && s.rawQueue == []
  }

  ghost predicate Enabled(st: Stages, s: State, step: Step) {
    match step
    case GetPooled(k) => s.reader.NoBuffer? && k < |s.pool|
    case GetNew(r) => s.reader.NoBuffer? && Unused(s, r)
    case DropPooled(k) => k < |s.pool|
    case Read(_) => s.reader.Empty? && s.reader.buf in s.heap
    case ReadError => s.reader.Empty?
    case HttpLine(r, line) => line != [] && Unused(s, r)
    case Pass(move) => MoveEnabled(s, move)
    case Close => true
    case Work(w, action) => ActionEnabled(st, s, w, action)
    case Consume => s.outQueue != []
  }

  function Forwarded(route: Route): Route
    requires route.channel != []
  {
    Route(route.channel[1..], [route.channel[0]])
  }

  function SetWorker(s: State, w: nat, worker: Worker): State
    requires w < |s.workers|
  {
    s.(workers := s.workers[w := worker])
  }

  ghost function MoveEffect(s: State, move: Move): State
    requires MoveEnabled(s, move)
  {
    match move
    case SendUdp => s.(reader := NoBuffer, udp := s.udp.(channel := s.udp.channel + [s.reader.packet]))
    case SendHttp(k) =>
      s.(handlers := s.handlers[..k] + s.handlers[k + 1..],
         http := s.http.(channel := s.http.channel + [s.handlers[k]]))
    case ForwardUdp => s.(udp := Forwarded(s.udp))
    case ForwardHttp => s.(http := Forwarded(s.http))
    case SubmitUdp => s.(rawQueue := s.rawQueue + [s.udp.hand[0]], udp := s.udp.(hand := s.udp.hand[1..]))
    case SubmitHttp => s.(rawQueue := s.rawQueue + [s.http.hand[0]], http := s.http.(hand := s.http.hand[1..]))
  }

  ghost function ActionEffect(st: Stages, s: State, w: nat, action: Action): State
    requires ActionEnabled(st, s, w, action)
  {
    var me := s.workers[w];
    match action
    case Receive => SetWorker(s, w, Took(s.rawQueue[0])).(rawQueue := s.rawQueue[1..])
    case Parse(now) =>
      var line := LineAt(s.heap, me.packet, now);
      SetWorker(s, w, Parsed(me.packet, now, st.id(line), TextStart(st, me.packet, line)))
    case CopyValue(k, v) =>
      SetWorker(s, w, Copied(me.packet, me.now, me.id, me.lo, k, v)).(
        heap := Store(s.heap, [k, v], [LogKey(me.id), Slice(s.heap, me.packet, me.lo)]))
    case EncodeKeys(refs) =>
      SetWorker(s, w, Indexed(me.packet, Item(me.logKey, me.logValue, refs, Line(me.packet.origin, me.now)))).(
        heap := Store(s.heap, refs, KeysAt(st, s.heap, me)))
    case Release => SetWorker(s, w, Released(me.item)).(pool := s.pool + [me.packet.buf])
    case Emit => SetWorker(s, w, Idle).(outQueue := s.outQueue + [me.item])
    case Exit => SetWorker(s, w, Exited)
  }

  ghost function Effect(st: Stages, s: State, step: Step): State
    requires Enabled(st, s, step)
  {
    match step
    case GetPooled(k) => s.(reader := Empty(s.pool[k]), pool := s.pool[..k] + s.pool[k + 1..])
    case GetNew(r) => s.(reader := Empty(r), heap := s.heap[r := Zeros()], buffers := s.buffers + {r})
    case DropPooled(k) => s.(pool := s.pool[..k] + s.pool[k + 1..])
    case Read(data) =>
      s.(reader := Filled(ReadPacket(s, data)), submitted := s.submitted + [CutOff(data)],
         heap := s.heap[s.reader.buf := Overwritten(s.heap[s.reader.buf], data)])
    case ReadError => s.(reader := NoBuffer)
    case HttpLine(r, line) =>
      s.(handlers := s.handlers + [HttpPacket(r, line)], submitted := s.submitted + [CutOff(line)],
         heap := s.heap[r := Overwritten(Zeros(), line)], buffers := s.buffers + {r})
    case Pass(move) => MoveEffect(s, move)
    case Close => s.(closed := true)
    case Work(w, action) => ActionEffect(st, s, w, action)
    case Consume => s.(outQueue := s.outQueue[1..], consumed := s.consumed + [s.outQueue[0]])
  }

  function ReadPacket(s: State, data: bytes): Packet
    requires s.reader.Empty?
  {
    Packet(s.reader.buf, |CutOff(data)|, CutOff(data))
  }

  function HttpPacket(r: Ref, line: bytes): Packet {
    Packet(r, |CutOff(line)|, CutOff(line))
  }

  /** One step of one goroutine. A step that is not enabled changes nothing. */
  ghost function Next(st: Stages, s: State, step: Step): State {
    if Enabled(st, s, step) then Effect(st, s, step) else s
  }

  ghost function Run(st: Stages, workers: nat, steps: seq<Step>): State {
    if steps == [] then Init(workers)
    else Next(st, Run(st, workers, steps[..|steps| - 1]), steps[|steps| - 1])
  }
}
