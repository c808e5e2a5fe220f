/**
 * From the sockets to the answer: the worker pool and the batch loop together, when the
 * lines that went in have passed both.
 */
module EndToEnd {
  import opened Bytes
  import opened Seqs
  import opened Schema
  import opened Tokenizer
  import opened Ingest
  import opened BatchLoop
  import opened LoopInvariant
  import opened Search
  import opened Consistency
  import opened Engine
  import P = WorkerPool
  import Pool = PoolRuns
  import opened Conservation
  import opened Quiescence

  function LineOf(item: P.Item): Line {
    item.line
  }

  /** In a quiet pool, the loop has received what was read, line for line and copy for copy. */
  lemma QuietPoolDelivered(st: P.Stages, workers: nat, steps: seq<P.Step>)
    requires P.TextIsTail(st) && Quiet(P.Run(st, workers, steps))
    ensures var s := P.Run(st, workers, steps); multiset(Map(DataOf, s.consumed)) == multiset(s.submitted)
  {
    var s := P.Run(st, workers, steps);
    forall data: bytes ensures multiset(Map(DataOf, s.consumed))[data] == multiset(s.submitted)[data] {
      LinesAreConserved(st, workers, steps, data);
      RestingHoldNothing(OriginIs(data), LineIs(data), s.workers);
      SumCounts(s.consumed, data);
    }
  }

  /** The items that the loop has received are in memory what it takes them to be. */
  lemma ConsumedItems(decode: Decoder, workers: nat, steps: seq<P.Step>, item: P.Item)
    requires ValidDecoder(decode)
    requires item in P.Run(P.EngineStages(decode), workers, steps).consumed
    ensures var heap := P.Run(P.EngineStages(decode), workers, steps).heap;
            Pool.InArrays(heap, item) && Pool.Contents(heap, item) == Worker(EngineReading(decode))(item.line)
  {
    Pool.ItemsNeverChange(decode, workers, steps, [], item);
    assert steps + [] == steps;
    EngineReadingIsValid(decode);
  }

  /** The loop's half: once its batch is written, all it received is searchable. */
  lemma FlushedLinesAreSearchable(r: Reading, events: seq<Event>, hot: bool, t: bytes, start: int64, end: int64)
    requires ValidReading(r) && NulFree(t)
    requires var s := Run(Worker(r), events);
             !s.busy && s.lost == [] && DistinctIds(r, s.received) && WellTimed(r, s, start)
    ensures var s := Run(Worker(r), events + [Tick(true)]);
            && s.committed == Run(Worker(r), events).received
            && multiset(Map(Reader(s.core.store), Found(s.core.store, Tier(s, hot), t, start, end)))
               == multiset(Map(r.text, Grep(r, s.committed, t, start, end)))
  {
    BatchingIsTransparent(Worker(r), events);
    SearchAgreesWithGrep(r, Run(Worker(r), events + [Tick(true)]), hot, t, start, end);
  }

  /**
   * Every line counts: when the pool is quiet, the loop received its items, no write failed
   * and the ticker fires once more, then a search returns exactly the texts of the matching
   * lines among all lines that were read from the network.
   */
  lemma EveryLineIsSearchable(decode: Decoder, workers: nat, steps: seq<P.Step>, events: seq<Event>,
                              hot: bool, t: bytes, start: int64, end: int64)
    requires ValidDecoder(decode) && NulFree(t)
    requires Quiet(P.Run(P.EngineStages(decode), workers, steps))
    requires var s := Reached(decode, events);
             && s.received == Map(LineOf, P.Run(P.EngineStages(decode), workers, steps).consumed)
             && !s.busy && s.lost == []
             && DistinctIds(EngineReading(decode), s.received)
             && WellTimed(EngineReading(decode), s, start)
    ensures var pool, s := P.Run(P.EngineStages(decode), workers, steps), Reached(decode, events + [Tick(true)]);
            && s.committed == Map(LineOf, pool.consumed)
            && multiset(Map(DataOf, pool.consumed)) == multiset(pool.submitted)
            && multiset(Map(Reader(s.core.store), Found(s.core.store, Tier(s, hot), t, start, end)))
               == Expected(decode, s, t, start, end)
  {
    P.EngineStagesAreValid(decode);
    QuietPoolDelivered(P.EngineStages(decode), workers, steps);
    EngineReadingIsValid(decode);
    FlushedLinesAreSearchable(EngineReading(decode), events, hot, t, start, end);
  }
}
