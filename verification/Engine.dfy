/**
 * The engine end to end: the query RPC (engine/internal/ipc/grpc_server.go, Query) on the
 * indexes that the batch loop has filled with what the workers made of raw lines.
 */
module Engine {
  import opened Bytes
  import opened Seqs
  import opened Schema
  import opened Store
  import opened Tokenizer
  import opened Ingest
  import opened BatchLoop
  import opened Search
  import opened RangeScan
  import opened Consistency
  import opened Wrappers

  /** The state of the loop after these events, with the engine's own parser and tokenizer. */
  function Reached(decode: Decoder, events: seq<Event>): State {
    Run(Worker(EngineReading(decode)), events)
  }

  /** Line by line: parsed, tokenized, of the window. */
  predicate LineMatches(decode: Decoder, l: Line, t: bytes, start: int64, end: int64) {
    t in Terms(decode(Parser.Parse(l.data, l.now).message)) && start <= l.now <= end
  }

  /** What grep finds in the committed lines, as the texts that a search should return. */
  ghost function Expected(decode: Decoder, s: State, t: bytes, start: int64, end: int64): multiset<bytes> {
    multiset(Map(EngineReading(decode).text, Grep(EngineReading(decode), s.committed, t, start, end)))
  }

  lemma ExpectedLines(decode: Decoder, s: State, t: bytes, start: int64, end: int64, l: Line)
    ensures l in Grep(EngineReading(decode), s.committed, t, start, end) <==>
            l in s.committed && LineMatches(decode, l, t, start, end)
    ensures EngineReading(decode).text(l) == Parser.Parse(l.data, l.now).message
  {
    GrepElements(EngineReading(decode), s.committed, t, start, end, l);
  }

  lemma EngineTextDecidesTerms(decode: Decoder)
    ensures TextDecidesTerms(EngineReading(decode))
  {
  }

  /** Two different words as lines of the same nanosecond: between the two writes, a search for one returns the other. */
  lemma CollidingWords(r: Reading, first: bytes, second: bytes, now: int64)
    requires ValidReading(r) && ReadsWord(r, first, now) && ReadsWord(r, second, now) && first != second && now >= 0
    ensures var s := Run(Worker(r), CollisionRun(r, Line(first, now), Line(second, now)));
            var id := RecordId(1, now);
            id in Found(s.core.store, Some(s.core.mem), second, now, now) && Message(s.core.store, id) == first
  {
    assert second in [second] && second !in [first];
    CollisionReturnsWrongLine(r, Line(first, now), Line(second, now), second);
  }

  /** The engine reads words so: the lines aa and bb collide, and a search for bb returns aa. */
  lemma CollidingLines(decode: Decoder, now: int64)
    requires ValidDecoder(decode) && ReadsAscii(decode) && now >= 0
    ensures var r, aa, bb := EngineReading(decode), [0x61, 0x61], [0x62, 0x62];
            var s := Run(Worker(r), CollisionRun(r, Line(aa, now), Line(bb, now)));
            RecordId(1, now) in Found(s.core.store, Some(s.core.mem), bb, now, now)
            && Message(s.core.store, RecordId(1, now)) == aa
  {
    EngineReadingIsValid(decode);
    EngineReadsWord(decode, [0x61, 0x61], now);
    EngineReadsWord(decode, [0x62, 0x62], now);
    assert [0x61, 0x61][0] != [0x62, 0x62][0];
    CollidingWords(EngineReading(decode), [0x61, 0x61], [0x62, 0x62], now);
  }

  /**
   * The Query RPC. Whatever lines arrived with distinct facility and nanosecond, wherever ticks,
   * failed writes and restarts fell, and whatever lookups fail: without an error, the answer is
   * part of what a linear scan of the committed lines gives. When no lookup fails it is all of
   * it below the limit, and at the limit as long as the limit. With an error it is empty.
   */
  method Query(engine: QueryEngine, term: bytes, start: int64, end: int64, limit: int,
               ghost decode: Decoder, ghost events: seq<Event>)
    returns (logs: seq<bytes>, err: bool)
    requires ValidDecoder(decode) && NulFree(term)
    requires DistinctIds(EngineReading(decode), Reached(decode, events).received)
    requires start >= 0 || forall l :: l in Reached(decode, events).received ==> l.now >= 0
    requires engine.db.kv == Reached(decode, events).core.store
    requires engine.memIndex != null ==> engine.memIndex.terms == Reached(decode, events).core.mem
    ensures err == engine.CutShort(term, start, end, limit) && (err ==> logs == [])
    ensures multiset(logs) <= Expected(decode, Reached(decode, events), term, start, end)
    ensures var expected := Expected(decode, Reached(decode, events), term, start, end);
            !err && engine.db.badKeys == {} ==>
              && |logs| == Least(|expected|, if limit > 0 then limit else 50)
              && (|logs| == |expected| ==> multiset(logs) == expected)
  {
    logs, err := engine.SearchTerm(term, start, end, limit);
    if err {
      return [], true;
    }
    ghost var s := Reached(decode, events);
    ghost var tier := Tier(s, engine.memIndex != null);
    ghost var ids := Candidates(s.core.store, tier, term, start, end);
    EngineReadingIsValid(decode);
    SearchAgreesWithGrep(EngineReading(decode), s, engine.memIndex != null, term, start, end);
    AnswerOfQuery(s.core.store, engine.db.badKeys, ids, EffectiveLimit(limit));
  }

  function Least(a: int, b: int): int {
    if a <= b then a else b
  }

  lemma AnswerOfQuery(kv: KV, bad: set<bytes>, ids: seq<RecordId>, bound: nat)
    ensures var readable := Without(kv, bad);
            var logs, all := Take(bound, Map(Reader(readable), Answer(readable, ids))), Map(Reader(kv), Answer(kv, ids));
            && multiset(logs) <= multiset(all)
            && (bad == {} ==> |logs| == Least(|multiset(all)|, bound))
            && (|logs| == |multiset(all)| ==> multiset(logs) == multiset(all))
  {
    AnswerWithFailures(kv, bad, ids);
    TakenPart(bound, Map(Reader(Without(kv, bad)), Answer(Without(kv, bad), ids)));
    assert bad == {} ==> Without(kv, bad) == kv;
    var logs := Take(bound, Map(Reader(Without(kv, bad)), Answer(Without(kv, bad), ids)));
    SameSizePart(multiset(logs), multiset(Map(Reader(kv), Answer(kv, ids))));
  }

  lemma SameSizePart<T>(part: multiset<T>, all: multiset<T>)
    requires part <= all
    ensures |part| == |all| ==> part == all
  {
    assert all == part + (all - part);
  }

  lemma TakenPart<T>(n: nat, s: seq<T>)
    ensures if |multiset(s)| <= n then Take(n, s) == s else |Take(n, s)| == n
    ensures multiset(Take(n, s)) <= multiset(s)
  {
    if |s| > n {
      assert s == s[..n] + s[n..];
    }
  }
}
