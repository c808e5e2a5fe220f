/**
 * In every state the engine can reach, a search agrees with a linear scan of the committed
 * lines, whether or not it consults the hot index.
 */
module Consistency {
  import opened Bytes
  import opened Seqs
  import opened Schema
  import opened Store
  import opened MemIndex
  import opened Ingest
  import opened BatchLoop
  import opened LoopInvariant
  import opened Search
  import opened RangeScan
  import opened Wrappers

  // ---------------------------------------------------------------- the simple thing

  predicate Matches(r: Reading, l: Line, t: bytes, start: int64, end: int64) {
    t in r.terms(l) && InWindow(r.id(l), start, end)
  }

  /** The linear scan: the lines of the window that contain the term. */
  function Grep(r: Reading, lines: seq<Line>, t: bytes, start: int64, end: int64): seq<Line> {
    if lines == [] then [] else
    var front, l := Grep(r, lines[..|lines| - 1], t, start, end), lines[|lines| - 1];
    if Matches(r, l, t, start, end) then front + [l] else front
  }

  lemma {:induction false} GrepElements(r: Reading, lines: seq<Line>, t: bytes, start: int64, end: int64, l: Line)
    ensures l in Grep(r, lines, t, start, end) <==> l in lines && Matches(r, l, t, start, end)
  {
    if lines != [] {
      GrepElements(r, lines[..|lines| - 1], t, start, end, l);
    }
  }

  /** No two lines have the same facility and nanosecond. */
  ghost predicate DistinctIds(r: Reading, lines: seq<Line>) {
    Distinct(Map(r.id, lines))
  }

  ghost predicate SinceEpoch(r: Reading, lines: seq<Line>) {
    forall l :: l in lines ==> r.id(l).ts >= 0
  }

  lemma {:induction false} GrepIsPart(r: Reading, lines: seq<Line>, t: bytes, start: int64, end: int64)
    ensures multiset(Grep(r, lines, t, start, end)) <= multiset(lines)
  {
    if lines != [] {
      var front, x := lines[..|lines| - 1], lines[|lines| - 1];
      GrepIsPart(r, front, t, start, end);
      assert lines == front + [x];
    }
  }

  lemma SameIdSameLine(r: Reading, lines: seq<Line>, a: Line, b: Line)
    requires DistinctIds(r, lines) && a in lines && b in lines && r.id(a) == r.id(b)
    ensures a == b
  {
    SameImageSameElement(r.id, lines, a, b);
  }

  // ---------------------------------------------------------------- what the stores hold

  function Replay(r: Reading, lines: seq<Line>): KV {
    Apply(map[], PutsOf(Worker(r), lines))
  }

  lemma LogKeyIsNoTermKey(r: Reading, l: Line, id: RecordId)
    ensures LogKey(id) !in MakeItem(r, l).termKeys
  {
  }

  /** A log record is stored exactly when a line with its identity was committed. */
  lemma LogKeyStored(r: Reading, lines: seq<Line>, id: RecordId)
    ensures LogKey(id) in Replay(r, lines) <==> exists l :: l in lines && r.id(l) == id
  {
    StoreContents(Worker(r), lines, LogKey(id));
    forall l ensures Worker(r)(l).logKey == LogKey(id) <==> r.id(l) == id {
      LogKeyInjective(r.id(l), id);
    }
    forall l ensures LogKey(id) !in Worker(r)(l).termKeys {
      LogKeyIsNoTermKey(r, l, id);
    }
  }

  /** An index entry is stored exactly when a line with its identity and its term was committed. */
  lemma IndexKeyStored(r: Reading, lines: seq<Line>, t: bytes, id: RecordId)
    requires ValidReading(r) && NulFree(t)
    ensures IndexKey(t, id) in Replay(r, lines) <==>
            exists l :: l in lines && r.id(l) == id && t in r.terms(l)
  {
    StoreContents(Worker(r), lines, IndexKey(t, id));
    forall l ensures IndexKey(t, id) in Worker(r)(l).termKeys <==> t in r.terms(l) && id == r.id(l) {
      IndexKeyOfItem(r, l, t, id);
    }
    forall l ensures IndexKey(t, id) != Worker(r)(l).logKey {
      assert IndexKey(t, id)[0] != LogKey(r.id(l))[0];
    }
  }

  /** The stored text of a record is that of the last line with its identity. */
  lemma StoredText(r: Reading, lines: seq<Line>, id: RecordId)
    ensures match LastWith(Worker(r), lines, LogKey(id))
            case None => LogKey(id) !in Replay(r, lines)
            case Some(l) => l in lines && r.id(l) == id && Message(Replay(r, lines), id) == r.text(l)
  {
    forall l ensures LogKey(id) !in Worker(r)(l).termKeys {
      LogKeyIsNoTermKey(r, l, id);
    }
    StoredValue(Worker(r), lines, LogKey(id));
    var last := LastWith(Worker(r), lines, LogKey(id));
    if last.Some? {
      LogKeyInjective(r.id(last.value), id);
    }
  }

  /** The hot index has a posting exactly for the keys that were registered. */
  lemma {:induction false} RegisteredPostings(keys: seq<bytes>, t: bytes, id: RecordId)
    requires NulFree(t)
    ensures id in PostingsOf(Registered(keys), t) <==> IndexKey(t, id) in keys
  {
    if keys != [] {
      var front, key := keys[..|keys| - 1], keys[|keys| - 1];
      RegisteredPostings(front, t, id);
      assert IndexKey(t, id) in keys <==> IndexKey(t, id) in front || IndexKey(t, id) == key;
      DecodeOfEncoding(t, id);
      if DecodeIndexKey(key).Some? {
        DecodedKeyIsEncoding(key);
      }
    }
  }

  lemma {:induction false} KeyOfSomeLine(make: Maker, lines: seq<Line>, key: bytes)
    requires key in KeysOfLines(make, lines)
    ensures exists l :: l in lines && key in make(l).termKeys
  {
    var front, last := lines[..|lines| - 1], lines[|lines| - 1];
    if key !in make(last).termKeys {
      KeyOfSomeLine(make, front, key);
    }
  }

  /** Every posting of the hot index comes from a line received since the restart. */
  lemma HotPostingHasLine(r: Reading, s: State, t: bytes, id: RecordId)
    requires ValidReading(r) && Inv(Worker(r), s) && NulFree(t)
    requires id in PostingsOf(s.core.mem, t)
    ensures exists l :: l in s.hot && l in s.received && r.id(l) == id && t in r.terms(l)
  {
    var make := Worker(r);
    var done :| done + s.todo == KeysOfLines(make, s.hot) && s.core.mem == Registered(done);
    RegisteredPostings(done, t, id);
    assert IndexKey(t, id) in done + s.todo;
    KeyOfSomeLine(make, s.hot, IndexKey(t, id));
    var l :| l in s.hot && IndexKey(t, id) in make(l).termKeys;
    IndexKeyOfItem(r, l, t, id);
  }

  // ---------------------------------------------------------------- searches in reachable states

  /** The tiers a search looks at. */
  function Tier(s: State, hot: bool): Option<Postings> {
    if hot then Some(s.core.mem) else None
  }

  ghost predicate WellTimed(r: Reading, s: State, start: int64) {
    start >= 0 || SinceEpoch(r, s.received)
  }

  lemma CommittedWasReceived(s: State, l: Line)
    requires LinesAccounted(s.received, s.committed, s.lost, s.pending) && l in s.committed
    ensures l in s.received
  {
    assert l in multiset(s.committed);
    assert l in multiset(s.received);
  }

  lemma SearchIsComplete(r: Reading, s: State, t: bytes, start: int64, end: int64)
    requires ValidReading(r) && Inv(Worker(r), s) && NulFree(t) && WellTimed(r, s, start)
    ensures ScanComplete(s.core.store, t, start, end)
  {
    forall id | start < 0 && IndexKey(t, id) in s.core.store ensures id.ts >= 0 {
      IndexKeyStored(r, s.committed, t, id);
      var l :| l in s.committed && r.id(l) == id && t in r.terms(l);
      CommittedWasReceived(s, l);
    }
    ScanCompleteWithoutNegativeTimes(s.core.store, t, start, end);
  }

  ghost predicate Reachable(r: Reading, s: State) {
    exists events :: s == Run(Worker(r), events)
  }

  lemma ReachableInv(r: Reading, s: State)
    requires Reachable(r, s)
    ensures Inv(Worker(r), s)
  {
    var events :| s == Run(Worker(r), events);
    InvHolds(Worker(r), events);
  }

  /**
   * Without any assumption on identities, the range scan alone finds exactly the identities
   * of matching committed lines, with the text of the last line of that identity.
   */
  lemma DiskSearchAgreesWithGrep(r: Reading, s: State, t: bytes, start: int64, end: int64, id: RecordId)
    requires ValidReading(r) && NulFree(t) && Reachable(r, s) && WellTimed(r, s, start)
    ensures var found := Found(s.core.store, None, t, start, end);
            && Distinct(found)
            && (id in found <==> exists l :: l in s.committed && r.id(l) == id && Matches(r, l, t, start, end))
            && (id in found ==> match LastWith(Worker(r), s.committed, LogKey(id))
                                case None => false
                                case Some(l) => Message(s.core.store, id) == r.text(l))
  {
    ReachableInv(r, s);
    SearchIsComplete(r, s, t, start, end);
    FoundElements(s.core.store, None, t, start, end);
    IndexKeyStored(r, s.committed, t, id);
    LogKeyStored(r, s.committed, id);
    StoredText(r, s.committed, id);
  }

  /** The terms of a line are those of its text. */
  ghost predicate TextDecidesTerms(r: Reading) {
    forall a, b :: r.text(a) == r.text(b) ==> r.terms(a) == r.terms(b)
  }

  ghost predicate Contains(r: Reading, text: bytes, t: bytes) {
    exists l :: r.text(l) == text && t in r.terms(l)
  }

  /** The last line of each identity that matches contains the term, too. */
  ghost predicate LastLinesMatch(r: Reading, lines: seq<Line>, t: bytes, start: int64, end: int64) {
    forall l :: l in lines && Matches(r, l, t, start, end) ==>
      var last := LastWith(Worker(r), lines, LogKey(r.id(l))); last.Some? && t in r.terms(last.value)
  }

  lemma LastLineOf(r: Reading, s: State, id: RecordId)
    requires Inv(Worker(r), s) && exists l :: l in s.committed && r.id(l) == id
    ensures var last := LastWith(Worker(r), s.committed, LogKey(id));
            last.Some? && last.value in s.committed && Message(s.core.store, id) == r.text(last.value)
  {
    StoredText(r, s.committed, id);
    LogKeyStored(r, s.committed, id);
  }

  /** Every text that a search returns from disk contains the term, exactly when those last lines do. */
  lemma DiskTextsContainTermIff(r: Reading, s: State, t: bytes, start: int64, end: int64)
    requires ValidReading(r) && NulFree(t) && Reachable(r, s) && WellTimed(r, s, start) && TextDecidesTerms(r)
    ensures (forall id :: id in Found(s.core.store, None, t, start, end) ==> Contains(r, Message(s.core.store, id), t))
            <==> LastLinesMatch(r, s.committed, t, start, end)
  {
    var store := s.core.store;
    var found := Found(store, None, t, start, end);
    ReachableInv(r, s);
    if LastLinesMatch(r, s.committed, t, start, end) {
      forall id | id in found ensures Contains(r, Message(store, id), t) {
        DiskSearchAgreesWithGrep(r, s, t, start, end, id);
        LastLineOf(r, s, id);
      }
    }
    if forall id :: id in found ==> Contains(r, Message(store, id), t) {
      forall l | l in s.committed && Matches(r, l, t, start, end)
        ensures var last := LastWith(Worker(r), s.committed, LogKey(r.id(l))); last.Some? && t in r.terms(last.value)
      {
        DiskSearchAgreesWithGrep(r, s, t, start, end, r.id(l));
        LastLineOf(r, s, r.id(l));
        assert r.id(l) in found;
      }
    }
  }

  /** With distinct identities a live posting of the hot index is committed, or its line is not stored at all. */
  lemma LivePostingIsCommitted(r: Reading, s: State, t: bytes, id: RecordId)
    requires ValidReading(r) && Inv(Worker(r), s) && NulFree(t) && DistinctIds(r, s.received)
    requires id in PostingsOf(s.core.mem, t) && LogKey(id) in s.core.store
    ensures IndexKey(t, id) in s.core.store
  {
    HotPostingHasLine(r, s, t, id);
    LogKeyStored(r, s.committed, id);
    var l :| l in s.hot && l in s.received && r.id(l) == id && t in r.terms(l);
    var c :| c in s.committed && r.id(c) == id;
    CommittedWasReceived(s, c);
    SameIdSameLine(r, s.received, l, c);
    IndexKeyStored(r, s.committed, t, id);
  }

  /** Which records a search finds, in any reachable state and with either choice of tiers. */
  lemma SearchFinds(r: Reading, s: State, hot: bool, t: bytes, start: int64, end: int64, id: RecordId)
    requires ValidReading(r) && Inv(Worker(r), s) && NulFree(t)
    requires DistinctIds(r, s.received) && WellTimed(r, s, start)
    ensures var found := Found(s.core.store, Tier(s, hot), t, start, end);
            Distinct(found) &&
            (id in found <==> exists l :: l in s.committed && r.id(l) == id && Matches(r, l, t, start, end))
  {
    SearchIsComplete(r, s, t, start, end);
    FoundElements(s.core.store, Tier(s, hot), t, start, end);
    IndexKeyStored(r, s.committed, t, id);
    LogKeyStored(r, s.committed, id);
    if id in PostingsOf(s.core.mem, t) && LogKey(id) in s.core.store {
      LivePostingIsCommitted(r, s, t, id);
    }
  }

  lemma TextOfCommitted(r: Reading, s: State, l: Line)
    requires Inv(Worker(r), s) && DistinctIds(r, s.received) && l in s.committed
    ensures Message(s.core.store, r.id(l)) == r.text(l)
  {
    StoredText(r, s.committed, r.id(l));
    LogKeyStored(r, s.committed, r.id(l));
    var last := LastWith(Worker(r), s.committed, LogKey(r.id(l)));
    assert last.Some?;
    CommittedWasReceived(s, l);
    CommittedWasReceived(s, last.value);
    SameIdSameLine(r, s.received, l, last.value);
  }

  lemma IdsOfGrep(r: Reading, lines: seq<Line>, t: bytes, start: int64, end: int64, id: RecordId)
    ensures id in Map(r.id, Grep(r, lines, t, start, end)) <==>
            exists l :: l in lines && r.id(l) == id && Matches(r, l, t, start, end)
  {
    var found := Grep(r, lines, t, start, end);
    var ids := Map(r.id, found);
    if id in ids {
      var i :| 0 <= i < |ids| && ids[i] == id;
      GrepElements(r, lines, t, start, end, found[i]);
    }
    if l :| l in lines && r.id(l) == id && Matches(r, l, t, start, end) {
      GrepElements(r, lines, t, start, end, l);
      var i :| 0 <= i < |found| && found[i] == l;
      assert ids[i] == id;
    }
  }

  lemma GrepTexts(r: Reading, s: State, t: bytes, start: int64, end: int64)
    requires Inv(Worker(r), s) && DistinctIds(r, s.received)
    ensures var lines := Grep(r, s.committed, t, start, end);
            && Distinct(Map(r.id, lines))
            && Map(Reader(s.core.store), Map(r.id, lines)) == Map(r.text, lines)
  {
    var lines := Grep(r, s.committed, t, start, end);
    GrepIsPart(r, s.committed, t, start, end);
    assert multiset(lines) <= multiset(s.received);
    DistinctImagesOfPart(r.id, lines, s.received);
    var ids := Map(r.id, lines);
    forall i | 0 <= i < |lines| ensures Map(Reader(s.core.store), ids)[i] == Map(r.text, lines)[i] {
      GrepElements(r, s.committed, t, start, end, lines[i]);
      TextOfCommitted(r, s, lines[i]);
    }
  }

  /**
   * The index agrees with grep: in every reachable state, with distinct identities, an
   * unlimited search returns exactly the texts of the committed lines of the window that
   * contain the term, each as often as it occurs among them.
   */
  lemma SearchAgreesWithGrep(r: Reading, s: State, hot: bool, t: bytes, start: int64, end: int64)
    requires ValidReading(r) && NulFree(t) && Reachable(r, s)
    requires DistinctIds(r, s.received) && WellTimed(r, s, start)
    ensures multiset(Map(Reader(s.core.store), Found(s.core.store, Tier(s, hot), t, start, end))) ==
            multiset(Map(r.text, Grep(r, s.committed, t, start, end)))
  {
    var found := Found(s.core.store, Tier(s, hot), t, start, end);
    var ids := Map(r.id, Grep(r, s.committed, t, start, end));
    ReachableInv(r, s);
    GrepTexts(r, s, t, start, end);
    SearchFinds(r, s, hot, t, start, end, RecordId(0, 0));
    forall id ensures id in found <==> id in ids {
      SearchFinds(r, s, hot, t, start, end, id);
      IdsOfGrep(r, s.committed, t, start, end, id);
    }
    SameImage(Reader(s.core.store), found, ids);
  }

  lemma FoundCount(r: Reading, s: State, hot: bool, t: bytes, start: int64, end: int64)
    requires ValidReading(r) && NulFree(t) && Reachable(r, s)
    requires DistinctIds(r, s.received) && WellTimed(r, s, start)
    ensures |Found(s.core.store, Tier(s, hot), t, start, end)| == |Grep(r, s.committed, t, start, end)|
  {
    var texts := Map(Reader(s.core.store), Found(s.core.store, Tier(s, hot), t, start, end));
    SearchAgreesWithGrep(r, s, hot, t, start, end);
    assert |multiset(texts)| == |texts|;
    assert |multiset(Map(r.text, Grep(r, s.committed, t, start, end)))| == |Grep(r, s.committed, t, start, end)|;
  }

  lemma SameRecordsFound(r: Reading, s: State, t: bytes, start: int64, end: int64)
    requires ValidReading(r) && NulFree(t) && Inv(Worker(r), s)
    requires DistinctIds(r, s.received) && WellTimed(r, s, start)
    ensures Elements(Found(s.core.store, Tier(s, true), t, start, end)) ==
            Elements(Found(s.core.store, Tier(s, false), t, start, end))
  {
    var both := Found(s.core.store, Tier(s, true), t, start, end);
    var disk := Found(s.core.store, Tier(s, false), t, start, end);
    forall id ensures id in both <==> id in disk {
      SearchFinds(r, s, true, t, start, end, id);
      SearchFinds(r, s, false, t, start, end, id);
    }
  }

  /**
   * The hot tier is transparent: with or without it a search finds the same records, and
   * with a limit the same number of them, as many as the limit allows.
   */
  lemma HotTierIsTransparent(r: Reading, s: State, t: bytes, start: int64, end: int64, limit: int)
    requires ValidReading(r) && NulFree(t) && Reachable(r, s)
    requires DistinctIds(r, s.received) && WellTimed(r, s, start)
    ensures var store, bound, n := s.core.store, if limit > 0 then limit else 50, |Grep(r, s.committed, t, start, end)|;
            var both, disk := Found(store, Tier(s, true), t, start, end), Found(store, Tier(s, false), t, start, end);
            && Elements(both) == Elements(disk)
            && |Take(bound, Map(Reader(store), both))| == (if n < bound then n else bound)
            && |Take(bound, Map(Reader(store), disk))| == (if n < bound then n else bound)
  {
    ReachableInv(r, s);
    SameRecordsFound(r, s, t, start, end);
    FoundCount(r, s, true, t, start, end);
    FoundCount(r, s, false, t, start, end);
  }

  // ---------------------------------------------------------------- without distinct identities

  ghost predicate Transparent(kv: KV, mem: Postings) {
    forall t, start, end, id :: NulFree(t) ==>
      (id in Found(kv, Some(mem), t, start, end) <==> id in Found(kv, None, t, start, end))
  }

  /**
   * In general the hot tier is transparent exactly when every posting whose record is stored
   * has its index key stored, too.
   */
  lemma TransparentIff(kv: KV, mem: Postings)
    requires forall t, id :: NulFree(t) && IndexKey(t, id) in kv ==> id.ts >= 0
    ensures Transparent(kv, mem) <==>
            forall t, id :: NulFree(t) && id in PostingsOf(mem, t) && LogKey(id) in kv ==> IndexKey(t, id) in kv
  {
    forall t, start, end | NulFree(t) ensures ScanComplete(kv, t, start, end) {
      ScanCompleteWithoutNegativeTimes(kv, t, start, end);
    }
    if Transparent(kv, mem) {
      forall t, id | NulFree(t) && id in PostingsOf(mem, t) && LogKey(id) in kv ensures IndexKey(t, id) in kv {
        FoundElements(kv, Some(mem), t, id.ts, id.ts);
        FoundElements(kv, None, t, id.ts, id.ts);
        assert id in Found(kv, Some(mem), t, id.ts, id.ts);
      }
    } else {
      var t, start, end, id :| NulFree(t) &&
        !(id in Found(kv, Some(mem), t, start, end) <==> id in Found(kv, None, t, start, end));
      FoundElements(kv, Some(mem), t, start, end);
      FoundElements(kv, None, t, start, end);
    }
  }

  /** When nothing is pending and nothing was lost, colliding identities do no harm to it. */
  lemma TransparentAfterFlush(r: Reading, s: State)
    requires ValidReading(r) && Reachable(r, s)
    requires s.pending == [] && s.lost == [] && SinceEpoch(r, s.received)
    ensures Transparent(s.core.store, s.core.mem)
  {
    ReachableInv(r, s);
    assert s.committed + [] == s.committed;
    forall t, id | NulFree(t) && IndexKey(t, id) in s.core.store ensures id.ts >= 0 {
      IndexKeyStored(r, s.committed, t, id);
    }
    forall t, id | NulFree(t) && id in PostingsOf(s.core.mem, t) && LogKey(id) in s.core.store
      ensures IndexKey(t, id) in s.core.store
    {
      HotPostingHasLine(r, s, t, id);
      IndexKeyStored(r, s.committed, t, id);
    }
    TransparentIff(s.core.store, s.core.mem);
  }

  // ---------------------------------------------------------------- what a collision does

  /** A line arrives, is indexed, and the ticker fires. */
  function CommitRun(r: Reading, line: Line): seq<Event> {
    [Receive(line)] + Indexing(|r.terms(line)|) + [EndItem(true)] + [Tick(true)]
  }

  /** A first line is committed; a second one is received and indexed, but still pending. */
  function CollisionRun(r: Reading, first: Line, second: Line): seq<Event> {
    CommitRun(r, first) + [Receive(second)] + Indexing(|r.terms(second)|)
  }

  lemma CommitState(r: Reading, line: Line)
    ensures var s := Run(Worker(r), CommitRun(r, line));
            s.committed == [line] && s.pending == [] && s.hot == [line] && s.todo == [] && !s.busy
  {
    var make := Worker(r);
    var e1 := [Receive(line)];
    var e2 := e1 + Indexing(|r.terms(line)|);
    assert [] + e1 == e1;
    RunOneMore(make, [], Receive(line));
    RunIndexing(make, e1, |r.terms(line)|);
    RunOneMore(make, e2, EndItem(true));
    RunOneMore(make, e2 + [EndItem(true)], Tick(true));
    var s := Run(make, e2);
    assert s.pending == [line] && s.committed == [] && s.todo == [] && s.hot == [line];
    InvHolds(make, e2);
    PutsOfOneMore(make, [], line);
    assert [] + [line] == [line];
  }

  lemma CollisionState(r: Reading, first: Line, second: Line)
    ensures var s := Run(Worker(r), CollisionRun(r, first, second));
            s.committed == [first] && s.pending == [second] && s.hot == [first, second] && s.todo == []
  {
    var e := CommitRun(r, first);
    CommitState(r, first);
    RunOneMore(Worker(r), e, Receive(second));
    RunIndexing(Worker(r), e + [Receive(second)], |r.terms(second)|);
  }

  /**
   * When the second line has the identity of the first and a term that the first has not,
   * then between the two writes a search for that term returns the first line from the hot
   * tier, which does not contain it, and nothing from disk.
   */
  lemma CollisionReturnsWrongLine(r: Reading, first: Line, second: Line, t: bytes)
    requires ValidReading(r) && r.id(first) == r.id(second) && r.id(first).ts >= 0
    requires t in r.terms(second) && t !in r.terms(first)
    ensures var s := Run(Worker(r), CollisionRun(r, first, second));
            var id := r.id(first);
            && id in Found(s.core.store, Some(s.core.mem), t, id.ts, id.ts)
            && Message(s.core.store, id) == r.text(first)
            && id !in Found(s.core.store, None, t, id.ts, id.ts)
  {
    var s := Run(Worker(r), CollisionRun(r, first, second));
    var id := r.id(first);
    CollisionState(r, first, second);
    InvHolds(Worker(r), CollisionRun(r, first, second));
    LogKeyStored(r, s.committed, id);
    StoredText(r, s.committed, id);
    IndexKeyStored(r, s.committed, t, id);
    assert first in s.committed;
    var done :| done + s.todo == KeysOfLines(Worker(r), s.hot) && s.core.mem == Registered(done);
    assert done + [] == done;
    PutsOfOneMore(Worker(r), [first], second);
    IndexKeyOfItem(r, second, t, id);
    assert [first] + [second] == s.hot;
    RegisteredPostings(done, t, id);
    ScanCompleteWithoutNegativeTimes(s.core.store, t, id.ts, id.ts);
    FoundElements(s.core.store, Some(s.core.mem), t, id.ts, id.ts);
    FoundElements(s.core.store, None, t, id.ts, id.ts);
  }
}
