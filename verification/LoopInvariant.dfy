/** What holds in every state that the batch loop can reach, failed writes and restarts included. */
module LoopInvariant {
  import opened Bytes
  import opened Seqs
  import opened Store
  import opened MemIndex
  import opened Ingest
  import opened BatchLoop
  import opened Wrappers
  import Tokenizer

  // ---------------------------------------------------------------- one put at a time

  function IndexPuts(keys: seq<bytes>): seq<Put> {
    seq(|keys|, k requires 0 <= k < |keys| => Put(keys[k], []))
  }

  function ItemPuts(item: IndexItem): seq<Put> {
    [Put(item.logKey, item.logValue)] + IndexPuts(item.termKeys)
  }

  /** All puts of the items of these lines, in order. */
  function PutsOf(make: Maker, lines: seq<Line>): seq<Put> {
    if lines == [] then []
    else PutsOf(make, lines[..|lines| - 1]) + ItemPuts(make(lines[|lines| - 1]))
  }

  /** All index keys of the items of these lines, in order. */
  function KeysOfLines(make: Maker, lines: seq<Line>): seq<bytes> {
    if lines == [] then []
    else KeysOfLines(make, lines[..|lines| - 1]) + make(lines[|lines| - 1]).termKeys
  }

  /** The hot index after these keys were registered, in order. */
  function Registered(keys: seq<bytes>): Postings {
    if keys == [] then map[] else Register(Registered(keys[..|keys| - 1]), keys[|keys| - 1])
  }

  lemma PutsOfOneMore(make: Maker, lines: seq<Line>, line: Line)
    ensures PutsOf(make, lines + [line]) == PutsOf(make, lines) + ItemPuts(make(line))
    ensures KeysOfLines(make, lines + [line]) == KeysOfLines(make, lines) + make(line).termKeys
  {
    assert (lines + [line])[..|lines|] == lines;
  }

  lemma {:induction false} PutsConcat(make: Maker, a: seq<Line>, b: seq<Line>)
    ensures PutsOf(make, a + b) == PutsOf(make, a) + PutsOf(make, b)
  {
    if b == [] {
      assert a + b == a;
    } else {
      var front, x := b[..|b| - 1], b[|b| - 1];
      PutsConcat(make, a, front);
      PutsOfOneMore(make, a + front, x);
      ConcatAssociative(a, front, [x]);
      ConcatAssociative(PutsOf(make, a), PutsOf(make, front), ItemPuts(make(x)));
      assert b == front + [x];
    }
  }

  // ---------------------------------------------------------------- the invariant

  /** The store is what the committed lines, put by put, make of an empty store. */
  ghost predicate StoreIsReplay(make: Maker, store: KV, committed: seq<Line>) {
    store == Apply(map[], PutsOf(make, committed))
  }

  /** The batch is the puts of the pending lines, up to the term keys still to be handled. */
  ghost predicate BatchIsPending(make: Maker, batch: seq<Put>, todo: seq<bytes>, pending: seq<Line>) {
    batch + IndexPuts(todo) == PutsOf(make, pending)
  }

  /** The hot index holds the keys of all lines since the restart, up to those still to be handled. */
  ghost predicate HotIsRegistered(make: Maker, mem: Postings, todo: seq<bytes>, hot: seq<Line>) {
    exists done :: done + todo == KeysOfLines(make, hot) && mem == Registered(done)
  }

  /** No line is lost from sight, and without losses the order of arrival is kept. */
  ghost predicate LinesAccounted(received: seq<Line>, committed: seq<Line>, lost: seq<Line>, pending: seq<Line>) {
    && multiset(received) == multiset(committed) + multiset(lost) + multiset(pending)
    && (lost == [] ==> received == committed + pending)
  }

  ghost predicate Inv(make: Maker, s: State) {
    && StoreIsReplay(make, s.core.store, s.committed)
    && BatchIsPending(make, s.core.batch, s.todo, s.pending)
    && s.core.batchSize == |s.core.batch| && (s.todo != [] ==> s.busy)
    && HotIsRegistered(make, s.core.mem, s.todo, s.hot)
    && LinesAccounted(s.received, s.committed, s.lost, s.pending)
    && (forall l :: l in s.hot ==> l in s.received)
  }

  lemma CommitKeepsReplay(make: Maker, store: KV, committed: seq<Line>, batch: seq<Put>, pending: seq<Line>)
    requires StoreIsReplay(make, store, committed) && BatchIsPending(make, batch, [], pending)
    ensures StoreIsReplay(make, Apply(store, batch), committed + pending)
  {
    assert batch + [] == batch;
    PutsConcat(make, committed, pending);
    ApplyConcat(map[], PutsOf(make, committed), batch);
  }

  lemma LinesMoved(received: seq<Line>, committed: seq<Line>, lost: seq<Line>, pending: seq<Line>)
    requires LinesAccounted(received, committed, lost, pending)
    ensures LinesAccounted(received, committed + pending, lost, [])
    ensures LinesAccounted(received, committed, lost + pending, [])
    ensures forall l :: LinesAccounted(received + [l], committed, lost, pending + [l])
  {
    assert committed + pending + [] == committed + pending;
    assert committed + [] == committed;
    forall l ensures LinesAccounted(received + [l], committed, lost, pending + [l]) {
      assert committed + pending + [l] == committed + (pending + [l]);
    }
  }

  lemma OneMorePending(make: Maker, batch: seq<Put>, pending: seq<Line>, line: Line)
    requires BatchIsPending(make, batch, [], pending)
    ensures var item := make(line);
            BatchIsPending(make, batch + [Put(item.logKey, item.logValue)], item.termKeys, pending + [line])
  {
    PutsOfOneMore(make, pending, line);
    assert batch + [] == batch;
  }

  lemma OneMoreHot(make: Maker, mem: Postings, hot: seq<Line>, line: Line)
    requires HotIsRegistered(make, mem, [], hot)
    ensures HotIsRegistered(make, mem, make(line).termKeys, hot + [line])
  {
    var done :| done + [] == KeysOfLines(make, hot) && mem == Registered(done);
    PutsOfOneMore(make, hot, line);
    assert done + make(line).termKeys == KeysOfLines(make, hot + [line]);
  }

  lemma OneKeyDone(make: Maker, batch: seq<Put>, mem: Postings, todo: seq<bytes>, pending: seq<Line>, hot: seq<Line>)
    requires todo != []
    requires BatchIsPending(make, batch, todo, pending) && HotIsRegistered(make, mem, todo, hot)
    ensures BatchIsPending(make, batch + [Put(todo[0], [])], todo[1..], pending)
    ensures HotIsRegistered(make, Register(mem, todo[0]), todo[1..], hot)
  {
    assert IndexPuts(todo) == [Put(todo[0], [])] + IndexPuts(todo[1..]);
    assert batch + IndexPuts(todo) == batch + [Put(todo[0], [])] + IndexPuts(todo[1..]);
    var done :| done + todo == KeysOfLines(make, hot) && mem == Registered(done);
    assert (done + [todo[0]])[..|done|] == done;
    assert done + [todo[0]] + todo[1..] == KeysOfLines(make, hot);
  }

  lemma FlushKeepsInv(make: Maker, s: State, ok: bool)
    requires Inv(make, s) && s.todo == []
    ensures Inv(make, FlushState(s, ok))
  {
    CommitKeepsReplay(make, s.core.store, s.committed, s.core.batch, s.pending);
    LinesMoved(s.received, s.committed, s.lost, s.pending);
    assert BatchIsPending(make, [], [], []);
  }

  lemma RestartKeepsInv(make: Maker, s: State)
    requires Inv(make, s)
    ensures Inv(make, Next(make, s, Restart))
  {
    LinesMoved(s.received, s.committed, s.lost, s.pending);
    assert BatchIsPending(make, [], [], []);
    assert [] + [] == KeysOfLines(make, []) && map[] == Registered([]);
  }

  lemma ReceiveKeepsInv(make: Maker, s: State, line: Line)
    requires Inv(make, s) && !s.busy
    ensures Inv(make, Next(make, s, Receive(line)))
  {
    LinesMoved(s.received, s.committed, s.lost, s.pending);
    OneMorePending(make, s.core.batch, s.pending, line);
    OneMoreHot(make, s.core.mem, s.hot, line);
  }

  lemma IndexNextKeepsInv(make: Maker, s: State)
    requires Inv(make, s) && s.todo != []
    ensures Inv(make, Next(make, s, IndexNext))
  {
    OneKeyDone(make, s.core.batch, s.core.mem, s.todo, s.pending, s.hot);
  }

  lemma EndItemKeepsInv(make: Maker, s: State, ok: bool)
    requires Inv(make, s)
    ensures Inv(make, Next(make, s, EndItem(ok)))
  {
    if s.todo == [] { FlushKeepsInv(make, s, ok); }
  }

  lemma TickKeepsInv(make: Maker, s: State, ok: bool)
    requires Inv(make, s)
    ensures Inv(make, Next(make, s, Tick(ok)))
  {
    if !s.busy { FlushKeepsInv(make, s, ok); }
  }

  lemma InvKept(make: Maker, s: State, e: Event)
    requires Inv(make, s)
    ensures Inv(make, Next(make, s, e))
  {
    match e
    case Receive(line) => if !s.busy { ReceiveKeepsInv(make, s, line); }
    case IndexNext => if s.todo != [] { IndexNextKeepsInv(make, s); }
    case EndItem(ok) => EndItemKeepsInv(make, s, ok);
    case Tick(ok) => TickKeepsInv(make, s, ok);
    case Restart => RestartKeepsInv(make, s);
  }

  /** The invariant holds in every reachable state. */
  lemma {:induction false} InvHolds(make: Maker, events: seq<Event>)
    ensures Inv(make, Run(make, events))
  {
    if events != [] {
      InvHolds(make, events[..|events| - 1]);
      InvKept(make, Run(make, events[..|events| - 1]), events[|events| - 1]);
    } else {
      assert BatchIsPending(make, [], [], []);
      assert [] + [] == KeysOfLines(make, []) && map[] == Registered([]);
    }
  }

  // ---------------------------------------------------------------- the contents of the store

  lemma {:induction false} StoreContents(make: Maker, lines: seq<Line>, key: bytes)
    ensures key in Apply(map[], PutsOf(make, lines)) <==>
            exists l :: l in lines && (key == make(l).logKey || key in make(l).termKeys)
  {
    if lines != [] {
      var front, last := lines[..|lines| - 1], lines[|lines| - 1];
      StoreContents(make, front, key);
      ApplyConcat(map[], PutsOf(make, front), ItemPuts(make(last)));
      ApplyKeys(Apply(map[], PutsOf(make, front)), ItemPuts(make(last)), key);
      KeysOfItemPuts(make(last), key);
      assert forall l :: l in lines <==> l in front || l == last;
    }
  }

  lemma KeysOfItemPuts(item: IndexItem, key: bytes)
    ensures (exists p :: p in ItemPuts(item) && p.key == key) <==> key == item.logKey || key in item.termKeys
  {
    var puts := ItemPuts(item);
    assert puts[0] == Put(item.logKey, item.logValue);
    if key in item.termKeys {
      var k :| 0 <= k < |item.termKeys| && item.termKeys[k] == key;
      assert puts[k + 1] == Put(key, []);
    }
  }

  /** The last of these lines with this log key. */
  function LastWith(make: Maker, lines: seq<Line>, key: bytes): Option<Line> {
    if lines == [] then None
    else if make(lines[|lines| - 1]).logKey == key then Some(lines[|lines| - 1])
    else LastWith(make, lines[..|lines| - 1], key)
  }

  /** Lines with the same log key overwrite each other: the last one is what the store holds. */
  lemma {:induction false} StoredValue(make: Maker, lines: seq<Line>, key: bytes)
    requires forall l :: l in lines ==> key !in make(l).termKeys
    ensures var store := Apply(map[], PutsOf(make, lines));
            match LastWith(make, lines, key)
            case None => key !in store
            case Some(l) => l in lines && make(l).logKey == key && key in store && store[key] == make(l).logValue
  {
    if lines != [] {
      var front, last := lines[..|lines| - 1], lines[|lines| - 1];
      StoredValue(make, front, key);
      var before := Apply(map[], PutsOf(make, front));
      ApplyConcat(map[], PutsOf(make, front), ItemPuts(make(last)));
      IndexPutsLeave(before[make(last).logKey := make(last).logValue], make(last).termKeys, key);
      ApplyConcat(before, [Put(make(last).logKey, make(last).logValue)], IndexPuts(make(last).termKeys));
      ApplyOne(before, Put(make(last).logKey, make(last).logValue));
    }
  }

  lemma ApplyOne(kv: KV, p: Put)
    ensures Apply(kv, [p]) == kv[p.key := p.value]
  {
    assert [p][..0] == [];
  }

  lemma IndexPutsLeave(kv: KV, keys: seq<bytes>, key: bytes)
    requires key !in keys
    ensures var after := Apply(kv, IndexPuts(keys));
            (key in after <==> key in kv) && (key in kv ==> after[key] == kv[key])
  {
    ApplyKeys(kv, IndexPuts(keys), key);
  }

  /** Even when writes fail: an index key in the store has its log record in the store. */
  lemma IndexKeysHaveRecords(make: Maker, events: seq<Event>, key: bytes)
    requires key in Run(make, events).core.store
    ensures exists l :: && l in Run(make, events).committed
                        && (key == make(l).logKey || key in make(l).termKeys)
                        && make(l).logKey in Run(make, events).core.store
                        && forall k :: k in make(l).termKeys ==> k in Run(make, events).core.store
  {
    var s := Run(make, events);
    InvHolds(make, events);
    StoreContents(make, s.committed, key);
    var l :| l in s.committed && (key == make(l).logKey || key in make(l).termKeys);
    StoreContents(make, s.committed, make(l).logKey);
    forall k | k in make(l).termKeys ensures k in s.core.store {
      StoreContents(make, s.committed, k);
    }
  }

  /**
   * Batching is transparent: if nothing was lost, writing the batch out leaves the store that
   * putting every item as it arrived, one put at a time, would have left.
   */
  lemma BatchingIsTransparent(make: Maker, events: seq<Event>)
    requires !Run(make, events).busy && Run(make, events).lost == []
    ensures var s := Run(make, events + [Tick(true)]);
            && s.received == Run(make, events).received
            && s.core.store == Apply(map[], PutsOf(make, s.received))
            && s.core.batch == [] && s.committed == s.received
  {
    var s := Run(make, events);
    InvHolds(make, events);
    RunOneMore(make, events, Tick(true));
    CommitKeepsReplay(make, s.core.store, s.committed, s.core.batch, s.pending);
    if s.core.batchSize == 0 {
      assert s.core.batch + IndexPuts([]) == [];
      PutsOfNothing(make, s.pending);
      assert s.committed + [] == s.committed;
    }
  }

  lemma PutsOfNothing(make: Maker, lines: seq<Line>)
    requires PutsOf(make, lines) == []
    ensures lines == []
  {
  }

  // ---------------------------------------------------------------- the size of the batch

  ghost predicate TermsBounded(make: Maker, events: seq<Event>, m: nat) {
    forall i :: 0 <= i < |events| && events[i].Receive? ==> |make(events[i].line).termKeys| <= m
  }

  ghost predicate BatchWithin(s: State, m: nat) {
    && |s.core.batch| + |s.todo| <= MAX_BATCH_SIZE + m
    && (!s.busy ==> |s.core.batch| < MAX_BATCH_SIZE)
  }

  lemma BatchWithinKept(make: Maker, s: State, e: Event, m: nat)
    requires Inv(make, s) && BatchWithin(s, m)
    requires e.Receive? ==> |make(e.line).termKeys| <= m
    ensures BatchWithin(Next(make, s, e), m)
  {
  }

  lemma {:induction false} BatchBound(make: Maker, events: seq<Event>, m: nat)
    requires TermsBounded(make, events, m)
    ensures BatchWithin(Run(make, events), m)
  {
    if events != [] {
      var front := events[..|events| - 1];
      assert TermsBounded(make, front, m);
      BatchBound(make, front, m);
      InvHolds(make, front);
      BatchWithinKept(make, Run(make, front), events[|events| - 1], m);
    }
  }

  /**
   * With lines that fit a receive buffer, fewer than 2500 puts are pending between items,
   * and never more than 3183.
   */
  lemma BatchNeverExceeds(decode: Tokenizer.Decoder, events: seq<Event>)
    requires Tokenizer.ValidDecoder(decode)
    requires forall i :: 0 <= i < |events| && events[i].Receive? ==> |events[i].line.data| <= 2048
    ensures var s := Run(Worker(EngineReading(decode)), events);
            |s.core.batch| <= 3183 && (!s.busy ==> |s.core.batch| < 2500)
  {
    EngineReadingIsValid(decode);
    forall i | 0 <= i < |events| && events[i].Receive?
      ensures |Worker(EngineReading(decode))(events[i].line).termKeys| <= 683
    {
      ItemSizeBound(decode, events[i].line);
    }
    BatchBound(Worker(EngineReading(decode)), events, 683);
  }
}
