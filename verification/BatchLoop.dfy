/**
 * The batch, flush and hot-index loop (engine/cmd/server/main.go): first the code, then the
 * loop as a state machine whose steps other goroutines can interleave with.
 */
module BatchLoop {
  import opened Bytes
  import opened Schema
  import opened Store
  import opened MemIndex
  import opened Ingest

  const MAX_BATCH_SIZE: nat := 2500

  /** The variables of the loop, and the two indexes it writes to. */
  datatype Core = Core(store: KV, batch: seq<Put>, batchSize: nat, mem: Postings)

  function PutLog(c: Core, item: IndexItem): Core {
    c.(batch := c.batch + [Put(item.logKey, item.logValue)], batchSize := c.batchSize + 1)
  }

  function Register(mem: Postings, key: bytes): Postings {
    match DecodeIndexKey(key)
    case None => mem
    case Some(entry) => Added(mem, entry.term, entry.id)
  }

  function PutIndexKey(c: Core, key: bytes): Core {
    c.(batch := c.batch + [Put(key, [])], batchSize := c.batchSize + 1, mem := Register(c.mem, key))
  }

  function PutIndexKeys(c: Core, keys: seq<bytes>): Core {
    if keys == [] then c else PutIndexKey(PutIndexKeys(c, keys[..|keys| - 1]), keys[|keys| - 1])
  }

  function FlushCore(c: Core, storageOk: bool): Core {
    if c.batchSize == 0 then c
    else c.(store := if storageOk then Apply(c.store, c.batch) else c.store, batch := [], batchSize := 0)
  }

  function FlushWhenFull(c: Core, storageOk: bool): Core {
    if c.batchSize >= MAX_BATCH_SIZE then FlushCore(c, storageOk) else c
  }

  /** The first case of the select statement, from start to end. */
  function HandleItem(c: Core, item: IndexItem, storageOk: bool): Core {
    FlushWhenFull(PutIndexKeys(PutLog(c, item), item.termKeys), storageOk)
  }

  lemma {:induction false} KeysCounted(c: Core, keys: seq<bytes>)
    ensures var after := PutIndexKeys(c, keys);
            && after.batchSize == c.batchSize + |keys| && after.store == c.store
            && after.batch == c.batch + seq(|keys|, k requires 0 <= k < |keys| => Put(keys[k], []))
  {
    if keys != [] {
      KeysCounted(c, keys[..|keys| - 1]);
    }
  }

  /** The record and the index entries, with empty values, are written together once there are 2500 puts. */
  lemma WrittenAt2500(c: Core, item: IndexItem, ok: bool)
    ensures var after := HandleItem(c, item, ok);
            var keys := item.termKeys;
            var puts := c.batchSize + 1 + |keys|;
            var batch := c.batch + [Put(item.logKey, item.logValue)]
                         + seq(|keys|, k requires 0 <= k < |keys| => Put(keys[k], []));
            if puts < 2500 then after.batchSize == puts && after.batch == batch && after.store == c.store
            else after.batchSize == 0 && after.batch == [] && after.store == if ok then Apply(c.store, batch) else c.store
  {
    KeysCounted(PutLog(c, item), item.termKeys);
  }

  class Loop {
    const db: DB
    const memIndex: MemoryIndex
    var batch: seq<Put>
    var batchSize: nat

    constructor (db: DB, memIndex: MemoryIndex)
      ensures this.db == db && this.memIndex == memIndex
      ensures View() == Core(db.kv, [], 0, memIndex.terms)
    {
      this.db, this.memIndex := db, memIndex;
      batch, batchSize := [], 0;
    }

    ghost function View(): Core
      reads this, db, memIndex
    {
      Core(db.kv, batch, batchSize, memIndex.terms)
    }

    /** A failed write is logged, and the batch is dropped all the same. */
    method Flush(storageOk: bool)
      modifies this, db
      ensures View() == FlushCore(old(View()), storageOk)
    {
      if batchSize == 0 {
        return;
      }
      var ok := db.WriteBatch(batch, storageOk);
      batch, batchSize := [], 0;
    }

    method ReceiveItem(item: IndexItem, storageOk: bool)
      modifies this, db, memIndex
      ensures View() == HandleItem(old(View()), item, storageOk)
      ensures var puts := old(batchSize) + 1 + |item.termKeys|;
              if puts < 2500 then batchSize == puts && db.kv == old(db.kv) else batchSize == 0 && batch == []
    {
      WrittenAt2500(View(), item, storageOk);
      batch := batch + [Put(item.logKey, item.logValue)];
      batchSize := batchSize + 1;
      ghost var started := View();
      var i := 0;
      while i < |item.termKeys|
        invariant 0 <= i <= |item.termKeys|
        invariant View() == PutIndexKeys(started, item.termKeys[..i])
      {
        var idxKey := item.termKeys[i];
        batch := batch + [Put(idxKey, [])];
        batchSize := batchSize + 1;
        var entry := DecodeIndexKey(idxKey);
        if entry.Some? {
          memIndex.Add(entry.value.term, entry.value.id);
        }
        i := i + 1;
        assert item.termKeys[..i][..i - 1] == item.termKeys[..i - 1];
      }
      assert item.termKeys[..i] == item.termKeys;
      if batchSize >= MAX_BATCH_SIZE {
        Flush(storageOk);
      }
    }

    /** The ticker case of the select statement. */
    method Tick(storageOk: bool)
      modifies this, db
      ensures View() == FlushCore(old(View()), storageOk)
    {
      Flush(storageOk);
    }
  }

  // ---------------------------------------------------------------- the state machine

  /** What the workers make of a line. */
  type Maker = Line -> IndexItem

  /**
   * The loop between two of its steps. `todo` holds the term keys of the current item that
   * are not yet handled. The last five fields only record what happened: every line
   * received, in order, and where its item went; `hot` starts again at every restart.
   */
  datatype State = State(core: Core, busy: bool, todo: seq<bytes>,
                         received: seq<Line>, pending: seq<Line>, committed: seq<Line>, lost: seq<Line>, hot: seq<Line>)

  datatype Event =
    | Receive(line: Line)      // an item arrives: its log record goes into the batch
    | IndexNext                // one term key goes into the batch and into the hot index
    | EndItem(ok: bool)        // the item is done; a full batch is written, or the write fails
    | Tick(ok: bool)           // the ticker fires
    | Restart                  // the process ends; memory is lost, the store is not

  function Init(): State {
    State(Core(map[], [], 0, map[]), false, [], [], [], [], [], [])
  }

  function FlushState(s: State, ok: bool): State {
    if s.core.batchSize == 0 then s
    else s.(core := FlushCore(s.core, ok), pending := [],
            committed := if ok then s.committed + s.pending else s.committed,
            lost := if ok then s.lost else s.lost + s.pending)
  }

  /** One step. An event that the loop is not ready for changes nothing. */
  function Next(make: Maker, s: State, e: Event): State {
    match e
    case Receive(line) =>
      if s.busy then s
      else s.(core := PutLog(s.core, make(line)), busy := true, todo := make(line).termKeys,
              received := s.received + [line], pending := s.pending + [line], hot := s.hot + [line])
    case IndexNext =>
      if s.todo == [] then s
      else s.(core := PutIndexKey(s.core, s.todo[0]), todo := s.todo[1..])
    case EndItem(ok) =>
      if !s.busy || s.todo != [] then s
      else (if s.core.batchSize >= MAX_BATCH_SIZE then FlushState(s, ok) else s).(busy := false)
    case Tick(ok) =>
      if s.busy then s
      else FlushState(s, ok)
    case Restart =>
      s.(core := Core(s.core.store, [], 0, map[]), busy := false, todo := [],
         pending := [], lost := s.lost + s.pending, hot := [])
  }

  function Run(make: Maker, events: seq<Event>): State {
    if events == [] then Init()
    else Next(make, Run(make, events[..|events| - 1]), events[|events| - 1])
  }

  /** n times IndexNext */
  function Indexing(n: nat): seq<Event> {
    seq(n, _ => IndexNext)
  }

  lemma RunOneMore(make: Maker, events: seq<Event>, e: Event)
    ensures Run(make, events + [e]) == Next(make, Run(make, events), e)
  {
    assert (events + [e])[..|events|] == events;
  }

  /** s after its first n term keys were handled. */
  function Indexed(s: State, n: nat): State
    requires n <= |s.todo|
  {
    s.(core := PutIndexKeys(s.core, s.todo[..n]), todo := s.todo[n..])
  }

  lemma IndexOneMore(make: Maker, s: State, n: nat)
    requires n < |s.todo|
    ensures Next(make, Indexed(s, n), IndexNext) == Indexed(s, n + 1)
  {
    assert s.todo[..n + 1][..n] == s.todo[..n];
    assert s.todo[n..][1..] == s.todo[n + 1..];
  }

  lemma {:induction false} RunIndexing(make: Maker, events: seq<Event>, n: nat)
    requires n <= |Run(make, events).todo|
    ensures Run(make, events + Indexing(n)) == Indexed(Run(make, events), n)
  {
    if n == 0 {
      assert events + Indexing(0) == events;
      assert Run(make, events).todo[0..] == Run(make, events).todo;
    } else {
      RunIndexing(make, events, n - 1);
      IndexOneMore(make, Run(make, events), n - 1);
      RunOneMore(make, events + Indexing(n - 1), IndexNext);
      assert events + Indexing(n) == events + Indexing(n - 1) + [IndexNext];
    }
  }

  /** The steps of an item, without interruption, are what ReceiveItem does. */
  lemma StepsOfAnItem(make: Maker, events: seq<Event>, line: Line, ok: bool)
    requires !Run(make, events).busy
    ensures var item := make(line);
            var s := Run(make, events + [Receive(line)] + Indexing(|item.termKeys|) + [EndItem(ok)]);
            !s.busy && s.todo == [] && s.core == HandleItem(Run(make, events).core, item, ok)
  {
    var item := make(line);
    var n := |item.termKeys|;
    RunOneMore(make, events, Receive(line));
    RunIndexing(make, events + [Receive(line)], n);
    RunOneMore(make, events + [Receive(line)] + Indexing(n), EndItem(ok));
    assert item.termKeys[..n] == item.termKeys && item.termKeys[n..] == [];
  }
}
