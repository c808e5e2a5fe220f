/** The two-tier search (engine/internal/search/query.go) on a store that stays as it is. */
module Search {
  import opened Bytes
  import opened Schema
  import opened Seqs
  import opened Store
  import opened MemIndex
  import opened Wrappers

  function EffectiveLimit(limit: int): nat {
    if limit <= 0 then 50 else limit
  }

  /** The identities of the keys that decode, in key order. */
  function EntryIds(keys: seq<bytes>): seq<RecordId> {
    if keys == [] then [] else
    var front, last := EntryIds(keys[..|keys| - 1]), DecodeIndexKey(keys[|keys| - 1]);
    if last.Some? then front + [last.value.id] else front
  }

  /** The entry at which the range scan gives up. */
  predicate Breaks(id: RecordId, start: int64, end: int64) {
    start <= id.ts && end < id.ts
  }

  predicate Stopped(ids: seq<RecordId>, start: int64, end: int64) {
    exists i :: 0 <= i < |ids| && Breaks(ids[i], start, end)
  }

  /** The entries the range scan offers: those of the window that come before the break. */
  function Scan(ids: seq<RecordId>, start: int64, end: int64): seq<RecordId> {
    if ids == [] then [] else
    var front, x := ids[..|ids| - 1], ids[|ids| - 1];
    if InWindow(x, start, end) && !Stopped(front, start, end) then Scan(front, start, end) + [x]
    else Scan(front, start, end)
  }

  /** The ids whose record is stored. */
  function Live(kv: KV, ids: seq<RecordId>): seq<RecordId> {
    if ids == [] then [] else
    var front, x := Live(kv, ids[..|ids| - 1]), ids[|ids| - 1];
    if LogKey(x) in kv then front + [x] else front
  }

  function Answer(kv: KV, ids: seq<RecordId>): seq<RecordId> {
    Live(kv, Dedup(ids))
  }

  function Message(kv: KV, id: RecordId): bytes {
    if LogKey(id) in kv then kv[LogKey(id)] else []
  }

  function Reader(kv: KV): RecordId -> bytes {
    id => Message(kv, id)
  }

  function HotMatches(mem: Option<Postings>, term: bytes, start: int64, end: int64): seq<RecordId> {
    match mem
    case None => []
    case Some(terms) => Window(PostingsOf(terms, term), start, end)
  }

  /** The index entries in the key range of a term, in key order. */
  ghost function Entries(kv: KV, term: bytes): seq<RecordId> {
    EntryIds(RangeKeys(kv, TermPrefix(term)))
  }

  ghost function Candidates(kv: KV, mem: Option<Postings>, term: bytes, start: int64, end: int64): seq<RecordId> {
    HotMatches(mem, term, start, end) + Scan(Entries(kv, term), start, end)
  }

  /** The ids of an unlimited search, in the order in which their messages are returned. */
  ghost function Found(kv: KV, mem: Option<Postings>, term: bytes, start: int64, end: int64): seq<RecordId> {
    Answer(kv, Candidates(kv, mem, term, start, end))
  }

  /** The messages of a search with this limit, when lookups only see the readable records. */
  ghost function Returned(readable: KV, limit: int, ids: seq<RecordId>): seq<bytes> {
    Take(EffectiveLimit(limit), Map(Reader(readable), Answer(readable, ids)))
  }

  /** The first ones of all answers: all of them, or `limit` many, or 50 when the limit is not positive. */
  ghost predicate AsManyAsAllowed<T>(results: seq<T>, limit: int, all: seq<T>) {
    && results <= all
    && (limit > 0 ==> |results| == if |all| <= limit then |all| else limit)
    && (limit <= 0 ==> |results| == if |all| <= 50 then |all| else 50)
  }

  lemma ReturnedAreAllowed(readable: KV, limit: int, ids: seq<RecordId>)
    ensures AsManyAsAllowed(Returned(readable, limit, ids), limit, Map(Reader(readable), Answer(readable, ids)))
    ensures |Returned(readable, limit, ids)| <= if limit > 0 then limit else 50
  {
  }

  // ---------------------------------------------------------------- the code

  /** What fetchLog has collected after it was asked for these ids, in this order, on one store. */
  ghost predicate Fetched(kv: KV, ids: seq<RecordId>, results: seq<bytes>, seen: set<RecordId>) {
    results == Map(Reader(kv), Answer(kv, ids)) && seen == Elements(ids)
  }

  /** The variables captured by the closure fetchLog, and the closure. */
  class Lookup {
    const db: DB
    const keyBuf: array<byte>
    var results: seq<bytes>
    var seen: set<RecordId>

    constructor (db: DB)
      ensures this.db == db && fresh(keyBuf) && keyBuf.Length == 17
      ensures results == [] && seen == {}
    {
      this.db := db;
      keyBuf := new byte[17](_ => 0);
      results, seen := [], {};
    }

    method FetchLog(streamID: uint64, ts: int64) returns (added: bool)
      requires keyBuf.Length == 17
      modifies this, keyBuf
      ensures var id := RecordId(streamID, ts);
              && added == (id !in old(seen) && LogKey(id) in db.Readable())
              && seen == old(seen) + {id}
              && results == if added then old(results) + [Message(db.Readable(), id)] else old(results)
    {
      var id := RecordId(streamID, ts);
      if id in seen {
        return false;
      }
      seen := seen + {id};
      EncodeLogKeyToBuf(keyBuf, streamID, ts);
      var key := keyBuf[..];
      assert keyBuf[17..] == [];
      assert key == LogKey(id);
      var logData := db.Get(key);
      if logData.Some? {
        results := results + [logData.value];
        return true;
      }
      return false;
    }
  }

  class QueryEngine {
    const db: DB
    const memIndex: MemoryIndex?

    constructor (db: DB, memIndex: MemoryIndex?)
      ensures this.db == db && this.memIndex == memIndex
    {
      this.db, this.memIndex := db, memIndex;
    }

    ghost function HotTier(): Option<Postings>
      reads memIndex
    {
      if memIndex == null then None else Some(memIndex.terms)
    }

    /** Tier 1, the hot tier, if there is one: stops as soon as the bound is reached. */
    method SearchHot(lookup: Lookup, term: bytes, start: int64, end: int64, bound: nat)
      returns (full: bool, ghost asked: seq<RecordId>)
      requires lookup.db == db && lookup.keyBuf.Length == 17 && bound > 0
      requires Fetched(db.Readable(), [], lookup.results, lookup.seen)
      modifies lookup, lookup.keyBuf
      ensures Fetched(db.Readable(), asked, lookup.results, lookup.seen)
      ensures asked <= HotMatches(HotTier(), term, start, end)
      ensures if full then |lookup.results| == bound
              else asked == HotMatches(HotTier(), term, start, end) && |lookup.results| < bound
    {
      asked := [];
      if memIndex == null {
        return false, asked;
      }
      var memMatches := memIndex.Query(term, start, end);
      var i := 0;
      assert memMatches[..0] == [];
      while i < |memMatches|
        invariant 0 <= i <= |memMatches|
        invariant Fetched(db.Readable(), memMatches[..i], lookup.results, lookup.seen)
        invariant |lookup.results| < bound
      {
        var m := memMatches[i];
        FetchNext(db.Readable(), memMatches, i, lookup.results, lookup.seen);
        var added := lookup.FetchLog(m.streamID, m.ts);
        i := i + 1;
        if added {
          if |lookup.results| >= bound {
            return true, memMatches[..i];
          }
        }
      }
      assert memMatches[..i] == memMatches;
      return false, memMatches;
    }

    /**
     * Tier 2, the range scan: skips what is too early, breaks at what is too late. `atEnd` tells
     * whether the iterator had no more keys, for whatever reason.
     */
    method SearchDisk(lookup: Lookup, keys: seq<bytes>, start: int64, end: int64, bound: nat, ghost hot: seq<RecordId>)
      returns (atEnd: bool, ghost scanned: seq<RecordId>)
      requires lookup.db == db && lookup.keyBuf.Length == 17
      requires Fetched(db.Readable(), hot, lookup.results, lookup.seen) && |lookup.results| < bound
      modifies lookup, lookup.keyBuf
      ensures Fetched(db.Readable(), hot + scanned, lookup.results, lookup.seen)
      ensures scanned <= Scan(EntryIds(keys), start, end)
      ensures |lookup.results| == bound ||
              (|lookup.results| < bound && scanned == Scan(EntryIds(keys), start, end))
      ensures if atEnd then |lookup.results| < bound && !Stopped(EntryIds(keys), start, end)
              else |lookup.results| == bound || Stopped(EntryIds(keys), start, end)
    {
      var i := 0;
      scanned := [];
      assert hot + [] == hot;
      while i < |keys|
        invariant Scanning(keys, i, start, end, scanned)
        invariant Fetched(db.Readable(), hot + scanned, lookup.results, lookup.seen)
        invariant |lookup.results| < bound
      {
        var entry := DecodeIndexKey(keys[i]);
        OneMoreKey(keys, i, start, end, scanned);
        i := i + 1;
        if entry.None? || entry.value.id.ts < start {
          continue;
        }
        if entry.value.id.ts > end {
          return false, scanned;
        }
        FetchScanned(db.Readable(), hot, scanned, lookup.results, lookup.seen, entry.value.id);
        var added := lookup.FetchLog(entry.value.id.streamID, entry.value.id.ts);
        scanned := scanned + [entry.value.id];
        if added {
          if |lookup.results| >= bound {
            return false, scanned;
          }
        }
      }
      assert keys[..i] == keys;
      return true, scanned;
    }

    /** The keys that the iterator of a search yields before it ends or fails. */
    ghost function KeysYielded(term: bytes): seq<bytes>
      reads db
    {
      Take(if db.keysRead.Some? then db.keysRead.value else |RangeKeys(db.kv, TermPrefix(term))|,
           RangeKeys(db.kv, TermPrefix(term)))
    }

    /** What the search asks for, in order, when the iterator yields just these keys. */
    ghost function Asked(term: bytes, start: int64, end: int64, keys: seq<bytes>): seq<RecordId>
      reads memIndex
    {
      HotMatches(HotTier(), term, start, end) + Scan(EntryIds(keys), start, end)
    }

    /** The iterator fails, and the search is neither full nor past the window by then. */
    ghost predicate CutShort(term: bytes, start: int64, end: int64, limit: int)
      reads db, memIndex
    {
      var keys := KeysYielded(term);
      && |keys| < |RangeKeys(db.kv, TermPrefix(term))|
      && |Answer(db.Readable(), Asked(term, start, end, keys))| < EffectiveLimit(limit)
      && !Stopped(EntryIds(keys), start, end)
    }

    /**
     * Memory postings in arrival order, then index entries in key order; each record at most
     * once, only records that can be read, and no more than the limit. A failing iterator is
     * reported exactly when it cut the scan short; without a report the answer is the same as
     * if it had not failed.
     */
    method SearchTerm(term: bytes, start: int64, end: int64, limit: int) returns (results: seq<bytes>, err: bool)
      ensures err == CutShort(term, start, end, limit)
      ensures results == Returned(db.Readable(), limit,
                if err then Asked(term, start, end, KeysYielded(term))
                else Candidates(db.kv, HotTier(), term, start, end))
      ensures |results| <= if limit > 0 then limit else 50
      ensures !err ==> AsManyAsAllowed(results, limit,
                Map(Reader(db.Readable()), Answer(db.Readable(), Candidates(db.kv, HotTier(), term, start, end))))
    {
      var bound := if limit <= 0 then 50 else limit;
      var lookup := new Lookup(db);
      ghost var hot := HotMatches(HotTier(), term, start, end);
      ghost var scan := Scan(Entries(db.kv, term), start, end);
      var full; ghost var asked;
      full, asked := SearchHot(lookup, term, start, end, bound);
      if full {
        HotOutcome(db.Readable(), hot, asked, scan, Scan(EntryIds(KeysYielded(term)), start, end),
                   lookup.results, lookup.seen, limit);
        return lookup.results, false;
      }
      var prefix := TermPrefix(term);
      var keys, failing := db.NewIterator(prefix);
      ghost var all := RangeKeys(db.kv, prefix);
      assert keys == all[..|keys|] == KeysYielded(term);
      var atEnd; ghost var scanned;
      atEnd, scanned := SearchDisk(lookup, keys, start, end, bound, hot);
      results, err := lookup.results, atEnd && failing;
      DiskOutcome(db.Readable(), hot, all, |keys|, start, end, scanned, results, lookup.seen, bound, atEnd);
      ReturnedAreAllowed(db.Readable(), limit, if err then Asked(term, start, end, keys) else hot + scan);
    }
  }

  // ---------------------------------------------------------------- loop lemmas

  lemma AnswerOfOneMore(kv: KV, ids: seq<RecordId>, x: RecordId)
    ensures Answer(kv, ids + [x]) ==
            if x in ids || LogKey(x) !in kv then Answer(kv, ids) else Answer(kv, ids) + [x]
  {
    assert (ids + [x])[..|ids|] == ids;
    assert (Dedup(ids) + [x])[..|Dedup(ids)|] == Dedup(ids);
  }

  lemma {:induction false} AnswerGrows(kv: KV, a: seq<RecordId>, b: seq<RecordId>)
    ensures Answer(kv, a) <= Answer(kv, a + b)
  {
    if b == [] {
      assert a + b == a;
    } else {
      var front, x := b[..|b| - 1], b[|b| - 1];
      AnswerGrows(kv, a, front);
      AnswerOfOneMore(kv, a + front, x);
      assert a + b == a + front + [x];
    }
  }

  lemma FetchOneMore(kv: KV, ids: seq<RecordId>, results: seq<bytes>, seen: set<RecordId>, x: RecordId)
    requires Fetched(kv, ids, results, seen)
    ensures Fetched(kv, ids + [x],
                    if x in seen || LogKey(x) !in kv then results else results + [Message(kv, x)],
                    seen + {x})
  {
    AnswerOfOneMore(kv, ids, x);
    MapConcat(Reader(kv), Answer(kv, ids), [x]);
    assert Map(Reader(kv), [x]) == [Message(kv, x)];
    assert Elements(ids + [x]) == Elements(ids) + {x};
  }

  lemma FetchNext(kv: KV, ids: seq<RecordId>, i: nat, results: seq<bytes>, seen: set<RecordId>)
    requires i < |ids| && Fetched(kv, ids[..i], results, seen)
    ensures Fetched(kv, ids[..i + 1],
                    if ids[i] in seen || LogKey(ids[i]) !in kv then results else results + [Message(kv, ids[i])],
                    seen + {ids[i]})
  {
    FetchOneMore(kv, ids[..i], results, seen, ids[i]);
    assert ids[..i] + [ids[i]] == ids[..i + 1];
  }

  lemma FetchScanned(kv: KV, hot: seq<RecordId>, scanned: seq<RecordId>,
                     results: seq<bytes>, seen: set<RecordId>, x: RecordId)
    requires Fetched(kv, hot + scanned, results, seen)
    ensures Fetched(kv, hot + (scanned + [x]),
                    if x in seen || LogKey(x) !in kv then results else results + [Message(kv, x)],
                    seen + {x})
  {
    FetchOneMore(kv, hot + scanned, results, seen, x);
    assert hot + scanned + [x] == hot + (scanned + [x]);
  }

  /** The loops end with the bound reached, or with every candidate asked for. */
  lemma LoopsCollect(kv: KV, hot: seq<RecordId>, scan: seq<RecordId>, asked: seq<RecordId>,
                  results: seq<bytes>, seen: set<RecordId>, bound: nat)
    requires Fetched(kv, asked, results, seen) && asked <= hot + scan
    requires |results| == bound || (|results| < bound && asked == hot + scan)
    ensures results == Take(bound, Map(Reader(kv), Answer(kv, hot + scan)))
  {
    var all := hot + scan;
    assert all == asked + all[|asked|..];
    if |results| == bound {
      LimitReached(kv, asked, all[|asked|..], bound);
    }
  }

  /** What the second loop returns and reports when the iterator yields the first n keys of a range. */
  lemma DiskOutcome(kv: KV, hot: seq<RecordId>, all: seq<bytes>, n: nat, start: int64, end: int64,
                    scanned: seq<RecordId>, results: seq<bytes>, seen: set<RecordId>, bound: nat, atEnd: bool)
    requires n <= |all| && Fetched(kv, hot + scanned, results, seen)
    requires scanned <= Scan(EntryIds(all[..n]), start, end)
    requires |results| == bound || (|results| < bound && scanned == Scan(EntryIds(all[..n]), start, end))
    requires if atEnd then |results| < bound && !Stopped(EntryIds(all[..n]), start, end)
             else |results| == bound || Stopped(EntryIds(all[..n]), start, end)
    ensures var err, part := atEnd && n < |all|, Scan(EntryIds(all[..n]), start, end);
            && err == (n < |all| && |Answer(kv, hot + part)| < bound && !Stopped(EntryIds(all[..n]), start, end))
            && results == Take(bound, Map(Reader(kv), Answer(kv, hot +
                 if err then part else Scan(EntryIds(all), start, end))))
  {
    var part := Scan(EntryIds(all[..n]), start, end);
    LoopsCollect(kv, hot, part, hot + scanned, results, seen, bound);
    FullOrAll(kv, hot, scanned, part);
    if !(atEnd && n < |all|) {
      ScanOfKeysRead(all, n, start, end);
      LoopsCollect(kv, hot, Scan(EntryIds(all), start, end), hot + scanned, results, seen, bound);
    }
  }

  /** What the first loop returns when it fills the answer up, whatever the disk would add. */
  lemma HotOutcome(kv: KV, hot: seq<RecordId>, asked: seq<RecordId>, scan: seq<RecordId>, part: seq<RecordId>,
                   results: seq<bytes>, seen: set<RecordId>, limit: int)
    requires asked <= hot && Fetched(kv, asked, results, seen) && |results| == EffectiveLimit(limit)
    ensures results == Returned(kv, limit, hot + scan) && |Answer(kv, hot + part)| >= EffectiveLimit(limit)
    ensures AsManyAsAllowed(results, limit, Map(Reader(kv), Answer(kv, hot + scan)))
    ensures |results| <= if limit > 0 then limit else 50
  {
    LoopsCollect(kv, hot, scan, asked, results, seen, EffectiveLimit(limit));
    assert hot + part == asked + (hot[|asked|..] + part);
    AnswerGrows(kv, asked, hot[|asked|..] + part);
    ReturnedAreAllowed(kv, limit, hot + scan);
  }

  lemma FullOrAll(kv: KV, hot: seq<RecordId>, part: seq<RecordId>, scan: seq<RecordId>)
    requires part <= scan
    ensures |Answer(kv, hot + part)| <= |Answer(kv, hot + scan)|
  {
    assert hot + scan == (hot + part) + scan[|part|..];
    AnswerGrows(kv, hot + part, scan[|part|..]);
  }

  lemma LimitReached(kv: KV, a: seq<RecordId>, b: seq<RecordId>, bound: nat)
    requires |Answer(kv, a)| == bound
    ensures Take(bound, Map(Reader(kv), Answer(kv, a + b))) == Map(Reader(kv), Answer(kv, a))
  {
    AnswerGrows(kv, a, b);
    assert Answer(kv, a + b)[..bound] == Answer(kv, a);
  }

  lemma {:induction false} EntryIdsGrow(keys: seq<bytes>, i: nat)
    requires i <= |keys|
    ensures EntryIds(keys[..i]) <= EntryIds(keys)
    decreases |keys| - i
  {
    if i == |keys| {
      assert keys[..i] == keys;
    } else {
      EntryIdsGrow(keys, i + 1);
      assert keys[..i + 1][..i] == keys[..i];
    }
  }

  lemma {:induction false} ScanGrows(a: seq<RecordId>, b: seq<RecordId>, start: int64, end: int64)
    ensures Scan(a, start, end) <= Scan(a + b, start, end)
  {
    if b == [] {
      assert a + b == a;
    } else {
      ScanGrows(a, b[..|b| - 1], start, end);
      assert (a + b)[..|a + b| - 1] == a + b[..|b| - 1];
    }
  }

  /** The scan has passed the first i keys without a break and has offered these ids. */
  ghost predicate Scanning(keys: seq<bytes>, i: int, start: int64, end: int64, scanned: seq<RecordId>) {
    && 0 <= i <= |keys|
    && scanned <= Scan(EntryIds(keys), start, end)
    && !Stopped(EntryIds(keys[..i]), start, end)
    && scanned == Scan(EntryIds(keys[..i]), start, end)
    && (i == |keys| ==> scanned == Scan(EntryIds(keys), start, end))
  }

  lemma OneMoreEntry(keys: seq<bytes>, i: nat)
    requires i < |keys|
    ensures EntryIds(keys[..i + 1]) ==
            EntryIds(keys[..i]) + match DecodeIndexKey(keys[i]) case Some(entry) => [entry.id] case None => []
    ensures EntryIds(keys[..i + 1]) <= EntryIds(keys)
  {
    assert keys[..i + 1][..i] == keys[..i];
    EntryIdsGrow(keys, i + 1);
  }

  lemma OneMoreId(front: seq<RecordId>, x: RecordId, start: int64, end: int64)
    requires !Stopped(front, start, end)
    ensures Scan(front + [x], start, end) ==
            Scan(front, start, end) + if InWindow(x, start, end) then [x] else []
    ensures Stopped(front + [x], start, end) <==> Breaks(x, start, end)
  {
    assert (front + [x])[..|front|] == front;
    if Breaks(x, start, end) {
      assert Breaks((front + [x])[|front|], start, end);
    }
  }

  lemma ScanOfPart(part: seq<RecordId>, all: seq<RecordId>, start: int64, end: int64)
    requires part <= all
    ensures Scan(part, start, end) <= Scan(all, start, end)
    ensures Stopped(part, start, end) ==> Stopped(all, start, end) && Scan(part, start, end) == Scan(all, start, end)
  {
    assert all == part + all[|part|..];
    ScanGrows(part, all[|part|..], start, end);
    if Stopped(part, start, end) {
      var i :| 0 <= i < |part| && Breaks(part[i], start, end);
      assert Breaks(all[i], start, end);
      ScanAfterBreak(part, all[|part|..], start, end);
    }
  }

  /** Of the first n keys of a range: what the scan offers is the start of, or all of, what it offers of the range. */
  lemma ScanOfKeysRead(all: seq<bytes>, n: nat, start: int64, end: int64)
    requires n <= |all|
    ensures Scan(EntryIds(all[..n]), start, end) <= Scan(EntryIds(all), start, end)
    ensures n == |all| || Stopped(EntryIds(all[..n]), start, end) ==>
              Scan(EntryIds(all[..n]), start, end) == Scan(EntryIds(all), start, end)
  {
    EntryIdsGrow(all, n);
    ScanOfPart(EntryIds(all[..n]), EntryIds(all), start, end);
    assert all[..|all|] == all;
  }

  lemma OneMoreKey(keys: seq<bytes>, i: nat, start: int64, end: int64, scanned: seq<RecordId>)
    requires i < |keys| && Scanning(keys, i, start, end, scanned)
    ensures var entry := DecodeIndexKey(keys[i]);
            if entry.None? || entry.value.id.ts < start then Scanning(keys, i + 1, start, end, scanned)
            else if entry.value.id.ts > end then
              scanned == Scan(EntryIds(keys), start, end) && Stopped(EntryIds(keys), start, end)
            else Scanning(keys, i + 1, start, end, scanned + [entry.value.id])
  {
    var front, now := EntryIds(keys[..i]), EntryIds(keys[..i + 1]);
    OneMoreEntry(keys, i);
    ScanOfPart(now, EntryIds(keys), start, end);
    assert i + 1 == |keys| ==> keys[..i + 1] == keys;
    if DecodeIndexKey(keys[i]).Some? {
      OneMoreId(front, DecodeIndexKey(keys[i]).value.id, start, end);
    } else {
      assert now == front;
    }
  }

  lemma {:induction false} ScanAfterBreak(a: seq<RecordId>, b: seq<RecordId>, start: int64, end: int64)
    requires Stopped(a, start, end)
    ensures Scan(a + b, start, end) == Scan(a, start, end)
  {
    if b == [] {
      assert a + b == a;
    } else {
      var front := b[..|b| - 1];
      ScanAfterBreak(a, front, start, end);
      assert (a + b)[..|a + b| - 1] == a + front;
      var i :| 0 <= i < |a| && Breaks(a[i], start, end);
      assert Breaks((a + front)[i], start, end);
    }
  }
}
