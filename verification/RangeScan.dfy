/** What the range scan and the two tiers return, in terms of the contents of the store. */
module RangeScan {
  import opened Bytes
  import opened Schema
  import opened Seqs
  import opened Store
  import opened MemIndex
  import opened Search
  import opened Wrappers

  /** Key order within one term: timestamps compare as unsigned numbers. */
  ghost predicate InKeyOrder(ids: seq<RecordId>) {
    forall i, j :: 0 <= i < j < |ids| ==> Less(IdSuffix(ids[i]), IdSuffix(ids[j]))
  }

  ghost predicate InTimeOrder(ids: seq<RecordId>) {
    forall i, j :: 0 <= i < j < |ids| ==> Before(ids[i], ids[j])
  }

  // ---------------------------------------------------------------- the entries of a term

  lemma {:induction false} EntryIdsOfRange(term: bytes, keys: seq<bytes>)
    requires NulFree(term) && Sorted(keys)
    requires forall k :: k in keys ==> HasPrefix(TermPrefix(term), k)
    ensures InKeyOrder(EntryIds(keys))
    ensures forall id :: id in EntryIds(keys) <==> IndexKey(term, id) in keys
  {
    if keys != [] {
      var front, key := keys[..|keys| - 1], keys[|keys| - 1];
      EntryIdsOfRange(term, front);
      assert forall k :: k in keys <==> k in front || k == key;
      var ids := EntryIds(front);
      if DecodeIndexKey(key).Some? {
        var x := DecodeIndexKey(key).value.id;
        RangeOfTerm(term, key);
        DecodedKeyIsEncoding(key);
        forall i | 0 <= i < |ids| ensures Less(IdSuffix(ids[i]), IdSuffix(x)) {
          assert IndexKey(term, ids[i]) in front;
          IndexKeyOrderUnsigned(term, ids[i], term, x);
        }
        forall id ensures IndexKey(term, id) == key <==> id == x { IndexKeyInjective(term, id, term, x); }
      } else {
        forall id ensures IndexKey(term, id) != key { DecodeOfEncoding(term, id); }
      }
    }
  }

  /** The range of a term holds exactly its index entries, each once, in key order. */
  lemma EntriesOfTerm(kv: KV, term: bytes)
    requires NulFree(term)
    ensures InKeyOrder(Entries(kv, term)) && Distinct(Entries(kv, term))
    ensures forall id :: id in Entries(kv, term) <==> IndexKey(term, id) in kv
  {
    var keys := RangeKeys(kv, TermPrefix(term));
    forall k ensures k in keys <==> k in kv && HasPrefix(TermPrefix(term), k) {
      RangeIsPrefix(TermPrefix(term), k);
    }
    EntryIdsOfRange(term, keys);
    forall id ensures HasPrefix(TermPrefix(term), IndexKey(term, id)) {
      assert IndexKey(term, id)[..|term| + 2] == TermPrefix(term);
    }
    var ids := Entries(kv, term);
    forall i, j | 0 <= i < j < |ids| ensures ids[i] != ids[j] {
      LessIrreflexive(IdSuffix(ids[i]));
    }
  }

  // ---------------------------------------------------------------- the early break

  /** An entry past the window, and an entry from before 1970 in it: the second sorts after the first. */
  ghost predicate Hidden(ids: seq<RecordId>, start: int64, end: int64) {
    && (exists a :: a in ids && a.ts >= 0 && a.ts > end)
    && (exists b :: b in ids && b.ts < 0 && InWindow(b, start, end))
  }

  lemma {:induction false} ScanIsPartOfWindow(ids: seq<RecordId>, start: int64, end: int64)
    ensures |Scan(ids, start, end)| <= |Window(ids, start, end)|
  {
    if ids != [] {
      ScanIsPartOfWindow(ids[..|ids| - 1], start, end);
    }
  }

  /**
   * Skipping and breaking gives the same as filtering the whole range, exactly when no
   * entry with a negative timestamp is hidden behind one past the window.
   */
  lemma {:induction false} ScanIsWindowIff(ids: seq<RecordId>, start: int64, end: int64)
    requires InKeyOrder(ids)
    ensures Scan(ids, start, end) == Window(ids, start, end) <==> !Hidden(ids, start, end)
  {
    if ids != [] {
      var front, x := ids[..|ids| - 1], ids[|ids| - 1];
      ScanIsWindowIff(front, start, end);
      ScanIsPartOfWindow(front, start, end);
      assert forall id :: id in ids <==> id in front || id == x;
      forall i | 0 <= i < |front|
        ensures ToUnsigned(front[i].ts) <= ToUnsigned(x.ts)
      {
        assert ids[i] == front[i];
        SuffixOrder(front[i], x);
      }
      assert forall id :: id in front ==> ToUnsigned(id.ts) <= ToUnsigned(x.ts);
      LastEntry(front, x, start, end);
    }
  }

  lemma LastEntry(front: seq<RecordId>, x: RecordId, start: int64, end: int64)
    requires forall id :: id in front ==> ToUnsigned(id.ts) <= ToUnsigned(x.ts)
    ensures var ids := front + [x];
            if InWindow(x, start, end) && Stopped(front, start, end) then Hidden(ids, start, end)
            else Hidden(ids, start, end) <==> Hidden(front, start, end)
  {
    var ids := front + [x];
    assert forall id :: id in ids <==> id in front || id == x;
    assert forall id :: id in front && Breaks(id, start, end) ==> Stopped(front, start, end);
    if InWindow(x, start, end) && Stopped(front, start, end) {
      var i :| 0 <= i < |front| && Breaks(front[i], start, end);
      assert front[i] in front && front[i] in ids && x in ids;
    } else if Hidden(ids, start, end) {
      var a :| a in ids && a.ts >= 0 && a.ts > end;
      var b :| b in ids && b.ts < 0 && InWindow(b, start, end);
      assert (a in front || a == x) && (b in front || b == x);
      assert Breaks(a, start, end);
    }
  }

  /** Two entries of one term, one of 1969 and one of 1970: a window around the first finds nothing. */
  lemma BreakHidesNegativeTimestamp(s: uint64)
    ensures InKeyOrder([RecordId(s, 5), RecordId(s, -1)])
    ensures Scan([RecordId(s, 5), RecordId(s, -1)], -1, 0) == []
    ensures Window([RecordId(s, 5), RecordId(s, -1)], -1, 0) == [RecordId(s, -1)]
  {
    var a, b := RecordId(s, 5), RecordId(s, -1);
    SuffixOrder(a, b);
    assert [a, b][..1] == [a] && [a][..0] == [];
    assert Breaks([a][0], -1, 0);
    assert Scan([a], -1, 0) == [];
    assert Window([a], -1, 0) == [];
    assert Window([a, b], -1, 0) == Window([a], -1, 0) + [b];
  }

  lemma {:induction false} ScanElements(ids: seq<RecordId>, start: int64, end: int64, id: RecordId)
    requires InKeyOrder(ids)
    ensures id in Scan(ids, start, end) ==> id in ids && InWindow(id, start, end)
    ensures id in ids && InWindow(id, start, end) && !Hidden(ids, start, end) ==> id in Scan(ids, start, end)
  {
    ScanIsWindowIff(ids, start, end);
    WindowElements(ids, start, end, id);
    if id in Scan(ids, start, end) {
      ScanWithinIds(ids, start, end, id);
    }
  }

  lemma {:induction false} ScanWithinIds(ids: seq<RecordId>, start: int64, end: int64, id: RecordId)
    requires id in Scan(ids, start, end)
    ensures id in ids && InWindow(id, start, end)
  {
    if id != ids[|ids| - 1] || id in Scan(ids[..|ids| - 1], start, end) {
      ScanWithinIds(ids[..|ids| - 1], start, end, id);
    }
  }

  // ---------------------------------------------------------------- what a search finds

  lemma {:induction false} LiveElements(kv: KV, ids: seq<RecordId>)
    requires Distinct(ids)
    ensures Distinct(Live(kv, ids))
    ensures forall id :: id in Live(kv, ids) <==> id in ids && LogKey(id) in kv
  {
    if ids != [] {
      LiveElements(kv, ids[..|ids| - 1]);
    }
  }

  lemma AnswerElements(kv: KV, ids: seq<RecordId>)
    ensures Distinct(Answer(kv, ids))
    ensures forall id :: id in Answer(kv, ids) <==> id in ids && LogKey(id) in kv
  {
    DedupElements(ids);
    LiveElements(kv, Dedup(ids));
  }

  /** Lookups that fail lose exactly their own records, silently. */
  lemma UnreadableAreLost(kv: KV, bad: set<bytes>, ids: seq<RecordId>, id: RecordId)
    ensures id in Answer(Without(kv, bad), ids) <==> id in Answer(kv, ids) && LogKey(id) !in bad
  {
    AnswerElements(kv, ids);
    AnswerElements(Without(kv, bad), ids);
  }

  lemma ReadableMessages(kv: KV, bad: set<bytes>, ids: seq<RecordId>)
    ensures Map(Reader(Without(kv, bad)), Answer(Without(kv, bad), ids)) == Map(Reader(kv), Answer(Without(kv, bad), ids))
  {
    AnswerElements(Without(kv, bad), ids);
    var found := Answer(Without(kv, bad), ids);
    forall i | 0 <= i < |found| ensures Reader(Without(kv, bad))(found[i]) == Reader(kv)(found[i]) {
      assert found[i] in found;
    }
  }

  /**
   * With failing lookups the answer is part of what it would be without, and all of it exactly if
   * none of its own lookups failed.
   */
  lemma AnswerWithFailures(kv: KV, bad: set<bytes>, ids: seq<RecordId>)
    ensures var readable := Without(kv, bad);
            && multiset(Map(Reader(readable), Answer(readable, ids))) <= multiset(Map(Reader(kv), Answer(kv, ids)))
            && (|Answer(readable, ids)| == |Answer(kv, ids)| <==> forall id :: id in Answer(kv, ids) ==> LogKey(id) !in bad)
  {
    var readable := Without(kv, bad);
    var found, all := Answer(readable, ids), Answer(kv, ids);
    AnswerElements(kv, ids);
    AnswerElements(readable, ids);
    forall id ensures id in found <==> id in all && LogKey(id) !in bad {
      UnreadableAreLost(kv, bad, ids, id);
    }
    ReadableMessages(kv, bad, ids);
    PartOfImage(Reader(kv), found, all);
    SameSizeIff(found, all);
  }

  /** No negative timestamp of the term is hidden from a scan of this window. */
  ghost predicate ScanComplete(kv: KV, term: bytes, start: int64, end: int64) {
    !Hidden(Entries(kv, term), start, end)
  }

  lemma ScanCompleteWithoutNegativeTimes(kv: KV, term: bytes, start: int64, end: int64)
    requires NulFree(term)
    requires start >= 0 || forall id :: IndexKey(term, id) in kv ==> id.ts >= 0
    ensures ScanComplete(kv, term, start, end)
  {
    EntriesOfTerm(kv, term);
  }

  /**
   * An unlimited search returns, each once, the stored records of the window that either
   * tier has a posting for.
   */
  lemma FoundElements(kv: KV, mem: Option<Postings>, term: bytes, start: int64, end: int64)
    requires NulFree(term) && ScanComplete(kv, term, start, end)
    ensures Distinct(Found(kv, mem, term, start, end))
    ensures forall id :: id in Found(kv, mem, term, start, end) <==>
              && LogKey(id) in kv && InWindow(id, start, end)
              && (IndexKey(term, id) in kv || (mem.Some? && id in PostingsOf(mem.value, term)))
  {
    var ids, hot := Entries(kv, term), HotMatches(mem, term, start, end);
    AnswerElements(kv, Candidates(kv, mem, term, start, end));
    EntriesOfTerm(kv, term);
    forall id
      ensures id in Scan(ids, start, end) <==> IndexKey(term, id) in kv && InWindow(id, start, end)
      ensures id in hot <==> mem.Some? && id in PostingsOf(mem.value, term) && InWindow(id, start, end)
    {
      ScanElements(ids, start, end, id);
      if mem.Some? { WindowElements(PostingsOf(mem.value, term), start, end, id); }
    }
  }

  lemma {:induction false} ScanIsOrdered(ids: seq<RecordId>, start: int64, end: int64)
    requires InTimeOrder(ids)
    ensures InTimeOrder(Scan(ids, start, end))
  {
    if ids != [] {
      var front, x := ids[..|ids| - 1], ids[|ids| - 1];
      ScanIsOrdered(front, start, end);
      forall i | 0 <= i < |Scan(front, start, end)| ensures Before(Scan(front, start, end)[i], x) {
        ScanWithinIds(front, start, end, Scan(front, start, end)[i]);
      }
    }
  }

  lemma {:induction false} AnswerIsOrdered(kv: KV, ids: seq<RecordId>)
    requires InTimeOrder(ids)
    ensures InTimeOrder(Answer(kv, ids))
  {
    if ids != [] {
      var front, x := ids[..|ids| - 1], ids[|ids| - 1];
      AnswerIsOrdered(kv, front);
      AnswerOfOneMore(kv, front, x);
      assert ids == front + [x];
      forall id | id in Answer(kv, front) ensures Before(id, x) {
        AnswerElements(kv, front);
        var i :| 0 <= i < |front| && front[i] == id;
        assert ids[i] == id;
      }
    }
  }

  /** What b adds to the answer for a. */
  ghost predicate IsAdded(kv: KV, a: seq<RecordId>, b: seq<RecordId>, more: seq<RecordId>) {
    && Answer(kv, a + b) == Answer(kv, a) + more && InKeyOrder(more)
    && forall id :: id in more ==> id in b && id !in a
  }

  lemma AddedOneMore(kv: KV, a: seq<RecordId>, front: seq<RecordId>, x: RecordId, more: seq<RecordId>)
    returns (more': seq<RecordId>)
    requires IsAdded(kv, a, front, more) && InKeyOrder(front + [x])
    ensures IsAdded(kv, a, front + [x], more')
  {
    ConcatAssociative(a, front, [x]);
    AnswerOfOneMore(kv, a + front, x);
    more' := more;
    if x !in a + front && LogKey(x) in kv {
      ConcatAssociative(Answer(kv, a), more, [x]);
      AddedLast(front, more, x);
      more' := more + [x];
    }
  }

  lemma {:induction false} AnswerInTwo(kv: KV, a: seq<RecordId>, b: seq<RecordId>) returns (more: seq<RecordId>)
    requires InKeyOrder(b)
    ensures IsAdded(kv, a, b, more)
  {
    if b == [] {
      more := [];
      assert a + b == a && Answer(kv, a) + more == Answer(kv, a);
    } else {
      var front, x := b[..|b| - 1], b[|b| - 1];
      more := AnswerInTwo(kv, a, front);
      assert b == front + [x];
      more := AddedOneMore(kv, a, front, x, more);
    }
  }

  lemma AddedLast(front: seq<RecordId>, more: seq<RecordId>, x: RecordId)
    requires InKeyOrder(front + [x]) && InKeyOrder(more) && forall id :: id in more ==> id in front
    ensures InKeyOrder(more + [x])
  {
    var ids := front + [x];
    forall i | 0 <= i < |more| ensures Less(IdSuffix(more[i]), IdSuffix(x)) {
      assert more[i] in front;
      var j :| 0 <= j < |front| && front[j] == more[i];
      assert ids[j] == more[i] && ids[|front|] == x;
    }
  }

  lemma {:induction false} ScanInKeyOrder(ids: seq<RecordId>, start: int64, end: int64)
    requires InKeyOrder(ids)
    ensures InKeyOrder(Scan(ids, start, end))
  {
    if ids != [] {
      var front, x := ids[..|ids| - 1], ids[|ids| - 1];
      ScanInKeyOrder(front, start, end);
      assert front + [x] == ids;
      forall id | id in Scan(front, start, end) ensures id in front {
        ScanWithinIds(front, start, end, id);
      }
      AddedLast(front, Scan(front, start, end), x);
    }
  }

  /** First what the hot index found, in its order; then what only the disk has, in key order. */
  lemma HotResultsFirst(kv: KV, mem: Option<Postings>, term: bytes, start: int64, end: int64)
    returns (onDisk: seq<RecordId>)
    requires NulFree(term)
    ensures Found(kv, mem, term, start, end) == Answer(kv, HotMatches(mem, term, start, end)) + onDisk
    ensures InKeyOrder(onDisk)
    ensures forall id :: id in onDisk ==> IndexKey(term, id) in kv && id !in HotMatches(mem, term, start, end)
  {
    var ids := Entries(kv, term);
    EntriesOfTerm(kv, term);
    ScanInKeyOrder(ids, start, end);
    onDisk := AnswerInTwo(kv, HotMatches(mem, term, start, end), Scan(ids, start, end));
    forall id | id in onDisk ensures IndexKey(term, id) in kv {
      ScanWithinIds(ids, start, end, id);
    }
  }

  /** From disk alone, with timestamps since 1970, records come back oldest first. */
  lemma DiskSearchIsChronological(kv: KV, term: bytes, start: int64, end: int64)
    requires NulFree(term) && forall id :: IndexKey(term, id) in kv ==> id.ts >= 0
    ensures InTimeOrder(Found(kv, None, term, start, end))
  {
    var ids := Entries(kv, term);
    EntriesOfTerm(kv, term);
    forall i, j | 0 <= i < j < |ids| ensures Before(ids[i], ids[j]) {
      assert ids[i] in ids && ids[j] in ids;
      SuffixOrder(ids[i], ids[j]);
    }
    ScanIsOrdered(ids, start, end);
    AnswerIsOrdered(kv, Scan(ids, start, end));
    assert [] + Scan(ids, start, end) == Scan(ids, start, end);
  }
}
