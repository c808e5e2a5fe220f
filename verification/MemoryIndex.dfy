/**
 * The in-memory hot index (engine/internal/search/memory_index.go). A posting is the
 * RecordId it names: the fields Offset and Length of PostingEntry are never set.
 * Add and Query each run under the lock, so each is one atomic step.
 */
module MemIndex {
  import opened Bytes
  import opened Schema

  type Postings = map<bytes, seq<RecordId>>

  predicate InWindow(id: RecordId, start: int64, end: int64) {
    start <= id.ts <= end
  }

  /** The ids of the window, in their order. */
  function Window(ids: seq<RecordId>, start: int64, end: int64): seq<RecordId> {
    if ids == [] then [] else
    var front, x := Window(ids[..|ids| - 1], start, end), ids[|ids| - 1];
    if InWindow(x, start, end) then front + [x] else front
  }

  lemma {:induction false} WindowElements(ids: seq<RecordId>, start: int64, end: int64, id: RecordId)
    ensures id in Window(ids, start, end) <==> id in ids && start <= id.ts <= end
  {
    if ids != [] {
      WindowElements(ids[..|ids| - 1], start, end, id);
    }
  }

  lemma {:induction false} WindowConcat(a: seq<RecordId>, b: seq<RecordId>, start: int64, end: int64)
    ensures Window(a + b, start, end) == Window(a, start, end) + Window(b, start, end)
  {
    if b == [] {
      assert a + b == a;
    } else {
      WindowConcat(a, b[..|b| - 1], start, end);
      assert (a + b)[..|a + b| - 1] == a + b[..|b| - 1];
    }
  }

  /** A window keeps the order of arrival, and repeated postings. */
  lemma WindowInOrder(a: seq<RecordId>, x: RecordId, b: seq<RecordId>, start: int64, end: int64)
    ensures Window(a + [x] + b, start, end) ==
            Window(a, start, end) + (if start <= x.ts <= end then [x] else []) + Window(b, start, end)
  {
    WindowConcat(a + [x], b, start, end);
    WindowConcat(a, [x], start, end);
    assert [x][..0] == [];
  }

  /** The postings of a term, none when it was never added. */
  function PostingsOf(terms: Postings, term: bytes): seq<RecordId> {
    if term in terms then terms[term] else []
  }

  function Added(terms: Postings, term: bytes, id: RecordId): Postings {
    terms[term := PostingsOf(terms, term) + [id]]
  }

  class MemoryIndex {
    var terms: Postings

    constructor ()
      ensures terms == map[]
    {
      terms := map[];
    }

    method Add(term: bytes, entry: RecordId)
      modifies this
      ensures PostingsOf(terms, term) == PostingsOf(old(terms), term) + [entry]
      ensures forall u :: u != term ==> PostingsOf(terms, u) == PostingsOf(old(terms), u)
      ensures terms == Added(old(terms), term, entry)
    {
      var entries := if term in terms then terms[term] else [];
      terms := terms[term := entries + [entry]];
    }

    method Query(term: bytes, start: int64, end: int64) returns (matched: seq<RecordId>)
      ensures matched == Window(PostingsOf(terms, term), start, end)
    {
      matched := [];
      if term !in terms {
        return;
      }
      var entries := terms[term];
      var i := 0;
      while i < |entries|
        invariant 0 <= i <= |entries|
        invariant matched == Window(entries[..i], start, end)
      {
        assert entries[..i + 1][..i] == entries[..i];
        if entries[i].ts >= start && entries[i].ts <= end {
          matched := matched + [entries[i]];
        }
        i := i + 1;
      }
      assert entries[..i] == entries;
    }
  }
}
