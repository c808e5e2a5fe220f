/** The two key formats of the ordered store (engine/internal/storage/schema.go). */
module Schema {
  import opened Bytes
  import opened Wrappers

  const PREFIX_LOG_RECORD: byte := 0x01
  const PREFIX_INDEX_TERM: byte := 0x02

  /** The identity of a log record: all that its keys say about it. */
  datatype RecordId = RecordId(streamID: uint64, ts: int64)

  datatype IndexEntry = IndexEntry(term: bytes, id: RecordId)

  predicate NulFree(term: bytes) {
    forall k :: 0 <= k < |term| ==> term[k] != 0
  }

  // ---------------------------------------------------------------- encodings

  /** 0x01 | StreamID | TimestampNano */
  function LogKey(id: RecordId): (key: bytes)
    ensures |key| == 17 && key[0] == PREFIX_LOG_RECORD
  {
    [PREFIX_LOG_RECORD] + EncodeUint64(id.streamID) + EncodeUint64(ToUnsigned(id.ts))
  }

  /** 0x02 | Term | 0x00: what every index key of a term starts with. */
  function TermPrefix(term: bytes): (p: bytes)
    ensures |p| == |term| + 2 && p[0] == PREFIX_INDEX_TERM
  {
    [PREFIX_INDEX_TERM] + term + [0]
  }

  /** The sixteen bytes that follow the delimiter. */
  function IdSuffix(id: RecordId): (s: bytes)
    ensures |s| == 16
  {
    EncodeUint64(ToUnsigned(id.ts)) + EncodeUint64(id.streamID)
  }

  /** 0x02 | Term | 0x00 | TimestampNano | StreamID */
  function IndexKey(term: bytes, id: RecordId): (key: bytes)
    ensures |key| == |term| + 18 && key[0] == PREFIX_INDEX_TERM
  {
    TermPrefix(term) + IdSuffix(id)
  }

  /** binary.BigEndian.PutUint64 on dst[at : at+8]. */
  method PutUint64(dst: array<byte>, at: nat, v: uint64)
    requires at + 8 <= dst.Length
    modifies dst
    ensures dst[..] == old(dst[..at]) + EncodeUint64(v) + old(dst[at + 8..])
  {
    var i, rest := 8, v as nat;
    assert dst[at + 8..at + 8] == [];
    while i > 0
      invariant 0 <= i <= 8
      invariant BigEndian(8, v) == BigEndian(i, rest) + dst[at + i..at + 8]
      invariant dst[..at] == old(dst[..at]) && dst[at + 8..] == old(dst[at + 8..])
    {
      ghost var tail := dst[at + i..at + 8];
      i := i - 1;
      dst[at + i] := rest % 256;
      assert dst[at + i..at + 8] == [rest % 256] + tail;
      rest := rest / 256;
    }
    assert dst[..] == dst[..at] + dst[at..at + 8] + dst[at + 8..];
  }

  method EncodeLogKeyToBuf(dst: array<byte>, streamID: uint64, ts: int64)
    requires dst.Length >= 17
    modifies dst
    ensures dst[..] == LogKey(RecordId(streamID, ts)) + old(dst[17..])
  {
    dst[0] := PREFIX_LOG_RECORD;
    PutUint64(dst, 1, streamID);
    PutUint64(dst, 9, ToUnsigned(ts));
    assert dst[..9] == [PREFIX_LOG_RECORD] + EncodeUint64(streamID);
  }

  method EncodeLogKey(streamID: uint64, ts: int64) returns (buf: array<byte>)
    ensures fresh(buf) && buf[..] == LogKey(RecordId(streamID, ts))
  {
    buf := new byte[17](_ => 0);
    EncodeLogKeyToBuf(buf, streamID, ts);
    assert buf[17..] == [];
  }

  method EncodeIndexKey(term: bytes, ts: int64, streamID: uint64) returns (buf: array<byte>)
    ensures fresh(buf) && buf[..] == IndexKey(term, RecordId(streamID, ts))
  {
    buf := new byte[1 + |term| + 1 + 8 + 8](_ => 0);
    buf[0] := PREFIX_INDEX_TERM;
    forall k | 0 <= k < |term| { buf[1 + k] := term[k]; }
    buf[1 + |term|] := 0;
    var offset := 2 + |term|;
    assert buf[..offset] == TermPrefix(term);
    PutUint64(buf, offset, ToUnsigned(ts));
    assert buf[..offset + 8] == TermPrefix(term) + EncodeUint64(ToUnsigned(ts));
    PutUint64(buf, offset + 8, streamID);
    assert buf[..] == IndexKey(term, RecordId(streamID, ts));
  }

  // ---------------------------------------------------------------- decodings

  function DecodeLogKey(key: bytes): Option<RecordId> {
    if |key| != 17 || key[0] != PREFIX_LOG_RECORD then None
    else Some(RecordId(DecodeUint64(key[1..9]), ToSigned(DecodeUint64(key[9..17]))))
  }

  function DecodeIndexKey(key: bytes): Option<IndexEntry> {
    if |key| < 18 || key[0] != PREFIX_INDEX_TERM then None
    else
      var delimIdx := IndexByte(key[1..], 0);
      if delimIdx == |key| - 1 then None
      else
        var actualDelim := 1 + delimIdx;
        var offset := actualDelim + 1;
        if |key| - offset != 16 then None
        else
          Some(IndexEntry(key[1..actualDelim],
                          RecordId(DecodeUint64(key[offset + 8..offset + 16]),
                                   ToSigned(DecodeUint64(key[offset..offset + 8])))))
  }

  /** Two's complement: what eight bytes hold of a signed number. */
  ghost predicate HoldsSigned(s: bytes, x: int64) {
    |s| == 8 && DecodeUint64(s) == if x >= 0 then x else x + 0x1_0000_0000_0000_0000
  }

  /** The bytes of a log key, position by position. */
  lemma LogKeyLayout(id: RecordId)
    ensures var k := LogKey(id);
            |k| == 17 && k[0] == 1 && DecodeUint64(k[1..9]) == id.streamID && HoldsSigned(k[9..17], id.ts)
  {
    var k := LogKey(id);
    assert k[1..9] == EncodeUint64(id.streamID) && k[9..17] == EncodeUint64(ToUnsigned(id.ts));
    Uint64RoundTrip(id.streamID, EncodeUint64(0));
    Uint64RoundTrip(ToUnsigned(id.ts), EncodeUint64(0));
  }

  /** The bytes of an index key: here the time comes before the stream. */
  lemma IndexKeyLayout(term: bytes, id: RecordId)
    ensures var k, n := IndexKey(term, id), |term|;
            && |k| == n + 18 && k[0] == 2 && k[1..n + 1] == term && k[n + 1] == 0
            && HoldsSigned(k[n + 2..n + 10], id.ts) && DecodeUint64(k[n + 10..n + 18]) == id.streamID
  {
    var k, n := IndexKey(term, id), |term|;
    assert k[1..n + 1] == term;
    assert k[n + 2..n + 10] == EncodeUint64(ToUnsigned(id.ts)) && k[n + 10..n + 18] == EncodeUint64(id.streamID);
    Uint64RoundTrip(id.streamID, EncodeUint64(0));
    Uint64RoundTrip(ToUnsigned(id.ts), EncodeUint64(0));
  }

  lemma SignRoundTrip(x: int64, u: uint64)
    ensures ToSigned(ToUnsigned(x)) == x && ToUnsigned(ToSigned(u)) == u
  {
  }

  /** Log keys: decoding inverts encoding, and only encodings decode. */
  lemma LogKeyRoundTrip(id: RecordId, key: bytes)
    ensures DecodeLogKey(LogKey(id)) == Some(id)
    ensures DecodeLogKey(key).Some? <==> |key| == 17 && key[0] == 1
    ensures DecodeLogKey(key).Some? ==> key == LogKey(DecodeLogKey(key).value)
  {
    DecodeOfLogKey(id);
    if DecodeLogKey(key).Some? {
      Uint64RoundTrip(0, key[1..9]);
      Uint64RoundTrip(0, key[9..17]);
      SignRoundTrip(0, DecodeUint64(key[9..17]));
      assert key == key[..1] + key[1..9] + key[9..17];
    }
  }

  lemma DecodeOfLogKey(id: RecordId)
    ensures DecodeLogKey(LogKey(id)) == Some(id)
  {
    var k := LogKey(id);
    assert k[1..9] == EncodeUint64(id.streamID) && k[9..17] == EncodeUint64(ToUnsigned(id.ts));
    Uint64RoundTrip(id.streamID, EncodeUint64(0));
    Uint64RoundTrip(ToUnsigned(id.ts), EncodeUint64(0));
    SignRoundTrip(id.ts, 0);
  }

  lemma LogKeyInjective(a: RecordId, b: RecordId)
    ensures LogKey(a) == LogKey(b) <==> a == b
  {
    DecodeOfLogKey(a);
    DecodeOfLogKey(b);
  }

  lemma IdSuffixRoundTrip(id: RecordId)
    ensures DecodeUint64(IdSuffix(id)[8..16]) == id.streamID
    ensures ToSigned(DecodeUint64(IdSuffix(id)[0..8])) == id.ts
  {
    var s := IdSuffix(id);
    assert s[0..8] == EncodeUint64(ToUnsigned(id.ts)) && s[8..16] == EncodeUint64(id.streamID);
    Uint64RoundTrip(id.streamID, EncodeUint64(0));
    Uint64RoundTrip(ToUnsigned(id.ts), EncodeUint64(0));
    SignRoundTrip(id.ts, 0);
  }

  /** Every key that decodes is the encoding of its parts, and those parts are NUL-free. */
  lemma DecodedKeyIsEncoding(key: bytes)
    requires DecodeIndexKey(key).Some?
    ensures var e := DecodeIndexKey(key).value; NulFree(e.term) && key == IndexKey(e.term, e.id)
  {
    var e := DecodeIndexKey(key).value;
    var d := 1 + IndexByte(key[1..], 0);
    var o := d + 1;
    IndexByteFirst(key[1..], 0);
    assert forall k :: 0 <= k < |e.term| ==> e.term[k] == key[1..][k];
    assert key[d] == key[1..][d - 1] == 0;
    assert key[..o] == TermPrefix(e.term);
    Uint64RoundTrip(0, key[o..o + 8]);
    Uint64RoundTrip(0, key[o + 8..o + 16]);
    SignRoundTrip(0, DecodeUint64(key[o..o + 8]));
    assert key == key[..o] + (key[o..o + 8] + key[o + 8..o + 16]);
  }

  lemma DecodeOfEncoding(term: bytes, id: RecordId)
    requires NulFree(term)
    ensures DecodeIndexKey(IndexKey(term, id)) == Some(IndexEntry(term, id))
  {
    var key := IndexKey(term, id);
    var o := 2 + |term|;
    assert key[1..][|term|] == 0;
    assert forall k :: 0 <= k < |term| ==> key[1..][k] == term[k];
    IndexByteUnique(key[1..], 0, |term|);
    assert key[1..1 + |term|] == term;
    IdSuffixRoundTrip(id);
    assert key[o..o + 8] == IdSuffix(id)[0..8] && key[o + 8..o + 16] == IdSuffix(id)[8..16];
  }

  /** Index keys decode to what they encode exactly when the term is NUL-free. */
  lemma IndexKeyRoundTrip(term: bytes, id: RecordId)
    ensures DecodeIndexKey(IndexKey(term, id)) == Some(IndexEntry(term, id)) <==> NulFree(term)
  {
    if NulFree(term) {
      DecodeOfEncoding(term, id);
    } else if DecodeIndexKey(IndexKey(term, id)).Some? {
      DecodedKeyIsEncoding(IndexKey(term, id));
    }
  }

  lemma IndexKeyInjective(t: bytes, a: RecordId, u: bytes, b: RecordId)
    requires NulFree(t) && NulFree(u)
    ensures IndexKey(t, a) == IndexKey(u, b) <==> t == u && a == b
  {
    DecodeOfEncoding(t, a);
    DecodeOfEncoding(u, b);
  }

  // ---------------------------------------------------------------- order

  /** The order of the identities themselves: by time, then by stream. */
  predicate Before(a: RecordId, b: RecordId) {
    a.ts < b.ts || (a.ts == b.ts && a.streamID < b.streamID)
  }

  lemma SuffixOrder(a: RecordId, b: RecordId)
    ensures Less(IdSuffix(a), IdSuffix(b)) <==>
            ToUnsigned(a.ts) < ToUnsigned(b.ts) || (a.ts == b.ts && a.streamID < b.streamID)
  {
    var x, y := EncodeUint64(ToUnsigned(a.ts)), EncodeUint64(ToUnsigned(b.ts));
    var u, v := EncodeUint64(a.streamID), EncodeUint64(b.streamID);
    Uint64Order(ToUnsigned(a.ts), ToUnsigned(b.ts));
    Uint64Order(a.streamID, b.streamID);
    if a.ts == b.ts {
      LessWithCommonPrefix(x, u, v);
    } else {
      LessByPrefix(x, y, u, v);
    }
  }

  /** A NUL delimiter makes terms of different lengths compare as the terms themselves. */
  lemma {:induction false} TerminatedOrder(t: bytes, u: bytes, x: bytes, y: bytes)
    requires NulFree(t) && NulFree(u) && t != u
    ensures Less(t + [0] + x, u + [0] + y) <==> Less(t, u)
  {
    if t != [] && u != [] && t[0] == u[0] {
      assert t == [t[0]] + t[1..] && u == [u[0]] + u[1..];
      assert (t + [0] + x)[1..] == t[1..] + [0] + x && (u + [0] + y)[1..] == u[1..] + [0] + y;
      TerminatedOrder(t[1..], u[1..], x, y);
    }
  }

  lemma IndexKeyOrderUnsigned(t: bytes, a: RecordId, u: bytes, b: RecordId)
    requires NulFree(t) && NulFree(u)
    ensures Less(IndexKey(t, a), IndexKey(u, b)) <==>
            if t == u then Less(IdSuffix(a), IdSuffix(b)) else Less(t, u)
  {
    var x, y := IdSuffix(a), IdSuffix(b);
    if t == u {
      LessWithCommonPrefix(TermPrefix(t), x, y);
    } else {
      assert IndexKey(t, a) == [PREFIX_INDEX_TERM] + (t + [0] + x);
      assert IndexKey(u, b) == [PREFIX_INDEX_TERM] + (u + [0] + y);
      LessWithCommonPrefix([PREFIX_INDEX_TERM], t + [0] + x, u + [0] + y);
      TerminatedOrder(t, u, x, y);
    }
  }

  /** EncodeIndexKey embeds the order on (term, timestamp, stream) into the order of keys. */
  lemma IndexKeyOrder(t: bytes, a: RecordId, u: bytes, b: RecordId)
    requires NulFree(t) && NulFree(u) && a.ts >= 0 && b.ts >= 0
    ensures Less(IndexKey(t, a), IndexKey(u, b)) <==> Less(t, u) || (t == u && Before(a, b))
  {
    IndexKeyOrderUnsigned(t, a, u, b);
    SuffixOrder(a, b);
    LessIrreflexive(t);
  }

  /** Under one term, key order is time order exactly for timestamps of the same sign. */
  lemma TimeOrderNeedsOneSign(t: bytes, a: RecordId, b: RecordId)
    requires NulFree(t) && a.ts != b.ts
    ensures (Less(IndexKey(t, a), IndexKey(t, b)) <==> Before(a, b)) <==> (a.ts < 0 <==> b.ts < 0)
  {
    IndexKeyOrderUnsigned(t, a, t, b);
    SuffixOrder(a, b);
  }

  // ---------------------------------------------------------------- the range of a term

  /** Within the range of a NUL-free term, the keys that decode are the entries of that term. */
  lemma RangeOfTerm(term: bytes, key: bytes)
    requires NulFree(term) && DecodeIndexKey(key).Some?
    ensures HasPrefix(TermPrefix(term), key) <==> DecodeIndexKey(key).value.term == term
  {
    var e := DecodeIndexKey(key).value;
    DecodedKeyIsEncoding(key);
    assert IndexKey(e.term, e.id)[..|e.term| + 2] == TermPrefix(e.term);
    if HasPrefix(TermPrefix(term), key) {
      var p := TermPrefix(term);
      assert forall k :: 0 <= k < |p| ==> key[k] == key[..|p|][k];
      assert forall k :: 0 <= k < |term| ==> key[1..][k] == p[k + 1] == term[k];
      assert key[1..][|term|] == p[|term| + 1] == 0;
      IndexByteUnique(key[1..], 0, |term|);
      assert key[1..1 + |term|] == term;
    }
  }

  /** Log records never fall into the range of a term. */
  lemma RangeExcludesLogRecords(term: bytes, id: RecordId)
    ensures !HasPrefix(TermPrefix(term), LogKey(id))
  {
    var p, k := TermPrefix(term), LogKey(id);
    assert |p| <= |k| ==> k[..|p|][0] == k[0];
  }

  ghost predicate RangeIsolates(term: bytes) {
    forall key :: HasPrefix(TermPrefix(term), key) && DecodeIndexKey(key).Some? ==>
                    DecodeIndexKey(key).value.term == term
  }

  /**
   * SearchTerm uses the query term verbatim. Its range holds entries of no other term
   * exactly when the term is NUL-free, or its first NUL is followed by so much that no key
   * of the range decodes.
   */
  lemma RangeIsolatesIff(term: bytes)
    ensures RangeIsolates(term) <==> NulFree(term) || |term| - IndexByte(term, 0) > 16
  {
    if NulFree(term) {
      forall key | HasPrefix(TermPrefix(term), key) && DecodeIndexKey(key).Some?
        ensures DecodeIndexKey(key).value.term == term
      {
        RangeOfTerm(term, key);
      }
    } else {
      var p := IndexByte(term, 0);
      IndexByteFirst(term, 0);
      assert p < |term|;
      if |term| - p <= 16 {
        var key := TermPrefix(term) + seq(16 - (|term| - p), _ => 0 as byte);
        FirstNulOfRange(term, key);
        assert key[..|term| + 2] == TermPrefix(term);
        assert HasPrefix(TermPrefix(term), key) && DecodeIndexKey(key).Some?;
        assert |DecodeIndexKey(key).value.term| == p;
        assert !RangeIsolates(term);
      } else {
        forall key | HasPrefix(TermPrefix(term), key) ensures DecodeIndexKey(key).None? {
          FirstNulOfRange(term, key);
        }
      }
    }
  }

  lemma FirstNulOfRange(term: bytes, key: bytes)
    requires !NulFree(term) && HasPrefix(TermPrefix(term), key)
    ensures IndexByte(key[1..], 0) == IndexByte(term, 0) < |term|
  {
    var p := TermPrefix(term);
    var i := IndexByte(term, 0);
    IndexByteFirst(term, 0);
    assert forall k :: 0 <= k < |term| ==> key[1..][k] == key[..|p|][k + 1] == p[k + 1] == term[k];
    assert i < |term|;
    IndexByteUnique(key[1..], 0, i);
  }
}
