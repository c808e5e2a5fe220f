/** What a worker makes of a packet (engine/internal/pipeline/worker_pool.go, workerLoop). */
module Ingest {
  import opened Bytes
  import opened Seqs
  import opened Schema
  import opened Parser
  import opened Tokenizer
  import opened Wrappers

  const BUFFER_SIZE: nat := 2048

  /** What copy or ReadFromUDP leaves of a line in a receive buffer. */
  function CutOff(data: bytes): bytes {
    Take(BUFFER_SIZE, data)
  }

  /** The bytes of a packet and the clock reading with which they are parsed. */
  datatype Line = Line(data: bytes, now: int64)

  datatype IndexItem = IndexItem(logKey: bytes, logValue: bytes, termKeys: seq<bytes>)

  /** uint64(parsed.Facility): a negative facility wraps around. */
  function StreamOf(line: Line): uint64 {
    Parse(line.data, line.now).facility % TWO_TO_THE_64
  }

  function IdOf(line: Line): RecordId {
    RecordId(StreamOf(line), line.now)
  }

  function TextOf(line: Line): bytes {
    Parse(line.data, line.now).message
  }

  function TermsOf(decode: Decoder, line: Line): seq<bytes> {
    Terms(decode(TextOf(line)))
  }

  function KeysOf(terms: seq<bytes>, id: RecordId): seq<bytes> {
    seq(|terms|, k requires 0 <= k < |terms| => IndexKey(terms[k], id))
  }

  function ItemOf(decode: Decoder, line: Line): IndexItem {
    IndexItem(LogKey(IdOf(line)), TextOf(line), KeysOf(TermsOf(decode, line), IdOf(line)))
  }

  /**
   * What a parser and a tokenizer read out of a line. Everything downstream of the workers
   * depends on them only through these three functions.
   */
  datatype Reading = Reading(id: Line -> RecordId, text: Line -> bytes, terms: Line -> seq<bytes>)

  function MakeItem(r: Reading, line: Line): IndexItem {
    IndexItem(LogKey(r.id(line)), r.text(line), KeysOf(r.terms(line), r.id(line)))
  }

  function Worker(r: Reading): Line -> IndexItem {
    line => MakeItem(r, line)
  }

  ghost predicate ValidReading(r: Reading) {
    forall line, t :: t in r.terms(line) ==> NulFree(t)
  }

  /** The reading of the engine's own parser and tokenizer. */
  function EngineReading(decode: Decoder): Reading {
    Reading(line => IdOf(line), line => TextOf(line), line => TermsOf(decode, line))
  }

  lemma EngineReadingIsValid(decode: Decoder)
    requires ValidDecoder(decode)
    ensures ValidReading(EngineReading(decode))
    ensures forall line :: Worker(EngineReading(decode))(line) == ItemOf(decode, line)
  {
    forall line, t | t in TermsOf(decode, line) ensures NulFree(t) {
      TermsAreNulFree(decode(TextOf(line)), t);
    }
  }

  /** The item as it lies in memory: one array for each key and for the value. */
  ghost predicate Holds(logKey: array<byte>, val: array<byte>, termKeys: seq<array<byte>>, item: IndexItem)
    reads logKey, val, termKeys
  {
    && logKey[..] == item.logKey && val[..] == item.logValue
    && |termKeys| == |item.termKeys|
    && forall k :: 0 <= k < |termKeys| ==> termKeys[k][..] == item.termKeys[k]
  }

  /** make and copy: a new array with the same bytes. */
  method CloneBytes(s: bytes) returns (a: array<byte>)
    ensures fresh(a) && a[..] == s
  {
    a := new byte[|s|](_ => 0);
    forall k | 0 <= k < |s| { a[k] := s[k]; }
  }

  /** The loop over the tokens of a message. */
  method EncodeTermKeys(tokens: seq<bytes>, ts: int64, streamID: uint64) returns (termKeys: seq<array<byte>>)
    ensures fresh(termKeys) && |termKeys| == |tokens|
    ensures forall k :: 0 <= k < |tokens| ==> termKeys[k][..] == KeysOf(tokens, RecordId(streamID, ts))[k]
  {
    termKeys := [];
    var i := 0;
    while i < |tokens|
      invariant 0 <= i <= |tokens| && |termKeys| == i
      invariant fresh(termKeys)
      invariant forall k :: 0 <= k < i ==> termKeys[k][..] == IndexKey(tokens[k], RecordId(streamID, ts))
    {
      var idxKey := EncodeIndexKey(tokens[i], ts, streamID);
      termKeys := termKeys + [idxKey];
      i := i + 1;
    }
  }

  /** The body of the worker's loop; every array it returns is new, none is the packet's buffer. */
  method ProcessPacket(decode: Decoder, data: array<byte>, size: nat, now: int64)
    returns (logKey: array<byte>, val: array<byte>, termKeys: seq<array<byte>>)
    requires size <= data.Length
    ensures fresh(logKey) && fresh(val) && fresh(termKeys)
    ensures Holds(logKey, val, termKeys, ItemOf(decode, Line(data[..size], now)))
  {
    var parsed := ParseSyslogRFC3164(data[..size], now);
    var streamID := parsed.facility % TWO_TO_THE_64;
    logKey := EncodeLogKey(streamID, parsed.timestampNano);
    val := CloneBytes(parsed.message);
    var tokens := Tokenize(decode, parsed.message);
    termKeys := EncodeTermKeys(tokens, parsed.timestampNano, streamID);
  }

  // ---------------------------------------------------------------- properties

  /** Every index key of an item decodes to its term and to the identity of its log key. */
  lemma TermKeysDecode(r: Reading, line: Line, k: nat)
    requires ValidReading(r) && k < |r.terms(line)|
    ensures DecodeIndexKey(MakeItem(r, line).termKeys[k]) == Some(IndexEntry(r.terms(line)[k], r.id(line)))
  {
    assert r.terms(line)[k] in r.terms(line);
    DecodeOfEncoding(r.terms(line)[k], r.id(line));
  }

  /** An index key belongs to the item of a line exactly when it names a term and the identity of the line. */
  lemma IndexKeyOfItem(r: Reading, line: Line, t: bytes, id: RecordId)
    requires ValidReading(r) && NulFree(t)
    ensures IndexKey(t, id) in MakeItem(r, line).termKeys <==> t in r.terms(line) && id == r.id(line)
  {
    var terms, keys := r.terms(line), MakeItem(r, line).termKeys;
    if IndexKey(t, id) in keys {
      var k :| 0 <= k < |keys| && keys[k] == IndexKey(t, id);
      assert terms[k] in terms;
      IndexKeyInjective(t, id, terms[k], r.id(line));
    }
    if t in terms {
      var k :| 0 <= k < |terms| && terms[k] == t;
      assert keys[k] == IndexKey(t, r.id(line));
    }
  }

  /** A line that fits a receive buffer has at most 683 terms. */
  lemma ItemSizeBound(decode: Decoder, line: Line)
    requires ValidDecoder(decode) && |line.data| <= 2048
    ensures |ItemOf(decode, line).termKeys| <= 683
  {
    TermCountBound(decode, TextOf(line));
    ParseShape(line.data, line.now);
  }

  /** uint64 of a small number: a negative one wraps around. */
  lemma Wraps(facility: int)
    requires -125 <= facility <= 1249
    ensures facility % TWO_TO_THE_64 == if facility >= 0 then facility else 0x1_0000_0000_0000_0000 + facility
  {
  }

  lemma FacilityBound(line: Line)
    ensures -125 <= Parse(line.data, line.now).facility <= 1249
  {
    PriSplits(line.data, line.now);
  }

  /** The stream of a record is the facility, and its time the clock reading. */
  lemma IdIsFacility(line: Line)
    ensures var facility := Parse(line.data, line.now).facility;
            && IdOf(line).ts == line.now
            && IdOf(line).streamID == if facility >= 0 then facility else 0x1_0000_0000_0000_0000 + facility
  {
    FacilityBound(line);
    Wraps(Parse(line.data, line.now).facility);
  }

  /** Two lines share their identity exactly if they share facility and nanosecond. */
  lemma SameIdIff(a: Line, b: Line)
    ensures IdOf(a) == IdOf(b) <==>
            a.now == b.now && Parse(a.data, a.now).facility == Parse(b.data, b.now).facility
  {
    FacilityBound(a);
    FacilityBound(b);
    Wraps(Parse(a.data, a.now).facility);
    Wraps(Parse(b.data, b.now).facility);
  }

  /** A line in the BSD syslog format is stored under the facility of its PRI. */
  lemma SyslogIdentity(pri: nat, timestamp: bytes, host: bytes, message: bytes, now: int64)
    requires pri <= 191 && IsTimestamp(timestamp) && IsHost(host)
    requires message == [] || message[0] != SPACE
    ensures var line := Line(PrintSyslog(pri, timestamp, host, message), now);
            IdOf(line) == RecordId(pri / 8, now) && TextOf(line) == message
  {
    SyslogRoundTrip(pri, timestamp, host, message, now);
    Wraps(pri / 8);
  }

  /** A line that is one word of letters and digits: its own text and its own only term. */
  lemma WordLine(decode: Decoder, w: bytes, now: int64)
    requires ReadsAscii(decode) && IsAsciiTerm(w)
    ensures var line := Line(w, now);
            IdOf(line) == RecordId(1, now) && TextOf(line) == w && TermsOf(decode, line) == [w]
  {
    assert forall k :: 0 <= k < |w| ==> IsLetterOrDigit(w[k]);
    assert IsAscii(w) && w[0] != LESS_THAN && SPACE !in w;
    WholeLineKept(w, now);
    OnlyAsciiTerm(w);
    assert decode(w) == AsciiRunes(w);
    assert [w][..0] == [] && Dedup([w]) == [w];
  }

  /** What the engine reads out of it. */
  ghost predicate ReadsWord(r: Reading, w: bytes, now: int64) {
    var line := Line(w, now);
    r.id(line) == RecordId(1, now) && r.text(line) == w && r.terms(line) == [w]
  }

  lemma EngineReadsWord(decode: Decoder, w: bytes, now: int64)
    requires ReadsAscii(decode) && IsAsciiTerm(w)
    ensures ReadsWord(EngineReading(decode), w, now)
  {
    WordLine(decode, w, now);
  }
}
