/** The syslog parser (engine/internal/ingestion/parser.go); the clock is a parameter. */
module Parser {
  import opened Bytes
  import opened Wrappers

  const SPACE: byte := 0x20
  const LESS_THAN: byte := 0x3c
  const GREATER_THAN: byte := 0x3e
  const PLUS: byte := 0x2b
  const MINUS: byte := 0x2d

  datatype ParsedLog = ParsedLog(priority: int, facility: int, severity: int,
                                 timestampNano: int64, hostname: bytes, message: bytes)

  // ---------------------------------------------------------------- library functions

  function LeadingSpaces(s: bytes): (n: nat)
    ensures n <= |s|
    ensures n < |s| ==> s[n] != SPACE
  {
    SpacesFrom(s, 0)
  }

  function SpacesFrom(s: bytes, from: nat): (n: nat)
    requires from <= |s|
    ensures from <= n <= |s|
    ensures n < |s| ==> s[n] != SPACE
    decreases |s| - from
  {
    if from < |s| && s[from] == SPACE then SpacesFrom(s, from + 1) else from
  }

  lemma {:induction false} SpaceBeforeText(s: bytes, from: nat, k: nat)
    requires from <= |s| && from <= k < SpacesFrom(s, from)
    ensures s[k] == SPACE
    decreases |s| - from
  {
    if from < k {
      SpaceBeforeText(s, from + 1, k);
    }
  }

  /** bytes.TrimLeft(s, " ") */
  function TrimLeft(s: bytes): bytes {
    s[LeadingSpaces(s)..]
  }

  predicate IsDigit(b: byte) {
    0x30 <= b <= 0x39
  }

  predicate AllDigits(s: bytes) {
    forall k :: 0 <= k < |s| ==> IsDigit(s[k])
  }

  function DecimalValue(s: bytes): int {
    if s == [] then 0 else 10 * DecimalValue(s[..|s| - 1]) + s[|s| - 1] as int - 0x30
  }

  /** strconv.Atoi on strings too short to overflow: an optional sign, then digits. */
  function Atoi(s: bytes): Option<int> {
    var digits := if s != [] && (s[0] == PLUS || s[0] == MINUS) then s[1..] else s;
    if digits == [] || !AllDigits(digits) then None
    else
      var value := DecimalValue(digits);
      Some(if s[0] == MINUS then -value else value)
  }

  // ---------------------------------------------------------------- specification

  /** The line starts with a bracket that closes after one to four bytes. */
  predicate HasPri(data: bytes) {
    data != [] && data[0] == LESS_THAN &&
    var endPri := IndexByte(data, GREATER_THAN);
    endPri < |data| && 1 < endPri <= 5
  }

  function Pri(data: bytes): Option<int> {
    if HasPri(data) then Atoi(data[1..IndexByte(data, GREATER_THAN)]) else None
  }

  /** The bracket is skipped even when what it encloses is not a number. */
  function SkipPri(data: bytes): bytes {
    if HasPri(data) then data[IndexByte(data, GREATER_THAN) + 1..] else data
  }

  predicate HasTimestamp(data: bytes) {
    |data| > 16 && data[3] == SPACE && data[6] == SPACE && data[15] == SPACE
  }

  function SkipTimestamp(data: bytes): bytes {
    if HasTimestamp(data) then data[16..] else data
  }

  /** What is left for hostname and message. */
  function Body(data: bytes): bytes {
    TrimLeft(SkipTimestamp(TrimLeft(SkipPri(data))))
  }

  predicate HasHost(body: bytes) {
    IndexByte(body, SPACE) < |body|
  }

  function HostOf(body: bytes): bytes {
    if HasHost(body) then body[..IndexByte(body, SPACE)] else []
  }

  function RestOf(body: bytes): bytes {
    if HasHost(body) then TrimLeft(body[IndexByte(body, SPACE) + 1..]) else body
  }

  /** Priority, facility and severity. Go's >> 3 rounds towards minus infinity, as division by 8 does here. */
  function PriParts(data: bytes): (int, int, int) {
    match Pri(data)
    case Some(pri) => (pri, pri / 8, pri % 8)
    case None => (0, 1, 6)
  }

  function Parse(data: bytes, now: int64): ParsedLog {
    var (priority, facility, severity) := PriParts(data);
    var body := Body(data);
    ParsedLog(priority, facility, severity, now, HostOf(body), RestOf(body))
  }

  // ---------------------------------------------------------------- the code

  /** Step 1 of the parser: the PRI prefix, and the data after it. */
  method TakePri(packet: bytes) returns (res: ParsedLog, data: bytes)
    requires packet != []
    ensures data == SkipPri(packet)
    ensures (res.priority, res.facility, res.severity) == PriParts(packet)
  {
    data := packet;
    res := ParsedLog(0, 1, 6, 0, [], []);
    if data[0] == LESS_THAN {
      var endPri := IndexByte(data, GREATER_THAN);
      if endPri < |data| && endPri > 1 && endPri <= 5 {
        var priVal := Atoi(data[1..endPri]);
        if priVal.Some? {
          res := res.(priority := priVal.value, facility := priVal.value / 8, severity := priVal.value % 8);
        }
        data := data[endPri + 1..];
      }
    }
  }

  /** Step 3 of the parser: the hostname ends at the first space. */
  method TakeHost(data: bytes) returns (hostname: bytes, message: bytes)
    ensures hostname == HostOf(data) && message == RestOf(data)
  {
    var spaceIdx := IndexByte(data, SPACE);
    if spaceIdx < |data| {
      hostname, message := data[..spaceIdx], TrimLeft(data[spaceIdx + 1..]);
    } else {
      hostname, message := [], data;
    }
  }

  method ParseSyslogRFC3164(packet: bytes, now: int64) returns (res: ParsedLog)
    ensures res == Parse(packet, now)
  {
    if |packet| == 0 {
      return ParsedLog(0, 1, 6, now, [], []);
    }
    var data;
    res, data := TakePri(packet);

    data := TrimLeft(data);
    if |data| > 16 && data[3] == SPACE && data[6] == SPACE && data[15] == SPACE {
      data := data[16..];
    }

    data := TrimLeft(data);
    assert data == Body(packet);
    var hostname, message := TakeHost(data);
    res := res.(timestampNano := now, hostname := hostname, message := message);
  }

  // ---------------------------------------------------------------- properties

  predicate IsSuffix(s: bytes, t: bytes) {
    |s| <= |t| && t[|t| - |s|..] == s
  }

  lemma SuffixOfTail(s: bytes, t: bytes, n: nat)
    requires n <= |t| && IsSuffix(s, t[n..])
    ensures IsSuffix(s, t)
  {
    assert t[n..][|t| - n - |s|..] == t[|t| - |s|..];
  }

  lemma SuffixTransitive(s: bytes, t: bytes, u: bytes)
    requires IsSuffix(s, t) && IsSuffix(t, u)
    ensures IsSuffix(s, u)
  {
    SuffixOfTail(s, u, |u| - |t|);
  }

  lemma DroppedIsSuffix(s: bytes, u: bytes, n: nat)
    requires IsSuffix(s, u) && n <= |s|
    ensures IsSuffix(s[n..], u)
  {
    SuffixTransitive(s[n..], s, u);
  }

  lemma SkipPriIsSuffix(data: bytes)
    ensures IsSuffix(SkipPri(data), data)
  {
    assert data[0..] == data;
  }

  lemma SkipTimestampIsSuffix(s: bytes, u: bytes)
    requires IsSuffix(s, u)
    ensures IsSuffix(SkipTimestamp(s), u)
  {
    if HasTimestamp(s) { DroppedIsSuffix(s, u, 16); }
  }

  lemma BodyIsSuffix(data: bytes)
    ensures IsSuffix(Body(data), data)
  {
    var a := SkipPri(data);
    SkipPriIsSuffix(data);
    DroppedIsSuffix(a, data, LeadingSpaces(a));
    var b := TrimLeft(a);
    SkipTimestampIsSuffix(b, data);
    DroppedIsSuffix(SkipTimestamp(b), data, LeadingSpaces(SkipTimestamp(b)));
  }

  lemma RestIsSuffix(body: bytes)
    ensures IsSuffix(RestOf(body), body)
  {
    if HasHost(body) {
      SuffixOfTail(RestOf(body), body, IndexByte(body, SPACE) + 1);
    }
  }

  lemma HostHasNoSpace(body: bytes)
    requires body == [] || body[0] != SPACE
    ensures SPACE !in HostOf(body) && (HasHost(body) <==> HostOf(body) != [])
    ensures RestOf(body) != [] ==> RestOf(body)[0] != SPACE
    ensures !HasHost(body) ==> SPACE !in RestOf(body)
  {
    IndexByteFirst(body, SPACE);
  }

  function Spaces(n: nat): bytes {
    seq(n, _ => SPACE)
  }

  /** Hostname, one or more spaces, message. */
  lemma SplitOfBody(body: bytes) returns (n: nat)
    ensures body == HostOf(body) + Spaces(n) + RestOf(body)
    ensures n > 0 <==> HasHost(body)
  {
    if HasHost(body) {
      n := 1 + LeadingSpaces(body[IndexByte(body, SPACE) + 1..]);
      HostThere(body);
      SplitAtSpace(body, IndexByte(body, SPACE));
    } else {
      n := 0;
      NothingSplit(body);
    }
  }

  lemma NothingSplit(body: bytes)
    ensures body == [] + Spaces(0) + body
  {
  }

  lemma SplitAtSpace(s: bytes, i: nat)
    requires i < |s| && s[i] == SPACE
    ensures s == s[..i] + Spaces(1 + LeadingSpaces(s[i + 1..])) + TrimLeft(s[i + 1..])
  {
    var rest := s[i + 1..];
    SpacesThenRest(rest);
    assert Spaces(1 + LeadingSpaces(rest)) == [SPACE] + Spaces(LeadingSpaces(rest));
  }

  lemma SpacesThenRest(s: bytes)
    ensures s == Spaces(LeadingSpaces(s)) + TrimLeft(s)
  {
    forall k | 0 <= k < LeadingSpaces(s) ensures s[k] == SPACE {
      SpaceBeforeText(s, 0, k);
    }
  }

  /**
   * Whatever the input: the message is the end of it and has no leading space; the hostname
   * has no space, and it is there exactly when a delimiter was found; and the end of the
   * input is hostname, spaces and message with nothing lost in between.
   */
  lemma ParseShape(data: bytes, now: int64)
    ensures var r := Parse(data, now);
            && r.timestampNano == now
            && IsSuffix(r.message, data)
            && (r.message != [] ==> r.message[0] != SPACE)
            && SPACE !in r.hostname
            && (r.hostname == [] ==> SPACE !in r.message)
            && exists n :: IsSuffix(r.hostname + Spaces(n) + r.message, data) && (n > 0 <==> r.hostname != [])
  {
    var body := Body(data);
    BodyIsSuffix(data);
    HostHasNoSpace(body);
    RestIsSuffix(body);
    SuffixTransitive(RestOf(body), body, data);
    var n := SplitOfBody(body);
    assert IsSuffix(HostOf(body) + Spaces(n) + RestOf(body), data);
  }

  lemma AtoiBound(s: bytes)
    requires |s| <= 4 && Atoi(s).Some?
    ensures -999 <= Atoi(s).value <= 9999
  {
    var digits := if s != [] && (s[0] == PLUS || s[0] == MINUS) then s[1..] else s;
    DecimalBound(digits);
    TenToGrows(|digits|, if s[0] == MINUS then 3 else 4);
    assert TenTo(3) == 1000 && TenTo(4) == 10000;
  }

  /** An accepted PRI, signed ones included, splits into facility and severity; otherwise user.info. */
  lemma PriSplits(data: bytes, now: int64)
    ensures var r := Parse(data, now);
            && 0 <= r.severity <= 7 && -125 <= r.facility <= 1249
            && (if Pri(data).Some? then r.priority == Pri(data).value == 8 * r.facility + r.severity
                else (r.priority, r.facility, r.severity) == (0, 1, 6))
  {
    if Pri(data).Some? {
      AtoiBound(data[1..IndexByte(data, GREATER_THAN)]);
    }
  }

  lemma {:induction false} TenToGrows(a: nat, b: nat)
    requires a <= b
    ensures 1 <= TenTo(a) <= TenTo(b)
    decreases b
  {
    if a < b {
      TenToGrows(a, b - 1);
    } else if a > 0 {
      TenToGrows(a - 1, b - 1);
    }
  }

  function TenTo(k: nat): nat {
    if k == 0 then 1 else 10 * TenTo(k - 1)
  }

  lemma {:induction false} DecimalBound(s: bytes)
    requires AllDigits(s)
    ensures 0 <= DecimalValue(s) < TenTo(|s|)
  {
    if s != [] {
      DecimalBound(s[..|s| - 1]);
    }
  }

  // ---------------------------------------------------------------- RFC 3164, sections 4.1.1 and 4.1.2

  /** The decimal digits of a number, without leading zeros. */
  function Decimal(n: nat): (s: bytes)
    ensures s != [] && AllDigits(s) && DecimalValue(s) == n
    ensures n < 100 ==> |s| <= 2
    ensures n < 1000 ==> |s| <= 3
  {
    if n < 10 then [0x30 + n] else Decimal(n / 10) + [0x30 + n % 10]
  }

  /** <PRI>TIMESTAMP HOSTNAME MESSAGE */
  function PrintSyslog(pri: nat, timestamp: bytes, host: bytes, message: bytes): bytes {
    [LESS_THAN] + Decimal(pri) + [GREATER_THAN] + timestamp + [SPACE] + host + [SPACE] + message
  }

  /** "Mmm dd hh:mm:ss": fifteen characters, a space after the month and after the day. */
  predicate IsTimestamp(t: bytes) {
    |t| == 15 && t[0] != SPACE && t[3] == SPACE && t[6] == SPACE
  }

  predicate IsHost(h: bytes) {
    h != [] && SPACE !in h
  }

  lemma PrintedPri(pri: nat, rest: bytes)
    requires pri < 1000
    ensures var data := [LESS_THAN] + Decimal(pri) + [GREATER_THAN] + rest;
            Pri(data) == Some(pri) && SkipPri(data) == rest
  {
    var d := Decimal(pri);
    var data := [LESS_THAN] + d + [GREATER_THAN] + rest;
    Bracketed(d, rest);
    AtoiOfDigits(d);
    assert HasPri(data) && data[1..1 + |d|] == d;
  }

  lemma Bracketed(d: bytes, rest: bytes)
    requires AllDigits(d)
    ensures var data := [LESS_THAN] + d + [GREATER_THAN] + rest;
            && data[0] == LESS_THAN && IndexByte(data, GREATER_THAN) == 1 + |d|
            && data[1..1 + |d|] == d && data[2 + |d|..] == rest
  {
    var data := [LESS_THAN] + d + [GREATER_THAN] + rest;
    forall k | 0 < k < 1 + |d| ensures data[k] != GREATER_THAN {
      assert data[k] == d[k - 1] && IsDigit(d[k - 1]);
    }
    IndexByteUnique(data, GREATER_THAN, 1 + |d|);
  }

  lemma AtoiOfDigits(d: bytes)
    requires d != [] && AllDigits(d)
    ensures Atoi(d) == Some(DecimalValue(d))
  {
    assert IsDigit(d[0]);
  }

  /** The first space of a printed body ends the host. */
  lemma PrintedHost(host: bytes, message: bytes)
    requires IsHost(host)
    ensures var body := host + [SPACE] + message;
            && IndexByte(body, SPACE) == |host| && body[0] != SPACE
            && body[..|host|] == host && body[|host| + 1..] == message
  {
    var body := host + [SPACE] + message;
    forall k | 0 <= k < |host| ensures body[k] != SPACE { assert body[k] == host[k] && host[k] in host; }
    assert body[|host|] == SPACE;
    IndexByteUnique(body, SPACE, |host|);
  }

  lemma SplitsThere(body: bytes, i: nat)
    requires i < |body| && IndexByte(body, SPACE) == i && body[0] != SPACE
    requires i + 1 < |body| ==> body[i + 1] != SPACE
    ensures TrimLeft(body) == body && HostOf(body) == body[..i] && RestOf(body) == body[i + 1..]
  {
    NothingToTrim(body);
    NothingToTrim(body[i + 1..]);
  }

  /** A line printed in the BSD syslog format parses back to what was printed. */
  lemma SyslogRoundTrip(pri: nat, timestamp: bytes, host: bytes, message: bytes, now: int64)
    requires pri <= 191 && IsTimestamp(timestamp) && IsHost(host)
    requires message == [] || message[0] != SPACE
    ensures Parse(PrintSyslog(pri, timestamp, host, message), now) ==
            ParsedLog(pri, pri / 8, pri % 8, now, host, message)
  {
    var body := host + [SPACE] + message;
    var rest := timestamp + ([SPACE] + body);
    var data := PrintSyslog(pri, timestamp, host, message);
    assert data == [LESS_THAN] + Decimal(pri) + [GREATER_THAN] + rest;
    PrintedPri(pri, rest);
    NothingToTrim(rest);
    PrintedTimestamp(timestamp, body);
    PrintedHost(host, message);
    SplitsThere(body, |host|);
    assert Body(data) == body;
  }

  lemma PrintedTimestamp(timestamp: bytes, body: bytes)
    requires IsTimestamp(timestamp) && body != []
    ensures SkipTimestamp(timestamp + ([SPACE] + body)) == body
  {
    var rest := timestamp + ([SPACE] + body);
    assert rest[3] == SPACE && rest[6] == SPACE && rest[15] == SPACE;
    assert rest[16..] == body;
  }

  lemma NothingToTrim(s: bytes)
    requires s == [] || s[0] != SPACE
    ensures TrimLeft(s) == s
  {
    assert s[0..] == s;
  }

  /**
   * A line without PRI whose bytes 3, 6 and 15 are not all spaces, or that is too short, loses its
   * first word to the hostname: the word is not part of the message, so it is never indexed.
   */
  lemma PlainLineLosesFirstWord(word: bytes, message: bytes, now: int64)
    requires IsHost(word) && word[0] != 0x3c && (message == [] || message[0] != 0x20)
    requires var d := word + [0x20] + message; |d| <= 16 || d[3] != 0x20 || d[6] != 0x20 || d[15] != 0x20
    ensures Parse(word + [0x20] + message, now) == ParsedLog(0, 1, 6, now, word, message)
  {
    PrintedHost(word, message);
    SplitsThere(word + [SPACE] + message, |word|);
    assert word[0] in word;
    PlainBody(word + [SPACE] + message);
  }

  lemma PlainBody(data: bytes)
    requires data != [] && data[0] != LESS_THAN && data[0] != SPACE && !HasTimestamp(data)
    ensures Body(data) == data && Pri(data) == None
  {
    NothingToTrim(data);
  }

  // ---------------------------------------------------------------- position by position

  /** A bracket at the start, closed for the first time at e, with one to four bytes in it. */
  ghost predicate PriCloses(data: bytes, e: nat) {
    && 2 <= e <= 5 && e < |data| && data[0] == 0x3c && data[e] == 0x3e
    && forall k :: 0 < k < e ==> data[k] != 0x3e
  }

  /** Spaces from here to there, and no further. */
  ghost predicate SpacesUpTo(s: bytes, from: nat, to: nat) {
    && from <= to <= |s| && (forall k :: from <= k < to ==> s[k] == 0x20)
    && (to < |s| ==> s[to] != 0x20)
  }

  /** Here starts what is taken for "Mmm dd hh:mm:ss " with more to come. */
  ghost predicate StampAt(data: bytes, i: nat) {
    i + 16 < |data| && data[i + 3] == 0x20 && data[i + 6] == 0x20 && data[i + 15] == 0x20
  }

  lemma TrimAt(data: bytes, from: nat) returns (to: nat)
    requires from <= |data|
    ensures SpacesUpTo(data, from, to) && TrimLeft(data[from..]) == data[to..]
  {
    var rest := data[from..];
    to := from + LeadingSpaces(rest);
    forall k | from <= k < to ensures data[k] == 0x20 {
      SpaceBeforeText(rest, 0, k - from);
    }
    assert rest[LeadingSpaces(rest)..] == data[to..];
    assert to < |data| ==> data[to] == rest[LeadingSpaces(rest)];
  }

  lemma PriAt(data: bytes) returns (pri: nat)
    ensures pri <= |data| && SkipPri(data) == data[pri..]
    ensures pri > 0 ==> PriCloses(data, pri - 1) && HasPri(data) && IndexByte(data, 0x3e) == pri - 1
    ensures pri == 0 ==> !HasPri(data) && forall e: nat :: !PriCloses(data, e)
  {
    IndexByteFirst(data, 0x3e);
    pri := if HasPri(data) then IndexByte(data, 0x3e) + 1 else 0;
    assert data[0..] == data;
    forall e: nat | PriCloses(data, e) ensures HasPri(data) {
      IndexByteUnique(data, 0x3e, e);
    }
  }

  lemma FirstSpace(data: bytes, body: nat) returns (host: nat)
    requires body <= |data|
    ensures body <= host <= |data| && (forall k :: body <= k < host ==> data[k] != 0x20)
    ensures host < |data| ==> data[host] == 0x20
    ensures host - body == IndexByte(data[body..], 0x20)
  {
    var s := data[body..];
    IndexByteFirst(s, 0x20);
    host := body + IndexByte(s, 0x20);
    forall k | body <= k < host ensures data[k] != 0x20 {
      assert data[k] == s[k - body];
    }
    assert host < |data| ==> data[host] == s[host - body];
  }

  lemma TailOfTail(data: bytes, i: nat, j: nat)
    requires i <= j <= |data|
    ensures data[i..][j - i..] == data[j..] && data[i..][..j - i] == data[i..j]
  {
  }

  lemma OneSpaceMore(data: bytes, host: nat, rest: nat)
    requires host < |data| && data[host] == 0x20 && SpacesUpTo(data, host + 1, rest)
    ensures SpacesUpTo(data, host, rest)
  {
  }

  lemma HostThere(s: bytes)
    requires IndexByte(s, 0x20) < |s|
    ensures HostOf(s) == s[..IndexByte(s, 0x20)] && RestOf(s) == TrimLeft(s[IndexByte(s, 0x20) + 1..])
  {
  }

  lemma HostNotThere(s: bytes)
    requires IndexByte(s, 0x20) == |s|
    ensures HostOf(s) == [] && RestOf(s) == s
  {
  }

  lemma HostAt(data: bytes, body: nat) returns (host: nat, rest: nat)
    requires body <= |data|
    ensures body <= host <= |data| && (forall k :: body <= k < host ==> data[k] != 0x20)
    ensures host < |data| ==> data[host] == 0x20 && SpacesUpTo(data, host, rest)
    ensures HostOf(data[body..]) == if host < |data| then data[body..host] else []
    ensures host < |data| ==> RestOf(data[body..]) == data[rest..]
    ensures host == |data| ==> RestOf(data[body..]) == data[body..]
  {
    host := FirstSpace(data, body);
    rest := 0;
    if host < |data| {
      TailOfTail(data, body, host);
      TailOfTail(data, body, host + 1);
      HostThere(data[body..]);
      rest := TrimAt(data, host + 1);
      OneSpaceMore(data, host, rest);
    } else {
      HostNotThere(data[body..]);
    }
  }

  /**
   * What the parser does with any line, position by position: a PRI, spaces, a timestamp, spaces,
   * the hostname, spaces, the message. Each part that is not there is empty; without a space
   * after it there is no hostname.
   */
  lemma ParsePositions(data: bytes, now: int64)
    returns (pri: nat, text: nat, stamp: nat, body: nat, host: nat, rest: nat)
    ensures if pri > 0 then PriCloses(data, pri - 1) else forall e: nat :: !PriCloses(data, e)
    ensures SpacesUpTo(data, pri, text) && SpacesUpTo(data, stamp, body)
    ensures stamp == if StampAt(data, text) then text + 16 else text
    ensures body <= host <= |data| && (forall k :: body <= k < host ==> data[k] != 0x20)
    ensures host < |data| ==> data[host] == 0x20 && SpacesUpTo(data, host, rest)
    ensures var r := Parse(data, now);
            && r.hostname == (if host < |data| then data[body..host] else [])
            && r.message == (if host < |data| then data[rest..] else data[body..])
  {
    pri := PriAt(data);
    text := TrimAt(data, pri);
    stamp := if StampAt(data, text) then text + 16 else text;
    StampIsTimestamp(data, text);
    body := TrimAt(data, stamp);
    host, rest := HostAt(data, body);
  }

  lemma StampIsTimestamp(data: bytes, text: nat)
    requires text <= |data|
    ensures SkipTimestamp(data[text..]) == data[if StampAt(data, text) then text + 16 else text..]
  {
    var s := data[text..];
    assert |s| > 16 ==> s[16..] == data[text + 16..];
  }

  /** Digits, with or without a sign. */
  ghost predicate IsNumber(x: bytes) {
    var digits := Unsigned(x);
    digits != [] && forall k :: 0 <= k < |digits| ==> 0x30 <= digits[k] <= 0x39
  }

  function Unsigned(x: bytes): bytes {
    if x != [] && (x[0] == 0x2b || x[0] == 0x2d) then x[1..] else x
  }

  lemma DecimalOneMore(digits: bytes, d: nat)
    requires d <= 9
    ensures DecimalValue([]) == 0 && DecimalValue(digits + [0x30 + d]) == 10 * DecimalValue(digits) + d
  {
    assert (digits + [0x30 + d])[..|digits|] == digits;
  }

  lemma AtoiIff(x: bytes)
    ensures Atoi(x).Some? <==> IsNumber(x)
    ensures IsNumber(x) ==>
            Atoi(x).value == if x[0] == 0x2d then -DecimalValue(Unsigned(x)) else DecimalValue(Unsigned(x))
  {
    assert AllDigits(Unsigned(x)) <==> forall k :: 0 <= k < |Unsigned(x)| ==> 0x30 <= Unsigned(x)[k] <= 0x39;
  }

  lemma BracketIsPri(data: bytes, e: nat)
    requires PriCloses(data, e)
    ensures Pri(data) == Atoi(data[1..e])
  {
    IndexByteUnique(data, 0x3e, e);
  }

  /** The number in the bracket, with its sign, is the priority; anything else counts as no number. */
  lemma PriorityOfBracket(data: bytes, e: nat, now: int64)
    requires PriCloses(data, e)
    ensures var x, r := data[1..e], Parse(data, now);
            if IsNumber(x)
            then r.priority == (if x[0] == 0x2d then -DecimalValue(Unsigned(x)) else DecimalValue(Unsigned(x)))
                 && r.priority == 8 * r.facility + r.severity && 0 <= r.severity <= 7
            else (r.priority, r.facility, r.severity) == (0, 1, 6)
  {
    BracketIsPri(data, e);
    AtoiIff(data[1..e]);
    PriSplits(data, now);
  }

  predicate IsPrefix(s: bytes, t: bytes) {
    |s| <= |t| && t[..|s|] == s
  }

  lemma SpaceIsFound(body: bytes)
    ensures HasHost(body) <==> SPACE in body
  {
    IndexByteFirst(body, SPACE);
  }

  lemma HostIsCutOff(body: bytes)
    requires HasHost(body) && body[0] != SPACE
    ensures HostOf(body) != [] && IsPrefix(HostOf(body) + [SPACE], body) && |RestOf(body)| < |body|
  {
    var i := IndexByte(body, SPACE);
    assert body[..i + 1] == body[..i] + [SPACE];
  }

  /** What PRI and timestamp leave of a line is the message exactly when it has no space; else its first word is lost. */
  lemma FirstWordKeptIff(data: bytes, now: int64)
    ensures var r, body := Parse(data, now), Body(data);
            && (r.message == body <==> SPACE !in body)
            && (SPACE in body ==> r.hostname != [] && IsPrefix(r.hostname + [SPACE], body))
  {
    SpaceIsFound(Body(data));
    if HasHost(Body(data)) {
      HostIsCutOff(Body(data));
    }
  }

  lemma WholeLineKept(data: bytes, now: int64)
    requires SPACE !in data && !HasPri(data)
    ensures Parse(data, now).message == data
  {
    NothingToTrim(data);
    assert |data| > 16 ==> data[3] in data;
    IndexByteFirst(data, SPACE);
  }

  lemma DroppedNothing(data: bytes)
    requires |RestOf(Body(data))| == |data|
    ensures Body(data) == data && SkipPri(data) == data
  {
    BodyIsSuffix(data);
    RestIsSuffix(Body(data));
    var a := SkipPri(data);
    assert |Body(data)| <= |TrimLeft(a)| <= |a| <= |data|;
    assert data[0..] == data;
  }

  /** A sender's line reaches the index whole exactly when it has neither a space nor a PRI. */
  lemma WholeLineKeptIff(data: bytes, now: int64)
    ensures Parse(data, now).message == data <==> SPACE !in data && !HasPri(data)
  {
    if SPACE !in data && !HasPri(data) {
      WholeLineKept(data, now);
    }
    if Parse(data, now).message == data {
      DroppedNothing(data);
      FirstWordKeptIff(data, now);
    }
  }
}
