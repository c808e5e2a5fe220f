/** How lines get into buffers: the UDP read loop and the HTTP handler (engine/internal/ingestion). */
module Listeners {
  import opened Bytes
  import opened Seqs
  import opened Ingest
  import opened Wrappers

  datatype PacketBuffer = PacketBuffer(data: array<byte>, size: nat)

  /** The packet has a whole buffer, which starts with the line or with its first 2048 bytes. */
  ghost predicate Carries(p: PacketBuffer, line: bytes)
    reads p.data
  {
    && p.data.Length == 2048 && p.size == (if |line| <= 2048 then |line| else 2048)
    && p.data[..p.size] == line[..p.size]
  }

  /** n := copy(buf, line) */
  method CopyInto(buf: array<byte>, line: bytes) returns (n: nat)
    requires buf.Length == BUFFER_SIZE
    modifies buf
    ensures Carries(PacketBuffer(buf, n), line)
    ensures buf[n..] == old(buf[n..])
  {
    n := if |line| <= buf.Length then |line| else buf.Length;
    forall k | 0 <= k < n {
      buf[k] := line[k];
    }
  }

  function RemoveAt<T>(s: seq<T>, k: nat): seq<T> {
    if k < |s| then s[..k] + s[k + 1..] else s
  }

  /** The free buffers of bufferPool. */
  class BufferPool {
    var free: seq<array<byte>>

    ghost predicate Valid()
      reads this
    {
      Distinct(free) && forall k :: 0 <= k < |free| ==> free[k].Length == BUFFER_SIZE
    }

    constructor ()
      ensures Valid() && free == []
    {
      free := [];
    }

    /** sync.Pool may return any of its buffers, or call New; `choice` decides. */
    method Get(choice: nat) returns (buf: array<byte>)
      requires Valid()
      modifies this
      ensures Valid() && buf.Length == BUFFER_SIZE && buf !in free
      ensures if choice < |old(free)| then buf == old(free)[choice] else fresh(buf)
      ensures free == RemoveAt(old(free), choice)
    {
      if choice < |free| {
        buf := free[choice];
        WithoutOneElements(free, choice);
        free := RemoveAt(free, choice);
      } else {
        buf := new byte[BUFFER_SIZE](_ => 0);
      }
    }

    /** The buffer must not be in the pool already. */
    method Put(buf: array<byte>)
      requires Valid() && buf.Length == BUFFER_SIZE && buf !in free
      modifies this
      ensures Valid() && free == old(free) + [buf]
    {
      free := free + [buf];
    }

    /**
     * One round of the UDP read loop. The buffer that is handed on has left the pool, and no
     * other buffer is written; when the read fails, the buffer is dropped.
     */
    method Receive(choice: nat, data: bytes, readOk: bool) returns (packet: Option<PacketBuffer>)
      requires Valid()
      modifies this, free
      ensures Valid()
      ensures readOk <==> packet.Some?
      ensures readOk ==> Carries(packet.value, data) && packet.value.data !in free
      ensures forall b :: b in old(free) && (packet.None? || b != packet.value.data) ==> b[..] == old(b[..])
      ensures free == RemoveAt(old(free), choice)
    {
      var buf := Get(choice);
      if !readOk {
        return None;
      }
      var n := CopyInto(buf, data);
      return Some(PacketBuffer(buf, n));
    }
  }

  // ---------------------------------------------------------------- bufio.Scanner

  const NEWLINE: byte := 0x0a
  const CARRIAGE_RETURN: byte := 0x0d
  const MAX_SCAN_TOKEN_SIZE: nat := 65536

  /** What the scanner finds next: a line and where the text goes on, the end, or a line too long for its buffer. */
  datatype Token = Text(text: bytes, next: nat) | AtEnd | TooLong

  function DropCarriageReturn(s: bytes): bytes {
    if s != [] && s[|s| - 1] == CARRIAGE_RETURN then s[..|s| - 1] else s
  }

  /** Scan with ScanLines. A line has to fit the buffer with its newline; what is last needs none. */
  function NextToken(body: bytes, from: nat): (token: Token)
    requires from <= |body|
    ensures token.Text? ==> from < token.next <= |body|
  {
    var end := IndexFrom(body, NEWLINE, from);
    if end - from >= MAX_SCAN_TOKEN_SIZE then TooLong
    else if end < |body| then Text(DropCarriageReturn(body[from..end]), end + 1)
    else if from == |body| then AtEnd
    else Text(DropCarriageReturn(body[from..]), |body|)
  }

  /** All lines up to the end of the body or the first that is too long. */
  function LinesFrom(body: bytes, from: nat): seq<bytes>
    requires from <= |body|
    decreases |body| - from
  {
    match NextToken(body, from)
    case Text(text, next) => [text] + LinesFrom(body, next)
    case _ => []
  }

  predicate TooLongFrom(body: bytes, from: nat)
    requires from <= |body|
    decreases |body| - from
  {
    match NextToken(body, from)
    case Text(_, next) => TooLongFrom(body, next)
    case AtEnd => false
    case TooLong => true
  }

  function NonEmpty(lines: seq<bytes>): seq<bytes> {
    if lines == [] then []
    else (if lines[0] == [] then [] else [lines[0]]) + NonEmpty(lines[1..])
  }

  /** The packets carry these lines, in order, in different buffers. */
  ghost predicate AllCarry(packets: seq<PacketBuffer>, lines: seq<bytes>)
    reads set p | p in packets :: p.data
  {
    && |packets| == |lines|
    && (forall k :: 0 <= k < |packets| ==> Carries(packets[k], lines[k]))
    && (forall j, k :: 0 <= j < k < |packets| ==> packets[j].data != packets[k].data)
  }

  /** A line in a buffer of its own. */
  method NewPacket(line: bytes) returns (packet: PacketBuffer)
    ensures fresh(packet.data) && Carries(packet, line)
  {
    var buf := new byte[BUFFER_SIZE](_ => 0);
    var n := CopyInto(buf, line);
    packet := PacketBuffer(buf, n);
  }

  /**
   * The HTTP handler, given the bytes of the body up to its end or a read error: a new buffer
   * for each line that is not empty, in order. A long line is cut off at 2048 bytes without
   * notice; one that does not fit the scanner ends the request with an error, and what came
   * before it, or before a read error, stays accepted.
   */
  method HandleIngest(isPost: bool, body: bytes, readError: bool) returns (status: nat, packets: seq<PacketBuffer>)
    ensures status == if !isPost then 405 else if readError || TooLongFrom(body, 0) then 400 else 202
    ensures forall k :: 0 <= k < |packets| ==> fresh(packets[k].data)
    ensures AllCarry(packets, if isPost then NonEmpty(LinesFrom(body, 0)) else [])
  {
    packets := [];
    if !isPost {
      return 405, packets;
    }
    ghost var done := [];
    var from := 0;
    var token := NextToken(body, from);
    while token.Text?
      invariant from <= |body| && token == NextToken(body, from)
      invariant forall k :: 0 <= k < |packets| ==> fresh(packets[k].data)
      invariant AllCarry(packets, done)
      invariant ReadUpTo(body, from, done)
      decreases |body| - from
    {
      var line := token.text;
      OneMoreLine(body, from, done);
      from := token.next;
      token := NextToken(body, from);
      if |line| == 0 {
        continue;
      }
      var packet := NewPacket(line);
      packets := packets + [packet];
      done := done + [line];
    }
    AllRead(body, from, done);
    status := if readError || token.TooLong? then 400 else 202;
  }

  /** The non-empty lines before this position, as far as the whole body is concerned. */
  ghost predicate ReadUpTo(body: bytes, from: nat, done: seq<bytes>)
    requires from <= |body|
  {
    && NonEmpty(LinesFrom(body, 0)) == done + NonEmpty(LinesFrom(body, from))
    && TooLongFrom(body, 0) == TooLongFrom(body, from)
  }

  lemma NonEmptyFirst(line: bytes, rest: seq<bytes>)
    ensures NonEmpty([line] + rest) == (if line == [] then [] else [line]) + NonEmpty(rest)
  {
    assert ([line] + rest)[1..] == rest;
  }

  lemma OneMoreLine(body: bytes, from: nat, done: seq<bytes>)
    requires from <= |body| && NextToken(body, from).Text? && ReadUpTo(body, from, done)
    ensures var token := NextToken(body, from);
            ReadUpTo(body, token.next, if token.text == [] then done else done + [token.text])
  {
    var token := NextToken(body, from);
    var rest := LinesFrom(body, token.next);
    NonEmptyFirst(token.text, rest);
    ConcatAssociative(done, if token.text == [] then [] else [token.text], NonEmpty(rest));
    assert done + [] == done;
  }

  lemma AllRead(body: bytes, from: nat, done: seq<bytes>)
    requires from <= |body| && !NextToken(body, from).Text? && ReadUpTo(body, from, done)
    ensures NonEmpty(LinesFrom(body, 0)) == done && TooLongFrom(body, 0) == NextToken(body, from).TooLong?
  {
    assert done + [] == done;
  }

  // ---------------------------------------------------------------- which bodies are accepted

  /** A stretch without a newline that does not fit the scanner. */
  ghost predicate LongStretch(body: bytes, i: nat) {
    i + 65536 <= |body| && forall k :: i <= k < i + 65536 ==> body[k] != 0x0a
  }

  lemma NoNewlineBefore(body: bytes, from: nat, k: nat)
    requires from <= |body| && from <= k < IndexFrom(body, NEWLINE, from)
    ensures body[k] != NEWLINE
  {
    NotBeforeIndex(body, NEWLINE, from, k);
  }

  /** A stretch that begins on this line and is too long begins after it, or the line itself is too long. */
  lemma StretchGoesOn(body: bytes, from: nat, i: nat)
    requires from <= i && from <= |body| && NextToken(body, from).Text? && LongStretch(body, i)
    ensures i >= NextToken(body, from).next
  {
    var end := IndexFrom(body, NEWLINE, from);
    assert end < |body| ==> body[end] == NEWLINE;
  }

  /** The scanner gives up exactly when 65536 bytes in a row hold no newline. */
  lemma {:induction false} TooLongIff(body: bytes, from: nat)
    requires from <= |body|
    ensures TooLongFrom(body, from) <==> exists i: nat :: from <= i && LongStretch(body, i)
    decreases |body| - from
  {
    var token := NextToken(body, from);
    match token {
      case Text(_, next) =>
        TooLongIff(body, next);
        forall i: nat | from <= i && LongStretch(body, i) ensures i >= next {
          StretchGoesOn(body, from, i);
        }
      case AtEnd =>
      case TooLong =>
        forall k | from <= k < from + MAX_SCAN_TOKEN_SIZE ensures body[k] != NEWLINE {
          NoNewlineBefore(body, from, k);
        }
        assert LongStretch(body, from);
    }
  }

  // ---------------------------------------------------------------- lines and their ends

  /** One after the other, each line with its end. */
  function Joined(lines: seq<bytes>, ends: seq<bytes>): bytes
    requires |lines| == |ends|
  {
    if lines == [] then [] else lines[0] + ends[0] + Joined(lines[1..], ends[1..])
  }

  /**
   * A line has no newline. Its end is LF or CR LF; what is last, if it is not empty, may also
   * end with a CR or with nothing. The CR of an end never stays with the line.
   */
  ghost predicate EndsWith(line: bytes, end: bytes, isLast: bool) {
    && 0x0a !in line
    && (end == [0x0a] || end == [0x0d, 0x0a] || (isLast && end == [0x0d]) || (isLast && end == [] && line != []))
    && (line != [] && line[|line| - 1] == 0x0d ==> end != [] && end[0] == 0x0d)
  }

  ghost predicate AreEnds(lines: seq<bytes>, ends: seq<bytes>) {
    && |ends| == |lines|
    && forall k :: 0 <= k < |lines| ==> EndsWith(lines[k], ends[k], k == |lines| - 1)
  }

  lemma CarriageReturnDropped(text: bytes, newline: bytes, isLast: bool) returns (end: bytes)
    requires 0x0a !in text && (newline == [0x0a] || (isLast && newline == [] && text != []))
    ensures DropCarriageReturn(text) + end == text + newline && EndsWith(DropCarriageReturn(text), end, isLast)
  {
    var line := DropCarriageReturn(text);
    end := text[|line|..] + newline;
    assert text == line + text[|line|..];
    assert forall b :: b in line ==> b in text;
  }

  lemma NoNewlineIn(body: bytes, from: nat)
    requires from <= |body|
    ensures var at := IndexFrom(body, NEWLINE, from);
            0x0a !in body[from..at] && (at < |body| ==> body[at] == 0x0a)
  {
    forall k | from <= k < IndexFrom(body, NEWLINE, from) ensures body[k] != 0x0a {
      NoNewlineBefore(body, from, k);
    }
  }

  lemma SliceInTwo(body: bytes, from: nat, next: nat, stop: nat)
    requires from <= next <= stop <= |body|
    ensures body[from..stop] == body[from..next] + body[next..stop]
  {
  }

  /** The next line, with its end, is what lies between the two positions. */
  lemma TokenAndItsEnd(body: bytes, from: nat) returns (end: bytes)
    requires from <= |body| && NextToken(body, from).Text?
    ensures var token := NextToken(body, from);
            && body[from..token.next] == token.text + end
            && EndsWith(token.text, end, token.next == |body|)
            && (token.next < |body| ==> EndsWith(token.text, end, false))
  {
    var at, next := IndexFrom(body, NEWLINE, from), NextToken(body, from).next;
    var text := body[from..at];
    NoNewlineIn(body, from);
    assert next == if at < |body| then at + 1 else |body|;
    var newline := if at < |body| then [0x0a] else [];
    assert body[at..next] == newline;
    end := CarriageReturnDropped(text, newline, at == |body|);
    SliceInTwo(body, from, at, next);
  }

  lemma OneLineMore(line: bytes, end: bytes, lines: seq<bytes>, ends: seq<bytes>, isLast: bool)
    requires AreEnds(lines, ends) && EndsWith(line, end, isLast) && (lines != [] ==> EndsWith(line, end, false))
    requires isLast || EndsWith(line, end, false)
    ensures AreEnds([line] + lines, [end] + ends)
    ensures Joined([line] + lines, [end] + ends) == line + end + Joined(lines, ends)
  {
    assert ([line] + lines)[1..] == lines && ([end] + ends)[1..] == ends;
  }

  lemma SpelledOneMore(body: bytes, from: nat, next: nat, stop: nat, text: bytes, end: bytes, lines: seq<bytes>, ends: seq<bytes>)
    requires from < next <= stop <= |body| && body[from..next] == text + end
    requires AreEnds(lines, ends) && Joined(lines, ends) == body[next..stop]
    requires EndsWith(text, end, next == |body|) && (lines != [] ==> EndsWith(text, end, false))
    requires next < |body| ==> EndsWith(text, end, false)
    ensures AreEnds([text] + lines, [end] + ends) && Joined([text] + lines, [end] + ends) == body[from..stop]
  {
    OneLineMore(text, end, lines, ends, next == |body|);
    SliceInTwo(body, from, next, stop);
  }

  /**
   * No byte is lost: the lines found, each with its end, spell the whole body, or, if the scanner
   * gives up, everything in front of a stretch without newline that is too long for it.
   */
  lemma {:induction false} LinesSpellBody(body: bytes, from: nat) returns (ends: seq<bytes>, stop: nat)
    requires from <= |body|
    ensures AreEnds(LinesFrom(body, from), ends)
    ensures from <= stop <= |body| && Joined(LinesFrom(body, from), ends) == body[from..stop]
    ensures if TooLongFrom(body, from) then LongStretch(body, stop) else stop == |body|
    decreases |body| - from
  {
    var token := NextToken(body, from);
    if token.Text? {
      var end := TokenAndItsEnd(body, from);
      ends, stop := LinesSpellBody(body, token.next);
      SpelledOneMore(body, from, token.next, stop, token.text, end, LinesFrom(body, token.next), ends);
      ends := [end] + ends;
    } else {
      ends, stop := [], from;
      StopsAt(body, from);
    }
  }

  lemma StopsAt(body: bytes, from: nat)
    requires from <= |body| && !NextToken(body, from).Text?
    ensures if TooLongFrom(body, from) then LongStretch(body, from) else from == |body|
  {
    if NextToken(body, from).TooLong? {
      forall k | from <= k < from + 65536 ensures body[k] != 0x0a {
        NoNewlineBefore(body, from, k);
      }
    }
  }

  // ---------------------------------------------------------------- round trip

  /** Each line with its line end, LF or CR LF. */
  function Written(lines: seq<bytes>, crlf: bool): bytes {
    if lines == [] then [] else lines[0] + LineEnd(crlf) + Written(lines[1..], crlf)
  }

  function LineEnd(crlf: bool): bytes {
    if crlf then [0x0d, 0x0a] else [0x0a]
  }

  /** A line that fits the scanner with this line end, and does not end like one. */
  predicate IsPlain(line: bytes, end: bytes) {
    && 0x0a !in line && |line| + |end| <= 65536
    && (line == [] || line[|line| - 1] != 0x0d)
  }

  lemma LineEndsAt(body: bytes, from: nat, line: bytes, rest: bytes, crlf: bool)
    requires NEWLINE !in line && from <= |body| && body[from..] == line + LineEnd(crlf) + rest
    ensures IndexFrom(body, NEWLINE, from) == from + |line| + |LineEnd(crlf)| - 1
  {
    var end := from + |line| + |LineEnd(crlf)| - 1;
    assert body[end] == body[from..][end - from] == NEWLINE;
    forall k | from <= k < end ensures body[k] != NEWLINE {
      assert body[k] == body[from..][k - from];
      if k < from + |line| {
        assert body[k] == line[k - from];
        assert line[k - from] in line;
      }
    }
    if from <= end < IndexFrom(body, NEWLINE, from) {
      NotBeforeIndex(body, NEWLINE, from, end);
    }
  }

  lemma FirstLineRead(body: bytes, from: nat, line: bytes, rest: bytes, crlf: bool)
    requires IsPlain(line, LineEnd(crlf)) && from <= |body| && body[from..] == line + LineEnd(crlf) + rest
    ensures NextToken(body, from) == Text(line, from + |line| + |LineEnd(crlf)|)
    ensures body[from + |line| + |LineEnd(crlf)|..] == rest
  {
    var end := from + |line| + |LineEnd(crlf)| - 1;
    LineEndsAt(body, from, line, rest, crlf);
    assert body[from..end] == body[from..][..end - from] == if crlf then line + [CARRIAGE_RETURN] else line;
    assert body[end + 1..] == body[from..][end + 1 - from..];
  }

  lemma LineThenRest(body: bytes, from: nat, text: bytes, next: nat, lines: seq<bytes>)
    requires from <= |body| && NextToken(body, from) == Text(text, next)
    requires LinesFrom(body, next) == lines && !TooLongFrom(body, next)
    ensures LinesFrom(body, from) == [text] + lines && !TooLongFrom(body, from)
  {
  }

  /** What a last line without a line end adds. */
  function LastLine(last: bytes): seq<bytes> {
    if last == [] then [] else [last]
  }

  lemma LastLineRead(body: bytes, from: nat, last: bytes)
    requires from <= |body| && body[from..] == last && IsPlain(last, [0x0a])
    ensures LinesFrom(body, from) == LastLine(last) && !TooLongFrom(body, from)
  {
    forall k | from <= k < |body| ensures body[k] != NEWLINE {
      assert body[k] == body[from..][k - from];
      assert last[k - from] in last;
    }
    if last != [] {
      LineThenRest(body, from, last, |body|, []);
    }
  }

  lemma {:induction false} WrittenIsRead(body: bytes, from: nat, lines: seq<bytes>, crlf: bool, last: bytes)
    requires forall i :: 0 <= i < |lines| ==> IsPlain(lines[i], LineEnd(crlf))
    requires IsPlain(last, [0x0a])
    requires from <= |body| && body[from..] == Written(lines, crlf) + last
    ensures LinesFrom(body, from) == lines + LastLine(last) && !TooLongFrom(body, from)
    decreases lines
  {
    if lines == [] {
      assert Written(lines, crlf) + last == last && lines + LastLine(last) == LastLine(last);
      LastLineRead(body, from, last);
    } else {
      var line, rest := lines[0], lines[1..];
      var next := from + |line| + |LineEnd(crlf)|;
      ConcatAssociative(line + LineEnd(crlf), Written(rest, crlf), last);
      FirstLineRead(body, from, line, Written(rest, crlf) + last, crlf);
      WrittenIsRead(body, next, rest, crlf, last);
      LineThenRest(body, from, line, next, rest + LastLine(last));
      FirstOfConcat(lines, LastLine(last));
    }
  }

  lemma FirstOfConcat(lines: seq<bytes>, more: seq<bytes>)
    requires lines != []
    ensures [lines[0]] + (lines[1..] + more) == lines + more
  {
  }

  /**
   * Lines written one after another, with either line end, are what the scanner finds; the last
   * one may lack its line end.
   */
  lemma LinesRoundTrip(lines: seq<bytes>, crlf: bool, last: bytes)
    requires forall i :: 0 <= i < |lines| ==> IsPlain(lines[i], LineEnd(crlf))
    requires IsPlain(last, [0x0a])
    ensures var body := Written(lines, crlf) + last;
            && LinesFrom(body, 0) == lines + (if last == [] then [] else [last])
            && !TooLongFrom(body, 0)
  {
    var body := Written(lines, crlf) + last;
    assert body[0..] == body;
    WrittenIsRead(body, 0, lines, crlf, last);
  }

  // ---------------------------------------------------------------- blank lines

  lemma {:induction false} NonEmptyConcat(a: seq<bytes>, b: seq<bytes>)
    ensures NonEmpty(a + b) == NonEmpty(a) + NonEmpty(b)
  {
    if a == [] {
      assert a + b == b && [] + NonEmpty(b) == NonEmpty(b);
    } else {
      assert (a + b)[1..] == a[1..] + b;
      NonEmptyConcat(a[1..], b);
      ConcatAssociative(if a[0] == [] then [] else [a[0]], NonEmpty(a[1..]), NonEmpty(b));
    }
  }

  /** Blank lines are left out, wherever they are. */
  lemma BlankLineIsSkipped(a: seq<bytes>, b: seq<bytes>)
    ensures NonEmpty(a + [[]] + b) == NonEmpty(a + b)
  {
    var blank: seq<bytes> := [[]];
    NonEmptyConcat(a, blank);
    NonEmptyConcat(a + blank, b);
    NonEmptyConcat(a, b);
    assert blank[1..] == [] && NonEmpty(blank) == [];
    assert NonEmpty(a) + [] == NonEmpty(a);
  }

  /** All others stay, in order. */
  lemma {:induction false} TextLinesStay(lines: seq<bytes>)
    requires [] !in lines
    ensures NonEmpty(lines) == lines
  {
    if lines != [] {
      TextLinesStay(lines[1..]);
      assert lines == [lines[0]] + lines[1..];
    }
  }
}
