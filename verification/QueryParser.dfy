/**
 * The query-bar parser (web/src/lib/queryParser.js, parseQuery). Each regular expression is
 * a function that matches at the start of a text and one that looks for the leftmost match;
 * a match is given with the text that follows it, which is where exec resumes.
 */
module QueryParser {
  import opened Seqs
  import opened Wrappers

  datatype Label = Label(key: string, value: string)

  datatype Query = Query(labels: seq<Label>, terms: seq<string>, primaryTerm: string, raw: string)

  // ---------------------------------------------------------------- character classes

  /** \s, which is also what trim() removes */
  predicate IsSpace(c: char) {
    || '\t' <= c <= '\r' || c == ' ' || c == '\U{00A0}' || c == '\U{1680}' || '\U{2000}' <= c <= '\U{200A}'
    || c == '\U{2028}' || c == '\U{2029}' || c == '\U{202F}' || c == '\U{205F}' || c == '\U{3000}' || c == '\U{FEFF}'
  }

  /** What the dot does not match. */
  predicate IsLineEnd(c: char) {
    c == '\n' || c == '\r' || c == '\U{2028}' || c == '\U{2029}'
  }

  /** \w */
  predicate IsWordChar(c: char) {
    'a' <= c <= 'z' || 'A' <= c <= 'Z' || '0' <= c <= '9' || c == '_'
  }

  predicate IsQuote(c: char) {
    c == '"' || c == '\''
  }

  /** The position of the first c, or |s|. */
  function Find(s: string, c: char): (i: nat)
    ensures i <= |s|
  {
    IndexFrom(s, c, 0)
  }

  function WordLength(s: string): (n: nat)
    ensures n <= |s|
  {
    WordFrom(s, 0)
  }

  function WordFrom(s: string, from: nat): (n: nat)
    requires from <= |s|
    ensures from <= n <= |s|
    ensures n < |s| ==> !IsWordChar(s[n])
    decreases |s| - from
  {
    if from < |s| && IsWordChar(s[from]) then WordFrom(s, from + 1) else from
  }

  function SkipSpaces(s: string): (r: string)
    ensures |r| <= |s|
  {
    if s != "" && IsSpace(s[0]) then SkipSpaces(s[1..]) else s
  }

  predicate HasLineEnd(s: string) {
    exists i :: 0 <= i < |s| && IsLineEnd(s[i])
  }

  // ---------------------------------------------------------------- the regular expressions

  /** \{([^}]*)\} */
  function LabelBlock(s: string): Option<string> {
    var open := Find(s, '{');
    if open == |s| then None
    else
      var rest := s[open + 1..];
      var close := Find(rest, '}');
      if close == |rest| then None else Some(rest[..close])
  }

  /** \s*=\s*"([^"]*)" at the start of s */
  function MatchValue(s: string): (m: Option<(string, string)>)
    ensures m.Some? ==> |m.value.1| < |s|
  {
    var equals := SkipSpaces(s);
    if equals == "" || equals[0] != '=' then None else
    var quote := SkipSpaces(equals[1..]);
    if quote == "" || quote[0] != '"' then None else
    var text := quote[1..];
    var close := Find(text, '"');
    if close == |text| then None else Some((text[..close], text[close + 1..]))
  }

  /** (\w+)\s*=\s*"([^"]*)" at the start of s */
  function MatchLabel(s: string): (m: Option<(Label, string)>)
    ensures m.Some? ==> |m.value.1| < |s|
  {
    var n := WordLength(s);
    if n == 0 then None
    else match MatchValue(s[n..])
      case None => None
      case Some((value, rest)) => Some((Label(s[..n], value), rest))
  }

  function ExecLabel(s: string): (m: Option<(Label, string)>)
    ensures m.Some? ==> |m.value.1| < |s|
  {
    var m := MatchLabel(s);
    if m.Some? then m else if s == "" then None else ExecLabel(s[1..])
  }

  /** \|\s*(.+)$ at the start of s: the blanks give one character back when nothing else is left. */
  function MatchPipe(s: string): Option<string> {
    if s == "" || s[0] != '|' then None else
    var rest := SkipSpaces(s[1..]);
    if rest != "" then if HasLineEnd(rest) then None else Some(rest)
    else if |s| > 1 && !IsLineEnd(s[|s| - 1]) then Some(s[|s| - 1..])
    else None
  }

  function ExecPipe(s: string): Option<string> {
    var m := MatchPipe(s);
    if m.Some? then m else if s == "" then None else ExecPipe(s[1..])
  }

  /** "([^"]+)" at the start of s */
  function MatchQuoted(s: string): (m: Option<(string, string)>)
    ensures m.Some? ==> |m.value.1| < |s|
  {
    if s == "" || s[0] != '"' then None else
    var close := Find(s[1..], '"');
    if close == 0 || close == |s[1..]| then None
    else Some((s[1..][..close], s[1..][close + 1..]))
  }

  function ExecQuoted(s: string): (m: Option<(string, string)>)
    ensures m.Some? ==> |m.value.1| < |s|
  {
    var m := MatchQuoted(s);
    if m.Some? then m else if s == "" then None else ExecQuoted(s[1..])
  }

  /** The length of OR or AND, in any case, at the start of s; 0 if it is neither. */
  function OperatorLength(s: string): (n: nat)
    ensures n <= |s|
  {
    if |s| >= 2 && s[0] in {'O', 'o'} && s[1] in {'R', 'r'} then 2
    else if |s| >= 3 && s[0] in {'A', 'a'} && s[1] in {'N', 'n'} && s[2] in {'D', 'd'} then 3
    else 0
  }

  /** \s+(?:OR|AND)\s+ at the start of s */
  function MatchOperator(s: string): (m: Option<string>)
    ensures m.Some? ==> |m.value| < |s|
  {
    var word := SkipSpaces(s);
    var n := OperatorLength(word);
    var rest := SkipSpaces(word[n..]);
    if |word| == |s| || n == 0 || |rest| == |word| - n then None else Some(rest)
  }

  /** split: the pieces between operators; `piece` is what was read since the last one. */
  function Split(piece: string, s: string): seq<string>
    decreases |s|
  {
    if s == "" then [piece]
    else match MatchOperator(s)
      case Some(rest) => [piece] + Split("", rest)
      case None => Split(piece + [s[0]], s[1..])
  }

  function TrimEnd(s: string): string {
    if s != "" && IsSpace(s[|s| - 1]) then TrimEnd(s[..|s| - 1]) else s
  }

  function Trim(s: string): string {
    TrimEnd(SkipSpaces(s))
  }

  /** replace(/^["']|["']$/g, '') */
  function StripQuotes(s: string): string {
    var t := if s != "" && IsQuote(s[0]) then s[1..] else s;
    if t != "" && IsQuote(t[|t| - 1]) then t[..|t| - 1] else t
  }

  // ---------------------------------------------------------------- specification

  function Labels(s: string): seq<Label>
    decreases |s|
  {
    match ExecLabel(s)
    case None => []
    case Some((first, rest)) => [first] + Labels(rest)
  }

  function Quoted(s: string): seq<string>
    decreases |s|
  {
    match ExecQuoted(s)
    case None => []
    case Some((term, rest)) => [term] + Quoted(rest)
  }

  /** The non-empty pieces, trimmed and stripped of quotes. */
  function Cleaned(pieces: seq<string>): seq<string> {
    if pieces == [] then [] else
    var w := StripQuotes(Trim(pieces[0]));
    (if w == "" then [] else [w]) + Cleaned(pieces[1..])
  }

  function LabelsOf(q: string): seq<Label> {
    match LabelBlock(q) case None => [] case Some(block) => Labels(block)
  }

  function TermsIn(section: string): seq<string> {
    if Quoted(section) != [] then Quoted(section) else Cleaned(Split("", section))
  }

  function TermsOf(q: string): seq<string> {
    match ExecPipe(q) case None => [] case Some(section) => TermsIn(section)
  }

  // ---------------------------------------------------------------- the code

  method ParseQuery(queryStr: string) returns (q: Query)
    ensures q.labels == LabelsOf(queryStr) && q.terms == TermsOf(queryStr) && q.raw == queryStr
    ensures q.primaryTerm == if q.terms == [] then "" else q.terms[0]
  {
    var labels, terms := [], [];

    var labelBlock := LabelBlock(queryStr);
    if labelBlock.Some? {
      labels := ReadLabels(labelBlock.value);
    }

    var pipeSection := ExecPipe(queryStr);
    if pipeSection.Some? {
      terms := ReadQuoted(pipeSection.value);
      if |terms| == 0 {
        terms := Clean(Split("", pipeSection.value));
      }
    }

    q := Query(labels, terms, if |terms| > 0 then terms[0] else "", queryStr);
  }

  /** The first exec loop. */
  method ReadLabels(block: string) returns (labels: seq<Label>)
    ensures labels == Labels(block)
  {
    labels := [];
    var rest := block;
    var m := ExecLabel(rest);
    while m.Some?
      invariant m == ExecLabel(rest)
      invariant Labels(block) == labels + Labels(rest)
      decreases |rest|
    {
      ConcatAssociative(labels, [m.value.0], Labels(m.value.1));
      labels := labels + [m.value.0];
      rest := m.value.1;
      m := ExecLabel(rest);
    }
  }

  /** The second exec loop. */
  method ReadQuoted(section: string) returns (terms: seq<string>)
    ensures terms == Quoted(section)
  {
    terms := [];
    var rest := section;
    var m := ExecQuoted(rest);
    while m.Some?
      invariant m == ExecQuoted(rest)
      invariant Quoted(section) == terms + Quoted(rest)
      decreases |rest|
    {
      ConcatAssociative(terms, [m.value.0], Quoted(m.value.1));
      terms := terms + [m.value.0];
      rest := m.value.1;
      m := ExecQuoted(rest);
    }
  }

  /** map, filter and forEach over the pieces. */
  method Clean(pieces: seq<string>) returns (terms: seq<string>)
    ensures terms == Cleaned(pieces)
  {
    terms := [];
    var i := 0;
    while i < |pieces|
      invariant 0 <= i <= |pieces|
      invariant Cleaned(pieces) == terms + Cleaned(pieces[i..])
    {
      var w := StripQuotes(Trim(pieces[i]));
      CleanedFrom(pieces, i);
      ghost var before := terms;
      if w != "" {
        terms := terms + [w];
      }
      i := i + 1;
      assert terms == before + (if w == "" then [] else [w]);
      ConcatAssociative(before, if w == "" then [] else [w], Cleaned(pieces[i..]));
    }
  }

  lemma CleanedFrom(pieces: seq<string>, i: nat)
    requires i < |pieces|
    ensures Cleaned(pieces[i..]) ==
            (if StripQuotes(Trim(pieces[i])) == "" then [] else [StripQuotes(Trim(pieces[i]))]) + Cleaned(pieces[i + 1..])
  {
    assert pieces[i..][1..] == pieces[i + 1..];
  }

  // ---------------------------------------------------------------- the printer

  /** key="value" */
  function PrintLabel(l: Label): string {
    l.key + "=\"" + l.value + "\""
  }

  function PrintLabels(labels: seq<Label>): string {
    if labels == [] then ""
    else PrintLabel(labels[0]) + (if |labels| == 1 then "" else ", " + PrintLabels(labels[1..]))
  }

  /** Each term in quotes, and then some other text. */
  function PrintQuoted(terms: seq<string>, others: seq<string>): string
    requires |terms| == |others|
  {
    if terms == [] then ""
    else "\"" + terms[0] + "\"" + (others[0] + PrintQuoted(terms[1..], others[1..]))
  }

  /** A term, perhaps with a single quote on either side, and what stands between it and the next one. */
  datatype Word = Word(term: string, open: string, close: string, before: string, op: string, after: string)

  function PrintBare(words: seq<Word>): string {
    if words == [] then ""
    else var w := words[0]; (w.open + w.term + w.close) + (w.before + (w.op + (w.after + PrintBare(words[1..]))))
  }

  function TermsOfWords(words: seq<Word>): seq<string> {
    if words == [] then [] else [words[0].term] + TermsOfWords(words[1..])
  }

  function InBraces(text: string, tail: string): string {
    "{" + (text + ['}'] + tail)
  }

  /** {k="v", ...} | section */
  function PrintQuery(labels: seq<Label>, section: string): string {
    InBraces(PrintLabels(labels), " | " + section)
  }

  ghost predicate Free(s: string, c: char) {
    forall i :: 0 <= i < |s| ==> s[i] != c
  }

  ghost predicate IsKey(s: string) {
    s != "" && forall i :: 0 <= i < |s| ==> IsWordChar(s[i])
  }

  ghost predicate IsLabel(l: Label) {
    IsKey(l.key) && Free(l.value, '"') && Free(l.value, '}')
  }

  ghost predicate AreLabels(labels: seq<Label>) {
    forall i :: 0 <= i < |labels| ==> IsLabel(labels[i])
  }

  ghost predicate PipeFree(labels: seq<Label>) {
    forall i :: 0 <= i < |labels| ==> Free(labels[i].value, '|')
  }

  ghost predicate IsTerm(t: string) {
    t != "" && Free(t, '"') && !HasLineEnd(t)
  }

  /** Text between quoted terms. */
  ghost predicate IsOther(t: string) {
    Free(t, '"') && !HasLineEnd(t)
  }

  /** A term that needs no quotes. */
  ghost predicate IsBare(t: string) {
    && t != "" && Free(t, '"') && (forall i :: 0 <= i < |t| ==> !IsSpace(t[i]))
    && t[0] != '\'' && t[|t| - 1] != '\''
  }

  /** Blanks by their code points. */
  predicate IsBlank(c: char) {
    var n := c as int;
    9 <= n <= 13 || n in {32, 0xa0, 0x1680, 0x2028, 0x2029, 0x202f, 0x205f, 0x3000, 0xfeff} || 0x2000 <= n <= 0x200a
  }

  /** Blanks within one line. */
  ghost predicate AreBlanks(s: string) {
    forall i :: 0 <= i < |s| ==> IsBlank(s[i]) && s[i] as int !in {10, 13, 0x2028, 0x2029}
  }

  ghost predicate IsOperator(op: string) {
    op in {"OR", "Or", "oR", "or", "AND", "ANd", "AnD", "And", "aND", "aNd", "anD", "and"}
  }

  /** Between two words there is an operator with blanks on both sides; after the last one there may be blanks. */
  ghost predicate IsWord(w: Word, isLast: bool) {
    && IsBare(w.term) && w.open in {"", "'"} && w.close in {"", "'"}
    && AreBlanks(w.before) && AreBlanks(w.after)
    && if isLast then w.op == w.after == "" else w.before != "" && IsOperator(w.op) && w.after != ""
  }

  ghost predicate AreWords(words: seq<Word>) {
    words != [] && forall i :: 0 <= i < |words| ==> IsWord(words[i], i == |words| - 1)
  }

  // ---------------------------------------------------------------- labels

  lemma FindAfter(a: string, c: char, b: string)
    requires Free(a, c)
    ensures var s := a + [c] + b; Find(s, c) == |a| && s[..|a|] == a && s[|a| + 1..] == b
  {
    var s := a + [c] + b;
    if |a| < Find(s, c) {
      NotBeforeIndex(s, c, 0, |a|);
    }
  }

  lemma {:induction false} WordIs(s: string, from: nat, n: nat)
    requires from <= n < |s| && !IsWordChar(s[n]) && forall k :: from <= k < n ==> IsWordChar(s[k])
    ensures WordFrom(s, from) == n
    decreases |s| - from
  {
    if from < n {
      WordIs(s, from + 1, n);
    }
  }

  lemma WordEnds(a: string, b: string)
    requires (forall i :: 0 <= i < |a| ==> IsWordChar(a[i])) && b != "" && !IsWordChar(b[0])
    ensures WordLength(a + b) == |a|
  {
    WordIs(a + b, 0, |a|);
  }

  lemma ValueMatches(value: string, tail: string)
    requires Free(value, '"')
    ensures MatchValue("=\"" + (value + ['"'] + tail)) == Some((value, tail))
  {
    var text := value + ['"'] + tail;
    var s := "=\"" + text;
    assert s[1..] == "\"" + text && ("\"" + text)[1..] == text;
    FindAfter(value, '"', tail);
  }

  /** The printed form of a label is matched as a whole. */
  lemma PrintedLabelMatches(l: Label, tail: string)
    requires IsKey(l.key) && Free(l.value, '"')
    ensures ExecLabel(PrintLabel(l) + tail) == Some((l, tail))
  {
    var rest := "=\"" + (l.value + ['"'] + tail);
    var s := l.key + rest;
    assert PrintLabel(l) + tail == s;
    WordEnds(l.key, rest);
    ValueMatches(l.value, tail);
    assert s[..|l.key|] == l.key && s[|l.key|..] == rest;
  }

  /** The separator between labels is skipped. */
  lemma SeparatorSkipped(s: string)
    ensures ExecLabel(", " + s) == ExecLabel(s)
  {
    assert (", " + s)[1..] == " " + s;
    assert (" " + s)[1..] == s;
    assert MatchLabel(", " + s).None? && MatchLabel(" " + s).None?;
  }

  lemma {:induction false} PrintedLabelsParse(labels: seq<Label>)
    requires AreLabels(labels)
    ensures Labels(PrintLabels(labels)) == labels
  {
    if labels != [] {
      var tail := if |labels| == 1 then "" else ", " + PrintLabels(labels[1..]);
      PrintedLabelMatches(labels[0], tail);
      if |labels| > 1 {
        PrintedLabelsParse(labels[1..]);
        SeparatorSkipped(PrintLabels(labels[1..]));
      }
    }
  }

  lemma {:induction false} PrintedLabelsFree(labels: seq<Label>, c: char)
    requires AreLabels(labels)
    requires c == '}' || (c == '|' && PipeFree(labels))
    ensures Free(PrintLabels(labels), c)
  {
    if |labels| > 1 {
      PrintedLabelsFree(labels[1..], c);
    }
  }

  // ---------------------------------------------------------------- the pipe section

  lemma {:induction false} PipeAfter(a: string, b: string)
    requires Free(a, '|') && MatchPipe(b).Some?
    ensures ExecPipe(a + b) == MatchPipe(b)
  {
    if a == "" {
      assert a + b == b;
    } else {
      assert (a + b)[1..] == a[1..] + b;
      PipeAfter(a[1..], b);
    }
  }

  lemma OneSpace(s: string)
    requires s == "" || !IsSpace(s[0])
    ensures SkipSpaces(" " + s) == s
  {
    assert (" " + s)[1..] == s;
    assert SkipSpaces(s) == s;
  }

  lemma PipeMatches(section: string)
    requires (section == "" || !IsSpace(section[0])) && !HasLineEnd(section)
    ensures MatchPipe("| " + section) == Some(if section == "" then " " else section)
  {
    var s := "| " + section;
    assert s[1..] == " " + section;
    OneSpace(section);
    assert section == "" ==> s[|s| - 1..] == " ";
  }

  lemma BlockOf(text: string, tail: string)
    requires Free(text, '}')
    ensures LabelBlock(InBraces(text, tail)) == Some(text)
  {
    FindAfter(text, '}', tail);
    assert InBraces(text, tail)[1..] == text + ['}'] + tail;
  }

  /** A pipe is open when what follows it could be a section: no line end after its blanks. */
  ghost predicate OpenPipe(text: string, i: nat)
    requires i < |text|
  {
    text[i] == '|' && !HasLineEnd(SkipSpaces(text[i + 1..]))
  }

  ghost predicate NoOpenPipe(text: string) {
    forall i: nat :: i < |text| ==> !OpenPipe(text, i)
  }

  lemma NoOpenPipeFromFront(c: char, y: string)
    ensures NoOpenPipe([c] + y) <==> NoOpenPipe(y) && !OpenPipe([c] + y, 0)
  {
    var text := [c] + y;
    forall i: nat | i < |y| ensures OpenPipe(text, i + 1) <==> OpenPipe(y, i) {
      assert text[i + 2..] == y[i + 1..];
    }
    forall i: nat | i < |text| && i > 0 ensures OpenPipe(text, i) <==> OpenPipe(y, i - 1) {
      assert text[i + 1..] == y[i..];
    }
  }

  lemma {:induction false} SkipSpacesUpTo(a: string, b: string)
    requires b != "" && !IsSpace(b[0])
    ensures SkipSpaces(a + b) == SkipSpaces(a) + b
  {
    if a == "" {
      assert a + b == b;
    } else if IsSpace(a[0]) {
      assert (a + b)[1..] == a[1..] + b;
      SkipSpacesUpTo(a[1..], b);
    }
  }

  lemma LineEndsConcat(a: string, b: string)
    ensures HasLineEnd(a + b) <==> HasLineEnd(a) || HasLineEnd(b)
  {
    var s := a + b;
    if HasLineEnd(a) {
      var i :| 0 <= i < |a| && IsLineEnd(a[i]);
      assert IsLineEnd(s[i]);
    }
    if HasLineEnd(b) {
      var i :| 0 <= i < |b| && IsLineEnd(b[i]);
      assert IsLineEnd(s[|a| + i]);
    }
  }

  /** What follows the labels in a printed query. */
  function Tail(section: string): string {
    "} | " + section
  }

  /** The section as the parser sees it: the blank before an empty one. */
  function Seen(section: string): string {
    if section == "" then " " else section
  }

  lemma TailIsSection(section: string)
    requires (section == "" || !IsSpace(section[0])) && !HasLineEnd(section)
    ensures ExecPipe(Tail(section)) == Some(Seen(section)) && !HasLineEnd(Tail(section))
  {
    PipeMatches(section);
    PipeAfter("} ", "| " + section);
    assert Tail(section) == "} " + ("| " + section);
  }

  /** A pipe in the text of the labels: taken when it is open, passed over otherwise. */
  lemma PipeInText(y: string, tail: string)
    requires tail != "" && !IsSpace(tail[0]) && !HasLineEnd(tail)
    ensures MatchPipe("|" + y + tail) == if OpenPipe("|" + y, 0) then Some(SkipSpaces(y) + tail) else None
  {
    var s := "|" + y + tail;
    assert s[1..] == y + tail && ("|" + y)[1..] == y;
    SkipSpacesUpTo(y, tail);
    LineEndsConcat(SkipSpaces(y), tail);
  }

  /** The first open pipe is taken, with all that follows it. */
  lemma {:induction false} SectionTaken(x: string, section: string)
    requires (section == "" || !IsSpace(section[0])) && !HasLineEnd(section)
    ensures NoOpenPipe(x) ==> ExecPipe(x + Tail(section)) == Some(Seen(section))
    ensures !NoOpenPipe(x) ==> exists more :: ExecPipe(x + Tail(section)) == Some(more + Tail(section))
  {
    TailIsSection(section);
    if x == "" {
      assert x + Tail(section) == Tail(section);
    } else {
      var y, tail := x[1..], Tail(section);
      var s := x + tail;
      assert x == [x[0]] + y && s[1..] == y + tail;
      SectionTaken(y, section);
      NoOpenPipeFromFront(x[0], y);
      if x[0] == '|' {
        assert s == "|" + y + tail && x == "|" + y;
        PipeInText(y, tail);
      } else {
        assert MatchPipe(s).None?;
      }
    }
  }

  /** Labels come back whatever follows them, and even if their values contain a pipe. */
  lemma LabelsRoundTrip(labels: seq<Label>, section: string)
    requires AreLabels(labels)
    ensures LabelsOf(PrintQuery(labels, section)) == labels
  {
    PrintedLabelsFree(labels, '}');
    PrintedLabelsParse(labels);
    BlockOf(PrintLabels(labels), " | " + section);
  }

  lemma PrintedText(labels: seq<Label>, section: string)
    ensures PrintQuery(labels, section) == ("{" + PrintLabels(labels)) + Tail(section)
    ensures NoOpenPipe("{" + PrintLabels(labels)) <==> NoOpenPipe(PrintLabels(labels))
  {
    NoOpenPipeFromFront('{', PrintLabels(labels));
    assert "{" + PrintLabels(labels) == ['{'] + PrintLabels(labels);
  }

  /** The parser takes the printed section for the section exactly when no pipe among the labels is open. */
  lemma PrintedSection(labels: seq<Label>, section: string)
    requires section == "" || !IsSpace(section[0])
    requires !HasLineEnd(section)
    ensures ExecPipe(PrintQuery(labels, section)) == Some(Seen(section)) <==> NoOpenPipe(PrintLabels(labels))
  {
    PrintedText(labels, section);
    SectionTaken("{" + PrintLabels(labels), section);
  }

  /** An open pipe hides the section: what is taken is longer and ends with it. */
  lemma OpenPipeTakesMore(labels: seq<Label>, section: string)
    requires section == "" || !IsSpace(section[0])
    requires !HasLineEnd(section) && !NoOpenPipe(PrintLabels(labels))
    ensures exists more :: ExecPipe(PrintQuery(labels, section)) == Some(more + "} | " + section)
  {
    PrintedText(labels, section);
    SectionTaken("{" + PrintLabels(labels), section);
    var more :| ExecPipe(PrintQuery(labels, section)) == Some(more + Tail(section));
    assert more + Tail(section) == more + "} | " + section;
  }

  lemma PipeFreeIsNotOpen(labels: seq<Label>)
    requires AreLabels(labels) && PipeFree(labels)
    ensures NoOpenPipe(PrintLabels(labels))
  {
    PrintedLabelsFree(labels, '|');
  }

  /** When label values hold no line end, as in a one-line input, it is about pipes in values alone. */
  lemma OneLinePipeFree(labels: seq<Label>)
    requires AreLabels(labels) && forall i :: 0 <= i < |labels| ==> !HasLineEnd(labels[i].value)
    ensures NoOpenPipe(PrintLabels(labels)) <==> PipeFree(labels)
  {
    if PipeFree(labels) {
      PipeFreeIsNotOpen(labels);
    } else {
      var l :| 0 <= l < |labels| && !Free(labels[l].value, '|');
      var text := PrintLabels(labels);
      var i := PipeOfValue(labels, l);
      PrintedLabelsOneLine(labels);
      SkippedOneLine(text, i + 1);
      assert OpenPipe(text, i);
    }
  }

  lemma {:induction false} SkipSpacesIsTail(s: string) returns (n: nat)
    ensures n <= |s| && SkipSpaces(s) == s[n..]
  {
    n := 0;
    if s != "" && IsSpace(s[0]) {
      n := SkipSpacesIsTail(s[1..]);
      assert s[1..][n..] == s[n + 1..];
      n := n + 1;
    }
  }

  lemma SkippedOneLine(s: string, i: nat)
    requires i <= |s| && !HasLineEnd(s)
    ensures !HasLineEnd(SkipSpaces(s[i..]))
  {
    var n := SkipSpacesIsTail(s[i..]);
    assert forall k :: 0 <= k < |s[i..][n..]| ==> s[i..][n..][k] == s[i + n + k];
  }

  lemma {:induction false} PrintedLabelsOneLine(labels: seq<Label>)
    requires AreLabels(labels) && forall i :: 0 <= i < |labels| ==> !HasLineEnd(labels[i].value)
    ensures !HasLineEnd(PrintLabels(labels))
  {
    if labels != [] {
      var l := labels[0];
      assert !HasLineEnd(l.key) && !HasLineEnd("=\"") && !HasLineEnd("\"") && !HasLineEnd(", ") && !HasLineEnd("");
      LineEndsConcat(l.key, "=\"");
      LineEndsConcat(l.key + "=\"", l.value);
      LineEndsConcat(l.key + "=\"" + l.value, "\"");
      if |labels| > 1 {
        PrintedLabelsOneLine(labels[1..]);
        LineEndsConcat(", ", PrintLabels(labels[1..]));
        LineEndsConcat(PrintLabel(l), ", " + PrintLabels(labels[1..]));
      } else {
        LineEndsConcat(PrintLabel(l), "");
      }
    }
  }

  lemma {:induction false} PipeOfValue(labels: seq<Label>, l: nat) returns (i: nat)
    requires l < |labels| && !Free(labels[l].value, '|')
    ensures i < |PrintLabels(labels)| && PrintLabels(labels)[i] == '|'
  {
    var first := PrintLabel(labels[0]);
    if l == 0 {
      var k :| 0 <= k < |labels[0].value| && labels[0].value[k] == '|';
      i := |labels[0].key| + 2 + k;
      assert first[i] == '|';
    } else {
      i := PipeOfValue(labels[1..], l - 1);
      i := |first| + 2 + i;
    }
  }

  // ---------------------------------------------------------------- quoted terms

  lemma QuotedMatches(t: string, tail: string)
    requires t != "" && Free(t, '"')
    ensures ExecQuoted("\"" + t + "\"" + tail) == Some((t, tail))
  {
    var s := "\"" + t + "\"" + tail;
    assert s[1..] == t + ['"'] + tail;
    FindAfter(t, '"', tail);
  }

  lemma {:induction false} OtherSkipped(a: string, s: string)
    requires Free(a, '"')
    ensures ExecQuoted(a + s) == ExecQuoted(s)
  {
    if a == "" {
      assert a + s == s;
    } else {
      assert (a + s)[1..] == a[1..] + s;
      OtherSkipped(a[1..], s);
    }
  }

  lemma {:induction false} PrintedTermsParse(terms: seq<string>, others: seq<string>)
    requires |terms| == |others|
    requires forall i :: 0 <= i < |terms| ==> IsTerm(terms[i]) && IsOther(others[i])
    ensures Quoted(PrintQuoted(terms, others)) == terms
  {
    if terms != [] {
      var rest := PrintQuoted(terms[1..], others[1..]);
      PrintedTermsParse(terms[1..], others[1..]);
      QuotedMatches(terms[0], others[0] + rest);
      OtherSkipped(others[0], rest);
    }
  }

  lemma {:induction false} PrintedTermsOneLine(terms: seq<string>, others: seq<string>)
    requires |terms| == |others|
    requires forall i :: 0 <= i < |terms| ==> IsTerm(terms[i]) && IsOther(others[i])
    ensures !HasLineEnd(PrintQuoted(terms, others))
  {
    if terms != [] {
      var rest := PrintQuoted(terms[1..], others[1..]);
      PrintedTermsOneLine(terms[1..], others[1..]);
      LineEndsConcat(others[0], rest);
      LineEndsConcat("\"", terms[0]);
      LineEndsConcat("\"" + terms[0], "\"");
      LineEndsConcat("\"" + terms[0] + "\"", others[0] + rest);
    }
  }

  /**
   * parseQuery undoes the printer {k="v", ...} | lead "t1" other "t2" other: once there is a
   * quoted term, the text outside the quotes, operators included, does not matter.
   */
  lemma QuotedRoundTrip(labels: seq<Label>, lead: string, terms: seq<string>, others: seq<string>)
    requires AreLabels(labels) && NoOpenPipe(PrintLabels(labels)) && |terms| == |others|
    requires forall i :: 0 <= i < |terms| ==> IsTerm(terms[i]) && IsOther(others[i])
    requires IsOther(lead) && (if terms == [] then lead == "" else lead == "" || !IsSpace(lead[0]))
    ensures LabelsOf(PrintQuery(labels, lead + PrintQuoted(terms, others))) == labels
    ensures TermsOf(PrintQuery(labels, lead + PrintQuoted(terms, others))) == terms
  {
    var section := lead + PrintQuoted(terms, others);
    PrintedTermsOneLine(terms, others);
    LineEndsConcat(lead, PrintQuoted(terms, others));
    LabelsRoundTrip(labels, section);
    PrintedSection(labels, section);
    PrintedTermsParse(terms, others);
    OtherSkipped(lead, PrintQuoted(terms, others));
    if terms == [] {
      BlankSection();
    }
  }

  lemma BlankSection()
    ensures TermsIn(" ") == []
  {
    assert " "[1..] == "" && "" + [' '] == " ";
    NoQuoteNoTerm(" ");
    assert SkipSpaces(" ") == "";
    assert MatchOperator(" ").None?;
    assert Split("", " ") == Split(" ", "");
    assert Split(" ", "") == [" "] && [" "][1..] == [];
    assert Cleaned([]) == [] && Trim(" ") == "" && StripQuotes("") == "";
  }

  lemma OneQuoteNoTerm()
    ensures Quoted("t\"") == []
  {
    assert "t\""[1..] == "\"" && "\""[1..] == "";
    assert MatchQuoted("t\"").None? && MatchQuoted("\"").None? && MatchQuoted("").None?;
    assert ExecQuoted("\"") == ExecQuoted("") == None;
  }

  lemma MisreadSection()
    ensures TermsIn("\"} | \"t\"") == ["} | "]
  {
    var section := "\"} | \"t\"";
    assert section == "\"" + "} | " + "\"" + "t\"";
    QuotedMatches("} | ", "t\"");
    OneQuoteNoTerm();
  }

  /** A pipe in a label value is taken for the start of the section: {k="|"} | "t" yields no term t. */
  lemma PipeInValueMisleads()
    ensures TermsOf("{k=\"|\"} | \"t\"") == ["} | "]
  {
    var section := "\"} | \"t\"";
    assert "{k=\"|\"} | \"t\"" == "{k=\"" + ("|" + section);
    assert ("|" + section)[1..] == section && SkipSpaces(section) == section;
    assert !HasLineEnd(section);
    PipeAfter("{k=\"", "|" + section);
    MisreadSection();
  }

  // ---------------------------------------------------------------- bare terms

  lemma {:induction false} NoQuoteNoTerm(s: string)
    requires Free(s, '"')
    ensures Quoted(s) == []
  {
    ExecNothing(s);
  }

  lemma {:induction false} ExecNothing(s: string)
    requires Free(s, '"')
    ensures ExecQuoted(s) == None
  {
    if s != "" {
      ExecNothing(s[1..]);
    }
  }

  lemma {:induction false} WordIntoPiece(piece: string, w: string, tail: string)
    requires forall i :: 0 <= i < |w| ==> !IsSpace(w[i])
    ensures Split(piece, w + tail) == Split(piece + w, tail)
    decreases |w|
  {
    if w == "" {
      assert w + tail == tail && piece + w == piece;
    } else {
      var s := w + tail;
      assert SkipSpaces(s) == s;
      assert s[1..] == w[1..] + tail;
      WordIntoPiece(piece + [w[0]], w[1..], tail);
      assert piece + [w[0]] + w[1..] == piece + w;
    }
  }

  lemma {:induction false} BlanksSkipped(b: string, s: string)
    requires AreBlanks(b) && (s == "" || !IsSpace(s[0]))
    ensures SkipSpaces(b + s) == s
  {
    if b == "" {
      assert b + s == s;
    } else {
      assert (b + s)[1..] == b[1..] + s;
      BlanksSkipped(b[1..], s);
    }
  }

  lemma {:induction false} BlanksTrimmed(t: string, b: string)
    requires t != "" && !IsSpace(t[|t| - 1]) && AreBlanks(b)
    ensures TrimEnd(t + b) == t
  {
    if b == "" {
      assert t + b == t;
    } else {
      assert (t + b)[..|t + b| - 1] == t + b[..|b| - 1];
      BlanksTrimmed(t, b[..|b| - 1]);
    }
  }

  lemma OperatorRead(op: string, s: string)
    requires IsOperator(op)
    ensures OperatorLength(op + s) == |op| && (op + s)[|op|..] == s && !IsSpace((op + s)[0])
  {
  }

  lemma OperatorMatches(w: Word, s: string)
    requires IsWord(w, false) && s != "" && !IsSpace(s[0])
    ensures MatchOperator(w.before + (w.op + (w.after + s))) == Some(s)
  {
    var word := w.op + (w.after + s);
    OperatorRead(w.op, w.after + s);
    BlanksSkipped(w.before, word);
    BlanksSkipped(w.after, s);
  }

  /** Blanks alone separate nothing. */
  lemma {:induction false} BlanksIntoPiece(piece: string, b: string)
    requires AreBlanks(b)
    ensures Split(piece, b) == [piece + b]
    decreases |b|
  {
    if b == "" {
      assert piece + b == piece;
    } else {
      BlanksSkipped(b, "");
      assert b + "" == b;
      BlanksIntoPiece(piece + [b[0]], b[1..]);
      assert piece + [b[0]] + b[1..] == piece + b;
    }
  }

  function PrintWord(w: Word): string {
    w.open + w.term + w.close
  }

  lemma WordSolid(w: Word, isLast: bool)
    requires IsWord(w, isLast)
    ensures PrintWord(w) != "" && forall i :: 0 <= i < |PrintWord(w)| ==> !IsSpace(PrintWord(w)[i])
  {
  }

  lemma WordStripped(w: Word, isLast: bool)
    requires IsWord(w, isLast)
    ensures StripQuotes(PrintWord(w)) == w.term
  {
    assert w.open == "" ==> PrintWord(w) == w.term + w.close;
    assert w.open != "" ==> PrintWord(w)[1..] == w.term + w.close;
    assert w.close == "" ==> w.term + w.close == w.term;
    assert (w.term + w.close)[..|w.term|] == w.term;
  }

  lemma WordIsClean(w: Word, isLast: bool, b: string)
    requires IsWord(w, isLast) && AreBlanks(b)
    ensures StripQuotes(Trim(PrintWord(w) + b)) == w.term
  {
    WordSolid(w, isLast);
    WordStripped(w, isLast);
    BlanksTrimmed(PrintWord(w), b);
  }

  lemma OnePieceMore(w: Word, rest: string)
    requires IsWord(w, false) && rest != "" && !IsSpace(rest[0])
    ensures Cleaned(Split("", PrintWord(w) + (w.before + (w.op + (w.after + rest))))) ==
            [w.term] + Cleaned(Split("", rest))
  {
    WordSolid(w, false);
    WordIntoPiece("", PrintWord(w), w.before + (w.op + (w.after + rest)));
    assert "" + PrintWord(w) == PrintWord(w);
    OperatorMatches(w, rest);
    var pieces := Split("", rest);
    assert Split(PrintWord(w), w.before + (w.op + (w.after + rest))) == [PrintWord(w)] + pieces;
    WordIsClean(w, false, "");
    assert PrintWord(w) + "" == PrintWord(w);
    assert ([PrintWord(w)] + pieces)[1..] == pieces;
  }

  lemma OnePiece(w: Word)
    requires IsWord(w, true)
    ensures Cleaned(Split("", PrintWord(w) + w.before)) == [w.term]
  {
    WordSolid(w, true);
    WordIntoPiece("", PrintWord(w), w.before);
    assert "" + PrintWord(w) == PrintWord(w);
    BlanksIntoPiece(PrintWord(w), w.before);
    WordIsClean(w, true, w.before);
    assert [PrintWord(w) + w.before][1..] == [];
  }

  lemma {:induction false} BareTermsParse(words: seq<Word>)
    requires AreWords(words)
    ensures Cleaned(Split("", PrintBare(words))) == TermsOfWords(words)
    ensures PrintBare(words) != "" && !IsSpace(PrintBare(words)[0])
  {
    var w := words[0];
    if |words| > 1 {
      BareTermsParse(words[1..]);
      WordSolid(w, false);
      OnePieceMore(w, PrintBare(words[1..]));
    } else {
      WordSolid(w, true);
      OnePiece(w);
      assert PrintBare(words) == PrintWord(w) + w.before;
    }
  }

  lemma BlanksPlain(b: string)
    requires AreBlanks(b)
    ensures Free(b, '"') && !HasLineEnd(b)
  {
  }

  lemma OperatorPlain(op: string)
    requires op == "" || IsOperator(op)
    ensures Free(op, '"') && !HasLineEnd(op)
  {
  }

  lemma SolidIsOneLine(s: string)
    requires forall i :: 0 <= i < |s| ==> !IsSpace(s[i])
    ensures !HasLineEnd(s)
  {
  }

  lemma QuoteFreeConcat(a: string, b: string)
    requires Free(a, '"') && Free(b, '"')
    ensures Free(a + b, '"')
  {
  }

  lemma WordPlain(w: Word, isLast: bool)
    requires IsWord(w, isLast)
    ensures Free(PrintWord(w), '"') && !HasLineEnd(PrintWord(w))
  {
    WordSolid(w, isLast);
    SolidIsOneLine(PrintWord(w));
    QuoteFreeConcat(w.open, w.term);
    QuoteFreeConcat(w.open + w.term, w.close);
  }

  lemma {:induction false} BareTermsPlain(words: seq<Word>)
    requires words == [] || AreWords(words)
    ensures Free(PrintBare(words), '"') && !HasLineEnd(PrintBare(words))
  {
    if words != [] {
      var w, rest := words[0], PrintBare(words[1..]);
      BareTermsPlain(words[1..]);
      WordPlain(w, |words| == 1);
      BlanksPlain(w.before);
      OperatorPlain(w.op);
      BlanksPlain(w.after);
      LineEndsConcat(w.after, rest);
      LineEndsConcat(w.op, w.after + rest);
      LineEndsConcat(w.before, w.op + (w.after + rest));
      LineEndsConcat(PrintWord(w), w.before + (w.op + (w.after + rest)));
    }
  }

  /**
   * The same for terms without double quotes, joined by OR or AND in any case with any blanks,
   * even when a term is itself OR or AND; single quotes around a term are removed.
   */
  lemma BareRoundTrip(labels: seq<Label>, words: seq<Word>)
    requires AreLabels(labels) && NoOpenPipe(PrintLabels(labels)) && AreWords(words)
    ensures LabelsOf(PrintQuery(labels, PrintBare(words))) == labels
    ensures TermsOf(PrintQuery(labels, PrintBare(words))) == TermsOfWords(words)
  {
    BareTermsPlain(words);
    BareTermsParse(words);
    LabelsRoundTrip(labels, PrintBare(words));
    PrintedSection(labels, PrintBare(words));
    NoQuoteNoTerm(PrintBare(words));
  }
}
