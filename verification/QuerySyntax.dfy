/**
 * What the regular expressions of the query bar match, said in terms of the texts themselves
 * (web/src/lib/queryParser.js, parseQuery): each matcher finds a match exactly if the text can be
 * taken apart as its expression says, and exec finds the leftmost place where that is so.
 */
module QuerySyntax {
  import opened QueryParser
  import opened Seqs
  import opened Wrappers

  ghost predicate AllBlank(s: string) {
    forall i :: 0 <= i < |s| ==> IsBlank(s[i])
  }

  ghost predicate StartsSolid(s: string) {
    s == "" || !IsBlank(s[0])
  }

  ghost predicate IsName(s: string) {
    s != "" && forall i :: 0 <= i < |s| ==>
      var n := s[i] as int; 48 <= n <= 57 || 65 <= n <= 90 || n == 95 || 97 <= n <= 122
  }

  ghost predicate OneLine(s: string) {
    forall i :: 0 <= i < |s| ==> s[i] as int !in {10, 13, 0x2028, 0x2029}
  }

  // ---------------------------------------------------------------- helpers

  lemma {:induction false} SkippedBlanks(s: string) returns (b: string)
    ensures s == b + SkipSpaces(s) && AllBlank(b) && StartsSolid(SkipSpaces(s))
  {
    b := "";
    if s != "" && IsSpace(s[0]) {
      b := SkippedBlanks(s[1..]);
      assert s == [s[0]] + s[1..];
      ConcatAssociative([s[0]], b, SkipSpaces(s[1..]));
      b := [s[0]] + b;
    } else {
      assert s == "" + s;
    }
  }

  lemma {:induction false} BlanksGone(b: string, s: string)
    requires AllBlank(b) && StartsSolid(s)
    ensures SkipSpaces(b + s) == s
  {
    if b == "" {
      assert b + s == s;
    } else {
      assert (b + s)[1..] == b[1..] + s;
      BlanksGone(b[1..], s);
    }
  }

  lemma {:induction false} NameRead(s: string, from: nat, k: nat)
    requires from <= |s| && from <= k < WordFrom(s, from)
    ensures IsWordChar(s[k])
    decreases |s| - from
  {
    if from < k {
      NameRead(s, from + 1, k);
    }
  }

  lemma SplitAtFirst(s: string, c: char)
    requires Find(s, c) < |s|
    ensures var i := Find(s, c); s == s[..i] + [c] + s[i + 1..] && Free(s[..i], c)
  {
    var i := Find(s, c);
    forall k | 0 <= k < i ensures s[k] != c {
      NotBeforeIndex(s, c, 0, k);
    }
  }

  lemma HeadAndTail(s: string)
    requires s != ""
    ensures s == [s[0]] + s[1..]
  {
  }

  // ---------------------------------------------------------------- labels

  /** \s*=\s*"([^"]*)" and the rest */
  function ValueText(b1: string, b2: string, value: string, rest: string): string {
    b1 + (['='] + (b2 + (['"'] + (value + ['"'] + rest))))
  }

  lemma ValueFound(b1: string, b2: string, value: string, rest: string)
    requires AllBlank(b1) && AllBlank(b2) && Free(value, '"')
    ensures MatchValue(ValueText(b1, b2, value, rest)) == Some((value, rest))
  {
    var text := value + ['"'] + rest;
    var quote := ['"'] + text;
    var equals := ['='] + (b2 + quote);
    BlanksGone(b1, equals);
    BlanksGone(b2, quote);
    assert equals[1..] == b2 + quote && quote[1..] == text;
    FindAfter(value, '"', rest);
  }

  lemma ValueTaken(s: string) returns (b1: string, b2: string)
    requires MatchValue(s).Some?
    ensures AllBlank(b1) && AllBlank(b2) && Free(MatchValue(s).value.0, '"')
    ensures s == ValueText(b1, b2, MatchValue(s).value.0, MatchValue(s).value.1)
  {
    b1 := SkippedBlanks(s);
    var equals := SkipSpaces(s);
    HeadAndTail(equals);
    b2 := SkippedBlanks(equals[1..]);
    var quote := SkipSpaces(equals[1..]);
    HeadAndTail(quote);
    SplitAtFirst(quote[1..], '"');
  }

  ghost predicate IsLabelText(s: string, l: Label, rest: string) {
    exists b1, b2 :: AllBlank(b1) && AllBlank(b2) && IsName(l.key) && Free(l.value, '"') &&
                     s == l.key + ValueText(b1, b2, l.value, rest)
  }

  lemma ValueTextStarts(b1: string, b2: string, value: string, rest: string)
    requires AllBlank(b1)
    ensures var t := ValueText(b1, b2, value, rest); t != "" && !IsWordChar(t[0])
  {
    assert b1 != "" ==> ValueText(b1, b2, value, rest)[0] == b1[0];
  }

  /** A label is a name, an equals sign and a value in quotes, with any blanks around the sign. */
  lemma LabelMatchIff(s: string, l: Label, rest: string)
    ensures MatchLabel(s) == Some((l, rest)) <==> IsLabelText(s, l, rest)
  {
    if MatchLabel(s) == Some((l, rest)) {
      var n := WordLength(s);
      var b1, b2 := ValueTaken(s[n..]);
      forall k | 0 <= k < n ensures IsWordChar(s[k]) {
        NameRead(s, 0, k);
      }
      assert IsName(l.key);
      assert s == s[..n] + s[n..];
    }
    if IsLabelText(s, l, rest) {
      var b1, b2 :| AllBlank(b1) && AllBlank(b2) && IsName(l.key) && Free(l.value, '"') &&
                    s == l.key + ValueText(b1, b2, l.value, rest);
      LabelFound(l, b1, b2, rest);
    }
  }

  lemma LabelFound(l: Label, b1: string, b2: string, rest: string)
    requires AllBlank(b1) && AllBlank(b2) && IsName(l.key) && Free(l.value, '"')
    ensures MatchLabel(l.key + ValueText(b1, b2, l.value, rest)) == Some((l, rest))
  {
    var text := ValueText(b1, b2, l.value, rest);
    ValueTextStarts(b1, b2, l.value, rest);
    ValueFound(b1, b2, l.value, rest);
    WordEnds(l.key, text);
    assert (l.key + text)[..|l.key|] == l.key && (l.key + text)[|l.key|..] == text;
  }

  // ---------------------------------------------------------------- quoted terms

  /** A quoted term is not empty. */
  lemma QuotedMatchIff(s: string, t: string, rest: string)
    ensures MatchQuoted(s) == Some((t, rest)) <==> t != "" && Free(t, '"') && s == "\"" + (t + "\"" + rest)
  {
    if MatchQuoted(s) == Some((t, rest)) {
      HeadAndTail(s);
      SplitAtFirst(s[1..], '"');
    }
    if t != "" && Free(t, '"') && s == "\"" + (t + "\"" + rest) {
      assert s[1..] == t + ['"'] + rest;
      FindAfter(t, '"', rest);
    }
  }

  // ---------------------------------------------------------------- operators

  ghost predicate IsOperatorText(s: string, rest: string) {
    exists b1, op, b2 :: AllBlank(b1) && b1 != "" && IsOperator(op) && AllBlank(b2) && b2 != "" &&
                         StartsSolid(rest) && s == b1 + (op + (b2 + rest))
  }

  lemma OperatorTaken(s: string)
    ensures OperatorLength(s) > 0 ==> IsOperator(s[..OperatorLength(s)])
  {
    if |s| >= 2 {
      assert s[..2] == [s[0], s[1]];
    }
    if |s| >= 3 {
      assert s[..3] == [s[0], s[1], s[2]];
    }
  }

  /** An operator is OR or AND in any case, with blanks on both sides, all of which belong to it. */
  lemma OperatorMatchIff(s: string, rest: string)
    ensures MatchOperator(s) == Some(rest) <==> IsOperatorText(s, rest)
  {
    if MatchOperator(s) == Some(rest) {
      var b1 := SkippedBlanks(s);
      var word := SkipSpaces(s);
      var n := OperatorLength(word);
      OperatorTaken(word);
      var b2 := SkippedBlanks(word[n..]);
      assert word == word[..n] + word[n..];
    }
    if IsOperatorText(s, rest) {
      var b1, op, b2 :| AllBlank(b1) && b1 != "" && IsOperator(op) && AllBlank(b2) && b2 != "" &&
                        StartsSolid(rest) && s == b1 + (op + (b2 + rest));
      OperatorRead(op, b2 + rest);
      BlanksGone(b1, op + (b2 + rest));
      BlanksGone(b2, rest);
    }
  }

  // ---------------------------------------------------------------- sections

  /** \|\s*(.+)$: what follows a pipe and its blanks; of blanks alone, the last one. */
  ghost predicate IsPipeText(s: string, section: string) {
    exists b :: AllBlank(b) && s == "|" + (b + section) && section != "" && OneLine(section) &&
                (StartsSolid(section) || |section| == 1)
  }

  lemma BlanksAlone(b: string)
    requires AllBlank(b)
    ensures SkipSpaces(b) == ""
  {
    BlanksGone(b, "");
    assert b + "" == b;
  }

  lemma PipeTaken(s: string, section: string)
    requires MatchPipe(s) == Some(section)
    ensures IsPipeText(s, section)
  {
    HeadAndTail(s);
    var b := SkippedBlanks(s[1..]);
    if SkipSpaces(s[1..]) == "" {
      assert b + "" == b == s[1..];
      assert section == [s[|s| - 1]] && s[1..] == s[1..][..|s| - 2] + section;
      assert s == "|" + (s[1..][..|s| - 2] + section);
    }
  }

  lemma PipeFound(s: string, b: string, section: string)
    requires AllBlank(b) && s == "|" + (b + section) && section != "" && OneLine(section)
    requires StartsSolid(section) || |section| == 1
    ensures MatchPipe(s) == Some(section)
  {
    assert s[1..] == b + section;
    if StartsSolid(section) {
      BlanksGone(b, section);
    } else {
      BlanksAlone(b + section);
      assert s[|s| - 1..] == section;
    }
  }

  lemma PipeMatchIff(s: string, section: string)
    ensures MatchPipe(s) == Some(section) <==> IsPipeText(s, section)
  {
    if MatchPipe(s) == Some(section) {
      PipeTaken(s, section);
    }
    if IsPipeText(s, section) {
      var b :| AllBlank(b) && s == "|" + (b + section) && section != "" && OneLine(section) &&
               (StartsSolid(section) || |section| == 1);
      PipeFound(s, b, section);
    }
  }

  // ---------------------------------------------------------------- exec

  /** The first opening brace, and the first closing one after it. */
  lemma LabelBlockIff(s: string, block: string)
    ensures LabelBlock(s) == Some(block) <==>
            Free(block, '}') && exists a, c :: Free(a, '{') && s == a + ['{'] + (block + ['}'] + c)
  {
    if LabelBlock(s) == Some(block) {
      SplitAtFirst(s, '{');
      SplitAtFirst(s[Find(s, '{') + 1..], '}');
    }
    if Free(block, '}') && exists a, c :: Free(a, '{') && s == a + ['{'] + (block + ['}'] + c) {
      var a, c :| Free(a, '{') && s == a + ['{'] + (block + ['}'] + c);
      FindAfter(a, '{', block + ['}'] + c);
      FindAfter(block, '}', c);
    }
  }

  lemma NextSuffix(s: string, j: nat)
    requires j < |s|
    ensures s[1..][j..] == s[j + 1..] && s[0..] == s
  {
  }

  /** exec finds the leftmost label; without one there is no place at which a label starts. */
  lemma {:induction false} LeftmostLabel(s: string) returns (i: nat)
    ensures i <= |s| && ExecLabel(s) == MatchLabel(s[i..])
    ensures forall j: nat :: j < i ==> MatchLabel(s[j..]).None?
    ensures ExecLabel(s).None? ==> i == |s|
  {
    i := 0;
    assert s[0..] == s;
    if MatchLabel(s).None? && s != "" {
      i := LeftmostLabel(s[1..]);
      NextSuffix(s, i);
      forall j: nat | j < i + 1 ensures MatchLabel(s[j..]).None? {
        if j > 0 {
          NextSuffix(s, j - 1);
        }
      }
      i := i + 1;
    }
  }

  lemma {:induction false} LeftmostQuoted(s: string) returns (i: nat)
    ensures i <= |s| && ExecQuoted(s) == MatchQuoted(s[i..])
    ensures forall j: nat :: j < i ==> MatchQuoted(s[j..]).None?
    ensures ExecQuoted(s).None? ==> i == |s|
  {
    i := 0;
    assert s[0..] == s;
    if MatchQuoted(s).None? && s != "" {
      i := LeftmostQuoted(s[1..]);
      NextSuffix(s, i);
      forall j: nat | j < i + 1 ensures MatchQuoted(s[j..]).None? {
        if j > 0 {
          NextSuffix(s, j - 1);
        }
      }
      i := i + 1;
    }
  }

  lemma {:induction false} LeftmostPipe(s: string) returns (i: nat)
    ensures i <= |s| && ExecPipe(s) == MatchPipe(s[i..])
    ensures forall j: nat :: j < i ==> MatchPipe(s[j..]).None?
    ensures ExecPipe(s).None? ==> i == |s|
  {
    i := 0;
    assert s[0..] == s;
    if MatchPipe(s).None? && s != "" {
      i := LeftmostPipe(s[1..]);
      NextSuffix(s, i);
      forall j: nat | j < i + 1 ensures MatchPipe(s[j..]).None? {
        if j > 0 {
          NextSuffix(s, j - 1);
        }
      }
      i := i + 1;
    }
  }

  /** split cuts at the leftmost operator; what lies before it, with what was read before, is a piece. */
  lemma {:induction false} LeftmostOperator(piece: string, s: string) returns (i: nat)
    ensures i <= |s| && forall j: nat :: j < i ==> MatchOperator(s[j..]).None?
    ensures Split(piece, s) ==
            match MatchOperator(s[i..])
            case Some(rest) => [piece + s[..i]] + Split("", rest)
            case None => [piece + s]
    ensures MatchOperator(s[i..]).None? ==> i == |s|
    decreases |s|
  {
    i := 0;
    assert s[0..] == s && piece + s[..0] == piece;
    if s == "" {
      assert piece + s == piece;
    } else if MatchOperator(s).None? {
      i := LeftmostOperator(piece + [s[0]], s[1..]);
      NextSuffix(s, i);
      OneCharMore(piece, s, i);
      forall j: nat | j < i + 1 ensures MatchOperator(s[j..]).None? {
        if j > 0 {
          NextSuffix(s, j - 1);
        }
      }
      i := i + 1;
    }
  }

  lemma OneCharMore(piece: string, s: string, i: nat)
    requires i < |s|
    ensures piece + [s[0]] + s[1..][..i] == piece + s[..i + 1] && piece + [s[0]] + s[1..] == piece + s
  {
  }

  // ---------------------------------------------------------------- trim and replace

  ghost predicate EndsSolid(s: string) {
    s == "" || !IsBlank(s[|s| - 1])
  }

  lemma {:induction false} TrimmedEnd(s: string) returns (b: string)
    ensures s == TrimEnd(s) + b && AllBlank(b) && EndsSolid(TrimEnd(s))
  {
    b := "";
    if s != "" && IsSpace(s[|s| - 1]) {
      var n := |s| - 1;
      b := TrimmedEnd(s[..n]);
      assert s == s[..n] + [s[n]];
      ConcatAssociative(TrimEnd(s[..n]), b, [s[n]]);
      b := b + [s[n]];
    } else {
      assert s == s + "";
    }
  }

  lemma {:induction false} EndTrimmed(s: string, b: string)
    requires AllBlank(b) && EndsSolid(s)
    ensures TrimEnd(s + b) == s
  {
    if b == "" {
      assert s + b == s;
    } else {
      assert (s + b)[..|s + b| - 1] == s + b[..|b| - 1];
      EndTrimmed(s, b[..|b| - 1]);
    }
  }

  ghost predicate IsTrimOf(t: string, s: string) {
    StartsSolid(t) && EndsSolid(t) && exists a, b :: AllBlank(a) && AllBlank(b) && s == a + (t + b)
  }

  /** trim() leaves what is between the blanks at both ends. */
  lemma TrimIff(s: string, t: string)
    ensures Trim(s) == t <==> IsTrimOf(t, s)
  {
    if Trim(s) == t {
      var a := SkippedBlanks(s);
      var b := TrimmedEnd(SkipSpaces(s));
    }
    if IsTrimOf(t, s) {
      var a, b :| AllBlank(a) && AllBlank(b) && s == a + (t + b);
      if t == "" {
        assert t + b == b && AllBlank(a + b);
        BlanksAlone(a + b);
      } else {
        BlanksGone(a, t + b);
        EndTrimmed(t, b);
      }
    }
  }

  ghost predicate IsQuoteText(q: string) {
    q == "\"" || q == "'"
  }

  ghost predicate MayStrip(a: string, t: string, b: string, s: string) {
    && (a == "" || IsQuoteText(a)) && (b == "" || IsQuoteText(b)) && s == a + (t + b)
    && (a == "" && s != "" ==> !IsQuoteText([s[0]]))
    && (b == "" && t != "" ==> !IsQuoteText([t[|t| - 1]]))
  }

  ghost predicate IsStripOf(t: string, s: string) {
    exists a, b :: MayStrip(a, t, b, s)
  }

  /** One quote at either end goes, of either kind; the rest stays. */
  lemma StripIff(s: string, t: string)
    ensures StripQuotes(s) == t <==> IsStripOf(t, s)
  {
    if StripQuotes(s) == t {
      Stripped(s);
    }
    if IsStripOf(t, s) {
      var a, b :| MayStrip(a, t, b, s);
      StripFound(a, t, b, s);
    }
  }

  lemma StripFound(a: string, t: string, b: string, s: string)
    requires MayStrip(a, t, b, s)
    ensures StripQuotes(s) == t
  {
    var u := t + b;
    assert a == "" ==> s == u;
    assert a != "" ==> s[0] == a[0] && s[1..] == u;
    assert (if s != "" && IsQuote(s[0]) then s[1..] else s) == u;
    if b == "" {
      assert u == t;
    } else {
      assert u[..|t|] == t && u[|u| - 1] == b[0];
    }
  }

  lemma FirstQuoteOff(s: string) returns (a: string, u: string)
    ensures u == (if s != "" && IsQuote(s[0]) then s[1..] else s) && s == a + u
    ensures (a == "" || IsQuoteText(a)) && (a == "" && s != "" ==> !IsQuoteText([s[0]]))
  {
    if s != "" && IsQuote(s[0]) {
      a, u := [s[0]], s[1..];
    } else {
      a, u := "", s;
    }
  }

  lemma LastQuoteOff(u: string) returns (t: string, b: string)
    ensures t == (if u != "" && IsQuote(u[|u| - 1]) then u[..|u| - 1] else u) && u == t + b
    ensures (b == "" || IsQuoteText(b)) && (b == "" && t != "" ==> !IsQuoteText([t[|t| - 1]]))
  {
    if u != "" && IsQuote(u[|u| - 1]) {
      t, b := u[..|u| - 1], [u[|u| - 1]];
    } else {
      t, b := u, "";
    }
  }

  lemma Stripped(s: string)
    ensures IsStripOf(StripQuotes(s), s)
  {
    var a, u := FirstQuoteOff(s);
    var t, b := LastQuoteOff(u);
    assert MayStrip(a, t, b, s);
  }
}
