/** Splitting a message into index terms (engine/internal/pipeline/tokenizer.go). */
module Tokenizer {
  import opened Bytes
  import opened Schema
  import opened Seqs

  /**
   * One decoded code point: its bytes in the source, whether unicode.IsLetter or
   * unicode.IsNumber holds of it, and the bytes of its unicode.ToLower.
   */
  datatype Rune = Rune(source: bytes, isWord: bool, lower: bytes)

  /** UTF-8 decoding together with the Unicode tables: a parameter of the model. */
  type Decoder = bytes -> seq<Rune>

  function Spelling(runes: seq<Rune>): bytes {
    if runes == [] then [] else Spelling(runes[..|runes| - 1]) + runes[|runes| - 1].source
  }

  function ToLower(runes: seq<Rune>): bytes {
    if runes == [] then [] else ToLower(runes[..|runes| - 1]) + runes[|runes| - 1].lower
  }

  /** Decoding loses no byte, consumes at least one for each rune, and no letter or number becomes NUL. */
  ghost predicate ValidDecoder(decode: Decoder) {
    forall payload :: Spelling(decode(payload)) == payload && ValidRunes(decode(payload))
  }

  predicate ValidRunes(runes: seq<Rune>) {
    forall i :: 0 <= i < |runes| ==> runes[i].source != [] && (runes[i].isWord ==> NulFree(runes[i].lower))
  }

  // ---------------------------------------------------------------- words

  function WordLength(runes: seq<Rune>): (n: nat)
    ensures n <= |runes|
    ensures forall k :: 0 <= k < n ==> runes[k].isWord
    ensures n < |runes| ==> !runes[n].isWord
  {
    if runes == [] || !runes[0].isWord then 0 else 1 + WordLength(runes[1..])
  }

  /** strings.FieldsFunc with the separator test of Tokenize. */
  function Fields(runes: seq<Rune>): seq<seq<Rune>> {
    if runes == [] then []
    else if !runes[0].isWord then Fields(runes[1..])
    else
      var n := WordLength(runes);
      [runes[..n]] + Fields(runes[n..])
  }

  predicate KeptWord(w: seq<Rune>) {
    2 <= |Spelling(w)| <= 64
  }

  /** The kept words in lower case, in order, with repetitions. */
  function LoweredWords(words: seq<seq<Rune>>): seq<bytes> {
    if words == [] then [] else
    var front, w := LoweredWords(words[..|words| - 1]), words[|words| - 1];
    if KeptWord(w) then front + [ToLower(w)] else front
  }

  function Terms(runes: seq<Rune>): seq<bytes> {
    Dedup(LoweredWords(Fields(runes)))
  }

  method Tokenize(decode: Decoder, payload: bytes) returns (tokens: seq<bytes>)
    ensures tokens == Terms(decode(payload))
  {
    var words := Fields(decode(payload));
    var seen := {};
    tokens := [];
    var i := 0;
    while i < |words|
      invariant 0 <= i <= |words|
      invariant tokens == Dedup(LoweredWords(words[..i]))
      invariant forall t :: t in seen <==> t in LoweredWords(words[..i])
    {
      var w := words[i];
      assert words[..i + 1][..i] == words[..i];
      ghost var before := LoweredWords(words[..i]);
      i := i + 1;
      if |Spelling(w)| < 2 || |Spelling(w)| > 64 {
        continue;
      }
      var term := ToLower(w);
      assert (before + [term])[..|before|] == before;
      if term !in seen {
        seen := seen + {term};
        tokens := tokens + [term];
      }
    }
    assert words[..i] == words;
  }

  // ---------------------------------------------------------------- sound and complete

  /** runes[i..j] is a stretch of letters and numbers that cannot be extended. */
  predicate MaximalRun(runes: seq<Rune>, i: int, j: int) {
    && 0 <= i < j <= |runes|
    && (forall k :: i <= k < j ==> runes[k].isWord)
    && (i == 0 || !runes[i - 1].isWord)
    && (j == |runes| || !runes[j].isWord)
  }

  /** The end of the word, or the separator, that the text starts with. */
  function FirstStep(runes: seq<Rune>): (n: nat)
    requires runes != []
    ensures 0 < n <= |runes|
  {
    if runes[0].isWord then WordLength(runes) else 1
  }

  lemma FieldsAfterStep(runes: seq<Rune>, w: seq<Rune>)
    requires runes != []
    ensures w in Fields(runes) <==>
            w in Fields(runes[FirstStep(runes)..]) || (runes[0].isWord && w == runes[..FirstStep(runes)])
  {
  }

  lemma RunOfTail(runes: seq<Rune>, n: nat, i: nat, j: nat)
    requires runes != [] && n == FirstStep(runes) && MaximalRun(runes[n..], i, j)
    ensures MaximalRun(runes, i + n, j + n) && runes[i + n..j + n] == runes[n..][i..j]
  {
    var tail := runes[n..];
    forall k | i + n <= k < j + n ensures runes[k].isWord { assert tail[k - n].isWord; }
    assert tail[i] == runes[i + n];
    assert i > 0 ==> tail[i - 1] == runes[i + n - 1];
    assert j < |tail| ==> tail[j] == runes[j + n];
    SliceOfTail(runes, n, i, j);
  }

  lemma {:induction false} FieldIsMaximalRun(runes: seq<Rune>, w: seq<Rune>) returns (i: nat, j: nat)
    requires w in Fields(runes)
    ensures MaximalRun(runes, i, j) && runes[i..j] == w
  {
    var n := FirstStep(runes);
    FieldsAfterStep(runes, w);
    if runes[0].isWord && w == runes[..n] {
      i, j := 0, n;
    } else {
      i, j := FieldIsMaximalRun(runes[n..], w);
      RunOfTail(runes, n, i, j);
      i, j := i + n, j + n;
    }
  }

  lemma TailOfRun(runes: seq<Rune>, n: nat, i: nat, j: nat)
    requires n <= i && MaximalRun(runes, i, j)
    ensures MaximalRun(runes[n..], i - n, j - n) && runes[i..j] == runes[n..][i - n..j - n]
  {
    var tail := runes[n..];
    forall k | i - n <= k < j - n ensures tail[k].isWord { assert runes[k + n].isWord; }
    assert i > n ==> tail[i - n - 1] == runes[i - 1];
    assert j < |runes| ==> tail[j - n] == runes[j];
    SliceOfTail(runes, n, i - n, j - n);
  }

  lemma FirstRun(runes: seq<Rune>, i: nat, j: nat)
    requires MaximalRun(runes, i, j) && i < FirstStep(runes)
    ensures runes[i..j] in Fields(runes)
  {
    assert runes[0].isWord && i == 0 && j == FirstStep(runes);
    FieldsAfterStep(runes, runes[i..j]);
  }

  lemma {:induction false} MaximalRunIsField(runes: seq<Rune>, i: nat, j: nat)
    requires MaximalRun(runes, i, j)
    ensures runes[i..j] in Fields(runes)
    decreases |runes|
  {
    var n := FirstStep(runes);
    if n <= i {
      var tail := runes[n..];
      TailOfRun(runes, n, i, j);
      MaximalRunIsField(tail, i - n, j - n);
      FieldsAfterStep(runes, runes[i..j]);
    } else {
      FirstRun(runes, i, j);
    }
  }

  lemma {:induction false} LoweredWordsElements(words: seq<seq<Rune>>, t: bytes)
    ensures t in LoweredWords(words) <==> exists w :: w in words && KeptWord(w) && ToLower(w) == t
  {
    if words != [] {
      var front, w := words[..|words| - 1], words[|words| - 1];
      LoweredWordsElements(front, t);
      assert forall v :: v in words <==> v in front || v == w;
    }
  }

  ghost predicate IsTermOf(t: bytes, runes: seq<Rune>) {
    exists i: nat, j: nat :: MaximalRun(runes, i, j) && 2 <= |Spelling(runes[i..j])| <= 64 && ToLower(runes[i..j]) == t
  }

  /** The terms are, without repetition, exactly the lowered maximal runs of 2 to 64 source bytes. */
  lemma TermsAreMaximalRuns(runes: seq<Rune>, t: bytes)
    ensures Distinct(Terms(runes))
    ensures t in Terms(runes) <==> IsTermOf(t, runes)
  {
    var words := Fields(runes);
    DedupElements(LoweredWords(words));
    LoweredWordsElements(words, t);
    if t in Terms(runes) {
      var w :| w in words && KeptWord(w) && ToLower(w) == t;
      var i, j := FieldIsMaximalRun(runes, w);
    }
    if IsTermOf(t, runes) {
      var i: nat, j: nat :| MaximalRun(runes, i, j) && KeptWord(runes[i..j]) && ToLower(runes[i..j]) == t;
      MaximalRunIsField(runes, i, j);
    }
  }

  /** Terms come in the order in which they first occur. */
  lemma TermsInFirstOccurrenceOrder(runes: seq<Rune>, a: nat, b: nat)
    requires a < b < |Terms(runes)|
    ensures FirstOccursBefore(LoweredWords(Fields(runes)), Terms(runes)[a], Terms(runes)[b])
  {
    DedupOrder(LoweredWords(Fields(runes)), a, b);
  }

  lemma {:induction false} ToLowerNulFree(w: seq<Rune>)
    requires ValidRunes(w) && forall k :: 0 <= k < |w| ==> w[k].isWord
    ensures NulFree(ToLower(w))
  {
    if w != [] {
      ToLowerNulFree(w[..|w| - 1]);
    }
  }

  /** No term contains the delimiter of the index keys. */
  lemma TermsAreNulFree(runes: seq<Rune>, t: bytes)
    requires ValidRunes(runes) && t in Terms(runes)
    ensures NulFree(t)
  {
    TermsAreMaximalRuns(runes, t);
    var i: nat, j: nat :| MaximalRun(runes, i, j) && KeptWord(runes[i..j]) && ToLower(runes[i..j]) == t;
    ToLowerNulFree(runes[i..j]);
  }

  // ---------------------------------------------------------------- how many terms

  lemma {:induction false} SpellingConcat(a: seq<Rune>, b: seq<Rune>)
    ensures Spelling(a + b) == Spelling(a) + Spelling(b)
  {
    if b == [] {
      assert a + b == a;
    } else {
      assert (a + b)[..|a + b| - 1] == a + b[..|b| - 1];
      SpellingConcat(a, b[..|b| - 1]);
    }
  }

  lemma {:induction false} LoweredWordsConcat(a: seq<seq<Rune>>, b: seq<seq<Rune>>)
    ensures LoweredWords(a + b) == LoweredWords(a) + LoweredWords(b)
  {
    if b == [] {
      assert a + b == a;
    } else {
      assert (a + b)[..|a + b| - 1] == a + b[..|b| - 1];
      LoweredWordsConcat(a, b[..|b| - 1]);
    }
  }

  lemma {:induction false} WordLengthOf(w: seq<Rune>, rest: seq<Rune>)
    requires forall k :: 0 <= k < |w| ==> w[k].isWord
    requires rest == [] || !rest[0].isWord
    ensures WordLength(w + rest) == |w|
  {
    if w != [] {
      assert (w + rest)[1..] == w[1..] + rest;
      WordLengthOf(w[1..], rest);
    } else {
      assert w + rest == rest;
    }
  }

  /** A word in front of a separator or the end of the text is the first field. */
  lemma FirstField(w: seq<Rune>, rest: seq<Rune>)
    requires w != [] && forall k :: 0 <= k < |w| ==> w[k].isWord
    requires rest == [] || !rest[0].isWord
    ensures Fields(w + rest) == [w] + Fields(rest)
  {
    WordLengthOf(w, rest);
    assert (w + rest)[..|w|] == w && (w + rest)[|w|..] == rest;
  }

  lemma OneField(w: seq<Rune>)
    ensures LoweredWords([w]) == if KeptWord(w) then [ToLower(w)] else []
  {
    assert [w][..0] == [];
  }

  lemma SeparatorSkipped(sep: Rune, rest: seq<Rune>)
    requires !sep.isWord
    ensures Fields([sep] + rest) == Fields(rest)
  {
    assert ([sep] + rest)[1..] == rest;
  }

  lemma SpellingOfSplit(w: seq<Rune>, sep: Rune, rest: seq<Rune>)
    ensures |Spelling(w + ([sep] + rest))| == |Spelling(w)| + |sep.source| + |Spelling(rest)|
  {
    SpellingConcat(w, [sep] + rest);
    SpellingConcat([sep], rest);
    assert [sep][..0] == [];
  }

  /** A text is a word, possibly empty, and then nothing more or a separator and more text. */
  lemma FieldsOfSplit(w: seq<Rune>, sep: Rune, rest: seq<Rune>)
    requires !sep.isWord && forall k :: 0 <= k < |w| ==> w[k].isWord
    ensures LoweredWords(Fields(w + ([sep] + rest))) == LoweredWords([w]) + LoweredWords(Fields(rest))
  {
    SeparatorSkipped(sep, rest);
    if w != [] {
      FirstField(w, [sep] + rest);
      LoweredWordsConcat([w], Fields(rest));
    } else {
      OneField(w);
      assert w + ([sep] + rest) == [sep] + rest;
    }
  }

  lemma OneMoreWord(runes: seq<Rune>, n: nat)
    requires n < |runes| && !runes[n].isWord && runes[n].source != []
    requires forall k :: 0 <= k < n ==> runes[k].isWord
    requires 3 * |LoweredWords(Fields(runes[n + 1..]))| <= |Spelling(runes[n + 1..])| + 1
    ensures 3 * |LoweredWords(Fields(runes))| <= |Spelling(runes)| + 1
  {
    var w, sep, rest := runes[..n], runes[n], runes[n + 1..];
    assert runes == w + ([sep] + rest);
    OneField(w);
    FieldsOfSplit(w, sep, rest);
    SpellingOfSplit(w, sep, rest);
  }

  lemma WholeField(w: seq<Rune>)
    requires w != [] && forall k :: 0 <= k < |w| ==> w[k].isWord
    ensures LoweredWords(Fields(w)) == if KeptWord(w) then [ToLower(w)] else []
  {
    FirstField(w, []);
    assert w + [] == w && [w] + Fields([]) == [w];
    OneField(w);
  }

  /** Every kept word takes two bytes and, except the last, a separator. */
  lemma {:induction false} KeptWordsBound(runes: seq<Rune>)
    requires ValidRunes(runes)
    ensures 3 * |LoweredWords(Fields(runes))| <= |Spelling(runes)| + 1
    decreases |runes|
  {
    var n := WordLength(runes);
    if n < |runes| {
      KeptWordsBound(runes[n + 1..]);
      OneMoreWord(runes, n);
    } else if runes != [] {
      WholeField(runes);
    }
  }

  /** A payload of n bytes has at most (n + 1) / 3 terms. */
  lemma TermCountBound(decode: Decoder, payload: bytes)
    requires ValidDecoder(decode)
    ensures |Terms(decode(payload))| <= (|payload| + 1) / 3
  {
    assert Spelling(decode(payload)) == payload;
    KeptWordsBound(decode(payload));
    DedupShorter(LoweredWords(Fields(decode(payload))));
  }

  // ---------------------------------------------------------------- ASCII

  predicate IsAscii(s: bytes) {
    forall k :: 0 <= k < |s| ==> s[k] < 128
  }

  predicate IsLetterOrDigit(b: byte) {
    0x30 <= b <= 0x39 || 0x41 <= b <= 0x5a || 0x61 <= b <= 0x7a
  }

  function LowerByte(b: byte): byte {
    if 0x41 <= b <= 0x5a then b + 32 else b
  }

  function AsciiRune(b: byte): Rune {
    Rune([b], b < 128 && IsLetterOrDigit(b), [LowerByte(b)])
  }

  function AsciiRunes(s: bytes): (r: seq<Rune>)
    ensures |r| == |s| && forall k :: 0 <= k < |s| ==> r[k] == AsciiRune(s[k])
  {
    seq(|s|, k requires 0 <= k < |s| => AsciiRune(s[k]))
  }

  function LowerBytes(s: bytes): (r: bytes)
    ensures |r| == |s| && forall k :: 0 <= k < |s| ==> r[k] == LowerByte(s[k])
  {
    seq(|s|, k requires 0 <= k < |s| => LowerByte(s[k]))
  }

  /** Any UTF-8 decoder reads ASCII text byte by byte. */
  ghost predicate ReadsAscii(decode: Decoder) {
    forall s :: IsAscii(s) ==> decode(s) == AsciiRunes(s)
  }

  lemma {:induction false} AsciiSpelling(s: bytes)
    ensures Spelling(AsciiRunes(s)) == s && ToLower(AsciiRunes(s)) == LowerBytes(s)
  {
    if s != [] {
      var n := |s| - 1;
      AsciiSpelling(s[..n]);
      assert AsciiRunes(s)[..n] == AsciiRunes(s[..n]);
      assert LowerBytes(s) == LowerBytes(s[..n]) + [LowerByte(s[n])];
    }
  }

  /** The assumptions on decoders can be met. */
  lemma AsciiDecoderIsValid()
    ensures ValidDecoder(AsciiRunes) && ReadsAscii(AsciiRunes)
  {
    forall payload: bytes ensures Spelling(AsciiRunes(payload)) == payload && ValidRunes(AsciiRunes(payload)) {
      AsciiSpelling(payload);
    }
  }

  /** Bytes i to j of an ASCII text are digits and letters, and no byte beside them is one. */
  ghost predicate AsciiRun(m: bytes, i: nat, j: nat) {
    && i < j <= |m|
    && (forall k :: i <= k < j ==> 48 <= m[k] <= 57 || 65 <= m[k] <= 90 || 97 <= m[k] <= 122)
    && (i == 0 || m[i - 1] < 48 || 57 < m[i - 1] < 65 || 90 < m[i - 1] < 97 || 122 < m[i - 1])
    && (j == |m| || m[j] < 48 || 57 < m[j] < 65 || 90 < m[j] < 97 || 122 < m[j])
  }

  /** The same bytes, but upper-case letters are 32 higher. */
  ghost predicate IsFolded(t: bytes, w: bytes) {
    |t| == |w| && forall k :: 0 <= k < |w| ==> t[k] == if 65 <= w[k] <= 90 then w[k] + 32 else w[k]
  }

  lemma AsciiRunIff(m: bytes, i: nat, j: nat)
    requires IsAscii(m)
    ensures AsciiRun(m, i, j) <==> MaximalRun(AsciiRunes(m), i, j)
  {
    var runes := AsciiRunes(m);
    forall k | 0 <= k < |m| ensures runes[k].isWord <==> IsLetterOrDigit(m[k]) {
      assert runes[k] == AsciiRune(m[k]);
    }
  }

  lemma AsciiSlice(m: bytes, i: nat, j: nat)
    requires i <= j <= |m|
    ensures Spelling(AsciiRunes(m)[i..j]) == m[i..j] && IsFolded(ToLower(AsciiRunes(m)[i..j]), m[i..j])
  {
    assert AsciiRunes(m)[i..j] == AsciiRunes(m[i..j]);
    AsciiSpelling(m[i..j]);
  }

  lemma FoldedIsUnique(t: bytes, u: bytes, w: bytes)
    requires IsFolded(t, w) && IsFolded(u, w)
    ensures t == u
  {
  }

  /** The terms of an ASCII text, byte by byte: its longest stretches of digits and letters, folded. */
  lemma AsciiTerms(m: bytes, t: bytes)
    requires IsAscii(m)
    ensures t in Terms(AsciiRunes(m)) <==>
            exists i: nat, j: nat :: AsciiRun(m, i, j) && 2 <= j - i <= 64 && IsFolded(t, m[i..j])
  {
    var runes := AsciiRunes(m);
    TermsAreMaximalRuns(runes, t);
    if IsTermOf(t, runes) {
      var i: nat, j: nat :| MaximalRun(runes, i, j) && 2 <= |Spelling(runes[i..j])| <= 64 && ToLower(runes[i..j]) == t;
      AsciiRunIff(m, i, j);
      AsciiSlice(m, i, j);
    }
    if i: nat, j: nat :| AsciiRun(m, i, j) && 2 <= j - i <= 64 && IsFolded(t, m[i..j]) {
      AsciiRunIff(m, i, j);
      AsciiSlice(m, i, j);
      FoldedIsUnique(t, ToLower(runes[i..j]), m[i..j]);
    }
  }

  /** What every term of an ASCII message looks like; a query with an upper-case letter is none. */
  predicate IsAsciiTerm(t: bytes) {
    2 <= |t| <= 64 && forall k :: 0 <= k < |t| ==> 48 <= t[k] <= 57 || 97 <= t[k] <= 122
  }

  lemma AsciiTermShape(m: bytes, t: bytes)
    requires IsAscii(m) && t in Terms(AsciiRunes(m))
    ensures IsAsciiTerm(t)
  {
    AsciiTerms(m, t);
    var i: nat, j: nat :| AsciiRun(m, i, j) && 2 <= j - i <= 64 && IsFolded(t, m[i..j]);
    forall k | 0 <= k < |t| ensures 48 <= t[k] <= 57 || 97 <= t[k] <= 122 {
      assert m[i..j][k] == m[i + k];
    }
  }

  /** Two words have the same folded form exactly if they differ only in the case of letters. */
  lemma FoldTogetherIff(v: bytes, w: bytes, t: bytes)
    requires IsFolded(t, v)
    ensures IsFolded(t, w) <==>
            |v| == |w| && forall k :: 0 <= k < |v| ==>
              v[k] == w[k] || (65 <= v[k] <= 90 && w[k] == v[k] + 32) || (65 <= w[k] <= 90 && v[k] == w[k] + 32)
  {
  }

  /** strings.Join(terms, " ") */
  function Joined(terms: seq<bytes>): bytes {
    if terms == [] then []
    else if |terms| == 1 then terms[0]
    else terms[0] + [0x20] + Joined(terms[1..])
  }

  lemma AsciiRunesConcat(a: bytes, b: bytes)
    ensures AsciiRunes(a + b) == AsciiRunes(a) + AsciiRunes(b)
  {
  }

  lemma FirstAsciiTerm(t: bytes, rest: bytes)
    requires IsAsciiTerm(t) && (rest == [] || rest[0] == 0x20)
    ensures LoweredWords(Fields(AsciiRunes(t + rest))) == [t] + LoweredWords(Fields(AsciiRunes(rest)))
  {
    var w := AsciiRunes(t);
    AsciiRunesConcat(t, rest);
    FirstField(w, AsciiRunes(rest));
    LoweredWordsConcat([w], Fields(AsciiRunes(rest)));
    AsciiSpelling(t);
    assert LowerBytes(t) == t;
    OneField(w);
  }

  lemma OnlyAsciiTerm(t: bytes)
    requires IsAsciiTerm(t)
    ensures LoweredWords(Fields(AsciiRunes(t))) == [t]
  {
    FirstAsciiTerm(t, []);
    assert t + [] == t;
  }

  lemma SpaceSkipped(rest: bytes)
    ensures Fields(AsciiRunes([0x20] + rest)) == Fields(AsciiRunes(rest))
  {
    AsciiRunesConcat([0x20], rest);
    SeparatorSkipped(AsciiRune(0x20), AsciiRunes(rest));
    assert AsciiRunes([0x20]) == [AsciiRune(0x20)];
  }

  lemma FieldsOfOneMore(terms: seq<bytes>)
    requires |terms| > 1 && IsAsciiTerm(terms[0])
    requires LoweredWords(Fields(AsciiRunes(Joined(terms[1..])))) == terms[1..]
    ensures LoweredWords(Fields(AsciiRunes(Joined(terms)))) == terms
  {
    var rest := Joined(terms[1..]);
    FirstAsciiTerm(terms[0], [0x20] + rest);
    SpaceSkipped(rest);
    assert Joined(terms) == terms[0] + ([0x20] + rest);
    assert [terms[0]] + terms[1..] == terms;
  }

  lemma {:induction false} FieldsOfJoined(terms: seq<bytes>)
    requires forall k :: 0 <= k < |terms| ==> IsAsciiTerm(terms[k])
    ensures LoweredWords(Fields(AsciiRunes(Joined(terms)))) == terms
  {
    if |terms| == 1 {
      OnlyAsciiTerm(terms[0]);
      assert terms == [terms[0]];
    } else if terms != [] {
      FieldsOfJoined(terms[1..]);
      FieldsOfOneMore(terms);
    }
  }

  lemma {:induction false} JoinedIsAscii(terms: seq<bytes>)
    requires forall k :: 0 <= k < |terms| ==> IsAsciiTerm(terms[k])
    ensures IsAscii(Joined(terms))
  {
    if |terms| > 1 {
      JoinedIsAscii(terms[1..]);
    }
  }

  lemma {:induction false} DedupOfDistinct<T>(s: seq<T>)
    requires Distinct(s)
    ensures Dedup(s) == s
  {
    if s != [] {
      DedupOfDistinct(s[..|s| - 1]);
    }
  }

  /** Tokenizing the terms of an ASCII message, joined by spaces, gives the same terms again. */
  lemma TokenizeIsIdempotent(decode: Decoder, m: bytes)
    requires ReadsAscii(decode) && IsAscii(m)
    ensures Terms(decode(Joined(Terms(decode(m))))) == Terms(decode(m))
  {
    var terms := Terms(AsciiRunes(m));
    forall k | 0 <= k < |terms| ensures IsAsciiTerm(terms[k]) {
      AsciiTermShape(m, terms[k]);
    }
    FieldsOfJoined(terms);
    JoinedIsAscii(terms);
    DedupElements(LoweredWords(Fields(AsciiRunes(m))));
    DedupOfDistinct(terms);
  }
}
