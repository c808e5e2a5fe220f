/** Sequences seen as sets and multisets. */
module Seqs {

  ghost predicate Distinct<T>(s: seq<T>) {
    forall i, j :: 0 <= i < j < |s| ==> s[i] != s[j]
  }

  function Elements<T>(s: seq<T>): set<T> {
    set x | x in s
  }

  /** The first n elements, or all of them when there are fewer. */
  function Take<T>(n: nat, s: seq<T>): seq<T> {
    if |s| <= n then s else s[..n]
  }

  /** The first position of x at or after `from`, or |s|. */
  function IndexFrom<T(==)>(s: seq<T>, x: T, from: nat): (i: nat)
    requires from <= |s|
    ensures from <= i <= |s|
    ensures i < |s| ==> s[i] == x
    decreases |s| - from
  {
    if from == |s| || s[from] == x then from else IndexFrom(s, x, from + 1)
  }

  lemma {:induction false} NotBeforeIndex<T>(s: seq<T>, x: T, from: nat, k: nat)
    requires from <= |s| && from <= k < IndexFrom(s, x, from)
    ensures s[k] != x
    decreases |s| - from
  {
    if from < k {
      NotBeforeIndex(s, x, from + 1, k);
    }
  }

  lemma ConcatAssociative<T>(a: seq<T>, b: seq<T>, c: seq<T>)
    ensures a + (b + c) == (a + b) + c
  {
  }

  lemma SliceOfTail<T>(s: seq<T>, n: nat, i: nat, j: nat)
    requires i <= j && n + j <= |s|
    ensures s[n..][i..j] == s[n + i..n + j]
  {
  }

  /** Each element once, at its first occurrence. */
  function Dedup<T(==)>(s: seq<T>): seq<T> {
    if s == [] then [] else
    var front, x := s[..|s| - 1], s[|s| - 1];
    if x in front then Dedup(front) else Dedup(front) + [x]
  }

  function Map<T, U>(f: T -> U, s: seq<T>): (r: seq<U>)
    ensures |r| == |s|
    ensures forall i :: 0 <= i < |s| ==> r[i] == f(s[i])
  {
    seq(|s|, i requires 0 <= i < |s| => f(s[i]))
  }

  function Flatten<T>(s: seq<seq<T>>): seq<T> {
    if s == [] then [] else Flatten(s[..|s| - 1]) + s[|s| - 1]
  }

  lemma {:induction false} DedupElements<T(!new)>(s: seq<T>)
    ensures Distinct(Dedup(s))
    ensures forall x :: x in Dedup(s) <==> x in s
  {
    if s != [] {
      DedupElements(s[..|s| - 1]);
    }
  }

  lemma {:induction false} DedupShorter<T>(s: seq<T>)
    ensures |Dedup(s)| <= |s|
  {
    if s != [] {
      DedupShorter(s[..|s| - 1]);
    }
  }

  /** x occurs at a place up to which y does not. */
  ghost predicate FirstOccursBefore<T>(s: seq<T>, x: T, y: T) {
    exists i :: 0 <= i < |s| && s[i] == x && y !in s[..i + 1]
  }

  /** Of two elements kept, the earlier one occurs before the first occurrence of the later one. */
  lemma {:induction false} DedupOrder<T>(s: seq<T>, a: nat, b: nat)
    requires a < b < |Dedup(s)|
    ensures FirstOccursBefore(s, Dedup(s)[a], Dedup(s)[b])
  {
    var front, x := s[..|s| - 1], s[|s| - 1];
    if b < |Dedup(front)| {
      DedupOrder(front, a, b);
      var i :| 0 <= i < |front| && front[i] == Dedup(front)[a] && Dedup(front)[b] !in front[..i + 1];
      assert s[..i + 1] == front[..i + 1];
    } else {
      var i := KeptElementOccurs(front, a);
      assert forall k :: 0 <= k < i + 1 ==> s[..i + 1][k] == front[k];
    }
  }

  lemma {:induction false} KeptElementOccurs<T>(s: seq<T>, a: nat) returns (i: nat)
    requires a < |Dedup(s)|
    ensures i < |s| && s[i] == Dedup(s)[a]
  {
    var front := s[..|s| - 1];
    if a < |Dedup(front)| {
      i := KeptElementOccurs(front, a);
    } else {
      i := |s| - 1;
    }
  }

  lemma {:induction false} DistinctSize<T(!new)>(s: seq<T>)
    requires Distinct(s)
    ensures |Elements(s)| == |s|
  {
    if s != [] {
      var front, x := s[..|s| - 1], s[|s| - 1];
      DistinctSize(front);
      assert x !in front;
      assert Elements(s) == Elements(front) + {x};
    }
  }

  lemma SubsetSize<T>(a: set<T>, b: set<T>)
    requires a <= b
    ensures |a| <= |b|
    ensures |a| == |b| <==> a == b
  {
    assert b == a + (b - a);
  }

  /** Part of a sequence has its size exactly if it has all its elements. */
  lemma SameSizeIff<T(!new)>(part: seq<T>, all: seq<T>)
    requires Distinct(part) && Distinct(all) && forall x :: x in part ==> x in all
    ensures |part| == |all| <==> forall x :: x in all ==> x in part
  {
    DistinctSize(part);
    DistinctSize(all);
    SubsetSize(Elements(part), Elements(all));
    if Elements(part) == Elements(all) {
      forall x | x in all ensures x in part { assert x in Elements(part); }
    }
  }

  /** Distinct sequences with the same elements are permutations of each other, and so are their images. */
  lemma {:induction false} SameImage<T(!new), U>(f: T -> U, a: seq<T>, b: seq<T>)
    requires Distinct(a) && Distinct(b)
    requires forall x :: x in a <==> x in b
    ensures multiset(Map(f, a)) == multiset(Map(f, b))
  {
    assert b != [] ==> b[0] in b;
    if a != [] {
      var n := |a| - 1;
      assert a[n] in b;
      var i :| 0 <= i < |b| && b[i] == a[n];
      WithoutOne(f, a, n);
      WithoutOne(f, b, i);
      SameImage(f, a[..n] + a[n + 1..], b[..i] + b[i + 1..]);
    }
  }

  /** Distinct elements of a larger sequence: their images are among its images. */
  lemma {:induction false} PartOfImage<T(!new), U>(f: T -> U, a: seq<T>, b: seq<T>)
    requires Distinct(a) && Distinct(b)
    requires forall x :: x in a ==> x in b
    ensures multiset(Map(f, a)) <= multiset(Map(f, b))
  {
    if a != [] {
      var n := |a| - 1;
      assert a[n] in b;
      var i :| 0 <= i < |b| && b[i] == a[n];
      WithoutOne(f, a, n);
      WithoutOne(f, b, i);
      PartOfImage(f, a[..n] + a[n + 1..], b[..i] + b[i + 1..]);
    }
  }

  lemma WithoutOne<T(!new), U>(f: T -> U, s: seq<T>, i: nat)
    requires Distinct(s) && i < |s|
    ensures var rest := s[..i] + s[i + 1..];
            && Distinct(rest)
            && (forall x :: x in rest <==> x in s && x != s[i])
            && multiset(Map(f, s)) == multiset(Map(f, rest)) + multiset{f(s[i])}
  {
    WithoutOneElements(s, i);
    WithoutOneImage(f, s, i);
  }

  lemma WithoutOneElements<T>(s: seq<T>, i: nat)
    requires Distinct(s) && i < |s|
    ensures Distinct(s[..i] + s[i + 1..])
    ensures forall x :: x in s[..i] + s[i + 1..] <==> x in s && x != s[i]
  {
    var rest := s[..i] + s[i + 1..];
    assert forall j :: 0 <= j < |rest| ==> rest[j] == if j < i then s[j] else s[j + 1];
    forall x ensures x in rest <==> x in s && x != s[i] {
      if x in s && x != s[i] {
        var j :| 0 <= j < |s| && s[j] == x;
        assert rest[if j < i then j else j - 1] == x;
      }
    }
  }

  lemma WithoutOneImage<T, U>(f: T -> U, s: seq<T>, i: nat)
    requires i < |s|
    ensures multiset(Map(f, s)) == multiset(Map(f, s[..i] + s[i + 1..])) + multiset{f(s[i])}
  {
    var a, b := s[..i], s[i + 1..];
    var m := Map(f, s);
    assert Map(f, a + b) == m[..i] + m[i + 1..];
    MultisetWithout(m, i);
  }

  lemma MultisetWithout<T>(s: seq<T>, i: nat)
    requires i < |s|
    ensures multiset(s) == multiset(s[..i] + s[i + 1..]) + multiset{s[i]}
  {
    assert s == s[..i] + ([s[i]] + s[i + 1..]);
  }

  lemma MapConcat<T, U>(f: T -> U, a: seq<T>, b: seq<T>)
    ensures Map(f, a + b) == Map(f, a) + Map(f, b)
  {
  }

  lemma {:induction false} FlattenConcat<T>(a: seq<seq<T>>, b: seq<seq<T>>)
    ensures Flatten(a + b) == Flatten(a) + Flatten(b)
  {
    if b == [] {
      assert a + b == a;
    } else {
      assert (a + b)[..|a + b| - 1] == a + b[..|b| - 1];
      FlattenConcat(a, b[..|b| - 1]);
    }
  }

  // ---------------------------------------------------------------- distinct images

  lemma {:induction false} DistinctCount<T(!new)>(s: seq<T>, x: T)
    requires Distinct(s)
    ensures multiset(s)[x] <= 1
  {
    if s != [] {
      var front, last := s[..|s| - 1], s[|s| - 1];
      DistinctCount(front, x);
      assert last !in front;
      assert s == front + [last];
    }
  }

  lemma TwiceCounts<T(!new)>(s: seq<T>, i: nat, j: nat)
    requires i < j < |s| && s[i] == s[j]
    ensures multiset(s)[s[i]] >= 2
  {
    MultisetWithout(s, i);
    assert (s[..i] + s[i + 1..])[j - 1] == s[j];
  }

  lemma SameImageSameElement<T(!new), U(!new)>(f: T -> U, s: seq<T>, a: T, b: T)
    requires Distinct(Map(f, s)) && a in s && b in s && f(a) == f(b)
    ensures a == b
  {
    var i :| 0 <= i < |s| && s[i] == a;
    var j :| 0 <= j < |s| && s[j] == b;
    assert Map(f, s)[i] == Map(f, s)[j];
  }

  /** Elements with distinct images keep them in any selection of the elements, in any order. */
  lemma DistinctImagesOfPart<T(!new), U(!new)>(f: T -> U, part: seq<T>, s: seq<T>)
    requires Distinct(Map(f, s)) && multiset(part) <= multiset(s)
    ensures Distinct(Map(f, part))
  {
    forall i, j | 0 <= i < j < |s| ensures s[i] != s[j] {
      assert Map(f, s)[i] != Map(f, s)[j];
    }
    forall i, j | 0 <= i < j < |part| ensures f(part[i]) != f(part[j]) {
      var a, b := part[i], part[j];
      assert a in multiset(part) && b in multiset(part);
      DistinctCount(s, a);
      if a == b {
        TwiceCounts(part, i, j);
      } else if f(a) == f(b) {
        SameImageSameElement(f, s, a, b);
      }
    }
  }
}
