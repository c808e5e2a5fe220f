/** Numbers summed over the elements of a sequence. */
module Sums {

  ghost function Sum<A>(f: A -> nat, s: seq<A>): nat {
    if s == [] then 0 else Sum(f, s[..|s| - 1]) + f(s[|s| - 1])
  }

  lemma SumSnoc<A>(f: A -> nat, s: seq<A>, x: A)
    ensures Sum(f, s + [x]) == Sum(f, s) + f(x)
  {
    assert (s + [x])[..|s|] == s;
  }

  lemma {:induction false} SumConcat<A>(f: A -> nat, a: seq<A>, b: seq<A>)
    ensures Sum(f, a + b) == Sum(f, a) + Sum(f, b)
  {
    if b == [] {
      assert a + b == a;
    } else {
      var front, last := b[..|b| - 1], b[|b| - 1];
      SumConcat(f, a, front);
      assert a + b == (a + front) + [last];
      SumSnoc(f, a + front, last);
    }
  }

  lemma SumInMiddle<A>(f: A -> nat, a: seq<A>, x: A, b: seq<A>)
    ensures Sum(f, (a + [x]) + b) == Sum(f, a + b) + f(x)
  {
    SumConcat(f, a + [x], b);
    SumSnoc(f, a, x);
    SumConcat(f, a, b);
  }

  lemma SplitAt<A>(s: seq<A>, i: nat)
    requires i < |s|
    ensures (s[..i] + [s[i]]) + s[i + 1..] == s
  {
  }

  lemma SumWithout<A>(f: A -> nat, s: seq<A>, i: nat)
    requires i < |s|
    ensures Sum(f, s) == Sum(f, s[..i] + s[i + 1..]) + f(s[i])
  {
    SplitAt(s, i);
    SumInMiddle(f, s[..i], s[i], s[i + 1..]);
  }

  lemma SumHead<A>(f: A -> nat, s: seq<A>)
    requires s != []
    ensures Sum(f, s) == Sum(f, s[1..]) + f(s[0])
  {
    SumWithout(f, s, 0);
    assert s[..0] + s[1..] == s[1..];
  }

  lemma SumUpdate<A>(f: A -> nat, s: seq<A>, i: nat, x: A)
    requires i < |s|
    ensures Sum(f, s[i := x]) + f(s[i]) == Sum(f, s) + f(x)
  {
    SumWithout(f, s, i);
    SumWithout(f, s[i := x], i);
    assert s[i := x][..i] == s[..i] && s[i := x][i + 1..] == s[i + 1..];
  }

  lemma {:induction false} SumMonotone<A(!new)>(f: A -> nat, g: A -> nat, s: seq<A>)
    requires forall x :: f(x) <= g(x)
    ensures Sum(f, s) <= Sum(g, s)
  {
    if s != [] {
      SumMonotone(f, g, s[..|s| - 1]);
    }
  }
}
