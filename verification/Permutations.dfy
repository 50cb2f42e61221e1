/** Lexicographic order on arrangements of a fixed multiset of integers, and the
    two facts that make next-permutation a complete enumeration: what the greatest
    arrangement looks like, and what its immediate successor is. */
module Permutations {

  /** Same elements, same multiplicities. */
  ghost predicate SameElements(a: seq<int>, b: seq<int>) {
    multiset(a) == multiset(b)
  }

  /** Strict lexicographic order: a and b first differ at an index where a is smaller. */
  ghost predicate LexLess(a: seq<int>, b: seq<int>) {
    exists k :: FirstDifference(a, b, k)
  }

  ghost predicate FirstDifference(a: seq<int>, b: seq<int>, k: nat) {
    k < |a| && k < |b| && a[..k] == b[..k] && a[k] < b[k]
  }

  ghost predicate NonIncreasing(s: seq<int>) {
    forall i, j :: 0 <= i < j < |s| ==> s[i] >= s[j]
  }

  ghost predicate NonDecreasing(s: seq<int>) {
    forall i, j :: 0 <= i < j < |s| ==> s[i] <= s[j]
  }

  /** s is the last arrangement of its elements. */
  ghost predicate Greatest(s: seq<int>) {
    forall c :: SameElements(c, s) ==> c == s || LexLess(c, s)
  }

  /** t is the arrangement that immediately follows s. */
  ghost predicate IsSuccessor(s: seq<int>, t: seq<int>) {
    && SameElements(s, t)
    && LexLess(s, t)
    && forall c :: SameElements(c, s) && LexLess(s, c) ==> c == t || LexLess(t, c)
  }

  lemma SameElementsSameLength(a: seq<int>, b: seq<int>)
    requires SameElements(a, b)
    ensures |a| == |b|
  {
    assert |multiset(a)| == |a|;
    assert |multiset(b)| == |b|;
  }

  /** Two different sequences of equal length are ordered one way or the other. */
  lemma {:induction false} LexTotal(a: seq<int>, b: seq<int>)
    requires |a| == |b|
    ensures a == b || LexLess(a, b) || LexLess(b, a)
  {
    if a != b {
      var k := FirstMismatch(a, b);
      assert FirstDifference(a, b, k) || FirstDifference(b, a, k);
    }
  }

  lemma {:induction false} FirstMismatch(a: seq<int>, b: seq<int>) returns (k: nat)
    requires |a| == |b| && a != b
    ensures k < |a| && a[..k] == b[..k] && a[k] != b[k]
  {
    if a[0] != b[0] {
      k := 0;
    } else {
      assert a == [a[0]] + a[1..] && b == [b[0]] + b[1..];
      var m := FirstMismatch(a[1..], b[1..]);
      k := m + 1;
      assert a[..k] == [a[0]] + a[1..][..m];
      assert b[..k] == [b[0]] + b[1..][..m];
    }
  }

  lemma LexIrreflexive(a: seq<int>, b: seq<int>)
    requires LexLess(a, b)
    ensures a != b && !LexLess(b, a)
  {
    var k: nat :| FirstDifference(a, b, k);
    forall j: nat | j < |a| && j < |b|
      ensures !FirstDifference(b, a, j)
    {
      if j < k {
        assert a[..k][j] == a[j] && b[..k][j] == b[j];
      } else if k < j {
        assert a[..j][k] == a[k] && b[..j][k] == b[k];
      }
    }
  }

  lemma LexTransitive(a: seq<int>, b: seq<int>, c: seq<int>)
    requires LexLess(a, b) && LexLess(b, c)
    ensures LexLess(a, c)
  {
    var j: nat :| FirstDifference(a, b, j);
    var k: nat :| FirstDifference(b, c, k);
    var m := if j <= k then j else k;
    assert a[..m] == a[..j][..m] == b[..j][..m] == b[..m];
    assert c[..m] == c[..k][..m] == b[..k][..m] == b[..m];
    if j < k {
      assert b[..k][j] == c[..k][j];
    } else if k < j {
      assert a[..j][k] == b[..j][k];
    }
    assert FirstDifference(a, c, m);
  }

  /** Prepending a common prefix does not change the order. */
  lemma LexPrefix(p: seq<int>, a: seq<int>, b: seq<int>)
    ensures LexLess(p + a, p + b) <==> LexLess(a, b)
  {
    if LexLess(a, b) {
      var k: nat :| FirstDifference(a, b, k);
      assert (p + a)[..|p| + k] == p + a[..k];
      assert (p + b)[..|p| + k] == p + b[..k];
      assert FirstDifference(p + a, p + b, |p| + k);
    }
    if LexLess(p + a, p + b) {
      var k: nat :| FirstDifference(p + a, p + b, k);
      assert k >= |p|;
      assert a[..k - |p|] == (p + a)[..k][|p|..] == (p + b)[..k][|p|..] == b[..k - |p|];
      assert FirstDifference(a, b, k - |p|);
    }
  }

  /** Cancelling a common prefix keeps the elements equal. */
  lemma SameElementsSuffix(a: seq<int>, b: seq<int>, k: nat)
    requires SameElements(a, b) && k <= |a| && k <= |b| && a[..k] == b[..k]
    ensures SameElements(a[k..], b[k..])
  {
    assert a == a[..k] + a[k..];
    assert b == b[..k] + b[k..];
    Cancel(multiset(a[..k]), multiset(a[k..]), multiset(b[k..]));
  }

  lemma Cancel(m: multiset<int>, a: multiset<int>, b: multiset<int>)
    requires m + a == m + b
    ensures a == b
  {
    assert a == (m + a) - m && b == (m + b) - m;
  }

  lemma MemberOfSameElements(a: seq<int>, b: seq<int>, i: nat)
    requires SameElements(a, b) && i < |a|
    ensures a[i] in b
  {
    assert a[i] in multiset(a);
    assert a[i] in multiset(b);
  }

  /** A non-increasing arrangement is the greatest one. */
  lemma NonIncreasingIsGreatest(s: seq<int>)
    requires NonIncreasing(s)
    ensures Greatest(s)
  {
    forall c | SameElements(c, s) && c != s
      ensures LexLess(c, s)
    {
      SameElementsSameLength(c, s);
      var k := FirstMismatch(c, s);
      SameElementsSuffix(c, s, k);
      MemberOfSameElements(c[k..], s[k..], 0);
      assert FirstDifference(c, s, k);
    }
  }

  /** A non-decreasing arrangement is the least one. */
  lemma NonDecreasingIsLeast(s: seq<int>, c: seq<int>)
    requires NonDecreasing(s) && SameElements(c, s)
    ensures c == s || LexLess(s, c)
  {
    if c != s {
      SameElementsSameLength(c, s);
      var k := FirstMismatch(c, s);
      SameElementsSuffix(c, s, k);
      MemberOfSameElements(c[k..], s[k..], 0);
      assert FirstDifference(s, c, k);
    }
  }

  /** The shape next-permutation produces: keep p, raise the pivot x to y, the least
      larger element of the non-increasing tail d, and sort what is left ascending. */
  lemma SuccessorShape(p: seq<int>, x: int, d: seq<int>, j: nat, r: seq<int>)
    requires NonIncreasing(d) && j < |d| && d[j] > x
    requires forall i :: j < i < |d| ==> d[i] <= x
    requires NonDecreasing(r) && SameElements(r, d[j := x])
    ensures IsSuccessor(p + [x] + d, p + [d[j]] + r)
  {
    var s, t, y := p + [x] + d, p + [d[j]] + r, d[j];
    assert multiset(d[j := x]) == multiset(d) - multiset{y} + multiset{x};
    assert SameElements(s, t) by {
      assert multiset(s) == multiset(p) + multiset{x} + multiset(d);
      assert multiset(t) == multiset(p) + multiset{y} + multiset(r);
      assert y in multiset(d);
    }
    assert s[..|p|] == p == t[..|p|];
    assert FirstDifference(s, t, |p|);
    forall c | SameElements(c, s) && LexLess(s, c)
      ensures c == t || LexLess(t, c)
    {
      SuccessorIsTight(p, x, d, j, r, c);
    }
  }

  /** Above a non-increasing tail there is no arrangement sharing the same head. */
  lemma NothingAboveTail(head: seq<int>, d: seq<int>, c: seq<int>)
    requires NonIncreasing(d) && SameElements(c, head + d) && head <= c
    ensures !LexLess(head + d, c)
  {
    var e := c[|head|..];
    assert c == head + e;
    SameElementsSuffix(c, head + d, |head|);
    assert (head + d)[|head|..] == d;
    NonIncreasingIsGreatest(d);
    LexPrefix(head, d, e);
    if LexLess(e, d) {
      LexIrreflexive(e, d);
    } else {
      assert LexLess(d, d) ==> exists k: nat :: FirstDifference(d, d, k);
    }
  }

  /** Nothing lies strictly between an arrangement and its successor. */
  lemma SuccessorIsTight(p: seq<int>, x: int, d: seq<int>, j: nat, r: seq<int>, c: seq<int>)
    requires NonIncreasing(d) && j < |d| && d[j] > x
    requires forall i :: j < i < |d| ==> d[i] <= x
    requires NonDecreasing(r) && SameElements(r, d[j := x])
    requires SameElements(c, p + [x] + d) && LexLess(p + [x] + d, c)
    ensures c == p + [d[j]] + r || LexLess(p + [d[j]] + r, c)
  {
    var s, t, n := p + [x] + d, p + [d[j]] + r, |p|;
    var k: nat :| FirstDifference(s, c, k);
    if k > n {
      assert s[..k][..n + 1] == p + [x];
      assert c[..k][..n + 1] == c[..n + 1];
      NothingAboveTail(p + [x], d, c);
      assert false;
    }
    if k < n {
      assert t[..k] == s[..k];
      assert FirstDifference(t, c, k);
    } else {
      SuccessorAtPivot(p, x, d, j, r, c);
    }
  }

  lemma SuccessorAtPivot(p: seq<int>, x: int, d: seq<int>, j: nat, r: seq<int>, c: seq<int>)
    requires NonIncreasing(d) && j < |d| && d[j] > x
    requires forall i :: j < i < |d| ==> d[i] <= x
    requires NonDecreasing(r) && SameElements(r, d[j := x])
    requires SameElements(c, p + [x] + d) && FirstDifference(p + [x] + d, c, |p|)
    ensures c == p + [d[j]] + r || LexLess(p + [d[j]] + r, c)
  {
    var s, t, n, y := p + [x] + d, p + [d[j]] + r, |p|, d[j];
    assert c[..n] == p == s[..n] == t[..n];
    SameElementsSuffix(c, s, n);
    assert s[n..] == [x] + d;
    MemberOfSameElements(c[n..], [x] + d, 0);
    var i :| 0 <= i < |d| && d[i] == c[n];
    assert i <= j && c[n] >= y;
    if c[n] > y {
      assert FirstDifference(t, c, n);
    } else {
      var rest := c[n + 1..];
      assert c[n..] == [y] + rest;
      SwappedRest(x, d, j, rest);
      NonDecreasingIsLeast(r, rest);
      assert c == (p + [y]) + rest;
      LexPrefix(p + [y], r, rest);
    }
  }

  lemma SwappedRest(x: int, d: seq<int>, j: nat, rest: seq<int>)
    requires j < |d| && SameElements([d[j]] + rest, [x] + d)
    ensures SameElements(rest, d[j := x])
  {
    var y := d[j];
    assert d == d[..j] + [y] + d[j + 1..];
    assert d[j := x] == d[..j] + [x] + d[j + 1..];
    assert multiset([y] + rest) == multiset{y} + multiset(rest);
    assert multiset([x] + d) == multiset{x} + multiset(d[..j]) + multiset{y} + multiset(d[j + 1..]);
    Cancel(multiset{y}, multiset(rest), multiset(d[j := x]));
  }

  // ---------------------------------------------------------------- counting

  function Factorial(n: nat): (f: nat)
    ensures f >= 1
  {
    if n == 0 then 1 else n * Factorial(n - 1)
  }

  /** Every arrangement of the elements of a set, each used once. */
  ghost function Arrangements(elems: set<int>): set<seq<int>>
    decreases |elems|
  {
    if elems == {} then {[]}
    else set x, p | x in elems && p in Arrangements(elems - {x}) :: [x] + p
  }

  /** The arrangements of elems whose first element lies in firsts. */
  ghost function StartingIn(elems: set<int>, firsts: set<int>): set<seq<int>>
    requires firsts <= elems
  {
    set x, p | x in firsts && p in Arrangements(elems - {x}) :: [x] + p
  }

  lemma SplitFirst(elems: set<int>, x: int, p: seq<int>)
    requires x in elems
    ensures multiset([x] + p) == multiset(elems) <==> multiset(p) == multiset(elems - {x})
  {
    assert multiset(elems) == multiset(elems - {x}) + multiset{x};
    assert multiset([x] + p) == multiset{x} + multiset(p);
    if multiset([x] + p) == multiset(elems) {
      assert multiset(p) == multiset(elems) - multiset{x};
    }
  }

  /** Arrangements(elems) is exactly the sequences over elems that use each once. */
  lemma {:induction false} ArrangementsExact(elems: set<int>, c: seq<int>)
    ensures c in Arrangements(elems) <==> multiset(c) == multiset(elems)
    decreases |elems|
  {
    assert |multiset(c)| == |c| && |multiset(elems)| == |elems|;
    assert elems != {} ==> Arrangements(elems) == StartingIn(elems, elems);
    if elems != {} && c != [] {
      var x, p := c[0], c[1..];
      assert c == [x] + p;
      if x in elems {
        ArrangementsExact(elems - {x}, p);
        SplitFirst(elems, x, p);
        StartsWith(elems, x, p);
      } else {
        assert x in multiset(c);
        NotStarting(elems, c);
      }
    } else if elems != {} {
      NotStarting(elems, c);
    }
  }

  lemma StartsWith(elems: set<int>, x: int, p: seq<int>)
    requires x in elems
    ensures [x] + p in StartingIn(elems, elems) <==> p in Arrangements(elems - {x})
  {
    if [x] + p in StartingIn(elems, elems) {
      var y, q :| y in elems && q in Arrangements(elems - {y}) && [x] + p == [y] + q;
      assert x == ([x] + p)[0] == ([y] + q)[0] == y;
      assert p == ([x] + p)[1..] == ([y] + q)[1..] == q;
    }
  }

  lemma NotStarting(elems: set<int>, c: seq<int>)
    requires c == [] || c[0] !in elems
    ensures c !in StartingIn(elems, elems)
  {
    forall y, q | y in elems && q in Arrangements(elems - {y})
      ensures [y] + q != c
    {
      assert ([y] + q)[0] == y;
    }
  }

  /** A set of n distinct integers has n! arrangements. */
  lemma {:induction false} ArrangementCount(elems: set<int>)
    ensures |Arrangements(elems)| == Factorial(|elems|)
    decreases |elems|
  {
    if elems != {} {
      forall x | x in elems
        ensures |Arrangements(elems - {x})| == Factorial(|elems| - 1)
      {
        ArrangementCount(elems - {x});
      }
      StartingInCount(elems, elems, Factorial(|elems| - 1));
      assert Arrangements(elems) == StartingIn(elems, elems);
    }
  }

  lemma {:induction false} StartingInCount(elems: set<int>, firsts: set<int>, f: nat)
    requires firsts <= elems
    requires forall x :: x in elems ==> |Arrangements(elems - {x})| == f
    ensures |StartingIn(elems, firsts)| == |firsts| * f
    decreases |firsts|
  {
    hide StartingIn, Arrangements;
    if firsts != {} {
      var x := AnyElement(firsts);
      var others := firsts - {x};
      assert firsts == others + {x};
      StartingInSplit(elems, others, x);
      StartingInCount(elems, others, f);
      Distribute(|others|, f);
    } else {
      StartingInNone(elems);
    }
  }

  lemma StartingInNone(elems: set<int>)
    ensures StartingIn(elems, {}) == {}
  {
  }

  lemma Distribute(a: nat, f: nat)
    ensures (a + 1) * f == a * f + f
  {
  }

  lemma AnyElement<T>(s: set<T>) returns (x: T)
    requires s != {}
    ensures x in s
  {
    x :| x in s;
  }

  lemma StartingInSplit(elems: set<int>, others: set<int>, x: int)
    requires others <= elems && x in elems - others
    ensures |StartingIn(elems, others + {x})|
         == |StartingIn(elems, others)| + |Arrangements(elems - {x})|
  {
    hide Arrangements;
    var mine := set p | p in Arrangements(elems - {x}) :: [x] + p;
    PrependCount(x, Arrangements(elems - {x}), mine);
    forall c | c in StartingIn(elems, others)
      ensures c !in mine
    {
      StartsElsewhere(elems, others, x, c);
    }
    assert StartingIn(elems, others + {x}) == StartingIn(elems, others) + mine;
  }

  lemma StartsElsewhere(elems: set<int>, others: set<int>, x: int, c: seq<int>)
    requires others <= elems && x in elems - others && c in StartingIn(elems, others)
    ensures c !in set p | p in Arrangements(elems - {x}) :: [x] + p
  {
    hide Arrangements;
    var y, q :| y in others && q in Arrangements(elems - {y}) && c == [y] + q;
    assert c[0] == y;
    assert forall p: seq<int> :: ([x] + p)[0] == x;
  }

  lemma {:induction false} PrependCount(x: int, tails: set<seq<int>>, image: set<seq<int>>)
    requires image == set p | p in tails :: [x] + p
    ensures |image| == |tails|
    decreases |tails|
  {
    if tails != {} {
      var t :| t in tails;
      var rest := set p | p in tails - {t} :: [x] + p;
      PrependCount(x, tails - {t}, rest);
      forall p | p in tails - {t}
        ensures [x] + p != [x] + t
      {
        assert ([x] + p)[1..] == p && ([x] + t)[1..] == t;
      }
      assert image == rest + {[x] + t};
    } else {
      assert image == {};
    }
  }
}
