/** Optional values, and the facts about sequences, sets and multisets that several models share. */
module Collections {

  datatype Option<+T> = None | Some(value: T)

  // ----- sequences without repetition

  predicate NoRepeats<T(==)>(s: seq<T>) {
    forall i, j :: 0 <= i < j < |s| ==> s[i] != s[j]
  }

  function Elements<T>(s: seq<T>): set<T> {
    set x | x in s
  }

  lemma {:induction false} SizeOfDistinct<T>(s: seq<T>)
    requires NoRepeats(s)
    ensures |Elements(s)| == |s|
  {
    if s == [] {
    } else {
      SizeOfDistinct(s[1..]);
      assert Elements(s) == {s[0]} + Elements(s[1..]);
    }
  }

  lemma {:induction false} CountOfDistinct<T>(s: seq<T>, x: T)
    requires NoRepeats(s)
    ensures multiset(s)[x] == if x in s then 1 else 0
  {
    if s == [] {
    } else {
      assert s == [s[0]] + s[1..];
      CountOfDistinct(s[1..], x);
      assert forall i :: 0 <= i < |s[1..]| ==> s[1..][i] == s[i + 1];
    }
  }

  lemma TwoCopies<T>(s: seq<T>, i: nat, j: nat)
    requires i < j < |s| && s[i] == s[j]
    ensures multiset(s)[s[i]] >= 2
  {
    assert s == s[..j] + [s[j]] + s[j + 1..];
    assert s[i] in s[..j];
  }

  lemma Associative<T>(a: seq<T>, b: seq<T>, c: seq<T>)
    ensures a + (b + c) == a + b + c
  {
  }

  // ----- permutations

  function Removed<T>(s: seq<T>, i: nat): seq<T>
    requires i < |s|
  {
    s[..i] + s[i + 1..]
  }

  lemma RemovedCounts<T>(s: seq<T>, i: nat)
    requires i < |s|
    ensures multiset(s) == multiset(Removed(s, i)) + multiset{s[i]}
  {
    assert s == s[..i] + [s[i]] + s[i + 1..];
  }

  /** Two permuted sequences stay permuted without one equal element of each. */
  lemma RestsPermuted<T>(x: seq<T>, y: seq<T>, i: nat, j: nat)
    requires multiset(x) == multiset(y) && i < |x| && j < |y| && x[i] == y[j]
    ensures multiset(Removed(x, i)) == multiset(Removed(y, j))
  {
    RemovedCounts(x, i);
    RemovedCounts(y, j);
    assert multiset(Removed(x, i)) == multiset(x) - multiset{x[i]};
    assert multiset(Removed(y, j)) == multiset(y) - multiset{y[j]};
  }

  lemma PermutedSize<T>(x: seq<T>, y: seq<T>)
    requires multiset(x) == multiset(y)
    ensures |x| == |y|
  {
    assert |multiset(x)| == |multiset(y)|;
  }

  lemma ThreePermuted<T>(a: T, b: T, c: T, u: T, v: T, w: T)
    requires multiset{a, b, c} == multiset{u, v, w}
    ensures || (u == a && PairIs(b, c, v, w))
            || (u == b && PairIs(a, c, v, w))
            || (u == c && PairIs(a, b, v, w))
  {
    assert u in multiset{a, b, c};
    if u == a {
      SameHead(a, b, c, v, w);
    } else if u == b {
      assert multiset{a, b, c} == multiset{b, a, c};
      SameHead(b, a, c, v, w);
    } else {
      assert multiset{a, b, c} == multiset{c, a, b};
      SameHead(c, a, b, v, w);
    }
  }

  predicate PairIs<T(==)>(b: T, c: T, v: T, w: T) {
    (v == b && w == c) || (v == c && w == b)
  }

  lemma SameHead<T>(a: T, b: T, c: T, v: T, w: T)
    requires multiset{a, b, c} == multiset{a, v, w}
    ensures PairIs(b, c, v, w)
  {
    assert multiset{a, b, c} - multiset{a} == multiset{b, c};
    assert multiset{a, v, w} - multiset{a} == multiset{v, w};
    assert v in multiset{b, c};
    assert multiset{b, c} - multiset{v} == multiset{w};
    assert w in multiset{b, c} - multiset{v};
  }

  // ----- sizes of sets

  lemma SubsetSize<T>(a: set<T>, b: set<T>)
    requires a <= b
    ensures |a| <= |b|
    ensures a < b ==> |a| < |b|
    ensures |a| == |b| ==> a == b
  {
    assert b == a + (b - a);
    assert a < b ==> b - a != {};
  }

  lemma DisjointSize<T>(a: set<T>, b: set<T>)
    requires a !! b
    ensures |a + b| == |a| + |b|
  {
  }
}
