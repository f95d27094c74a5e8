/** Finite counting arguments shared by the proofs. */
module Counting {

  ghost predicate Distinct<T>(s: seq<T>) {
    forall i, j :: 0 <= i < j < |s| ==> s[i] != s[j]
  }

  ghost function Elements<T>(s: seq<T>): set<T> {
    set x | x in s
  }

  lemma {:induction false} DistinctSize<T>(s: seq<T>)
    requires Distinct(s)
    ensures |Elements(s)| == |s|
  {
    if s != [] {
      var last, rest := s[|s| - 1], s[..|s| - 1];
      DistinctSize(rest);
      assert Elements(s) == Elements(rest) + {last};
    }
  }

  lemma {:induction false} SubsetSize<T>(a: set<T>, b: set<T>)
    requires a <= b
    ensures |a| <= |b|
    ensures |a| == |b| ==> a == b
  {
    if a != {} {
      var x :| x in a;
      SubsetSize(a - {x}, b - {x});
    }
  }

  /** The numbers below `n`. */
  ghost function Below(n: nat): (r: set<int>)
    ensures |r| == n
    ensures forall i :: i in r <==> 0 <= i < n
  {
    if n == 0 then {} else Below(n - 1) + {n - 1}
  }

  /** Distinct numbers below `n`, as many as `n`, are all the numbers below `n`. */
  lemma Pigeonhole(s: seq<int>, p: int)
    requires Distinct(s) && forall i :: 0 <= i < |s| ==> 0 <= s[i] < |s|
    requires 0 <= p < |s|
    ensures p in s
  {
    DistinctSize(s);
    SubsetSize(Elements(s), Below(|s|));
    assert p in Elements(s);
  }

  lemma Member<T>(a: set<T>) returns (x: T)
    requires |a| >= 1
    ensures x in a
  {
    x :| x in a;
  }

  /** A set that is not a singleton and not empty has two elements. */
  lemma TwoElements(a: set<int>)
    ensures |a| >= 2 <==> exists x, y :: x in a && y in a && x < y
  {
    if |a| >= 2 {
      var x := Member(a);
      var y := Member(a - {x});
      if x < y {
        assert x in a && y in a;
      } else {
        assert y in a && x in a && y < x;
      }
    }
    if x, y :| x in a && y in a && x < y {
      SubsetSize({x, y}, a);
    }
  }

  /** A map has no more values than keys. */
  lemma ImageSize<K, V>(m: map<K, V>)
    ensures |m.Values| <= |m.Keys|
  {
  }

  /** A map that sends no two keys to one value has as many values as keys. */
  lemma {:induction false} InjectiveImageSize<K, V>(m: map<K, V>)
    requires forall k, l :: k in m && l in m && m[k] == m[l] ==> k == l
    ensures |m.Values| == |m.Keys|
  {
    if m.Keys != {} {
      var k :| k in m.Keys;
      var rest := m - {k};
      InjectiveImageSize(rest);
      assert m.Values == rest.Values + {m[k]};
      assert rest.Keys == m.Keys - {k};
      assert m[k] !in rest.Values;
    }
  }
}
