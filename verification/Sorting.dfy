/** Sorting by a total order: what the standard library's sort gives its callers. */
module Sorting {

  ghost predicate TotalOrder<T(!new)>(le: (T, T) -> bool) {
    && (forall x, y :: le(x, y) || le(y, x))
    && (forall x, y, z :: le(x, y) && le(y, z) ==> le(x, z))
  }

  ghost predicate Ascending<T>(s: seq<T>, le: (T, T) -> bool) {
    forall i, j :: 0 <= i < j < |s| ==> le(s[i], s[j])
  }

  function Insert<T>(x: T, s: seq<T>, le: (T, T) -> bool): (r: seq<T>)
    ensures multiset(r) == multiset(s) + multiset{x}
  {
    if s == [] then [x]
    else if le(x, s[0]) then [x] + s
    else
      assert s == [s[0]] + s[1..];
      [s[0]] + Insert(x, s[1..], le)
  }

  function Sort<T>(s: seq<T>, le: (T, T) -> bool): (r: seq<T>)
    ensures multiset(r) == multiset(s)
  {
    if s == [] then []
    else
      assert s == [s[0]] + s[1..];
      Insert(s[0], Sort(s[1..], le), le)
  }

  lemma {:induction false} InsertAscending<T(!new)>(x: T, s: seq<T>, le: (T, T) -> bool)
    requires TotalOrder(le) && Ascending(s, le)
    ensures Ascending(Insert(x, s, le), le)
  {
    if s != [] && !le(x, s[0]) {
      var rest := Insert(x, s[1..], le);
      InsertAscending(x, s[1..], le);
      forall j | 0 <= j < |rest| ensures le(s[0], rest[j]) {
        assert rest[j] in multiset(rest);
        assert rest[j] == x || rest[j] in s[1..];
        if rest[j] != x {
          var k :| 0 <= k < |s[1..]| && s[1..][k] == rest[j];
          assert s[k + 1] == rest[j];
        }
      }
    }
  }

  lemma {:induction false} SortAscending<T(!new)>(s: seq<T>, le: (T, T) -> bool)
    requires TotalOrder(le)
    ensures Ascending(Sort(s, le), le)
  {
    if s != [] {
      SortAscending(s[1..], le);
      InsertAscending(s[0], Sort(s[1..], le), le);
    }
  }

  /** Sums over a list do not depend on its order. */
  ghost function Sum<T>(s: seq<T>, f: T -> real): real {
    if s == [] then 0.0 else Sum(s[..|s| - 1], f) + f(s[|s| - 1])
  }

  lemma SumSnoc<T>(s: seq<T>, x: T, f: T -> real)
    ensures Sum(s + [x], f) == Sum(s, f) + f(x)
  {
  }

  lemma {:induction false} SumConcat<T>(s: seq<T>, t: seq<T>, f: T -> real)
    ensures Sum(s + t, f) == Sum(s, f) + Sum(t, f)
  {
    if t == [] {
      assert s + t == s;
    } else {
      assert (s + t)[..|s + t| - 1] == s + t[..|t| - 1];
      SumConcat(s, t[..|t| - 1], f);
    }
  }

  lemma SumWithout<T>(t: seq<T>, k: nat, f: T -> real)
    requires k < |t|
    ensures Sum(t, f) == Sum(t[..k] + t[k + 1..], f) + f(t[k])
  {
    hide Sum;
    SumConcat(t[..k], t[k + 1..], f);
    SumSnoc(t[..k], t[k], f);
    SumConcat(t[..k] + [t[k]], t[k + 1..], f);
    assert t == t[..k] + [t[k]] + t[k + 1..];
  }

  lemma MultisetWithout<T>(t: seq<T>, k: nat)
    requires k < |t|
    ensures multiset(t[..k] + t[k + 1..]) == multiset(t) - multiset{t[k]}
  {
    assert t == t[..k] + [t[k]] + t[k + 1..];
  }

  lemma MultisetInit<T>(s: seq<T>)
    requires s != []
    ensures multiset(s[..|s| - 1]) == multiset(s) - multiset{s[|s| - 1]}
    ensures s[|s| - 1] in multiset(s)
  {
    assert s == s[..|s| - 1] + [s[|s| - 1]];
  }

  lemma NoElements<T>(s: seq<T>, t: seq<T>)
    requires multiset(s) == multiset(t) && s == []
    ensures t == []
  {
    assert |multiset(t)| == |t|;
  }

  lemma {:induction false} SumOfPermutation<T>(s: seq<T>, t: seq<T>, f: T -> real)
    requires multiset(s) == multiset(t)
    ensures Sum(s, f) == Sum(t, f)
  {
    hide Sum;
    if s == [] {
      NoElements(s, t);
    } else {
      var n := |s| - 1;
      MultisetInit(s);
      var k :| 0 <= k < |t| && t[k] == s[n];
      MultisetWithout(t, k);
      SumOfPermutation(s[..n], t[..k] + t[k + 1..], f);
      SumWithout(t, k, f);
      SumWithout(s, n, f);
      assert s[..n] + s[n + 1..] == s[..n];
    }
  }
}
