/** The counting sort that orders the automaton's states by length. */
module LengthSort {
  import opened Counting

  ghost function CountEqual(lengths: seq<int>, k: nat, length: int): nat
    requires k <= |lengths|
  {
    if k == 0 then 0 else CountEqual(lengths, k - 1, length) + if lengths[k - 1] == length then 1 else 0
  }

  ghost function CountBelow(lengths: seq<int>, length: nat): nat {
    if length == 0 then 0 else CountBelow(lengths, length - 1) + CountEqual(lengths, |lengths|, length - 1)
  }

  /** Where a stable sort by length puts state `v`. */
  ghost function Rank(lengths: seq<int>, v: int): nat
    requires 0 <= v < |lengths| && lengths[v] >= 0
  {
    CountBelow(lengths, lengths[v]) + CountEqual(lengths, v, lengths[v])
  }

  lemma {:induction false} CountEqualMonotone(lengths: seq<int>, j: nat, k: nat, length: int)
    requires j <= k <= |lengths|
    ensures CountEqual(lengths, j, length) <= CountEqual(lengths, k, length)
  {
    if j < k {
      CountEqualMonotone(lengths, j, k - 1, length);
    }
  }

  lemma {:induction false} CountBelowMonotone(lengths: seq<int>, l: nat, m: nat)
    requires l <= m
    ensures CountBelow(lengths, l) <= CountBelow(lengths, m)
  {
    if l < m {
      CountBelowMonotone(lengths, l, m - 1);
    }
  }

  /** Ranks follow length first and state number second. */
  lemma RankOrder(lengths: seq<int>, v: int, w: int)
    requires 0 <= v < |lengths| && 0 <= w < |lengths| && lengths[v] >= 0 && lengths[w] >= 0
    requires lengths[v] < lengths[w] || (lengths[v] == lengths[w] && v < w)
    ensures Rank(lengths, v) < Rank(lengths, w)
  {
    CountEqualMonotone(lengths, v + 1, if lengths[v] < lengths[w] then |lengths| else w, lengths[v]);
    if lengths[v] < lengths[w] {
      CountBelowMonotone(lengths, lengths[v] + 1, lengths[w]);
    }
  }

  lemma {:induction false} SplitCount(lengths: seq<int>, k: nat, bound: nat)
    requires k <= |lengths|
    requires forall i :: 0 <= i < |lengths| ==> 0 <= lengths[i] < bound
    ensures SumEqual(lengths, k, bound) == k
  {
    if k > 0 {
      SplitCount(lengths, k - 1, bound);
      OneMoreCounted(lengths, k, bound);
    } else {
      NoneCounted(lengths, bound);
    }
  }

  ghost function SumEqual(lengths: seq<int>, k: nat, bound: nat): nat
    requires k <= |lengths|
  {
    if bound == 0 then 0 else SumEqual(lengths, k, bound - 1) + CountEqual(lengths, k, bound - 1)
  }

  lemma {:induction false} NoneCounted(lengths: seq<int>, bound: nat)
    ensures SumEqual(lengths, 0, bound) == 0
  {
    if bound > 0 {
      NoneCounted(lengths, bound - 1);
    }
  }

  lemma {:induction false} OneMoreCounted(lengths: seq<int>, k: nat, bound: nat)
    requires 1 <= k <= |lengths| && 0 <= lengths[k - 1]
    ensures SumEqual(lengths, k, bound) == SumEqual(lengths, k - 1, bound) + if lengths[k - 1] < bound then 1 else 0
  {
    if bound > 0 {
      OneMoreCounted(lengths, k, bound - 1);
    }
  }

  lemma {:induction false} BelowIsSum(lengths: seq<int>, bound: nat)
    ensures CountBelow(lengths, bound) == SumEqual(lengths, |lengths|, bound)
  {
    if bound > 0 {
      BelowIsSum(lengths, bound - 1);
    }
  }

  lemma RankInRange(lengths: seq<int>, bound: nat, v: int)
    requires forall i :: 0 <= i < |lengths| ==> 0 <= lengths[i] < bound
    requires 0 <= v < |lengths|
    ensures Rank(lengths, v) < |lengths|
  {
    CountEqualMonotone(lengths, v + 1, |lengths|, lengths[v]);
    CountBelowMonotone(lengths, lengths[v] + 1, bound);
    BelowIsSum(lengths, bound);
    SplitCount(lengths, |lengths|, bound);
  }

  /** `order` lists every state once, shortest first. */
  ghost predicate SortsByLength(order: seq<int>, lengths: seq<int>) {
    && |order| == |lengths|
    && (forall p :: 0 <= p < |order| ==> 0 <= order[p] < |lengths|)
    && (forall v :: 0 <= v < |lengths| ==> v in order)
    && Distinct(order)
    && (forall p, q :: 0 <= p < q < |order| ==> lengths[order[p]] <= lengths[order[q]])
  }

  /** A list that holds every state at its rank is sorted. */
  lemma RankedIsSorted(order: seq<int>, lengths: seq<int>, bound: nat)
    requires forall i :: 0 <= i < |lengths| ==> 0 <= lengths[i] < bound
    requires |order| == |lengths|
    requires forall v :: 0 <= v < |lengths| ==> Rank(lengths, v) < |order| && order[Rank(lengths, v)] == v
    ensures SortsByLength(order, lengths)
  {
    var n := |lengths|;
    var ranks := seq(n, v requires 0 <= v < n => Rank(lengths, v) as int);
    forall v, w | 0 <= v < w < n ensures ranks[v] != ranks[w] {
      RanksDiffer(lengths, v, w);
    }
    forall p | 0 <= p < n ensures 0 <= order[p] < n && Rank(lengths, order[p]) == p {
      Pigeonhole(ranks, p);
      var v :| 0 <= v < n && ranks[v] == p;
    }
    forall v | 0 <= v < n ensures v in order {
      assert order[Rank(lengths, v)] == v;
    }
    forall p, q | 0 <= p < q < n ensures lengths[order[p]] <= lengths[order[q]] {
      if lengths[order[p]] > lengths[order[q]] {
        RankOrder(lengths, order[q], order[p]);
      }
    }
  }

  /** How many states have each length. */
  method CountLengths(lengths: seq<int>, longest: nat) returns (counts: seq<int>)
    requires forall i :: 0 <= i < |lengths| ==> 0 <= lengths[i] <= longest
    ensures |counts| == longest + 1
    ensures forall l :: 0 <= l <= longest ==> counts[l] == CountEqual(lengths, |lengths|, l)
  {
    counts := seq(longest + 1, _ => 0);
    for i := 0 to |lengths|
      invariant |counts| == longest + 1
      invariant forall l :: 0 <= l <= longest ==> counts[l] == CountEqual(lengths, i, l)
    {
      counts := counts[lengths[i] := counts[lengths[i]] + 1];
    }
  }

  /** Running totals: for each length, how many states are no longer than it. */
  method EndPositions(lengths: seq<int>, counts: seq<int>) returns (ends: seq<int>)
    requires |counts| >= 1
    requires forall l :: 0 <= l < |counts| ==> counts[l] == CountEqual(lengths, |lengths|, l)
    ensures |ends| == |counts|
    ensures forall l :: 0 <= l < |ends| ==> ends[l] == CountBelow(lengths, l + 1)
  {
    ends := counts;
    assert CountBelow(lengths, 0) == 0;
    for l := 1 to |counts|
      invariant |ends| == |counts|
      invariant forall m :: 0 <= m < l ==> ends[m] == CountBelow(lengths, m + 1)
      invariant forall m :: l <= m < |counts| ==> ends[m] == counts[m]
    {
      ends := ends[l := ends[l] + ends[l - 1]];
    }
  }

  lemma RanksDiffer(lengths: seq<int>, v: int, w: int)
    requires 0 <= v < |lengths| && 0 <= w < |lengths| && lengths[v] >= 0 && lengths[w] >= 0 && v != w
    ensures Rank(lengths, v) != Rank(lengths, w)
  {
    if lengths[v] < lengths[w] || (lengths[v] == lengths[w] && v < w) {
      RankOrder(lengths, v, w);
    } else {
      RankOrder(lengths, w, v);
    }
  }

  /** Counting sort: count the lengths, turn the counts into end positions, and place the states
      from the last to the first. */
  method SortStates(lengths: seq<int>, longest: nat) returns (order: seq<int>)
    requires forall i :: 0 <= i < |lengths| ==> 0 <= lengths[i] <= longest
    ensures SortsByLength(order, lengths)
  {
    hide CountBelow, SortsByLength, CountEqual;
    var counts := CountLengths(lengths, longest);
    counts := EndPositions(lengths, counts);
    order := seq(|lengths|, _ => 0);
    forall l | 0 <= l <= longest
      ensures counts[l] == CountBelow(lengths, l) + CountEqual(lengths, |lengths|, l)
    {
      BelowStep(lengths, l);
    }
    for v := |lengths| downto 0
      invariant |counts| == longest + 1 && |order| == |lengths|
      invariant forall l :: 0 <= l <= longest ==> counts[l] == CountBelow(lengths, l) + CountEqual(lengths, v, l)
      invariant forall w :: v <= w < |lengths| ==> Rank(lengths, w) < |order| && order[Rank(lengths, w)] == w
    {
      var length := lengths[v];
      forall l | 0 <= l <= longest ensures CountEqual(lengths, v + 1, l) == CountEqual(lengths, v, l) + if l == length then 1 else 0 {
        EqualStep(lengths, v, l);
      }
      counts := counts[length := counts[length] - 1];
      RankInRange(lengths, longest + 1, v);
      forall w | v < w < |lengths| ensures Rank(lengths, w) != Rank(lengths, v) {
        RanksDiffer(lengths, v, w);
      }
      order := order[counts[length] := v];
    }
    RankedIsSorted(order, lengths, longest + 1);
  }

  lemma EqualStep(lengths: seq<int>, v: nat, length: int)
    requires v < |lengths|
    ensures CountEqual(lengths, v + 1, length) == CountEqual(lengths, v, length) + if length == lengths[v] then 1 else 0
  {
  }

  lemma BelowStep(lengths: seq<int>, length: nat)
    ensures CountBelow(lengths, length + 1) == CountBelow(lengths, length) + CountEqual(lengths, |lengths|, length)
  {
  }
}
