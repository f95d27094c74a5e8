/** Grouping a trace's requests into whole tiers, so that each group fills the concurrent slots,
    with round-robin admission between the tiers of a group. */
module TierGroups {
  import opened Basics

  datatype Request = Request(id: nat, tier: nat)

  /** The requests of one tier, in trace order. */
  function OfTier(s: seq<Request>, t: nat): seq<Request> {
    if s == [] then [] else OfTier(s[..|s| - 1], t) + Keep(s[|s| - 1], t)
  }

  function Keep(x: Request, t: nat): seq<Request> {
    if x.tier == t then [x] else []
  }

  lemma {:induction false} OfTierMembers(s: seq<Request>, t: nat, x: Request)
    ensures x in OfTier(s, t) <==> x in s && x.tier == t
  {
    if s != [] {
      OfTierMembers(s[..|s| - 1], t, x);
      assert s == s[..|s| - 1] + [s[|s| - 1]];
    }
  }

  lemma OfTierOne(x: Request, t: nat)
    ensures OfTier([x], t) == Keep(x, t) && OfTier([], t) == []
  {
  }

  lemma {:induction false} OfTierConcat(a: seq<Request>, b: seq<Request>, t: nat)
    ensures OfTier(a + b, t) == OfTier(a, t) + OfTier(b, t)
  {
    if b == [] {
      assert a + b == a;
    } else {
      assert (a + b)[..|a + b| - 1] == a + b[..|b| - 1];
      OfTierConcat(a, b[..|b| - 1], t);
    }
  }

  lemma {:induction false} OfTierCounts(s: seq<Request>, x: Request)
    ensures multiset(OfTier(s, x.tier))[x] == multiset(s)[x]
  {
    if s != [] {
      var init, last := s[..|s| - 1], s[|s| - 1];
      assert s == init + [last];
      OfTierCounts(init, x);
      assert multiset(OfTier(s, x.tier)) == multiset(OfTier(init, x.tier)) + multiset(Keep(last, x.tier));
    }
  }

  // ---------------------------------------------------------------------------
  // Round robin

  /** The i-th requests of the first `k` queues. */
  ghost function Round(queues: seq<seq<Request>>, i: nat, k: nat): seq<Request>
    requires k <= |queues|
  {
    if k == 0 then []
    else Round(queues, i, k - 1) + if i < |queues[k - 1]| then [queues[k - 1][i]] else []
  }

  /** The first `n` rounds. */
  ghost function Rounds(queues: seq<seq<Request>>, n: nat): seq<Request> {
    if n == 0 then [] else Rounds(queues, n - 1) + Round(queues, n - 1, |queues|)
  }

  /** Queue `j` holds requests of tier `base + j`. */
  ghost predicate QueuesFrom(queues: seq<seq<Request>>, base: nat) {
    forall j, i :: 0 <= j < |queues| && 0 <= i < |queues[j]| ==> queues[j][i].tier == base + j
  }

  lemma {:induction false} RoundOfTier(queues: seq<seq<Request>>, base: nat, i: nat, k: nat, j: nat)
    requires QueuesFrom(queues, base) && k <= |queues| && j < |queues|
    ensures OfTier(Round(queues, i, k), base + j) == if j < k && i < |queues[j]| then [queues[j][i]] else []
  {
    hide OfTier;
    if k > 0 {
      RoundOfTier(queues, base, i, k - 1, j);
      if i < |queues[k - 1]| {
        var x := queues[k - 1][i];
        OfTierConcat(Round(queues, i, k - 1), [x], base + j);
        OfTierOne(x, base + j);
      } else {
        assert Round(queues, i, k) == Round(queues, i, k - 1);
      }
    } else {
      OfTierOne(Request(0, 0), base + j);
    }
  }

  /** In the middle of round `n`, after `k` queues, each queue has given its first requests. */
  lemma {:induction false} RoundsOfTier(queues: seq<seq<Request>>, base: nat, n: nat, j: nat)
    requires QueuesFrom(queues, base) && j < |queues|
    ensures OfTier(Rounds(queues, n), base + j) == queues[j][..Min(n, |queues[j]|)]
  {
    hide OfTier, Round, QueuesFrom;
    if n == 0 {
      OfTierOne(Request(0, 0), base + j);
    } else {
      RoundsOfTier(queues, base, n - 1, j);
      RoundOfTier(queues, base, n - 1, |queues|, j);
      OfTierConcat(Rounds(queues, n - 1), Round(queues, n - 1, |queues|), base + j);
    }
  }

  lemma {:induction false} RoundsTiers(queues: seq<seq<Request>>, base: nat, n: nat, x: Request)
    requires QueuesFrom(queues, base) && x in Rounds(queues, n)
    ensures base <= x.tier < base + |queues|
  {
    hide QueuesFrom, Round;
    if x in Rounds(queues, n - 1) {
      RoundsTiers(queues, base, n - 1, x);
    } else {
      RoundTiers(queues, base, n - 1, |queues|, x);
    }
  }

  lemma {:induction false} RoundTiers(queues: seq<seq<Request>>, base: nat, i: nat, k: nat, x: Request)
    requires QueuesFrom(queues, base) && k <= |queues| && x in Round(queues, i, k)
    ensures base <= x.tier < base + k
  {
    if x in Round(queues, i, k - 1) {
      RoundTiers(queues, base, i, k - 1, x);
    }
  }

  /** In any prefix of a group, a tier that still has requests is at most one behind an earlier tier, and
      not behind a later one. */
  ghost predicate Balanced(group: seq<Request>, queues: seq<seq<Request>>, base: nat) {
    forall p, a, b :: 0 <= p <= |group| && 0 <= a < |queues| && 0 <= b < |queues| ==> BalancedAt(group, queues, base, p, a, b)
  }

  ghost predicate BalancedAt(group: seq<Request>, queues: seq<seq<Request>>, base: nat, p: nat, a: nat, b: nat)
    requires p <= |group| && a < |queues| && b < |queues|
  {
    var ofA, ofB := |OfTier(group[..p], base + a)|, |OfTier(group[..p], base + b)|;
    ofB == |queues[b]| || ofA <= ofB + if a < b then 1 else 0
  }

  /** Any prefix of the rounds ends inside some round after some queue. */
  lemma {:induction false} PrefixOfRounds(queues: seq<seq<Request>>, n: nat, p: nat) returns (m: nat, k: nat)
    requires p <= |Rounds(queues, n)| && n > 0
    ensures m < n && k <= |queues| && Rounds(queues, n)[..p] == Rounds(queues, m) + Round(queues, m, k)
  {
    if p <= |Rounds(queues, n - 1)| && n > 1 {
      m, k := PrefixOfRounds(queues, n - 1, p);
      assert Rounds(queues, n)[..p] == Rounds(queues, n - 1)[..p];
    } else {
      m := n - 1;
      k := PrefixOfRound(queues, m, |queues|, p - |Rounds(queues, m)|);
      assert Rounds(queues, n)[..p] == Rounds(queues, m) + Round(queues, m, |queues|)[..p - |Rounds(queues, m)|];
    }
  }

  lemma {:induction false} PrefixOfRound(queues: seq<seq<Request>>, i: nat, k: nat, p: nat) returns (k': nat)
    requires k <= |queues| && p <= |Round(queues, i, k)|
    ensures k' <= k && Round(queues, i, k)[..p] == Round(queues, i, k')
  {
    if p == |Round(queues, i, k)| {
      k' := k;
    } else {
      k' := PrefixOfRound(queues, i, k - 1, p);
    }
  }

  lemma RoundsBalanced(queues: seq<seq<Request>>, base: nat, n: nat)
    requires QueuesFrom(queues, base)
    ensures Balanced(Rounds(queues, n), queues, base)
  {
    hide Rounds, Round, OfTier;
    var group := Rounds(queues, n);
    forall p, a, b | 0 <= p <= |group| && 0 <= a < |queues| && 0 <= b < |queues|
      ensures BalancedAt(group, queues, base, p, a, b)
    {
      BalancedPrefix(queues, base, n, p, a, b);
    }
  }

  lemma BalancedPrefix(queues: seq<seq<Request>>, base: nat, n: nat, p: nat, a: nat, b: nat)
    requires QueuesFrom(queues, base) && p <= |Rounds(queues, n)| && a < |queues| && b < |queues|
    ensures BalancedAt(Rounds(queues, n), queues, base, p, a, b)
  {
    if n == 0 {
      assert Rounds(queues, n)[..p] == [];
    } else {
      var m, k := PrefixOfRounds(queues, n, p);
      CountInPrefix(queues, base, m, k, a);
      CountInPrefix(queues, base, m, k, b);
    }
  }

  lemma CountInPrefix(queues: seq<seq<Request>>, base: nat, m: nat, k: nat, j: nat)
    requires QueuesFrom(queues, base) && k <= |queues| && j < |queues|
    ensures |OfTier(Rounds(queues, m) + Round(queues, m, k), base + j)|
         == Min(m, |queues[j]|) + if j < k && m < |queues[j]| then 1 else 0
  {
    hide OfTier, Round, Rounds, QueuesFrom;
    RoundsOfTier(queues, base, m, j);
    RoundOfTier(queues, base, m, k, j);
    OfTierConcat(Rounds(queues, m), Round(queues, m, k), base + j);
  }

  /** The length of the longest queue. */
  function Longest(queues: seq<seq<Request>>): (n: nat)
    ensures forall j :: 0 <= j < |queues| ==> |queues[j]| <= n
    ensures n == 0 || exists j :: 0 <= j < |queues| && |queues[j]| == n
  {
    if queues == [] then 0
    else
      var last := |queues| - 1;
      var n := Longest(queues[..last]);
      if |queues[last]| > n then |queues[last]| else n
  }

  /** Round-robin over the queues of one group, until the longest is empty. */
  method Interleave(queues: seq<seq<Request>>) returns (group: seq<Request>)
    ensures group == Rounds(queues, Longest(queues))
  {
    hide Longest;
    var longest := Longest(queues);
    group := [];
    for i := 0 to longest
      invariant group == Rounds(queues, i)
    {
      ghost var before := group;
      for j := 0 to |queues|
        invariant group == before + Round(queues, i, j)
      {
        RoundStep(before, queues, i, j);
        if i < |queues[j]| {
          group := group + [queues[j][i]];
        }
      }
    }
  }

  lemma RoundStep(before: seq<Request>, queues: seq<seq<Request>>, i: nat, j: nat)
    requires j < |queues|
    ensures before + Round(queues, i, j + 1) ==
            if i < |queues[j]| then before + Round(queues, i, j) + [queues[j][i]] else before + Round(queues, i, j)
  {
  }

  // ---------------------------------------------------------------------------
  // The groups of a trace

  lemma Quotient(n: nat, d: nat)
    requires d >= 1
    ensures n / d * d <= n < (n / d + 1) * d
  {
    assert n == n / d * d + n % d && 0 <= n % d < d;
  }

  /** How many whole tiers fit the slots together, but at least one. */
  function TiersPerGroup(concurrency: nat, size: nat): (r: nat)
    requires size >= 1
    ensures r >= 1
    ensures r * size <= concurrency || r == 1
    ensures (r + 1) * size > concurrency
  {
    Quotient(concurrency, size);
    if concurrency / size >= 1 then concurrency / size else 1
  }

  /** One group holds the tiers from `base` on, whole, in trace order, round-robin. */
  ghost predicate GroupOf(group: seq<Request>, requests: seq<Request>, base: nat, count: nat) {
    && (forall x :: x in group ==> base <= x.tier < base + count)
    && (forall t: nat :: base <= t < base + count ==> OfTier(group, t) == OfTier(requests, t))
    && Balanced(group, Queues(requests, base, count), base)
  }

  /** A group is determined by what it is to hold: there is one order only. */
  lemma OnlyOneOrder(a: seq<Request>, b: seq<Request>, requests: seq<Request>, base: nat, count: nat)
    requires GroupOf(a, requests, base, count) && GroupOf(b, requests, base, count)
    ensures a == b
  {
    hide GroupOf, OfTier;
    AlikeUpTo(a, b, requests, base, count, |a|);
    AlikeUpTo(b, a, requests, base, count, |b|);
    assert a[..|a|] == a && b[..|b|] == b;
  }

  lemma {:induction false} AlikeUpTo(a: seq<Request>, b: seq<Request>, requests: seq<Request>, base: nat, count: nat, p: nat)
    requires GroupOf(a, requests, base, count) && GroupOf(b, requests, base, count) && p <= |a|
    ensures p <= |b| && a[..p] == b[..p]
  {
    hide GroupOf, OfTier;
    if p > 0 {
      AlikeUpTo(a, b, requests, base, count, p - 1);
      SameNext(a, b, requests, base, count, p - 1);
      assert a[..p] == a[..p - 1] + [a[p - 1]] && b[..p] == b[..p - 1] + [b[p - 1]];
    }
  }

  /** What follows a prefix in a group is the next request of its tier. */
  lemma NextOf(group: seq<Request>, requests: seq<Request>, base: nat, count: nat, p: nat)
    requires GroupOf(group, requests, base, count) && p < |group|
    ensures var t := group[p].tier;
            && base <= t < base + count && |OfTier(group[..p], t)| < |OfTier(requests, t)|
            && group[p] == OfTier(requests, t)[|OfTier(group[..p], t)|]
            && forall u :: OfTier(group[..p + 1], u) == OfTier(group[..p], u) + Keep(group[p], u)
  {
    hide Balanced, Queues, OfTier;
    var t := group[p].tier;
    assert group[p] in group;
    assert group == group[..p] + ([group[p]] + group[p + 1..]);
    OfTierConcat(group[..p], [group[p]] + group[p + 1..], t);
    OfTierConcat([group[p]], group[p + 1..], t);
    OfTierOne(group[p], t);
    assert group[..p + 1] == group[..p] + [group[p]];
    forall u: nat ensures OfTier(group[..p + 1], u) == OfTier(group[..p], u) + Keep(group[p], u) {
      OfTierConcat(group[..p], [group[p]], u);
      OfTierOne(group[p], u);
    }
  }

  lemma InTurn(group: seq<Request>, requests: seq<Request>, base: nat, count: nat, p: nat, t: nat, u: nat)
    requires GroupOf(group, requests, base, count) && p <= |group| && base <= t < base + count && base <= u < base + count
    ensures var ofT, ofU := |OfTier(group[..p], t)|, |OfTier(group[..p], u)|;
            ofU == |OfTier(requests, u)| || ofT <= ofU + if t < u then 1 else 0
  {
    hide OfTier;
    var queues := Queues(requests, base, count);
    assert BalancedAt(group, queues, base, p, t - base, u - base);
    assert queues[u - base] == OfTier(requests, u);
  }

  lemma SameNext(a: seq<Request>, b: seq<Request>, requests: seq<Request>, base: nat, count: nat, p: nat)
    requires GroupOf(a, requests, base, count) && GroupOf(b, requests, base, count)
    requires p < |a| && p <= |b| && a[..p] == b[..p]
    ensures p < |b| && a[p] == b[p]
  {
    hide GroupOf, OfTier;
    NextOf(a, requests, base, count, p);
    var t := a[p].tier;
    assert b[..|b|] == b;
    if p == |b| {
      WholeTier(b, requests, base, count, t);
    } else {
      NextOf(b, requests, base, count, p);
      var u := b[p].tier;
      KeepOther(a[p], u);
      KeepOther(b[p], t);
      InTurn(a, requests, base, count, p + 1, t, u);
      InTurn(b, requests, base, count, p + 1, u, t);
    }
  }

  lemma WholeTier(group: seq<Request>, requests: seq<Request>, base: nat, count: nat, t: nat)
    requires GroupOf(group, requests, base, count) && base <= t < base + count
    ensures OfTier(group, t) == OfTier(requests, t)
  {
  }

  lemma KeepOther(x: Request, t: nat)
    ensures x.tier != t ==> Keep(x, t) == []
  {
  }

  function Queues(requests: seq<Request>, base: nat, count: nat): (r: seq<seq<Request>>)
    ensures QueuesFrom(r, base) && |r| == count
  {
    var r := seq(count, j requires 0 <= j < count => OfTier(requests, base + j));
    assert QueuesFrom(r, base) by {
      forall j, i | 0 <= j < |r| && 0 <= i < |r[j]| ensures r[j][i].tier == base + j {
        assert r[j][i] in OfTier(requests, base + j);
        OfTierMembers(requests, base + j, r[j][i]);
      }
    }
    r
  }

  lemma InterleavedIsGroup(requests: seq<Request>, base: nat, count: nat, group: seq<Request>, rounds: nat)
    requires var queues := Queues(requests, base, count);
             group == Rounds(queues, rounds) && forall j :: 0 <= j < |queues| ==> |queues[j]| <= rounds
    ensures GroupOf(group, requests, base, count)
  {
    hide OfTier, Rounds, Balanced;
    var queues := Queues(requests, base, count);
    RoundsBalanced(queues, base, rounds);
    forall x | x in group ensures base <= x.tier < base + count {
      RoundsTiers(queues, base, rounds, x);
    }
    forall t: nat | base <= t < base + count ensures OfTier(group, t) == OfTier(requests, t) {
      RoundsOfTier(queues, base, rounds, t - base);
      assert queues[t - base] == OfTier(requests, t);
    }
  }

  /** The groups partition the tiers: group `g` starts at tier `g * perGroup`. */
  ghost predicate GroupsOf(groups: seq<seq<Request>>, requests: seq<Request>, perGroup: nat, tiers: nat) {
    && |groups| * perGroup >= tiers
    && forall g :: 0 <= g < |groups| ==>
         g * perGroup < tiers && GroupOf(groups[g], requests, g * perGroup, Min(perGroup, tiers - g * perGroup))
  }

  /** Every request is of a known tier, and every tier has requests. */
  ghost predicate Eligible(requests: seq<Request>, tiers: nat) {
    && (forall i :: 0 <= i < |requests| ==> requests[i].tier < tiers)
    && (forall t: nat :: t < tiers ==> OfTier(requests, t) != [])
  }

  method CheckTiers(requests: seq<Request>, tiers: nat) returns (ok: bool)
    ensures ok <==> Eligible(requests, tiers)
  {
    for i := 0 to |requests|
      invariant forall j :: 0 <= j < i ==> requests[j].tier < tiers
    {
      if requests[i].tier >= tiers {
        return false;
      }
    }
    var t: nat := 0;
    while t < tiers
      invariant t <= tiers && forall u: nat :: u < t ==> OfTier(requests, u) != []
    {
      if OfTier(requests, t) == [] {
        return false;
      }
      t := t + 1;
    }
    return true;
  }

  /** Group whole tiers; a request of an unknown tier, or a tier without requests, is an error. */
  method RequestGroups(requests: seq<Request>, concurrency: nat, tiers: nat, size: nat)
    returns (r: Option<seq<seq<Request>>>)
    requires size >= 1
    ensures r.Some? <==> Eligible(requests, tiers)
    ensures r.Some? ==> GroupsOf(r.value, requests, TiersPerGroup(concurrency, size), tiers)
  {
    hide GroupOf, OfTier, Queues, Rounds, Eligible, Longest, QueuesFrom, Min;
    var perGroup := TiersPerGroup(concurrency, size);
    var ok := CheckTiers(requests, tiers);
    if !ok {
      return None;
    }
    var groups := [];
    var offset := 0;
    while offset < tiers
      invariant offset == |groups| * perGroup
      invariant forall g :: 0 <= g < |groups| ==>
                  g * perGroup < tiers && GroupOf(groups[g], requests, g * perGroup, Min(perGroup, tiers - g * perGroup))
      decreases tiers - offset
    {
      var count := Min(perGroup, tiers - offset);
      var queues := Queues(requests, offset, count);
      var group := Interleave(queues);
      InterleavedIsGroup(requests, offset, count, group, Longest(queues));
      groups := groups + [group];
      offset := offset + perGroup;
    }
    return Some(groups);
  }

  // ---------------------------------------------------------------------------
  // What grouping guarantees

  lemma GroupIndex(t: nat, perGroup: nat, tiers: nat, groups: nat)
    requires perGroup >= 1 && t < tiers <= groups * perGroup
    ensures var g := t / perGroup;
            g < groups && g * perGroup <= t < g * perGroup + Min(perGroup, tiers - g * perGroup)
  {
    var g := t / perGroup;
    assert t == g * perGroup + t % perGroup && 0 <= t % perGroup < perGroup;
    if g >= groups {
      MulMonotone(groups, g, perGroup);
    }
  }

  lemma MulMonotone(a: nat, b: nat, c: nat)
    requires a <= b
    ensures a * c <= b * c
  {
  }

  /** A tier lies wholly in one group, in trace order, and that group depends only on the tier:
      dropping other requests never moves a surviving one. */
  lemma TierInOneGroup(groups: seq<seq<Request>>, requests: seq<Request>, perGroup: nat, tiers: nat, t: nat, g: nat)
    requires perGroup >= 1 && GroupsOf(groups, requests, perGroup, tiers) && t < tiers && g < |groups|
    ensures t / perGroup < |groups|
    ensures OfTier(groups[g], t) == if g == t / perGroup then OfTier(requests, t) else []
  {
    hide OfTier, GroupOf, GroupsOf, Min;
    var base := g * perGroup;
    GroupAt(groups, requests, perGroup, tiers, g);
    TierOfGroup(groups[g], requests, base, Min(perGroup, tiers - base), t);
    GroupIndex(t, perGroup, tiers, |groups|);
    if g != t / perGroup {
      OtherGroupsTiers(t, perGroup, tiers, g);
    }
  }

  lemma GroupAt(groups: seq<seq<Request>>, requests: seq<Request>, perGroup: nat, tiers: nat, g: nat)
    requires GroupsOf(groups, requests, perGroup, tiers) && g < |groups|
    ensures g * perGroup < tiers <= |groups| * perGroup
    ensures GroupOf(groups[g], requests, g * perGroup, Min(perGroup, tiers - g * perGroup))
  {
    hide GroupOf, Min;
  }

  lemma TierOfGroup(group: seq<Request>, requests: seq<Request>, base: nat, count: nat, t: nat)
    requires GroupOf(group, requests, base, count)
    ensures OfTier(group, t) == if base <= t < base + count then OfTier(requests, t) else []
  {
    hide OfTier, Balanced;
    if !(base <= t < base + count) && OfTier(group, t) != [] {
      var x := OfTier(group, t)[0];
      OfTierMembers(group, t, x);
    }
  }

  lemma OtherGroupsTiers(t: nat, perGroup: nat, tiers: nat, g: nat)
    requires perGroup >= 1 && g * perGroup < tiers && g != t / perGroup
    ensures !(g * perGroup <= t < g * perGroup + Min(perGroup, tiers - g * perGroup))
  {
    var home := t / perGroup;
    assert t == home * perGroup + t % perGroup;
    if g < home {
      MulMonotone(g + 1, home, perGroup);
      assert (g + 1) * perGroup == g * perGroup + perGroup;
    } else {
      MulMonotone(home + 1, g, perGroup);
      assert (home + 1) * perGroup == home * perGroup + perGroup;
    }
  }

  lemma {:induction false} FlattenCounts(groups: seq<seq<Request>>, k: nat, x: Request, home: nat, n: nat)
    requires k <= |groups| && forall g :: 0 <= g < k ==> multiset(groups[g])[x] == if g == home then n else 0
    ensures multiset(Flatten(groups, k))[x] == if home < k then n else 0
  {
    if k > 0 {
      FlattenCounts(groups, k - 1, x, home, n);
      CountBoth(Flatten(groups, k - 1), groups[k - 1], x);
    }
  }

  lemma CountBoth(a: seq<Request>, b: seq<Request>, x: Request)
    ensures multiset(a + b)[x] == multiset(a)[x] + multiset(b)[x]
  {
    assert multiset(a + b) == multiset(a) + multiset(b);
  }

  /** Grouping is a partition: the groups one after the other are a permutation of the requests. */
  lemma GroupsPartition(groups: seq<seq<Request>>, requests: seq<Request>, perGroup: nat, tiers: nat)
    requires perGroup >= 1 && GroupsOf(groups, requests, perGroup, tiers) && Eligible(requests, tiers)
    ensures multiset(Flatten(groups, |groups|)) == multiset(requests)
  {
    hide OfTier, GroupsOf, Flatten;
    forall x: Request ensures multiset(Flatten(groups, |groups|))[x] == multiset(requests)[x] {
      OfTierCounts(requests, x);
      if x.tier < tiers {
        TierCounted(groups, requests, perGroup, tiers, x);
      } else {
        UnknownTier(groups, requests, perGroup, tiers, x);
      }
    }
  }

  lemma TierCounted(groups: seq<seq<Request>>, requests: seq<Request>, perGroup: nat, tiers: nat, x: Request)
    requires perGroup >= 1 && GroupsOf(groups, requests, perGroup, tiers) && x.tier < tiers
    ensures multiset(Flatten(groups, |groups|))[x] == multiset(requests)[x]
  {
    hide OfTier, GroupsOf, Flatten;
    GroupIndexOf(groups, requests, perGroup, tiers, x.tier);
    var home := x.tier / perGroup;
    forall g | 0 <= g < |groups| ensures multiset(groups[g])[x] == if g == home then multiset(requests)[x] else 0 {
      TierInOneGroup(groups, requests, perGroup, tiers, x.tier, g);
      OfTierCounts(groups[g], x);
      OfTierCounts(requests, x);
    }
    FlattenCounts(groups, |groups|, x, home, multiset(requests)[x]);
  }

  lemma GroupIndexOf(groups: seq<seq<Request>>, requests: seq<Request>, perGroup: nat, tiers: nat, t: nat)
    requires perGroup >= 1 && GroupsOf(groups, requests, perGroup, tiers) && t < tiers
    ensures t / perGroup < |groups|
  {
    hide GroupOf, Min;
    GroupIndex(t, perGroup, tiers, |groups|);
  }

  lemma UnknownTier(groups: seq<seq<Request>>, requests: seq<Request>, perGroup: nat, tiers: nat, x: Request)
    requires GroupsOf(groups, requests, perGroup, tiers) && Eligible(requests, tiers) && x.tier >= tiers
    ensures multiset(Flatten(groups, |groups|))[x] == 0 == multiset(requests)[x]
  {
    hide GroupsOf, Flatten, OfTier;
    forall g | 0 <= g < |groups| ensures multiset(groups[g])[x] == 0 {
      TiersKnown(groups, requests, perGroup, tiers, x, g);
    }
    FlattenCounts(groups, |groups|, x, 0, 0);
    assert x !in requests;
  }

  lemma TiersKnown(groups: seq<seq<Request>>, requests: seq<Request>, perGroup: nat, tiers: nat, x: Request, g: nat)
    requires GroupsOf(groups, requests, perGroup, tiers) && x.tier >= tiers && g < |groups|
    ensures x !in groups[g]
  {
  }

  /** After dropping requests, every surviving one is in the group it was in before. */
  lemma SurvivorStays(groups: seq<seq<Request>>, requests: seq<Request>, groups': seq<seq<Request>>,
                      requests': seq<Request>, perGroup: nat, tiers: nat, x: Request, g: nat)
    requires perGroup >= 1 && GroupsOf(groups, requests, perGroup, tiers)
    requires GroupsOf(groups', requests', perGroup, tiers)
    requires g < |groups| && x in groups[g] && x in requests' && x.tier < tiers
    ensures g < |groups'| && x in groups'[g]
  {
    hide OfTier, GroupsOf;
    var home := x.tier / perGroup;
    TierInOneGroup(groups, requests, perGroup, tiers, x.tier, g);
    OfTierMembers(groups[g], x.tier, x);
    GroupIndexOf(groups', requests', perGroup, tiers, x.tier);
    TierInOneGroup(groups', requests', perGroup, tiers, x.tier, home);
    OfTierMembers(requests', x.tier, x);
    OfTierMembers(groups'[home], x.tier, x);
  }
}
