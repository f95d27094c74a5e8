/** The qualification scheduler: batches of candidates are drawn tier by tier, judged, and drawn
    again until every tier has its quota or some tier can no longer fill it. */
module Qualification {
  import opened Basics
  import opened Counting

  datatype Candidate = Candidate(row: nat, tier: nat, session: nat)

  /** The candidates of one tier among those listed. */
  function InTier(s: seq<Candidate>, g: nat): (r: seq<Candidate>)
    ensures |r| <= |s| && forall c :: c in r <==> c in s && c.tier == g
  {
    if s == [] then []
    else if s[|s| - 1].tier == g then InTier(s[..|s| - 1], g) + [s[|s| - 1]]
    else InTier(s[..|s| - 1], g)
  }

  ghost function Sessions(s: seq<Candidate>): set<nat> {
    set c | c in s :: c.session
  }

  ghost predicate DistinctSessions(s: seq<Candidate>) {
    forall i, j :: 0 <= i < j < |s| ==> s[i].session != s[j].session
  }

  /** The pool of candidates as indexed: tier by tier, no candidate twice, no row twice. */
  ghost predicate GoodSource(source: seq<seq<Candidate>>) {
    && (forall g :: 0 <= g < |source| ==> Distinct(source[g]) && forall c :: c in source[g] ==> c.tier == g)
    && (forall g, h, c, d :: 0 <= g < |source| && 0 <= h < |source| && c in source[g] && d in source[h] && c.row == d.row
          ==> c == d)
  }

  ghost function All(source: seq<seq<Candidate>>): set<Candidate> {
    set g, c | 0 <= g < |source| && c in source[g] :: c
  }

  /** The candidates of a tier that are qualified or may still qualify: not judged yet, and not of
      a session that is already spent. */
  ghost function Open(pool: seq<Candidate>, qualified: seq<Candidate>, judged: set<Candidate>, v6: bool): set<Candidate> {
    set c | c in pool && (c in qualified || (c !in judged && !(v6 && c.session in Sessions(qualified))))
  }

  // ---------------------------------------------------------------------------
  // Lemmas about lists of candidates

  lemma {:induction false} InTierConcat(a: seq<Candidate>, b: seq<Candidate>, g: nat)
    ensures InTier(a + b, g) == InTier(a, g) + InTier(b, g)
  {
    if b == [] {
      assert a + b == a;
    } else {
      var last := |b| - 1;
      assert (a + b)[..|a + b| - 1] == a + b[..last];
      InTierConcat(a, b[..last], g);
    }
  }

  lemma {:induction false} InTierDistinct(s: seq<Candidate>, g: nat)
    requires Distinct(s)
    ensures Distinct(InTier(s, g))
  {
    if s != [] {
      InTierDistinct(s[..|s| - 1], g);
    }
  }

  /** What is open in a tier is qualified, in the batch, or untried. */
  lemma OpenIsBounded(pool: seq<Candidate>, qualified: seq<Candidate>, judged: set<Candidate>, v6: bool, g: nat,
                      batch: seq<Candidate>, untried: seq<Candidate>)
    requires forall c :: c in pool ==> c.tier == g
    requires Distinct(qualified) && Distinct(batch) && Distinct(untried)
    requires forall c :: c in pool ==>
               c in judged || c in batch || c in untried || (v6 && c.session in Sessions(qualified))
    ensures |Open(pool, qualified, judged, v6)| <= |InTier(qualified, g)| + |InTier(batch, g)| + |untried|
  {
    InTierDistinct(qualified, g);
    InTierDistinct(batch, g);
    DistinctSize(InTier(qualified, g));
    DistinctSize(InTier(batch, g));
    DistinctSize(untried);
    var a, b, c := Elements(InTier(qualified, g)), Elements(InTier(batch, g)), Elements(untried);
    SubsetSize(Open(pool, qualified, judged, v6), a + b + c);
    UnionSize(a, b);
    UnionSize(a + b, c);
  }

  lemma UnionSize(a: set<Candidate>, b: set<Candidate>)
    ensures |a + b| <= |a| + |b|
  {
  }

  lemma SubsetOfAll(source: seq<seq<Candidate>>, s: seq<Candidate>)
    requires Distinct(s) && forall c :: c in s ==> c in All(source)
    ensures |s| <= |All(source)|
  {
    DistinctSize(s);
    SubsetSize(Elements(s), All(source));
  }

  /** Moving one untried candidate to the front of the untried ones. */
  function MoveFront(pool: seq<Candidate>, start: nat, pick: nat): (r: seq<Candidate>)
    requires start <= pick < |pool|
    ensures |r| == |pool| && r[..start] == pool[..start] && r[start] == pool[pick]
  {
    pool[..start] + [pool[pick]] + pool[start..pick] + pool[pick + 1..]
  }

  lemma MoveFrontKeeps(pool: seq<Candidate>, start: nat, pick: nat)
    requires start <= pick < |pool| && Distinct(pool)
    ensures Distinct(MoveFront(pool, start, pick))
    ensures forall c :: c in MoveFront(pool, start, pick) <==> c in pool
  {
    var r := MoveFront(pool, start, pick);
    forall i | 0 <= i < |pool|
      ensures r[i] == pool[if i < start || i > pick then i else if i == start then pick else i - 1]
    {
    }
    forall c | c in pool ensures c in r {
      var i :| 0 <= i < |pool| && pool[i] == c;
      assert r[if i < start || i > pick then i else if i == pick then start else i + 1] == c;
    }
  }

  /** Dropping the untried candidates whose session is spent. */
  function Unspent(pool: seq<Candidate>, sessions: set<nat>): (r: seq<Candidate>)
    ensures |r| <= |pool| && forall c :: c in r <==> c in pool && c.session !in sessions
  {
    if pool == [] then []
    else if pool[|pool| - 1].session in sessions then Unspent(pool[..|pool| - 1], sessions)
    else Unspent(pool[..|pool| - 1], sessions) + [pool[|pool| - 1]]
  }

  lemma {:induction false} UnspentDistinct(pool: seq<Candidate>, sessions: set<nat>)
    requires Distinct(pool)
    ensures Distinct(Unspent(pool, sessions))
  {
    if pool != [] {
      UnspentDistinct(pool[..|pool| - 1], sessions);
    }
  }

  // ---------------------------------------------------------------------------
  // The order of the untried candidates

  /** Those candidates of a list that are in a set, in the order of the list. */
  ghost function Kept(s: seq<Candidate>, k: set<Candidate>): (r: seq<Candidate>)
    ensures forall c :: c in r <==> c in s && c in k
  {
    if s == [] then [] else (if s[0] in k then [s[0]] else []) + Kept(s[1..], k)
  }

  /** These are in the order of the source. */
  ghost predicate InOrder(untried: seq<Candidate>, source: seq<Candidate>) {
    Kept(source, Elements(untried)) == untried
  }

  lemma {:induction false} KeptTwice(s: seq<Candidate>, a: set<Candidate>, b: set<Candidate>)
    ensures Kept(Kept(s, a), b) == Kept(s, a * b)
  {
    if s != [] {
      KeptTwice(s[1..], a, b);
      var rest := Kept(s[1..], a);
      if s[0] in a {
        assert ([s[0]] + rest)[1..] == rest;
      } else {
        assert [] + rest == rest;
      }
    }
  }

  lemma {:induction false} KeptAll(s: seq<Candidate>, k: set<Candidate>)
    requires forall c :: c in s ==> c in k
    ensures Kept(s, k) == s
  {
    if s != [] {
      KeptAll(s[1..], k);
    }
  }

  lemma {:induction false} KeptSnoc(s: seq<Candidate>, c: Candidate, k: set<Candidate>)
    ensures Kept(s + [c], k) == Kept(s, k) + if c in k then [c] else []
  {
    if s != [] {
      KeptSnoc(s[1..], c, k);
      assert (s + [c])[1..] == s[1..] + [c];
    }
  }

  lemma {:induction false} KeptSame(s: seq<Candidate>, a: set<Candidate>, b: set<Candidate>)
    requires forall c :: c in s ==> (c in a <==> c in b)
    ensures Kept(s, a) == Kept(s, b)
  {
    if s != [] {
      KeptSame(s[1..], a, b);
    }
  }

  lemma {:induction false} UnspentIsKept(pool: seq<Candidate>, sessions: set<nat>, k: set<Candidate>)
    requires forall c :: c in pool ==> (c in k <==> c.session !in sessions)
    ensures Unspent(pool, sessions) == Kept(pool, k)
  {
    if pool != [] {
      var init, last := pool[..|pool| - 1], pool[|pool| - 1];
      assert pool == init + [last];
      UnspentIsKept(init, sessions, k);
      KeptSnoc(init, last, k);
    }
  }

  lemma KeptFirst(s: seq<Candidate>, k: set<Candidate>)
    requires s != []
    ensures Kept(s, k) == (if s[0] in k then [s[0]] else []) + Kept(s[1..], k)
  {
  }

  lemma DistinctTail(s: seq<Candidate>)
    requires s != [] && Distinct(s)
    ensures Distinct(s[1..]) && s[0] !in s[1..]
  {
    assert forall i :: 0 <= i < |s| - 1 ==> s[1..][i] == s[i + 1];
  }

  lemma {:induction false} WithoutOne(s: seq<Candidate>, p: nat)
    requires p < |s| && Distinct(s)
    ensures Kept(s, Elements(s) - {s[p]}) == s[..p] + s[p + 1..]
  {
    hide Kept, Distinct;
    var k, rest := Elements(s) - {s[p]}, s[1..];
    DistinctTail(s);
    KeptFirst(s, k);
    if p == 0 {
      KeptAll(rest, k);
      assert s[..0] + s[1..] == rest == [] + rest;
    } else {
      assert rest[p - 1] == s[p];
      WithoutOne(rest, p - 1);
      KeptSame(rest, k, Elements(rest) - {s[p]});
      assert s[..p] + s[p + 1..] == [s[0]] + (rest[..p - 1] + rest[p..]);
    }
  }

  /** Taking one out keeps the order of the others. */
  lemma InOrderWithout(untried: seq<Candidate>, source: seq<Candidate>, p: nat)
    requires InOrder(untried, source) && Distinct(untried) && p < |untried|
    ensures InOrder(untried[..p] + untried[p + 1..], source)
  {
    hide Kept, Distinct;
    var e, rest := Elements(untried), untried[..p] + untried[p + 1..];
    WithoutOne(untried, p);
    KeptTwice(source, e, e - {untried[p]});
    assert e * (e - {untried[p]}) == e - {untried[p]};
    assert Elements(rest) == e - {untried[p]};
  }

  lemma InOrderUnspent(untried: seq<Candidate>, source: seq<Candidate>, sessions: set<nat>)
    requires InOrder(untried, source)
    ensures InOrder(Unspent(untried, sessions), source)
  {
    hide Kept, Unspent;
    var e, k := Elements(untried), set c | c in untried && c.session !in sessions;
    UnspentIsKept(untried, sessions, k);
    KeptTwice(source, e, k);
    assert e * k == k;
    assert Elements(Unspent(untried, sessions)) == k;
  }

  /** It has not been tried, and from version 6 on its session is not barred. */
  predicate Eligible(c: Candidate, tried: seq<Candidate>, barred: set<nat>, v6: bool) {
    c !in tried && !(v6 && c.session in barred)
  }

  /** The first eligible candidate of a list. */
  ghost function First(s: seq<Candidate>, tried: seq<Candidate>, barred: set<nat>, v6: bool): (r: Option<Candidate>)
    ensures r.None? <==> forall c :: c in s ==> !Eligible(c, tried, barred, v6)
    ensures r.Some? ==> exists k :: 0 <= k < |s| && s[k] == r.value && Eligible(s[k], tried, barred, v6)
                                    && forall j :: 0 <= j < k ==> !Eligible(s[j], tried, barred, v6)
  {
    if s == [] then None
    else if Eligible(s[0], tried, barred, v6) then Some(s[0])
    else
      var r := First(s[1..], tried, barred, v6);
      assert r.Some? ==> exists k :: 0 <= k < |s| && s[k] == r.value && Eligible(s[k], tried, barred, v6)
                                     && forall j :: 0 <= j < k ==> !Eligible(s[j], tried, barred, v6) by {
        if r.Some? {
          var k :| 0 <= k < |s[1..]| && s[1..][k] == r.value && Eligible(s[1..][k], tried, barred, v6)
                   && forall j :: 0 <= j < k ==> !Eligible(s[1..][j], tried, barred, v6);
          assert s[k + 1] == r.value;
          assert forall j :: 0 < j < k + 1 ==> s[j] == s[1..][j - 1];
        }
      }
      r
  }

  /** Candidates that are not eligible can be left out. */
  lemma {:induction false} FirstOfKept(s: seq<Candidate>, k: set<Candidate>, tried: seq<Candidate>, barred: set<nat>, v6: bool)
    requires forall c :: c in s && c !in k ==> !Eligible(c, tried, barred, v6)
    ensures First(Kept(s, k), tried, barred, v6) == First(s, tried, barred, v6)
  {
    hide First, Kept, Eligible;
    if s == [] {
      KeptAll(s, k);
    } else {
      FirstOfKept(s[1..], k, tried, barred, v6);
      KeptStep(s, k);
      FirstStep(s, tried, barred, v6);
      if s[0] in k {
        FirstStep(Kept(s, k), tried, barred, v6);
      }
    }
  }

  lemma KeptStep(s: seq<Candidate>, k: set<Candidate>)
    requires s != []
    ensures s[0] in k ==> Kept(s, k) == [s[0]] + Kept(s[1..], k) && Kept(s, k)[1..] == Kept(s[1..], k)
    ensures s[0] !in k ==> Kept(s, k) == Kept(s[1..], k)
  {
  }

  lemma FirstStep(s: seq<Candidate>, tried: seq<Candidate>, barred: set<nat>, v6: bool)
    requires s != []
    ensures First(s, tried, barred, v6) == if Eligible(s[0], tried, barred, v6) then Some(s[0]) else First(s[1..], tried, barred, v6)
  {
  }

  lemma {:induction false} FirstAt(s: seq<Candidate>, p: nat, tried: seq<Candidate>, barred: set<nat>, v6: bool)
    requires p <= |s| && (forall i :: 0 <= i < p ==> !Eligible(s[i], tried, barred, v6))
    requires p < |s| ==> Eligible(s[p], tried, barred, v6)
    ensures First(s, tried, barred, v6) == if p < |s| then Some(s[p]) else None
  {
    if p > 0 {
      FirstAt(s[1..], p - 1, tried, barred, v6);
    }
  }

  /** In a pool, what is first among the untried ones is first in the source. */
  lemma FirstUntried(pool: seq<Candidate>, offset: nat, source: seq<Candidate>, g: nat, tried: seq<Candidate>, v6: bool,
                     sessions: set<nat>, batchSessions: set<nat>, pick: nat)
    requires PoolOf(pool, offset, source, g, tried, v6, sessions) && (forall c :: c in source ==> c.tier == g)
    requires v6 ==> forall i :: offset <= i < |pool| ==> pool[i].session !in sessions
    requires offset <= pick <= |pool| && (pick < |pool| ==> !IsDeferred(pool[pick], batchSessions, v6))
    requires forall i :: offset <= i < pick ==> IsDeferred(pool[i], batchSessions, v6)
    ensures First(source, tried, sessions + batchSessions, v6) == if pick < |pool| then Some(pool[pick]) else None
  {
    hide Kept, First;
    var untried := pool[offset..];
    var barred := sessions + batchSessions;
    forall i | offset <= i < |pool| ensures pool[i] !in tried && pool[i] in source && untried[i - offset] == pool[i] {
      UntriedIsNew(pool, offset, source, g, tried, v6, sessions, i);
    }
    forall c | c in source && c !in Elements(untried) ensures !Eligible(c, tried, barred, v6) {
      if c in pool {
        assert pool == pool[..offset] + untried;
      }
    }
    FirstOfKept(source, Elements(untried), tried, barred, v6);
    FirstAt(untried, pick - offset, tried, barred, v6);
  }

  lemma UntriedIsNew(pool: seq<Candidate>, offset: nat, source: seq<Candidate>, g: nat, tried: seq<Candidate>, v6: bool,
                     sessions: set<nat>, i: nat)
    requires PoolOf(pool, offset, source, g, tried, v6, sessions) && (forall c :: c in source ==> c.tier == g)
    requires offset <= i < |pool|
    ensures pool[i] !in tried && pool[i] in source
  {
    assert pool[i] in pool;
    forall j | 0 <= j < offset ensures pool[..offset][j] != pool[i] {
      assert pool[j] != pool[i];
    }
  }

  // ---------------------------------------------------------------------------
  // The scheduler

  /** One tier's pool: tried candidates first, then untried ones; what is missing is spent. */
  ghost predicate PoolOf(pool: seq<Candidate>, offset: nat, source: seq<Candidate>, g: nat, tried: seq<Candidate>,
                         v6: bool, sessions: set<nat>) {
    && offset <= |pool|
    && Distinct(pool)
    && (forall c :: c in pool ==> c in source)
    && (forall c :: c in pool[..offset] <==> c in tried && c.tier == g)
    && (forall c :: c in source ==> c in pool || (v6 && c.session in sessions))
    && InOrder(pool[offset..], source)
  }

  /** The accepted candidates: each tried, none twice, counted per tier within the quotas. */
  ghost predicate Accepted(qualified: seq<Candidate>, counts: seq<nat>, quotas: seq<nat>, sessions: set<nat>,
                           tried: seq<Candidate>, v6: bool) {
    && Distinct(qualified)
    && (forall c :: c in qualified ==> c in tried)
    && |counts| == |quotas|
    && (forall g :: 0 <= g < |quotas| ==> counts[g] == |InTier(qualified, g)| <= quotas[g])
    && sessions == Sessions(qualified)
    && (v6 ==> DistinctSessions(qualified))
  }

  /** A batch being drawn: the latest tried candidates, within the quotas even if all are accepted. */
  ghost predicate Drawn(batch: seq<Candidate>, batchCounts: seq<nat>, batchSessions: set<nat>, tried: seq<Candidate>,
                        qualified: seq<Candidate>, counts: seq<nat>, quotas: seq<nat>, sessions: set<nat>, v6: bool) {
    && |batch| <= |tried| && tried[|tried| - |batch|..] == batch
    && (forall c :: c in batch ==> c !in qualified)
    && |batchCounts| == |quotas| == |counts|
    && (forall g :: 0 <= g < |quotas| ==> batchCounts[g] == |InTier(batch, g)| && counts[g] + batchCounts[g] <= quotas[g])
    && batchSessions == Sessions(batch)
    && (v6 ==> DistinctSessions(batch) && batchSessions !! sessions)
  }

  datatype Pick = Deferred | Exhausted | Picked(candidate: Candidate)

  datatype Draw = Short(tier: nat) | Batch(batch: seq<Candidate>, counts: seq<nat>, sessions: set<nat>)

  lemma PoolPicked(pool: seq<Candidate>, offset: nat, source: seq<Candidate>, g: nat, tried: seq<Candidate>,
                   v6: bool, sessions: set<nat>, pick: nat)
    requires PoolOf(pool, offset, source, g, tried, v6, sessions)
    requires offset <= pick < |pool| && pool[pick].tier == g
    ensures PoolOf(MoveFront(pool, offset, pick), offset + 1, source, g, tried + [pool[pick]], v6, sessions)
    ensures pool[pick] !in tried
  {
    hide InOrder;
    MoveFrontKeeps(pool, offset, pick);
    var r, untried := MoveFront(pool, offset, pick), pool[offset..];
    assert r[..offset + 1] == pool[..offset] + [pool[pick]];
    assert pool[pick] !in pool[..offset];
    assert r[offset + 1..] == untried[..pick - offset] + untried[pick - offset + 1..];
    InOrderWithout(untried, source, pick - offset);
  }

  lemma PoolUnspent(pool: seq<Candidate>, offset: nat, source: seq<Candidate>, g: nat, tried: seq<Candidate>,
                    v6: bool, sessions: set<nat>)
    requires PoolOf(pool, offset, source, g, tried, v6, sessions) && v6
    ensures PoolOf(pool[..offset] + Unspent(pool[offset..], sessions), offset, source, g, tried, v6, sessions)
    ensures (pool[..offset] + Unspent(pool[offset..], sessions))[offset..] == Unspent(pool[offset..], sessions)
  {
    var untried := Unspent(pool[offset..], sessions);
    var r := pool[..offset] + untried;
    assert pool == pool[..offset] + pool[offset..];
    UnspentDistinct(pool[offset..], sessions);
    InOrderUnspent(pool[offset..], source, sessions);
    assert r[..offset] == pool[..offset] && r[offset..] == untried;
    forall i, j | 0 <= i < j < |r| ensures r[i] != r[j] {
      if i < offset <= j {
        assert r[j] in untried && r[j] in pool[offset..];
        var k :| 0 <= k < |pool[offset..]| && pool[offset..][k] == r[j];
        assert pool[offset + k] == r[j] && pool[i] == r[i];
      }
    }
    forall c | c in source ensures c in r || (v6 && c.session in sessions) {
      if c in pool && c !in pool[..offset] {
        assert c in pool[offset..];
      }
    }
  }

  /** Another tier's pool does not notice. */
  lemma PoolOther(pool: seq<Candidate>, offset: nat, source: seq<Candidate>, h: nat, tried: seq<Candidate>,
                  v6: bool, sessions: set<nat>, c: Candidate)
    requires PoolOf(pool, offset, source, h, tried, v6, sessions) && c.tier != h
    ensures PoolOf(pool, offset, source, h, tried + [c], v6, sessions)
  {
  }

  lemma DrawnMore(batch: seq<Candidate>, batchCounts: seq<nat>, batchSessions: set<nat>, tried: seq<Candidate>,
                  qualified: seq<Candidate>, counts: seq<nat>, quotas: seq<nat>, sessions: set<nat>, v6: bool,
                  c: Candidate)
    requires Drawn(batch, batchCounts, batchSessions, tried, qualified, counts, quotas, sessions, v6)
    requires c !in tried && (forall q :: q in qualified ==> q in tried)
    requires c.tier < |quotas| && counts[c.tier] + batchCounts[c.tier] < quotas[c.tier]
    requires v6 ==> c.session !in batchSessions && c.session !in sessions
    ensures Drawn(batch + [c], batchCounts[c.tier := batchCounts[c.tier] + 1], batchSessions + {c.session}, tried + [c],
                  qualified, counts, quotas, sessions, v6)
  {
    var batch' := batch + [c];
    assert (tried + [c])[|tried + [c]| - |batch'|..] == batch';
    assert batch'[..|batch|] == batch;
    assert Sessions(batch') == batchSessions + {c.session};
  }

  /** All pools are in order. */
  ghost predicate PoolsOf(candidates: seq<seq<Candidate>>, offsets: seq<nat>, source: seq<seq<Candidate>>,
                          tried: seq<Candidate>, v6: bool, sessions: set<nat>) {
    && GoodSource(source)
    && |candidates| == |offsets| == |source|
    && Distinct(tried)
    && (forall c :: c in tried ==> c.tier < |source| && c in source[c.tier])
    && (forall g :: 0 <= g < |source| ==> PoolOf(candidates[g], offsets[g], source[g], g, tried, v6, sessions))
  }

  lemma PoolsPicked(candidates: seq<seq<Candidate>>, offsets: seq<nat>, source: seq<seq<Candidate>>,
                    tried: seq<Candidate>, v6: bool, sessions: set<nat>, g: nat, pick: nat)
    requires PoolsOf(candidates, offsets, source, tried, v6, sessions)
    requires g < |source| && offsets[g] <= pick < |candidates[g]|
    ensures candidates[g][pick].tier == g && candidates[g][pick] !in tried
    ensures PoolsOf(candidates[g := MoveFront(candidates[g], offsets[g], pick)], offsets[g := offsets[g] + 1], source,
                    tried + [candidates[g][pick]], v6, sessions)
  {
    hide Distinct;
    var c := candidates[g][pick];
    assert c in candidates[g];
    TierOf(source, g, c);
    PoolPicked(candidates[g], offsets[g], source[g], g, tried, v6, sessions, pick);
    forall h | 0 <= h < |source| && h != g
      ensures PoolOf(candidates[h], offsets[h], source[h], h, tried + [c], v6, sessions)
    {
      PoolOther(candidates[h], offsets[h], source[h], h, tried, v6, sessions, c);
    }
    DistinctSnoc(tried, c);
  }

  lemma DistinctSnoc(s: seq<Candidate>, c: Candidate)
    requires Distinct(s) && c !in s
    ensures Distinct(s + [c])
  {
  }

  /** Its session is in the batch already, which counts from version 6 on. */
  predicate IsDeferred(c: Candidate, batchSessions: set<nat>, v6: bool) {
    v6 && c.session in batchSessions
  }

  /** The first untried candidate whose session is not in the batch; any session will do before v6. */
  method FindPick(pool: seq<Candidate>, start: nat, batchSessions: set<nat>, v6: bool) returns (pick: nat)
    requires start <= |pool|
    ensures start <= pick <= |pool|
    ensures pick < |pool| ==> !IsDeferred(pool[pick], batchSessions, v6)
    ensures forall i :: start <= i < pick ==> IsDeferred(pool[i], batchSessions, v6)
  {
    pick := start;
    while pick < |pool| && IsDeferred(pool[pick], batchSessions, v6)
      invariant start <= pick <= |pool|
      invariant forall i :: start <= i < pick ==> IsDeferred(pool[i], batchSessions, v6)
    {
      pick := pick + 1;
    }
  }

  // ---------------------------------------------------------------------------
  // Which candidates are drawn

  /** What a batch is drawn from: the pools, what was tried before the batch, and what has qualified. */
  datatype Env = Env(
    source: seq<seq<Candidate>>, quotas: seq<nat>, v6: bool, concurrency: nat, before: seq<Candidate>, qualified: seq<Candidate>)

  datatype Progress = Stuck(tier: nat) | Going(batch: seq<Candidate>)

  ghost predicate Tiers(e: Env, schedule: seq<nat>) {
    |e.quotas| == |e.source| && forall k :: 0 <= k < |schedule| ==> schedule[k] < |e.quotas|
  }

  /** What one tier gives: nothing if the batch could fill its quota, else its first candidate that is
      untried and whose session is neither qualified nor in the batch; where only the batch stands in the
      way the tier waits, and where nothing is left it is stuck. */
  ghost function TierGives(e: Env, g: nat, batch: seq<Candidate>): (r: Progress)
    requires g < |e.quotas| == |e.source|
    ensures r.Going? ==> |batch| <= |r.batch| && batch == r.batch[..|batch|]
  {
    if |InTier(e.qualified, g)| + |InTier(batch, g)| >= e.quotas[g] then Going(batch)
    else
      var next := First(e.source[g], e.before + batch, Sessions(e.qualified) + Sessions(batch), e.v6);
      if next.Some? then Going(batch + [next.value])
      else if First(e.source[g], e.before + batch, Sessions(e.qualified), e.v6).Some? then Going(batch)
      else Stuck(g)
  }

  /** One pass over the tiers from the `k`-th on, while the batch is not full. */
  ghost function PassFrom(e: Env, schedule: seq<nat>, k: nat, batch: seq<Candidate>): (r: Progress)
    requires Tiers(e, schedule) && k <= |schedule|
    ensures r.Going? ==> |batch| <= |r.batch| && batch == r.batch[..|batch|]
    decreases |schedule| - k
  {
    if k == |schedule| || |batch| >= e.concurrency then Going(batch)
    else
      var step := TierGives(e, schedule[k], batch);
      if step.Stuck? then step else PassFrom(e, schedule, k + 1, step.batch)
  }

  /** Pass after pass until the batch is full or a pass adds nothing. */
  ghost function FillFrom(e: Env, schedule: seq<nat>, batch: seq<Candidate>): Progress
    requires Tiers(e, schedule)
    decreases if |batch| < e.concurrency then e.concurrency - |batch| else 0
  {
    if |batch| >= e.concurrency then Going(batch)
    else
      var pass := PassFrom(e, schedule, 0, batch);
      if pass.Stuck? || |pass.batch| == |batch| then pass else FillFrom(e, schedule, pass.batch)
  }

  /** The accepted ones in order. */
  ghost function AcceptedOf(s: seq<Candidate>, accepts: Candidate -> bool): seq<Candidate> {
    if s == [] then [] else AcceptedOf(s[..|s| - 1], accepts) + if accepts(s[|s| - 1]) then [s[|s| - 1]] else []
  }

  lemma {:induction false} AcceptedConcat(a: seq<Candidate>, b: seq<Candidate>, accepts: Candidate -> bool)
    ensures AcceptedOf(a + b, accepts) == AcceptedOf(a, accepts) + AcceptedOf(b, accepts)
  {
    if b == [] {
      assert a + b == a;
    } else {
      assert (a + b)[..|a + b| - 1] == a + b[..|b| - 1];
      AcceptedConcat(a, b[..|b| - 1], accepts);
    }
  }

  /** What a batch is drawn from after the first `n` of these batches have been drawn and judged. */
  ghost function After(e: Env, batches: seq<seq<Candidate>>, n: nat, accepts: Candidate -> bool): Env
    requires n <= |batches|
  {
    e.(before := e.before + Flatten(batches, n), qualified := e.qualified + AcceptedOf(Flatten(batches, n), accepts))
  }

  /** Each batch is what is drawn after the verdicts on those before it, while some tier is short. */
  ghost predicate Proceeds(e: Env, schedule: seq<nat>, batches: seq<seq<Candidate>>, accepts: Candidate -> bool)
    requires Tiers(e, schedule)
  {
    forall n :: 0 <= n < |batches| ==>
      IsShort(After(e, batches, n, accepts), schedule) && FillFrom(After(e, batches, n, accepts), schedule, []) == Going(batches[n])
  }

  ghost predicate IsShort(e: Env, schedule: seq<nat>)
    requires Tiers(e, schedule)
  {
    exists k :: 0 <= k < |schedule| && |InTier(e.qualified, schedule[k])| < e.quotas[schedule[k]]
  }

  lemma {:induction false} FlattenSnoc(batches: seq<seq<Candidate>>, batch: seq<Candidate>, n: nat)
    requires n <= |batches|
    ensures Flatten(batches + [batch], n) == Flatten(batches, n)
  {
    if n > 0 {
      FlattenSnoc(batches, batch, n - 1);
    }
  }

  lemma AfterPrefix(e: Env, batches: seq<seq<Candidate>>, batch: seq<Candidate>, n: nat, accepts: Candidate -> bool)
    requires n <= |batches|
    ensures After(e, batches + [batch], n, accepts) == After(e, batches, n, accepts)
  {
    FlattenSnoc(batches, batch, n);
  }

  lemma ProceedsOn(e: Env, schedule: seq<nat>, batches: seq<seq<Candidate>>, batch: seq<Candidate>, accepts: Candidate -> bool)
    requires Tiers(e, schedule) && Proceeds(e, schedule, batches, accepts)
    requires var now := After(e, batches, |batches|, accepts);
             Tiers(now, schedule) && IsShort(now, schedule) && FillFrom(now, schedule, []) == Going(batch)
    ensures Proceeds(e, schedule, batches + [batch], accepts)
  {
    hide FillFrom, IsShort, AcceptedOf, Flatten;
    var more := batches + [batch];
    forall n | 0 <= n < |more| ensures IsShort(After(e, more, n, accepts), schedule) && FillFrom(After(e, more, n, accepts), schedule, []) == Going(more[n]) {
      AfterPrefix(e, batches, batch, n, accepts);
    }
  }

  lemma NoBatches(e: Env, schedule: seq<nat>, accepts: Candidate -> bool)
    requires Tiers(e, schedule)
    ensures Proceeds(e, schedule, [], accepts) && Flatten<Candidate>([], 0) == [] && AcceptedOf([], accepts) == []
  {
  }

  lemma ShortIs(e: Env, schedule: seq<nat>, counts: seq<nat>)
    requires Tiers(e, schedule) && |counts| == |e.quotas| && forall g :: 0 <= g < |counts| ==> counts[g] == |InTier(e.qualified, g)|
    ensures IsShort(e, schedule) <==> exists k :: 0 <= k < |schedule| && counts[schedule[k]] < e.quotas[schedule[k]]
  {
    hide InTier;
  }

  lemma AcceptedNone(accepts: Candidate -> bool)
    ensures AcceptedOf([], accepts) == []
  {
  }

  lemma AcceptedOne(s: seq<Candidate>, c: Candidate, accepts: Candidate -> bool)
    ensures AcceptedOf(s + [c], accepts) == AcceptedOf(s, accepts) + if accepts(c) then [c] else []
  {
  }

  class Scheduler {
    ghost const source: seq<seq<Candidate>>
    const quotas: seq<nat>
    const v6: bool
    const concurrency: nat
    var candidates: seq<seq<Candidate>>
    var offsets: seq<nat>
    var qualified: seq<Candidate>
    var qualifiedCounts: seq<nat>
    var qualifiedSessions: set<nat>
    ghost var tried: seq<Candidate>  // every candidate drawn so far, in order

    ghost predicate Valid()
      reads this
    {
      && concurrency >= 1
      && |quotas| == |source|
      && PoolsOf(candidates, offsets, source, tried, v6, qualifiedSessions)
      && Accepted(qualified, qualifiedCounts, quotas, qualifiedSessions, tried, v6)
    }

    ghost predicate Drawing(batch: seq<Candidate>, batchCounts: seq<nat>, batchSessions: set<nat>)
      reads this
    {
      Drawn(batch, batchCounts, batchSessions, tried, qualified, qualifiedCounts, quotas, qualifiedSessions, v6)
    }

    /** How many candidates of tier `g` are qualified or can still become so. */
    ghost function StillOpen(g: nat, batch: seq<Candidate>): nat
      requires g < |source|
      reads this
    {
      |Open(source[g], qualified, Elements(tried) - Elements(batch), v6)|
    }

    constructor (pools: seq<seq<Candidate>>, quotas: seq<nat>, v6: bool, concurrency: nat)
      requires GoodSource(pools) && |quotas| == |pools| && concurrency >= 1
      ensures Valid() && source == pools && this.quotas == quotas && this.v6 == v6
      ensures qualified == [] && tried == []
    {
      source, this.quotas, this.v6, this.concurrency := pools, quotas, v6, concurrency;
      candidates, qualified, tried := pools, [], [];
      offsets := seq(|pools|, _ => 0);
      qualifiedCounts := seq(|quotas|, _ => 0);
      qualifiedSessions := {};
      forall g | 0 <= g < |pools| ensures InOrder(pools[g][0..], pools[g]) {
        assert pools[g][0..] == pools[g];
        KeptAll(pools[g], Elements(pools[g]));
      }
    }

    /** Draw the next candidate of tier `g`, deferring sessions that are already in the batch. */
    method PickFrom(g: nat, batch: seq<Candidate>, batchCounts: seq<nat>, batchSessions: set<nat>) returns (r: Pick)
      requires Valid() && g < |quotas| && Drawing(batch, batchCounts, batchSessions)
      requires qualifiedCounts[g] + batchCounts[g] < quotas[g]
      modifies this`candidates, this`offsets, this`tried
      ensures Valid()
      ensures r.Picked? ==> r.candidate.tier == g && tried == old(tried) + [r.candidate]
      ensures r.Picked? ==>
                Drawing(batch + [r.candidate], batchCounts[g := batchCounts[g] + 1], batchSessions + {r.candidate.session})
      ensures !r.Picked? ==> tried == old(tried)
      ensures r.Deferred? ==> batch != []
      ensures r.Exhausted? ==> StillOpen(g, batch) < quotas[g]
      ensures First(source[g], old(tried), qualifiedSessions + batchSessions, v6) == if r.Picked? then Some(r.candidate) else None
      ensures r.Exhausted? <==> First(source[g], old(tried), qualifiedSessions, v6).None?
    {
      hide InTier, GoodSource, Distinct, PoolOf, PoolsOf, Drawn, Accepted, DistinctSessions, Open, Unspent, MoveFront, First, Eligible;
      AboutPool(candidates, offsets, source, tried, v6, qualifiedSessions, g);
      AboutBatch(batch, batchCounts, batchSessions, tried, qualified, qualifiedCounts, quotas, qualifiedSessions, v6, g);
      var pool, start := candidates[g], offsets[g];
      if v6 {
        PoolsUnspent(candidates, offsets, source, tried, v6, qualifiedSessions, g);
        pool := pool[..start] + Unspent(pool[start..], qualifiedSessions);
        candidates := candidates[g := pool];
      }
      var pick := FindPick(pool, start, batchSessions, v6);
      PoolFirst(candidates, offsets, source, tried, v6, qualifiedSessions, g, batchSessions, pick);
      if pick == |pool| {
        if start < |pool| {
          assert pool[start].session in batchSessions;
          return Deferred;
        }
        AboutPool(candidates, offsets, source, tried, v6, qualifiedSessions, g);
        OpenAfterExhaustion(source, g, pool, start, tried, v6, qualifiedSessions, qualified, qualifiedCounts, quotas, batch);
        return Exhausted;
      }
      var candidate := pool[pick];
      PoolsPicked(candidates, offsets, source, tried, v6, qualifiedSessions, g, pick);
      DrawnMore(batch, batchCounts, batchSessions, tried, qualified, qualifiedCounts, quotas, qualifiedSessions, v6, candidate);
      AcceptedMore(qualified, qualifiedCounts, quotas, qualifiedSessions, tried, tried + [candidate], v6);
      candidates := candidates[g := MoveFront(pool, start, pick)];
      offsets := offsets[g := start + 1];
      tried := tried + [candidate];
      return Picked(candidate);
    }

    /** The qualified candidates of tier `g` and those left in its pool would fill its quota. */
    ghost predicate Fillable(g: nat)
      reads this
    {
      && g < |quotas| && g < |candidates| && g < |offsets| && g < |qualifiedCounts|
      && qualifiedCounts[g] + |candidates[g]| >= quotas[g] + offsets[g]
    }

    /** What the next batch is drawn from, `n` candidates of it having been drawn. */
    ghost function EnvOf(n: nat): Env
      requires n <= |tried|
      reads this
    {
      Env(source, quotas, v6, concurrency, tried[..|tried| - n], qualified)
    }

    /** Raise before drawing when a tier cannot fill its quota even with everything untried. */
    method CheckTiers(schedule: seq<nat>) returns (short: Option<nat>)
      requires Valid() && forall k :: 0 <= k < |schedule| ==> schedule[k] < |quotas|
      ensures short.Some? ==> short.value < |quotas| && StillOpen(short.value, []) < quotas[short.value]
      ensures short.None? ==> forall k :: 0 <= k < |schedule| ==> Fillable(schedule[k])
    {
      hide InTier, GoodSource, Distinct, PoolOf, PoolsOf, Accepted, Open;
      for k := 0 to |schedule|
        invariant forall j :: 0 <= j < k ==> Fillable(schedule[j])
      {
        var g := schedule[k];
        AboutPool(candidates, offsets, source, tried, v6, qualifiedSessions, g);
        AboutCounts(qualified, qualifiedCounts, quotas, qualifiedSessions, tried, v6, g);
        var remaining := |candidates[g]| - offsets[g];
        if qualifiedCounts[g] + remaining < quotas[g] {
          assert InTier([], g) == [] && tried[|tried|..] == [];
          OpenAfterExhaustion(source, g, candidates[g], offsets[g], tried, v6, qualifiedSessions, qualified,
                              qualifiedCounts, quotas, []);
          return Some(g);
        }
      }
      return None;
    }

    /** One more candidate from tier `g`, unless the batch could fill its quota or only waits. */
    method DrawTier(g: nat, batch: seq<Candidate>, batchCounts: seq<nat>, batchSessions: set<nat>) returns (r: Pass)
      requires Valid() && g < |quotas| && Drawing(batch, batchCounts, batchSessions)
      modifies this`candidates, this`offsets, this`tried
      ensures Valid()
      ensures r.Passed? ==> Drawing(r.batch, r.counts, r.sessions) && |r.batch| <= |batch| + 1
      ensures |batch| <= |old(tried)| && tried == old(tried)[..|old(tried)| - |batch|] + if r.Passed? then r.batch else batch
      ensures r.Short? ==> r.tier == g && StillOpen(g, batch) < quotas[g]
      ensures r.Passed? && r.batch == [] ==> qualifiedCounts == old(qualifiedCounts) && |qualifiedCounts| == |quotas| && qualifiedCounts[g] >= quotas[g]
      ensures |quotas| == |source| && TierGives(old(EnvOf(|batch|)), g, batch) == if r.Short? then Stuck(g) else Going(r.batch)
    {
      hide InTier, PoolsOf, Accepted, Drawn, Open, Distinct, StillOpen, First, Sessions;
      AboutDrawn(batch, batchCounts, batchSessions, tried, qualified, qualifiedCounts, quotas, qualifiedSessions, v6);
      AboutQualifiedSoFar(qualified, qualifiedCounts, quotas, qualifiedSessions, tried, v6);
      if qualifiedCounts[g] + batchCounts[g] >= quotas[g] {
        NoneInTier(g);
        return Passed(batch, batchCounts, batchSessions);
      }
      var pick := PickFrom(g, batch, batchCounts, batchSessions);
      match pick {
        case Exhausted => return Pass.Short(g);
        case Deferred => return Passed(batch, batchCounts, batchSessions);
        case Picked(c) => return Passed(batch + [c], batchCounts[g := batchCounts[g] + 1], batchSessions + {c.session});
      }
    }

    /** One pass over the tiers: one more candidate from each tier that is not full. */
    method DrawPass(schedule: seq<nat>, batch: seq<Candidate>, batchCounts: seq<nat>, batchSessions: set<nat>)
      returns (r: Pass)
      requires Valid() && forall k :: 0 <= k < |schedule| ==> schedule[k] < |quotas|
      requires Drawing(batch, batchCounts, batchSessions) && |batch| < concurrency
      modifies this`candidates, this`offsets, this`tried
      ensures Valid()
      ensures |old(tried)| <= |tried| && tried[..|old(tried)|] == old(tried)
      ensures r.Short? ==>
                r.tier < |quotas| && StillOpen(r.tier, batch + tried[|old(tried)|..]) < quotas[r.tier]
      ensures r.Passed? ==>
                && Drawing(r.batch, r.counts, r.sessions) && |r.batch| <= concurrency
                && r.batch == batch + tried[|old(tried)|..]
      ensures r.Passed? && r.batch == [] ==>
                forall k :: 0 <= k < |schedule| ==> qualifiedCounts[schedule[k]] >= quotas[schedule[k]]
      ensures |batch| <= |old(tried)| && Tiers(old(EnvOf(|batch|)), schedule)
      ensures PassFrom(old(EnvOf(|batch|)), schedule, 0, batch) == if r.Short? then Stuck(r.tier) else Going(r.batch)
    {
      hide InTier, PoolsOf, Accepted, Drawn, Open, Distinct, StillOpen, PassFrom, First, TierGives, Sessions, Extends, Fillable, Tiers;
      AboutCounts(qualified, qualifiedCounts, quotas, qualifiedSessions, tried, v6, 0);
      AboutDrawn(batch, batchCounts, batchSessions, tried, qualified, qualifiedCounts, quotas, qualifiedSessions, v6);
      ghost var e, before := EnvOf(|batch|), tried[..|tried| - |batch|];
      TiersAre(e, schedule);
      var drawn, counts, sessions := batch, batchCounts, batchSessions;
      var k := 0;
      ExtendsOn(batch, batch, batch);
      while k < |schedule| && |drawn| < concurrency
        invariant 0 <= k <= |schedule|
        invariant Valid() && Drawing(drawn, counts, sessions) && |drawn| <= concurrency
        invariant Extends(batch, drawn) && tried == before + drawn
        invariant drawn == [] ==> forall j :: 0 <= j < k ==> qualifiedCounts[schedule[j]] >= quotas[schedule[j]]
        invariant PassFrom(e, schedule, 0, batch) == PassFrom(e, schedule, k, drawn)
      {
        BeforeDrawn(before, drawn);
        assert EnvOf(|drawn|) == e;
        PassStep(e, schedule, k, drawn);
        var step := DrawTier(schedule[k], drawn, counts, sessions);
        if step.Short? {
          SuffixOf(before, batch, drawn);
          return step;
        }
        ExtendsOn(batch, drawn, step.batch);
        drawn, counts, sessions := step.batch, step.counts, step.sessions;
        k := k + 1;
      }
      PassEnd(e, schedule, k, drawn);
      SuffixOf(before, batch, drawn);
      return Passed(drawn, counts, sessions);
    }

    /** Draw a batch, pass after pass, until it is full or a pass adds nothing. */
    method FillBatch(schedule: seq<nat>) returns (r: Draw)
      requires Valid() && forall k :: 0 <= k < |schedule| ==> schedule[k] < |quotas|
      requires |qualifiedCounts| == |quotas|
      requires exists k :: 0 <= k < |schedule| && qualifiedCounts[schedule[k]] < quotas[schedule[k]]
      modifies this`candidates, this`offsets, this`tried
      ensures Valid()
      ensures |old(tried)| <= |tried| && tried[..|old(tried)|] == old(tried)
      ensures r.Short? ==> r.tier < |quotas| && StillOpen(r.tier, tried[|old(tried)|..]) < quotas[r.tier]
      ensures r.Batch? ==> r.batch != [] && |r.batch| <= concurrency && r.batch == tried[|old(tried)|..]
      ensures r.Batch? ==> Drawing(r.batch, r.counts, r.sessions)
      ensures Tiers(old(EnvOf(0)), schedule)
      ensures FillFrom(old(EnvOf(0)), schedule, []) == if r.Short? then Stuck(r.tier) else Going(r.batch)
    {
      hide InTier, PoolsOf, Accepted, Drawn, Open, Distinct, StillOpen, PassFrom, FillFrom;
      ghost var e := EnvOf(0);
      var batch: seq<Candidate> := [];
      var counts: seq<nat> := seq(|quotas|, _ => 0);
      var sessions: set<nat> := {};
      EmptyDraw(tried, qualified, qualifiedCounts, quotas, qualifiedSessions, v6);
      var started := false;
      while |batch| < concurrency
        invariant Valid() && Drawing(batch, counts, sessions) && |batch| <= concurrency
        invariant |old(tried)| <= |tried| && tried[..|old(tried)|] == old(tried)
        invariant batch == tried[|old(tried)|..]
        invariant started ==> batch != []
        invariant FillFrom(e, schedule, []) == FillFrom(e, schedule, batch)
        decreases concurrency - |batch|
      {
        ghost var before := tried;
        assert EnvOf(|batch|) == e;
        FillStep(e, schedule, batch);
        var pass := DrawPass(schedule, batch, counts, sessions);
        assert tried[|old(tried)|..] == before[|old(tried)|..] + tried[|before|..];
        assert tried[..|old(tried)|] == tried[..|before|][..|old(tried)|];
        if pass.Short? {
          return Draw.Short(pass.tier);
        }
        started := true;
        var added := |pass.batch| > |batch|;
        batch, counts, sessions := pass.batch, pass.counts, pass.sessions;
        if !added {
          return Batch(batch, counts, sessions);
        }
      }
      FillEnd(e, schedule, batch);
      return Batch(batch, counts, sessions);
    }

    /** Record the verdicts on a batch in order. */
    method Consume(batch: seq<Candidate>, ghost counts: seq<nat>, ghost sessions: set<nat>, accepts: Candidate -> bool)
      requires Valid() && Drawing(batch, counts, sessions)
      modifies this`qualified, this`qualifiedCounts, this`qualifiedSessions
      ensures Valid()
      ensures qualified == old(qualified) + AcceptedOf(batch, accepts)
      ensures forall c :: c in qualified <==> c in old(qualified) || (c in batch && accepts(c))
      ensures |qualifiedCounts| == |old(qualifiedCounts)| == |quotas|
      ensures forall g :: 0 <= g < |quotas| ==> old(qualifiedCounts)[g] <= qualifiedCounts[g] <= quotas[g]
    {
      hide InTier, PoolsOf, Accepted, Drawn, Distinct, Room, AcceptedOf;
      AcceptedNone(accepts);
      BatchHasRoom(batch, counts, sessions, tried, qualified, qualifiedCounts, quotas, qualifiedSessions, v6, source,
                   candidates, offsets);
      AboutAllCounts(qualified, qualifiedCounts, quotas, qualifiedSessions, tried, v6);
      for k := 0 to |batch|
        invariant Valid() && Room(batch[k..], qualified, qualifiedCounts, quotas, qualifiedSessions, tried, v6)
        invariant qualified == old(qualified) + AcceptedOf(batch[..k], accepts)
        invariant forall c :: c in qualified <==> c in old(qualified) || (c in batch[..k] && accepts(c))
        invariant |qualifiedCounts| == |old(qualifiedCounts)| == |quotas|
        invariant forall g :: 0 <= g < |quotas| ==> old(qualifiedCounts)[g] <= qualifiedCounts[g] <= quotas[g]
      {
        var candidate := batch[k];
        assert batch[k..] == [candidate] + batch[k + 1..] && batch[..k + 1] == batch[..k] + [candidate];
        AcceptedOne(batch[..k], candidate, accepts);
        NextVerdict(candidate, batch[k + 1..], qualified, qualifiedCounts, quotas, qualifiedSessions, tried, v6);
        if accepts(candidate) {
          var g := candidate.tier;
          PoolsSpend(candidates, offsets, source, tried, v6, qualifiedSessions, candidate.session);
          qualifiedSessions := qualifiedSessions + {candidate.session};
          qualified := qualified + [candidate];
          qualifiedCounts := qualifiedCounts[g := qualifiedCounts[g] + 1];
          AboutAllCounts(qualified, qualifiedCounts, quotas, qualifiedSessions, tried, v6);
        }
      }
      assert batch[..|batch|] == batch;
    }

    /** Whether some tier of the schedule is short of its quota. */
    method Unfilled(schedule: seq<nat>) returns (some: bool)
      requires |qualifiedCounts| == |quotas| && forall k :: 0 <= k < |schedule| ==> schedule[k] < |quotas|
      ensures some <==> exists k :: 0 <= k < |schedule| && qualifiedCounts[schedule[k]] < quotas[schedule[k]]
    {
      for k := 0 to |schedule|
        invariant forall j :: 0 <= j < k ==> qualifiedCounts[schedule[j]] >= quotas[schedule[j]]
      {
        if qualifiedCounts[schedule[k]] < quotas[schedule[k]] {
          return true;
        }
      }
      return false;
    }

    /** Every tried candidate has been judged, and the accepted ones are the qualified ones. */
    ghost predicate Judged(accepts: Candidate -> bool)
      reads this
    {
      forall c :: c in qualified <==> c in tried && accepts(c)
    }

    /** Draw one batch and judge it, unless some tier cannot be filled. */
    method RunBatch(schedule: seq<nat>, accepts: Candidate -> bool)
      returns (short: Option<nat>, ghost judged: set<Candidate>, ghost batch: seq<Candidate>)
      requires Valid() && Judged(accepts) && forall k :: 0 <= k < |schedule| ==> schedule[k] < |quotas|
      requires |qualifiedCounts| == |quotas|
      requires exists k :: 0 <= k < |schedule| && qualifiedCounts[schedule[k]] < quotas[schedule[k]]
      modifies this
      ensures Valid()
      ensures |qualifiedCounts| == |old(qualifiedCounts)| == |quotas|
      ensures forall g :: 0 <= g < |quotas| ==> old(qualifiedCounts)[g] <= qualifiedCounts[g] <= quotas[g]
      ensures forall c :: c in judged ==> c in tried && (c in qualified <==> accepts(c))
      ensures forall c :: c in qualified ==> c in judged && accepts(c)
      ensures |old(tried)| <= |tried| && tried[..|old(tried)|] == old(tried)
      ensures short.Some? ==>
                short.value < |quotas| && |Open(source[short.value], qualified, judged, v6)| < quotas[short.value] && qualified == old(qualified)
      ensures short.None? ==> Judged(accepts) && judged == Elements(tried) && batch != []
      ensures short.None? ==> forall k :: 0 <= k < |schedule| ==> old(Fillable(schedule[k]))
      ensures Tiers(old(EnvOf(0)), schedule) && IsShort(old(EnvOf(0)), schedule)
      ensures short.None? ==>
                && FillFrom(old(EnvOf(0)), schedule, []) == Going(batch)
                && tried == old(tried) + batch && qualified == old(qualified) + AcceptedOf(batch, accepts)
    {
      hide InTier, PoolsOf, Accepted, Drawn, Distinct, Open, All, FillFrom, AcceptedOf, IsShort;
      ghost var before := tried;
      AboutAllCounts(qualified, qualifiedCounts, quotas, qualifiedSessions, tried, v6);
      AboutQualifiedSoFar(qualified, qualifiedCounts, quotas, qualifiedSessions, tried, v6);
      ShortIs(EnvOf(0), schedule, qualifiedCounts);
      short := CheckTiers(schedule);
      if short.Some? {
        judged, batch := Elements(tried) - Elements([]), [];
        return;
      }
      var draw := FillBatch(schedule);
      assert tried == before + tried[|before|..];
      TriedOnce(candidates, offsets, source, tried, v6, qualifiedSessions, |before|);
      if draw.Short? {
        judged, batch := Elements(tried) - Elements(tried[|before|..]), [];
        return Some(draw.tier), judged, batch;
      }
      Consume(draw.batch, draw.counts, draw.sessions, accepts);
      judged, batch := Elements(tried), draw.batch;
    }

    /** Draw and judge batches until the tiers of the schedule are full, or one cannot be filled. */
    method RunSchedule(schedule: seq<nat>, accepts: Candidate -> bool)
      returns (short: Option<nat>, ghost judged: set<Candidate>, ghost batches: seq<seq<Candidate>>)
      requires Valid() && Judged(accepts) && forall k :: 0 <= k < |schedule| ==> schedule[k] < |quotas|
      requires |qualifiedCounts| == |quotas|
      modifies this
      ensures Valid()
      ensures |qualifiedCounts| == |old(qualifiedCounts)| == |quotas|
      ensures forall g :: 0 <= g < |quotas| ==> old(qualifiedCounts)[g] <= qualifiedCounts[g] <= quotas[g]
      ensures forall c :: c in judged ==> c in tried && (c in qualified <==> accepts(c))
      ensures forall c :: c in qualified ==> c in judged && accepts(c)
      ensures short.None? ==> Judged(accepts)
      ensures short.None? ==> forall k :: 0 <= k < |schedule| ==> qualifiedCounts[schedule[k]] == quotas[schedule[k]]
      ensures short.Some? ==>
                short.value < |quotas| && |Open(source[short.value], qualified, judged, v6)| < quotas[short.value]
      ensures Tiers(old(EnvOf(0)), schedule) && Proceeds(old(EnvOf(0)), schedule, batches, accepts)
      ensures var e := After(old(EnvOf(0)), batches, |batches|, accepts);
              qualified == e.qualified && e.before <= tried && (short.None? ==> tried == e.before)
    {
      hide InTier, PoolsOf, Accepted, Drawn, Distinct, Open, All, FillFrom, AcceptedOf, PassFrom, Proceeds, IsShort, Flatten, After, Fillable;
      AboutAllCounts(qualified, qualifiedCounts, quotas, qualifiedSessions, tried, v6);
      TriedBounded(candidates, offsets, source, tried, v6, qualifiedSessions);
      batches := [];
      ghost var e := EnvOf(0);
      NoBatches(e, schedule, accepts);
      AfterIs(e, batches, accepts);
      var more := Unfilled(schedule);
      while more
        invariant Valid() && Judged(accepts)
        invariant |qualifiedCounts| == |old(qualifiedCounts)| == |quotas|
        invariant forall g :: 0 <= g < |quotas| ==> old(qualifiedCounts)[g] <= qualifiedCounts[g] <= quotas[g]
        invariant more <==> exists k :: 0 <= k < |schedule| && qualifiedCounts[schedule[k]] < quotas[schedule[k]]
        invariant |tried| <= |All(source)|
        invariant Proceeds(e, schedule, batches, accepts) && After(e, batches, |batches|, accepts) == EnvOf(0)
        decreases |All(source)| - |tried|
      {
        ghost var batch;
        short, judged, batch := RunBatch(schedule, accepts);
        if short.Some? {
          return;
        }
        TriedBounded(candidates, offsets, source, tried, v6, qualifiedSessions);
        ProceedsOn(e, schedule, batches, batch, accepts);
        AfterMore(e, batches, batch, accepts);
        batches := batches + [batch];
        more := Unfilled(schedule);
      }
      return None, Elements(tried), batches;
    }
  }

  lemma AfterIs(e: Env, batches: seq<seq<Candidate>>, accepts: Candidate -> bool)
    ensures batches == [] ==> After(e, batches, |batches|, accepts) == e
  {
  }

  lemma AfterMore(e: Env, batches: seq<seq<Candidate>>, batch: seq<Candidate>, accepts: Candidate -> bool)
    ensures var now := After(e, batches, |batches|, accepts);
            After(e, batches + [batch], |batches| + 1, accepts)
            == now.(before := now.before + batch, qualified := now.qualified + AcceptedOf(batch, accepts))
  {
    hide AcceptedOf;
    FlattenSnoc(batches, batch, |batches|);
    AcceptedConcat(Flatten(batches, |batches|), batch, accepts);
  }

  /** The listed candidates can all still be accepted. */
  ghost predicate Room(rest: seq<Candidate>, qualified: seq<Candidate>, counts: seq<nat>, quotas: seq<nat>,
                       sessions: set<nat>, tried: seq<Candidate>, v6: bool) {
    && Distinct(rest)
    && |counts| == |quotas|
    && (forall c :: c in rest ==> c in tried && c !in qualified && c.tier < |quotas|)
    && (forall g :: 0 <= g < |quotas| ==> counts[g] + |InTier(rest, g)| <= quotas[g])
    && (v6 ==> DistinctSessions(rest) && Sessions(rest) !! sessions)
  }

  lemma BatchHasRoom(batch: seq<Candidate>, counts: seq<nat>, sessions: set<nat>, tried: seq<Candidate>,
                     qualified: seq<Candidate>, qualifiedCounts: seq<nat>, quotas: seq<nat>,
                     qualifiedSessions: set<nat>, v6: bool, source: seq<seq<Candidate>>,
                     candidates: seq<seq<Candidate>>, offsets: seq<nat>)
    requires Drawn(batch, counts, sessions, tried, qualified, qualifiedCounts, quotas, qualifiedSessions, v6)
    requires PoolsOf(candidates, offsets, source, tried, v6, qualifiedSessions) && |quotas| == |source|
    ensures Room(batch, qualified, qualifiedCounts, quotas, qualifiedSessions, tried, v6)
  {
  }

  lemma NextVerdict(c: Candidate, rest: seq<Candidate>, qualified: seq<Candidate>, counts: seq<nat>, quotas: seq<nat>,
                    sessions: set<nat>, tried: seq<Candidate>, v6: bool)
    requires Room([c] + rest, qualified, counts, quotas, sessions, tried, v6)
    requires Accepted(qualified, counts, quotas, sessions, tried, v6)
    ensures Room(rest, qualified, counts, quotas, sessions, tried, v6)
    ensures c.tier < |quotas| == |counts|
    ensures var counts' := counts[c.tier := counts[c.tier] + 1];
            && Accepted(qualified + [c], counts', quotas, sessions + {c.session}, tried, v6)
            && Room(rest, qualified + [c], counts', quotas, sessions + {c.session}, tried, v6)
  {
    hide InTier, Sessions, DistinctSessions, Distinct;
    DistinctSplit(c, rest, qualified);
    forall g: nat | g < |quotas|
      ensures |InTier([c] + rest, g)| == |InTier(rest, g)| + if c.tier == g then 1 else 0
      ensures |InTier(qualified + [c], g)| == |InTier(qualified, g)| + if c.tier == g then 1 else 0
    {
      OneMoreInTier(c, rest, qualified, g);
    }
    SessionsGrow(c, rest, qualified);
    if v6 {
      DistinctSessionsSplit(c, rest, qualified);
    }
  }

  lemma OneMoreInTier(c: Candidate, rest: seq<Candidate>, qualified: seq<Candidate>, g: nat)
    ensures |InTier([c] + rest, g)| == |InTier(rest, g)| + if c.tier == g then 1 else 0
    ensures |InTier(qualified + [c], g)| == |InTier(qualified, g)| + if c.tier == g then 1 else 0
  {
    InTierConcat([c], rest, g);
    InTierConcat(qualified, [c], g);
    assert InTier([c], g) == if c.tier == g then [c] else [];
  }

  lemma DistinctSplit(c: Candidate, rest: seq<Candidate>, qualified: seq<Candidate>)
    requires Distinct([c] + rest)
    ensures Distinct(rest) && c !in rest
    ensures Distinct(qualified) && c !in qualified ==> Distinct(qualified + [c])
    ensures c in [c] + rest && forall d :: d in rest ==> d in [c] + rest
  {
    var all := [c] + rest;
    assert all[0] == c && forall i :: 0 <= i < |rest| ==> rest[i] == all[i + 1];
  }

  lemma SessionsGrow(c: Candidate, rest: seq<Candidate>, qualified: seq<Candidate>)
    ensures Sessions(qualified + [c]) == Sessions(qualified) + {c.session}
    ensures Sessions([c] + rest) == Sessions(rest) + {c.session}
  {
  }

  lemma DistinctSessionsSplit(c: Candidate, rest: seq<Candidate>, qualified: seq<Candidate>)
    requires DistinctSessions([c] + rest) && DistinctSessions(qualified)
    requires Sessions([c] + rest) !! Sessions(qualified)
    ensures DistinctSessions(rest) && DistinctSessions(qualified + [c])
    ensures Sessions(rest) !! Sessions(qualified + [c])
  {
    var all := [c] + rest;
    assert c in all && c.session in Sessions(all);
    assert forall i :: 0 <= i < |rest| ==> rest[i] == all[i + 1];
    SessionsGrow(c, rest, qualified);
    forall d | d in rest ensures d.session != c.session {
      var i :| 0 <= i < |rest| && rest[i] == d;
      assert all[0].session != all[i + 1].session;
    }
    forall i | 0 <= i < |qualified| ensures qualified[i].session != c.session {
      assert qualified[i] in qualified && qualified[i].session in Sessions(qualified);
    }
  }

  lemma PoolsSpend(candidates: seq<seq<Candidate>>, offsets: seq<nat>, source: seq<seq<Candidate>>,
                   tried: seq<Candidate>, v6: bool, sessions: set<nat>, session: nat)
    requires PoolsOf(candidates, offsets, source, tried, v6, sessions)
    ensures PoolsOf(candidates, offsets, source, tried, v6, sessions + {session})
  {
  }

  lemma AboutAllCounts(qualified: seq<Candidate>, counts: seq<nat>, quotas: seq<nat>, sessions: set<nat>,
                       tried: seq<Candidate>, v6: bool)
    requires Accepted(qualified, counts, quotas, sessions, tried, v6)
    ensures |counts| == |quotas|
    ensures forall g :: 0 <= g < |quotas| ==> counts[g] <= quotas[g]
  {
  }

  lemma TriedBounded(candidates: seq<seq<Candidate>>, offsets: seq<nat>, source: seq<seq<Candidate>>,
                     tried: seq<Candidate>, v6: bool, sessions: set<nat>)
    requires PoolsOf(candidates, offsets, source, tried, v6, sessions)
    ensures |tried| <= |All(source)|
  {
    forall c | c in tried ensures c in All(source) {
      assert c in source[c.tier];
    }
    SubsetOfAll(source, tried);
  }

  /** What was tried before a point is not tried again after it. */
  lemma TriedOnce(candidates: seq<seq<Candidate>>, offsets: seq<nat>, source: seq<seq<Candidate>>,
                  tried: seq<Candidate>, v6: bool, sessions: set<nat>, k: nat)
    requires PoolsOf(candidates, offsets, source, tried, v6, sessions) && k <= |tried|
    ensures Elements(tried) - Elements(tried[k..]) == Elements(tried[..k])
  {
  }

  datatype Pass = Short(tier: nat) | Passed(batch: seq<Candidate>, counts: seq<nat>, sessions: set<nat>)

  lemma AboutDraw(batch: seq<Candidate>, counts: seq<nat>, sessions: set<nat>, tried: seq<Candidate>,
                  qualified: seq<Candidate>, qualifiedCounts: seq<nat>, quotas: seq<nat>, qualifiedSessions: set<nat>,
                  v6: bool)
    requires Drawn(batch, counts, sessions, tried, qualified, qualifiedCounts, quotas, qualifiedSessions, v6)
    ensures |counts| == |quotas| && |batch| <= |tried|
    ensures batch == [] ==> forall g :: 0 <= g < |quotas| ==> counts[g] == 0
  {
  }

  lemma EmptyDraw(tried: seq<Candidate>, qualified: seq<Candidate>, qualifiedCounts: seq<nat>, quotas: seq<nat>,
                  qualifiedSessions: set<nat>, v6: bool)
    requires Accepted(qualified, qualifiedCounts, quotas, qualifiedSessions, tried, v6)
    ensures Drawn([], seq(|quotas|, _ => 0), {}, tried, qualified, qualifiedCounts, quotas, qualifiedSessions, v6)
  {
  }

  lemma AcceptedMore(qualified: seq<Candidate>, counts: seq<nat>, quotas: seq<nat>, sessions: set<nat>,
                     tried: seq<Candidate>, tried': seq<Candidate>, v6: bool)
    requires Accepted(qualified, counts, quotas, sessions, tried, v6) && tried <= tried'
    ensures Accepted(qualified, counts, quotas, sessions, tried', v6)
  {
  }

  lemma TiersAre(e: Env, schedule: seq<nat>)
    requires |e.quotas| == |e.source| && forall k :: 0 <= k < |schedule| ==> schedule[k] < |e.quotas|
    ensures Tiers(e, schedule)
  {
  }

  lemma PassStep(e: Env, schedule: seq<nat>, k: nat, batch: seq<Candidate>)
    requires Tiers(e, schedule) && k < |schedule| && |batch| < e.concurrency
    ensures var step := TierGives(e, schedule[k], batch);
            && (step.Going? ==> |batch| <= |step.batch| && batch == step.batch[..|batch|])
            && PassFrom(e, schedule, k, batch) == if step.Stuck? then step else PassFrom(e, schedule, k + 1, step.batch)
  {
    hide TierGives;
  }

  lemma BeforeDrawn(before: seq<Candidate>, drawn: seq<Candidate>)
    ensures (before + drawn)[..|before + drawn| - |drawn|] == before
  {
  }

  /** What has been drawn in addition to a batch stands behind it. */
  lemma SuffixOf(before: seq<Candidate>, batch: seq<Candidate>, drawn: seq<Candidate>)
    requires Extends(batch, drawn)
    ensures |batch| <= |drawn|
    ensures var n := |before| + |batch|; (before + drawn)[..n] == before + batch && drawn == batch + (before + drawn)[n..]
  {
  }

  ghost predicate Extends(batch: seq<Candidate>, drawn: seq<Candidate>) {
    |batch| <= |drawn| && drawn[..|batch|] == batch
  }

  lemma ExtendsOn(batch: seq<Candidate>, drawn: seq<Candidate>, next: seq<Candidate>)
    ensures Extends(batch, batch)
    ensures Extends(batch, drawn) && |drawn| <= |next| && drawn == next[..|drawn|] ==> Extends(batch, next)
    ensures Extends(batch, next) && next == [] ==> batch == []
  {
  }

  lemma NoneInTier(g: nat)
    ensures InTier([], g) == []
  {
  }

  lemma FillStep(e: Env, schedule: seq<nat>, batch: seq<Candidate>)
    requires Tiers(e, schedule) && |batch| < e.concurrency
    ensures var pass := PassFrom(e, schedule, 0, batch);
            && FillFrom(e, schedule, batch) == (if pass.Stuck? || |pass.batch| == |batch| then pass else FillFrom(e, schedule, pass.batch))
            && (pass.Going? && |pass.batch| <= |batch| ==> pass.batch == batch)
  {
    hide PassFrom;
  }

  lemma FillEnd(e: Env, schedule: seq<nat>, batch: seq<Candidate>)
    requires Tiers(e, schedule) && |batch| >= e.concurrency
    ensures FillFrom(e, schedule, batch) == Going(batch)
  {
  }

  /** The batch could fill the tier's quota. */
  ghost predicate Full(e: Env, g: nat, batch: seq<Candidate>) {
    g < |e.quotas| && |InTier(e.qualified, g)| + |InTier(batch, g)| >= e.quotas[g]
  }

  /** Every candidate of the tier that is left has a session of the batch. */
  ghost predicate Waits(e: Env, g: nat, batch: seq<Candidate>) {
    && g < |e.source|
    && (exists c :: c in e.source[g] && Eligible(c, e.before + batch, Sessions(e.qualified), e.v6))
    && forall c :: c in e.source[g] && Eligible(c, e.before + batch, Sessions(e.qualified), e.v6) ==> e.v6 && c.session in Sessions(batch)
  }

  /** Nothing of the tier is left. */
  ghost predicate Exhausts(e: Env, g: nat, batch: seq<Candidate>) {
    g < |e.source| && forall c :: c in e.source[g] ==> !Eligible(c, e.before + batch, Sessions(e.qualified), e.v6)
  }

  lemma TierGivesMeans(e: Env, g: nat, batch: seq<Candidate>)
    requires g < |e.quotas| == |e.source|
    ensures TierGives(e, g, batch) == Going(batch) <==> Full(e, g, batch) || Waits(e, g, batch)
    ensures TierGives(e, g, batch) == Stuck(g) <==> !Full(e, g, batch) && Exhausts(e, g, batch)
    ensures var r := TierGives(e, g, batch);
            r.Going? && r.batch != batch ==>
              && |r.batch| == |batch| + 1 && r.batch == batch + [r.batch[|batch|]]
              && r.batch[|batch|] in e.source[g] && Eligible(r.batch[|batch|], e.before + batch, Sessions(e.qualified) + Sessions(batch), e.v6)
  {
    hide InTier, Sessions;
    FirstFound(e.source[g], e.before + batch, Sessions(e.qualified) + Sessions(batch), e.v6);
    FirstFound(e.source[g], e.before + batch, Sessions(e.qualified), e.v6);
  }

  lemma {:induction false} FirstFound(s: seq<Candidate>, tried: seq<Candidate>, barred: set<nat>, v6: bool)
    ensures var r := First(s, tried, barred, v6);
            && (r.Some? ==> r.value in s && Eligible(r.value, tried, barred, v6))
            && (r.None? ==> forall c :: c in s ==> !Eligible(c, tried, barred, v6))
  {
    hide Eligible;
    if s != [] {
      FirstFound(s[1..], tried, barred, v6);
    }
  }

  lemma {:induction false} PassStays(e: Env, schedule: seq<nat>, k: nat, batch: seq<Candidate>)
    requires Tiers(e, schedule) && k <= |schedule| && |batch| < e.concurrency
    ensures PassFrom(e, schedule, k, batch) == Going(batch) ==> forall j :: k <= j < |schedule| ==> TierGives(e, schedule[j], batch) == Going(batch)
    decreases |schedule| - k
  {
    hide TierGives;
    if k < |schedule| {
      PassStays(e, schedule, k + 1, batch);
    }
  }

  lemma {:induction false} PassSticks(e: Env, schedule: seq<nat>, k: nat, batch: seq<Candidate>) returns (j: nat, b: seq<Candidate>)
    requires Tiers(e, schedule) && k <= |schedule| && PassFrom(e, schedule, k, batch).Stuck?
    ensures j < |schedule| && TierGives(e, schedule[j], b) == Stuck(schedule[j]) == PassFrom(e, schedule, k, batch)
    decreases |schedule| - k
  {
    var step := TierGives(e, schedule[k], batch);
    j, b := k, batch;
    if step.Going? {
      j, b := PassSticks(e, schedule, k + 1, step.batch);
    }
  }

  lemma {:induction false} PassWithin(e: Env, schedule: seq<nat>, k: nat, batch: seq<Candidate>)
    requires Tiers(e, schedule) && k <= |schedule| && |batch| <= e.concurrency
    ensures var r := PassFrom(e, schedule, k, batch); r.Going? ==> |r.batch| <= e.concurrency
    decreases |schedule| - k
  {
    hide TierGives;
    if k < |schedule| && |batch| < e.concurrency {
      TierGivesMeans(e, schedule[k], batch);
      var step := TierGives(e, schedule[k], batch);
      if step.Going? {
        PassWithin(e, schedule, k + 1, step.batch);
      }
    }
  }

  /** A batch holds as many as run at once; it is smaller only where every tier could be filled by it or
      has nothing left but sessions of the batch, and there is none only where a tier that is not filled
      has nothing left at all. */
  lemma {:induction false} BatchMeans(e: Env, schedule: seq<nat>, batch: seq<Candidate>)
    requires Tiers(e, schedule) && |batch| <= e.concurrency
    ensures var r := FillFrom(e, schedule, batch);
            && (r.Going? ==>
                  && |r.batch| <= e.concurrency
                  && (|r.batch| < e.concurrency ==>
                        forall k :: 0 <= k < |schedule| ==> Full(e, schedule[k], r.batch) || Waits(e, schedule[k], r.batch)))
            && (r.Stuck? ==> r.tier in schedule && exists b :: !Full(e, r.tier, b) && Exhausts(e, r.tier, b))
    decreases if |batch| < e.concurrency then e.concurrency - |batch| else 0
  {
    hide TierGives, PassFrom, Full, Waits, Exhausts, FillFrom;
    if |batch| >= e.concurrency {
      FillEnd(e, schedule, batch);
    } else {
      FillStep(e, schedule, batch);
      PassWithin(e, schedule, 0, batch);
      var pass := PassFrom(e, schedule, 0, batch);
      if pass.Stuck? {
        var j, b := PassSticks(e, schedule, 0, batch);
        TierGivesMeans(e, schedule[j], b);
      } else if |pass.batch| <= |batch| {
        PassStays(e, schedule, 0, batch);
        forall k | 0 <= k < |schedule| ensures Full(e, schedule[k], batch) || Waits(e, schedule[k], batch) {
          TierGivesMeans(e, schedule[k], batch);
        }
      } else {
        BatchMeans(e, schedule, pass.batch);
      }
    }
  }

  lemma PassEnd(e: Env, schedule: seq<nat>, k: nat, batch: seq<Candidate>)
    requires Tiers(e, schedule) && k <= |schedule| && (k == |schedule| || |batch| >= e.concurrency)
    ensures PassFrom(e, schedule, k, batch) == Going(batch)
  {
  }

  lemma AboutDrawn(batch: seq<Candidate>, counts: seq<nat>, sessions: set<nat>, tried: seq<Candidate>,
                   qualified: seq<Candidate>, qualifiedCounts: seq<nat>, quotas: seq<nat>, qualifiedSessions: set<nat>, v6: bool)
    requires Drawn(batch, counts, sessions, tried, qualified, qualifiedCounts, quotas, qualifiedSessions, v6)
    ensures |batch| <= |tried| && tried == tried[..|tried| - |batch|] + batch && sessions == Sessions(batch)
    ensures |counts| == |quotas| && forall g :: 0 <= g < |quotas| ==> counts[g] == |InTier(batch, g)|
  {
    hide InTier, Sessions;
  }

  lemma AboutQualifiedSoFar(qualified: seq<Candidate>, counts: seq<nat>, quotas: seq<nat>, sessions: set<nat>,
                            tried: seq<Candidate>, v6: bool)
    requires Accepted(qualified, counts, quotas, sessions, tried, v6)
    ensures |counts| == |quotas| && sessions == Sessions(qualified)
    ensures forall g :: 0 <= g < |quotas| ==> counts[g] == |InTier(qualified, g)|
  {
    hide InTier, Sessions;
  }

  lemma AboutCounts(qualified: seq<Candidate>, counts: seq<nat>, quotas: seq<nat>, sessions: set<nat>,
                    tried: seq<Candidate>, v6: bool, g: nat)
    requires Accepted(qualified, counts, quotas, sessions, tried, v6)
    ensures |counts| == |quotas|
    ensures g < |quotas| ==> counts[g] == |InTier(qualified, g)| <= quotas[g]
  {
  }

  lemma AboutPool(candidates: seq<seq<Candidate>>, offsets: seq<nat>, source: seq<seq<Candidate>>,
                  tried: seq<Candidate>, v6: bool, sessions: set<nat>, g: nat)
    requires PoolsOf(candidates, offsets, source, tried, v6, sessions) && g < |source|
    ensures |candidates| == |offsets| == |source| && offsets[g] <= |candidates[g]| && Distinct(tried)
    ensures GoodSource(source) && PoolOf(candidates[g], offsets[g], source[g], g, tried, v6, sessions)
  {
  }

  lemma AboutBatch(batch: seq<Candidate>, batchCounts: seq<nat>, batchSessions: set<nat>, tried: seq<Candidate>,
                   qualified: seq<Candidate>, counts: seq<nat>, quotas: seq<nat>, sessions: set<nat>, v6: bool, g: nat)
    requires Drawn(batch, batchCounts, batchSessions, tried, qualified, counts, quotas, sessions, v6) && g < |quotas|
    requires Accepted(qualified, counts, quotas, sessions, tried, v6)
    ensures |batch| <= |tried| && tried[|tried| - |batch|..] == batch && batchSessions == Sessions(batch)
    ensures batchCounts[g] == |InTier(batch, g)|
    ensures forall q :: q in qualified ==> q in tried
  {
  }

  lemma PoolsUnspent(candidates: seq<seq<Candidate>>, offsets: seq<nat>, source: seq<seq<Candidate>>,
                     tried: seq<Candidate>, v6: bool, sessions: set<nat>, g: nat)
    requires PoolsOf(candidates, offsets, source, tried, v6, sessions) && v6 && g < |source|
    ensures var pool := candidates[g][..offsets[g]] + Unspent(candidates[g][offsets[g]..], sessions);
            && PoolsOf(candidates[g := pool], offsets, source, tried, v6, sessions)
            && |pool| >= offsets[g]
            && forall i :: offsets[g] <= i < |pool| ==> pool[i].session !in sessions
  {
    hide Distinct, GoodSource;
    PoolUnspent(candidates[g], offsets[g], source[g], g, tried, v6, sessions);
    var pool := candidates[g][..offsets[g]] + Unspent(candidates[g][offsets[g]..], sessions);
    forall i | offsets[g] <= i < |pool| ensures pool[i].session !in sessions {
      assert pool[offsets[g]..][i - offsets[g]] == pool[i];
    }
  }

  /** What is found in a pool is first in its source. */
  lemma PoolFirst(candidates: seq<seq<Candidate>>, offsets: seq<nat>, source: seq<seq<Candidate>>, tried: seq<Candidate>, v6: bool,
                  sessions: set<nat>, g: nat, batchSessions: set<nat>, pick: nat)
    requires PoolsOf(candidates, offsets, source, tried, v6, sessions) && g < |source| && offsets[g] <= pick <= |candidates[g]|
    requires v6 ==> forall i :: offsets[g] <= i < |candidates[g]| ==> candidates[g][i].session !in sessions
    requires pick < |candidates[g]| ==> !IsDeferred(candidates[g][pick], batchSessions, v6)
    requires forall i :: offsets[g] <= i < pick ==> IsDeferred(candidates[g][i], batchSessions, v6)
    ensures First(source[g], tried, sessions + batchSessions, v6) == if pick < |candidates[g]| then Some(candidates[g][pick]) else None
    ensures First(source[g], tried, sessions, v6).None? <==> offsets[g] == |candidates[g]|
  {
    hide Distinct, InOrder, First, Eligible;
    FirstUntried(candidates[g], offsets[g], source[g], g, tried, v6, sessions, batchSessions, pick);
    FirstUntried(candidates[g], offsets[g], source[g], g, tried, v6, sessions, {}, offsets[g]);
    assert sessions + {} == sessions;
  }

  lemma TierOf(source: seq<seq<Candidate>>, g: nat, c: Candidate)
    requires GoodSource(source) && g < |source| && c in source[g]
    ensures c.tier == g
  {
  }

  /** With nothing untried left, what is open is qualified or in the batch. */
  lemma OpenAfterExhaustion(source: seq<seq<Candidate>>, g: nat, pool: seq<Candidate>, offset: nat,
                            tried: seq<Candidate>, v6: bool, sessions: set<nat>, qualified: seq<Candidate>,
                            counts: seq<nat>, quotas: seq<nat>, batch: seq<Candidate>)
    requires GoodSource(source) && g < |source| == |quotas|
    requires PoolOf(pool, offset, source[g], g, tried, v6, sessions)
    requires Accepted(qualified, counts, quotas, sessions, tried, v6)
    requires Distinct(tried) && |batch| <= |tried| && tried[|tried| - |batch|..] == batch
    requires counts[g] + |InTier(batch, g)| + (|pool| - offset) < quotas[g]
    ensures |Open(source[g], qualified, Elements(tried) - Elements(batch), v6)| < quotas[g]
  {
    hide InTier;
    var untried := pool[offset..];
    assert pool == pool[..offset] + untried;
    forall i, j | 0 <= i < j < |batch| ensures batch[i] != batch[j] {
      assert batch[i] == tried[|tried| - |batch| + i] && batch[j] == tried[|tried| - |batch| + j];
    }
    OpenIsBounded(source[g], qualified, Elements(tried) - Elements(batch), v6, g, batch, untried);
  }

  datatype Outcome =
    | Qualified(candidates: seq<Candidate>)
    | CannotFill(tier: nat, qualified: seq<Candidate>)

  /** All tiers together from version 6 on; before it, one tier after the other, the last first. */
  function Schedules(tiers: nat, v6: bool): (r: seq<seq<nat>>)
    ensures forall k, j :: 0 <= k < |r| && 0 <= j < |r[k]| ==> r[k][j] < tiers
    ensures v6 ==> |r| == 1 && |r[0]| == tiers && forall i, j :: 0 <= i < j < tiers ==> r[0][i] < r[0][j]
    ensures !v6 ==> |r| == tiers && (forall k :: 0 <= k < tiers ==> |r[k]| == 1)
                    && forall i, j :: 0 <= i < j < tiers ==> r[i][0] > r[j][0]
  {
    if v6 then [seq(tiers, i requires 0 <= i < tiers => i as nat)]
    else seq(tiers, i requires 0 <= i < tiers => [(tiers - 1 - i) as nat])
  }

  lemma EveryTierScheduled(tiers: nat, v6: bool, g: nat) returns (k: nat, j: nat)
    requires g < tiers
    ensures k < |Schedules(tiers, v6)| && j < |Schedules(tiers, v6)[k]| && Schedules(tiers, v6)[k][j] == g
  {
    k, j := if v6 then 0 else tiers - 1 - g, if v6 then g else 0;
  }

  /** Qualify candidates for any verdicts. A normal finish fills every quota exactly with distinct
      accepted candidates, from distinct sessions in version 6; the only other outcome names a tier
      that what is still open cannot fill. No candidate is tried twice. */
  method Qualify(pools: seq<seq<Candidate>>, quotas: seq<nat>, v6: bool, concurrency: nat, accepts: Candidate -> bool)
    returns (r: Outcome, ghost tried: seq<Candidate>, ghost judged: set<Candidate>)
    requires GoodSource(pools) && |quotas| == |pools| && concurrency >= 1
    ensures Distinct(tried) && forall c :: c in tried ==> c in All(pools)
    ensures judged <= Elements(tried)
    ensures r.Qualified? ==>
              && Distinct(r.candidates)
              && (forall c :: c in r.candidates ==> c in All(pools) && accepts(c))
              && (forall g: nat :: g < |quotas| ==> |InTier(r.candidates, g)| == quotas[g])
              && (v6 ==> DistinctSessions(r.candidates))
    ensures r.Qualified? ==> forall c :: c in r.candidates <==> c in tried && accepts(c)
    ensures r.CannotFill? ==>
              && r.tier < |quotas|
              && (forall c :: c in r.qualified <==> c in judged && accepts(c))
              && |Open(pools[r.tier], r.qualified, judged, v6)| < quotas[r.tier]
  {
    hide InTier, Open, GoodSource, Distinct, PoolsOf, DistinctSessions, Accepted, Schedules, Proceeds, After, FillFrom, All;
    var scheduler := new Scheduler(pools, quotas, v6, concurrency);
    AboutAllCounts(scheduler.qualified, scheduler.qualifiedCounts, quotas, scheduler.qualifiedSessions, scheduler.tried, v6);
    var schedules := Schedules(|quotas|, v6);
    for k := 0 to |schedules|
      invariant fresh(scheduler) && scheduler.Valid() && scheduler.Judged(accepts)
      invariant |scheduler.qualifiedCounts| == |quotas|
      invariant forall i, j :: 0 <= i < k && 0 <= j < |schedules[i]| ==>
                  scheduler.qualifiedCounts[schedules[i][j]] == quotas[schedules[i][j]]
    {
      var short;
      ghost var batches;
      short, judged, batches := scheduler.RunSchedule(schedules[k], accepts);
      if short.Some? {
        tried := scheduler.tried;
        TriedFromSource(scheduler.candidates, scheduler.offsets, pools, tried, v6, scheduler.qualifiedSessions);
        return CannotFill(short.value, scheduler.qualified), tried, judged;
      }
    }
    tried, judged := scheduler.tried, {};
    TriedFromSource(scheduler.candidates, scheduler.offsets, pools, tried, v6, scheduler.qualifiedSessions);
    AboutQualified(scheduler.qualified, scheduler.qualifiedCounts, quotas, scheduler.qualifiedSessions, tried, v6);
    forall g: nat | g < |quotas| ensures scheduler.qualifiedCounts[g] == quotas[g] {
      var k, j := EveryTierScheduled(|quotas|, v6, g);
    }
    return Qualified(scheduler.qualified), tried, judged;
  }

  lemma TriedFromSource(candidates: seq<seq<Candidate>>, offsets: seq<nat>, source: seq<seq<Candidate>>,
                        tried: seq<Candidate>, v6: bool, sessions: set<nat>)
    requires PoolsOf(candidates, offsets, source, tried, v6, sessions)
    ensures Distinct(tried) && forall c :: c in tried ==> c in All(source)
  {
  }

  lemma AboutQualified(qualified: seq<Candidate>, counts: seq<nat>, quotas: seq<nat>, sessions: set<nat>,
                       tried: seq<Candidate>, v6: bool)
    requires Accepted(qualified, counts, quotas, sessions, tried, v6)
    ensures Distinct(qualified) && |counts| == |quotas|
    ensures forall g: nat :: g < |quotas| ==> counts[g] == |InTier(qualified, g)|
    ensures v6 ==> DistinctSessions(qualified)
  {
  }
}
