/** How many tokens a shared prefix cache holds for a set of prompts: one pass over the sorted
    prompts, comparing each only with the one before it, finds the number of nodes in their trie. */
module PromptTrie {
  import opened Sorting

  type Tokens = seq<int>

  // ---------------------------------------------------------------------------
  // Lexicographic order

  predicate LexLe(a: Tokens, b: Tokens) {
    a == [] || (b != [] && (a[0] < b[0] || (a[0] == b[0] && LexLe(a[1..], b[1..]))))
  }

  lemma {:induction false} LexTotal(a: Tokens, b: Tokens)
    ensures LexLe(a, b) || LexLe(b, a)
  {
    if a != [] && b != [] && a[0] == b[0] {
      LexTotal(a[1..], b[1..]);
    }
  }

  lemma {:induction false} LexTransitive(a: Tokens, b: Tokens, c: Tokens)
    requires LexLe(a, b) && LexLe(b, c)
    ensures LexLe(a, c)
  {
    if a != [] && a[0] == b[0] == c[0] {
      LexTransitive(a[1..], b[1..], c[1..]);
    }
  }

  lemma LexIsTotalOrder()
    ensures TotalOrder(LexLe)
  {
    forall a: Tokens, b: Tokens ensures LexLe(a, b) || LexLe(b, a) {
      LexTotal(a, b);
    }
    forall a: Tokens, b: Tokens, c: Tokens | LexLe(a, b) && LexLe(b, c) ensures LexLe(a, c) {
      LexTransitive(a, b, c);
    }
  }

  /** Between two lists that share a prefix, every list shares it. */
  lemma {:induction false} PrefixSqueeze(a: Tokens, b: Tokens, c: Tokens, k: nat)
    requires LexLe(a, b) && LexLe(b, c)
    requires k <= |a| && k <= |c| && a[..k] == c[..k]
    ensures k <= |b| && b[..k] == c[..k]
  {
    if k > 0 {
      assert a[0] == a[..k][0] == c[..k][0] == c[0];
      assert a[1..][..k - 1] == a[..k][1..] == c[..k][1..] == c[1..][..k - 1];
      PrefixSqueeze(a[1..], b[1..], c[1..], k - 1);
      assert b[..k] == [b[0]] + b[1..][..k - 1];
      assert c[..k] == [c[0]] + c[1..][..k - 1];
    }
  }

  // ---------------------------------------------------------------------------
  // The trie

  /** `p` is a prefix of `ids` longer than `from` tokens. */
  predicate IsPrefix(p: Tokens, ids: Tokens, from: nat) {
    from < |p| <= |ids| && p == ids[..|p|]
  }

  /** The prefixes of one prompt longer than `from` tokens. */
  ghost function PrefixesBeyond(ids: Tokens, from: nat): (r: set<Tokens>)
    requires from <= |ids|
    ensures forall p :: p in r <==> IsPrefix(p, ids, from)
    ensures |r| == |ids| - from
    decreases |ids| - from
  {
    if from == |ids| then {} else
    var rest := PrefixesBeyond(ids, from + 1);
    rest + {ids[..from + 1]}
  }

  /** The nodes of the trie of all prompts: their distinct non-empty prefixes. */
  ghost function Nodes(prompts: seq<Tokens>): set<Tokens> {
    if prompts == [] then {}
    else Nodes(prompts[..|prompts| - 1]) + PrefixesBeyond(prompts[|prompts| - 1], 0)
  }

  lemma {:induction false} NodeIff(prompts: seq<Tokens>, p: Tokens)
    ensures p in Nodes(prompts) <==> exists i :: 0 <= i < |prompts| && IsPrefix(p, prompts[i], 0)
  {
    hide IsPrefix;
    if prompts != [] {
      var last := |prompts| - 1;
      NodeIff(prompts[..last], p);
      if i :| 0 <= i < |prompts| && IsPrefix(p, prompts[i], 0) {
        assert i == last || prompts[..last][i] == prompts[i];
      }
      if i :| 0 <= i < last && IsPrefix(p, prompts[..last][i], 0) {
        assert prompts[i] == prompts[..last][i];
      }
    }
  }

  function Length(ids: Tokens): real {
    |ids| as real
  }

  ghost function TotalTokens(prompts: seq<Tokens>): nat {
    if prompts == [] then 0 else TotalTokens(prompts[..|prompts| - 1]) + |prompts[|prompts| - 1]|
  }

  lemma {:induction false} TotalIsSum(prompts: seq<Tokens>)
    ensures TotalTokens(prompts) as real == Sum(prompts, Length)
  {
    if prompts != [] {
      TotalIsSum(prompts[..|prompts| - 1]);
    }
  }

  /** The total does not depend on the order of the prompts. */
  lemma TotalOfPermutation(s: seq<Tokens>, t: seq<Tokens>)
    requires multiset(s) == multiset(t)
    ensures TotalTokens(s) == TotalTokens(t)
  {
    hide Sum, TotalTokens;
    TotalIsSum(s);
    TotalIsSum(t);
    SumOfPermutation(s, t, Length);
  }

  /** Nodes depend only on which prompts there are. */
  lemma NodesOfPermutation(s: seq<Tokens>, t: seq<Tokens>)
    requires multiset(s) == multiset(t)
    ensures Nodes(s) == Nodes(t)
  {
    NodesIncluded(s, t);
    NodesIncluded(t, s);
  }

  lemma NodesIncluded(s: seq<Tokens>, t: seq<Tokens>)
    requires multiset(s) == multiset(t)
    ensures Nodes(s) <= Nodes(t)
  {
    forall p | p in Nodes(s) ensures p in Nodes(t) {
      NodeIff(s, p);
      NodeIff(t, p);
      var i :| 0 <= i < |s| && IsPrefix(p, s[i], 0);
      assert s[i] in multiset(s);
      var j :| 0 <= j < |t| && t[j] == s[i];
    }
  }

  /** In sorted order the next prompt adds exactly its prefixes beyond what it shares with the one
      before it. */
  lemma NextPromptAdds(s: seq<Tokens>, i: nat, common: nat)
    requires Ascending(s, LexLe) && i < |s|
    requires common <= |s[i]|
    requires i == 0 ==> common == 0
    requires i > 0 ==> common <= |s[i - 1]| && s[i - 1][..common] == s[i][..common]
    requires i > 0 && common < |s[i]| && common < |s[i - 1]| ==> s[i - 1][common] != s[i][common]
    ensures Nodes(s[..i + 1]) == Nodes(s[..i]) + PrefixesBeyond(s[i], common)
    ensures Nodes(s[..i]) !! PrefixesBeyond(s[i], common)
  {
    hide Ascending, Nodes, IsPrefix, PrefixesBeyond;
    var seen, added, all := Nodes(s[..i]), PrefixesBeyond(s[i], common), PrefixesBeyond(s[i], 0);
    NodesSnoc(s, i);
    forall p | p in added ensures p in all && p !in seen {
      NewOrShared(s, i, common, p);
    }
    forall p | p in all && p !in added ensures p in seen {
      NewOrShared(s, i, common, p);
    }
    assert seen + all == seen + added;
  }

  lemma NodesSnoc(s: seq<Tokens>, i: nat)
    requires i < |s|
    ensures Nodes(s[..i + 1]) == Nodes(s[..i]) + PrefixesBeyond(s[i], 0)
  {
    assert s[..i + 1][..i] == s[..i];
  }

  /** A prefix of the next prompt is new exactly when it goes beyond what is shared. */
  lemma NewOrShared(s: seq<Tokens>, i: nat, common: nat, p: Tokens)
    requires Ascending(s, LexLe) && i < |s| && common <= |s[i]|
    requires i == 0 ==> common == 0
    requires i > 0 ==> common <= |s[i - 1]| && s[i - 1][..common] == s[i][..common]
    requires i > 0 && common < |s[i]| && common < |s[i - 1]| ==> s[i - 1][common] != s[i][common]
    ensures p in Nodes(s[..i]) ==> !IsPrefix(p, s[i], common)
    ensures IsPrefix(p, s[i], common) ==> IsPrefix(p, s[i], 0)
    ensures IsPrefix(p, s[i], 0) && !IsPrefix(p, s[i], common) ==> p in Nodes(s[..i])
  {
    hide Ascending, Nodes;
    NodeIff(s[..i], p);
    if p in Nodes(s[..i]) {
      var j :| 0 <= j < i && IsPrefix(p, s[..i][j], 0);
      assert s[..i][j] == s[j];
      if common < |p| <= |s[i]| {
        NotSeenBefore(s, i, j, common, |p|);
      }
    }
    if IsPrefix(p, s[i], 0) && |p| <= common {
      assert s[i - 1][..|p|] == s[i - 1][..common][..|p|] == s[i][..common][..|p|] == s[i][..|p|];
      assert s[..i][i - 1] == s[i - 1];
      assert IsPrefix(p, s[..i][i - 1], 0);
    }
  }

  lemma DifferentPrefixes(a: Tokens, b: Tokens, k: nat, m: nat)
    requires m < k <= |a| && k <= |b| && a[m] != b[m]
    ensures a[..k] != b[..k]
  {
  }

  lemma NotSeenBefore(s: seq<Tokens>, i: nat, j: nat, common: nat, k: nat)
    requires Ascending(s, LexLe) && j < i < |s|
    requires common < k <= |s[i]| && k <= |s[j]|
    requires common < |s[i - 1]| ==> s[i - 1][common] != s[i][common]
    ensures s[j][..k] != s[i][..k]
  {
    if s[j][..k] == s[i][..k] {
      if j < i - 1 {
        PrefixSqueeze(s[j], s[i - 1], s[i], k);
      }
      DifferentPrefixes(s[i - 1], s[i], k, common);
    }
  }

  // ---------------------------------------------------------------------------
  // The one-pass count

  lemma NoNodes(s: seq<Tokens>)
    ensures s == [] ==> Nodes(s) == {}
  {
  }

  lemma TotalNone(s: seq<Tokens>)
    ensures s == [] ==> TotalTokens(s) == 0
  {
  }

  lemma TotalSnoc(s: seq<Tokens>, ids: Tokens)
    ensures TotalTokens(s + [ids]) == TotalTokens(s) + |ids|
  {
    assert (s + [ids])[..|s|] == s;
  }

  /** How many nodes the next prompt adds. */
  lemma NewNodes(s: seq<Tokens>, i: nat, common: nat)
    requires i < |s| && Ascending(s, LexLe) && common <= |s[i]|
    requires i == 0 ==> common == 0
    requires i > 0 ==> common <= |s[i - 1]| && s[i - 1][..common] == s[i][..common]
    requires i > 0 && common < |s[i - 1]| && common < |s[i]| ==> s[i - 1][common] != s[i][common]
    ensures |Nodes(s[..i + 1])| == |Nodes(s[..i])| + |s[i]| - common
  {
    hide Nodes, Ascending, IsPrefix, LexLe;
    NextPromptAdds(s, i, common);
    DisjointSize(Nodes(s[..i]), PrefixesBeyond(s[i], common));
  }

  lemma DisjointSize<T>(a: set<T>, b: set<T>)
    requires a !! b
    ensures |a + b| == |a| + |b|
  {
  }

  /** The length of the longest common prefix. */
  method CommonPrefix(a: Tokens, b: Tokens) returns (common: nat)
    ensures common <= |a| && common <= |b| && a[..common] == b[..common]
    ensures common < |a| && common < |b| ==> a[common] != b[common]
  {
    common := 0;
    while common < |a| && common < |b| && a[common] == b[common]
      invariant 0 <= common <= |a| && common <= |b| && a[..common] == b[..common]
    {
      common := common + 1;
    }
  }

  /** Prompt tokens in total, and the tokens a shared prefix cache holds. */
  method PromptKvTokens(prompts: seq<Tokens>) returns (total: nat, unique: nat)
    ensures total == TotalTokens(prompts)
    ensures unique == |Nodes(prompts)|
    ensures unique <= total
  {
    hide Sort, Nodes, Ascending, IsPrefix, LexLe, Sum, TotalOrder, TotalTokens, PrefixesBeyond;
    var sorted := Sort(prompts, LexLe);
    LexIsTotalOrder();
    SortAscending(prompts, LexLe);
    NodesOfPermutation(sorted, prompts);
    TotalOfPermutation(sorted, prompts);
    total, unique := 0, 0;
    var previous: Tokens := [];
    NoNodes(sorted[..0]);
    TotalNone(sorted[..0]);
    for i := 0 to |sorted|
      invariant total == TotalTokens(sorted[..i]) && unique == |Nodes(sorted[..i])| <= total
      invariant previous == if i == 0 then [] else sorted[i - 1]
    {
      var ids := sorted[i];
      var common := CommonPrefix(previous, ids);
      assert sorted[..i + 1] == sorted[..i] + [ids];
      TotalSnoc(sorted[..i], ids);
      NewNodes(sorted, i, common);
      total := total + |ids|;
      unique := unique + (|ids| - common);
      previous := ids;
    }
    assert sorted[..|sorted|] == sorted;
  }
}
