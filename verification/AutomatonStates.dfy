/** What the states of a suffix automaton stand for, and why extending the text by one character
    adds one state, or two when a clone is needed. Every state is identified by its longest word. */
module AutomatonStates {
  import opened Words

  /** The states of the automaton of `s`: each names a word of `s` that is the longest with its
      set of occurrences, no two name the same set, and every word of `s` belongs to one. */
  ghost predicate StatesOf(s: Word, words: seq<Word>) {
    && |words| >= 1
    && words[0] == []
    && (forall v :: 0 <= v < |words| ==> Factor(s, words[v]))
    && (forall t, v :: 0 <= t < |words| && 0 <= v < |words| && Extends(s, words[t], words[v]) ==> t == v)
    && (forall w :: Factor(s, w) ==> Covered(s, words, w))
  }

  ghost predicate Covered(s: Word, words: seq<Word>, w: Word) {
    exists t :: 0 <= t < |words| && Extends(s, w, words[t])
  }

  /** Every suffix link leads to the longest state that is a proper suffix. */
  ghost predicate LinksTo(words: seq<Word>, v: int, link: int)
    requires 0 <= v < |words|
  {
    && 0 <= link < |words|
    && IsSuffix(words[link], words[v])
    && |words[link]| < |words[v]|
    && forall t :: 0 <= t < |words| && IsSuffix(words[t], words[v]) && |words[t]| < |words[v]|
               ==> |words[t]| <= |words[link]|
  }

  ghost predicate LinksOf(words: seq<Word>, links: seq<int>) {
    && |links| == |words| >= 1
    && links[0] == -1
    && forall v :: 1 <= v < |words| ==> LinksTo(words, v, links[v])
  }

  /** State `v` has a transition on `d` exactly when its word followed by `d` occurs, and the
      transition leads to the state of that longer word. */
  ghost predicate StepsTo(s: Word, words: seq<Word>, v: int, edges: map<char, int>, d: char)
    requires 0 <= v < |words|
  {
    && (d in edges <==> Factor(s, words[v] + [d]))
    && (d in edges ==> 0 <= edges[d] < |words| && Extends(s, words[v] + [d], words[edges[d]]))
  }

  ghost predicate TransitionsOf(s: Word, words: seq<Word>, transitions: seq<map<char, int>>) {
    && |transitions| == |words|
    && forall v, d :: 0 <= v < |words| ==> StepsTo(s, words, v, transitions[v], d)
  }

  lemma EmptyText(w: Word)
    ensures Factor([], w) <==> w == []
  {
    if w == [] {
      assert EndsAt([], [], 0);
    }
  }

  lemma ExtendsItself(s: Word, w: Word)
    ensures Extends(s, w, w)
  {
    assert w[0..] == w;
  }

  /** The automaton of the empty text is the root alone. */
  lemma InitialStates()
    ensures StatesOf([], [[]]) && LinksOf([[]], [-1]) && TransitionsOf([], [[]], [map[]])
  {
    hide Factor, Extends, LinksTo;
    var words: seq<Word> := [[]];
    EmptyText([]);
    forall w | Factor([], w) ensures Covered([], words, w) {
      EmptyText(w);
      ExtendsItself([], words[0]);
    }
    forall v, e: char | 0 <= v < |words| ensures StepsTo([], words, v, [map[]][v], e) {
      EmptyText(words[v] + [e]);
    }
  }

  lemma Separate(s: Word, words: seq<Word>, t: int, v: int)
    requires StatesOf(s, words) && 0 <= t < |words| && 0 <= v < |words| && Extends(s, words[t], words[v])
    ensures t == v
  {
    hide Factor, Extends, Covered;
  }

  /** The state of a word is unique. */
  lemma StateUnique(s: Word, words: seq<Word>, w: Word, t: int, v: int)
    requires StatesOf(s, words)
    requires 0 <= t < |words| && 0 <= v < |words|
    requires Extends(s, w, words[t]) && Extends(s, w, words[v])
    ensures t == v
  {
    hide Factor, Extends, Covered, IsSuffix, StatesOf;
    ExtendsIsSuffix(s, w, words[t]);
    ExtendsIsSuffix(s, w, words[v]);
    StateIsFactor(s, words, t);
    StateIsFactor(s, words, v);
    if |words[t]| <= |words[v]| {
      ExtendsBetween(s, w, words[t], words[v]);
      Separate(s, words, t, v);
    } else {
      ExtendsBetween(s, w, words[v], words[t]);
      Separate(s, words, v, t);
    }
  }

  lemma StateOf(s: Word, words: seq<Word>, w: Word) returns (t: int)
    requires StatesOf(s, words) && Factor(s, w)
    ensures 0 <= t < |words| && Extends(s, w, words[t])
  {
    hide Extends, Factor;
    assert Covered(s, words, w);
    t :| 0 <= t < |words| && Extends(s, w, words[t]);
  }

  lemma StateIsFactor(s: Word, words: seq<Word>, v: int)
    requires StatesOf(s, words) && 0 <= v < |words|
    ensures Factor(s, words[v])
  {
    hide Factor, Extends, Covered;
  }

  lemma BorderIsFactor(s: Word, c: char, u: Word)
    requires Border(s, c, u)
    ensures Factor(s, u) && |u| <= |s|
  {
    BorderFacts(s, c, u);
  }

  /** The whole new text occurs nowhere in the old one. */
  lemma NewTextIsNew(s: Word, w: Word)
    requires |w| > |s|
    ensures !Factor(s, w)
  {
    hide IsSuffix;
  }

  /** A word of the old text either keeps its state, or it is a suffix of the border whose state
      is the border's old state, and the border is its new state. */
  lemma StateAfterGrowth(s: Word, c: char, words: seq<Word>, u: Word, target: int, w: Word, t: int)
    requires StatesOf(s, words) && Border(s, c, u)
    requires 0 <= target < |words| && Extends(s, u, words[target])
    requires Factor(s, w) && 0 <= t < |words| && Extends(s, w, words[t])
    ensures !IsSuffix(w, s + [c]) || IsSuffix(words[t], s + [c]) ==> Extends(s + [c], w, words[t])
    ensures IsSuffix(w, s + [c]) && !IsSuffix(words[t], s + [c])
        ==> t == target && words[t] != u && Extends(s + [c], w, u)
  {
    hide StatesOf, Border, Extends, Factor, IsSuffix;
    ExtendsIsSuffix(s, w, words[t]);
    ExtendsGrow(s, c, w, words[t]);
    if IsSuffix(w, s + [c]) && !IsSuffix(words[t], s + [c]) {
      BorderFacts(s, c, u);
      BorderLongest(s, c, u, w);
      SuffixesNest(w, u, s + [c]);
      LongerThanBorder(s, c, u, w, words[t]);
      ExtendsBetween(s, w, u, words[t]);
      StateUnique(s, words, u, t, target);
      ExtendsPart(s, w, u, words[t]);
      ExtendsGrow(s, c, w, u);
    }
  }

  /** What a suffix of the border extends to, off the new text, is longer than the border. */
  lemma LongerThanBorder(s: Word, c: char, u: Word, w: Word, x: Word)
    requires IsSuffix(u, s + [c]) && Factor(s, u) && IsSuffix(w, u) && Extends(s, w, x) && !IsSuffix(x, s + [c])
    ensures |x| > |u|
  {
    hide Extends, Factor, IsSuffix;
    if |x| <= |u| {
      ExtendsAtOccurrence(s, w, x, u);
      SuffixTransitive(x, u, s + [c]);
    }
  }

  /** A word that extends to `y` extends to every suffix of `y` in between. */
  lemma ExtendsPart(s: Word, w: Word, x: Word, y: Word)
    requires Extends(s, w, y) && IsSuffix(w, x) && Extends(s, x, y)
    ensures Extends(s, w, x)
  {
    hide IsSuffix, EndsAt;
    forall e | EndsAt(s, w, e) ensures EndsAt(s, x, e) {
      EndsSuffix(s, x, y, e);
    }
  }

  /** The words after one more character: the whole text is a new state, and so is the border
      unless it is a state already. */
  ghost function Grown(s: Word, c: char, words: seq<Word>, u: Word, clone: bool): seq<Word> {
    words + [s + [c]] + (if clone then [u] else [])
  }

  lemma GrownFactors(s: Word, c: char, words: seq<Word>, u: Word, clone: bool, v: int)
    requires StatesOf(s, words) && Border(s, c, u)
    requires 0 <= v < |Grown(s, c, words, u, clone)|
    ensures Factor(s + [c], Grown(s, c, words, u, clone)[v])
  {
    hide StatesOf, Border, Factor;
    var words' := Grown(s, c, words, u, clone);
    FactorGrow(s, c, words'[v]);
    if v < |words| {
      StateIsFactor(s, words, v);
    } else if v == |words| + 1 {
      BorderIsFactor(s, c, u);
    }
  }

  lemma GrownCovers(s: Word, c: char, words: seq<Word>, u: Word, target: int, clone: bool, w: Word)
    requires StatesOf(s, words) && Border(s, c, u)
    requires 0 <= target < |words| && Extends(s, u, words[target])
    requires clone <==> words[target] != u
    requires Factor(s + [c], w)
    ensures Covered(s + [c], Grown(s, c, words, u, clone), w)
  {
    hide StatesOf, Border, Extends, Factor, IsSuffix;
    var words' := Grown(s, c, words, u, clone);
    FactorGrow(s, c, w);
    if Factor(s, w) {
      var t := StateOf(s, words, w);
      StateAfterGrowth(s, c, words, u, target, w, t);
      assert words'[t] == words[t];
      if IsSuffix(w, s + [c]) && !IsSuffix(words[t], s + [c]) {
        assert words'[|words| + 1] == u;
      }
    } else {
      NewWordsState(s, c, w);
      assert words'[|words|] == s + [c];
    }
  }

  /** No word of the old text always extends to the whole new text, nor the other way round. */
  lemma TextApart(s: Word, c: char, x: Word)
    requires Factor(s, x)
    ensures !Extends(s + [c], x, s + [c]) && !Extends(s + [c], s + [c], x)
  {
    hide Factor, Extends, IsSuffix;
    FactorLength(s, x);
    if Extends(s + [c], x, s + [c]) {
      ExtendsIsSuffix(s + [c], x, s + [c]);
      ExtendsGrow(s, c, x, s + [c]);
      ExtendsIsSuffix(s, x, s + [c]);
      FactorLength(s, s + [c]);
    }
    if Extends(s + [c], s + [c], x) {
      ExtendsIsSuffix(s + [c], s + [c], x);
    }
  }

  /** A border that is split off neither extends to an old state nor is what one extends to. */
  lemma CloneApart(s: Word, c: char, words: seq<Word>, u: Word, target: int, t: int)
    requires StatesOf(s, words) && Border(s, c, u)
    requires 0 <= target < |words| && Extends(s, u, words[target]) && words[target] != u
    requires 0 <= t < |words|
    ensures !Extends(s + [c], words[t], u) && !Extends(s + [c], u, words[t])
  {
    hide Factor, Extends, IsSuffix, StatesOf, Border;
    var x := words[target];
    ExtendsIsSuffix(s, u, x);
    SuffixLength(u, x);
    if Extends(s + [c], words[t], u) {
      ExtendsIsSuffix(s + [c], words[t], u);
      ExtendsGrow(s, c, words[t], u);
      ExtendsTransitive(s, words[t], u, x);
      Separate(s, words, t, target);
    }
    if Extends(s + [c], u, words[t]) {
      ExtendsIsSuffix(s + [c], u, words[t]);
      ExtendsGrow(s, c, u, words[t]);
      StateUnique(s, words, u, t, target);
      BorderFacts(s, c, u);
      StateIsFactor(s, words, t);
      BorderLongest(s, c, u, words[t]);
    }
  }

  lemma GrownSeparate(s: Word, c: char, words: seq<Word>, u: Word, target: int, clone: bool, t: int, v: int)
    requires StatesOf(s, words) && Border(s, c, u)
    requires 0 <= target < |words| && Extends(s, u, words[target])
    requires clone <==> words[target] != u
    requires 0 <= t < |Grown(s, c, words, u, clone)| && 0 <= v < |Grown(s, c, words, u, clone)|
    requires Extends(s + [c], Grown(s, c, words, u, clone)[t], Grown(s, c, words, u, clone)[v])
    ensures t == v
  {
    hide Factor, Extends, IsSuffix, StatesOf, Border;
    var words', n := Grown(s, c, words, u, clone), |words|;
    BorderFacts(s, c, u);
    if t < n && v < n {
      ExtendsIsSuffix(s + [c], words[t], words[v]);
      ExtendsGrow(s, c, words[t], words[v]);
      Separate(s, words, t, v);
    } else if t == n && v < n {
      StateIsFactor(s, words, v);
      TextApart(s, c, words[v]);
    } else if t < n && v == n {
      StateIsFactor(s, words, t);
      TextApart(s, c, words[t]);
    } else if (t == n && v == n + 1) || (t == n + 1 && v == n) {
      TextApart(s, c, u);
    } else if t == n + 1 && v < n {
      CloneApart(s, c, words, u, target, v);
    } else if t < n && v == n + 1 {
      CloneApart(s, c, words, u, target, t);
    }
  }

  /** Extending the text by one character keeps the states in step with the text. */
  lemma StatesGrow(s: Word, c: char, words: seq<Word>, u: Word, target: int, clone: bool)
    requires StatesOf(s, words) && Border(s, c, u)
    requires 0 <= target < |words| && Extends(s, u, words[target])
    requires clone <==> words[target] != u
    ensures StatesOf(s + [c], Grown(s, c, words, u, clone))
  {
    hide Factor, Extends, Border;
    var words' := Grown(s, c, words, u, clone);
    forall v | 0 <= v < |words'| ensures Factor(s + [c], words'[v]) {
      GrownFactors(s, c, words, u, clone, v);
    }
    forall t, v | 0 <= t < |words'| && 0 <= v < |words'| && Extends(s + [c], words'[t], words'[v])
      ensures t == v
    {
      GrownSeparate(s, c, words, u, target, clone, t, v);
    }
    forall w | Factor(s + [c], w) ensures Covered(s + [c], words', w) {
      GrownCovers(s, c, words, u, target, clone, w);
    }
  }

  /** The links after one more character. */
  ghost function GrownLinks(links: seq<int>, target: int, clone: bool): seq<int>
    requires 0 <= target < |links|
  {
    var n := |links|;
    if clone then links[target := n + 1] + [n + 1] + [links[target]] else links + [target]
  }

  /** A state whose word lies strictly between the border and its old state would not be separate. */
  lemma NothingBetween(s: Word, words: seq<Word>, u: Word, target: int, v: int)
    requires StatesOf(s, words)
    requires 0 <= target < |words| && Extends(s, u, words[target])
    requires 0 <= v < |words| && IsSuffix(u, words[v]) && |words[v]| <= |words[target]|
    ensures v == target
  {
    hide Factor, Extends, IsSuffix, StatesOf;
    StateIsFactor(s, words, v);
    ExtendsBetween(s, u, words[v], words[target]);
    Separate(s, words, v, target);
  }

  /** A state that has the border as a suffix, and is not its state, has its state as a suffix. */
  lemma BeyondBorder(s: Word, words: seq<Word>, u: Word, target: int, v: int)
    requires StatesOf(s, words) && 0 <= target < |words| && Extends(s, u, words[target])
    requires 0 <= v < |words| && v != target && IsSuffix(u, words[v])
    ensures IsSuffix(words[target], words[v]) && |words[target]| < |words[v]|
  {
    hide Factor, Extends, IsSuffix, StatesOf;
    if |words[v]| <= |words[target]| {
      NothingBetween(s, words, u, target, v);
    }
    StateIsFactor(s, words, v);
    ExtendsAtOccurrence(s, u, words[target], words[v]);
  }

  lemma ExtendsAtOccurrence(s: Word, u: Word, x: Word, y: Word)
    requires Extends(s, u, x) && IsSuffix(u, y) && Factor(s, y) && |x| <= |y|
    ensures IsSuffix(x, y)
  {
    hide IsSuffix, EndsAt;
    var e :| EndsAt(s, y, e);
    EndsSuffix(s, u, y, e);
    EndsNest(s, x, y, e);
  }

  lemma LinkIsLongest(words: seq<Word>, links: seq<int>, v: int, t: int)
    requires LinksOf(words, links) && 1 <= v < |words| && 0 <= t < |words|
    requires IsSuffix(words[t], words[v]) && |words[t]| < |words[v]|
    ensures 0 <= links[v] < |words| && |words[t]| <= |words[links[v]]|
  {
    hide IsSuffix;
    assert LinksTo(words, v, links[v]);
  }

  lemma LinkFacts(words: seq<Word>, links: seq<int>, v: int)
    requires LinksOf(words, links) && 1 <= v < |words|
    ensures |links| == |words| && 0 <= links[v] < |words| && IsSuffix(words[links[v]], words[v]) && |words[links[v]]| < |words[v]|
  {
    hide IsSuffix;
    assert LinksTo(words, v, links[v]);
  }

  /** Old states other than the border's keep their links. */
  lemma OldLinkGrows(s: Word, c: char, words: seq<Word>, links: seq<int>, u: Word, target: int, clone: bool, v: int)
    requires StatesOf(s, words) && LinksOf(words, links) && Border(s, c, u)
    requires 0 <= target < |words| && Extends(s, u, words[target])
    requires clone <==> words[target] != u
    requires 1 <= v < |words| && !(clone && v == target)
    ensures LinksTo(Grown(s, c, words, u, clone), v, links[v])
  {
    hide StatesOf, LinksOf, Border, Extends, Factor, IsSuffix;
    var words' := Grown(s, c, words, u, clone);
    LinkFacts(words, links, v);
    StateIsFactor(s, words, v);
    FactorLength(s, words[v]);
    ExtendsIsSuffix(s, u, words[target]);
    forall t | 0 <= t < |words'| && IsSuffix(words'[t], words'[v]) && |words'[t]| < |words'[v]|
      ensures |words'[t]| <= |words'[links[v]]|
    {
      if t < |words| {
        LinkIsLongest(words, links, v, t);
      } else if t == |words| + 1 {
        BeyondBorder(s, words, u, target, v);
        LinkIsLongest(words, links, v, target);
      }
    }
  }

  /** The border, once it is a state, is where the new text links to. */
  lemma NewTextLinks(s: Word, c: char, words: seq<Word>, u: Word, target: int, clone: bool)
    requires StatesOf(s, words) && Border(s, c, u)
    requires 0 <= target < |words| && Extends(s, u, words[target])
    requires clone <==> words[target] != u
    ensures LinksTo(Grown(s, c, words, u, clone), |words|, if clone then |words| + 1 else target)
  {
    hide StatesOf, Border, Extends, Factor, IsSuffix;
    var words', n := Grown(s, c, words, u, clone), |words|;
    var link := if clone then n + 1 else target;
    assert words'[link] == u && words'[n] == s + [c];
    BorderFacts(s, c, u);
    forall t | 0 <= t < |words'| && IsSuffix(words'[t], words'[n]) && |words'[t]| < |words'[n]|
      ensures |words'[t]| <= |words'[link]|
    {
      if t < n {
        StateIsFactor(s, words, t);
        BorderLongest(s, c, u, words[t]);
      }
    }
  }

  /** The state that is split links to the clone. */
  lemma SplitStateLinks(s: Word, c: char, words: seq<Word>, u: Word, target: int)
    requires StatesOf(s, words)
    requires 0 <= target < |words| && Extends(s, u, words[target]) && words[target] != u
    ensures LinksTo(Grown(s, c, words, u, true), target, |words| + 1)
  {
    hide StatesOf, Extends, Factor, IsSuffix;
    var words' := Grown(s, c, words, u, true);
    var x := words[target];
    assert words'[target] == x && words'[|words| + 1] == u;
    StateIsFactor(s, words, target);
    FactorLength(s, x);
    ExtendsIsSuffix(s, u, x);
    SuffixLength(u, x);
    forall t | 0 <= t < |words'| && IsSuffix(words'[t], x) && |words'[t]| < |x| ensures |words'[t]| <= |u| {
      if t < |words| && |words[t]| > |u| {
        SuffixesNest(u, words[t], x);
        NothingBetween(s, words, u, target, t);
      }
    }
  }

  /** The clone takes over the link of the state it splits. */
  lemma CloneLinks(s: Word, c: char, words: seq<Word>, link: int, u: Word, target: int)
    requires StatesOf(s, words) && |u| <= |s|
    requires 0 <= target < |words| && Extends(s, u, words[target]) && words[target] != u
    requires LinksTo(words, target, link)
    ensures LinksTo(Grown(s, c, words, u, true), |words| + 1, link)
  {
    hide StatesOf, Extends, Factor, IsSuffix;
    var words' := Grown(s, c, words, u, true);
    var x := words[target];
    assert words'[|words| + 1] == u;
    ExtendsIsSuffix(s, u, x);
    LinkBelow(s, words, link, u, target);
    SuffixesNest(words[link], u, x);
    forall t | 0 <= t < |words'| && IsSuffix(words'[t], u) && |words'[t]| < |u|
      ensures |words'[t]| <= |words[link]|
    {
      if t < |words| {
        SuffixTransitive(words[t], u, x);
      }
    }
  }

  /** The link of the state that is split lies below the border. */
  lemma LinkBelow(s: Word, words: seq<Word>, link: int, u: Word, target: int)
    requires StatesOf(s, words) && 0 <= target < |words| && Extends(s, u, words[target]) && LinksTo(words, target, link)
    ensures |words[link]| < |u|
  {
    hide StatesOf, Extends, Factor, IsSuffix;
    if |words[link]| >= |u| {
      ExtendsIsSuffix(s, u, words[target]);
      SuffixesNest(u, words[link], words[target]);
      NothingBetween(s, words, u, target, link);
    }
  }

  lemma SplitIsNotRoot(s: Word, words: seq<Word>, u: Word, target: int)
    requires StatesOf(s, words) && 0 <= target < |words| && Extends(s, u, words[target]) && words[target] != u
    ensures target >= 1
  {
    hide Factor, Covered;
    ExtendsIsSuffix(s, u, words[target]);
    SuffixLength(u, words[target]);
  }

  /** Extending the text keeps every link on the longest proper suffix state. */
  lemma LinksGrow(s: Word, c: char, words: seq<Word>, links: seq<int>, u: Word, target: int, clone: bool)
    requires StatesOf(s, words) && LinksOf(words, links) && Border(s, c, u)
    requires 0 <= target < |words| && Extends(s, u, words[target])
    requires clone <==> words[target] != u
    ensures LinksOf(Grown(s, c, words, u, clone), GrownLinks(links, target, clone))
  {
    hide StatesOf, LinksTo, Border, Extends;
    var words' := Grown(s, c, words, u, clone);
    var links' := GrownLinks(links, target, clone);
    if clone {
      SplitIsNotRoot(s, words, u, target);
      BorderIsFactor(s, c, u);
      SplitStateLinks(s, c, words, u, target);
      CloneLinks(s, c, words, links[target], u, target);
    }
    NewTextLinks(s, c, words, u, target, clone);
    forall v | 1 <= v < |words'| ensures LinksTo(words', v, links'[v]) {
      if v < |words| && !(clone && v == target) {
        OldLinkGrows(s, c, words, links, u, target, clone, v);
      }
    }
  }

  /** What the two walks along the suffix links make of the transitions of old state `v`: a suffix
      of the text without a `c`-transition gets one to the new text's state `n`, and one whose
      `c`-transition led to the state that is split is redirected to the clone, `n + 1`. */
  ghost function GrownEdges(s: Word, c: char, word: Word, edges: map<char, int>, n: int, target: int, clone: bool)
    : map<char, int>
  {
    if !IsSuffix(word, s) then edges
    else if c !in edges then edges[c := n]
    else if clone && edges[c] == target then edges[c := n + 1]
    else edges
  }

  /** A word of the new text that the old text lacks belongs to the state of the new text. */
  lemma NewWordsState(s: Word, c: char, w: Word)
    requires !Factor(s, w) && IsSuffix(w, s + [c])
    ensures Extends(s + [c], w, s + [c])
  {
    forall e | EndsAt(s + [c], w, e) ensures EndsAt(s + [c], s + [c], e) {
      EndsGrow(s, c, w, e);
      assert !EndsAt(s, w, e);
    }
  }

  lemma OldEdgesGrow(s: Word, c: char, words: seq<Word>, edges: map<char, int>, u: Word, target: int, clone: bool,
                     v: int, d: char)
    requires StatesOf(s, words) && Border(s, c, u)
    requires 0 <= target < |words| && Extends(s, u, words[target])
    requires clone <==> words[target] != u
    requires 0 <= v < |words| && StepsTo(s, words, v, edges, d)
    ensures StepsTo(s + [c], Grown(s, c, words, u, clone), v,
                    GrownEdges(s, c, words[v], edges, |words|, target, clone), d)
  {
    hide StatesOf, Border, Extends, Factor, IsSuffix;
    var words' := Grown(s, c, words, u, clone);
    var edges' := GrownEdges(s, c, words[v], edges, |words|, target, clone);
    var w := words[v] + [d];
    assert words'[v] == words[v];
    FactorGrow(s, c, w);
    SuffixSnoc(words[v], d, s, c);
    if Factor(s, w) {
      StateAfterGrowth(s, c, words, u, target, w, edges[d]);
      SplitStateOffText(s, c, words, u, target);
      assert words'[edges'[d]] == if edges'[d] == |words| + 1 then u else words[edges[d]];
    } else if IsSuffix(w, s + [c]) {
      NewWordsState(s, c, w);
      assert words'[edges'[d]] == s + [c];
    }
  }

  /** A state that has to be split is no suffix of the new text. */
  lemma SplitStateOffText(s: Word, c: char, words: seq<Word>, u: Word, target: int)
    requires StatesOf(s, words) && Border(s, c, u)
    requires 0 <= target < |words| && Extends(s, u, words[target])
    ensures words[target] != u ==> !IsSuffix(words[target], s + [c])
  {
    hide StatesOf, Border, Extends, Factor, IsSuffix;
    ExtendsIsSuffix(s, u, words[target]);
    SuffixLength(u, words[target]);
    StateIsFactor(s, words, target);
    if IsSuffix(words[target], s + [c]) {
      BorderLongest(s, c, u, words[target]);
    }
  }

  /** Before the last position of the new text, the border is always followed by what follows its
      old state. */
  lemma SameFollowers(s: Word, c: char, u: Word, x: Word, d: char)
    requires Extends(s, u, x)
    ensures Extends(s + [c], u + [d], x + [d])
    ensures Factor(s + [c], u + [d]) <==> Factor(s + [c], x + [d])
  {
    SuffixSnoc(u, d, x, d);
    forall e | EndsAt(s + [c], u + [d], e) ensures EndsAt(s + [c], x + [d], e) {
      EndsSnoc(s + [c], u, d, e);
      EndsSnoc(s + [c], x, d, e);
      EndsGrow(s, c, u, e - 1);
      EndsGrow(s, c, x, e - 1);
    }
    if Factor(s + [c], x + [d]) {
      FactorOfSuffix(s + [c], u + [d], x + [d]);
    }
  }

  /** The clone may copy the transitions of the state it splits. */
  lemma CloneEdgesGrow(s: Word, c: char, words: seq<Word>, u: Word, target: int, edges: map<char, int>, d: char)
    requires 0 <= target < |words| && Extends(s, u, words[target])
    requires StepsTo(s + [c], Grown(s, c, words, u, true), target, edges, d)
    ensures StepsTo(s + [c], Grown(s, c, words, u, true), |words| + 1, edges, d)
  {
    var words' := Grown(s, c, words, u, true);
    var x := words[target];
    assert words'[target] == x && words'[|words| + 1] == u;
    SameFollowers(s, c, u, x, d);
    if d in edges {
      ExtendsTransitive(s + [c], u + [d], x + [d], words'[edges[d]]);
    }
  }

  ghost function GrownTransitions(s: Word, c: char, words: seq<Word>, transitions: seq<map<char, int>>,
                                  target: int, clone: bool): seq<map<char, int>>
    requires |words| == |transitions| && 0 <= target < |words|
  {
    var n := |words|;
    seq(n, v requires 0 <= v < n => GrownEdges(s, c, words[v], transitions[v], n, target, clone))
    + [map[]]
    + (if clone then [GrownEdges(s, c, words[target], transitions[target], n, target, clone)] else [])
  }

  /** Extending the text keeps every transition exact. */
  lemma TransitionsGrow(s: Word, c: char, words: seq<Word>, transitions: seq<map<char, int>>, u: Word, target: int,
                        clone: bool)
    requires StatesOf(s, words) && TransitionsOf(s, words, transitions) && Border(s, c, u)
    requires 0 <= target < |words| && Extends(s, u, words[target])
    requires clone <==> words[target] != u
    ensures TransitionsOf(s + [c], Grown(s, c, words, u, clone),
                          GrownTransitions(s, c, words, transitions, target, clone))
  {
    hide StatesOf, Border, Extends, Factor, GrownEdges;
    var words' := Grown(s, c, words, u, clone);
    var transitions' := GrownTransitions(s, c, words, transitions, target, clone);
    forall v, d | 0 <= v < |words'| ensures StepsTo(s + [c], words', v, transitions'[v], d) {
      if v < |words| {
        OldEdgesGrow(s, c, words, transitions[v], u, target, clone, v, d);
      } else if v == |words| {
        NewTextIsNew(s + [c], words'[v] + [d]);
      } else {
        OldEdgesGrow(s, c, words, transitions[target], u, target, clone, target, d);
        CloneEdgesGrow(s, c, words, u, target, transitions'[v], d);
      }
    }
  }
}
