/** The online construction of the suffix automaton: one character at a time, two walks along the
    suffix links, and a clone when a state has to be split. */
module SuffixAutomaton {
  import opened Words
  import opened AutomatonStates

  /** The automaton's tables. The i-th entry of each belongs to state i; state 0 is the root. */
  datatype Automaton = Automaton(
    transitions: seq<map<char, int>>, links: seq<int>, lengths: seq<int>, occurrences: seq<int>)

  /** A state's length is that of its longest word, and it starts with one occurrence exactly when
      that word is a non-empty prefix of the text. */
  ghost predicate CountsOf(s: Word, words: seq<Word>, lengths: seq<int>, occurrences: seq<int>) {
    && |lengths| == |occurrences| == |words|
    && (forall v :: 0 <= v < |words| ==> lengths[v] == |words[v]|)
    && (forall v :: 0 <= v < |words| ==>
          occurrences[v] == if words[v] != [] && words[v] <= s then 1 else 0)
  }

  /** The tables are the automaton of `s`, and `last` is the state of the whole text. */
  ghost predicate Represents(a: Automaton, last: int, s: Word, words: seq<Word>) {
    && StatesOf(s, words)
    && LinksOf(words, a.links)
    && TransitionsOf(s, words, a.transitions)
    && CountsOf(s, words, a.lengths, a.occurrences)
    && 0 <= last < |words|
    && words[last] == s
    && |words| <= 2 * |s| + 1
  }

  /** The tables are the automaton of `s` under some numbering of its states. */
  ghost predicate IsAutomatonOf(a: Automaton, last: int, s: Word) {
    exists words :: Represents(a, last, s, words)
  }

  ghost function Depth(words: seq<Word>, state: int): int
    requires state < |words|
  {
    if state < 0 then -1 else |words[state]|
  }

  /** The states whose words are suffixes of the text are exactly those on its chain of links. */
  lemma ChainStep(s: Word, words: seq<Word>, links: seq<int>, state: int, v: int)
    requires StatesOf(s, words) && LinksOf(words, links)
    requires 0 <= state < |words| && IsSuffix(words[state], s)
    requires 0 <= v < |words| && IsSuffix(words[v], s) && |words[v]| <= |words[state]|
    ensures -1 <= links[state] < |words|
    ensures v == state || |words[v]| <= Depth(words, links[state])
  {
  }

  lemma LinkIsSuffix(s: Word, words: seq<Word>, links: seq<int>, state: int)
    requires LinksOf(words, links) && 0 <= state < |words| && IsSuffix(words[state], s)
    ensures -1 <= links[state] < |words|
    ensures Depth(words, links[state]) < |words[state]|
    ensures links[state] >= 0 ==> IsSuffix(words[links[state]], s)
  {
  }

  /** Where the first walk stops, the border has been found. */
  lemma WalkFindsBorder(s: Word, words: seq<Word>, transitions: seq<map<char, int>>, c: char, state: int)
    requires StatesOf(s, words) && TransitionsOf(s, words, transitions)
    requires -1 <= state < |words|
    requires state >= 0 ==> IsSuffix(words[state], s) && c in transitions[state]
    requires forall v :: 0 <= v < |words| && IsSuffix(words[v], s) && |words[v]| > Depth(words, state)
                 ==> c !in transitions[v]
    ensures Border(s, c, if state < 0 then [] else words[state] + [c])
  {
    hide StatesOf;
    var u := if state < 0 then [] else words[state] + [c];
    assert EndsAt(s, [], 0);
    if state >= 0 {
      SuffixSnoc(words[state], c, s, c);
      assert StepsTo(s, words, state, transitions[state], c);
    }
    forall w | IsSuffix(w, s + [c]) && Factor(s, w) ensures |w| <= |u| {
      if |w| > |u| {
        var q := w[..|w| - 1];
        assert w == q + [w[|w| - 1]];
        SuffixSnoc(q, w[|w| - 1], s, c);
        LongerBorderSteps(s, words, transitions, c, q, Depth(words, state));
      }
    }
  }

  /** A longer border would have shown up as a transition of a longer suffix state. */
  lemma LongerBorderSteps(s: Word, words: seq<Word>, transitions: seq<map<char, int>>, c: char, q: Word, depth: int)
    requires StatesOf(s, words) && TransitionsOf(s, words, transitions)
    requires IsSuffix(q, s) && Factor(s, q + [c]) && |q| > depth
    ensures exists t :: 0 <= t < |words| && IsSuffix(words[t], s) && |words[t]| > depth && c in transitions[t]
  {
    hide StatesOf;
    assert EndsAt(s, q, |s|);
    var t := StateOf(s, words, q);
    assert EndsAt(s, words[t], |s|);
    ExtendsSnoc(s, q, words[t], c);
    var e :| EndsAt(s, q + [c], e);
    assert EndsAt(s, words[t] + [c], e);
    assert StepsTo(s, words, t, transitions[t], c);
  }

  /** Among the suffix states below the border, those that step to the border's state come first. */
  lemma RedirectsAreConsecutive(s: Word, words: seq<Word>, transitions: seq<map<char, int>>, c: char,
                                p: int, target: int, v: int, v': int)
    requires StatesOf(s, words) && TransitionsOf(s, words, transitions)
    requires 0 <= p < |words| && IsSuffix(words[p], s) && c in transitions[p] && transitions[p][c] == target
    requires 0 <= v < |words| && IsSuffix(words[v], s)
    requires 0 <= v' < |words| && IsSuffix(words[v'], s)
    requires |words[v']| <= |words[v]| <= |words[p]|
    requires c in transitions[v'] && transitions[v'][c] == target
    ensures c in transitions[v] && transitions[v][c] == target
  {
    assert StepsTo(s, words, p, transitions[p], c);
    assert StepsTo(s, words, v, transitions[v], c);
    assert StepsTo(s, words, v', transitions[v'], c);
    SuffixesNest(words[v], words[p], s);
    SuffixesNest(words[v'], words[v], s);
    SuffixSnoc(words[v], c, words[p], c);
    SuffixSnoc(words[v'], c, words[v], c);
    FactorOfSuffix(s, words[v] + [c], words[p] + [c]);
    ExtendsBetween(s, words[v'] + [c], words[v] + [c], words[target]);
    StateUnique(s, words, words[v] + [c], target, transitions[v][c]);
  }

  /** First walk: give every suffix of the text without a `c`-transition one to the new state. */
  method AddTransitions(transitions: seq<map<char, int>>, links: seq<int>, last: int, c: char,
                        ghost s: Word, ghost words: seq<Word>)
    returns (transitions': seq<map<char, int>>, state: int)
    requires StatesOf(s, words) && LinksOf(words, links) && TransitionsOf(s, words, transitions)
    requires |transitions| == |words|
    requires 0 <= last < |words| && words[last] == s
    ensures |transitions'| == |words| && -1 <= state < |words|
    ensures forall v :: 0 <= v < |words| ==>
              transitions'[v] == GrownEdges(s, c, words[v], transitions[v], |words|, 0, false)
    ensures state >= 0 ==> IsSuffix(words[state], s) && c in transitions[state] && transitions'[state] == transitions[state]
    ensures forall v :: 0 <= v < |words| && IsSuffix(words[v], s) && |words[v]| > Depth(words, state)
              ==> c !in transitions[v]
    ensures Border(s, c, if state < 0 then [] else words[state] + [c])
  {
    hide StatesOf, TransitionsOf;
    transitions', state := transitions, last;
    var current := |transitions|;
    while state >= 0 && c !in transitions'[state]
      invariant |transitions'| == |words| && -1 <= state < |words|
      invariant state >= 0 ==> IsSuffix(words[state], s)
      invariant forall v :: 0 <= v < |words| ==>
                  transitions'[v] == if IsSuffix(words[v], s) && |words[v]| > Depth(words, state)
                                     then transitions[v][c := current] else transitions[v]
      invariant forall v :: 0 <= v < |words| && IsSuffix(words[v], s) && |words[v]| > Depth(words, state)
                  ==> c !in transitions[v]
      decreases Depth(words, state)
    {
      LinkIsSuffix(s, words, links, state);
      forall v | 0 <= v < |words| && IsSuffix(words[v], s) && |words[v]| > Depth(words, links[state])
        ensures v == state || |words[v]| > |words[state]|
      {
        if |words[v]| <= |words[state]| {
          ChainStep(s, words, links, state, v);
        }
      }
      transitions' := transitions'[state := transitions'[state][c := current]];
      state := links[state];
    }
    WalkFindsBorder(s, words, transitions, c, state);
    forall v | 0 <= v < |words|
      ensures transitions'[v] == GrownEdges(s, c, words[v], transitions[v], |words|, 0, false)
    {
      if state >= 0 && IsSuffix(words[v], s) && |words[v]| <= |words[state]| {
        SuffixStatesStep(s, words, transitions, c, state, v);
      }
    }
  }

  lemma SuffixStatesStep(s: Word, words: seq<Word>, transitions: seq<map<char, int>>, c: char, p: int, v: int)
    requires TransitionsOf(s, words, transitions)
    requires 0 <= p < |words| && IsSuffix(words[p], s) && c in transitions[p]
    requires 0 <= v < |words| && IsSuffix(words[v], s) && |words[v]| <= |words[p]|
    ensures c in transitions[v]
  {
    assert StepsTo(s, words, p, transitions[p], c);
    assert StepsTo(s, words, v, transitions[v], c);
    SuffixesNest(words[v], words[p], s);
    SuffixSnoc(words[v], c, words[p], c);
    FactorOfSuffix(s, words[v] + [c], words[p] + [c]);
  }

  /** Second walk: suffixes that stepped to the state that is split now step to its clone. */
  method RedirectTransitions(transitions: seq<map<char, int>>, links: seq<int>, p: int, c: char, target: int,
                             ghost s: Word, ghost words: seq<Word>, ghost original: seq<map<char, int>>)
    returns (transitions': seq<map<char, int>>)
    requires StatesOf(s, words) && LinksOf(words, links) && TransitionsOf(s, words, original)
    requires |original| == |words|
    requires |transitions| == |words| + 2
    requires forall v :: 0 <= v < |words| ==>
               transitions[v] == GrownEdges(s, c, words[v], original[v], |words|, target, false)
    requires 0 <= p < |words| && IsSuffix(words[p], s) && c in original[p] && original[p][c] == target
    requires 0 <= target < |words|
    requires forall v :: 0 <= v < |words| && IsSuffix(words[v], s) && |words[v]| > |words[p]| ==> c !in original[v]
    ensures |transitions'| == |words| + 2
    ensures transitions'[|words|] == transitions[|words|] && transitions'[|words| + 1] == transitions[|words| + 1]
    ensures forall v :: 0 <= v < |words| ==>
              transitions'[v] == GrownEdges(s, c, words[v], original[v], |words|, target, true)
  {
    hide StatesOf, TransitionsOf;
    transitions' := transitions;
    var state := p;
    var clone := |transitions| - 1;
    while state >= 0 && c in transitions'[state] && transitions'[state][c] == target
      invariant |transitions'| == |words| + 2 && -1 <= state < |words|
      invariant state >= 0 ==> IsSuffix(words[state], s) && |words[state]| <= |words[p]|
      invariant transitions'[|words|] == transitions[|words|] && transitions'[|words| + 1] == transitions[|words| + 1]
      invariant forall v :: 0 <= v < |words| ==>
                  transitions'[v] == GrownEdges(s, c, words[v], original[v], |words|, target, |words[v]| > Depth(words, state))
      decreases Depth(words, state)
    {
      LinkIsSuffix(s, words, links, state);
      forall v | 0 <= v < |words| && IsSuffix(words[v], s) && |words[v]| > Depth(words, links[state])
        ensures v == state || |words[v]| > |words[state]|
      {
        if |words[v]| <= |words[state]| {
          ChainStep(s, words, links, state, v);
        }
      }
      SuffixStatesStep(s, words, original, c, p, state);
      transitions' := transitions'[state := transitions'[state][c := clone]];
      state := links[state];
    }
    forall v | 0 <= v < |words|
      ensures transitions'[v] == GrownEdges(s, c, words[v], original[v], |words|, target, true)
    {
      if state >= 0 && IsSuffix(words[v], s) && |words[v]| <= |words[state]| && c in original[v] && original[v][c] == target {
        SuffixStatesStep(s, words, original, c, p, state);
        RedirectsAreConsecutive(s, words, original, c, p, target, state, v);
      }
    }
  }

  lemma PrefixAfterGrowth(s: Word, c: char, w: Word)
    requires Factor(s, w)
    ensures w <= s <==> w <= s + [c]
  {
  }

  /** A prefix of the text is the longest word of its state, so a clone is never one. */
  lemma CloneIsNoPrefix(s: Word, c: char, u: Word, x: Word)
    requires Factor(s, u) && Extends(s, u, x) && x != u
    ensures u != [] ==> !(u <= s + [c])
  {
    PrefixAfterGrowth(s, c, u);
    assert u <= s ==> EndsAt(s, u, |u|);
  }

  /** The counts after one more character. */
  lemma CountsGrow(s: Word, c: char, words: seq<Word>, lengths: seq<int>, occurrences: seq<int>, u: Word,
                   target: int, clone: bool)
    requires StatesOf(s, words) && CountsOf(s, words, lengths, occurrences)
    requires Border(s, c, u) && 0 <= target < |words| && Extends(s, u, words[target])
    requires clone <==> words[target] != u
    ensures CountsOf(s + [c], Grown(s, c, words, u, clone),
                     lengths + [|s| + 1] + (if clone then [|u|] else []),
                     occurrences + [1] + (if clone then [0] else []))
  {
    hide StatesOf, Border, Extends, Factor;
    forall v | 0 <= v < |words| ensures words[v] <= s <==> words[v] <= s + [c] {
      StateIsFactor(s, words, v);
      PrefixAfterGrowth(s, c, words[v]);
    }
    if clone {
      BorderIsFactor(s, c, u);
      CloneIsNoPrefix(s, c, u, words[target]);
    }
  }

  /** The tables after one more character. */
  ghost function GrownTables(a: Automaton, s: Word, c: char, words: seq<Word>, u: Word, target: int, clone: bool)
    : Automaton
    requires |a.transitions| == |words| == |a.links| && 0 <= target < |words|
  {
    Automaton(GrownTransitions(s, c, words, a.transitions, target, clone),
              GrownLinks(a.links, target, clone),
              a.lengths + [|s| + 1] + (if clone then [|u|] else []),
              a.occurrences + [1] + (if clone then [0] else []))
  }

  lemma TablesGrow(a: Automaton, last: int, s: Word, c: char, words: seq<Word>, u: Word, target: int, clone: bool)
    requires Represents(a, last, s, words) && Border(s, c, u)
    requires 0 <= target < |words| && Extends(s, u, words[target])
    requires clone <==> words[target] != u
    ensures Represents(GrownTables(a, s, c, words, u, target, clone), |words|, s + [c], Grown(s, c, words, u, clone))
  {
    hide StatesOf, TransitionsOf, CountsOf, Border, Extends;
    StatesGrow(s, c, words, u, target, clone);
    LinksGrow(s, c, words, a.links, u, target, clone);
    TransitionsGrow(s, c, words, a.transitions, u, target, clone);
    CountsGrow(s, c, words, a.lengths, a.occurrences, u, target, clone);
  }

  lemma TransitionsMatch(s: Word, c: char, words: seq<Word>, transitions: seq<map<char, int>>, target: int, clone: bool,
                         grown: seq<map<char, int>>)
    requires |words| == |transitions| && 0 <= target < |words|
    requires |grown| == |words| + if clone then 2 else 1
    requires forall v :: 0 <= v < |words| ==>
               grown[v] == GrownEdges(s, c, words[v], transitions[v], |words|, target, clone)
    requires grown[|words|] == map[]
    requires clone ==> grown[|words| + 1] == grown[target]
    ensures grown == GrownTransitions(s, c, words, transitions, target, clone)
  {
  }

  /** The state reached from the border's own suffix state is the border's state. */
  lemma TargetOfBorder(s: Word, words: seq<Word>, transitions: seq<map<char, int>>, state: int, c: char)
    requires TransitionsOf(s, words, transitions) && 0 <= state < |words| && c in transitions[state]
    ensures 0 <= transitions[state][c] < |words|
    ensures Extends(s, words[state] + [c], words[transitions[state][c]])
    ensures |words[transitions[state][c]]| == |words[state]| + 1 <==> words[transitions[state][c]] == words[state] + [c]
  {
    assert StepsTo(s, words, state, transitions[state], c);
  }

  lemma NoTransitionBack(s: Word, words: seq<Word>, transitions: seq<map<char, int>>, state: int, c: char)
    requires TransitionsOf(s, words, transitions) && 0 <= state < |words| && c in transitions[state]
    ensures transitions[state][c] != state
  {
    assert StepsTo(s, words, state, transitions[state], c);
  }

  lemma EmptyWordAtRoot(s: Word, words: seq<Word>)
    requires StatesOf(s, words)
    ensures words[0] == [] && Extends(s, [], words[0])
  {
  }

  lemma SameShape(a: Automaton, last: int, s: Word, words: seq<Word>)
    requires Represents(a, last, s, words)
    ensures |a.transitions| == |a.links| == |a.lengths| == |a.occurrences| == |words|
    ensures forall v :: 0 <= v < |words| ==> a.lengths[v] == |words[v]|
  {
  }

  /** One round of the construction: the tables of `s` become the tables of `s + [c]`. */
  method Extend(a: Automaton, last: int, c: char, ghost s: Word, ghost words: seq<Word>)
    returns (b: Automaton, current: int, ghost words': seq<Word>)
    requires Represents(a, last, s, words)
    ensures Represents(b, current, s + [c], words') && IsAutomatonOf(b, current, s + [c])
    ensures |a.links| < |b.links| <= |a.links| + 2
  {
    hide StatesOf, TransitionsOf, LinksOf, CountsOf, Border, Extends, Factor, IsSuffix, GrownTransitions;
    SameShape(a, last, s, words);
    current := |a.transitions|;
    var transitions, state := AddTransitions(a.transitions, a.links, last, c, s, words);
    ghost var u := if state < 0 then [] else words[state] + [c];
    var target := 0;
    if state >= 0 {
      target := transitions[state][c];
      TargetOfBorder(s, words, a.transitions, state, c);
    } else {
      EmptyWordAtRoot(s, words);
    }
    if state < 0 || a.lengths[state] + 1 == a.lengths[target] {
      // the border is a state already
      b := Automaton(transitions + [map[]], a.links + [target],
                     a.lengths + [a.lengths[last] + 1], a.occurrences + [1]);
      words' := Grown(s, c, words, u, false);
      TablesGrow(a, last, s, c, words, u, target, false);
      TransitionsMatch(s, c, words, a.transitions, target, false, b.transitions);
      assert b == GrownTables(a, s, c, words, u, target, false);
    } else {
      var clone := |a.transitions| + 1;
      var copied := transitions[target];
      transitions := transitions + [map[]] + [copied];
      transitions := RedirectTransitions(transitions, a.links, state, c, target, s, words, a.transitions);
      if c in a.transitions[target] {
        NoTransitionBack(s, words, a.transitions, target, c);
      }
      assert copied == GrownEdges(s, c, words[target], a.transitions[target], |words|, target, true);
      b := Automaton(transitions, a.links[target := clone] + [clone] + [a.links[target]],
                     a.lengths + [a.lengths[last] + 1] + [a.lengths[state] + 1], a.occurrences + [1] + [0]);
      words' := Grown(s, c, words, u, true);
      TablesGrow(a, last, s, c, words, u, target, true);
      TransitionsMatch(s, c, words, a.transitions, target, true, b.transitions);
      assert b == GrownTables(a, s, c, words, u, target, true);
    }
  }
}
