/** The longest repeated span of a text: the automaton's counts, propagated along the suffix
    links from long states to short ones, find exactly the longest word that occurs twice. */
module RepeatedSpan {
  import opened Counting
  import opened Words
  import opened AutomatonStates
  import opened SuffixAutomaton
  import opened LengthSort

  // ---------------------------------------------------------------------------
  // The specification

  predicate StartsAt(text: Word, w: Word, i: int) {
    0 <= i && i + |w| <= |text| && text[i..i + |w|] == w
  }

  /** Some word of this length starts at two different places of the text (they may overlap). */
  ghost predicate Repeats(text: Word, length: nat) {
    exists w: Word, i, j :: |w| == length && i < j && StartsAt(text, w, i) && StartsAt(text, w, j)
  }

  ghost predicate LongestRepeat(text: Word, length: nat) {
    Repeats(text, length) && forall l: nat :: Repeats(text, l) ==> l <= length
  }

  // ---------------------------------------------------------------------------
  // Occurrence counts

  /** The places where an occurrence of `w` ends. */
  ghost function Ends(s: Word, w: Word): set<int> {
    set e | 1 <= e <= |s| && EndsAt(s, w, e)
  }

  /** No state longer than `depth` that ends at `e` is still waiting to pass its count on. */
  ghost predicate Arrived(s: Word, words: seq<Word>, done: set<int>, depth: int, e: int) {
    forall t :: 0 <= t < |words| && EndsAt(s, words[t], e) && |words[t]| > depth ==> t in done
  }

  /** The ends that have been counted at state `v` once the states in `done` have passed their
      counts on to their links. */
  ghost function Counted(s: Word, words: seq<Word>, done: set<int>, v: int): set<int>
    requires 0 <= v < |words|
  {
    set e | 1 <= e <= |s| && EndsAt(s, words[v], e) && Arrived(s, words, done, |words[v]|, e)
  }

  /** Every prefix of the text is the word of a state. */
  lemma PrefixIsState(s: Word, words: seq<Word>, e: int) returns (t: int)
    requires StatesOf(s, words) && 0 <= e <= |s|
    ensures 0 <= t < |words| && words[t] == s[..e]
  {
    assert EndsAt(s, s[..e], e);
    t := StateOf(s, words, s[..e]);
    assert EndsAt(s, words[t], e);
  }

  /** Before propagation each state has counted the one prefix it stands for. */
  lemma CountedAtFirst(s: Word, words: seq<Word>, lengths: seq<int>, occurrences: seq<int>, v: int)
    requires StatesOf(s, words) && CountsOf(s, words, lengths, occurrences) && 0 <= v < |words|
    ensures occurrences[v] == |Counted(s, words, {}, v)|
  {
    var w := words[v];
    if w != [] && w <= s {
      assert w == s[..|w|] && EndsAt(s, w, |w|);
      assert Counted(s, words, {}, v) == {|w|} by {
        forall e ensures e in Counted(s, words, {}, v) <==> e == |w| {
          FirstCount(s, words, v, e);
        }
      }
    } else {
      assert Counted(s, words, {}, v) == {} by {
        forall e ensures e !in Counted(s, words, {}, v) {
          FirstCount(s, words, v, e);
        }
      }
    }
  }

  lemma FirstCount(s: Word, words: seq<Word>, v: int, e: int)
    requires StatesOf(s, words) && 0 <= v < |words|
    ensures e in Counted(s, words, {}, v) <==> 1 <= e <= |s| && words[v] == s[..e]
  {
    if 1 <= e <= |s| {
      if words[v] == s[..e] {
        assert EndsAt(s, words[v], e);
      } else if EndsAt(s, words[v], e) {
        var t := PrefixIsState(s, words, e);
        assert EndsAt(s, words[t], e);
        assert !Arrived(s, words, {}, |words[v]|, e);
      }
    }
  }

  /** Passing the count of `x` to its link moves exactly the ends counted at `x`. */
  lemma PassOn(s: Word, words: seq<Word>, links: seq<int>, done: set<int>, x: int, v: int)
    requires StatesOf(s, words) && LinksOf(words, links)
    requires 1 <= x < |words| && x !in done && 0 <= v < |words|
    requires forall t :: 0 <= t < |words| && |words[t]| > |words[x]| ==> t in done
    requires forall t :: t in done && 0 <= t < |words| ==> |words[t]| >= |words[x]|
    ensures v == links[x] ==>
              && Counted(s, words, done + {x}, v) == Counted(s, words, done, v) + Counted(s, words, done, x)
              && Counted(s, words, done, v) !! Counted(s, words, done, x)
    ensures v != links[x] ==> Counted(s, words, done + {x}, v) == Counted(s, words, done, v)
  {
    var link := links[x];
    assert LinksTo(words, x, link);
    forall e ensures e in Counted(s, words, done + {x}, v) <==>
                     e in Counted(s, words, done, v) || (v == link && e in Counted(s, words, done, x))
    {
      PassOnOne(s, words, link, done, x, v, e);
    }
    if v == link {
      forall e | e in Counted(s, words, done, v) ensures e !in Counted(s, words, done, x) {
      }
    }
  }

  lemma PassOnOne(s: Word, words: seq<Word>, link: int, done: set<int>, x: int, v: int, e: int)
    requires StatesOf(s, words) && 1 <= x < |words| && LinksTo(words, x, link)
    requires x !in done && 0 <= v < |words|
    requires forall t :: 0 <= t < |words| && |words[t]| > |words[x]| ==> t in done
    requires forall t :: t in done && 0 <= t < |words| ==> |words[t]| >= |words[x]|
    ensures e in Counted(s, words, done + {x}, v) <==>
            e in Counted(s, words, done, v) || (v == link && e in Counted(s, words, done, x))
  {
    if 1 <= e <= |s| && EndsAt(s, words[x], e) {
      EndsSuffix(s, words[link], words[x], e);
      if v == link {
        forall t | 0 <= t < |words| && EndsAt(s, words[t], e) && |words[t]| > |words[link]| ensures t in done + {x} {
          if |words[t]| <= |words[x]| {
            EndsNest(s, words[t], words[x], e);
            WordsAtSameEnd(s, words, t, x, e);
          }
        }
      } else if EndsAt(s, words[v], e) && |words[v]| < |words[x]| {
        EndsNest(s, words[v], words[x], e);
        if |words[v]| == |words[link]| {
          WordsAtSameEnd(s, words, v, link, e);
        }
        assert link !in done + {x};
        assert !Arrived(s, words, done + {x}, |words[v]|, e);
      }
    }
  }

  lemma WordsAtSameEnd(s: Word, words: seq<Word>, t: int, v: int, e: int)
    requires StatesOf(s, words) && 0 <= t < |words| && 0 <= v < |words|
    requires EndsAt(s, words[t], e) && EndsAt(s, words[v], e)
    ensures |words[t]| == |words[v]| ==> t == v
  {
  }

  /** Once everything has been passed on, a state has counted all its occurrences. */
  lemma CountedAtLast(s: Word, words: seq<Word>, done: set<int>, v: int)
    requires 0 <= v < |words| && forall t :: 0 <= t < |words| ==> t in done
    ensures Counted(s, words, done, v) == Ends(s, words[v])
  {
  }

  /** From the longest state to the shortest, add each state's count to its link's. */
  method PropagateCounts(a: Automaton, last: int, order: seq<int>, ghost s: Word, ghost words: seq<Word>)
    returns (occurrences: seq<int>)
    requires Represents(a, last, s, words) && SortsByLength(order, a.lengths)
    ensures |occurrences| == |words|
    ensures forall v :: 0 <= v < |words| ==> occurrences[v] == |Ends(s, words[v])|
  {
    hide StatesOf, TransitionsOf, LinksTo, Counted, Ends, EndsAt;
    occurrences := a.occurrences;
    ghost var done: set<int> := {};
    forall v | 0 <= v < |words| ensures occurrences[v] == |Counted(s, words, done, v)| {
      CountedAtFirst(s, words, a.lengths, a.occurrences, v);
    }
    for p := |order| downto 0
      invariant |occurrences| == |words|
      invariant done == Elements(order[p..])
      invariant forall v :: 0 <= v < |words| ==> occurrences[v] == |Counted(s, words, done, v)|
    {
      var state := order[p];
      ghost var before := occurrences;
      assert order[p..] == [state] + order[p + 1..];
      DoneIsLonger(order, a.lengths, words, p);
      if state != 0 {
        LinkInRange(words, a.links, state);
        occurrences := occurrences[a.links[state] := occurrences[a.links[state]] + occurrences[state]];
        forall v | 0 <= v < |words| ensures occurrences[v] == |Counted(s, words, done + {state}, v)| {
          PassOn(s, words, a.links, done, state, v);
          if v == a.links[state] {
            assert |Counted(s, words, done, v) + Counted(s, words, done, state)|
                == |Counted(s, words, done, v)| + |Counted(s, words, done, state)|;
          }
        }
      } else {
        forall v | 0 <= v < |words| ensures Counted(s, words, done + {0}, v) == Counted(s, words, done, v) {
          RootPassesNothing(s, words, done, v);
        }
      }
      done := done + {state};
    }
    assert order[0..] == order;
    forall v | 0 <= v < |words| ensures occurrences[v] == |Ends(s, words[v])| {
      CountedAtLast(s, words, done, v);
    }
  }

  lemma LinkInRange(words: seq<Word>, links: seq<int>, v: int)
    requires LinksOf(words, links) && 1 <= v < |words|
    ensures 0 <= links[v] < |words|
  {
  }

  /** Handling states from the longest on: all longer states are done, no shorter one is. */
  lemma DoneIsLonger(order: seq<int>, lengths: seq<int>, words: seq<Word>, p: int)
    requires SortsByLength(order, lengths) && 0 <= p < |order|
    requires |words| == |lengths| && forall v :: 0 <= v < |words| ==> lengths[v] == |words[v]|
    ensures 0 <= order[p] < |words| && order[p] !in Elements(order[p + 1..])
    ensures forall t :: 0 <= t < |words| && |words[t]| > |words[order[p]]| ==> t in Elements(order[p + 1..])
    ensures forall t :: t in Elements(order[p + 1..]) && 0 <= t < |words| ==> |words[t]| >= |words[order[p]]|
  {
    forall t | 0 <= t < |words| && |words[t]| > |words[order[p]]| ensures t in Elements(order[p + 1..]) {
      assert t in order;
      var q :| 0 <= q < |order| && order[q] == t;
      assert q > p;
      assert order[p + 1..][q - p - 1] == t;
    }
    forall t | t in Elements(order[p + 1..]) && 0 <= t < |words| ensures |words[t]| >= |words[order[p]]| {
      var q :| 0 <= q < |order[p + 1..]| && order[p + 1..][q] == t;
      assert order[p + 1 + q] == t;
    }
  }

  lemma RootPassesNothing(s: Word, words: seq<Word>, done: set<int>, v: int)
    requires StatesOf(s, words) && 0 <= v < |words|
    ensures Counted(s, words, done + {0}, v) == Counted(s, words, done, v)
  {
  }

  // ---------------------------------------------------------------------------
  // The detector

  /** A word counted twice really repeats. */
  lemma RepeatSound(s: Word, w: Word)
    requires |Ends(s, w)| >= 2
    ensures Repeats(s, |w|)
  {
    TwoElements(Ends(s, w));
    var x, y :| x in Ends(s, w) && y in Ends(s, w) && x < y;
    assert StartsAt(s, w, x - |w|) && StartsAt(s, w, y - |w|);
  }

  /** A repeated word belongs to a state at least as long that is counted twice. */
  lemma RepeatComplete(s: Word, words: seq<Word>, length: nat) returns (t: int)
    requires StatesOf(s, words) && Repeats(s, length)
    ensures 0 <= t < |words| && length <= |words[t]|
    ensures length > 0 ==> |Ends(s, words[t])| >= 2
  {
    hide StatesOf;
    var w: Word, i, j :| |w| == length && i < j && StartsAt(s, w, i) && StartsAt(s, w, j);
    assert EndsAt(s, w, i + length) && EndsAt(s, w, j + length);
    t := StateOf(s, words, w);
    if length > 0 {
      assert i + length in Ends(s, words[t]) && j + length in Ends(s, words[t]);
      TwoElements(Ends(s, words[t]));
    }
  }

  /** Build the automaton of the text, one character at a time. */
  method Build(text: Word) returns (a: Automaton, last: int, ghost words: seq<Word>)
    ensures Represents(a, last, text, words)
    ensures IsAutomatonOf(a, last, text) && |a.links| <= 2 * |text| + 1
  {
    hide StatesOf, TransitionsOf;
    a, last, words := Automaton([map[]], [-1], [0], [0]), 0, [[]];
    InitialStates();
    assert text[..0] == [];
    for i := 0 to |text|
      invariant Represents(a, last, text[..i], words)
    {
      assert text[..i + 1] == text[..i] + [text[i]];
      a, last, words := Extend(a, last, text[i], text[..i], words);
    }
    assert text[..|text|] == text;
  }

  lemma LengthsBounded(a: Automaton, last: int, s: Word, words: seq<Word>)
    requires Represents(a, last, s, words)
    ensures |a.lengths| == |words| && |words| >= 1
    ensures forall v :: 0 <= v < |a.lengths| ==> 0 <= a.lengths[v] <= |s| && a.lengths[v] == |words[v]|
  {
  }

  /** The length found before the final division is that of the longest repeated word. */
  method LongestRepeatedLength(text: Word) returns (longest: nat)
    requires text != []
    ensures LongestRepeat(text, longest)
  {
    hide Represents, StatesOf, Repeats, SortsByLength, Ends;
    var a, last;
    ghost var words;
    a, last, words := Build(text);
    LengthsBounded(a, last, text, words);
    var order := SortStates(a.lengths, |text|);
    var occurrences := PropagateCounts(a, last, order, text, words);
    longest := 0;
    ghost var best := 0;
    for v := 1 to |a.lengths|
      invariant longest == 0 || (0 <= best < v && longest == a.lengths[best] && occurrences[best] >= 2)
      invariant forall t :: 1 <= t < v && occurrences[t] >= 2 ==> a.lengths[t] <= longest
    {
      if occurrences[v] >= 2 && a.lengths[v] > longest {
        longest, best := a.lengths[v], v;
      }
    }
    if longest == 0 {
      EmptyWordRepeats(text);
    } else {
      RepeatSound(text, words[best]);
    }
    forall l: nat | Repeats(text, l) ensures l <= longest {
      var t := RepeatedState(a, last, text, words, l);
    }
  }

  lemma EmptyWordRepeats(text: Word)
    requires text != []
    ensures Repeats(text, 0)
  {
    assert StartsAt(text, [], 0) && StartsAt(text, [], 1);
  }

  lemma RepeatedState(a: Automaton, last: int, s: Word, words: seq<Word>, length: nat) returns (t: int)
    requires Represents(a, last, s, words) && Repeats(s, length)
    ensures 0 <= t < |words| && length <= |words[t]|
    ensures length > 0 ==> t >= 1 && |Ends(s, words[t])| >= 2
  {
    t := RepeatComplete(s, words, length);
  }

  /** The share of the text taken by its longest repeated span; 0 for the empty text. */
  method LongestRepeatedSubstringRatio(text: Word) returns (ratio: real)
    ensures text == [] ==> ratio == 0.0
    ensures text != [] ==> exists longest: nat ::
              LongestRepeat(text, longest) && ratio == longest as real / |text| as real
    ensures 0.0 <= ratio < 1.0
  {
    if text == [] {
      return 0.0;
    }
    var longest := LongestRepeatedLength(text);
    assert longest < |text| by {
      var w: Word, i, j :| |w| == longest && i < j && StartsAt(text, w, i) && StartsAt(text, w, j);
    }
    ratio := longest as real / |text| as real;
  }
}
