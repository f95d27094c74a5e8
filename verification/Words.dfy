/** Occurrences of words in a text: the vocabulary in which the repeat detector is specified. */
module Words {

  type Word = seq<char>

  /** `w` is a suffix of `x`. */
  predicate IsSuffix(w: Word, x: Word) {
    |w| <= |x| && x[|x| - |w|..] == w
  }

  /** `w` occurs in `s` with its last character just before index `e`. */
  predicate EndsAt(s: Word, w: Word, e: int) {
    |w| <= e <= |s| && s[e - |w|..e] == w
  }

  ghost predicate Factor(s: Word, w: Word) {
    exists e :: EndsAt(s, w, e)
  }

  /** Every occurrence of `w` in `s` extends to the left to an occurrence of `y`. */
  ghost predicate Extends(s: Word, w: Word, y: Word) {
    IsSuffix(w, y) && forall e :: EndsAt(s, w, e) ==> EndsAt(s, y, e)
  }

  /** `u` is the longest suffix of `s + [c]` that already occurs in `s`. */
  ghost predicate Border(s: Word, c: char, u: Word) {
    && IsSuffix(u, s + [c])
    && Factor(s, u)
    && forall w :: IsSuffix(w, s + [c]) && Factor(s, w) ==> |w| <= |u|
  }

  lemma SuffixTransitive(x: Word, y: Word, z: Word)
    requires IsSuffix(x, y) && IsSuffix(y, z)
    ensures IsSuffix(x, z)
  {
  }

  /** Two suffixes of one word are nested. */
  lemma SuffixesNest(x: Word, y: Word, z: Word)
    requires IsSuffix(x, z) && IsSuffix(y, z) && |x| <= |y|
    ensures IsSuffix(x, y)
  {
  }

  /** Two words that end at the same place are nested. */
  lemma EndsNest(s: Word, x: Word, y: Word, e: int)
    requires EndsAt(s, x, e) && EndsAt(s, y, e) && |x| <= |y|
    ensures IsSuffix(x, y)
  {
  }

  lemma EndsSuffix(s: Word, x: Word, y: Word, e: int)
    requires IsSuffix(x, y) && EndsAt(s, y, e)
    ensures EndsAt(s, x, e)
  {
  }

  /** Occurrences in a text that has grown by one character. */
  lemma EndsGrow(s: Word, c: char, w: Word, e: int)
    ensures e <= |s| ==> (EndsAt(s + [c], w, e) <==> EndsAt(s, w, e))
    ensures e == |s| + 1 ==> (EndsAt(s + [c], w, e) <==> IsSuffix(w, s + [c]))
    ensures e > |s| + 1 ==> !EndsAt(s + [c], w, e)
  {
  }

  /** An occurrence of a word followed by one more character. */
  lemma EndsSnoc(s: Word, w: Word, d: char, e: int)
    ensures EndsAt(s, w + [d], e) <==> 1 <= e <= |s| && EndsAt(s, w, e - 1) && s[e - 1] == d
  {
    if |w| < e <= |s| {
      assert s[e - 1 - |w|..e] == s[e - 1 - |w|..e - 1] + [s[e - 1]];
      if EndsAt(s, w + [d], e) {
        assert (w + [d])[..|w|] == w && (w + [d])[|w|] == d;
        assert s[e - 1 - |w|..e][..|w|] == s[e - 1 - |w|..e - 1];
      }
    }
  }

  lemma SuffixSnoc(w: Word, d: char, s: Word, c: char)
    ensures IsSuffix(w + [d], s + [c]) <==> IsSuffix(w, s) && d == c
  {
    if |w| <= |s| {
      assert (s + [c])[|s| - |w|..] == s[|s| - |w|..] + [c];
      if IsSuffix(w + [d], s + [c]) {
        assert (w + [d])[..|w|] == w && (w + [d])[|w|] == d;
        assert (s[|s| - |w|..] + [c])[..|w|] == s[|s| - |w|..];
      }
    }
  }

  lemma FactorOfSuffix(s: Word, x: Word, y: Word)
    requires IsSuffix(x, y) && Factor(s, y)
    ensures Factor(s, x)
  {
    var e :| EndsAt(s, y, e);
    EndsSuffix(s, x, y, e);
  }

  lemma FactorGrow(s: Word, c: char, w: Word)
    ensures Factor(s + [c], w) <==> Factor(s, w) || IsSuffix(w, s + [c])
  {
    if Factor(s, w) {
      var e :| EndsAt(s, w, e);
      EndsGrow(s, c, w, e);
      assert EndsAt(s + [c], w, e);
    }
    if IsSuffix(w, s + [c]) {
      EndsGrow(s, c, w, |s| + 1);
      assert EndsAt(s + [c], w, |s| + 1);
    }
    if Factor(s + [c], w) {
      var e :| EndsAt(s + [c], w, e);
      EndsGrow(s, c, w, e);
    }
  }

  /** A word that always extends to `y` keeps doing so in a longer text, unless its new last
      occurrence does not. */
  lemma ExtendsGrow(s: Word, c: char, w: Word, y: Word)
    requires IsSuffix(w, y)
    ensures Extends(s + [c], w, y)
       <==> Extends(s, w, y) && (IsSuffix(w, s + [c]) ==> IsSuffix(y, s + [c]))
  {
    if Extends(s + [c], w, y) {
      forall e | EndsAt(s, w, e) ensures EndsAt(s, y, e) {
        EndsGrow(s, c, w, e);
        EndsGrow(s, c, y, e);
      }
      EndsGrow(s, c, w, |s| + 1);
      EndsGrow(s, c, y, |s| + 1);
      assert IsSuffix(w, s + [c]) ==> EndsAt(s + [c], w, |s| + 1);
    }
    if Extends(s, w, y) && (IsSuffix(w, s + [c]) ==> IsSuffix(y, s + [c])) {
      forall e | EndsAt(s + [c], w, e) ensures EndsAt(s + [c], y, e) {
        EndsGrow(s, c, w, e);
        EndsGrow(s, c, y, e);
      }
    }
  }

  lemma ExtendsTransitive(s: Word, x: Word, y: Word, z: Word)
    requires Extends(s, x, y) && Extends(s, y, z)
    ensures Extends(s, x, z)
  {
  }

  /** A word between `w` and an extension of `w` extends the same way. */
  lemma ExtendsBetween(s: Word, w: Word, x: Word, y: Word)
    requires Extends(s, w, y) && IsSuffix(w, x) && Factor(s, x) && |x| <= |y|
    ensures Extends(s, x, y)
  {
    var e0 :| EndsAt(s, x, e0);
    EndsSuffix(s, w, x, e0);
    EndsNest(s, x, y, e0);
    forall e | EndsAt(s, x, e) ensures EndsAt(s, y, e) {
      EndsSuffix(s, w, x, e);
    }
  }

  /** Appending one character keeps extensions. */
  lemma ExtendsSnoc(s: Word, x: Word, y: Word, d: char)
    requires Extends(s, x, y)
    ensures Extends(s, x + [d], y + [d])
  {
    SuffixSnoc(x, d, y, d);
    forall e | EndsAt(s, x + [d], e) ensures EndsAt(s, y + [d], e) {
      EndsSnoc(s, x, d, e);
      EndsSnoc(s, y, d, e);
    }
  }

  // ---------------------------------------------------------------------------
  // Named consequences of the definitions

  lemma ExtendsIsSuffix(s: Word, w: Word, y: Word)
    requires Extends(s, w, y)
    ensures IsSuffix(w, y) && |w| <= |y|
    ensures Factor(s, w) ==> Factor(s, y)
  {
    if Factor(s, w) {
      var e :| EndsAt(s, w, e);
      assert EndsAt(s, y, e);
    }
  }

  lemma SuffixLength(x: Word, y: Word)
    requires IsSuffix(x, y)
    ensures |x| <= |y|
    ensures |x| == |y| ==> x == y
  {
  }

  lemma FactorLength(s: Word, w: Word)
    requires Factor(s, w)
    ensures |w| <= |s|
  {
  }

  lemma BorderFacts(s: Word, c: char, u: Word)
    requires Border(s, c, u)
    ensures IsSuffix(u, s + [c]) && Factor(s, u) && |u| <= |s|
  {
    hide IsSuffix, EndsAt;
    FactorLength(s, u);
  }

  lemma BorderLongest(s: Word, c: char, u: Word, w: Word)
    requires Border(s, c, u) && IsSuffix(w, s + [c]) && Factor(s, w)
    ensures |w| <= |u|
  {
    hide IsSuffix, EndsAt, Factor;
  }
}
