/** Pieces of spliced text: cutting out a stretch between two places the reader stops at keeps its
    logical characters, and what a splice consists of is invisible. */
module SplicedSlices {
  import opened SplicedText

  lemma SkipBlanksSlice(s: string, i: nat, e: nat, k: nat)
    requires i <= k <= e <= |s|
    ensures SkipBlanks(s[i..e], k - i) == (if SkipBlanks(s, k) <= e then SkipBlanks(s, k) else e) - i
  {
    var t := s[i..e];
    var r, r' := SkipBlanks(s, k), SkipBlanks(t, k - i);
    assert r' < |t| ==> t[r'] == s[i + r'];
    assert forall j :: k - i <= j < r' ==> IsBlank(t[j]) && t[j] == s[i + j];
  }

  /** A splice survives the cut exactly when it lies inside. */
  lemma SpliceSlice(s: string, i: nat, e: nat, p: nat)
    requires i <= p < e <= |s|
    ensures SpliceLen(s[i..e], p - i) == if SpliceLen(s, p) > 0 && p + SpliceLen(s, p) <= e then SpliceLen(s, p) else 0
  {
    hide SkipBlanks;
    SkipBlanksSlice(s, i, e, p + 1);
  }

  lemma {:induction false} TextSlice(s: string, i: nat, p: nat, e: nat)
    requires i <= p <= e <= |s| && Path(s, p, e)
    ensures Path(s[i..e], p - i, e - i) && Text(s[i..e], p - i, e - i) == Text(s, p, e)
    decreases e - p
  {
    hide SpliceLen;
    if p < e {
      PathForward(s, Next(s, p), e);
      SpliceSlice(s, i, e, p);
      TextSlice(s, i, Next(s, p), e);
    }
  }

  lemma {:induction false} PathToEnd(s: string, i: nat)
    requires i <= |s|
    ensures Path(s, i, |s|)
    decreases |s| - i
  {
    if i < |s| {
      PathToEnd(s, Next(s, i));
    }
  }

  lemma SpliceNeedsBoth(s: string, i: nat)
    ensures SpliceLen(s, i) > 0 ==> '\\' in s && '\n' in s
  {
  }

  lemma {:induction false} NoSplices(s: string, i: nat)
    requires i <= |s| && ('\\' !in s || '\n' !in s)
    ensures Path(s, i, |s|) && Text(s, i, |s|) == s[i..]
    decreases |s| - i
  {
    hide SpliceLen;
    if i < |s| {
      SpliceNeedsBoth(s, i);
      NoSplices(s, i + 1);
    }
  }

  // ---------------------------------------------------------------------------
  // Joining pieces, and what is visible in text

  function Concat(pieces: seq<string>): string {
    if pieces == [] then "" else Concat(pieces[..|pieces| - 1]) + pieces[|pieces| - 1]
  }

  lemma NothingBefore(t: string)
    ensures "" + t == t
  {
  }

  lemma ConcatSnoc(pieces: seq<string>, piece: string)
    ensures Concat(pieces + [piece]) == Concat(pieces) + piece
  {
  }

  /** Blanks, line ends and backslashes: all that splices and replaced comments are made of. */
  predicate IsInvisible(ch: char) {
    IsBlank(ch) || ch == '\r' || ch == '\n' || ch == '\\'
  }

  function Shown(ch: char): string {
    if IsInvisible(ch) then "" else [ch]
  }

  ghost function Visible(s: string): string {
    if s == "" then "" else Shown(s[0]) + Visible(s[1..])
  }

  lemma {:induction false} VisibleConcat(a: string, b: string)
    ensures Visible(a + b) == Visible(a) + Visible(b)
  {
    if a == "" {
      assert a + b == b && Visible(a) + Visible(b) == Visible(b);
    } else {
      VisibleConcat(a[1..], b);
      assert (a + b)[1..] == a[1..] + b && (a + b)[0] == a[0];
      assert Shown(a[0]) + (Visible(a[1..]) + Visible(b)) == (Shown(a[0]) + Visible(a[1..])) + Visible(b);
    }
  }

  lemma {:induction false} NothingVisible(s: string)
    requires forall i :: 0 <= i < |s| ==> IsInvisible(s[i])
    ensures Visible(s) == ""
  {
    if s != "" {
      NothingVisible(s[1..]);
    }
  }

  lemma SpliceInvisible(s: string, i: nat)
    requires i < |s| && SpliceLen(s, i) > 0
    ensures Visible(s[i..i + SpliceLen(s, i)]) == ""
  {
    var t := s[i..i + SpliceLen(s, i)];
    forall j | 0 <= j < |t| ensures IsInvisible(t[j]) {
      assert t[j] == s[i + j];
    }
    NothingVisible(t);
  }

  /** Deleting splices changes nothing visible. */
  lemma {:induction false} VisibleText(s: string, i: nat, e: nat)
    requires i <= e <= |s| && Path(s, i, e)
    ensures Visible(s[i..e]) == Visible(Text(s, i, e))
    decreases e - i
  {
    if i < e {
      var n := Next(s, i);
      PathForward(s, n, e);
      VisibleText(s, n, e);
      assert s[i..e] == s[i..n] + s[n..e];
      VisibleConcat(s[i..n], s[n..e]);
      if SpliceLen(s, i) > 0 {
        SpliceInvisible(s, i);
      } else {
        assert s[i..n] == [s[i]];
        VisibleConcat([s[i]], Text(s, n, e));
      }
    } else {
      assert s[i..e] == "";
    }
  }

  function Newlines(s: string): nat {
    multiset(s)['\n']
  }

  lemma NewlinesConcat(a: string, b: string)
    ensures Newlines(a + b) == Newlines(a) + Newlines(b)
  {
  }

  function Repeat(unit: string, n: nat): string {
    if n == 0 then "" else Repeat(unit, n - 1) + unit
  }

  lemma {:induction false} RepeatedLineEnd(unit: string, n: nat)
    requires Newlines(unit) == 1 && forall i :: 0 <= i < |unit| ==> IsInvisible(unit[i])
    ensures Newlines(Repeat(unit, n)) == n
    ensures forall i :: 0 <= i < |Repeat(unit, n)| ==> IsInvisible(Repeat(unit, n)[i])
  {
    if n > 0 {
      RepeatedLineEnd(unit, n - 1);
    }
  }
}
