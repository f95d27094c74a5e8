/** Translation phase 2: source text as the logical characters left after line splices
    (a backslash, blanks, an optional carriage return and a newline) are deleted. */
module SplicedText {

  predicate IsBlank(ch: char) {
    ch == ' ' || ch == '\t' || ch == '\U{C}' || ch == '\U{B}'
  }

  /** The first index from `k` on that holds no blank. */
  function SkipBlanks(s: string, k: nat): (r: nat)
    requires k <= |s|
    ensures k <= r <= |s|
    ensures forall j :: k <= j < r ==> IsBlank(s[j])
    ensures r < |s| ==> !IsBlank(s[r])
    decreases |s| - k
  {
    if k < |s| && IsBlank(s[k]) then SkipBlanks(s, k + 1) else k
  }

  /** Length of the line splice at `j`, 0 when there is none. */
  function SpliceLen(s: string, j: nat): (k: nat)
    ensures j + k <= |s| || k == 0
    ensures k > 0 ==> k >= 2 && s[j] == '\\' && s[j + k - 1] == '\n'
    ensures k > 0 ==> forall x :: j < x < j + k - 1 ==> IsBlank(s[x]) || s[x] == '\r'
  {
    if j >= |s| || s[j] != '\\' then 0 else
    var k := SkipBlanks(s, j + 1);
    var k' := if k < |s| && s[k] == '\r' then k + 1 else k;
    if k' < |s| && s[k'] == '\n' then k' + 1 - j else 0
  }

  /** The index after the splice or the single character at `i`. */
  function Next(s: string, i: nat): (r: nat)
    requires i < |s|
    ensures i < r <= |s|
  {
    if SpliceLen(s, i) > 0 then i + SpliceLen(s, i) else i + 1
  }

  /** Reading whole splices and characters from `i` on arrives at `e`. */
  ghost predicate Path(s: string, i: nat, e: nat)
    requires e <= |s|
    decreases |s| - i
  {
    i == e || (i < e && Path(s, Next(s, i), e))
  }

  /** The logical characters between two indices. */
  ghost function Text(s: string, i: nat, e: nat): string
    requires e <= |s| && Path(s, i, e)
    decreases |s| - i
  {
    if i == e then []
    else if SpliceLen(s, i) > 0 then Text(s, Next(s, i), e)
    else [s[i]] + Text(s, Next(s, i), e)
  }

  /** The first index from `j` on that does not start a splice. */
  function SkipSplices(s: string, j: nat): (r: nat)
    requires j <= |s|
    ensures j <= r <= |s| && SpliceLen(s, r) == 0
    decreases |s| - j
  {
    if SpliceLen(s, j) == 0 then j else SkipSplices(s, j + SpliceLen(s, j))
  }

  /** A logical character and the splices between it and the next one. */
  datatype Glyph = Glyph(ch: char, after: string)

  /** The logical characters from raw index `i` on. */
  ghost function Glyphs(s: string, i: nat): seq<Glyph>
    requires i <= |s|
    decreases |s| - i
  {
    if i == |s| then []
    else if SpliceLen(s, i) > 0 then Glyphs(s, Next(s, i))
    else [Glyph(s[i], s[i + 1..SkipSplices(s, i + 1)])] + Glyphs(s, i + 1)
  }

  /** Phase 2 of the whole text. */
  ghost function Phase2(s: string): seq<Glyph> {
    Glyphs(s, 0)
  }

  ghost function Chars(g: seq<Glyph>): (r: string)
    ensures |r| == |g| && forall i :: 0 <= i < |g| ==> r[i] == g[i].ch
  {
    seq(|g|, i requires 0 <= i < |g| => g[i].ch)
  }

  lemma {:induction false} GlyphsAfterSkip(s: string, j: nat)
    requires j <= |s|
    ensures Glyphs(s, SkipSplices(s, j)) == Glyphs(s, j)
    ensures Path(s, j, SkipSplices(s, j)) && Text(s, j, SkipSplices(s, j)) == []
    decreases |s| - j
  {
    if SpliceLen(s, j) > 0 {
      GlyphsAfterSkip(s, Next(s, j));
    }
  }

  lemma {:induction false} PathJoin(s: string, i: nat, m: nat, e: nat)
    requires m <= |s| && e <= |s| && Path(s, i, m) && Path(s, m, e)
    ensures Path(s, i, e) && Text(s, i, e) == Text(s, i, m) + Text(s, m, e)
    decreases |s| - i
  {
    if i == m {
      assert [] + Text(s, m, e) == Text(s, m, e);
    } else {
      var n := Next(s, i);
      PathForward(s, m, e);
      PathJoin(s, n, m, e);
      if SpliceLen(s, i) == 0 {
        assert [s[i]] + (Text(s, n, m) + Text(s, m, e)) == ([s[i]] + Text(s, n, m)) + Text(s, m, e);
      }
    }
  }

  lemma PathForward(s: string, i: nat, e: nat)
    requires e <= |s| && Path(s, i, e)
    ensures i <= e
  {
  }

  lemma ConsChars(g: seq<Glyph>, rest: seq<Glyph>, n: nat)
    requires |g| >= 1 && g == [g[0]] + rest && n <= |rest|
    ensures g[1 + n..] == rest[n..]
    ensures Chars(g[..1 + n]) == [g[0].ch] + Chars(rest[..n])
  {
  }

  /** What is read along a path is the beginning of what lies ahead. */
  lemma {:induction false} PathGlyphs(s: string, i: nat, e: nat)
    requires i <= |s| && e <= |s| && Path(s, i, e)
    ensures |Text(s, i, e)| <= |Glyphs(s, i)|
    ensures Glyphs(s, e) == Glyphs(s, i)[|Text(s, i, e)|..]
    ensures Text(s, i, e) == Chars(Glyphs(s, i)[..|Text(s, i, e)|])
    decreases |s| - i
  {
    if i != e {
      PathGlyphs(s, Next(s, i), e);
      if SpliceLen(s, i) == 0 {
        var rest, t := Glyphs(s, i + 1), Text(s, i + 1, e);
        ConsChars(Glyphs(s, i), rest, |t|);
      }
    }
  }

  /** Splices contain nothing but a backslash, blanks and the line end, so an index right after any
      other character never falls inside one. */
  lemma {:induction false} PathToPlain(s: string, i: nat, e: nat)
    requires i <= e <= |s|
    requires e == i || !(s[e - 1] == '\\' || IsBlank(s[e - 1]) || s[e - 1] == '\r')
    ensures Path(s, i, e)
    decreases |s| - i
  {
    if i < e {
      PathToPlain(s, Next(s, i), e);
    }
  }

  // ---------------------------------------------------------------------------
  // Text without splices

  /** Logical characters without splices. */
  ghost function Plain(s: string): (g: seq<Glyph>)
    ensures |g| == |s| && forall i :: 0 <= i < |s| ==> g[i] == Glyph(s[i], "")
  {
    seq(|s|, i requires 0 <= i < |s| => Glyph(s[i], ""))
  }

  lemma PlainStep(s: string, i: nat)
    requires i < |s| && SpliceLen(s, i) == 0
    ensures SpliceLen(s, i + 1) == 0 ==> Glyphs(s, i) == [Glyph(s[i], "")] + Glyphs(s, i + 1)
    ensures Glyphs(s, i) == [Glyph(s[i], s[i + 1..SkipSplices(s, i + 1)])] + Glyphs(s, i + 1)
  {
    hide SpliceLen;
    assert s[i + 1..i + 1] == "";
  }

  lemma NoSplice(s: string, j: nat)
    requires j < |s| ==> s[j] != '\\'
    ensures SpliceLen(s, j) == 0
  {
  }

  lemma PlainCons(s: string, i: nat, e: nat)
    requires i < e <= |s|
    ensures Plain(s[i..e]) == [Glyph(s[i], "")] + Plain(s[i + 1..e])
  {
  }

  lemma {:induction false} SpliceFree(s: string, i: nat, e: nat)
    requires i <= e <= |s| && forall j :: i <= j <= e ==> SpliceLen(s, j) == 0
    ensures Glyphs(s, i) == Plain(s[i..e]) + Glyphs(s, e)
    decreases e - i
  {
    hide Glyphs, SpliceLen, SkipSplices;
    if i == e {
      assert Plain(s[i..e]) == [];
    } else {
      SpliceFree(s, i + 1, e);
      PlainStep(s, i);
      PlainCons(s, i, e);
    }
  }

  /** Text without backslashes has no splices. */
  lemma PlainGlyphs(s: string, i: nat, e: nat)
    requires i <= e <= |s| && SpliceLen(s, e) == 0 && forall j :: i <= j < e ==> s[j] != '\\'
    ensures Glyphs(s, i) == Plain(s[i..e]) + Glyphs(s, e)
  {
    hide SpliceLen;
    forall j | i <= j < e ensures SpliceLen(s, j) == 0 {
      NoSplice(s, j);
    }
    SpliceFree(s, i, e);
  }

  lemma NothingAfter(s: string)
    ensures Glyphs(s, |s|) == [] && SpliceLen(s, |s|) == 0
  {
  }
}
