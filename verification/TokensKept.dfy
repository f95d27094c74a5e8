/** When taking the comments out of a text leaves exactly its tokens: if and only if no backslash comes
    to stand before a line end, and no `#` in the middle of a line comes to stand at the start of one
    and makes a header name of what was none. */
module TokensKept {
  import opened Basics
  import opened SplicedText
  import opened SplicedSlices
  import opened PhaseThree
  import opened Strings
  import opened CommentRemoval
  import opened CLexer

  // ---------------------------------------------------------------------------
  // Tame text

  /** What comes first in a text, and where it ends; for a token also its logical characters. */
  datatype Piece =
    | End
    | Malformed
    | Newline
    | Blank
    | Return
    | Splice(e: nat)
    | LineComment(e: nat)
    | BlockComment(e: nat)
    | Token(e: nat, n: nat)

  ghost function First(s: string, cxx: bool, i: nat, place: Place): (p: Piece)
    requires i <= |s|
    ensures p.End? <==> i == |s|
    ensures p.Splice? || p.LineComment? || p.BlockComment? || p.Token? ==> i < p.e <= |s|
  {
    if i == |s| then End
    else if SpliceLen(s, i) > 0 then Splice(Next(s, i))
    else if s[i] == '\n' then Newline
    else if IsBlank(s[i]) then Blank
    else if s[i] == '\r' then Return
    else
      var g := Glyphs(s, i);
      if StartsWith(g, '/', '/') then Piece.LineComment(LineCommentStop(s, i))
      else if StartsWith(g, '/', '*') then
        match BlockLen(g[2..])
        case None => Malformed
        case Some(n) => Piece.BlockComment(After(s, i, 2 + n))
      else
        match TokenLen(g, cxx, place)
        case None => Malformed
        case Some(n) => Token(After(s, i, n), n)
  }

  /** What is left of the text from `i` on starts with blanks, an optional carriage return and a line
      end. `returned`: the carriage return has been seen; `pending`: blanks that are not written yet. */
  ghost predicate CutShort(s: string, cxx: bool, i: nat, place: Place, inDirective: bool, returned: bool, pending: bool)
    requires i <= |s|
    decreases |s| - i
  {
    match First(s, cxx, i, place)
    case Newline => !(returned && pending)
    case Blank => CutShort(s, cxx, i + 1, place, inDirective, returned, true)
    case Return => !returned && CutShort(s, cxx, i + 1, place, inDirective, true, false)
    case LineComment(e) => '\n' in s[i..e] || e < |s|
    case BlockComment(e) =>
      if '\n' in s[i..e] then !returned && !inDirective && !HashFollows(s, e)
      else CutShort(s, cxx, e, place, inDirective, returned, true)
    case _ => false
  }

  /** No backslash is left before the end of a line. */
  ghost predicate KeepsBackslashes(s: string, cxx: bool, i: nat, place: Place, inDirective: bool)
    requires i <= |s|
    decreases |s| - i
  {
    match First(s, cxx, i, place)
    case End => true
    case Malformed => true
    case Newline => KeepsBackslashes(s, cxx, i + 1, START, false)
    case Blank => KeepsBackslashes(s, cxx, i + 1, place, inDirective)
    case Return => KeepsBackslashes(s, cxx, i + 1, place, inDirective)
    case Splice(e) => KeepsBackslashes(s, cxx, e, place, inDirective)
    case LineComment(e) => KeepsBackslashes(s, cxx, e, place, inDirective)
    case BlockComment(e) => KeepsBackslashes(s, cxx, e, place, inDirective)
    case Token(e, n) =>
      var next, inside := NextPlace(Glyphs(s, i), cxx, place), inDirective || (s[i] == '#' && place.lineStart);
      && (s[i] == '\\' ==> !CutShort(s, cxx, e, next, inside, false, false))
      && KeepsBackslashes(s, cxx, e, next, inside)
  }

  /** Comments aside, no bracket closes on the rest of the line. */
  ghost predicate StaysOpen(s: string, cxx: bool, i: nat, place: Place, inDirective: bool)
    requires i <= |s|
    decreases |s| - i
  {
    match First(s, cxx, i, place)
    case Blank => StaysOpen(s, cxx, i + 1, place, inDirective)
    case Return => StaysOpen(s, cxx, i + 1, place, inDirective)
    case BlockComment(e) => '\n' in s[i..e] || StaysOpen(s, cxx, e, place, inDirective)
    case Token(e, n) =>
      && NoClose(s[i..e])
      && ('\n' in s[i..e]
          || StaysOpen(s, cxx, e, NextPlace(Glyphs(s, i), cxx, place), inDirective || (s[i] == '#' && place.lineStart)))
    case _ => true
  }

  /** Where the text that is left is at a line start, a block comment having left its line ends. */
  ghost function LeftPlace(s: string, i: nat, e: nat, inDirective: bool, left: Place): Place
    requires i <= e <= |s|
  {
    if '\n' in s[i..e] && !inDirective && !HashFollows(s, e) then START else left
  }

  /** No header name is made of what was none; `left` is where the reader of the text that is left is. */
  ghost predicate KeepsBrackets(s: string, cxx: bool, i: nat, place: Place, inDirective: bool, left: Place)
    requires i <= |s|
    decreases |s| - i
  {
    match First(s, cxx, i, place)
    case End => true
    case Malformed => true
    case Newline => KeepsBrackets(s, cxx, i + 1, START, false, START)
    case Blank => KeepsBrackets(s, cxx, i + 1, place, inDirective, left)
    case Return => KeepsBrackets(s, cxx, i + 1, place, inDirective, left)
    case Splice(e) => KeepsBrackets(s, cxx, e, place, inDirective, left)
    case LineComment(e) => KeepsBrackets(s, cxx, e, place, inDirective, left)
    case BlockComment(e) => KeepsBrackets(s, cxx, e, place, inDirective, LeftPlace(s, i, e, inDirective, left))
    case Token(e, n) =>
      var g := Glyphs(s, i);
      var next, inside := NextPlace(g, cxx, place), inDirective || (s[i] == '#' && place.lineStart);
      && (s[i] == '<' && left.headerAllowed && !place.headerAllowed ==> StaysOpen(s, cxx, e, next, inside))
      && KeepsBrackets(s, cxx, e, next, inside, NextPlace(g, cxx, left))
  }

  ghost predicate IsTame(text: string, cxx: bool) {
    KeepsBackslashes(text, cxx, 0, START, false) && KeepsBrackets(text, cxx, 0, START, false, START)
  }

  lemma TokenAhead(s: string, cxx: bool, i: nat, place: Place)
    requires i <= |s| && First(s, cxx, i, place).Token?
    ensures i < |s| && SpliceLen(s, i) == 0 && s[i] != '\n' && !IsHSpace(s[i])
    ensures var g, p := Glyphs(s, i), First(s, cxx, i, place);
            && g != [] && g[0].ch == s[i]
            && !StartsWith(g, '/', '/') && !StartsWith(g, '/', '*')
            && TokenLen(g, cxx, place) == Some(p.n) && p.e == After(s, i, p.n) && 1 <= p.n <= |g|
  {
    hide SpliceLen, TokenLen, BlockLen, LineCommentStop, After, Glyphs, Reads;
    ReadsChar(s, i);
  }

  // ---------------------------------------------------------------------------
  // The removal step by step

  ghost function RemovedBy(s: string, cxx: bool, i: nat, place: Place, inDirective: bool, blanks: string): string
    requires i <= |s|
  {
    match First(s, cxx, i, place)
    case End => blanks
    case Malformed => blanks
    case Newline => blanks + "\n" + Removed(s, cxx, i + 1, START, false, "")
    case Blank => Removed(s, cxx, i + 1, place, inDirective, blanks + [s[i]])
    case Return => blanks + "\r" + Removed(s, cxx, i + 1, place, inDirective, "")
    case Splice(e) => blanks + s[i..e] + Removed(s, cxx, e, place, inDirective, "")
    case LineComment(e) => Repeat("\n", Newlines(s[i..e])) + Removed(s, cxx, e, place, inDirective, "")
    case BlockComment(e) =>
      var r := Replacement(s, i, e, inDirective);
      if r == " " then Removed(s, cxx, e, place, inDirective, blanks + r)
      else blanks + r + Removed(s, cxx, e, place, inDirective, "")
    case Token(e, n) =>
      blanks + s[i..e]
      + Removed(s, cxx, e, NextPlace(Glyphs(s, i), cxx, place), inDirective || (s[i] == '#' && place.lineStart), "")
  }

  lemma RemovedStep(s: string, cxx: bool, i: nat, place: Place, inDirective: bool, blanks: string)
    requires i <= |s|
    ensures Removed(s, cxx, i, place, inDirective, blanks) == RemovedBy(s, cxx, i, place, inDirective, blanks)
  {
    hide SpliceLen, TokenLen, BlockLen, LineCommentStop, After, NextPlace, Newlines, Repeat, Replacement, Glyphs, Reads;
    if i < |s| && SpliceLen(s, i) == 0 {
      ReadsChar(s, i);
    }
  }

  // ---------------------------------------------------------------------------
  // Joining texts

  lemma SpliceSuffix(s: string, i: nat, j: nat)
    requires i + j <= |s|
    ensures SpliceLen(s[i..], j) == SpliceLen(s, i + j)
  {
    hide SpliceLen;
    if i + j < |s| {
      assert s[i..|s|] == s[i..];
      SpliceSlice(s, i, |s|, i + j);
    } else {
      NothingAfter(s);
      NothingAfter(s[i..]);
    }
  }

  lemma {:induction false} SkipSuffix(s: string, i: nat, j: nat)
    requires i + j <= |s|
    ensures i + SkipSplices(s[i..], j) == SkipSplices(s, i + j)
    decreases |s| - j
  {
    hide SpliceLen;
    SpliceSuffix(s, i, j);
    if SpliceLen(s, i + j) > 0 {
      SkipSuffix(s, i, j + SpliceLen(s, i + j));
    }
  }

  lemma {:induction false} GlyphsSuffix(s: string, i: nat, j: nat)
    requires i + j <= |s|
    ensures Glyphs(s[i..], j) == Glyphs(s, i + j)
    decreases |s| - j
  {
    hide SpliceLen, SkipSplices, Glyphs, Reads;
    SpliceSuffix(s, i, j);
    if i + j == |s| {
      NothingAfter(s);
      NothingAfter(s[i..]);
    } else if SpliceLen(s, i + j) > 0 {
      ReadsSplice(s, i + j);
      ReadsSplice(s[i..], j);
      GlyphsSuffix(s, i, j + SpliceLen(s, i + j));
    } else {
      ReadsChar(s, i + j);
      ReadsChar(s[i..], j);
      GlyphsSuffix(s, i, j + 1);
      SkipSuffix(s, i, j + 1);
      SliceSuffix(s, i, j + 1, SkipSplices(s, i + j + 1));
    }
  }

  lemma SliceSuffix(s: string, i: nat, j: nat, k: nat)
    requires i + j <= k <= |s|
    ensures s[i..][j..k - i] == s[i + j..k]
  {
  }

  /** The logical characters of a text that `y` ends. */
  lemma Joined(a: string, y: string)
    ensures Glyphs(a + y, |a|) == Phase2(y)
  {
    assert (a + y)[|a|..] == y;
    GlyphsSuffix(a + y, |a|, 0);
  }

  predicate Trails(ch: char) {
    ch == '\\' || IsHSpace(ch)
  }

  /** Where `y` ends a line right away, so does the text from `e` on. */
  ghost predicate LineEndsAlike(s: string, e: nat, y: string)
    requires e <= |s|
  {
    var k := SkipHSpace(y, 0);
    k < |y| && y[k] == '\n' ==> e + k < |s| && s[e..e + k + 1] == y[..k + 1]
  }

  /** The splices between two indices are the same when `y` follows. */
  ghost predicate Uncrossed(s: string, i: nat, e: nat, y: string)
    requires i <= e <= |s|
  {
    forall p :: i <= p < e ==> SpliceLen(s[i..e] + y, p - i) == SpliceLen(s, p)
  }

  /** Texts that agree around a splice agree on the splice. */
  lemma SameSplice(s: string, z: string, i: nat, p: nat, m: nat)
    requires i <= p < m <= |s| && m - i <= |z| && s[i..m] == z[..m - i]
    ensures SpliceLen(s, p) > 0 && p + SpliceLen(s, p) <= m ==> SpliceLen(z, p - i) == SpliceLen(s, p)
    ensures SpliceLen(z, p - i) > 0 && p + SpliceLen(z, p - i) <= m ==> SpliceLen(z, p - i) == SpliceLen(s, p)
  {
    hide SpliceLen;
    assert z[0..m - i] == z[..m - i];
    SpliceSlice(s, i, m, p);
    SpliceSlice(z, 0, m - i, p - i);
  }

  lemma SpliceEnds(z: string, p: nat)
    requires SpliceLen(z, p) > 0
    ensures var q := p + SpliceLen(z, p) - 1;
            p < q < |z| && z[q] == '\n' && z[p] == '\\' && forall x :: p < x < q ==> IsHSpace(z[x])
  {
  }

  lemma {:induction false} SkipHSpaceIs(y: string, j: nat, k: nat)
    requires j <= k < |y| && !IsHSpace(y[k]) && forall x :: j <= x < k ==> IsHSpace(y[x])
    ensures SkipHSpace(y, j) == k
    decreases k - j
  {
    if j < k {
      SkipHSpaceIs(y, j + 1, k);
    }
  }

  /** A splice of the joined text that crosses into `y`: it ends with the first line end of `y`. */
  lemma Crossing(t: string, y: string, p: nat)
    requires p < |t| && SpliceLen(t + y, p) > 0 && p + SpliceLen(t + y, p) > |t|
    ensures Trails(t[|t| - 1])
    ensures var k := SkipHSpace(y, 0); k < |y| && y[k] == '\n' && p + SpliceLen(t + y, p) == |t| + k + 1
  {
    hide SpliceLen, SkipHSpace;
    var z, q := t + y, p + SpliceLen(t + y, p) - 1;
    SpliceEnds(z, p);
    assert z[|t| - 1] == t[|t| - 1];
    var k := q - |t|;
    assert forall x :: 0 <= x <= k ==> y[x] == z[|t| + x];
    SkipHSpaceIs(y, 0, k);
  }

  lemma SameAhead(s: string, i: nat, e: nat, y: string, m: nat)
    requires i <= e <= |s| && e + m <= |s| && m <= |y| && s[e..e + m] == y[..m]
    ensures s[i..e + m] == (s[i..e] + y)[..e + m - i]
  {
    assert s[i..e + m] == s[i..e] + s[e..e + m];
    assert (s[i..e] + y)[..e + m - i] == s[i..e] + y[..m];
  }

  lemma CrossesAlike(s: string, i: nat, e: nat, y: string, p: nat)
    requires i <= p < e <= |s| && LineEndsAlike(s, e, y)
    requires var l := SpliceLen(s[i..e] + y, p - i); l > 0 && p + l > e
    ensures SpliceLen(s, p) == SpliceLen(s[i..e] + y, p - i)
  {
    hide SpliceLen, SkipHSpace, Trails;
    Crossing(s[i..e], y, p - i);
    var k := SkipHSpace(y, 0);
    SameAhead(s, i, e, y, k + 1);
    SameSplice(s, s[i..e] + y, i, p, e + k + 1);
  }

  lemma NoCross(s: string, i: nat, e: nat, y: string, p: nat)
    requires i <= p < e <= |s| && (SpliceLen(s, p) > 0 ==> p + SpliceLen(s, p) <= e)
    requires Trails(s[e - 1]) ==> LineEndsAlike(s, e, y)
    ensures SpliceLen(s[i..e] + y, p - i) == SpliceLen(s, p)
  {
    hide SpliceLen, SkipHSpace, Trails, LineEndsAlike;
    var z := s[i..e] + y;
    assert s[i..e] == z[..e - i];
    SameSplice(s, z, i, p, e);
    if SpliceLen(z, p - i) > 0 && p + SpliceLen(z, p - i) > e {
      Crossing(s[i..e], y, p - i);
      CrossesAlike(s, i, e, y, p);
    }
  }

  lemma {:induction false} SplicesInside(s: string, i: nat, p: nat, e: nat)
    requires i <= p < e <= |s| && Path(s, i, e) && SpliceLen(s, p) > 0
    ensures p + SpliceLen(s, p) <= e
    decreases |s| - i
  {
    if i == p {
      PathForward(s, Next(s, i), e);
    } else {
      SplicesInside(s, Next(s, i), p, e);
    }
  }

  lemma Uncross(s: string, i: nat, e: nat, y: string)
    requires i < e <= |s| && Path(s, i, e) && (Trails(s[e - 1]) ==> LineEndsAlike(s, e, y))
    ensures Uncrossed(s, i, e, y)
  {
    hide SpliceLen, LineEndsAlike;
    forall p | i <= p < e ensures SpliceLen(s[i..e] + y, p - i) == SpliceLen(s, p) {
      if SpliceLen(s, p) > 0 {
        SplicesInside(s, i, p, e);
      }
      NoCross(s, i, e, y, p);
    }
  }

  lemma {:induction false} JoinedPath(s: string, i: nat, p: nat, q: nat, e: nat, y: string)
    requires i <= p <= q <= e <= |s| && Path(s, p, q) && Uncrossed(s, i, e, y)
    ensures var z := s[i..e] + y; Path(z, p - i, q - i) && Text(z, p - i, q - i) == Text(s, p, q)
    decreases q - p
  {
    hide SpliceLen, Uncrossed, Next;
    if p < q {
      PathForward(s, Next(s, p), q);
      JoinedPath(s, i, Next(s, p), q, e, y);
      JoinedNext(s, i, p, e, y);
    }
  }

  lemma JoinedNext(s: string, i: nat, p: nat, e: nat, y: string)
    requires i <= p < e <= |s| && Uncrossed(s, i, e, y)
    ensures var z := s[i..e] + y;
            z[p - i] == s[p] && SpliceLen(z, p - i) == SpliceLen(s, p) && Next(z, p - i) == Next(s, p) - i
  {
    hide SpliceLen;
  }

  lemma JoinedReads(s: string, i: nat, p: nat, q: nat, e: nat, n: nat, y: string)
    requires i <= p <= q <= e <= |s| && Reads(s, p, q, n) && Uncrossed(s, i, e, y)
    ensures Reads(s[i..e] + y, p - i, q - i, n)
  {
    hide SpliceLen, Uncrossed, Path, Text;
    JoinedPath(s, i, p, q, e, y);
  }

  /** Logical characters: the first `n` are the same. */
  ghost predicate Alike(g: seq<Glyph>, h: seq<Glyph>, n: nat) {
    n <= |g| && n <= |h| && forall k :: 0 <= k < n ==> g[k].ch == h[k].ch
  }

  lemma JoinedGlyphs(s: string, i: nat, e: nat, n: nat, y: string)
    requires i <= e <= |s| && Reads(s, i, e, n) && Uncrossed(s, i, e, y)
    ensures var g, h := Glyphs(s, i), Phase2(s[i..e] + y);
            Alike(g, h, n) && g[n..] == Glyphs(s, e) && h[n..] == Phase2(y) && Chars(g[..n]) == Chars(h[..n])
  {
    hide Reads, Uncrossed, Glyphs, Chars, Alike, Path, Text;
    var z := s[i..e] + y;
    JoinedReads(s, i, i, e, e, n, y);
    ReadsGlyphs(s, i, e, n);
    ReadsGlyphs(z, 0, e - i, n);
    Joined(s[i..e], y);
    JoinedText(s, i, e, n, y);
    AlikeChars(Glyphs(s, i), Phase2(z), n);
  }

  lemma AlikeChars(g: seq<Glyph>, h: seq<Glyph>, n: nat)
    requires n <= |g| && n <= |h| && Chars(g[..n]) == Chars(h[..n])
    ensures Alike(g, h, n)
  {
    assert forall k :: 0 <= k < n ==> g[k].ch == Chars(g[..n])[k] && h[k].ch == Chars(h[..n])[k];
  }

  lemma JoinedText(s: string, i: nat, e: nat, n: nat, y: string)
    requires i <= e <= |s| && Reads(s, i, e, n) && Uncrossed(s, i, e, y)
    ensures var z := s[i..e] + y; Path(z, 0, e - i) && Text(z, 0, e - i) == Text(s, i, e)
  {
    JoinedPath(s, i, i, e, e, y);
  }

  // ---------------------------------------------------------------------------
  // Tokens end where they ended

  predicate IsSpace(ch: char) {
    ch == '\n' || IsHSpace(ch)
  }

  /** `h` can stand behind a token in place of `g` without changing where the token ends. */
  ghost predicate Follows(g: seq<Glyph>, h: seq<Glyph>) {
    && (AtLineEnd(g) ==> AtLineEnd(h))
    && (h != [] ==> IsSpace(h[0].ch) || (g != [] && h[0].ch == g[0].ch))
    && (|h| >= 2 && h[0].ch == '\'' && IsIdentChar(h[1].ch) ==> |g| >= 2 && g[1].ch == h[1].ch)
  }

  ghost predicate AtLineEnd(g: seq<Glyph>) {
    g == [] || g[0].ch == '\n'
  }

  lemma AlikeTail(g: seq<Glyph>, h: seq<Glyph>, n: nat, k: nat)
    requires Alike(g, h, n) && k <= n
    ensures Alike(g[k..], h[k..], n - k) && g[k..][n - k..] == g[n..] && h[k..][n - k..] == h[n..]
  {
  }

  lemma {:induction false} SameIdent(g: seq<Glyph>, h: seq<Glyph>, n: nat)
    requires IdentLen(g) == n && Alike(g, h, n) && (n < |h| ==> !IsIdentChar(h[n].ch))
    ensures IdentLen(h) == n
  {
    if n > 0 {
      AlikeTail(g, h, n, 1);
      SameIdent(g[1..], h[1..], n - 1);
    }
  }

  lemma {:induction false} IdentStops(g: seq<Glyph>)
    ensures IdentLen(g) < |g| ==> !IsIdentChar(g[IdentLen(g)].ch)
    ensures forall k :: 0 <= k < IdentLen(g) ==> IsIdentChar(g[k].ch)
  {
    if g != [] && IsIdentChar(g[0].ch) {
      IdentStops(g[1..]);
    }
  }

  lemma {:induction false} SameQuoted(g: seq<Glyph>, h: seq<Glyph>, n: nat, quote: char)
    requires QuotedTail(g, quote) == n && Alike(g, h, n) && Follows(g[n..], h[n..])
    ensures QuotedTail(h, quote) == n
    decreases |g|
  {
    if AtLineEnd(g) {
      assert g[n..] == g && h[n..] == h;
    } else if g[0].ch == '\\' {
      if n == 1 {
        assert AtLineEnd(g[1..]);
        assert AtLineEnd(h[1..]);
      } else {
        AlikeTail(g, h, n, 2);
        SameQuoted(g[2..], h[2..], n - 2, quote);
      }
    } else if g[0].ch != quote {
      AlikeTail(g, h, n, 1);
      SameQuoted(g[1..], h[1..], n - 1, quote);
    }
  }

  lemma NumberEnds(g: seq<Glyph>, h: seq<Glyph>, prev: char)
    requires g == [] || !NumberGoesOn(g[0].ch, prev, Following(g))
    requires Follows(g, h)
    ensures h == [] || !NumberGoesOn(h[0].ch, prev, Following(h))
  {
  }

  lemma {:induction false} SameNumber(g: seq<Glyph>, h: seq<Glyph>, n: nat, prev: char)
    requires NumberTail(g, prev) == n && Alike(g, h, n) && Follows(g[n..], h[n..])
    ensures NumberTail(h, prev) == n
    decreases |g|
  {
    hide Follows, NumberGoesOn;
    if n == 0 {
      assert g[n..] == g && h[n..] == h;
      NumberEnds(g, h, prev);
    } else {
      AlikeTail(g, h, n, 1);
      SameNumber(g[1..], h[1..], n - 1, g[0].ch);
      NumberGoesOnIn(g, h, n, prev);
    }
  }

  /** A number goes on as before: only a digit separator looks ahead, at a character it takes along. */
  lemma NumberGoesOnIn(g: seq<Glyph>, h: seq<Glyph>, n: nat, prev: char)
    requires 1 <= n == NumberTail(g, prev) && Alike(g, h, n)
    ensures NumberGoesOn(h[0].ch, prev, Following(h))
  {
    if g[0].ch == '\'' && !(IsSign(g[0].ch) && IsExponent(prev)) {
      NumberGoesOnBy(g[1..], g[0].ch);
      assert h[1].ch == g[1].ch;
    }
  }

  lemma NumberGoesOnBy(g: seq<Glyph>, prev: char)
    requires g != [] && IsIdentChar(g[0].ch)
    ensures NumberTail(g, prev) >= 1
  {
  }

  lemma SameOther(g: seq<Glyph>, h: seq<Glyph>, n: nat)
    requires g != [] && OtherLen(g) == n && Alike(g, h, n) && Follows(g[n..], h[n..])
    ensures OtherLen(h) == n
  {
    hide NumberTail, QuotedTail;
    AlikeTail(g, h, n, 1);
    if StartsNumber(g) {
      SameNumber(g[1..], h[1..], n - 1, ' ');
      if g[0].ch == '.' {
        NumberGoesOnBy(g[1..], ' ');
      }
    } else if g[0].ch == '"' || g[0].ch == '\'' {
      SameQuoted(g[1..], h[1..], n - 1, g[0].ch);
    } else if g[0].ch == '.' && |h| >= 2 {
      assert h[1..][0] == h[1];
    }
  }

  ghost predicate StartsNumber(g: seq<Glyph>)
    requires g != []
  {
    IsDigit(g[0].ch) || (g[0].ch == '.' && |g| >= 2 && IsDigit(g[1].ch))
  }

  // Header names, in the original text

  /** Where a bracket closes on the line. */
  ghost function ClosesAt(x: string): (r: Option<nat>)
    ensures r.Some? ==> r.value < |x|
  {
    if x == [] || x[0] == '\n' then None
    else if x[0] == '>' then Some(0)
    else match ClosesAt(x[1..])
      case None => None
      case Some(k) => Some(k + 1)
  }

  ghost predicate NoClose(x: string) {
    ClosesAt(x).None?
  }

  lemma {:induction false} ClosesConcat(a: string, b: string)
    ensures ClosesAt(a).Some? ==> ClosesAt(a + b) == ClosesAt(a)
    ensures ClosesAt(a).None? && '\n' in a ==> ClosesAt(a + b).None?
    ensures ClosesAt(a).None? && '\n' !in a ==> (NoClose(a + b) <==> NoClose(b))
  {
    if a == [] {
      assert a + b == b;
    } else {
      assert (a + b)[1..] == a[1..] + b;
      ClosesConcat(a[1..], b);
    }
  }

  /** No bracket closes within a splice. */
  lemma SpliceOpen(s: string, j: nat)
    requires j < |s| && SpliceLen(s, j) > 0
    ensures NoClose(s[j..])
  {
    SpliceEnds(s, j);
    HSpaceOpen(s, j, j + SpliceLen(s, j) - 1);
  }

  lemma {:induction false} HSpaceOpen(s: string, j: nat, k: nat)
    requires j <= k < |s| && (forall x :: j <= x < k ==> Trails(s[x])) && s[k] == '\n'
    ensures NoClose(s[j..])
    decreases k - j
  {
    if j < k {
      HSpaceOpen(s, j + 1, k);
      assert s[j..][1..] == s[j + 1..];
    }
  }

  ghost function OneMore(r: Option<nat>): Option<nat> {
    match r
    case None => None
    case Some(k) => Some(k + 1)
  }

  /** A header name is closed where the original text closes the bracket. */
  lemma {:induction false} HeaderText(s: string, j: nat)
    requires j < |s| && SpliceLen(s, j) == 0
    ensures Glyphs(s, j) != [] && HeaderTail(Glyphs(s, j)) == OneMore(ClosesAt(s[j + 1..]))
    decreases |s| - j
  {
    hide SpliceLen, Glyphs, HeaderTail;
    HeaderStep(s, j + 1);
    var x := s[j + 1..];
    if j + 1 < |s| {
      if SpliceLen(s, j + 1) > 0 {
        SpliceOpen(s, j + 1);
      } else if s[j + 1] != '\n' && s[j + 1] != '>' {
        HeaderText(s, j + 1);
        assert x[1..] == s[j + 2..];
      }
    }
  }

  lemma SameHeaderName(s: string, i: nat, e: nat, n: nat, y: string)
    requires i < e <= |s| && SpliceLen(s, i) == 0 && n == HeaderLen(Glyphs(s, i)) && Reads(s, i, e, n) && e == After(s, i, n)
    requires Uncrossed(s, i, e, y) && (NoClose(s[e..]) ==> NoClose(y))
    ensures Phase2(s[i..e] + y) != [] && HeaderLen(Phase2(s[i..e] + y)) == n
  {
    hide SpliceLen, Glyphs, HeaderTail, Uncrossed, Reads, After, ClosesAt;
    var z, x := s[i..e] + y, s[i + 1..];
    HeaderText(s, i);
    SpliceAtStart(s, i, e, y);
    HeaderText(z, 0);
    if ClosesAt(x).Some? {
      var k := ClosesAt(x).value;
      HeaderEnd(s, i, k);
      assert s[i..e][1..] == x[..k + 1];
      ClosesWithin(x, k);
      ClosesConcat(x[..k + 1], y);
      assert z[1..] == x[..k + 1] + y;
    } else {
      ReadsChar(s, i);
      OneAfter(s, i);
      assert z[1..] == y;
    }
  }

  lemma SpliceAtStart(s: string, i: nat, e: nat, y: string)
    requires i < e <= |s| && Uncrossed(s, i, e, y)
    ensures SpliceLen(s[i..e] + y, 0) == SpliceLen(s, i)
  {
    hide SpliceLen;
    assert SpliceLen(s[i..e] + y, i - i) == SpliceLen(s, i);
  }

  lemma OneAfter(s: string, i: nat)
    requires i < |s| && SpliceLen(s, i) == 0
    ensures After(s, i, 1) == i + 1
  {
    assert After(s, i + 1, 0) == i + 1;
  }

  lemma {:induction false} ClosesWithin(x: string, k: nat)
    requires ClosesAt(x) == Some(k)
    ensures ClosesAt(x[..k + 1]) == Some(k)
  {
    if x[0] != '>' {
      ClosesWithin(x[1..], k - 1);
      assert x[..k + 1][1..] == x[1..][..k];
    }
  }

  /** A closed header name holds no splices. */
  lemma {:induction false} HeaderEnd(s: string, i: nat, k: nat)
    requires i < |s| && SpliceLen(s, i) == 0 && ClosesAt(s[i + 1..]) == Some(k)
    ensures After(s, i, k + 2) == i + k + 2
    decreases k
  {
    hide SpliceLen;
    var x := s[i + 1..];
    if SpliceLen(s, i + 1) > 0 {
      SpliceOpen(s, i + 1);
      assert false;
    }
    assert x[0] == s[i + 1];
    if k > 0 {
      assert x[1..] == s[i + 2..];
      HeaderEnd(s, i + 1, k - 1);
    } else {
      OneAfter(s, i + 1);
    }
  }

  // Words

  lemma {:induction false} AfterReads(s: string, i: nat, n: nat)
    requires i <= |s| && n <= |Glyphs(s, i)|
    ensures Reads(s, i, After(s, i, n), n)
    ensures n > 0 ==> i < After(s, i, n) && s[After(s, i, n) - 1] == Glyphs(s, i)[n - 1].ch
    decreases |s| - i
  {
    hide SpliceLen, Reads, Glyphs;
    NothingAhead(s, i);
    if n > 0 && i < |s| {
      if SpliceLen(s, i) > 0 {
        ReadsSplice(s, i);
        AfterReads(s, Next(s, i), n);
        ReadsJoin(s, i, Next(s, i), After(s, i, n), 0, n);
      } else {
        ReadsChar(s, i);
        AfterReads(s, i + 1, n - 1);
        ReadsJoin(s, i, i + 1, After(s, i, n), 1, n - 1);
        if n == 1 {
          OneAfter(s, i);
        }
      }
    }
  }

  lemma QuoteAt(s: string, i: nat, m: nat) returns (j: nat)
    requires i <= |s| && m < |Glyphs(s, i)|
    ensures Reads(s, i, j, m) && i <= j < |s| && SpliceLen(s, j) == 0
    ensures s[j] == Glyphs(s, i)[m].ch && Glyphs(s, j) == Glyphs(s, i)[m..]
  {
    hide SpliceLen, Reads, Glyphs, SkipSplices, After;
    var a := After(s, i, m);
    AfterReads(s, i, m);
    j := SkipSplices(s, a);
    ReadsNothing(s, a);
    ReadsJoin(s, i, a, j, m, 0);
    ReadsGlyphs(s, i, j, m);
    NothingAfter(s);
    ReadsChar(s, j);
  }

  lemma AfterIs(s: string, i: nat, r: nat, n: nat)
    requires i < r <= |s| && Reads(s, i, r, n) && s[r - 1] != '\n'
    ensures After(s, i, n) == r
  {
    hide Reads;
    ReadsAfter(s, i, r, n);
    SplicesEndLines(s, After(s, i, n), r);
  }

  lemma OccursPrefix(x: string, z: string, m: nat, pattern: string, k: int)
    requires m <= |x| && m <= |z| && x[..m] == z[..m] && k + |pattern| <= m
    ensures OccursAt(x, pattern, k) <==> OccursAt(z, pattern, k)
  {
    if 0 <= k {
      assert x[k..k + |pattern|] == x[..m][k..k + |pattern|];
      assert z[k..k + |pattern|] == z[..m][k..k + |pattern|];
    }
  }

  /** What is found within a prefix is found in every text with that prefix. */
  lemma SameFind(x: string, z: string, m: nat, pattern: string, lo: nat, hi: nat, hi': nat)
    requires m <= |x| && m <= |z| && x[..m] == z[..m]
    requires var r := FindBefore(x, pattern, lo, hi); 0 <= r && r + |pattern| <= m && r + |pattern| <= hi'
    ensures FindBefore(z, pattern, lo, hi') == FindBefore(x, pattern, lo, hi)
  {
    hide OccursAt, Find;
    var r, r' := FindBefore(x, pattern, lo, hi), FindBefore(z, pattern, lo, hi');
    OccursPrefix(x, z, m, pattern, r);
    if 0 <= r' < r {
      OccursPrefix(x, z, m, pattern, r');
    }
  }

  lemma SameRaw(x: string, z: string, m: nat)
    requires x != "" && RawEnd(x, 0) == Some(m) && m <= |z| && x[..m] == z[..m]
    ensures RawEnd(z, 0) == Some(m)
  {
    hide FindBefore, OccursAt;
    var open := FindBefore(x, "(", 1, 18);
    var delim := x[1..open];
    var closing := ")" + delim + "\"";
    var close := FindBefore(x, closing, open + 1, |x|);
    assert m == close + |delim| + 2;
    SameFind(x, z, m, "(", 1, 18, 18);
    assert z[1..open] == z[..m][1..open] == x[..m][1..open] == delim;
    SameFind(x, z, m, closing, open + 1, |x|, |z|);
  }

  lemma JoinedSlice(s: string, i: nat, j: nat, e: nat, y: string)
    requires i <= j < e <= |s|
    ensures var z := s[i..e] + y;
            z[j - i] == s[j] && z[j - i..][..e - j] == s[j..][..e - j]
  {
    assert s[j..][..e - j] == s[j..e] == s[i..e][j - i..] == (s[i..e] + y)[j - i..][..e - j];
  }

  lemma SameRawEnd(s: string, i: nat, j: nat, e: nat, y: string)
    requires i <= j < e <= |s| && RawEnd(s, j) == Some(e)
    ensures RawEnd(s[i..e] + y, j - i) == Some(e - i)
  {
    hide RawEnd;
    var z := s[i..e] + y;
    JoinedSlice(s, i, j, e, y);
    RawEndShift(s, j);
    SameRaw(s[j..], z[j - i..], e - j);
    RawEndShift(z, j - i);
  }

  lemma SpliceWithin(s: string, i: nat, j: nat, e: nat, y: string)
    requires i <= j < e <= |s| && Uncrossed(s, i, e, y)
    ensures SpliceLen(s[i..e] + y, j - i) == SpliceLen(s, j)
  {
    hide SpliceLen;
  }

  /** The original text of a raw string, from the word it is prefixed with on. */
  lemma RawWordEnd(s: string, i: nat, m: nat, k: nat) returns (j: nat)
    requires i <= |s| && m < |Glyphs(s, i)| && Glyphs(s, i)[m].ch == '"' && RawLen(Glyphs(s, i)[m..]) == Some(k)
    ensures var e := After(s, i, m + k);
            && i <= j < e <= |s| && Reads(s, i, j, m) && SpliceLen(s, j) == 0 && s[j] == '"'
            && RawEnd(s, j) == Some(e) && Reads(s, j, e, k) && s[e - 1] == '"'
  {
    hide SpliceLen, Reads, Glyphs, After, RawLen, RawEnd;
    j := QuoteAt(s, i, m);
    RawMatches(s, j);
    var r := RawEnd(s, j).value;
    RawEndsInQuote(s, j);
    ReadsJoin(s, i, j, r, m, k);
    AfterIs(s, i, r, m + k);
  }

  lemma ReadsOnce(s: string, i: nat, e: nat, n: nat, n': nat)
    requires Reads(s, i, e, n) && Reads(s, i, e, n')
    ensures n == n'
  {
  }

  lemma SameRawWord(s: string, i: nat, e: nat, m: nat, k: nat, y: string)
    requires i < e <= |s| && m < |Glyphs(s, i)| && Glyphs(s, i)[m].ch == '"' && RawLen(Glyphs(s, i)[m..]) == Some(k)
    requires e == After(s, i, m + k) && Uncrossed(s, i, e, y)
    ensures var h := Phase2(s[i..e] + y); m < |h| && RawLen(h[m..]) == Some(k)
  {
    hide SpliceLen, Reads, Glyphs, After, RawLen, RawEnd, Uncrossed;
    var j := RawWordEnd(s, i, m, k);
    var z := s[i..e] + y;
    SameRawEnd(s, i, j, e, y);
    SpliceWithin(s, i, j, e, y);
    JoinedSlice(s, i, j, e, y);
    RawMatches(z, j - i);
    JoinedReads(s, i, j, e, e, k, y);
    var k' := RawLen(Glyphs(z, j - i)).value;
    ReadsOnce(z, j - i, e - i, k, k');
    JoinedReads(s, i, i, j, e, m, y);
    ReadsGlyphs(z, 0, j - i, m);
    ReadsChar(z, j - i);
  }

  /** The identifier stays. */
  lemma SamePrefix(g: seq<Glyph>, h: seq<Glyph>, n: nat)
    requires g != [] && IdentLen(g) <= n && Alike(g, h, n) && Follows(g[n..], h[n..])
    ensures IdentLen(h) == IdentLen(g) && Chars(g[..IdentLen(g)]) == Chars(h[..IdentLen(g)])
    ensures IdentLen(g) == n && n < |h| ==> IsSpace(h[n].ch) || (n < |g| && g[n].ch == h[n].ch)
  {
    hide IdentLen;
    var m := IdentLen(g);
    IdentStops(g);
    if m == n && n < |h| {
      assert h[n..][0] == h[n];
    }
    SameIdent(g, h, m);
  }

  lemma SamePrefixes(g: seq<Glyph>, h: seq<Glyph>, m: nat, n: nat, cxx: bool, raw: bool)
    requires m <= n && Alike(g, h, n) && Chars(g[..m]) == Chars(h[..m])
    requires m == n && n < |h| ==> IsSpace(h[n].ch) || (n < |g| && g[n].ch == h[n].ch)
    ensures m < n ==> (Prefixes(h, m, cxx, raw) <==> Prefixes(g, m, cxx, raw))
    ensures m == n && Prefixes(h, m, cxx, raw) ==> Prefixes(g, m, cxx, raw)
  {
    hide Chars, IsRawPrefix, IsStringPrefix;
  }

  lemma SameWord(s: string, i: nat, e: nat, n: nat, y: string, cxx: bool, place: Place)
    requires Cut(s, i, e, n, y) && IsIdentStart(s[i]) && WordLen(Glyphs(s, i), cxx) == Some(n)
    ensures var g, h := Glyphs(s, i), Phase2(s[i..e] + y);
            && h != [] && IsIdentStart(h[0].ch) && WordLen(h, cxx) == Some(n)
            && (OpensHeader(h, cxx, place) <==> OpensHeader(g, cxx, place))
  {
    hide IdentLen, QuotedTail, WordLen, OpensHeader, Follows, Prefixes, Glyphs, Phase2, RawLen, NamesHeader, Chars,
      IsIdentStart, Uncrossed, SpliceLen, After, Reads;
    var g, h := Glyphs(s, i), Phase2(s[i..e] + y);
    CutGlyphs(s, i, e, n, y);
    var m := IdentLen(g);
    WordOf(g, cxx, place);
    SamePrefix(g, h, n);
    WordOf(h, cxx, place);
    SamePrefixes(g, h, m, n, cxx, true);
    SamePrefixes(g, h, m, n, cxx, false);
    if Prefixes(g, m, cxx, true) {
      IsRaw(g, m, cxx);
      SameRawPart(s, i, e, m, n, y);
    } else if Prefixes(g, m, cxx, false) {
      SameQuotedPart(g, h, m, n);
    }
  }

  lemma SameRawPart(s: string, i: nat, e: nat, m: nat, n: nat, y: string)
    requires Cut(s, i, e, n, y) && m < n && Glyphs(s, i)[m].ch == '"' && RawLen(Glyphs(s, i)[m..]) == Some(n - m)
    ensures var h := Phase2(s[i..e] + y); m < |h| && RawLen(h[m..]) == Some(n - m)
  {
    hide Follows, Glyphs, Phase2, Uncrossed, RawLen, SpliceLen, After;
    SameRawWord(s, i, e, m, n - m, y);
  }

  lemma SameQuotedPart(g: seq<Glyph>, h: seq<Glyph>, m: nat, n: nat)
    requires m < n && Alike(g, h, n) && Follows(g[n..], h[n..]) && n == m + 1 + QuotedTail(g[m + 1..], g[m].ch)
    ensures n == m + 1 + QuotedTail(h[m + 1..], h[m].ch)
  {
    hide QuotedTail, Follows;
    AlikeTail(g, h, n, m + 1);
    SameQuoted(g[m + 1..], h[m + 1..], n - m - 1, g[m].ch);
  }

  lemma IsRaw(g: seq<Glyph>, m: nat, cxx: bool)
    requires m <= |g| && Prefixes(g, m, cxx, true)
    ensures m < |g| && g[m].ch == '"'
  {
  }

  /** A token of `n` characters between two indices, and a text `y` that can follow it. */
  ghost predicate Cut(s: string, i: nat, e: nat, n: nat, y: string) {
    && i < e <= |s| && SpliceLen(s, i) == 0 && 1 <= n && n <= |Glyphs(s, i)| && e == After(s, i, n)
    && Uncrossed(s, i, e, y) && Follows(Glyphs(s, e), Phase2(y))
  }

  lemma CutGlyphs(s: string, i: nat, e: nat, n: nat, y: string)
    requires Cut(s, i, e, n, y)
    ensures var g, h := Glyphs(s, i), Phase2(s[i..e] + y);
            && 1 <= n && Alike(g, h, n) && g[n..] == Glyphs(s, e) && h[n..] == Phase2(y) && Chars(g[..n]) == Chars(h[..n])
            && Follows(g[n..], h[n..]) && g[0].ch == s[i] == h[0].ch && Reads(s, i, e, n)
  {
    hide Follows, Glyphs, Uncrossed, SpliceLen, Reads, After;
    AfterReads(s, i, n);
    JoinedGlyphs(s, i, e, n, y);
    ReadsChar(s, i);
  }

  /** A token is the same token with what can follow it. */
  lemma SameToken(s: string, cxx: bool, i: nat, e: nat, n: nat, y: string, place: Place)
    requires Cut(s, i, e, n, y) && (NoClose(s[e..]) ==> NoClose(y)) && TokenLen(Glyphs(s, i), cxx, place) == Some(n)
    ensures var g, h := Glyphs(s, i), Phase2(s[i..e] + y);
            && h != [] && TokenLen(h, cxx, place) == Some(n) && NextPlace(h, cxx, place) == NextPlace(g, cxx, place)
  {
    hide WordLen, OtherLen, OpensHeader, HeaderLen, NoClose, Follows, Glyphs, Uncrossed, SpliceLen, Reads, After;
    CutGlyphs(s, i, e, n, y);
    var g, h := Glyphs(s, i), Phase2(s[i..e] + y);
    if s[i] == '#' && place.lineStart {
    } else if s[i] == '<' && place.headerAllowed {
      SameHeaderName(s, i, e, n, y);
    } else if IsIdentStart(s[i]) {
      SameWord(s, i, e, n, y, cxx, place);
    } else {
      SameOther(g, h, n);
    }
  }

  // ---------------------------------------------------------------------------
  // How a token ends

  lemma {:induction false} QuotedEnds(g: seq<Glyph>, quote: char)
    ensures var n := QuotedTail(g, quote); AtLineEnd(g[n..]) || (n > 0 && g[n - 1].ch == quote)
    decreases |g|
  {
    if AtLineEnd(g) {
    } else if g[0].ch == '\\' {
      if |g| >= 2 && g[1].ch != '\n' {
        QuotedEnds(g[2..], quote);
      }
    } else if g[0].ch != quote {
      QuotedEnds(g[1..], quote);
    }
  }

  lemma {:induction false} NumberLast(g: seq<Glyph>, prev: char)
    requires NumberTail(g, prev) > 0
    ensures !Trails(g[NumberTail(g, prev) - 1].ch)
    decreases |g|
  {
    if NumberTail(g[1..], g[0].ch) > 0 {
      NumberLast(g[1..], g[0].ch);
    }
  }

  lemma OtherEnds(g: seq<Glyph>)
    requires g != [] && !Trails(g[0].ch)
    ensures var n := OtherLen(g); AtLineEnd(g[n..]) || !Trails(g[n - 1].ch)
  {
    hide NumberTail, QuotedTail;
    var n := OtherLen(g);
    if StartsNumber(g) {
      if NumberTail(g[1..], ' ') > 0 {
        NumberLast(g[1..], ' ');
      }
    } else if g[0].ch == '"' || g[0].ch == '\'' {
      QuotedEnds(g[1..], g[0].ch);
      assert g[1..][n - 1..] == g[n..];
    }
  }

  lemma WordEnds(s: string, i: nat, n: nat, cxx: bool)
    requires i < |s| && Glyphs(s, i) != [] && IsIdentStart(Glyphs(s, i)[0].ch) && WordLen(Glyphs(s, i), cxx) == Some(n)
    ensures var g := Glyphs(s, i); AtLineEnd(g[n..]) || !Trails(g[n - 1].ch)
  {
    hide IdentLen, QuotedTail, WordLen, OpensHeader, Prefixes, Glyphs, RawLen, AtLineEnd, Trails;
    var g := Glyphs(s, i);
    var m := IdentLen(g);
    WordOf(g, cxx, START);
    if Prefixes(g, m, cxx, true) {
      IsRaw(g, m, cxx);
      RawEndsClosed(s, i, m, n - m);
    } else if Prefixes(g, m, cxx, false) {
      IsQuote(g, m, cxx);
      LiteralEnds(g, m);
    } else {
      IdentSome(g);
      IdentLast(g);
    }
  }

  lemma RawEndsClosed(s: string, i: nat, m: nat, k: nat)
    requires i <= |s| && m < |Glyphs(s, i)| && Glyphs(s, i)[m].ch == '"' && RawLen(Glyphs(s, i)[m..]) == Some(k)
    ensures !Trails(Glyphs(s, i)[m + k - 1].ch)
  {
    hide Glyphs, RawLen, Reads, After;
    var j := RawWordEnd(s, i, m, k);
    AfterReads(s, i, m + k);
  }

  lemma LiteralEnds(g: seq<Glyph>, m: nat)
    requires m < |g| && (g[m].ch == '"' || g[m].ch == '\'')
    ensures var n := m + 1 + QuotedTail(g[m + 1..], g[m].ch); AtLineEnd(g[n..]) || !Trails(g[n - 1].ch)
  {
    hide QuotedTail, AtLineEnd;
    var k := QuotedTail(g[m + 1..], g[m].ch);
    QuotedEnds(g[m + 1..], g[m].ch);
    assert g[m + 1..][k..] == g[m + 1 + k..];
  }

  lemma IdentLast(g: seq<Glyph>)
    requires IdentLen(g) >= 1
    ensures !Trails(g[IdentLen(g) - 1].ch)
  {
    hide IdentLen;
    IdentStops(g);
  }

  lemma IsQuote(g: seq<Glyph>, m: nat, cxx: bool)
    requires m <= |g| && Prefixes(g, m, cxx, false)
    ensures m < |g| && (g[m].ch == '"' || g[m].ch == '\'')
  {
  }

  lemma IdentSome(g: seq<Glyph>)
    requires g != [] && IsIdentStart(g[0].ch)
    ensures IdentLen(g) >= 1
  {
  }

  lemma {:induction false} HeaderLast(g: seq<Glyph>)
    requires g != [] && HeaderTail(g).Some?
    ensures g[HeaderTail(g).value].ch == '>'
  {
    if g[1].ch != '>' {
      HeaderLast(g[1..]);
    }
  }

  /** No token but a lone backslash ends in a backslash or a blank, unless the line ends behind it. */
  lemma TokenEnds(s: string, cxx: bool, i: nat, n: nat, place: Place)
    requires i < |s| && Glyphs(s, i) != [] && !Trails(Glyphs(s, i)[0].ch) && TokenLen(Glyphs(s, i), cxx, place) == Some(n)
    ensures var g := Glyphs(s, i); AtLineEnd(g[n..]) || !Trails(g[n - 1].ch)
  {
    hide WordLen, OtherLen, HeaderTail, Glyphs, AtLineEnd;
    var g := Glyphs(s, i);
    if g[0].ch == '#' && place.lineStart {
    } else if g[0].ch == '<' && place.headerAllowed {
      if HeaderTail(g).Some? {
        HeaderLast(g);
      }
    } else if IsIdentStart(g[0].ch) {
      WordEnds(s, i, n, cxx);
    } else {
      OtherEnds(g);
    }
  }

  // ---------------------------------------------------------------------------
  // What follows a token, before and after

  lemma {:induction false} LineStops(g: seq<Glyph>)
    ensures AtLineEnd(g[LineLen(g)..])
  {
    if !AtLineEnd(g) {
      LineStops(g[1..]);
      assert g[LineLen(g)..] == g[1..][LineLen(g[1..])..];
    }
  }

  lemma SlashAhead(s: string, i: nat, c: char)
    requires i < |s| && SpliceLen(s, i) == 0 && StartsWith(Glyphs(s, i), '/', c)
    ensures s[i] == '/'
  {
    hide SpliceLen, Glyphs, Reads;
    ReadsChar(s, i);
  }

  lemma LineFacts(s: string, cxx: bool, i: nat, e: nat, place: Place)
    requires i <= |s| && First(s, cxx, i, place) == Piece.LineComment(e)
    ensures i < |s| && SpliceLen(s, i) == 0 && StartsWith(Glyphs(s, i), '/', '/') && s[i] == '/'
    ensures e == LineCommentStop(s, i)
  {
    hide SpliceLen, TokenLen, BlockLen, LineCommentStop, After, Glyphs;
    SlashAhead(s, i, '/');
  }

  /** Behind a line comment the line ends. */
  lemma LineStop(s: string, cxx: bool, i: nat, e: nat, place: Place)
    requires i <= |s| && First(s, cxx, i, place) == Piece.LineComment(e)
    ensures SpliceLen(s, e) == 0 && (e == |s| || s[e] == '\n') && AtLineEnd(Glyphs(s, e))
    ensures Glyphs(s, e) == Glyphs(s, i)[2 + LineLen(Glyphs(s, i)[2..])..]
  {
    hide SpliceLen, After, First, SkipSplices, LineLen, Glyphs, Reads;
    LineFacts(s, cxx, i, e, place);
    var g := Glyphs(s, i);
    var n := 2 + LineLen(g[2..]);
    var a := After(s, i, n);
    AfterReads(s, i, n);
    ReadsGlyphs(s, i, a, n);
    ReadsNothing(s, a);
    LineStops(g[2..]);
    assert g[n..] == g[2..][n - 2..];
    if e < |s| {
      ReadsChar(s, e);
    }
  }

  lemma BlockFacts(s: string, cxx: bool, i: nat, e: nat, place: Place)
    requires i <= |s| && First(s, cxx, i, place) == Piece.BlockComment(e)
    ensures i < |s| && SpliceLen(s, i) == 0 && StartsWith(Glyphs(s, i), '/', '*') && s[i] == '/'
    ensures var r := BlockLen(Glyphs(s, i)[2..]); r.Some? && e == After(s, i, 2 + r.value)
  {
    hide SpliceLen, TokenLen, BlockLen, LineCommentStop, After, Glyphs;
    SlashAhead(s, i, '*');
  }

  lemma BlockStop(s: string, cxx: bool, i: nat, e: nat, place: Place)
    requires i <= |s| && First(s, cxx, i, place) == Piece.BlockComment(e)
    ensures var r := BlockLen(Glyphs(s, i)[2..]); r.Some? && Glyphs(s, e) == Glyphs(s, i)[2 + r.value..]
  {
    hide SpliceLen, After, First, BlockLen, Glyphs, Reads;
    BlockFacts(s, cxx, i, e, place);
    var n := 2 + BlockLen(Glyphs(s, i)[2..]).value;
    AfterReads(s, i, n);
    ReadsGlyphs(s, i, e, n);
  }

  lemma FirstCharacter(s: string, cxx: bool, i: nat, place: Place)
    requires i <= |s|
    ensures var p := First(s, cxx, i, place);
            && (p.Splice? <==> i < |s| && SpliceLen(s, i) > 0)
            && (p.Splice? ==> p.e == i + SpliceLen(s, i) && s[i] == '\\')
            && (p.Newline? <==> i < |s| && SpliceLen(s, i) == 0 && s[i] == '\n')
            && (p.Blank? <==> i < |s| && SpliceLen(s, i) == 0 && IsBlank(s[i]))
            && (p.Return? <==> i < |s| && SpliceLen(s, i) == 0 && s[i] == '\r')
  {
    hide TokenLen, BlockLen, LineCommentStop, After, Glyphs;
  }

  /** No comment starts a text, and no blank. */
  ghost predicate StartsSolid(s: string, cxx: bool, i: nat, place: Place)
    requires i <= |s|
  {
    var p := First(s, cxx, i, place);
    (i == |s| || !IsHSpace(s[i])) && !p.LineComment? && !p.BlockComment?
  }

  /** What is left of a text that starts with a line end, a splice or a token starts like it. */
  lemma RemovedHead(s: string, cxx: bool, i: nat, place: Place, inDirective: bool)
    requires i <= |s| && StartsSolid(s, cxx, i, place)
    ensures var y := Removed(s, cxx, i, place, inDirective, ""); y == "" || (i < |s| && y[0] == s[i])
    ensures First(s, cxx, i, place).Newline? ==> Removed(s, cxx, i, place, inDirective, "") != ""
  {
    hide First, Removed, NextPlace, SpliceLen, Glyphs;
    FirstCharacter(s, cxx, i, place);
    RemovedStep(s, cxx, i, place, inDirective, "");
  }

  lemma RemovedWith(s: string, cxx: bool, i: nat, place: Place, inDirective: bool, blanks: string)
    requires i <= |s| && StartsSolid(s, cxx, i, place)
    ensures Removed(s, cxx, i, place, inDirective, blanks) == blanks + Removed(s, cxx, i, place, inDirective, "")
  {
    hide First, Removed, NextPlace, SpliceLen, Glyphs;
    FirstCharacter(s, cxx, i, place);
    RemovedStep(s, cxx, i, place, inDirective, "");
    RemovedStep(s, cxx, i, place, inDirective, blanks);
  }

  lemma AlikeAtLineEnd(s: string, cxx: bool, e: nat, place: Place, inDirective: bool)
    requires e <= |s| && AtLineEnd(Glyphs(s, e))
    ensures LineEndsAlike(s, e, Removed(s, cxx, e, place, inDirective, ""))
  {
    hide First, Removed, SpliceLen, Glyphs;
    FirstCharacter(s, cxx, e, place);
    if e < |s| && SpliceLen(s, e) == 0 {
      ReadsChar(s, e);
    }
    RemovedHead(s, cxx, e, place, inDirective);
  }

  lemma {:induction false} HSpaceEnds(s: string, k: nat)
    requires k <= |s|
    ensures var r := SkipHSpace(s, k); (r < |s| ==> !IsHSpace(s[r])) && forall x :: k <= x < r ==> IsHSpace(s[x])
    decreases |s| - k
  {
    if k < |s| && IsHSpace(s[k]) {
      HSpaceEnds(s, k + 1);
    }
  }

  /** What is left of the text behind a token. */
  ghost function Behind(s: string, cxx: bool, i: nat, e: nat, place: Place, inDirective: bool): string
    requires i < e <= |s| && Glyphs(s, i) != []
  {
    Removed(s, cxx, e, NextPlace(Glyphs(s, i), cxx, place), inDirective || (s[i] == '#' && place.lineStart), "")
  }

  /** Whether what is left of the text from `e` on makes a splice of a backslash in front of it. */
  ghost predicate EndsLine(x: string, returned: bool) {
    if x == "" then false
    else if x[0] == '\n' then true
    else if IsBlank(x[0]) then !returned && EndsLine(x[1..], false)
    else x[0] == '\r' && !returned && EndsLine(x[1..], true)
  }

  lemma {:induction false} BlanksEndLine(p: string, x: string, returned: bool)
    requires OnlyBlanks(p)
    ensures EndsLine(p + x, returned) <==> (returned ==> p == "") && EndsLine(x, returned)
  {
    if p == "" {
      assert p + x == x;
    } else {
      assert (p + x)[0] == p[0] && IsBlank(p[0]) && (p + x)[1..] == p[1..] + x;
      BlanksEndLine(p[1..], x, returned);
    }
  }

  ghost predicate OnlyBlanks(p: string) {
    forall i :: 0 <= i < |p| ==> IsBlank(p[i])
  }

  lemma {:induction false} BackslashSplices(z: string, k: nat)
    requires 1 <= k <= |z| && z[0] == '\\' && forall j :: 1 <= j < k ==> IsBlank(z[j])
    ensures SpliceLen(z, 0) > 0 <==> EndsLine(z[k..], false)
    decreases |z| - k
  {
    if k < |z| && IsBlank(z[k]) {
      BackslashSplices(z, k + 1);
      assert z[k..][1..] == z[k + 1..];
    } else {
      BlanksSkipped(z, 1, k);
      if k < |z| {
        assert z[k..][0] == z[k];
        assert z[k..][1..] == z[k + 1..];
      }
    }
  }

  lemma {:induction false} BlanksSkipped(s: string, j: nat, k: nat)
    requires j <= k <= |s| && (forall x :: j <= x < k ==> IsBlank(s[x])) && (k < |s| ==> !IsBlank(s[k]))
    ensures SkipBlanks(s, j) == k
    decreases k - j
  {
    if j < k {
      BlanksSkipped(s, j + 1, k);
    }
  }

  /** The condition on the text is the condition on what is left of it. */
  lemma {:induction false} CutShortIs(s: string, cxx: bool, i: nat, place: Place, inDirective: bool, returned: bool, blanks: string)
    requires i <= |s| && OnlyBlanks(blanks)
    ensures EndsLine(Removed(s, cxx, i, place, inDirective, blanks), returned)
            <==> CutShort(s, cxx, i, place, inDirective, returned, blanks != "")
    decreases |s| - i
  {
    hide First, Removed, NextPlace, Replacement, SpliceLen, EndsLine, Glyphs;
    RemovedStep(s, cxx, i, place, inDirective, blanks);
    FirstCharacter(s, cxx, i, place);
    match First(s, cxx, i, place)
    case End => EndsNowhere(blanks, "", returned);
    case Malformed => EndsNowhere(blanks, "", returned);
    case Newline =>
      var y := Removed(s, cxx, i + 1, START, false, "");
      PieceEndsLine(blanks, "\n", y, returned);
    case Blank => CutShortIs(s, cxx, i + 1, place, inDirective, returned, blanks + [s[i]]);
    case Return =>
      CutShortIs(s, cxx, i + 1, place, inDirective, true, "");
      PieceEndsLine(blanks, "\r", Removed(s, cxx, i + 1, place, inDirective, ""), returned);
    case Splice(e) => PieceEndsLine(blanks, s[i..e], Removed(s, cxx, e, place, inDirective, ""), returned);
    case LineComment(e) =>
      CutShortLine(s, cxx, i, e, place, inDirective);
      LineEnds(Removed(s, cxx, i, place, inDirective, blanks), returned);
    case BlockComment(e) =>
      ReplacementOpen(s, i, e, inDirective);
      if Replacement(s, i, e, inDirective) == " " {
        CutShortIs(s, cxx, e, place, inDirective, returned, blanks + " ");
      } else {
        ReplacementEndsLine(s, i, e, inDirective, blanks, Removed(s, cxx, e, place, inDirective, ""), returned);
      }
    case Token(e, n) =>
      TokenAhead(s, cxx, i, place);
      PieceEndsLine(blanks, s[i..e], Behind(s, cxx, i, e, place, inDirective), returned);
  }

  lemma EndsNowhere(blanks: string, x: string, returned: bool)
    requires OnlyBlanks(blanks) && x == ""
    ensures !EndsLine(blanks, returned)
  {
    BlanksEndLine(blanks, x, returned);
    assert blanks + x == blanks;
  }

  lemma LineEnds(x: string, returned: bool)
    requires x == "" || x[0] == '\n'
    ensures EndsLine(x, returned) <==> x != ""
  {
  }

  lemma PieceEndsLine(blanks: string, piece: string, y: string, returned: bool)
    requires OnlyBlanks(blanks) && piece != "" && !IsBlank(piece[0])
    ensures piece[0] == '\n' ==> (EndsLine(blanks + piece + y, returned) <==> (returned ==> blanks == ""))
    ensures piece == "\r" ==> (EndsLine(blanks + piece + y, returned) <==> !returned && EndsLine(y, true))
    ensures piece[0] != '\n' && piece[0] != '\r' ==> !EndsLine(blanks + piece + y, returned)
  {
    BlanksEndLine(blanks, piece + y, returned);
    assert blanks + (piece + y) == blanks + piece + y;
    assert piece == "\r" ==> (piece + y)[1..] == y;
  }

  /** Behind a line comment nothing is left exactly at the end of the text. */
  lemma CutShortLine(s: string, cxx: bool, i: nat, e: nat, place: Place, inDirective: bool)
    requires i <= |s| && First(s, cxx, i, place) == Piece.LineComment(e)
    ensures forall blanks: string ::
              var y := Removed(s, cxx, i, place, inDirective, blanks);
              (y == "" || y[0] == '\n') && (y != "" <==> '\n' in s[i..e] || e < |s|)
  {
    hide First, Removed, SpliceLen, Repeat;
    LineStop(s, cxx, i, e, place);
    FirstCharacter(s, cxx, e, place);
    RemovedHead(s, cxx, e, place, inDirective);
    RemovedStep(s, cxx, e, place, inDirective, "");
    RepeatHead(Newlines(s[i..e]));
    forall blanks: string ensures Removed(s, cxx, i, place, inDirective, blanks)
                                  == Repeat("\n", Newlines(s[i..e])) + Removed(s, cxx, e, place, inDirective, "") {
      RemovedStep(s, cxx, i, place, inDirective, blanks);
    }
  }

  lemma ReplacementEndsLine(s: string, i: nat, e: nat, inDirective: bool, blanks: string, y: string, returned: bool)
    requires i <= e <= |s| && OnlyBlanks(blanks) && '\n' in s[i..e]
    ensures EndsLine(blanks + Replacement(s, i, e, inDirective) + y, returned) <==> !returned && !inDirective && !HashFollows(s, e)
  {
    hide HashFollows, EndsLine, Repeat;
    var k := Newlines(s[i..e]);
    var unit := if inDirective || HashFollows(s, e) then "\\\n" else "\n";
    var r := Repeat(unit, k);
    UnitHead(unit, k);
    PieceEndsLine(blanks + " ", r, y, returned);
    assert (blanks + " ") + r + y == blanks + (" " + r) + y;
  }

  lemma {:induction false} UnitHead(unit: string, k: nat)
    requires unit != "" && k > 0
    ensures Repeat(unit, k) != "" && Repeat(unit, k)[0] == unit[0]
  {
    if k > 1 {
      UnitHead(unit, k - 1);
    } else {
      NothingBefore(unit);
    }
  }

  /** A lone backslash stays what it is exactly when no line is cut short behind it. */
  lemma BackslashStays(s: string, cxx: bool, i: nat, place: Place, inDirective: bool)
    requires i < |s| && s[i] == '\\'
    ensures var y := Removed(s, cxx, i + 1, place, inDirective, "");
            SpliceLen("\\" + y, 0) > 0 <==> CutShort(s, cxx, i + 1, place, inDirective, false, false)
  {
    hide Removed, CutShort, SpliceLen, EndsLine;
    var y := Removed(s, cxx, i + 1, place, inDirective, "");
    CutShortIs(s, cxx, i + 1, place, inDirective, false, "");
    BackslashSplices("\\" + y, 1);
    assert ("\\" + y)[1..] == y;
  }

  lemma LoneBackslash(s: string, cxx: bool, i: nat, e: nat, n: nat, place: Place)
    requires i <= |s| && First(s, cxx, i, place) == Token(e, n) && s[i] == '\\'
    ensures n == 1 && e == i + 1 && s[i..e] == "\\"
  {
    hide First, SpliceLen, WordLen, Glyphs;
    TokenAhead(s, cxx, i, place);
    BackslashAlone(Glyphs(s, i), cxx, place);
    OneAfter(s, i);
  }

  lemma BackslashAlone(g: seq<Glyph>, cxx: bool, place: Place)
    requires g != [] && g[0].ch == '\\'
    ensures TokenLen(g, cxx, place) == Some(1)
  {
  }

  lemma UncrossedOne(s: string, i: nat, y: string)
    requires i < |s| && s[i] == '\\' && SpliceLen(s, i) == 0
    ensures SpliceLen("\\" + y, 0) == 0 <==> Uncrossed(s, i, i + 1, y)
  {
    hide SpliceLen;
    assert s[i..i + 1] == "\\";
    if Uncrossed(s, i, i + 1, y) {
      SpliceAtStart(s, i, i + 1, y);
    }
  }

  lemma TokenUncrossed(s: string, cxx: bool, i: nat, e: nat, n: nat, place: Place, inDirective: bool)
    requires i <= |s| && First(s, cxx, i, place) == Token(e, n)
    ensures i < e <= |s| && Glyphs(s, i) != []
    ensures var next, inside := NextPlace(Glyphs(s, i), cxx, place), inDirective || (s[i] == '#' && place.lineStart);
            Uncrossed(s, i, e, Behind(s, cxx, i, e, place, inDirective))
            <==> !(s[i] == '\\' && CutShort(s, cxx, e, next, inside, false, false))
  {
    hide First, Removed, SpliceLen, Glyphs, TokenLen, NextPlace, Uncrossed, CutShort, LineEndsAlike, After, Reads, AtLineEnd;
    TokenAhead(s, cxx, i, place);
    AfterReads(s, i, n);
    ReadsGlyphs(s, i, e, n);
    var next, inside := NextPlace(Glyphs(s, i), cxx, place), inDirective || (s[i] == '#' && place.lineStart);
    if s[i] == '\\' {
      LoneBackslash(s, cxx, i, e, n, place);
      BackslashStays(s, cxx, i, next, inside);
      UncrossedOne(s, i, Behind(s, cxx, i, e, place, inDirective));
    } else {
      TokenEnds(s, cxx, i, n, place);
      if AtLineEnd(Glyphs(s, e)) {
        AlikeAtLineEnd(s, cxx, e, next, inside);
      }
      PathOf(s, i, e, n);
      Uncross(s, i, e, Behind(s, cxx, i, e, place, inDirective));
    }
  }

  lemma PathOf(s: string, i: nat, e: nat, n: nat)
    requires Reads(s, i, e, n)
    ensures e <= |s| && Path(s, i, e)
  {
  }

  /** The first character of a text that is not a backslash. */
  lemma HeadOf(y: string)
    requires y != "" && y[0] != '\\'
    ensures SpliceLen(y, 0) == 0 && Phase2(y) != [] && Phase2(y)[0].ch == y[0] && Phase2(y)[1..] == Phase2(y[1..])
  {
    hide SpliceLen, Glyphs, Reads;
    NoSplice(y, 0);
    ReadsChar(y, 0);
    GlyphsSuffix(y, 1, 0);
  }

  ghost predicate StartsBlank(y: string) {
    y == "" || IsSpace(y[0])
  }

  lemma BlankFollows(g: seq<Glyph>, y: string)
    requires g != [] && g[0].ch != '\n' && StartsBlank(y)
    ensures Follows(g, Phase2(y))
  {
    hide Phase2;
    if y == "" {
      NothingLeft();
    } else {
      HeadOf(y);
    }
  }

  lemma NothingLeft()
    ensures Phase2("") == []
  {
  }

  ghost predicate AllBlank(s: string) {
    forall i :: 0 <= i < |s| ==> IsHSpace(s[i])
  }

  lemma RepeatHead(k: nat)
    ensures Repeat("\n", k) == "" <==> k == 0
    ensures k > 0 ==> Repeat("\n", k)[0] == '\n'
  {
  }

  /** Behind a line comment there is a line end or nothing. */
  lemma RemovedLine(s: string, cxx: bool, i: nat, e: nat, place: Place, inDirective: bool, blanks: string)
    requires i <= |s| && First(s, cxx, i, place) == Piece.LineComment(e)
    ensures var y := Removed(s, cxx, i, place, inDirective, blanks); y == "" || y[0] == '\n'
  {
    hide First, Removed, SpliceLen, Repeat, Newlines;
    RemovedStep(s, cxx, i, place, inDirective, blanks);
    LineStop(s, cxx, i, e, place);
    FirstCharacter(s, cxx, e, place);
    RemovedHead(s, cxx, e, place, inDirective);
    RepeatHead(Newlines(s[i..e]));
  }

  lemma ReplacementHead(s: string, i: nat, e: nat, inDirective: bool)
    requires i <= e <= |s|
    ensures Replacement(s, i, e, inDirective) != "" && Replacement(s, i, e, inDirective)[0] == ' '
  {
    hide Newlines, HashFollows, Repeat;
  }

  /** After blanks come blanks, a line end, or nothing. */
  lemma {:induction false} RemovedBlanks(s: string, cxx: bool, i: nat, place: Place, inDirective: bool, blanks: string)
    requires i <= |s| && AllBlank(blanks) && blanks != ""
    ensures StartsBlank(Removed(s, cxx, i, place, inDirective, blanks))
    decreases |s| - i
  {
    hide First, Removed, NextPlace, Replacement;
    RemovedStep(s, cxx, i, place, inDirective, blanks);
    FirstCharacter(s, cxx, i, place);
    match First(s, cxx, i, place)
    case Blank => RemovedBlanks(s, cxx, i + 1, place, inDirective, blanks + [s[i]]);
    case LineComment(e) => RemovedLine(s, cxx, i, e, place, inDirective, blanks);
    case BlockComment(e) =>
      if Replacement(s, i, e, inDirective) == " " {
        RemovedBlanks(s, cxx, e, place, inDirective, blanks + " ");
      }
    case _ => assert IsHSpace(blanks[0]);
  }

  lemma RemovedBlock(s: string, cxx: bool, i: nat, e: nat, place: Place, inDirective: bool)
    requires i <= |s| && First(s, cxx, i, place) == Piece.BlockComment(e)
    ensures StartsBlank(Removed(s, cxx, i, place, inDirective, ""))
  {
    hide First, Removed, NextPlace, Replacement;
    RemovedStep(s, cxx, i, place, inDirective, "");
    ReplacementHead(s, i, e, inDirective);
    if Replacement(s, i, e, inDirective) == " " {
      RemovedBlanks(s, cxx, e, place, inDirective, "" + " ");
    }
  }

  /** One step of the definitions. */
  ghost predicate KeepsBackslashesBy(s: string, cxx: bool, i: nat, place: Place, inDirective: bool)
    requires i <= |s|
  {
    match First(s, cxx, i, place)
    case End => true
    case Malformed => true
    case Newline => KeepsBackslashes(s, cxx, i + 1, START, false)
    case Blank => KeepsBackslashes(s, cxx, i + 1, place, inDirective)
    case Return => KeepsBackslashes(s, cxx, i + 1, place, inDirective)
    case Splice(e) => KeepsBackslashes(s, cxx, e, place, inDirective)
    case LineComment(e) => KeepsBackslashes(s, cxx, e, place, inDirective)
    case BlockComment(e) => KeepsBackslashes(s, cxx, e, place, inDirective)
    case Token(e, n) =>
      var next, inside := NextPlace(Glyphs(s, i), cxx, place), inDirective || (s[i] == '#' && place.lineStart);
      && (s[i] == '\\' ==> !CutShort(s, cxx, e, next, inside, false, false))
      && KeepsBackslashes(s, cxx, e, next, inside)
  }

  lemma KeepsBackslashesStep(s: string, cxx: bool, i: nat, place: Place, inDirective: bool)
    requires i <= |s|
    ensures KeepsBackslashes(s, cxx, i, place, inDirective) <==> KeepsBackslashesBy(s, cxx, i, place, inDirective)
  {
    hide First, NextPlace, CutShort;
  }

  ghost predicate KeepsBracketsBy(s: string, cxx: bool, i: nat, place: Place, inDirective: bool, left: Place)
    requires i <= |s|
  {
    match First(s, cxx, i, place)
    case End => true
    case Malformed => true
    case Newline => KeepsBrackets(s, cxx, i + 1, START, false, START)
    case Blank => KeepsBrackets(s, cxx, i + 1, place, inDirective, left)
    case Return => KeepsBrackets(s, cxx, i + 1, place, inDirective, left)
    case Splice(e) => KeepsBrackets(s, cxx, e, place, inDirective, left)
    case LineComment(e) => KeepsBrackets(s, cxx, e, place, inDirective, left)
    case BlockComment(e) => KeepsBrackets(s, cxx, e, place, inDirective, LeftPlace(s, i, e, inDirective, left))
    case Token(e, n) =>
      var g := Glyphs(s, i);
      var next, inside := NextPlace(g, cxx, place), inDirective || (s[i] == '#' && place.lineStart);
      && (s[i] == '<' && left.headerAllowed && !place.headerAllowed ==> StaysOpen(s, cxx, e, next, inside))
      && KeepsBrackets(s, cxx, e, next, inside, NextPlace(g, cxx, left))
  }

  lemma KeepsBracketsStep(s: string, cxx: bool, i: nat, place: Place, inDirective: bool, left: Place)
    requires i <= |s|
    ensures KeepsBrackets(s, cxx, i, place, inDirective, left) <==> KeepsBracketsBy(s, cxx, i, place, inDirective, left)
  {
    hide First, NextPlace, StaysOpen, LeftPlace;
  }

  /** A splice in front of a text is not read. */
  lemma SpliceFront(s: string, i: nat, e: nat, y: string)
    requires i < |s| && SpliceLen(s, i) > 0 && e == i + SpliceLen(s, i)
    ensures Phase2(s[i..e] + y) == Phase2(y)
  {
    hide SpliceLen, Glyphs, Reads;
    var z := s[i..e] + y;
    assert s[i..e] == z[..e - i];
    SameSplice(s, z, i, i, e);
    ReadsSplice(z, 0);
    Joined(s[i..e], y);
  }

  /** What is left of the text behind a token can stand behind it. */
  lemma {:induction false} RemovedFollows(s: string, cxx: bool, i: nat, place: Place, inDirective: bool)
    requires i <= |s| && KeepsBackslashes(s, cxx, i, place, inDirective)
    ensures Follows(Glyphs(s, i), Phase2(Removed(s, cxx, i, place, inDirective, "")))
    decreases |s| - i
  {
    hide First, Removed, NextPlace, Glyphs, SpliceLen, Follows, KeepsBackslashes, CutShort, Replacement, Phase2;
    KeepsBackslashesStep(s, cxx, i, place, inDirective);
    RemovedStep(s, cxx, i, place, inDirective, "");
    FirstCharacter(s, cxx, i, place);
    if i < |s| && SpliceLen(s, i) == 0 {
      ReadsChar(s, i);
    }
    var y := Removed(s, cxx, i, place, inDirective, "");
    match First(s, cxx, i, place)
    case End =>
      NothingAfter(s);
      NothingLeft();
      NoneFollows([], []);
    case Malformed =>
      NothingLeft();
      NoneFollows(Glyphs(s, i), []);
    case Newline =>
      HeadOf(y);
      LineEndFollows(Glyphs(s, i), Phase2(y));
    case Return => BlankFollows(Glyphs(s, i), y);
    case Blank =>
      RemovedBlanks(s, cxx, i + 1, place, inDirective, "" + [s[i]]);
      BlankFollows(Glyphs(s, i), y);
    case Splice(e) =>
      ReadsSplice(s, i);
      RemovedFollows(s, cxx, e, place, inDirective);
      NothingBefore(s[i..e]);
      SpliceFront(s, i, e, Removed(s, cxx, e, place, inDirective, ""));
    case LineComment(e) =>
      LineFacts(s, cxx, i, e, place);
      RemovedLine(s, cxx, i, e, place, inDirective, "");
      BlankFollows(Glyphs(s, i), y);
    case BlockComment(e) =>
      BlockFacts(s, cxx, i, e, place);
      RemovedBlock(s, cxx, i, e, place, inDirective);
      BlankFollows(Glyphs(s, i), y);
    case Token(e, n) =>
      TokenAhead(s, cxx, i, place);
      TokenUncrossed(s, cxx, i, e, n, place, inDirective);
      var next, inside := NextPlace(Glyphs(s, i), cxx, place), inDirective || (s[i] == '#' && place.lineStart);
      RemovedFollows(s, cxx, e, next, inside);
      NothingBefore(s[i..e]);
      TokenFollows(s, cxx, i, e, n, place, Behind(s, cxx, i, e, place, inDirective));
  }

  lemma NoneFollows(g: seq<Glyph>, h: seq<Glyph>)
    requires h == []
    ensures Follows(g, h)
  {
  }

  lemma LineEndFollows(g: seq<Glyph>, h: seq<Glyph>)
    requires h != [] && h[0].ch == '\n'
    ensures Follows(g, h)
  {
  }

  lemma TokenFollows(s: string, cxx: bool, i: nat, e: nat, n: nat, place: Place, y: string)
    requires Cut(s, i, e, n, y) && TokenLen(Glyphs(s, i), cxx, place) == Some(n) && s[i] != '\n' && !IsHSpace(s[i])
    ensures Follows(Glyphs(s, i), Phase2(s[i..e] + y))
  {
    hide TokenLen, Uncrossed, Glyphs, After, SpliceLen, Reads;
    CutGlyphs(s, i, e, n, y);
    var g, h := Glyphs(s, i), Phase2(s[i..e] + y);
    if s[i] == '\'' && |h| >= 2 && n == 1 {
      LoneQuote(g, cxx, place);
      assert h[1] == h[1..][0];
    }
  }

  lemma LoneQuote(g: seq<Glyph>, cxx: bool, place: Place)
    requires g != [] && g[0].ch == '\'' && TokenLen(g, cxx, place) == Some(1)
    ensures AtLineEnd(g[1..])
  {
  }

  // ---------------------------------------------------------------------------
  // Brackets

  lemma {:induction false} BlanksOpen(blanks: string)
    requires AllBlank(blanks)
    ensures NoClose(blanks) && '\n' !in blanks
  {
    if blanks != [] {
      assert IsHSpace(blanks[0]);
      BlanksOpen(blanks[1..]);
    }
  }

  /** Blanks, then a copied piece of text and the rest. */
  lemma CopiedOpen(s: string, i: nat, e: nat, blanks: string, y: string)
    requires i < e <= |s| && AllBlank(blanks) && NoClose(s[i..]) && (NoClose(s[e..]) ==> NoClose(y))
    ensures NoClose(blanks + s[i..e] + y)
  {
    hide ClosesAt;
    BlanksOpen(blanks);
    assert s[i..] == s[i..e] + s[e..];
    ClosesConcat(s[i..e], s[e..]);
    ClosesConcat(s[i..e], y);
    ClosesConcat(blanks, s[i..e] + y);
    assert blanks + (s[i..e] + y) == blanks + s[i..e] + y;
  }

  lemma ReplacementOpen(s: string, i: nat, e: nat, inDirective: bool)
    requires i <= e <= |s|
    ensures NoClose(Replacement(s, i, e, inDirective))
    ensures Replacement(s, i, e, inDirective) != " " ==> '\n' in Replacement(s, i, e, inDirective)
    ensures Replacement(s, i, e, inDirective) == " " <==> '\n' !in s[i..e]
  {
    hide HashFollows;
    var unit, k := if inDirective || HashFollows(s, e) then "\\\n" else "\n", Newlines(s[i..e]);
    RepeatOpen(unit, k);
    ClosesConcat(" ", Repeat(unit, k));
    assert NoClose(" "[1..]);
  }

  lemma {:induction false} RepeatOpen(unit: string, k: nat)
    requires unit == "\n" || unit == "\\\n"
    ensures NoClose(Repeat(unit, k)) && (k > 0 <==> '\n' in Repeat(unit, k)) && (k == 0 <==> Repeat(unit, k) == "")
  {
    if k > 0 {
      RepeatOpen(unit, k - 1);
      UnitOpen(unit);
      ClosesConcat(Repeat(unit, k - 1), unit);
    }
  }

  lemma UnitOpen(unit: string)
    requires unit == "\n" || unit == "\\\n"
    ensures NoClose(unit) && '\n' in unit
  {
    assert |unit| == 2 ==> unit[1..] == "\n";
  }

  /** Comments taken out, a line has no closing bracket that it did not have before. */
  lemma {:induction false} RemovedNoClose(s: string, cxx: bool, i: nat, place: Place, inDirective: bool, blanks: string)
    requires i <= |s| && AllBlank(blanks) && NoClose(s[i..])
    ensures NoClose(Removed(s, cxx, i, place, inDirective, blanks))
    decreases |s| - i, 1
  {
    hide First, Removed, NextPlace, Replacement, ClosesAt, SpliceLen, Glyphs;
    RemovedStep(s, cxx, i, place, inDirective, blanks);
    FirstCharacter(s, cxx, i, place);
    BlanksOpen(blanks);
    match First(s, cxx, i, place)
    case End =>
    case Malformed =>
    case Newline =>
      NewlineOpen(s[i..]);
      LineOpen(blanks, Removed(s, cxx, i + 1, START, false, ""));
    case Blank =>
      RestOpen(s, i, i + 1);
      RemovedNoClose(s, cxx, i + 1, place, inDirective, blanks + [s[i]]);
    case Return =>
      RestOpen(s, i, i + 1);
      RemovedNoClose(s, cxx, i + 1, place, inDirective, "");
      CopiedOpen(s, i, i + 1, blanks, Removed(s, cxx, i + 1, place, inDirective, ""));
      assert s[i..i + 1] == "\r";
    case Splice(e) => CopyNoClose(s, cxx, i, e, place, inDirective, blanks);
    case LineComment(e) =>
      RemovedLine(s, cxx, i, e, place, inDirective, blanks);
      NewlineOpen(Removed(s, cxx, i, place, inDirective, blanks));
    case BlockComment(e) =>
      var r := Replacement(s, i, e, inDirective);
      ReplacementOpen(s, i, e, inDirective);
      if r == " " {
        RestOpen(s, i, e);
        RemovedNoClose(s, cxx, e, place, inDirective, blanks + r);
      } else {
        var y := Removed(s, cxx, e, place, inDirective, "");
        ClosesConcat(r, y);
        ClosesConcat(blanks, r + y);
        assert blanks + (r + y) == blanks + r + y;
      }
    case Token(e, n) =>
      TokenAhead(s, cxx, i, place);
      CopyNoClose(s, cxx, i, e, NextPlace(Glyphs(s, i), cxx, place), inDirective || (s[i] == '#' && place.lineStart), blanks);
  }

  lemma {:induction false} CopyNoClose(s: string, cxx: bool, i: nat, e: nat, place: Place, inDirective: bool, blanks: string)
    requires i < e <= |s| && AllBlank(blanks) && NoClose(s[i..])
    ensures NoClose(blanks + s[i..e] + Removed(s, cxx, e, place, inDirective, ""))
    decreases |s| - i, 0
  {
    hide Removed, NoClose;
    if NoClose(s[e..]) {
      RemovedNoClose(s, cxx, e, place, inDirective, "");
    }
    CopiedOpen(s, i, e, blanks, Removed(s, cxx, e, place, inDirective, ""));
  }

  lemma NewlineOpen(y: string)
    requires y == "" || y[0] == '\n'
    ensures NoClose(y)
  {
  }

  lemma LineOpen(blanks: string, y: string)
    requires AllBlank(blanks)
    ensures NoClose(blanks + "\n" + y)
  {
    hide ClosesAt;
    BlanksOpen(blanks);
    NewlineOpen("\n" + y);
    ClosesConcat(blanks, "\n" + y);
    assert blanks + ("\n" + y) == blanks + "\n" + y;
  }

  lemma RestOpen(s: string, i: nat, e: nat)
    requires i < e <= |s| && NoClose(s[i..]) && '\n' !in s[i..e]
    ensures NoClose(s[e..])
  {
    hide ClosesAt;
    assert s[i..] == s[i..e] + s[e..];
    ClosesConcat(s[i..e], s[e..]);
  }

  // ---------------------------------------------------------------------------
  // Reading what is left

  lemma AtEndOfLine(g: seq<Glyph>, cxx: bool, p: Place, q: Place)
    requires AtLineEnd(g)
    ensures Phase3(g, cxx, p) == Phase3(g, cxx, q)
  {
  }

  lemma OverSpace(c: char, y: string, cxx: bool, place: Place)
    requires IsSpace(c)
    ensures Phase3(Phase2([c] + y), cxx, place) == Phase3(Phase2(y), cxx, if c == '\n' then START else place)
  {
    hide Phase2;
    var z := [c] + y;
    assert z[1..] == y;
    HeadOf(z);
  }

  lemma {:induction false} OverBlanks(blanks: string, y: string, cxx: bool, place: Place)
    requires AllBlank(blanks)
    ensures Phase3(Phase2(blanks + y), cxx, place) == Phase3(Phase2(y), cxx, place)
  {
    hide Phase2, Phase3;
    if blanks == "" {
      assert blanks + y == y;
    } else {
      assert IsHSpace(blanks[0]);
      assert blanks + y == [blanks[0]] + (blanks[1..] + y);
      OverSpace(blanks[0], blanks[1..] + y, cxx, place);
      OverBlanks(blanks[1..], y, cxx, place);
    }
  }

  lemma {:induction false} OverLineEnds(k: nat, y: string, cxx: bool, place: Place)
    ensures Phase3(Phase2(Repeat("\n", k) + y), cxx, place) == Phase3(Phase2(y), cxx, if k == 0 then place else START)
  {
    hide Phase2, Phase3;
    if k == 0 {
      NothingBefore(y);
    } else {
      OverSpace('\n', y, cxx, if k == 1 then place else START);
      OverLineEnds(k - 1, "\n" + y, cxx, place);
      assert Repeat("\n", k) + y == Repeat("\n", k - 1) + ("\n" + y);
    }
  }

  lemma {:induction false} OverSplices(k: nat, y: string)
    ensures Phase2(Repeat("\\\n", k) + y) == Phase2(y)
  {
    hide Phase2;
    if k == 0 {
      NothingBefore(y);
    } else {
      var unit := "\\\n";
      UnitSplice();
      SpliceFront(unit, 0, 2, y);
      assert unit[0..2] == unit;
      OverSplices(k - 1, unit + y);
      assert Repeat(unit, k) + y == Repeat(unit, k - 1) + (unit + y);
    }
  }

  lemma UnitSplice()
    ensures SpliceLen("\\\n", 0) == 2
  {
    assert SkipBlanks("\\\n", 1) == 1;
  }

  ghost function Uncommented(l: Lexed): Lexed {
    match l
    case Failed => Failed
    case Lexed(tokens, _) => Lexed(tokens, 0)
  }

  lemma BeforeUncommented(tokens: seq<string>, comments: nat, later: Lexed)
    ensures Uncommented(Before(tokens, comments, later)) == Before(tokens, 0, Uncommented(later))
    ensures Before([], 0, Uncommented(later)) == Uncommented(later)
    ensures Before(tokens, comments, later).Lexed? <==> later.Lexed?
  {
    if later.Lexed? {
      assert [] + later.tokens == later.tokens;
    }
  }

  /** Phase 3, by what comes first. */
  ghost function ReadBy(s: string, cxx: bool, i: nat, place: Place): Lexed
    requires i <= |s|
  {
    match First(s, cxx, i, place)
    case End => Lexed([], 0)
    case Malformed => Failed
    case Newline => Phase3(Glyphs(s, i + 1), cxx, START)
    case Blank => Phase3(Glyphs(s, i + 1), cxx, place)
    case Return => Phase3(Glyphs(s, i + 1), cxx, place)
    case Splice(e) => Phase3(Glyphs(s, e), cxx, place)
    case LineComment(e) => Before([], 1, Phase3(Glyphs(s, e), cxx, place))
    case BlockComment(e) => Before([], 1, Phase3(Glyphs(s, e), cxx, place))
    case Token(e, n) =>
      if n <= |Glyphs(s, i)| then
        Before([Chars(Glyphs(s, i)[..n])], 0, Phase3(Glyphs(s, e), cxx, NextPlace(Glyphs(s, i), cxx, place)))
      else Failed
  }

  lemma ReadStep(s: string, cxx: bool, i: nat, place: Place)
    requires i <= |s|
    ensures Phase3(Glyphs(s, i), cxx, place) == ReadBy(s, cxx, i, place)
  {
    hide First, NextPlace, Glyphs, SpliceLen, LineLen, BlockLen, TokenLen, After, Reads, Chars, LineCommentStop, Before, Phase3;
    FirstCharacter(s, cxx, i, place);
    match First(s, cxx, i, place)
    case End =>
      NothingAfter(s);
      ReadNothing(cxx, place);
    case Malformed =>
      MalformedAhead(s, cxx, i, place);
      ReadsChar(s, i);
      ReadFails(Glyphs(s, i), cxx, place);
    case Newline =>
      ReadsChar(s, i);
      ReadSpace(Glyphs(s, i), cxx, place);
    case Blank =>
      ReadsChar(s, i);
      ReadSpace(Glyphs(s, i), cxx, place);
    case Return =>
      ReadsChar(s, i);
      ReadSpace(Glyphs(s, i), cxx, place);
    case Splice(e) => ReadsSplice(s, i);
    case LineComment(e) =>
      LineFacts(s, cxx, i, e, place);
      LineStop(s, cxx, i, e, place);
      ReadLine(Glyphs(s, i), cxx, place);
    case BlockComment(e) =>
      BlockFacts(s, cxx, i, e, place);
      BlockStop(s, cxx, i, e, place);
      ReadBlock(Glyphs(s, i), cxx, place);
    case Token(e, n) =>
      TokenAhead(s, cxx, i, place);
      AfterReads(s, i, n);
      ReadsGlyphs(s, i, e, n);
      ReadOrdinary(Glyphs(s, i), cxx, place);
  }

  lemma ReadNothing(cxx: bool, place: Place)
    ensures Phase3([], cxx, place) == Lexed([], 0)
  {
  }

  lemma ReadSpace(g: seq<Glyph>, cxx: bool, place: Place)
    requires g != [] && IsSpace(g[0].ch)
    ensures Phase3(g, cxx, place) == Phase3(g[1..], cxx, if g[0].ch == '\n' then START else place)
  {
    hide LineLen, BlockLen, TokenLen;
  }

  lemma ReadLine(g: seq<Glyph>, cxx: bool, place: Place)
    requires StartsWith(g, '/', '/')
    ensures Phase3(g, cxx, place) == Before([], 1, Phase3(g[2 + LineLen(g[2..])..], cxx, place))
  {
    hide LineLen, BlockLen, TokenLen, Before;
  }

  lemma ReadBlock(g: seq<Glyph>, cxx: bool, place: Place)
    requires StartsWith(g, '/', '*') && BlockLen(g[2..]).Some?
    ensures Phase3(g, cxx, place) == Before([], 1, Phase3(g[2 + BlockLen(g[2..]).value..], cxx, place))
  {
    hide LineLen, BlockLen, TokenLen, Before;
  }

  lemma ReadOrdinary(g: seq<Glyph>, cxx: bool, place: Place)
    requires g != [] && !IsSpace(g[0].ch) && !StartsWith(g, '/', '/') && !StartsWith(g, '/', '*') && TokenLen(g, cxx, place).Some?
    ensures var n := TokenLen(g, cxx, place).value;
            Phase3(g, cxx, place) == Before([Chars(g[..n])], 0, Phase3(g[n..], cxx, NextPlace(g, cxx, place)))
  {
    hide LineLen, BlockLen, TokenLen, Before, NextPlace, Chars;
  }

  lemma ReadFails(g: seq<Glyph>, cxx: bool, place: Place)
    requires g != [] && !IsSpace(g[0].ch) && !StartsWith(g, '/', '/')
    requires if StartsWith(g, '/', '*') then BlockLen(g[2..]).None? else TokenLen(g, cxx, place).None?
    ensures Phase3(g, cxx, place).Failed?
  {
    hide LineLen, BlockLen, TokenLen;
  }

  lemma MalformedAhead(s: string, cxx: bool, i: nat, place: Place)
    requires i <= |s| && First(s, cxx, i, place).Malformed?
    ensures i < |s| && SpliceLen(s, i) == 0 && s[i] != '\n' && !IsHSpace(s[i])
    ensures var g := Glyphs(s, i);
            && g != [] && !StartsWith(g, '/', '/')
            && (if StartsWith(g, '/', '*') then BlockLen(g[2..]).None? else TokenLen(g, cxx, place).None?)
  {
    hide LineLen, BlockLen, TokenLen, After, LineCommentStop, SpliceLen;
  }

  // ---------------------------------------------------------------------------
  // Brackets that close in what is left

  lemma {:induction false} StaysOpenIs(s: string, cxx: bool, i: nat, place: Place, inDirective: bool, blanks: string)
    requires i <= |s| && AllBlank(blanks)
    ensures NoClose(Removed(s, cxx, i, place, inDirective, blanks)) <==> StaysOpen(s, cxx, i, place, inDirective)
    decreases |s| - i
  {
    hide First, Removed, NextPlace, Replacement, ClosesAt, SpliceLen, Glyphs;
    RemovedStep(s, cxx, i, place, inDirective, blanks);
    FirstCharacter(s, cxx, i, place);
    BlanksOpen(blanks);
    match First(s, cxx, i, place)
    case End =>
    case Malformed =>
    case Newline => LineOpen(blanks, Removed(s, cxx, i + 1, START, false, ""));
    case Blank => StaysOpenIs(s, cxx, i + 1, place, inDirective, blanks + [s[i]]);
    case Return =>
      StaysOpenIs(s, cxx, i + 1, place, inDirective, "");
      ReturnOpen();
      PieceOpen(blanks, "\r", Removed(s, cxx, i + 1, place, inDirective, ""));
    case Splice(e) =>
      SpliceCloses(s, i, e);
      PieceOpen(blanks, s[i..e], Removed(s, cxx, e, place, inDirective, ""));
    case LineComment(e) =>
      RemovedLine(s, cxx, i, e, place, inDirective, blanks);
      NewlineOpen(Removed(s, cxx, i, place, inDirective, blanks));
    case BlockComment(e) =>
      ReplacementOpen(s, i, e, inDirective);
      if Replacement(s, i, e, inDirective) == " " {
        StaysOpenIs(s, cxx, e, place, inDirective, blanks + " ");
      } else {
        PieceOpen(blanks, Replacement(s, i, e, inDirective), Removed(s, cxx, e, place, inDirective, ""));
      }
    case Token(e, n) =>
      TokenAhead(s, cxx, i, place);
      StaysOpenIs(s, cxx, e, NextPlace(Glyphs(s, i), cxx, place), inDirective || (s[i] == '#' && place.lineStart), "");
      PieceOpen(blanks, s[i..e], Behind(s, cxx, i, e, place, inDirective));
  }

  lemma PieceOpen(blanks: string, piece: string, y: string)
    requires AllBlank(blanks)
    ensures NoClose(blanks + piece + y) <==> NoClose(piece) && ('\n' in piece || NoClose(y))
  {
    hide ClosesAt;
    BlanksOpen(blanks);
    ClosesConcat(piece, y);
    ClosesConcat(blanks, piece + y);
    assert blanks + (piece + y) == blanks + piece + y;
  }

  lemma ReturnOpen()
    ensures NoClose("\r") && '\n' !in "\r"
  {
    assert NoClose("\r"[1..]);
  }

  lemma SpliceCloses(s: string, i: nat, e: nat)
    requires i < |s| && SpliceLen(s, i) > 0 && e == i + SpliceLen(s, i)
    ensures NoClose(s[i..e]) && '\n' in s[i..e]
  {
    hide SpliceLen, ClosesAt;
    SpliceOpen(s, i);
    SpliceEnds(s, i);
    assert s[i..] == s[i..e] + s[e..];
    ClosesConcat(s[i..e], s[e..]);
    assert s[i..e][e - 1 - i] == '\n';
  }

  // ---------------------------------------------------------------------------
  // Reading what is left

  /** Where the readers of a text and of what is left of it can be at the same time. */
  ghost predicate Paired(place: Place, inDirective: bool, left: Place) {
    && (place.lineStart ==> place == START && !inDirective)
    && (!inDirective ==> !place.namePending && !place.headerAllowed)
    && (left == place
        || (!place.lineStart && !inDirective
            && (left == START || left == Place(false, true, false) || left == Place(false, false, true))))
  }

  /** A token that the reader of what is left would take for a header name. */
  ghost predicate Unexpected(c: char, place: Place, left: Place) {
    c == '<' && left.headerAllowed && !place.headerAllowed
  }

  lemma StaysPaired(g: seq<Glyph>, cxx: bool, place: Place, inDirective: bool, left: Place)
    requires g != [] && Paired(place, inDirective, left)
    ensures Paired(NextPlace(g, cxx, place), inDirective || (g[0].ch == '#' && place.lineStart), NextPlace(g, cxx, left))
    ensures !Unexpected(g[0].ch, place, left) ==> TokenLen(g, cxx, left) == TokenLen(g, cxx, place)
    ensures Unexpected(g[0].ch, place, left) ==> TokenLen(g, cxx, place) == Some(1)
  {
    hide WordLen, OtherLen, HeaderLen, IdentLen;
    OneBracket(g);
  }

  lemma OneBracket(g: seq<Glyph>)
    requires g != []
    ensures g[0].ch == '<' || g[0].ch == '#' ==> OtherLen(g) == 1
  {
  }

  /** Reading a token and what is left behind it. */
  lemma ReadToken(s: string, cxx: bool, i: nat, e: nat, n: nat, place: Place, y: string)
    requires i <= |s| && Cut(s, i, e, n, y) && (NoClose(s[e..]) ==> NoClose(y)) && TokenLen(Glyphs(s, i), cxx, place) == Some(n)
    requires s[i] != '\n' && !IsHSpace(s[i]) && !StartsWith(Glyphs(s, i), '/', '/') && !StartsWith(Glyphs(s, i), '/', '*')
    ensures Phase3(Phase2(s[i..e] + y), cxx, place)
            == Before([Chars(Glyphs(s, i)[..n])], 0, Phase3(Phase2(y), cxx, NextPlace(Glyphs(s, i), cxx, place)))
  {
    hide TokenLen, NextPlace, Uncrossed, Follows, Glyphs, Phase2, NoClose, LineLen, BlockLen, Chars, Cut;
    SameToken(s, cxx, i, e, n, y, place);
    CutGlyphs(s, i, e, n, y);
    NotAComment(s, cxx, i, e, n, y, place);
  }

  lemma ReadName(g: seq<Glyph>, cxx: bool, place: Place)
    requires g != [] && g[0].ch == '<' && place.headerAllowed
    ensures Phase3(g, cxx, place)
            == Before([Chars(g[..HeaderLen(g)])], 0, Phase3(g[HeaderLen(g)..], cxx, place.(headerAllowed := false)))
  {
    hide HeaderLen, LineLen, BlockLen, Chars;
  }

  /** A bracket where a header name is expected is one exactly when it closes. */
  lemma BracketCloses(y: string)
    ensures var z := Phase2("<" + y); z != [] && z[0].ch == '<' && z[1..] == Phase2(y) && (HeaderLen(z) == 1 <==> NoClose(y))
  {
    hide SpliceLen, Glyphs, HeaderTail, ClosesAt;
    var t := "<" + y;
    assert t[1..] == y;
    HeadOf(t);
    HeaderText(t, 0);
  }

  lemma NotAComment(s: string, cxx: bool, i: nat, e: nat, n: nat, y: string, place: Place)
    requires Cut(s, i, e, n, y) && TokenLen(Glyphs(s, i), cxx, place) == Some(n)
    requires !StartsWith(Glyphs(s, i), '/', '/') && !StartsWith(Glyphs(s, i), '/', '*')
    ensures var h := Phase2(s[i..e] + y); !StartsWith(h, '/', '/') && !StartsWith(h, '/', '*')
  {
    hide TokenLen, Uncrossed, Glyphs, Phase2, Chars, SpliceLen, After, Reads;
    CutGlyphs(s, i, e, n, y);
    var g, h := Glyphs(s, i), Phase2(s[i..e] + y);
    if s[i] == '/' && |h| >= 2 {
      SlashAlone(g, cxx, place);
      assert h[1] == h[1..][0];
    }
  }

  lemma SlashAlone(g: seq<Glyph>, cxx: bool, place: Place)
    requires g != [] && g[0].ch == '/'
    ensures TokenLen(g, cxx, place) == Some(1)
  {
  }

  lemma SpaceRead(blanks: string, c: char, y: string, cxx: bool, place: Place)
    requires AllBlank(blanks) && IsSpace(c)
    ensures Phase3(Phase2(blanks + [c] + y), cxx, place) == Phase3(Phase2(y), cxx, if c == '\n' then START else place)
  {
    hide Phase2, Phase3;
    OverBlanks(blanks, [c] + y, cxx, place);
    OverSpace(c, y, cxx, place);
    assert blanks + ([c] + y) == blanks + [c] + y;
  }

  /** Reading what is left gives the tokens of the text, and no comments. */
  ghost predicate LeftReads(s: string, cxx: bool, i: nat, place: Place, inDirective: bool, blanks: string, left: Place)
    requires i <= |s|
  {
    Phase3(Phase2(Removed(s, cxx, i, place, inDirective, blanks)), cxx, left) == Uncommented(Phase3(Glyphs(s, i), cxx, place))
  }

  lemma {:induction false} LeftTokens(s: string, cxx: bool, i: nat, place: Place, inDirective: bool, blanks: string, left: Place)
    requires i <= |s| && AllBlank(blanks) && Paired(place, inDirective, left) && KeepsBackslashes(s, cxx, i, place, inDirective)
    requires Phase3(Glyphs(s, i), cxx, place).Lexed?
    ensures LeftReads(s, cxx, i, place, inDirective, blanks, left) <==> KeepsBrackets(s, cxx, i, place, inDirective, left)
    decreases |s| - i, 1
  {
    hide First, Removed, NextPlace, Glyphs, Phase3, Phase2, KeepsBackslashes, KeepsBrackets, Replacement, Before, SpliceLen,
      CutShort, StaysOpen;
    ReadStep(s, cxx, i, place);
    RemovedStep(s, cxx, i, place, inDirective, blanks);
    KeepsBackslashesStep(s, cxx, i, place, inDirective);
    KeepsBracketsStep(s, cxx, i, place, inDirective, left);
    FirstCharacter(s, cxx, i, place);
    match First(s, cxx, i, place)
    case End =>
      OverBlanks(blanks, "", cxx, left);
      assert blanks + "" == blanks;
      NothingLeft();
      ReadNothing(cxx, left);
    case Newline =>
      LeftTokens(s, cxx, i + 1, START, false, "", START);
      SpaceRead(blanks, '\n', Removed(s, cxx, i + 1, START, false, ""), cxx, left);
    case Return =>
      LeftTokens(s, cxx, i + 1, place, inDirective, "", left);
      SpaceRead(blanks, '\r', Removed(s, cxx, i + 1, place, inDirective, ""), cxx, left);
    case Blank => LeftTokens(s, cxx, i + 1, place, inDirective, blanks + [s[i]], left);
    case Splice(e) =>
      LeftTokens(s, cxx, e, place, inDirective, "", left);
      var y := Removed(s, cxx, e, place, inDirective, "");
      SpliceFront(s, i, e, y);
      OverBlanks(blanks, s[i..e] + y, cxx, left);
      assert blanks + (s[i..e] + y) == blanks + s[i..e] + y;
    case LineComment(e) => LeftLine(s, cxx, i, e, place, inDirective, blanks, left);
    case BlockComment(e) => LeftBlock(s, cxx, i, e, place, inDirective, blanks, left);
    case Token(e, n) => LeftToken(s, cxx, i, e, n, place, inDirective, blanks, left);
  }

  lemma {:induction false} LeftLine(s: string, cxx: bool, i: nat, e: nat, place: Place, inDirective: bool, blanks: string, left: Place)
    requires i <= |s| && Paired(place, inDirective, left) && KeepsBackslashes(s, cxx, i, place, inDirective)
    requires First(s, cxx, i, place) == Piece.LineComment(e) && Phase3(Glyphs(s, i), cxx, place).Lexed?
    ensures LeftReads(s, cxx, i, place, inDirective, blanks, left) <==> KeepsBrackets(s, cxx, i, place, inDirective, left)
    decreases |s| - i, 0
  {
    hide First, Removed, Glyphs, Phase3, Phase2, KeepsBackslashes, KeepsBrackets, Before, Follows, Newlines, Repeat;
    ReadStep(s, cxx, i, place);
    RemovedStep(s, cxx, i, place, inDirective, blanks);
    KeepsBackslashesStep(s, cxx, i, place, inDirective);
    KeepsBracketsStep(s, cxx, i, place, inDirective, left);
    BeforeUncommented([], 1, Phase3(Glyphs(s, e), cxx, place));
    LeftTokens(s, cxx, e, place, inDirective, "", left);
    LineStop(s, cxx, i, e, place);
    RemovedFollows(s, cxx, e, place, inDirective);
    var y := Removed(s, cxx, e, place, inDirective, "");
    LineEndStays(Glyphs(s, e), Phase2(y));
    AtEndOfLine(Phase2(y), cxx, START, left);
    OverLineEnds(Newlines(s[i..e]), y, cxx, left);
  }

  lemma LineEndStays(g: seq<Glyph>, h: seq<Glyph>)
    requires Follows(g, h) && AtLineEnd(g)
    ensures AtLineEnd(h)
  {
  }

  /** How the reader of what is left gets over a replaced block comment. */
  lemma OverReplacement(s: string, i: nat, e: nat, inDirective: bool, blanks: string, y: string, cxx: bool, left: Place)
    requires i <= e <= |s| && AllBlank(blanks) && '\n' in s[i..e]
    ensures Phase3(Phase2(blanks + Replacement(s, i, e, inDirective) + y), cxx, left)
            == Phase3(Phase2(y), cxx, LeftPlace(s, i, e, inDirective, left))
  {
    hide Phase2, Phase3, Repeat, HashFollows;
    var k := Newlines(s[i..e]);
    var unit := if inDirective || HashFollows(s, e) then "\\\n" else "\n";
    var r := Repeat(unit, k);
    SpaceRead(blanks, ' ', r + y, cxx, left);
    assert blanks + " " + (r + y) == blanks + (" " + r) + y;
    if unit == "\n" {
      OverLineEnds(k, y, cxx, left);
    } else {
      OverSplices(k, y);
    }
  }

  lemma {:induction false} LeftBlock(s: string, cxx: bool, i: nat, e: nat, place: Place, inDirective: bool, blanks: string, left: Place)
    requires i <= |s| && AllBlank(blanks) && Paired(place, inDirective, left) && KeepsBackslashes(s, cxx, i, place, inDirective)
    requires First(s, cxx, i, place) == Piece.BlockComment(e) && Phase3(Glyphs(s, i), cxx, place).Lexed?
    ensures LeftReads(s, cxx, i, place, inDirective, blanks, left) <==> KeepsBrackets(s, cxx, i, place, inDirective, left)
    decreases |s| - i, 0
  {
    hide First, Removed, Glyphs, Phase3, Phase2, KeepsBackslashes, KeepsBrackets, Before, Replacement, HashFollows;
    ReadStep(s, cxx, i, place);
    RemovedStep(s, cxx, i, place, inDirective, blanks);
    KeepsBackslashesStep(s, cxx, i, place, inDirective);
    KeepsBracketsStep(s, cxx, i, place, inDirective, left);
    BeforeUncommented([], 1, Phase3(Glyphs(s, e), cxx, place));
    ReplacementOpen(s, i, e, inDirective);
    if Replacement(s, i, e, inDirective) == " " {
      LeftTokens(s, cxx, e, place, inDirective, blanks + " ", left);
    } else {
      LeftTokens(s, cxx, e, place, inDirective, "", LeftPlace(s, i, e, inDirective, left));
      OverReplacement(s, i, e, inDirective, blanks, Removed(s, cxx, e, place, inDirective, ""), cxx, left);
    }
  }

  lemma {:induction false} LeftToken(s: string, cxx: bool, i: nat, e: nat, n: nat, place: Place, inDirective: bool, blanks: string, left: Place)
    requires i <= |s| && AllBlank(blanks) && Paired(place, inDirective, left) && KeepsBackslashes(s, cxx, i, place, inDirective)
    requires First(s, cxx, i, place) == Token(e, n) && Phase3(Glyphs(s, i), cxx, place).Lexed?
    ensures LeftReads(s, cxx, i, place, inDirective, blanks, left) <==> KeepsBrackets(s, cxx, i, place, inDirective, left)
    decreases |s| - i, 0
  {
    hide First, Removed, Glyphs, Phase3, Phase2, KeepsBackslashes, KeepsBrackets, Before, NextPlace, TokenLen, Follows,
      Uncrossed, NoClose, CutShort, StaysOpen, After, SpliceLen, Paired, Chars;
    ReadStep(s, cxx, i, place);
    RemovedStep(s, cxx, i, place, inDirective, blanks);
    KeepsBackslashesStep(s, cxx, i, place, inDirective);
    KeepsBracketsStep(s, cxx, i, place, inDirective, left);
    TokenAhead(s, cxx, i, place);
    StaysPaired(Glyphs(s, i), cxx, place, inDirective, left);
    var g := Glyphs(s, i);
    var next, inside := NextPlace(g, cxx, place), inDirective || (s[i] == '#' && place.lineStart);
    var y, rest := Behind(s, cxx, i, e, place, inDirective), Phase3(Glyphs(s, e), cxx, next);
    BeforeUncommented([Chars(g[..n])], 0, rest);
    LeftTokens(s, cxx, e, next, inside, "", NextPlace(g, cxx, left));
    RemovedFollows(s, cxx, e, next, inside);
    TokenUncrossed(s, cxx, i, e, n, place, inDirective);
    if NoClose(s[e..]) {
      RemovedNoClose(s, cxx, e, next, inside, "");
    }
    StaysOpenIs(s, cxx, e, next, inside, "");
    OverBlanks(blanks, s[i..e] + y, cxx, left);
    assert blanks + (s[i..e] + y) == blanks + s[i..e] + y;
    var a := Phase3(Phase2(y), cxx, NextPlace(g, cxx, left));
    BeforeSame([Chars(g[..n])], 0, a, Uncommented(rest));
    if Unexpected(s[i], place, left) {
      OneAfter(s, i);
      assert s[i..e] == "<";
      UnexpectedBracket(g, cxx, place, left, y, rest);
    } else {
      ReadToken(s, cxx, i, e, n, left, y);
    }
  }

  lemma UnexpectedBracket(g: seq<Glyph>, cxx: bool, place: Place, left: Place, y: string, rest: Lexed)
    requires g != [] && Unexpected(g[0].ch, place, left) && rest.Lexed?
    ensures var z := Phase3(Phase2("<" + y), cxx, left);
            if NoClose(y) then z == Before([Chars(g[..1])], 0, Phase3(Phase2(y), cxx, NextPlace(g, cxx, left)))
            else z != Before([Chars(g[..1])], 0, Uncommented(rest))
  {
    hide Phase2, NoClose, Phase3, Before, HeaderLen, OpensHeader;
    var h := Phase2("<" + y);
    BracketCloses(y);
    ReadName(h, cxx, left);
    assert Chars(g[..1]) == "<" == Chars(h[..1]);
    if !NoClose(y) {
      BeforeUncommented(["<"], 0, Uncommented(rest));
      BeforeDiffers(h, HeaderLen(h), 1, Phase3(h[HeaderLen(h)..], cxx, left.(headerAllowed := false)), Uncommented(rest));
    }
  }

  // ---------------------------------------------------------------------------
  // Backslashes that are lost

  ghost function Backslashes(g: seq<Glyph>): nat {
    multiset(Chars(g))['\\']
  }

  ghost function InTokens(tokens: seq<string>): nat {
    if tokens == [] then 0 else multiset(tokens[0])['\\'] + InTokens(tokens[1..])
  }

  lemma CountSplit(g: seq<Glyph>, n: nat)
    requires n <= |g|
    ensures Backslashes(g) == multiset(Chars(g[..n]))['\\'] + Backslashes(g[n..])
  {
    assert Chars(g) == Chars(g[..n]) + Chars(g[n..]);
  }

  lemma CountHead(g: seq<Glyph>)
    requires g != [] && g[0].ch != '\\'
    ensures Backslashes(g) == Backslashes(g[1..])
  {
    CountSplit(g, 1);
    assert Chars(g[..1]) == [g[0].ch];
  }

  /** A text read without comments: every backslash is in a token. */
  lemma {:induction false} AllInTokens(g: seq<Glyph>, cxx: bool, place: Place)
    requires Phase3(g, cxx, place).Lexed? && Phase3(g, cxx, place).comments == 0
    ensures Backslashes(g) == InTokens(Phase3(g, cxx, place).tokens)
    decreases |g|
  {
    hide LineLen, BlockLen, TokenLen, NextPlace, Chars, Backslashes, Before, InTokens;
    if g == [] {
      NoBackslashes();
    } else if g[0].ch == '\n' {
      CountHead(g);
      AllInTokens(g[1..], cxx, START);
    } else if IsHSpace(g[0].ch) {
      CountHead(g);
      AllInTokens(g[1..], cxx, place);
    } else if StartsWith(g, '/', '/') {
      BeforeTokens([], 1, Phase3(g[2 + LineLen(g[2..])..], cxx, place));
    } else if StartsWith(g, '/', '*') {
      BeforeTokens([], 1, Phase3(g[2 + BlockLen(g[2..]).value..], cxx, place));
    } else {
      var n := TokenLen(g, cxx, place).value;
      var rest := Phase3(g[n..], cxx, NextPlace(g, cxx, place));
      BeforeTokens([Chars(g[..n])], 0, rest);
      CountSplit(g, n);
      AllInTokens(g[n..], cxx, NextPlace(g, cxx, place));
      InTokensFirst(Chars(g[..n]), rest.tokens);
    }
  }

  lemma NoBackslashes()
    ensures Backslashes([]) == 0 == InTokens([])
  {
  }

  lemma InTokensFirst(token: string, tokens: seq<string>)
    ensures InTokens([token] + tokens) == multiset(token)['\\'] + InTokens(tokens)
  {
    assert ([token] + tokens)[1..] == tokens;
  }

  lemma {:induction false} CountSpaces(a: string, y: string)
    requires forall i :: 0 <= i < |a| ==> IsSpace(a[i])
    ensures Backslashes(Phase2(a + y)) == Backslashes(Phase2(y))
  {
    hide Backslashes, Phase2;
    if a == "" {
      assert a + y == y;
    } else {
      var z := a + y;
      assert z[0] == a[0] && z[1..] == a[1..] + y;
      HeadOf(z);
      CountHead(Phase2(z));
      CountSpaces(a[1..], y);
    }
  }

  /** A backslash that makes a splice with what is left behind it is lost. */
  lemma CountLost(z: string)
    requires SpliceLen(z, 0) > 0
    ensures z != "" && Backslashes(Phase2(z)) == Backslashes(Phase2(z[1..]))
  {
    hide SpliceLen, Backslashes, Phase2;
    var k := SpliceLen(z, 0);
    SpliceEnds(z, 0);
    BehindSplice(z);
    SpliceSpaces(z, k);
    CountSpaces(z[1..k], z[k..]);
  }

  lemma SpliceSpaces(z: string, k: nat)
    requires 2 <= k <= |z| && z[k - 1] == '\n' && forall x :: 0 < x < k - 1 ==> IsHSpace(z[x])
    ensures z[1..] == z[1..k] + z[k..] && forall j :: 0 <= j < |z[1..k]| ==> IsSpace(z[1..k][j])
  {
    forall j | 0 <= j < k - 1 ensures IsSpace(z[1..k][j]) {
      assert z[1..k][j] == z[j + 1];
    }
  }

  lemma BehindSplice(z: string)
    requires SpliceLen(z, 0) > 0
    ensures SpliceLen(z, 0) <= |z| && Phase2(z) == Phase2(z[SpliceLen(z, 0)..])
  {
    hide SpliceLen, Glyphs, Reads;
    ReadsSplice(z, 0);
    GlyphsSuffix(z, SpliceLen(z, 0), 0);
  }

  /** What is left has no more backslashes than the tokens, and fewer exactly when one is lost. */
  lemma {:induction false} Counted(s: string, cxx: bool, i: nat, place: Place, inDirective: bool, blanks: string)
    requires i <= |s| && AllBlank(blanks) && Phase3(Glyphs(s, i), cxx, place).Lexed?
    ensures var n, m := Backslashes(Phase2(Removed(s, cxx, i, place, inDirective, blanks))), InTokens(Phase3(Glyphs(s, i), cxx, place).tokens);
            n <= m && (n == m <==> KeepsBackslashes(s, cxx, i, place, inDirective))
    decreases |s| - i, 1
  {
    hide First, Removed, NextPlace, Glyphs, Phase3, Phase2, KeepsBackslashes, Replacement, Before, SpliceLen, CutShort,
      Backslashes, InTokens, Repeat, Newlines;
    ReadStep(s, cxx, i, place);
    RemovedStep(s, cxx, i, place, inDirective, blanks);
    KeepsBackslashesStep(s, cxx, i, place, inDirective);
    FirstCharacter(s, cxx, i, place);
    match First(s, cxx, i, place)
    case End =>
      CountNone(blanks);
    case Newline =>
      Counted(s, cxx, i + 1, START, false, "");
      CountSpaces(blanks + "\n", Removed(s, cxx, i + 1, START, false, ""));
    case Return =>
      Counted(s, cxx, i + 1, place, inDirective, "");
      CountSpaces(blanks + "\r", Removed(s, cxx, i + 1, place, inDirective, ""));
    case Blank => Counted(s, cxx, i + 1, place, inDirective, blanks + [s[i]]);
    case Splice(e) =>
      Counted(s, cxx, e, place, inDirective, "");
      var y := Removed(s, cxx, e, place, inDirective, "");
      SpliceFront(s, i, e, y);
      CountSpaces(blanks, s[i..e] + y);
      assert blanks + (s[i..e] + y) == blanks + s[i..e] + y;
    case LineComment(e) =>
      BeforeTokens([], 1, Phase3(Glyphs(s, e), cxx, place));
      Counted(s, cxx, e, place, inDirective, "");
      CountLineEnds(Newlines(s[i..e]), Removed(s, cxx, e, place, inDirective, ""));
    case BlockComment(e) =>
      BeforeTokens([], 1, Phase3(Glyphs(s, e), cxx, place));
      if Replacement(s, i, e, inDirective) == " " {
        Counted(s, cxx, e, place, inDirective, blanks + " ");
      } else {
        Counted(s, cxx, e, place, inDirective, "");
        CountReplacement(s, i, e, inDirective, blanks, Removed(s, cxx, e, place, inDirective, ""));
      }
    case Token(e, n) => CountedToken(s, cxx, i, e, n, place, inDirective, blanks);
  }

  /** Whether the token at `i` and what is left behind it have as many backslashes as the tokens from there on. */
  lemma {:induction false} CountedToken(s: string, cxx: bool, i: nat, e: nat, n: nat, place: Place, inDirective: bool, blanks: string)
    requires i <= |s| && AllBlank(blanks) && First(s, cxx, i, place) == Token(e, n) && Phase3(Glyphs(s, i), cxx, place).Lexed?
    ensures var n, m := Backslashes(Phase2(Removed(s, cxx, i, place, inDirective, blanks))), InTokens(Phase3(Glyphs(s, i), cxx, place).tokens);
            n <= m && (n == m <==> KeepsBackslashes(s, cxx, i, place, inDirective))
    decreases |s| - i, 0
  {
    hide First, Removed, NextPlace, Glyphs, Phase3, Phase2, KeepsBackslashes, Before, CutShort, Backslashes, InTokens, TokenLen,
      Chars;
    ReadStep(s, cxx, i, place);
    RemovedStep(s, cxx, i, place, inDirective, blanks);
    KeepsBackslashesStep(s, cxx, i, place, inDirective);
    TokenAhead(s, cxx, i, place);
    var g := Glyphs(s, i);
    var next, inside := NextPlace(g, cxx, place), inDirective || (s[i] == '#' && place.lineStart);
    var rest := Phase3(Glyphs(s, e), cxx, next);
    BeforeTokens([Chars(g[..n])], 0, rest);
    InTokensFirst(Chars(g[..n]), rest.tokens);
    Counted(s, cxx, e, next, inside, "");
    var y := Behind(s, cxx, i, e, place, inDirective);
    CountSpaces(blanks, s[i..e] + y);
    assert blanks + (s[i..e] + y) == blanks + s[i..e] + y;
    CountToken(s, cxx, i, e, n, place, inDirective);
  }

  lemma CountNone(blanks: string)
    requires AllBlank(blanks)
    ensures Backslashes(Phase2(blanks)) == 0 == InTokens([])
  {
    hide Backslashes, Phase2;
    CountSpaces(blanks, "");
    NothingLeft();
    NoBackslashes();
    assert blanks + "" == blanks;
  }

  lemma BeforeTokens(tokens: seq<string>, comments: nat, later: Lexed)
    ensures Before(tokens, comments, later).Lexed? <==> later.Lexed?
    ensures later.Lexed? ==> Before(tokens, comments, later).tokens == tokens + later.tokens
    ensures later.Lexed? ==> Before(tokens, comments, later).comments == comments + later.comments
    ensures later.Lexed? && tokens == [] ==> Before(tokens, comments, later).tokens == later.tokens
  {
  }

  lemma {:induction false} CountLineEnds(k: nat, y: string)
    ensures Backslashes(Phase2(Repeat("\n", k) + y)) == Backslashes(Phase2(y))
  {
    hide Backslashes, Phase2;
    if k == 0 {
      NothingBefore(y);
    } else {
      CountSpaces("\n", y);
      CountLineEnds(k - 1, "\n" + y);
      assert Repeat("\n", k) + y == Repeat("\n", k - 1) + ("\n" + y);
    }
  }

  lemma CountReplacement(s: string, i: nat, e: nat, inDirective: bool, blanks: string, y: string)
    requires i <= e <= |s| && AllBlank(blanks)
    ensures Backslashes(Phase2(blanks + Replacement(s, i, e, inDirective) + y)) == Backslashes(Phase2(y))
  {
    hide Backslashes, Phase2, Repeat, HashFollows, Newlines;
    var k := Newlines(s[i..e]);
    var unit := if inDirective || HashFollows(s, e) then "\\\n" else "\n";
    var r := Repeat(unit, k);
    CountSpaces(blanks + " ", r + y);
    assert blanks + " " + (r + y) == blanks + (" " + r) + y;
    if unit == "\n" {
      CountLineEnds(k, y);
    } else {
      OverSplices(k, y);
    }
  }

  lemma CountToken(s: string, cxx: bool, i: nat, e: nat, n: nat, place: Place, inDirective: bool)
    requires i <= |s| && First(s, cxx, i, place) == Token(e, n)
    ensures i < e <= |s| && 1 <= n <= |Glyphs(s, i)|
    ensures var y, g := Behind(s, cxx, i, e, place, inDirective), Glyphs(s, i);
            var next, inside := NextPlace(g, cxx, place), inDirective || (s[i] == '#' && place.lineStart);
            var token, lost := multiset(Chars(g[..n]))['\\'], s[i] == '\\' && CutShort(s, cxx, e, next, inside, false, false);
            Backslashes(Phase2(s[i..e] + y)) == (if lost then 0 else token) + Backslashes(Phase2(y)) && (lost ==> token == 1)
  {
    hide First, Removed, NextPlace, Glyphs, Phase2, SpliceLen, CutShort, Backslashes, Uncrossed, TokenLen, After, Reads;
    TokenAhead(s, cxx, i, place);
    TokenUncrossed(s, cxx, i, e, n, place, inDirective);
    var y, g := Behind(s, cxx, i, e, place, inDirective), Glyphs(s, i);
    if Uncrossed(s, i, e, y) {
      AfterReads(s, i, n);
      JoinedGlyphs(s, i, e, n, y);
      CountSplit(Phase2(s[i..e] + y), n);
    } else {
      LoneBackslash(s, cxx, i, e, n, place);
      UncrossedOne(s, i, y);
      assert ("\\" + y)[1..] == y;
      CountLost("\\" + y);
      assert Chars(g[..1]) == "\\";
    }
  }

  /** Taking the comments out leaves exactly the tokens if and only if the text is tame. */
  lemma RemovalKeepsTokens(text: string, cxx: bool)
    requires Lex(text, cxx).Lexed?
    ensures Lex(RemoveComments(text, cxx), cxx) == Lexed(Lex(text, cxx).tokens, 0) <==> IsTame(text, cxx)
  {
    hide Removed, KeepsBackslashes, KeepsBrackets, Phase3, Glyphs, Backslashes, InTokens;
    Counted(text, cxx, 0, START, false, "");
    var out := RemoveComments(text, cxx);
    if KeepsBackslashes(text, cxx, 0, START, false) {
      LeftTokens(text, cxx, 0, START, false, "", START);
    } else if Lex(out, cxx) == Lexed(Lex(text, cxx).tokens, 0) {
      AllInTokens(Phase2(out), cxx, START);
      assert false;
    }
  }

  // ---------------------------------------------------------------------------
  // A simpler condition that suffices

  ghost predicate CommentFollows(s: string, e: nat)
    requires e <= |s|
  {
    var k := SkipHSpace(s, e);
    k < |s| && s[k] == '/' && (StartsWith(Glyphs(s, k), '/', '/') || StartsWith(Glyphs(s, k), '/', '*'))
  }

  /** The block comment between two indices runs over a line end in the middle of a line. */
  ghost predicate Breaks(s: string, i: nat, e: nat, place: Place, inDirective: bool)
    requires i <= e <= |s|
  {
    '\n' in s[i..e] && !inDirective && !HashFollows(s, e) && !place.lineStart
  }

  /** No comment follows a backslash, and no `#` is the first token behind a comment that runs over a
      line end in the middle of a line (`loose`: such a comment has been read). */
  ghost predicate Tidy(s: string, cxx: bool, i: nat, place: Place, inDirective: bool, loose: bool)
    requires i <= |s|
    decreases |s| - i
  {
    match First(s, cxx, i, place)
    case End => true
    case Malformed => true
    case Newline => Tidy(s, cxx, i + 1, START, false, false)
    case Blank => Tidy(s, cxx, i + 1, place, inDirective, loose)
    case Return => Tidy(s, cxx, i + 1, place, inDirective, loose)
    case Splice(e) => Tidy(s, cxx, e, place, inDirective, loose)
    case LineComment(e) => Tidy(s, cxx, e, place, inDirective, loose)
    case BlockComment(e) => Tidy(s, cxx, e, place, inDirective, loose || Breaks(s, i, e, place, inDirective))
    case Token(e, n) =>
      && (s[i] == '#' ==> !loose)
      && (s[i] == '\\' ==> !CommentFollows(s, e))
      && Tidy(s, cxx, e, NextPlace(Glyphs(s, i), cxx, place), inDirective || (s[i] == '#' && place.lineStart), false)
  }

  lemma {:induction false} RemovedLead(s: string, cxx: bool, e: nat, place: Place, inDirective: bool, blanks: string)
    requires e <= |s|
    requires var k := SkipHSpace(s, e); !First(s, cxx, k, place).LineComment? && !First(s, cxx, k, place).BlockComment?
    ensures var k := SkipHSpace(s, e);
            Removed(s, cxx, e, place, inDirective, blanks) == blanks + s[e..k] + Removed(s, cxx, k, place, inDirective, "")
    decreases |s| - e
  {
    hide First, Removed, SpliceLen;
    var k := SkipHSpace(s, e);
    var rest := Removed(s, cxx, k, place, inDirective, "");
    FirstCharacter(s, cxx, e, place);
    RemovedStep(s, cxx, e, place, inDirective, blanks);
    if e == |s| || !IsHSpace(s[e]) {
      RemovedWith(s, cxx, e, place, inDirective, blanks);
      assert blanks + s[e..k] == blanks;
    } else {
      NoSplice(s, e);
      assert s[e..k] == [s[e]] + s[e + 1..k];
      if IsBlank(s[e]) {
        RemovedLead(s, cxx, e + 1, place, inDirective, blanks + [s[e]]);
        Regroup(blanks, s[e], s[e + 1..k], rest);
      } else {
        RemovedLead(s, cxx, e + 1, place, inDirective, "");
        Regroup(blanks, '\r', s[e + 1..k], rest);
      }
    }
  }

  lemma Regroup(a: string, c: char, b: string, d: string)
    ensures (a + [c]) + b + d == a + ([c] + b) + d
    ensures (a + [c]) + ("" + b + d) == a + ([c] + b) + d
  {
    assert (a + [c]) + b == a + ([c] + b);
  }

  /** Behind a backslash that no comment follows, a line ends as it ended. */
  lemma AlikeBehindBackslash(s: string, cxx: bool, e: nat, place: Place, inDirective: bool)
    requires e <= |s| && !CommentFollows(s, e)
    ensures LineEndsAlike(s, e, Removed(s, cxx, e, place, inDirective, ""))
  {
    hide First, Removed, SpliceLen, SkipHSpace;
    var k, y := SkipHSpace(s, e), Removed(s, cxx, e, place, inDirective, "");
    NoComment(s, cxx, e, place);
    RemovedLead(s, cxx, e, place, inDirective, "");
    HSpaceEnds(s, e);
    RemovedHead(s, cxx, k, place, inDirective);
    var w := Removed(s, cxx, k, place, inDirective, "");
    assert y == s[e..k] + w;
    Lead(s, e, k, w);
  }

  lemma NoComment(s: string, cxx: bool, e: nat, place: Place)
    requires e <= |s| && !CommentFollows(s, e)
    ensures var p := First(s, cxx, SkipHSpace(s, e), place); !p.LineComment? && !p.BlockComment?
  {
    hide SkipHSpace;
    var k := SkipHSpace(s, e);
    if First(s, cxx, k, place).LineComment? {
      LineFacts(s, cxx, k, First(s, cxx, k, place).e, place);
    } else if First(s, cxx, k, place).BlockComment? {
      BlockFacts(s, cxx, k, First(s, cxx, k, place).e, place);
    }
  }

  lemma Lead(s: string, e: nat, k: nat, w: string)
    requires e <= k <= |s| && (forall x :: e <= x < k ==> IsHSpace(s[x])) && (k < |s| ==> !IsHSpace(s[k]))
    requires w == "" || (k < |s| && w[0] == s[k])
    ensures LineEndsAlike(s, e, s[e..k] + w)
  {
    hide SkipHSpace;
    var y := s[e..k] + w;
    assert forall x :: 0 <= x < k - e ==> y[x] == s[e + x];
    if w == "" {
      HSpaceEnds(y, 0);
    } else {
      assert y[k - e] == s[k];
      SkipHSpaceIs(y, 0, k - e);
      assert y[..k - e + 1] == s[e..k] + [s[k]] == s[e..k + 1];
    }
  }

  /** A backslash that no comment follows is not lost. */
  lemma BackslashKept(s: string, cxx: bool, i: nat, e: nat, n: nat, place: Place, inDirective: bool)
    requires i <= |s| && First(s, cxx, i, place) == Token(e, n) && s[i] == '\\' && !CommentFollows(s, e)
    ensures Glyphs(s, i) != [] && !CutShort(s, cxx, e, NextPlace(Glyphs(s, i), cxx, place), inDirective, false, false)
  {
    hide First, Removed, SpliceLen, Glyphs, TokenLen, NextPlace, Uncrossed, CutShort, LineEndsAlike, After, Reads, CommentFollows;
    TokenAhead(s, cxx, i, place);
    AfterReads(s, i, n);
    PathOf(s, i, e, n);
    AlikeBehindBackslash(s, cxx, e, NextPlace(Glyphs(s, i), cxx, place), inDirective);
    Uncross(s, i, e, Behind(s, cxx, i, e, place, inDirective));
    TokenUncrossed(s, cxx, i, e, n, place, inDirective);
  }

  ghost predicate Even(place: Place, inDirective: bool, loose: bool) {
    Paired(place, inDirective, if loose then START else place) && (loose ==> !inDirective)
  }

  lemma StaysEven(g: seq<Glyph>, cxx: bool, place: Place, inDirective: bool, loose: bool)
    requires g != [] && Even(place, inDirective, loose) && (g[0].ch == '#' ==> !loose)
    ensures var left := if loose then START else place;
            && Even(NextPlace(g, cxx, place), inDirective || (g[0].ch == '#' && place.lineStart), false)
            && NextPlace(g, cxx, left) == NextPlace(g, cxx, place) && !Unexpected(g[0].ch, place, left)
  {
    hide WordLen, OtherLen, HeaderLen, IdentLen;
  }

  lemma {:induction false} TidyKeeps(s: string, cxx: bool, i: nat, place: Place, inDirective: bool, loose: bool)
    requires i <= |s| && Tidy(s, cxx, i, place, inDirective, loose) && Even(place, inDirective, loose)
    ensures KeepsBackslashes(s, cxx, i, place, inDirective)
    ensures KeepsBrackets(s, cxx, i, place, inDirective, if loose then START else place)
    decreases |s| - i
  {
    hide First, NextPlace, Glyphs, KeepsBackslashes, KeepsBrackets, SpliceLen, CutShort, StaysOpen, CommentFollows, HashFollows;
    KeepsBackslashesStep(s, cxx, i, place, inDirective);
    KeepsBracketsStep(s, cxx, i, place, inDirective, if loose then START else place);
    match First(s, cxx, i, place)
    case End =>
    case Malformed =>
    case Newline => TidyKeeps(s, cxx, i + 1, START, false, false);
    case Blank => TidyKeeps(s, cxx, i + 1, place, inDirective, loose);
    case Return => TidyKeeps(s, cxx, i + 1, place, inDirective, loose);
    case Splice(e) => TidyKeeps(s, cxx, e, place, inDirective, loose);
    case LineComment(e) => TidyKeeps(s, cxx, e, place, inDirective, loose);
    case BlockComment(e) => TidyKeeps(s, cxx, e, place, inDirective, loose || Breaks(s, i, e, place, inDirective));
    case Token(e, n) =>
      TokenAhead(s, cxx, i, place);
      StaysEven(Glyphs(s, i), cxx, place, inDirective, loose);
      var inside := inDirective || (s[i] == '#' && place.lineStart);
      TidyKeeps(s, cxx, e, NextPlace(Glyphs(s, i), cxx, place), inside, false);
      if s[i] == '\\' {
        BackslashKept(s, cxx, i, e, n, place, inDirective);
      }
  }

  /** Text in which no comment follows a backslash, and no `#` a comment that breaks its line, is tame. */
  lemma TidyIsTame(text: string, cxx: bool)
    requires Tidy(text, cxx, 0, START, false, false)
    ensures IsTame(text, cxx)
  {
    hide Tidy, KeepsBackslashes, KeepsBrackets;
    TidyKeeps(text, cxx, 0, START, false, false);
  }
}
