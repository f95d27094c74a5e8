/** How tokens and comments are spelled: each kind, written out, is read back as just that, whatever
    stands inside a literal. */
module Spelling {
  import opened Basics
  import opened SplicedText
  import opened SplicedSlices
  import opened PhaseThree
  import opened Strings
  import opened CommentRemoval
  import opened CLexer
  import opened TokensKept

  // ---------------------------------------------------------------------------
  // Characters

  /** A letter, a digit, an underscore, a dollar sign, or anything beyond ASCII. */
  predicate InWord(c: char) {
    'a' <= c <= 'z' || 'A' <= c <= 'Z' || '0' <= c <= '9' || c == '_' || c == '$' || c as int > 127
  }

  predicate Space(c: char) {
    c == ' ' || c == '\t' || c == '\n' || c == '\r' || c as int == 11 || c as int == 12
  }

  /** The logical character that a text starts with. */
  ghost function Head(s: string): Option<char> {
    if Phase2(s) == [] then None else Some(Phase2(s)[0].ch)
  }

  ghost function Second(s: string): Option<char> {
    if |Phase2(s)| < 2 then None else Some(Phase2(s)[1].ch)
  }

  // ---------------------------------------------------------------------------
  // Text in which no splice starts

  ghost predicate Unspliced(s: string, i: nat, e: nat) {
    forall p :: i <= p < e ==> SpliceLen(s, p) == 0
  }

  lemma {:induction false} FrontReads(s: string, i: nat, e: nat)
    requires i <= e <= |s| && Unspliced(s, i, e)
    ensures Reads(s, i, e, e - i)
    decreases e - i
  {
    hide SpliceLen, Reads;
    NothingAhead(s, i);
    if i < e {
      ReadsChar(s, i);
      FrontReads(s, i + 1, e);
      ReadsJoin(s, i, i + 1, e, 1, e - i - 1);
    }
  }

  /** Text that is not spliced reads as it is written. */
  lemma {:induction false} FrontText(s: string, i: nat, e: nat)
    requires i <= e <= |s| && Unspliced(s, i, e)
    ensures Path(s, i, e) && Text(s, i, e) == s[i..e]
    decreases e - i
  {
    hide SpliceLen;
    if i < e {
      FrontText(s, i + 1, e);
      assert s[i..e] == [s[i]] + s[i + 1..e];
    }
  }

  /** The logical characters of an unspliced text and of what is behind it. */
  lemma Front(tok: string, rest: string)
    requires Unspliced(tok + rest, 0, |tok|)
    ensures var g := Phase2(tok + rest);
            && Reads(tok + rest, 0, |tok|, |tok|) && |tok| <= |g| && (forall i :: 0 <= i < |tok| ==> g[i].ch == tok[i])
            && g[|tok|..] == Phase2(rest) && Chars(g[..|tok|]) == tok && |g| == |tok| + |Phase2(rest)|
  {
    hide SpliceLen, Glyphs, Reads, Unspliced, Path, Text, Chars;
    var s := tok + rest;
    FrontReads(s, 0, |tok|);
    FrontText(s, 0, |tok|);
    ReadsGlyphs(s, 0, |tok|, |tok|);
    Joined(tok, rest);
    assert s[0..|tok|] == tok;
    var g := Phase2(s);
    assert forall i :: 0 <= i < |tok| ==> g[i].ch == Chars(g[..|tok|])[i] by {
      CharsAre(g[..|tok|]);
    }
  }

  lemma CharsAre(g: seq<Glyph>)
    ensures |Chars(g)| == |g| && forall i :: 0 <= i < |g| ==> Chars(g)[i] == g[i].ch
  {
  }

  lemma NoBackslash(tok: string, rest: string)
    requires '\\' !in tok
    ensures Unspliced(tok + rest, 0, |tok|)
  {
    forall p | 0 <= p < |tok| ensures SpliceLen(tok + rest, p) == 0 {
      NoSplice(tok + rest, p);
    }
  }

  /** A text without line ends whose last character is no blank and no backslash. */
  lemma OnOneLine(tok: string, rest: string)
    requires tok != "" && '\n' !in tok && !Space(tok[|tok| - 1]) && tok[|tok| - 1] != '\\'
    ensures Unspliced(tok + rest, 0, |tok|)
  {
    hide SpliceLen;
    var s := tok + rest;
    forall q | 0 <= q < |tok| ensures s[q] == tok[q] != '\n' {
      assert tok[q] in tok;
    }
    forall p | 0 <= p < |tok| ensures SpliceLen(s, p) == 0 {
      StoppedBy(s, p, |tok| - 1);
    }
  }

  /** A character that is no blank, with no line end before it, keeps a backslash from splicing. */
  lemma StoppedBy(s: string, p: nat, k: nat)
    requires p <= k < |s| && !Space(s[k]) && s[k] != '\\' && forall q :: p <= q <= k ==> s[q] != '\n'
    ensures SpliceLen(s, p) == 0
  {
    hide SpliceLen;
    if SpliceLen(s, p) > 0 {
      SpliceEnds(s, p);
    }
  }

  // ---------------------------------------------------------------------------
  // From lengths to readings

  ghost const INNER := Place(false, false, false)

  /** A token of `n` logical characters is read at the start of a text, up to its end. */
  ghost predicate Spelled(tok: string, rest: string, n: nat, cxx: bool, place: Place, next: Place) {
    var g := Phase2(tok + rest);
    && tok != "" && Reads(tok + rest, 0, |tok|, n) && 1 <= n
    && g != [] && !Space(g[0].ch) && !StartsWith(g, '/', '/') && !StartsWith(g, '/', '*')
    && TokenLen(g, cxx, place) == Some(n) && NextPlace(g, cxx, place) == next
  }

  /** This text is read as one token, with what follows it. */
  ghost predicate IsOneToken(tok: string, rest: string, cxx: bool, place: Place, next: Place) {
    && (exists n :: Spelled(tok, rest, n, cxx, place, next))
    && Phase3(Phase2(tok + rest), cxx, place) == Before([Chars(Phase2(tok))], 0, Phase3(Phase2(rest), cxx, next))
  }

  /** Reading goes over a token. */
  lemma OverToken(tok: string, rest: string, n: nat, cxx: bool, place: Place, next: Place)
    requires Spelled(tok, rest, n, cxx, place, next) && n <= |Phase2(tok + rest)| ==> Chars(Phase2(tok + rest)[..n]) == Chars(Phase2(tok))
    requires Spelled(tok, rest, n, cxx, place, next)
    ensures IsOneToken(tok, rest, cxx, place, next)
  {
    hide Glyphs, Reads, TokenLen, NextPlace, Phase3, Before, Chars;
    ReadsGlyphs(tok + rest, 0, |tok|, n);
    Joined(tok, rest);
    ReadOrdinary(Phase2(tok + rest), cxx, place);
  }

  lemma PlainToken(tok: string, rest: string, cxx: bool, place: Place)
    requires tok != "" && Unspliced(tok + rest, 0, |tok|) && Unspliced(tok + "", 0, |tok|) && !Space(tok[0])
    requires tok[0] == '/' ==> |tok| == 1 && Head(rest) != Some('/') && Head(rest) != Some('*')
    requires TokenLen(Phase2(tok + rest), cxx, place) == Some(|tok|)
    ensures IsOneToken(tok, rest, cxx, place, NextPlace(Phase2(tok + rest), cxx, place)) && Chars(Phase2(tok)) == tok
  {
    hide Glyphs, Reads, TokenLen, NextPlace, Phase3, Before, Unspliced, Chars;
    Front(tok, rest);
    Front(tok, "");
    assert tok + "" == tok;
    var g := Phase2(tok + rest);
    if |g| >= 2 && |tok| == 1 {
      assert g[1] == g[1..][0];
    }
    NothingLeft();
    assert Phase2(tok)[..|tok|] == Phase2(tok);
    OverToken(tok, rest, |tok|, cxx, place, NextPlace(g, cxx, place));
  }

  // ---------------------------------------------------------------------------
  // Words, numbers, marks

  ghost predicate IsWordText(w: string) {
    w != "" && (forall i :: 0 <= i < |w| ==> InWord(w[i])) && !('0' <= w[0] <= '9')
  }

  lemma WordLength(g: seq<Glyph>, n: nat, cxx: bool)
    requires 1 <= n <= |g| && (forall i :: 0 <= i < n ==> InWord(g[i].ch)) && !('0' <= g[0].ch <= '9')
    requires n < |g| ==> !InWord(g[n].ch) && g[n].ch != '"' && g[n].ch != '\''
    ensures IsIdentStart(g[0].ch) && IdentLen(g) == n && WordLen(g, cxx) == Some(n)
    ensures forall place :: OpensHeader(g, cxx, place) <==> place.namePending && Chars(g[..n]) in {"include", "include_next", "import"}
  {
    hide IdentLen, Chars, RawLen, QuotedTail;
    IdentAll(g, n);
  }

  lemma {:induction false} IdentAll(g: seq<Glyph>, n: nat)
    requires n <= |g| && (forall i :: 0 <= i < n ==> InWord(g[i].ch)) && (n < |g| ==> !InWord(g[n].ch))
    ensures IdentLen(g) == n
  {
    if n > 0 {
      IdentAll(g[1..], n - 1);
    }
  }

  /** A word that no word character and no quotation mark follows. */
  lemma WordIsOneToken(w: string, rest: string, cxx: bool, place: Place)
    requires IsWordText(w) && (Head(rest).Some? ==> !InWord(Head(rest).value) && Head(rest).value != '"' && Head(rest).value != '\'')
    ensures IsOneToken(w, rest, cxx, place, Place(false, false, place.namePending && w in {"include", "include_next", "import"}))
    ensures Chars(Phase2(w)) == w
  {
    hide Glyphs, Reads, WordLen, IdentLen, Phase3, Before, IsOneToken, Unspliced, Chars, OpensHeader;
    NoBackslashIn(w);
    NoBackslash(w, rest);
    NoBackslash(w, "");
    Front(w, rest);
    var g := Phase2(w + rest);
    if |w| < |g| {
      assert g[|w|] == g[|w|..][0];
    }
    WordLength(g, |w|, cxx);
    PlainToken(w, rest, cxx, place);
  }

  lemma NoBackslashIn(w: string)
    requires forall i :: 0 <= i < |w| ==> InWord(w[i])
    ensures '\\' !in w
  {
  }

  /** Each character goes on from the one before: word characters and periods always, a sign behind an
      exponent letter, and a separator before a word character. */
  ghost predicate GoesOn(n: string, i: int)
    requires 0 < i < |n|
  {
    || InWord(n[i]) || n[i] == '.'
    || ((n[i] == '+' || n[i] == '-') && (n[i - 1] == 'e' || n[i - 1] == 'E' || n[i - 1] == 'p' || n[i - 1] == 'P') && i > 1)
    || (n[i] == '\'' && i + 1 < |n| && InWord(n[i + 1]))
  }

  ghost predicate IsNumberText(n: string) {
    && n != "" && ('0' <= n[0] <= '9' || (|n| >= 2 && n[0] == '.' && '0' <= n[1] <= '9'))
    && forall i :: 0 < i < |n| ==> GoesOn(n, i)
  }

  lemma {:induction false} NumberAll(g: seq<Glyph>, n: string, i: nat)
    requires 1 <= i <= |n| <= |g| && (forall k :: 0 <= k < |n| ==> g[k].ch == n[k]) && (forall k :: i <= k < |n| ==> GoesOn(n, k))
    requires |n| < |g| ==> !InWord(g[|n|].ch) && g[|n|].ch !in {'.', '+', '-', '\''}
    ensures NumberTail(g[i..], if i == 1 then ' ' else n[i - 1]) == |n| - i
    decreases |n| - i
  {
    var h := g[i..];
    if i < |n| {
      NumberAll(g, n, i + 1);
      assert GoesOn(n, i);
      assert h[0].ch == n[i] && h[1..] == g[i + 1..];
      assert i + 1 < |g| ==> Following(h) == Some(g[i + 1].ch);
    } else if h != [] {
      assert h[0] == g[|n|];
    }
  }

  lemma DigitFirst(n: string)
    requires IsNumberText(n)
    ensures !Space(n[0]) && n[0] != '/' && n[0] != '#' && n[0] != '<' && !IsIdentStart(n[0])
  {
  }

  /** A number that nothing follows that could go on with it. */
  lemma NumberIsOneToken(n: string, rest: string, cxx: bool, place: Place)
    requires IsNumberText(n) && (Head(rest).Some? ==> !InWord(Head(rest).value) && Head(rest).value !in {'.', '+', '-', '\''})
    ensures IsOneToken(n, rest, cxx, place, INNER) && Chars(Phase2(n)) == n
  {
    hide Glyphs, Reads, NumberTail, QuotedTail, WordLen, Phase3, Before, IsOneToken, Unspliced, GoesOn, IsIdentStart;
    NumberPlain(n);
    NoBackslash(n, rest);
    NoBackslash(n, "");
    Front(n, rest);
    DigitFirst(n);
    var g := Phase2(n + rest);
    if |n| < |g| {
      assert g[|n|] == g[|n|..][0];
    }
    NumberAll(g, n, 1);
    assert OtherLen(g) == |n|;
    PlainToken(n, rest, cxx, place);
  }

  lemma NumberPlain(n: string)
    requires IsNumberText(n)
    ensures '\\' !in n
  {
    forall i | 0 <= i < |n| ensures n[i] != '\\' {
      assert i > 0 ==> GoesOn(n, i);
    }
  }

  /** A character that is a token of its own. */
  ghost predicate IsMark(c: char, rest: string, place: Place) {
    && !Space(c) && !InWord(c) && c != '"' && c != '\'' && c != '\\'
    && (c == '/' ==> Head(rest) != Some('/') && Head(rest) != Some('*'))
    && (c == '.' ==> !(Head(rest).Some? && '0' <= Head(rest).value <= '9'))
    && (c == '<' ==> !place.headerAllowed)
  }

  lemma MarkIsOneToken(c: char, rest: string, cxx: bool, place: Place)
    requires IsMark(c, rest, place)
    ensures IsOneToken([c], rest, cxx, place, if c == '#' && place.lineStart then Place(false, true, place.headerAllowed) else INNER)
    ensures Chars(Phase2([c])) == [c]
  {
    hide Glyphs, Reads, NumberTail, QuotedTail, WordLen, Phase3, Before, IsOneToken, Unspliced;
    NoBackslash([c], rest);
    NoBackslash([c], "");
    Front([c], rest);
    var g := Phase2([c] + rest);
    if |g| >= 2 {
      assert g[1] == g[1..][0];
    }
    PlainToken([c], rest, cxx, place);
  }

  // ---------------------------------------------------------------------------
  // Literals

  /** What may stand between quotation marks: no line end, and the mark or a backslash only escaped. */
  ghost predicate IsBody(b: string, quote: char) {
    if b == "" then true
    else if b[0] == '\n' || b[0] == quote then false
    else if b[0] == '\\' then |b| >= 2 && b[1] != '\n' && IsBody(b[2..], quote)
    else IsBody(b[1..], quote)
  }

  lemma {:induction false} BodyLength(g: seq<Glyph>, b: string, quote: char)
    requires |b| < |g| && (forall i :: 0 <= i < |b| ==> g[i].ch == b[i]) && g[|b|].ch == quote && quote != '\\' && quote != '\n'
    requires IsBody(b, quote)
    ensures QuotedTail(g, quote) == |b| + 1
    decreases |b|
  {
    if b != "" {
      if b[0] == '\\' {
        BodyLength(g[2..], b[2..], quote);
      } else {
        BodyLength(g[1..], b[1..], quote);
      }
    }
  }

  lemma {:induction false} BodyOneLine(b: string, quote: char)
    requires IsBody(b, quote)
    ensures '\n' !in b
    decreases |b|
  {
    if b != "" {
      if b[0] == '\\' {
        BodyOneLine(b[2..], quote);
        assert b == b[..2] + b[2..];
      } else {
        BodyOneLine(b[1..], quote);
        assert b == b[..1] + b[1..];
      }
    }
  }

  ghost predicate IsPrefix(p: string) {
    p == "" || p == "u8" || p == "u" || p == "U" || p == "L"
  }

  lemma PrefixWord(p: string)
    requires IsPrefix(p) && p != ""
    ensures IsWordText(p) && IsStringPrefix(p) && !IsRawPrefix(p) && p[0] != '/'
  {
  }

  lemma QuotedLength(g: seq<Glyph>, p: string, b: string, quote: char, cxx: bool, place: Place)
    requires IsPrefix(p) && (quote == '"' || quote == '\'') && IsBody(b, quote)
    requires var tok := p + [quote] + b + [quote]; |tok| <= |g| && forall i :: 0 <= i < |tok| ==> g[i].ch == tok[i]
    ensures TokenLen(g, cxx, place) == Some(|p| + |b| + 2) && NextPlace(g, cxx, place) == INNER
  {
    hide QuotedTail, RawLen, IdentLen, Chars, IsBody, IsStringPrefix, IsRawPrefix, IsIdentStart, NumberTail, NamesHeader;
    var tok, m := p + [quote] + b + [quote], |p|;
    var h := g[m + 1..];
    assert tok[m] == quote && tok[m + 1 + |b|] == quote && forall i :: 0 <= i < |b| ==> tok[m + 1 + i] == b[i];
    BodyLength(h, b, quote);
    if p == "" {
      assert !IsIdentStart(quote) by {
        QuoteStartsNoWord(quote);
      }
    } else {
      PrefixWord(p);
      assert forall i :: 0 <= i < m ==> g[i].ch == p[i];
      IdentAll(g, m);
      WordStart(p);
      CharsAre(g[..m]);
      assert Chars(g[..m]) == p;
    }
  }

  lemma WordStart(w: string)
    requires IsWordText(w)
    ensures IsIdentStart(w[0])
  {
  }

  lemma QuoteStartsNoWord(quote: char)
    requires quote == '"' || quote == '\''
    ensures !IsIdentStart(quote) && !IsDigit(quote)
  {
  }

  /** A string or character literal with an encoding prefix or none, whatever its body holds. */
  lemma QuotedIsOneToken(p: string, quote: char, b: string, rest: string, cxx: bool, place: Place)
    requires IsPrefix(p) && (quote == '"' || quote == '\'') && IsBody(b, quote)
    ensures var tok := p + [quote] + b + [quote]; IsOneToken(tok, rest, cxx, place, INNER) && Chars(Phase2(tok)) == tok
  {
    hide Glyphs, Reads, TokenLen, NextPlace, Phase3, Before, IsOneToken, Unspliced, IsBody;
    var tok := p + [quote] + b + [quote];
    BodyOneLine(b, quote);
    if p != "" {
      PrefixWord(p);
    }
    assert '\n' !in tok && tok[|tok| - 1] == quote && tok[0] == if p == "" then quote else p[0];
    OnOneLine(tok, rest);
    OnOneLine(tok, "");
    Front(tok, rest);
    QuotedLength(Phase2(tok + rest), p, b, quote, cxx, place);
    PlainToken(tok, rest, cxx, place);
  }

  lemma OpenLiteral(quote: char, b: string)
    requires (quote == '"' || quote == '\'') && quote !in b && '\n' !in b && '\\' !in b
    ensures var tok := [quote] + b;
            && tok != "" && tok[0] == quote && '\\' !in tok && !Space(quote)
            && forall i :: 1 <= i <= |b| ==> tok[i] != quote && tok[i] != '\n' && tok[i] != '\\'
  {
    var tok := [quote] + b;
    forall i | 1 <= i <= |b| ensures tok[i] != quote && tok[i] != '\n' && tok[i] != '\\' {
      assert tok[i] == b[i - 1] && b[i - 1] in b;
    }
  }

  /** A literal that is not closed on its line ends with it: the rest of the line is no comment. */
  lemma UnclosedIsOneToken(quote: char, b: string, rest: string, cxx: bool, place: Place)
    requires (quote == '"' || quote == '\'') && quote !in b && '\n' !in b && '\\' !in b && (Head(rest).None? || Head(rest) == Some('\n'))
    ensures IsOneToken([quote] + b, rest, cxx, place, INNER) && Chars(Phase2([quote] + b)) == [quote] + b
  {
    hide Glyphs, Reads, TokenLen, NextPlace, Phase3, Before, IsOneToken, Unspliced, Chars;
    var tok := [quote] + b;
    OpenLiteral(quote, b);
    NoBackslash(tok, rest);
    NoBackslash(tok, "");
    Front(tok, rest);
    var g := Phase2(tok + rest);
    if |tok| < |g| {
      assert g[|tok|] == g[|tok|..][0];
    }
    UnclosedLength(g, |b|, quote, cxx, place);
    PlainToken(tok, rest, cxx, place);
  }

  lemma UnclosedLength(g: seq<Glyph>, n: nat, quote: char, cxx: bool, place: Place)
    requires (quote == '"' || quote == '\'') && n + 1 <= |g| && g[0].ch == quote
    requires (forall i :: 1 <= i <= n ==> g[i].ch != quote && g[i].ch != '\n' && g[i].ch != '\\') && (n + 1 < |g| ==> g[n + 1].ch == '\n')
    ensures TokenLen(g, cxx, place) == Some(n + 1) && NextPlace(g, cxx, place) == INNER
  {
    hide QuotedTail, NumberTail, IsIdentStart;
    QuoteStartsNoWord(quote);
    OpenLength(g[1..], n, quote);
  }

  lemma {:induction false} OpenLength(g: seq<Glyph>, n: nat, quote: char)
    requires n <= |g| && (forall i :: 0 <= i < n ==> g[i].ch != quote && g[i].ch != '\n' && g[i].ch != '\\') && (n < |g| ==> g[n].ch == '\n')
    ensures QuotedTail(g, quote) == n
  {
    if n > 0 {
      OpenLength(g[1..], n - 1, quote);
    }
  }

  // ---------------------------------------------------------------------------
  // Raw strings

  ghost predicate IsRawWord(p: string) {
    p == "R" || p == "u8R" || p == "uR" || p == "UR" || p == "LR"
  }

  /** At most 16 characters, none of them a parenthesis, a backslash or white space. */
  ghost predicate IsDelimiter(d: string) {
    |d| <= 16 && forall i :: 0 <= i < |d| ==> d[i] !in {'(', ')', '\\', ' ', '\t', '\n'} && d[i] as int != 11 && d[i] as int != 12
  }

  function RawFront(p: string, d: string): string {
    p + "\"" + d + "("
  }

  function RawClose(d: string): string {
    ")" + d + "\""
  }

  function RawLiteral(p: string, d: string, b: string): string {
    RawFront(p, d) + b + RawClose(d)
  }

  /** The body does not hold what would close it. */
  ghost predicate IsRawBody(d: string, b: string) {
    !Contains(b, ")" + d + "\"")
  }

  lemma RawWordText(p: string)
    requires IsRawWord(p)
    ensures IsWordText(p) && IsRawPrefix(p) && p[0] != '/' && !Space(p[0]) && '\\' !in p
  {
  }

  lemma FirstOf(s: string, p: string, lo: nat, hi: nat, k: nat)
    requires lo <= k && k + |p| <= hi && OccursAt(s, p, k) && forall i :: lo <= i < k ==> !OccursAt(s, p, i)
    ensures FindBefore(s, p, lo, hi) == k
  {
  }

  /** Nothing closes a raw string before its own end: an occurrence that overlaps the end would have a
      parenthesis within the delimiter. */
  lemma ClosesFirst(s: string, from: nat, d: string, b: string)
    requires IsDelimiter(d) && IsRawBody(d, b) && from + |b| + |d| + 2 <= |s|
    requires s[from..from + |b|] == b && s[from + |b|..from + |b| + |d| + 2] == ")" + d + "\""
    ensures FindBefore(s, ")" + d + "\"", from, |s|) == from + |b|
  {
    hide FindBefore, IsDelimiter;
    var closing, n := ")" + d + "\"", |d| + 2;
    forall i | from <= i < from + |b| ensures !OccursAt(s, closing, i) {
      if i + n <= from + |b| {
        OccursInSlice(s, from, b, closing, i);
      } else if i + n <= |s| {
        OverlapFails(s, closing, d, i, from + |b|);
      }
    }
    FirstOf(s, closing, from, |s|, from + |b|);
  }

  lemma OccursInSlice(s: string, from: nat, b: string, pattern: string, i: nat)
    requires from + |b| <= |s| && s[from..from + |b|] == b && from <= i && i + |pattern| <= from + |b|
    ensures OccursAt(s, pattern, i) ==> OccursAt(b, pattern, i - from)
  {
    var n := |pattern|;
    forall j | 0 <= j < |b| ensures b[j] == s[from + j] {
      assert s[from..from + |b|][j] == s[from + j];
    }
    if OccursAt(s, pattern, i) {
      assert b[i - from..i - from + n] == s[i..i + n];
    }
  }

  lemma OverlapFails(s: string, closing: string, d: string, i: nat, k: nat)
    requires closing == ")" + d + "\"" && IsDelimiter(d) && i < k < i + |closing| && k + |closing| <= |s| && s[k..k + |closing|] == closing
    ensures !OccursAt(s, closing, i)
  {
    var x := k - i;
    assert s[k] == s[k..k + |closing|][0] == ')';
    assert closing[x] != ')' by {
      if x <= |d| {
        assert closing[x] == d[x - 1];
      }
    }
    assert s[i..i + |closing|][x] == s[k];
  }

  /** Where the raw string that starts behind the word ends, in the original text. */
  lemma RawLiteralEnds(p: string, d: string, b: string, rest: string)
    requires IsRawWord(p) && IsDelimiter(d) && IsRawBody(d, b)
    ensures RawEnd(RawLiteral(p, d, b) + rest, |p|) == Some(|RawLiteral(p, d, b)|)
  {
    hide FindBefore, IsDelimiter, IsRawBody, IsRawWord, OccursAt, RawLiteral;
    var lit := RawLiteral(p, d, b);
    var s, m, k := lit + rest, |p|, |d|;
    RawParts(p, d, b, rest);
    var open := m + 1 + k;
    OpensThere(s, m, d);
    assert s[m + 1..open] == d;
    DelimiterGood(d);
    ClosesFirst(s, open + 1, d, b);
  }

  /** A part of a text. */
  lemma Part(s: string, a: string, x: string, c: string)
    requires s == a + x + c
    ensures |s| == |a| + |x| + |c| && s[|a|..|a| + |x|] == x
  {
  }

  lemma RawParts(p: string, d: string, b: string, rest: string)
    ensures var s, m, k := RawLiteral(p, d, b) + rest, |p|, |d|;
            && |RawLiteral(p, d, b)| == m + 2 * k + |b| + 4
            && s[..m] == p && s[m] == '"' && s[m + 1..m + 1 + k] == d && s[m + 1 + k] == '('
            && s[m + k + 2..m + k + 2 + |b|] == b && s[m + k + 2 + |b|..m + k + 2 + |b| + k + 2] == ")" + d + "\""
            && s[m + 2 * k + |b| + 3] == '"'
  {
    hide RawFront, RawClose, RawLiteral;
    var s, front, closing := RawLiteral(p, d, b) + rest, RawFront(p, d), RawClose(d);
    FrontParts(p, d);
    LiteralIs(p, d, b);
    Regrouped(front, b, closing, rest);
    Part(s, front, b, closing + rest);
    Part(s, front + b, closing, rest);
    PartAt(s, |front| + |b|, closing, |d| + 1);
    FrontOf(s, front, p, d);
  }

  lemma LiteralIs(p: string, d: string, b: string)
    ensures RawLiteral(p, d, b) == RawFront(p, d) + b + RawClose(d)
  {
  }

  lemma Regrouped(a: string, b: string, c: string, rest: string)
    ensures a + b + c + rest == a + b + (c + rest) == (a + b) + c + rest && a <= a + b + c + rest && |a + b + c| == |a| + |b| + |c|
  {
  }

  lemma PartAt(s: string, from: nat, part: string, i: nat)
    requires from + |part| <= |s| && s[from..from + |part|] == part && i < |part|
    ensures s[from + i] == part[i]
  {
    assert s[from..from + |part|][i] == s[from + i];
  }

  lemma FrontParts(p: string, d: string)
    ensures var f, m, k := RawFront(p, d), |p|, |d|; |f| == m + k + 2 && f[..m] == p && f[m] == '"' && f[m + 1..m + 1 + k] == d && f[m + 1 + k] == '('
    ensures var c := RawClose(d); c == ")" + d + "\"" && |c| == |d| + 2 && c[|d| + 1] == '"'
  {
  }

  lemma FrontOf(s: string, front: string, p: string, d: string)
    requires front <= s
    requires var m, k := |p|, |d|; |front| == m + k + 2 && front[..m] == p && front[m] == '"' && front[m + 1..m + 1 + k] == d && front[m + 1 + k] == '('
    ensures var m, k := |p|, |d|; s[..m] == p && s[m] == '"' && s[m + 1..m + 1 + k] == d && s[m + 1 + k] == '('
  {
  }

  lemma OpensThere(s: string, m: nat, d: string)
    requires IsDelimiter(d) && m + 1 + |d| < |s| && s[m + 1..m + 1 + |d|] == d && s[m + 1 + |d|] == '('
    ensures FindBefore(s, "(", m + 1, m + 18) == m + 1 + |d|
  {
    hide FindBefore;
    var open := m + 1 + |d|;
    assert s[open..open + 1] == "(";
    forall i | m + 1 <= i < open ensures !OccursAt(s, "(", i) {
      assert s[i] == s[m + 1..open][i - m - 1] == d[i - m - 1];
    }
    FirstOf(s, "(", m + 1, m + 18, open);
  }

  lemma DelimiterGood(d: string)
    requires IsDelimiter(d)
    ensures !exists k :: 0 <= k < |d| && BadDelimiter(d[k])
  {
  }

  /** In C++ a raw string is one token, whatever its body holds, comments and line ends included. */
  lemma RawIsOneToken(p: string, d: string, b: string, rest: string, place: Place)
    requires IsRawWord(p) && IsDelimiter(d) && IsRawBody(d, b)
    ensures IsOneToken(RawLiteral(p, d, b), rest, true, place, INNER)
  {
    hide Glyphs, Reads, WordLen, IdentLen, Phase3, Before, Unspliced, RawEnd, RawLen, Path, Text, IsDelimiter, IsRawBody, IsRawWord,
      RawLiteral, TokenLen, NextPlace;
    var lit := RawLiteral(p, d, b);
    RawParts(p, d, b, rest);
    RawLiteralEnds(p, d, b, rest);
    RawParts(p, d, b, "");
    RawLiteralEnds(p, d, b, "");
    assert lit + "" == lit;
    var n := RawReads(lit + rest, p, |lit|, place);
    var n' := RawReads(lit, p, |lit|, place);
    SameText(lit, rest, n, n');
    RawWordText(p);
    FirstGlyph(lit + rest, p);
    OverToken(lit, rest, n, true, place, INNER);
  }

  lemma FirstGlyph(s: string, p: string)
    requires IsRawWord(p) && |p| < |s| && s[..|p|] == p
    ensures Phase2(s) != [] && Phase2(s)[0].ch == p[0] && p[0] != '/' && !Space(p[0])
  {
    hide Glyphs;
    RawWordText(p);
    assert s[0] == s[..|p|][0] && p[0] in p;
    NoSplice(s, 0);
    ReadsChar(s, 0);
  }

  /** The word in front of a raw string. */
  lemma RawWord(s: string, p: string)
    requires IsRawWord(p) && |p| < |s| && s[..|p|] == p && s[|p|] == '"'
    ensures var g, m := Phase2(s), |p|;
            && Reads(s, 0, m, m) && m < |g| && g[m..] == Glyphs(s, m) && g[m].ch == '"' && SpliceLen(s, m) == 0
            && g[0].ch == p[0] && IsIdentStart(g[0].ch) && IdentLen(g) == m && Chars(g[..m]) == p
  {
    hide Glyphs, Reads, Unspliced, Chars, IdentLen, IsIdentStart, IsRawPrefix, SpliceLen;
    var m := |p|;
    RawWordText(p);
    assert s == p + s[m..];
    NoBackslash(p, s[m..]);
    Front(p, s[m..]);
    var g := Phase2(s);
    GlyphsSuffix(s, m, 0);
    NoSplice(s, m);
    ReadsChar(s, m);
    assert g[m] == g[m..][0];
    WordStart(p);
    IdentAll(g, m);
  }

  /** A raw string's length in logical characters, given where it ends in the original text. */
  lemma RawReads(s: string, p: string, e: nat, place: Place) returns (n: nat)
    requires IsRawWord(p) && |p| < e <= |s| && s[..|p|] == p && s[|p|] == '"' && RawEnd(s, |p|) == Some(e)
    ensures Reads(s, 0, e, n) && n >= 1 && Phase2(s) != [] && TokenLen(Phase2(s), true, place) == Some(n) && NextPlace(Phase2(s), true, place) == INNER
  {
    hide Glyphs, Reads, RawEnd, RawLen, Chars, IdentLen, Phase2, SpliceLen, IsRawWord;
    var m, g := |p|, Phase2(s);
    RawWord(s, p);
    RawMatches(s, m);
    n := m + RawLen(g[m..]).value;
    ReadsJoin(s, 0, m, e, m, RawLen(g[m..]).value);
    RawLength(g, p, place);
  }

  lemma RawLength(g: seq<Glyph>, p: string, place: Place)
    requires IsRawWord(p) && g != [] && g[0].ch == p[0] && IsIdentStart(g[0].ch) && IdentLen(g) == |p| < |g| && Chars(g[..|p|]) == p && g[|p|].ch == '"'
    requires RawLen(g[|p|..]).Some?
    ensures TokenLen(g, true, place) == Some(|p| + RawLen(g[|p|..]).value) && NextPlace(g, true, place) == INNER
  {
    hide RawLen, Chars, IdentLen, WordLen, OpensHeader, NamesHeader;
    RawWordText(p);
    WordOf(g, true, place);
  }

  /** The logical characters of a text are those it has with more text behind it. */
  lemma SameText(tok: string, rest: string, n: nat, n': nat)
    requires Reads(tok + rest, 0, |tok|, n) && Reads(tok, 0, |tok|, n')
    ensures n <= |Phase2(tok + rest)| && Chars(Phase2(tok + rest)[..n]) == Chars(Phase2(tok))
  {
    hide Glyphs, Chars;
    var s := tok + rest;
    assert s[0..|tok|] == tok;
    TokenText(s, 0, |tok|, n);
    ReadsGlyphs(tok, 0, |tok|, n');
    NothingAfter(tok);
    assert Phase2(tok)[..n'] == Phase2(tok);
  }

  /** What the word of a raw string stands in front of is a raw string and a rest, or cannot be read. */
  lemma RawOrFailed(p: string, x: string, place: Place)
    requires IsRawWord(p)
    ensures var s := p + "\"" + x;
            || Phase3(Phase2(s), true, place).Failed?
            || exists d, b, rest :: IsDelimiter(d) && IsRawBody(d, b) && s == RawLiteral(p, d, b) + rest
  {
    hide Glyphs, Reads, RawEnd, RawLen, Chars, IdentLen, Phase3, WordLen, OpensHeader, Before;
    var s, m := p + "\"" + x, |p|;
    assert s[..m] == p && s[m] == '"';
    RawWord(s, p);
    RawMatches(s, m);
    if RawEnd(s, m).Some? {
      var d, b, rest := RawSplit(s, p);
    } else {
      RawWordText(p);
      WordOf(Phase2(s), true, place);
      assert TokenLen(Phase2(s), true, place).None?;
      ReadFails(Phase2(s), true, place);
    }
  }

  lemma RawSplit(s: string, p: string) returns (d: string, b: string, rest: string)
    requires IsRawWord(p) && |p| < |s| && s[..|p|] == p && s[|p|] == '"' && RawEnd(s, |p|).Some?
    ensures IsDelimiter(d) && IsRawBody(d, b) && s == RawLiteral(p, d, b) + rest
  {
    hide FindBefore, OccursAt, IsRawWord, RawFront;
    var m := |p|;
    var open := FindBefore(s, "(", m + 1, m + 18);
    d := s[m + 1..open];
    var closing := ")" + d + "\"";
    var close := FindBefore(s, closing, open + 1, |s|);
    b, rest := s[open + 1..close], s[close + |closing|..];
    NoneBefore(s, "(", m + 1, m + 18, open);
    forall i | 0 <= i < |d| ensures d[i] !in {'(', ')', '\\', ' ', '\t', '\n'} && d[i] as int != 11 && d[i] as int != 12 {
      assert !BadDelimiter(d[i]);
    }
    forall i: int ensures !OccursAt(b, closing, i) {
      SliceOccurs(s, open + 1, close, closing, i);
    }
    OccursThere(s, "(", open);
    OccursThere(s, closing, close);
    FrontAgain(s, p, open);
    CutApart(s, open + 1, close, close + |closing|);
  }

  lemma FrontAgain(s: string, p: string, open: nat)
    requires |p| + 1 <= open < |s| && s[..|p|] == p && s[|p|] == '"' && s[open..open + 1] == "("
    ensures s[..open + 1] == RawFront(p, s[|p| + 1..open])
  {
    assert s[open] == s[open..open + 1][0] == '(';
  }

  lemma CutApart(s: string, i: nat, j: nat, k: nat)
    requires i <= j <= k <= |s|
    ensures s == s[..i] + s[i..j] + s[j..k] + s[k..]
  {
  }

  lemma OccursThere(s: string, p: string, k: int)
    requires OccursAt(s, p, k)
    ensures 0 <= k && k + |p| <= |s| && s[k..k + |p|] == p
  {
  }

  lemma NoneBefore(s: string, p: string, lo: nat, hi: nat, k: nat)
    requires FindBefore(s, p, lo, hi) == k
    ensures lo <= k && k + |p| <= hi
  {
  }

  /** What is found first from `from` on does not occur before it. */
  lemma SliceOccurs(s: string, from: nat, to: nat, pattern: string, i: int)
    requires from <= to <= |s| && FindBefore(s, pattern, from, |s|) == to && pattern != ""
    ensures !OccursAt(s[from..to], pattern, i)
  {
    hide FindBefore;
    var n := |pattern|;
    EmptyPattern(s, pattern, from, to);
    if 0 <= i && i + n <= to - from {
      assert !OccursAt(s, pattern, from + i);
      SliceAt(s, from, to, i, n);
    }
  }

  lemma SliceAt(s: string, from: nat, to: nat, i: nat, n: nat)
    requires from <= to <= |s| && i + n <= to - from
    ensures s[from..to][i..i + n] == s[from + i..from + i + n]
  {
    var t := s[from..to];
    assert forall k :: 0 <= k < to - from ==> t[k] == s[from + k];
  }

  lemma EmptyPattern(s: string, pattern: string, from: nat, to: nat)
    requires from <= to <= |s| && FindBefore(s, pattern, from, |s|) == to
    ensures forall k :: from <= k < to ==> !OccursAt(s, pattern, k)
  {
  }

  // ---------------------------------------------------------------------------
  // Header names

  lemma {:induction false} NameAll(g: seq<Glyph>, n: nat)
    requires n + 1 < |g| && (forall i :: 0 <= i <= n ==> g[i].after == "") && g[n + 1].ch == '>'
    requires forall i :: 1 <= i <= n ==> g[i].ch != '>' && g[i].ch != '\n'
    ensures HeaderTail(g) == Some(n + 1)
  {
    if n > 0 {
      NameAll(g[1..], n - 1);
    }
  }

  lemma NameText(name: string)
    requires '>' !in name && '\n' !in name && '\\' !in name
    ensures var tok := "<" + name + ">";
            && |tok| == |name| + 2 && tok[0] == '<' && tok[|name| + 1] == '>' && '\\' !in tok
            && forall i :: 1 <= i <= |name| ==> tok[i] != '>' && tok[i] != '\n'
  {
    var tok := "<" + name + ">";
    forall i | 1 <= i <= |name| ensures tok[i] != '>' && tok[i] != '\n' {
      assert tok[i] == name[i - 1] && name[i - 1] in name;
    }
  }

  /** Where a header name is expected, one in brackets is one token, whatever it holds. */
  lemma HeaderIsOneToken(name: string, rest: string, cxx: bool, place: Place)
    requires place.headerAllowed && !place.lineStart && '>' !in name && '\n' !in name && '\\' !in name
    ensures IsOneToken("<" + name + ">", rest, cxx, place, place.(headerAllowed := false)) && Chars(Phase2("<" + name + ">")) == "<" + name + ">"
  {
    hide Glyphs, Reads, NumberTail, QuotedTail, WordLen, Phase3, Before, IsOneToken, Unspliced, IsIdentStart, HeaderTail;
    var tok := "<" + name + ">";
    NameText(name);
    NoBackslash(tok, rest);
    NoBackslash(tok, "");
    Front(tok, rest);
    FrontGlyphs(tok, rest);
    NameAll(Phase2(tok + rest), |name|);
    PlainToken(tok, rest, cxx, place);
  }

  /** No splice stands between the characters of an unspliced text. */
  lemma FrontGlyphs(tok: string, rest: string)
    requires Unspliced(tok + rest, 0, |tok|)
    ensures |tok| <= |Phase2(tok + rest)| && forall i :: 0 <= i < |tok| - 1 ==> Phase2(tok + rest)[i].after == ""
  {
    GlyphsWithout(tok + rest, 0, |tok|);
  }

  lemma {:induction false} GlyphsWithout(s: string, i: nat, e: nat)
    requires i <= e <= |s| && Unspliced(s, i, e)
    ensures e - i <= |Glyphs(s, i)| && forall k :: 0 <= k < e - i - 1 ==> Glyphs(s, i)[k].after == ""
    decreases e - i
  {
    hide SpliceLen, Glyphs, Reads, SkipSplices;
    if i < e {
      GlyphsWithout(s, i + 1, e);
      ReadsChar(s, i);
      if i + 1 < e {
        SkipFacts(s, i + 1);
      }
    }
  }

  // ---------------------------------------------------------------------------
  // Comments

  /** A comment is read at the start of a text, and nothing else of it. */
  ghost predicate IsComment(note: string, rest: string, cxx: bool, place: Place) {
    Phase3(Phase2(note + rest), cxx, place) == Before([], 1, Phase3(Phase2(rest), cxx, place))
  }

  lemma {:induction false} LineAll(g: seq<Glyph>, n: nat)
    requires n <= |g| && (forall i :: 0 <= i < n ==> g[i].ch != '\n') && (n < |g| ==> g[n].ch == '\n')
    ensures LineLen(g) == n
  {
    if n > 0 {
      LineAll(g[1..], n - 1);
    }
  }

  /** Two slashes and the rest of the line. */
  lemma LineNoteIsComment(c: string, rest: string, cxx: bool, place: Place)
    requires '\n' !in c && '\\' !in c && (Head(rest).None? || Head(rest) == Some('\n'))
    ensures IsComment("//" + c, rest, cxx, place) && StartsWith(Phase2("//" + c + rest), '/', '/')
    ensures LineLen(Phase2("//" + c + rest)[2..]) == |c|
  {
    hide Glyphs, Reads, Phase3, Before, Unspliced, LineLen;
    var tok := "//" + c;
    LineNoteText(c);
    NoBackslash(tok, rest);
    Front(tok, rest);
    var g := Phase2(tok + rest);
    if |tok| < |g| {
      assert g[|tok|] == g[|tok|..][0];
    }
    LineAll(g[2..], |c|);
    assert g[2..][|c|..] == g[|tok|..];
    ReadLine(g, cxx, place);
  }

  lemma LineNoteText(c: string)
    requires '\n' !in c && '\\' !in c
    ensures var tok := "//" + c; tok[0] == '/' && tok[1] == '/' && '\\' !in tok && forall i :: 2 <= i < |tok| ==> tok[i] != '\n'
  {
    var tok := "//" + c;
    forall i | 2 <= i < |tok| ensures tok[i] != '\n' {
      assert tok[i] == c[i - 2] && c[i - 2] in c;
    }
  }

  lemma {:induction false} BlockAll(g: seq<Glyph>, n: nat)
    requires n + 2 <= |g| && g[n].ch == '*' && g[n + 1].ch == '/' && forall i :: 0 <= i < n ==> !(g[i].ch == '*' && g[i + 1].ch == '/')
    ensures BlockLen(g) == Some(n + 2)
  {
    if n > 0 {
      BlockAll(g[1..], n - 1);
    }
  }

  lemma {:induction false} BlockNone(g: seq<Glyph>)
    requires forall i :: 0 <= i < |g| - 1 ==> !(g[i].ch == '*' && g[i + 1].ch == '/')
    ensures BlockLen(g) == None
  {
    if g != [] {
      BlockNone(g[1..]);
    }
  }

  ghost predicate NoteText(c: string) {
    '\\' !in c && forall i :: 0 <= i < |c| - 1 ==> !(c[i] == '*' && c[i + 1] == '/')
  }

  /** Slash and star, up to star and slash. */
  lemma BlockNoteIsComment(c: string, rest: string, cxx: bool, place: Place)
    requires NoteText(c)
    ensures IsComment("/*" + c + "*/", rest, cxx, place) && StartsWith(Phase2("/*" + c + "*/" + rest), '/', '*')
    ensures BlockLen(Phase2("/*" + c + "*/" + rest)[2..]) == Some(|c| + 2)
  {
    hide Glyphs, Reads, Phase3, Before, Unspliced;
    var tok := "/*" + c + "*/";
    NoBackslash(tok, rest);
    Front(tok, rest);
    var g := Phase2(tok + rest);
    assert forall i :: 0 <= i < |c| ==> tok[i + 2] == c[i];
    assert tok[|c| + 2] == '*' && tok[|c| + 3] == '/';
    BlockAll(g[2..], |c|);
    ReadBlock(g, cxx, place);
  }

  lemma OpenNote(c: string)
    requires NoteText(c)
    ensures var tok := "/*" + c;
            && tok[0] == '/' && tok[1] == '*' && '\\' !in tok
            && forall i :: 2 <= i < |tok| - 1 ==> !(tok[i] == '*' && tok[i + 1] == '/')
  {
    var tok := "/*" + c;
    forall i | 2 <= i < |tok| - 1 ensures !(tok[i] == '*' && tok[i + 1] == '/') {
      assert tok[i] == c[i - 2] && tok[i + 1] == c[i - 1];
    }
  }

  /** A block comment that is never closed cannot be read. */
  lemma UnclosedNoteFails(c: string, cxx: bool, place: Place)
    requires NoteText(c)
    ensures Phase3(Phase2("/*" + c), cxx, place).Failed?
  {
    hide Glyphs, Reads, Phase3, Unspliced, BlockLen, NoteText;
    var tok := "/*" + c;
    OpenNote(c);
    NoBackslash(tok, "");
    Front(tok, "");
    NothingLeft();
    assert tok + "" == tok;
    var g := Phase2(tok);
    BlockNone(g[2..]);
    ReadFails(g, cxx, place);
  }
}
