/** Stripping the comments of a C-family source file, with the checks that guard the result. */
module CommentStrip {
  import opened Basics
  import opened SplicedSlices
  import opened PhaseThree
  import opened CommentRemoval
  import opened CLexer
  import opened SplicedText
  import opened TokensKept

  datatype Status = Stripped | NoComments | Unparseable | CheckFailed

  datatype StripResult = StripResult(text: string, status: Status, comments: nat)

  /** Comments are removed only when the outcome has exactly the original tokens and no comment
      left; in every other case the text comes back unchanged. */
  method StripCFamily(text: string, cxx: bool) returns (r: StripResult)
    ensures r.status == Unparseable <==> Lex(text, cxx).Failed?
    ensures r.status == NoComments <==> Lex(text, cxx).Lexed? && Lex(text, cxx).comments == 0
    ensures r.status != Stripped ==> r.text == text
    ensures r.status == Unparseable || r.status == NoComments ==> r.comments == 0
    ensures r.status == Stripped || r.status == CheckFailed ==>
              Lex(text, cxx).Lexed? && r.comments == Lex(text, cxx).comments > 0
    ensures r.status == Stripped <==>
              && Lex(text, cxx).Lexed? && Lex(text, cxx).comments > 0
              && Lex(RemoveComments(text, cxx), cxx) == Lexed(Lex(text, cxx).tokens, 0)
    ensures r.status == Stripped ==>
              r.text == RemoveComments(text, cxx) && Visible(r.text) == Visible(Concat(Lex(text, cxx).tokens))
    ensures Newlines(r.text) == Newlines(text)
    ensures r.status == Stripped <==> Lex(text, cxx).Lexed? && Lex(text, cxx).comments > 0 && IsTame(text, cxx)
  {
    hide Lex, Newlines, Visible, Concat, RemoveComments, IsTame;
    if Lex(text, cxx).Lexed? {
      RemovalKeepsTokens(text, cxx);
    }
    var lexer := new Lexer(text, cxx);
    var original := lexer.Run(false);
    if original.Unlexable? {
      return StripResult(text, Unparseable, 0);
    }
    if original.out != text {
      // the non-stripping pass reproduces its input
      assert false;
    }
    if original.comments == 0 {
      return StripResult(text, NoComments, 0);
    }
    var stripped := lexer.Run(true);
    if stripped.Unlexable? {
      // both passes read the same tokens
      assert false;
    }
    var again := new Lexer(stripped.out, cxx);
    var relexed := again.Run(false);
    if relexed.Unlexable? {
      return StripResult(text, CheckFailed, original.comments);
    }
    if relexed.comments != 0 || relexed.tokens != original.tokens || Newlines(stripped.out) != Newlines(text) {
      return StripResult(text, CheckFailed, original.comments);
    }
    return StripResult(stripped.out, Stripped, original.comments);
  }

  /** Stripped text is a fixed point: stripping it again finds no comments and changes nothing. */
  method StripTwice(text: string, cxx: bool) returns (first: StripResult, second: StripResult)
    ensures first.status == Stripped ==> second == StripResult(first.text, NoComments, 0)
  {
    hide Lex, Newlines, Visible, Concat, RemoveComments;
    first := StripCFamily(text, cxx);
    second := StripCFamily(first.text, cxx);
  }

  // ---------------------------------------------------------------------------
  // Where the check is needed

  /** A backslash before a blank and a line comment: with both gone it splices the lines. */
  lemma RemovalMaySplice(cxx: bool)
    ensures var text := "\\ //\n";
            && Lex(text, cxx) == Lexed(["\\"], 1) && RemoveComments(text, cxx) == "\\\n"
            && Lex(RemoveComments(text, cxx), cxx) == Lexed([], 0)
  {
    hide Lex, RemoveComments;
    OriginalLexes(cxx);
    OriginalStripped(cxx);
    SpliceLexes(cxx);
  }

  lemma OriginalGlyphs()
    ensures var s := "\\ //\n";
            && (forall i: nat :: i <= 5 ==> SpliceLen(s, i) == 0)
            && (forall i: nat :: i <= 5 ==> Glyphs(s, i) == Plain(s[i..]))
  {
    hide Glyphs;
    var s := "\\ //\n";
    assert SkipBlanks(s, 1) == 2;
    NothingAfter(s);
    forall i: nat | i <= 5 ensures SpliceLen(s, i) == 0 {
      assert i < 5 ==> SpliceLen(s, i) == 0;
    }
    GlyphsStep(s, 4);
    GlyphsStep(s, 3);
    GlyphsStep(s, 2);
    GlyphsStep(s, 1);
    GlyphsStep(s, 0);
    assert s[5..] == "";
  }

  lemma GlyphsStep(s: string, i: nat)
    requires i < |s| && SpliceLen(s, i) == 0 && SpliceLen(s, i + 1) == 0 && Glyphs(s, i + 1) == Plain(s[i + 1..])
    ensures Glyphs(s, i) == Plain(s[i..])
  {
    hide Glyphs, SpliceLen;
    PlainStep(s, i);
    assert s[i..] == [s[i]] + s[i + 1..];
    assert Plain(s[i..]) == [Glyph(s[i], "")] + Plain(s[i + 1..]);
  }

  lemma OriginalLexes(cxx: bool)
    ensures Lex("\\ //\n", cxx) == Lexed(["\\"], 1)
  {
    hide Glyphs, SpliceLen;
    var s := "\\ //\n";
    OriginalGlyphs();
    assert s[0..] == s;
    var place := Place(false, false, false);
    var a, b, c, e := Plain(s), Plain(s[1..]), Plain(s[2..]), Plain(s[4..]);
    assert a[1..] == b && b[1..] == c && c[2..] == e && e[1..] == [];
    assert Phase3(e, cxx, place) == Lexed([], 0);
    assert LineLen(c[2..]) == 0;
    assert c[2 + 0..] == e;
    assert Phase3(c, cxx, place) == Lexed([], 1);
    assert Phase3(b, cxx, place) == Lexed([], 1);
    BackslashStep(a, cxx);
  }

  lemma BackslashStep(g: seq<Glyph>, cxx: bool)
    requires g != [] && g[0].ch == '\\'
    ensures Phase3(g, cxx, START) == Before(["\\"], 0, Phase3(g[1..], cxx, Place(false, false, false)))
  {
    assert Chars(g[..1]) == "\\";
    assert TokenLen(g, cxx, START) == Some(1);
  }

  lemma OriginalStripped(cxx: bool)
    ensures RemoveComments("\\ //\n", cxx) == "\\\n"
  {
    hide Glyphs, SpliceLen;
    var s := "\\ //\n";
    OriginalGlyphs();
    var place := Place(false, false, false);
    assert s[0..] == s && s[..1] == "\\" && s[0..1] == "\\";
    assert Removed(s, cxx, 5, START, false, "") == "";
    assert Removed(s, cxx, 4, place, false, "") == "\n";
    LineAtTwo(cxx);
    assert Removed(s, cxx, 1, place, false, "") == Removed(s, cxx, 2, place, false, "" + [s[1]]);
    TokenAtZero(cxx);
  }

  lemma LineAtTwo(cxx: bool)
    ensures var s, place := "\\ //\n", Place(false, false, false);
            Removed(s, cxx, 2, place, false, " ") == Removed(s, cxx, 4, place, false, "")
  {
    hide Glyphs, SpliceLen;
    var s, place := "\\ //\n", Place(false, false, false);
    OriginalGlyphs();
    var g := Plain(s[2..]);
    assert LineLen(g[2..]) == 0;
    assert After(s, 4, 0) == 4 && After(s, 3, 1) == 4 && After(s, 2, 2) == 4;
    assert SkipSplices(s, 4) == 4 && LineCommentStop(s, 2) == 4;
    assert s[2..4] == "//" && Newlines("//") == 0;
    NothingBefore(Removed(s, cxx, 4, place, false, ""));
  }

  lemma TokenAtZero(cxx: bool)
    ensures var s, place := "\\ //\n", Place(false, false, false);
            Removed(s, cxx, 0, START, false, "") == "\\" + Removed(s, cxx, 1, place, false, "")
  {
    hide Glyphs, SpliceLen;
    var s, place := "\\ //\n", Place(false, false, false);
    OriginalGlyphs();
    assert s[0..] == s && s[0..1] == "\\";
    var g := Plain(s);
    assert TokenLen(g, cxx, START) == Some(1) && NextPlace(g, cxx, START) == place;
    assert After(s, 1, 0) == 1 && After(s, 0, 1) == 1;
    assert "" + "\\" == "\\";
  }

  lemma SpliceLexes(cxx: bool)
    ensures Lex("\\\n", cxx) == Lexed([], 0)
  {
    var s := "\\\n";
    assert SkipBlanks(s, 1) == 1;
    assert SpliceLen(s, 0) == 2;
    NothingAfter(s);
    assert Glyphs(s, 0) == Glyphs(s, 2) == [];
  }

  /** From `i` on, outside a directive, the text can be read but a header name is made of what was none. */
  ghost predicate Opens(s: string, cxx: bool, i: nat, place: Place, left: Place)
    requires i <= |s|
  {
    !KeepsBrackets(s, cxx, i, place, false, left) && Phase3(Glyphs(s, i), cxx, place).Lexed?
  }

  lemma OpensBehindToken(s: string, cxx: bool, i: nat, e: nat, n: nat, place: Place, left: Place)
    requires i <= |s| && First(s, cxx, i, place) == Token(e, n) && !(s[i] == '#' && place.lineStart)
    ensures Glyphs(s, i) != [] && e <= |s|
    ensures Opens(s, cxx, e, NextPlace(Glyphs(s, i), cxx, place), NextPlace(Glyphs(s, i), cxx, left)) ==> Opens(s, cxx, i, place, left)
  {
    hide First, NextPlace, Glyphs, KeepsBrackets, StaysOpen, Phase3, TokenLen, Chars;
    TokenAhead(s, cxx, i, place);
    ReadStep(s, cxx, i, place);
    KeepsBracketsStep(s, cxx, i, place, false, left);
  }

  lemma OpensBehindBlock(s: string, cxx: bool, i: nat, e: nat, place: Place, left: Place)
    requires i <= |s| && First(s, cxx, i, place) == Piece.BlockComment(e)
    ensures i <= e <= |s|
    ensures Opens(s, cxx, e, place, LeftPlace(s, i, e, false, left)) ==> Opens(s, cxx, i, place, left)
  {
    hide First, Glyphs, KeepsBrackets, StaysOpen, Phase3, LeftPlace;
    ReadStep(s, cxx, i, place);
    KeepsBracketsStep(s, cxx, i, place, false, left);
  }

  lemma OpensBehindBlank(s: string, cxx: bool, i: nat, place: Place, left: Place)
    requires i < |s| && IsBlank(s[i])
    ensures Opens(s, cxx, i + 1, place, left) ==> Opens(s, cxx, i, place, left)
  {
    hide First, Glyphs, KeepsBrackets, StaysOpen, Phase3, SpliceLen;
    NoSplice(s, i);
    FirstCharacter(s, cxx, i, place);
    ReadStep(s, cxx, i, place);
    KeepsBracketsStep(s, cxx, i, place, false, left);
  }

  /** Logical characters of text without backslashes. */
  lemma PlainFrom(s: string, i: nat)
    requires '\\' !in s && i <= |s|
    ensures SpliceLen(s, i) == 0 && Glyphs(s, i) == Plain(s[i..])
  {
    hide Glyphs, SpliceLen;
    NoSplice(s, i);
    NothingAfter(s);
    PlainGlyphs(s, i, |s|);
    assert s[i..|s|] == s[i..];
    assert Plain(s[i..]) + [] == Plain(s[i..]);
  }

  lemma {:induction false} PlainAfter(s: string, i: nat, n: nat)
    requires '\\' !in s && i + n <= |s|
    ensures After(s, i, n) == i + n
    decreases n
  {
    hide SpliceLen;
    if n > 0 {
      NoSplice(s, i);
      PlainAfter(s, i + 1, n - 1);
    }
  }

  lemma PlainToken(s: string, cxx: bool, i: nat, n: nat, place: Place)
    requires '\\' !in s && 1 <= n && i + n <= |s| && s[i] != '/' && s[i] != '\n' && !IsHSpace(s[i])
    requires TokenLen(Plain(s[i..]), cxx, place) == Some(n)
    ensures First(s, cxx, i, place) == Token(i + n, n)
  {
    hide SpliceLen, Glyphs, TokenLen, After;
    PlainFrom(s, i);
    PlainAfter(s, i, n);
  }

  lemma PlainBlock(s: string, cxx: bool, i: nat, n: nat, place: Place)
    requires '\\' !in s && i + 2 + n <= |s| && s[i] == '/' && s[i + 1] == '*' && BlockLen(Plain(s[i + 2..])) == Some(n)
    ensures First(s, cxx, i, place) == Piece.BlockComment(i + 2 + n)
  {
    hide SpliceLen, Glyphs, BlockLen, After;
    PlainFrom(s, i);
    PlainAfter(s, i, 2 + n);
    assert Plain(s[i..])[2..] == Plain(s[i + 2..]);
  }

  /** A single character that is a token of its own. */
  lemma PlainMark(s: string, cxx: bool, i: nat, place: Place)
    requires '\\' !in s && i < |s| && (s[i] == '#' || s[i] == '>' || (s[i] == '<' && !place.headerAllowed))
    ensures First(s, cxx, i, place) == Token(i + 1, 1)
    ensures var g := Glyphs(s, i); g != [] && g[0].ch == s[i]
  {
    hide Glyphs;
    PlainFrom(s, i);
    PlainToken(s, cxx, i, 1, place);
  }

  /** A word that prefixes no literal. */
  lemma PlainWord(s: string, cxx: bool, i: nat, word: string, place: Place)
    requires '\\' !in s && word != "" && i + |word| < |s| && s[i..i + |word|] == word && IsIdentStart(word[0])
    requires forall k :: 0 <= k < |word| ==> IsIdentChar(word[k])
    requires var c := s[i + |word|]; !IsIdentChar(c) && c != '"' && c != '\''
    ensures First(s, cxx, i, place) == Token(i + |word|, |word|)
    ensures Glyphs(s, i) != []
    ensures NextPlace(Glyphs(s, i), cxx, place) == Place(false, false, place.namePending && NamesHeader(word))
  {
    hide IdentLen, Glyphs, First;
    var g, n := Plain(s[i..]), |word|;
    PlainFrom(s, i);
    assert forall k :: 0 <= k < n ==> g[k].ch == s[i..i + n][k];
    IdentCount(g, n);
    assert Chars(g[..n]) == word;
    PlainToken(s, cxx, i, n, place);
  }

  lemma ClosingMark(s: string, cxx: bool, i: nat, place: Place, inDirective: bool)
    requires i < |s| && s[i] == '>' && First(s, cxx, i, place) == Token(i + 1, 1)
    ensures !StaysOpen(s, cxx, i, place, inDirective)
  {
    hide First, NextPlace, Glyphs;
    assert s[i..i + 1] == ">";
  }

  lemma ClosesBehind(s: string, cxx: bool, i: nat, place: Place, next: Place)
    requires i < |s| && s[i] != '\n' && s[i] != '#' && First(s, cxx, i, place) == Token(i + 1, 1)
    requires Glyphs(s, i) != [] && next == NextPlace(Glyphs(s, i), cxx, place) && !StaysOpen(s, cxx, i + 1, next, false)
    ensures !StaysOpen(s, cxx, i, place, false)
  {
    hide First, NextPlace, Glyphs;
    assert s[i..i + 1] == [s[i]];
  }

  lemma ReadsBehindToken(s: string, cxx: bool, i: nat, e: nat, n: nat, place: Place, next: Place)
    requires i <= |s| && First(s, cxx, i, place) == Token(e, n)
    requires Glyphs(s, i) != [] && next == NextPlace(Glyphs(s, i), cxx, place) && Phase3(Glyphs(s, e), cxx, next).Lexed?
    ensures Phase3(Glyphs(s, i), cxx, place).Lexed?
  {
    hide First, NextPlace, Glyphs, Phase3, TokenLen;
    TokenAhead(s, cxx, i, place);
    ReadStep(s, cxx, i, place);
  }

  lemma LastLineEnd(s: string, cxx: bool, i: nat, place: Place)
    requires |s| == i + 1 && s[i] == '\n'
    ensures Phase3(Glyphs(s, i), cxx, place).Lexed?
  {
    hide First, Phase3, Glyphs, SpliceLen;
    NoSplice(s, i);
    FirstCharacter(s, cxx, i, place);
    ReadStep(s, cxx, i, place);
    ReadStep(s, cxx, i + 1, START);
  }

  /** The end of the text: `<a>` and a line end. */
  lemma OpensAtBracket(s: string, cxx: bool, i: nat, place: Place, left: Place)
    requires '\\' !in s && |s| == i + 4 && s[i] == '<' && s[i + 1] == 'a' && s[i + 2] == '>' && s[i + 3] == '\n'
    requires place == Place(false, false, false) && left == Place(false, false, true)
    ensures Opens(s, cxx, i, place, left)
  {
    hide First, Glyphs, KeepsBrackets, StaysOpen, Phase3, SpliceLen, Chars, TokenLen, WordLen, OtherLen;
    PlainMark(s, cxx, i, place);
    assert s[i + 1..i + 1 + |"a"|] == "a";
    PlainWord(s, cxx, i + 1, "a", place);
    PlainMark(s, cxx, i + 2, place);
    ClosingMark(s, cxx, i + 2, place, false);
    ClosesBehind(s, cxx, i + 1, place, place);
    KeepsBracketsStep(s, cxx, i, place, false, left);
    LastLineEnd(s, cxx, i + 3, place);
    ReadsBehindToken(s, cxx, i + 2, i + 3, 1, place, place);
    ReadsBehindToken(s, cxx, i + 1, i + 2, 1, place, place);
    ReadsBehindToken(s, cxx, i, i + 1, 1, place, place);
  }

  /** A directive's name in the middle of a line, which what is left of the line would start with. */
  lemma OpensAtHash(s: string, cxx: bool, i: nat)
    requires '\\' !in s && |s| == i + 13 && s[i] == '#' && s[i + 1..i + 8] == "include" && s[i + 8] == ' '
    requires s[i + 9] == '<' && s[i + 10] == 'a' && s[i + 11] == '>' && s[i + 12] == '\n'
    ensures Opens(s, cxx, i, Place(false, false, false), START)
  {
    hide First, Glyphs, Opens, SpliceLen, TokenLen, WordLen, OtherLen;
    var place := Place(false, false, false);
    OpensAtBracket(s, cxx, i + 9, place, Place(false, false, true));
    OpensBehindBlank(s, cxx, i + 8, place, Place(false, false, true));
    var word := "include";
    PlainWord(s, cxx, i + 1, word, place);
    PlainWord(s, cxx, i + 1, word, Place(false, true, false));
    OpensBehindToken(s, cxx, i + 1, i + 8, 7, place, Place(false, true, false));
    PlainMark(s, cxx, i, place);
    OpensBehindToken(s, cxx, i, i + 1, 1, place, START);
  }

  /** Two block comments behind a token, the first over two lines: with both gone the rest of the line
      starts a line, and a directive. */
  lemma RemovalMayOpenDirective(cxx: bool)
    ensures var text := "x/*\n*//**/#include <a>\n";
            && Lex(text, cxx).Lexed? && !IsTame(text, cxx)
            && Lex(RemoveComments(text, cxx), cxx) != Lexed(Lex(text, cxx).tokens, 0)
  {
    hide Lex, RemoveComments, IsTame, Opens;
    var s := "x/*\n*//**/#include <a>\n";
    assert s[11..18] == "include";
    OpensAtHash(s, cxx, 10);
    OpensAtStart(s, cxx);
    OpenedIsNotTame(s, cxx);
  }

  lemma OpenedIsNotTame(s: string, cxx: bool)
    requires Opens(s, cxx, 0, START, START)
    ensures Lex(s, cxx).Lexed? && !IsTame(s, cxx)
    ensures Lex(RemoveComments(s, cxx), cxx) != Lexed(Lex(s, cxx).tokens, 0)
  {
    hide Phase3, KeepsBackslashes, KeepsBrackets, RemoveComments, Glyphs;
    RemovalKeepsTokens(s, cxx);
  }

  lemma OpensAtStart(s: string, cxx: bool)
    requires |s| > 10 && '\\' !in s && s[0] == 'x' && s[1] == '/' && s[2] == '*' && s[3] == '\n' && s[4] == '*' && s[5] == '/'
    requires s[6] == '/' && s[7] == '*' && s[8] == '*' && s[9] == '/' && Opens(s, cxx, 10, Place(false, false, false), START)
    ensures Opens(s, cxx, 0, START, START)
  {
    hide Glyphs, First, SpliceLen, WordLen, OtherLen, Opens, LeftPlace;
    var place := Place(false, false, false);
    TwoBlocks(s, cxx, place);
    BreaksLine(s, START);
    BreaksLine(s, place);
    OpensBehindBlock(s, cxx, 6, 10, place, START);
    OpensBehindBlock(s, cxx, 1, 6, place, place);
    assert s[0..0 + |"x"|] == "x";
    PlainWord(s, cxx, 0, "x", START);
    OpensBehindToken(s, cxx, 0, 1, 1, START, START);
  }

  /** A block comment over two lines and an empty one. */
  lemma TwoBlocks(s: string, cxx: bool, place: Place)
    requires |s| > 10 && '\\' !in s && s[1] == '/' && s[2] == '*' && s[3] == '\n' && s[4] == '*' && s[5] == '/'
    requires s[6] == '/' && s[7] == '*' && s[8] == '*' && s[9] == '/'
    ensures First(s, cxx, 1, place) == Piece.BlockComment(6) && First(s, cxx, 6, place) == Piece.BlockComment(10)
  {
    hide First, Glyphs;
    var a, b := Plain(s[3..]), Plain(s[8..]);
    assert BlockLen(a[1..]) == Some(2);
    PlainBlock(s, cxx, 1, 3, place);
    PlainBlock(s, cxx, 6, 2, place);
  }

  lemma BreaksLine(s: string, left: Place)
    requires |s| > 10 && s[1] == '/' && s[2] == '*' && s[3] == '\n' && s[4] == '*' && s[5] == '/'
    requires s[6] == '/' && s[7] == '*' && s[8] == '*' && s[9] == '/'
    ensures LeftPlace(s, 1, 6, false, left) == START && LeftPlace(s, 6, 10, false, left) == left
  {
    assert s[1..6][2] == '\n';
    assert SkipHSpace(s, 6) == 6;
    assert '\n' !in s[6..10];
  }
}
