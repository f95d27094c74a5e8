/** The one-pass lexer for C, C++ and CUDA: it works on the original text, splices and all, and
    reads exactly the tokens and comments that phases 2 and 3 define. */
module CLexer {
  import opened Basics
  import opened SplicedText
  import opened PhaseThree
  import opened Strings
  import opened SplicedSlices
  import opened CommentRemoval

  /** From `i` to `e` lie `n` logical characters and otherwise only splices. */
  ghost predicate Reads(s: string, i: nat, e: nat, n: nat) {
    i <= |s| && e <= |s| && Path(s, i, e) && |Text(s, i, e)| == n
  }

  lemma ReadsGlyphs(s: string, i: nat, e: nat, n: nat)
    requires Reads(s, i, e, n)
    ensures i <= e <= |s| && n <= |Glyphs(s, i)|
    ensures Glyphs(s, e) == Glyphs(s, i)[n..]
    ensures Text(s, i, e) == Chars(Glyphs(s, i)[..n])
  {
    PathGlyphs(s, i, e);
    PathForward(s, i, e);
  }

  lemma ReadsJoin(s: string, i: nat, m: nat, e: nat, a: nat, b: nat)
    requires Reads(s, i, m, a) && Reads(s, m, e, b)
    ensures Reads(s, i, e, a + b)
  {
    PathJoin(s, i, m, e);
  }

  /** Skipping splices reads nothing. */
  lemma ReadsNothing(s: string, j: nat)
    requires j <= |s|
    ensures Reads(s, j, SkipSplices(s, j), 0) && Glyphs(s, SkipSplices(s, j)) == Glyphs(s, j)
  {
    GlyphsAfterSkip(s, j);
  }

  lemma ReadsSplice(s: string, j: nat)
    requires j < |s| && SpliceLen(s, j) > 0
    ensures Reads(s, j, j + SpliceLen(s, j), 0) && Glyphs(s, j) == Glyphs(s, j + SpliceLen(s, j))
  {
  }

  lemma ReadsChar(s: string, j: nat)
    requires j < |s| && SpliceLen(s, j) == 0
    ensures Reads(s, j, j + 1, 1)
    ensures Glyphs(s, j) == [Glyph(s[j], s[j + 1..SkipSplices(s, j + 1)])] + Glyphs(s, j + 1)
    ensures Glyphs(s, j)[1..] == Glyphs(s, j + 1)
  {
  }

  lemma NothingAhead(s: string, j: nat)
    requires j <= |s|
    ensures Reads(s, j, j, 0)
    ensures SkipSplices(s, j) == |s| <==> Glyphs(s, j) == []
    ensures j == |s| ==> Glyphs(s, j) == []
  {
    GlyphsAfterSkip(s, j);
  }

  class Lexer {
    const s: string
    const cxx: bool

    constructor (text: string, cxx: bool)
      ensures s == text && this.cxx == cxx
    {
      s, this.cxx := text, cxx;
    }

    /** How long the splice is that starts at `j`; 0 when none does. */
    method SpliceLength(j: nat) returns (k: nat)
      ensures k == SpliceLen(s, j)
    {
      if j >= |s| || s[j] != '\\' {
        return 0;
      }
      k := j + 1;
      while k < |s| && IsBlank(s[k])
        invariant j < k <= |s| && SkipBlanks(s, k) == SkipBlanks(s, j + 1)
      {
        k := k + 1;
      }
      if k < |s| && s[k] == '\r' {
        k := k + 1;
      }
      if k < |s| && s[k] == '\n' {
        return k + 1 - j;
      }
      return 0;
    }

    method AfterSplices(j: nat) returns (r: nat)
      requires j <= |s|
      ensures r == SkipSplices(s, j)
    {
      hide SpliceLen, SkipSplices;
      r := j;
      while true
        invariant j <= r <= |s| && SkipSplices(s, r) == SkipSplices(s, j)
        decreases |s| - r
      {
        var k := SpliceLength(r);
        SkipOne(s, r);
        if k == 0 {
          return;
        }
        r := r + k;
      }
    }

    /** The logical character at `j` and the index after it. */
    method CharAt(j: nat) returns (ch: Option<char>, after: nat)
      requires j <= |s|
      ensures ch.None? <==> Glyphs(s, j) == []
      ensures ch.None? ==> after == |s| && Reads(s, j, after, 0)
      ensures ch.Some? ==> ch.value == Glyphs(s, j)[0].ch && j < after && Reads(s, j, after, 1)
      ensures ch.Some? ==> after <= |s| && Glyphs(s, after) == Glyphs(s, j)[1..] && s[after - 1] == ch.value
    {
      hide Reads, Glyphs, SkipSplices, SpliceLen;
      var k := AfterSplices(j);
      ReadsNothing(s, j);
      NothingAhead(s, j);
      if k >= |s| {
        return None, k;
      }
      ReadsChar(s, k);
      ReadsJoin(s, j, k, k + 1, 0, 1);
      return Some(s[k]), k + 1;
    }

    /** Where a line comment stops: before the end of the logical line, splices read over. */
    method LineCommentEnd(start: nat) returns (j: nat)
      requires start <= |s|
      ensures Reads(s, start, j, LineLen(Glyphs(s, start))) && SpliceLen(s, j) == 0
    {
      hide Reads, Glyphs, SkipSplices, SpliceLen;
      j := start;
      ghost var n := 0;
      NothingAhead(s, start);
      while j < |s|
        invariant start <= j <= |s| && Reads(s, start, j, n)
        invariant LineLen(Glyphs(s, start)) == n + LineLen(Glyphs(s, j))
      {
        var k := SpliceLength(j);
        if k > 0 {
          ReadsSplice(s, j);
          ReadsJoin(s, start, j, j + k, n, 0);
          j := j + k;
          continue;
        }
        ReadsChar(s, j);
        if s[j] == '\n' {
          return;
        }
        ReadsJoin(s, start, j, j + 1, n, 1);
        n := n + 1;
        j := j + 1;
      }
      NothingAhead(s, j);
      NoSpliceAtEnd(s);
    }

    /** End of a block comment whose opening ends at `start`, if it is ever closed. */
    method BlockCommentEnd(start: nat) returns (end: Option<nat>)
      requires start <= |s|
      ensures end.None? <==> BlockLen(Glyphs(s, start)).None?
      ensures end.Some? ==> Reads(s, start, end.value, BlockLen(Glyphs(s, start)).value)
      ensures end.Some? ==> start < end.value <= |s| && s[end.value - 1] == '/'
    {
      hide Reads, Glyphs, SkipSplices, SpliceLen;
      var j := start;
      ghost var n := 0;
      NothingAhead(s, start);
      while true
        invariant start <= j <= |s| && Reads(s, start, j, n)
        invariant BlockLen(Glyphs(s, start)).None? <==> BlockLen(Glyphs(s, j)).None?
        invariant BlockLen(Glyphs(s, j)).Some? ==>
                    BlockLen(Glyphs(s, start)).value == n + BlockLen(Glyphs(s, j)).value
        decreases |s| - j
      {
        var ch, after := CharAt(j);
        if ch.None? {
          return None;
        }
        ReadsJoin(s, start, j, after, n, 1);
        if ch.value == '*' {
          var nxt, after' := CharAt(after);
          if nxt == Some('/') {
            ReadsJoin(s, start, after, after', n + 1, 1);
            return Some(after');
          }
        }
        n := n + 1;
        j := after;
      }
    }

    /** End of the header name that opens at `j`, or just past the bracket when it is not one. */
    method HeaderNameEnd(j: nat) returns (end: nat)
      requires j < |s| && s[j] == '<'
      ensures Reads(s, j, end, HeaderLen(Glyphs(s, j)))
    {
      hide Reads, Glyphs, SkipSplices, SpliceLen, HeaderTail;
      PlainChar(s, j);
      ReadsChar(s, j);
      var k := j + 1;
      ghost var n := 0;
      ghost var splice: Option<nat> := None;  // where the splice being crossed starts
      while k < |s|
        invariant j < k <= |s| && Glyphs(s, j) != []
        invariant splice.None? ==> Reads(s, j, k, n + 1) && SpliceLen(s, k - 1) == 0 && Glyphs(s, k - 1) != []
        invariant splice.None? ==> SameHeader(Glyphs(s, j), Glyphs(s, k - 1), n)
        invariant splice.Some? ==> splice.value < k < splice.value + SpliceLen(s, splice.value)
        invariant splice.Some? ==> HeaderTail(Glyphs(s, j)).None?
      {
        var ch := s[k];
        if splice.None? {
          HeaderStep(s, k);
          if SpliceLen(s, k) == 0 {
            ReadsChar(s, k);
            ReadsJoin(s, j, k, k + 1, n + 1, 1);
          } else {
            splice := Some(k);
          }
        }
        if ch == '>' {
          return k + 1;
        }
        if ch == '\n' {
          break;
        }
        n := n + 1;
        k := k + 1;
      }
      if splice.None? && k == |s| {
        HeaderStep(s, k);
      }
      return j + 1;
    }

    method IdentEnd(start: nat) returns (j: nat)
      requires start <= |s|
      ensures Reads(s, start, j, IdentLen(Glyphs(s, start)))
    {
      hide Reads, Glyphs, SkipSplices, SpliceLen;
      j := start;
      ghost var n := 0;
      NothingAhead(s, start);
      while true
        invariant start <= j <= |s| && Reads(s, start, j, n)
        invariant IdentLen(Glyphs(s, start)) == n + IdentLen(Glyphs(s, j))
        decreases |s| - j
      {
        var k := AfterSplices(j);
        ReadsNothing(s, j);
        NothingAhead(s, j);
        if k < |s| {
          ReadsChar(s, k);
        }
        if k < |s| && IsIdentChar(s[k]) {
          ReadsJoin(s, j, k, k + 1, 0, 1);
          ReadsJoin(s, start, j, k + 1, n, 1);
          n := n + 1;
          j := k + 1;
        } else {
          return;
        }
      }
    }

    /** End of a preprocessing number, digit separators included. */
    method NumberEnd(start: nat) returns (j: nat)
      requires start <= |s| && Glyphs(s, start) != []
      ensures Reads(s, start, j, 1 + NumberTail(Glyphs(s, start)[1..], ' '))
    {
      hide Reads, Glyphs, SkipSplices, SpliceLen;
      var first;
      first, j := CharAt(start);
      var prev := ' ';
      ghost var n := 1;
      while true
        invariant start <= j <= |s| && Reads(s, start, j, n)
        invariant 1 + NumberTail(Glyphs(s, start)[1..], ' ') == n + NumberTail(Glyphs(s, j), prev)
        decreases |s| - j
      {
        var ch, after := CharAt(j);
        if ch.None? {
          return;
        }
        if IsSign(ch.value) && IsExponent(prev) {
        } else if ch.value == '\'' {
          var nxt, _ := CharAt(after);
          if nxt.None? || !IsIdentChar(nxt.value) {
            return;
          }
        } else if !(IsIdentChar(ch.value) || ch.value == '.') {
          return;
        }
        ReadsJoin(s, start, j, after, n, 1);
        n := n + 1;
        prev := ch.value;
        j := after;
      }
    }

    /** End of the literal whose quote is at `start`; an unterminated one ends at the line's end. */
    method QuotedEnd(start: nat) returns (end: nat)
      requires start < |s| && (s[start] == '"' || s[start] == '\'')
      ensures Glyphs(s, start) != []
      ensures Reads(s, start, end, 1 + QuotedTail(Glyphs(s, start)[1..], s[start]))
    {
      hide Reads, Glyphs, SkipSplices, SpliceLen;
      PlainChar(s, start);
      ReadsChar(s, start);
      var quote := s[start];
      var j := start + 1;
      ghost var n := 1;
      while true
        invariant start < j <= |s| && Reads(s, start, j, n)
        invariant 1 + QuotedTail(Glyphs(s, start)[1..], quote) == n + QuotedTail(Glyphs(s, j), quote)
        decreases |s| - j
      {
        var ch, after := CharAt(j);
        ReadsJoin(s, start, j, after, n, if ch.None? then 0 else 1);
        if ch.None? {
          return |s|;
        }
        if ch.value == '\n' {
          end := AfterSplices(j);
          ReadsNothing(s, j);
          ReadsJoin(s, start, j, end, n, 0);
          return;
        }
        if ch.value == '\\' {
          var esc, after' := CharAt(after);
          if esc.None? || esc.value == '\n' {
            return after;
          }
          assert Glyphs(s, j)[1..][1..] == Glyphs(s, j)[2..];
          ReadsJoin(s, start, after, after', n + 1, 1);
          n := n + 2;
          j := after';
          continue;
        }
        n := n + 1;
        j := after;
        if ch.value == quote {
          return j;
        }
      }
    }

    /** End of the raw string whose quote is at `j`, read off the original text. */
    method RawStringEnd(j: nat) returns (end: Option<nat>)
      requires j < |s| && s[j] == '"'
      ensures Glyphs(s, j) != []
      ensures end.None? <==> RawLen(Glyphs(s, j)).None?
      ensures end.Some? ==> Reads(s, j, end.value, RawLen(Glyphs(s, j)).value)
    {
      hide Reads, Glyphs, RawLen, SpliceLen, OccursAt;
      PlainChar(s, j);
      RawMatches(s, j);
      var open := FindBefore(s, "(", j + 1, j + 18);
      if open < 0 {
        return None;
      }
      var delim := s[j + 1..open];
      if exists k :: 0 <= k < |delim| && BadDelimiter(delim[k]) {
        return None;
      }
      var close := FindBefore(s, ")" + delim + "\"", open + 1, |s|);
      if close < 0 {
        return None;
      }
      return Some(close + |delim| + 2);
    }

    /** An identifier, or the literal it is the prefix of, and whether a header name may follow. */
    method WordEnd(i: nat, place: Place) returns (end: Option<nat>, header: bool)
      requires i < |s| && SpliceLen(s, i) == 0 && IsIdentStart(s[i])
      ensures Glyphs(s, i) != [] && Glyphs(s, i)[0].ch == s[i]
      ensures end.None? <==> WordLen(Glyphs(s, i), cxx).None?
      ensures end.Some? ==> Reads(s, i, end.value, WordLen(Glyphs(s, i), cxx).value)
      ensures header <==> OpensHeader(Glyphs(s, i), cxx, place)
    {
      hide Reads, Glyphs, SpliceLen, SkipSplices, IdentLen, QuotedTail, RawLen, Path, Text, Visible, IsIdentStart, Chars, WordLen,
        OpensHeader, Prefixes, IsRawPrefix, IsStringPrefix, NamesHeader, BehindWord;
      ReadsChar(s, i);
      var e := IdentEnd(i);
      TokenText(s, i, e, IdentLen(Glyphs(s, i)));
      var ident := Unsplice(s[i..e]);
      var q, _ := CharAt(e);
      var j := AfterSplices(e);
      WordRead(s, i, e);
      WordPrefixes(s, i, j, cxx, ident, q, place);
      if cxx && IsRawPrefix(ident) && q == Some('"') {
        end := RawStringEnd(j);
        RawWordRead(s, i, j, end, cxx);
        return end, false;
      } else if IsStringPrefix(ident) && (q == Some('"') || q == Some('\'')) {
        var e' := QuotedEnd(j);
        QuotedWordRead(s, i, j, e', cxx);
        return Some(e'), false;
      }
      return Some(e), place.namePending && NamesHeader(ident);
    }

    /** A number, a literal, or a single character. */
    method OtherEnd(i: nat) returns (end: nat)
      requires i < |s| && SpliceLen(s, i) == 0
      ensures Glyphs(s, i) != [] && Glyphs(s, i)[0].ch == s[i]
      ensures Reads(s, i, end, OtherLen(Glyphs(s, i)))
    {
      hide Reads, Glyphs, SpliceLen, SkipSplices, NumberTail, QuotedTail;
      ReadsChar(s, i);
      var ch := s[i];
      var nxt, _ := CharAt(i + 1);
      if IsDigit(ch) || (ch == '.' && nxt.Some? && IsDigit(nxt.value)) {
        end := NumberEnd(i);
      } else if ch == '"' || ch == '\'' {
        end := QuotedEnd(i);
      } else {
        end := i + 1;
      }
    }

    /** What a block comment is replaced by: one space and as many line ends as it spanned, spliced
        when the logical line must stay whole. */
    method BlockReplacement(span: string, end: nat, inDirective: bool) returns (r: string)
      requires end <= |s|
      ensures Newlines(r) == Newlines(span) && r != "" && r[0] == ' '
      ensures forall i :: 0 <= i < |r| ==> IsInvisible(r[i])
      ensures r == " " + Repeat(if inDirective || HashFollows(s, end) then "\\\n" else "\n", Newlines(span))
    {
      var newlines := Newlines(span);
      if newlines == 0 {
        assert " " + "" == " ";
        return " ";
      }
      var unit := if inDirective || HashFollows(s, end) then "\\\n" else "\n";
      RepeatedLineEnd(unit, newlines);
      NewlinesConcat(" ", Repeat(unit, newlines));
      return " " + Repeat(unit, newlines);
    }

    /** Write a line comment, or only its line ends in place of it and the blanks before it. */
    method WriteLineComment(strip: bool, i: nat, end: nat, ghost place: Place, inDirective: bool, out: seq<string>,
                            ghost tokens: seq<string>, ghost comments: nat)
      returns (out': seq<string>)
      requires i < |s| && s[i] == '/' && Lexing(strip, s, cxx, i, place, inDirective, out, tokens, comments)
      requires LineCommentTo(s, i, end)
      ensures Lexing(strip, s, cxx, end, place, inDirective, out', tokens, comments + 1)
    {
      hide Visible, Concat, Newlines, Reached, Rest, Reads, Glyphs, SpliceLen, Blanks;
      var span := s[i..end];
      OverLineComment(s, cxx, i, end, place, tokens, comments);
      RestOverLineComment(s, cxx, i, end, place, inDirective, strip, out);
      out' := out;
      if strip {
        while out' != [] && IsBlankPiece(out'[|out'| - 1])
          invariant Written(true, s, i, out', tokens) && Popped(out') == Popped(out)
          decreases |out'|
        {
          PopBlank(s, i, out', tokens);
          out' := out'[..|out'| - 1];
        }
        var lines := Repeat("\n", Newlines(span));
        RepeatedLineEnd("\n", Newlines(span)) by { OneLineEnd(); }
        Replaced(s, i, end, out', tokens, lines);
        out' := out' + [lines];
      } else {
        Copied(s, i, end, out, tokens);
        RestUnstripped(s, cxx, end, place, inDirective, out + [span]);
        out' := out' + [span];
      }
    }

    method WriteBlockComment(strip: bool, i: nat, end: nat, ghost place: Place, inDirective: bool, out: seq<string>,
                             ghost tokens: seq<string>, ghost comments: nat)
      returns (out': seq<string>)
      requires i < |s| && s[i] == '/' && Lexing(strip, s, cxx, i, place, inDirective, out, tokens, comments)
      requires BlockCommentTo(s, i, end)
      ensures Lexing(strip, s, cxx, end, place, inDirective, out', tokens, comments + 1)
    {
      hide Visible, Concat, Newlines, Reached, Rest, Reads, Glyphs, Popped, Blanks, Written;
      var span := s[i..end];
      OverBlockComment(s, cxx, i, end, place, tokens, comments);
      RestOverBlockComment(s, cxx, i, end, place, inDirective, strip, out);
      if strip {
        var r := BlockReplacement(span, end, inDirective);
        Replaced(s, i, end, out, tokens, r);
        out' := out + [r];
      } else {
        Copied(s, i, end, out, tokens);
        RestUnstripped(s, cxx, end, place, inDirective, out + [span]);
        out' := out + [span];
      }
    }

    /** The comment that the slash at `i` opens, if any. */
    method CommentAt(i: nat) returns (c: CommentSpan)
      requires i < |s| && s[i] == '/'
      ensures c.NoComment? ==> !StartsWith(Glyphs(s, i), '/', '/') && !StartsWith(Glyphs(s, i), '/', '*')
      ensures c.LineComment? ==> LineCommentTo(s, i, c.end)
      ensures c.Unterminated? ==> StartsWith(Glyphs(s, i), '/', '*') && BlockLen(Glyphs(s, i)[2..]).None?
      ensures c.BlockComment? ==> BlockCommentTo(s, i, c.end)
    {
      hide Reads, Glyphs, SpliceLen, SkipSplices, Path, Text, LineLen, BlockLen;
      PlainChar(s, i);
      ReadsChar(s, i);
      ghost var g := Glyphs(s, i);
      var nxt, after := CharAt(i + 1);
      if nxt != Some('/') && nxt != Some('*') {
        return NoComment;
      }
      ReadsJoin(s, i, i + 1, after, 1, 1);
      assert g[1..][1..] == g[2..];
      if nxt == Some('/') {
        var end := LineCommentEnd(after);
        ReadsJoin(s, i, after, end, 2, LineLen(g[2..]));
        ReadsGlyphs(s, i, end, 2 + LineLen(g[2..]));
        ReadsGlyphs(s, after, end, LineLen(g[2..]));
        return LineComment(end);
      }
      var end := BlockCommentEnd(after);
      if end.None? {
        return Unterminated;
      }
      ReadsJoin(s, i, after, end.value, 2, BlockLen(g[2..]).value);
      ReadsGlyphs(s, i, end.value, 2 + BlockLen(g[2..]).value);
      ReadsGlyphs(s, after, end.value, BlockLen(g[2..]).value);
      return BlockComment(end.value);
    }

    /** The token at `i` and the place after it. */
    method TokenEnd(i: nat, place: Place) returns (end: Option<nat>, place': Place)
      requires i < |s| && SpliceLen(s, i) == 0
      ensures Glyphs(s, i) != [] && Glyphs(s, i)[0].ch == s[i]
      ensures end.None? <==> TokenLen(Glyphs(s, i), cxx, place).None?
      ensures end.Some? ==> place' == NextPlace(Glyphs(s, i), cxx, place)
      ensures end.Some? ==> Reads(s, i, end.value, TokenLen(Glyphs(s, i), cxx, place).value)
    {
      hide Reads, Glyphs, SpliceLen, SkipSplices, Path, Text, HeaderLen, WordLen, OtherLen, OpensHeader, IsIdentStart;
      ReadsChar(s, i);
      var ch := s[i];
      if ch == '#' && place.lineStart {
        return Some(i + 1), Place(false, true, place.headerAllowed);
      }
      if ch == '<' && place.headerAllowed {
        var e := HeaderNameEnd(i);
        return Some(e), place.(headerAllowed := false);
      }
      if IsIdentStart(ch) {
        var header;
        end, header := WordEnd(i, place);
        return end, Place(false, false, header);
      }
      var e := OtherEnd(i);
      return Some(e), Place(false, false, false);
    }

    /** Lex the whole text, keeping comments or replacing them. */
    method Run(strip: bool) returns (r: Output)
      ensures r.Unlexable? <==> Lex(s, cxx).Failed?
      ensures r.Output? ==> Lex(s, cxx) == Lexed(r.tokens, r.comments)
      ensures r.Output? && !strip ==> r.out == s
      ensures r.Output? && strip ==> Newlines(r.out) == Newlines(s) && Visible(r.out) == Visible(Concat(r.tokens))
      ensures r.Output? && strip ==> r.out == RemoveComments(s, cxx)
    {
      hide Reads, Glyphs, SpliceLen, SkipSplices, Path, Text, Visible, Concat, Newlines, Lex, LineLen, BlockLen, TokenLen,
           NextPlace, RemoveComments, IsBlank, Lexing, LineCommentTo, BlockCommentTo, AtToken;
      var out: seq<string>, tokens: seq<string> := [], [];
      var comments: nat, i: nat := 0, 0;
      var place, inDirective := START, false;
      LexingStarts(strip, s, cxx);
      while i < |s|
        invariant 0 <= i <= |s|
        invariant Lexing(strip, s, cxx, i, place, inDirective, out, tokens, comments)
      {
        var k := SpliceLength(i);
        if k > 0 {
          LexSplice(strip, s, cxx, i, place, inDirective, out, tokens, comments);
          out := out + [s[i..i + k]];
          i := i + k;
          continue;
        }
        var ch := s[i];
        if ch == '\n' || IsHSpace(ch) {
          LexSpace(strip, s, cxx, i, place, inDirective, out, tokens, comments);
          if ch == '\n' {
            place, inDirective := START, false;
          }
          out := out + [[ch]];
          i := i + 1;
          continue;
        }
        var c := NoComment;
        if ch == '/' {
          c := CommentAt(i);
        }
        match c {
          case LineComment(end) =>
            LineCommentAhead(s, i, end);
            out := WriteLineComment(strip, i, end, place, inDirective, out, tokens, comments);
            comments, i := comments + 1, end;
          case BlockComment(end) =>
            BlockCommentAhead(s, i, end);
            out := WriteBlockComment(strip, i, end, place, inDirective, out, tokens, comments);
            comments, i := comments + 1, end;
          case Unterminated =>
            LexFails(strip, s, cxx, i, place, inDirective, out, tokens, comments);
            return Unlexable;
          case NoComment =>
            StartsToken(s, i);
            var end, place' := TokenEnd(i, place);
            if end.None? {
              LexFails(strip, s, cxx, i, place, inDirective, out, tokens, comments);
              return Unlexable;
            }
            LexToken(strip, s, cxx, i, end.value, place, inDirective, out, tokens, comments);
            TokenText(s, i, end.value, TokenLen(Glyphs(s, i), cxx, place).value);
            var token := Unsplice(s[i..end.value]);
            inDirective := inDirective || (ch == '#' && place.lineStart);
            out := out + [s[i..end.value]];
            tokens := tokens + [token];
            place, i := place', end.value;
        }
      }
      LexingEnds(strip, s, cxx, place, inDirective, out, tokens, comments);
      return Output(Concat(out), tokens, comments);
    }
  }

  datatype CommentSpan = NoComment | Unterminated | LineComment(end: nat) | BlockComment(end: nat)

  datatype Output = Unlexable | Output(out: string, tokens: seq<string>, comments: nat)

  /** What has been read up to `i`, and what lies ahead, make up the whole text's tokens. */
  ghost predicate Reached(s: string, cxx: bool, i: nat, place: Place, tokens: seq<string>, comments: nat) {
    i <= |s| && Lex(s, cxx) == Before(tokens, comments, Phase3(Glyphs(s, i), cxx, place))
  }

  /** What has been written up to `i`: the text itself, or the text with its comments replaced. */
  ghost predicate Written(strip: bool, s: string, i: nat, out: seq<string>, tokens: seq<string>) {
    && i <= |s|
    && (!strip ==> Concat(out) == s[..i])
    && (strip ==> Newlines(Concat(out)) == Newlines(s[..i]) && Visible(Concat(out)) == Visible(Concat(tokens)))
  }

  /** Delete the splices of a token. */
  method Unsplice(tok: string) returns (r: string)
    ensures Path(tok, 0, |tok|) && r == Text(tok, 0, |tok|)
  {
    hide SpliceLen, Path, Text;
    PathToEnd(tok, 0);
    if '\\' !in tok || '\n' !in tok {
      NoSplices(tok, 0);
      return tok;
    }
    r := "";
    NothingBefore(Text(tok, 0, |tok|));
    var i := 0;
    var lexer := new Lexer(tok, true);
    while i < |tok|
      invariant 0 <= i <= |tok| && Path(tok, i, |tok|)
      invariant Text(tok, 0, |tok|) == r + Text(tok, i, |tok|)
    {
      var k := lexer.SpliceLength(i);
      TextStep(tok, i, r);
      if k > 0 {
        i := i + k;
        continue;
      }
      r := r + [tok[i]];
      i := i + 1;
    }
    NothingBehind(tok, r);
  }

  lemma TextStep(tok: string, i: nat, r: string)
    requires i < |tok| && Path(tok, i, |tok|)
    ensures var k := SpliceLen(tok, i);
            if k > 0 then i + k <= |tok| && Path(tok, i + k, |tok|) && Text(tok, i, |tok|) == Text(tok, i + k, |tok|)
            else Path(tok, i + 1, |tok|) && r + Text(tok, i, |tok|) == r + [tok[i]] + Text(tok, i + 1, |tok|)
  {
    hide SpliceLen;
    if SpliceLen(tok, i) == 0 {
      assert r + ([tok[i]] + Text(tok, i + 1, |tok|)) == r + [tok[i]] + Text(tok, i + 1, |tok|);
    }
  }

  lemma NothingBehind(tok: string, r: string)
    ensures Path(tok, |tok|, |tok|) && r + Text(tok, |tok|, |tok|) == r
  {
  }

  /** A token's text without splices is the logical characters read for it. */
  lemma TokenText(s: string, i: nat, e: nat, n: nat)
    requires Reads(s, i, e, n)
    ensures i <= e <= |s| && n <= |Glyphs(s, i)|
    ensures Path(s[i..e], 0, e - i) && Text(s[i..e], 0, e - i) == Chars(Glyphs(s, i)[..n])
    ensures Visible(s[i..e]) == Visible(Chars(Glyphs(s, i)[..n]))
  {
    ReadsGlyphs(s, i, e, n);
    TextSlice(s, i, i, e);
    VisibleText(s, i, e);
  }

  lemma PlainChar(s: string, j: nat)
    requires j < |s| && s[j] != '\\'
    ensures SpliceLen(s, j) == 0
  {
  }

  /** The character behind the word at `i` is at `j`. */
  ghost predicate BehindWord(s: string, i: nat, j: nat) {
    && i < |s| && Glyphs(s, i) != [] && IsIdentStart(Glyphs(s, i)[0].ch)
    && var g := Glyphs(s, i);
       var n := IdentLen(g);
    && Reads(s, i, j, n) && j <= |s| && g[n..] == Glyphs(s, j) && (j < |s| <==> n < |g|) && (j < |s| ==> g[n].ch == s[j])
  }

  lemma WordRead(s: string, i: nat, e: nat)
    requires i < |s| && Glyphs(s, i) != [] && IsIdentStart(Glyphs(s, i)[0].ch) && Reads(s, i, e, IdentLen(Glyphs(s, i)))
    ensures e <= |s| && BehindWord(s, i, SkipSplices(s, e)) && Glyphs(s, e) == Glyphs(s, SkipSplices(s, e))
  {
    hide Reads, Glyphs, SpliceLen, SkipSplices, IdentLen, IsIdentStart;
    var n := IdentLen(Glyphs(s, i));
    ReadsGlyphs(s, i, e, n);
    ReadsNothing(s, e);
    NothingAhead(s, e);
    var j := SkipSplices(s, e);
    ReadsJoin(s, i, e, j, n, 0);
    if j < |s| {
      ReadsChar(s, j);
    }
  }

  /** What an identifier and the character behind it say about literals. */
  lemma WordPrefixes(s: string, i: nat, j: nat, cxx: bool, ident: string, q: Option<char>, place: Place)
    requires BehindWord(s, i, j) && ident == Chars(Glyphs(s, i)[..IdentLen(Glyphs(s, i))])
    requires (q.None? <==> Glyphs(s, j) == []) && (q.Some? ==> q.value == Glyphs(s, j)[0].ch)
    ensures var g := Glyphs(s, i);
            var n := IdentLen(g);
            && (Prefixes(g, n, cxx, true) <==> cxx && IsRawPrefix(ident) && q == Some('"'))
            && (Prefixes(g, n, cxx, false) <==> IsStringPrefix(ident) && (q == Some('"') || q == Some('\'')))
            && (q.Some? ==> j < |s| && q.value == s[j])
            && (OpensHeader(g, cxx, place) <==>
                  !Prefixes(g, n, cxx, true) && !Prefixes(g, n, cxx, false) && place.namePending && NamesHeader(ident))
            && (!Prefixes(g, n, cxx, true) && !Prefixes(g, n, cxx, false) ==> WordLen(g, cxx) == Some(n))
  {
    hide Chars, IsRawPrefix, IsStringPrefix, NamesHeader, Glyphs, IdentLen, Reads, WordLen, OpensHeader, IsIdentStart;
    WordOf(Glyphs(s, i), cxx, place);
  }

  lemma RawWordRead(s: string, i: nat, j: nat, end: Option<nat>, cxx: bool)
    requires BehindWord(s, i, j) && Prefixes(Glyphs(s, i), IdentLen(Glyphs(s, i)), cxx, true) && Glyphs(s, j) != []
    requires (end.None? <==> RawLen(Glyphs(s, j)).None?) && (end.Some? ==> Reads(s, j, end.value, RawLen(Glyphs(s, j)).value))
    ensures end.None? <==> WordLen(Glyphs(s, i), cxx).None?
    ensures end.Some? ==> Reads(s, i, end.value, WordLen(Glyphs(s, i), cxx).value)
  {
    hide Prefixes, Glyphs, IdentLen, Reads, WordLen, OpensHeader, RawLen, IsIdentStart;
    WordOf(Glyphs(s, i), cxx, START);
    if end.Some? {
      ReadsJoin(s, i, j, end.value, IdentLen(Glyphs(s, i)), RawLen(Glyphs(s, j)).value);
    }
  }

  lemma QuotedWordRead(s: string, i: nat, j: nat, e: nat, cxx: bool)
    requires BehindWord(s, i, j) && j < |s| && Glyphs(s, j) != []
    requires Prefixes(Glyphs(s, i), IdentLen(Glyphs(s, i)), cxx, false) && !Prefixes(Glyphs(s, i), IdentLen(Glyphs(s, i)), cxx, true)
    requires Reads(s, j, e, 1 + QuotedTail(Glyphs(s, j)[1..], s[j]))
    ensures WordLen(Glyphs(s, i), cxx).Some? && Reads(s, i, e, WordLen(Glyphs(s, i), cxx).value)
  {
    hide Prefixes, Glyphs, IdentLen, Reads, WordLen, OpensHeader, QuotedTail, IsIdentStart;
    var g := Glyphs(s, i);
    var n := IdentLen(g);
    WordOf(g, cxx, START);
    assert g[n + 1..] == Glyphs(s, j)[1..];
    ReadsJoin(s, i, j, e, n, 1 + QuotedTail(g[n + 1..], s[j]));
  }

  /** How the character after `k - 1` decides whether a header name goes on. */
  lemma HeaderStep(s: string, k: nat)
    requires 1 <= k <= |s| && SpliceLen(s, k - 1) == 0
    ensures Glyphs(s, k - 1) != []
    ensures k == |s| || SpliceLen(s, k) > 0 || s[k] == '\n' ==> HeaderTail(Glyphs(s, k - 1)).None?
    ensures k < |s| && SpliceLen(s, k) == 0 && s[k] == '>' ==> HeaderTail(Glyphs(s, k - 1)) == Some(1)
    ensures k < |s| && SpliceLen(s, k) == 0 && s[k] != '\n' && s[k] != '>' ==>
              Glyphs(s, k) != [] && SameHeader(Glyphs(s, k - 1), Glyphs(s, k), 1)
  {
    hide Reads, Glyphs, SpliceLen, SkipSplices;
    ReadsChar(s, k - 1);
    SkipFacts(s, k);
    NothingAfter(s);
    if k < |s| && SpliceLen(s, k) == 0 {
      ReadsChar(s, k);
    }
  }

  lemma SkipOne(s: string, k: nat)
    requires k <= |s|
    ensures SkipSplices(s, k) == if SpliceLen(s, k) == 0 then k else SkipSplices(s, k + SpliceLen(s, k))
  {
    hide SpliceLen;
  }

  lemma SkipFacts(s: string, k: nat)
    requires k <= |s|
    ensures SkipSplices(s, k) == k <==> SpliceLen(s, k) == 0
    ensures s[k..SkipSplices(s, k)] == "" <==> SpliceLen(s, k) == 0
  {
  }

  /** The header name that opens at `g` closes `n` characters later than seen from `h`. */
  ghost predicate SameHeader(g: seq<Glyph>, h: seq<Glyph>, n: nat)
    requires g != [] && h != []
  {
    && (HeaderTail(g).None? <==> HeaderTail(h).None?)
    && (HeaderTail(h).Some? ==> HeaderTail(g).value == n + HeaderTail(h).value)
  }

  // ---------------------------------------------------------------------------
  // One step of the lexer

  lemma OneLineEnd()
    ensures Newlines("\n") == 1
  {
  }

  lemma SliceStep(s: string, i: nat, e: nat)
    requires i <= e <= |s|
    ensures s[..e] == s[..i] + s[i..e]
  {
  }

  lemma Copied(s: string, i: nat, e: nat, out: seq<string>, tokens: seq<string>)
    requires i <= e <= |s| && Written(false, s, i, out, tokens)
    ensures Written(false, s, e, out + [s[i..e]], tokens)
  {
  }

  lemma Replaced(s: string, i: nat, e: nat, out: seq<string>, tokens: seq<string>, r: string)
    requires i <= e <= |s| && Written(true, s, i, out, tokens)
    requires Newlines(r) == Newlines(s[i..e]) && forall j :: 0 <= j < |r| ==> IsInvisible(r[j])
    ensures Written(true, s, e, out + [r], tokens)
  {
    hide Concat, Newlines, Visible;
    ConcatSnoc(out, r);
    SliceStep(s, i, e);
    NewlinesConcat(Concat(out), r);
    NewlinesConcat(s[..i], s[i..e]);
    VisibleConcat(Concat(out), r);
    NothingVisible(r);
  }

  lemma PopBlank(s: string, i: nat, out: seq<string>, tokens: seq<string>)
    requires Written(true, s, i, out, tokens) && out != []
    requires IsBlankPiece(out[|out| - 1])
    ensures Written(true, s, i, out[..|out| - 1], tokens)
  {
    hide Concat, Newlines, Visible;
    var rest, last := out[..|out| - 1], out[|out| - 1];
    assert out == rest + [last];
    ConcatSnoc(rest, last);
    NewlinesConcat(Concat(rest), last);
    BlankHasNoLineEnd(last);
    VisibleConcat(Concat(rest), last);
    NothingVisible(last);
  }

  lemma BlankHasNoLineEnd(s: string)
    requires |s| == 1 && IsBlank(s[0])
    ensures Newlines(s) == 0
  {
  }

  /** Copying invisible text, or the text of a token, keeps the record of what is visible. */
  lemma Kept(strip: bool, s: string, i: nat, e: nat, out: seq<string>, tokens: seq<string>, more: seq<string>)
    requires i <= e <= |s| && Written(strip, s, i, out, tokens)
    requires |more| <= 1 && Visible(s[i..e]) == if more == [] then "" else Visible(more[0])
    ensures Written(strip, s, e, out + [s[i..e]], tokens + more)
  {
    hide Concat, Newlines, Visible;
    ConcatSnoc(out, s[i..e]);
    SliceStep(s, i, e);
    NewlinesConcat(Concat(out), s[i..e]);
    NewlinesConcat(s[..i], s[i..e]);
    VisibleConcat(Concat(out), s[i..e]);
    if more == [] {
      assert tokens + more == tokens;
    } else {
      assert more == [more[0]];
      ConcatSnoc(tokens, more[0]);
      VisibleConcat(Concat(tokens), more[0]);
    }
  }

  lemma StartAt(s: string, cxx: bool, strip: bool)
    ensures Reached(s, cxx, 0, START, [], 0) && Written(strip, s, 0, [], [])
  {
    hide Phase3, Glyphs;
    var later := Lex(s, cxx);
    if later.Lexed? {
      assert [] + later.tokens == later.tokens;
    }
  }

  lemma AtEnd(s: string, cxx: bool, place: Place, tokens: seq<string>, comments: nat, strip: bool, out: seq<string>)
    requires Reached(s, cxx, |s|, place, tokens, comments) && Written(strip, s, |s|, out, tokens)
    ensures Lex(s, cxx) == Lexed(tokens, comments)
    ensures !strip ==> Concat(out) == s
    ensures strip ==> Newlines(Concat(out)) == Newlines(s) && Visible(Concat(out)) == Visible(Concat(tokens))
  {
    hide Concat, Newlines, Visible, Lex;
    NothingAhead(s, |s|);
    assert s[..|s|] == s;
    assert tokens + [] == tokens;
  }

  lemma OverSplice(s: string, cxx: bool, i: nat, place: Place, tokens: seq<string>, comments: nat, strip: bool,
                   out: seq<string>)
    requires i < |s| && SpliceLen(s, i) > 0
    requires Reached(s, cxx, i, place, tokens, comments) && Written(strip, s, i, out, tokens)
    ensures Reached(s, cxx, i + SpliceLen(s, i), place, tokens, comments)
    ensures Written(strip, s, i + SpliceLen(s, i), out + [s[i..i + SpliceLen(s, i)]], tokens)
  {
    hide Phase3, Lex, Concat, Newlines, Visible, Glyphs, SpliceLen;
    ReadsSplice(s, i);
    SpliceInvisible(s, i);
    Kept(strip, s, i, i + SpliceLen(s, i), out, tokens, []);
    assert tokens + [] == tokens;
  }

  lemma OverSpace(s: string, cxx: bool, i: nat, place: Place, tokens: seq<string>, comments: nat, strip: bool,
                  out: seq<string>)
    requires i < |s| && SpliceLen(s, i) == 0 && (s[i] == '\n' || IsHSpace(s[i]))
    requires Reached(s, cxx, i, place, tokens, comments) && Written(strip, s, i, out, tokens)
    ensures Reached(s, cxx, i + 1, if s[i] == '\n' then START else place, tokens, comments)
    ensures Written(strip, s, i + 1, out + [[s[i]]], tokens)
  {
    hide Lex, Concat, Newlines, Visible, Glyphs, SpliceLen;
    ReadsChar(s, i);
    assert s[i..i + 1] == [s[i]];
    NothingVisible([s[i]]);
    Kept(strip, s, i, i + 1, out, tokens, []);
    assert tokens + [] == tokens;
  }

  lemma BeforeJoin(tokens: seq<string>, comments: nat, tokens': seq<string>, comments': nat, later: Lexed)
    ensures Before(tokens, comments, Before(tokens', comments', later)) == Before(tokens + tokens', comments + comments', later)
  {
  }

  /** A line comment runs from `i` to `e`, the splices at its end included. */
  ghost predicate LineCommentTo(s: string, i: nat, e: nat) {
    && i < e <= |s| && StartsWith(Glyphs(s, i), '/', '/')
    && Reads(s, i, e, 2 + LineLen(Glyphs(s, i)[2..])) && SpliceLen(s, e) == 0
  }

  /** A block comment runs from `i` to `e`, where its closing slash has just been read. */
  ghost predicate BlockCommentTo(s: string, i: nat, e: nat) {
    && i < e <= |s| && StartsWith(Glyphs(s, i), '/', '*') && BlockLen(Glyphs(s, i)[2..]).Some?
    && Reads(s, i, e, 2 + BlockLen(Glyphs(s, i)[2..]).value) && s[e - 1] == '/'
  }

  lemma LineCommentAhead(s: string, i: nat, e: nat)
    requires LineCommentTo(s, i, e)
    ensures i < e <= |s|
  {
  }

  lemma BlockCommentAhead(s: string, i: nat, e: nat)
    requires BlockCommentTo(s, i, e)
    ensures i < e <= |s|
  {
  }

  lemma OverLineComment(s: string, cxx: bool, i: nat, e: nat, place: Place, tokens: seq<string>, comments: nat)
    requires Reached(s, cxx, i, place, tokens, comments) && LineCommentTo(s, i, e)
    ensures Reached(s, cxx, e, place, tokens, comments + 1)
  {
    hide Lex, Glyphs, LineLen, Reads;
    ReadsGlyphs(s, i, e, 2 + LineLen(Glyphs(s, i)[2..]));
    BeforeJoin(tokens, comments, [], 1, Phase3(Glyphs(s, e), cxx, place));
    assert tokens + [] == tokens;
  }

  lemma OverBlockComment(s: string, cxx: bool, i: nat, e: nat, place: Place, tokens: seq<string>, comments: nat)
    requires Reached(s, cxx, i, place, tokens, comments) && BlockCommentTo(s, i, e)
    ensures Reached(s, cxx, e, place, tokens, comments + 1)
  {
    hide Lex, Glyphs, BlockLen, Reads;
    ReadsGlyphs(s, i, e, 2 + BlockLen(Glyphs(s, i)[2..]).value);
    BeforeJoin(tokens, comments, [], 1, Phase3(Glyphs(s, e), cxx, place));
    assert tokens + [] == tokens;
  }

  lemma FailInBlock(s: string, cxx: bool, i: nat, place: Place, tokens: seq<string>, comments: nat)
    requires Reached(s, cxx, i, place, tokens, comments) && StartsWith(Glyphs(s, i), '/', '*')
    requires BlockLen(Glyphs(s, i)[2..]).None?
    ensures Lex(s, cxx).Failed?
  {
    hide Lex, Glyphs, BlockLen;
  }

  /** A token starts at `i`: neither a blank nor a comment does. */
  ghost predicate AtToken(s: string, i: nat)
    requires i <= |s|
  {
    var g := Glyphs(s, i);
    && g != [] && g[0].ch != '\n' && !IsHSpace(g[0].ch)
    && !StartsWith(g, '/', '/') && !StartsWith(g, '/', '*')
  }

  lemma FailInToken(s: string, cxx: bool, i: nat, place: Place, tokens: seq<string>, comments: nat)
    requires Reached(s, cxx, i, place, tokens, comments) && AtToken(s, i)
    requires TokenLen(Glyphs(s, i), cxx, place).None?
    ensures Lex(s, cxx).Failed?
  {
    hide Lex, Glyphs, TokenLen, NextPlace;
  }

  lemma OverToken(s: string, cxx: bool, i: nat, e: nat, place: Place, tokens: seq<string>, comments: nat, strip: bool,
                  out: seq<string>)
    requires Reached(s, cxx, i, place, tokens, comments) && Written(strip, s, i, out, tokens) && AtToken(s, i)
    requires TokenLen(Glyphs(s, i), cxx, place).Some?
    requires Reads(s, i, e, TokenLen(Glyphs(s, i), cxx, place).value)
    ensures i < e <= |s|
    ensures var token := Chars(Glyphs(s, i)[..TokenLen(Glyphs(s, i), cxx, place).value]);
            && Reached(s, cxx, e, NextPlace(Glyphs(s, i), cxx, place), tokens + [token], comments)
            && Written(strip, s, e, out + [s[i..e]], tokens + [token])
  {
    hide Lex, Glyphs, TokenLen, NextPlace, Reads, Visible, Concat, Newlines, Path, Text;
    var n := TokenLen(Glyphs(s, i), cxx, place).value;
    var token := Chars(Glyphs(s, i)[..n]);
    ReadsGlyphs(s, i, e, n);
    assert Glyphs(s, e) != Glyphs(s, i);
    TokenText(s, i, e, n);
    Kept(strip, s, i, e, out, tokens, [token]);
    BeforeJoin(tokens, comments, [token], 0, Phase3(Glyphs(s, e), cxx, NextPlace(Glyphs(s, i), cxx, place)));
  }

  // ---------------------------------------------------------------------------
  // What the stripping pass has written

  predicate IsBlankPiece(piece: string) {
    |piece| == 1 && IsBlank(piece[0])
  }

  /** What has been written, up to the last piece that is no blank. */
  ghost function Popped(out: seq<string>): seq<string> {
    if out != [] && IsBlankPiece(out[|out| - 1]) then Popped(out[..|out| - 1]) else out
  }

  /** The blanks at the end of what has been written. */
  ghost function Blanks(out: seq<string>): string {
    if out != [] && IsBlankPiece(out[|out| - 1]) then Blanks(out[..|out| - 1]) + out[|out| - 1] else ""
  }

  lemma {:induction false} PoppedBlanks(out: seq<string>)
    ensures Concat(out) == Concat(Popped(out)) + Blanks(out)
  {
    if out != [] && IsBlankPiece(out[|out| - 1]) {
      var init, last := out[..|out| - 1], out[|out| - 1];
      PoppedBlanks(init);
      assert out == init + [last];
      ConcatSnoc(init, last);
    } else {
      assert Concat(out) + "" == Concat(out);
    }
  }

  lemma PieceWritten(out: seq<string>, piece: string)
    ensures !IsBlankPiece(piece) ==> Popped(out + [piece]) == out + [piece] && Blanks(out + [piece]) == ""
    ensures IsBlankPiece(piece) ==> Popped(out + [piece]) == Popped(out) && Blanks(out + [piece]) == Blanks(out) + piece
  {
    assert (out + [piece])[..|out|] == out;
  }

  /** What has been written and what is still to be written make up the text without comments. */
  ghost predicate Rest(strip: bool, s: string, cxx: bool, i: nat, place: Place, inDirective: bool, out: seq<string>) {
    i <= |s| && (strip ==> RemoveComments(s, cxx) == Concat(Popped(out)) + Removed(s, cxx, i, place, inDirective, Blanks(out)))
  }

  lemma RestAtStart(s: string, cxx: bool, strip: bool)
    ensures Rest(strip, s, cxx, 0, START, false, [])
  {
    hide Removed;
    assert "" + RemoveComments(s, cxx) == RemoveComments(s, cxx);
  }

  lemma RestAtEnd(s: string, cxx: bool, place: Place, inDirective: bool, strip: bool, out: seq<string>)
    requires Rest(strip, s, cxx, |s|, place, inDirective, out)
    ensures strip ==> Concat(out) == RemoveComments(s, cxx)
  {
    hide RemoveComments;
    PoppedBlanks(out);
  }

  /** Writing a piece that is no blank, with the blanks before it. */
  lemma RestWrites(s: string, cxx: bool, i: nat, e: nat, place: Place, next: Place, inDirective: bool, nextDirective: bool,
                   strip: bool, out: seq<string>, piece: string)
    requires Rest(strip, s, cxx, i, place, inDirective, out) && e <= |s| && !IsBlankPiece(piece)
    requires Removed(s, cxx, i, place, inDirective, Blanks(out))
             == Blanks(out) + piece + Removed(s, cxx, e, next, nextDirective, "")
    ensures Rest(strip, s, cxx, e, next, nextDirective, out + [piece])
  {
    hide RemoveComments, Removed, Concat, Popped, Blanks;
    PoppedBlanks(out);
    PieceWritten(out, piece);
    ConcatSnoc(out, piece);
    var body, blanks, later := Concat(Popped(out)), Blanks(out), Removed(s, cxx, e, next, nextDirective, "");
    assert body + (blanks + piece + later) == (body + blanks) + piece + later;
  }

  /** Writing a blank, or what counts as one. */
  lemma RestBlank(s: string, cxx: bool, i: nat, e: nat, place: Place, inDirective: bool, strip: bool, out: seq<string>, piece: string)
    requires Rest(strip, s, cxx, i, place, inDirective, out) && e <= |s| && IsBlankPiece(piece)
    requires Removed(s, cxx, i, place, inDirective, Blanks(out)) == Removed(s, cxx, e, place, inDirective, Blanks(out) + piece)
    ensures Rest(strip, s, cxx, e, place, inDirective, out + [piece])
  {
    hide RemoveComments, Removed, Concat, Popped, Blanks;
    PieceWritten(out, piece);
  }

  lemma RestOverSplice(s: string, cxx: bool, i: nat, place: Place, inDirective: bool, strip: bool, out: seq<string>)
    requires i < |s| && SpliceLen(s, i) > 0 && Rest(strip, s, cxx, i, place, inDirective, out)
    ensures Rest(strip, s, cxx, i + SpliceLen(s, i), place, inDirective, out + [s[i..i + SpliceLen(s, i)]])
  {
    hide Rest, SpliceLen, Blanks;
    RestWrites(s, cxx, i, i + SpliceLen(s, i), place, place, inDirective, inDirective, strip, out, s[i..i + SpliceLen(s, i)]);
  }

  lemma RestOverSpace(s: string, cxx: bool, i: nat, place: Place, inDirective: bool, strip: bool, out: seq<string>)
    requires i < |s| && SpliceLen(s, i) == 0 && (s[i] == '\n' || IsHSpace(s[i])) && Rest(strip, s, cxx, i, place, inDirective, out)
    ensures Rest(strip, s, cxx, i + 1, if s[i] == '\n' then START else place, inDirective && s[i] != '\n', out + [[s[i]]])
  {
    hide Rest, SpliceLen, Blanks;
    if IsBlank(s[i]) {
      RestBlank(s, cxx, i, i + 1, place, inDirective, strip, out, [s[i]]);
    } else if s[i] == '\n' {
      RestWrites(s, cxx, i, i + 1, place, START, inDirective, false, strip, out, [s[i]]);
    } else {
      RestWrites(s, cxx, i, i + 1, place, place, inDirective, inDirective, strip, out, [s[i]]);
    }
  }

  lemma RestOverLineComment(s: string, cxx: bool, i: nat, e: nat, place: Place, inDirective: bool, strip: bool, out: seq<string>)
    requires i < |s| && s[i] == '/' && Rest(strip, s, cxx, i, place, inDirective, out) && LineCommentTo(s, i, e)
    ensures i <= e <= |s| && Rest(strip, s, cxx, e, place, inDirective, Popped(out) + [Repeat("\n", Newlines(s[i..e]))])
  {
    hide SpliceLen, Blanks, RemoveComments, Concat, Popped, Reads, Glyphs, SkipSplices, After, LineLen, Newlines;
    ReadsAfter(s, i, e, 2 + LineLen(Glyphs(s, i)[2..]));
    SkipReach(s, After(s, i, 2 + LineLen(Glyphs(s, i)[2..])), e);
    PlainChar(s, i);
    assert e == LineCommentStop(s, i);
    var lines, body := Repeat("\n", Newlines(s[i..e])), Popped(out);
    assert !IsBlankPiece(lines) by {
      RepeatedNewlines(Newlines(s[i..e]));
    }
    PieceWritten(body, lines);
    ConcatSnoc(body, lines);
    var later := Removed(s, cxx, e, place, inDirective, "");
    Assoc(Concat(body), lines, later);
  }

  lemma RepeatedNewlines(n: nat)
    ensures |Repeat("\n", n)| == n && (n > 0 ==> Repeat("\n", n)[0] == '\n')
  {
  }

  lemma RestOverBlockComment(s: string, cxx: bool, i: nat, e: nat, place: Place, inDirective: bool, strip: bool, out: seq<string>)
    requires i < |s| && s[i] == '/' && Rest(strip, s, cxx, i, place, inDirective, out) && BlockCommentTo(s, i, e)
    ensures Rest(strip, s, cxx, e, place, inDirective, out + [Replacement(s, i, e, inDirective)])
  {
    hide SpliceLen, Blanks, Rest, Reads, Glyphs, After, BlockLen, Replacement;
    var n := 2 + BlockLen(Glyphs(s, i)[2..]).value;
    ReadsAfter(s, i, e, n);
    SplicesEndLines(s, After(s, i, n), e);
    PlainChar(s, i);
    var r := Replacement(s, i, e, inDirective);
    ReplacementShape(s, i, e, inDirective);
    if r == " " {
      RestBlank(s, cxx, i, e, place, inDirective, strip, out, r);
    } else {
      RestWrites(s, cxx, i, e, place, place, inDirective, inDirective, strip, out, r);
    }
  }

  lemma ReplacementShape(s: string, i: nat, e: nat, inDirective: bool)
    requires i <= e <= |s|
    ensures IsBlankPiece(Replacement(s, i, e, inDirective)) <==> Replacement(s, i, e, inDirective) == " "
  {
    hide Newlines, HashFollows, Repeat;
    var r := Replacement(s, i, e, inDirective);
    assert r[0] == ' ';
  }

  lemma RemovedToken(s: string, cxx: bool, i: nat, place: Place, inDirective: bool, blanks: string)
    requires i < |s| && SpliceLen(s, i) == 0 && AtToken(s, i) && TokenLen(Glyphs(s, i), cxx, place).Some?
    ensures var n := TokenLen(Glyphs(s, i), cxx, place).value;
            Removed(s, cxx, i, place, inDirective, blanks)
            == blanks + s[i..After(s, i, n)]
               + Removed(s, cxx, After(s, i, n), NextPlace(Glyphs(s, i), cxx, place),
                         inDirective || (s[i] == '#' && place.lineStart), "")
  {
    hide SpliceLen, Glyphs, After, TokenLen, NextPlace;
    ReadsChar(s, i);
  }

  lemma Glue(s: string, i: nat, a: nat, e: nat, blanks: string, later: string)
    requires i <= a <= e <= |s|
    ensures blanks + s[i..a] + (s[a..e] + later) == blanks + s[i..e] + later
  {
    assert s[i..a] + s[a..e] == s[i..e];
  }

  lemma Assoc(a: string, b: string, c: string)
    ensures a + (b + c) == a + b + c
  {
  }

  lemma NoBlankPiece(s: string, i: nat, e: nat)
    requires i < e <= |s| && SpliceLen(s, i) == 0 && AtToken(s, i)
    ensures !IsBlankPiece(s[i..e])
  {
    hide Glyphs, SpliceLen;
    ReadsChar(s, i);
    assert s[i..e][0] == s[i];
  }

  lemma RestOverToken(s: string, cxx: bool, i: nat, e: nat, place: Place, inDirective: bool, strip: bool, out: seq<string>)
    requires i < |s| && SpliceLen(s, i) == 0 && Rest(strip, s, cxx, i, place, inDirective, out) && AtToken(s, i)
    requires TokenLen(Glyphs(s, i), cxx, place).Some?
    requires Reads(s, i, e, TokenLen(Glyphs(s, i), cxx, place).value)
    ensures i < e <= |s| && Rest(strip, s, cxx, e, NextPlace(Glyphs(s, i), cxx, place),
                        inDirective || (s[i] == '#' && place.lineStart), out + [s[i..e]])
  {
    hide SpliceLen, Blanks, Rest, Reads, Glyphs, After, TokenLen, NextPlace, Removed, AtToken;
    var n := TokenLen(Glyphs(s, i), cxx, place).value;
    RemovedToken(s, cxx, i, place, inDirective, Blanks(out));
    var next, dir := NextPlace(Glyphs(s, i), cxx, place), inDirective || (s[i] == '#' && place.lineStart);
    ReadsChar(s, i);
    ReadsAfter(s, i, e, n);
    var a := After(s, i, n);
    RemovedOverSplices(s, cxx, a, e, next, dir);
    Glue(s, i, a, e, Blanks(out), Removed(s, cxx, e, next, dir, ""));
    NoBlankPiece(s, i, e);
    RestWrites(s, cxx, i, e, place, next, inDirective, dir, strip, out, s[i..e]);
  }

  lemma RestUnstripped(s: string, cxx: bool, i: nat, place: Place, inDirective: bool, out: seq<string>)
    requires i <= |s|
    ensures Rest(false, s, cxx, i, place, inDirective, out)
  {
  }

  /** What is read behind the last of `n` characters is splices. */
  lemma {:induction false} ReadsAfter(s: string, i: nat, e: nat, n: nat)
    requires Reads(s, i, e, n)
    ensures n > 0 ==> i < |s|
    ensures i <= e && After(s, i, n) <= e && Reads(s, After(s, i, n), e, 0)
    decreases |s| - i
  {
    hide SpliceLen;
    PathForward(s, i, e);
    if n > 0 {
      ReadsAfter(s, Next(s, i), e, if SpliceLen(s, i) > 0 then n else n - 1);
    }
  }

  lemma {:induction false} SkipReach(s: string, a: nat, e: nat)
    requires Reads(s, a, e, 0) && SpliceLen(s, e) == 0
    ensures a <= |s| && SkipSplices(s, a) == e
    decreases |s| - a
  {
    hide SpliceLen;
    if a < e {
      SkipReach(s, Next(s, a), e);
    }
  }

  lemma {:induction false} SplicesEndLines(s: string, a: nat, e: nat)
    requires Reads(s, a, e, 0)
    ensures a < e ==> s[e - 1] == '\n'
    decreases |s| - a
  {
    if a < e {
      PathForward(s, Next(s, a), e);
      if Next(s, a) < e {
        SplicesEndLines(s, Next(s, a), e);
      }
    }
  }

  lemma {:induction false} RemovedOverSplices(s: string, cxx: bool, a: nat, e: nat, place: Place, inDirective: bool)
    requires Reads(s, a, e, 0)
    ensures a <= e <= |s|
    ensures Removed(s, cxx, a, place, inDirective, "") == s[a..e] + Removed(s, cxx, e, place, inDirective, "")
    decreases |s| - a
  {
    hide SpliceLen, Removed;
    if a == e {
      NothingBefore(Removed(s, cxx, e, place, inDirective, ""));
    } else {
      var m := Next(s, a);
      PathForward(s, m, e);
      RemovedOverSplices(s, cxx, m, e, place, inDirective);
      RemovedSplice(s, cxx, a, place, inDirective);
      Glue(s, a, m, e, "", Removed(s, cxx, e, place, inDirective, ""));
      NothingBefore(s[a..e]);
      NothingBefore(s[a..m]);
    }
  }

  lemma RemovedSplice(s: string, cxx: bool, a: nat, place: Place, inDirective: bool)
    requires a < |s| && SpliceLen(s, a) > 0
    ensures Removed(s, cxx, a, place, inDirective, "")
            == "" + s[a..Next(s, a)] + Removed(s, cxx, Next(s, a), place, inDirective, "")
  {
    hide SpliceLen, Glyphs, TokenLen, NextPlace, After, LineLen, BlockLen, Newlines;
  }

  lemma NoSpliceAtEnd(s: string)
    ensures SpliceLen(s, |s|) == 0
  {
  }

  // ---------------------------------------------------------------------------
  // The state of the lexer's loop

  /** What has been read and written up to `i`. */
  ghost predicate Lexing(strip: bool, s: string, cxx: bool, i: nat, place: Place, inDirective: bool, out: seq<string>,
                         tokens: seq<string>, comments: nat) {
    && Reached(s, cxx, i, place, tokens, comments) && Written(strip, s, i, out, tokens)
    && Rest(strip, s, cxx, i, place, inDirective, out)
  }

  lemma LexingStarts(strip: bool, s: string, cxx: bool)
    ensures Lexing(strip, s, cxx, 0, START, false, [], [], 0)
  {
    hide Reached, Written, Rest;
    StartAt(s, cxx, strip);
    RestAtStart(s, cxx, strip);
  }

  lemma LexingEnds(strip: bool, s: string, cxx: bool, place: Place, inDirective: bool, out: seq<string>, tokens: seq<string>,
                   comments: nat)
    requires Lexing(strip, s, cxx, |s|, place, inDirective, out, tokens, comments)
    ensures Lex(s, cxx) == Lexed(tokens, comments)
    ensures !strip ==> Concat(out) == s
    ensures strip ==> Newlines(Concat(out)) == Newlines(s) && Visible(Concat(out)) == Visible(Concat(tokens))
    ensures strip ==> Concat(out) == RemoveComments(s, cxx)
  {
    hide Reached, Written, Rest, Lex, RemoveComments, Newlines, Visible, Concat;
    AtEnd(s, cxx, place, tokens, comments, strip, out);
    RestAtEnd(s, cxx, place, inDirective, strip, out);
  }

  lemma LexSplice(strip: bool, s: string, cxx: bool, i: nat, place: Place, inDirective: bool, out: seq<string>,
                  tokens: seq<string>, comments: nat)
    requires i < |s| && SpliceLen(s, i) > 0 && Lexing(strip, s, cxx, i, place, inDirective, out, tokens, comments)
    ensures Lexing(strip, s, cxx, i + SpliceLen(s, i), place, inDirective, out + [s[i..i + SpliceLen(s, i)]], tokens, comments)
  {
    hide Reached, Written, Rest, SpliceLen;
    OverSplice(s, cxx, i, place, tokens, comments, strip, out);
    RestOverSplice(s, cxx, i, place, inDirective, strip, out);
  }

  lemma LexSpace(strip: bool, s: string, cxx: bool, i: nat, place: Place, inDirective: bool, out: seq<string>,
                 tokens: seq<string>, comments: nat)
    requires i < |s| && SpliceLen(s, i) == 0 && (s[i] == '\n' || IsHSpace(s[i]))
    requires Lexing(strip, s, cxx, i, place, inDirective, out, tokens, comments)
    ensures Lexing(strip, s, cxx, i + 1, if s[i] == '\n' then START else place, inDirective && s[i] != '\n', out + [[s[i]]],
                   tokens, comments)
  {
    hide Reached, Written, Rest, SpliceLen;
    OverSpace(s, cxx, i, place, tokens, comments, strip, out);
    RestOverSpace(s, cxx, i, place, inDirective, strip, out);
  }

  lemma StartsToken(s: string, i: nat)
    requires i < |s| && SpliceLen(s, i) == 0 && s[i] != '\n' && !IsHSpace(s[i])
    requires s[i] == '/' ==> !StartsWith(Glyphs(s, i), '/', '/') && !StartsWith(Glyphs(s, i), '/', '*')
    ensures AtToken(s, i)
  {
    hide Glyphs, SpliceLen;
    ReadsChar(s, i);
  }

  lemma LexFails(strip: bool, s: string, cxx: bool, i: nat, place: Place, inDirective: bool, out: seq<string>,
                 tokens: seq<string>, comments: nat)
    requires i < |s| && Lexing(strip, s, cxx, i, place, inDirective, out, tokens, comments)
    requires (StartsWith(Glyphs(s, i), '/', '*') && BlockLen(Glyphs(s, i)[2..]).None?)
             || (AtToken(s, i) && TokenLen(Glyphs(s, i), cxx, place).None?)
    ensures Lex(s, cxx).Failed?
  {
    hide Lex, Glyphs, BlockLen, TokenLen, NextPlace, Written, Rest;
    if StartsWith(Glyphs(s, i), '/', '*') && BlockLen(Glyphs(s, i)[2..]).None? {
      FailInBlock(s, cxx, i, place, tokens, comments);
    } else {
      FailInToken(s, cxx, i, place, tokens, comments);
    }
  }

  lemma LexToken(strip: bool, s: string, cxx: bool, i: nat, e: nat, place: Place, inDirective: bool, out: seq<string>,
                 tokens: seq<string>, comments: nat)
    requires i < |s| && SpliceLen(s, i) == 0 && AtToken(s, i) && TokenLen(Glyphs(s, i), cxx, place).Some?
    requires Lexing(strip, s, cxx, i, place, inDirective, out, tokens, comments)
    requires Reads(s, i, e, TokenLen(Glyphs(s, i), cxx, place).value)
    ensures i < e <= |s|
    ensures Lexing(strip, s, cxx, e, NextPlace(Glyphs(s, i), cxx, place), inDirective || (s[i] == '#' && place.lineStart),
                   out + [s[i..e]], tokens + [TokenAt(s, cxx, i, place)], comments)
  {
    hide Reached, Written, Rest, SpliceLen, Glyphs, TokenLen, NextPlace, Reads, AtToken;
    OverToken(s, cxx, i, e, place, tokens, comments, strip, out);
    RestOverToken(s, cxx, i, e, place, inDirective, strip, out);
  }

  /** The logical characters of the token at `i`. */
  ghost function TokenAt(s: string, cxx: bool, i: nat, place: Place): string
    requires i <= |s| && Glyphs(s, i) != [] && TokenLen(Glyphs(s, i), cxx, place).Some?
  {
    Chars(Glyphs(s, i)[..TokenLen(Glyphs(s, i), cxx, place).value])
  }

  // ---------------------------------------------------------------------------
  // Raw strings in the original text and in logical characters

  lemma {:induction false} RawText(s: string, j: nat)
    requires j <= |s| && SpliceLen(s, j) == 0
    ensures Raw(Glyphs(s, j)) == s[j..]
    decreases |s| - j
  {
    hide Reads, Glyphs, SkipSplices, SpliceLen;
    if j < |s| {
      var k := SkipSplices(s, j + 1);
      ReadsChar(s, j);
      ReadsNothing(s, j + 1);
      RawText(s, k);
      assert Raw(Glyphs(s, j)) == [s[j]] + s[j + 1..k] + Raw(Glyphs(s, j + 1));
      assert s[j..] == [s[j]] + s[j + 1..k] + s[k..];
    } else {
      NothingAhead(s, j);
    }
  }

  lemma OccursShift(s: string, pattern: string, j: nat, k: nat)
    requires j <= |s|
    ensures OccursAt(s[j..], pattern, k) <==> OccursAt(s, pattern, j + k)
  {
  }

  lemma FindShift(s: string, pattern: string, j: nat, lo: nat, hi: nat)
    requires j <= |s|
    ensures var r := FindBefore(s[j..], pattern, lo, hi);
            FindBefore(s, pattern, j + lo, j + hi) == if r < 0 then -1 else j + r
  {
    var r, r' := FindBefore(s[j..], pattern, lo, hi), FindBefore(s, pattern, j + lo, j + hi);
    if r >= 0 {
      OccursShift(s, pattern, j, r);
    }
    if r' >= 0 {
      OccursShift(s, pattern, j, r' - j);
    }
  }

  lemma RawEndShift(s: string, j: nat)
    requires j < |s|
    ensures RawEnd(s, j).None? <==> RawEnd(s[j..], 0).None?
    ensures RawEnd(s, j).Some? ==> RawEnd(s, j).value == j + RawEnd(s[j..], 0).value
  {
    hide FindBefore, OccursAt;
    FindShift(s, "(", j, 1, 18);
    var open := FindBefore(s[j..], "(", 1, 18);
    if open >= 0 {
      var delim := s[j..][1..open];
      assert delim == s[j + 1..j + open];
      FindShift(s, ")" + delim + "\"", j, open + 1, |s| - j);
    }
  }

  /** An index after a plain character is reached by reading the characters that start before it. */
  lemma {:induction false} ReadsWithin(s: string, j: nat, e: nat)
    requires j < e <= |s| && SpliceLen(s, j) == 0
    requires !(s[e - 1] == '\\' || IsBlank(s[e - 1]) || s[e - 1] == '\r' || s[e - 1] == '\n')
    ensures Reads(s, j, e, GlyphsWithin(Glyphs(s, j), e - j))
    decreases |s| - j
  {
    hide Reads, Glyphs, SkipSplices;
    ReadsChar(s, j);
    var k := SkipSplices(s, j + 1);
    if e > j + 1 {
      ReadsNothing(s, j + 1);
      SkippedIsSplice(s, j + 1, e - 1);
      ReadsWithin(s, k, e);
      ReadsJoin(s, j + 1, k, e, 0, GlyphsWithin(Glyphs(s, k), e - k));
      ReadsJoin(s, j, j + 1, e, 1, GlyphsWithin(Glyphs(s, k), e - k));
    }
  }

  lemma {:induction false} SkippedIsSplice(s: string, j: nat, x: nat)
    requires j <= x < |s|
    requires !(s[x] == '\\' || IsBlank(s[x]) || s[x] == '\r' || s[x] == '\n')
    ensures SkipSplices(s, j) <= x
    decreases |s| - j
  {
    if SpliceLen(s, j) > 0 {
      SkippedIsSplice(s, j + SpliceLen(s, j), x);
    }
  }

  /** The original text and the logical characters agree on where a raw string ends. */
  lemma RawMatches(s: string, j: nat)
    requires j < |s| && s[j] == '"' && SpliceLen(s, j) == 0
    ensures Glyphs(s, j) != []
    ensures RawEnd(s, j).None? <==> RawLen(Glyphs(s, j)).None?
    ensures RawEnd(s, j).Some? ==> Reads(s, j, RawEnd(s, j).value, RawLen(Glyphs(s, j)).value)
  {
    hide Reads, RawEnd, Raw, Glyphs, SkipSplices, SpliceLen, GlyphsWithin;
    ReadsChar(s, j);
    RawText(s, j);
    RawEndShift(s, j);
    if RawEnd(s, j).Some? {
      RawEndsInQuote(s, j);
      ReadsWithin(s, j, RawEnd(s, j).value);
    }
  }

  lemma RawEndsInQuote(s: string, j: nat)
    requires j < |s| && RawEnd(s, j).Some?
    ensures j < RawEnd(s, j).value <= |s| && s[RawEnd(s, j).value - 1] == '"'
  {
  }
}
