/** What taking the comments out leaves of a spelled text: a comment at the end of a line goes with the
    blanks before it, a block comment becomes a blank and as many line ends as it has, spliced within a
    directive, and all else stays. So the file is stripped, or, without comments, left alone. */
module SpelledRemoval {
  import opened Basics
  import opened SplicedText
  import opened SplicedSlices
  import opened PhaseThree
  import opened CommentRemoval
  import CLexer
  import opened TokensKept
  import opened Spelling
  import opened SpelledSource
  import opened CommentStrip

  // ---------------------------------------------------------------------------
  // What is left

  predicate Blank(c: char) {
    c == ' ' || c == '\t' || c as int == 11 || c as int == 12
  }

  /** The text without the blanks at its end, and those blanks. */
  function Kept(t: string): (r: string)
    ensures |r| <= |t|
  {
    if t != "" && Blank(t[|t| - 1]) then Kept(t[..|t| - 1]) else t
  }

  function Pending(t: string): string {
    t[|Kept(t)|..]
  }

  function Times(unit: string, n: nat): string {
    if n == 0 then "" else unit + Times(unit, n - 1)
  }

  function CountEnds(t: string): nat {
    if t == "" then 0 else (if t[0] == '\n' then 1 else 0) + CountEnds(t[1..])
  }

  function Left(item: Item, directive: bool): string {
    match item
    case Note(c) => " " + Times(if directive then "\\\n" else "\n", CountEnds(c))
    case _ => Spell(item)
  }

  function LeftAll(items: seq<Item>, directive: bool): string {
    if items == [] then "" else Left(items[0], directive) + (" " + LeftAll(items[1..], directive))
  }

  function LeftLine(line: Line): string {
    var text := StartOf(line.header) + LeftAll(line.items, line.header.Some?);
    if line.note.Some? then Kept(text) else text
  }

  function LeftLines(lines: seq<Line>): string {
    if lines == [] then "" else LeftLine(lines[0]) + ("\n" + LeftLines(lines[1..]))
  }

  // ---------------------------------------------------------------------------
  // Blanks at the end

  lemma {:induction false} KeptFirst(t: string)
    ensures Kept(t) <= t && t == Kept(t) + Pending(t)
  {
    if t != "" && Blank(t[|t| - 1]) {
      KeptFirst(t[..|t| - 1]);
    }
  }

  lemma KeptBlank(t: string)
    ensures Kept(t + " ") == Kept(t) && Pending(t + " ") == Pending(t) + " "
  {
    var u := t + " ";
    assert u[..|u| - 1] == t;
    KeptFirst(t);
    assert Kept(u) == Kept(t);
    assert u == Kept(t) + (Pending(t) + " ");
  }

  lemma KeptSolid(t: string, piece: string)
    requires piece != "" && !Blank(piece[|piece| - 1])
    ensures Kept(t + piece) == t + piece && Pending(t + piece) == ""
  {
    var u := t + piece;
    assert u[|u| - 1] == piece[|piece| - 1];
  }

  // ---------------------------------------------------------------------------
  // Line ends

  lemma {:induction false} TimesSnoc(unit: string, n: nat)
    ensures Times(unit, n) + unit == unit + Times(unit, n)
  {
    if n > 0 {
      TimesSnoc(unit, n - 1);
      assert Times(unit, n) + unit == unit + (Times(unit, n - 1) + unit);
    } else {
      assert Times(unit, 0) + unit == unit == unit + Times(unit, 0);
    }
  }

  lemma {:induction false} RepeatIsTimes(unit: string, n: nat)
    ensures Repeat(unit, n) == Times(unit, n)
  {
    if n > 0 {
      RepeatIsTimes(unit, n - 1);
      TimesSnoc(unit, n - 1);
    }
  }

  lemma {:induction false} EndsCounted(t: string)
    ensures Newlines(t) == CountEnds(t)
  {
    if t != "" {
      EndsCounted(t[1..]);
      assert t == [t[0]] + t[1..];
      NewlinesConcat([t[0]], t[1..]);
    }
  }

  lemma NoteEnds(c: string)
    ensures Newlines("/*" + c + "*/") == CountEnds(c)
  {
    EndsCounted(c);
    NewlinesConcat("/*" + c, "*/");
    NewlinesConcat("/*", c);
  }

  lemma {:induction false} NoEnds(c: string)
    requires '\n' !in c
    ensures Newlines(c) == 0
  {
  }

  lemma TimesLast(unit: string, n: nat)
    requires n > 0 && unit != ""
    ensures var t := Times(unit, n); t != "" && t[|t| - 1] == unit[|unit| - 1]
  {
    TimesSnoc(unit, n - 1);
  }

  // ---------------------------------------------------------------------------
  // Reading within the whole text

  lemma AfterStep(s: string, i: nat, n: nat)
    requires i < |s| && n > 0
    ensures After(s, i, n) == if SpliceLen(s, i) > 0 then After(s, i + SpliceLen(s, i), n) else After(s, i + 1, n - 1)
  {
    hide SpliceLen;
  }

  lemma AfterDone(s: string, i: nat, n: nat)
    requires i <= |s| && (n == 0 || i == |s|)
    ensures After(s, i, n) == i
  {
  }

  lemma {:induction false} AfterSuffix(s: string, i: nat, j: nat, n: nat)
    requires i + j <= |s|
    ensures i + After(s[i..], j, n) == After(s, i + j, n)
    decreases |s| - j
  {
    hide SpliceLen, After;
    SpliceSuffix(s, i, j);
    if n == 0 || i + j == |s| {
      AfterDone(s, i + j, n);
      AfterDone(s[i..], j, n);
    } else {
      AfterStep(s, i + j, n);
      AfterStep(s[i..], j, n);
      if SpliceLen(s, i + j) > 0 {
        AfterSuffix(s, i, j + SpliceLen(s, i + j), n);
      } else {
        AfterSuffix(s, i, j + 1, n - 1);
      }
    }
  }

  lemma Behind(s: string, i: nat, a: string, b: string)
    requires i <= |s| && s[i..] == a + b
    ensures i + |a| <= |s| && s[i + |a|..] == b && s[i..i + |a|] == a
    ensures a != "" ==> s[i] == a[0]
  {
    assert s == s[..i] + a + b;
  }

  lemma EndsThere(s: string, i: nat, tok: string, rest: string, n: nat)
    requires i <= |s| && s[i..] == tok + rest && tok != "" && tok[|tok| - 1] != '\n' && tok[0] != '\\' && CLexer.Reads(tok + rest, 0, |tok|, n)
    ensures i + |tok| <= |s| && After(s, i, n) == i + |tok| && Glyphs(s, i) == Phase2(tok + rest)
    ensures i < |s| && s[i] == tok[0] && SpliceLen(s, i) == 0
  {
    hide Glyphs, CLexer.Reads, After, SpliceLen;
    Behind(s, i, tok, rest);
    AfterIs(tok + rest, 0, |tok|, n);
    AfterSuffix(s, i, 0, n);
    GlyphsSuffix(s, i, 0);
    NoSplice(s, i);
  }

  /** The rest is tidy whether or not a comment has broken the line. */
  ghost predicate TidyRest(s: string, cxx: bool, i: nat, place: Place, directive: bool)
    requires i <= |s|
  {
    Tidy(s, cxx, i, place, directive, false) && Tidy(s, cxx, i, place, directive, true)
  }

  /** A token is copied. */
  lemma TokenStays(s: string, i: nat, tok: string, rest: string, cxx: bool, place: Place, next: Place, directive: bool, blanks: string)
    requires i <= |s| && s[i..] == tok + rest && IsOneToken(tok, rest, cxx, place, next)
    requires tok != "" && tok[|tok| - 1] != '\n' && tok[0] != '\\' && !Space(tok[0])
    ensures i + |tok| <= |s| && s[i + |tok|..] == rest
    ensures var inside := directive || (tok[0] == '#' && place.lineStart);
            && Removed(s, cxx, i, place, directive, blanks) == blanks + tok + Removed(s, cxx, i + |tok|, next, inside, "")
            && (Tidy(s, cxx, i + |tok|, next, inside, false) ==> Tidy(s, cxx, i, place, directive, false))
            && (Tidy(s, cxx, i + |tok|, next, inside, false) && tok[0] != '#' ==> TidyRest(s, cxx, i, place, directive))
  {
    hide Glyphs, CLexer.Reads, After, SpliceLen, TokenLen, NextPlace, Removed, Phase3, Before, Chars;
    var n :| Spelled(tok, rest, n, cxx, place, next);
    Behind(s, i, tok, rest);
    EndsThere(s, i, tok, rest, n);
    assert First(s, cxx, i, place) == Piece.Token(i + |tok|, n);
    RemovedStep(s, cxx, i, place, directive, blanks);
  }

  lemma BlankWaits(s: string, i: nat, rest: string, cxx: bool, place: Place, directive: bool, blanks: string)
    requires i <= |s| && s[i..] == " " + rest
    ensures i + 1 <= |s| && s[i + 1..] == rest
    ensures Removed(s, cxx, i, place, directive, blanks) == Removed(s, cxx, i + 1, place, directive, blanks + " ")
    ensures Tidy(s, cxx, i + 1, place, directive, false) ==> Tidy(s, cxx, i, place, directive, false)
    ensures TidyRest(s, cxx, i + 1, place, directive) ==> TidyRest(s, cxx, i, place, directive)
  {
    hide Glyphs, SpliceLen, Removed, TokenLen;
    Behind(s, i, " ", rest);
    NoSplice(s, i);
    assert First(s, cxx, i, place) == Piece.Blank;
    RemovedStep(s, cxx, i, place, directive, blanks);
    assert [s[i]] == " ";
  }

  lemma LineEndStays(s: string, i: nat, rest: string, cxx: bool, place: Place, directive: bool, blanks: string)
    requires i <= |s| && s[i..] == "\n" + rest
    ensures i + 1 <= |s| && s[i + 1..] == rest
    ensures Removed(s, cxx, i, place, directive, blanks) == blanks + "\n" + Removed(s, cxx, i + 1, START, false, "")
    ensures Tidy(s, cxx, i + 1, START, false, false) ==> TidyRest(s, cxx, i, place, directive)
  {
    hide Glyphs, SpliceLen, Removed, TokenLen;
    Behind(s, i, "\n", rest);
    NoSplice(s, i);
    assert First(s, cxx, i, place) == Piece.Newline;
    RemovedStep(s, cxx, i, place, directive, blanks);
  }

  /** A line comment goes with the blanks before it. */
  lemma LineNoteGoes(s: string, i: nat, c: string, rest: string, cxx: bool, place: Place, directive: bool, blanks: string)
    requires i <= |s| && s[i..] == "//" + c + ("\n" + rest) && '\n' !in c && '\\' !in c
    ensures i + |c| + 2 <= |s| && s[i + |c| + 2..] == "\n" + rest
    ensures Removed(s, cxx, i, place, directive, blanks) == Removed(s, cxx, i + |c| + 2, place, directive, "")
    ensures TidyRest(s, cxx, i + |c| + 2, place, directive) ==> TidyRest(s, cxx, i, place, directive)
  {
    hide Glyphs, CLexer.Reads, After, SpliceLen, TokenLen, NextPlace, Removed, Phase3, Before, LineLen, SkipSplices, Unspliced, LineCommentStop;
    var tok, tail := "//" + c, "\n" + rest;
    Behind(s, i, tok, tail);
    LineCommentText(c);
    HeadBlank(rest);
    LineNoteIsComment(c, tail, cxx, place);
    NoBackslash(tok, tail);
    Front(tok, tail);
    EndsThere(s, i, tok, tail, |tok|);
    StopsAtEnd(s, i, |tok|);
    assert First(s, cxx, i, place) == Piece.LineComment(i + |tok|);
    RemovedStep(s, cxx, i, place, directive, blanks);
    NothingBefore(Removed(s, cxx, i + |tok|, place, directive, ""));
  }

  lemma LineCommentText(c: string)
    requires '\n' !in c && '\\' !in c
    ensures var t := "//" + c; '\n' !in t && '\\' !in t && t[0] == '/' && t[|t| - 1] != '\n' && Newlines(t) == 0 && Repeat("\n", Newlines(t)) == ""
  {
    var t := "//" + c;
    assert '\n' !in t && '\\' !in t;
    NoEnds(t);
  }

  lemma StopsAtEnd(s: string, i: nat, n: nat)
    requires i + n < |s| && s[i + n] == '\n' && StartsWith(Glyphs(s, i), '/', '/') && n == 2 + LineLen(Glyphs(s, i)[2..])
    requires After(s, i, n) == i + n
    ensures LineCommentStop(s, i) == i + n
  {
    NoSplice(s, i + n);
  }

  /** No directive would start a line here. */
  ghost predicate NoHash(rest: string) {
    && rest != "" && (rest[0] == '\n' || !Space(rest[0])) && rest[0] != '#'
    && (rest[0] == '%' ==> |rest| >= 2 && rest[1] != ':')
  }

  /** A block comment becomes a blank and its line ends. */
  lemma BlockNoteBecomes(s: string, i: nat, c: string, rest: string, cxx: bool, place: Place, directive: bool, blanks: string)
    requires i <= |s| && s[i..] == "/*" + c + "*/" + (" " + rest) && NoteText(c) && NoHash(rest)
    ensures i + |c| + 4 <= |s| && s[i + |c| + 4..] == " " + rest
    ensures var left := Left(Note(c), directive);
            Removed(s, cxx, i, place, directive, blanks)
            == if left == " " then Removed(s, cxx, i + |c| + 4, place, directive, blanks + " ")
               else blanks + left + Removed(s, cxx, i + |c| + 4, place, directive, "")
    ensures TidyRest(s, cxx, i + |c| + 4, place, directive) ==> TidyRest(s, cxx, i, place, directive)
  {
    hide Glyphs, CLexer.Reads, After, SpliceLen, TokenLen, NextPlace, Removed, Phase3, Before, BlockLen, Unspliced, Replacement, Left, NoHash;
    var tok, tail := "/*" + c + "*/", " " + rest;
    Behind(s, i, tok, tail);
    BlockNoteIsComment(c, tail, cxx, place);
    NoBackslash(tok, tail);
    Front(tok, tail);
    EndsThere(s, i, tok, tail, |tok|);
    assert First(s, cxx, i, place) == Piece.BlockComment(i + |tok|);
    RemovedStep(s, cxx, i, place, directive, blanks);
    NoHashThere(s, i + |tok|, rest);
    Replaced(s, i, i + |tok|, c, directive);
  }

  lemma NoHashThere(s: string, e: nat, rest: string)
    requires e <= |s| && s[e..] == " " + rest && NoHash(rest)
    ensures !HashFollows(s, e)
  {
    Behind(s, e, " ", rest);
    assert rest[0] == s[e + 1..][0];
    if |rest| >= 2 {
      assert rest[1] == s[e + 1..][1];
    }
    assert SkipHSpace(s, e + 1) == e + 1;
    assert SkipHSpace(s, e) == e + 1;
  }

  lemma Replaced(s: string, i: nat, e: nat, c: string, directive: bool)
    requires i <= e <= |s| && s[i..e] == "/*" + c + "*/" && !HashFollows(s, e)
    ensures Replacement(s, i, e, directive) == Left(Note(c), directive)
  {
    NoteEnds(c);
    RepeatIsTimes(if directive then "\\\n" else "\n", CountEnds(c));
  }

  // ---------------------------------------------------------------------------
  // Items and lines

  lemma ItemToken(item: Item, rest: string, cxx: bool, place: Place)
    requires Fine(item, cxx) && !item.Note? && !place.headerAllowed && !place.namePending
    ensures IsOneToken(Spell(item), " " + rest, cxx, place, INNER)
  {
    hide Phase2, Phase3, Before, IsWordText, IsNumberText, IsBody, IsDelimiter, IsRawBody, IsRawWord, IsPrefix, RawLiteral, IsOneToken, Chars;
    HeadBlank(rest);
    match item
    case Word(w) => WordIsOneToken(w, " " + rest, cxx, place);
    case Number(n) => NumberIsOneToken(n, " " + rest, cxx, place);
    case Quoted(p, quote, b) => QuotedIsOneToken(p, quote, b, " " + rest, cxx, place);
    case Raw(p, d, b) => RawIsOneToken(p, d, b, " " + rest, place);
    case Mark(c) => MarkIsOneToken(c, " " + rest, cxx, place);
  }

  /** How an item's text starts and ends. */
  ghost predicate Solid(t: string) {
    && t != "" && !Space(t[0]) && t[0] != '#' && t[0] != '\\' && !Space(t[|t| - 1])
    && (t[0] == '%' ==> |t| == 1)
  }

  lemma ItemSolid(item: Item, cxx: bool)
    requires Fine(item, cxx) && !item.Note?
    ensures Solid(Spell(item))
  {
    hide IsBody, IsDelimiter, IsRawBody, RawFront, RawClose;
    match item
    case Word(w) =>
    case Number(n) => NumberSolid(n);
    case Quoted(p, quote, b) =>
    case Raw(p, d, b) => RawSolid(p, d, b);
    case Mark(c) =>
  }

  lemma NumberSolid(n: string)
    requires IsNumberText(n)
    ensures Solid(n)
  {
    if |n| > 1 {
      assert GoesOn(n, |n| - 1);
    }
  }

  lemma RawSolid(p: string, d: string, b: string)
    requires IsRawWord(p)
    ensures Solid(RawLiteral(p, d, b))
  {
    var t := RawLiteral(p, d, b);
    assert t[0] == p[0] && t[|t| - 1] == '"';
  }

  lemma NoHashAhead(items: seq<Item>, note: Option<string>, rest: string, cxx: bool)
    requires forall i :: 0 <= i < |items| ==> Fine(items[i], cxx)
    ensures NoHash(SpellAll(items) + (EndOf(note) + ("\n" + rest)))
  {
    hide Fine, Spell, EndOf, NoHash;
    var tail := EndOf(note) + ("\n" + rest);
    if items == [] {
      NothingBefore(tail);
      EndHasNoHash(note, rest);
    } else {
      var more := SpellAll(items[1..]) + tail;
      ItemHasNoHash(items[0], more, cxx);
      assert SpellAll(items) + tail == Spell(items[0]) + (" " + more);
    }
  }

  lemma EndHasNoHash(note: Option<string>, rest: string)
    ensures NoHash(EndOf(note) + ("\n" + rest))
  {
    var t := EndOf(note) + ("\n" + rest);
    assert t[0] == if note.Some? then '/' else '\n';
  }

  lemma ItemHasNoHash(item: Item, more: string, cxx: bool)
    requires Fine(item, cxx)
    ensures NoHash(Spell(item) + (" " + more))
  {
    hide Fine;
    if item.Note? {
      assert Spell(item)[0] == '/';
    } else {
      hide Spell;
      ItemSolid(item, cxx);
      var t := Spell(item) + (" " + more);
      assert t[0] == Spell(item)[0] && t[|Spell(item)|] == ' ';
    }
  }

  /** What is written and waiting, `t` being the line so far, goes on from `i`. */
  ghost function Whole(t: string, s: string, cxx: bool, i: nat, place: Place, directive: bool): string
    requires i <= |s|
  {
    Kept(t) + Removed(s, cxx, i, place, directive, Pending(t))
  }

  lemma BlankJoins(t: string, s: string, i: nat, rest: string, cxx: bool, place: Place, directive: bool)
    requires i <= |s| && s[i..] == " " + rest
    ensures i + 1 <= |s| && s[i + 1..] == rest
    ensures Whole(t, s, cxx, i, place, directive) == Whole(t + " ", s, cxx, i + 1, place, directive)
    ensures Tidy(s, cxx, i + 1, place, directive, false) ==> Tidy(s, cxx, i, place, directive, false)
    ensures TidyRest(s, cxx, i + 1, place, directive) ==> TidyRest(s, cxx, i, place, directive)
  {
    hide Removed, Kept, Pending, Tidy, TidyRest;
    BlankWaits(s, i, rest, cxx, place, directive, Pending(t));
    KeptBlank(t);
  }

  lemma TokenJoins(t: string, s: string, i: nat, tok: string, rest: string, cxx: bool, place: Place, next: Place, directive: bool)
    requires i <= |s| && s[i..] == tok + rest && IsOneToken(tok, rest, cxx, place, next)
    requires tok != "" && !Space(tok[|tok| - 1]) && tok[0] != '\\' && !Space(tok[0])
    ensures i + |tok| <= |s| && s[i + |tok|..] == rest
    ensures var inside := directive || (tok[0] == '#' && place.lineStart);
            && Whole(t, s, cxx, i, place, directive) == Whole(t + tok, s, cxx, i + |tok|, next, inside)
            && (Tidy(s, cxx, i + |tok|, next, inside, false) ==> Tidy(s, cxx, i, place, directive, false))
            && (Tidy(s, cxx, i + |tok|, next, inside, false) && tok[0] != '#' ==> TidyRest(s, cxx, i, place, directive))
  {
    hide Removed, Kept, Pending, Tidy, TidyRest, IsOneToken;
    TokenStays(s, i, tok, rest, cxx, place, next, directive, Pending(t));
    KeptSolid(t, tok);
    KeptFirst(t);
    var later := Removed(s, cxx, i + |tok|, next, directive || (tok[0] == '#' && place.lineStart), "");
    assert Kept(t) + (Pending(t) + tok + later) == (Kept(t) + Pending(t)) + tok + later;
  }

  lemma NoteJoins(t: string, s: string, i: nat, c: string, rest: string, cxx: bool, place: Place, directive: bool)
    requires i <= |s| && s[i..] == Spell(Note(c)) + (" " + rest) && NoteText(c) && NoHash(rest)
    ensures i + |c| + 4 <= |s| && s[i + |c| + 4..] == " " + rest
    ensures Whole(t, s, cxx, i, place, directive) == Whole(t + Left(Note(c), directive), s, cxx, i + |c| + 4, place, directive)
    ensures TidyRest(s, cxx, i + |c| + 4, place, directive) ==> TidyRest(s, cxx, i, place, directive)
  {
    hide Removed, Kept, Pending, Tidy, TidyRest, NoHash, NoteText, Left;
    var left := Left(Note(c), directive);
    BlockNoteBecomes(s, i, c, rest, cxx, place, directive, Pending(t));
    KeptFirst(t);
    if left == " " {
      KeptBlank(t);
    } else {
      LeftEnds(c, directive);
      KeptSolid(t, left);
      var later := Removed(s, cxx, i + |c| + 4, place, directive, "");
      assert Kept(t) + (Pending(t) + left + later) == (Kept(t) + Pending(t)) + left + later;
    }
  }

  lemma LeftEnds(c: string, directive: bool)
    ensures var left := Left(Note(c), directive); left != "" && (left != " " ==> left[|left| - 1] == '\n')
  {
    if CountEnds(c) > 0 {
      TimesLast(if directive then "\\\n" else "\n", CountEnds(c));
    }
  }

  /** An item and the blank behind it. */
  lemma ItemJoins(t: string, s: string, i: nat, item: Item, rest: string, cxx: bool, place: Place, directive: bool)
    requires i <= |s| && s[i..] == Spell(item) + (" " + rest) && Fine(item, cxx) && NoHash(rest) && !place.headerAllowed && !place.namePending
    ensures var e, next := i + |Spell(item)| + 1, if item.Note? then place else INNER;
            && e <= |s| && s[e..] == rest
            && Whole(t, s, cxx, i, place, directive) == Whole(t + Left(item, directive) + " ", s, cxx, e, next, directive)
            && (TidyRest(s, cxx, e, next, directive) ==> TidyRest(s, cxx, i, place, directive))
  {
    hide Tidy, NoHash, NoteText, Whole, Left, TidyRest;
    var left := Left(item, directive);
    if item.Note? {
      NoteJoins(t, s, i, item.body, rest, cxx, place, directive);
      BlankJoins(t + left, s, i + |Spell(item)|, rest, cxx, place, directive);
    } else {
      WholeItem(t, s, i, item, rest, cxx, place, directive);
      BlankJoins(t + left, s, i + |Spell(item)|, rest, cxx, INNER, directive);
    }
  }

  lemma WholeItem(t: string, s: string, i: nat, item: Item, rest: string, cxx: bool, place: Place, directive: bool)
    requires i <= |s| && s[i..] == Spell(item) + (" " + rest) && Fine(item, cxx) && !item.Note? && !place.headerAllowed && !place.namePending
    ensures var e := i + |Spell(item)|;
            && e <= |s| && s[e..] == " " + rest
            && Whole(t, s, cxx, i, place, directive) == Whole(t + Left(item, directive), s, cxx, e, INNER, directive)
            && (TidyRest(s, cxx, e, INNER, directive) ==> TidyRest(s, cxx, i, place, directive))
  {
    hide Tidy, Whole, IsOneToken, Space, Spell, Fine;
    ItemToken(item, rest, cxx, place);
    ItemSolid(item, cxx);
    TokenJoins(t, s, i, Spell(item), " " + rest, cxx, place, INNER, directive);
    LeftIsSpelled(item, directive);
  }

  lemma LeftIsSpelled(item: Item, directive: bool)
    requires !item.Note?
    ensures Left(item, directive) == Spell(item)
  {
  }

  lemma {:induction false} ItemsJoin(t: string, s: string, i: nat, items: seq<Item>, note: Option<string>, rest: string, cxx: bool,
                                     place: Place, directive: bool) returns (next: Place)
    requires i <= |s| && s[i..] == SpellAll(items) + (EndOf(note) + ("\n" + rest)) && !place.headerAllowed && !place.namePending
    requires forall i :: 0 <= i < |items| ==> Fine(items[i], cxx)
    ensures var e := i + |SpellAll(items)|;
            && e <= |s| && s[e..] == EndOf(note) + ("\n" + rest)
            && Whole(t, s, cxx, i, place, directive) == Whole(t + LeftAll(items, directive), s, cxx, e, next, directive)
            && (TidyRest(s, cxx, e, next, directive) ==> TidyRest(s, cxx, i, place, directive))
    decreases |items|
  {
    hide Whole, TidyRest, Fine, Spell, Left, EndOf, NoHash;
    next := place;
    if items == [] {
      NothingBefore(EndOf(note) + ("\n" + rest));
      assert t + LeftAll(items, directive) == t;
    } else {
      var tail := SpellAll(items[1..]) + (EndOf(note) + ("\n" + rest));
      assert s[i..] == Spell(items[0]) + (" " + tail);
      NoHashAhead(items[1..], note, rest, cxx);
      ItemJoins(t, s, i, items[0], tail, cxx, place, directive);
      var so := t + Left(items[0], directive) + " ";
      next := ItemsJoin(so, s, i + |Spell(items[0])| + 1, items[1..], note, rest, cxx, if items[0].Note? then place else INNER, directive);
      assert so + LeftAll(items[1..], directive) == t + LeftAll(items, directive);
    }
  }

  /** The end of a line: its comment and the blanks before it go. */
  lemma EndJoins(t: string, s: string, i: nat, note: Option<string>, rest: string, cxx: bool, place: Place, directive: bool)
    requires i <= |s| && s[i..] == EndOf(note) + ("\n" + rest) && (note.Some? ==> '\n' !in note.value && '\\' !in note.value)
    ensures var e := i + |EndOf(note)| + 1;
            && e <= |s| && s[e..] == rest
            && Whole(t, s, cxx, i, place, directive) == (if note.Some? then Kept(t) else t) + ("\n" + Removed(s, cxx, e, START, false, ""))
            && (Tidy(s, cxx, e, START, false, false) ==> TidyRest(s, cxx, i, place, directive))
  {
    hide Whole, Kept, Tidy, TidyRest, EndOf, Removed;
    EndText(note);
    if note.Some? {
      NoteEnd(t, s, i, note.value, rest, cxx, place, directive);
    } else {
      NothingBefore("\n" + rest);
      BareEnd(t, s, i, rest, cxx, place, directive);
    }
  }

  lemma EndText(note: Option<string>)
    ensures EndOf(note) == if note.None? then "" else "//" + note.value
    ensures |EndOf(note)| == if note.None? then 0 else |note.value| + 2
  {
  }

  lemma NoteEnd(t: string, s: string, i: nat, c: string, rest: string, cxx: bool, place: Place, directive: bool)
    requires i <= |s| && s[i..] == "//" + c + ("\n" + rest) && '\n' !in c && '\\' !in c
    ensures var e := i + |c| + 3;
            && e <= |s| && s[e..] == rest
            && Whole(t, s, cxx, i, place, directive) == Kept(t) + ("\n" + Removed(s, cxx, e, START, false, ""))
            && (Tidy(s, cxx, e, START, false, false) ==> TidyRest(s, cxx, i, place, directive))
  {
    hide Removed, Kept, Pending, Tidy, TidyRest;
    LineNoteGoes(s, i, c, rest, cxx, place, directive, Pending(t));
    LineEndStays(s, i + |c| + 2, rest, cxx, place, directive, "");
    NothingBefore("\n");
  }

  lemma BareEnd(t: string, s: string, i: nat, rest: string, cxx: bool, place: Place, directive: bool)
    requires i <= |s| && s[i..] == "\n" + rest
    ensures i + 1 <= |s| && s[i + 1..] == rest
    ensures Whole(t, s, cxx, i, place, directive) == t + ("\n" + Removed(s, cxx, i + 1, START, false, ""))
    ensures Tidy(s, cxx, i + 1, START, false, false) ==> TidyRest(s, cxx, i, place, directive)
  {
    hide Removed, Kept, Pending, Tidy, TidyRest;
    KeptFirst(t);
    LineEndStays(s, i, rest, cxx, place, directive, Pending(t));
    var later := Removed(s, cxx, i + 1, START, false, "");
    assert Kept(t) + (Pending(t) + "\n" + later) == (Kept(t) + Pending(t)) + ("\n" + later);
  }

  /** A directive's start stays. */
  lemma HeaderJoins(s: string, i: nat, h: Header, rest: string, cxx: bool)
    requires i <= |s| && s[i..] == StartOf(Some(h)) + rest && FineHeader(h)
    ensures var t := StartOf(Some(h));
            && i + |t| <= |s| && s[i + |t|..] == rest
            && Whole("", s, cxx, i, START, false) == Whole(t, s, cxx, i + |t|, INNER, true)
            && (TidyRest(s, cxx, i + |t|, INNER, true) ==> Tidy(s, cxx, i, START, false, false))
  {
    hide Whole, Tidy, StartOf;
    HeaderText(h);
    var behind := " " + (("<" + h.name + ">") + (" " + rest));
    assert s[i..] == "#" + (h.word + behind);
    HashJoins(s, i, h.word, behind, cxx);
    HeaderNameJoins("#", s, i + 1, h, rest, cxx);
  }

  lemma HashJoins(s: string, i: nat, w: string, behind: string, cxx: bool)
    requires i <= |s| && s[i..] == "#" + (w + behind) && w in {"include", "include_next", "import"}
    ensures i + 1 <= |s| && s[i + 1..] == w + behind
    ensures Whole("", s, cxx, i, START, false) == Whole("#", s, cxx, i + 1, Place(false, true, false), true)
    ensures Tidy(s, cxx, i + 1, Place(false, true, false), true, false) ==> Tidy(s, cxx, i, START, false, false)
  {
    hide Whole, Tidy, IsWordText, Phase2, IsOneToken, Chars, TidyRest;
    DirectiveWord(w, behind);
    MarkIsOneToken('#', w + behind, cxx, START);
    TokenJoins("", s, i, "#", w + behind, cxx, START, Place(false, true, false), false);
    NothingBefore("#");
  }

  lemma HeaderText(h: Header)
    ensures |StartOf(Some(h))| == |h.word| + |h.name| + 5
    ensures "#" + h.word + " " + ("<" + h.name + ">") + " " == StartOf(Some(h))
  {
  }

  lemma HeaderNameJoins(t: string, s: string, i: nat, h: Header, rest: string, cxx: bool)
    requires i <= |s| && FineHeader(h) && s[i..] == h.word + (" " + (("<" + h.name + ">") + (" " + rest)))
    ensures var header := "<" + h.name + ">";
            var e := i + |h.word| + |header| + 2;
            && e <= |s| && s[e..] == rest
            && Whole(t, s, cxx, i, Place(false, true, false), true) == Whole(t + h.word + " " + header + " ", s, cxx, e, INNER, true)
            && (Tidy(s, cxx, e, INNER, true, false) ==> Tidy(s, cxx, i, Place(false, true, false), true, false))
  {
    hide Whole, Tidy, IsWordText, Phase2, IsOneToken, Chars, TidyRest;
    var w, header, tail := h.word, "<" + h.name + ">", " " + rest;
    var named, allowed := Place(false, true, false), Place(false, false, true);
    DirectiveWord(w, " " + (header + tail));
    HeadBlank(header + tail);
    WordIsOneToken(w, " " + (header + tail), cxx, named);
    HeaderIsOneToken(h.name, tail, cxx, allowed);
    TokenJoins(t, s, i, w, " " + (header + tail), cxx, named, allowed, true);
    BlankJoins(t + w, s, i + |w|, header + tail, cxx, allowed, true);
    TokenJoins(t + w + " ", s, i + |w| + 1, header, tail, cxx, allowed, INNER, true);
    BlankJoins(t + w + " " + header, s, i + |w| + 1 + |header|, rest, cxx, INNER, true);
  }

  lemma LineJoins(s: string, i: nat, line: Line, rest: string, cxx: bool)
    requires i <= |s| && s[i..] == SpellLine(line) + ("\n" + rest) && FineLine(line, cxx)
    ensures var e := i + |SpellLine(line)| + 1;
            && e <= |s| && s[e..] == rest
            && Removed(s, cxx, i, START, false, "") == LeftLine(line) + ("\n" + Removed(s, cxx, e, START, false, ""))
            && (Tidy(s, cxx, e, START, false, false) ==> Tidy(s, cxx, i, START, false, false))
  {
    hide Removed, Kept, Tidy, SpellAll, LeftAll, EndOf, StartOf, Fine, FineHeader, Pending;
    var start, code := StartOf(line.header), SpellAll(line.items) + (EndOf(line.note) + ("\n" + rest));
    assert s[i..] == start + code;
    var place, directive := if line.header.Some? then INNER else START, line.header.Some?;
    StartJoins(s, i, line.header, code, cxx);
    var at := i + |start|;
    var next := ItemsJoin(start, s, at, line.items, line.note, rest, cxx, place, directive);
    EndJoins(start + LeftAll(line.items, directive), s, at + |SpellAll(line.items)|, line.note, rest, cxx, next, directive);
    WholeNothing(s, cxx, i);
  }

  lemma WholeNothing(s: string, cxx: bool, i: nat)
    requires i <= |s|
    ensures Whole("", s, cxx, i, START, false) == Removed(s, cxx, i, START, false, "")
  {
    hide Removed;
    NothingBefore(Removed(s, cxx, i, START, false, ""));
  }

  lemma StartJoins(s: string, i: nat, header: Option<Header>, code: string, cxx: bool)
    requires i <= |s| && s[i..] == StartOf(header) + code && (header.Some? ==> FineHeader(header.value))
    ensures var start, place := StartOf(header), if header.Some? then INNER else START;
            && i + |start| <= |s| && s[i + |start|..] == code
            && Whole("", s, cxx, i, START, false) == Whole(start, s, cxx, i + |start|, place, header.Some?)
            && (TidyRest(s, cxx, i + |start|, place, header.Some?) ==> Tidy(s, cxx, i, START, false, false))
  {
    hide Whole, Tidy, FineHeader;
    match header
    case None => NothingBefore(code);
    case Some(h) => HeaderJoins(s, i, h, code, cxx);
  }

  lemma NothingRemains(s: string, cxx: bool)
    ensures Removed(s, cxx, |s|, START, false, "") == "" && Tidy(s, cxx, |s|, START, false, false)
  {
  }

  lemma {:induction false} LinesJoin(s: string, i: nat, lines: seq<Line>, cxx: bool)
    requires i <= |s| && s[i..] == SpellLines(lines) && forall k :: 0 <= k < |lines| ==> FineLine(lines[k], cxx)
    ensures Removed(s, cxx, i, START, false, "") == LeftLines(lines) && Tidy(s, cxx, i, START, false, false)
    decreases |lines|
  {
    hide SpellLine, LeftLine, FineLine, Removed, Tidy;
    if lines == [] {
      assert |s[i..]| == 0;
      NothingRemains(s, cxx);
    } else {
      LineJoins(s, i, lines[0], SpellLines(lines[1..]), cxx);
      LinesJoin(s, i + |SpellLine(lines[0])| + 1, lines[1..], cxx);
    }
  }

  /** What taking out the comments leaves of a spelled text, and that its tokens stay. */
  lemma SpelledRemoved(lines: seq<Line>, cxx: bool)
    requires forall k :: 0 <= k < |lines| ==> FineLine(lines[k], cxx)
    ensures RemoveComments(SpellLines(lines), cxx) == LeftLines(lines)
    ensures Lex(LeftLines(lines), cxx) == Lexed(AllTokens(lines), 0)
  {
    hide Removed, Tidy, SpellLines, LeftLines, FineLine, Phase2, Phase3, AllTokens, AllNotes, IsTame;
    var s := SpellLines(lines);
    assert s[0..] == s;
    LinesJoin(s, 0, lines, cxx);
    SpelledReads(lines, cxx);
    TidyIsTame(s, cxx);
    RemovalKeepsTokens(s, cxx);
  }

  // ---------------------------------------------------------------------------
  // The file

  /** A spelled file is stripped to just what is spelled without its comments, or, when it has none,
      comes back as it is. */
  method StripSpelled(lines: seq<Line>, cxx: bool) returns (r: StripResult)
    requires forall k :: 0 <= k < |lines| ==> FineLine(lines[k], cxx)
    ensures r == if AllNotes(lines) == 0 then StripResult(SpellLines(lines), NoComments, 0)
                 else StripResult(LeftLines(lines), Stripped, AllNotes(lines))
  {
    hide Lex, SpellLines, LeftLines, FineLine, AllTokens, RemoveComments, IsTame, Visible, Newlines, Concat;
    SpelledReads(lines, cxx);
    SpelledRemoved(lines, cxx);
    r := StripCFamily(SpellLines(lines), cxx);
  }

  /** A file whose only slashes stand in a raw string is left alone. */
  method SlashesStay(pre: string, p: string, d: string, b: string, post: string) returns (r: StripResult)
    requires Quiet(pre) && IsRawWord(p) && IsDelimiter(d) && IsRawBody(d, b) && '/' !in post && '"' !in post
    ensures r == StripResult(pre + (RawLiteral(p, d, b) + post), NoComments, 0)
  {
    hide Lex, Quiet, IsRawWord, IsDelimiter, IsRawBody, RemoveComments, IsTame, Visible, Newlines, Concat, RawLiteral;
    SlashesInRaw(pre, p, d, b, post);
    r := StripCFamily(pre + (RawLiteral(p, d, b) + post), true);
  }
}
