/** Whole texts that are spelled token by token: reading one gives back its tokens and counts its
    comments, taking the comments out leaves what is spelled without them, and slashes within literals
    are no comments. */
module SpelledSource {
  import opened Basics
  import opened SplicedText
  import opened SplicedSlices
  import opened PhaseThree
  import opened CommentRemoval
  import CLexer
  import opened TokensKept
  import opened Spelling

  // ---------------------------------------------------------------------------
  // What is spelled

  datatype Item =
    | Word(text: string)
    | Number(text: string)
    | Quoted(prefix: string, quote: char, body: string)
    | Raw(prefix: string, delimiter: string, body: string)
    | Mark(ch: char)
    | Note(body: string)

  /** The start of a directive that includes a header. */
  datatype Header = Header(word: string, name: string)

  /** A line of source: a header it includes or none, items, and a comment to the end or none. */
  datatype Line = Line(header: Option<Header>, items: seq<Item>, note: Option<string>)

  ghost predicate Fine(item: Item, cxx: bool) {
    match item
    case Word(w) => IsWordText(w)
    case Number(n) => IsNumberText(n)
    case Quoted(p, quote, b) => IsPrefix(p) && (quote == '"' || quote == '\'') && IsBody(b, quote)
    case Raw(p, d, b) => cxx && IsRawWord(p) && IsDelimiter(d) && IsRawBody(d, b)
    case Mark(c) => !Space(c) && !InWord(c) && c !in {'"', '\'', '\\', '#'}
    case Note(c) => NoteText(c)
  }

  function Spell(item: Item): string {
    match item
    case Word(w) => w
    case Number(n) => n
    case Quoted(p, quote, b) => p + [quote] + b + [quote]
    case Raw(p, d, b) => RawLiteral(p, d, b)
    case Mark(c) => [c]
    case Note(c) => "/*" + c + "*/"
  }

  /** An item's token, without splices; a comment has none. */
  ghost function TokenOf(item: Item): seq<string> {
    if item.Note? then [] else [Chars(Phase2(Spell(item)))]
  }

  function NotesIn(item: Item): nat {
    if item.Note? then 1 else 0
  }

  /** Items with a blank behind each. */
  function SpellAll(items: seq<Item>): string {
    if items == [] then "" else Spell(items[0]) + (" " + SpellAll(items[1..]))
  }

  ghost function TokensOf(items: seq<Item>): seq<string> {
    if items == [] then [] else TokenOf(items[0]) + TokensOf(items[1..])
  }

  function CountNotes(items: seq<Item>): nat {
    if items == [] then 0 else NotesIn(items[0]) + CountNotes(items[1..])
  }

  ghost predicate FineHeader(h: Header) {
    h.word in {"include", "include_next", "import"} && '>' !in h.name && '\n' !in h.name && '\\' !in h.name
  }

  ghost predicate FineLine(line: Line, cxx: bool) {
    && (line.header.Some? ==> FineHeader(line.header.value))
    && (forall i :: 0 <= i < |line.items| ==> Fine(line.items[i], cxx))
    && (line.note.Some? ==> '\n' !in line.note.value && '\\' !in line.note.value)
  }

  function StartOf(header: Option<Header>): string {
    match header
    case None => ""
    case Some(h) => "#" + (h.word + (" " + (("<" + h.name + ">") + " ")))
  }

  function EndOf(note: Option<string>): string {
    if note.None? then "" else "//" + note.value
  }

  function SpellLine(line: Line): string {
    StartOf(line.header) + (SpellAll(line.items) + EndOf(line.note))
  }

  function StartTokens(header: Option<Header>): seq<string> {
    match header
    case None => []
    case Some(h) => ["#", h.word, "<" + h.name + ">"]
  }

  ghost function LineTokens(line: Line): seq<string> {
    StartTokens(line.header) + TokensOf(line.items)
  }

  function LineNotes(line: Line): nat {
    CountNotes(line.items) + if line.note.None? then 0 else 1
  }

  function SpellLines(lines: seq<Line>): string {
    if lines == [] then "" else SpellLine(lines[0]) + ("\n" + SpellLines(lines[1..]))
  }

  ghost function AllTokens(lines: seq<Line>): seq<string> {
    if lines == [] then [] else LineTokens(lines[0]) + AllTokens(lines[1..])
  }

  function AllNotes(lines: seq<Line>): nat {
    if lines == [] then 0 else LineNotes(lines[0]) + AllNotes(lines[1..])
  }

  // ---------------------------------------------------------------------------
  // Reading it back

  lemma BeforeTwice(a: seq<string>, m: nat, b: seq<string>, n: nat, later: Lexed)
    ensures Before(a, m, Before(b, n, later)) == Before(a + b, m + n, later)
    ensures Before([], 0, later) == later
  {
    if later.Lexed? {
      assert a + (b + later.tokens) == (a + b) + later.tokens;
      assert [] + later.tokens == later.tokens;
    }
  }

  lemma HeadBlank(rest: string)
    ensures Head(" " + rest) == Some(' ') && Head("\n" + rest) == Some('\n')
  {
    hide Glyphs;
    HeadOf(" " + rest);
    HeadOf("\n" + rest);
  }

  /** An item in front of a blank, outside header names. */
  lemma ItemReads(item: Item, rest: string, cxx: bool, place: Place)
    requires Fine(item, cxx) && !place.headerAllowed && !place.namePending
    ensures Phase3(Phase2(Spell(item) + (" " + rest)), cxx, place) ==
            Before(TokenOf(item), NotesIn(item), Phase3(Phase2(rest), cxx, if item.Note? then place else INNER))
  {
    hide Phase2, Phase3, Before, IsWordText, IsNumberText, IsBody, IsDelimiter, IsRawBody, IsRawWord, IsPrefix, RawLiteral;
    HeadBlank(rest);
    OverSpace(' ', rest, cxx, INNER);
    OverSpace(' ', rest, cxx, place);
    match item
    case Word(w) => WordIsOneToken(w, " " + rest, cxx, place);
    case Number(n) => NumberIsOneToken(n, " " + rest, cxx, place);
    case Quoted(p, quote, b) => QuotedIsOneToken(p, quote, b, " " + rest, cxx, place);
    case Raw(p, d, b) => RawIsOneToken(p, d, b, " " + rest, place);
    case Mark(c) => MarkIsOneToken(c, " " + rest, cxx, place);
    case Note(c) => BlockNoteIsComment(c, " " + rest, cxx, place);
  }

  lemma {:induction false} ItemsRead(items: seq<Item>, rest: string, cxx: bool, place: Place) returns (next: Place)
    requires (forall i :: 0 <= i < |items| ==> Fine(items[i], cxx)) && !place.headerAllowed && !place.namePending
    ensures Phase3(Phase2(SpellAll(items) + rest), cxx, place) == Before(TokensOf(items), CountNotes(items), Phase3(Phase2(rest), cxx, next))
  {
    hide Phase2, Phase3, Before, Spell, TokenOf, Fine, NotesIn;
    next := place;
    if items == [] {
      NothingBefore(rest);
      BeforeTwice([], 0, [], 0, Phase3(Phase2(rest), cxx, place));
    } else {
      var item, tail := items[0], SpellAll(items[1..]) + rest;
      ItemReads(item, tail, cxx, place);
      assert SpellAll(items) + rest == Spell(item) + (" " + tail);
      next := ItemsRead(items[1..], rest, cxx, if item.Note? then place else INNER);
      BeforeTwice(TokenOf(item), NotesIn(item), TokensOf(items[1..]), CountNotes(items[1..]), Phase3(Phase2(rest), cxx, next));
    }
  }

  /** The items of a line, and its end. */
  lemma CodeReads(items: seq<Item>, note: Option<string>, rest: string, cxx: bool, place: Place)
    requires FineLine(Line(None, items, note), cxx) && !place.headerAllowed && !place.namePending
    ensures Phase3(Phase2(SpellAll(items) + EndOf(note) + ("\n" + rest)), cxx, place)
            == Before(TokensOf(items), LineNotes(Line(None, items, note)), Phase3(Phase2(rest), cxx, START))
  {
    hide Phase2, Phase3, Before, SpellAll, TokensOf, CountNotes, Fine;
    var tail := "\n" + rest;
    var text := EndOf(note) + tail;
    var next := ItemsRead(items, text, cxx, place);
    assert SpellAll(items) + EndOf(note) + tail == SpellAll(items) + text;
    HeadBlank(rest);
    OverSpace('\n', rest, cxx, next);
    if note.Some? {
      LineNoteIsComment(note.value, tail, cxx, next);
      BeforeTwice(TokensOf(items), CountNotes(items), [], 1, Phase3(Phase2(rest), cxx, START));
      assert TokensOf(items) + [] == TokensOf(items);
    } else {
      NothingBefore(tail);
    }
  }

  /** A directive's start. */
  lemma HeaderReads(h: Header, rest: string, cxx: bool)
    requires FineHeader(h)
    ensures Phase3(Phase2(StartOf(Some(h)) + rest), cxx, START) == Before(StartTokens(Some(h)), 0, Phase3(Phase2(rest), cxx, INNER))
  {
    hide Phase2, Phase3, Before, IsWordText, Chars;
    var w, header, tail := h.word, "<" + h.name + ">", " " + rest;
    var behind := " " + (header + tail);
    assert StartOf(Some(h)) + rest == "#" + (w + behind);
    DirectiveWord(w, behind);
    MarkIsOneToken('#', w + behind, cxx, START);
    var named, allowed := Place(false, true, false), Place(false, false, true);
    HeadBlank(header + tail);
    WordIsOneToken(w, behind, cxx, named);
    OverSpace(' ', header + tail, cxx, allowed);
    HeaderIsOneToken(h.name, tail, cxx, allowed);
    OverSpace(' ', rest, cxx, INNER);
    var later := Phase3(Phase2(rest), cxx, INNER);
    BeforeTwice([w], 0, [header], 0, later);
    BeforeTwice(["#"], 0, [w] + [header], 0, later);
    assert ["#"] + ([w] + [header]) == ["#", w, header];
  }

  lemma DirectiveWord(w: string, rest: string)
    requires w in {"include", "include_next", "import"}
    ensures IsWordText(w) && Head(w + rest) != Some('/') && Head(w + rest) != Some('*')
  {
    hide Glyphs;
    HeadOf(w + rest);
  }

  /** A spelled text is read as its tokens, in order, and as many comments as it has. */
  lemma {:induction false} SpelledReads(lines: seq<Line>, cxx: bool)
    requires forall i :: 0 <= i < |lines| ==> FineLine(lines[i], cxx)
    ensures Lex(SpellLines(lines), cxx) == Lexed(AllTokens(lines), AllNotes(lines))
  {
    hide Phase2, Phase3, SpellLine, LineTokens, LineNotes, FineLine;
    if lines == [] {
      NothingLeft();
      ReadNothing(cxx, START);
    } else {
      SpelledReads(lines[1..], cxx);
      var rest := SpellLines(lines[1..]);
      LineReads(lines[0], rest, cxx);
    }
  }

  lemma LineReads(line: Line, rest: string, cxx: bool)
    requires FineLine(line, cxx)
    ensures Phase3(Phase2(SpellLine(line) + ("\n" + rest)), cxx, START) == Before(LineTokens(line), LineNotes(line), Phase3(Phase2(rest), cxx, START))
  {
    hide Phase2, Phase3, Before, SpellAll, TokensOf, Fine, FineHeader, EndOf, CountNotes;
    var code := SpellAll(line.items) + EndOf(line.note) + ("\n" + rest);
    assert SpellLine(line) + ("\n" + rest) == StartOf(line.header) + code;
    CodeReads(line.items, line.note, rest, cxx, if line.header.Some? then INNER else START);
    BeforeTwice(StartTokens(line.header), 0, TokensOf(line.items), LineNotes(line), Phase3(Phase2(rest), cxx, START));
    match line.header
    case None => assert StartOf(None) + code == code; assert [] + TokensOf(line.items) == TokensOf(line.items);
    case Some(h) => HeaderReads(h, code, cxx);
  }

  // ---------------------------------------------------------------------------
  // Slashes within literals

  /** Code without slashes, marks of literals and directives, up to a blank. */
  ghost predicate Quiet(pre: string) {
    && (forall i :: 0 <= i < |pre| ==> pre[i] !in {'/', '"', '\'', '\\', '#'})
    && (pre == "" || Space(pre[|pre| - 1]))
  }

  lemma QuietTail(pre: string, n: nat)
    requires Quiet(pre) && n <= |pre|
    ensures Quiet(pre[n..])
  {
    assert n < |pre| ==> pre[n..][|pre| - n - 1] == pre[|pre| - 1];
  }

  /** A token of quiet code ends before its last blank. */
  lemma QuietToken(g: seq<Glyph>, pre: string, cxx: bool, place: Place)
    requires Quiet(pre) && pre != "" && !Space(pre[0]) && !place.headerAllowed && !place.namePending
    requires |pre| <= |g| && forall i :: 0 <= i < |pre| ==> g[i].ch == pre[i]
    ensures TokenLen(g, cxx, place).Some? && 1 <= TokenLen(g, cxx, place).value < |pre|
    ensures NextPlace(g, cxx, place) == INNER
    ensures !Space(g[0].ch) && !StartsWith(g, '/', '/') && !StartsWith(g, '/', '*')
  {
    hide RawLen, QuotedTail, Chars, IdentLen, NumberTail, IsRawPrefix, IsStringPrefix, NamesHeader;
    assert g[0].ch == pre[0] && |pre| >= 2 && Space(g[|pre| - 1].ch);
    IdentWithin(g, |pre| - 1);
    NumberWithin(g[1..], |pre| - 2, ' ');
    IdentStops(g);
  }

  lemma {:induction false} IdentWithin(g: seq<Glyph>, n: nat)
    requires n < |g| && Space(g[n].ch)
    ensures IdentLen(g) <= n
  {
    if n > 0 {
      IdentWithin(g[1..], n - 1);
    }
  }

  lemma {:induction false} NumberWithin(g: seq<Glyph>, n: nat, prev: char)
    requires n < |g| && Space(g[n].ch)
    ensures NumberTail(g, prev) <= n
    decreases n
  {
    if n > 0 {
      NumberWithin(g[1..], n - 1, g[0].ch);
    }
  }

  /** Quiet code gives tokens and no comments, and what follows it is read for itself. */
  lemma {:induction false} OverCode(pre: string, x: string, cxx: bool, place: Place) returns (tokens: seq<string>, next: Place)
    requires Quiet(pre) && !place.headerAllowed && !place.namePending
    ensures !next.headerAllowed && !next.namePending
    ensures Phase3(Phase2(pre + x), cxx, place) == Before(tokens, 0, Phase3(Phase2(x), cxx, next))
    decreases |pre|
  {
    hide Glyphs, Phase3, Before, TokenLen, NextPlace, Quiet, Unspliced, CLexer.Reads;
    tokens, next := [], place;
    if pre == "" {
      NothingBefore(x);
      BeforeTwice([], 0, [], 0, Phase3(Phase2(x), cxx, place));
    } else if Space(pre[0]) {
      QuietTail(pre, 1);
      assert pre + x == [pre[0]] + (pre[1..] + x);
      OverSpace(pre[0], pre[1..] + x, cxx, place);
      tokens, next := OverCode(pre[1..], x, cxx, if pre[0] == '\n' then START else place);
    } else {
      QuietPlain(pre);
      NoBackslash(pre, x);
      Front(pre, x);
      var g := Phase2(pre + x);
      QuietToken(g, pre, cxx, place);
      var n := TokenLen(g, cxx, place).value;
      ReadOrdinary(g, cxx, place);
      Behind(pre, x, n);
      QuietTail(pre, n);
      var more;
      more, next := OverCode(pre[n..], x, cxx, INNER);
      tokens := [Chars(g[..n])] + more;
      BeforeTwice([Chars(g[..n])], 0, more, 0, Phase3(Phase2(x), cxx, next));
    }
  }

  lemma QuietPlain(pre: string)
    requires Quiet(pre)
    ensures '\\' !in pre
  {
  }

  lemma Behind(pre: string, x: string, n: nat)
    requires n <= |pre| && '\\' !in pre
    ensures n <= |Phase2(pre + x)| && Phase2(pre + x)[n..] == Phase2(pre[n..] + x)
  {
    hide Glyphs, Unspliced, CLexer.Reads, Phase2;
    var a, b := pre[..n], pre[n..] + x;
    assert pre + x == a + b;
    NoBackslash(a, b);
    Front(a, b);
  }

  lemma {:induction false} GlyphsFrom(s: string, i: nat)
    requires i <= |s|
    ensures forall k :: 0 <= k < |Glyphs(s, i)| ==> Glyphs(s, i)[k].ch in s
    decreases |s| - i
  {
    hide SpliceLen, SkipSplices;
    if i < |s| {
      GlyphsFrom(s, Next(s, i));
    }
  }

  /** Text without slashes and quotation marks has no comments. */
  lemma {:induction false} NoSlashes(g: seq<Glyph>, cxx: bool, place: Place)
    requires forall i :: 0 <= i < |g| ==> g[i].ch != '/' && g[i].ch != '"'
    ensures Phase3(g, cxx, place).Lexed? && Phase3(g, cxx, place).comments == 0
    decreases |g|
  {
    hide TokenLen, NextPlace, Chars, Before, Phase3;
    if g == [] {
      ReadNothing(cxx, place);
    } else if Space(g[0].ch) {
      ReadSpace(g, cxx, place);
      NoSlashes(g[1..], cxx, if g[0].ch == '\n' then START else place);
    } else {
      HasToken(g, cxx, place);
      ReadOrdinary(g, cxx, place);
      var n := TokenLen(g, cxx, place).value;
      NoSlashes(g[n..], cxx, NextPlace(g, cxx, place));
      BeforeTokens([Chars(g[..n])], 0, Phase3(g[n..], cxx, NextPlace(g, cxx, place)));
    }
  }

  lemma HasToken(g: seq<Glyph>, cxx: bool, place: Place)
    requires g != [] && forall i :: 0 <= i < |g| ==> g[i].ch != '/' && g[i].ch != '"'
    ensures TokenLen(g, cxx, place).Some?
  {
  }

  /** Source whose only slashes stand in a raw string, behind code without other literals: it is read,
      and it has no comment. */
  lemma SlashesInRaw(pre: string, p: string, d: string, b: string, post: string)
    requires Quiet(pre) && IsRawWord(p) && IsDelimiter(d) && IsRawBody(d, b) && '/' !in post && '"' !in post
    ensures var text := pre + (RawLiteral(p, d, b) + post); Lex(text, true).Lexed? && Lex(text, true).comments == 0
  {
    hide Phase3, Before, IsRawWord, IsDelimiter, IsRawBody, RawLiteral, Quiet, Glyphs, Chars;
    var lit := RawLiteral(p, d, b);
    var tokens, next := OverCode(pre, lit + post, true, START);
    RawIsOneToken(p, d, b, post, next);
    GlyphsFrom(post, 0);
    NoSlashes(Phase2(post), true, INNER);
    BeforeTokens([Chars(Phase2(lit))], 0, Phase3(Phase2(post), true, INNER));
    BeforeTokens(tokens, 0, Phase3(Phase2(lit + post), true, next));
  }
}
