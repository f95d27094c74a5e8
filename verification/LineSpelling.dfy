/** What a line is made of, and what stripping keeps of it: every line is characters of code, quoted
    strings and closed block comments, and at most one more comment or string that runs to its end. */
module LineSpelling {
  import opened Strings
  import opened LineComments

  datatype Piece =
    | Plain(c: char)
    | Quote(mark: char, body: string)
    | Note(body: string)

  datatype Tail =
    | Nothing
    | HashNote(text: string)
    | SlashNote(text: string)
    | OpenNote(body: string)
    | OpenQuote(mark: char, body: string)

  predicate Marks(c: char) {
    c == '"' || c == '\'' || c == '`'
  }

  /** The mark that opened the string stands in its body only behind a backslash. */
  predicate Body(b: string, mark: char) {
    if b == "" then true
    else if b[0] == '\\' then |b| >= 2 && Body(b[2..], mark)
    else b[0] != mark && Body(b[1..], mark)
  }

  /** So it does in one that is not closed, which may end in a backslash. */
  predicate OpenBody(b: string, mark: char) {
    if b == "" then true
    else if b[0] == '\\' then |b| == 1 || OpenBody(b[2..], mark)
    else b[0] != mark && OpenBody(b[1..], mark)
  }

  /** Nothing in it closes a block comment. */
  ghost predicate Unclosing(b: string) {
    forall i :: 0 <= i < |b| - 1 ==> !(b[i] == '*' && b[i + 1] == '/')
  }

  function Spell(p: Piece): string {
    match p
    case Plain(c) => [c]
    case Quote(m, b) => [m] + (b + [m])
    case Note(b) => "/*" + (b + "*/")
  }

  function SpellTail(t: Tail): string {
    match t
    case Nothing => ""
    case HashNote(x) => "#" + x
    case SlashNote(x) => "//" + x
    case OpenNote(b) => "/*" + b
    case OpenQuote(m, b) => [m] + b
  }

  function SpellAll(pieces: seq<Piece>, tail: Tail): string {
    if pieces == [] then SpellTail(tail) else Spell(pieces[0]) + SpellAll(pieces[1..], tail)
  }

  /** What is kept: all but the comments. */
  function Shown(pieces: seq<Piece>, tail: Tail): string {
    if pieces == [] then if tail.OpenQuote? then SpellTail(tail) else ""
    else (if pieces[0].Note? then "" else Spell(pieces[0])) + Shown(pieces[1..], tail)
  }

  /** What a piece may be where `rest` follows. */
  ghost predicate Fine(p: Piece, rest: string, syntax: Syntax) {
    match p
    case Plain(c) =>
      && !Marks(c) && (syntax.hash ==> c != '#')
      && (syntax.slash && c == '/' ==> rest == "" || (rest[0] != '/' && rest[0] != '*'))
    case Quote(m, b) => Marks(m) && Body(b, m)
    case Note(b) => syntax.slash && Unclosing(b)
  }

  ghost predicate FineTail(t: Tail, syntax: Syntax) {
    match t
    case Nothing => true
    case HashNote(_) => syntax.hash
    case SlashNote(_) => syntax.slash
    case OpenNote(b) => syntax.slash && Unclosing(b)
    case OpenQuote(m, b) => Marks(m) && OpenBody(b, m)
  }

  ghost predicate FineAll(pieces: seq<Piece>, tail: Tail, syntax: Syntax) {
    if pieces == [] then FineTail(tail, syntax)
    else Fine(pieces[0], SpellAll(pieces[1..], tail), syntax) && FineAll(pieces[1..], tail, syntax)
  }

  // ---------------------------------------------------------------------------
  // What is kept of the parts

  lemma {:induction false} KeepQuoted(b: string, mark: char, rest: string, syntax: Syntax)
    requires Body(b, mark) && mark != '\\'
    ensures Keep(b + ([mark] + rest), Quoted(mark, false), syntax) == Prepend(b + [mark], Keep(rest, Code, syntax))
    decreases |b|
  {
    hide Keep;
    var line := b + ([mark] + rest);
    if b == "" {
      QuotedStep(line, mark, false, syntax);
      assert line[1..] == rest;
      PrependNone(Keep(rest, Code, syntax));
      PrependFirst(mark, "", Keep(rest, Code, syntax));
    } else if b[0] == '\\' {
      KeepQuoted(b[2..], mark, rest, syntax);
      QuotedStep(line, mark, false, syntax);
      QuotedStep(line[1..], mark, true, syntax);
      assert line[1..][1..] == b[2..] + ([mark] + rest) && line[1..][0] == b[1];
      PrependFirst(b[1], b[2..] + [mark], Keep(rest, Code, syntax));
      PrependFirst(b[0], [b[1]] + (b[2..] + [mark]), Keep(rest, Code, syntax));
      assert [b[0]] + ([b[1]] + (b[2..] + [mark])) == b + [mark];
    } else {
      KeepQuoted(b[1..], mark, rest, syntax);
      QuotedStep(line, mark, false, syntax);
      assert line[1..] == b[1..] + ([mark] + rest);
      PrependFirst(b[0], b[1..] + [mark], Keep(rest, Code, syntax));
      assert [b[0]] + (b[1..] + [mark]) == b + [mark];
    }
  }

  lemma QuotedStep(line: string, mark: char, escaped: bool, syntax: Syntax)
    requires line != "" && mark != '\\'
    ensures var c := line[0];
            Keep(line, Quoted(mark, escaped), syntax)
            == Cons(c, Keep(line[1..], if escaped then Quoted(mark, false) else if c == '\\' then Quoted(mark, true)
                                       else if c == mark then Code else Quoted(mark, false), syntax))
  {
  }

  lemma PrependFirst(c: char, text: string, k: Kept)
    ensures Cons(c, Prepend(text, k)) == Prepend([c] + text, k)
    ensures Cons(c, k) == Prepend([c], k)
  {
  }

  lemma PrependNone(k: Kept)
    ensures Prepend("", k) == k
  {
  }

  lemma PrependTwice(a: string, b: string, k: Kept)
    ensures Prepend(a, Prepend(b, k)) == Prepend(a + b, k)
  {
  }

  lemma {:induction false} KeepOpenQuoted(b: string, mark: char, syntax: Syntax)
    requires OpenBody(b, mark) && mark != '\\'
    ensures Keep(b, Quoted(mark, false), syntax) == Kept(b, false)
    decreases |b|
  {
    hide Keep;
    if b == "" {
      KeepNothing(Quoted(mark, false), syntax);
    } else if b[0] == '\\' && |b| == 1 {
      QuotedStep(b, mark, false, syntax);
      KeepNothing(Quoted(mark, true), syntax);
    } else if b[0] == '\\' {
      KeepOpenQuoted(b[2..], mark, syntax);
      QuotedStep(b, mark, false, syntax);
      QuotedStep(b[1..], mark, true, syntax);
      assert b[1..][1..] == b[2..];
      assert b == [b[0]] + ([b[1]] + b[2..]);
    } else {
      KeepOpenQuoted(b[1..], mark, syntax);
      QuotedStep(b, mark, false, syntax);
      assert b == [b[0]] + b[1..];
    }
  }

  lemma {:induction false} KeepNote(b: string, rest: string, syntax: Syntax)
    requires Unclosing(b)
    ensures Keep(b + ("*/" + rest), Block, syntax) == Keep(rest, Code, syntax)
    ensures Keep(b, Block, syntax) == Kept("", true)
    decreases |b|
  {
    hide Keep;
    var line := b + ("*/" + rest);
    KeepBlockStep(line, syntax);
    if b == "" {
      assert line[2..] == rest;
      KeepNothing(Block, syntax);
    } else {
      assert line[1..] == b[1..] + ("*/" + rest);
      assert |b| >= 2 ==> line[1] == b[1];
      assert |b| == 1 ==> line[1] == '*';
      UnclosingTail(b);
      KeepNote(b[1..], rest, syntax);
      KeepBlockStep(b, syntax);
    }
  }

  lemma UnclosingTail(b: string)
    requires b != "" && Unclosing(b)
    ensures Unclosing(b[1..])
  {
    forall i | 0 <= i < |b| - 2 ensures !(b[1..][i] == '*' && b[1..][i + 1] == '/') {
      assert b[1..][i] == b[i + 1] && b[1..][i + 1] == b[i + 1 + 1];
    }
  }

  lemma CodeStep(line: string, syntax: Syntax)
    requires line != ""
    ensures var c := line[0];
            Keep(line, Code, syntax) ==
            if Marks(c) then Cons(c, Keep(line[1..], Quoted(c, false), syntax))
            else if (syntax.hash && c == '#') || (syntax.slash && |line| >= 2 && c == '/' && line[1] == '/') then Kept("", false)
            else if syntax.slash && |line| >= 2 && c == '/' && line[1] == '*' then Keep(line[2..], Block, syntax)
            else Cons(c, Keep(line[1..], Code, syntax))
  {
  }

  lemma KeepPiece(p: Piece, rest: string, syntax: Syntax)
    requires Fine(p, rest, syntax)
    ensures Keep(Spell(p) + rest, Code, syntax) == Prepend(if p.Note? then "" else Spell(p), Keep(rest, Code, syntax))
  {
    hide Keep, Unclosing, Body, Prepend;
    match p
    case Plain(c) => KeepPlain(c, rest, syntax);
    case Quote(m, b) => KeepString(m, b, rest, syntax);
    case Note(b) => KeepClosed(b, rest, syntax);
  }

  lemma KeepPlain(c: char, rest: string, syntax: Syntax)
    requires Fine(Plain(c), rest, syntax)
    ensures Keep([c] + rest, Code, syntax) == Prepend([c], Keep(rest, Code, syntax))
  {
    hide Keep, Prepend, Cons;
    var line := [c] + rest;
    CodeStep(line, syntax);
    assert line[1..] == rest && (rest != "" ==> line[1] == rest[0]);
    PrependFirst(c, "", Keep(rest, Code, syntax));
  }

  lemma KeepString(m: char, b: string, rest: string, syntax: Syntax)
    requires Marks(m) && Body(b, m)
    ensures Keep([m] + (b + [m]) + rest, Code, syntax) == Prepend([m] + (b + [m]), Keep(rest, Code, syntax))
  {
    hide Keep, Body, Prepend, Cons;
    var line := [m] + (b + [m]) + rest;
    CodeStep(line, syntax);
    assert line[1..] == b + ([m] + rest);
    KeepQuoted(b, m, rest, syntax);
    PrependFirst(m, b + [m], Keep(rest, Code, syntax));
  }

  lemma KeepClosed(b: string, rest: string, syntax: Syntax)
    requires syntax.slash && Unclosing(b)
    ensures Keep("/*" + (b + "*/") + rest, Code, syntax) == Prepend("", Keep(rest, Code, syntax))
  {
    hide Keep, Unclosing, Prepend, Cons;
    var line := "/*" + (b + "*/") + rest;
    CodeStep(line, syntax);
    assert line[0] == '/' && line[1] == '*' && line[2..] == b + ("*/" + rest);
    KeepNote(b, rest, syntax);
    PrependNone(Keep(rest, Code, syntax));
  }

  lemma KeepTail(t: Tail, syntax: Syntax)
    requires FineTail(t, syntax)
    ensures Keep(SpellTail(t), Code, syntax) == Kept(if t.OpenQuote? then SpellTail(t) else "", t.OpenNote?)
  {
    hide Keep, Unclosing;
    var line := SpellTail(t);
    match t
    case Nothing => KeepNothing(Code, syntax);
    case HashNote(x) => CodeStep(line, syntax);
    case SlashNote(x) =>
      assert line[0] == '/' && line[1] == '/';
      CodeStep(line, syntax);
    case OpenNote(b) =>
      assert line[0] == '/' && line[1] == '*' && line[2..] == b;
      CodeStep(line, syntax);
      KeepNote(b, "", syntax);
    case OpenQuote(m, b) =>
      assert line[1..] == b;
      CodeStep(line, syntax);
      KeepOpenQuoted(b, m, syntax);
  }

  /** Of a line nothing but its comments goes: neither strings nor what looks like a comment in them. */
  lemma {:induction false} KeepsAllElse(pieces: seq<Piece>, tail: Tail, syntax: Syntax)
    requires FineAll(pieces, tail, syntax)
    ensures Keep(SpellAll(pieces, tail), Code, syntax) == Kept(Shown(pieces, tail), tail.OpenNote?)
  {
    hide Keep, Fine, FineTail, Spell, SpellTail;
    if pieces == [] {
      KeepTail(tail, syntax);
    } else {
      KeepsAllElse(pieces[1..], tail, syntax);
      KeepPiece(pieces[0], SpellAll(pieces[1..], tail), syntax);
    }
  }

  // ---------------------------------------------------------------------------
  // Every line is made so

  /** The body of a string, and what is behind its closing mark, if it has one. */
  lemma {:induction false} ReadBody(s: string, mark: char) returns (b: string, rest: string, closed: bool)
    requires mark != '\\'
    ensures closed ==> Body(b, mark) && s == b + ([mark] + rest)
    ensures !closed ==> OpenBody(b, mark) && s == b
    decreases |s|
  {
    if s == "" {
      b, rest, closed := "", "", false;
    } else if s[0] == mark {
      b, rest, closed := "", s[1..], true;
    } else if s[0] == '\\' && |s| == 1 {
      b, rest, closed := s, "", false;
    } else if s[0] == '\\' {
      b, rest, closed := ReadBody(s[2..], mark);
      var more := s[..2] + b;
      assert more[2..] == b && more[0] == '\\';
      b := more;
    } else {
      b, rest, closed := ReadBody(s[1..], mark);
      var more := [s[0]] + b;
      assert more[1..] == b;
      b := more;
    }
  }

  /** The body of a block comment, and what is behind it, if it is closed. */
  lemma {:induction false} ReadNote(s: string) returns (b: string, rest: string, closed: bool)
    ensures Unclosing(b) && s == (if closed then b + ("*/" + rest) else b)
    ensures closed || |b| == |s|
    decreases |s|
  {
    if |s| >= 2 && s[0] == '*' && s[1] == '/' {
      b, rest, closed := "", s[2..], true;
    } else if s == "" {
      b, rest, closed := "", "", false;
    } else {
      b, rest, closed := ReadNote(s[1..]);
      var more := [s[0]] + b;
      forall i | 0 <= i < |more| - 1 ensures !(more[i] == '*' && more[i + 1] == '/') {
        if i > 0 {
          assert more[i] == b[i - 1] && more[i + 1] == b[i - 1 + 1];
        } else {
          assert more[1] == b[0] == s[1..][0];
        }
      }
      b := more;
    }
  }

  lemma SpelledFirst(p: Piece, pieces: seq<Piece>, tail: Tail, syntax: Syntax)
    requires Fine(p, SpellAll(pieces, tail), syntax) && FineAll(pieces, tail, syntax)
    ensures FineAll([p] + pieces, tail, syntax) && SpellAll([p] + pieces, tail) == Spell(p) + SpellAll(pieces, tail)
  {
    assert ([p] + pieces)[1..] == pieces;
  }

  lemma SpelledTail(tail: Tail, syntax: Syntax)
    requires FineTail(tail, syntax)
    ensures FineAll([], tail, syntax) && SpellAll([], tail) == SpellTail(tail)
  {
  }

  /** How a line that is not empty goes on from its first character: a piece and a rest, or a tail. */
  lemma FirstOf(line: string, syntax: Syntax) returns (p: Piece, rest: string, tail: Tail, ends: bool)
    requires line != ""
    ensures if ends then FineTail(tail, syntax) && line == SpellTail(tail)
            else Fine(p, rest, syntax) && line == Spell(p) + rest && |rest| < |line|
  {
    p, rest, tail, ends := Plain(line[0]), line[1..], Nothing, false;
    if Marks(line[0]) {
      p, rest, tail, ends := QuoteOf(line, syntax);
    } else if syntax.hash && line[0] == '#' {
      tail, ends := HashNote(line[1..]), true;
    } else if syntax.slash && |line| >= 2 && line[0] == '/' && line[1] == '/' {
      tail, ends := SlashNote(line[2..]), true;
    } else if syntax.slash && |line| >= 2 && line[0] == '/' && line[1] == '*' {
      p, rest, tail, ends := NoteOf(line, syntax);
    }
  }

  lemma QuoteOf(line: string, syntax: Syntax) returns (p: Piece, rest: string, tail: Tail, ends: bool)
    requires line != "" && Marks(line[0])
    ensures if ends then FineTail(tail, syntax) && line == SpellTail(tail)
            else Fine(p, rest, syntax) && line == Spell(p) + rest && |rest| < |line|
  {
    hide Body, OpenBody;
    var b, behind, closed := ReadBody(line[1..], line[0]);
    p, rest, tail, ends := Quote(line[0], b), behind, OpenQuote(line[0], b), !closed;
    assert line == [line[0]] + line[1..];
    if closed {
      QuoteApart(line[0], b, behind);
    }
  }

  lemma QuoteApart(m: char, b: string, rest: string)
    ensures [m] + (b + ([m] + rest)) == [m] + (b + [m]) + rest
  {
  }

  lemma NoteOf(line: string, syntax: Syntax) returns (p: Piece, rest: string, tail: Tail, ends: bool)
    requires syntax.slash && |line| >= 2 && line[0] == '/' && line[1] == '*'
    ensures if ends then FineTail(tail, syntax) && line == SpellTail(tail)
            else Fine(p, rest, syntax) && line == Spell(p) + rest && |rest| < |line|
  {
    hide Unclosing;
    var b, behind, closed := ReadNote(line[2..]);
    p, rest, tail, ends := Note(b), behind, OpenNote(b), !closed;
  }

  lemma {:induction false} EveryLine(line: string, syntax: Syntax) returns (pieces: seq<Piece>, tail: Tail)
    ensures FineAll(pieces, tail, syntax) && line == SpellAll(pieces, tail)
    decreases |line|
  {
    hide Fine, FineTail, Spell, SpellTail, FineAll, SpellAll;
    pieces, tail := [], Nothing;
    if line == "" {
      NothingSpelled(syntax);
    } else {
      var p, rest, last, ends := FirstOf(line, syntax);
      if ends {
        tail := last;
        SpelledTail(tail, syntax);
      } else {
        var more;
        more, tail := EveryLine(rest, syntax);
        SpelledFirst(p, more, tail, syntax);
        pieces := [p] + more;
      }
    }
  }

  lemma NothingSpelled(syntax: Syntax)
    ensures FineAll([], Nothing, syntax) && SpellAll([], Nothing) == ""
  {
  }

  /** Stripping any line: it is spelled from fine pieces, behind the end of a block comment that was open,
      or lies within that comment; what is kept is all but its comments and the white space at its end,
      and a block comment is open behind it exactly when one of its own or the one it lies in is not closed. */
  lemma StripMeans(line: string, open: bool, syntax: Syntax) returns (note: string, pieces: seq<Piece>, tail: Tail, within: bool)
    ensures var k := Strip(line, open, syntax);
            && Unclosing(note) && FineAll(pieces, tail, syntax)
            && (if !(open && syntax.slash) then !within && line == SpellAll(pieces, tail)
                else if within then line == note else line == note + ("*/" + SpellAll(pieces, tail)))
            && k.text == (if within then "" else TrimRight(Shown(pieces, tail), IsByteSpace))
            && k.open == (if syntax.slash then within || tail.OpenNote? else open)
  {
    hide Keep, Unclosing, FineAll, SpellAll, Shown;
    note, within := "", false;
    var code := line;
    NothingCloses();
    if open && syntax.slash {
      var closed;
      note, code, closed := ReadNote(line);
      within := !closed;
      KeepNote(note, code, syntax);
    }
    if within {
      pieces, tail := EveryLine("", syntax);
    } else {
      pieces, tail := EveryLine(code, syntax);
      KeepsAllElse(pieces, tail, syntax);
    }
  }

  lemma NothingCloses()
    ensures Unclosing("")
  {
  }
}
