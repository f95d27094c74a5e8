/** The lexer measured against the token rules of ISO/IEC 14882:2020 (C++) and ISO/IEC 9899:2024 (C).
    There a header name is read in more places than the lexer knows of, goes on over line splices and,
    between quotes, has no escapes; and in C++ an identifier behind a literal belongs to it. The lexer
    reads a text as these rules do exactly when none of that makes a difference.

    Rules that the comparison takes over from the lexer: which characters form identifiers, that blanks
    may stand within a line splice, that punctuators are read one character at a time, and that
    `#include_next` and `#import` name headers too. */
module TokenRules {
  import opened Basics
  import opened SplicedText
  import opened PhaseThree

  // ---------------------------------------------------------------------------
  // The rules

  /** How far a line has come towards a header name. `known` says that the lexer is aware of it. */
  datatype Stage =
    | Code
    | Naming(known: bool)
    | Including(known: bool)
    | Exporting
    | Condition
    | HasInclude
    | HasIncludeOpen

  datatype Spot = Spot(lineStart: bool, stage: Stage)

  const OUTSET := Spot(true, Code)

  ghost predicate NameAllowed(stage: Stage) {
    stage.Including? || stage.HasIncludeOpen?
  }

  ghost predicate InCondition(stage: Stage) {
    stage.Condition? || stage.HasInclude? || stage.HasIncludeOpen?
  }

  /** Characters from one character of a header name, exclusive, to its end on the same line. */
  ghost function NameTail(g: seq<Glyph>, end: char): (r: Option<nat>)
    requires g != []
    ensures r.Some? ==> 1 <= r.value < |g| && g[r.value].ch == end
  {
    if |g| < 2 || g[1].ch == '\n' then None
    else if g[1].ch == end then Some(1)
    else match NameTail(g[1..], end)
      case None => None
      case Some(n) => Some(n + 1)
  }

  /** Length of the header name at `g`; it is closed on its line and not empty. */
  ghost function HeaderName(g: seq<Glyph>): (r: Option<nat>)
    requires g != []
    ensures r.Some? ==> 3 <= r.value <= |g| && (g[0].ch == '<' || g[0].ch == '"')
  {
    if g[0].ch != '<' && g[0].ch != '"' then None
    else match NameTail(g, if g[0].ch == '<' then '>' else '"')
      case None => None
      case Some(n) => if n == 1 then None else Some(n + 1)
  }

  /** Whether the first `n` characters are a string or character literal. */
  ghost predicate IsLiteral(g: seq<Glyph>, n: nat)
    requires g != []
  {
    g[0].ch == '"' || g[0].ch == '\'' || (IsIdentStart(g[0].ch) && IdentLen(g) < n)
  }

  /** Length of the suffix that makes a literal a user-defined one. */
  ghost function SuffixLen(g: seq<Glyph>): (n: nat)
    ensures n <= |g|
    ensures n > 0 <==> g != [] && IsIdentStart(g[0].ch)
  {
    if g != [] && IsIdentStart(g[0].ch) then IdentLen(g) else 0
  }

  /** Length of a token other than a header name. */
  ghost function OrdinaryLen(g: seq<Glyph>, cxx: bool, lineStart: bool): (r: Option<nat>)
    requires g != []
    ensures r.Some? ==> 1 <= r.value <= |g|
  {
    match TokenLen(g, cxx, Place(lineStart, false, false))
    case None => None
    case Some(n) => Some(if cxx && IsLiteral(g, n) then n + SuffixLen(g[n..]) else n)
  }

  ghost function RuleLen(g: seq<Glyph>, cxx: bool, spot: Spot): (r: Option<nat>)
    requires g != []
    ensures r.Some? ==> 1 <= r.value <= |g|
  {
    if NameAllowed(spot.stage) && HeaderName(g).Some? then HeaderName(g)
    else OrdinaryLen(g, cxx, spot.lineStart)
  }

  ghost predicate AsksForHeader(word: string, cxx: bool) {
    word == "__has_include" || (!cxx && word == "__has_embed")
  }

  /** An identifier on the way to a header name: a directive, or an import of C++. */
  ghost function AfterWord(word: string, cxx: bool, spot: Spot): Stage {
    match spot.stage
    case Naming(known) =>
      if NamesHeader(word) then Including(known)
      else if !cxx && word == "embed" then Including(false)
      else if word == "if" || word == "elif" then Condition
      else Code
    case Exporting => if word == "import" then Including(false) else Code
    case Code =>
      if !cxx || !spot.lineStart then Code
      else if word == "import" then Including(false)
      else if word == "export" then Exporting
      else Code
    case Including(_) => Code
    case _ => if AsksForHeader(word, cxx) then HasInclude else Condition
  }

  ghost predicate IsWord(g: seq<Glyph>, cxx: bool)
    requires g != []
  {
    IsIdentStart(g[0].ch) && WordLen(g, cxx) == Some(IdentLen(g))
  }

  ghost function NextStage(g: seq<Glyph>, cxx: bool, spot: Spot): Stage
    requires g != []
  {
    if g[0].ch == '#' && spot.lineStart then Naming(true)
    else if IsWord(g, cxx) then AfterWord(Chars(g[..IdentLen(g)]), cxx, spot)
    else if !InCondition(spot.stage) then Code
    else if spot.stage.HasInclude? && g[0].ch == '(' then HasIncludeOpen
    else Condition
  }

  ghost function Read(g: seq<Glyph>, cxx: bool, spot: Spot): Lexed
    decreases |g|
  {
    if g == [] then Lexed([], 0)
    else if g[0].ch == '\n' then Read(g[1..], cxx, OUTSET)
    else if IsHSpace(g[0].ch) then Read(g[1..], cxx, spot)
    else if StartsWith(g, '/', '/') then
      Before([], 1, Read(g[2 + LineLen(g[2..])..], cxx, spot))
    else if StartsWith(g, '/', '*') then
      match BlockLen(g[2..])
      case None => Failed
      case Some(n) => Before([], 1, Read(g[2 + n..], cxx, spot))
    else if StartsWith(g, '%', ':') && spot.lineStart then
      Before(["%", ":"], 0, Read(g[2..], cxx, Spot(false, Naming(false))))
    else
      match RuleLen(g, cxx, spot)
      case None => Failed
      case Some(n) => Before([Chars(g[..n])], 0, Read(g[n..], cxx, Spot(false, NextStage(g, cxx, spot))))
  }

  /** A source text read by the rules. */
  ghost function LexByRules(text: string, cxx: bool): Lexed {
    Read(Phase2(text), cxx, OUTSET)
  }

  // ---------------------------------------------------------------------------
  // Where the lexer differs

  /** A splice lies within the first `n` characters, the place behind the last one aside. */
  ghost predicate Spliced(g: seq<Glyph>, n: nat)
    requires n <= |g|
  {
    exists k :: 0 <= k < n - 1 && g[k].after != ""
  }

  /** An odd number of backslashes stands right before index `k`. */
  ghost predicate OddBackslashes(g: seq<Glyph>, k: nat)
    requires k <= |g|
  {
    k > 0 && g[k - 1].ch == '\\' && !OddBackslashes(g, k - 1)
  }

  ghost predicate LineGoesOn(g: seq<Glyph>, n: nat) {
    n < |g| && g[n].ch != '\n'
  }

  /** The token at `g` is one that the lexer takes for a shorter or longer one. */
  ghost predicate Differs(g: seq<Glyph>, cxx: bool, spot: Spot)
    requires g != []
  {
    if NameAllowed(spot.stage) && HeaderName(g).Some? then
      var n := HeaderName(g).value;
      if g[0].ch == '<' then spot.stage != Including(true) || Spliced(g, n)
      else OddBackslashes(g, n - 1) && LineGoesOn(g, n)
    else if g[0].ch == '<' then
      spot.stage == Including(true) && StartsWith(g, '<', '>') && g[0].after == ""
    else
      && cxx
      && TokenLen(g, cxx, Place(spot.lineStart, false, false)).Some?
      && var n := TokenLen(g, cxx, Place(spot.lineStart, false, false)).value;
      IsLiteral(g, n) && SuffixLen(g[n..]) > 0
  }

  /** Reading by the rules, such a token is met. */
  ghost predicate Misread(g: seq<Glyph>, cxx: bool, spot: Spot)
    decreases |g|
  {
    if g == [] then false
    else if g[0].ch == '\n' then Misread(g[1..], cxx, OUTSET)
    else if IsHSpace(g[0].ch) then Misread(g[1..], cxx, spot)
    else if StartsWith(g, '/', '/') then Misread(g[2 + LineLen(g[2..])..], cxx, spot)
    else if StartsWith(g, '/', '*') then
      match BlockLen(g[2..])
      case None => false
      case Some(n) => Misread(g[2 + n..], cxx, spot)
    else if StartsWith(g, '%', ':') && spot.lineStart then Misread(g[2..], cxx, Spot(false, Naming(false)))
    else
      || Differs(g, cxx, spot)
      || match RuleLen(g, cxx, spot)
         case None => false
         case Some(n) => Misread(g[n..], cxx, Spot(false, NextStage(g, cxx, spot)))
  }

  /** What the lexer knows of a spot. */
  ghost function Known(spot: Spot): Place {
    Place(spot.lineStart, spot.stage == Naming(true), spot.stage == Including(true))
  }

  /** At the start of a line no header name is on its way. */
  ghost predicate Regular(spot: Spot) {
    spot.lineStart ==> spot.stage.Code?
  }

  // ---------------------------------------------------------------------------
  // Token by token

  /** The lexer sees a bracketed header name unless it is spliced. */
  lemma {:induction false} NameTailCut(g: seq<Glyph>)
    requires g != []
    ensures HeaderTail(g) == if NameTail(g, '>').Some? && !Spliced(g, NameTail(g, '>').value + 1) then NameTail(g, '>') else None
  {
    if |g| >= 2 && g[1].ch != '\n' && g[1].ch != '>' {
      NameTailCut(g[1..]);
      if NameTail(g, '>').Some? {
        SplicedTail(g, NameTail(g, '>').value + 1);
      }
    }
  }

  lemma SplicedTail(g: seq<Glyph>, n: nat)
    requires 2 <= n <= |g|
    ensures Spliced(g, n) <==> g[0].after != "" || Spliced(g[1..], n - 1)
  {
    if k :| 0 <= k < n - 1 && g[k].after != "" {
      assert k > 0 ==> g[1..][k - 1].after != "";
    }
    if k :| 0 <= k < n - 2 && g[1..][k].after != "" {
      assert g[k + 1].after != "";
    }
  }

  lemma {:induction false} OddTail(g: seq<Glyph>, k: nat, from: nat)
    requires from <= k <= |g| && !OddBackslashes(g, from)
    ensures OddBackslashes(g[from..], k - from) <==> OddBackslashes(g, k)
    decreases k
  {
    if k > from {
      OddTail(g, k - 1, from);
    }
  }

  lemma EscapeEnds(g: seq<Glyph>)
    requires |g| >= 2 && g[0].ch == '\\'
    ensures OddBackslashes(g, 1) && !OddBackslashes(g, 2)
  {
    assert !OddBackslashes(g, 0);
    assert OddBackslashes(g, 1);
  }

  /** A quoted name ends where a string ends, unless its closing quote is escaped and the line goes on. */
  lemma {:induction false} QuotedName(g: seq<Glyph>, k: nat)
    requires k < |g| && g[k].ch == '"' && forall i :: 0 <= i < k ==> g[i].ch != '"' && g[i].ch != '\n'
    ensures QuotedTail(g, '"') == k + 1 <==> !(OddBackslashes(g, k) && LineGoesOn(g, k + 1))
    decreases |g|
  {
    if g[0].ch != '\\' {
      if k > 0 {
        assert !OddBackslashes(g, 1);
        OddTail(g, k, 1);
        QuotedName(g[1..], k - 1);
      }
    } else if k == 1 {
      assert !OddBackslashes(g, 0) && OddBackslashes(g, 1);
    } else {
      EscapeEnds(g);
      OddTail(g, k, 2);
      QuotedName(g[2..], k - 2);
    }
  }

  lemma {:induction false} NameTailFirst(g: seq<Glyph>, end: char)
    requires g != [] && NameTail(g, end).Some?
    ensures forall i :: 1 <= i < NameTail(g, end).value ==> g[i].ch != end && g[i].ch != '\n'
  {
    if g[1].ch != end {
      NameTailFirst(g[1..], end);
      forall i | 1 <= i < NameTail(g, end).value ensures g[i].ch != end && g[i].ch != '\n' {
        if i > 1 {
          assert g[i] == g[1..][i - 1];
        }
      }
    }
  }

  lemma BracketedName(g: seq<Glyph>, cxx: bool, spot: Spot)
    requires g != [] && g[0].ch == '<' && Regular(spot)
    ensures RuleLen(g, cxx, spot).Some? && TokenLen(g, cxx, Known(spot)).Some?
    ensures RuleLen(g, cxx, spot) == TokenLen(g, cxx, Known(spot)) <==> !Differs(g, cxx, spot)
  {
    hide NameTail, HeaderTail;
    NameTailCut(g);
    if |g| >= 2 {
      OneBehind(g);
    }
  }

  lemma OneBehind(g: seq<Glyph>)
    requires |g| >= 2
    ensures NameTail(g, '>') == Some(1) <==> g[1].ch == '>'
    ensures Spliced(g, 2) <==> g[0].after != ""
  {
  }

  lemma QuotedHeader(g: seq<Glyph>, cxx: bool, spot: Spot)
    requires g != [] && g[0].ch == '"' && NameAllowed(spot.stage) && HeaderName(g).Some?
    ensures TokenLen(g, cxx, Known(spot)).Some?
    ensures HeaderName(g) == TokenLen(g, cxx, Known(spot)) <==> !Differs(g, cxx, spot)
  {
    hide NameTail, QuotedTail, OddBackslashes;
    var n := NameTail(g, '"').value;
    NameTailFirst(g, '"');
    assert forall i :: 0 <= i < n - 1 ==> g[1..][i] == g[i + 1];
    QuotedName(g[1..], n - 1);
    NotEscapedYet(g);
    OddTail(g, n, 1);
  }

  lemma NotEscapedYet(g: seq<Glyph>)
    requires g != [] && g[0].ch != '\\'
    ensures !OddBackslashes(g, 1)
  {
  }

  /** A token has the same length under both exactly when it is none of those. */
  lemma SameLength(g: seq<Glyph>, cxx: bool, spot: Spot)
    requires g != [] && Regular(spot)
    ensures RuleLen(g, cxx, spot).Some? <==> TokenLen(g, cxx, Known(spot)).Some?
    ensures RuleLen(g, cxx, spot).Some? ==> (RuleLen(g, cxx, spot) == TokenLen(g, cxx, Known(spot)) <==> !Differs(g, cxx, spot))
  {
    hide NameTail, HeaderName, WordLen, OtherLen, HeaderLen, IdentLen, SuffixLen, OddBackslashes;
    if g[0].ch == '<' {
      BracketedName(g, cxx, spot);
    } else if NameAllowed(spot.stage) && HeaderName(g).Some? {
      QuotedHeader(g, cxx, spot);
    }
  }

  /** What the lexer knows stays in step. */
  lemma NextKnown(g: seq<Glyph>, cxx: bool, spot: Spot)
    requires g != [] && Regular(spot)
    ensures NextPlace(g, cxx, Known(spot)) == Known(Spot(false, NextStage(g, cxx, spot)))
  {
    hide IdentLen, RawLen, QuotedTail, Chars;
  }

  // ---------------------------------------------------------------------------
  // Text by text

  /** The digraph at a line's start: two characters to the lexer, and no directive. */
  lemma DigraphStep(g: seq<Glyph>, cxx: bool, place: Place)
    requires StartsWith(g, '%', ':')
    ensures Phase3(g, cxx, place) == Before(["%", ":"], 0, Phase3(g[2..], cxx, Place(false, false, false)))
  {
    hide Phase3;
    var h, p := g[1..], Place(false, false, false);
    assert h[1..] == g[2..];
    OneCharacter(g, cxx, place);
    OneCharacter(h, cxx, p);
    var later := Phase3(g[2..], cxx, p);
    if later.Lexed? {
      assert ["%"] + ([":"] + later.tokens) == ["%", ":"] + later.tokens;
    }
  }

  /** The characters of the digraph are tokens of their own. */
  lemma OneCharacter(g: seq<Glyph>, cxx: bool, place: Place)
    requires g != [] && (g[0].ch == '%' || g[0].ch == ':')
    ensures Phase3(g, cxx, place) == Before([[g[0].ch]], 0, Phase3(g[1..], cxx, Place(false, false, false)))
  {
    hide LineLen, BlockLen;
    assert TokenLen(g, cxx, place) == Some(1);
    assert Chars(g[..1]) == [g[0].ch];
  }

  ghost predicate SomeLexed(g: seq<Glyph>, cxx: bool, spot: Spot) {
    Phase3(g, cxx, Known(spot)).Lexed? || Read(g, cxx, spot).Lexed?
  }

  ghost predicate Agree(g: seq<Glyph>, cxx: bool, spot: Spot) {
    Phase3(g, cxx, Known(spot)) == Read(g, cxx, spot)
  }

  lemma {:induction false} Differences(g: seq<Glyph>, cxx: bool, spot: Spot)
    requires Regular(spot) && SomeLexed(g, cxx, spot)
    ensures Agree(g, cxx, spot) <==> !Misread(g, cxx, spot)
    decreases |g|, 1
  {
    hide LineLen, BlockLen, TokenLen, RuleLen, Differs, NextPlace, NextStage, Before, Chars;
    if g == [] {
    } else if g[0].ch == '\n' {
      Differences(g[1..], cxx, OUTSET);
    } else if IsHSpace(g[0].ch) {
      Differences(g[1..], cxx, spot);
    } else if StartsWith(g, '/', '/') {
      Onward(g, 2 + LineLen(g[2..]), [], 1, cxx, spot);
    } else if StartsWith(g, '/', '*') {
      if BlockLen(g[2..]).Some? {
        Onward(g, 2 + BlockLen(g[2..]).value, [], 1, cxx, spot);
      }
    } else if StartsWith(g, '%', ':') && spot.lineStart {
      DigraphStep(g, cxx, Known(spot));
      Onward(g, 2, ["%", ":"], 0, cxx, Spot(false, Naming(false)));
    } else {
      SameLength(g, cxx, spot);
      NextKnown(g, cxx, spot);
      if RuleLen(g, cxx, spot).Some? {
        var m, n, next := TokenLen(g, cxx, Known(spot)).value, RuleLen(g, cxx, spot).value, Spot(false, NextStage(g, cxx, spot));
        if m == n {
          Onward(g, n, [Chars(g[..n])], 0, cxx, next);
        } else {
          BeforeDiffers(g, m, n, Phase3(g[m..], cxx, Known(next)), Read(g[n..], cxx, next));
        }
      }
    }
  }

  /** One step that both take alike. */
  lemma {:induction false} Onward(g: seq<Glyph>, n: nat, tokens: seq<string>, comments: nat, cxx: bool, next: Spot)
    requires 1 <= n <= |g| && Regular(next)
    requires Before(tokens, comments, Phase3(g[n..], cxx, Known(next))).Lexed?
             || Before(tokens, comments, Read(g[n..], cxx, next)).Lexed?
    ensures Before(tokens, comments, Phase3(g[n..], cxx, Known(next))) == Before(tokens, comments, Read(g[n..], cxx, next))
            <==> !Misread(g[n..], cxx, next)
    decreases |g|, 0
  {
    hide Phase3, Read, Misread, Before;
    var a, b := Phase3(g[n..], cxx, Known(next)), Read(g[n..], cxx, next);
    BeforeSame(tokens, comments, a, b);
    BeforeSame(tokens, comments, b, a);
    Differences(g[n..], cxx, next);
  }

  /** For every text that one of them can read: the lexer reads it by the rules exactly when no header
      name and no suffix of a literal is misread. */
  lemma LexFollowsRules(text: string, cxx: bool)
    requires Lex(text, cxx).Lexed? || LexByRules(text, cxx).Lexed?
    ensures Lex(text, cxx) == LexByRules(text, cxx) <==> !Misread(Phase2(text), cxx, OUTSET)
  {
    hide Phase3, Read, Misread, Phase2;
    Differences(Phase2(text), cxx, OUTSET);
  }

  // ---------------------------------------------------------------------------
  // The differences occur

  /** Text without a block comment or a raw string can be read. */
  lemma {:induction false} Readable(g: seq<Glyph>, cxx: bool, spot: Spot)
    requires forall i :: 0 <= i < |g| ==> g[i].ch != '*' && g[i].ch != 'R'
    ensures Read(g, cxx, spot).Lexed?
    decreases |g|
  {
    hide LineLen, BlockLen, RuleLen, NextStage, Chars;
    if g == [] {
    } else if g[0].ch == '\n' {
      Readable(g[1..], cxx, OUTSET);
    } else if IsHSpace(g[0].ch) {
      Readable(g[1..], cxx, spot);
    } else if StartsWith(g, '/', '/') {
      Readable(g[2 + LineLen(g[2..])..], cxx, spot);
    } else if StartsWith(g, '%', ':') && spot.lineStart {
      Readable(g[2..], cxx, Spot(false, Naming(false)));
    } else {
      HasLength(g, cxx, spot);
      Readable(g[RuleLen(g, cxx, spot).value..], cxx, Spot(false, NextStage(g, cxx, spot)));
    }
  }

  lemma HasLength(g: seq<Glyph>, cxx: bool, spot: Spot)
    requires g != [] && forall i :: 0 <= i < |g| ==> g[i].ch != '*' && g[i].ch != 'R'
    ensures RuleLen(g, cxx, spot).Some?
  {
    if IsIdentStart(g[0].ch) {
      var ident := Chars(g[..IdentLen(g)]);
      assert 'R' !in ident;
      NotRaw(ident);
    }
  }

  lemma NotRaw(ident: string)
    requires 'R' !in ident
    ensures !IsRawPrefix(ident)
  {
    assert "R"[0] == 'R' && "u8R"[2] == 'R' && "uR"[1] == 'R' && "UR"[1] == 'R' && "LR"[1] == 'R';
  }

  /** From index `k` on a token is misread. */
  ghost predicate MisreadAt(g: seq<Glyph>, k: nat, cxx: bool, spot: Spot)
    requires k <= |g|
  {
    Misread(g[k..], cxx, spot)
  }

  lemma WordAt(g: seq<Glyph>, n: nat, cxx: bool)
    requires 1 <= n < |g| && IsIdentStart(g[0].ch) && forall i :: 0 <= i < n ==> IsIdentChar(g[i].ch)
    requires EndsWord(g[n].ch)
    ensures IdentLen(g) == n && IsWord(g, cxx)
  {
    hide IdentLen, Chars;
    IdentCount(g, n);
  }

  predicate IsIdentifier(word: string) {
    word != [] && IsIdentStart(word[0]) && forall i :: 0 <= i < |word| ==> IsIdentChar(word[i])
  }

  predicate EndsWord(ch: char) {
    !IsIdentChar(ch) && ch != '"' && ch != '\''
  }

  lemma OverWord(g: seq<Glyph>, k: nat, word: string, cxx: bool, spot: Spot, stage: Stage)
    requires IsIdentifier(word) && k + |word| < |g| && Chars(g[k..k + |word|]) == word && EndsWord(g[k + |word|].ch)
    requires stage == AfterWord(word, cxx, spot)
    ensures MisreadAt(g, k + |word|, cxx, Spot(false, stage)) ==> MisreadAt(g, k, cxx, spot)
  {
    hide IdentLen, WordLen, LineLen, BlockLen, AfterWord, HeaderName;
    var h, n := g[k..], |word|;
    assert forall i :: 0 <= i < n ==> h[i].ch == word[i];
    WordAt(h, n, cxx);
    assert h[..n] == g[k..k + n];
    assert h[n..] == g[k + n..];
    WordOnly(h, n, cxx, spot);
  }

  lemma WordOnly(g: seq<Glyph>, n: nat, cxx: bool, spot: Spot)
    requires g != [] && IdentLen(g) == n && IsWord(g, cxx)
    ensures RuleLen(g, cxx, spot) == Some(n) && NextStage(g, cxx, spot) == AfterWord(Chars(g[..n]), cxx, spot)
  {
    hide IdentLen, WordLen, Chars, AfterWord;
  }

  lemma OverBlank(g: seq<Glyph>, k: nat, cxx: bool, spot: Spot)
    requires k < |g| && g[k].ch == ' '
    ensures MisreadAt(g, k + 1, cxx, spot) ==> MisreadAt(g, k, cxx, spot)
  {
    assert g[k..][1..] == g[k + 1..];
  }

  lemma OverHash(g: seq<Glyph>, cxx: bool)
    requires g != [] && g[0].ch == '#'
    ensures MisreadAt(g, 1, cxx, Spot(false, Naming(true))) ==> Misread(g, cxx, OUTSET)
  {
    hide LineLen, BlockLen, HeaderName, SuffixLen, IsWord;
  }

  lemma OverDigraph(g: seq<Glyph>, cxx: bool)
    requires StartsWith(g, '%', ':')
    ensures MisreadAt(g, 2, cxx, Spot(false, Naming(false))) ==> Misread(g, cxx, OUTSET)
  {
    hide LineLen, BlockLen, RuleLen, Differs, NextStage;
  }

  lemma OverParenthesis(g: seq<Glyph>, k: nat, cxx: bool)
    requires k < |g| && g[k].ch == '('
    ensures MisreadAt(g, k + 1, cxx, Spot(false, HasIncludeOpen)) ==> MisreadAt(g, k, cxx, Spot(false, HasInclude))
  {
    hide LineLen, BlockLen, HeaderName, SuffixLen, WordLen;
    assert g[k..][1..] == g[k + 1..];
  }

  lemma {:induction false} NameCount(g: seq<Glyph>, end: char, n: nat)
    requires 1 <= n < |g| && g[n].ch == end != '\n' && forall i :: 1 <= i < n ==> g[i].ch != end && g[i].ch != '\n'
    ensures NameTail(g, end) == Some(n)
  {
    if n > 1 {
      NameCount(g[1..], end, n - 1);
    }
  }

  /** A bracketed header name that the lexer does not expect, or that a splice cuts. */
  lemma AtName(g: seq<Glyph>, k: nat, n: nat, cxx: bool, stage: Stage)
    requires 2 <= n && k + n < |g| && g[k].ch == '<' && g[k + n].ch == '>'
    requires forall i :: k < i < k + n ==> g[i].ch != '>' && g[i].ch != '\n'
    requires NameAllowed(stage) && (stage != Including(true) || exists i :: k <= i < k + n && g[i].after != "")
    ensures MisreadAt(g, k, cxx, Spot(false, stage))
  {
    hide NameTail, LineLen, BlockLen, RuleLen, NextStage;
    NameCount(g[k..], '>', n);
    if i :| k <= i < k + n && g[i].after != "" {
      assert g[k..][i - k].after != "";
    }
  }

  /** A quoted header name whose closing quote the lexer takes for an escaped one. */
  lemma AtQuotedName(g: seq<Glyph>, k: nat, n: nat, cxx: bool)
    requires 3 <= n && k + n + 1 < |g| && g[k].ch == '"' && g[k + n].ch == '"' && g[k + n + 1].ch != '\n'
    requires forall i :: k < i < k + n ==> g[i].ch != '"' && g[i].ch != '\n'
    requires g[k + n - 1].ch == '\\' && g[k + n - 2].ch != '\\'
    ensures MisreadAt(g, k, cxx, Spot(false, Including(true)))
  {
    hide NameTail, LineLen, BlockLen, RuleLen, NextStage;
    var h := g[k..];
    NameCount(h, '"', n);
    assert !OddBackslashes(h, n - 1);
    assert OddBackslashes(h, n);
  }

  lemma SpliceFreeText(text: string)
    requires forall j :: 0 <= j <= |text| ==> SpliceLen(text, j) == 0
    ensures Phase2(text) == Plain(text)
  {
    hide Glyphs, SpliceLen;
    SpliceFree(text, 0, |text|);
    NothingAfter(text);
    assert text[0..|text|] == text;
  }

  lemma PlainText(text: string)
    requires '\\' !in text
    ensures Phase2(text) == Plain(text)
  {
    SpliceFreeText(text);
  }

  lemma Different(text: string, g: seq<Glyph>, cxx: bool)
    requires Phase2(text) == g && Misread(g, cxx, OUTSET)
    requires forall i :: 0 <= i < |g| ==> g[i].ch != '*' && g[i].ch != 'R'
    ensures Lex(text, cxx) != LexByRules(text, cxx)
  {
    hide Misread, Read, Phase3, Phase2;
    Readable(g, cxx, OUTSET);
    LexFollowsRules(text, cxx);
  }

  /** From the directive `#include ` on. */
  lemma OverInclude(g: seq<Glyph>, cxx: bool)
    requires |g| > 9 && Chars(g[..9]) == "#include "
    ensures MisreadAt(g, 9, cxx, Spot(false, Including(true))) ==> Misread(g, cxx, OUTSET)
  {
    hide Misread;
    var word := "include";
    assert forall i :: 0 <= i < 9 ==> g[i].ch == Chars(g[..9])[i];
    assert Chars(g[1..8]) == word;
    OverHash(g, cxx);
    OverWord(g, 1, word, cxx, Spot(false, Naming(true)), Including(true));
    OverBlank(g, 8, cxx, Spot(false, Including(true)));
  }

  lemma OneSplice(s: string, j: nat)
    requires j + 2 <= |s| && s[j] == '\\' && s[j + 1] == '\n' && (j + 2 < |s| ==> s[j + 2] != '\\')
    ensures SpliceLen(s, j) == 2 && SkipSplices(s, j) == j + 2 && Glyphs(s, j) == Glyphs(s, j + 2)
  {
    assert SkipBlanks(s, j + 1) == j + 1;
    NoSplice(s, j + 2);
  }

  /** Text with one splice. */
  lemma SplicedOnce(a: string, c: char, b: string)
    requires '\\' !in a && '\\' !in b && c != '\\'
    ensures Phase2(a + [c] + "\\\n" + b) == Plain(a) + [Glyph(c, "\\\n")] + Plain(b)
  {
    hide Glyphs, SpliceLen, SkipSplices;
    var s, n := a + [c] + "\\\n" + b, |a|;
    assert s[n] == c && s[n + 1] == '\\' && s[n + 2] == '\n' && s[n + 1..n + 3] == "\\\n";
    assert s[0..n] == a && s[n + 3..|s|] == b;
    NoSplice(s, n);
    PlainGlyphs(s, 0, n);
    OneSplice(s, n + 1);
    PlainStep(s, n);
    NothingAfter(s);
    NoSplice(s, |s|);
    PlainGlyphs(s, n + 3, |s|);
  }

  /** A header name cut by a splice, whose slashes the lexer takes for a comment. */
  lemma SplicedHeaderDiffers(cxx: bool)
    ensures var text := "#include <a//\\\nb>\n"; Lex(text, cxx) != LexByRules(text, cxx)
  {
    hide Misread, Phase2, Lex, LexByRules;
    var text := "#include <a//\\\nb>\n";
    assert text == "#include <a/" + "/" + "\\\n" + "b>\n";
    SplicedOnce("#include <a/", '/', "b>\n");
    var g := Plain("#include <a/") + [Glyph('/', "\\\n")] + Plain("b>\n");
    assert Chars(g[..9]) == "#include ";
    OverInclude(g, cxx);
    assert g[12].after != "";
    AtName(g, 9, 5, cxx, Including(true));
    Different(text, g, cxx);
  }

  lemma OverPlainWord(a: string, word: string, b: string, cxx: bool, spot: Spot, stage: Stage)
    requires IsIdentifier(word) && b != "" && EndsWord(b[0]) && stage == AfterWord(word, cxx, spot)
    ensures var g := Plain(a + word + b);
            MisreadAt(g, |a| + |word|, cxx, Spot(false, stage)) ==> MisreadAt(g, |a|, cxx, spot)
  {
    hide MisreadAt, AfterWord, IsIdentifier, EndsWord;
    var g := Plain(a + word + b);
    assert Chars(g[|a|..|a| + |word|]) == word;
    OverWord(g, |a|, word, cxx, spot, stage);
  }

  lemma PlainName(a: string, b: string, cxx: bool, stage: Stage)
    requires NameAllowed(stage) && stage != Including(true)
    ensures MisreadAt(Plain(a + "<a//b>" + b), |a|, cxx, Spot(false, stage))
  {
    hide MisreadAt;
    AtName(Plain(a + "<a//b>" + b), |a|, 5, cxx, stage);
  }

  lemma PlainDifferent(text: string, cxx: bool)
    requires '\\' !in text && '*' !in text && 'R' !in text && Misread(Plain(text), cxx, OUTSET)
    ensures Lex(text, cxx) != LexByRules(text, cxx)
  {
    hide Misread, Phase2, Lex, LexByRules;
    PlainText(text);
    Different(text, Plain(text), cxx);
  }

  /** A word, a blank and a header name. */
  lemma WordAndName(a: string, word: string, b: string, cxx: bool, spot: Spot, stage: Stage)
    requires IsIdentifier(word) && stage == AfterWord(word, cxx, spot) && NameAllowed(stage) && stage != Including(true)
    ensures MisreadAt(Plain(a + word + (" <a//b>" + b)), |a|, cxx, spot)
  {
    hide MisreadAt, AfterWord, IsIdentifier;
    var rest := " <a//b>" + b;
    var text := a + word + rest;
    OverPlainWord(a, word, rest, cxx, spot, stage);
    OverBlank(Plain(text), |a| + |word|, cxx, Spot(false, stage));
    assert text == (a + word + " ") + "<a//b>" + b;
    PlainName(a + word + " ", b, cxx, stage);
  }

  /** A header named by a digraph directive. */
  lemma DigraphHeaderDiffers(cxx: bool)
    ensures var text := "%:include <a//b>\n"; Lex(text, cxx) != LexByRules(text, cxx)
  {
    hide Misread, MisreadAt, Lex, LexByRules, AfterWord;
    var text := "%:include <a//b>\n";
    DigraphMisread(cxx);
    PlainDifferent(text, cxx);
  }

  lemma DigraphMisread(cxx: bool)
    ensures Misread(Plain("%:include <a//b>\n"), cxx, OUTSET)
  {
    hide Misread, MisreadAt;
    var text := "%:include <a//b>\n";
    assert text == "%:" + "include" + (" <a//b>" + "\n");
    WordAndName("%:", "include", "\n", cxx, Spot(false, Naming(false)), Including(false));
    OverDigraph(Plain(text), cxx);
  }

  /** A header that a condition asks for. */
  lemma HasIncludeDiffers(cxx: bool)
    ensures var text := "#if __has_include(<a//b>)\n"; Lex(text, cxx) != LexByRules(text, cxx)
  {
    hide Misread, MisreadAt, Lex, LexByRules;
    ConditionMisread(cxx);
    PlainDifferent("#if __has_include(<a//b>)\n", cxx);
  }

  lemma ConditionMisread(cxx: bool)
    ensures Misread(Plain("#if __has_include(<a//b>)\n"), cxx, OUTSET)
  {
    hide Misread, MisreadAt;
    AskingMisread(cxx);
    assert "#if __has_include(<a//b>)\n" == "#if " + "__has_include(<a//b>)\n";
    OverIf("__has_include(<a//b>)\n", cxx);
  }

  lemma OverIf(rest: string, cxx: bool)
    ensures MisreadAt(Plain("#if " + rest), 4, cxx, Spot(false, Condition)) ==> Misread(Plain("#if " + rest), cxx, OUTSET)
  {
    hide Misread, MisreadAt;
    var text := "#if " + rest;
    OverBlank(Plain(text), 3, cxx, Spot(false, Condition));
    assert text == "#" + "if" + (" " + rest);
    OverPlainWord("#", "if", " " + rest, cxx, Spot(false, Naming(true)), Condition);
    OverHash(Plain(text), cxx);
  }

  lemma AskingMisread(cxx: bool)
    ensures MisreadAt(Plain("#if __has_include(<a//b>)\n"), 4, cxx, Spot(false, Condition))
  {
    hide Misread, MisreadAt, IsIdentifier;
    assert "#if __has_include(<a//b>)\n" == "#if " + "__has_include" + ("(<a//b>" + ")\n");
    HasIncludeWord();
    AskAndName("#if ", "__has_include", ")\n", cxx);
  }

  lemma HasIncludeWord()
    ensures IsIdentifier("__has_include")
  {
  }

  /** A word that asks for a header, and the header. */
  lemma AskAndName(a: string, word: string, b: string, cxx: bool)
    requires IsIdentifier(word) && AsksForHeader(word, cxx)
    ensures MisreadAt(Plain(a + word + ("(<a//b>" + b)), |a|, cxx, Spot(false, Condition))
  {
    hide MisreadAt, IsIdentifier, AsksForHeader;
    var rest := "(<a//b>" + b;
    var text := a + word + rest;
    OverPlainWord(a, word, rest, cxx, Spot(false, Condition), HasInclude);
    OverParenthesis(Plain(text), |a| + |word|, cxx);
    assert text == (a + word + "(") + "<a//b>" + b;
    PlainName(a + word + "(", b, cxx, HasIncludeOpen);
  }

  /** A header that a line of C++ imports. */
  lemma ImportDiffers()
    ensures var text := "import <a//b>;\n"; Lex(text, true) != LexByRules(text, true)
  {
    hide Misread, Lex, LexByRules;
    var text := "import <a//b>;\n";
    ImportMisread();
    PlainDifferent(text, true);
  }

  lemma ImportMisread()
    ensures Misread(Plain("import <a//b>;\n"), true, OUTSET)
  {
    hide Misread;
    var text := "import <a//b>;\n";
    assert text == "" + "import" + (" <a//b>" + ";\n");
    WordAndName("", "import", ";\n", true, OUTSET, Including(false));
    assert Plain(text)[0..] == Plain(text);
  }

  /** A quoted header name that ends in a backslash. */
  lemma QuotedHeaderDiffers(cxx: bool)
    ensures var text := "#include \"a\\\"//b\"\n"; Lex(text, cxx) != LexByRules(text, cxx)
  {
    hide Misread, Phase2, Lex, LexByRules, MisreadAt, Chars;
    var text, name := "#include \"a\\\"//b\"\n", "\"a\\\"//b\"\n";
    var g := Plain("#include " + name);
    assert text == "#include " + name;
    OnlyEscape(text);
    Directive(name);
    OverInclude(g, cxx);
    AtQuotedName(g, 9, 3, cxx);
    Different(text, g, cxx);
  }

  lemma Directive(name: string)
    ensures Chars(Plain("#include " + name)[..9]) == "#include "
  {
    assert ("#include " + name)[..9] == "#include ";
    var g := Plain("#include " + name)[..9];
    assert forall i :: 0 <= i < 9 ==> Chars(g)[i] == ("#include " + name)[..9][i];
  }

  /** An escaped character that is no blank is no splice. */
  lemma OnlyEscape(text: string)
    requires forall j :: 0 <= j < |text| && text[j] == '\\' ==> j + 1 < |text| && text[j + 1] == '"'
    ensures Phase2(text) == Plain(text)
  {
    SpliceFreeText(text);
  }

  /** A literal with a suffix. */
  lemma SuffixDiffers()
    ensures var text := "\"\"b\n"; Lex(text, true) != LexByRules(text, true)
  {
    hide Phase2, Lex, LexByRules;
    var text := "\"\"b\n";
    var g := Plain(text);
    PlainText(text);
    assert QuotedTail(g[1..], '"') == 1;
    assert TokenLen(g, true, START) == Some(2);
    assert g[2..][0].ch == 'b';
    Different(text, g, true);
  }
}
