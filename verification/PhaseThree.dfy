/** Translation phase 3, as the one-pass lexer takes it, on text whose line splices are gone: the
    reference the lexer is measured against. Splices matter here in two places only: a header name does
    not continue over one, and a raw string is delimited by the original text. How this compares with
    the token rules of the language standards is the subject of TokenRules. */
module PhaseThree {
  import opened Basics
  import opened SplicedText
  import opened Strings

  // ---------------------------------------------------------------------------
  // Character classes

  predicate IsDigit(ch: char) {
    '0' <= ch <= '9'
  }

  predicate IsIdentStart(ch: char) {
    'a' <= ch <= 'z' || 'A' <= ch <= 'Z' || ch == '_' || ch == '$' || ch as int > 127
  }

  predicate IsIdentChar(ch: char) {
    IsIdentStart(ch) || IsDigit(ch)
  }

  predicate IsHSpace(ch: char) {
    IsBlank(ch) || ch == '\r'
  }

  predicate IsStringPrefix(word: string) {
    word in {"u8", "u", "U", "L"}
  }

  predicate IsRawPrefix(word: string) {
    word in {"R", "u8R", "uR", "UR", "LR"}
  }

  predicate NamesHeader(word: string) {
    word in {"include", "include_next", "import"}
  }

  // ---------------------------------------------------------------------------
  // Lengths of tokens and comments, in logical characters

  ghost function IdentLen(g: seq<Glyph>): (n: nat)
    ensures n <= |g|
  {
    if g == [] || !IsIdentChar(g[0].ch) then 0 else 1 + IdentLen(g[1..])
  }

  lemma {:induction false} IdentCount(g: seq<Glyph>, n: nat)
    requires n < |g| && (forall i :: 0 <= i < n ==> IsIdentChar(g[i].ch)) && !IsIdentChar(g[n].ch)
    ensures IdentLen(g) == n
  {
    if n > 0 {
      IdentCount(g[1..], n - 1);
    }
  }

  /** Characters of a // comment: up to the end of the logical line. */
  ghost function LineLen(g: seq<Glyph>): (n: nat)
    ensures n <= |g|
  {
    if g == [] || g[0].ch == '\n' then 0 else 1 + LineLen(g[1..])
  }

  /** Characters of a block comment after its opening, including the closing star and slash. */
  ghost function BlockLen(g: seq<Glyph>): (r: Option<nat>)
    ensures r.Some? ==> 2 <= r.value <= |g|
  {
    if g == [] then None
    else if |g| >= 2 && g[0].ch == '*' && g[1].ch == '/' then Some(2)
    else match BlockLen(g[1..])
      case None => None
      case Some(n) => Some(n + 1)
  }

  predicate IsSign(ch: char) {
    ch == '+' || ch == '-'
  }

  predicate IsExponent(ch: char) {
    ch == 'e' || ch == 'E' || ch == 'p' || ch == 'P'
  }

  /** Whether a preprocessing number goes on with the next character. */
  predicate NumberGoesOn(ch: char, prev: char, following: Option<char>) {
    if IsSign(ch) && IsExponent(prev) then true
    else if ch == '\'' then following.Some? && IsIdentChar(following.value)
    else IsIdentChar(ch) || ch == '.'
  }

  ghost function Following(g: seq<Glyph>): Option<char> {
    if |g| >= 2 then Some(g[1].ch) else None
  }

  ghost function NumberTail(g: seq<Glyph>, prev: char): (n: nat)
    ensures n <= |g|
  {
    if g == [] || !NumberGoesOn(g[0].ch, prev, Following(g)) then 0 else 1 + NumberTail(g[1..], g[0].ch)
  }

  /** Characters of a string or character literal after its opening quote. */
  ghost function QuotedTail(g: seq<Glyph>, quote: char): (n: nat)
    ensures n <= |g|
  {
    if g == [] || g[0].ch == '\n' then 0
    else if g[0].ch == '\\' then
      if |g| < 2 || g[1].ch == '\n' then 1 else 2 + QuotedTail(g[2..], quote)
    else if g[0].ch == quote then 1
    else 1 + QuotedTail(g[1..], quote)
  }

  /** Characters from one character of a header name, exclusive, to its closing bracket. */
  ghost function HeaderTail(g: seq<Glyph>): (r: Option<nat>)
    requires g != []
    ensures r.Some? ==> 1 <= r.value < |g|
  {
    if g[0].after != "" || |g| < 2 || g[1].ch == '\n' then None
    else if g[1].ch == '>' then Some(1)
    else match HeaderTail(g[1..])
      case None => None
      case Some(n) => Some(n + 1)
  }

  ghost function HeaderLen(g: seq<Glyph>): (n: nat)
    requires g != []
    ensures 1 <= n <= |g|
  {
    match HeaderTail(g)
    case None => 1
    case Some(n) => n + 1
  }

  /** The original text of logical characters. */
  ghost function Raw(g: seq<Glyph>): string {
    if g == [] then "" else [g[0].ch] + g[0].after + Raw(g[1..])
  }

  /** How many logical characters start within the first `m` characters of their original text. */
  ghost function GlyphsWithin(g: seq<Glyph>, m: int): (n: nat)
    ensures n <= |g|
  {
    if g == [] || m <= 0 then 0 else 1 + GlyphsWithin(g[1..], m - 1 - |g[0].after|)
  }

  predicate BadDelimiter(ch: char) {
    ch == ' ' || ch == '(' || ch == ')' || ch == '\\' || ch == '\t' || ch == '\U{B}' || ch == '\U{C}' || ch == '\n'
  }

  /** End of the raw string whose opening quote is `s[j]`, in the original text. */
  function RawEnd(s: string, j: nat): (r: Option<nat>)
    requires j < |s|
    ensures r.Some? ==> j + 2 < r.value <= |s| && s[r.value - 1] == '"'
  {
    var open := FindBefore(s, "(", j + 1, j + 18);
    if open < 0 then None else
    var delim := s[j + 1..open];
    if exists k :: 0 <= k < |delim| && BadDelimiter(delim[k]) then None else
    var close := FindBefore(s, ")" + delim + "\"", open + 1, |s|);
    if close < 0 then None else
    assert (")" + delim + "\"")[|delim| + 1] == '"' == s[close..close + (|delim| + 2)][|delim| + 1];
    Some(close + |delim| + 2)
  }

  /** Logical characters of a raw string from its opening quote on. */
  ghost function RawLen(g: seq<Glyph>): (r: Option<nat>)
    requires g != []
    ensures r.Some? ==> 1 <= r.value <= |g|
  {
    match RawEnd(Raw(g), 0)
    case None => None
    case Some(m) => Some(GlyphsWithin(g, m))
  }

  // ---------------------------------------------------------------------------
  // The lexer

  datatype Lexed = Failed | Lexed(tokens: seq<string>, comments: nat)

  /** Where in a line, and in a directive, the lexer is. */
  datatype Place = Place(lineStart: bool, namePending: bool, headerAllowed: bool)

  const START := Place(true, false, false)

  /** Put what has been read before in front of what is read later. */
  ghost function Before(tokens: seq<string>, comments: nat, later: Lexed): Lexed {
    match later
    case Failed => Failed
    case Lexed(tokens', comments') => Lexed(tokens + tokens', comments + comments')
  }

  ghost predicate StartsWith(g: seq<Glyph>, a: char, b: char) {
    |g| >= 2 && g[0].ch == a && g[1].ch == b
  }

  /** What an identifier turns out to be: a plain one, or the prefix of a literal. */
  ghost function WordLen(g: seq<Glyph>, cxx: bool): (r: Option<nat>)
    requires g != [] && IsIdentStart(g[0].ch)
    ensures r.Some? ==> 1 <= r.value <= |g|
  {
    var n := IdentLen(g);
    var ident := Chars(g[..n]);
    if cxx && IsRawPrefix(ident) && n < |g| && g[n].ch == '"' then
      match RawLen(g[n..])
      case None => None
      case Some(m) => Some(n + m)
    else if IsStringPrefix(ident) && n < |g| && (g[n].ch == '"' || g[n].ch == '\'') then
      Some(n + 1 + QuotedTail(g[n + 1..], g[n].ch))
    else Some(n)
  }

  /** Whether a header name may follow this identifier. */
  ghost predicate OpensHeader(g: seq<Glyph>, cxx: bool, place: Place)
    requires g != [] && IsIdentStart(g[0].ch)
  {
    var n := IdentLen(g);
    var ident := Chars(g[..n]);
    && !(cxx && IsRawPrefix(ident) && n < |g| && g[n].ch == '"')
    && !(IsStringPrefix(ident) && n < |g| && (g[n].ch == '"' || g[n].ch == '\''))
    && place.namePending
    && NamesHeader(ident)
  }

  /** Whether the first `m` characters, an identifier, prefix a literal. */
  ghost predicate Prefixes(g: seq<Glyph>, m: nat, cxx: bool, raw: bool)
    requires m <= |g|
  {
    if raw then cxx && IsRawPrefix(Chars(g[..m])) && m < |g| && g[m].ch == '"'
    else IsStringPrefix(Chars(g[..m])) && m < |g| && (g[m].ch == '"' || g[m].ch == '\'')
  }

  /** A word by what its identifier prefixes. */
  lemma WordOf(g: seq<Glyph>, cxx: bool, place: Place)
    requires g != [] && IsIdentStart(g[0].ch)
    ensures var m := IdentLen(g);
            WordLen(g, cxx) ==
            if Prefixes(g, m, cxx, true) then
              if RawLen(g[m..]).None? then None else Some(m + RawLen(g[m..]).value)
            else if Prefixes(g, m, cxx, false) then Some(m + 1 + QuotedTail(g[m + 1..], g[m].ch))
            else Some(m)
    ensures var m := IdentLen(g);
            OpensHeader(g, cxx, place) <==>
            !Prefixes(g, m, cxx, true) && !Prefixes(g, m, cxx, false) && place.namePending && NamesHeader(Chars(g[..m]))
  {
    hide IdentLen, QuotedTail, RawLen, Chars, IsRawPrefix, IsStringPrefix, NamesHeader;
  }

  /** Length of a token that is neither an identifier nor a header name. */
  ghost function OtherLen(g: seq<Glyph>): (n: nat)
    requires g != []
    ensures 1 <= n <= |g|
  {
    if IsDigit(g[0].ch) || (g[0].ch == '.' && |g| >= 2 && IsDigit(g[1].ch)) then
      1 + NumberTail(g[1..], ' ')
    else if g[0].ch == '"' || g[0].ch == '\'' then 1 + QuotedTail(g[1..], g[0].ch)
    else 1
  }

  /** Length of the token at `g`; none when a raw string is malformed. */
  ghost function TokenLen(g: seq<Glyph>, cxx: bool, place: Place): (r: Option<nat>)
    requires g != []
    ensures r.Some? ==> 1 <= r.value <= |g|
  {
    if g[0].ch == '#' && place.lineStart then Some(1)
    else if g[0].ch == '<' && place.headerAllowed then Some(HeaderLen(g))
    else if IsIdentStart(g[0].ch) then WordLen(g, cxx)
    else Some(OtherLen(g))
  }

  /** Where the lexer is after the token at `g`. */
  ghost function NextPlace(g: seq<Glyph>, cxx: bool, place: Place): Place
    requires g != []
  {
    if g[0].ch == '#' && place.lineStart then Place(false, true, place.headerAllowed)
    else if g[0].ch == '<' && place.headerAllowed then place.(headerAllowed := false)
    else if IsIdentStart(g[0].ch) then Place(false, false, OpensHeader(g, cxx, place))
    else Place(false, false, false)
  }

  ghost function Phase3(g: seq<Glyph>, cxx: bool, place: Place): Lexed
    decreases |g|
  {
    if g == [] then Lexed([], 0)
    else if g[0].ch == '\n' then Phase3(g[1..], cxx, START)
    else if IsHSpace(g[0].ch) then Phase3(g[1..], cxx, place)
    else if StartsWith(g, '/', '/') then
      Before([], 1, Phase3(g[2 + LineLen(g[2..])..], cxx, place))
    else if StartsWith(g, '/', '*') then
      match BlockLen(g[2..])
      case None => Failed
      case Some(n) => Before([], 1, Phase3(g[2 + n..], cxx, place))
    else
      match TokenLen(g, cxx, place)
      case None => Failed
      case Some(n) => Before([Chars(g[..n])], 0, Phase3(g[n..], cxx, NextPlace(g, cxx, place)))
  }

  /** Phases 2 and 3 of a source text. */
  ghost function Lex(text: string, cxx: bool): Lexed {
    Phase3(Phase2(text), cxx, START)
  }

  /** Reading on after equal tokens, the results are equal exactly when the rests are. */
  lemma BeforeSame(tokens: seq<string>, comments: nat, a: Lexed, b: Lexed)
    ensures Before(tokens, comments, a) == Before(tokens, comments, b) <==> a == b
    ensures Before(tokens, comments, a).Lexed? <==> a.Lexed?
  {
    if a.Lexed? && b.Lexed? && Before(tokens, comments, a) == Before(tokens, comments, b) {
      var n := |tokens|;
      assert a.tokens == (tokens + a.tokens)[n..];
      assert b.tokens == (tokens + b.tokens)[n..];
    }
  }

  lemma BeforeDiffers(g: seq<Glyph>, m: nat, n: nat, a: Lexed, b: Lexed)
    requires m <= |g| && n <= |g| && m != n
    requires var a', b' := Before([Chars(g[..m])], 0, a), Before([Chars(g[..n])], 0, b); a'.Lexed? || b'.Lexed?
    ensures Before([Chars(g[..m])], 0, a) != Before([Chars(g[..n])], 0, b)
  {
    hide Chars;
    if a.Lexed? && b.Lexed? {
      assert ([Chars(g[..m])] + a.tokens)[0] == Chars(g[..m]) && ([Chars(g[..n])] + b.tokens)[0] == Chars(g[..n]);
    }
  }
}
