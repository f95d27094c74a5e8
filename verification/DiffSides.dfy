/** What the normalised list of a patch says about the old and the new file: the marked lines of a hunk
    give back the code of either side, line by line, and nothing else does. */
module DiffSides {
  import opened Strings
  import opened LineComments
  import opened Fingerprint

  // ---------------------------------------------------------------------------
  // The two sides of a hunk

  function Trimmed(raw: string): string {
    TrimRight(raw, IsByteSpace)
  }

  /** A removed, added or unchanged line; an unchanged blank line may have lost its mark. */
  predicate OfHunk(line: string) {
    line == "" || line[0] == '-' || line[0] == '+' || line[0] == ' '
  }

  /** The old file's lines among those of a hunk. */
  function OldText(lines: seq<string>): seq<string> {
    if lines == [] then []
    else (if lines[0] == "" then [""] else if lines[0][0] == '+' then [] else [lines[0][1..]]) + OldText(lines[1..])
  }

  function NewText(lines: seq<string>): seq<string> {
    if lines == [] then []
    else (if lines[0] == "" then [""] else if lines[0][0] == '-' then [] else [lines[0][1..]]) + NewText(lines[1..])
  }

  predicate Marked(x: string, mark: char) {
    x != "" && x[0] == mark
  }

  /** What a normalised line shows of the old file. */
  function OldOne(x: string): seq<string> {
    if Marked(x, '<') && |x| >= 2 then [x[2..]] else if Marked(x, '-') || Marked(x, ' ') then [x[1..]] else []
  }

  function NewOne(x: string): seq<string> {
    if Marked(x, '>') && |x| >= 2 then [x[2..]] else if Marked(x, '+') || Marked(x, ' ') then [x[1..]] else []
  }

  /** What the normalised lines show of the old file. */
  function OldSide(lines: seq<string>): seq<string> {
    if lines == [] then [] else OldOne(lines[0]) + OldSide(lines[1..])
  }

  function NewSide(lines: seq<string>): seq<string> {
    if lines == [] then [] else NewOne(lines[0]) + NewSide(lines[1..])
  }

  function NonBlank(lines: seq<string>): seq<string> {
    if lines == [] then [] else (if lines[0] == "" then [] else [lines[0]]) + NonBlank(lines[1..])
  }

  /** Whether a block comment is open behind these lines. */
  function OpenAfter(lines: seq<string>, open: bool, syntax: Syntax): bool {
    if lines == [] then open else OpenAfter(lines[1..], Strip(lines[0], open, syntax).open, syntax)
  }

  /** The lines of code: comments, blank lines and white space at line ends gone. */
  function Code(lines: seq<string>, open: bool, syntax: Syntax): seq<string> {
    NonBlank(StripLines(lines, open, syntax))
  }

  lemma CodeOne(line: string, open: bool, syntax: Syntax)
    ensures Code([line], open, syntax) == NonEmpty("", Strip(line, open, syntax).text)
    ensures OpenAfter([line], open, syntax) == Strip(line, open, syntax).open
  {
    hide Strip;
    assert [line][1..] == [];
    assert StripLines([line], open, syntax) == [Strip(line, open, syntax).text];
    var text := Strip(line, open, syntax).text;
    assert [text][1..] == [] && "" + text == text;
    assert NonBlank([text]) == if text == "" then [] else [text];
  }

  lemma CodeNone(open: bool, syntax: Syntax)
    ensures Code([], open, syntax) == [] && OpenAfter([], open, syntax) == open
  {
  }

  lemma {:induction false} NonBlankConcat(a: seq<string>, b: seq<string>)
    ensures NonBlank(a + b) == NonBlank(a) + NonBlank(b)
  {
    if a == [] {
      assert a + b == b;
    } else {
      assert (a + b)[1..] == a[1..] + b;
      NonBlankConcat(a[1..], b);
    }
  }

  lemma {:induction false} StripConcat(a: seq<string>, b: seq<string>, open: bool, syntax: Syntax)
    ensures StripLines(a + b, open, syntax) == StripLines(a, open, syntax) + StripLines(b, OpenAfter(a, open, syntax), syntax)
    ensures OpenAfter(a + b, open, syntax) == OpenAfter(b, OpenAfter(a, open, syntax), syntax)
  {
    hide Strip;
    if a == [] {
      assert a + b == b;
    } else {
      assert (a + b)[1..] == a[1..] + b;
      StripConcat(a[1..], b, Strip(a[0], open, syntax).open, syntax);
    }
  }

  lemma CodeConcat(a: seq<string>, b: seq<string>, open: bool, syntax: Syntax)
    ensures Code(a + b, open, syntax) == Code(a, open, syntax) + Code(b, OpenAfter(a, open, syntax), syntax)
    ensures OpenAfter(a + b, open, syntax) == OpenAfter(b, OpenAfter(a, open, syntax), syntax)
  {
    StripConcat(a, b, open, syntax);
    NonBlankConcat(StripLines(a, open, syntax), StripLines(b, OpenAfter(a, open, syntax), syntax));
  }

  lemma {:induction false} OldSideConcat(a: seq<string>, b: seq<string>)
    ensures OldSide(a + b) == OldSide(a) + OldSide(b) && NewSide(a + b) == NewSide(a) + NewSide(b)
  {
    hide OldOne, NewOne;
    if a == [] {
      assert a + b == b;
    } else {
      assert (a + b)[1..] == a[1..] + b;
      OldSideConcat(a[1..], b);
    }
  }

  lemma SideOfOne(x: string)
    ensures OldSide([x]) == OldOne(x) && NewSide([x]) == NewOne(x)
  {
    hide OldOne, NewOne;
    assert [x][1..] == [];
    assert OldSide([]) == [] && NewSide([]) == [];
  }

  /** The sides of a marked text. */
  lemma SideOf(mark: string, text: string)
    ensures mark == "-" ==> OldSide(NonEmpty(mark, text)) == NonEmpty("", text) && NewSide(NonEmpty(mark, text)) == []
    ensures mark == "+" ==> NewSide(NonEmpty(mark, text)) == NonEmpty("", text) && OldSide(NonEmpty(mark, text)) == []
    ensures mark == "< " ==> OldSide(NonEmpty(mark, text)) == NonEmpty("", text) && NewSide(NonEmpty(mark, text)) == []
    ensures mark == "> " ==> NewSide(NonEmpty(mark, text)) == NonEmpty("", text) && OldSide(NonEmpty(mark, text)) == []
    ensures mark == " " ==> OldSide(NonEmpty(mark, text)) == NonEmpty("", text) == NewSide(NonEmpty(mark, text))
  {
    if text != "" {
      var x := mark + text;
      SideOfOne(x);
      assert x[|mark|..] == text && "" + text == text;
      assert mark != "" ==> x[0] == mark[0];
    }
  }

  // ---------------------------------------------------------------------------
  // One line

  ghost predicate SameFile(s: State, s': State) {
    s'.inHunk == s.inHunk && s'.oldSyntax == s.oldSyntax && s'.newSyntax == s.newSyntax
  }

  /** One line of a hunk: what it shows of either side. */
  ghost predicate Shows(s: State, line: string, o: Outcome) {
    && SameFile(s, o.state)
    && OldSide(o.lines) == Code(OldText([line]), s.oldOpen, s.oldSyntax)
    && NewSide(o.lines) == Code(NewText([line]), s.newOpen, s.newSyntax)
    && o.state.oldOpen == OpenAfter(OldText([line]), s.oldOpen, s.oldSyntax)
    && o.state.newOpen == OpenAfter(NewText([line]), s.newOpen, s.newSyntax)
  }

  lemma TextOfOne(line: string)
    ensures OldText([line]) == if line == "" then [""] else if line[0] == '+' then [] else [line[1..]]
    ensures NewText([line]) == if line == "" then [""] else if line[0] == '-' then [] else [line[1..]]
  {
    assert [line][1..] == [];
    assert OldText([]) == [] && NewText([]) == [];
  }

  lemma BlankShows(open: bool, syntax: Syntax)
    ensures Strip("", open, syntax) == Kept("", open)
  {
  }

  lemma MarkedIs(s: State, raw: string)
    requires s.inHunk && OfHunk(Trimmed(raw))
    ensures OnLine(s, raw) == if Trimmed(raw) == "" then Outcome(s, []) else OnContent(s, Trimmed(raw))
  {
    hide OnContent, TrimRight, Heading;
    FirstCharacter(Trimmed(raw));
    LineCases(s, raw);
  }

  lemma LineShows(s: State, raw: string)
    requires s.inHunk && OfHunk(Trimmed(raw))
    ensures Shows(s, Trimmed(raw), OnLine(s, raw))
  {
    hide OnLine, OnContent, Strip, Code, OpenAfter, NonEmpty, OldText, NewText, OldSide, NewSide, TrimRight;
    MarkedIs(s, raw);
    var line := Trimmed(raw);
    TextOfOne(line);
    CodeNone(s.oldOpen, s.oldSyntax);
    CodeNone(s.newOpen, s.newSyntax);
    var text := if line == "" then "" else line[1..];
    CodeOne(text, s.oldOpen, s.oldSyntax);
    CodeOne(text, s.newOpen, s.newSyntax);
    if line == "" {
      BlankShows(s.oldOpen, s.oldSyntax);
      BlankShows(s.newOpen, s.newSyntax);
      NoSides();
    } else {
      ContentCases(s, line);
      ContentShows(s, line);
    }
  }

  lemma NoSides()
    ensures OldSide([]) == [] && NewSide([]) == [] && NonEmpty("", "") == []
  {
  }

  lemma ContentShows(s: State, line: string)
    requires line != "" && OfHunk(line)
    ensures var o, n := Strip(line[1..], s.oldOpen, s.oldSyntax).text, Strip(line[1..], s.newOpen, s.newSyntax).text;
            && OldSide(OnContent(s, line).lines) == (if line[0] == '+' then [] else NonEmpty("", o))
            && NewSide(OnContent(s, line).lines) == (if line[0] == '-' then [] else NonEmpty("", n))
  {
    hide OnContent, Strip, NonEmpty, OldSide, NewSide;
    ContentCases(s, line);
    var o, n := Strip(line[1..], s.oldOpen, s.oldSyntax).text, Strip(line[1..], s.newOpen, s.newSyntax).text;
    SideOf("-", o);
    SideOf("+", n);
    SideOf(" ", o);
    SideOf("< ", o);
    SideOf("> ", n);
    OldSideConcat(NonEmpty("< ", o), NonEmpty("> ", n));
  }

  // ---------------------------------------------------------------------------
  // A hunk

  function AllTrimmed(raws: seq<string>): (r: seq<string>)
    ensures |r| == |raws| && forall i :: 0 <= i < |r| ==> r[i] == Trimmed(raws[i])
  {
    seq(|raws|, i requires 0 <= i < |raws| => Trimmed(raws[i]))
  }

  /** The lines of a hunk show exactly the code of the old and of the new file, in order. */
  lemma {:induction false} HunkShowsBothSides(s: State, raws: seq<string>)
    requires s.inHunk && forall i :: 0 <= i < |raws| ==> OfHunk(Trimmed(raws[i]))
    ensures SameFile(s, Run(s, raws).state)
    ensures OldSide(Run(s, raws).lines) == Code(OldText(AllTrimmed(raws)), s.oldOpen, s.oldSyntax)
    ensures NewSide(Run(s, raws).lines) == Code(NewText(AllTrimmed(raws)), s.newOpen, s.newSyntax)
    ensures Run(s, raws).state.oldOpen == OpenAfter(OldText(AllTrimmed(raws)), s.oldOpen, s.oldSyntax)
    ensures Run(s, raws).state.newOpen == OpenAfter(NewText(AllTrimmed(raws)), s.newOpen, s.newSyntax)
    decreases |raws|
  {
    hide OnLine, Code, OpenAfter, OldText, NewText, OldSide, NewSide, TrimRight;
    if raws == [] {
      NoSides();
      NoTexts();
      CodeNone(s.oldOpen, s.oldSyntax);
      CodeNone(s.newOpen, s.newSyntax);
    } else {
      var first := OnLine(s, raws[0]);
      var line, rest := Trimmed(raws[0]), AllTrimmed(raws[1..]);
      LineShows(s, raws[0]);
      HunkShowsBothSides(first.state, raws[1..]);
      assert AllTrimmed(raws) == [line] + rest;
      TextCons(line, rest);
      CodeConcat(OldText([line]), OldText(rest), s.oldOpen, s.oldSyntax);
      CodeConcat(NewText([line]), NewText(rest), s.newOpen, s.newSyntax);
      OldSideConcat(first.lines, Run(first.state, raws[1..]).lines);
    }
  }

  lemma NoTexts()
    ensures OldText([]) == [] && NewText([]) == []
  {
  }

  lemma TextCons(line: string, rest: seq<string>)
    ensures OldText([line] + rest) == OldText([line]) + OldText(rest) && NewText([line] + rest) == NewText([line]) + NewText(rest)
  {
    hide OldText, NewText;
    TextOfOne(line);
    TextStep([line] + rest);
    assert ([line] + rest)[1..] == rest;
  }

  lemma TextStep(lines: seq<string>)
    requires lines != []
    ensures OldText(lines) == (if lines[0] == "" then [""] else if lines[0][0] == '+' then [] else [lines[0][1..]]) + OldText(lines[1..])
    ensures NewText(lines) == (if lines[0] == "" then [""] else if lines[0][0] == '-' then [] else [lines[0][1..]]) + NewText(lines[1..])
  {
  }

  // ---------------------------------------------------------------------------
  // A file

  /** The head of a file's part of a patch. */
  ghost predicate IsHead(git: string, old': string, new': string, hunk: string) {
    "diff --git " <= git && "--- " <= old' && "+++ " <= new' && "@@" <= hunk
  }

  /** Whatever came before it, a file's part of a patch shows the code of both files, each read by the
      syntax its own path names and from outside any comment; its head lines are kept, and of its hunk
      header the heading. */
  lemma FileShowsBothSides(s: State, git: string, old': string, new': string, hunk: string, body: seq<string>)
    requires IsHead(Trimmed(git), Trimmed(old'), Trimmed(new'), Trimmed(hunk))
    requires forall i :: 0 <= i < |body| ==> OfHunk(Trimmed(body[i]))
    ensures var all := Run(s, [git, old', new', hunk] + body).lines;
            && |all| >= 4 && all[..4] == [Trimmed(git), Trimmed(old'), Trimmed(new'), Heading(Trimmed(hunk))]
            && OldSide(all[4..]) == Code(OldText(AllTrimmed(body)), false, SyntaxForPath(Trimmed(old')[4..]))
            && NewSide(all[4..]) == Code(NewText(AllTrimmed(body)), false, SyntaxForPath(Trimmed(new')[4..]))
  {
    hide OnLine, Run, Code, OldText, NewText, OldSide, NewSide, TrimRight, Heading, SyntaxForPath;
    var head := [git, old', new', hunk];
    HeadRun(s, git, old', new', hunk);
    RunAppend(s, head, body);
    HunkShowsBothSides(Run(s, head).state, body);
  }

  lemma HeadRun(s: State, git: string, old': string, new': string, hunk: string)
    requires IsHead(Trimmed(git), Trimmed(old'), Trimmed(new'), Trimmed(hunk))
    ensures Run(s, [git, old', new', hunk]) ==
            Outcome(State(false, false, SyntaxForPath(Trimmed(old')[4..]), SyntaxForPath(Trimmed(new')[4..]), true),
                    [Trimmed(git), Trimmed(old'), Trimmed(new'), Heading(Trimmed(hunk))])
  {
    hide Run, OnLine, TrimRight, Heading, SyntaxForPath;
    HeadLines(git, old', new', hunk);
    OldPathLine(INITIAL, old');
    var named := INITIAL.(oldSyntax := SyntaxForPath(Trimmed(old')[4..]));
    NewPathLine(named, new');
    GitLine(s, git);
    HunkLine(named.(newSyntax := SyntaxForPath(Trimmed(new')[4..])), hunk);
    RunAppend(s, [git], [old']);
    RunAppend(s, [git, old'], [new']);
    RunAppend(s, [git, old', new'], [hunk]);
    RunOne(s, git);
    RunOne(INITIAL, old');
    RunOne(named, new');
    RunOne(named.(newSyntax := SyntaxForPath(Trimmed(new')[4..])), hunk);
    assert [git] + [old'] == [git, old'] && [git, old'] + [new'] == [git, old', new'];
    assert [git, old', new'] + [hunk] == [git, old', new', hunk];
  }

  lemma HeadLines(git: string, old': string, new': string, hunk: string)
    requires IsHead(Trimmed(git), Trimmed(old'), Trimmed(new'), Trimmed(hunk))
    ensures IsFileHeader(Trimmed(git)) && IsOldPath(Trimmed(old')) && IsNewPath(Trimmed(new')) && IsHunkHeader(Trimmed(hunk))
  {
    hide TrimRight;
  }

  lemma GitLine(s: State, git: string)
    requires IsFileHeader(Trimmed(git))
    ensures OnLine(s, git) == Outcome(INITIAL, [Trimmed(git)])
  {
    hide TrimRight, OnLine;
    LineCases(s, git);
  }

  lemma OldPathLine(s: State, line: string)
    requires !s.inHunk && IsOldPath(Trimmed(line))
    ensures OnLine(s, line) == Outcome(s.(oldSyntax := SyntaxForPath(Trimmed(line)[4..])), [Trimmed(line)])
  {
    hide TrimRight, OnLine, SyntaxForPath, IsOldPath, IsNewPath, IsFileHeader, IsBlobIndex, IsHunkHeader;
    LineCases(s, line);
    FirstCharacter(Trimmed(line));
    OtherState(s, Trimmed(line));
    assert "" + Trimmed(line) == Trimmed(line);
  }

  lemma NewPathLine(s: State, line: string)
    requires !s.inHunk && IsNewPath(Trimmed(line))
    ensures OnLine(s, line) == Outcome(s.(newSyntax := SyntaxForPath(Trimmed(line)[4..])), [Trimmed(line)])
  {
    hide TrimRight, OnLine, SyntaxForPath, IsOldPath, IsNewPath, IsFileHeader, IsBlobIndex, IsHunkHeader;
    LineCases(s, line);
    FirstCharacter(Trimmed(line));
    OtherState(s, Trimmed(line));
    assert "" + Trimmed(line) == Trimmed(line);
  }

  lemma HunkLine(s: State, line: string)
    requires IsHunkHeader(Trimmed(line))
    ensures OnLine(s, line) == Outcome(s.(inHunk := true), [Heading(Trimmed(line))])
  {
    hide TrimRight, OnLine, Heading, IsFileHeader, IsBlobIndex;
    LineCases(s, line);
    FirstCharacter(Trimmed(line));
  }

  // ---------------------------------------------------------------------------
  // Reversing a patch

  /** Removed lines become added ones and the other way round. */
  function Turned(line: string): (r: string)
    ensures |r| == |line|
  {
    if line != "" && line[0] == '-' then "+" + line[1..]
    else if line != "" && line[0] == '+' then "-" + line[1..]
    else line
  }

  function AllTurned(lines: seq<string>): (r: seq<string>)
    ensures |r| == |lines| && forall i :: 0 <= i < |r| ==> r[i] == Turned(lines[i])
  {
    seq(|lines|, i requires 0 <= i < |lines| => Turned(lines[i]))
  }

  lemma TurnedTrims(raw: string)
    ensures Trimmed(Turned(raw)) == Turned(Trimmed(raw))
  {
    hide TrimRight;
    if raw == "" {
      TrimEmpty("", IsByteSpace);
    } else if raw[0] == '-' || raw[0] == '+' {
      TrimBehind([raw[0]], raw[1..]);
      var turned := Turned(raw);
      TrimBehind([turned[0]], turned[1..]);
      assert raw == [raw[0]] + raw[1..] && turned == [turned[0]] + raw[1..] && turned[1..] == raw[1..];
    } else {
      var t := Trimmed(raw);
      assert t != "" ==> t[0] == raw[0];
    }
  }

  lemma {:induction false} TurnedTexts(lines: seq<string>)
    ensures OldText(AllTurned(lines)) == NewText(lines) && NewText(AllTurned(lines)) == OldText(lines)
  {
    if lines != [] {
      TurnedTexts(lines[1..]);
      assert AllTurned(lines)[1..] == AllTurned(lines[1..]);
      var x := lines[0];
      assert x != "" && (x[0] == '-' || x[0] == '+') ==> Turned(x)[1..] == x[1..];
    }
  }

  /** A hunk and its reverse show each other's sides, so they normalise alike only if they change no
      code. */
  lemma ReverseDiffers(s: State, raws: seq<string>)
    requires s.inHunk && s.oldOpen == s.newOpen && s.oldSyntax == s.newSyntax
    requires forall i :: 0 <= i < |raws| ==> OfHunk(Trimmed(raws[i]))
    requires Run(s, raws).lines == Run(s, AllTurned(raws)).lines
    ensures Code(OldText(AllTrimmed(raws)), s.oldOpen, s.oldSyntax) == Code(NewText(AllTrimmed(raws)), s.newOpen, s.newSyntax)
  {
    hide Run, Code, OldText, NewText, OldSide, NewSide, TrimRight;
    forall i | 0 <= i < |raws| ensures OfHunk(Trimmed(AllTurned(raws)[i])) && AllTrimmed(AllTurned(raws))[i] == Turned(Trimmed(raws[i])) {
      TurnedTrims(raws[i]);
    }
    assert AllTrimmed(AllTurned(raws)) == AllTurned(AllTrimmed(raws));
    TurnedTexts(AllTrimmed(raws));
    HunkShowsBothSides(s, raws);
    HunkShowsBothSides(s, AllTurned(raws));
  }

  // ---------------------------------------------------------------------------
  // Headings and paths

  /** Of a hunk header its marks and what stands behind the coordinates is kept. */
  lemma HeadingMeans(x: string, heading: string)
    requires !Contains(x + "@", "@@")
    ensures Heading("@@" + x + "@@" + heading) == if Trim(heading, IsByteSpace) == "" then "@@" else "@@ " + Trim(heading, IsByteSpace)
  {
    hide Trim, Find, Contains;
    var line := "@@" + x + "@@" + heading;
    HunkFind(x, heading);
    assert line[2 + |x| + 2..] == heading;
  }

  /** A path as a diff names it: without tabs, and no blank or quotation mark at its ends. */
  ghost predicate IsPath(path: string) {
    && path != "" && '\t' !in path
    && !IsByteSpace(path[0]) && !IsByteSpace(path[|path| - 1]) && path[0] != '"' && path[|path| - 1] != '"'
  }

  ghost predicate Ends(path: string, ending: string) {
    |ending| <= |path| && path[|path| - |ending|..] == ending
  }

  /** A file has hash comments or slash comments by the ending of its path, in either case of letters. */
  lemma SyntaxMeans(path: string)
    requires IsPath(path)
    ensures var lower := LowerAscii(path);
            && (SyntaxForPath(path).hash <==> Ends(lower, ".py") || Ends(lower, ".pyi"))
            && (SyntaxForPath(path).slash <==>
                  || Ends(lower, ".c") || Ends(lower, ".cc") || Ends(lower, ".cpp") || Ends(lower, ".h") || Ends(lower, ".hpp")
                  || Ends(lower, ".cu") || Ends(lower, ".cuh"))
  {
    hide Trim, Split, EndsWithAny, Ends, LowerAscii;
    SplitOne(path, '\t');
    TrimIdle(path, IsByteSpace);
    TrimIdle(path, c => c == '"');
    var bare := if "a/" <= path || "b/" <= path then path[2..] else path;
    BareEnds(path, bare);
    OneSyntax(LowerAscii(bare));
  }

  /** Leaving out the first directory's letter does not change the ending. */
  lemma BareEnds(path: string, bare: string)
    requires bare == if "a/" <= path || "b/" <= path then path[2..] else path
    ensures forall e :: 2 <= |e| && e[0] == '.' ==> (Ends(LowerAscii(bare), e) <==> Ends(LowerAscii(path), e))
  {
    var lower, low := LowerAscii(path), LowerAscii(bare);
    if bare != path {
      assert path[1] == '/' && (path[0] == 'a' || path[0] == 'b');
      assert low == lower[2..];
      forall e: string | 2 <= |e| && e[0] == '.' ensures Ends(low, e) <==> Ends(lower, e) {
        if Ends(lower, e) {
          assert lower[|lower| - |e|..][0] == '.';
          assert lower[|lower| - |e|] == '.';
          assert low[|low| - |e|..] == lower[|lower| - |e|..];
        }
        if Ends(low, e) {
          assert low[|low| - |e|..] == lower[|lower| - |e|..];
        }
      }
    }
  }

  lemma OneSyntax(lower: string)
    ensures EndsWithAny(lower, [".py", ".pyi"]) <==> Ends(lower, ".py") || Ends(lower, ".pyi")
    ensures EndsWithAny(lower, [".c", ".cc", ".cpp", ".h", ".hpp", ".cu", ".cuh"]) <==>
            || Ends(lower, ".c") || Ends(lower, ".cc") || Ends(lower, ".cpp") || Ends(lower, ".h") || Ends(lower, ".hpp")
            || Ends(lower, ".cu") || Ends(lower, ".cuh")
    ensures Ends(lower, ".py") || Ends(lower, ".pyi") ==> !EndsWithAny(lower, [".c", ".cc", ".cpp", ".h", ".hpp", ".cu", ".cuh"])
  {
    hide EndsWithAny, Ends;
    PyEndings(lower);
    SlashEndings(lower);
  }

  lemma PyEndings(s: string)
    ensures EndsWithAny(s, [".py", ".pyi"]) <==> Ends(s, ".py") || Ends(s, ".pyi")
    ensures Ends(s, ".py") || Ends(s, ".pyi") ==> s != "" && s[|s| - 1] in {'y', 'i'}
  {
    hide EndsWithAny, Ends;
    EndsAny(s, [".py", ".pyi"]);
    LastOf(s, ".py");
    LastOf(s, ".pyi");
  }

  lemma SlashEndings(s: string)
    ensures EndsWithAny(s, [".c", ".cc", ".cpp", ".h", ".hpp", ".cu", ".cuh"]) <==>
            || Ends(s, ".c") || Ends(s, ".cc") || Ends(s, ".cpp") || Ends(s, ".h") || Ends(s, ".hpp") || Ends(s, ".cu") || Ends(s, ".cuh")
    ensures EndsWithAny(s, [".c", ".cc", ".cpp", ".h", ".hpp", ".cu", ".cuh"]) ==> s != "" && s[|s| - 1] in {'c', 'p', 'h', 'u'}
  {
    hide EndsWithAny, Ends;
    EndsAny(s, [".c", ".cc", ".cpp", ".h", ".hpp", ".cu", ".cuh"]);
    LastOf(s, ".c");
    LastOf(s, ".cc");
    LastOf(s, ".cpp");
    LastOf(s, ".h");
    LastOf(s, ".hpp");
    LastOf(s, ".cu");
    LastOf(s, ".cuh");
  }

  lemma EndsAny(s: string, endings: seq<string>)
    ensures EndsWithAny(s, endings) <==> exists e :: e in endings && Ends(s, e)
  {
    if EndsWithAny(s, endings) {
      var i :| 0 <= i < |endings| && |endings[i]| <= |s| && s[|s| - |endings[i]|..] == endings[i];
      assert endings[i] in endings && Ends(s, endings[i]);
    }
    if e :| e in endings && Ends(s, e) {
      var i :| 0 <= i < |endings| && endings[i] == e;
    }
  }

  lemma LastOf(s: string, e: string)
    requires e != ""
    ensures Ends(s, e) ==> s != "" && s[|s| - 1] == e[|e| - 1]
  {
    if Ends(s, e) {
      assert s[|s| - |e|..][|e| - 1] == s[|s| - 1];
    }
  }

  // ---------------------------------------------------------------------------
  // Characters

  const CAPITALS := "ABCDEFGHIJKLMNOPQRSTUVWXYZ"
  const SMALL := "abcdefghijklmnopqrstuvwxyz"

  lemma Alphabet()
    ensures |CAPITALS| == |SMALL| == 26
    ensures forall k :: 0 <= k < 26 ==> CAPITALS[k] as int == 'A' as int + k && SMALL[k] as int == 'a' as int + k
  {
  }

  /** Each capital letter becomes the small one in the same place of the alphabet, and nothing else changes. */
  lemma LowerMeans(s: string, i: nat)
    requires i < |s|
    ensures |LowerAscii(s)| == |s| && |CAPITALS| == |SMALL|
    ensures forall k :: 0 <= k < |CAPITALS| && s[i] == CAPITALS[k] ==> LowerAscii(s)[i] == SMALL[k]
    ensures s[i] !in CAPITALS ==> LowerAscii(s)[i] == s[i]
  {
    Alphabet();
    if 'A' <= s[i] <= 'Z' {
      assert CAPITALS[s[i] as int - 'A' as int] == s[i];
    }
  }

  /** A blank, a tab, a line feed, a vertical tab, a form feed or a carriage return. */
  lemma SpaceMeans(c: char)
    ensures IsByteSpace(c) <==> c == ' ' || c == '\t' || c == '\n' || c == '\r' || c == '\U{B}' || c == '\U{C}'
  {
  }
}
