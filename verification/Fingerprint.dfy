/** The normalised line list a patch is fingerprinted by. The hash of the joined lines is not
    modelled: patches with equal lists have equal fingerprints. */
module Fingerprint {
  import opened Strings
  import opened LineComments

  const NO_COMMENTS := Syntax(false, false)
  const PYTHON_COMMENTS := Syntax(true, false)
  const SLASH_COMMENTS := Syntax(false, true)

  function LowerAscii(s: string): (r: string) {
    seq(|s|, i requires 0 <= i < |s| => if 'A' <= s[i] <= 'Z' then (s[i] as int + 32) as char else s[i])
  }

  predicate EndsWithAny(s: string, endings: seq<string>) {
    exists i :: 0 <= i < |endings| && |endings[i]| <= |s| && s[|s| - |endings[i]|..] == endings[i]
  }

  /** The comment syntax of a file, by the ending of its path. */
  function SyntaxForPath(path: string): Syntax {
    var name := Trim(Trim(Split(path, '\t')[0], IsByteSpace), c => c == '"');
    var bare := if "a/" <= name || "b/" <= name then name[2..] else name;
    var lower := LowerAscii(bare);
    if EndsWithAny(lower, [".py", ".pyi"]) then PYTHON_COMMENTS
    else if EndsWithAny(lower, [".c", ".cc", ".cpp", ".h", ".hpp", ".cu", ".cuh"]) then SLASH_COMMENTS
    else NO_COMMENTS
  }

  // ---------------------------------------------------------------------------
  // Lines of a byte string

  const GIT_HEADER := "diff --git "

  predicate IsGitDiff(data: string) {
    GIT_HEADER <= data || Find(data, "\n" + GIT_HEADER, 0) != -1
  }

  function LineEnd(data: string): (e: nat)
    ensures e <= |data|
    ensures forall i :: 0 <= i < e ==> data[i] != '\n' && data[i] != '\r'
    ensures e < |data| ==> data[e] == '\n' || data[e] == '\r'
  {
    if data == [] || data[0] == '\n' || data[0] == '\r' then 0 else 1 + LineEnd(data[1..])
  }

  /** The lines of `data`; a line feed, a carriage return or both in this order end a line. */
  function SplitLines(data: string): seq<string>
    decreases |data|
  {
    if data == [] then []
    else
      var e := LineEnd(data);
      if e == |data| then [data]
      else if data[e] == '\r' && e + 1 < |data| && data[e + 1] == '\n' then [data[..e]] + SplitLines(data[e + 2..])
      else [data[..e]] + SplitLines(data[e + 1..])
  }

  // ---------------------------------------------------------------------------
  // One line at a time

  datatype State = State(oldOpen: bool, newOpen: bool, oldSyntax: Syntax, newSyntax: Syntax, inHunk: bool)

  datatype Outcome = Outcome(state: State, lines: seq<string>)

  const INITIAL := State(false, false, NO_COMMENTS, NO_COMMENTS, false)

  datatype Kind = FileHeader | BlobIndex | HunkHeader | Removed | Added | Context | Other

  predicate IsFileHeader(line: string) {
    GIT_HEADER <= line
  }

  predicate IsBlobIndex(line: string) {
    "index " <= line
  }

  predicate IsHunkHeader(line: string) {
    "@@" <= line
  }

  predicate IsOldPath(line: string) {
    "--- " <= line
  }

  predicate IsNewPath(line: string) {
    "+++ " <= line
  }

  /** What a line without trailing white space is. */
  function KindOf(inHunk: bool, line: string): Kind {
    if IsFileHeader(line) then FileHeader
    else if IsBlobIndex(line) then BlobIndex
    else if IsHunkHeader(line) then HunkHeader
    else if !inHunk || line == [] then Other
    else if line[0] == '-' then Removed
    else if line[0] == '+' then Added
    else if line[0] == ' ' then Context
    else Other
  }

  /** A hunk header without its coordinates. */
  function Heading(line: string): string {
    var end := Find(line, "@@", 2);
    var suffix := if end == -1 then "" else Trim(line[end + 2..], IsByteSpace);
    if suffix == "" then "@@" else "@@ " + suffix
  }

  function NonEmpty(mark: string, text: string): seq<string> {
    if text == "" then [] else [mark + text]
  }

  function OnLine(s: State, raw: string): Outcome {
    OnTrimmed(s, TrimRight(raw, IsByteSpace))
  }

  function OnTrimmed(s: State, line: string): Outcome {
    match KindOf(s.inHunk, line)
    case FileHeader => Outcome(INITIAL, [line])
    case BlobIndex => Outcome(s, [])
    case HunkHeader => Outcome(s.(inHunk := true), [Heading(line)])
    case Other => Outcome(AfterOther(s, line), NonEmpty("", line))
    case _ => OnContent(s, line)
  }

  /** A line outside hunks may name the old or the new file. */
  function AfterOther(s: State, line: string): State {
    if !s.inHunk && IsOldPath(line) then s.(oldSyntax := SyntaxForPath(line[4..]))
    else if !s.inHunk && IsNewPath(line) then s.(newSyntax := SyntaxForPath(line[4..]))
    else s
  }

  /** A removed, added or unchanged line of a hunk. */
  function OnContent(s: State, line: string): Outcome
    requires line != []
  {
    if line[0] == '-' then
      var k := Strip(line[1..], s.oldOpen, s.oldSyntax);
      Outcome(s.(oldOpen := k.open), NonEmpty("-", k.text))
    else if line[0] == '+' then
      var k := Strip(line[1..], s.newOpen, s.newSyntax);
      Outcome(s.(newOpen := k.open), NonEmpty("+", k.text))
    else
      var o, n := Strip(line[1..], s.oldOpen, s.oldSyntax), Strip(line[1..], s.newOpen, s.newSyntax);
      Outcome(s.(oldOpen := o.open, newOpen := n.open), Sides(o.text, n.text))
  }

  /** An unchanged line as it reads on both sides. */
  function Sides(old': string, new': string): seq<string> {
    if old' == new' then NonEmpty(" ", old') else NonEmpty("< ", old') + NonEmpty("> ", new')
  }

  function Run(s: State, lines: seq<string>): Outcome
    decreases |lines|
  {
    if lines == [] then Outcome(s, [])
    else
      var first := OnLine(s, lines[0]);
      var rest := Run(first.state, lines[1..]);
      Outcome(rest.state, first.lines + rest.lines)
  }

  /** Lines outside a git diff only lose white space at their ends, and blank ones are dropped. */
  function Plain(lines: seq<string>): seq<string> {
    if lines == [] then []
    else NonEmpty("", TrimRight(lines[0], IsByteSpace)) + Plain(lines[1..])
  }

  function Normal(git: bool, lines: seq<string>): seq<string> {
    if git then Run(INITIAL, lines).lines else Plain(lines)
  }

  function Normalised(data: string): seq<string> {
    Normal(IsGitDiff(data), SplitLines(data))
  }

  lemma {:induction false} RunAppend(s: State, a: seq<string>, b: seq<string>)
    ensures var first := Run(s, a);
            var rest := Run(first.state, b);
            Run(s, a + b) == Outcome(rest.state, first.lines + rest.lines)
    decreases |a|
  {
    hide OnLine;
    if a == [] {
      assert a + b == b;
    } else {
      assert (a + b)[1..] == a[1..] + b;
      RunAppend(OnLine(s, a[0]).state, a[1..], b);
    }
  }

  lemma RunOne(s: State, line: string)
    ensures Run(s, [line]) == OnLine(s, line)
  {
    hide OnLine;
    assert [line][1..] == [];
  }

  lemma {:induction false} PlainAppend(a: seq<string>, b: seq<string>)
    ensures Plain(a + b) == Plain(a) + Plain(b)
  {
    if a == [] {
      assert a + b == b;
    } else {
      assert (a + b)[1..] == a[1..] + b;
      PlainAppend(a[1..], b);
    }
  }

  lemma PlainOne(line: string)
    ensures Plain([line]) == NonEmpty("", TrimRight(line, IsByteSpace))
  {
  }

  // ---------------------------------------------------------------------------
  // The loop over the lines

  lemma TrimmedBlank(s: string)
    ensures Trim(TrimRight(s, IsByteSpace), IsByteSpace) == "" <==> TrimRight(s, IsByteSpace) == ""
  {
  }

  lemma FirstCharacter(line: string)
    ensures IsFileHeader(line) ==> line != [] && line[0] == 'd'
    ensures IsBlobIndex(line) ==> line != [] && line[0] == 'i'
    ensures IsHunkHeader(line) ==> line != [] && line[0] == '@'
    ensures IsOldPath(line) ==> |line| >= 4 && line[0] == '-'
    ensures IsNewPath(line) ==> |line| >= 4 && line[0] == '+'
  {
  }

  lemma Associates<T>(a: seq<T>, b: seq<T>, c: seq<T>)
    ensures a + b + c == a + (b + c)
  {
  }

  /** What the loop over the lines of a git diff updates. */
  class Normaliser {
    var normalized: seq<string>
    var oldOpen: bool
    var newOpen: bool
    var oldSyntax: Syntax
    var newSyntax: Syntax
    var inHunk: bool

    ghost function Reached(): Outcome
      reads this
    {
      Outcome(State(oldOpen, newOpen, oldSyntax, newSyntax, inHunk), normalized)
    }

    constructor ()
      ensures Reached() == Outcome(INITIAL, [])
    {
      normalized := [];
      oldOpen, newOpen, oldSyntax, newSyntax, inHunk := false, false, NO_COMMENTS, NO_COMMENTS, false;
    }

    /** Append the text behind a mark unless it is blank. */
    method Append(mark: string, text: string)
      requires Trim(text, IsByteSpace) == "" <==> text == ""
      modifies this`normalized
      ensures normalized == old(normalized) + NonEmpty(mark, text)
    {
      hide Trim;
      if Trim(text, IsByteSpace) != "" {
        normalized := normalized + [mark + text];
      }
    }

    method AcceptContent(line: string)
      requires line != []
      modifies this
      ensures var o := OnContent(old(Reached()).state, line);
              Reached() == Outcome(o.state, old(normalized) + o.lines)
    {
      hide Strip, Trim, TrimRight, IsByteSpace, NonEmpty, OnContent, Sides;
      ghost var s := Reached().state;
      var content := line[1..];
      ContentCases(s, line);
      StrippedBlank(content, oldOpen, oldSyntax);
      StrippedBlank(content, newOpen, newSyntax);
      if line[0] == '-' {
        content, oldOpen := StripComments(content, oldOpen, oldSyntax);
        Append("-", content);
        return;
      }
      if line[0] == '+' {
        content, newOpen := StripComments(content, newOpen, newSyntax);
        Append("+", content);
        return;
      }
      var oldContent, newContent;
      oldContent, oldOpen := StripComments(content, oldOpen, oldSyntax);
      newContent, newOpen := StripComments(content, newOpen, newSyntax);
      AppendSides(oldContent, newContent);
    }

    /** Append what an unchanged line is on both sides, once where they agree. */
    method AppendSides(oldContent: string, newContent: string)
      requires Trim(oldContent, IsByteSpace) == "" <==> oldContent == ""
      requires Trim(newContent, IsByteSpace) == "" <==> newContent == ""
      modifies this`normalized
      ensures normalized == old(normalized) + Sides(oldContent, newContent)
    {
      hide NonEmpty, Trim;
      ghost var done := normalized;
      if oldContent == newContent {
        Append(" ", oldContent);
        return;
      }
      Append("< ", oldContent);
      Append("> ", newContent);
      Associates(done, NonEmpty("< ", oldContent), NonEmpty("> ", newContent));
    }

    method Accept(raw: string)
      modifies this
      ensures var o := OnLine(old(Reached()).state, raw);
              Reached() == Outcome(o.state, old(normalized) + o.lines)
    {
      hide OnLine, OnContent, IsByteSpace, SyntaxForPath, Trim, TrimRight, Heading, NonEmpty, AfterOther,
        IsFileHeader, IsBlobIndex, IsHunkHeader, IsOldPath, IsNewPath;
      var line := TrimRight(raw, IsByteSpace);
      ghost var s := Reached().state;
      LineCases(s, raw);
      FirstCharacter(line);
      NothingMore(normalized);
      if IsFileHeader(line) {
        oldOpen, newOpen, oldSyntax, newSyntax, inHunk := false, false, NO_COMMENTS, NO_COMMENTS, false;
        normalized := normalized + [line];
        return;
      }
      if IsBlobIndex(line) {
        return;
      }
      if !inHunk && IsOldPath(line) {
        oldSyntax := SyntaxForPath(line[4..]);
      }
      if !inHunk && IsNewPath(line) {
        newSyntax := SyntaxForPath(line[4..]);
      }
      if IsHunkHeader(line) {
        inHunk := true;
        normalized := normalized + [HeadingOf(line)];
        return;
      }
      OtherState(s, line);
      if !inHunk || line == [] || (line[0] != '+' && line[0] != '-' && line[0] != ' ') {
        TrimmedBlank(raw);
        Append("", line);
        return;
      }
      AcceptContent(line);
    }
  }

  /** The heading of a hunk as the loop puts it together. */
  function HeadingOf(line: string): (r: string)
    ensures r == Heading(line)
  {
    hide Trim, Find;
    var end := Find(line, "@@", 2);
    var suffix := if end != -1 then Trim(line[end + 2..], IsByteSpace) else "";
    assert "@@" + "" == "@@" && "@@" + (" " + suffix) == "@@ " + suffix;
    "@@" + if suffix != "" then " " + suffix else ""
  }

  lemma NothingMore<T>(a: seq<T>)
    ensures a + [] == a
  {
  }

  /** A line outside hunks names at most one of the files. */
  lemma OtherState(s: State, line: string)
    ensures AfterOther(s, line) == s.(oldSyntax := if !s.inHunk && IsOldPath(line) then SyntaxForPath(line[4..]) else s.oldSyntax,
                                      newSyntax := if !s.inHunk && IsNewPath(line) then SyntaxForPath(line[4..]) else s.newSyntax)
  {
    hide SyntaxForPath, IsOldPath, IsNewPath;
    FirstCharacter(line);
  }

  /** What a line does, kind by kind. */
  lemma LineCases(s: State, raw: string)
    ensures var line := TrimRight(raw, IsByteSpace);
            if IsFileHeader(line) then OnLine(s, raw) == Outcome(INITIAL, [line])
            else if IsBlobIndex(line) then OnLine(s, raw) == Outcome(s, [])
            else if IsHunkHeader(line) then OnLine(s, raw) == Outcome(s.(inHunk := true), [Heading(line)])
            else if !s.inHunk || line == [] || (line[0] != '+' && line[0] != '-' && line[0] != ' ')
            then OnLine(s, raw) == Outcome(AfterOther(s, line), NonEmpty("", line))
            else OnLine(s, raw) == OnContent(s, line)
  {
    hide OnContent, TrimRight, Heading, AfterOther, NonEmpty, IsFileHeader, IsBlobIndex, IsHunkHeader;
  }

  /** What a line of a hunk does, by its mark. */
  lemma ContentCases(s: State, line: string)
    requires line != []
    ensures var o, n := Strip(line[1..], s.oldOpen, s.oldSyntax), Strip(line[1..], s.newOpen, s.newSyntax);
            if line[0] == '-' then OnContent(s, line) == Outcome(s.(oldOpen := o.open), NonEmpty("-", o.text))
            else if line[0] == '+' then OnContent(s, line) == Outcome(s.(newOpen := n.open), NonEmpty("+", n.text))
            else OnContent(s, line) == Outcome(s.(oldOpen := o.open, newOpen := n.open), Sides(o.text, n.text))
  {
    hide Strip, NonEmpty, Sides;
  }

  method Normalise(data: string) returns (normalized: seq<string>)
    ensures normalized == Normalised(data)
  {
    hide OnLine, Run, Plain, Trim, TrimRight;
    var git := IsGitDiff(data);
    var lines := SplitLines(data);
    var plain := [];
    var diff := new Normaliser();
    NothingYet();
    for k := 0 to |lines|
      invariant !git ==> plain == Plain(lines[..k])
      invariant git ==> diff.Reached() == Run(INITIAL, lines[..k])
    {
      OneMore(lines, k);
      if !git {
        var line := TrimRight(lines[k], IsByteSpace);
        TrimmedBlank(lines[k]);
        assert plain + [] == plain && "" + line == line;
        if Trim(line, IsByteSpace) != "" {
          plain := plain + [line];
        }
      } else {
        diff.Accept(lines[k]);
      }
    }
    assert lines[..|lines|] == lines;
    return if git then diff.normalized else plain;
  }

  lemma NothingYet()
    ensures Run(INITIAL, []) == Outcome(INITIAL, []) && Plain([]) == []
  {
  }

  lemma StrippedBlank(line: string, inBlock: bool, syntax: Syntax)
    ensures var text := Strip(line, inBlock, syntax).text; Trim(text, IsByteSpace) == "" <==> text == ""
  {
  }

  lemma OneMore(lines: seq<string>, k: nat)
    requires k < |lines|
    ensures var before := Run(INITIAL, lines[..k]);
            var o := OnLine(before.state, lines[k]);
            Run(INITIAL, lines[..k + 1]) == Outcome(o.state, before.lines + o.lines)
    ensures Plain(lines[..k + 1]) == Plain(lines[..k]) + NonEmpty("", TrimRight(lines[k], IsByteSpace))
  {
    hide OnLine, Run, Plain;
    assert lines[..k + 1] == lines[..k] + [lines[k]];
    RunAppend(INITIAL, lines[..k], [lines[k]]);
    RunOne(Run(INITIAL, lines[..k]).state, lines[k]);
    PlainAppend(lines[..k], [lines[k]]);
    PlainOne(lines[k]);
  }

  // ---------------------------------------------------------------------------
  // What the normalised list does not depend on

  /** A line that emits nothing and changes nothing can be left out, and only such a line can be
      left out of a diff whatever follows it. */
  lemma IdleLine(a: seq<string>, x: string, b: seq<string>)
    requires OnLine(Run(INITIAL, a).state, x) == Outcome(Run(INITIAL, a).state, [])
    ensures Normal(true, a + [x] + b) == Normal(true, a + b)
  {
    hide OnLine, Run;
    var first := Run(INITIAL, a);
    RunAppend(INITIAL, a + [x], b);
    RunAppend(INITIAL, a, [x]);
    RunOne(first.state, x);
    RunAppend(INITIAL, a, b);
    assert first.lines + [] == first.lines;
  }

  /** A line that is kept outside git diffs makes the list longer there. */
  lemma KeptOutside(a: seq<string>, x: string, b: seq<string>)
    requires TrimRight(x, IsByteSpace) != ""
    ensures |Normal(false, a + [x] + b)| == |Normal(false, a + b)| + 1
  {
    hide Plain, TrimRight;
    PlainAppend(a + [x], b);
    PlainAppend(a, [x]);
    PlainAppend(a, b);
    PlainOne(x);
  }

  /** Blob index lines are left out of a git diff, and only there. */
  lemma IndexLineIgnored(git: bool, a: seq<string>, x: string, b: seq<string>)
    requires IsBlobIndex(TrimRight(x, IsByteSpace))
    ensures Normal(git, a + [x] + b) == Normal(git, a + b) <==> git
  {
    hide Run, Plain, Normal, TrimRight;
    FirstCharacter(TrimRight(x, IsByteSpace));
    if git {
      IdleLine(a, x, b);
    } else {
      KeptOutside(a, x, b);
    }
  }

  /** Lines that do the same in every state can be exchanged. */
  lemma SameEffect(a: seq<string>, x: string, y: string, b: seq<string>)
    requires forall s :: OnLine(s, x) == OnLine(s, y)
    ensures Normal(true, a + [x] + b) == Normal(true, a + [y] + b)
  {
    hide OnLine, Run;
    var first := Run(INITIAL, a);
    RunAppend(INITIAL, a + [x], b);
    RunAppend(INITIAL, a + [y], b);
    RunAppend(INITIAL, a, [x]);
    RunAppend(INITIAL, a, [y]);
    RunOne(first.state, x);
    RunOne(first.state, y);
  }

  /** The coordinates of a hunk do not matter. */
  lemma HunkCoordinatesIgnored(a: seq<string>, x: string, y: string, heading: string, b: seq<string>)
    requires !Contains(x + "@", "@@") && !Contains(y + "@", "@@")
    ensures Normal(true, a + ["@@" + x + "@@" + heading] + b) == Normal(true, a + ["@@" + y + "@@" + heading] + b)
  {
    hide Run, Normal, Contains;
    forall s: State ensures OnLine(s, "@@" + x + "@@" + heading) == OnLine(s, "@@" + y + "@@" + heading) {
      HunkHeaderEffect(s, x, heading);
      HunkHeaderEffect(s, y, heading);
    }
    SameEffect(a, "@@" + x + "@@" + heading, "@@" + y + "@@" + heading, b);
  }

  lemma HunkHeaderEffect(s: State, x: string, heading: string)
    requires !Contains(x + "@", "@@")
    ensures OnLine(s, "@@" + x + "@@" + heading) ==
            Outcome(s.(inHunk := true), [var h := Trim(heading, IsByteSpace); if h == "" then "@@" else "@@ " + h])
  {
    hide Trim, TrimRight, Find, OccursAt, IsByteSpace;
    var line := "@@" + x + "@@" + heading;
    var trimmed := TrimRight(line, IsByteSpace);
    HunkTrimmed(x, heading);
    var tail := TrimRight(heading, IsByteSpace);
    HunkFind(x, tail);
    FirstCharacter(trimmed);
    assert trimmed[..2] == "@@";
    assert trimmed[2 + |x| + 2..] == tail;
    TrimBoth(heading, IsByteSpace);
  }

  lemma HunkTrimmed(x: string, heading: string)
    ensures TrimRight("@@" + x + "@@" + heading, IsByteSpace) == "@@" + x + "@@" + TrimRight(heading, IsByteSpace)
  {
    hide TrimRight;
    TrimBehind("@@" + x + "@@", heading);
  }

  lemma TrimBehind(front: string, heading: string)
    requires front != "" && !IsByteSpace(front[|front| - 1])
    ensures TrimRight(front + heading, IsByteSpace) == front + TrimRight(heading, IsByteSpace)
  {
    hide TrimRight;
    var tail := TrimRight(heading, IsByteSpace);
    var rest := heading[|tail|..];
    assert front + heading == (front + tail) + rest;
    TrimRightPart(front + tail, rest, IsByteSpace);
  }

  lemma OccursInCoordinates(x: string, tail: string, i: nat)
    requires 2 <= i < 2 + |x| && OccursAt("@@" + x + "@@" + tail, "@@", i)
    ensures Contains(x + "@", "@@")
  {
    var line := "@@" + x + "@@" + tail;
    assert (x + "@")[i - 2..i] == line[i..i + 2];
    assert OccursAt(x + "@", "@@", i - 2);
  }

  lemma HunkFind(x: string, tail: string)
    requires !Contains(x + "@", "@@")
    ensures Find("@@" + x + "@@" + tail, "@@", 2) == 2 + |x|
  {
    var line := "@@" + x + "@@" + tail;
    assert line[2 + |x|..2 + |x| + 2] == "@@";
    assert OccursAt(line, "@@", 2 + |x|);
    forall i | 2 <= i < 2 + |x| ensures !OccursAt(line, "@@", i) {
      if OccursAt(line, "@@", i) {
        OccursInCoordinates(x, tail, i);
      }
    }
  }

  /** White space at the ends of lines does not matter. */
  lemma {:induction false} TrailingSpaceRun(s: State, l: seq<string>, m: seq<string>)
    requires SameTrimmed(l, m)
    ensures Run(s, l) == Run(s, m)
    decreases |l|
  {
    if l != [] {
      assert OnLine(s, l[0]) == OnLine(s, m[0]);
      TrailingSpaceRun(OnLine(s, l[0]).state, l[1..], m[1..]);
    }
  }

  lemma {:induction false} TrailingSpacePlain(l: seq<string>, m: seq<string>)
    requires SameTrimmed(l, m)
    ensures Plain(l) == Plain(m)
  {
    if l != [] {
      TrailingSpacePlain(l[1..], m[1..]);
    }
  }

  /** The same lines up to white space at their ends. */
  ghost predicate SameTrimmed(l: seq<string>, m: seq<string>) {
    |l| == |m| && forall i :: 0 <= i < |l| ==> TrimRight(l[i], IsByteSpace) == TrimRight(m[i], IsByteSpace)
  }

  lemma TrailingSpaceIgnored(git: bool, l: seq<string>, m: seq<string>)
    requires SameTrimmed(l, m)
    ensures Normal(git, l) == Normal(git, m)
  {
    TrailingSpaceRun(INITIAL, l, m);
    TrailingSpacePlain(l, m);
  }

  // ---------------------------------------------------------------------------
  // Lines added to hunks

  ghost predicate IsMark(mark: char) {
    mark == '+' || mark == '-'
  }

  /** A blank added or removed line can be left out exactly inside a hunk of a git diff. */
  lemma BlankLineIgnored(git: bool, a: seq<string>, mark: char, blanks: string, b: seq<string>)
    requires IsMark(mark) && AllSpace(blanks, IsByteSpace)
    ensures Normal(git, a + [[mark] + blanks] + b) == Normal(git, a + b) <==> git && Run(INITIAL, a).state.inHunk
  {
    hide Run, Plain, Normal;
    var x := [mark] + blanks;
    var s := Run(INITIAL, a).state;
    BlankEffect(s, mark, blanks);
    if !git {
      KeptOutside(a, x, b);
    } else if s.inHunk {
      IdleLine(a, x, b);
    } else {
      KeptLine(a, x, b);
    }
  }

  lemma StripNothing(inBlock: bool, syntax: Syntax)
    ensures Strip("", inBlock, syntax) == Kept("", inBlock)
  {
  }

  lemma BlankEffect(s: State, mark: char, blanks: string)
    requires IsMark(mark) && AllSpace(blanks, IsByteSpace)
    ensures TrimRight([mark] + blanks, IsByteSpace) == [mark]
    ensures OnLine(s, [mark] + blanks) == Outcome(s, if s.inHunk then [] else [[mark]])
  {
    hide Strip, TrimRight, Keep, IsFileHeader, IsBlobIndex, IsHunkHeader;
    TrimRightUnique([mark] + blanks, [mark], IsByteSpace);
    FirstCharacter([mark]);
    assert [mark][1..] == "";
    StripNothing(s.oldOpen, s.oldSyntax);
    StripNothing(s.newOpen, s.newSyntax);
    assert "" + [mark] == [mark];
  }

  /** A line that emits itself and changes nothing makes the list longer. */
  lemma KeptLine(a: seq<string>, x: string, b: seq<string>)
    requires var s := Run(INITIAL, a).state; OnLine(s, x).state == s && |OnLine(s, x).lines| == 1
    ensures |Normal(true, a + [x] + b)| == |Normal(true, a + b)| + 1
  {
    hide OnLine, Run;
    var first := Run(INITIAL, a);
    RunAppend(INITIAL, a + [x], b);
    RunAppend(INITIAL, a, [x]);
    RunOne(first.state, x);
    RunAppend(INITIAL, a, b);
  }

  ghost predicate OpensHunk(raw: string) {
    IsHunkHeader(TrimRight(raw, IsByteSpace))
  }

  ghost predicate OpensFile(raw: string) {
    IsFileHeader(TrimRight(raw, IsByteSpace))
  }

  /** A hunk is open behind the lines exactly when a hunk header comes after the last file header. */
  lemma {:induction false} HunkOpen(a: seq<string>)
    ensures Run(INITIAL, a).state.inHunk <==>
            exists i :: 0 <= i < |a| && OpensHunk(a[i]) && forall j :: i < j < |a| ==> !OpensFile(a[j])
  {
    hide OnLine, OpensHunk, OpensFile, TrimRight, Run;
    if a == [] {
      NothingYet();
    } else {
      var n := |a| - 1;
      var init := a[..n];
      HunkOpen(init);
      OneMore(a, n);
      assert a[..n + 1] == a;
      HunkAfter(Run(INITIAL, init).state, a[n]);
      LatestHunk(a, n);
    }
  }

  lemma LatestHunk(a: seq<string>, n: nat)
    requires |a| == n + 1
    ensures (exists i :: 0 <= i <= n && OpensHunk(a[i]) && forall j :: i < j <= n ==> !OpensFile(a[j])) <==>
            OpensHunk(a[n])
            || (!OpensFile(a[n]) && var init := a[..n];
                exists i :: 0 <= i < n && OpensHunk(init[i]) && forall j :: i < j < n ==> !OpensFile(init[j]))
  {
    hide OpensHunk, OpensFile;
    var init := a[..n];
    if i :| 0 <= i < n && OpensHunk(init[i]) && forall j :: i < j < n ==> !OpensFile(init[j]) {
      if !OpensFile(a[n]) {
        assert OpensHunk(a[i]);
        forall j | i < j <= n ensures !OpensFile(a[j]) {
          assert j < n ==> a[j] == init[j];
        }
      }
    }
    if i :| 0 <= i <= n && OpensHunk(a[i]) && forall j :: i < j <= n ==> !OpensFile(a[j]) {
      if i < n {
        assert OpensHunk(init[i]);
        assert !OpensFile(a[n]);
      }
    }
    assert OpensHunk(a[n]) ==> exists i :: i == n && OpensHunk(a[i]);
  }

  lemma HunkAfter(s: State, raw: string)
    ensures OnLine(s, raw).state.inHunk <==> OpensHunk(raw) || (s.inHunk && !OpensFile(raw))
  {
    hide Strip, SyntaxForPath, TrimRight;
    FirstCharacter(TrimRight(raw, IsByteSpace));
  }

  // ---------------------------------------------------------------------------
  // Comments added to hunks

  ghost function Marked(mark: char, lines: seq<string>): (r: seq<string>)
    ensures |r| == |lines|
    ensures forall i :: 0 <= i < |r| ==> r[i] == [mark] + lines[i]
  {
    seq(|lines|, i requires 0 <= i < |lines| => [mark] + lines[i])
  }

  ghost function Open(s: State, mark: char): bool {
    if mark == '-' then s.oldOpen else s.newOpen
  }

  ghost function SyntaxOf(s: State, mark: char): Syntax {
    if mark == '-' then s.oldSyntax else s.newSyntax
  }

  ghost function WithOpen(s: State, mark: char, open: bool): State {
    if mark == '-' then s.(oldOpen := open) else s.(newOpen := open)
  }

  /** An added or removed line of a hunk is stripped as a line of its file. */
  lemma MarkedEffect(s: State, mark: char, line: string)
    requires IsMark(mark) && s.inHunk
    ensures var k := Strip(line, Open(s, mark), SyntaxOf(s, mark));
            OnLine(s, [mark] + line) == Outcome(WithOpen(s, mark, k.open), NonEmpty([mark], k.text))
  {
    hide Strip, TrimRight, IsByteSpace, IsFileHeader, IsBlobIndex, IsHunkHeader;
    var short := TrimRight(line, IsByteSpace);
    var trimmed := [mark] + short;
    MarkedTrim(mark, line);
    FirstCharacter(trimmed);
    assert trimmed[1..] == short;
    StripTrailing(line, Open(s, mark), SyntaxOf(s, mark));
  }

  lemma MarkedTrim(mark: char, line: string)
    requires IsMark(mark)
    ensures TrimRight([mark] + line, IsByteSpace) == [mark] + TrimRight(line, IsByteSpace)
  {
    hide TrimRight;
    var short := TrimRight(line, IsByteSpace);
    var raw, trimmed := [mark] + line, [mark] + short;
    assert line == short + line[|short|..];
    assert raw == trimmed + line[|short|..];
    assert raw[|trimmed|..] == line[|short|..];
    assert short != [] ==> trimmed[|trimmed| - 1] == short[|short| - 1];
    TrimRightUnique(raw, trimmed, IsByteSpace);
  }

  /** Every line strips to nothing, and the last one leaves block comments as the first found them. */
  ghost predicate OnlyComments(lines: seq<string>, open: bool, end: bool, syntax: Syntax) {
    if lines == [] then open == end
    else
      var k := Strip(lines[0], open, syntax);
      k.text == "" && OnlyComments(lines[1..], k.open, end, syntax)
  }

  lemma {:induction false} CommentsEmitNothing(s: State, mark: char, lines: seq<string>, end: bool)
    requires IsMark(mark) && s.inHunk && OnlyComments(lines, Open(s, mark), end, SyntaxOf(s, mark))
    ensures Run(s, Marked(mark, lines)) == Outcome(WithOpen(s, mark, end), [])
    decreases |lines|
  {
    hide OnLine, Strip;
    if lines != [] {
      MarkedEffect(s, mark, lines[0]);
      assert Marked(mark, lines)[1..] == Marked(mark, lines[1..]);
      CommentsEmitNothing(OnLine(s, [mark] + lines[0]).state, mark, lines[1..], end);
    }
  }

  /** Added or removed lines of nothing but comments can be left out of a hunk. */
  lemma CommentLinesIgnored(a: seq<string>, mark: char, lines: seq<string>, b: seq<string>)
    requires var s := Run(INITIAL, a).state;
             IsMark(mark) && s.inHunk && OnlyComments(lines, Open(s, mark), Open(s, mark), SyntaxOf(s, mark))
    ensures Normal(true, a + Marked(mark, lines) + b) == Normal(true, a + b)
  {
    hide OnlyComments, Run;
    var first := Run(INITIAL, a);
    RunAppend(INITIAL, a + Marked(mark, lines), b);
    RunAppend(INITIAL, a, Marked(mark, lines));
    RunAppend(INITIAL, a, b);
    CommentsEmitNothing(first.state, mark, lines, Open(first.state, mark));
    assert first.lines + [] == first.lines;
  }
}
