/** Which changes to the bytes of a patch leave its normalised line list as it is. */
module PatchFiles {
  import opened Basics
  import opened Strings
  import opened LineComments
  import opened Fingerprint

  ghost predicate AreLines(lines: seq<string>) {
    forall i :: 0 <= i < |lines| ==> '\n' !in lines[i] && '\r' !in lines[i]
  }

  /** The file with these lines, each ended by a line feed. */
  ghost function Unlines(lines: seq<string>): string {
    if lines == [] then "" else lines[0] + "\n" + Unlines(lines[1..])
  }

  ghost predicate StartsFile(line: string) {
    GIT_HEADER <= line
  }

  ghost predicate HasFile(lines: seq<string>) {
    exists i :: 0 <= i < |lines| && StartsFile(lines[i])
  }

  // ---------------------------------------------------------------------------
  // Files and lines

  lemma {:induction false} FirstLineEnd(l: string, rest: string)
    requires '\n' !in l && '\r' !in l
    ensures LineEnd(l + "\n" + rest) == |l|
  {
    if l != [] {
      assert (l + "\n" + rest)[1..] == l[1..] + "\n" + rest;
      FirstLineEnd(l[1..], rest);
    }
  }

  lemma {:induction false} SplitUnlines(lines: seq<string>)
    requires AreLines(lines)
    ensures SplitLines(Unlines(lines)) == lines
  {
    if lines != [] {
      SplitUnlines(lines[1..]);
      var data := Unlines(lines);
      FirstLineEnd(lines[0], Unlines(lines[1..]));
      var e := |lines[0]|;
      assert data[..e] == lines[0] && data[e + 1..] == Unlines(lines[1..]);
    }
  }

  lemma OccursNow(l: string, rest: string, h: string)
    ensures OccursAt(l + "\n" + rest, "\n" + h, |l|) <==> h <= rest
  {
    var data := l + "\n" + rest;
    if OccursAt(data, "\n" + h, |l|) {
      assert data[|l|..|l| + 1 + |h|][1..] == rest[..|h|];
      assert ("\n" + h)[1..] == h;
    }
    if h <= rest {
      assert data[|l|..|l| + 1 + |h|] == "\n" + rest[..|h|];
    }
  }

  lemma OccursLater(l: string, rest: string, h: string, i: int)
    requires i > |l|
    ensures OccursAt(l + "\n" + rest, "\n" + h, i) <==> OccursAt(rest, "\n" + h, i - |l| - 1)
  {
    var data, j := l + "\n" + rest, i - |l| - 1;
    if i + 1 + |h| <= |data| {
      assert data[i..i + 1 + |h|] == rest[j..j + 1 + |h|];
    }
  }

  lemma OccursNotBefore(l: string, rest: string, h: string, i: int)
    requires '\n' !in l && OccursAt(l + "\n" + rest, "\n" + h, i)
    ensures i >= |l|
  {
    var data := l + "\n" + rest;
    assert data[i..i + 1 + |h|][0] == data[i] == '\n';
    assert forall k :: 0 <= k < |l| ==> data[k] == l[k] && l[k] in l;
  }

  /** A text behind a line feed is found either right behind the first line or further on. */
  lemma FoundBehind(l: string, rest: string, h: string)
    requires '\n' !in l
    ensures Contains(l + "\n" + rest, "\n" + h) <==> h <= rest || Contains(rest, "\n" + h)
  {
    hide OccursAt;
    var data := l + "\n" + rest;
    OccursNow(l, rest, h);
    if i :| OccursAt(data, "\n" + h, i) {
      OccursNotBefore(l, rest, h, i);
      if i > |l| {
        OccursLater(l, rest, h, i);
      }
    }
    if i :| OccursAt(rest, "\n" + h, i) {
      Natural(rest, "\n" + h, i);
      OccursLater(l, rest, h, i + |l| + 1);
    }
  }

  lemma Natural(s: string, p: string, i: int)
    requires OccursAt(s, p, i)
    ensures i >= 0
  {
  }

  lemma FindContains(s: string, p: string)
    ensures Find(s, p, 0) != -1 <==> Contains(s, p)
  {
  }

  lemma HeaderFirst(lines: seq<string>)
    ensures GIT_HEADER <= Unlines(lines) <==> lines != [] && StartsFile(lines[0])
  {
    if lines != [] {
      var l, data := lines[0], Unlines(lines);
      assert data[|l|] == '\n';
      assert forall k :: 0 <= k < |GIT_HEADER| ==> GIT_HEADER[k] != '\n';
      if GIT_HEADER <= data && |l| >= |GIT_HEADER| {
        assert l[..|GIT_HEADER|] == data[..|GIT_HEADER|];
      }
      if GIT_HEADER <= l {
        assert data[..|GIT_HEADER|] == l[..|GIT_HEADER|];
      }
    }
  }

  lemma {:induction false} GitUnlines(lines: seq<string>)
    requires AreLines(lines)
    ensures IsGitDiff(Unlines(lines)) <==> HasFile(lines)
  {
    hide Find, Contains, StartsFile;
    var h := GIT_HEADER;
    HeaderFirst(lines);
    FindContains(Unlines(lines), "\n" + h);
    if lines == [] {
      NothingContained("\n" + h);
    } else {
      var rest := lines[1..];
      GitUnlines(rest);
      FindContains(Unlines(rest), "\n" + h);
      FoundBehind(lines[0], Unlines(rest), h);
      assert HasFile(lines) <==> StartsFile(lines[0]) || HasFile(rest) by {
        if i :| 0 <= i < |lines| && StartsFile(lines[i]) {
          assert i > 0 ==> StartsFile(rest[i - 1]);
        }
        if i :| 0 <= i < |rest| && StartsFile(rest[i]) {
          assert StartsFile(lines[i + 1]);
        }
      }
    }
  }

  lemma NothingContained(p: string)
    requires p != []
    ensures !Contains("", p)
  {
  }

  // ---------------------------------------------------------------------------
  // Changes that do not matter, for any bytes and any line ends

  /** Blob index lines can be left out of a patch exactly if it is a git diff. */
  lemma IndexLineIgnoredInData(d: string, e: string, a: seq<string>, x: string, b: seq<string>)
    requires SplitLines(d) == a + [x] + b && SplitLines(e) == a + b && (IsGitDiff(d) <==> IsGitDiff(e))
    requires IsBlobIndex(TrimRight(x, IsByteSpace))
    ensures Normalised(d) == Normalised(e) <==> IsGitDiff(d)
  {
    hide SplitLines, IsGitDiff, Normal, TrimRight;
    IndexLineIgnored(IsGitDiff(d), a, x, b);
  }

  /** Hunk coordinates can be altered exactly in a git diff. */
  lemma HunkCoordinatesIgnoredInData(d: string, e: string, a: seq<string>, x: string, y: string, heading: string,
                                     b: seq<string>)
    requires SplitLines(d) == a + ["@@" + x + "@@" + heading] + b
    requires SplitLines(e) == a + ["@@" + y + "@@" + heading] + b
    requires (IsGitDiff(d) <==> IsGitDiff(e)) && !Contains(x + "@", "@@") && !Contains(y + "@", "@@")
    ensures Normalised(d) == Normalised(e) <==> IsGitDiff(d) || x == y
  {
    hide SplitLines, IsGitDiff, Normal, Contains, TrimRight, IsByteSpace;
    if IsGitDiff(d) {
      HunkCoordinatesIgnored(a, x, y, heading, b);
    } else if x != y {
      HunkTrimmed(x, heading);
      HunkTrimmed(y, heading);
      HeadersDiffer(x, y, TrimRight(heading, IsByteSpace));
      PlainDiffers(a, "@@" + x + "@@" + heading, "@@" + y + "@@" + heading, b);
    }
  }

  /** A blank added or removed line can be left out exactly inside a hunk of a git diff. */
  lemma BlankLineIgnoredInData(d: string, e: string, a: seq<string>, mark: char, blanks: string, b: seq<string>)
    requires SplitLines(d) == a + [[mark] + blanks] + b && SplitLines(e) == a + b && (IsGitDiff(d) <==> IsGitDiff(e))
    requires IsMark(mark) && AllSpace(blanks, IsByteSpace)
    ensures Normalised(d) == Normalised(e) <==>
            && IsGitDiff(d)
            && exists i :: 0 <= i < |a| && OpensHunk(a[i]) && forall j :: i < j < |a| ==> !OpensFile(a[j])
  {
    hide SplitLines, IsGitDiff, Normal, Run, OpensHunk, OpensFile, AllSpace;
    BlankLineIgnored(IsGitDiff(d), a, mark, blanks, b);
    HunkOpen(a);
  }

  /** The blank line that a line feed adds to data that is empty or ends in one. */
  ghost function Gap(d: string): seq<string> {
    if d == "" || d[|d| - 1] == '\n' then [""] else []
  }

  lemma {:induction false} SameLineEnd(d: string, more: string)
    ensures LineEnd(d) < |d| ==> LineEnd(d + more) == LineEnd(d)
  {
    if d != [] && d[0] != '\n' && d[0] != '\r' {
      assert (d + more)[1..] == d[1..] + more;
      SameLineEnd(d[1..], more);
    }
  }

  lemma DropBefore(d: string, u: string, k: nat)
    requires k <= |d|
    ensures (d + "\n" + u)[k..] == d[k..] + "\n" + u
  {
  }

  /** Where the second line starts. */
  ghost function Second(data: string): (k: nat)
    requires LineEnd(data) < |data|
    ensures LineEnd(data) < k <= |data|
  {
    var e := LineEnd(data);
    if data[e] == '\r' && e + 1 < |data| && data[e + 1] == '\n' then e + 2 else e + 1
  }

  lemma SplitOff(data: string)
    ensures LineEnd(data) < |data| ==> SplitLines(data) == [data[..LineEnd(data)]] + SplitLines(data[Second(data)..])
    ensures LineEnd(data) == |data| ==> SplitLines(data) == if data == "" then [] else [data]
  {
  }

  /** Characters of data followed by more. */
  lemma FollowedAt(d: string, u: string)
    ensures var all := d + "\n" + u;
            && |all| == |d| + 1 + |u| && (forall i :: 0 <= i < |d| ==> all[i] == d[i]) && all[|d|] == '\n'
            && all[|d| + 1..] == u && forall k :: 0 <= k <= |d| ==> all[..k] == d[..k]
  {
    var all := d + "\n" + u;
    forall k | 0 <= k <= |d| ensures all[..k] == d[..k] {
    }
  }

  /** The first line of data followed by more. */
  lemma SecondFollowed(d: string, u: string)
    requires LineEnd(d) < |d|
    ensures var all := d + "\n" + u;
            && LineEnd(all) == LineEnd(d) < |all| && all[..LineEnd(d)] == d[..LineEnd(d)]
            && if d[|d| - 1] == '\r' && LineEnd(d) == |d| - 1 then all[Second(all)..] == u && d[Second(d)..] == ""
               else all[Second(all)..] == d[Second(d)..] + "\n" + u
  {
    hide LineEnd, Second;
    var all := d + "\n" + u;
    FollowedAt(d, u);
    FollowedEnd(d, u);
    SecondStays(d, u);
    if d[|d| - 1] == '\r' && LineEnd(d) == |d| - 1 {
    } else {
      DropBefore(d, u, Second(d));
    }
  }

  lemma FollowedEnd(d: string, u: string)
    requires LineEnd(d) < |d|
    ensures LineEnd(d + "\n" + u) == LineEnd(d)
  {
    hide LineEnd;
    assert d + "\n" + u == d + ("\n" + u);
    SameLineEnd(d, "\n" + u);
  }

  lemma SecondStays(d: string, u: string)
    requires LineEnd(d) < |d|
    ensures var all := d + "\n" + u;
            && LineEnd(all) < |all|
            && if d[|d| - 1] == '\r' && LineEnd(d) == |d| - 1 then Second(all) == |d| + 1 && Second(d) == |d|
               else Second(all) == Second(d)
  {
    hide LineEnd;
    FollowedEnd(d, u);
    FollowedAt(d, u);
  }

  /** Lines that follow data on a line of their own are split as such. */
  lemma {:induction false} SplitFollowed(d: string, u: string)
    ensures SplitLines(d + "\n" + u) == SplitLines(d) + Gap(d) + SplitLines(u)
    decreases |d|
  {
    hide LineEnd, SplitLines;
    var e, all := LineEnd(d), d + "\n" + u;
    SplitOff(d);
    SplitOff(all);
    if e == |d| {
      FirstLineEnd(d, u);
      assert all[..e] == d && all[e + 1..] == u;
    } else {
      SecondFollowed(d, u);
      var rest := d[Second(d)..];
      if d[|d| - 1] == '\r' && e == |d| - 1 {
        SplitOff("");
      } else {
        SplitFollowed(rest, u);
        assert Gap(rest) == Gap(d) by {
          assert rest != "" ==> rest[|rest| - 1] == d[|d| - 1];
        }
      }
    }
  }

  lemma OccursBefore(l: string, rest: string, h: string, i: int)
    requires '\n' !in h && i < |l|
    ensures OccursAt(l + "\n" + rest, "\n" + h, i) <==> OccursAt(l, "\n" + h, i)
  {
    var data, n := l + "\n" + rest, 1 + |h|;
    if 0 <= i && i + n <= |l| {
      assert data[i..i + n] == l[i..i + n];
    } else if 0 <= i && i + n <= |data| {
      assert data[i..i + n][|l| - i] == '\n';
      assert ("\n" + h)[|l| - i] == h[|l| - i - 1];
      assert h[|l| - i - 1] in h;
    }
  }

  /** A text behind a line feed is found in the first part, right behind it, or further on. */
  lemma FoundAcross(l: string, rest: string, h: string)
    requires '\n' !in h
    ensures Contains(l + "\n" + rest, "\n" + h) <==> Contains(l, "\n" + h) || h <= rest || Contains(rest, "\n" + h)
  {
    hide OccursAt;
    var data := l + "\n" + rest;
    OccursNow(l, rest, h);
    if i :| OccursAt(data, "\n" + h, i) {
      if i < |l| {
        OccursBefore(l, rest, h, i);
      } else if i > |l| {
        OccursLater(l, rest, h, i);
      }
    }
    if i :| OccursAt(l, "\n" + h, i) {
      Within(l, "\n" + h, i);
      OccursBefore(l, rest, h, i);
    }
    if i :| OccursAt(rest, "\n" + h, i) {
      Natural(rest, "\n" + h, i);
      OccursLater(l, rest, h, i + |l| + 1);
    }
  }

  lemma Within(s: string, p: string, i: int)
    requires OccursAt(s, p, i) && p != []
    ensures i < |s|
  {
  }

  lemma HeaderBefore(d: string, u: string)
    ensures GIT_HEADER <= d + "\n" + u <==> GIT_HEADER <= d
  {
    var data := d + "\n" + u;
    assert data[|d|] == '\n';
    assert forall k :: 0 <= k < |GIT_HEADER| ==> GIT_HEADER[k] != '\n';
    if |GIT_HEADER| <= |d| {
      assert data[..|GIT_HEADER|] == d[..|GIT_HEADER|];
    }
  }

  /** Following lines make a git diff of data that was none exactly if they contain a file header. */
  lemma GitFollowed(d: string, more: seq<string>)
    requires AreLines(more)
    ensures IsGitDiff(d + "\n" + Unlines(more)) <==> IsGitDiff(d) || HasFile(more)
  {
    hide Find, Contains, StartsFile, HasFile;
    var u, h := Unlines(more), GIT_HEADER;
    HeaderBefore(d, u);
    FindContains(d + "\n" + u, "\n" + h);
    FindContains(d, "\n" + h);
    assert '\n' !in h;
    FoundAcross(d, u, h);
    GitUnlines(more);
    FindContains(u, "\n" + h);
  }

  /** A blank line does nothing. */
  lemma BlankDoesNothing(git: bool, a: seq<string>, b: seq<string>)
    ensures Normal(git, a + [""] + b) == Normal(git, a + b)
  {
    hide Run, Plain;
    if git {
      BlankIsIdle(Run(INITIAL, a).state);
      IdleLine(a, "", b);
    } else {
      PlainAppend(a + [""], b);
      PlainAppend(a, [""]);
      PlainAppend(a, b);
      PlainOne("");
      assert Plain(a) + [] == Plain(a);
    }
  }

  lemma BlankIsIdle(s: State)
    ensures OnLine(s, "") == Outcome(s, [])
  {
    FirstCharacter("");
  }

  /** Data followed by lines of its own. */
  lemma NormalisedFollowed(d: string, more: seq<string>)
    requires AreLines(more)
    ensures Normalised(d + "\n" + Unlines(more)) == Normal(IsGitDiff(d) || HasFile(more), SplitLines(d) + more)
  {
    hide SplitLines, IsGitDiff, Normal, HasFile, AreLines, Unlines;
    GitFollowed(d, more);
    SplitFollowed(d, Unlines(more));
    SplitUnlines(more);
    var git := IsGitDiff(d) || HasFile(more);
    if Gap(d) == [""] {
      BlankDoesNothing(git, SplitLines(d), more);
    } else {
      assert SplitLines(d) + [] == SplitLines(d);
    }
  }

  /** Two patches that differ only in white space at the ends of lines, line ends included, normalise
      alike, whatever lines follow, exactly when both are git diffs or neither is. */
  lemma TrailingSpaceIgnoredInData(d: string, e: string)
    requires SameTrimmed(SplitLines(d), SplitLines(e))
    ensures (IsGitDiff(d) <==> IsGitDiff(e)) ==> Normalised(d) == Normalised(e)
    ensures (forall more: seq<string> | AreLines(more) ::
               Normalised(d + "\n" + Unlines(more)) == Normalised(e + "\n" + Unlines(more)))
            <==> (IsGitDiff(d) <==> IsGitDiff(e))
  {
    hide Normalised, Unlines, HasFile, AreLines, SameTrimmed, SplitLines, IsGitDiff;
    if IsGitDiff(d) <==> IsGitDiff(e) {
      SameAlone(d, e);
      forall more: seq<string> | AreLines(more)
        ensures Normalised(d + "\n" + Unlines(more)) == Normalised(e + "\n" + Unlines(more))
      {
        NormalisedFollowed(d, more);
        NormalisedFollowed(e, more);
        SameTrimmedAppend(SplitLines(d), SplitLines(e), more);
        TrailingSpaceIgnored(IsGitDiff(d) || HasFile(more), SplitLines(d) + more, SplitLines(e) + more);
      }
    } else {
      if IsGitDiff(d) {
        TellsApart(d, e);
      } else {
        TellsApart(e, d);
      }
      LineAlone();
      NoLines();
    }
  }

  lemma SameAlone(d: string, e: string)
    requires SameTrimmed(SplitLines(d), SplitLines(e)) && (IsGitDiff(d) <==> IsGitDiff(e))
    ensures Normalised(d) == Normalised(e)
  {
    hide SplitLines, IsGitDiff, SameTrimmed, Normal;
    TrailingSpaceIgnored(IsGitDiff(d), SplitLines(d), SplitLines(e));
  }

  /** If only one is a git diff, a blob index line behind them or nothing at all tells them apart. */
  lemma TellsApart(d: string, e: string)
    requires IsGitDiff(d) && !IsGitDiff(e)
    ensures Normalised(d + "\n" + Unlines([])) == Normalised(e + "\n" + Unlines([])) ==>
              Normalised(d + "\n" + Unlines(["index 0"])) != Normalised(e + "\n" + Unlines(["index 0"]))
  {
    hide Normalised, Unlines, HasFile, AreLines, SplitLines, IsGitDiff, Normal, TrimRight;
    var x, l, m := "index 0", SplitLines(d), SplitLines(e);
    LineAlone();
    NoLines();
    NormalisedFollowed(d, []);
    NormalisedFollowed(e, []);
    NormalisedFollowed(d, [x]);
    NormalisedFollowed(e, [x]);
    assert l + [x] + [] == l + [x] && m + [x] + [] == m + [x] && l + [] == l && m + [] == m;
    IndexLineIgnored(true, l, x, []);
    KeptOutside(m, x, []);
  }

  // ---------------------------------------------------------------------------
  // The same for a line taken out of, or altered in, the bytes of a patch

  /** What precedes a line: nothing, or bytes that end in a line feed. */
  ghost predicate IsBefore(p: string) {
    p == "" || p[|p| - 1] == '\n'
  }

  ghost predicate IsLineEnd(eol: string) {
    eol == "\n" || eol == "\r\n"
  }

  ghost predicate IsLine(x: string) {
    '\n' !in x && '\r' !in x
  }

  lemma GitJoined(l: string, y: string)
    ensures IsGitDiff(l + "\n" + y) <==> IsGitDiff(l) || IsGitDiff(y)
  {
    hide Find, Contains;
    var h := GIT_HEADER;
    HeaderBefore(l, y);
    assert '\n' !in h;
    FindContains(l + "\n" + y, "\n" + h);
    FindContains(l, "\n" + h);
    FindContains(y, "\n" + h);
    FoundAcross(l, y, h);
  }

  /** A patch taken apart before a line. */
  lemma TakenApart(p: string, y: string)
    requires IsBefore(p)
    ensures SplitLines(p + y) == SplitLines(p) + SplitLines(y)
    ensures IsGitDiff(p + y) <==> IsGitDiff(p) || IsGitDiff(y)
  {
    hide SplitLines, IsGitDiff, Gap;
    EmptyData();
    if p == "" {
      assert p + y == y && SplitLines("") + SplitLines(y) == SplitLines(y);
    } else {
      var l := p[..|p| - 1];
      assert p == l + "\n" + "" && p + y == l + "\n" + y;
      SplitFollowed(l, y);
      SplitFollowed(l, "");
      GitJoined(l, y);
      GitJoined(l, "");
      assert SplitLines(l) + Gap(l) + [] == SplitLines(l) + Gap(l);
    }
  }

  lemma EmptyData()
    ensures SplitLines("") == [] && !IsGitDiff("")
  {
  }

  lemma LineAhead(x: string, eol: string, q: string)
    requires IsLine(x) && IsLineEnd(eol)
    ensures SplitLines(x + eol + q) == [x] + SplitLines(q)
    ensures IsGitDiff(x + eol + q) <==> StartsFile(x) || IsGitDiff(q)
  {
    hide SplitLines, IsGitDiff;
    var l := if eol == "\n" then x else x + "\r";
    assert x + eol + q == l + "\n" + q;
    SplitFollowed(l, q);
    GitJoined(l, q);
    LineItself(x, l);
  }

  lemma LineItself(x: string, l: string)
    requires IsLine(x) && (l == x || l == x + "\r")
    ensures SplitLines(l) + Gap(l) == [x] && (IsGitDiff(l) <==> StartsFile(x))
  {
    hide Find, Contains;
    var h := GIT_HEADER;
    FindContains(l, "\n" + h);
    NoLineFeed(l, h);
    NoEnd(x);
    if l == x {
      assert x != "" ==> x[|x| - 1] in x;
    } else {
      FirstReturn(x);
      assert l[..|x|] == x && l[|x| + 1..] == "";
      assert forall k :: 0 <= k < |h| ==> h[k] != '\r';
      assert l[|x|] == '\r';
      if |h| <= |x| {
        assert l[..|h|] == x[..|h|];
      }
    }
  }

  lemma NoLineFeed(l: string, h: string)
    requires '\n' !in l
    ensures !Contains(l, "\n" + h)
  {
    if i :| OccursAt(l, "\n" + h, i) {
      assert l[i..i + 1 + |h|][0] == l[i];
      assert l[i] in l;
    }
  }

  lemma {:induction false} FirstReturn(x: string)
    requires IsLine(x)
    ensures LineEnd(x + "\r") == |x|
  {
    if x != [] {
      assert (x + "\r")[1..] == x[1..] + "\r";
      FirstReturn(x[1..]);
    }
  }

  /** A line in its place, and the patch without it. */
  lemma LineInPlace(p: string, x: string, eol: string, q: string)
    requires IsBefore(p) && IsLine(x) && IsLineEnd(eol)
    ensures SplitLines(p + (x + eol + q)) == SplitLines(p) + [x] + SplitLines(q)
    ensures SplitLines(p + q) == SplitLines(p) + SplitLines(q)
    ensures !StartsFile(x) ==> (IsGitDiff(p + (x + eol + q)) <==> IsGitDiff(p + q))
  {
    hide SplitLines, IsGitDiff;
    TakenApart(p, x + eol + q);
    TakenApart(p, q);
    LineAhead(x, eol, q);
    assert SplitLines(p) + ([x] + SplitLines(q)) == SplitLines(p) + [x] + SplitLines(q);
  }

  lemma FileUnlike(x: string, c: char)
    requires c != 'd' && x != [] && x[0] == c
    ensures !StartsFile(x)
  {
  }

  /** Taking a blob index line out of a patch leaves its list alone exactly if it is a git diff. */
  lemma IndexLineIgnoredInFile(p: string, x: string, eol: string, q: string)
    requires IsBefore(p) && IsLine(x) && IsLineEnd(eol) && IsBlobIndex(TrimRight(x, IsByteSpace))
    ensures Normalised(p + (x + eol + q)) == Normalised(p + q) <==> IsGitDiff(p + q)
  {
    hide SplitLines, IsGitDiff, Normalised, TrimRight, StartsFile;
    LineInPlace(p, x, eol, q);
    FirstCharacter(TrimRight(x, IsByteSpace));
    FileUnlike(x, 'i');
    IndexLineIgnoredInData(p + (x + eol + q), p + q, SplitLines(p), x, SplitLines(q));
  }

  /** Altering hunk coordinates leaves the list alone exactly in a git diff. */
  lemma HunkCoordinatesIgnoredInFile(p: string, x: string, y: string, heading: string, eol: string, q: string)
    requires !Contains(x + "@", "@@") && !Contains(y + "@", "@@") && IsBefore(p) && IsLineEnd(eol)
    requires IsLine("@@" + x + "@@" + heading) && IsLine("@@" + y + "@@" + heading)
    ensures Normalised(p + ("@@" + x + "@@" + heading + eol + q)) == Normalised(p + ("@@" + y + "@@" + heading + eol + q))
            <==> IsGitDiff(p + q) || x == y
  {
    hide SplitLines, IsGitDiff, Normalised, StartsFile, Contains, IsLine;
    var hx, hy := "@@" + x + "@@" + heading, "@@" + y + "@@" + heading;
    LineInPlace(p, hx, eol, q);
    LineInPlace(p, hy, eol, q);
    FileUnlike(hx, '@');
    FileUnlike(hy, '@');
    HunkCoordinatesIgnoredInData(p + (hx + eol + q), p + (hy + eol + q), SplitLines(p), x, y, heading, SplitLines(q));
  }

  /** Taking a blank added or removed line out of a patch leaves the list alone exactly inside a hunk
      of a git diff. */
  lemma BlankLineIgnoredInFile(p: string, mark: char, blanks: string, eol: string, q: string)
    requires IsBefore(p) && IsMark(mark) && AllSpace(blanks, IsByteSpace) && IsLine([mark] + blanks) && IsLineEnd(eol)
    ensures Normalised(p + ([mark] + blanks + eol + q)) == Normalised(p + q) <==>
            && IsGitDiff(p + q)
            && var a := SplitLines(p);
               exists i :: 0 <= i < |a| && OpensHunk(a[i]) && forall j :: i < j < |a| ==> !OpensFile(a[j])
  {
    hide SplitLines, IsGitDiff, Normalised, StartsFile, OpensHunk, OpensFile, AllSpace, IsLine;
    var x := [mark] + blanks;
    LineInPlace(p, x, eol, q);
    FileUnlike(x, mark);
    BlankLineIgnoredInData(p + (x + eol + q), p + q, SplitLines(p), mark, blanks, SplitLines(q));
  }

  lemma HeadersDiffer(x: string, y: string, tail: string)
    ensures "@@" + x + "@@" + tail == "@@" + y + "@@" + tail ==> x == y
  {
    var p, q := "@@" + x + "@@" + tail, "@@" + y + "@@" + tail;
    assert |p| == 4 + |x| + |tail| && |q| == 4 + |y| + |tail|;
    assert x == p[2..2 + |x|] && y == q[2..2 + |y|];
  }

  lemma PlainDiffers(a: seq<string>, x: string, y: string, b: seq<string>)
    requires TrimRight(x, IsByteSpace) != "" && TrimRight(y, IsByteSpace) != ""
    requires TrimRight(x, IsByteSpace) != TrimRight(y, IsByteSpace)
    ensures Normal(false, a + [x] + b) != Normal(false, a + [y] + b)
  {
    hide Plain, TrimRight;
    PlainAppend(a + [x], b);
    PlainAppend(a, [x]);
    PlainOne(x);
    PlainAppend(a + [y], b);
    PlainAppend(a, [y]);
    PlainOne(y);
    var u, v := Normal(false, a + [x] + b), Normal(false, a + [y] + b);
    var k := |Plain(a)|;
    assert u[k] == "" + TrimRight(x, IsByteSpace) == TrimRight(x, IsByteSpace);
    assert v[k] == "" + TrimRight(y, IsByteSpace) == TrimRight(y, IsByteSpace);
  }

  // ---------------------------------------------------------------------------
  // White space at the ends of lines

  lemma SameTrimmedAppend(l: seq<string>, m: seq<string>, more: seq<string>)
    requires SameTrimmed(l, m)
    ensures SameTrimmed(l + more, m + more)
  {
  }

  lemma NoLines()
    ensures AreLines([]) && !HasFile([])
  {
  }

  lemma LineAlone()
    ensures AreLines(["index 0"]) && !HasFile(["index 0"])
    ensures TrimRight("index 0", IsByteSpace) == "index 0" && IsBlobIndex("index 0")
  {
    assert "index 0"[..6] == "index ";
  }

  /** Such patches exist: a bare header line with or without its last space, before an index line. */
  lemma TrailingSpaceMatters()
    ensures var d, e := "diff --git \nindex 0\n", "diff --git\nindex 0\n";
            SameTrimmed(SplitLines(d), SplitLines(e)) && Normalised(d) != Normalised(e)
  {
    hide Normalised, HasFile, Normal, SameTrimmed, SplitLines, IsGitDiff, Unlines, AreLines, TrimRight;
    var x := "index 0";
    BareLines();
    LineAlone();
    BareTrimmed();
    SplitBare("diff --git ");
    SplitBare("diff --git");
    NormalisedFollowed("diff --git ", [x]);
    NormalisedFollowed("diff --git", [x]);
    IndexLineIgnored(true, ["diff --git "], x, []);
    KeptOutside(["diff --git"], x, []);
    assert ["diff --git "] + [x] + [] == ["diff --git "] + [x] && ["diff --git"] + [x] + [] == ["diff --git"] + [x];
    assert ["diff --git "] + [] == ["diff --git "] && ["diff --git"] + [] == ["diff --git"];
    BareHeader();
    OneIndexLine();
  }

  lemma OneIndexLine()
    ensures Unlines(["index 0"]) == "index 0\n"
    ensures "diff --git " + "\n" + "index 0\n" == "diff --git \nindex 0\n"
    ensures "diff --git" + "\n" + "index 0\n" == "diff --git\nindex 0\n"
  {
    assert ["index 0"][1..] == [] && "index 0" + "\n" + "" == "index 0\n";
  }

  /** A line and an index line, as bytes. */
  lemma SplitBare(l: string)
    requires l != "" && '\n' !in l && '\r' !in l
    ensures SplitLines(l) == [l] && SplitLines(l + "\n" + Unlines(["index 0"])) == [l, "index 0"]
  {
    hide TrimRight, Unlines, AreLines;
    LineAlone();
    NoEnd(l);
    SplitFollowed(l, Unlines(["index 0"]));
    SplitUnlines(["index 0"]);
    assert l[|l| - 1] in l;
  }

  lemma {:induction false} NoEnd(l: string)
    requires '\n' !in l && '\r' !in l
    ensures LineEnd(l) == |l|
  {
    if l != [] {
      NoEnd(l[1..]);
    }
  }

  lemma BareLines()
    ensures IsGitDiff("diff --git ") && !IsGitDiff("diff --git")
    ensures SameTrimmed(["diff --git ", "index 0"], ["diff --git", "index 0"])
  {
    hide Find, TrimRight, Contains;
    BareTrimmed();
    FindContains("diff --git", "\n" + GIT_HEADER);
    TooLong("diff --git", "\n" + GIT_HEADER);
    assert |"diff --git"| < |GIT_HEADER|;
  }

  lemma TooLong(s: string, p: string)
    requires |p| > |s|
    ensures !Contains(s, p)
  {
  }

  lemma BareHeader()
    ensures Normal(true, ["diff --git "]) == Normal(false, ["diff --git"])
  {
    hide OnLine, Run, Plain, TrimRight, IsByteSpace;
    BareTrimmed();
    BareEffect();
    RunOne(INITIAL, "diff --git ");
    PlainOne("diff --git");
    assert "" + "diff --git" == "diff --git";
  }

  lemma BareTrimmed()
    ensures TrimRight("diff --git ", IsByteSpace) == "diff --git" == TrimRight("diff --git", IsByteSpace)
  {
    hide TrimRight;
    TrimRightUnique("diff --git ", "diff --git", IsByteSpace);
    TrimRightUnique("diff --git", "diff --git", IsByteSpace);
  }

  lemma BareEffect()
    ensures OnLine(INITIAL, "diff --git ").lines == ["diff --git"]
  {
    hide TrimRight, SyntaxForPath, IsBlobIndex, IsHunkHeader, IsOldPath, IsNewPath;
    BareTrimmed();
    FirstCharacter("diff --git");
    assert "" + "diff --git" == "diff --git";
  }

  // ---------------------------------------------------------------------------
  // Comments

  lemma {:induction false} SpacesBehind(indent: string, syntax: Syntax)
    requires AllSpace(indent, IsByteSpace)
    ensures Behind(indent, Code, syntax) == Some(Code)
  {
    if indent != [] {
      assert IsByteSpace(indent[0]);
      SpacesBehind(indent[1..], syntax);
    }
  }

  /** A line with only a line comment strips to nothing. */
  lemma LineCommentOnly(indent: string, mark: string, x: string, syntax: Syntax)
    requires AllSpace(indent, IsByteSpace)
    requires (mark == "//" && syntax.slash) || (mark == "#" && syntax.hash)
    ensures OnlyComments([indent + (mark + x)], false, false, syntax)
  {
    hide Keep, Behind;
    SpacesBehind(indent, syntax);
    LineCommentIgnored(indent, x, false, syntax);
    KeepSpaces(indent, Code, syntax);
    TrimEmpty(Keep(indent, Code, syntax).text, IsByteSpace);
    var line := indent + (mark + x);
    assert [line][1..] == [];
    assert OnlyComments([], false, false, syntax);
  }

  ghost predicate Closeless(lines: seq<string>) {
    forall i :: 0 <= i < |lines| ==> !Contains(lines[i], "*/")
  }

  lemma WithinBlock(x: string, syntax: Syntax)
    requires !Contains(x, "*/")
    ensures Keep(x, Block, syntax) == Kept("", true)
  {
    hide Keep;
    FindContains(x, "*/");
    KeepBlock(x, 0, syntax);
    assert x[0..] == x;
  }

  lemma OpensBlock(indent: string, x: string, syntax: Syntax)
    requires AllSpace(indent, IsByteSpace) && syntax.slash && !Contains(x, "*/")
    ensures Strip(indent + ("/*" + x), false, syntax) == Kept("", true)
  {
    hide Keep, Behind, Contains;
    SpacesBehind(indent, syntax);
    var tail := "/*" + x;
    KeepAppend(indent, tail, Code, syntax);
    KeepStep(tail, 0, Code, syntax);
    assert tail[0..] == tail && tail[2..] == x;
    WithinBlock(x, syntax);
    KeepSpaces(indent, Code, syntax);
    var text := Keep(indent, Code, syntax).text;
    assert text + "" == text;
    TrimEmpty(text, IsByteSpace);
  }

  lemma ClosesBlock(y: string, blanks: string, syntax: Syntax)
    requires AllSpace(blanks, IsByteSpace) && syntax.slash && !Contains(y, "*/")
    ensures Strip(y + "*/" + blanks, true, syntax) == Kept("", false)
  {
    hide Keep, Contains;
    var line := y + "*/" + blanks;
    CommentEnd(y, blanks);
    KeepBlock(line, 0, syntax);
    assert line[0..] == line && line[|y| + 2..] == blanks;
    KeepSpaces(blanks, Code, syntax);
    TrimEmpty(Keep(blanks, Code, syntax).text, IsByteSpace);
  }

  /** Lines of a block comment that ends in the last of them. */
  lemma {:induction false} BlockRest(middle: seq<string>, y: string, blanks: string, syntax: Syntax)
    requires syntax.slash && Closeless(middle) && !Contains(y, "*/") && AllSpace(blanks, IsByteSpace)
    ensures OnlyComments(middle + [y + "*/" + blanks], true, false, syntax)
  {
    hide Contains, Keep;
    var last := y + "*/" + blanks;
    var lines := middle + [last];
    if middle == [] {
      ClosesBlock(y, blanks, syntax);
      assert lines[0] == last && lines[1..] == [];
      assert OnlyComments([], false, false, syntax);
    } else {
      WithinBlock(middle[0], syntax);
      assert lines[1..] == middle[1..] + [last];
      BlockRest(middle[1..], y, blanks, syntax);
    }
  }

  /** A block comment over several lines strips to nothing. */
  lemma BlockCommentOnly(indent: string, x: string, middle: seq<string>, y: string, blanks: string, syntax: Syntax)
    requires syntax.slash && AllSpace(indent, IsByteSpace) && AllSpace(blanks, IsByteSpace)
    requires !Contains(x, "*/") && Closeless(middle) && !Contains(y, "*/")
    ensures OnlyComments([indent + ("/*" + x)] + (middle + [y + "*/" + blanks]), false, false, syntax)
  {
    hide Contains, Strip;
    var rest := middle + [y + "*/" + blanks];
    OpensBlock(indent, x, syntax);
    BlockRest(middle, y, blanks, syntax);
    assert ([indent + ("/*" + x)] + rest)[1..] == rest;
  }
}
