/** What a text becomes when its comments are taken out: a line comment goes with the blanks before
    it and leaves the line ends it ran over, a block comment becomes a space and as many line ends;
    everything else stays. */
module CommentRemoval {
  import opened Basics
  import opened SplicedText
  import opened SplicedSlices
  import opened PhaseThree

  /** The index right behind the `n`-th logical character from `i` on. */
  ghost function After(s: string, i: nat, n: nat): (r: nat)
    requires i <= |s|
    ensures i <= r <= |s| && (n > 0 && i < |s| ==> i < r)
    decreases |s| - i
  {
    if n == 0 || i == |s| then i
    else if SpliceLen(s, i) > 0 then After(s, Next(s, i), n)
    else After(s, i + 1, n - 1)
  }

  /** The rest of the line after a comment, blanks aside, would start a directive. */
  predicate HashFollows(s: string, end: nat)
    requires end <= |s|
  {
    var rest := SkipHSpace(s, end);
    (rest < |s| && s[rest] == '#') || (rest + 1 < |s| && s[rest] == '%' && s[rest + 1] == ':')
  }

  function SkipHSpace(s: string, k: nat): (r: nat)
    requires k <= |s|
    ensures k <= r <= |s|
    decreases |s| - k
  {
    if k < |s| && IsHSpace(s[k]) then SkipHSpace(s, k + 1) else k
  }

  /** What the block comment between two indices becomes; its line ends are spliced when the logical
      line must stay whole. */
  function Replacement(s: string, i: nat, e: nat, inDirective: bool): string
    requires i <= e <= |s|
  {
    " " + Repeat(if inDirective || HashFollows(s, e) then "\\\n" else "\n", Newlines(s[i..e]))
  }

  ghost function LineCommentStop(s: string, i: nat): (e: nat)
    requires i < |s| && StartsWith(Glyphs(s, i), '/', '/')
    ensures i < e <= |s|
  {
    SkipSplices(s, After(s, i, 2 + LineLen(Glyphs(s, i)[2..])))
  }

  /** The text from `i` on without its comments; `blanks` have been read but not written yet. */
  ghost function Removed(s: string, cxx: bool, i: nat, place: Place, inDirective: bool, blanks: string): string
    requires i <= |s|
    decreases |s| - i
  {
    if i == |s| then blanks
    else if SpliceLen(s, i) > 0 then blanks + s[i..Next(s, i)] + Removed(s, cxx, Next(s, i), place, inDirective, "")
    else if s[i] == '\n' then blanks + "\n" + Removed(s, cxx, i + 1, START, false, "")
    else if IsBlank(s[i]) then Removed(s, cxx, i + 1, place, inDirective, blanks + [s[i]])
    else if s[i] == '\r' then blanks + "\r" + Removed(s, cxx, i + 1, place, inDirective, "")
    else
      var g := Glyphs(s, i);
      if StartsWith(g, '/', '/') then
        var e := LineCommentStop(s, i);
        Repeat("\n", Newlines(s[i..e])) + Removed(s, cxx, e, place, inDirective, "")
      else if StartsWith(g, '/', '*') then
        match BlockLen(g[2..])
        case None => blanks
        case Some(n) =>
          var e := After(s, i, 2 + n);
          var r := Replacement(s, i, e, inDirective);
          if r == " " then Removed(s, cxx, e, place, inDirective, blanks + r)
          else blanks + r + Removed(s, cxx, e, place, inDirective, "")
      else
        match TokenLen(g, cxx, place)
        case None => blanks
        case Some(n) =>
          var e := After(s, i, n);
          blanks + s[i..e] + Removed(s, cxx, e, NextPlace(g, cxx, place), inDirective || (g[0].ch == '#' && place.lineStart), "")
  }

  ghost function RemoveComments(text: string, cxx: bool): string {
    Removed(text, cxx, 0, START, false, "")
  }
}
