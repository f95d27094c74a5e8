/** String operations the patch and commitment code relies on: trimming, searching, splitting. */
module Strings {

  /** White space within a byte string. */
  predicate IsByteSpace(c: char) {
    c == ' ' || 9 <= c as int <= 13
  }

  /** White space within a text string. */
  predicate IsTextSpace(c: char) {
    var k := c as int;
    || 9 <= k <= 13 || 0x1c <= k <= 0x20 || k == 0x85 || k == 0xa0 || k == 0x1680 || 0x2000 <= k <= 0x200a
    || k == 0x2028 || k == 0x2029 || k == 0x202f || k == 0x205f || k == 0x3000
  }

  // ---------------------------------------------------------------------------
  // Trimming

  function TrimRight(s: string, space: char -> bool): (r: string)
    ensures r <= s
    ensures r != [] ==> !space(r[|r| - 1])
    ensures forall i :: |r| <= i < |s| ==> space(s[i])
  {
    if s != [] && space(s[|s| - 1]) then TrimRight(s[..|s| - 1], space) else s
  }

  function TrimLeft(s: string, space: char -> bool): (r: string)
    ensures |r| <= |s| && r == s[|s| - |r|..]
    ensures r != [] ==> !space(r[0])
    ensures forall i :: 0 <= i < |s| - |r| ==> space(s[i])
  {
    if s != [] && space(s[0]) then TrimLeft(s[1..], space) else s
  }

  function Trim(s: string, space: char -> bool): (r: string)
    ensures r != [] ==> !space(r[0]) && !space(r[|r| - 1])
    ensures |r| <= |s|
  {
    var t := TrimLeft(s, space);
    var r := TrimRight(t, space);
    assert r != [] ==> r[0] == t[0];
    r
  }

  ghost predicate AllSpace(s: string, space: char -> bool) {
    forall i :: 0 <= i < |s| ==> space(s[i])
  }

  /** The trimmed text is the only prefix that ends in no space and is followed by spaces alone. */
  lemma TrimRightUnique(s: string, p: string, space: char -> bool)
    requires p <= s && (p != [] ==> !space(p[|p| - 1])) && AllSpace(s[|p|..], space)
    ensures TrimRight(s, space) == p
  {
  }

  lemma TrimRightSpaces(s: string, blanks: string, space: char -> bool)
    requires AllSpace(blanks, space)
    ensures TrimRight(s + blanks, space) == TrimRight(s, space)
  {
    TrimRightUnique(s + blanks, TrimRight(s, space), space);
  }

  lemma TrimRightTwice(s: string, space: char -> bool)
    ensures TrimRight(TrimRight(s, space), space) == TrimRight(s, space)
  {
  }

  /** Trimming leaves nothing exactly of a text of spaces. */
  lemma TrimEmpty(s: string, space: char -> bool)
    ensures Trim(s, space) == [] <==> AllSpace(s, space)
    ensures TrimRight(s, space) == [] <==> AllSpace(s, space)
  {
  }

  /** The trimmed text is what lies between the spaces at both ends. */
  lemma TrimUnique(p: string, core: string, q: string, space: char -> bool)
    requires AllSpace(p, space) && AllSpace(q, space)
    requires core != [] && !space(core[0]) && !space(core[|core| - 1])
    ensures Trim(p + core + q, space) == core
  {
    hide TrimLeft, TrimRight;
    var s := p + core + q;
    assert s[..|p|] == p && s[|p|..] == core + q && s[|p|] == core[0];
    TrimLeftUnique(s, |p|, space);
    assert (core + q)[|core|..] == q;
    TrimRightUnique(core + q, core, space);
  }

  lemma TrimParts(s: string, space: char -> bool) returns (p: string, q: string)
    ensures s == p + Trim(s, space) + q && AllSpace(p, space) && AllSpace(q, space)
  {
    hide TrimLeft, TrimRight;
    var t := TrimLeft(s, space);
    var r := TrimRight(t, space);
    p, q := s[..|s| - |t|], t[|r|..];
    assert t == r + q;
  }

  lemma TrimRightPart(p: string, q: string, space: char -> bool)
    requires (p != [] ==> !space(p[|p| - 1])) && AllSpace(q, space)
    ensures TrimRight(p + q, space) == p
  {
    hide TrimRight;
    assert (p + q)[|p|..] == q;
    TrimRightUnique(p + q, p, space);
  }

  /** Trimming the right end first makes no difference. */
  lemma TrimBoth(s: string, space: char -> bool)
    ensures Trim(TrimRight(s, space), space) == Trim(s, space)
  {
    hide Trim, TrimRight, AllSpace;
    TrimEmpty(s, space);
    var core := Trim(s, space);
    EmptySpace(space);
    if core == [] {
      TrimEmpty(TrimRight(s, space), space);
    } else {
      var p, q := TrimParts(s, space);
      TrimRightPart(p + core, q, space);
      TrimUnique(p, core, "", space);
      assert p + core + "" == p + core;
    }
  }

  lemma EmptySpace(space: char -> bool)
    ensures AllSpace("", space)
  {
  }

  lemma TrimLeftUnique(s: string, n: nat, space: char -> bool)
    requires n < |s| && !space(s[n]) && AllSpace(s[..n], space)
    ensures TrimLeft(s, space) == s[n..]
  {
    var m := |s| - |TrimLeft(s, space)|;
    assert forall i :: 0 <= i < n ==> s[..n][i] == s[i];
  }

  lemma TrimIdle(s: string, space: char -> bool)
    requires s != [] ==> !space(s[0]) && !space(s[|s| - 1])
    ensures Trim(s, space) == s
  {
  }

  // ---------------------------------------------------------------------------
  // Searching

  predicate OccursAt(s: string, p: string, i: int) {
    0 <= i && i + |p| <= |s| && s[i..i + |p|] == p
  }

  ghost predicate Contains(s: string, p: string) {
    exists i :: OccursAt(s, p, i)
  }

  /** The first occurrence of `p` in `s` from `start` on, or -1. */
  function Find(s: string, p: string, start: nat): (r: int)
    ensures r == -1 || (start <= r && r + |p| <= |s| && OccursAt(s, p, r))
    ensures forall i :: start <= i && (r == -1 || i < r) ==> !OccursAt(s, p, i)
    decreases |s| - start
  {
    if start + |p| > |s| then -1
    else if OccursAt(s, p, start) then start
    else if start == |s| then -1
    else Find(s, p, start + 1)
  }

  /** The same for occurrences that end by `hi`. */
  function FindBefore(s: string, p: string, lo: nat, hi: nat): (r: int)
    ensures r == -1 || (lo <= r && r + |p| <= hi && r + |p| <= |s| && OccursAt(s, p, r))
    ensures forall k :: lo <= k && k + |p| <= hi && (r == -1 || k < r) ==> !OccursAt(s, p, k)
  {
    var r := Find(s, p, lo);
    if r == -1 || r + |p| > hi then -1 else r
  }

  // ---------------------------------------------------------------------------
  // Splitting

  function Split(s: string, sep: char): (r: seq<string>)
    ensures r != []
  {
    if s == [] then [""]
    else
      var rest := Split(s[1..], sep);
      if s[0] == sep then [""] + rest else [[s[0]] + rest[0]] + rest[1..]
  }

  function Join(parts: seq<string>, sep: char): string
    requires parts != []
  {
    if |parts| == 1 then parts[0] else parts[0] + [sep] + Join(parts[1..], sep)
  }

  ghost predicate Free(parts: seq<string>, sep: char) {
    forall i :: 0 <= i < |parts| ==> sep !in parts[i]
  }

  lemma {:induction false} SplitFree(s: string, sep: char)
    ensures Free(Split(s, sep), sep)
  {
    if s != [] {
      SplitFree(s[1..], sep);
    }
  }

  lemma {:induction false} SplitOne(p: string, sep: char)
    requires sep !in p
    ensures Split(p, sep) == [p]
  {
    if p != [] {
      SplitOne(p[1..], sep);
      assert [p[0]] + p[1..] == p;
    }
  }

  lemma {:induction false} SplitFirst(p: string, sep: char, rest: string)
    requires sep !in p
    ensures Split(p + [sep] + rest, sep) == [p] + Split(rest, sep)
  {
    var s := p + [sep] + rest;
    if p == [] {
      assert s[1..] == rest;
    } else {
      SplitFirst(p[1..], sep, rest);
      assert s[1..] == p[1..] + [sep] + rest;
      assert [p[0]] + p[1..] == p;
    }
  }

  /** Splitting undoes joining. */
  lemma {:induction false} SplitJoin(parts: seq<string>, sep: char)
    requires parts != [] && Free(parts, sep)
    ensures Split(Join(parts, sep), sep) == parts
  {
    if |parts| == 1 {
      SplitOne(parts[0], sep);
    } else {
      SplitJoin(parts[1..], sep);
      SplitFirst(parts[0], sep, Join(parts[1..], sep));
    }
  }

  /** Joining undoes splitting. */
  lemma {:induction false} JoinSplit(s: string, sep: char)
    ensures Join(Split(s, sep), sep) == s
  {
    if s != [] {
      JoinSplit(s[1..], sep);
      var rest := Split(s[1..], sep);
      if s[0] == sep {
        assert ([""] + rest)[1..] == rest;
      } else {
        assert ([[s[0]] + rest[0]] + rest[1..])[1..] == rest[1..];
      }
    }
  }
}
