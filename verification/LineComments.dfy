/** Removing comments from one line of a patch. A line is a byte string; a character stands for a
    byte. */
module LineComments {
  import opened Basics
  import opened Strings

  /** Which comments a file has: from a hash sign on, and between slashes. */
  datatype Syntax = Syntax(hash: bool, slash: bool)

  /** Where the scan is: in code, in a quoted string, or in a block comment. */
  datatype Mode = Code | Quoted(quote: char, escaped: bool) | Block

  /** What is kept of a line, and whether a block comment is open at its end. */
  datatype Kept = Kept(text: string, open: bool)

  predicate IsQuote(c: char) {
    c == '\'' || c == '"' || c == '`'
  }

  /** The line begins with this pair of characters. */
  predicate Begins(line: string, first: char, second: char) {
    |line| >= 2 && line[0] == first && line[1] == second
  }

  function Cons(c: char, k: Kept): Kept {
    Kept([c] + k.text, k.open)
  }

  function AfterQuoted(mode: Mode, c: char): Mode
    requires mode.Quoted?
  {
    if mode.escaped then Quoted(mode.quote, false)
    else if c == '\\' then Quoted(mode.quote, true)
    else if c == mode.quote then Code
    else mode
  }

  /** The text of a line outside comments, character by character. */
  function Keep(line: string, mode: Mode, syntax: Syntax): Kept {
    if line == [] then Kept("", mode.Block?)
    else match mode
      case Block =>
        if Begins(line, '*', '/') then Keep(line[2..], Code, syntax) else Keep(line[1..], Block, syntax)
      case Quoted(_, _) =>
        Cons(line[0], Keep(line[1..], AfterQuoted(mode, line[0]), syntax))
      case Code =>
        if IsQuote(line[0]) then Cons(line[0], Keep(line[1..], Quoted(line[0], false), syntax))
        else if syntax.hash && line[0] == '#' then Kept("", false)
        else if syntax.slash && Begins(line, '/', '/') then Kept("", false)
        else if syntax.slash && Begins(line, '/', '*') then Keep(line[2..], Block, syntax)
        else Cons(line[0], Keep(line[1..], Code, syntax))
  }

  function Start(inBlock: bool, syntax: Syntax): Mode {
    if inBlock && syntax.slash then Block else Code
  }

  /** A line without comments and without white space at its end. */
  function Strip(line: string, inBlock: bool, syntax: Syntax): Kept {
    var k := Keep(line, Start(inBlock, syntax), syntax);
    Kept(TrimRight(k.text, IsByteSpace), if syntax.slash then k.open else inBlock)
  }

  // ---------------------------------------------------------------------------
  // The scanning loop

  lemma OccursBegins(line: string, i: nat)
    requires i <= |line|
    ensures OccursAt(line, "*/", i) <==> Begins(line[i..], '*', '/')
  {
  }

  /** Inside a block comment the scan goes on behind the first closing mark. */
  lemma {:induction false} KeepBlock(line: string, index: nat, syntax: Syntax)
    requires index <= |line|
    ensures var end := Find(line, "*/", index);
            end == -1 || index <= end <= |line| - 2
    ensures var end := Find(line, "*/", index);
            Keep(line[index..], Block, syntax) ==
            if end == -1 then Kept("", true) else Keep(line[end + 2..], Code, syntax)
    decreases |line| - index
  {
    hide Keep;
    if index == |line| {
      KeepNothing(Block, syntax);
    } else {
      KeepBlock(line, index + 1, syntax);
      KeepBlockStep(line[index..], syntax);
      assert line[index..][1..] == line[index + 1..];
      OccursBegins(line, index);
      if Begins(line[index..], '*', '/') {
        assert line[index..][2..] == line[index + 2..];
      }
    }
  }

  /** One step of the scan at a position of the line. */
  lemma KeepStep(line: string, i: nat, mode: Mode, syntax: Syntax)
    requires i < |line| && !mode.Block?
    ensures var c, k := line[i], Keep(line[i..], mode, syntax);
            if mode.Quoted? then k == Cons(c, Keep(line[i + 1..], AfterQuoted(mode, c), syntax))
            else if IsQuote(c) then k == Cons(c, Keep(line[i + 1..], Quoted(c, false), syntax))
            else if (syntax.hash && c == '#') || (syntax.slash && Begins(line[i..], '/', '/')) then k == Kept("", false)
            else if syntax.slash && Begins(line[i..], '/', '*') then k == Keep(line[i + 2..], Block, syntax)
            else k == Cons(c, Keep(line[i + 1..], Code, syntax))
  {
  }

  lemma KeepBlockStep(line: string, syntax: Syntax)
    requires line != []
    ensures Keep(line, Block, syntax) == if Begins(line, '*', '/') then Keep(line[2..], Code, syntax) else Keep(line[1..], Block, syntax)
  {
  }

  lemma KeepNothing(mode: Mode, syntax: Syntax)
    ensures Keep("", mode, syntax) == Kept("", mode.Block?)
  {
  }

  ghost function Prepend(text: string, k: Kept): Kept {
    Kept(text + k.text, k.open)
  }

  lemma PrependMore(text: string, c: char, k: Kept)
    ensures Prepend(text, Cons(c, k)) == Prepend(text + [c], k)
  {
  }

  lemma PrependNothing(text: string, open: bool)
    ensures Prepend(text, Kept("", open)) == Kept(text, open)
  {
  }

  method StripComments(line: string, inBlock: bool, syntax: Syntax) returns (text: string, open: bool)
    ensures Kept(text, open) == Strip(line, inBlock, syntax)
  {
    hide Keep, IsQuote, OccursAt, TrimRight, Prepend, Cons, IsByteSpace;
    var output := "";
    open := inBlock;
    var mode, index := Code, 0;
    ghost var whole := Keep(line, Start(inBlock, syntax), syntax);
    PrependEmpty(whole);
    assert line[0..] == line;
    while index < |line|
      invariant 0 <= index <= |line|
      invariant !mode.Block?
      invariant open && mode != Code ==> !syntax.slash
      invariant !syntax.slash ==> open == inBlock
      invariant Prepend(output, Keep(line[index..], if open && syntax.slash then Block else mode, syntax)) == whole
      decreases |line| - index
    {
      if syntax.slash && open {
        var end := Find(line, "*/", index);
        KeepBlock(line, index, syntax);
        if end == -1 {
          PrependNothing(output, true);
          text := TrimRight(output, IsByteSpace);
          return text, true;
        }
        open := false;
        index := end + 2;
        continue;
      }
      var byte := line[index];
      KeepStep(line, index, mode, syntax);
      if mode.Quoted? {
        PrependMore(output, byte, Keep(line[index + 1..], AfterQuoted(mode, byte), syntax));
        output := output + [byte];
        mode := AfterQuoted(mode, byte);
        index := index + 1;
        continue;
      }
      if IsQuote(byte) {
        PrependMore(output, byte, Keep(line[index + 1..], Quoted(byte, false), syntax));
        mode := Quoted(byte, false);
        output := output + [byte];
        index := index + 1;
        continue;
      }
      if syntax.hash && byte == '#' {
        PrependNothing(output, false);
        break;
      }
      if syntax.slash && Begins(line[index..], '/', '/') {
        PrependNothing(output, false);
        break;
      }
      if syntax.slash && Begins(line[index..], '/', '*') {
        open := true;
        index := index + 2;
        continue;
      }
      PrependMore(output, byte, Keep(line[index + 1..], Code, syntax));
      output := output + [byte];
      index := index + 1;
    }
    if index == |line| {
      KeepNothing(if open && syntax.slash then Block else mode, syntax);
      PrependNothing(output, open && syntax.slash);
      assert line[index..] == "";
    }
    text := TrimRight(output, IsByteSpace);
  }

  lemma PrependEmpty(k: Kept)
    ensures Prepend("", k) == k
  {
  }

  // ---------------------------------------------------------------------------
  // Stripping again changes nothing

  /** A text the scan keeps whole. */
  ghost predicate Clean(text: string, mode: Mode, syntax: Syntax) {
    !mode.Block? && Keep(text, mode, syntax) == Kept(text, false)
  }

  /** Behind a slash that is no comment the kept text goes on with the next character, if at all. */
  lemma KeptHead(line: string, syntax: Syntax)
    requires line != [] && line[0] != '/'
    ensures var k := Keep(line, Code, syntax).text; k == [] || k[0] == line[0]
  {
  }

  /** Removing comments joins no characters into a comment. */
  lemma {:induction false} KeptIsClean(line: string, mode: Mode, syntax: Syntax)
    ensures Clean(Keep(line, mode, syntax).text, if mode.Block? then Code else mode, syntax)
    decreases |line|
  {
    if line != [] {
      match mode
      case Block => KeptIsClean(if Begins(line, '*', '/') then line[2..] else line[1..], if Begins(line, '*', '/') then Code else Block, syntax);
      case Quoted(_, _) => KeptIsClean(line[1..], AfterQuoted(mode, line[0]), syntax);
      case Code =>
        if IsQuote(line[0]) {
          KeptIsClean(line[1..], Quoted(line[0], false), syntax);
        } else if syntax.hash && line[0] == '#' {
        } else if syntax.slash && Begins(line, '/', '/') {
        } else if syntax.slash && Begins(line, '/', '*') {
          KeptIsClean(line[2..], Block, syntax);
        } else {
          KeptIsClean(line[1..], Code, syntax);
          KeptCons(line, syntax);
        }
    }
  }

  lemma KeptCons(line: string, syntax: Syntax)
    requires line != [] && !IsQuote(line[0]) && !(syntax.hash && line[0] == '#')
    requires syntax.slash ==> !(Begins(line, '/', '/')) && !(Begins(line, '/', '*'))
    requires Clean(Keep(line[1..], Code, syntax).text, Code, syntax)
    ensures Clean([line[0]] + Keep(line[1..], Code, syntax).text, Code, syntax)
  {
    var rest := Keep(line[1..], Code, syntax).text;
    var text := [line[0]] + rest;
    assert text[1..] == rest;
    if syntax.slash && line[0] == '/' && |line| > 1 {
      KeptHead(line[1..], syntax);
    }
  }

  /** Every beginning of a clean text is clean. */
  lemma {:induction false} CleanPrefix(text: string, mode: Mode, syntax: Syntax, n: nat)
    requires Clean(text, mode, syntax) && n <= |text|
    ensures Clean(text[..n], mode, syntax)
  {
    if n > 0 {
      var next := if mode.Quoted? then AfterQuoted(mode, text[0])
                  else if IsQuote(text[0]) then Quoted(text[0], false) else Code;
      CleanTail(text, mode, next, syntax);
      CleanPrefix(text[1..], next, syntax, n - 1);
      var cut := text[..n];
      assert cut[1..] == text[1..][..n - 1];
      assert cut == [text[0]] + cut[1..];
    }
  }

  lemma KeptShorter(line: string, mode: Mode, syntax: Syntax)
    ensures |Keep(line, mode, syntax).text| <= |line|
  {
  }

  lemma CleanTail(text: string, mode: Mode, next: Mode, syntax: Syntax)
    requires Clean(text, mode, syntax) && text != []
    requires next == if mode.Quoted? then AfterQuoted(mode, text[0])
                     else if IsQuote(text[0]) then Quoted(text[0], false) else Code
    ensures Clean(text[1..], next, syntax)
    ensures mode.Code? && !IsQuote(text[0]) ==>
              !(syntax.hash && text[0] == '#') && !(syntax.slash && (Begins(text, '/', '/') || Begins(text, '/', '*')))
  {
    if mode.Code? && !IsQuote(text[0]) && syntax.slash && Begins(text, '/', '*') {
      KeptShorter(text[2..], Block, syntax);
    }
  }

  /** Stripping a stripped line keeps it and leaves no comment open. */
  lemma StripTwice(line: string, inBlock: bool, syntax: Syntax)
    ensures var text := Strip(line, inBlock, syntax).text;
            Strip(text, false, syntax) == Kept(text, false)
  {
    var kept := Keep(line, Start(inBlock, syntax), syntax).text;
    KeptIsClean(line, Start(inBlock, syntax), syntax);
    var text := TrimRight(kept, IsByteSpace);
    CleanPrefix(kept, Code, syntax, |text|);
    assert kept[..|text|] == text;
    TrimRightTwice(kept, IsByteSpace);
  }

  /** The lines of a file stripped in turn, a block comment running on from line to line. */
  function StripLines(lines: seq<string>, inBlock: bool, syntax: Syntax): seq<string> {
    if lines == [] then []
    else
      var k := Strip(lines[0], inBlock, syntax);
      [k.text] + StripLines(lines[1..], k.open, syntax)
  }

  lemma {:induction false} StripLinesTwice(lines: seq<string>, inBlock: bool, syntax: Syntax)
    ensures var once := StripLines(lines, inBlock, syntax);
            StripLines(once, false, syntax) == once
  {
    if lines != [] {
      var k := Strip(lines[0], inBlock, syntax);
      StripTwice(lines[0], inBlock, syntax);
      StripLinesTwice(lines[1..], k.open, syntax);
      assert StripLines(lines, inBlock, syntax)[1..] == StripLines(lines[1..], k.open, syntax);
    }
  }

  // ---------------------------------------------------------------------------
  // Comments do not matter

  /** Where the scan stands behind `text`, if it neither is within a line comment nor in the middle
      of a comment mark. */
  ghost function Behind(text: string, mode: Mode, syntax: Syntax): Option<Mode> {
    if text == [] then Some(mode)
    else match mode
      case Block =>
        if text == "*" then None
        else if Begins(text, '*', '/') then Behind(text[2..], Code, syntax)
        else Behind(text[1..], Block, syntax)
      case Quoted(_, _) => Behind(text[1..], AfterQuoted(mode, text[0]), syntax)
      case Code =>
        if IsQuote(text[0]) then Behind(text[1..], Quoted(text[0], false), syntax)
        else if syntax.hash && text[0] == '#' then None
        else if syntax.slash && (text == "/" || Begins(text, '/', '/')) then None
        else if syntax.slash && Begins(text, '/', '*') then Behind(text[2..], Block, syntax)
        else Behind(text[1..], Code, syntax)
  }

  lemma PrependCons(c: char, text: string, k: Kept)
    ensures Cons(c, Prepend(text, k)) == Prepend([c] + text, k)
  {
  }

  /** The scan of `a + b` is the scan of `a` followed by that of `b`. */
  lemma {:induction false} KeepAppend(a: string, b: string, mode: Mode, syntax: Syntax)
    requires Behind(a, mode, syntax).Some?
    ensures Keep(a + b, mode, syntax) == Prepend(Keep(a, mode, syntax).text, Keep(b, Behind(a, mode, syntax).value, syntax))
    decreases |a|
  {
    hide Keep;
    var both := a + b;
    if a == [] {
      assert both == b;
      KeepNothing(mode, syntax);
    } else {
      var c := a[0];
      assert a[0..] == a && both[0..] == both && both[1..] == a[1..] + b;
      assert |a| >= 2 ==> both[2..] == a[2..] + b;
      if mode.Block? {
        KeepBlockStep(a, syntax);
        KeepBlockStep(both, syntax);
        if Begins(a, '*', '/') {
          KeepAppend(a[2..], b, Code, syntax);
        } else {
          KeepAppend(a[1..], b, Block, syntax);
        }
      } else {
        KeepStep(a, 0, mode, syntax);
        KeepStep(both, 0, mode, syntax);
        if mode.Code? && !IsQuote(c) && syntax.slash && Begins(a, '/', '*') {
          KeepAppend(a[2..], b, Block, syntax);
        } else {
          var next := if mode.Quoted? then AfterQuoted(mode, c) else if IsQuote(c) then Quoted(c, false) else Code;
          KeepAppend(a[1..], b, next, syntax);
          PrependCons(c, Keep(a[1..], next, syntax).text, Keep(b, Behind(a, mode, syntax).value, syntax));
        }
      }
    }
  }

  lemma OccursWithin(x: string, b: string, i: nat)
    requires i < |x| && OccursAt(x + "*/" + b, "*/", i)
    ensures Contains(x, "*/")
  {
    var inside := x + "*/" + b;
    assert inside[i..i + 2][1] == inside[i + 1];
    assert i + 1 < |x|;
    assert x[i..i + 2] == inside[i..i + 2];
    assert OccursAt(x, "*/", i);
  }

  lemma CommentEnd(x: string, b: string)
    requires !Contains(x, "*/")
    ensures Find(x + "*/" + b, "*/", 0) == |x|
  {
    var inside := x + "*/" + b;
    assert inside[|x|..|x| + 2] == "*/";
    assert OccursAt(inside, "*/", |x|);
    forall i | 0 <= i < |x| ensures !OccursAt(inside, "*/", i) {
      if OccursAt(inside, "*/", i) {
        OccursWithin(x, b, i);
      }
    }
  }

  /** A block comment anywhere in code can be taken out of the line. */
  lemma BlockCommentIgnored(a: string, x: string, b: string, inBlock: bool, syntax: Syntax)
    requires syntax.slash && Behind(a, Start(inBlock, syntax), syntax) == Some(Code) && !Contains(x, "*/")
    ensures Strip(a + ("/*" + x + "*/" + b), inBlock, syntax) == Strip(a + b, inBlock, syntax)
  {
    hide Behind, OccursAt, Keep, Contains;
    var mode := Start(inBlock, syntax);
    var tail := "/*" + x + "*/" + b;
    KeepAppend(a, tail, mode, syntax);
    KeepAppend(a, b, mode, syntax);
    KeepBehindBlock(x, b, syntax);
  }

  lemma KeepBehindBlock(x: string, b: string, syntax: Syntax)
    requires syntax.slash && !Contains(x, "*/")
    ensures Keep("/*" + x + "*/" + b, Code, syntax) == Keep(b, Code, syntax)
  {
    hide OccursAt, Keep, Contains, Find;
    BlockOpens(x + "*/" + b, syntax);
    BlockParts(x, b);
    CommentEnd(x, b);
    KeepBlock(x + "*/" + b, 0, syntax);
  }

  lemma BlockOpens(inside: string, syntax: Syntax)
    requires syntax.slash
    ensures Keep("/*" + inside, Code, syntax) == Keep(inside, Block, syntax)
  {
    hide Keep;
    var tail := "/*" + inside;
    assert tail[0..] == tail && tail[2..] == inside;
    KeepStep(tail, 0, Code, syntax);
  }

  lemma BlockParts(x: string, b: string)
    ensures "/*" + x + "*/" + b == "/*" + (x + "*/" + b)
    ensures var inside := x + "*/" + b; inside[0..] == inside && inside[|x| + 2..] == b
  {
  }

  /** A line comment behind code can be taken off the line. */
  lemma LineCommentIgnored(a: string, x: string, inBlock: bool, syntax: Syntax)
    requires Behind(a, Start(inBlock, syntax), syntax) == Some(Code)
    ensures syntax.slash ==> Strip(a + ("//" + x), inBlock, syntax) == Strip(a, inBlock, syntax)
    ensures syntax.hash ==> Strip(a + ("#" + x), inBlock, syntax) == Strip(a, inBlock, syntax)
  {
    hide Behind, Keep, TrimRight;
    var mode := Start(inBlock, syntax);
    KeepAppend(a, "", mode, syntax);
    KeepNothing(Code, syntax);
    assert a + "" == a;
    if syntax.slash {
      CommentKeepsNothing("//" + x, syntax);
      KeepAppend(a, "//" + x, mode, syntax);
    }
    if syntax.hash {
      CommentKeepsNothing("#" + x, syntax);
      KeepAppend(a, "#" + x, mode, syntax);
    }
  }

  lemma CommentKeepsNothing(comment: string, syntax: Syntax)
    requires comment != [] && ((syntax.hash && comment[0] == '#') || (syntax.slash && Begins(comment, '/', '/')))
    ensures Keep(comment, Code, syntax) == Kept("", false)
  {
  }

  // ---------------------------------------------------------------------------
  // Neither does white space at the end

  ghost predicate Proper(mode: Mode) {
    mode.Quoted? ==> IsQuote(mode.quote)
  }

  /** Spaces are kept or dropped all together, and neither open nor close a comment. */
  lemma {:induction false} KeepSpaces(blanks: string, mode: Mode, syntax: Syntax)
    requires AllSpace(blanks, IsByteSpace) && Proper(mode)
    ensures var k := Keep(blanks, mode, syntax); AllSpace(k.text, IsByteSpace) && k.open == mode.Block?
  {
    if blanks != [] {
      var next := if mode.Quoted? then AfterQuoted(mode, blanks[0]) else mode;
      assert IsByteSpace(blanks[0]);
      KeepSpaces(blanks[1..], next, syntax);
    }
  }

  /** The second has the first's text, perhaps followed by spaces. */
  ghost predicate Extends(k: Kept, k': Kept) {
    k.text <= k'.text && AllSpace(k'.text[|k.text|..], IsByteSpace) && k.open == k'.open
  }

  lemma ExtendsCons(c: char, k: Kept, k': Kept)
    requires Extends(k, k')
    ensures Extends(Cons(c, k), Cons(c, k'))
  {
  }

  lemma ExtendsRefl(k: Kept)
    ensures Extends(k, k)
  {
  }

  lemma {:induction false} KeepTrailing(line: string, blanks: string, mode: Mode, syntax: Syntax)
    requires AllSpace(blanks, IsByteSpace) && Proper(mode)
    ensures Extends(Keep(line, mode, syntax), Keep(line + blanks, mode, syntax))
    decreases |line|, 1
  {
    var long := line + blanks;
    if line == [] {
      assert long == blanks;
      KeepSpaces(blanks, mode, syntax);
    } else {
      KeepTrailingStep(line, blanks, mode, syntax);
    }
  }

  lemma {:induction false} KeepTrailingStep(line: string, blanks: string, mode: Mode, syntax: Syntax)
    requires AllSpace(blanks, IsByteSpace) && Proper(mode) && line != []
    ensures Extends(Keep(line, mode, syntax), Keep(line + blanks, mode, syntax))
    decreases |line|, 0
  {
    hide Extends, AllSpace, Keep;
    var long := line + blanks;
    var c := line[0];
    assert line[0..] == line && long[0..] == long && long[1..] == line[1..] + blanks;
    assert |line| >= 2 ==> long[2..] == line[2..] + blanks;
    PairsAgree(line, blanks);
    if mode.Block? {
      KeepBlockStep(line, syntax);
      KeepBlockStep(long, syntax);
      if Begins(line, '*', '/') {
        KeepTrailing(line[2..], blanks, Code, syntax);
      } else {
        KeepTrailing(line[1..], blanks, Block, syntax);
      }
    } else {
      KeepStep(line, 0, mode, syntax);
      KeepStep(long, 0, mode, syntax);
      if mode.Code? && !IsQuote(c) && ((syntax.hash && c == '#') || (syntax.slash && Begins(line, '/', '/'))) {
        ExtendsRefl(Kept("", false));
      } else if mode.Code? && !IsQuote(c) && syntax.slash && Begins(line, '/', '*') {
        KeepTrailing(line[2..], blanks, Block, syntax);
      } else {
        var next := if mode.Quoted? then AfterQuoted(mode, c) else if IsQuote(c) then Quoted(c, false) else Code;
        KeepTrailing(line[1..], blanks, next, syntax);
        ExtendsCons(c, Keep(line[1..], next, syntax), Keep(long[1..], next, syntax));
      }
    }
  }

  /** Spaces behind a line complete no comment mark at its beginning. */
  lemma PairsAgree(line: string, blanks: string)
    requires line != [] && AllSpace(blanks, IsByteSpace)
    ensures Begins(line + blanks, '*', '/') == Begins(line, '*', '/')
    ensures Begins(line + blanks, '/', '/') == Begins(line, '/', '/')
    ensures Begins(line + blanks, '/', '*') == Begins(line, '/', '*')
  {
  }

  /** Spaces at the end of a line do not matter to stripping it. */
  lemma StripTrailing(line: string, inBlock: bool, syntax: Syntax)
    ensures Strip(TrimRight(line, IsByteSpace), inBlock, syntax) == Strip(line, inBlock, syntax)
  {
    hide Keep;
    var short := TrimRight(line, IsByteSpace);
    var blanks := line[|short|..];
    assert short + blanks == line;
    var mode := Start(inBlock, syntax);
    KeepTrailing(short, blanks, mode, syntax);
    var k, k' := Keep(short, mode, syntax), Keep(line, mode, syntax);
    assert k'.text == k.text + k'.text[|k.text|..];
    TrimRightSpaces(k.text, k'.text[|k.text|..], IsByteSpace);
  }
}
