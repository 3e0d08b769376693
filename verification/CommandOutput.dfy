/**
 Writing patterns for the output of a command, so that the same output matches them again: each line
 is trimmed, and escaped when its first character means something in the pattern syntax.
 */
module CommandOutput {
  import opened Wrappers
  import opened Seqs
  import opened PatternSyntax
  import opened HavePatterns

  // unicode.IsSpace
  predicate IsSpace(c: char) {
    var n := c as int;
    || 9 <= n <= 13 || n == 32 || n == 0x85 || n == 0xA0 || n == 0x1680 || 0x2000 <= n <= 0x200A
    || n == 0x2028 || n == 0x2029 || n == 0x202F || n == 0x205F || n == 0x3000
  }

  // Tab, line feed, return and blank are spaces, and no visible ASCII character is.
  lemma SpacesAndText(c: char)
    ensures c in {'\t', '\n', '\r', ' '} ==> IsSpace(c)
    ensures '!' <= c <= '~' ==> !IsSpace(c)
  {
  }

  // strings.TrimSpace
  function TrimSpace(s: string): string {
    if s == [] then []
    else if IsSpace(s[0]) then TrimSpace(s[1..])
    else if IsSpace(s[|s| - 1]) then TrimSpace(s[..|s| - 1])
    else s
  }

  lemma {:induction false} TrimmedOccurs(s: string) returns (i: int)
    ensures OccursAt(s, TrimSpace(s), i)
  {
    if s == [] {
      i := 0;
    } else if IsSpace(s[0]) {
      i := TrimmedOccurs(s[1..]);
      i := i + 1;
    } else if IsSpace(s[|s| - 1]) {
      i := TrimmedOccurs(s[..|s| - 1]);
    } else {
      i := 0;
    }
  }

  // Everything outside two places is spaces, and between them is nothing or what neither starts nor ends with one.
  ghost predicate IsTrim(s: string, a: nat, b: nat) {
    && a <= b <= |s| && (forall i :: 0 <= i < a ==> IsSpace(s[i])) && (forall i :: b <= i < |s| ==> IsSpace(s[i]))
    && (a < b ==> !IsSpace(s[a]) && !IsSpace(s[b - 1]))
  }

  lemma TrimFront(s: string, a: nat, b: nat)
    requires s != [] && IsSpace(s[0]) && IsTrim(s[1..], a, b)
    ensures IsTrim(s, a + 1, b + 1) && s[a + 1..b + 1] == s[1..][a..b]
  {
    forall i | 0 <= i < a + 1
      ensures IsSpace(s[i])
    {
      assert i > 0 ==> s[i] == s[1..][i - 1];
    }
    forall i | b + 1 <= i < |s|
      ensures IsSpace(s[i])
    {
      assert s[i] == s[1..][i - 1];
    }
  }

  lemma TrimBack(s: string, a: nat, b: nat)
    requires s != [] && IsSpace(s[|s| - 1]) && IsTrim(s[..|s| - 1], a, b)
    ensures IsTrim(s, a, b) && s[a..b] == s[..|s| - 1][a..b]
  {
    forall i | b <= i < |s|
      ensures IsSpace(s[i])
    {
      assert i < |s| - 1 ==> s[i] == s[..|s| - 1][i];
    }
  }

  /** Trimming takes the spaces off both ends and nothing else. */
  lemma {:induction false} TrimMeans(s: string) returns (a: nat, b: nat)
    ensures IsTrim(s, a, b) && TrimSpace(s) == s[a..b]
  {
    if s == [] {
      a, b := 0, 0;
    } else if IsSpace(s[0]) {
      a, b := TrimMeans(s[1..]);
      TrimFront(s, a, b);
      a, b := a + 1, b + 1;
    } else if IsSpace(s[|s| - 1]) {
      a, b := TrimMeans(s[..|s| - 1]);
      TrimBack(s, a, b);
    } else {
      a, b := 0, |s|;
    }
  }

  ghost predicate NotBlank(line: string) {
    exists i :: 0 <= i < |line| && !IsSpace(line[i])
  }

  lemma BlankTrimsToNothing(s: string)
    ensures TrimSpace(s) == "" <==> !NotBlank(s)
  {
    var a, b := TrimMeans(s);
  }

  function EscapePattern(s: string): string {
    if HasPrefix(s, '!') || HasPrefix(s, '/') then "\\" + s else s
  }

  /**
   An escaped line is read as literal text that must be present, never as a regex or an inverse
   pattern, and the text is the line itself unless the line starts with a backslash, which is lost.
   */
  lemma EscapedParses(s: string)
    ensures Parse(EscapePattern(s)) == Text(EscapePattern(s), TrimPrefix(s, '\\'), false)
    ensures Parse(EscapePattern(s)).clean == s <==> !HasPrefix(s, '\\')
  {
    if HasPrefix(s, '!') || HasPrefix(s, '/') {
      assert ("\\" + s)[1..] == s;
    }
    if HasPrefix(s, '\\') {
      assert |s[1..]| < |s|;
    }
  }

  // The patterns of an output: one per line that is not blank.
  ghost function PatternsOf(lines: seq<string>): seq<string> {
    if lines == [] then []
    else
      var before := PatternsOf(lines[..|lines| - 1]);
      var line := EscapePattern(TrimSpace(lines[|lines| - 1]));
      if line != "" then before + [line] else before
  }

  method ReaderToSlice(lines: seq<string>) returns (slice: seq<string>)
    ensures slice == PatternsOf(lines)
  {
    slice := [];
    for i := 0 to |lines|
      invariant slice == PatternsOf(lines[..i])
    {
      assert lines[..i + 1][..i] == lines[..i];
      var line := TrimSpace(lines[i]);
      line := EscapePattern(line);
      if line != "" {
        slice := slice + [line];
      }
    }
    TakeAll(lines);
  }

  // A trimmed line, behind a backslash if it starts with an exclamation mark or a slash.
  ghost predicate WrittenFor(pattern: string, line: string) {
    var t := TrimSpace(line);
    t != "" && pattern == if t[0] == '!' || t[0] == '/' then "\\" + t else t
  }

  ghost function HasText(): string -> bool {
    line => NotBlank(line)
  }

  ghost function IsWritten(): (string, string) -> bool {
    (line, pattern) => WrittenFor(pattern, line)
  }

  /** There is one pattern for each line with something other than spaces on it, in the order of the lines. */
  lemma {:induction false} PatternsByLine(lines: seq<string>) returns (at: seq<nat>)
    ensures Picks(lines, at, PatternsOf(lines), HasText(), IsWritten())
  {
    if lines == [] {
      at := [];
    } else {
      var n := |lines| - 1;
      at := PatternsByLine(lines[..n]);
      assert lines == lines[..n] + [lines[n]];
      BlankTrimsToNothing(lines[n]);
      var line := EscapePattern(TrimSpace(lines[n]));
      at := PicksNext(lines[..n], at, PatternsOf(lines[..n]), HasText(), IsWritten(), lines[n], line);
    }
  }

  lemma OccurrenceShifts(s: string, t: string, i: int)
    requires OccursAt(s, t, i)
    ensures Contains(s, t)
    ensures HasPrefix(t, '\\') ==> Contains(s, t[1..])
  {
    if HasPrefix(t, '\\') {
      assert s[i..i + |t|][1..] == s[i + 1..i + |t|];
      assert OccursAt(s, t[1..], i + 1);
    }
  }

  lemma LineSatisfiesItsPattern(engine: Engine, line: string)
    ensures Matches(engine, Parse(EscapePattern(TrimSpace(line))), line)
  {
    var t := TrimSpace(line);
    var i := TrimmedOccurs(line);
    OccurrenceShifts(line, t, i);
    EscapedParses(t);
  }

  lemma {:induction false} PatternsSatisfied(engine: Engine, lines: seq<string>, all: seq<string>)
    requires lines <= all
    ensures AllSatisfied(engine, PatternsOf(lines), all)
    ensures forall i :: 0 <= i < |PatternsOf(lines)| ==> !IsRegex(PatternsOf(lines)[i])
  {
    if lines != [] {
      var n := |lines| - 1;
      var line := EscapePattern(TrimSpace(lines[n]));
      PatternsSatisfied(engine, lines[..n], all);
      LineSatisfiesItsPattern(engine, lines[n]);
      EscapedParses(TrimSpace(lines[n]));
      assert all[n] == lines[n];
      assert SomeLine(engine, Parse(line), all);
    }
  }

  /** What is written for an output matches that output, with any regular expression engine. */
  lemma OutputMatchesItsPatterns(engine: Engine, lines: seq<string>)
    ensures AllSatisfied(engine, PatternsOf(lines), lines)
    ensures forall i :: 0 <= i < |PatternsOf(lines)| ==> Compiles(engine, PatternsOf(lines)[i])
  {
    PatternsSatisfied(engine, lines, lines);
  }

  /** The two sides together: read an output, write its patterns, and match the same output. */
  method WriteThenMatch(engine: Engine, lines: seq<string>)
    returns (patterns: seq<string>, r: Result<bool, MatchError>)
    ensures patterns == PatternsOf(lines)
    ensures r == Success(true)
  {
    patterns := ReaderToSlice(lines);
    OutputMatchesItsPatterns(engine, lines);
    var elements := seq(|patterns|, i requires 0 <= i < |patterns| => StringElement(patterns[i]));
    var matcher := new HavePatternsMatcher(Some(elements));
    assert matcher.AllStrings() && matcher.Strings() == patterns;
    r := matcher.Match(engine, Lines(lines));
  }
}
