/**
 The syntax of have-patterns: literal text with an escape, or a regular expression between slashes,
 either with a leading mark for "must not match".
 */
module PatternSyntax {
  import opened Wrappers

  // The regular expression engine: whether an expression compiles and whether it matches a line.
  datatype Engine = Engine(compiles: string -> bool, matches: (string, string) -> bool)

  datatype Pattern =
    | Text(pattern: string, clean: string, inverse: bool)
    | Regex(pattern: string, expression: string, inverse: bool)

  // ---------- strings ----------

  predicate OccursAt(s: string, t: string, i: int) {
    0 <= i <= |s| - |t| && s[i..i + |t|] == t
  }

  predicate Contains(s: string, t: string) {
    exists i :: 0 <= i <= |s| && OccursAt(s, t, i)
  }

  lemma ContainsMeans(s: string, t: string)
    ensures Contains(s, t) <==> exists before, after :: s == before + t + after
  {
    if i :| 0 <= i <= |s| && OccursAt(s, t, i) {
      assert s == s[..i] + t + s[i + |t|..];
    }
    if before, after :| s == before + t + after {
      assert OccursAt(s, t, |before|);
    }
  }

  predicate HasPrefix(s: string, c: char) {
    s != [] && s[0] == c
  }

  function TrimPrefix(s: string, c: char): string {
    if HasPrefix(s, c) then s[1..] else s
  }

  // strings.LastIndex for one character; -1 when it does not occur.
  function LastIndex(s: string, c: char): (i: int)
    ensures -1 <= i < |s|
    ensures i >= 0 ==> s[i] == c
    ensures forall k :: i < k < |s| ==> s[k] != c
  {
    if s == [] then -1
    else if s[|s| - 1] == c then |s| - 1
    else LastIndex(s[..|s| - 1], c)
  }

  predicate AreFlags(s: string) {
    forall i :: 0 <= i < |s| ==> s[i] == 'i' || s[i] == 'm' || s[i] == 's'
  }

  // ---------- regular expressions as written ----------

  datatype Written = Written(inverse: bool, body: string, flags: string)

  // The slash between the body and the flags, with what surrounds it.
  function Enclosed(w: Written): string {
    w.body + ("/" + w.flags)
  }

  function Print(w: Written): string {
    if w.inverse then "!" + ("/" + Enclosed(w)) else "/" + Enclosed(w)
  }

  // The expression that the engine compiles.
  function Expression(w: Written): string {
    if w.flags != "" then "(?" + w.flags + ")" + w.body else w.body
  }

  // What follows the opening slash.
  function AfterSlash(s: string): string
    requires HasPrefix(TrimPrefix(s, '!'), '/')
  {
    TrimPrefix(s, '!')[1..]
  }

  predicate IsRegex(s: string) {
    && HasPrefix(TrimPrefix(s, '!'), '/')
    && LastIndex(AfterSlash(s), '/') >= 0
    && AreFlags(AfterSlash(s)[LastIndex(AfterSlash(s), '/') + 1..])
  }

  function Split(s: string): Written
    requires IsRegex(s)
  {
    var rest := AfterSlash(s);
    var closing := LastIndex(rest, '/');
    Written(HasPrefix(s, '!'), rest[..closing], rest[closing + 1..])
  }

  // The closing slash is the last one, because no flag is a slash.
  lemma ClosingSlash(w: Written)
    requires AreFlags(w.flags)
    ensures LastIndex(Enclosed(w), '/') == |w.body|
    ensures Enclosed(w)[..|w.body|] == w.body && Enclosed(w)[|w.body| + 1..] == w.flags
  {
    var rest, n := Enclosed(w), |w.body|;
    assert rest[n] == '/';
    assert rest[n + 1..] == w.flags;
    forall k | n < k < |rest|
      ensures rest[k] != '/'
    {
      assert rest[k] == w.flags[k - n - 1];
    }
  }

  lemma AfterPrintedSlash(w: Written)
    ensures HasPrefix(Print(w), '!') == w.inverse
    ensures HasPrefix(TrimPrefix(Print(w), '!'), '/') && AfterSlash(Print(w)) == Enclosed(w)
  {
    var rest := Enclosed(w);
    assert ("!" + ("/" + rest))[1..] == "/" + rest;
    assert ("/" + rest)[1..] == rest;
  }

  /** Splitting what was printed gives back the polarity, the body and the flags, whatever the body. */
  lemma SplitPrinted(w: Written)
    requires AreFlags(w.flags)
    ensures IsRegex(Print(w)) && Split(Print(w)) == w
  {
    AfterPrintedSlash(w);
    ClosingSlash(w);
  }

  lemma Cut(s: string, i: nat)
    requires i < |s|
    ensures s == s[..i] + ([s[i]] + s[i + 1..])
  {
  }

  lemma PutBack(s: string, c: char)
    requires HasPrefix(s, c)
    ensures s == [c] + s[1..]
  {
  }

  /** Every accepted text is the printing of what it splits into. */
  lemma PrintSplit(s: string)
    requires IsRegex(s)
    ensures AreFlags(Split(s).flags) && Print(Split(s)) == s
  {
    var rest := AfterSlash(s);
    Cut(rest, LastIndex(rest, '/'));
    PutBack(TrimPrefix(s, '!'), '/');
    if HasPrefix(s, '!') {
      PutBack(s, '!');
    }
  }

  lemma PrintedText(w: Written)
    ensures Print(w) == (if w.inverse then "!" else "") + "/" + w.body + "/" + w.flags
  {
    var body, flags := w.body, w.flags;
    assert "/" + (body + ("/" + flags)) == "/" + body + "/" + flags;
    assert "!" + ("/" + (body + ("/" + flags))) == "!" + "/" + body + "/" + flags;
    assert "" + "/" + body + "/" + flags == "/" + body + "/" + flags;
  }

  /** The texts recognised as regex patterns are exactly the printed ones. */
  lemma RecognisedArePrinted(s: string)
    ensures IsRegex(s) <==> exists w: Written ::
      && (forall i :: 0 <= i < |w.flags| ==> w.flags[i] in {'i', 'm', 's'})
      && (if w.inverse then "!" else "") + "/" + w.body + "/" + w.flags == s
  {
    if IsRegex(s) {
      PrintSplit(s);
      PrintedText(Split(s));
    }
    if w: Written :|
      && (forall i :: 0 <= i < |w.flags| ==> w.flags[i] in {'i', 'm', 's'})
      && (if w.inverse then "!" else "") + "/" + w.body + "/" + w.flags == s
    {
      PrintedText(w);
      SplitPrinted(w);
    }
  }

  method IsRegexPattern(s: string) returns (b: bool)
    ensures b == IsRegex(s)
  {
    var core := TrimPrefix(s, '!');
    if !HasPrefix(core, '/') {
      return false;
    }
    var closing := LastIndex(core[1..], '/');
    if closing < 0 {
      return false;
    }
    var trailingFlags := core[1..][closing + 1..];
    for i := 0 to |trailingFlags|
      invariant forall k :: 0 <= k < i ==> trailingFlags[k] == 'i' || trailingFlags[k] == 'm' || trailingFlags[k] == 's'
    {
      if trailingFlags[i] != 'i' && trailingFlags[i] != 'm' && trailingFlags[i] != 's' {
        return false;
      }
    }
    return true;
  }

  // ---------- patterns ----------

  function Parse(s: string): Pattern {
    if IsRegex(s) then Regex(s, Expression(Split(s)), Split(s).inverse)
    else Text(s, TrimPrefix(TrimPrefix(s, '!'), '\\'), HasPrefix(s, '!'))
  }

  predicate Compiles(engine: Engine, s: string) {
    IsRegex(s) ==> engine.compiles(Expression(Split(s)))
  }

  /** A body between slashes, with flags after it, is compiled with the flags in front. */
  lemma RegexParses(inverse: bool, body: string, flags: string)
    requires forall i :: 0 <= i < |flags| ==> flags[i] in {'i', 'm', 's'}
    ensures
      var s := (if inverse then "!" else "") + "/" + body + "/" + flags;
      var expression := if flags == "" then body else "(?" + flags + ")" + body;
      Parse(s) == Regex(s, expression, inverse) && forall e: Engine :: Compiles(e, s) <==> e.compiles(expression)
  {
    SplitPrinted(Written(inverse, body, flags));
    PrintedText(Written(inverse, body, flags));
  }

  lemma MarkTrimmed(inverse: bool, text: string)
    requires text != "" && text[0] != '!'
    ensures
      var s := (if inverse then "!" else "") + text;
      TrimPrefix(s, '!') == text && HasPrefix(s, '!') == inverse
  {
    assert ("!" + text)[1..] == text && "" + text == text;
  }

  // Text without a slash in front is no regular expression, with or without a mark.
  lemma MarkedParses(inverse: bool, text: string)
    requires text != "" && text[0] != '!' && text[0] != '/'
    ensures
      var s := (if inverse then "!" else "") + text;
      Parse(s) == Text(s, TrimPrefix(text, '\\'), inverse) && !IsRegex(s)
  {
    MarkTrimmed(inverse, text);
  }

  /** Behind a backslash any text is literal, and so is a text that starts with no special character. */
  lemma TextParses(inverse: bool, text: string)
    ensures
      var s := (if inverse then "!" else "") + ("\\" + text);
      Parse(s) == Text(s, text, inverse) && forall e :: Compiles(e, s)
    ensures text != "" && text[0] !in {'!', '/', '\\'} ==>
      var s := (if inverse then "!" else "") + text;
      Parse(s) == Text(s, text, inverse) && forall e :: Compiles(e, s)
  {
    assert ("\\" + text)[1..] == text;
    MarkedParses(inverse, "\\" + text);
    if text != "" && text[0] !in {'!', '/', '\\'} {
      MarkedParses(inverse, text);
    }
  }

  method NewStringPattern(s: string) returns (p: Pattern)
    requires !IsRegex(s)
    ensures p == Parse(s)
  {
    var inverse := false;
    var cleanPattern := s;
    if HasPrefix(cleanPattern, '!') {
      inverse := true;
      cleanPattern := cleanPattern[1..];
    }
    cleanPattern := TrimPrefix(cleanPattern, '\\');
    p := Text(s, cleanPattern, inverse);
  }

  // The caller has recognised the text, so there is always a character to look at.
  method NewRegexPattern(engine: Engine, s: string) returns (r: Result<Pattern, string>)
    requires IsRegex(s)
    ensures r.Success? <==> Compiles(engine, s)
    ensures r.Success? ==> r.value == Parse(s)
  {
    var inverse := false;
    var cleanStr := s;
    if HasPrefix(s, '!') {
      inverse := true;
      cleanStr := cleanStr[1..];
    }
    var trimLeft := ['\\', '/'];
    for i := 0 to 2
      invariant i <= 1 && cleanStr == TrimPrefix(s, '!')
    {
      if cleanStr[0] == trimLeft[i] {
        cleanStr := cleanStr[1..];
        break;
      }
    }
    assert cleanStr == AfterSlash(s);
    var flags := "";
    var idx := LastIndex(cleanStr, '/');
    if idx >= 0 {
      flags := cleanStr[idx + 1..];
      cleanStr := cleanStr[..idx];
    }
    if flags != "" {
      cleanStr := "(?" + flags + ")" + cleanStr;
    }
    if !engine.compiles(cleanStr) {
      return Failure(cleanStr);
    }
    return Success(Regex(s, cleanStr, inverse));
  }

  // The pattern for one text, by its kind.
  method NewPattern(engine: Engine, s: string) returns (r: Result<Pattern, string>)
    ensures r.Success? <==> Compiles(engine, s)
    ensures r.Success? ==> r.value == Parse(s)
  {
    var isRegex := IsRegexPattern(s);
    if isRegex {
      r := NewRegexPattern(engine, s);
    } else {
      var pat := NewStringPattern(s);
      r := Success(pat);
    }
  }

  method SliceToPatterns(engine: Engine, slice: seq<string>) returns (r: Result<seq<Pattern>, string>)
    ensures r.Success? <==> forall i :: 0 <= i < |slice| ==> Compiles(engine, slice[i])
    ensures r.Success? ==> |r.value| == |slice| && forall i :: 0 <= i < |slice| ==> r.value[i] == Parse(slice[i])
  {
    var patterns: seq<Pattern> := [];
    for i := 0 to |slice|
      invariant |patterns| == i && forall k :: 0 <= k < i ==> patterns[k] == Parse(slice[k])
      invariant forall k :: 0 <= k < i ==> Compiles(engine, slice[k])
    {
      var pat := NewPattern(engine, slice[i]);
      if pat.Failure? {
        return Failure(pat.error);
      }
      patterns := patterns + [pat.value];
    }
    return Success(patterns);
  }
}
