/** The text handling the roster manager applies to pasted text and imported files:
    `split(/\r?\n/)`, `String.prototype.trim` and the quote stripping
    `replace(/^"(.*)"$/, '$1')`. */
module LineParsing {
  import opened Roster

  /** The characters `trim` removes: ECMAScript WhiteSpace (tab, vertical tab, form feed,
      space, no-break space, the byte-order mark and the space separators) and
      LineTerminator (line feed, carriage return, line and paragraph separators). */
  predicate IsTrimSpace(c: char) {
    || c == '\t' || c == '\n' || c == '\U{000B}' || c == '\U{000C}' || c == '\r'
    || c == ' ' || c == '\U{00A0}' || c == '\U{1680}'
    || ('\U{2000}' <= c <= '\U{200A}')
    || c == '\U{2028}' || c == '\U{2029}' || c == '\U{202F}' || c == '\U{205F}'
    || c == '\U{3000}' || c == '\U{FEFF}'
  }

  /** The characters `.` does not match in a regular expression without the `s` flag. */
  predicate IsLineTerminator(c: char) {
    c == '\n' || c == '\r' || c == '\U{2028}' || c == '\U{2029}'
  }

  predicate IsBlank(s: string) {
    forall k :: 0 <= k < |s| ==> IsTrimSpace(s[k])
  }

  // ---------------------------------------------------------------------------
  // Splitting
  // ---------------------------------------------------------------------------

  /** `s.split(/\r?\n/)`: scanning from the left, a line feed, or a carriage return directly
      followed by a line feed, ends the current line. */
  function SplitLines(s: string): (lines: seq<string>)
    ensures |lines| >= 1
    ensures forall k :: 0 <= k < |lines| ==> '\n' !in lines[k]
    decreases |s|
  {
    if s == [] then [""]
    else if s[0] == '\n' then [""] + SplitLines(s[1..])
    else if |s| >= 2 && s[0] == '\r' && s[1] == '\n' then [""] + SplitLines(s[2..])
    else
      var rest := SplitLines(s[1..]);
      [[s[0]] + rest[0]] + rest[1..]
  }

  /** The lines joined back with line feeds. */
  function JoinLines(lines: seq<string>): string
    requires |lines| >= 1
    decreases |lines|
  {
    if |lines| == 1 then lines[0] else lines[0] + "\n" + JoinLines(lines[1..])
  }

  /** `s` with every carriage return that stands right before a line feed removed. */
  function WithoutCrBeforeLf(s: string): string
    decreases |s|
  {
    if s == [] then []
    else if |s| >= 2 && s[0] == '\r' && s[1] == '\n' then WithoutCrBeforeLf(s[1..])
    else [s[0]] + WithoutCrBeforeLf(s[1..])
  }

  /** Splitting loses only the separators: joining the lines with line feeds gives the text
      back with `\r\n` turned into `\n`. */
  lemma {:induction false} SplitLinesRoundTrip(s: string)
    ensures JoinLines(SplitLines(s)) == WithoutCrBeforeLf(s)
    decreases |s|
  {
    if s == [] {
    } else if s[0] == '\n' {
      SplitLinesRoundTrip(s[1..]);
      RoundTripLf(s);
    } else if |s| >= 2 && s[0] == '\r' && s[1] == '\n' {
      SplitLinesRoundTrip(s[2..]);
      RoundTripCrLf(s);
    } else {
      SplitLinesRoundTrip(s[1..]);
      RoundTripChar(s);
    }
  }

  /** The round trip over a text that starts with a line feed. */
  lemma RoundTripLf(s: string)
    requires s != [] && s[0] == '\n'
    requires JoinLines(SplitLines(s[1..])) == WithoutCrBeforeLf(s[1..])
    ensures JoinLines(SplitLines(s)) == WithoutCrBeforeLf(s)
  {
    var rest := SplitLines(s[1..]);
    assert SplitLines(s) == [""] + rest;
    assert ([""] + rest)[1..] == rest;
    assert JoinLines([""] + rest) == "\n" + JoinLines(rest) by {
      assert "" + "\n" == "\n";
    }
    assert WithoutCrBeforeLf(s) == "\n" + WithoutCrBeforeLf(s[1..]) by {
      assert [s[0]] == "\n";
    }
  }

  /** The round trip over a text that starts with a carriage return and a line feed. */
  lemma RoundTripCrLf(s: string)
    requires |s| >= 2 && s[0] == '\r' && s[1] == '\n'
    requires JoinLines(SplitLines(s[2..])) == WithoutCrBeforeLf(s[2..])
    ensures JoinLines(SplitLines(s)) == WithoutCrBeforeLf(s)
  {
    var rest := SplitLines(s[2..]);
    assert SplitLines(s) == [""] + rest;
    assert ([""] + rest)[1..] == rest;
    assert JoinLines([""] + rest) == "\n" + JoinLines(rest) by {
      assert "" + "\n" == "\n";
    }
    assert s[1..][1..] == s[2..];
    assert WithoutCrBeforeLf(s) == WithoutCrBeforeLf(s[1..]);
    assert WithoutCrBeforeLf(s[1..]) == "\n" + WithoutCrBeforeLf(s[2..]) by {
      assert [s[1]] == "\n";
    }
  }

  /** The round trip over a text that starts with any other character, which joins the
      first line. */
  lemma RoundTripChar(s: string)
    requires s != [] && s[0] != '\n' && !(|s| >= 2 && s[0] == '\r' && s[1] == '\n')
    requires JoinLines(SplitLines(s[1..])) == WithoutCrBeforeLf(s[1..])
    ensures JoinLines(SplitLines(s)) == WithoutCrBeforeLf(s)
  {
    var rest := SplitLines(s[1..]);
    var lines := [[s[0]] + rest[0]] + rest[1..];
    assert SplitLines(s) == lines;
    assert WithoutCrBeforeLf(s) == [s[0]] + WithoutCrBeforeLf(s[1..]);
    if |rest| > 1 {
      var tail := JoinLines(rest[1..]);
      assert lines[1..] == rest[1..];
      assert JoinLines(lines) == ([s[0]] + rest[0]) + "\n" + tail;
      assert JoinLines(rest) == rest[0] + "\n" + tail;
      AppendAssociative([s[0]], rest[0], "\n");
      AppendAssociative([s[0]], rest[0] + "\n", tail);
    } else {
      assert JoinLines(lines) == [s[0]] + rest[0];
    }
  }

  // ---------------------------------------------------------------------------
  // Trimming
  // ---------------------------------------------------------------------------

  /** `s` without its leading trim characters. */
  function TrimStart(s: string): (r: string)
    ensures |r| <= |s| && r == s[|s| - |r|..]
    ensures r == [] || !IsTrimSpace(r[0])
    ensures forall k :: 0 <= k < |s| - |r| ==> IsTrimSpace(s[k])
    decreases |s|
  {
    if s != [] && IsTrimSpace(s[0]) then
      var r := TrimStart(s[1..]);
      assert forall k :: 0 < k < |s| ==> s[k] == s[1..][k - 1];
      r
    else s
  }

  /** `s` without its trailing trim characters. */
  function TrimEnd(s: string): (r: string)
    ensures |r| <= |s| && r == s[..|r|]
    ensures r == [] || !IsTrimSpace(r[|r| - 1])
    ensures forall k :: |r| <= k < |s| ==> IsTrimSpace(s[k])
    decreases |s|
  {
    if s != [] && IsTrimSpace(s[|s| - 1]) then TrimEnd(s[..|s| - 1]) else s
  }

  /** `s.trim()`. */
  function Trim(s: string): (r: string)
    ensures |r| <= |s|
  {
    TrimEnd(TrimStart(s))
  }

  /** The cut points of `trim`: the middle slice `s[i..j]` between a blank prefix and a blank
      suffix. */
  lemma TrimSlice(s: string) returns (i: nat, j: nat)
    ensures i <= j <= |s| && Trim(s) == s[i..j]
    ensures IsBlank(s[..i]) && IsBlank(s[j..])
  {
    var t := TrimStart(s);
    var r := TrimEnd(t);
    i := |s| - |t|;
    j := i + |r|;
    MiddleSlice(s, t, r);
    BlankPrefix(s, i);
    BlankSuffix(s, t, |r|);
  }

  /** The trimmed string neither starts nor ends with a trim character. */
  lemma TrimEnds(s: string)
    ensures Trim(s) == [] || (!IsTrimSpace(Trim(s)[0]) && !IsTrimSpace(Trim(s)[|Trim(s)| - 1]))
  {
    var t := TrimStart(s);
    var r := TrimEnd(t);
    if r != [] {
      assert r[0] == t[0];
    }
  }

  /** The trimmed string is empty exactly when the string is blank. */
  lemma TrimEmptyIffBlank(s: string)
    ensures Trim(s) == [] <==> IsBlank(s)
  {
    var i, j := TrimSlice(s);
    var r := Trim(s);
    if i < j {
      var c := r[0];
      assert !IsTrimSpace(c) by {
        TrimEnds(s);
      }
      assert s[i] == c;
    } else {
      assert s == s[..i] + s[j..];
      BlankConcat(s[..i], s[j..]);
    }
  }

  /** A prefix of a suffix is a slice. */
  lemma MiddleSlice(s: string, t: string, r: string)
    requires |t| <= |s| && t == s[|s| - |t|..] && |r| <= |t| && r == t[..|r|]
    ensures r == s[|s| - |t|..|s| - |t| + |r|]
  {
  }

  /** The characters `TrimStart` dropped form a blank prefix. */
  lemma BlankPrefix(s: string, i: nat)
    requires i <= |s| && forall k :: 0 <= k < i ==> IsTrimSpace(s[k])
    ensures IsBlank(s[..i])
  {
    forall k | 0 <= k < i ensures IsTrimSpace(s[..i][k]) {
      assert s[..i][k] == s[k];
    }
  }

  /** `trim` cuts a blank prefix and a blank suffix and keeps the middle, which neither starts
      nor ends with a trim character; it is empty exactly for blank strings. */
  lemma TrimIsMiddle(s: string)
    ensures exists i, j :: 0 <= i <= j <= |s| && Trim(s) == s[i..j] && IsBlank(s[..i]) && IsBlank(s[j..])
    ensures Trim(s) == [] || (!IsTrimSpace(Trim(s)[0]) && !IsTrimSpace(Trim(s)[|Trim(s)| - 1]))
    ensures Trim(s) == [] <==> IsBlank(s)
  {
    var i, j := TrimSlice(s);
    TrimEnds(s);
    TrimEmptyIffBlank(s);
  }

  lemma BlankConcat(a: string, b: string)
    requires IsBlank(a) && IsBlank(b)
    ensures IsBlank(a + b)
  {
    forall k | 0 <= k < |a + b| ensures IsTrimSpace((a + b)[k]) {
      if k >= |a| {
        assert (a + b)[k] == b[k - |a|];
      }
    }
  }

  /** When `t` is a suffix of `s` whose entries from index `n` on are blank, so is that part of `s`. */
  lemma BlankSuffix(s: string, t: string, n: nat)
    requires |t| <= |s| && t == s[|s| - |t|..] && n <= |t|
    requires forall k :: n <= k < |t| ==> IsTrimSpace(t[k])
    ensures IsBlank(s[|s| - |t| + n..])
  {
    var i := |s| - |t|;
    var j := i + n;
    forall k | 0 <= k < |s| - j ensures IsTrimSpace(s[j..][k]) {
      assert s[j..][k] == t[n + k];
    }
  }

  /** Trimming twice is trimming once. */
  lemma TrimIdempotent(s: string)
    ensures Trim(Trim(s)) == Trim(s)
  {
    TrimIsMiddle(s);
    var r := Trim(s);
    if r != [] {
      assert TrimStart(r) == r;
      assert TrimEnd(r) == r;
    }
  }

  // ---------------------------------------------------------------------------
  // Names from text
  // ---------------------------------------------------------------------------

  /** The lines `/^"(.*)"$/` matches: a double quote at each end of at least two characters,
      and no line terminator (which `.` does not match) in between. */
  predicate QuoteDelimited(line: string) {
    && |line| >= 2 && line[0] == '"' && line[|line| - 1] == '"'
    && forall k :: 0 < k < |line| - 1 ==> !IsLineTerminator(line[k])
  }

  /** `replace(/^"(.*)"$/, '$1')`: a line that starts and ends with a double quote and has no
      line terminator in between loses the two quotes; any other line is left alone. */
  function StripQuotes(line: string): (r: string)
    ensures r != line <==> QuoteDelimited(line)
    ensures r == line || (|line| >= 2 && line[0] == '"' && line[|line| - 1] == '"' && r == line[1..|line| - 1])
  {
    if && |line| >= 2 && line[0] == '"' && line[|line| - 1] == '"'
       && (forall k :: 1 <= k < |line| - 1 ==> !IsLineTerminator(line[k]))
    then line[1..|line| - 1]
    else line
  }

  /** `filter(line => line.trim() !== '')`. */
  function NonBlank(lines: seq<string>): (r: seq<string>)
    ensures IsSubsequence(r, lines)
    ensures forall k :: 0 <= k < |r| ==> !IsBlank(r[k])
    decreases |lines|
  {
    if lines == [] then []
    else if Trim(lines[0]) == "" then
      TrimIsMiddle(lines[0]);
      var rest := NonBlank(lines[1..]);
      SubsequenceSkipOne(rest, lines);
      rest
    else
      TrimIsMiddle(lines[0]);
      [lines[0]] + NonBlank(lines[1..])
  }

  /** Every non-blank line survives the filter. */
  lemma {:induction false} NonBlankKeeps(lines: seq<string>)
    ensures forall k :: 0 <= k < |lines| && !IsBlank(lines[k]) ==> lines[k] in NonBlank(lines)
    decreases |lines|
  {
    if lines != [] {
      NonBlankKeeps(lines[1..]);
      TrimIsMiddle(lines[0]);
      forall k | 0 < k < |lines| && !IsBlank(lines[k])
        ensures lines[k] in NonBlank(lines)
      {
        assert lines[k] == lines[1..][k - 1];
      }
    }
  }

  /** The positions from `i` on of the lines that are not blank. */
  function NonBlankPositions(lines: seq<string>, i: nat): set<nat>
    requires i <= |lines|
  {
    set k: nat | i <= k < |lines| && !IsBlank(lines[k])
  }

  /** The position `i` joins the non-blank positions after it exactly when line `i` is not blank. */
  lemma PositionsStep(lines: seq<string>, i: nat)
    requires i < |lines|
    ensures |NonBlankPositions(lines, i)| ==
      |NonBlankPositions(lines, i + 1)| + (if IsBlank(lines[i]) then 0 else 1)
  {
    var after := NonBlankPositions(lines, i + 1);
    assert i !in after;
    if IsBlank(lines[i]) {
      assert NonBlankPositions(lines, i) == after;
    } else {
      assert NonBlankPositions(lines, i) == after + {i};
    }
  }

  /** The filter keeps one line per non-blank line from position `i` on. */
  lemma {:induction false} NonBlankCountFrom(lines: seq<string>, i: nat)
    requires i <= |lines|
    ensures |NonBlank(lines[i..])| == |NonBlankPositions(lines, i)|
    decreases |lines| - i
  {
    if i == |lines| {
      assert lines[i..] == [];
      assert NonBlankPositions(lines, i) == {};
    } else {
      var step := if IsBlank(lines[i]) then 0 else 1;
      assert |NonBlank(lines[i + 1..])| == |NonBlankPositions(lines, i + 1)| by {
        NonBlankCountFrom(lines, i + 1);
      }
      assert |NonBlank(lines[i..])| == |NonBlank(lines[i + 1..])| + step by {
        assert lines[i..][1..] == lines[i + 1..];
        TrimIsMiddle(lines[i]);
      }
      PositionsStep(lines, i);
    }
  }

  /** The filter keeps exactly as many lines as there are non-blank ones, so with the
      subsequence property of `NonBlank` it keeps each of them, in order. */
  lemma NonBlankCount(lines: seq<string>)
    ensures |NonBlank(lines)| == |NonBlankPositions(lines, 0)|
  {
    NonBlankCountFrom(lines, 0);
    assert lines[0..] == lines;
  }

  function TrimAll(lines: seq<string>): (r: seq<string>)
    ensures |r| == |lines|
    ensures forall k :: 0 <= k < |r| ==> r[k] == Trim(lines[k])
  {
    seq(|lines|, k requires 0 <= k < |lines| => Trim(lines[k]))
  }

  function StripQuotesAll(lines: seq<string>): (r: seq<string>)
    ensures |r| == |lines|
    ensures forall k :: 0 <= k < |r| ==> r[k] == StripQuotes(lines[k])
  {
    seq(|lines|, k requires 0 <= k < |lines| => StripQuotes(lines[k]))
  }

  /** The names `handleAddFromText` takes from the text area: non-blank lines, trimmed. */
  function TextNames(text: string): (names: seq<string>)
    ensures |names| == |NonBlankPositions(SplitLines(text), 0)|
  {
    NonBlankCount(SplitLines(text));
    TrimAll(NonBlank(SplitLines(text)))
  }

  /** The names `handleFileUpload` takes from a file: non-blank lines, unquoted, then trimmed. */
  function FileNames(content: string): (names: seq<string>)
    ensures |names| == |NonBlankPositions(SplitLines(content), 0)|
  {
    NonBlankCount(SplitLines(content));
    TrimAll(StripQuotesAll(NonBlank(SplitLines(content))))
  }

  /** A trimmed non-blank line without line feeds is a non-empty name without line feeds. */
  lemma TrimmedLine(line: string)
    requires !IsBlank(line) && '\n' !in line
    ensures Trim(line) != "" && Trim(Trim(line)) == Trim(line) && '\n' !in Trim(line)
  {
    TrimIsMiddle(line);
    TrimIdempotent(line);
  }

  /** A pasted name is never empty, carries no surrounding white space and no line break. */
  lemma TextNamesWellFormed(text: string)
    ensures forall k :: 0 <= k < |TextNames(text)| ==>
      TextNames(text)[k] != "" && Trim(TextNames(text)[k]) == TextNames(text)[k] && '\n' !in TextNames(text)[k]
  {
    var lines := SplitLines(text);
    var kept := NonBlank(lines);
    var names := TrimAll(kept);
    assert names == TextNames(text);
    SubsequenceMembers(kept, lines);
    forall k | 0 <= k < |names|
      ensures names[k] != "" && Trim(names[k]) == names[k] && '\n' !in names[k]
    {
      assert kept[k] in lines;
      TrimmedLine(kept[k]);
    }
  }

  /** An imported name is trimmed but may be empty: the blank test runs before the quotes are
      removed, so a line holding only `""` yields an empty name. */
  lemma FileNamesMayBeEmpty()
    ensures FileNames("\"\"") == [""]
  {
    var s := "\"\"";
    assert SplitLines(s) == [s] by {
      QuotePairIsOneLine();
    }
    assert Trim(s) == s by {
      assert TrimStart(s) == s;
      assert TrimEnd(s) == s;
    }
    assert NonBlank([s]) == [s];
    assert StripQuotes(s) == "";
  }

  /** The text `""` holds no line feed and is a single line. */
  lemma QuotePairIsOneLine()
    ensures SplitLines("\"\"") == ["\"\""]
  {
    var s := "\"\"";
    assert SplitLines(s[1..][1..]) == [""];
    assert SplitLines(s[1..]) == [[s[1]] + ""];
    var rest := SplitLines(s[1..]);
    assert rest[0] == [s[1]] && rest[1..] == [];
    assert [s[0]] + [s[1]] == s;
    assert SplitLines(s) == [[s[0]] + rest[0]] + rest[1..];
  }
}
