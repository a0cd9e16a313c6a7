/**
  Code in a Markdown report: inline code spans and fenced blocks whose fences are longer than
  any run of backticks in the value, with readers for both after sections 6.1 and 4.5 of
  CommonMark 0.31.2.
 */
module MarkdownCode {
  import opened Wrappers
  import opened Text

  // ---------- the longest run ----------

  /** How many times `c` stands at the beginning of `s`. */
  function RunLength(s: string, c: char): (n: nat)
    ensures n <= |s|
  {
    if s != "" && s[0] == c then 1 + RunLength(s[1..], c) else 0
  }

  function Max(a: nat, b: nat): nat {
    if a < b then b else a
  }

  /** The longest run of `c` that starts anywhere in `s`. */
  function Longest(s: string, c: char): nat {
    if s == "" then 0 else Max(RunLength(s, c), Longest(s[1..], c))
  }

  method LongestRun(value: string, needle: char) returns (longest: nat)
    ensures longest == Longest(value, needle)
  {
    longest := 0;
    var current: nat := 0;
    assert value[0..] == value;
    for i := 0 to |value|
      invariant current <= longest
      invariant Longest(value, needle)
                == Max(longest, Max(current + RunLength(value[i..], needle), Longest(value[i..], needle)))
    {
      assert value[i..][1..] == value[i + 1..];
      if value[i] == needle {
        current := current + 1;
        longest := Max(longest, current);
      } else {
        current := 0;
      }
    }
  }

  predicate IsRun(s: string, c: char, i: nat, j: nat) {
    i <= j <= |s| && forall k :: i <= k < j ==> s[k] == c
  }

  /** `Longest` is the maximum over all runs, wherever they start and end. */
  lemma {:induction false} LongestBoundsRuns(s: string, c: char, i: nat, j: nat)
    requires IsRun(s, c, i, j)
    ensures j - i <= Longest(s, c)
    decreases |s|
  {
    if i == j {
    } else if i > 0 {
      assert IsRun(s[1..], c, i - 1, j - 1);
      LongestBoundsRuns(s[1..], c, i - 1, j - 1);
    } else {
      RunReaches(s, c, j);
    }
  }

  lemma {:induction false} RunReaches(s: string, c: char, j: nat)
    requires IsRun(s, c, 0, j)
    ensures j <= RunLength(s, c)
  {
    if j > 0 {
      assert IsRun(s[1..], c, 0, j - 1);
      RunReaches(s[1..], c, j - 1);
    }
  }

  lemma {:induction false} RunLengthIsRun(s: string, c: char)
    ensures IsRun(s, c, 0, RunLength(s, c))
    ensures RunLength(s, c) < |s| ==> s[RunLength(s, c)] != c
  {
    if s != "" && s[0] == c {
      RunLengthIsRun(s[1..], c);
      assert forall k :: 1 <= k < |s| ==> s[k] == s[1..][k - 1];
    }
  }

  lemma {:induction false} LongestIsAttained(s: string, c: char) returns (i: nat)
    ensures IsRun(s, c, i, i + Longest(s, c))
  {
    if s == "" {
      i := 0;
    } else if Longest(s, c) == RunLength(s, c) {
      RunLengthIsRun(s, c);
      i := 0;
    } else {
      var rest := LongestIsAttained(s[1..], c);
      i := rest + 1;
      assert forall k :: 1 <= k < |s| ==> s[k] == s[1..][k - 1];
    }
  }

  lemma {:induction false} LongestOfSuffix(s: string, c: char, k: nat)
    requires k <= |s|
    ensures Longest(s[k..], c) <= Longest(s, c)
    decreases k
  {
    if k == 0 {
      assert s[0..] == s;
    } else {
      LongestOfSuffix(s, c, k - 1);
      assert s[k - 1..][1..] == s[k..];
    }
  }

  lemma {:induction false} RunOfRepeat(c: char, n: nat, rest: string)
    requires rest == "" || rest[0] != c
    ensures RunLength(Repeat(c, n) + rest, c) == n
    ensures (Repeat(c, n) + rest)[n..] == rest
    decreases n
  {
    if n == 0 {
      assert Repeat(c, 0) + rest == rest;
    } else {
      RunOfRepeat(c, n - 1, rest);
      assert (Repeat(c, n) + rest)[1..] == Repeat(c, n - 1) + rest;
    }
  }

  // ---------- inline code ----------

  /** `value.replace(['\r', '\n'], " ")`. */
  function WithoutLineEnds(s: string): (t: string)
    ensures |t| == |s|
  {
    if s == "" then "" else [if s[0] == '\r' || s[0] == '\n' then ' ' else s[0]] + WithoutLineEnds(s[1..])
  }

  predicate EdgeNeedsSpace(s: string) {
    s != "" && (s[0] == '`' || s[|s| - 1] == '`' || s[0] == ' ' || s[|s| - 1] == ' ')
  }

  function Padded(s: string): string {
    if EdgeNeedsSpace(s) then " " + s + " " else s
  }

  function InlineCode(value: string): string {
    var line := WithoutLineEnds(value);
    var fence := Repeat('`', Longest(line, '`') + 1);
    fence + Padded(line) + fence
  }

  /** Where the first run of exactly `n` backticks starts in a text that does not start inside a run. */
  function FindClose(s: string, n: nat): (k: Option<nat>)
    ensures k.Some? ==> k.value + n <= |s|
    decreases |s|
  {
    var run := RunLength(s, '`');
    if s == "" then None
    else if run == n then Some(0)
    else
      var width := if run == 0 then 1 else run;
      match FindClose(s[width..], n)
      case None => None
      case Some(k) => Some(width + k)
  }

  predicate OnlySpaces(s: string) {
    forall k :: 0 <= k < |s| ==> s[k] == ' '
  }

  /** One space goes from both ends when both have one and something else is there. */
  function StripPadding(s: string): string {
    if |s| >= 2 && s[0] == ' ' && s[|s| - 1] == ' ' && !OnlySpaces(s) then s[1..|s| - 1] else s
  }

  datatype Span = Span(content: string, rest: string)

  /** The code span that `s` starts with; line endings in its content read as spaces. */
  function ReadSpan(s: string): Option<Span> {
    var n := RunLength(s, '`');
    if n == 0 then None
    else
      match FindClose(s[n..], n)
      case None => None
      case Some(k) => Some(Span(StripPadding(WithoutLineEnds(s[n..][..k])), s[n + k + n..]))
  }

  lemma {:induction false} RunStopsInside(s: string, rest: string)
    requires RunLength(s, '`') < |s|
    ensures RunLength(s + rest, '`') == RunLength(s, '`')
  {
    if s[0] == '`' {
      assert (s + rest)[1..] == s[1..] + rest;
      RunStopsInside(s[1..], rest);
    }
  }

  lemma {:induction false} RunOfWhole(s: string)
    requires s != "" && s[|s| - 1] != '`'
    ensures RunLength(s, '`') < |s|
  {
    RunLengthIsRun(s, '`');
  }

  /** How far the search for a closing run goes in one step. */
  function Stride(s: string): (width: nat)
    requires s != ""
    ensures 0 < width <= |s|
  {
    if RunLength(s, '`') == 0 then 1 else RunLength(s, '`')
  }

  function Shifted(k: Option<nat>, width: nat): Option<nat> {
    if k.Some? then Some(width + k.value) else None
  }

  lemma FindCloseStep(s: string, n: nat)
    requires s != "" && RunLength(s, '`') != n
    ensures FindClose(s, n) == Shifted(FindClose(s[Stride(s)..], n), Stride(s))
  {
  }

  lemma SumFrom(a: string, b: string, k: nat)
    requires k <= |a|
    ensures (a + b)[k..] == a[k..] + b
  {
  }

  lemma StrideInContent(content: string, tail: string, n: nat)
    requires RunLength(content, '`') < |content| && RunLength(content, '`') != n
    ensures FindClose(content + tail, n)
            == Shifted(FindClose(content[Stride(content)..] + tail, n), Stride(content))
  {
    RunStopsInside(content, tail);
    FindCloseStep(content + tail, n);
    SumFrom(content, tail, Stride(content));
  }

  /** A run that is too short and ends before the content does is passed over. */
  lemma RunInContent(content: string, tail: string, n: nat)
    requires Longest(content, '`') < n && content != "" && content[|content| - 1] != '`'
    ensures var width := Stride(content);
            && Longest(content[width..], '`') < n
            && FindClose(content + tail, n) == Shifted(FindClose(content[width..] + tail, n), width)
  {
    RunOfWhole(content);
    LongestOfSuffix(content, '`', Stride(content));
    StrideInContent(content, tail, n);
  }

  /** Text whose runs are all too short, and that does not end inside one, holds no closing run. */
  lemma {:induction false} FindCloseSkips(content: string, tail: string, n: nat)
    requires n > 0 && Longest(content, '`') < n
    requires content != "" ==> content[|content| - 1] != '`'
    requires tail != "" && RunLength(tail, '`') == n
    ensures FindClose(content + tail, n) == Some(|content|)
    decreases |content|
  {
    if content == "" {
      assert content + tail == tail;
    } else {
      RunInContent(content, tail, n);
      FindCloseSkips(content[Stride(content)..], tail, n);
    }
  }

  lemma {:induction false} WithoutLineEndsTwice(s: string)
    ensures WithoutLineEnds(WithoutLineEnds(s)) == WithoutLineEnds(s)
  {
    if s != "" {
      WithoutLineEndsTwice(s[1..]);
    }
  }

  lemma {:induction false} WithoutLineEndsParts(a: string, b: string)
    ensures WithoutLineEnds(a + b) == WithoutLineEnds(a) + WithoutLineEnds(b)
  {
    if a == "" {
      assert a + b == b;
    } else {
      assert (a + b)[1..] == a[1..] + b;
      WithoutLineEndsParts(a[1..], b);
    }
  }

  lemma PaddedHasNoLineEnds(value: string)
    ensures WithoutLineEnds(Padded(WithoutLineEnds(value))) == Padded(WithoutLineEnds(value))
  {
    var line := WithoutLineEnds(value);
    WithoutLineEndsTwice(value);
    WithoutLineEndsParts(" " + line, " ");
    WithoutLineEndsParts(" ", line);
  }

  lemma {:induction false} LongestOfSpaced(s: string)
    ensures Longest(s + " ", '`') == Longest(s, '`')
    ensures RunLength(s + " ", '`') == RunLength(s, '`')
  {
    if s == "" {
      assert (s + " ")[1..] == "";
    } else {
      LongestOfSpaced(s[1..]);
      assert (s + " ")[1..] == s[1..] + " ";
    }
  }

  /** Padding adds no backtick and keeps the ends free of them. */
  lemma PaddedIsClear(line: string)
    ensures Longest(Padded(line), '`') == Longest(line, '`')
    ensures Padded(line) != "" ==> Padded(line)[0] != '`' && Padded(line)[|Padded(line)| - 1] != '`'
  {
    if EdgeNeedsSpace(line) {
      assert Padded(line) == " " + (line + " ");
      assert (" " + (line + " "))[1..] == line + " ";
      LongestOfSpaced(line);
    }
  }

  /** The span between an opening run and the first closing run of its length. */
  lemma SpanBetween(s: string, n: nat, inner: string, content: string, after: string)
    requires n > 0 && RunLength(s, '`') == n && s[n..] == inner
    requires FindClose(inner, n) == Some(|content|)
    requires inner[..|content|] == content && inner[|content| + n..] == after
    ensures ReadSpan(s) == Some(Span(StripPadding(WithoutLineEnds(content)), after))
  {
    assert s[n + |content| + n..] == s[n..][|content| + n..];
  }

  /** A span around any content whose runs are shorter than the fence and stay clear of it. */
  lemma SpanOfContent(content: string, n: nat, after: string)
    requires n > 0 && Longest(content, '`') < n && (after == "" || after[0] != '`')
    requires content != "" && content[0] != '`' && content[|content| - 1] != '`'
    ensures var fence := Repeat('`', n);
            ReadSpan(fence + (content + (fence + after)))
            == Some(Span(StripPadding(WithoutLineEnds(content)), after))
  {
    var fence := Repeat('`', n);
    var tail := fence + after;
    RunOfRepeat('`', n, content + tail);
    RunOfRepeat('`', n, after);
    FindCloseSkips(content, tail, n);
    SuffixOfSum(content, tail, n);
    assert (content + tail)[..|content|] == content;
    SpanBetween(fence + (content + tail), n, content + tail, content, after);
  }

  lemma SuffixOfSum(a: string, b: string, k: nat)
    requires k <= |b|
    ensures (a + b)[|a| + k..] == b[k..]
  {
  }

  /** What the reader makes of the printed span when there is anything to print. */
  lemma SpanReads(value: string, after: string)
    requires value != "" && (after == "" || after[0] != '`')
    ensures ReadSpan(InlineCode(value) + after) == Some(Span(StripPadding(Padded(WithoutLineEnds(value))), after))
  {
    var line := WithoutLineEnds(value);
    var n := Longest(line, '`') + 1;
    var fence, content := Repeat('`', n), Padded(line);
    PaddedIsClear(line);
    SpanOfContent(content, n, after);
    PaddedHasNoLineEnds(value);
    Regroup(fence + content, fence, after);
    Regroup(fence, content, fence + after);
  }

  lemma StripUndoesPadding(line: string)
    requires line != ""
    ensures StripPadding(Padded(line)) == line <==> !OnlySpaces(line)
  {
    if !OnlySpaces(line) {
      var k :| 0 <= k < |line| && line[k] != ' ';
      if EdgeNeedsSpace(line) {
        assert Padded(line)[k + 1] == line[k];
      }
    } else {
      assert line[0] == ' ';
      assert OnlySpaces(Padded(line));
    }
  }

  /** The content of a span is never empty, for an opening run takes all backticks there are. */
  lemma SpanIsNotEmpty(s: string)
    ensures var span := ReadSpan(s); span.Some? ==> span.value.content != ""
  {
    var n := RunLength(s, '`');
    if n > 0 && FindClose(s[n..], n).Some? {
      RunLengthIsRun(s, '`');
      assert RunLength(s[n..], '`') == 0;
      var content := WithoutLineEnds(s[n..][..FindClose(s[n..], n).value]);
      assert |content| == 2 && content[0] == ' ' && content[1] == ' ' ==> OnlySpaces(content);
    }
  }

  /**
    A reader gets the value back, with line endings as spaces, exactly when it holds anything
    besides spaces and line endings.
   */
  lemma InlineCodeReadsBackIff(value: string, after: string)
    requires after == "" || after[0] != '`'
    ensures ReadSpan(InlineCode(value) + after) == Some(Span(WithoutLineEnds(value), after))
            <==> !OnlySpaces(WithoutLineEnds(value))
  {
    if value == "" {
      SpanIsNotEmpty(InlineCode(value) + after);
    } else {
      SpanReads(value, after);
      StripUndoesPadding(WithoutLineEnds(value));
    }
  }

  // ---------- fenced blocks ----------

  function CodeBlock(language: string, value: string): string {
    var fence := Repeat('`', Max(Longest(value, '`') + 1, 3));
    fence + language + "\n" + value + "\n" + fence + "\n"
  }

  /** The report under construction. */
  class Report {
    var out: string

    method PushCodeBlock(language: string, value: string)
      modifies this
      ensures out == old(out) + CodeBlock(language, value)
    {
      var longest := LongestRun(value, '`');
      var fence := Repeat('`', Max(longest + 1, 3));
      out := out + (fence + language + "\n" + value + "\n" + fence + "\n");
    }
  }

  /** Where the first line of `s` ends: at LF, CR, or the end. */
  function LineEnd(s: string): (k: nat)
    ensures k <= |s| && (k < |s| ==> s[k] == '\n' || s[k] == '\r')
  {
    if s == "" || s[0] == '\n' || s[0] == '\r' then 0 else 1 + LineEnd(s[1..])
  }

  /** Section 2.1: a line ending is LF, CR LF, or CR alone. */
  function SplitLines(s: string): (lines: seq<string>)
    ensures lines != []
    decreases |s|
  {
    var k := LineEnd(s);
    if k == |s| then [s]
    else if s[k] == '\r' && k + 1 < |s| && s[k + 1] == '\n' then [s[..k]] + SplitLines(s[k + 2..])
    else [s[..k]] + SplitLines(s[k + 1..])
  }

  predicate OnlyBlanks(s: string) {
    forall k :: 0 <= k < |s| ==> s[k] == ' ' || s[k] == '\t'
  }

  /** At most three spaces, at least `n` backticks, then nothing but blanks. */
  predicate ClosesFence(line: string, n: nat) {
    var indent := RunLength(line, ' ');
    var run := RunLength(line[indent..], '`');
    indent <= 3 && run >= n && OnlyBlanks(line[indent + run..])
  }

  datatype Block = Block(info: string, content: seq<string>, rest: seq<string>)

  /** The lines up to the closing fence, and those behind it. */
  function UntilClose(info: string, lines: seq<string>, n: nat): Block {
    if lines == [] then Block(info, [], [])
    else if ClosesFence(lines[0], n) then Block(info, [], lines[1..])
    else
      var block := UntilClose(info, lines[1..], n);
      block.(content := [lines[0]] + block.content)
  }

  /** The block that starts on the first line, with an opening fence that is not indented. */
  function ReadBlock(lines: seq<string>): Option<Block>
    requires lines != []
  {
    var n := RunLength(lines[0], '`');
    if n < 3 || '`' in lines[0][n..] then None
    else Some(UntilClose(lines[0][n..], lines[1..], n))
  }

  lemma {:induction false} LineEndAfter(a: string, b: string)
    requires OneLine(a) && (b == "" || b[0] == '\n' || b[0] == '\r')
    ensures LineEnd(a + b) == |a|
  {
    if a == "" {
      assert a + b == b;
    } else {
      assert (a + b)[1..] == a[1..] + b;
      LineEndAfter(a[1..], b);
    }
  }

  lemma {:induction false} LineEndIsFirst(s: string)
    ensures OneLine(s[..LineEnd(s)])
  {
    if s != "" && s[0] != '\n' && s[0] != '\r' {
      LineEndIsFirst(s[1..]);
      assert s[..LineEnd(s)] == [s[0]] + s[1..][..LineEnd(s) - 1];
    }
  }

  /** One of the three line endings, where `rest` follows it. */
  predicate IsLineEnding(ending: string, rest: string) {
    ending == "\n" || ending == "\r\n" || (ending == "\r" && (rest == "" || rest[0] != '\n'))
  }

  lemma SplitFirstLine(line: string, ending: string, rest: string)
    requires OneLine(line) && IsLineEnding(ending, rest)
    ensures SplitLines(line + ending + rest) == [line] + SplitLines(rest)
  {
    var s := line + ending + rest;
    assert s == line + (ending + rest);
    LineEndAfter(line, ending + rest);
    assert s[..|line|] == line && s[|line| + |ending|..] == rest;
    assert s[|line|] == ending[0];
    assert rest != "" ==> s[|line| + |ending|] == rest[0];
    assert |ending| == 2 ==> s[|line| + 1] == '\n';
  }

  /** The first line of a value that has a line ending, that ending, and what follows. */
  lemma FirstLineOf(value: string) returns (line: string, ending: string, rest: string)
    requires LineEnd(value) < |value|
    ensures value == line + ending + rest && OneLine(line) && IsLineEnding(ending, rest)
    ensures line == value[..|line|] && |line| + |ending| <= |value| && rest == value[|line| + |ending|..]
    ensures SplitLines(value) == [line] + SplitLines(rest)
  {
    var k := LineEnd(value);
    LineEndIsFirst(value);
    line := value[..k];
    ending := if value[k] == '\n' then "\n" else if k + 1 < |value| && value[k + 1] == '\n' then "\r\n" else "\r";
    rest := value[k + |ending|..];
  }

  /** Taking a final CR off does not disturb a line ending further ahead. */
  lemma StripReturnBehind(line: string, ending: string, rest: string)
    requires IsLineEnding(ending, rest) && (rest != "" || ending != "\r")
    ensures StripReturn(line + ending + rest) == line + ending + StripReturn(rest)
    ensures IsLineEnding(ending, StripReturn(rest))
  {
  }

  lemma SplitFinalReturn(line: string, after: string)
    requires OneLine(line)
    ensures SplitLines((line + "\r") + "\n" + after) == SplitLines(line) + SplitLines(after)
  {
    assert (line + "\r") + "\n" + after == line + "\r\n" + after;
    SplitFirstLine(line, "\r\n", after);
    LineEndAfter(line, "");
    assert line + "" == line;
  }

  /** One line more in front of a value that splits as wanted. */
  lemma SplitLineMore(line: string, ending: string, rest: string, after: string)
    requires OneLine(line) && IsLineEnding(ending, rest) && (rest != "" || ending != "\r")
    requires SplitLines(rest + "\n" + after) == SplitLines(StripReturn(rest)) + SplitLines(after)
    ensures SplitLines((line + ending + rest) + "\n" + after)
            == SplitLines(StripReturn(line + ending + rest)) + SplitLines(after)
  {
    var next := rest + "\n" + after;
    assert (line + ending + rest) + "\n" + after == line + ending + next;
    assert rest != "" ==> next[0] == rest[0];
    SplitFirstLine(line, ending, next);
    StripReturnBehind(line, ending, rest);
    SplitFirstLine(line, ending, StripReturn(rest));
    Regroup([line], SplitLines(StripReturn(rest)), SplitLines(after));
  }

  /** A value followed by LF splits into its own lines; a final CR joins that LF. */
  lemma {:induction false} SplitValue(value: string, after: string)
    ensures SplitLines(value + "\n" + after) == SplitLines(StripReturn(value)) + SplitLines(after)
    decreases |value|
  {
    if LineEnd(value) == |value| {
      LineEndIsFirst(value);
      assert value[..|value|] == value;
      SplitFirstLine(value, "\n", after);
    } else {
      var line, ending, rest := FirstLineOf(value);
      if rest == "" && ending == "\r" {
        assert value == line + "\r";
        assert StripReturn(value) == line;
        SplitFinalReturn(line, after);
      } else {
        SplitValue(rest, after);
        SplitLineMore(line, ending, rest, after);
      }
    }
  }

  lemma {:induction false} LongestOfPrefix(s: string, k: nat)
    requires k <= |s|
    ensures Longest(s[..k], '`') <= Longest(s, '`')
  {
    var i := LongestIsAttained(s[..k], '`');
    assert forall j :: 0 <= j < k ==> s[..k][j] == s[j];
    assert IsRun(s, '`', i, i + Longest(s[..k], '`'));
    LongestBoundsRuns(s, '`', i, i + Longest(s[..k], '`'));
  }

  ghost predicate NoneCloses(lines: seq<string>, n: nat) {
    forall k :: 0 <= k < |lines| ==> !ClosesFence(lines[k], n)
  }

  lemma ShortRunsDoNotClose(line: string, n: nat)
    requires Longest(line, '`') < n
    ensures !ClosesFence(line, n)
  {
  }

  /** No line of a value closes a fence longer than all its runs. */
  lemma {:induction false} NoLineCloses(value: string, n: nat)
    requires Longest(value, '`') < n
    ensures NoneCloses(SplitLines(value), n)
    decreases |value|
  {
    if LineEnd(value) == |value| {
      ShortRunsDoNotClose(value, n);
      assert value[..|value|] == value;
    } else {
      var line, ending, rest := FirstLineOf(value);
      LongestOfPrefix(value, |line|);
      ShortRunsDoNotClose(line, n);
      LongestOfSuffix(value, '`', |line| + |ending|);
      NoLineCloses(rest, n);
    }
  }

  lemma {:induction false} UntilCloseSkips(info: string, lines: seq<string>, close: string, rest: seq<string>, n: nat)
    requires NoneCloses(lines, n) && ClosesFence(close, n)
    ensures UntilClose(info, lines + ([close] + rest), n) == Block(info, lines, rest)
  {
    if lines == [] {
      assert lines + ([close] + rest) == [close] + rest;
    } else {
      assert (lines + ([close] + rest))[1..] == lines[1..] + ([close] + rest);
      assert NoneCloses(lines[1..], n);
      UntilCloseSkips(info, lines[1..], close, rest, n);
      assert lines == [lines[0]] + lines[1..];
    }
  }

  lemma {:induction false} RepeatIsOneLine(n: nat)
    ensures OneLine(Repeat('`', n))
  {
    if n > 0 {
      RepeatIsOneLine(n - 1);
    }
  }

  lemma FenceCloses(n: nat)
    requires n > 0
    ensures ClosesFence(Repeat('`', n), n)
  {
  }

  lemma BlockOfLinesReads(language: string, lines: seq<string>, after: seq<string>, n: nat)
    requires '`' !in language && n >= 3 && NoneCloses(lines, n)
    ensures ReadBlock([Repeat('`', n) + language] + (lines + ([Repeat('`', n)] + after)))
            == Some(Block(language, lines, after))
  {
    var tail := lines + ([Repeat('`', n)] + after);
    assert ([Repeat('`', n) + language] + tail)[1..] == tail;
    RunOfRepeat('`', n, language);
    FenceCloses(n);
    UntilCloseSkips(language, lines, Repeat('`', n), after, n);
  }

  /** A reader finds exactly the value's lines in the block, whatever the value and what follows. */
  lemma CodeBlockReadsBack(language: string, value: string, after: string)
    requires OneLine(language) && '`' !in language
    ensures ReadBlock(SplitLines(CodeBlock(language, value) + after))
            == Some(Block(language, SplitLines(StripReturn(value)), SplitLines(after)))
  {
    var n := Max(Longest(value, '`') + 1, 3);
    var fence := Repeat('`', n);
    RepeatIsOneLine(n);
    var tail := fence + "\n" + after;
    assert CodeBlock(language, value) + after == (fence + language) + "\n" + (value + "\n" + tail);
    SplitFirstLine(fence + language, "\n", value + "\n" + tail);
    SplitValue(value, tail);
    SplitFirstLine(fence, "\n", after);
    LongestOfPrefix(value, |StripReturn(value)|);
    assert StripReturn(value) == value[..|StripReturn(value)|];
    NoLineCloses(StripReturn(value), n);
    BlockOfLinesReads(language, SplitLines(StripReturn(value)), SplitLines(after), n);
  }
}
