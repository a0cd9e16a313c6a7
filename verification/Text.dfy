/** Strings as the modelled code sees them: whitespace, trimming, prefixes and first occurrences. */
module Text {
  /** The characters with the Unicode property White_Space, which `trim` removes. */
  predicate IsSpace(c: char) {
    || '\t' <= c <= '\r' || c == ' '
    || c == '\U{85}' || c == '\U{A0}' || c == '\U{1680}' || '\U{2000}' <= c <= '\U{200A}'
    || c == '\U{2028}' || c == '\U{2029}' || c == '\U{202F}' || c == '\U{205F}' || c == '\U{3000}'
  }

  predicate IsDigit(c: char) {
    '0' <= c <= '9'
  }

  predicate IsAsciiAlphanumeric(c: char) {
    IsDigit(c) || 'a' <= c <= 'z' || 'A' <= c <= 'Z'
  }

  /** The first position at or after `i` that holds no space. */
  function SpacesUpTo(s: string, i: nat): (end: nat)
    requires i <= |s|
    ensures i <= end <= |s|
    decreases |s| - i
  {
    if i < |s| && IsSpace(s[i]) then SpacesUpTo(s, i + 1) else i
  }

  /** The last position at or before `i` with no space in front of it. */
  function SpacesDownTo(s: string, i: nat): (start: nat)
    requires i <= |s|
    ensures start <= i
  {
    if i > 0 && IsSpace(s[i - 1]) then SpacesDownTo(s, i - 1) else i
  }

  function TrimStart(s: string): string {
    s[SpacesUpTo(s, 0)..]
  }

  function TrimEnd(s: string): string {
    s[..SpacesDownTo(s, |s|)]
  }

  function Trim(s: string): string {
    TrimEnd(TrimStart(s))
  }

  predicate AllSpace(s: string) {
    forall k :: 0 <= k < |s| ==> IsSpace(s[k])
  }

  predicate Trimmed(s: string) {
    s == [] || (!IsSpace(s[0]) && !IsSpace(s[|s| - 1]))
  }

  lemma {:induction false} SpacesUpToAreSpaces(s: string, i: nat)
    requires i <= |s|
    ensures var end := SpacesUpTo(s, i);
            (forall k :: i <= k < end ==> IsSpace(s[k])) && (end < |s| ==> !IsSpace(s[end]))
    decreases |s| - i
  {
    if i < |s| && IsSpace(s[i]) {
      SpacesUpToAreSpaces(s, i + 1);
    }
  }

  lemma {:induction false} SpacesDownToAreSpaces(s: string, i: nat)
    requires i <= |s|
    ensures var start := SpacesDownTo(s, i);
            (forall k :: start <= k < i ==> IsSpace(s[k])) && (start > 0 ==> !IsSpace(s[start - 1]))
  {
    if i > 0 && IsSpace(s[i - 1]) {
      SpacesDownToAreSpaces(s, i - 1);
    }
  }

  /** `TrimStart` drops spaces only, and all those in front. */
  lemma TrimStartSplits(s: string)
    ensures var t := TrimStart(s);
            && s == s[..|s| - |t|] + t
            && AllSpace(s[..|s| - |t|])
            && (t != [] ==> !IsSpace(t[0]))
  {
    SpacesUpToAreSpaces(s, 0);
  }

  lemma TrimEndSplits(s: string)
    ensures var t := TrimEnd(s);
            && t <= s
            && AllSpace(s[|t|..])
            && (t != [] ==> !IsSpace(t[|t| - 1]))
  {
    SpacesDownToAreSpaces(s, |s|);
  }

  lemma TrimIsTrimmed(s: string)
    ensures Trimmed(Trim(s))
  {
    var t := TrimStart(s);
    TrimStartSplits(s);
    TrimEndSplits(t);
    assert TrimEnd(t) != [] ==> TrimEnd(t)[0] == t[0];
  }

  /** The text is what `trim` returns between two stretches of spaces. */
  lemma TrimSplits(s: string) returns (before: string, after: string)
    ensures s == before + Trim(s) + after && AllSpace(before) && AllSpace(after)
    ensures Trimmed(Trim(s))
  {
    var t := TrimStart(s);
    TrimStartSplits(s);
    TrimEndSplits(t);
    before, after := s[..|s| - |t|], t[|TrimEnd(t)|..];
    assert t == TrimEnd(t) + after;
    Regroup(before, TrimEnd(t), after);
    TrimIsTrimmed(s);
  }

  /** Trimming around a text that neither starts nor ends with a space. */
  lemma TrimKeepsMiddle(before: string, body: string, after: string)
    returns (front: string, b: string, a: string, back: string)
    requires body != [] && Trimmed(body)
    ensures Trim(before + body + after) == b + body + a
    ensures before == front + b && after == a + back && AllSpace(front)
  {
    front, b := TrimStartKeeps(before, body, after);
    a, back := TrimEndKeeps(b, body, after);
  }

  lemma TrimStartKeeps(before: string, body: string, after: string) returns (front: string, b: string)
    requires body != [] && !IsSpace(body[0])
    ensures TrimStart(before + body + after) == b + body + after
    ensures before == front + b && AllSpace(front)
  {
    var s := before + body + after;
    SpacesUpToAreSpaces(s, 0);
    var from := SpacesUpTo(s, 0);
    assert s[|before|] == body[0];
    front, b := before[..from], before[from..];
    assert s[from..] == b + body + after;
    assert forall k :: 0 <= k < from ==> front[k] == s[k];
  }

  lemma TrimEndKeeps(before: string, body: string, after: string) returns (a: string, back: string)
    requires body != [] && !IsSpace(body[|body| - 1])
    ensures TrimEnd(before + body + after) == before + body + a && after == a + back
  {
    var s := before + body + after;
    SpacesDownToAreSpaces(s, |s|);
    var to := SpacesDownTo(s, |s|);
    assert s[|before| + |body| - 1] == body[|body| - 1];
    a, back := after[..to - |before| - |body|], after[to - |before| - |body|..];
    assert s[..to] == before + body + a;
  }

  lemma SpacesAroundAreNotTrimmed(b: string, body: string, a: string)
    requires AllSpace(b) && AllSpace(a) && (b != "" || a != "")
    ensures !Trimmed(b + body + a)
  {
    var s := b + body + a;
    if b != "" {
      assert s[0] == b[0];
    } else {
      assert s[|s| - 1] == a[|a| - 1];
    }
  }

  lemma TrimIsMiddle(before: string, body: string, after: string)
    requires AllSpace(before) && AllSpace(after) && body != "" && Trimmed(body)
    ensures Trim(before + body + after) == body
  {
    var front, b, a, back := TrimKeepsMiddle(before, body, after);
    assert b == before[|front|..] && a == after[..|a|];
    TrimIsTrimmed(before + body + after);
    if b == "" && a == "" {
      assert b + body + a == body;
    } else {
      SpacesAroundAreNotTrimmed(b, body, a);
    }
  }

  lemma TrimOfTrimmed(s: string)
    requires Trimmed(s)
    ensures Trim(s) == s
  {
  }

  lemma {:induction false} SpacesEndAt(s: string, i: nat, n: nat)
    requires i <= n < |s| && !IsSpace(s[n])
    requires forall k :: i <= k < n ==> IsSpace(s[k])
    ensures SpacesUpTo(s, i) == n
    decreases n - i
  {
    if i < n {
      SpacesEndAt(s, i + 1, n);
    }
  }

  lemma TrimStartAfterSpaces(leading: string, content: string)
    requires AllSpace(leading) && content != "" && !IsSpace(content[0])
    ensures TrimStart(leading + content) == content
  {
    SpacesEndAt(leading + content, 0, |leading|);
  }

  /** The text without one carriage return at its end. */
  function StripReturn(s: string): string {
    if s != "" && s[|s| - 1] == '\r' then s[..|s| - 1] else s
  }

  function FirstLineFeed(s: string): (k: nat)
    ensures k <= |s| && (k < |s| ==> s[k] == '\n')
  {
    if s == "" || s[0] == '\n' then 0 else 1 + FirstLineFeed(s[1..])
  }

  /** `str::lines`: a line ends at LF or CRLF, and the last one may go without. */
  function Lines(s: string): seq<string>
    decreases |s|
  {
    var k := FirstLineFeed(s);
    if s == "" then []
    else if k == |s| then [s]
    else [StripReturn(s[..k])] + Lines(s[k + 1..])
  }

  /** `join("\n")`. */
  function Join(lines: seq<string>): string {
    if lines == [] then ""
    else if |lines| == 1 then lines[0]
    else lines[0] + "\n" + Join(lines[1..])
  }

  function SplitAtLineFeeds(s: string): (lines: seq<string>)
    ensures lines != []
    decreases |s|
  {
    var k := FirstLineFeed(s);
    if k == |s| then [s] else [s[..k]] + SplitAtLineFeeds(s[k + 1..])
  }

  predicate NoLineFeed(s: string) {
    forall k :: 0 <= k < |s| ==> s[k] != '\n'
  }

  lemma {:induction false} LineFeedIsFirst(s: string)
    ensures NoLineFeed(s[..FirstLineFeed(s)])
  {
    if s != "" && s[0] != '\n' {
      LineFeedIsFirst(s[1..]);
      var k := FirstLineFeed(s);
      assert s[..k] == [s[0]] + s[1..][..k - 1];
    }
  }

  lemma FirstLineFeedAfter(a: string, b: string)
    requires NoLineFeed(a)
    ensures FirstLineFeed(a) == |a| && FirstLineFeed(a + "\n" + b) == |a|
  {
    if a == "" {
      assert a + "\n" + b == "\n" + b;
    } else {
      assert (a + "\n" + b)[1..] == a[1..] + "\n" + b;
      FirstLineFeedAfter(a[1..], b);
    }
  }

  ghost predicate AllNoLineFeed(lines: seq<string>) {
    forall k :: 0 <= k < |lines| ==> NoLineFeed(lines[k])
  }

  lemma {:induction false} SplitOfJoined(lines: seq<string>)
    requires lines != [] && AllNoLineFeed(lines)
    ensures SplitAtLineFeeds(Join(lines)) == lines
  {
    if |lines| == 1 {
      FirstLineFeedAfter(lines[0], "");
    } else {
      var s := Join(lines);
      FirstLineFeedAfter(lines[0], Join(lines[1..]));
      assert s[..|lines[0]|] == lines[0] && s[|lines[0]| + 1..] == Join(lines[1..]);
      SplitOfJoined(lines[1..]);
    }
  }

  lemma LinesFrom(a: string, b: string)
    requires NoLineFeed(a)
    ensures Lines(a + "\n" + b) == [StripReturn(a)] + Lines(b)
  {
    var s := a + "\n" + b;
    FirstLineFeedAfter(a, b);
    assert s[..|a|] == a && s[|a| + 1..] == b;
  }

  lemma {:induction false} LinesHaveNoLineFeed(s: string)
    ensures AllNoLineFeed(Lines(s))
    decreases |s|
  {
    var k := FirstLineFeed(s);
    LineFeedIsFirst(s);
    if k == |s| {
      assert s[..k] == s;
    } else {
      LinesHaveNoLineFeed(s[k + 1..]);
      assert NoLineFeed(StripReturn(s[..k]));
    }
  }

  /** The characters that end a line, alone or as a pair (section 2.1 of CommonMark 0.31.2). */
  predicate IsLineEnd(c: char) {
    c == '\n' || c == '\r'
  }

  predicate OneLine(s: string) {
    forall k :: 0 <= k < |s| ==> !IsLineEnd(s[k])
  }

  function Repeat(c: char, n: nat): (s: string)
    ensures |s| == n
  {
    if n == 0 then "" else [c] + Repeat(c, n - 1)
  }

  /** How many bytes a character takes in UTF-8 (section 3 of RFC 3629). */
  function Utf8Width(c: char): nat {
    if c < '\U{80}' then 1 else if c < '\U{800}' then 2 else if c < '\U{10000}' then 3 else 4
  }

  function ByteLength(s: string): nat {
    if s == [] then 0 else Utf8Width(s[0]) + ByteLength(s[1..])
  }

  lemma Regroup<T>(a: seq<T>, b: seq<T>, c: seq<T>)
    ensures (a + b) + c == a + (b + c)
  {
  }
}
