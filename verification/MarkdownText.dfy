/**
  Escaping untrusted text for a Markdown report, and the reader that undoes it: the backslash
  escapes and entity references of sections 2.4 and 2.5 of CommonMark 0.31.2.
 */
module MarkdownText {
  import opened Wrappers
  import opened Text

  // ---------- the printer ----------

  /** `value.replace('&', "&amp;")`. */
  function ReplaceAmpersands(s: string): string {
    if s == "" then "" else (if s[0] == '&' then "&amp;" else [s[0]]) + ReplaceAmpersands(s[1..])
  }

  predicate IsStructural(c: char) {
    c == '\\' || c == '`' || c == '*' || c == '_' || c == '[' || c == ']' || c == '#' || c == '|'
  }

  function EscapedChar(c: char): string {
    if IsStructural(c) then ['\\', c] else if c == '<' then "&lt;" else if c == '>' then "&gt;" else [c]
  }

  function EscapeChars(s: string): string {
    if s == "" then "" else EscapedChar(s[0]) + EscapeChars(s[1..])
  }

  /** Where `split_once(". ")` splits, or the length. */
  function FirstDotSpace(s: string): (k: nat)
    ensures k <= |s| && (k < |s| ==> |s| >= k + 2 && s[k] == '.' && s[k + 1] == ' ')
  {
    if |s| < 2 then |s| else if s[0] == '.' && s[1] == ' ' then 0 else 1 + FirstDotSpace(s[1..])
  }

  predicate AllDigits(s: string) {
    forall k :: 0 <= k < |s| ==> IsDigit(s[k])
  }

  predicate OrderedItem(content: string) {
    FirstDotSpace(content) < |content| && AllDigits(content[..FirstDotSpace(content)])
  }

  predicate BulletItem(content: string) {
    |content| >= 2 && (content[0] == '-' || content[0] == '+') && content[1] == ' '
  }

  function EscapeContent(content: string): string {
    if OrderedItem(content) then content[..FirstDotSpace(content)] + "\\" + content[FirstDotSpace(content)..]
    else if BulletItem(content) then "\\" + content
    else content
  }

  function EscapeLinePrefix(line: string): string {
    var content := TrimStart(line);
    line[..|line| - |content|] + EscapeContent(content)
  }

  function EscapeLines(lines: seq<string>): seq<string> {
    if lines == [] then [] else [EscapeLinePrefix(lines[0])] + EscapeLines(lines[1..])
  }

  function Printed(value: string): string {
    Join(EscapeLines(Lines(EscapeChars(ReplaceAmpersands(value)))))
  }

  lemma {:induction false} EscapeCharsOfPrefix(s: string, k: nat)
    requires k < |s|
    ensures EscapeChars(s[..k + 1]) == EscapeChars(s[..k]) + EscapedChar(s[k])
  {
    if k == 0 {
      assert s[..1][1..] == "";
      assert s[..0] == "";
    } else {
      assert s[..k + 1][1..] == s[1..][..k];
      assert s[..k][1..] == s[1..][..k - 1];
      EscapeCharsOfPrefix(s[1..], k - 1);
    }
  }

  method MarkdownText(value: string) returns (markdown: string)
    ensures markdown == Printed(value)
  {
    var replaced := ReplaceAmpersands(value);
    var escaped := "";
    for i := 0 to |replaced|
      invariant escaped == EscapeChars(replaced[..i])
    {
      EscapeCharsOfPrefix(replaced, i);
      match replaced[i] {
        case '<' => escaped := escaped + "&lt;";
        case '>' => escaped := escaped + "&gt;";
        case c =>
          if IsStructural(c) {
            escaped := escaped + ['\\'];
          }
          escaped := escaped + [c];
      }
    }
    assert replaced[..|replaced|] == replaced;
    return Join(EscapeLines(Lines(escaped)));
  }

  // ---------- the reader ----------

  predicate IsPunctuation(c: char) {
    '!' <= c <= '/' || ':' <= c <= '@' || '[' <= c <= '`' || '{' <= c <= '~'
  }

  /** The characters that mean something to Markdown or HTML wherever they stand unescaped. */
  predicate IsActive(c: char) {
    || c == '\\' || c == '`' || c == '*' || c == '_' || c == '[' || c == ']' || c == '#' || c == '|'
    || c == '<' || c == '>' || c == '&'
  }

  /** What a reader makes of a text, and whether it met no active character on its own. */
  datatype Reading = Reading(text: string, inert: bool) {

    function After(front: string, ok: bool): Reading {
      Reading(front + text, ok && inert)
    }
  }

  predicate IsNameChar(c: char) {
    IsAsciiAlphanumeric(c) || c == '#'
  }

  /** The name or number of the entity reference that `s` may continue after its ampersand. */
  function Name(s: string): (n: string)
    ensures |n| <= |s| && n == s[..|n|]
  {
    if s != "" && IsNameChar(s[0]) then [s[0]] + Name(s[1..]) else ""
  }

  /** The table of entities; the proofs need no more of it than `KnowsHtml` says. */
  type Entities = string -> Option<string>

  predicate KnowsHtml(entities: Entities) {
    entities("amp") == Some("&") && entities("lt") == Some("<") && entities("gt") == Some(">")
  }

  function Entity(s: string, entities: Entities): Option<string> {
    var name := Name(s);
    if |name| < |s| && s[|name|] == ';' then entities(name) else None
  }

  predicate StartsEscape(s: string) {
    |s| >= 2 && s[0] == '\\' && IsPunctuation(s[1])
  }

  function Read(s: string, entities: Entities): Reading
    decreases |s|
  {
    if s == "" then Reading("", true)
    else if StartsEscape(s) then Read(s[2..], entities).After([s[1]], true)
    else if s[0] == '&' && Entity(s[1..], entities).Some? then
      Read(s[|Name(s[1..])| + 2..], entities).After(Entity(s[1..], entities).value, true)
    else Read(s[1..], entities).After([s[0]], !IsActive(s[0]))
  }

  lemma ReadPlain(c: char, rest: string, entities: Entities)
    requires c != '\\' && c != '&'
    ensures Read([c] + rest, entities) == Read(rest, entities).After([c], !IsActive(c))
  {
  }

  lemma ReadEscape(c: char, rest: string, entities: Entities)
    requires IsPunctuation(c)
    ensures Read(['\\', c] + rest, entities) == Read(rest, entities).After([c], true)
  {
  }

  lemma {:induction false} NameEnds(name: string, end: char, rest: string)
    requires (forall k :: 0 <= k < |name| ==> IsNameChar(name[k])) && !IsNameChar(end)
    ensures Name(name + [end] + rest) == name
  {
    if name == "" {
      assert name + [end] + rest == [end] + rest;
    } else {
      assert (name + [end] + rest)[1..] == name[1..] + [end] + rest;
      NameEnds(name[1..], end, rest);
    }
  }

  lemma ReadEntity(piece: string, name: string, rest: string, entities: Entities)
    requires piece == "&" + name + ";"
    requires (forall k :: 0 <= k < |name| ==> IsNameChar(name[k])) && entities(name).Some?
    ensures Read(piece + rest, entities) == Read(rest, entities).After(entities(name).value, true)
  {
    var s := piece + rest;
    assert s[1..] == name + [';'] + rest;
    NameEnds(name, ';', rest);
    assert s[|name| + 2..] == rest;
  }

  /** A run of characters that start no escape reads as itself. */
  lemma {:induction false} ReadPlainRun(run: string, rest: string, entities: Entities)
    requires forall k :: 0 <= k < |run| ==> !IsActive(run[k])
    ensures Read(run + rest, entities) == Read(rest, entities).After(run, true)
  {
    if run == "" {
      assert run + rest == rest;
    } else {
      assert run + rest == [run[0]] + (run[1..] + rest);
      ReadPlain(run[0], run[1..] + rest, entities);
      ReadPlainRun(run[1..], rest, entities);
      assert [run[0]] + (run[1..] + Read(rest, entities).text) == run + Read(rest, entities).text;
    }
  }

  // ---------- printing is undone by reading ----------

  /** What the first two passes make of one character of the value. */
  function Piece(c: char): string {
    if c == '&' then "&amp;" else EscapedChar(c)
  }

  function Pieces(s: string): string {
    if s == "" then "" else Piece(s[0]) + Pieces(s[1..])
  }

  lemma EscapeFront(c: char, rest: string)
    ensures EscapeChars([c] + rest) == EscapedChar(c) + EscapeChars(rest)
  {
  }

  lemma {:induction false} EscapePlainRun(run: string, rest: string)
    requires forall k :: 0 <= k < |run| ==> EscapedChar(run[k]) == [run[k]]
    ensures EscapeChars(run + rest) == run + EscapeChars(rest)
  {
    if run == "" {
      assert run + rest == rest;
    } else {
      var c, more := run[0], run[1..];
      assert run + rest == [c] + (more + rest);
      EscapeFront(c, more + rest);
      EscapePlainRun(more, rest);
      Regroup([c], more, EscapeChars(rest));
    }
  }

  lemma {:induction false} TwoPassesMakePieces(value: string)
    ensures EscapeChars(ReplaceAmpersands(value)) == Pieces(value)
  {
    if value != "" {
      TwoPassesMakePieces(value[1..]);
      var rest := ReplaceAmpersands(value[1..]);
      if value[0] == '&' {
        EscapePlainRun("&amp;", rest);
      } else {
        assert ([value[0]] + rest)[1..] == rest;
      }
    }
  }

  lemma ReadPiece(c: char, rest: string, entities: Entities)
    requires KnowsHtml(entities)
    ensures Read(Piece(c) + rest, entities) == Read(rest, entities).After([c], true)
  {
    if c == '&' {
      ReadEntity(Piece(c), "amp", rest, entities);
    } else if IsStructural(c) {
      ReadEscape(c, rest, entities);
    } else if c == '<' {
      ReadEntity(Piece(c), "lt", rest, entities);
    } else if c == '>' {
      ReadEntity(Piece(c), "gt", rest, entities);
    } else {
      ReadPlain(c, rest, entities);
    }
  }

  lemma {:induction false} ReadPieces(value: string, entities: Entities)
    requires KnowsHtml(entities)
    ensures Read(Pieces(value), entities) == Reading(value, true)
  {
    if value != "" {
      ReadPiece(value[0], Pieces(value[1..]), entities);
      ReadPieces(value[1..], entities);
    }
  }

  /** Line endings as the printer leaves them: CRLF becomes LF, and a final one goes. */
  function Normalized(s: string): string
    decreases |s|
  {
    if s == "" || s == "\n" || s == "\r\n" then ""
    else if |s| >= 2 && s[0] == '\r' && s[1] == '\n' then "\n" + Normalized(s[2..])
    else [s[0]] + Normalized(s[1..])
  }

  lemma {:induction false} NormalizedLine(a: string)
    requires NoLineFeed(a)
    ensures Normalized(a) == a
  {
    if a != "" {
      NormalizedLine(a[1..]);
    }
  }

  lemma NormalizedChar(c: char, rest: string)
    requires c == '\r' ==> rest == "" || rest[0] != '\n'
    ensures Normalized([c] + rest) == if c == '\n' && rest == "" then "" else [c] + Normalized(rest)
  {
    var s := [c] + rest;
    assert s[1..] == rest && s[0] == c;
    assert rest != "" ==> s[1] == rest[0];
    assert rest == "" ==> s == [c];
  }

  lemma StripReturnOfFront(c: char, rest: string)
    requires rest != "" || c != '\r'
    ensures StripReturn([c] + rest) == [c] + StripReturn(rest)
  {
  }

  /** What follows the first line once normalized. */
  function NormalizedTail(b: string): string {
    if b == "" then "" else "\n" + Normalized(b)
  }

  /** One character more in front of a line that normalizes as wanted. */
  lemma NormalizedMore(c: char, rest: string, whole: string, tail: string)
    requires c != '\n' && (c == '\r' ==> rest != "" && rest[0] != '\n')
    requires whole != "" && (rest != "" ==> whole[0] == rest[0])
    requires Normalized(whole) == StripReturn(rest) + tail
    ensures Normalized([c] + whole) == StripReturn([c] + rest) + tail
  {
    NormalizedChar(c, whole);
    StripReturnOfFront(c, rest);
    Regroup([c], StripReturn(rest), tail);
  }

  lemma {:induction false} NormalizedLineAndRest(a: string, b: string)
    requires NoLineFeed(a)
    ensures Normalized(a + "\n" + b) == StripReturn(a) + NormalizedTail(b)
  {
    if a == "" {
      assert a + "\n" + b == ['\n'] + b;
      NormalizedChar('\n', b);
    } else if a == "\r" {
      NormalizedReturn("\r\n" + b);
    } else {
      var c, rest := a[0], a[1..];
      assert a == [c] + rest;
      assert a + "\n" + b == [c] + (rest + "\n" + b);
      NormalizedLineAndRest(rest, b);
      NormalizedMore(c, rest, rest + "\n" + b, NormalizedTail(b));
    }
  }

  lemma {:induction false} JoinedLines(s: string)
    ensures Join(Lines(s)) == Normalized(s)
    decreases |s|
  {
    var k := FirstLineFeed(s);
    LineFeedIsFirst(s);
    if k == |s| {
      assert s[..k] == s;
      NormalizedLine(s);
    } else {
      var first, rest := StripReturn(s[..k]), s[k + 1..];
      assert s == s[..k] + "\n" + rest;
      NormalizedLineAndRest(s[..k], rest);
      JoinedLines(rest);
      JoinFirst(first, Lines(rest));
    }
  }

  lemma JoinFirst(first: string, rest: seq<string>)
    ensures Join([first] + rest) == first + (if rest == [] then "" else "\n" + Join(rest))
  {
  }

  lemma PiecesOfFront(c: char, rest: string)
    ensures Pieces([c] + rest) == Piece(c) + Pieces(rest)
  {
  }

  predicate StartsReturn(s: string) {
    |s| >= 2 && s[0] == '\r' && s[1] == '\n'
  }

  lemma PiecesOfReturn(s: string)
    requires StartsReturn(s)
    ensures StartsReturn(Pieces(s)) && Pieces(s)[2..] == Pieces(s[2..])
  {
    assert Pieces(s) == [s[0]] + Pieces(s[1..]);
    assert Pieces(s[1..]) == [s[1]] + Pieces(s[1..][1..]);
    assert s[1..][1..] == s[2..];
  }

  lemma NormalizedReturn(s: string)
    requires StartsReturn(s)
    ensures Normalized(s) == NormalizedTail(s[2..])
  {
  }

  lemma PiecesOfTail(rest: string)
    requires Normalized(Pieces(rest)) == Pieces(Normalized(rest))
    ensures Pieces(NormalizedTail(rest)) == NormalizedTail(Pieces(rest))
  {
    var normal := Normalized(rest);
    PiecesEmpty(rest);
    PiecesOfFront('\n', normal);
    assert "\n" + normal == ['\n'] + normal;
    assert Piece('\n') == "\n";
  }

  lemma NormalizedPiecesOfChar(c: char, rest: string)
    requires c == '\r' ==> rest == "" || rest[0] != '\n'
    requires Normalized(Pieces(rest)) == Pieces(Normalized(rest))
    ensures Normalized(Pieces([c] + rest)) == Pieces(Normalized([c] + rest))
  {
    PiecesOfFront(c, rest);
    NormalizedPiece(c, rest);
    NormalizedChar(c, rest);
    PiecesOfFront(c, Normalized(rest));
  }

  /** Only line endings look like line endings after the first two passes. */
  lemma {:induction false} NormalizedPieces(s: string)
    ensures Normalized(Pieces(s)) == Pieces(Normalized(s))
    decreases |s|
  {
    if StartsReturn(s) {
      NormalizedPieces(s[2..]);
      PiecesOfReturn(s);
      NormalizedReturn(s);
      NormalizedReturn(Pieces(s));
      PiecesOfTail(s[2..]);
    } else if s != "" {
      assert s == [s[0]] + s[1..];
      NormalizedPieces(s[1..]);
      NormalizedPiecesOfChar(s[0], s[1..]);
    }
  }

  lemma PiecesEmpty(s: string)
    ensures Pieces(s) == "" <==> s == ""
    ensures s != "" ==> (Pieces(s)[0] == '\n' <==> s[0] == '\n')
  {
  }

  lemma NormalizedPiece(c: char, rest: string)
    requires c == '\r' ==> rest == "" || rest[0] != '\n'
    ensures Normalized(Piece(c) + Pieces(rest))
            == if c == '\n' && rest == "" then "" else Piece(c) + Normalized(Pieces(rest))
  {
    PiecesEmpty(rest);
    PieceOfLine(c);
    NormalizedFront(c, Piece(c), Pieces(rest));
  }

  lemma PieceOfLine(c: char)
    ensures Piece(c) == [c] || (OneLine(Piece(c)) && c != '\n')
  {
  }

  lemma NormalizedFront(c: char, piece: string, rest: string)
    requires c == '\r' ==> rest == "" || rest[0] != '\n'
    requires piece == [c] || (OneLine(piece) && c != '\n')
    ensures Normalized(piece + rest) == if c == '\n' && rest == "" then "" else piece + Normalized(rest)
  {
    if piece == [c] {
      NormalizedChar(c, rest);
    } else {
      NormalizedRun(piece, rest);
    }
  }

  lemma {:induction false} NormalizedRun(run: string, rest: string)
    requires OneLine(run)
    ensures Normalized(run + rest) == run + Normalized(rest)
  {
    if run == "" {
      assert run + rest == rest;
    } else {
      assert (run + rest)[1..] == run[1..] + rest;
      NormalizedRun(run[1..], rest);
      assert [run[0]] + (run[1..] + Normalized(rest)) == run + Normalized(rest);
    }
  }

  /** Two readings with a line feed between them. */
  function OverLineFeed(a: Reading, b: Reading): Reading {
    Reading(a.text + "\n" + b.text, a.inert && b.inert)
  }

  lemma {:induction false} NameBeforeLineFeed(a: string, b: string)
    ensures Name(a + "\n" + b) == Name(a)
  {
    if a != "" {
      assert (a + "\n" + b)[1..] == a[1..] + "\n" + b;
      NameBeforeLineFeed(a[1..], b);
    }
  }

  lemma OverLineFeedAfter(a: Reading, b: Reading, front: string, ok: bool)
    ensures OverLineFeed(a, b).After(front, ok) == OverLineFeed(a.After(front, ok), b)
  {
  }

  /** How many characters the reader takes for the first thing it reads. */
  function Step(s: string, entities: Entities): (w: nat)
    requires s != ""
    ensures 0 < w <= |s|
  {
    if StartsEscape(s) then 2
    else if s[0] == '&' && Entity(s[1..], entities).Some? then |Name(s[1..])| + 2
    else 1
  }

  lemma StepBeforeLineFeed(a: string, b: string, entities: Entities)
    requires a != ""
    ensures var s := a + "\n" + b;
            && Step(s, entities) == Step(a, entities) && (StartsEscape(s) <==> StartsEscape(a))
            && Entity(s[1..], entities) == Entity(a[1..], entities) && Name(s[1..]) == Name(a[1..])
            && s[Step(a, entities)..] == a[Step(a, entities)..] + "\n" + b
  {
    var s := a + "\n" + b;
    assert s[1..] == a[1..] + "\n" + b;
    NameBeforeLineFeed(a[1..], b);
  }

  /** No escape or entity reaches over a line feed, so lines are read one by one. */
  lemma {:induction false} ReadLineByLine(a: string, b: string, entities: Entities)
    ensures Read(a + "\n" + b, entities) == OverLineFeed(Read(a, entities), Read(b, entities))
    decreases |a|
  {
    if a == "" {
      assert a + "\n" + b == "\n" + b;
      ReadPlain('\n', b, entities);
    } else {
      var w := Step(a, entities);
      StepBeforeLineFeed(a, b, entities);
      ReadLineByLine(a[w..], b, entities);
      if StartsEscape(a) {
        OverLineFeedAfter(Read(a[w..], entities), Read(b, entities), [a[1]], true);
      } else if a[0] == '&' && Entity(a[1..], entities).Some? {
        OverLineFeedAfter(Read(a[w..], entities), Read(b, entities), Entity(a[1..], entities).value, true);
      } else {
        OverLineFeedAfter(Read(a[w..], entities), Read(b, entities), [a[0]], !IsActive(a[0]));
      }
    }
  }

  /** A backslash before a character that needs none changes nothing for the reader. */
  lemma ReadBackslash(s: string, t: string, front: string, c: char, back: string, entities: Entities)
    requires s == front + ([c] + back) && t == front + (['\\', c] + back)
    requires IsPunctuation(c) && !IsActive(c)
    requires forall i :: 0 <= i < |front| ==> !IsActive(front[i])
    ensures Read(t, entities) == Read(s, entities)
  {
    ReadPlainRun(front, ['\\', c] + back, entities);
    ReadPlainRun(front, [c] + back, entities);
    ReadEscape(c, back, entities);
    ReadPlain(c, back, entities);
  }

  /** Where an item marker gets its backslash. */
  lemma EscapedItemParts(content: string) returns (front: string, c: char, back: string)
    requires OrderedItem(content) || BulletItem(content)
    ensures content == front + ([c] + back) && EscapeContent(content) == front + (['\\', c] + back)
    ensures (c == '.' || c == '-' || c == '+') && AllDigits(front)
  {
    var k := if OrderedItem(content) then FirstDotSpace(content) else 0;
    front, c, back := content[..k], content[k], content[k + 1..];
    assert content[k..] == [c] + back;
    assert ['\\', c] + back == "\\" + ([c] + back);
    Regroup(front, "\\", content[k..]);
    assert content == front + content[k..];
  }

  lemma ReadContent(content: string, entities: Entities)
    ensures Read(EscapeContent(content), entities) == Read(content, entities)
  {
    if OrderedItem(content) || BulletItem(content) {
      var front, c, back := EscapedItemParts(content);
      ReadBackslash(content, EscapeContent(content), front, c, back, entities);
    }
  }

  lemma ReadLinePrefix(line: string, entities: Entities)
    ensures Read(EscapeLinePrefix(line), entities) == Read(line, entities)
  {
    var content := TrimStart(line);
    TrimStartSplits(line);
    ReadPlainRun(line[..|line| - |content|], content, entities);
    ReadPlainRun(line[..|line| - |content|], EscapeContent(content), entities);
    ReadContent(content, entities);
  }

  lemma ReadJoined(first: string, rest: seq<string>, entities: Entities)
    ensures Read(Join([first] + rest), entities)
            == if rest == [] then Read(first, entities)
               else OverLineFeed(Read(first, entities), Read(Join(rest), entities))
  {
    JoinFirst(first, rest);
    if rest == [] {
      assert first + "" == first;
    } else {
      Regroup(first, "\n", Join(rest));
      ReadLineByLine(first, Join(rest), entities);
    }
  }

  lemma {:induction false} ReadEscapedLines(lines: seq<string>, entities: Entities)
    ensures Read(Join(EscapeLines(lines)), entities) == Read(Join(lines), entities)
  {
    if lines != [] {
      var first, rest := lines[0], lines[1..];
      assert lines == [first] + rest;
      ReadLinePrefix(first, entities);
      ReadJoined(first, rest, entities);
      ReadJoined(EscapeLinePrefix(first), EscapeLines(rest), entities);
      ReadEscapedLines(rest, entities);
    }
  }

  /**
    For every value, reading the printed text gives the value back, up to line endings, and
    meets no active character outside an escape.
   */
  lemma PrintedReadsBack(value: string, entities: Entities)
    requires KnowsHtml(entities)
    ensures Read(Printed(value), entities) == Reading(Normalized(value), true)
  {
    var escaped := EscapeChars(ReplaceAmpersands(value));
    ReadEscapedLines(Lines(escaped), entities);
    JoinedLines(escaped);
    TwoPassesMakePieces(value);
    NormalizedPieces(value);
    ReadPieces(Normalized(value), entities);
  }
}
