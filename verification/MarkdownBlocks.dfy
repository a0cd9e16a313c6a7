/**
  Which lines of an escaped text still begin a block for a CommonMark 0.31.2 reader: list items
  (section 5.2), tilde fences (section 4.5), the underlines of setext headings (section 4.3) and
  indented code (section 4.4).
 */
module MarkdownBlocks {
  import opened Text
  import opened MarkdownText

  // ---------- block openings, as the reader sees them ----------

  datatype Block = ListItem | TildeFence | Underline | IndentedCode

  predicate AtLineEnd(s: string) {
    s == "" || IsLineEnd(s[0])
  }

  predicate TabOrLineEnd(s: string) {
    AtLineEnd(s) || s[0] == '\t'
  }

  /** What must follow a list marker. */
  predicate BlankOrLineEnd(s: string) {
    TabOrLineEnd(s) || s[0] == ' '
  }

  function Digits(s: string): (n: nat)
    ensures n <= |s|
  {
    if s != "" && IsDigit(s[0]) then 1 + Digits(s[1..]) else 0
  }

  function Indent(s: string): (n: nat)
    ensures n <= |s|
  {
    if s != "" && s[0] == ' ' then 1 + Indent(s[1..]) else 0
  }

  /** A bullet list marker; `stars` says whether an asterisk may be one. */
  predicate Bullet(s: string, stars: bool) {
    s != "" && (s[0] == '-' || s[0] == '+' || (stars && s[0] == '*')) && BlankOrLineEnd(s[1..])
  }

  /** An ordered list marker: one to nine digits and a full stop or a closing parenthesis. */
  predicate Ordered(s: string) {
    var n := Digits(s);
    1 <= n <= 9 && n < |s| && (s[n] == '.' || s[n] == ')') && BlankOrLineEnd(s[n + 1..])
  }

  predicate BlankLine(s: string) {
    AtLineEnd(s) || ((s[0] == ' ' || s[0] == '\t') && BlankLine(s[1..]))
  }

  /** One or more `c` and nothing else up to the end of the line, blanks aside. */
  predicate RunOf(s: string, c: char) {
    s != "" && s[0] == c && (BlankLine(s[1..]) || RunOf(s[1..], c))
  }

  /** Four columns of indentation, which a tab fills up, and something behind them. */
  predicate Indented(s: string) {
    (Indent(s) >= 4 || (Indent(s) < |s| && s[Indent(s)] == '\t')) && !BlankLine(s)
  }

  predicate Opens(s: string, block: Block, stars: bool) {
    match block
    case ListItem => Bullet(s, stars) || Ordered(s)
    case TildeFence => "~~~" <= s
    case Underline => RunOf(s, '-') || RunOf(s, '=')
    case IndentedCode => false
  }

  /** The same after an indentation of at most three spaces, or a line that is indented further. */
  predicate OpensLine(s: string, block: Block, stars: bool) {
    if block.IndentedCode? then Indented(s) else Indent(s) <= 3 && Opens(s[Indent(s)..], block, stars)
  }

  /** Some line of `s` opens the block; `first` says whether `s` itself begins at a line's start. */
  predicate Occurs(s: string, first: bool, block: Block, stars: bool) {
    (first && OpensLine(s, block, stars)) || (s != "" && Occurs(s[1..], IsLineEnd(s[0]), block, stars))
  }

  // ---------- what the printer misses, as the value shows it ----------

  /** The openings that neither guard of the printer knows, at the first character of a trimmed line. */
  predicate MissedOpening(content: string, block: Block) {
    match block
    case ListItem =>
      var n := Digits(content);
      || (content != "" && (content[0] == '-' || content[0] == '+') && TabOrLineEnd(content[1..]))
      || (1 <= n <= 9 && n < |content| && content[n] == '.' && TabOrLineEnd(content[n + 1..]))
      || (1 <= n <= 9 && n < |content| && content[n] == ')' && BlankOrLineEnd(content[n + 1..]))
    case TildeFence => "~~~" <= content
    case Underline => RunOf(content, '=') || (RunOf(content, '-') && (|content| > 1 ==> content[1] != ' '))
    case IndentedCode => false
  }

  /** After `leading`, a reader is at most three spaces into a line. */
  predicate LeadsIn(leading: string, first: bool) {
    (first && Indent(leading) == |leading| <= 3) || (leading != "" && LeadsIn(leading[1..], IsLineEnd(leading[0])))
  }

  /**
    A line of the value, as `str::lines` yields it, that comes out opening a block: at its first
    character that is no space, or after a lone carriage return inside it, where the printer does
    not look for an item marker at all and escapes the asterisk alone. Of an indentation the
    printer takes no notice.
   */
  predicate Missed(line: string, block: Block) {
    var content := TrimStart(line);
    if block.IndentedCode? then Occurs(line, true, block, false)
    else
      || (LeadsIn(line[..|line| - |content|], true) && MissedOpening(content, block))
      || Occurs(content, false, block, false)
  }

  // ---------- a line feed parts the text ----------

  lemma {:induction false} CountsBeforeLineFeed(a: string, rest: string)
    ensures Digits(a + "\n" + rest) == Digits(a) && Indent(a + "\n" + rest) == Indent(a)
  {
    if a != "" {
      assert (a + "\n" + rest)[1..] == a[1..] + "\n" + rest;
      CountsBeforeLineFeed(a[1..], rest);
    }
  }

  lemma {:induction false} RunBeforeLineFeed(a: string, rest: string, c: char)
    requires c != '\n'
    ensures BlankLine(a + "\n" + rest) == BlankLine(a) && RunOf(a + "\n" + rest, c) == RunOf(a, c)
  {
    if a != "" {
      assert (a + "\n" + rest)[1..] == a[1..] + "\n" + rest;
      RunBeforeLineFeed(a[1..], rest, c);
    }
  }

  lemma SuffixBeforeLineFeed(a: string, rest: string, n: nat)
    requires n <= |a|
    ensures (a + "\n" + rest)[n..] == a[n..] + "\n" + rest
  {
  }

  lemma OrderedBeforeLineFeed(a: string, rest: string)
    ensures Ordered(a + "\n" + rest) == Ordered(a)
  {
    var n := Digits(a);
    CountsBeforeLineFeed(a, rest);
    if n < |a| {
      SuffixBeforeLineFeed(a, rest, n + 1);
      assert (a + "\n" + rest)[n] == a[n];
    } else {
      assert (a + "\n" + rest)[n] == '\n';
    }
  }

  lemma FenceBeforeLineFeed(a: string, rest: string)
    ensures "~~~" <= a + "\n" + rest <==> "~~~" <= a
  {
    var s := a + "\n" + rest;
    if "~~~" <= s {
      assert s[0] == '~' && s[1] == '~' && s[2] == '~';
      assert a == s[..|a|] && s[|a|] == '\n';
    }
  }

  lemma OpensBeforeLineFeed(a: string, rest: string, block: Block, stars: bool)
    ensures Opens(a + "\n" + rest, block, stars) == Opens(a, block, stars)
  {
    match block
    case ListItem =>
      OrderedBeforeLineFeed(a, rest);
      if a != "" {
        SuffixBeforeLineFeed(a, rest, 1);
      }
    case TildeFence =>
      FenceBeforeLineFeed(a, rest);
    case Underline =>
      RunBeforeLineFeed(a, rest, '-');
      RunBeforeLineFeed(a, rest, '=');
    case IndentedCode =>
  }

  lemma OpensLineBeforeLineFeed(a: string, rest: string, block: Block, stars: bool)
    ensures OpensLine(a + "\n" + rest, block, stars) == OpensLine(a, block, stars)
  {
    CountsBeforeLineFeed(a, rest);
    if block.IndentedCode? {
      RunBeforeLineFeed(a, rest, ' ');
      assert Indent(a) < |a| ==> (a + "\n" + rest)[Indent(a)] == a[Indent(a)];
    } else {
      SuffixBeforeLineFeed(a, rest, Indent(a));
      OpensBeforeLineFeed(a[Indent(a)..], rest, block, stars);
    }
  }

  lemma {:induction false} OccursAcrossLineFeed(a: string, rest: string, first: bool, block: Block, stars: bool)
    ensures Occurs(a + "\n" + rest, first, block, stars)
            == (Occurs(a, first, block, stars) || Occurs(rest, true, block, stars))
  {
    OpensLineBeforeLineFeed(a, rest, block, stars);
    if a == "" {
      assert (a + "\n" + rest)[1..] == rest;
    } else {
      SuffixBeforeLineFeed(a, rest, 1);
      OccursAcrossLineFeed(a[1..], rest, IsLineEnd(a[0]), block, stars);
    }
  }

  // ---------- the first two passes hide the asterisk and nothing else ----------

  predicate Plain(c: char) {
    Piece(c) == [c]
  }

  lemma PieceHead(c: char)
    ensures Piece(c) != "" && (!Plain(c) ==> Piece(c)[0] == '\\' || Piece(c)[0] == '&')
  {
  }

  lemma PiecesHead(s: string)
    requires s != ""
    ensures Pieces(s) != "" && (!Plain(s[0]) ==> Pieces(s)[0] == '\\' || Pieces(s)[0] == '&')
    ensures Plain(s[0]) ==> Pieces(s)[0] == s[0] && Pieces(s)[1..] == Pieces(s[1..])
  {
    var piece, rest := Piece(s[0]), Pieces(s[1..]);
    PieceHead(s[0]);
    assert Pieces(s) == piece + rest;
    assert (piece + rest)[0] == piece[0];
    assert |piece| == 1 ==> (piece + rest)[1..] == rest;
  }

  lemma {:induction false} DigitsOfPieces(s: string)
    ensures var n := Digits(s);
            Digits(Pieces(s)) == n && n <= |Pieces(s)| && Pieces(s)[n..] == Pieces(s[n..])
  {
    if s != "" {
      PiecesHead(s);
      DigitsOfPieces(s[1..]);
    }
  }

  lemma {:induction false} IndentOfPieces(s: string)
    ensures var n := Indent(s);
            Indent(Pieces(s)) == n && n <= |Pieces(s)| && Pieces(s)[n..] == Pieces(s[n..])
  {
    if s != "" {
      PiecesHead(s);
      IndentOfPieces(s[1..]);
    }
  }

  lemma BlankAfterPieces(s: string)
    ensures BlankOrLineEnd(Pieces(s)) == BlankOrLineEnd(s) && TabOrLineEnd(Pieces(s)) == TabOrLineEnd(s)
    ensures AtLineEnd(Pieces(s)) == AtLineEnd(s)
  {
    if s != "" {
      PiecesHead(s);
    }
  }

  lemma {:induction false} RunOfPieces(s: string, c: char)
    requires Plain(c) && c != '&'
    ensures BlankLine(Pieces(s)) == BlankLine(s) && RunOf(Pieces(s), c) == RunOf(s, c)
  {
    if s != "" {
      PiecesHead(s);
      RunOfPieces(s[1..], c);
    }
  }

  /** A marker of one plain character, and what may follow it. */
  lemma MarkerOfPieces(s: string)
    ensures Pieces(s) != "" <==> s != ""
    ensures s != "" && (Pieces(s)[0] == '.' || s[0] == '.') ==>
              Pieces(s)[0] == s[0] && BlankOrLineEnd(Pieces(s)[1..]) == BlankOrLineEnd(s[1..])
    ensures s != "" && (Pieces(s)[0] == ')' || s[0] == ')') ==>
              Pieces(s)[0] == s[0] && BlankOrLineEnd(Pieces(s)[1..]) == BlankOrLineEnd(s[1..])
  {
    if s != "" {
      PiecesHead(s);
      BlankAfterPieces(s[1..]);
    }
  }

  predicate Marked(s: string) {
    s != "" && (s[0] == '.' || s[0] == ')') && BlankOrLineEnd(s[1..])
  }

  lemma OrderedIsMarked(s: string)
    ensures Ordered(s) <==> 1 <= Digits(s) <= 9 && Marked(s[Digits(s)..])
  {
    var n := Digits(s);
    assert n < |s| ==> s[n..][0] == s[n] && s[n..][1..] == s[n + 1..];
  }

  lemma OrderedOfPieces(s: string)
    ensures Ordered(Pieces(s)) == Ordered(s)
  {
    DigitsOfPieces(s);
    OrderedIsMarked(s);
    OrderedIsMarked(Pieces(s));
    MarkerOfPieces(s[Digits(s)..]);
  }

  /** A run of one plain character begins the pieces just when it begins the text. */
  lemma {:induction false} PrefixOfPieces(run: string, s: string)
    requires forall k :: 0 <= k < |run| ==> Plain(run[k]) && run[k] != '&'
    ensures run <= Pieces(s) <==> run <= s
  {
    if run != "" && s != "" {
      PiecesHead(s);
      PrefixOfPieces(run[1..], s[1..]);
      assert run <= s <==> run[0] == s[0] && run[1..] <= s[1..];
      assert run <= Pieces(s) <==> run[0] == Pieces(s)[0] && run[1..] <= Pieces(s)[1..];
    }
  }

  lemma OpensOfPieces(s: string, block: Block)
    ensures Opens(Pieces(s), block, true) == Opens(s, block, false)
  {
    if s != "" {
      match block
      case ListItem =>
        PiecesHead(s);
        BlankAfterPieces(s[1..]);
        OrderedOfPieces(s);
      case TildeFence =>
        PrefixOfPieces("~~~", s);
      case Underline =>
        RunOfPieces(s, '-');
        RunOfPieces(s, '=');
      case IndentedCode =>
    }
  }

  /** Inside a line nothing opens. */
  lemma {:induction false} OccursInRun(run: string, rest: string, block: Block, stars: bool)
    requires OneLine(run)
    ensures Occurs(run + rest, false, block, stars) == Occurs(rest, false, block, stars)
  {
    if run == "" {
      assert run + rest == rest;
    } else {
      assert (run + rest)[1..] == run[1..] + rest;
      OccursInRun(run[1..], rest, block, stars);
    }
  }

  lemma IndentedOfPieces(s: string)
    ensures Indented(Pieces(s)) == Indented(s)
  {
    var n := Indent(s);
    IndentOfPieces(s);
    RunOfPieces(s, '-');
    if n < |s| {
      PiecesHead(s[n..]);
      assert Pieces(s)[n] == Pieces(s)[n..][0];
    } else {
      assert Pieces(s[n..]) == "";
    }
  }

  lemma OpensLineOfPieces(s: string, block: Block)
    ensures OpensLine(Pieces(s), block, true) == OpensLine(s, block, false)
  {
    if block.IndentedCode? {
      IndentedOfPieces(s);
    } else {
      IndentOfPieces(s);
      OpensOfPieces(s[Indent(s)..], block);
    }
  }

  lemma OccursPastPiece(c: char, rest: string, block: Block)
    ensures var s := Piece(c) + rest;
            Occurs(s[1..], IsLineEnd(s[0]), block, true) == Occurs(rest, IsLineEnd(c), block, true)
  {
    if !Plain(c) {
      assert (Piece(c) + rest)[1..] == Piece(c)[1..] + rest;
      OccursInRun(Piece(c)[1..], rest, block, true);
    }
  }

  lemma {:induction false} OccursOfPieces(s: string, first: bool, block: Block)
    ensures Occurs(Pieces(s), first, block, true) == Occurs(s, first, block, false)
  {
    OpensLineOfPieces(s, block);
    if s != "" {
      OccursOfPieces(s[1..], IsLineEnd(s[0]), block);
      OccursPastPiece(s[0], Pieces(s[1..]), block);
    }
  }

  // ---------- what the guards of the third pass catch ----------

  predicate Guarded(content: string) {
    OrderedItem(content) || BulletItem(content)
  }

  lemma {:induction false} DotSpaceAfterDigits(s: string)
    ensures OrderedItem(s) <==> Digits(s) + 2 <= |s| && s[Digits(s)] == '.' && s[Digits(s) + 1] == ' '
  {
    if |s| >= 2 && !(s[0] == '.' && s[1] == ' ') {
      var k := FirstDotSpace(s);
      DotSpaceAfterDigits(s[1..]);
      assert k == 1 + FirstDotSpace(s[1..]);
      assert s[..k][1..] == s[1..][..k - 1];
      assert AllDigits(s[..k]) <==> IsDigit(s[0]) && AllDigits(s[1..][..k - 1]);
    }
  }

  lemma DotSpaceBegins(s: string)
    ensures OrderedItem(s) <==> ". " <= s[Digits(s)..]
  {
    DotSpaceAfterDigits(s);
    BeginsAt(s, Digits(s));
  }

  lemma OrderedItemOfPieces(s: string)
    ensures OrderedItem(Pieces(s)) == OrderedItem(s)
  {
    DotSpaceBegins(s);
    DotSpaceBegins(Pieces(s));
    DigitsOfPieces(s);
    PrefixOfPieces(". ", s[Digits(s)..]);
  }

  lemma BeginsAt(s: string, n: nat)
    requires n <= |s|
    ensures ". " <= s[n..] <==> n + 2 <= |s| && s[n] == '.' && s[n + 1] == ' '
  {
  }

  /** The guards look at plain characters, so they may as well look at the value. */
  lemma GuardedPieces(s: string)
    ensures Guarded(Pieces(s)) == Guarded(s)
  {
    OrderedItemOfPieces(s);
    PrefixOfPieces("- ", s);
    PrefixOfPieces("+ ", s);
    BulletIsPrefix(s);
    BulletIsPrefix(Pieces(s));
  }

  lemma BulletIsPrefix(s: string)
    ensures BulletItem(s) <==> "- " <= s || "+ " <= s
  {
  }

  lemma MissedAreUnguarded(content: string, block: Block)
    ensures MissedOpening(content, block) <==> Opens(content, block, false) && !Guarded(content)
  {
    DotSpaceAfterDigits(content);
  }

  /** Digits before `mark` are the number that a reader sees. */
  lemma {:induction false} DigitsThen(digits: string, mark: char, rest: string)
    requires AllDigits(digits) && !IsDigit(mark)
    ensures Digits(digits + ([mark] + rest)) == |digits|
  {
    if digits == "" {
      assert digits + ([mark] + rest) == [mark] + rest;
    } else {
      assert (digits + ([mark] + rest))[1..] == digits[1..] + ([mark] + rest);
      DigitsThen(digits[1..], mark, rest);
    }
  }

  /** A guarded line gets its backslash before its marker is over. */
  lemma GuardedOpensNothing(content: string, block: Block)
    requires Guarded(content)
    ensures !Opens(EscapeContent(content), block, true)
  {
    var front, c, back := EscapedItemParts(content);
    assert ['\\', c] + back == ['\\'] + ([c] + back);
    DigitsThen(front, '\\', [c] + back);
    var escaped := EscapeContent(content);
    assert escaped[|front|] == '\\';
    assert escaped[0] == '\\' || IsDigit(escaped[0]);
    match block
    case ListItem => assert !Bullet(escaped, true);
    case TildeFence =>
    case Underline =>
    case IndentedCode =>
  }

  // ---------- one line of the value ----------

  /** In front of `rest` only an indentation matters, and the place where its last line starts. */
  lemma {:induction false} OccursAfterSpaces(leading: string, rest: string, first: bool, block: Block)
    requires AllSpace(leading) && (rest != "" ==> !IsSpace(rest[0])) && !block.IndentedCode?
    ensures Occurs(leading + rest, first, block, true)
            <==> (LeadsIn(leading, first) && Opens(rest, block, true)) || Occurs(rest, false, block, true)
  {
    OpensAfterSpaces(leading, rest, block);
    if leading == "" {
      assert leading + rest == rest;
    } else {
      assert (leading + rest)[1..] == leading[1..] + rest;
      OccursAfterSpaces(leading[1..], rest, IsLineEnd(leading[0]), block);
    }
  }

  lemma {:induction false} IndentAfterSpaces(leading: string, rest: string)
    requires rest != "" ==> !IsSpace(rest[0])
    ensures Indent(leading + rest) == Indent(leading)
  {
    if leading == "" {
      assert leading + rest == rest;
    } else {
      assert (leading + rest)[1..] == leading[1..] + rest;
      IndentAfterSpaces(leading[1..], rest);
    }
  }

  lemma OpensAfterSpaces(leading: string, rest: string, block: Block)
    requires AllSpace(leading) && (rest != "" ==> !IsSpace(rest[0])) && !block.IndentedCode?
    ensures OpensLine(leading + rest, block, true)
            <==> Indent(leading) == |leading| <= 3 && Opens(rest, block, true)
  {
    var n := Indent(leading);
    IndentAfterSpaces(leading, rest);
    if n == |leading| {
      assert (leading + rest)[n..] == rest;
    } else {
      assert (leading + rest)[n..][0] == leading[n];
      SpaceOpensNothing((leading + rest)[n..], block);
    }
  }

  lemma SpaceOpensNothing(s: string, block: Block)
    requires s != "" && IsSpace(s[0])
    ensures !Opens(s, block, true)
  {
    assert !IsDigit(s[0]);
  }

  /** The backslash of the third pass sits inside the first line of the content. */
  lemma OccursInContent(content: string, block: Block)
    ensures Occurs(EscapeContent(content), false, block, true) == Occurs(content, false, block, true)
  {
    if Guarded(content) {
      var front, c, back := EscapedItemParts(content);
      Regroup(front, [c], back);
      Regroup(front, ['\\', c], back);
      OccursInRun(front + [c], back, block, true);
      OccursInRun(front + ['\\', c], back, block, true);
    }
  }

  lemma {:induction false} PiecesOfSum(a: string, b: string)
    ensures Pieces(a + b) == Pieces(a) + Pieces(b)
  {
    if a == "" {
      assert a + b == b;
    } else {
      assert (a + b)[1..] == a[1..] + b;
      PiecesOfSum(a[1..], b);
      Regroup(Piece(a[0]), Pieces(a[1..]), Pieces(b));
    }
  }

  lemma {:induction false} PiecesOfSpaces(s: string)
    requires AllSpace(s)
    ensures Pieces(s) == s
  {
    if s != "" {
      PiecesOfSpaces(s[1..]);
    }
  }

  /** The third pass finds the pieces of the same content behind the same spaces. */
  lemma PiecesOfLine(line: string)
    ensures var content := TrimStart(line);
            var leading := line[..|line| - |content|];
            EscapeLinePrefix(Pieces(line)) == leading + EscapeContent(Pieces(content))
  {
    var content := TrimStart(line);
    var leading := line[..|line| - |content|];
    TrimStartSplits(line);
    PiecesOfSum(leading, content);
    PiecesOfSpaces(leading);
    assert Pieces(line) == leading + Pieces(content);
    if content == "" {
      TrimStartSplits(Pieces(line));
      assert TrimStart(Pieces(line)) == "";
    } else {
      PiecesHead(content);
      TrimStartAfterSpaces(leading, Pieces(content));
    }
    assert Pieces(line)[..|Pieces(line)| - |Pieces(content)|] == leading;
  }

  lemma EscapedHead(content: string)
    requires content != "" && !IsSpace(content[0])
    ensures EscapeContent(content) != "" && !IsSpace(EscapeContent(content)[0])
  {
  }

  lemma LineOpensIffMissed(line: string, block: Block)
    ensures Occurs(EscapeLinePrefix(Pieces(line)), true, block, true) <==> Missed(line, block)
  {
    var content := TrimStart(line);
    var leading := line[..|line| - |content|];
    var escaped := EscapeContent(Pieces(content));
    TrimStartSplits(line);
    PiecesOfLine(line);
    if content != "" {
      PiecesHead(content);
      EscapedHead(Pieces(content));
    }
    OccursInContent(Pieces(content), block);
    OccursOfPieces(content, false, block);
    if block.IndentedCode? {
      IndentedStays(leading, escaped, content, true);
    } else {
      OccursAfterSpaces(leading, escaped, true, block);
      ContentOpensIffMissed(content, block);
    }
  }

  predicate SameStart(a: string, b: string) {
    (a == "" <==> b == "") && (a != "" ==> !IsSpace(a[0]) && !IsSpace(b[0]))
  }

  lemma {:induction false} BlankAlike(leading: string, a: string, b: string)
    requires SameStart(a, b)
    ensures BlankLine(leading + a) == BlankLine(leading + b)
  {
    if leading == "" {
      assert leading + a == a && leading + b == b;
    } else {
      assert (leading + a)[1..] == leading[1..] + a && (leading + b)[1..] == leading[1..] + b;
      BlankAlike(leading[1..], a, b);
    }
  }

  lemma TabBehind(leading: string, rest: string)
    requires rest != "" ==> !IsSpace(rest[0])
    ensures var n, s := Indent(leading), leading + rest;
            (n < |s| && s[n] == '\t') <==> (n < |leading| && leading[n] == '\t')
  {
  }

  /** Whether a line is indented shows in front of its first character that is no space. */
  lemma IndentedAlike(leading: string, a: string, b: string)
    requires SameStart(a, b)
    ensures Indented(leading + a) == Indented(leading + b)
  {
    BlankAlike(leading, a, b);
    IndentAfterSpaces(leading, a);
    IndentAfterSpaces(leading, b);
    TabBehind(leading, a);
    TabBehind(leading, b);
  }

  lemma {:induction false} IndentedStays(leading: string, a: string, b: string, first: bool)
    requires SameStart(a, b) && Occurs(a, false, IndentedCode, true) == Occurs(b, false, IndentedCode, false)
    ensures Occurs(leading + a, first, IndentedCode, true) == Occurs(leading + b, first, IndentedCode, false)
  {
    IndentedAlike(leading, a, b);
    if leading == "" {
      assert leading + a == a && leading + b == b;
    } else {
      assert (leading + a)[1..] == leading[1..] + a && (leading + b)[1..] == leading[1..] + b;
      IndentedStays(leading[1..], a, b, IsLineEnd(leading[0]));
    }
  }

  lemma ContentOpensIffMissed(content: string, block: Block)
    ensures Opens(EscapeContent(Pieces(content)), block, true) <==> MissedOpening(content, block)
  {
    MissedAreUnguarded(content, block);
    GuardedPieces(content);
    OpensOfPieces(content, block);
    if Guarded(content) {
      GuardedOpensNothing(Pieces(content), block);
    }
  }

  // ---------- the whole value ----------

  function PiecesOfEach(lines: seq<string>): seq<string> {
    if lines == [] then [] else [Pieces(lines[0])] + PiecesOfEach(lines[1..])
  }

  lemma {:induction false} PiecesKeepLineFeeds(s: string)
    ensures NoLineFeed(s) ==> NoLineFeed(Pieces(s))
  {
    if s != "" {
      PiecesKeepLineFeeds(s[1..]);
    }
  }

  lemma StripReturnOfPieces(s: string)
    ensures StripReturn(Pieces(s)) == Pieces(StripReturn(s))
  {
    if s != "" {
      var front, c := s[..|s| - 1], s[|s| - 1];
      assert s == front + [c];
      PiecesOfSum(front, [c]);
      PiecesOfOne(c);
      StripAfter(Pieces(front), Piece(c));
    }
  }

  lemma PiecesOfOne(c: char)
    ensures Pieces([c]) == Piece(c) != "" && (Piece(c)[|Piece(c)| - 1] == '\r' ==> Piece(c) == "\r")
    ensures Piece(c) == "\r" <==> c == '\r'
  {
  }

  lemma StripAfter(front: string, back: string)
    requires back != "" && (back[|back| - 1] == '\r' ==> back == "\r")
    ensures StripReturn(front + back) == if back == "\r" then front else front + back
  {
  }

  lemma LineOfPieces(a: string, b: string)
    requires NoLineFeed(a)
    ensures Pieces(a + ("\n" + b)) == Pieces(a) + "\n" + Pieces(b)
    ensures Lines(Pieces(a) + "\n" + Pieces(b)) == [Pieces(StripReturn(a))] + Lines(Pieces(b))
  {
    PiecesKeepLineFeeds(a);
    PiecesOfSum(a, "\n" + b);
    assert Pieces("\n" + b) == "\n" + Pieces(b);
    Regroup(Pieces(a), "\n", Pieces(b));
    LinesFrom(Pieces(a), Pieces(b));
    StripReturnOfPieces(a);
  }

  lemma LastLineOfPieces(s: string)
    requires NoLineFeed(s)
    ensures Lines(Pieces(s)) == if s == "" then [] else [Pieces(s)]
  {
    PiecesKeepLineFeeds(s);
    PiecesEmpty(s);
    FirstLineFeedAfter(Pieces(s), "");
  }

  lemma {:induction false} LinesOfPieces(s: string)
    ensures Lines(Pieces(s)) == PiecesOfEach(Lines(s))
    decreases |s|
  {
    var k := FirstLineFeed(s);
    LineFeedIsFirst(s);
    if k < |s| {
      var a, b := s[..k], s[k + 1..];
      assert s == a + ("\n" + b);
      LineOfPieces(a, b);
      LinesOfPieces(b);
      assert PiecesOfEach([StripReturn(a)] + Lines(b)) == [Pieces(StripReturn(a))] + PiecesOfEach(Lines(b));
    } else {
      assert s[..k] == s;
      LastLineOfPieces(s);
    }
  }

  lemma JoinOpensIffOneDoes(first: string, others: seq<string>, block: Block)
    ensures Occurs(Join([first] + others), true, block, true)
            <==> Occurs(first, true, block, true) || Occurs(Join(others), true, block, true)
  {
    JoinFirst(first, others);
    if others != [] {
      Regroup(first, "\n", Join(others));
      OccursAcrossLineFeed(first, Join(others), true, block, true);
    } else {
      assert first + "" == first;
      assert !Occurs("", true, block, true);
    }
  }

  lemma FirstOrLater(lines: seq<string>, block: Block)
    requires lines != []
    ensures (exists line :: line in lines && Missed(line, block))
            <==> Missed(lines[0], block) || exists line :: line in lines[1..] && Missed(line, block)
  {
    assert forall line :: line in lines <==> line == lines[0] || line in lines[1..];
  }

  lemma EscapedFirst(lines: seq<string>)
    requires lines != []
    ensures EscapeLines(PiecesOfEach(lines))
            == [EscapeLinePrefix(Pieces(lines[0]))] + EscapeLines(PiecesOfEach(lines[1..]))
  {
    assert PiecesOfEach(lines)[1..] == PiecesOfEach(lines[1..]);
  }

  lemma {:induction false} JoinedOpenIffMissed(lines: seq<string>, block: Block)
    ensures Occurs(Join(EscapeLines(PiecesOfEach(lines))), true, block, true)
            <==> exists line :: line in lines && Missed(line, block)
  {
    if lines == [] {
      assert !Occurs("", true, block, true);
    } else {
      EscapedFirst(lines);
      JoinOpensIffOneDoes(EscapeLinePrefix(Pieces(lines[0])), EscapeLines(PiecesOfEach(lines[1..])), block);
      LineOpensIffMissed(lines[0], block);
      JoinedOpenIffMissed(lines[1..], block);
      FirstOrLater(lines, block);
    }
  }

  /**
    For every value and every kind of block: the printed text has a line that opens one if and
    only if some line of the value is one of those missed.
   */
  lemma PrintedOpensIffMissed(value: string, block: Block)
    ensures Occurs(Printed(value), true, block, true)
            <==> exists line :: line in Lines(value) && Missed(line, block)
  {
    TwoPassesMakePieces(value);
    LinesOfPieces(value);
    JoinedOpenIffMissed(Lines(value), block);
  }

  // ---------- texts that get through ----------

  lemma {:induction false} PiecesOfPlain(s: string)
    requires forall k :: 0 <= k < |s| ==> Plain(s[k])
    ensures Pieces(s) == s
  {
    if s != "" {
      PiecesOfPlain(s[1..]);
    }
  }

  lemma LineAlone(line: string)
    requires line != "" && NoLineFeed(line)
    ensures Join(EscapeLines(Lines(line))) == EscapeLinePrefix(line)
  {
    FirstLineFeedAfter(line, "");
    assert Lines(line) == [line];
    assert EscapeLines([line])[1..] == EscapeLines([]);
  }

  lemma UnguardedLine(line: string)
    requires line != "" && !IsSpace(line[0]) && !Guarded(line)
    ensures EscapeLinePrefix(line) == line
  {
    assert TrimStart(line) == line;
  }

  /** A line without special characters and without a marker that the printer knows. */
  lemma PrintedUnchanged(line: string)
    requires line != "" && !IsSpace(line[0]) && !Guarded(line)
    requires forall k :: 0 <= k < |line| ==> Plain(line[k]) && line[k] != '\n'
    ensures Printed(line) == line
  {
    PiecesOfPlain(line);
    TwoPassesMakePieces(line);
    LineAlone(line);
    UnguardedLine(line);
  }

  /** List markers that come out as they went in. */
  lemma BareHyphenGetsThrough()
    ensures Printed("-") == "-" && Occurs("-", true, ListItem, true)
  {
    PrintedUnchanged("-");
  }

  lemma ParenthesisGetsThrough(number: string, rest: string)
    requires 0 < |number| <= 9 && AllDigits(number) && BlankOrLineEnd(rest)
    requires forall k :: 0 <= k < |rest| ==> Plain(rest[k]) && rest[k] != '\n'
    ensures var s := number + ([')'] + rest);
            Printed(s) == s && Occurs(s, true, ListItem, true)
  {
    var s := number + ([')'] + rest);
    NumberIsOrdered(number, rest);
    assert forall k :: 0 <= k < |number| ==> Plain(number[k]) && number[k] != '\n';
    PrintedUnchanged(s);
    OpensAtOnce(s, ListItem);
  }

  lemma NumberIsOrdered(number: string, rest: string)
    requires 0 < |number| <= 9 && AllDigits(number) && BlankOrLineEnd(rest)
    ensures var s := number + ([')'] + rest);
            Ordered(s) && !Guarded(s) && s[0] == number[0]
  {
    var s := number + ([')'] + rest);
    DigitsThen(number, ')', rest);
    OrderedIsMarked(s);
    DotSpaceAfterDigits(s);
    assert s[|number|..] == [')'] + rest;
  }

  lemma OpensAtOnce(s: string, block: Block)
    requires Opens(s, block, true) && (s != "" ==> s[0] != ' ')
    ensures Occurs(s, true, block, true)
  {
    assert Indent(s) == 0 && s[0..] == s;
  }

  lemma TildeFenceGetsThrough()
    ensures Printed("~~~") == "~~~" && Occurs("~~~", true, TildeFence, true)
  {
    PrintedUnchanged("~~~");
  }

  lemma UnderlineGetsThrough()
    ensures Printed("=") == "=" && Occurs("=", true, Underline, true)
  {
    PrintedUnchanged("=");
  }

  /** A line on its own, whose first character after its spaces begins no marker, passes as it is. */
  lemma SpacedLineStays(spaces: string, content: string)
    requires AllSpace(spaces) && content != "" && !IsSpace(content[0]) && !Guarded(content)
    requires NoLineFeed(spaces) && NoLineFeed(content)
    ensures Join(EscapeLines(Lines(spaces + content))) == spaces + content
  {
    var line := spaces + content;
    LineAlone(line);
    TrimStartAfterSpaces(spaces, content);
    assert line[..|spaces|] == spaces;
  }

  lemma IndentedOpens(spaces: string, content: string)
    requires |spaces| >= 4 && (forall k :: 0 <= k < |spaces| ==> spaces[k] == ' ')
    requires content != "" && !IsSpace(content[0])
    ensures Occurs(spaces + content, true, IndentedCode, true)
  {
    IndentOfSpaces(spaces);
    IndentAfterSpaces(spaces, content);
    BlankAlike(spaces, content, "x");
    SpacesThenTextIsNotBlank(spaces);
    assert OpensLine(spaces + content, IndentedCode, true);
  }

  lemma PiecesBehindSpaces(spaces: string, c: char)
    requires AllSpace(spaces)
    ensures Pieces(spaces + [c]) == spaces + Piece(c)
  {
    PiecesOfSum(spaces, [c]);
    PiecesOfSpaces(spaces);
    PiecesOfOne(c);
  }

  /** In an indented line the escapes are part of the code. */
  lemma IndentedCodeShowsEscapes(spaces: string, c: char)
    requires |spaces| >= 4 && (forall k :: 0 <= k < |spaces| ==> spaces[k] == ' ') && IsStructural(c)
    ensures Printed(spaces + [c]) == spaces + ['\\', c]
    ensures Occurs(spaces + ['\\', c], true, IndentedCode, true)
  {
    TwoPassesMakePieces(spaces + [c]);
    PiecesBehindSpaces(spaces, c);
    EscapeIsUnguarded(c);
    SpacedLineStays(spaces, ['\\', c]);
    IndentedOpens(spaces, ['\\', c]);
  }

  lemma EscapeIsUnguarded(c: char)
    requires IsStructural(c)
    ensures Piece(c) == ['\\', c] && !Guarded(['\\', c]) && NoLineFeed(['\\', c])
  {
    DotSpaceAfterDigits(['\\', c]);
  }

  lemma {:induction false} IndentOfSpaces(s: string)
    requires forall k :: 0 <= k < |s| ==> s[k] == ' '
    ensures Indent(s) == |s|
  {
    if s != "" {
      IndentOfSpaces(s[1..]);
    }
  }

  lemma {:induction false} SpacesThenTextIsNotBlank(s: string)
    requires forall k :: 0 <= k < |s| ==> s[k] == ' '
    ensures !BlankLine(s + "x")
  {
    if s == "" {
      assert s + "x" == "x";
    } else {
      assert (s + "x")[1..] == s[1..] + "x";
      SpacesThenTextIsNotBlank(s[1..]);
    }
  }

  /** What opens a block also opens it after a lone carriage return. */
  lemma OccursAfterReturn(front: string, rest: string, block: Block)
    requires OneLine(front) && OpensLine(rest, block, true)
    ensures Occurs(front + ("\r" + rest), true, block, true)
  {
    var s := "\r" + rest;
    assert s[1..] == rest;
    OccursInRun(front, s, block, true);
  }

  /** A marker that the printer knows, after a line ending that it does not know. */
  lemma ItemAfterReturnGetsThrough(rest: string)
    requires Bullet(rest, false) && (forall k :: 0 <= k < |rest| ==> Plain(rest[k]) && rest[k] != '\n')
    ensures var s := "a" + ("\r" + rest);
            Printed(s) == s && Occurs(s, true, ListItem, true)
  {
    var s := "a" + ("\r" + rest);
    assert Digits(s) == 0;
    DotSpaceAfterDigits(s);
    PrintedUnchanged(s);
    assert Indent(rest) == 0 && rest[0..] == rest;
    OccursAfterReturn("a", rest, ListItem);
  }
}
