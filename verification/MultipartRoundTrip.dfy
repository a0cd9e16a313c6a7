/**
  The multipart reader undoes the encoder of section 4.2 of RFC 7578 and section 5.1.1 of
  RFC 2046, with quoted strings as in section 5.6.4 of RFC 9110.
 */
module MultipartRoundTrip {
  import opened Wrappers
  import opened Text
  import opened RedactionManifest
  import opened Multipart

  // ---------- the encoder ----------

  /** `star` asks for the extended parameter name; `before` and `headers` are the lines around the disposition. */
  datatype FormPart = FormPart(before: seq<string>, name: string, filename: Option<string>, star: bool,
                               headers: seq<string>, body: string)

  /** The escaped form of one character. */
  function EscapedQuote(c: char): string {
    if c == '"' || c == '\\' then ['\\', c] else [c]
  }

  function EscapeQuotes(s: string): string {
    if s == "" then ""
    else EscapedQuote(s[0]) + EscapeQuotes(s[1..])
  }

  function Quote(s: string): string {
    "\"" + EscapeQuotes(s) + "\""
  }

  function ParameterText(p: Parameter): string {
    p.name + "=" + Quote(p.value)
  }

  function ParameterList(parameters: seq<Parameter>): string {
    if parameters == [] then "" else "; " + ParameterText(parameters[0]) + ParameterList(parameters[1..])
  }

  function ParametersFor(p: FormPart): seq<Parameter> {
    [Parameter("name", p.name)]
    + match p.filename
      case None => []
      case Some(f) => [Parameter(if p.star then "filename*" else "filename", f)]
  }

  function Disposition(p: FormPart): string {
    "form-data" + ParameterList(ParametersFor(p))
  }

  function HeaderBlock(first: string, more: seq<string>): string
    decreases |more|
  {
    if more == [] then first else first + CRLF + HeaderBlock(more[0], more[1..])
  }

  function Headers(p: FormPart): string {
    HeaderBlockOf(p.before, "Content-Disposition" + ": " + Disposition(p), p.headers)
  }

  function HeaderBlockOf(before: seq<string>, disposition: string, more: seq<string>): string {
    var lines := before + [disposition] + more;
    HeaderBlock(lines[0], lines[1..])
  }

  function Content(p: FormPart): string {
    Headers(p) + BLANK_LINE + p.body
  }

  function Piece(p: FormPart): string {
    CRLF + Content(p) + CRLF
  }

  /** What follows a delimiter: the parts from here on, with delimiters between and behind them. */
  function Tail(parts: seq<FormPart>, delimiter: string): string {
    if parts == [] then "--\r\n" else Piece(parts[0]) + (delimiter + Tail(parts[1..], delimiter))
  }

  function Encode(parts: seq<FormPart>, boundary: string): string {
    "--" + boundary + Tail(parts, "--" + boundary)
  }

  ghost predicate HeaderLines(lines: seq<string>) {
    forall k :: 0 <= k < |lines| ==> lines[k] != "" && OneLine(lines[k])
  }

  /** Headers of another name, and of none that looks like the end of the form. */
  ghost predicate OtherHeaders(lines: seq<string>) {
    HeaderLines(lines) && forall k :: 0 <= k < |lines| ==> lines[k][0] != '-' && IsOtherHeader(lines[k])
  }

  predicate IsOtherHeader(line: string) {
    match SplitOnce(line, ':')
    case None => true
    case Some(p) => !EqualsIgnoreCase(Trim(p.name), "content-disposition")
  }

  /** Names and further headers on one line each. */
  ghost predicate OneLineHeaders(p: FormPart) {
    && OneLine(p.name) && (p.filename.Some? ==> OneLine(p.filename.value))
    && OtherHeaders(p.before) && HeaderLines(p.headers)
  }

  ghost predicate AllOneLineHeaders(parts: seq<FormPart>) {
    forall k :: 0 <= k < |parts| ==> OneLineHeaders(parts[k])
  }

  /** The delimiter is nowhere inside either. */
  ghost predicate Encodable(p: FormPart, delimiter: string) {
    OneLineHeaders(p) && Find(Content(p), delimiter) == None
  }

  ghost predicate AllEncodable(parts: seq<FormPart>, delimiter: string) {
    forall k :: 0 <= k < |parts| ==> Encodable(parts[k], delimiter)
  }

  predicate IsBoundaryChar(c: char) {
    IsAsciiAlphanumeric(c) || '\'' <= c <= ')' || '+' <= c <= '/' || c == ':' || c == '=' || c == '?' || c == '_'
    || c == ' '
  }

  predicate IsBoundary(b: string) {
    0 < |b| <= 70 && b[|b| - 1] != ' ' && forall k :: 0 <= k < |b| ==> IsBoundaryChar(b[k])
  }

  function BoundaryValue(b: string, quoted: bool): string {
    if quoted then "\"" + b + "\"" else b
  }

  function ContentType(b: string, quoted: bool): string {
    "multipart/form-data" + "; " + "boundary" + "=" + BoundaryValue(b, quoted)
  }

  // ---------- searching past what does not match ----------

  lemma {:induction false} FindSkips(x: string, rest: string, d: string)
    requires d != "" && forall k :: 0 <= k < |x| ==> x[k] != d[0]
    ensures Find(x + rest, d) == match Find(rest, d) case None => None case Some(k) => Some(|x| + k)
  {
    if x == "" {
      assert x + rest == rest;
    } else {
      assert (x + rest)[0] == x[0] && (x + rest)[1..] == x[1..] + rest;
      FindSkips(x[1..], rest, d);
    }
  }

  lemma {:induction false} FindNowhere(x: string, c: char)
    requires forall k :: 0 <= k < |x| ==> x[k] != c
    ensures Find(x, [c]) == None
  {
    FindSkips(x, "", [c]);
    assert x + "" == x;
  }

  /** No occurrence before `d` itself, since none lies in `u` and none reaches into `w`. */
  lemma {:induction false} FindAfter(u: string, w: string, rest: string, d: string)
    requires Find(u, d) == None && w != "" && d != ""
    requires forall k :: 0 <= k < |w| ==> w[k] !in d
    ensures Find(u + w + (d + rest), d) == Some(|u| + |w|)
  {
    if u == "" {
      assert u + w + (d + rest) == w + (d + rest);
      FindSkips(w, d + rest, d);
    } else {
      var s := u + w + (d + rest);
      assert s[1..] == u[1..] + w + (d + rest);
      FindAfter(u[1..], w, rest, d);
      NoMatchAcross(u, w, rest, d);
    }
  }

  lemma NoMatchAcross(u: string, w: string, rest: string, d: string)
    requires !(d <= u) && w != "" && w[0] !in d
    ensures !(d <= u + w + (d + rest))
  {
    var s := u + w + (d + rest);
    if |u| < |d| {
      assert s[|u|] == w[0];
      assert d[|u|] != w[0];
    } else {
      assert s[..|d|] == u[..|d|];
    }
  }

  lemma {:induction false} LowerOfLower(s: string)
    requires forall k :: 0 <= k < |s| ==> !('A' <= s[k] <= 'Z')
    ensures LowerCase(s) == s
  {
    if s != "" {
      LowerOfLower(s[1..]);
    }
  }

  // ---------- the boundary comes out of the content type ----------

  lemma SplitOnceAt(name: string, value: string, c: char)
    requires forall k :: 0 <= k < |name| ==> name[k] != c
    ensures SplitOnce(name + [c] + value, c) == Some(Parameter(name, value))
  {
    var s := name + [c] + value;
    assert s == name + ([c] + value);
    FindSkips(name, [c] + value, [c]);
    assert s[..|name|] == name && s[|name| + 1..] == value;
  }

  lemma {:induction false} TrimQuotesUndone(b: string, quoted: bool)
    requires b != "" && b[0] != '"' && b[|b| - 1] != '"'
    ensures TrimQuotesEnd(TrimQuotesStart(BoundaryValue(b, quoted))) == b
  {
  }

  lemma TrimAfterSpace(s: string)
    requires s != "" && Trimmed(s)
    ensures Trim(" " + s) == s
  {
    SpaceInFront(s);
    TrimOfTrimmed(s);
  }

  lemma SpaceInFront(s: string)
    requires s != "" && !IsSpace(s[0])
    ensures TrimStart(" " + s) == s && TrimStart(s) == s
  {
    assert SpacesUpTo(" " + s, 1) == 1;
    assert (" " + s)[1..] == s;
  }

  /** Lower-case names as parameters have them. */
  predicate IsToken(s: string) {
    s != "" && forall k :: 0 <= k < |s| ==> 'a' <= s[k] <= 'z' || s[k] == '-' || s[k] == '/' || s[k] == '*'
  }

  /** What the readers make of a parameter, whatever its name and value. */
  lemma TokenParameter(name: string, value: string)
    requires IsToken(name) && value != "" && Trimmed(value)
    ensures Trim(" " + (name + "=" + value)) == name + "=" + value
    ensures SplitOnce(name + "=" + value, '=') == Some(Parameter(name, value))
    ensures Trim(name) == name && LowerCase(name) == name && Trim(value) == value
  {
    TrimAfterSpace(name + "=" + value);
    SplitOnceAt(name, value, '=');
    assert name + ['='] + value == name + "=" + value;
    TrimOfTrimmed(name);
    LowerOfLower(name);
    TrimOfTrimmed(value);
  }

  lemma SplitsAtSemicolon(first: string, rest: string)
    requires forall k :: 0 <= k < |first| ==> first[k] != ';'
    requires forall k :: 0 <= k < |rest| ==> rest[k] != ';'
    ensures SplitOn(first + (";" + rest), ";") == [first, rest]
  {
    var s := first + (";" + rest);
    FindSkips(first, ";" + rest, ";");
    assert Find(s, ";") == Some(|first|);
    assert s[..|first|] == first && s[|first| + 1..] == rest;
    FindNowhere(rest, ';');
    assert SplitOn(rest, ";") == [rest];
  }

  lemma NoBoundaryInMedia(media: string, rest: seq<string>)
    requires IsToken(media)
    ensures BoundaryIn([media] + rest) == BoundaryIn(rest)
  {
    TrimOfTrimmed(media);
    FindNowhere(media, '=');
    assert ([media] + rest)[1..] == rest;
  }

  lemma BoundaryInParameter(name: string, b: string, quoted: bool)
    requires IsToken(name) && EqualsIgnoreCase(name, "boundary")
    requires IsBoundary(b) && (quoted || ' ' !in b)
    ensures BoundaryIn([" " + (name + "=" + BoundaryValue(b, quoted))]) == Some(b)
  {
    TokenParameter(name, BoundaryValue(b, quoted));
    assert IsBoundaryChar(b[0]) && IsBoundaryChar(b[|b| - 1]);
    TrimQuotesUndone(b, quoted);
  }

  lemma BoundaryFound(media: string, name: string, b: string, quoted: bool)
    requires IsToken(media) && IsToken(name) && EqualsIgnoreCase(name, "boundary")
    requires IsBoundary(b) && (quoted || ' ' !in b)
    ensures BoundaryIn(SplitOn(media + "; " + name + "=" + BoundaryValue(b, quoted), ";")) == Some(b)
  {
    var parameter := " " + (name + "=" + BoundaryValue(b, quoted));
    ContentTypeSplits(media, name, BoundaryValue(b, quoted));
    NoBoundaryInMedia(media, [parameter]);
    BoundaryInParameter(name, b, quoted);
    assert [media, parameter] == [media] + [parameter];
  }

  lemma BoundaryComesBack(b: string, quoted: bool)
    requires IsBoundary(b) && (quoted || ' ' !in b)
    ensures BoundaryIn(SplitOn(ContentType(b, quoted), ";")) == Some(b)
  {
    BoundaryFound("multipart/form-data", "boundary", b, quoted);
  }

  lemma RegroupParameter(media: string, name: string, value: string)
    ensures media + "; " + name + "=" + value == media + (";" + (" " + (name + "=" + value)))
  {
  }

  lemma NoSemicolonInParameter(name: string, value: string)
    requires IsToken(name) && forall k :: 0 <= k < |value| ==> value[k] != ';'
    ensures var s := " " + (name + "=" + value);
            forall k :: 0 <= k < |s| ==> s[k] != ';'
  {
  }

  lemma ContentTypeSplits(media: string, name: string, value: string)
    requires IsToken(media) && IsToken(name) && forall k :: 0 <= k < |value| ==> value[k] != ';'
    ensures SplitOn(media + "; " + name + "=" + value, ";") == [media, " " + (name + "=" + value)]
  {
    RegroupParameter(media, name, value);
    NoSemicolonInParameter(name, value);
    SplitsAtSemicolon(media, " " + (name + "=" + value));
  }

  // ---------- one part comes back ----------

  lemma {:induction false} UnescapeUndone(s: string)
    ensures Unescape(EscapeQuotes(s), false) == s
  {
    if s != "" {
      UnescapeUndone(s[1..]);
      var rest := EscapeQuotes(s[1..]);
      if s[0] == '"' || s[0] == '\\' {
        assert (['\\', s[0]] + rest)[1..] == [s[0]] + rest;
      }
      assert ([s[0]] + rest)[1..] == rest;
    }
  }

  lemma UnquoteUndone(s: string)
    ensures Unquote(Quote(s)) == s
  {
    TrimOfTrimmed(Quote(s));
    assert Quote(s)[1..|Quote(s)| - 1] == EscapeQuotes(s);
    UnescapeUndone(s);
  }

  lemma {:induction false} ScanPlain(run: string, rest: string, current: string)
    requires forall k :: 0 <= k < |run| ==> run[k] != ';' && run[k] != '"'
    ensures SplitParameters(run + rest, current, false, false) == SplitParameters(rest, current + run, false, false)
  {
    if run == "" {
      assert run + rest == rest && current + run == current;
    } else {
      assert (run + rest)[1..] == run[1..] + rest;
      ScanPlain(run[1..], rest, current + [run[0]]);
      assert current + [run[0]] + run[1..] == current + run;
    }
  }

  lemma ScanQuotedChar(c: char, rest: string, current: string)
    ensures SplitParameters(EscapedQuote(c) + rest, current, true, false)
            == SplitParameters(rest, current + EscapedQuote(c), true, false)
  {
    assert ([c] + rest)[1..] == rest;
    if c == '"' || c == '\\' {
      assert (['\\', c] + rest)[1..] == [c] + rest;
      assert SplitParameters(['\\', c] + rest, current, true, false)
             == SplitParameters([c] + rest, current + ['\\'], true, true);
      assert current + ['\\'] + [c] == current + ['\\', c];
    }
  }

  lemma {:induction false} ScanQuoted(s: string, rest: string, current: string)
    ensures SplitParameters(EscapeQuotes(s) + rest, current, true, false)
            == SplitParameters(rest, current + EscapeQuotes(s), true, false)
  {
    if s == "" {
      assert EscapeQuotes(s) + rest == rest && current + EscapeQuotes(s) == current;
    } else {
      var first, more := EscapedQuote(s[0]), EscapeQuotes(s[1..]);
      assert first + more + rest == first + (more + rest);
      ScanQuotedChar(s[0], more + rest, current);
      ScanQuoted(s[1..], rest, current + first);
      assert current + first + more == current + (first + more);
    }
  }

  /** A quoted string passes the scan whole, semicolons and all. */
  lemma ScanQuote(s: string, rest: string, current: string)
    ensures SplitParameters(Quote(s) + rest, current, false, false)
            == SplitParameters(rest, current + Quote(s), false, false)
  {
    var inner := EscapeQuotes(s);
    assert (Quote(s) + rest)[1..] == inner + ("\"" + rest);
    ScanQuoted(s, "\"" + rest, current + ['"']);
    assert ("\"" + rest)[1..] == rest;
    assert current + ['"'] + inner + ['"'] == current + Quote(s);
  }

  ghost predicate AllTokens(parameters: seq<Parameter>) {
    forall k :: 0 <= k < |parameters| ==> IsToken(parameters[k].name)
  }

  function ParameterTexts(parameters: seq<Parameter>): seq<string> {
    if parameters == [] then [] else [ParameterText(parameters[0])] + ParameterTexts(parameters[1..])
  }

  lemma ScanSemicolon(rest: string, current: string)
    ensures SplitParameters(";" + rest, current, false, false)
            == [Trim(current)] + SplitParameters(rest, "", false, false)
  {
  }

  lemma ScanNameAndValue(name: string, value: string, rest: string)
    requires IsToken(name)
    ensures SplitParameters(" " + name + "=" + (Quote(value) + rest), "", false, false)
            == SplitParameters(rest, " " + name + "=" + Quote(value), false, false)
  {
    var front := " " + name + "=";
    ScanPlain(front, Quote(value) + rest, "");
    assert "" + front == front;
    ScanQuote(value, rest, front);
  }

  lemma ScanParameter(p: Parameter, rest: string, current: string)
    requires IsToken(p.name)
    ensures SplitParameters("; " + ParameterText(p) + rest, current, false, false)
            == [Trim(current)] + SplitParameters(rest, " " + ParameterText(p), false, false)
  {
    var after := " " + p.name + "=" + (Quote(p.value) + rest);
    assert "; " + ParameterText(p) + rest == ";" + after;
    ScanSemicolon(after, current);
    ScanNameAndValue(p.name, p.value, rest);
    assert " " + p.name + "=" + Quote(p.value) == " " + ParameterText(p);
  }

  /** The scan finds exactly the parameters printed. */
  lemma {:induction false} ScanParameters(parameters: seq<Parameter>, current: string)
    requires AllTokens(parameters)
    ensures SplitParameters(ParameterList(parameters), current, false, false)
            == [Trim(current)] + ParameterTexts(parameters)
    decreases |parameters|
  {
    if parameters != [] {
      var p := parameters[0];
      ScanParameter(p, ParameterList(parameters[1..]), current);
      ScanParameters(parameters[1..], " " + ParameterText(p));
      TokenParameter(p.name, Quote(p.value));
    }
  }

  lemma FirstParameterReads(p: Parameter, texts: seq<string>)
    requires IsToken(p.name)
    ensures ParametersOf([ParameterText(p)] + texts) == [p] + ParametersOf(texts)
  {
    TokenParameter(p.name, Quote(p.value));
    UnquoteUndone(p.value);
    assert ([ParameterText(p)] + texts)[1..] == texts;
  }

  lemma {:induction false} ParametersComeBack(parameters: seq<Parameter>)
    requires AllTokens(parameters)
    ensures ParametersOf(ParameterTexts(parameters)) == parameters
  {
    if parameters != [] {
      ParametersComeBack(parameters[1..]);
      FirstParameterReads(parameters[0], ParameterTexts(parameters[1..]));
      assert parameters == [parameters[0]] + parameters[1..];
    }
  }

  lemma DispositionReads(type_: string, parameters: seq<Parameter>)
    requires IsToken(type_) && AllTokens(parameters)
    ensures ParametersOf(SplitParameters(type_ + ParameterList(parameters), "", false, false)[1..]) == parameters
  {
    ScanPlain(type_, ParameterList(parameters), "");
    assert "" + type_ == type_;
    ScanParameters(parameters, type_);
    assert ([Trim(type_)] + ParameterTexts(parameters))[1..] == ParameterTexts(parameters);
    ParametersComeBack(parameters);
  }

  lemma WhatParametersSay(p: FormPart)
    ensures AllTokens(ParametersFor(p))
    ensures NameIn(ParametersFor(p)) == Some(p.name)
    ensures NamesFile(ParametersFor(p)) <==> p.filename.Some?
  {
    if p.filename.Some? {
      assert ParametersFor(p)[1].name == "filename" || ParametersFor(p)[1].name == "filename*";
    }
  }

  lemma {:induction false} HeaderLinesComeBack(first: string, more: seq<string>)
    requires first != "" && OneLine(first) && HeaderLines(more)
    ensures Lines(HeaderBlock(first, more)) == [first] + more
    decreases |more|
  {
    if more == [] {
      FirstLineFeedAfter(first, "");
    } else {
      var rest := HeaderBlock(more[0], more[1..]);
      assert HeaderBlock(first, more) == (first + "\r") + "\n" + rest;
      LinesFrom(first + "\r", rest);
      HeaderLinesComeBack(more[0], more[1..]);
      assert more == [more[0]] + more[1..];
    }
  }

  lemma {:induction false} OtherHeadersAreSkipped(before: seq<string>, lines: seq<string>)
    requires OtherHeaders(before)
    ensures DispositionOf(before + lines) == DispositionOf(lines)
  {
    if before == [] {
      assert before + lines == lines;
    } else {
      assert (before + lines)[1..] == before[1..] + lines;
      OtherHeadersAreSkipped(before[1..], lines);
    }
  }

  lemma BlockLinesComeBack(before: seq<string>, disposition: string, more: seq<string>)
    requires HeaderLines(before) && HeaderLines(more) && disposition != "" && OneLine(disposition)
    ensures Lines(HeaderBlockOf(before, disposition, more)) == before + ([disposition] + more)
  {
    var lines := before + [disposition] + more;
    AllAreHeaderLines(before, disposition, more);
    SomeLinesComeBack(lines);
    SameLines(before, disposition, more);
  }

  lemma SameLines(before: seq<string>, disposition: string, more: seq<string>)
    ensures before + [disposition] + more == before + ([disposition] + more)
  {
  }

  lemma AllAreHeaderLines(before: seq<string>, disposition: string, more: seq<string>)
    requires HeaderLines(before) && HeaderLines(more) && disposition != "" && OneLine(disposition)
    ensures HeaderLines(before + [disposition] + more)
  {
  }

  lemma SomeLinesComeBack(lines: seq<string>)
    requires lines != [] && HeaderLines(lines)
    ensures Lines(HeaderBlock(lines[0], lines[1..])) == lines
  {
    HeaderLinesComeBack(lines[0], lines[1..]);
    assert lines == [lines[0]] + lines[1..];
  }

  lemma {:induction false} EscapedIsOneLine(s: string)
    requires OneLine(s)
    ensures OneLine(EscapeQuotes(s))
  {
    if s != "" {
      EscapedIsOneLine(s[1..]);
    }
  }

  lemma OneLineParts(a: string, b: string)
    ensures OneLine(a + b) <==> OneLine(a) && OneLine(b)
  {
    assert forall k :: 0 <= k < |a| ==> a[k] == (a + b)[k];
    assert forall k :: 0 <= k < |b| ==> b[k] == (a + b)[|a| + k];
  }

  lemma ParameterIsOneLine(p: Parameter)
    requires IsToken(p.name) && OneLine(p.value)
    ensures OneLine("; " + ParameterText(p))
  {
    EscapedIsOneLine(p.value);
  }

  ghost predicate OneLineValues(parameters: seq<Parameter>) {
    forall k :: 0 <= k < |parameters| ==> OneLine(parameters[k].value)
  }

  lemma {:induction false} ParametersAreOneLine(parameters: seq<Parameter>)
    requires AllTokens(parameters) && OneLineValues(parameters)
    ensures var text := ParameterList(parameters);
            OneLine(text) && (parameters != [] ==> text != "" && text[|text| - 1] == '"')
  {
    if parameters != [] {
      ParameterIsOneLine(parameters[0]);
      ParametersAreOneLine(parameters[1..]);
      OneLineParts("; " + ParameterText(parameters[0]), ParameterList(parameters[1..]));
    }
  }

  predicate IsTitle(title: string) {
    EqualsIgnoreCase(title, "content-disposition") && title[0] == 'C'
  }

  lemma TitleIsPlain(title: string)
    requires IsTitle(title)
    ensures OneLine(title) && ':' !in title && Trimmed(title) && title != ""
  {
  }

  lemma DispositionReadsBack(title: string, value: string, more: seq<string>)
    requires IsTitle(title) && Trimmed(value) && value != "" && OneLine(value)
    ensures DispositionOf([title + ": " + value] + more) == Some(value)
    ensures OneLine(title + ": " + value)
  {
    var first := title + ": " + value;
    TitleIsPlain(title);
    OneLineParts(title + ": ", value);
    assert title + [':'] + (" " + value) == first;
    SplitOnceAt(title, " " + value, ':');
    TrimOfTrimmed(title);
    TrimAfterSpace(value);
  }

  lemma HeaderFound(title: string, type_: string, parameters: seq<Parameter>, before: seq<string>, more: seq<string>)
    requires IsTitle(title) && OtherHeaders(before) && HeaderLines(more)
    requires IsToken(type_) && AllTokens(parameters) && OneLineValues(parameters) && parameters != []
    ensures var value := type_ + ParameterList(parameters);
            && DispositionOf(Lines(HeaderBlockOf(before, title + ": " + value, more))) == Some(value)
            && OneLine(title + ": " + value)
  {
    var value := type_ + ParameterList(parameters);
    ParametersAreOneLine(parameters);
    OneLineParts(type_, ParameterList(parameters));
    var first := title + ": " + value;
    DispositionReadsBack(title, value, more);
    BlockLinesComeBack(before, first, more);
    OtherHeadersAreSkipped(before, [first] + more);
  }

  /** The headers hold no blank line, so the first one is where the body starts. */
  lemma {:induction false} BlankLineAfterHeaders(first: string, more: seq<string>, body: string)
    requires OneLine(first) && HeaderLines(more)
    ensures Find(HeaderBlock(first, more) + BLANK_LINE + body, BLANK_LINE) == Some(|HeaderBlock(first, more)|)
    decreases |more|
  {
    if more == [] {
      FindSkips(first, BLANK_LINE + body, BLANK_LINE);
      assert first + BLANK_LINE + body == first + (BLANK_LINE + body);
    } else {
      var block := HeaderBlock(more[0], more[1..]);
      var rest := block + BLANK_LINE + body;
      assert HeaderLines(more[1..]);
      BlankLineAfterHeaders(more[0], more[1..], body);
      assert HeaderBlock(first, more) + BLANK_LINE + body == first + (CRLF + rest);
      FindSkips(first, CRLF + rest, BLANK_LINE);
      assert block[0] == more[0][0];
      LineBreakIsNoBlankLine(rest);
    }
  }

  lemma LineBreakIsNoBlankLine(rest: string)
    requires rest != "" && rest[0] != '\r'
    ensures Find(CRLF + rest, BLANK_LINE) == match Find(rest, BLANK_LINE) case None => None case Some(k) => Some(k + 2)
  {
    var s := CRLF + rest;
    assert s[2] == rest[0];
    assert s[1..] == "\n" + rest;
    FindSkips("\n", rest, BLANK_LINE);
  }

  lemma CrlfStripped(content: string)
    ensures StripCrlf(CRLF + content + CRLF) == content
  {
  }

  lemma ContentReads(headers: string, body: string)
    requires headers != "" && headers[0] != '-' && Find(headers + BLANK_LINE + body, BLANK_LINE) == Some(|headers|)
    ensures var parameters := DispositionParameters(headers);
            ReadPart(CRLF + (headers + BLANK_LINE + body) + CRLF)
            == Read(Part(NameIn(parameters), NamesFile(parameters), body))
  {
    var content := headers + BLANK_LINE + body;
    CrlfStripped(content);
    assert content[0] == headers[0];
    assert content[..|headers|] == headers && content[|headers| + 4..] == body;
  }

  /** The block of lines starts with the first of them and is followed by the first blank line. */
  lemma BlockEnds(before: seq<string>, disposition: string, more: seq<string>, body: string)
    requires OtherHeaders(before) && HeaderLines(more) && OneLine(disposition)
    requires disposition != "" && disposition[0] == 'C'
    ensures var headers := HeaderBlockOf(before, disposition, more);
            && headers != "" && headers[0] != '-' && headers[0] != '\r'
            && Find(headers + BLANK_LINE + body, BLANK_LINE) == Some(|headers|)
  {
    var lines := before + [disposition] + more;
    assert HeaderLines(lines[1..]) && lines[0] != "" && OneLine(lines[0]) && lines[0][0] != '-';
    BlankLineAfterHeaders(lines[0], lines[1..], body);
    assert HeaderBlockOf(before, disposition, more)[0] == lines[0][0];
  }

  lemma PartReadsAs(title: string, type_: string, parameters: seq<Parameter>, before: seq<string>, more: seq<string>,
                    body: string)
    requires IsTitle(title) && IsToken(type_) && OtherHeaders(before)
    requires AllTokens(parameters) && OneLineValues(parameters) && parameters != [] && HeaderLines(more)
    ensures var headers := HeaderBlockOf(before, title + ": " + (type_ + ParameterList(parameters)), more);
            ReadPart(CRLF + (headers + BLANK_LINE + body) + CRLF)
            == Read(Part(NameIn(parameters), NamesFile(parameters), body))
  {
    var disposition := title + ": " + (type_ + ParameterList(parameters));
    HeaderFound(title, type_, parameters, before, more);
    TitleIsPlain(title);
    BlockEnds(before, disposition, more, body);
    ContentReads(HeaderBlockOf(before, disposition, more), body);
    DispositionReads(type_, parameters);
  }

  lemma EncoderUsesPlainNames()
    ensures IsTitle("Content-Disposition") && IsToken("form-data") && IsToken("name")
    ensures IsToken("filename") && IsToken("filename*")
  {
  }

  lemma PartReads(p: FormPart)
    requires OneLineHeaders(p)
    ensures ReadPart(Piece(p)) == Read(Part(Some(p.name), p.filename.Some?, p.body))
  {
    WhatParametersSay(p);
    EncoderUsesPlainNames();
    assert OneLineValues(ParametersFor(p));
    PartReadsAs("Content-Disposition", "form-data", ParametersFor(p), p.before, p.headers, p.body);
  }

  // ---------- the whole form comes back ----------

  function PiecesOf(parts: seq<FormPart>): seq<string> {
    if parts == [] then ["--\r\n"] else [Piece(parts[0])] + PiecesOf(parts[1..])
  }

  lemma DelimiterNotInEnd(boundary: string)
    requires IsBoundary(boundary)
    ensures Find("--\r\n", "--" + boundary) == None
  {
    var d := "--" + boundary;
    assert d[0] == '-' && d[1] == '-' && d[2] == boundary[0];
    FindSkips("\r\n", "", d);
    assert "\r\n" + "" == "\r\n";
    assert Find("\r\n", d) == None;
    assert "--\r\n"[1..] == "-\r\n" && "-\r\n"[1..] == "\r\n";
    assert !(d <= "--\r\n") && !(d <= "-\r\n");
  }

  lemma DelimiterAfterContent(content: string, d: string, rest: string)
    requires d != "" && '\r' !in d && '\n' !in d && Find(content, d) == None
    ensures Find(CRLF + content + CRLF + (d + rest), d) == Some(|content| + 4)
  {
    assert CRLF + content + CRLF + (d + rest) == CRLF + (content + CRLF + (d + rest));
    FindSkips(CRLF, content + CRLF + (d + rest), d);
    FindAfter(content, CRLF, rest, d);
  }

  lemma SplitNext(piece: string, d: string, rest: string)
    requires d != "" && Find(piece + (d + rest), d) == Some(|piece|)
    ensures SplitOn(piece + (d + rest), d) == [piece] + SplitOn(rest, d)
  {
    var s, k := piece + (d + rest), |piece|;
    assert s[..k] == piece;
    assert s[k + |d|..] == (d + rest)[|d|..] == rest;
    assert SplitOn(s, d) == [s[..k]] + SplitOn(s[k + |d|..], d);
  }

  lemma {:induction false} TailSplits(parts: seq<FormPart>, boundary: string)
    requires IsBoundary(boundary) && AllEncodable(parts, "--" + boundary)
    ensures SplitOn(Tail(parts, "--" + boundary), "--" + boundary) == PiecesOf(parts)
  {
    var d := "--" + boundary;
    if parts == [] {
      DelimiterNotInEnd(boundary);
    } else {
      assert Encodable(parts[0], d) && AllEncodable(parts[1..], d);
      DelimiterAfterContent(Content(parts[0]), d, Tail(parts[1..], d));
      SplitNext(Piece(parts[0]), d, Tail(parts[1..], d));
      TailSplits(parts[1..], boundary);
    }
  }

  // ---------- exactly which forms come back ----------

  /** All parts that the pieces hold, or `None` when one is malformed. */
  function ReadAll(pieces: seq<string>): Option<seq<Part>> {
    if pieces == [] then Some([])
    else
      match ReadPart(pieces[0])
      case Skipped => ReadAll(pieces[1..])
      case Malformed => None
      case Read(part) =>
        match ReadAll(pieces[1..])
        case None => None
        case Some(rest) => Some([part] + rest)
  }

  predicate ShowsPart(field: Field, part: Part, c: Context) {
    && (part.name.Some? ==> field.name == part.name.value)
    && (part.isFile ==> field.value == FILE_OMITTED)
    && (!part.isFile && !c.enabled ==> field.value == part.body)
  }

  predicate Shows(fields: Option<seq<Field>>, read: Option<seq<Part>>, c: Context) {
    && (read.None? <==> fields.None?)
    && (read.Some? ==>
          && |fields.value| == |read.value|
          && forall k :: 0 <= k < |read.value| ==> ShowsPart(fields.value[k], read.value[k], c))
  }

  lemma PartIsShown(part: Part, index: nat, c: Context, m: Manifest)
    ensures ShowsPart(Field(NameOf(part, index, c), RedactPart(part, index, c, m).0), part, c)
  {
  }

  lemma ShowsOneMore(field: Field, part: Part, fields: seq<Field>, read: seq<Part>, c: Context)
    requires ShowsPart(field, part, c) && Shows(Some(fields), Some(read), c)
    ensures Shows(Some([field] + fields), Some([part] + read), c)
  {
  }

  /** What is read decides what is redacted: which fields there are, and with redaction off their values. */
  lemma {:induction false} FieldsAreOfPartsRead(pieces: seq<string>, index: nat, c: Context, m: Manifest)
    ensures Shows(RedactPieces(pieces, index, c, m).fields, ReadAll(pieces), c)
    decreases |pieces|
  {
    if pieces != [] {
      match ReadPart(pieces[0])
      case Skipped => FieldsAreOfPartsRead(pieces[1..], index + 1, c, m);
      case Malformed =>
      case Read(part) =>
        var (value, after) := RedactPart(part, index, c, m);
        var fields := RedactPieces(pieces[1..], index + 1, c, after).fields;
        FieldsAreOfPartsRead(pieces[1..], index + 1, c, after);
        PartIsShown(part, index, c, m);
        if fields.Some? {
          ShowsOneMore(Field(NameOf(part, index, c), value), part, fields.value, ReadAll(pieces[1..]).value, c);
        }
    }
  }

  /** The numbers of the pieces that are parts, when the first piece has number `index`. */
  function Numbers(pieces: seq<string>, index: nat): seq<nat> {
    if pieces == [] then []
    else (if ReadPart(pieces[0]).Read? then [index] else []) + Numbers(pieces[1..], index + 1)
  }

  ghost predicate Numbered(fields: Option<seq<Field>>, read: Option<seq<Part>>, numbers: seq<nat>, c: Context) {
    fields.Some? && read.Some? ==>
      && |fields.value| == |read.value| == |numbers|
      && forall k :: 0 <= k < |numbers| && read.value[k].name.None? ==>
                       fields.value[k].name == "part_" + c.digits(numbers[k])
  }

  lemma OneMoreIsNumbered(
    field: Field, part: Part, number: nat, fields: seq<Field>, read: seq<Part>, numbers: seq<nat>, c: Context)
    requires Numbered(Some(fields), Some(read), numbers, c)
    requires part.name.None? ==> field.name == "part_" + c.digits(number)
    ensures Numbered(Some([field] + fields), Some([part] + read), [number] + numbers, c)
  {
  }

  /** A part without a name is named after its piece, and pieces that are skipped count. */
  lemma {:induction false} UnnamedPartsAreNumbered(pieces: seq<string>, index: nat, c: Context, m: Manifest)
    ensures Numbered(RedactPieces(pieces, index, c, m).fields, ReadAll(pieces), Numbers(pieces, index), c)
    decreases |pieces|
  {
    if pieces != [] {
      match ReadPart(pieces[0])
      case Skipped => UnnamedPartsAreNumbered(pieces[1..], index + 1, c, m);
      case Malformed =>
      case Read(part) =>
        var (value, after) := RedactPart(part, index, c, m);
        var fields, read := RedactPieces(pieces[1..], index + 1, c, after).fields, ReadAll(pieces[1..]);
        UnnamedPartsAreNumbered(pieces[1..], index + 1, c, after);
        if fields.Some? && read.Some? {
          var field := Field(NameOf(part, index, c), value);
          OneMoreIsNumbered(field, part, index, fields.value, read.value, Numbers(pieces[1..], index + 1), c);
        }
    }
  }

  function PartOf(p: FormPart): Part {
    Part(Some(p.name), p.filename.Some?, p.body)
  }

  function PartsOf(parts: seq<FormPart>): seq<Part> {
    if parts == [] then [] else [PartOf(parts[0])] + PartsOf(parts[1..])
  }

  /** The first occurrence stays the first when more text follows. */
  lemma {:induction false} FindInFront(a: string, b: string, d: string)
    requires Find(a, d).Some?
    ensures Find(a + b, d) == Find(a, d)
  {
    assert (a + b)[..|d|] == a[..|d|];
    if !(d <= a) {
      assert (a + b)[1..] == a[1..] + b;
      FindInFront(a[1..], b, d);
    }
  }

  /** And in a beginning of the text it is found if it fits there. */
  lemma {:induction false} FindInPrefix(s: string, n: nat, d: string)
    requires n <= |s| && d != "" && Find(s, d).Some?
    ensures Find(s[..n], d) == if Find(s, d).value + |d| <= n then Find(s, d) else None
  {
    if n > 0 {
      assert s[..n][1..] == s[1..][..n - 1];
      assert d <= s[..n] ==> d <= s;
      if !(d <= s) {
        FindInPrefix(s[1..], n - 1, d);
      } else if n < |d| {
        NowhereIfShorter(s[..n], d);
      }
    }
  }

  lemma {:induction false} NowhereIfShorter(s: string, d: string)
    requires |s| < |d|
    ensures Find(s, d) == None
  {
    if s != "" {
      NowhereIfShorter(s[1..], d);
    }
  }

  lemma HeadersRead(p: FormPart)
    requires OneLineHeaders(p)
    ensures var parameters := DispositionParameters(Headers(p));
            NameIn(parameters) == Some(p.name) && NamesFile(parameters) == p.filename.Some?
    ensures Headers(p) != "" && Headers(p)[0] != '-' && Headers(p)[0] != '\r'
    ensures Find(Content(p), BLANK_LINE) == Some(|Headers(p)|)
  {
    HeadersStart(p);
    PartReads(p);
    ContentReads(Headers(p), p.body);
  }

  lemma HeadersStart(p: FormPart)
    requires OneLineHeaders(p)
    ensures Headers(p) != "" && Headers(p)[0] != '-' && Headers(p)[0] != '\r'
    ensures Find(Content(p), BLANK_LINE) == Some(|Headers(p)|)
  {
    WhatParametersSay(p);
    EncoderUsesPlainNames();
    assert OneLineValues(ParametersFor(p));
    HeaderFound("Content-Disposition", "form-data", ParametersFor(p), p.before, p.headers);
    BlockEnds(p.before, "Content-Disposition" + ": " + Disposition(p), p.headers, p.body);
  }

  /** What a reader makes of the beginning of a content. */
  lemma BeginningReads(headers: string, body: string, part: string)
    requires part <= headers + BLANK_LINE + body && part != ""
    requires Find(headers + BLANK_LINE + body, BLANK_LINE) == Some(|headers|)
    ensures var found := Find(part, BLANK_LINE);
            if |headers| + 4 <= |part| then
              found == Some(|headers|) && part[..|headers|] == headers && part[|headers| + 4..] <= body
            else found == None
  {
    var content := headers + BLANK_LINE + body;
    FindInPrefix(content, |part|, BLANK_LINE);
    assert part == content[..|part|];
    if |headers| + 4 <= |part| {
      assert part[..|headers|] == headers;
      assert part[|headers| + 4..] == body[..|part| - |headers| - 4];
    }
  }

  /** A content that was cut is malformed, or read with less of its body. */
  lemma CutContentReads(p: FormPart, n: nat)
    requires OneLineHeaders(p) && 0 < n < |Content(p)|
    ensures var reading := ReadPart(CRLF + Content(p)[..n]);
            reading.Malformed? || (reading.Read? && Cut(reading.part, p))
  {
    var headers := Headers(p);
    HeadersRead(p);
    StrippedCut(Content(p), n);
    BeginningReads(headers, p.body, StripCrlf(CRLF + Content(p)[..n]));
  }

  lemma StrippedCut(content: string, n: nat)
    requires 0 < n < |content| && content[0] != '\r'
    ensures var part := StripCrlf(CRLF + content[..n]);
            0 < |part| <= n && part == content[..|part|]
  {
    assert (CRLF + content[..n])[2..] == content[..n];
  }

  /** The part as it was encoded, but with a shorter body. */
  predicate Cut(part: Part, p: FormPart) {
    part.name == Some(p.name) && part.isFile == p.filename.Some? && |part.body| < |p.body|
  }

  ghost predicate CutSomewhere(read: seq<Part>, parts: seq<FormPart>) {
    exists k: nat :: k < |read| && k < |parts| && Cut(read[k], parts[k])
  }

  lemma {:induction false} CutIsAnother(read: seq<Part>, parts: seq<FormPart>, k: nat)
    requires k < |read| && k < |parts| && Cut(read[k], parts[k])
    ensures read != PartsOf(parts)
  {
    if k > 0 {
      CutIsAnother(read[1..], parts[1..], k - 1);
      assert PartsOf(parts)[1..] == PartsOf(parts[1..]);
    }
  }

  /** A part that holds the delimiter is split there. */
  lemma BrokenPartSplits(content: string, d: string, rest: string)
    requires d != "" && '\r' !in d && '\n' !in d && Find(content, d).Some?
    ensures var pieces := SplitOn(CRLF + content + CRLF + (d + rest), d);
            pieces[0] == CRLF + content[..Find(content, d).value]
  {
    var k := Find(content, d).value;
    var s := CRLF + content + CRLF + (d + rest);
    assert s == CRLF + (content + (CRLF + (d + rest)));
    FindInFront(content, CRLF + (d + rest), d);
    FindSkips(CRLF, content + (CRLF + (d + rest)), d);
    assert s[..2 + k] == CRLF + content[..k];
  }

  lemma FirstPieceDecides(pieces: seq<string>, p: FormPart)
    requires pieces != []
    requires var reading := ReadPart(pieces[0]); reading.Malformed? || (reading.Read? && Cut(reading.part, p))
    ensures var read := ReadAll(pieces);
            read.None? || (read.value != [] && Cut(read.value[0], p))
  {
  }

  lemma BrokenPartReads(p: FormPart, d: string, rest: string)
    requires OneLineHeaders(p) && |d| > 0 && d[0] == '-' && '\r' !in d && '\n' !in d
    requires Find(Content(p), d).Some?
    ensures var read := ReadAll(SplitOn(Piece(p) + (d + rest), d));
            read.None? || (read.value != [] && Cut(read.value[0], p))
  {
    HeadersRead(p);
    assert Content(p)[0] == Headers(p)[0];
    BrokenPartSplits(Content(p), d, rest);
    CutContentReads(p, Find(Content(p), d).value);
    FirstPieceDecides(SplitOn(Piece(p) + (d + rest), d), p);
  }

  lemma WholePartReads(p: FormPart, boundary: string, rest: string)
    requires IsBoundary(boundary) && Encodable(p, "--" + boundary)
    ensures var d := "--" + boundary;
            ReadAll(SplitOn(Piece(p) + (d + rest), d))
            == match ReadAll(SplitOn(rest, d)) case None => None case Some(parts) => Some([PartOf(p)] + parts)
  {
    var d := "--" + boundary;
    DelimiterAfterContent(Content(p), d, rest);
    SplitNext(Piece(p), d, rest);
    PartReads(p);
    assert ([Piece(p)] + SplitOn(rest, d))[1..] == SplitOn(rest, d);
  }

  lemma {:induction false} TailReads(parts: seq<FormPart>, boundary: string)
    requires IsBoundary(boundary) && AllOneLineHeaders(parts)
    ensures var d := "--" + boundary;
            var read := ReadAll(SplitOn(Tail(parts, d), d));
            if AllEncodable(parts, d) then read == Some(PartsOf(parts))
            else read.None? || CutSomewhere(read.value, parts)
  {
    var d := "--" + boundary;
    if parts == [] {
      DelimiterNotInEnd(boundary);
      EndIsSkipped();
    } else {
      var rest := parts[1..];
      assert OneLineHeaders(parts[0]) && AllOneLineHeaders(rest);
      if Find(Content(parts[0]), d) == None {
        WholePartReads(parts[0], boundary, Tail(rest, d));
        TailReads(rest, boundary);
        AllEncodableStep(parts, d);
        CutLater(ReadAll(SplitOn(Tail(rest, d), d)), parts);
      } else {
        BrokenPartReads(parts[0], d, Tail(rest, d));
      }
    }
  }

  lemma AllEncodableStep(parts: seq<FormPart>, d: string)
    requires parts != [] && Encodable(parts[0], d)
    ensures AllEncodable(parts, d) <==> AllEncodable(parts[1..], d)
  {
    assert forall k :: 1 <= k < |parts| ==> parts[k] == parts[1..][k - 1];
  }

  lemma CutLater(read: Option<seq<Part>>, parts: seq<FormPart>)
    requires parts != []
    ensures read.Some? && CutSomewhere(read.value, parts[1..]) ==> CutSomewhere([PartOf(parts[0])] + read.value, parts)
  {
    if read.Some? && CutSomewhere(read.value, parts[1..]) {
      var k: nat :| k < |read.value| && k < |parts[1..]| && Cut(read.value[k], parts[1..][k]);
      assert Cut(([PartOf(parts[0])] + read.value)[k + 1], parts[k + 1]);
    }
  }

  /** An encoded form is read as it was written exactly when no part holds the delimiter anywhere. */
  lemma FormIsReadIff(parts: seq<FormPart>, boundary: string)
    requires IsBoundary(boundary) && AllOneLineHeaders(parts)
    ensures var d := "--" + boundary;
            ReadAll(SplitOn(Encode(parts, boundary), d)[1..]) == Some(PartsOf(parts)) <==> AllEncodable(parts, d)
  {
    var d := "--" + boundary;
    EncodedSplits(parts, boundary);
    TailReads(parts, boundary);
    var read := ReadAll(SplitOn(Tail(parts, d), d));
    if !AllEncodable(parts, d) && read.Some? {
      var k: nat :| k < |read.value| && k < |parts| && Cut(read.value[k], parts[k]);
      CutIsAnother(read.value, parts, k);
    }
  }

  lemma EncodedSplits(parts: seq<FormPart>, boundary: string)
    ensures var d := "--" + boundary;
            SplitOn(Encode(parts, boundary), d)[1..] == SplitOn(Tail(parts, d), d)
  {
    var d, s := "--" + boundary, Encode(parts, boundary);
    assert s[|d|..] == Tail(parts, d) && Find(s, d) == Some(0);
  }

  function PlainFields(parts: seq<FormPart>): seq<Field> {
    if parts == [] then [] else [Field(parts[0].name, parts[0].body)] + PlainFields(parts[1..])
  }

  lemma {:induction false} PlainFieldsAt(parts: seq<FormPart>)
    ensures |PlainFields(parts)| == |parts| == |PartsOf(parts)|
    ensures forall k :: 0 <= k < |parts| ==>
              PlainFields(parts)[k] == Field(parts[k].name, parts[k].body) && PartsOf(parts)[k] == PartOf(parts[k])
  {
    if parts != [] {
      PlainFieldsAt(parts[1..]);
    }
  }

  /**
    With redaction off, a form without files yields its names and bodies exactly when no part
    holds the delimiter anywhere. (The content of a file is dropped either way.)
   */
  lemma PlainFormComesBackIff(parts: seq<FormPart>, boundary: string, quoted: bool, c: Context, m: Manifest)
    requires IsBoundary(boundary) && (quoted || ' ' !in boundary) && AllOneLineHeaders(parts)
    requires !c.enabled && forall k :: 0 <= k < |parts| ==> parts[k].filename.None?
    ensures Redacted(Encode(parts, boundary), ContentType(boundary, quoted), c, m).fields == Some(PlainFields(parts))
            <==> AllEncodable(parts, "--" + boundary)
  {
    var d := "--" + boundary;
    var pieces := SplitOn(Tail(parts, d), d);
    BoundaryComesBack(boundary, quoted);
    EncodedSplits(parts, boundary);
    TailReads(parts, boundary);
    FieldsAreOfPartsRead(pieces, 1, c, m);
    FieldsTell(parts, ReadAll(pieces), RedactPieces(pieces, 1, c, m).fields, c, AllEncodable(parts, d));
  }

  lemma {:induction false} FieldsTell(
    parts: seq<FormPart>, read: Option<seq<Part>>, fields: Option<seq<Field>>, c: Context, whole: bool)
    requires !c.enabled && forall k :: 0 <= k < |parts| ==> parts[k].filename.None?
    requires if whole then read == Some(PartsOf(parts)) else read.None? || CutSomewhere(read.value, parts)
    requires Shows(fields, read, c)
    ensures fields == Some(PlainFields(parts)) <==> whole
  {
    PlainFieldsAt(parts);
    if whole {
      assert fields.value == PlainFields(parts);
    } else if read.Some? {
      var k: nat :| k < |read.value| && k < |parts| && Cut(read.value[k], parts[k]);
      assert fields.value[k].value != parts[k].body;
    }
  }

  lemma FirstDelimiterSplits(break_: string, content: string, tab: string, d: string, rest: string)
    requires d != "" && tab != "" && Find(content, d) == None
    requires (forall k :: 0 <= k < |tab| ==> tab[k] !in d) && (forall k :: 0 <= k < |break_| ==> break_[k] != d[0])
    ensures SplitOn(break_ + content + tab + (d + rest), d) == [break_ + content + tab] + SplitOn(rest, d)
  {
    var first := break_ + content + tab;
    assert first + (d + rest) == break_ + (content + tab + (d + rest));
    FindSkips(break_, content + tab + (d + rest), d);
    FindAfter(content, tab, rest, d);
    SplitNext(first, d, rest);
  }

  lemma NextDelimiterSplits(text: string, d: string, end: string)
    requires d != "" && forall k :: 0 <= k < |text| ==> text[k] != d[0]
    ensures SplitOn(text + (d + end), d) == [text] + SplitOn(end, d)
  {
    FindSkips(text, d + end, d);
    SplitNext(text, d, end);
  }

  lemma RegroupMiddle(break_: string, content: string, tab: string, d: string, text: string, rest: string)
    ensures break_ + (content + tab + d + text) + break_ + rest
            == break_ + content + tab + (d + ((text + break_) + rest))
  {
  }

  lemma MiddleDelimiterSplits(content: string, boundary: string, end: string)
    requires IsBoundary(boundary) && Find(content, "--" + boundary) == None
    ensures var d := "--" + boundary;
            var pieces := SplitOn(CRLF + (content + "\t" + d + "y") + CRLF + (d + end), d);
            |pieces| >= 2 && pieces[1] == "y" + CRLF
  {
    var d := "--" + boundary;
    assert d[0] == '-' && '\t' !in d;
    RegroupMiddle(CRLF, content, "\t", d, "y", d + end);
    FirstDelimiterSplits(CRLF, content, "\t", d, ("y" + CRLF) + (d + end));
    NextDelimiterSplits("y" + CRLF, d, end);
  }

  lemma MalformedSecondPiece(pieces: seq<string>, index: nat, c: Context, m: Manifest)
    requires |pieces| >= 2 && ReadPart(pieces[1]) == Malformed
    ensures RedactPieces(pieces, index, c, m).fields == None
  {
    assert pieces[1..][0] == pieces[1];
  }

  lemma StrayTextIsMalformed()
    ensures ReadPart("y" + CRLF) == Malformed
  {
    FindSkips("y", "", BLANK_LINE);
    assert "y" + "" == "y";
  }

  function Broken(p: FormPart, d: string): FormPart {
    p.(body := p.body + "\t" + d + "y")
  }

  lemma BrokenTail(p: FormPart, d: string)
    ensures Tail([Broken(p, d)], d) == CRLF + (Content(p) + "\t" + d + "y") + CRLF + (d + "--\r\n")
  {
    var broken := Broken(p, d);
    assert Headers(broken) == Headers(p);
    assert Content(broken) == Content(p) + "\t" + d + "y";
    assert Tail([broken][1..], d) == "--\r\n";
  }

  lemma TailFollows(d: string, tail: string)
    requires d != ""
    ensures SplitOn(d + tail, d) != [] && SplitOn(d + tail, d)[1..] == SplitOn(tail, d)
  {
    assert d <= d + tail && Find(d + tail, d) == Some(0) && (d + tail)[|d|..] == tail;
  }

  /** A delimiter inside a line, which section 5.1.1 allows, makes the reader give the form up. */
  lemma MiddleDelimiterFails(p: FormPart, boundary: string, quoted: bool, c: Context, m: Manifest)
    requires IsBoundary(boundary) && (quoted || ' ' !in boundary) && Encodable(p, "--" + boundary)
    ensures var broken := p.(body := p.body + "\t" + ("--" + boundary) + "y");
            Redacted(Encode([broken], boundary), ContentType(boundary, quoted), c, m).fields == None
  {
    var d := "--" + boundary;
    var tail := Tail([Broken(p, d)], d);
    BrokenTail(p, d);
    MiddleDelimiterSplits(Content(p), boundary, "--\r\n");
    StrayTextIsMalformed();
    BoundaryComesBack(boundary, quoted);
    TailFollows(d, tail);
    MalformedSecondPiece(SplitOn(tail, d), 1, c, m);
  }

  /** Field by field, without any parsing. */
  function RedactForm(parts: seq<FormPart>, index: nat, c: Context, m: Manifest): (seq<Field>, Manifest) {
    if parts == [] then ([], m)
    else
      var p := parts[0];
      var (value, between) := RedactPart(Part(Some(p.name), p.filename.Some?, p.body), index, c, m);
      var (rest, after) := RedactForm(parts[1..], index + 1, c, between);
      ([Field(p.name, value)] + rest, after)
  }

  lemma EndIsSkipped()
    ensures ReadPart("--\r\n") == Skipped
  {
  }

  lemma {:induction false} PiecesRedact(parts: seq<FormPart>, boundary: string, index: nat, c: Context, m: Manifest)
    requires AllEncodable(parts, "--" + boundary)
    ensures var (fields, after) := RedactForm(parts, index, c, m);
            RedactPieces(PiecesOf(parts), index, c, m) == Outcome(Some(fields), after)
    decreases |parts|
  {
    var pieces := PiecesOf(parts);
    if parts == [] {
      EndIsSkipped();
      assert pieces[1..] == [];
    } else {
      var p := parts[0];
      assert Encodable(p, "--" + boundary);
      PartReads(p);
      assert pieces[1..] == PiecesOf(parts[1..]);
      assert AllEncodable(parts[1..], "--" + boundary);
      PiecesRedact(parts[1..], boundary, index + 1, c,
        RedactPart(Part(Some(p.name), p.filename.Some?, p.body), index, c, m).1);
    }
  }

  /** Reading an encoded form redacts its fields one by one, in order, under their own names. */
  lemma EncodedFormIsReadBack(parts: seq<FormPart>, boundary: string, quoted: bool, c: Context, m: Manifest)
    requires IsBoundary(boundary) && (quoted || ' ' !in boundary)
    requires AllEncodable(parts, "--" + boundary)
    ensures var (fields, after) := RedactForm(parts, 1, c, m);
            Redacted(Encode(parts, boundary), ContentType(boundary, quoted), c, m) == Outcome(Some(fields), after)
  {
    var d := "--" + boundary;
    BoundaryComesBack(boundary, quoted);
    var s := Encode(parts, boundary);
    assert s[|d|..] == Tail(parts, d);
    assert Find(s, d) == Some(0);
    TailSplits(parts, boundary);
    assert SplitOn(s, d)[1..] == PiecesOf(parts);
    PiecesRedact(parts, boundary, 1, c, m);
  }

  /** What comes out for one part, by its name and whether it is a file. */
  ghost predicate ValueFor(p: FormPart, value: string, c: Context) {
    if p.filename.Some? then value == FILE_OMITTED
    else if c.detectors.sensitive(p.name) then value == if c.enabled then REDACTED_FIELD else p.body
    else TextComesOut(p.body, value, c.location + "." + p.name, c.enabled, c.detectors)
  }

  /**
    Names stay in order; files never show; sensitive fields show only with redaction off; any
    other body is a marker when a secret was detected, and comes out as it is otherwise.
   */
  lemma {:induction false} FormFields(parts: seq<FormPart>, index: nat, c: Context, m: Manifest)
    ensures var fields := RedactForm(parts, index, c, m).0;
            && |fields| == |parts|
            && forall k :: 0 <= k < |parts| ==>
                 fields[k].name == parts[k].name && ValueFor(parts[k], fields[k].value, c)
    decreases |parts|
  {
    if parts != [] {
      var p := parts[0];
      var (value, between) := RedactPart(PartOf(p), index, c, m);
      DetectedTextDoesNotShow(p.body, p.body, c.location + "." + p.name, c.enabled, c.detectors, m);
      assert ValueFor(p, value, c);
      FormFields(parts[1..], index + 1, c, between);
    }
  }

  /** Parts that no reader of the result is to tell apart. */
  ghost predicate PartsAlike(p: FormPart, q: FormPart, d: Detectors) {
    && p.name == q.name && (p.filename.Some? <==> q.filename.Some?)
    && (p.filename.Some? || d.sensitive(p.name) || Alike(p.body, q.body, d))
  }

  /** With redaction on, files, sensitive fields and detected secrets leave no trace of their content. */
  lemma {:induction false} HiddenPartsDoNotShow(a: seq<FormPart>, b: seq<FormPart>, index: nat, c: Context, m: Manifest)
    requires c.enabled && |a| == |b|
    requires forall k :: 0 <= k < |a| ==> PartsAlike(a[k], b[k], c.detectors)
    ensures RedactForm(a, index, c, m) == RedactForm(b, index, c, m)
    decreases |a|
  {
    if a != [] {
      assert PartsAlike(a[0], b[0], c.detectors);
      DetectedTextDoesNotShow(a[0].body, b[0].body, c.location + "." + a[0].name, true, c.detectors, m);
      assert RedactPart(PartOf(a[0]), index, c, m) == RedactPart(PartOf(b[0]), index, c, m);
      assert forall k :: 0 <= k < |a| - 1 ==> a[1..][k] == a[k + 1] && b[1..][k] == b[k + 1];
      HiddenPartsDoNotShow(a[1..], b[1..], index + 1, c, RedactPart(PartOf(a[0]), index, c, m).1);
    }
  }

  // ---------- what the manifest says of a form ----------

  function FilePlaces(parts: seq<FormPart>, c: Context): seq<string> {
    if parts == [] then []
    else
      (if parts[0].filename.Some? then [c.location + "." + parts[0].name] else []) + FilePlaces(parts[1..], c)
  }

  /** How often a part counts as a redaction of this location and kind. */
  function FoundInPart(p: FormPart, c: Context, l: string, k: string): nat {
    var place := c.location + "." + p.name;
    if p.filename.Some? then 0
    else if c.detectors.sensitive(p.name) then if place == l && k == "sensitive_field" then 1 else 0
    else FoundInText(p.body, place, c.detectors, l, k)
  }

  function FoundInForm(parts: seq<FormPart>, c: Context, l: string, k: string): nat {
    if parts == [] then 0 else FoundInPart(parts[0], c, l, k) + FoundInForm(parts[1..], c, l, k)
  }

  lemma PartIsCounted(p: FormPart, index: nat, c: Context, m: Manifest, l: string, k: string, exactly: bool)
    requires c.enabled && ScannerKeeps(c.detectors, l, k, exactly)
    ensures var after := RedactPart(PartOf(p), index, c, m).1;
            Grows(CountOf(m.redactions, l, k), CountOf(after.redactions, l, k), FoundInPart(p, c, l, k), exactly)
  {
    var place := c.location + "." + p.name;
    TextIsCounted(p.body, place, c.detectors, m, l, k, exactly);
    RecordedCounts(m.redactions, place, "sensitive_field", l, k);
  }

  /** The count for every location and kind grows by exactly the hidden fields and detected bodies there. */
  lemma {:induction false} FormIsCounted(parts: seq<FormPart>, index: nat, c: Context, m: Manifest,
                                         l: string, k: string, exactly: bool)
    requires c.enabled && ScannerKeeps(c.detectors, l, k, exactly)
    ensures var after := RedactForm(parts, index, c, m).1;
            Grows(CountOf(m.redactions, l, k), CountOf(after.redactions, l, k), FoundInForm(parts, c, l, k), exactly)
    decreases |parts|
  {
    if parts != [] {
      PartIsCounted(parts[0], index, c, m, l, k, exactly);
      FormIsCounted(parts[1..], index + 1, c, RedactPart(PartOf(parts[0]), index, c, m).1, l, k, exactly);
    }
  }

  /** A part that `x` names, when it is sent openly. */
  predicate NamesPart(p: FormPart, c: Context, x: Disclosure) {
    var place := c.location + "." + p.name;
    if p.filename.Some? then false
    else if c.detectors.sensitive(p.name) then x == SensitiveField(place)
    else x.DetectedValue? && x.location == place && c.detectors.kind(p.body) == Some(x.kind)
  }

  /** With redaction off every file is on the list of omissions, in order, and every secret sent is disclosed. */
  lemma {:induction false} FormIsDisclosed(parts: seq<FormPart>, index: nat, c: Context, m: Manifest, x: Disclosure)
    requires !c.enabled
    ensures var after := RedactForm(parts, index, c, m).1;
            && after.redactions == m.redactions && after.omissions == m.omissions + FilePlaces(parts, c)
            && (x in after.disclosures <==>
                  x in m.disclosures || exists k :: 0 <= k < |parts| && NamesPart(parts[k], c, x))
    decreases |parts|
  {
    if parts == [] {
      assert m.omissions + [] == m.omissions;
    } else {
      var p := parts[0];
      var between := RedactPart(PartOf(p), index, c, m).1;
      TextIsDisclosed(p.body, c.location + "." + p.name, c.detectors, m, x);
      assert x in between.disclosures <==> x in m.disclosures || NamesPart(p, c, x);
      FormIsDisclosed(parts[1..], index + 1, c, between, x);
      Regroup(m.omissions, if p.filename.Some? then [c.location + "." + p.name] else [], FilePlaces(parts[1..], c));
      assert forall k :: 1 <= k < |parts| ==> parts[k] == parts[1..][k - 1];
      assert forall k :: 0 <= k < |parts| - 1 ==> parts[1..][k] == parts[k + 1];
    }
  }

  /** Every file is on the list of omissions, in order, and nothing else but what the text scanner puts there. */
  lemma {:induction false} FilesAreOmitted(parts: seq<FormPart>, index: nat, c: Context, m: Manifest)
    requires forall text, location, n :: c.detectors.fallback(text, location, n).1.omissions == n.omissions
    ensures RedactForm(parts, index, c, m).1.omissions == m.omissions + FilePlaces(parts, c)
    decreases |parts|
  {
    if parts == [] {
      assert m.omissions + [] == m.omissions;
    } else {
      var p := parts[0];
      FilesAreOmitted(parts[1..], index + 1, c, RedactPart(PartOf(p), index, c, m).1);
      Regroup(m.omissions, if p.filename.Some? then [c.location + "." + p.name] else [], FilePlaces(parts[1..], c));
    }
  }
}
