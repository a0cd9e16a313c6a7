/** Reading a multipart form and redacting its fields. */
module Multipart {
  import opened Wrappers
  import opened Text
  import opened RedactionManifest

  // ---------- searching ----------

  /** The first place where `d` occurs in `s`. */
  function Find(s: string, d: string): (k: Option<nat>)
    ensures k.Some? ==> k.value + |d| <= |s|
  {
    if d <= s then Some(0)
    else if s == "" then None
    else
      match Find(s[1..], d)
      case None => None
      case Some(k) => Some(k + 1)
  }

  function SplitOn(s: string, d: string): (pieces: seq<string>)
    requires d != ""
    ensures pieces != []
    decreases |s|
  {
    match Find(s, d)
    case None => [s]
    case Some(k) => [s[..k]] + SplitOn(s[k + |d|..], d)
  }

  function Lower(c: char): char {
    if 'A' <= c <= 'Z' then c + 32 as char else c
  }

  function LowerCase(s: string): string {
    if s == "" then "" else [Lower(s[0])] + LowerCase(s[1..])
  }

  predicate EqualsIgnoreCase(a: string, b: string) {
    |a| == |b| && forall k :: 0 <= k < |a| ==> Lower(a[k]) == Lower(b[k])
  }

  const CRLF := "\r\n"
  const BLANK_LINE := "\r\n\r\n"

  // ---------- header parameters ----------

  /** The scan of `split_header_parameters`, which sees a semicolon only outside quoted strings. */
  function SplitParameters(s: string, current: string, quoted: bool, escaped: bool): (pieces: seq<string>)
    ensures pieces != []
  {
    if s == "" then [Trim(current)]
    else
      var c, rest := s[0], s[1..];
      if escaped then SplitParameters(rest, current + [c], quoted, false)
      else if c == '\\' && quoted then SplitParameters(rest, current + [c], quoted, true)
      else if c == '"' then SplitParameters(rest, current + [c], !quoted, false)
      else if c == ';' && !quoted then [Trim(current)] + SplitParameters(rest, "", quoted, false)
      else SplitParameters(rest, current + [c], quoted, false)
  }

  method SplitHeaderParameters(value: string) returns (pieces: seq<string>)
    ensures pieces == SplitParameters(value, "", false, false)
  {
    pieces := [];
    var current := "";
    var quoted, escaped := false, false;
    assert value[0..] == value;
    for i := 0 to |value|
      invariant SplitParameters(value, "", false, false)
                == pieces + SplitParameters(value[i..], current, quoted, escaped)
    {
      var c := value[i];
      assert value[i..][1..] == value[i + 1..];
      if escaped {
        current := current + [c];
        escaped := false;
      } else if c == '\\' && quoted {
        current := current + [c];
        escaped := true;
      } else if c == '"' {
        quoted := !quoted;
        current := current + [c];
      } else if c == ';' && !quoted {
        pieces := pieces + [Trim(current)];
        current := "";
      } else {
        current := current + [c];
      }
    }
    pieces := pieces + [Trim(current)];
  }

  /** A backslash takes the next character as it is, and one at the very end stays. */
  function Unescape(s: string, escaped: bool): string {
    if s == "" then if escaped then "\\" else ""
    else if escaped then [s[0]] + Unescape(s[1..], false)
    else if s[0] == '\\' then Unescape(s[1..], true)
    else [s[0]] + Unescape(s[1..], false)
  }

  function Unquote(value: string): string {
    var v := Trim(value);
    if |v| >= 2 && v[0] == '"' && v[|v| - 1] == '"' then Unescape(v[1..|v| - 1], false) else v
  }

  method UnquoteHeaderParameter(value: string) returns (text: string)
    ensures text == Unquote(value)
  {
    var v := Trim(value);
    if |v| >= 2 && v[0] == '"' && v[|v| - 1] == '"' {
      text := UnescapeInner(v[1..|v| - 1]);
    } else {
      text := v;
    }
  }

  method UnescapeInner(inner: string) returns (text: string)
    ensures text == Unescape(inner, false)
  {
    text := "";
    var escaped := false;
    assert inner[0..] == inner;
    for i := 0 to |inner|
      invariant Unescape(inner, false) == text + Unescape(inner[i..], escaped)
    {
      assert inner[i..][1..] == inner[i + 1..];
      if escaped {
        text := text + [inner[i]];
        escaped := false;
      } else if inner[i] == '\\' {
        escaped := true;
      } else {
        text := text + [inner[i]];
      }
    }
    if escaped {
      text := text + "\\";
    }
  }

  datatype Parameter = Parameter(name: string, value: string)

  /** Name and value around the first occurrence of `c`. */
  function SplitOnce(s: string, c: char): Option<Parameter> {
    match Find(s, [c])
    case None => None
    case Some(k) => Some(Parameter(s[..k], s[k + 1..]))
  }

  function ParametersOf(pieces: seq<string>): seq<Parameter> {
    if pieces == [] then []
    else
      var rest := ParametersOf(pieces[1..]);
      match SplitOnce(pieces[0], '=')
      case None => rest
      case Some(p) =>
        if Trim(p.name) == "" then rest else [Parameter(LowerCase(Trim(p.name)), Unquote(p.value))] + rest
  }

  /** The trimmed value of the first line that is a Content-Disposition header. */
  function DispositionOf(lines: seq<string>): Option<string> {
    if lines == [] then None
    else
      match SplitOnce(lines[0], ':')
      case None => DispositionOf(lines[1..])
      case Some(p) =>
        if EqualsIgnoreCase(Trim(p.name), "content-disposition") then Some(Trim(p.value)) else DispositionOf(lines[1..])
  }

  function DispositionParameters(headers: string): seq<Parameter> {
    match DispositionOf(Lines(headers))
    case None => []
    case Some(value) => ParametersOf(SplitParameters(value, "", false, false)[1..])
  }

  // ---------- the parts ----------

  datatype Field = Field(name: string, value: string)

  /** What a part turns out to be. */
  datatype Part = Part(name: Option<string>, isFile: bool, body: string)

  datatype Reading = Skipped | Malformed | Read(part: Part)

  function StripCrlf(raw: string): string {
    var part := if CRLF <= raw then raw[2..] else raw;
    if |part| >= 2 && part[|part| - 2..] == CRLF then part[..|part| - 2] else part
  }

  function NameIn(parameters: seq<Parameter>): Option<string> {
    if parameters == [] then None
    else if parameters[0].name == "name" then Some(parameters[0].value)
    else NameIn(parameters[1..])
  }

  predicate NamesFile(parameters: seq<Parameter>) {
    exists i :: 0 <= i < |parameters| && (parameters[i].name == "filename" || parameters[i].name == "filename*")
  }

  /** One piece between delimiters. */
  function ReadPart(raw: string): Reading {
    var part := StripCrlf(raw);
    if part == "" || part == "--" || "--\r\n" <= part then Skipped
    else
      match Find(part, BLANK_LINE)
      case None => Malformed
      case Some(k) =>
        var parameters := DispositionParameters(part[..k]);
        Read(Part(NameIn(parameters), NamesFile(parameters), part[k + 4..]))
  }

  datatype Context = Context(location: string, enabled: bool, detectors: Detectors, digits: nat -> string)

  const FILE_OMITTED := "[OMITTED:file_content]"

  function NameOf(part: Part, index: nat, c: Context): string {
    part.name.GetOr("part_" + c.digits(index))
  }

  /** The value that goes into the prompt for one part. */
  function RedactPart(part: Part, index: nat, c: Context, m: Manifest): (string, Manifest) {
    var name := NameOf(part, index, c);
    var place := c.location + "." + name;
    if part.isFile then (FILE_OMITTED, m.Omit(place))
    else if c.detectors.sensitive(name) then
      if c.enabled then (REDACTED_FIELD, m.Record(place, "sensitive_field"))
      else (part.body, m.Disclose(SensitiveField(place)))
    else RedactOrDisclose(part.body, place, c.enabled, c.detectors, m)
  }

  datatype Outcome = Outcome(fields: Option<seq<Field>>, manifest: Manifest) {

    function Behind(done: seq<Field>): Outcome {
      match fields
      case None => this
      case Some(rest) => this.(fields := Some(done + rest))
    }
  }

  /** The loop of `redact_multipart` over the pieces from number `index` on. */
  function RedactPieces(pieces: seq<string>, index: nat, c: Context, m: Manifest): Outcome {
    if pieces == [] then Outcome(Some([]), m)
    else
      match ReadPart(pieces[0])
      case Skipped => RedactPieces(pieces[1..], index + 1, c, m)
      case Malformed => Outcome(None, m)
      case Read(part) =>
        var (value, after) := RedactPart(part, index, c, m);
        RedactPieces(pieces[1..], index + 1, c, after).Behind([Field(NameOf(part, index, c), value)])
  }

  function TrimQuotesStart(s: string): string {
    if s != "" && s[0] == '"' then TrimQuotesStart(s[1..]) else s
  }

  function TrimQuotesEnd(s: string): string {
    if s != "" && s[|s| - 1] == '"' then TrimQuotesEnd(s[..|s| - 1]) else s
  }

  /** The boundary in the first parameter that has one. */
  function BoundaryIn(pieces: seq<string>): Option<string> {
    if pieces == [] then None
    else
      match SplitOnce(Trim(pieces[0]), '=')
      case None => BoundaryIn(pieces[1..])
      case Some(p) =>
        var value := TrimQuotesEnd(TrimQuotesStart(Trim(p.value)));
        if !EqualsIgnoreCase(Trim(p.name), "boundary") || value == "" then BoundaryIn(pieces[1..]) else Some(value)
  }

  function Redacted(text: string, contentType: string, c: Context, m: Manifest): Outcome {
    match BoundaryIn(SplitOn(contentType, ";"))
    case None => Outcome(None, m)
    case Some(boundary) => RedactPieces(SplitOn(text, "--" + boundary)[1..], 1, c, m)
  }

  lemma BehindTwice(o: Outcome, a: seq<Field>, b: seq<Field>)
    ensures o.Behind(b).Behind(a) == o.Behind(a + b)
  {
    if o.fields.Some? {
      assert a + (b + o.fields.value) == a + b + o.fields.value;
    }
  }

  method RedactMultipart(text: string, contentType: string, c: Context, log: Log) returns (result: Option<seq<Field>>)
    modifies log
    ensures Outcome(result, log.View()) == Redacted(text, contentType, c, old(log.View()))
  {
    var found := BoundaryIn(SplitOn(contentType, ";"));
    if found.None? { return None; }
    var pieces := SplitOn(text, "--" + found.value);
    var fields: seq<Field> := [];
    ghost var all := RedactPieces(pieces[1..], 1, c, log.View());
    if all.fields.Some? {
      assert [] + all.fields.value == all.fields.value;
    }
    for index := 1 to |pieces|
      invariant all == RedactPieces(pieces[index..], index, c, log.View()).Behind(fields)
    {
      assert pieces[index..][1..] == pieces[index + 1..];
      match ReadPart(pieces[index]) {
        case Skipped =>
        case Malformed => return None;
        case Read(part) =>
          var name := NameOf(part, index, c);
          var place := c.location + "." + name;
          var value;
          ghost var m := log.View();
          if part.isFile {
            log.Omit(place);
            value := FILE_OMITTED;
          } else if c.detectors.sensitive(name) {
            if c.enabled {
              log.RecordRedaction(place, "sensitive_field");
              value := REDACTED_FIELD;
            } else {
              log.Disclose(SensitiveField(place));
              value := part.body;
            }
          } else {
            value := RedactOrDiscloseValue(part.body, place, c.enabled, c.detectors, log);
          }
          assert (value, log.View()) == RedactPart(part, index, c, m);
          BehindTwice(RedactPieces(pieces[index + 1..], index + 1, c, log.View()), fields, [Field(name, value)]);
          fields := fields + [Field(name, value)];
      }
    }
    assert fields + [] == fields;
    return Some(fields);
  }
}
