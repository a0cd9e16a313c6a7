/**
  `parse_llm_json`: strip a Markdown fence, try every bracket that may start JSON, and take
  the first balanced fragment that deserialises; and the JSON texts of RFC 8259.
 */
module JsonExtraction {
  import opened Wrappers
  import opened Text
  import opened JsonBalanced

  // ---------- the extraction ----------

  function StripPrefix(s: string, prefix: string): Option<string> {
    if prefix <= s then Some(s[|prefix|..]) else None
  }

  function StripSuffix(s: string, suffix: string): Option<string> {
    if |suffix| <= |s| && s[|s| - |suffix|..] == suffix then Some(s[..|s| - |suffix|]) else None
  }

  /** Without the fence's first marker, with its language tag or without. */
  function WithoutOpening(trimmed: string): string {
    var tagged := StripPrefix(trimmed, "```json");
    if tagged.Some? then tagged.value else StripPrefix(trimmed, "```").GetOr(trimmed)
  }

  function StripCodeFence(raw: string): string {
    var opened_ := WithoutOpening(Trim(raw));
    Trim(StripSuffix(opened_, "```").GetOr(opened_))
  }

  /** The positions of brackets that open outside string literals, in order. */
  function StartsFrom(s: string, i: nat, lex: Lex): seq<nat>
    decreases |s| - i
  {
    if i >= |s| then []
    else (if lex.Outside? && IsOpener(s[i]) then [i] else []) + StartsFrom(s, i + 1, lex.Step(s[i]))
  }

  lemma NextStart(s: string, i: nat, lex: Lex, done: seq<nat>)
    requires i < |s|
    ensures done + StartsFrom(s, i, lex)
            == (if lex.Outside? && IsOpener(s[i]) then done + [i] else done) + StartsFrom(s, i + 1, lex.Step(s[i]))
  {
    var rest := StartsFrom(s, i + 1, lex.Step(s[i]));
    assert [] + rest == rest;
    Regroup(done, [i], rest);
  }

  method JsonCandidateStarts(s: string) returns (starts: seq<nat>)
    ensures starts == StartsFrom(s, 0, Outside)
  {
    starts := [];
    var inString, escaped := false, false;
    ghost var lex := Outside;
    for index := 0 to |s|
      invariant escaped ==> inString
      invariant lex == if escaped then Escaped else if inString then Inside else Outside
      invariant StartsFrom(s, 0, Outside) == starts + StartsFrom(s, index, lex)
    {
      NextStart(s, index, lex, starts);
      lex := lex.Step(s[index]);
      if inString {
        if escaped {
          escaped := false;
        } else if s[index] == '\\' {
          escaped := true;
        } else if s[index] == '"' {
          inString := false;
        }
      } else if s[index] == '"' {
        inString := true;
      } else if IsOpener(s[index]) {
        starts := starts + [index];
      }
    }
  }

  datatype Failure = NoJson | Incomplete | Invalid(message: string)

  /** The deserialiser for the wanted type; what it accepts is up to the caller. */
  type Decoder<T> = string -> Result<T, string>

  function TryStarts<T>(s: string, starts: seq<nat>, decode: Decoder<T>, lastError: Failure): Result<T, Failure>
    decreases |starts|
  {
    if starts == [] then Err(lastError)
    else
      var end := BalancedEnd(s, starts[0]);
      if end.None? then TryStarts(s, starts[1..], decode, lastError)
      else
        match decode(s[starts[0]..end.value])
        case Ok(value) => Ok(value)
        case Err(message) => TryStarts(s, starts[1..], decode, Invalid(message))
  }

  function Extract<T>(raw: string, decode: Decoder<T>): Result<T, Failure> {
    var prepared := StripCodeFence(raw);
    var starts := StartsFrom(prepared, 0, Outside);
    if starts == [] then Err(NoJson) else TryStarts(prepared, starts, decode, Incomplete)
  }

  lemma {:induction false} StartsAreInside(s: string, i: nat, lex: Lex)
    ensures forall k :: k in StartsFrom(s, i, lex) ==> i <= k < |s|
    decreases |s| - i
  {
    if i < |s| {
      StartsAreInside(s, i + 1, lex.Step(s[i]));
    }
  }

  method ParseLlmJson<T>(raw: string, decode: Decoder<T>) returns (result: Result<T, Failure>)
    ensures result == Extract(raw, decode)
  {
    var prepared := StripCodeFence(raw);
    var starts := JsonCandidateStarts(prepared);
    if starts == [] { return Err(NoJson); }
    StartsAreInside(prepared, 0, Outside);
    var lastError := Incomplete;
    for i := 0 to |starts|
      invariant TryStarts(prepared, starts, decode, Incomplete)
                == TryStarts(prepared, starts[i..], decode, lastError)
    {
      assert starts[i..][0] == starts[i] && starts[i..][1..] == starts[i + 1..];
      assert starts[i] in starts;
      var end := BalancedJsonEnd(prepared, starts[i]);
      if end.Some? {
        match decode(prepared[starts[i]..end.value]) {
          case Ok(value) => return Ok(value);
          case Err(message) => lastError := Invalid(message);
        }
      }
    }
    result := Err(lastError);
  }

  // ---------- JSON texts (sections 2 to 7 of RFC 8259) ----------

  /** One character of a string literal: unescaped, or a backslash with the character after it. */
  datatype Part = Plain(c: char) | Escape(c: char)

  datatype JsonText =
    | Token(text: string)
    | Quoted(parts: seq<Part>)
    | Container(opener: char, gap: string, items: Items)

  /** Elements, or members with their names, each between stretches of white space. */
  datatype Items =
    | NoItems
    | Item(before: string, name: Option<Name>, value: JsonText, after: string, rest: Items)

  datatype Name = Name(parts: seq<Part>, beforeColon: string, afterColon: string)

  function PartsThen(parts: seq<Part>, tail: string): string {
    if parts == [] then tail
    else
      match parts[0]
      case Plain(c) => [c] + PartsThen(parts[1..], tail)
      case Escape(c) => ['\\', c] + PartsThen(parts[1..], tail)
  }

  function LiteralThen(parts: seq<Part>, tail: string): string {
    ['"'] + PartsThen(parts, ['"'] + tail)
  }

  /** The text followed by `tail`. */
  function TextThen(t: JsonText, tail: string): string {
    match t
    case Token(text) => text + tail
    case Quoted(parts) => LiteralThen(parts, tail)
    case Container(opener, gap, items) => 
      [opener] + (gap + ItemsThen(items, true, [if opener == '{' then '}' else ']'] + tail))
  }

  function ItemsThen(items: Items, first: bool, tail: string): string {
    match items
    case NoItems => tail
    case Item(before, name, value, after, rest) =>
      (if first then before else "," + before)
      + NameThen(name, TextThen(value, after + ItemsThen(rest, false, tail)))
  }

  function NameThen(name: Option<Name>, tail: string): string {
    if name.None? then tail
    else LiteralThen(name.value.parts, name.value.beforeColon + ":" + name.value.afterColon + tail)
  }

  function TextOf(t: JsonText): string {
    TextThen(t, [])
  }

  /** No quotation mark and no bracket: a scan outside strings passes over such text. */
  predicate Neutral(s: string) {
    forall k :: 0 <= k < |s| ==> s[k] != '"' && !IsOpener(s[k]) && !IsCloser(s[k])
  }

  predicate WellFormedParts(parts: seq<Part>) {
    forall k :: 0 <= k < |parts| && parts[k].Plain? ==> parts[k].c != '"' && parts[k].c != '\\'
  }

  predicate WellFormedName(name: Option<Name>) {
    name.Some? ==> && WellFormedParts(name.value.parts)
                   && AllSpace(name.value.beforeColon) && AllSpace(name.value.afterColon)
  }

  predicate WellFormed(t: JsonText) {
    match t
    case Token(text) => Neutral(text)
    case Quoted(parts) => WellFormedParts(parts)
    case Container(opener, gap, items) =>
      (opener == '{' || opener == '[') && AllSpace(gap) && WellFormedItems(items, opener == '{')
  }

  predicate WellFormedItems(items: Items, named: bool) {
    match items
    case NoItems => true
    case Item(before, name, value, after, rest) =>
      && AllSpace(before) && AllSpace(after) && (name.Some? <==> named)
      && WellFormedName(name)
      && WellFormed(value) && WellFormedItems(rest, named)
  }

  /** How deeply arrays and objects are nested. */
  function Nesting(t: JsonText): nat {
    if t.Container? then 1 + ItemsNesting(t.items) else 0
  }

  function ItemsNesting(items: Items): nat {
    if items.NoItems? then 0
    else if Nesting(items.value) > ItemsNesting(items.rest) then Nesting(items.value)
    else ItemsNesting(items.rest)
  }

  // ---------- what the scans see in a JSON text ----------

  lemma {:induction false} NeutralIsSkipped(s: string, tail: string)
    requires Neutral(s)
    ensures Brackets(Outside, s + tail) == Brackets(Outside, tail)
    ensures LexAfter(Outside, s + tail) == LexAfter(Outside, tail)
    decreases |s|
  {
    if s == [] {
      assert s + tail == tail;
    } else {
      assert (s + tail)[1..] == s[1..] + tail;
      NeutralIsSkipped(s[1..], tail);
      assert [] + Brackets(Outside, s[1..] + tail) == Brackets(Outside, s[1..] + tail);
    }
  }

  lemma {:induction false} PartsAreSkipped(parts: seq<Part>, tail: string)
    requires WellFormedParts(parts)
    ensures var s := PartsThen(parts, ['"'] + tail);
            Brackets(Inside, s) == Brackets(Outside, tail) && LexAfter(Inside, s) == LexAfter(Outside, tail)
    decreases |parts|
  {
    var s := PartsThen(parts, ['"'] + tail);
    if parts == [] {
      assert s[1..] == tail;
      assert [] + Brackets(Outside, tail) == Brackets(Outside, tail);
    } else {
      PartsAreSkipped(parts[1..], tail);
      var later := PartsThen(parts[1..], ['"'] + tail);
      assert [] + Brackets(Inside, later) == Brackets(Inside, later);
      if parts[0].Plain? {
        assert s[1..] == later;
      } else {
        assert s[1..][1..] == later;
        assert [] + Brackets(Escaped, s[1..]) == Brackets(Escaped, s[1..]);
      }
    }
  }

  lemma LiteralIsSkipped(parts: seq<Part>, tail: string)
    requires WellFormedParts(parts)
    ensures Brackets(Outside, LiteralThen(parts, tail)) == Brackets(Outside, tail)
    ensures LexAfter(Outside, LiteralThen(parts, tail)) == LexAfter(Outside, tail)
  {
    PartsAreSkipped(parts, tail);
    var s := LiteralThen(parts, tail);
    assert s[1..] == PartsThen(parts, ['"'] + tail);
    assert [] + Brackets(Inside, s[1..]) == Brackets(Inside, s[1..]);
  }

  lemma SpacesAreNeutral(s: string)
    requires AllSpace(s)
    ensures Neutral(s)
  {
  }

  /** The brackets of a text, followed by those of `after`. */
  function Shape(t: JsonText, after: Nested): Nested {
    if t.Container? then Group(t.opener, ItemsShape(t.items), after) else after
  }

  function ItemsShape(items: Items): Nested {
    if items.NoItems? then End else Shape(items.value, ItemsShape(items.rest))
  }

  lemma {:induction false} TextHasShape(t: JsonText, tail: string)
    requires WellFormed(t)
    ensures Brackets(Outside, TextThen(t, tail)) == Shape(t, End).WordThen(Brackets(Outside, tail))
    ensures LexAfter(Outside, TextThen(t, tail)) == LexAfter(Outside, tail)
    decreases t
  {
    match t
    case Token(text) => NeutralIsSkipped(text, tail);
    case Quoted(parts) => LiteralIsSkipped(parts, tail);
    case Container(opener, gap, items) =>
      var closing := [CloserOf(opener)] + tail;
      assert closing[1..] == tail;
      ItemsHaveShape(items, true, closing, opener == '{');
      SpacesAreNeutral(gap);
      NeutralIsSkipped(gap, ItemsThen(items, true, closing));
      var s := TextThen(t, tail);
      assert s[1..] == gap + ItemsThen(items, true, closing);
  }

  lemma {:induction false} ItemsHaveShape(items: Items, first: bool, tail: string, named: bool)
    requires WellFormedItems(items, named)
    ensures Brackets(Outside, ItemsThen(items, first, tail)) == ItemsShape(items).WordThen(Brackets(Outside, tail))
    ensures LexAfter(Outside, ItemsThen(items, first, tail)) == LexAfter(Outside, tail)
    decreases items
  {
    if items.Item? {
      var later := ItemsThen(items.rest, false, tail);
      var written := TextThen(items.value, items.after + later);
      ItemsHaveShape(items.rest, false, tail, named);
      TextHasShape(items.value, items.after + later);
      ValueThenRest(items.value, ItemsShape(items.rest), written, items.after, later, tail);
      ItemHasShape(items, first, written, tail);
    }
  }

  /** Nothing in front of a value counts. */
  lemma ItemHasShape(items: Items, first: bool, written: string, tail: string)
    requires items.Item? && AllSpace(items.before) && WellFormedName(items.name)
    requires written == TextThen(items.value, items.after + ItemsThen(items.rest, false, tail))
    ensures Brackets(Outside, ItemsThen(items, first, tail)) == Brackets(Outside, written)
    ensures LexAfter(Outside, ItemsThen(items, first, tail)) == LexAfter(Outside, written)
  {
    LeadIsSkipped(if first then items.before else "," + items.before, items.name, written);
  }

  /** A value in front of others, once it and the others are known to have their shapes. */
  lemma ValueThenRest(value: JsonText, others: Nested, written: string, after: string, later: string, tail: string)
    requires AllSpace(after)
    requires Brackets(Outside, later) == others.WordThen(Brackets(Outside, tail))
    requires LexAfter(Outside, later) == LexAfter(Outside, tail)
    requires Brackets(Outside, written) == Shape(value, End).WordThen(Brackets(Outside, after + later))
    requires LexAfter(Outside, written) == LexAfter(Outside, after + later)
    ensures Brackets(Outside, written) == Shape(value, others).WordThen(Brackets(Outside, tail))
    ensures LexAfter(Outside, written) == LexAfter(Outside, tail)
  {
    SpacesAreNeutral(after);
    NeutralIsSkipped(after, later);
    ShapeThen(value, others, Brackets(Outside, tail));
  }

  /** What stands in front of a value: white space, a comma, a name. */
  lemma LeadIsSkipped(lead: string, name: Option<Name>, written: string)
    requires Neutral(lead) && WellFormedName(name)
    ensures Brackets(Outside, lead + NameThen(name, written)) == Brackets(Outside, written)
    ensures LexAfter(Outside, lead + NameThen(name, written)) == LexAfter(Outside, written)
  {
    NameIsSkipped(name, written);
    NeutralIsSkipped(lead, NameThen(name, written));
  }

  lemma NameIsSkipped(name: Option<Name>, tail: string)
    requires WellFormedName(name)
    ensures Brackets(Outside, NameThen(name, tail)) == Brackets(Outside, tail)
    ensures LexAfter(Outside, NameThen(name, tail)) == LexAfter(Outside, tail)
  {
    if name.Some? {
      var n := name.value;
      var colon := n.beforeColon + ":" + n.afterColon;
      NeutralIsSkipped(colon, tail);
      LiteralIsSkipped(n.parts, colon + tail);
    }
  }

  lemma ShapeThen(t: JsonText, after: Nested, tail: string)
    ensures Shape(t, after).WordThen(tail) == Shape(t, End).WordThen(after.WordThen(tail))
  {
  }

  lemma {:induction false} ShapeIsValid(t: JsonText, after: Nested)
    requires WellFormed(t) && after.Valid()
    ensures Shape(t, after).Valid()
    ensures Shape(t, after).Depth() == if Nesting(t) > after.Depth() then Nesting(t) else after.Depth()
    decreases t
  {
    if t.Container? {
      ItemsShapeIsValid(t.items, t.opener == '{');
    }
  }

  lemma {:induction false} ItemsShapeIsValid(items: Items, named: bool)
    requires WellFormedItems(items, named)
    ensures ItemsShape(items).Valid() && ItemsShape(items).Depth() == ItemsNesting(items)
    decreases items
  {
    if items.Item? {
      ItemsShapeIsValid(items.rest, named);
      ShapeIsValid(items.value, ItemsShape(items.rest));
    }
  }

  // ---------- where a text ends ----------

  lemma {:induction false} PartsAppend(parts: seq<Part>, a: string, b: string)
    ensures PartsThen(parts, a + b) == PartsThen(parts, a) + b
    decreases |parts|
  {
    if parts != [] {
      PartsAppend(parts[1..], a, b);
    }
  }

  lemma LiteralAppend(parts: seq<Part>, a: string, b: string)
    ensures LiteralThen(parts, a + b) == LiteralThen(parts, a) + b
  {
    PartsAppend(parts, ['"'] + a, b);
    assert ['"'] + (a + b) == ['"'] + a + b;
  }

  lemma {:induction false} TextAppend(t: JsonText, a: string, b: string)
    ensures TextThen(t, a + b) == TextThen(t, a) + b
    decreases t
  {
    match t
    case Token(text) =>
    case Quoted(parts) => LiteralAppend(parts, a, b);
    case Container(opener, gap, items) =>
      var closing := [CloserOf(opener)] + a;
      assert [CloserOf(opener)] + (a + b) == closing + b;
      ItemsAppend(items, true, closing, b);
      assert gap + (ItemsThen(items, true, closing) + b) == gap + ItemsThen(items, true, closing) + b;
  }

  lemma {:induction false} ItemsAppend(items: Items, first: bool, a: string, b: string)
    ensures ItemsThen(items, first, a + b) == ItemsThen(items, first, a) + b
    decreases items
  {
    match items
    case NoItems =>
    case Item(before, name, value, after, rest) =>
      ItemsAppend(rest, false, a, b);
      var later := ItemsThen(rest, false, a);
      assert after + (later + b) == after + later + b;
      TextAppend(value, after + later, b);
      var written := TextThen(value, after + later);
      NameAppend(name, written, b);
  }

  lemma NameAppend(name: Option<Name>, a: string, b: string)
    ensures NameThen(name, a + b) == NameThen(name, a) + b
  {
    if name.Some? {
      var colon := name.value.beforeColon + ":" + name.value.afterColon;
      assert colon + (a + b) == colon + a + b;
      LiteralAppend(name.value.parts, colon + a, b);
    }
  }

  /** A container's text is its closer, after a front that ends outside strings. */
  lemma TextEndsWithCloser(t: JsonText) returns (front: string)
    requires t.Container? && WellFormed(t)
    ensures TextOf(t) == front + [CloserOf(t.opener)]
    ensures front != [] && front[0] == t.opener && LexAfter(Outside, front) == Outside
  {
    var body := ItemsThen(t.items, true, []);
    front := [t.opener] + (t.gap + body);
    CloserIsLast(t);
    ItemsHaveShape(t.items, true, [], t.opener == '{');
    SpacesAreNeutral(t.gap);
    NeutralIsSkipped(t.gap, body);
    assert front[1..] == t.gap + body;
  }

  lemma CloserIsLast(t: JsonText)
    requires t.Container?
    ensures TextOf(t) == [t.opener] + (t.gap + ItemsThen(t.items, true, [])) + [CloserOf(t.opener)]
  {
    var body, closer := ItemsThen(t.items, true, []), [CloserOf(t.opener)];
    ItemsAppend(t.items, true, [], closer);
    assert [] + closer == closer && closer + [] == closer;
    Regroup(t.gap, body, closer);
    Regroup([t.opener], t.gap + body, closer);
  }

  /** An array or object is a balanced fragment wherever it stands after neutral text. */
  lemma ContainerIsFragment(before: string, t: JsonText, after: string)
    requires t.Container? && WellFormed(t) && Nesting(t) <= 64
    ensures IsFragment(before + TextOf(t) + after, |before|, |before| + |TextOf(t)|)
  {
    var s := before + TextOf(t) + after;
    var text := TextOf(t);
    var front := TextEndsWithCloser(t);
    assert s[|before|..|before| + |text|] == text;
    assert s[|before|..|before| + |text| - 1] == front;
    TextHasShape(t, []);
    ShapeIsValid(t, End);
    assert IsPrimitive(Shape(t, End));
  }

  // ---------- the fence ----------

  lemma LongPrefixHitsBody(before: string, body: string, after: string, prefix: string)
    requires body != []
    ensures prefix <= before + body + after && |prefix| > |before| ==> body[0] in prefix
  {
    var s := before + body + after;
    assert s[|before|] == body[0];
    assert prefix <= s && |prefix| > |before| ==> prefix[|before|] == s[|before|];
  }

  lemma StripPrefixKeepsMiddle(before: string, body: string, after: string, prefix: string)
    requires body != [] && body[0] !in prefix
    ensures var s := before + body + after;
            var stripped := StripPrefix(s, prefix);
            && (stripped.Some? <==> prefix <= before)
            && (stripped.Some? ==> stripped.value == before[|prefix|..] + body + after)
  {
    var s := before + body + after;
    LongPrefixHitsBody(before, body, after, prefix);
    assert |prefix| <= |before| ==> s[..|prefix|] == before[..|prefix|];
    if prefix <= s {
      assert s[|prefix|..] == before[|prefix|..] + body + after;
    }
  }

  lemma LongSuffixHitsBody(before: string, body: string, after: string, suffix: string)
    requires body != []
    requires var s := before + body + after; |suffix| <= |s| && s[|s| - |suffix|..] == suffix
    ensures |suffix| > |after| ==> body[|body| - 1] in suffix
  {
    var s := before + body + after;
    var k := |suffix| - |after| - 1;
    assert s[|before| + |body| - 1] == body[|body| - 1];
    if |suffix| > |after| {
      assert suffix[k] == s[|s| - |suffix|..][k];
    }
  }

  lemma StripSuffixKeepsMiddle(before: string, body: string, after: string, suffix: string)
    returns (a: string, back: string)
    requires body != [] && body[|body| - 1] !in suffix
    ensures after == a + back
    ensures StripSuffix(before + body + after, suffix).GetOr(before + body + after) == before + body + a
  {
    var s := before + body + after;
    a, back := after, "";
    if |suffix| <= |s| && s[|s| - |suffix|..] == suffix {
      LongSuffixHitsBody(before, body, after, suffix);
      a, back := after[..|after| - |suffix|], after[|after| - |suffix|..];
      assert s[..|s| - |suffix|] == before + body + a;
    }
  }

  /** No quotation mark: a scan stands outside string literals behind it if it does in front. */
  predicate NoQuotes(s: string) {
    forall k :: 0 <= k < |s| ==> s[k] != '"'
  }

  /** The opening fence, if there is one, and what is left of the text before the body. */
  lemma OpeningFence(before: string, body: string, after: string) returns (fence: string, b: string)
    requires body != [] && body[0] !in "```json"
    ensures WithoutOpening(before + body + after) == b + body + after
    ensures before == fence + b && NoQuotes(fence)
  {
    StripPrefixKeepsMiddle(before, body, after, "```json");
    assert body[0] !in "```" by {
      assert "```json"[..3] == "```";
    }
    StripPrefixKeepsMiddle(before, body, after, "```");
    if "```json" <= before {
      fence, b := "```json", before[7..];
    } else if "```" <= before {
      fence, b := "```", before[3..];
    } else {
      fence, b := "", before;
    }
  }

  lemma NoQuotesInSum(a: string, b: string)
    requires NoQuotes(a) && NoQuotes(b)
    ensures NoQuotes(a + b)
  {
  }

  lemma SpacesHaveNoQuotes(s: string)
    requires AllSpace(s)
    ensures NoQuotes(s)
  {
  }

  lemma StripSteps(raw: string, trimmed: string, opened_: string, closed: string)
    requires Trim(raw) == trimmed && WithoutOpening(trimmed) == opened_
    requires StripSuffix(opened_, "```").GetOr(opened_) == closed
    ensures StripCodeFence(raw) == Trim(closed)
  {
  }

  lemma FrontsAdd(before: string, f1: string, b1: string, f2: string, b2: string, f3: string, b3: string)
    requires before == f1 + b1 && b1 == f2 + b2 && b2 == f3 + b3
    ensures before == (f1 + f2 + f3) + b3
  {
  }

  lemma BacksAdd(after: string, a1: string, z1: string, a2: string, z2: string, a3: string, z3: string)
    requires after == a1 + z1 && a1 == a2 + z2 && a2 == a3 + z3
    ensures after == a3 + (z3 + z2 + z1)
  {
  }

  /** Stripping the fence only ever shortens what stands before and after the body. */
  lemma FenceKeepsBody(before: string, body: string, after: string)
    returns (front: string, b: string, a: string, back: string)
    requires body != [] && Trimmed(body)
    requires body[0] !in "```json" && body[|body| - 1] !in "```"
    ensures StripCodeFence(before + body + after) == b + body + a
    ensures before == front + b && after == a + back && NoQuotes(front)
  {
    var f1, b1, a1, z1 := TrimKeepsMiddle(before, body, after);
    var f2, b2 := OpeningFence(b1, body, a1);
    var a2, z2 := StripSuffixKeepsMiddle(b2, body, a1, "```");
    var f3, b3, a3, z3 := TrimKeepsMiddle(b2, body, a2);
    StripSteps(before + body + after, b1 + body + a1, b2 + body + a1, b2 + body + a2);
    front, b, a, back := f1 + f2 + f3, b3, a3, z3 + z2 + z1;
    SpacesHaveNoQuotes(f1);
    SpacesHaveNoQuotes(f3);
    NoQuotesInSum(f1, f2);
    NoQuotesInSum(f1 + f2, f3);
    FrontsAdd(before, f1, b1, f2, b2, f3, b3);
    BacksAdd(after, a1, z1, a2, z2, a3, z3);
  }
}
