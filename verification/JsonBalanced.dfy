/**
  Finding JSON in the output of a language model: a scan for the end of a balanced
  fragment, the list of possible starts, and the loop that tries them in order.

  Every character the scans look for is ASCII, so characters stand for bytes here.
 */
module JsonBalanced {
  import opened Wrappers

  const MAX_JSON_DEPTH := 64

  predicate IsOpener(c: char) { c == '{' || c == '[' }

  predicate IsCloser(c: char) { c == '}' || c == ']' }

  function OpenerOf(closer: char): char {
    if closer == '}' then '{' else '['
  }

  function CloserOf(opener: char): char {
    if opener == '{' then '}' else ']'
  }

  /** Where a scan stands with respect to string literals. */
  datatype Lex = Outside | Inside | Escaped {

    function Step(c: char): Lex {
      match this
      case Outside => if c == '"' then Inside else Outside
      case Inside => if c == '\\' then Escaped else if c == '"' then Outside else Inside
      case Escaped => Inside
    }
  }

  // ---------- the end of a balanced fragment ----------

  /** The open brackets, innermost first. */
  datatype Stack = Bottom | Open(bracket: char, below: Stack) {

    function Height(): nat {
      if Bottom? then 0 else 1 + below.Height()
    }
  }

  /** The scan from position `i` with the open brackets met so far. */
  function ScanEnd(s: string, i: nat, lex: Lex, stack: Stack): (end: Option<nat>)
    ensures end.Some? ==> i < end.value <= |s|
    decreases |s| - i
  {
    if i >= |s| then None
    else if !lex.Outside? then ScanEnd(s, i + 1, lex.Step(s[i]), stack)
    else if IsOpener(s[i]) then
      if stack.Height() + 1 > MAX_JSON_DEPTH then None else ScanEnd(s, i + 1, Outside, Open(s[i], stack))
    else if IsCloser(s[i]) then
      if stack.Bottom? || stack.bracket != OpenerOf(s[i]) then None
      else if stack.below.Bottom? then Some(i + 1)
      else ScanEnd(s, i + 1, Outside, stack.below)
    else ScanEnd(s, i + 1, lex.Step(s[i]), stack)
  }

  function BalancedEnd(s: string, start: nat): Option<nat> {
    ScanEnd(s, start, Outside, Bottom)
  }

  /** The vector of the loop, whose last element is the innermost bracket. */
  function AsStack(brackets: string): (stack: Stack)
    ensures stack.Height() == |brackets|
  {
    if brackets == [] then Bottom
    else Open(brackets[|brackets| - 1], AsStack(brackets[..|brackets| - 1]))
  }

  lemma StackGrows(brackets: string, c: char)
    ensures AsStack(brackets + [c]) == Open(c, AsStack(brackets))
  {
    assert (brackets + [c])[..|brackets|] == brackets;
  }

  lemma ScanStep(s: string, i: nat, lex: Lex, stack: Stack)
    requires i < |s| && (lex.Outside? ==> !IsOpener(s[i]) && !IsCloser(s[i]))
    ensures ScanEnd(s, i, lex, stack) == ScanEnd(s, i + 1, lex.Step(s[i]), stack)
  {
  }

  lemma ScanOpens(s: string, i: nat, stack: Stack)
    requires i < |s| && IsOpener(s[i])
    ensures ScanEnd(s, i, Outside, stack)
            == if stack.Height() + 1 > MAX_JSON_DEPTH then None else ScanEnd(s, i + 1, Outside, Open(s[i], stack))
  {
  }

  lemma ScanCloses(s: string, i: nat, stack: Stack)
    requires i < |s| && IsCloser(s[i])
    ensures ScanEnd(s, i, Outside, stack)
            == if stack.Bottom? || stack.bracket != OpenerOf(s[i]) then None
               else if stack.below.Bottom? then Some(i + 1)
               else ScanEnd(s, i + 1, Outside, stack.below)
  {
  }

  method BalancedJsonEnd(s: string, start: nat) returns (end: Option<nat>)
    ensures end == BalancedEnd(s, start)
  {
    var stack: string := [];
    var inString, escaped := false, false;
    var index := start;
    ghost var lex := Outside;
    while index < |s|
      invariant lex == if escaped then Escaped else if inString then Inside else Outside
      invariant escaped ==> inString
      invariant BalancedEnd(s, start) == ScanEnd(s, index, lex, AsStack(stack))
    {
      var c := s[index];
      if inString {
        ScanStep(s, index, lex, AsStack(stack));
        if escaped {
          escaped := false;
        } else if c == '\\' {
          escaped := true;
        } else if c == '"' {
          inString := false;
        }
      } else if c == '"' {
        ScanStep(s, index, lex, AsStack(stack));
        inString := true;
      } else if IsOpener(c) {
        ScanOpens(s, index, AsStack(stack));
        StackGrows(stack, c);
        stack := stack + [c];
        if |stack| > MAX_JSON_DEPTH { return None; }
      } else if IsCloser(c) {
        ScanCloses(s, index, AsStack(stack));
        if stack == [] || stack[|stack| - 1] != OpenerOf(c) { return None; }
        stack := stack[..|stack| - 1];
        if stack == [] { return Some(index + 1); }
      } else {
        ScanStep(s, index, lex, AsStack(stack));
      }
      lex, index := lex.Step(c), index + 1;
    }
    end := None;
  }

  // ---------- what a balanced fragment is ----------

  function LexAfter(lex: Lex, s: string): Lex
    decreases |s|
  {
    if s == [] then lex else LexAfter(lex.Step(s[0]), s[1..])
  }

  /** The brackets of a text that stand outside its string literals. */
  function Brackets(lex: Lex, s: string): string
    decreases |s|
  {
    if s == [] then []
    else
      (if lex.Outside? && (IsOpener(s[0]) || IsCloser(s[0])) then [s[0]] else [])
      + Brackets(lex.Step(s[0]), s[1..])
  }

  /** Properly nested brackets: a group, what it encloses, and what follows it. */
  datatype Nested = End | Group(opener: char, inner: Nested, rest: Nested) {

    predicate Valid() {
      Group? ==> (opener == '{' || opener == '[') && inner.Valid() && rest.Valid()
    }

    /** The brackets of the word, followed by `tail`. */
    function WordThen(tail: string): string {
      match this
      case End => tail
      case Group(opener, inner, rest) =>
        [opener] + inner.WordThen([if opener == '{' then '}' else ']'] + rest.WordThen(tail))
    }

    function Depth(): nat {
      match this
      case End => 0
      case Group(_, inner, rest) => if 1 + inner.Depth() > rest.Depth() then 1 + inner.Depth() else rest.Depth()
    }
  }

  /** One group that encloses the whole word, nested no deeper than the scan allows. */
  predicate IsPrimitive(n: Nested) {
    n.Group? && n.rest.End? && n.Valid() && n.Depth() <= 64
  }

  /** `s[start..end]` ends with a bracket outside strings, and its brackets are one nested word. */
  ghost predicate IsFragment(s: string, start: nat, end: nat) {
    && start < end <= |s|
    && LexAfter(Outside, s[start..end - 1]) == Outside && IsCloser(s[end - 1])
    && exists n :: IsPrimitive(n) && Brackets(Outside, s[start..end]) == n.WordThen([])
  }

  // ---------- the stack machine on bracket words ----------

  /** The machine reads all of `w`, and its stack empties at the last bracket and not before. */
  predicate Closes(stack: Stack, w: string)
    decreases |w|
  {
    if w == [] then false
    else if IsOpener(w[0]) then
      stack.Height() < MAX_JSON_DEPTH && Closes(Open(w[0], stack), w[1..])
    else
      && IsCloser(w[0]) && stack.Open? && stack.bracket == OpenerOf(w[0])
      && if stack.below.Bottom? then w[1..] == [] else Closes(stack.below, w[1..])
  }

  lemma {:induction false} ScanEndIffCloses(s: string, i: nat, lex: Lex, stack: Stack, e: nat)
    requires i <= |s|
    ensures ScanEnd(s, i, lex, stack) == Some(e) <==>
            && i < e <= |s|
            && LexAfter(lex, s[i..e - 1]) == Outside && IsCloser(s[e - 1])
            && Closes(stack, Brackets(lex, s[i..e]))
    decreases |s| - i
  {
    if i < |s| {
      var next := lex.Step(s[i]);
      var deeper :=
        if lex.Outside? && IsOpener(s[i]) then Open(s[i], stack)
        else if lex.Outside? && IsCloser(s[i]) && stack.Open? then stack.below
        else stack;
      ScanEndIffCloses(s, i + 1, next, deeper, e);
      if i < e <= |s| {
        assert s[i..e][0] == s[i] && s[i..e][1..] == s[i + 1..e];
        var later := Brackets(next, s[i + 1..e]);
        if lex.Outside? && (IsOpener(s[i]) || IsCloser(s[i])) {
          assert Brackets(lex, s[i..e])[1..] == later;
        } else {
          assert Brackets(lex, s[i..e]) == later;
        }
        if i < e - 1 {
          assert s[i..e - 1][0] == s[i] && s[i..e - 1][1..] == s[i + 1..e - 1];
          if lex.Outside? && IsCloser(s[i]) && stack.Open? && stack.below.Bottom?
             && LexAfter(next, s[i + 1..e - 1]) == Outside && IsCloser(s[e - 1])
          {
            NotClosedTwice(s, i + 1, e);
          }
        } else {
          assert s[i..e - 1] == [] && s[i + 1..e] == [];
        }
      }
    }
  }

  /** A text that ends with a bracket outside strings has brackets. */
  lemma {:induction false} LastBracketCounts(lex: Lex, s: string)
    requires s != [] && LexAfter(lex, s[..|s| - 1]) == Outside && IsCloser(s[|s| - 1])
    ensures Brackets(lex, s) != []
    decreases |s|
  {
    if |s| > 1 {
      assert s[..|s| - 1][1..] == s[1..][..|s| - 2];
      LastBracketCounts(lex.Step(s[0]), s[1..]);
    }
  }

  lemma NotClosedTwice(s: string, i: nat, e: nat)
    requires i < e <= |s|
    requires LexAfter(Outside, s[i..e - 1]) == Outside && IsCloser(s[e - 1])
    ensures Brackets(Outside, s[i..e]) != []
  {
    assert s[i..e][..e - i - 1] == s[i..e - 1];
    LastBracketCounts(Outside, s[i..e]);
  }

  /** `w` is a nested word, the closer of the innermost bracket, and `outer`. */
  ghost predicate Splits(stack: Stack, w: string, n: Nested, outer: string) {
    && stack.Open? && n.Valid() && stack.Height() + n.Depth() <= MAX_JSON_DEPTH
    && w == n.WordThen([CloserOf(stack.bracket)] + outer)
  }

  /** What closes a stack: a nested word and a closer for every bracket, from the innermost out. */
  ghost predicate Unwinds(stack: Stack, w: string)
    decreases stack
  {
    if stack.Bottom? then w == []
    else exists n, outer :: Splits(stack, w, n, outer) && Unwinds(stack.below, outer)
  }

  predicate AllOpeners(stack: Stack) {
    stack.Open? ==> IsOpener(stack.bracket) && AllOpeners(stack.below)
  }

  lemma GroupInFront(stack: Stack, w: string, inner: Nested, after: string, rest: Nested, outer: string)
    requires w != [] && IsOpener(w[0])
    requires Splits(Open(w[0], stack), w[1..], inner, after) && Splits(stack, after, rest, outer)
    ensures Splits(stack, w, Group(w[0], inner, rest), outer)
  {
    assert w == [w[0]] + w[1..];
  }

  lemma {:induction false} ClosesUnwinds(stack: Stack, w: string)
    requires stack.Open? && AllOpeners(stack) && stack.Height() <= MAX_JSON_DEPTH && Closes(stack, w)
    ensures Unwinds(stack, w)
    decreases |w|
  {
    if IsOpener(w[0]) {
      ClosesUnwinds(Open(w[0], stack), w[1..]);
      var inner, after :| Splits(Open(w[0], stack), w[1..], inner, after) && Unwinds(stack, after);
      var rest, outer :| Splits(stack, after, rest, outer) && Unwinds(stack.below, outer);
      GroupInFront(stack, w, inner, after, rest, outer);
    } else {
      if stack.below.Open? {
        ClosesUnwinds(stack.below, w[1..]);
      }
      assert w == [CloserOf(stack.bracket)] + w[1..];
      assert Splits(stack, w, End, w[1..]);
    }
  }

  /** Reading a nested word and then `tail` closes whenever reading `tail` does. */
  lemma {:induction false} WordThenCloses(stack: Stack, n: Nested, tail: string)
    requires stack.Open? && n.Valid() && stack.Height() + n.Depth() <= MAX_JSON_DEPTH
    requires Closes(stack, tail)
    ensures Closes(stack, n.WordThen(tail))
    decreases n
  {
    match n
    case End =>
    case Group(opener, inner, rest) =>
      WordThenCloses(stack, rest, tail);
      var closing := [CloserOf(opener)] + rest.WordThen(tail);
      assert closing[1..] == rest.WordThen(tail);
      WordThenCloses(Open(opener, stack), inner, closing);
      assert n.WordThen(tail)[1..] == inner.WordThen(closing);
  }

  lemma PrimitiveCloses(n: Nested)
    requires IsPrimitive(n)
    ensures Closes(Bottom, n.WordThen([]))
  {
    var closing := [CloserOf(n.opener)];
    assert closing + [] == closing;
    WordThenCloses(Open(n.opener, Bottom), n.inner, closing);
    assert n.WordThen([])[1..] == n.inner.WordThen(closing);
  }

  lemma ClosingIsPrimitive(w: string) returns (n: Nested)
    requires Closes(Bottom, w)
    ensures IsPrimitive(n) && w == n.WordThen([])
  {
    ClosesUnwinds(Open(w[0], Bottom), w[1..]);
    var inner, outer :| Splits(Open(w[0], Bottom), w[1..], inner, outer) && Unwinds(Bottom, outer);
    n := Group(w[0], inner, End);
    assert outer == [];
    assert w == [w[0]] + w[1..];
  }

  lemma BalancedEndIff(s: string, start: nat, end: nat)
    requires start <= |s|
    ensures BalancedEnd(s, start) == Some(end) <==> IsFragment(s, start, end)
  {
    ScanEndIffCloses(s, start, Outside, Bottom, end);
    if start < end <= |s| {
      var w := Brackets(Outside, s[start..end]);
      if Closes(Bottom, w) {
        var n := ClosingIsPrimitive(w);
      }
      forall n | IsPrimitive(n) && w == n.WordThen([])
        ensures Closes(Bottom, w)
      {
        PrimitiveCloses(n);
      }
    }
  }

  /**
    The scan returns `end` exactly when the text up to `end` is one properly nested bracket
    word outside string literals, at most 64 deep; and at most one `end` is such.
   */
  lemma BalancedEndIffFragment(s: string, start: nat, end: nat)
    requires start <= |s|
    ensures BalancedEnd(s, start) == Some(end) <==> IsFragment(s, start, end)
    ensures forall other: nat :: IsFragment(s, start, end) && IsFragment(s, start, other) ==> other == end
  {
    BalancedEndIff(s, start, end);
    forall other: nat | IsFragment(s, start, other)
      ensures BalancedEnd(s, start) == Some(other)
    {
      BalancedEndIff(s, start, other);
    }
  }
}
