/**
  Which fragment `parse_llm_json` takes, and which failure it reports, said of the text alone: by
  its positions, its string literals and its nested brackets.
 */
module JsonChoice {
  import opened Wrappers
  import opened Text
  import opened JsonBalanced
  import opened JsonExtraction

  /** A bracket that opens outside the string literals of the text before it. */
  predicate StartsAt(s: string, i: nat) {
    i < |s| && IsOpener(s[i]) && LexAfter(Outside, s[..i]) == Outside
  }

  /** No fragment from there deserialises. */
  ghost predicate Fails<T>(s: string, i: nat, decode: Decoder<T>) {
    forall e: nat {:trigger IsFragment(s, i, e)} :: IsFragment(s, i, e) ==> decode(s[i..e]).Err?
  }

  ghost predicate NoFragment(s: string, i: nat) {
    forall e: nat :: !IsFragment(s, i, e)
  }

  /** The fragment from `i` to `e` is the first to deserialise. */
  ghost predicate Taken<T>(s: string, i: nat, e: nat, decode: Decoder<T>, value: T) {
    && StartsAt(s, i) && IsFragment(s, i, e) && decode(s[i..e]) == Ok(value)
    && forall j: nat :: j < i && StartsAt(s, j) ==> Fails(s, j, decode)
  }

  /** The fragment from `i` to `e` is the last there is, and deserialising it fails with this message. */
  ghost predicate LastError<T>(s: string, i: nat, e: nat, decode: Decoder<T>, message: string) {
    && StartsAt(s, i) && IsFragment(s, i, e) && decode(s[i..e]) == Err(message)
    && forall j: nat :: j > i && StartsAt(s, j) ==> NoFragment(s, j)
  }

  // ---------- the starts ----------

  ghost predicate Ascending(starts: seq<nat>) {
    forall m, n :: 0 <= m < n < |starts| ==> starts[m] < starts[n]
  }

  lemma {:induction false} StartsAscend(s: string, i: nat, lex: Lex)
    ensures Ascending(StartsFrom(s, i, lex))
    decreases |s| - i
  {
    if i < |s| {
      var rest := StartsFrom(s, i + 1, lex.Step(s[i]));
      StartsAscend(s, i + 1, lex.Step(s[i]));
      StartsAreInside(s, i + 1, lex.Step(s[i]));
      assert forall n :: 0 <= n < |rest| ==> rest[n] in rest;
    }
  }

  /** The same, for a scan that stands in state `lex` at position `i`. */
  predicate OpensAt(s: string, i: nat, lex: Lex, k: nat) {
    i <= k < |s| && IsOpener(s[k]) && LexAfter(lex, s[i..k]) == Outside
  }

  lemma OpensStep(s: string, i: nat, lex: Lex, k: nat)
    requires i < |s|
    ensures OpensAt(s, i, lex, k)
            <==> (k == i && lex.Outside? && IsOpener(s[i])) || OpensAt(s, i + 1, lex.Step(s[i]), k)
  {
    if i < k < |s| {
      assert s[i..k][0] == s[i] && s[i..k][1..] == s[i + 1..k];
    } else if k == i {
      assert s[i..k] == [];
    }
  }

  lemma StartsStep(s: string, i: nat, lex: Lex, k: nat)
    requires i < |s|
    ensures k in StartsFrom(s, i, lex)
            <==> (k == i && lex.Outside? && IsOpener(s[i])) || k in StartsFrom(s, i + 1, lex.Step(s[i]))
  {
  }

  lemma {:induction false} StartsAreOpeners(s: string, i: nat, lex: Lex, k: nat)
    requires i <= |s|
    ensures k in StartsFrom(s, i, lex) <==> OpensAt(s, i, lex, k)
    decreases |s| - i
  {
    if i == |s| {
      assert StartsFrom(s, i, lex) == [] && !OpensAt(s, i, lex, k);
    } else {
      var next := lex.Step(s[i]);
      StartsStep(s, i, lex, k);
      OpensStep(s, i, lex, k);
      StartsAreOpeners(s, i + 1, next, k);
    }
  }

  lemma StartsExactly(s: string)
    ensures Ascending(StartsFrom(s, 0, Outside))
    ensures forall k: nat :: k in StartsFrom(s, 0, Outside) <==> StartsAt(s, k)
  {
    StartsAscend(s, 0, Outside);
    forall k: nat
      ensures k in StartsFrom(s, 0, Outside) <==> StartsAt(s, k)
    {
      StartsAreOpeners(s, 0, Outside, k);
      if k < |s| {
        assert s[0..k] == s[..k];
      }
    }
  }

  // ---------- trying them in order ----------

  /** What trying one start comes to. */
  function Verdict<T>(s: string, k: nat, decode: Decoder<T>): Option<Result<T, string>> {
    match BalancedEnd(s, k)
    case None => None
    case Some(e) => Some(decode(s[k..e]))
  }

  lemma VerdictTells<T>(s: string, k: nat, decode: Decoder<T>)
    requires k <= |s|
    ensures Verdict(s, k, decode).None? <==> NoFragment(s, k)
    ensures (Verdict(s, k, decode).Some? && Verdict(s, k, decode).value.Ok?) <==> !Fails(s, k, decode)
    ensures forall e: nat :: IsFragment(s, k, e) ==> Verdict(s, k, decode) == Some(decode(s[k..e]))
  {
    forall e: nat
      ensures IsFragment(s, k, e) <==> BalancedEnd(s, k) == Some(e)
    {
      BalancedEndIffFragment(s, k, e);
    }
    if BalancedEnd(s, k).Some? {
      assert IsFragment(s, k, BalancedEnd(s, k).value);
    }
  }

  predicate Succeeds<T>(verdict: Option<Result<T, string>>) {
    verdict.Some? && verdict.value.Ok?
  }

  /** The outcome of the loop over starts, as the verdicts decide it. */
  ghost predicate Decided<T>(s: string, starts: seq<nat>, decode: Decoder<T>, last: Failure, r: Result<T, Failure>) {
    match r
    case Ok(value) =>
      exists n :: 0 <= n < |starts| && Verdict(s, starts[n], decode) == Some(Ok(value))
                  && forall m :: 0 <= m < n ==> !Succeeds(Verdict(s, starts[m], decode))
    case Err(failure) =>
      && (forall m :: 0 <= m < |starts| ==> !Succeeds(Verdict(s, starts[m], decode)))
      && (|| (failure == last && forall m :: 0 <= m < |starts| ==> Verdict(s, starts[m], decode).None?)
          || exists n :: 0 <= n < |starts| && failure.Invalid?
                         && Verdict(s, starts[n], decode) == Some(Err(failure.message))
                         && forall m :: n < m < |starts| ==> Verdict(s, starts[m], decode).None?)
  }

  lemma DecidedLater<T>(s: string, starts: seq<nat>, decode: Decoder<T>, last: Failure, r: Result<T, Failure>)
    requires starts != [] && !Succeeds(Verdict(s, starts[0], decode))
    requires var verdict := Verdict(s, starts[0], decode);
             Decided(s, starts[1..], decode, if verdict.Some? then Invalid(verdict.value.error) else last, r)
    ensures Decided(s, starts, decode, last, r)
  {
    var rest := starts[1..];
    assert forall m :: 0 <= m < |rest| ==> rest[m] == starts[m + 1];
    assert forall m :: 1 <= m < |starts| ==> starts[m] == rest[m - 1];
    match r
    case Ok(value) =>
      var n :| 0 <= n < |rest| && Verdict(s, rest[n], decode) == Some(Ok(value))
               && forall m :: 0 <= m < n ==> !Succeeds(Verdict(s, rest[m], decode));
      assert Verdict(s, starts[n + 1], decode) == Some(Ok(value));
    case Err(failure) =>
      if forall m :: 0 <= m < |rest| ==> Verdict(s, rest[m], decode).None? {
        if Verdict(s, starts[0], decode).Some? && failure.Invalid? {
          assert Verdict(s, starts[0], decode) == Some(Err(failure.message));
        }
      } else {
        var n :| 0 <= n < |rest| && failure.Invalid?
                 && Verdict(s, rest[n], decode) == Some(Err(failure.message))
                 && forall m :: n < m < |rest| ==> Verdict(s, rest[m], decode).None?;
        assert Verdict(s, starts[n + 1], decode) == Some(Err(failure.message));
      }
  }

  lemma {:induction false} VerdictsDecide<T>(s: string, starts: seq<nat>, decode: Decoder<T>, last: Failure)
    ensures Decided(s, starts, decode, last, TryStarts(s, starts, decode, last))
    decreases |starts|
  {
    if starts != [] {
      var verdict := Verdict(s, starts[0], decode);
      if Succeeds(verdict) {
        assert verdict == Some(Ok(verdict.value.value));
      } else {
        var next := if verdict.Some? then Invalid(verdict.value.error) else last;
        VerdictsDecide(s, starts[1..], decode, next);
        DecidedLater(s, starts, decode, last, TryStarts(s, starts[1..], decode, next));
      }
    }
  }

  // ---------- the outcome ----------

  /** The outcome as the text decides it. */
  ghost predicate Outcome<T>(s: string, decode: Decoder<T>, r: Result<T, Failure>) {
    match r
    case Ok(value) => exists i: nat, e: nat :: Taken(s, i, e, decode, value)
    case Err(NoJson) => forall i: nat :: !StartsAt(s, i)
    case Err(Incomplete) => (exists i: nat :: StartsAt(s, i)) && forall i: nat :: StartsAt(s, i) ==> NoFragment(s, i)
    case Err(Invalid(message)) =>
      && (forall i: nat :: StartsAt(s, i) ==> Fails(s, i, decode))
      && exists i: nat, e: nat :: LastError(s, i, e, decode, message)
  }

  lemma FirstSuccessIsTaken<T>(s: string, starts: seq<nat>, n: nat, decode: Decoder<T>, value: T)
    requires starts == StartsFrom(s, 0, Outside) && n < |starts|
    requires Verdict(s, starts[n], decode) == Some(Ok(value))
    requires forall m :: 0 <= m < n ==> !Succeeds(Verdict(s, starts[m], decode))
    ensures exists i: nat, e: nat :: Taken(s, i, e, decode, value)
  {
    var i := starts[n];
    var e := BalancedEnd(s, i).value;
    StartsExactly(s);
    assert starts[n] in starts;
    BalancedEndIffFragment(s, i, e);
    forall j: nat | j < i && StartsAt(s, j)
      ensures Fails(s, j, decode)
    {
      assert j in starts;
      var m :| 0 <= m < |starts| && starts[m] == j;
      assert m < n;
      VerdictTells(s, j, decode);
    }
    assert Taken(s, i, e, decode, value);
  }

  lemma LastVerdictIsError<T>(s: string, starts: seq<nat>, n: nat, decode: Decoder<T>, message: string)
    requires starts == StartsFrom(s, 0, Outside) && n < |starts|
    requires Verdict(s, starts[n], decode) == Some(Err(message))
    requires forall m :: n < m < |starts| ==> Verdict(s, starts[m], decode).None?
    ensures exists i: nat, e: nat :: LastError(s, i, e, decode, message)
  {
    var i := starts[n];
    var e := BalancedEnd(s, i).value;
    StartsExactly(s);
    assert starts[n] in starts;
    BalancedEndIffFragment(s, i, e);
    forall j: nat | j > i && StartsAt(s, j)
      ensures NoFragment(s, j)
    {
      assert j in starts;
      var m :| 0 <= m < |starts| && starts[m] == j;
      assert m > n;
      VerdictTells(s, j, decode);
    }
    assert LastError(s, i, e, decode, message);
  }

  lemma AllVerdicts<T>(s: string, starts: seq<nat>, decode: Decoder<T>)
    requires starts == StartsFrom(s, 0, Outside)
    ensures (forall m :: 0 <= m < |starts| ==> !Succeeds(Verdict(s, starts[m], decode)))
            ==> forall i: nat :: StartsAt(s, i) ==> Fails(s, i, decode)
    ensures (forall m :: 0 <= m < |starts| ==> Verdict(s, starts[m], decode).None?)
            ==> forall i: nat :: StartsAt(s, i) ==> NoFragment(s, i)
  {
    StartsExactly(s);
    forall i: nat | StartsAt(s, i)
      ensures exists m :: 0 <= m < |starts| && starts[m] == i
    {
      assert i in starts;
    }
    forall i: nat | StartsAt(s, i)
      ensures Verdict(s, i, decode).None? <==> NoFragment(s, i)
      ensures Succeeds(Verdict(s, i, decode)) <==> !Fails(s, i, decode)
    {
      VerdictTells(s, i, decode);
    }
  }

  lemma ExtractHasOutcome<T>(raw: string, decode: Decoder<T>)
    ensures Outcome(StripCodeFence(raw), decode, Extract(raw, decode))
  {
    var s := StripCodeFence(raw);
    var starts := StartsFrom(s, 0, Outside);
    StartsExactly(s);
    if starts != [] {
      assert starts[0] in starts;
      VerdictsDecide(s, starts, decode, Incomplete);
      AllVerdicts(s, starts, decode);
      DecisionIsOutcome(s, starts, decode, Extract(raw, decode));
    }
  }

  lemma DecisionIsOutcome<T>(s: string, starts: seq<nat>, decode: Decoder<T>, r: Result<T, Failure>)
    requires starts == StartsFrom(s, 0, Outside) && (exists i: nat :: StartsAt(s, i))
    requires Decided(s, starts, decode, Incomplete, r)
    ensures Outcome(s, decode, r)
  {
    AllVerdicts(s, starts, decode);
    match r
    case Ok(value) =>
      var n :| 0 <= n < |starts| && Verdict(s, starts[n], decode) == Some(Ok(value))
               && forall m :: 0 <= m < n ==> !Succeeds(Verdict(s, starts[m], decode));
      FirstSuccessIsTaken(s, starts, n, decode, value);
    case Err(failure) =>
      if failure.Invalid? {
        var n :| 0 <= n < |starts| && Verdict(s, starts[n], decode) == Some(Err(failure.message))
                 && forall m :: n < m < |starts| ==> Verdict(s, starts[m], decode).None?;
        LastVerdictIsError(s, starts, n, decode, failure.message);
      }
  }

  lemma FragmentIsUnique(s: string, i: nat, e: nat, f: nat)
    requires i <= |s| && IsFragment(s, i, e) && IsFragment(s, i, f)
    ensures e == f
  {
    BalancedEndIffFragment(s, i, e);
  }

  lemma TakenIsUnique<T>(s: string, i: nat, e: nat, j: nat, f: nat, decode: Decoder<T>, a: T, b: T)
    requires Taken(s, i, e, decode, a) && Taken(s, j, f, decode, b)
    ensures a == b
  {
    assert !Fails(s, i, decode) && !Fails(s, j, decode);
    assert i == j;
    FragmentIsUnique(s, i, e, f);
  }

  lemma LastErrorIsUnique<T>(s: string, i: nat, e: nat, j: nat, f: nat, decode: Decoder<T>, a: string, b: string)
    requires LastError(s, i, e, decode, a) && LastError(s, j, f, decode, b)
    ensures a == b
  {
    assert !NoFragment(s, i) && !NoFragment(s, j);
    assert i == j;
    FragmentIsUnique(s, i, e, f);
  }

  lemma TakenMeansOk<T>(s: string, i: nat, e: nat, decode: Decoder<T>, value: T, r: Result<T, Failure>)
    requires Taken(s, i, e, decode, value)
    ensures Outcome(s, decode, r) ==> r.Ok?
  {
    assert !Fails(s, i, decode) && !NoFragment(s, i);
  }

  lemma LastErrorMeansOther<T>(s: string, i: nat, e: nat, decode: Decoder<T>, message: string,
                               r: Result<T, Failure>)
    requires LastError(s, i, e, decode, message)
    ensures Outcome(s, decode, r) ==> r.Ok? || r.error.Invalid?
  {
    assert !NoFragment(s, i);
  }

  lemma SameKindOfOutcome<T>(s: string, decode: Decoder<T>, r: Result<T, Failure>, q: Result<T, Failure>)
    requires Outcome(s, decode, r) && Outcome(s, decode, q)
    ensures r.Ok? ==> q.Ok?
    ensures r.Err? && r.error.Invalid? ==> q.Ok? || q.error.Invalid?
  {
    if r.Ok? {
      var i: nat, e: nat :| Taken(s, i, e, decode, r.value);
      TakenMeansOk(s, i, e, decode, r.value, q);
    } else if r.error.Invalid? {
      var i: nat, e: nat :| LastError(s, i, e, decode, r.error.message);
      LastErrorMeansOther(s, i, e, decode, r.error.message, q);
    }
  }

  /** The text decides on one outcome. */
  lemma OutcomeIsUnique<T>(s: string, decode: Decoder<T>, r: Result<T, Failure>, q: Result<T, Failure>)
    requires Outcome(s, decode, r) && Outcome(s, decode, q)
    ensures r == q
  {
    SameKindOfOutcome(s, decode, r, q);
    SameKindOfOutcome(s, decode, q, r);
    if r.Ok? {
      var i: nat, e: nat :| Taken(s, i, e, decode, r.value);
      var j: nat, f: nat :| Taken(s, j, f, decode, q.value);
      TakenIsUnique(s, i, e, j, f, decode, r.value, q.value);
    } else if r.error.Invalid? {
      var i: nat, e: nat :| LastError(s, i, e, decode, r.error.message);
      var j: nat, f: nat :| LastError(s, j, f, decode, q.error.message);
      LastErrorIsUnique(s, i, e, j, f, decode, r.error.message, q.error.message);
    }
  }

  /**
    For every text and every deserialiser: the result is `r` if and only if the text says so. It
    is the value of the first fragment that deserialises; there is none when no bracket opens
    outside a string literal; and a failure is that of the last fragment, if there is any.
   */
  lemma ExtractsIffOutcome<T>(raw: string, decode: Decoder<T>, r: Result<T, Failure>)
    ensures Extract(raw, decode) == r <==> Outcome(StripCodeFence(raw), decode, r)
  {
    ExtractHasOutcome(raw, decode);
    if Outcome(StripCodeFence(raw), decode, r) {
      OutcomeIsUnique(StripCodeFence(raw), decode, r, Extract(raw, decode));
    }
  }

  // ---------- a printed text is what is taken ----------

  lemma {:induction false} LexOfSum(a: string, b: string, lex: Lex)
    ensures LexAfter(lex, a + b) == LexAfter(LexAfter(lex, a), b)
    decreases |a|
  {
    if a == "" {
      assert a + b == b;
    } else {
      assert (a + b)[1..] == a[1..] + b;
      LexOfSum(a[1..], b, lex.Step(a[0]));
    }
  }

  lemma {:induction false} LexStaysOutside(s: string)
    requires NoQuotes(s)
    ensures LexAfter(Outside, s) == Outside
  {
    if s != "" {
      LexStaysOutside(s[1..]);
    }
  }

  lemma LexBehindFence(removed: string, rest: string)
    requires NoQuotes(removed)
    ensures LexAfter(Outside, removed + rest) == LexAfter(Outside, rest)
  {
    LexStaysOutside(removed);
    LexOfSum(removed, rest, Outside);
  }

  /** What starts or ends a fragment in a stretch of the text does so in the whole text. */
  lemma FragmentInWhole(removed: string, s: string, tail: string, i: nat, e: nat)
    requires NoQuotes(removed) && e <= |s|
    ensures var raw, d := removed + s + tail, |removed|;
            && (StartsAt(s, i) ==> StartsAt(raw, d + i))
            && (IsFragment(s, i, e) ==> IsFragment(raw, d + i, d + e) && raw[d + i..d + e] == s[i..e])
  {
    var raw, d := removed + s + tail, |removed|;
    if i < |s| {
      assert raw[..d + i] == removed + s[..i];
      LexBehindFence(removed, s[..i]);
    }
    if i < e {
      assert raw[d + i..d + e] == s[i..e] && raw[d + i..d + e - 1] == s[i..e - 1];
    }
  }

  /** Every fragment that starts in the prose fails to deserialise. */
  ghost predicate ProseFails<T>(raw: string, prose: nat, decode: Decoder<T>) {
    forall i: nat :: i < prose && StartsAt(raw, i) ==> Fails(raw, i, decode)
  }

  /** The stretch `text` between two others starts there, if the first leaves no literal open. */
  lemma TextStarts(b: string, text: string, a: string)
    requires text != "" && IsOpener(text[0]) && LexAfter(Outside, b) == Outside
    ensures var s := b + text + a;
            StartsAt(s, |b|) && s[|b|..|b| + |text|] == text
  {
    var s := b + text + a;
    assert s[..|b|] == b && s[|b|] == text[0];
  }

  lemma ProseStillFails<T>(removed: string, s: string, tail: string, prose: nat, decode: Decoder<T>)
    requires NoQuotes(removed) && ProseFails(removed + s + tail, |removed| + prose, decode)
    ensures ProseFails(s, prose, decode)
  {
    forall i: nat | i < prose && StartsAt(s, i)
      ensures Fails(s, i, decode)
    {
      forall e: nat | IsFragment(s, i, e)
        ensures decode(s[i..e]).Err?
      {
        FragmentInWhole(removed, s, tail, i, e);
      }
    }
  }

  /** A fragment on its own is one wherever it stands. */
  lemma FragmentAnywhere(b: string, text: string, a: string)
    requires IsFragment(text, 0, |text|)
    ensures IsFragment(b + text + a, |b|, |b| + |text|)
  {
    var s, e := b + text + a, |b| + |text|;
    assert s[|b|..e] == text[0..|text|] && s[|b|..e - 1] == text[0..|text| - 1];
    assert s[e - 1] == text[|text| - 1];
  }

  lemma PlacedIsOutcome<T>(b: string, text: string, a: string, decode: Decoder<T>, value: T)
    requires IsFragment(text, 0, |text|) && IsOpener(text[0]) && decode(text) == Ok(value)
    requires LexAfter(Outside, b) == Outside && ProseFails(b + text + a, |b|, decode)
    ensures Outcome(b + text + a, decode, Ok(value))
  {
    FragmentAnywhere(b, text, a);
    TextStarts(b, text, a);
    assert Taken(b + text + a, |b|, |b| + |text|, decode, value);
  }

  lemma ProseBehindFence<T>(front: string, b: string, text: string, a: string, back: string, decode: Decoder<T>)
    requires NoQuotes(front) && LexAfter(Outside, front + b) == Outside
    requires ProseFails((front + b) + text + (a + back), |front + b|, decode)
    ensures LexAfter(Outside, b) == Outside && ProseFails(b + text + a, |b|, decode)
  {
    LexBehindFence(front, b);
    assert (front + b) + text + (a + back) == front + (b + text + a) + back;
    ProseStillFails(front, b + text + a, back, |b|, decode);
  }

  /** The first and the last character of the fragment keep it apart from the fence. */
  predicate Bracketed(text: string) {
    text != "" && IsOpener(text[0]) && IsCloser(text[|text| - 1])
  }

  lemma BracketedKeepsFence(text: string)
    requires Bracketed(text)
    ensures Trimmed(text) && text[0] !in "```json" && text[|text| - 1] !in "```"
  {
  }

  lemma FragmentIsExtracted<T>(before: string, text: string, after: string, decode: Decoder<T>, value: T)
    requires IsFragment(text, 0, |text|) && Bracketed(text) && decode(text) == Ok(value)
    requires LexAfter(Outside, before) == Outside
    requires ProseFails(before + text + after, |before|, decode)
    ensures Extract(before + text + after, decode) == Ok(value)
  {
    BracketedKeepsFence(text);
    var front, b, a, back := FenceKeepsBody(before, text, after);
    ProseBehindFence(front, b, text, a, back, decode);
    PlacedIsOutcome(b, text, a, decode, value);
    ExtractsIffOutcome(before + text + after, decode, Ok(value));
  }

  lemma ContainerStandsAlone(t: JsonText)
    requires t.Container? && WellFormed(t) && Nesting(t) <= 64
    ensures IsFragment(TextOf(t), 0, |TextOf(t)|) && Bracketed(TextOf(t))
  {
    var front := TextEndsWithCloser(t);
    ContainerIsFragment("", t, "");
    assert "" + TextOf(t) + "" == TextOf(t);
  }

  /**
    Any array or object, printed in any way section 2 of RFC 8259 allows and nested at most 64
    deep, is what is deserialised, fenced or not and before any text: after any prose that leaves
    no string literal open and whose own fragments, if it has any, do not deserialise.
   */
  lemma ExtractionRecoversText<T>(before: string, t: JsonText, after: string, decode: Decoder<T>, value: T)
    requires t.Container? && WellFormed(t) && Nesting(t) <= 64 && decode(TextOf(t)) == Ok(value)
    requires LexAfter(Outside, before) == Outside
    requires ProseFails(before + TextOf(t) + after, |before|, decode)
    ensures Extract(before + TextOf(t) + after, decode) == Ok(value)
  {
    ContainerStandsAlone(t);
    FragmentIsExtracted(before, TextOf(t), after, decode, value);
  }

  /** In particular after prose without quotation marks or opening brackets. */
  lemma HarmlessProse<T>(before: string, rest: string, decode: Decoder<T>)
    requires forall c :: c in before ==> c != '"' && !IsOpener(c)
    ensures LexAfter(Outside, before) == Outside && ProseFails(before + rest, |before|, decode)
  {
    assert forall k :: 0 <= k < |before| ==> before[k] in before;
    LexStaysOutside(before);
    assert forall i :: 0 <= i < |before| ==> (before + rest)[i] == before[i];
  }
}
