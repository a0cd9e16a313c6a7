/** The whole validator, and what happens when an accepted result is validated again. */
module Revalidation {
  import opened Wrappers
  import opened Text
  import opened Calibration

  // ---------- the validator ----------

  datatype Answer = Answer(purpose: string, params: seq<string>, hypotheses: seq<Hypothesis>, summary: string)

  datatype Result = Result(purpose: string, params: seq<string>, list: seq<Checked>, summary: string)

  datatype Verdict = Accepted(result: Result, grounded: nat, ungrounded: nat) | Rejected(errors: nat)

  function TrimAll(params: seq<string>): seq<string> {
    if params == [] then [] else [Trim(params[0])] + TrimAll(params[1..])
  }

  function ParamErrors(params: seq<string>): nat {
    if params == [] then 0 else RequiredError(params[0], 128) + ParamErrors(params[1..])
  }

  /** The first parameter of every lower-case form. */
  function UniqueParams(params: seq<string>, seen: set<string>, c: Context): (unique: seq<string>)
    ensures |unique| <= |params|
    decreases |params|
  {
    if params == [] then []
    else if c.lower(params[0]) in seen then UniqueParams(params[1..], seen, c)
    else [params[0]] + UniqueParams(params[1..], seen + {c.lower(params[0])}, c)
  }

  function TooMany(count: nat, max: nat): nat {
    if count > max then 1 else 0
  }

  function Errors(a: Answer, c: Context): nat {
    RequiredError(a.purpose, 500) + RequiredError(a.summary, 4000)
    + TooMany(|a.params|, MAX_SUSPICIOUS_PARAMS) + ParamErrors(a.params)
    + TooMany(|a.hypotheses|, MAX_HYPOTHESES) + ErrorsInAll(a.hypotheses, c)
  }

  function ResultOf(a: Answer, c: Context): Result {
    Result(Trim(a.purpose), UniqueParams(TrimAll(a.params), {}, c), Check(a.hypotheses, {}, c), Trim(a.summary))
  }

  function Decide(errors: nat, result: Result): Verdict {
    if errors > 0 then Rejected(errors)
    else
      GroundedAtMostAll(result.list);
      Accepted(result, GroundedIn(result.list), |result.list| - GroundedIn(result.list))
  }

  function Validate(a: Answer, c: Context): Verdict {
    Decide(Errors(a, c), ResultOf(a, c))
  }

  lemma {:induction false} GroundedAtMostAll(list: seq<Checked>)
    ensures GroundedIn(list) <= |list|
  {
    if list != [] {
      GroundedAtMostAll(list[1..]);
    }
  }

  method CleanParams(params: seq<string>, c: Context) returns (unique: seq<string>, errors: nat)
    ensures unique == UniqueParams(TrimAll(params), {}, c) && errors == ParamErrors(params)
  {
    var trimmed: seq<string> := [];
    errors := 0;
    assert params[0..] == params && trimmed + TrimAll(params) == TrimAll(params);
    for i := 0 to |params|
      invariant trimmed + TrimAll(params[i..]) == TrimAll(params)
      invariant errors + ParamErrors(params[i..]) == ParamErrors(params)
    {
      assert params[i..][1..] == params[i + 1..];
      Regroup(trimmed, [Trim(params[i])], TrimAll(params[i + 1..]));
      errors := errors + RequiredError(params[i], 128);
      trimmed := trimmed + [Trim(params[i])];
    }
    assert trimmed + [] == trimmed;
    unique := DropRepeated(trimmed, c);
  }

  lemma UniqueNext(done: seq<string>, params: seq<string>, i: nat, seen: set<string>, c: Context)
    requires i < |params|
    ensures var key := c.lower(params[i]);
            done + UniqueParams(params[i..], seen, c)
            == if key in seen then done + UniqueParams(params[i + 1..], seen, c)
               else (done + [params[i]]) + UniqueParams(params[i + 1..], seen + {key}, c)
  {
    assert params[i..][1..] == params[i + 1..];
    Regroup(done, [params[i]], UniqueParams(params[i + 1..], seen + {c.lower(params[i])}, c));
  }

  method DropRepeated(params: seq<string>, c: Context) returns (unique: seq<string>)
    ensures unique == UniqueParams(params, {}, c)
  {
    unique := [];
    var seen: set<string> := {};
    assert params[0..] == params;
    for i := 0 to |params|
      invariant UniqueParams(params, {}, c) == unique + UniqueParams(params[i..], seen, c)
    {
      UniqueNext(unique, params, i, seen, c);
      if c.lower(params[i]) !in seen {
        seen := seen + {c.lower(params[i])};
        unique := unique + [params[i]];
      }
    }
  }

  method ParseAndValidate(a: Answer, c: Context) returns (verdict: Verdict)
    ensures verdict == Validate(a, c)
  {
    var params, paramErrors := CleanParams(a.params, c);
    var list, hypothesisErrors, grounded, ungrounded := CheckHypotheses(a.hypotheses, c);
    var errors := RequiredError(a.purpose, 500) + RequiredError(a.summary, 4000);
    errors := errors + TooMany(|a.params|, MAX_SUSPICIOUS_PARAMS) + paramErrors;
    errors := errors + TooMany(|a.hypotheses|, MAX_HYPOTHESES) + hypothesisErrors;
    verdict := Conclude(errors, Result(Trim(a.purpose), params, list, Trim(a.summary)), grounded, ungrounded);
  }

  method Conclude(errors: nat, result: Result, grounded: nat, ungrounded: nat) returns (verdict: Verdict)
    requires grounded == GroundedIn(result.list) && grounded + ungrounded == |result.list|
    ensures verdict == Decide(errors, result)
  {
    if errors > 0 {
      return Rejected(errors);
    }
    return Accepted(result, grounded, ungrounded);
  }

  // ---------- one hypothesis, twice ----------

  /** Looking up what a lookup returned returns it again. */
  ghost predicate StableLookup(c: Context) {
    forall references :: c.resolve(references).Some? ==>
      var found := c.resolve(references).value;
      |found| <= |references| && c.resolve(found) == Some(found)
  }

  lemma TrimTwice(s: string)
    ensures Trim(Trim(s)) == Trim(s)
  {
    var _, _ := TrimSplits(s);
    TrimOfTrimmed(Trim(s));
  }

  /** Nothing about the hypothesis changes when it is cleaned. */
  predicate IsClean(h: Hypothesis, c: Context) {
    && Trim(h.vulnType) == h.vulnType && Trim(h.param) == h.param
    && Trim(h.reasoning) == h.reasoning && Trim(h.verifySteps) == h.verifySteps
    && |h.standards| <= MAX_STANDARD_REFERENCES && c.resolve(h.standards) == Some(h.standards)
  }

  lemma CleanedIsClean(h: Hypothesis, c: Context)
    requires StableLookup(c) && c.resolve(FirstStandards(h.standards)).Some?
    ensures IsClean(Cleaned(h, c), c)
  {
    TrimTwice(h.vulnType);
    TrimTwice(h.param);
    TrimTwice(h.reasoning);
    TrimTwice(h.verifySteps);
  }

  lemma {:induction false} RequestedOfDistinct(references: seq<string>, known: seq<string>)
    requires Distinct(known + references)
    ensures Requested(references, known) == known + references
    decreases |references|
  {
    if references == [] {
      assert known + references == known;
    } else {
      assert known + references == (known + [references[0]]) + references[1..];
      assert (known + references)[|known|] == references[0];
      assert forall i :: 0 <= i < |known| ==> known[i] == (known + references)[i];
      RequestedOfDistinct(references[1..], known + [references[0]]);
    }
  }

  lemma {:induction false} GrantedOfAllowed(references: seq<string>, allowed: set<string>)
    requires forall i :: 0 <= i < |references| ==> references[i] in allowed
    ensures Granted(references, allowed) == references
  {
    if references != [] {
      GrantedOfAllowed(references[1..], allowed);
    }
  }

  /** Evidence that survived once survives again, whole. */
  lemma EvidenceTwice(references: seq<string>, allowed: set<string>)
    ensures var kept := Granted(Requested(references, []), allowed);
            Requested(kept, []) == kept && Granted(kept, allowed) == kept
  {
    var kept := Granted(Requested(references, []), allowed);
    RequestedAreDistinct(references, []);
    GrantedAreDistinct(Requested(references, []), allowed);
    assert [] + kept == kept;
    RequestedOfDistinct(kept, []);
    forall i | 0 <= i < |kept|
      ensures kept[i] in allowed
    {
      GrantedMembers(Requested(references, []), allowed, kept[i]);
    }
    GrantedOfAllowed(kept, allowed);
  }

  lemma UngroundedCapIsLowest(severity: Severity, references: seq<string>, confidence: nat)
    requires confidence <= UNGROUNDED_CAP
    ensures Limited(confidence, CapFor(severity, references)) == confidence
  {
  }

  /** A grounded hypothesis stays so; an ungrounded one with some evidence left becomes grounded. */
  lemma GroundTwice(h: Hypothesis, c: Context)
    ensures var once := Ground(h, c);
            Settled(once, Ground(once.hypothesis, c))
  {
    var once := Ground(h, c);
    EvidenceTwice(h.evidence, c.allowed);
    if !once.grounded {
      UngroundedCapIsLowest(h.severity, once.hypothesis.evidence, once.hypothesis.confidence);
    }
  }

  lemma CleanIsUnchanged(h: Hypothesis, c: Context)
    requires IsClean(h, c)
    ensures Cleaned(h, c) == h
  {
  }

  /** Cleaning and grounding a second time. */
  lemma HypothesisTwice(h: Hypothesis, c: Context)
    requires StableLookup(c) && c.resolve(FirstStandards(h.standards)).Some?
    ensures var once := Ground(Cleaned(h, c), c);
            var twice := Ground(Cleaned(once.hypothesis, c), c);
            Cleaned(once.hypothesis, c) == once.hypothesis && Settled(once, twice)
  {
    CleanedIsClean(h, c);
    CleanIsUnchanged(Ground(Cleaned(h, c), c).hypothesis, c);
    GroundTwice(Cleaned(h, c), c);
  }

  lemma {:induction false} ShortReferences(references: seq<string>)
    requires Distinct(references)
    ensures LongReferences(references) == 0
  {
    if references != [] {
      ShortReferences(references[1..]);
    }
  }

  /** What had no errors has none afterwards. */
  lemma NoNewErrors(h: Hypothesis, c: Context)
    requires StableLookup(c) && ErrorsIn(h, c) == 0
    ensures ErrorsIn(Ground(Cleaned(h, c), c).hypothesis, c) == 0
  {
    var x := Ground(Cleaned(h, c), c).hypothesis;
    CleanedIsClean(h, c);
    GroundedEvidence(Cleaned(h, c), c, "");
    ShortReferences(x.evidence);
    TrimTwice(h.vulnType);
    TrimTwice(h.param);
    TrimTwice(h.reasoning);
    TrimTwice(h.verifySteps);
  }

  // ---------- the whole result, twice ----------

  function Hypotheses(list: seq<Checked>): (hs: seq<Hypothesis>)
    ensures |hs| == |list|
    ensures forall i :: 0 <= i < |list| ==> hs[i] == list[i].hypothesis
  {
    if list == [] then [] else [list[0].hypothesis] + Hypotheses(list[1..])
  }

  /** Same hypothesis; grounded the second time exactly when some evidence is left. */
  predicate Settled(once: Checked, twice: Checked) {
    && twice.hypothesis == once.hypothesis
    && (twice.grounded <==> once.hypothesis.evidence != [])
    && (once.grounded ==> twice.grounded)
  }

  ghost predicate SameButGrounding(once: seq<Checked>, twice: seq<Checked>) {
    |twice| == |once| && forall i :: 0 <= i < |once| ==> Settled(once[i], twice[i])
  }

  lemma SameInFront(x: Checked, y: Checked, once: seq<Checked>, twice: seq<Checked>)
    requires Settled(x, y) && SameButGrounding(once, twice)
    ensures SameButGrounding([x] + once, [y] + twice)
  {
  }

  lemma {:induction false} CheckTwice(hs: seq<Hypothesis>, seen: set<Key>, c: Context)
    requires StableLookup(c) && ErrorsInAll(hs, c) == 0
    ensures var once := Check(hs, seen, c);
            && SameButGrounding(once, Check(Hypotheses(once), seen, c))
            && ErrorsInAll(Hypotheses(once), c) == 0
    decreases |hs|
  {
    if hs != [] {
      var h := Cleaned(hs[0], c);
      var key := KeyOf(h, c);
      if key in seen {
        CheckTwice(hs[1..], seen, c);
      } else {
        var first, rest := Ground(h, c), Check(hs[1..], seen + {key}, c);
        CheckTwice(hs[1..], seen + {key}, c);
        HypothesisTwice(hs[0], c);
        NoNewErrors(hs[0], c);
        GroundKeepsKey(h, c);
        SameInFront(first, Ground(first.hypothesis, c), rest, Check(Hypotheses(rest), seen + {key}, c));
      }
    }
  }

  lemma {:induction false} UniqueTwice(params: seq<string>, seen: set<string>, c: Context)
    ensures UniqueParams(UniqueParams(params, seen, c), seen, c) == UniqueParams(params, seen, c)
    decreases |params|
  {
    if params != [] {
      var low := c.lower(params[0]);
      if low in seen {
        UniqueTwice(params[1..], seen, c);
      } else {
        UniqueTwice(params[1..], seen + {low}, c);
        var rest := UniqueParams(params[1..], seen + {low}, c);
        assert ([params[0]] + rest)[1..] == rest;
      }
    }
  }

  /** Trimmed parameters without errors of their own. */
  ghost predicate GoodParams(params: seq<string>) {
    forall i :: 0 <= i < |params| ==> Trim(params[i]) == params[i] && RequiredError(params[i], 128) == 0
  }

  lemma {:induction false} TrimmedAreGood(params: seq<string>)
    requires ParamErrors(params) == 0
    ensures GoodParams(TrimAll(params))
  {
    if params != [] {
      TrimTwice(params[0]);
      TrimmedAreGood(params[1..]);
    }
  }

  lemma {:induction false} UniqueAreGood(params: seq<string>, seen: set<string>, c: Context)
    requires GoodParams(params)
    ensures GoodParams(UniqueParams(params, seen, c))
    decreases |params|
  {
    if params != [] {
      UniqueAreGood(params[1..], if c.lower(params[0]) in seen then seen else seen + {c.lower(params[0])}, c);
    }
  }

  lemma {:induction false} GoodParamsStay(params: seq<string>)
    requires GoodParams(params)
    ensures TrimAll(params) == params && ParamErrors(params) == 0
  {
    if params != [] {
      GoodParamsStay(params[1..]);
    }
  }

  lemma {:induction false} TrimAllKeepsLength(params: seq<string>)
    ensures |TrimAll(params)| == |params|
  {
    if params != [] {
      TrimAllKeepsLength(params[1..]);
    }
  }

  lemma {:induction false} CheckIsNoLonger(hs: seq<Hypothesis>, seen: set<Key>, c: Context)
    ensures |Check(hs, seen, c)| <= |hs|
    decreases |hs|
  {
    if hs != [] {
      CheckIsNoLonger(hs[1..], seen, c);
      CheckIsNoLonger(hs[1..], seen + {KeyOf(Cleaned(hs[0], c), c)}, c);
    }
  }

  /** The accepted result as the model would have to send it. */
  function AsAnswer(r: Result): Answer {
    Answer(r.purpose, r.params, Hypotheses(r.list), r.summary)
  }

  lemma ParamsTwice(params: seq<string>, c: Context)
    requires ParamErrors(params) == 0
    ensures var unique := UniqueParams(TrimAll(params), {}, c);
            UniqueParams(TrimAll(unique), {}, c) == unique && ParamErrors(unique) == 0 && |unique| <= |params|
  {
    TrimmedAreGood(params);
    UniqueAreGood(TrimAll(params), {}, c);
    GoodParamsStay(UniqueParams(TrimAll(params), {}, c));
    UniqueTwice(TrimAll(params), {}, c);
    TrimAllKeepsLength(params);
  }

  lemma NoErrorsAgain(a: Answer, c: Context)
    requires StableLookup(c) && Errors(a, c) == 0
    ensures Errors(AsAnswer(ResultOf(a, c)), c) == 0
  {
    ParamsTwice(a.params, c);
    CheckTwice(a.hypotheses, {}, c);
    CheckIsNoLonger(a.hypotheses, {}, c);
    TrimTwice(a.purpose);
    TrimTwice(a.summary);
  }

  lemma SameResultAgain(a: Answer, c: Context)
    requires StableLookup(c) && ParamErrors(a.params) == 0 && ErrorsInAll(a.hypotheses, c) == 0
    ensures var once := ResultOf(a, c);
            var again := ResultOf(AsAnswer(once), c);
            AsAnswer(again) == AsAnswer(once) && SameButGrounding(once.list, again.list)
  {
    ParamsTwice(a.params, c);
    CheckTwice(a.hypotheses, {}, c);
    TrimTwice(a.purpose);
    TrimTwice(a.summary);
    var list := Check(a.hypotheses, {}, c);
    assert Hypotheses(Check(Hypotheses(list), {}, c)) == Hypotheses(list);
  }

  /**
    An accepted result is accepted again, with the same purpose, parameters, hypotheses,
    evidence, confidences and summary; only a grounding can change, and only for the better.
   */
  lemma SecondPassIsStable(a: Answer, c: Context)
    requires StableLookup(c) && Validate(a, c).Accepted?
    ensures var once := Validate(a, c).result;
            var again := Validate(AsAnswer(once), c);
            && again.Accepted?
            && AsAnswer(again.result) == AsAnswer(once)
            && SameButGrounding(once.list, again.result.list)
            && again.grounded >= Validate(a, c).grounded
  {
    NoErrorsAgain(a, c);
    SameResultAgain(a, c);
    GroundedGrows(ResultOf(a, c).list, ResultOf(AsAnswer(ResultOf(a, c)), c).list);
  }

  lemma {:induction false} GroundedGrows(once: seq<Checked>, twice: seq<Checked>)
    requires SameButGrounding(once, twice)
    ensures GroundedIn(once) <= GroundedIn(twice)
  {
    if once != [] {
      GroundedGrows(once[1..], twice[1..]);
    }
  }
}
