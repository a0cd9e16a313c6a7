/** Which answers the validator accepts, by the limits on every part of them, and what it returns then. */
module Acceptance {
  import opened Text
  import opened Calibration
  import opened Grounding
  import opened Revalidation

  /** There is something to read, and not too much of it. */
  predicate Says(text: string, max: nat) {
    1 <= |Trim(text)| <= max
  }

  ghost predicate HypothesisFits(h: Hypothesis, c: Context) {
    && Says(h.vulnType, 128) && |Trim(h.param)| <= 256 && Says(h.reasoning, 4000) && Says(h.verifySteps, 4000)
    && !h.severity.Other? && h.confidence <= 100
    && c.resolve(if |h.standards| > 8 then h.standards[..8] else h.standards).Some?
    && |h.evidence| <= 8 && forall r :: r in h.evidence ==> |r| <= 64
  }

  ghost predicate AnswerFits(a: Answer, c: Context) {
    && Says(a.purpose, 500) && Says(a.summary, 4000)
    && |a.params| <= 32 && (forall p :: p in a.params ==> Says(p, 128))
    && |a.hypotheses| <= 4 && forall h :: h in a.hypotheses ==> HypothesisFits(h, c)
  }

  lemma {:induction false} ParamErrorsIff(params: seq<string>)
    ensures ParamErrors(params) == 0 <==> forall p :: p in params ==> Says(p, 128)
  {
    if params != [] {
      var first, rest := params[0], params[1..];
      ParamErrorsIff(rest);
      assert forall p: string :: p in params <==> p == first || p in rest;
      assert RequiredError(first, 128) == 0 <==> Says(first, 128);
      assert (forall p :: p in params ==> Says(p, 128)) <==> Says(first, 128) && forall p :: p in rest ==> Says(p, 128);
    }
  }

  lemma {:induction false} LongReferencesIff(references: seq<string>)
    ensures LongReferences(references) == 0 <==> forall r :: r in references ==> |r| <= 64
  {
    if references != [] {
      LongReferencesIff(references[1..]);
      assert forall r: string :: r in references <==> r == references[0] || r in references[1..];
    }
  }

  lemma HypothesisErrorsIff(h: Hypothesis, c: Context)
    ensures ErrorsIn(h, c) == 0 <==> HypothesisFits(h, c)
  {
    LongReferencesIff(h.evidence);
  }

  lemma {:induction false} AllErrorsIff(hs: seq<Hypothesis>, c: Context)
    ensures ErrorsInAll(hs, c) == 0 <==> forall h :: h in hs ==> HypothesisFits(h, c)
  {
    if hs != [] {
      HypothesisErrorsIff(hs[0], c);
      AllErrorsIff(hs[1..], c);
      assert forall h: Hypothesis :: h in hs <==> h == hs[0] || h in hs[1..];
    }
  }

  function Lowered(params: seq<string>, c: Context): (keys: seq<string>)
    ensures |keys| == |params|
  {
    if params == [] then [] else [c.lower(params[0])] + Lowered(params[1..], c)
  }

  lemma {:induction false} UniqueAreDeduplicated(params: seq<string>, seen: set<string>, c: Context)
    ensures UniqueParams(params, seen, c) == Deduplicated(Lowered(params, c), params, seen)
    decreases |params|
  {
    if params != [] {
      var key := c.lower(params[0]);
      UniqueAreDeduplicated(params[1..], if key in seen then seen else seen + {key}, c);
      assert Lowered(params, c)[1..] == Lowered(params[1..], c);
    }
  }

  /** Of the trimmed parameters the first of each lower-case form, in order. */
  lemma ParamsAreFirsts(params: seq<string>, c: Context)
    ensures UniqueParams(params, {}, c) == FirstsFrom(Lowered(params, c), params, 0)
  {
    UniqueAreDeduplicated(params, {}, c);
    FirstsAreDeduplicated(Lowered(params, c), params, 0, {});
    assert Lowered(params, c)[0..] == Lowered(params, c) && params[0..] == params;
  }

  /**
    An answer is accepted if and only if every part of it keeps its limit; then purpose and summary
    come back trimmed, with the first parameter of each lower-case form and the first hypothesis of
    each key.
   */
  lemma AcceptedIffFits(a: Answer, c: Context)
    ensures Validate(a, c).Accepted? <==> AnswerFits(a, c)
    ensures var v := Validate(a, c);
            v.Accepted? ==>
              && v.result.purpose == Trim(a.purpose) && v.result.summary == Trim(a.summary)
              && v.result.params == FirstsFrom(Lowered(TrimAll(a.params), c), TrimAll(a.params), 0)
              && v.result.list == FirstsFrom(KeysFor(a.hypotheses, c), ResultsFor(a.hypotheses, c), 0)
              && v.grounded + v.ungrounded == |v.result.list| && v.grounded == GroundedIn(v.result.list)
  {
    ParamErrorsIff(a.params);
    AllErrorsIff(a.hypotheses, c);
    ParamsAreFirsts(TrimAll(a.params), c);
    FirstOfEachKeySurvives(a.hypotheses, c);
    GroundedAtMostAll(Check(a.hypotheses, {}, c));
  }
}
