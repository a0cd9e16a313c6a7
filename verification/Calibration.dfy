/**
  Validation of a model's hypotheses: cleaning, grounding in the evidence that was sent,
  calibrating confidence, and merging duplicates.
 */
module Calibration {
  import opened Wrappers
  import opened Text

  // ---------- confidence ----------

  datatype Strength = Strong | Moderate | Weak

  function EvidenceStrength(reference: string): Strength {
    if reference == "request.body" || reference == "response.body" then Strong
    else if reference == "request.headers" || reference == "response.headers" || reference == "response.status"
            || reference == "passive.rule_tags" then Moderate
    else Weak
  }

  datatype Severity = Critical | High | Medium | Low | Info | Other(name: string)

  /** The highest confidence a claim may have on this much evidence, if there is a limit. */
  function Cap(severity: Severity, strong: nat, moderate: nat, distinct: nat): Option<nat> {
    var weakOnly := strong == 0 && moderate == 0;
    match severity
    case Critical =>
      if weakOnly then Some(45) else if strong == 0 then Some(60) else if distinct < 2 then Some(80) else None
    case High =>
      if weakOnly then Some(45) else if strong == 0 then Some(70) else if distinct < 2 then Some(85) else None
    case Medium => if weakOnly then Some(45) else if strong == 0 then Some(70) else None
    case Low => if weakOnly then Some(40) else None
    case Info => if weakOnly then Some(40) else None
    case Other(_) => None
  }

  function Count(references: seq<string>, strength: Strength): nat {
    if references == [] then 0
    else (if EvidenceStrength(references[0]) == strength then 1 else 0) + Count(references[1..], strength)
  }

  function CapFor(severity: Severity, references: seq<string>): Option<nat> {
    Cap(severity, Count(references, Strong), Count(references, Moderate), |references|)
  }

  function Limited(confidence: nat, cap: Option<nat>): nat {
    if cap.Some? && confidence > cap.value then cap.value else confidence
  }

  method CalibrateConfidence(severity: Severity, confidence: nat, references: seq<string>)
    returns (calibrated: nat, changed: bool)
    ensures calibrated == Limited(confidence, CapFor(severity, references))
    ensures changed <==> calibrated < confidence
  {
    var strong, moderate := CountStrengths(references);
    var cap := Cap(severity, strong, moderate, |references|);
    if cap.Some? && confidence > cap.value {
      return cap.value, true;
    }
    return confidence, false;
  }

  method CountStrengths(references: seq<string>) returns (strong: nat, moderate: nat)
    ensures strong == Count(references, Strong) && moderate == Count(references, Moderate)
  {
    strong, moderate := 0, 0;
    assert references[0..] == references;
    for i := 0 to |references|
      invariant strong + Count(references[i..], Strong) == Count(references, Strong)
      invariant moderate + Count(references[i..], Moderate) == Count(references, Moderate)
    {
      assert references[i..][1..] == references[i + 1..];
      match EvidenceStrength(references[i]) {
        case Strong => strong := strong + 1;
        case Moderate => moderate := moderate + 1;
        case Weak =>
      }
    }
  }

  /** `a` allows at most what `b` allows. */
  predicate NoHigher(a: Option<nat>, b: Option<nat>) {
    b.Some? ==> a.Some? && a.value <= b.value
  }

  lemma {:induction false} CountRemoved(references: seq<string>, i: nat, strength: Strength)
    requires i < |references|
    ensures Count(references, strength)
            == Count(references[..i] + references[i + 1..], strength)
               + if EvidenceStrength(references[i]) == strength then 1 else 0
  {
    var rest := references[..i] + references[i + 1..];
    if i == 0 {
      assert rest == references[1..];
    } else {
      CountRemoved(references[1..], i - 1, strength);
      assert references[1..][..i - 1] + references[1..][i..] == rest[1..];
      assert references[1..][i - 1] == references[i];
      assert rest[0] == references[0];
    }
  }

  lemma OneLess(a: seq<string>, x: string, more: seq<string>, rest: seq<string>)
    requires multiset([x] + a) <= multiset(more) && multiset(more) == multiset(rest) + multiset{x}
    ensures multiset(a) <= multiset(rest)
  {
    forall y
      ensures multiset(a)[y] <= multiset(rest)[y]
    {
      assert multiset([x] + a)[y] <= multiset(more)[y];
    }
  }

  lemma {:induction false} CountIsMonotone(fewer: seq<string>, more: seq<string>, strength: Strength)
    requires multiset(fewer) <= multiset(more)
    ensures Count(fewer, strength) <= Count(more, strength) && |fewer| <= |more|
    decreases |fewer|
  {
    if fewer != [] {
      assert fewer == [fewer[0]] + fewer[1..];
      assert fewer[0] in multiset(fewer);
      var i :| 0 <= i < |more| && more[i] == fewer[0];
      var rest := more[..i] + more[i + 1..];
      assert more == more[..i] + [more[i]] + more[i + 1..];
      OneLess(fewer[1..], fewer[0], more, rest);
      CountRemoved(more, i, strength);
      CountIsMonotone(fewer[1..], rest, strength);
    }
  }

  /** More evidence never lowers the cap. */
  lemma MoreEvidenceNeverLowersCap(severity: Severity, fewer: seq<string>, more: seq<string>)
    requires multiset(fewer) <= multiset(more)
    ensures NoHigher(CapFor(severity, fewer), CapFor(severity, more))
  {
    CountIsMonotone(fewer, more, Strong);
    CountIsMonotone(fewer, more, Moderate);
  }

  // ---------- hypotheses ----------

  datatype Hypothesis = Hypothesis(vulnType: string, param: string, standards: seq<string>, severity: Severity,
                                   confidence: nat, reasoning: string, verifySteps: string, evidence: seq<string>)

  datatype Checked = Checked(hypothesis: Hypothesis, grounded: bool)

  /** What was sent, how strings are lowered, and the lookup of standards; `None` when it fails. */
  datatype Context = Context(allowed: set<string>, lower: string -> string,
                             resolve: seq<string> -> Option<seq<string>>)

  const MAX_HYPOTHESES := 4
  const MAX_SUSPICIOUS_PARAMS := 32
  const MAX_EVIDENCE_REFS := 8
  const MAX_STANDARD_REFERENCES := 8
  const MAX_REFERENCE_CHARS := 64

  function RequiredError(text: string, max: nat): nat {
    if Trim(text) == "" || |Trim(text)| > max then 1 else 0
  }

  function OptionalError(text: string, max: nat): nat {
    if |Trim(text)| > max then 1 else 0
  }

  function FirstStandards(standards: seq<string>): seq<string> {
    if |standards| > MAX_STANDARD_REFERENCES then standards[..MAX_STANDARD_REFERENCES] else standards
  }

  function LongReferences(references: seq<string>): nat {
    if references == [] then 0
    else (if |references[0]| > MAX_REFERENCE_CHARS then 1 else 0) + LongReferences(references[1..])
  }

  function ErrorsIn(h: Hypothesis, c: Context): nat {
    RequiredError(h.vulnType, 128) + OptionalError(h.param, 256) + RequiredError(h.reasoning, 4000)
    + RequiredError(h.verifySteps, 4000)
    + (if h.severity.Other? then 1 else 0)
    + (if h.confidence > 100 then 1 else 0)
    + (if c.resolve(FirstStandards(h.standards)).None? then 1 else 0)
    + (if |h.evidence| > MAX_EVIDENCE_REFS then 1 else 0)
    + LongReferences(h.evidence)
  }

  function Cleaned(h: Hypothesis, c: Context): Hypothesis {
    var standards := FirstStandards(h.standards);
    h.(vulnType := Trim(h.vulnType), param := Trim(h.param), reasoning := Trim(h.reasoning),
       verifySteps := Trim(h.verifySteps), standards := c.resolve(standards).GetOr(standards))
  }

  /** The references asked for, long ones and repetitions left out. */
  function Requested(references: seq<string>, known: seq<string>): seq<string> {
    if references == [] then known
    else if |references[0]| > MAX_REFERENCE_CHARS || references[0] in known then Requested(references[1..], known)
    else Requested(references[1..], known + [references[0]])
  }

  function Granted(references: seq<string>, allowed: set<string>): (granted: seq<string>)
    ensures |granted| <= |references|
  {
    if references == [] then []
    else if references[0] in allowed then [references[0]] + Granted(references[1..], allowed)
    else Granted(references[1..], allowed)
  }

  const UNGROUNDED_CAP := 25

  function Ground(h: Hypothesis, c: Context): Checked {
    var requested := Requested(h.evidence, []);
    var granted := Granted(requested, c.allowed);
    var grounded := granted != [] && |granted| == |requested|;
    var cap := if grounded then CapFor(h.severity, granted) else Some(UNGROUNDED_CAP);
    Checked(h.(evidence := granted, confidence := Limited(h.confidence, cap)), grounded)
  }

  datatype Key = Key(vulnType: string, param: string, severity: Severity)

  function KeyOf(h: Hypothesis, c: Context): Key {
    Key(c.lower(h.vulnType), c.lower(h.param), h.severity)
  }

  /** The loop over the hypotheses: the first of each key is kept. */
  function Check(hs: seq<Hypothesis>, seen: set<Key>, c: Context): seq<Checked>
    decreases |hs|
  {
    if hs == [] then []
    else
      var h := Cleaned(hs[0], c);
      if KeyOf(h, c) in seen then Check(hs[1..], seen, c)
      else [Ground(h, c)] + Check(hs[1..], seen + {KeyOf(h, c)}, c)
  }

  function ErrorsInAll(hs: seq<Hypothesis>, c: Context): nat {
    if hs == [] then 0 else ErrorsIn(hs[0], c) + ErrorsInAll(hs[1..], c)
  }

  function GroundedIn(list: seq<Checked>): nat {
    if list == [] then 0 else (if list[0].grounded then 1 else 0) + GroundedIn(list[1..])
  }

  method RequestReferences(references: seq<string>) returns (requested: seq<string>, errors: nat)
    ensures requested == Requested(references, []) && errors == LongReferences(references)
  {
    requested, errors := [], 0;
    assert references[0..] == references;
    for i := 0 to |references|
      invariant Requested(references, []) == Requested(references[i..], requested)
      invariant LongReferences(references) == errors + LongReferences(references[i..])
    {
      assert references[i..][1..] == references[i + 1..];
      if |references[i]| > MAX_REFERENCE_CHARS {
        errors := errors + 1;
      } else if references[i] !in requested {
        requested := requested + [references[i]];
      }
    }
  }

  method GrantReferences(requested: seq<string>, allowed: set<string>) returns (granted: seq<string>)
    ensures granted == Granted(requested, allowed)
  {
    granted := [];
    assert requested[0..] == requested;
    for i := 0 to |requested|
      invariant Granted(requested, allowed) == granted + Granted(requested[i..], allowed)
    {
      assert requested[i..][1..] == requested[i + 1..];
      if requested[i] in allowed {
        granted := granted + [requested[i]];
      }
    }
  }

  method GroundHypothesis(h: Hypothesis, c: Context) returns (checked: Checked)
    ensures checked == Ground(h, c)
  {
    var requested, _ := RequestReferences(h.evidence);
    var granted := GrantReferences(requested, c.allowed);
    if granted != [] && |granted| == |requested| {
      var confidence, _ := CalibrateConfidence(h.severity, h.confidence, granted);
      checked := Checked(h.(evidence := granted, confidence := confidence), true);
    } else {
      var confidence := if h.confidence > UNGROUNDED_CAP then UNGROUNDED_CAP else h.confidence;
      checked := Checked(h.(evidence := granted, confidence := confidence), false);
    }
  }

  lemma {:induction false} GroundedInParts(a: seq<Checked>, x: Checked)
    ensures GroundedIn(a + [x]) == GroundedIn(a) + if x.grounded then 1 else 0
  {
    if a == [] {
      assert a + [x] == [x];
    } else {
      assert (a + [x])[1..] == a[1..] + [x];
      GroundedInParts(a[1..], x);
    }
  }

  /** The next hypothesis is dropped if its key was seen, and otherwise comes out grounded. */
  ghost predicate IsNext(hs: seq<Hypothesis>, i: nat, seen: set<Key>, c: Context, key: Key, x: Checked)
    requires i < |hs|
  {
    Check(hs[i..], seen, c)
    == if key in seen then Check(hs[i + 1..], seen, c) else [x] + Check(hs[i + 1..], seen + {key}, c)
  }

  lemma MoreChecked(done: seq<Checked>, x: Checked, rest: seq<Checked>)
    ensures done + ([x] + rest) == (done + [x]) + rest
  {
  }

  /** The loop of `parse_and_validate`; grounded and ungrounded are all there is. */
  method CheckHypotheses(hs: seq<Hypothesis>, c: Context)
    returns (list: seq<Checked>, errors: nat, grounded: nat, ungrounded: nat)
    ensures list == Check(hs, {}, c) && errors == ErrorsInAll(hs, c)
    ensures grounded == GroundedIn(list) && grounded + ungrounded == |list|
  {
    list, errors, grounded, ungrounded := [], 0, 0, 0;
    var seen: set<Key> := {};
    assert hs[0..] == hs && list + Check(hs, {}, c) == Check(hs, {}, c);
    for i := 0 to |hs|
      invariant Check(hs, {}, c) == list + Check(hs[i..], seen, c)
      invariant ErrorsInAll(hs, c) == errors + ErrorsInAll(hs[i..], c)
      invariant grounded == GroundedIn(list) && grounded + ungrounded == |list|
    {
      var key, checked, found := CheckOne(hs, i, seen, c);
      errors := errors + found;
      if key !in seen {
        MoreChecked(list, checked, Check(hs[i + 1..], seen + {key}, c));
        seen := seen + {key};
        if checked.grounded {
          grounded := grounded + 1;
        } else {
          ungrounded := ungrounded + 1;
        }
        GroundedInParts(list, checked);
        list := list + [checked];
      }
    }
    assert list + [] == list;
  }

  /** One hypothesis cleaned, with its key, its grounding and the errors it counts. */
  method CheckOne(hs: seq<Hypothesis>, i: nat, ghost seen: set<Key>, c: Context)
    returns (key: Key, checked: Checked, errors: nat)
    requires i < |hs|
    ensures IsNext(hs, i, seen, c, key, checked)
    ensures ErrorsInAll(hs[i..], c) == errors + ErrorsInAll(hs[i + 1..], c)
  {
    var h := Cleaned(hs[i], c);
    key := KeyOf(h, c);
    checked := GroundHypothesis(h, c);
    errors := ErrorsIn(hs[i], c);
    assert hs[i..][1..] == hs[i + 1..];
  }

  // ---------- what comes out ----------

  /** References that survived: short and without repetition. */
  ghost predicate Distinct(references: seq<string>) {
    && (forall i :: 0 <= i < |references| ==> |references[i]| <= MAX_REFERENCE_CHARS)
    && (forall i, j :: 0 <= i < j < |references| ==> references[i] != references[j])
  }

  lemma {:induction false} RequestedAreDistinct(references: seq<string>, known: seq<string>)
    requires Distinct(known)
    ensures Distinct(Requested(references, known))
    ensures |Requested(references, known)| <= |known| + |references|
    ensures forall r :: r in Requested(references, known) <==>
              r in known || (r in references && |r| <= MAX_REFERENCE_CHARS)
    decreases |references|
  {
    if references != [] {
      RequestedAreDistinct(references[1..],
        if |references[0]| > MAX_REFERENCE_CHARS || references[0] in known then known else known + [references[0]]);
      assert forall r :: r in references <==> r == references[0] || r in references[1..];
    }
  }

  lemma {:induction false} GrantedMembers(references: seq<string>, allowed: set<string>, r: string)
    ensures r in Granted(references, allowed) <==> r in references && r in allowed
  {
    if references != [] {
      GrantedMembers(references[1..], allowed, r);
      assert r in references <==> r == references[0] || r in references[1..];
    }
  }

  lemma {:induction false} GrantedAreDistinct(references: seq<string>, allowed: set<string>)
    requires Distinct(references)
    ensures Distinct(Granted(references, allowed))
  {
    if references != [] {
      GrantedAreDistinct(references[1..], allowed);
      GrantedMembers(references[1..], allowed, references[0]);
      forall i | 0 <= i < |Granted(references[1..], allowed)|
        ensures |Granted(references[1..], allowed)[i]| <= MAX_REFERENCE_CHARS
      {
        GrantedMembers(references[1..], allowed, Granted(references[1..], allowed)[i]);
      }
    }
  }

  /** The evidence kept is exactly what was asked for, short enough, and sent. */
  lemma GroundedEvidence(h: Hypothesis, c: Context, r: string)
    ensures var kept := Ground(h, c).hypothesis.evidence;
            && Distinct(kept) && |kept| <= |h.evidence|
            && (r in kept <==> r in h.evidence && |r| <= MAX_REFERENCE_CHARS && r in c.allowed)
  {
    RequestedAreDistinct(h.evidence, []);
    GrantedAreDistinct(Requested(h.evidence, []), c.allowed);
    GrantedMembers(Requested(h.evidence, []), c.allowed, r);
  }

  /** `x` is what became of `h`, and its confidence has not risen. */
  predicate From(x: Checked, h: Hypothesis, c: Context) {
    x == Ground(Cleaned(h, c), c) && x.hypothesis.confidence <= h.confidence
  }

  /** Every result comes from a hypothesis, with no more confidence than that had. */
  lemma {:induction false} ConfidenceNeverRises(hs: seq<Hypothesis>, seen: set<Key>, c: Context, x: Checked)
    returns (h: Hypothesis)
    requires x in Check(hs, seen, c)
    ensures h in hs && From(x, h, c)
    decreases |hs|
  {
    var key := KeyOf(Cleaned(hs[0], c), c);
    if key !in seen && x == Ground(Cleaned(hs[0], c), c) {
      h := hs[0];
    } else {
      h := ConfidenceNeverRises(hs[1..], if key in seen then seen else seen + {key}, c, x);
    }
  }

  lemma GroundKeepsKey(h: Hypothesis, c: Context)
    ensures KeyOf(Ground(h, c).hypothesis, c) == KeyOf(h, c)
  {
  }

  function KeysOf(list: seq<Checked>, c: Context): (keys: seq<Key>)
    ensures |keys| == |list|
  {
    if list == [] then [] else [KeyOf(list[0].hypothesis, c)] + KeysOf(list[1..], c)
  }

  ghost predicate NewAndDistinct(keys: seq<Key>, seen: set<Key>) {
    && (forall i :: 0 <= i < |keys| ==> keys[i] !in seen)
    && (forall i, j :: 0 <= i < j < |keys| ==> keys[i] != keys[j])
  }

  /** Results have distinct keys, and only new ones. */
  lemma {:induction false} KeysAreDistinct(hs: seq<Hypothesis>, seen: set<Key>, c: Context)
    ensures NewAndDistinct(KeysOf(Check(hs, seen, c), c), seen)
    decreases |hs|
  {
    if hs != [] {
      var h := Cleaned(hs[0], c);
      var key := KeyOf(h, c);
      if key in seen {
        KeysAreDistinct(hs[1..], seen, c);
      } else {
        var rest := Check(hs[1..], seen + {key}, c);
        KeysAreDistinct(hs[1..], seen + {key}, c);
        GroundKeepsKey(h, c);
        assert ([Ground(h, c)] + rest)[1..] == rest;
      }
    }
  }

  /** And no key is lost: every hypothesis is represented by a result, unless its key was seen before. */
  lemma {:induction false} KeysAreKept(hs: seq<Hypothesis>, seen: set<Key>, c: Context, i: nat)
    requires i < |hs| && KeyOf(Cleaned(hs[i], c), c) !in seen
    ensures KeyOf(Cleaned(hs[i], c), c) in KeysOf(Check(hs, seen, c), c)
    decreases |hs|
  {
    var h := Cleaned(hs[0], c);
    var key := KeyOf(h, c);
    if key in seen {
      KeysAreKept(hs[1..], seen, c, i - 1);
    } else {
      var rest := Check(hs[1..], seen + {key}, c);
      GroundKeepsKey(h, c);
      assert ([Ground(h, c)] + rest)[1..] == rest;
      if key != KeyOf(Cleaned(hs[i], c), c) {
        KeysAreKept(hs[1..], seen + {key}, c, i - 1);
      }
    }
  }
}
