/**
  What validation makes of one hypothesis and of a list of them, said of the references and keys
  themselves: when a hypothesis is grounded, what it keeps, how sure it may be, and which survive.
 */
module Grounding {
  import opened Wrappers
  import opened Text
  import opened Calibration

  // ---------- grounded, and how sure ----------

  predicate Short(reference: string) {
    |reference| <= 64
  }

  /** A hypothesis is grounded when a short reference is asked for and every such reference was sent. */
  lemma GroundedIffAllSent(h: Hypothesis, c: Context)
    ensures Ground(h, c).grounded <==>
              && (exists r :: r in h.evidence && Short(r))
              && (forall r :: r in h.evidence && Short(r) ==> r in c.allowed)
  {
    var requested := Requested(h.evidence, []);
    forall r
      ensures r in requested <==> r in h.evidence && Short(r)
    {
      RequestedMembers(h.evidence, [], r);
    }
    GrantedAllIff(requested, c.allowed);
    assert requested != [] ==> requested[0] in h.evidence && Short(requested[0]);
  }

  lemma {:induction false} RequestedMembers(references: seq<string>, known: seq<string>, r: string)
    ensures r in Requested(references, known) <==> r in known || (r in references && Short(r))
  {
    if references != [] {
      RequestedMembers(references[1..], known, r);
      RequestedMembers(references[1..], known + [references[0]], r);
      assert r in references <==> r == references[0] || r in references[1..];
    }
  }

  lemma {:induction false} GrantedAllIff(references: seq<string>, allowed: set<string>)
    ensures |Granted(references, allowed)| == |references| <==> forall r :: r in references ==> r in allowed
    ensures (forall r :: r in references ==> r in allowed) ==> Granted(references, allowed) == references
  {
    if references != [] {
      GrantedAllIff(references[1..], allowed);
      assert references == [references[0]] + references[1..];
    }
  }

  /** Whether one of the references is a body, or a header, a status or a rule tag. */
  predicate CitesBody(references: seq<string>) {
    "request.body" in references || "response.body" in references
  }

  predicate CitesHeader(references: seq<string>) {
    || "request.headers" in references || "response.headers" in references
    || "response.status" in references || "passive.rule_tags" in references
  }

  /** The limit on confidence by severity and kind of evidence. */
  ghost predicate LimitIs(severity: Severity, references: seq<string>, limit: Option<nat>) {
    match severity
    case Critical =>
      limit == if CitesBody(references) then if |references| < 2 then Some(80) else None
               else if CitesHeader(references) then Some(60) else Some(45)
    case High =>
      limit == if CitesBody(references) then if |references| < 2 then Some(85) else None
               else if CitesHeader(references) then Some(70) else Some(45)
    case Medium =>
      limit == if CitesBody(references) then None else if CitesHeader(references) then Some(70) else Some(45)
    case Low => limit == if CitesBody(references) || CitesHeader(references) then None else Some(40)
    case Info => limit == if CitesBody(references) || CitesHeader(references) then None else Some(40)
    case Other(_) => limit == None
  }

  lemma {:induction false} NoneCounted(references: seq<string>)
    ensures Count(references, Strong) == 0 <==> !CitesBody(references)
    ensures Count(references, Moderate) == 0 <==> !CitesHeader(references)
  {
    if references != [] {
      NoneCounted(references[1..]);
      FirstCites(references);
    }
  }

  lemma FirstCites(references: seq<string>)
    requires references != []
    ensures CitesBody(references) <==> EvidenceStrength(references[0]) == Strong || CitesBody(references[1..])
    ensures CitesHeader(references) <==> EvidenceStrength(references[0]) == Moderate || CitesHeader(references[1..])
  {
    assert forall r: string :: r in references <==> r == references[0] || r in references[1..];
  }

  lemma CapIsLimit(severity: Severity, references: seq<string>)
    ensures LimitIs(severity, references, CapFor(severity, references))
  {
    NoneCounted(references);
  }

  /** The confidence is the one claimed, or the limit if that is lower: 25 without grounding. */
  lemma ConfidenceIsLimited(h: Hypothesis, c: Context, limit: Option<nat>)
    requires if Ground(h, c).grounded then LimitIs(h.severity, Ground(h, c).hypothesis.evidence, limit)
             else limit == Some(25)
    ensures Ground(h, c).hypothesis.confidence
            == if limit.Some? && limit.value < h.confidence then limit.value else h.confidence
  {
    CapIsLimit(h.severity, Ground(h, c).hypothesis.evidence);
  }

  /** Nothing else of a hypothesis changes. */
  lemma GroundKeepsTheRest(h: Hypothesis, c: Context)
    ensures var g := Ground(h, c).hypothesis;
            && g.vulnType == h.vulnType && g.param == h.param && g.standards == h.standards
            && g.severity == h.severity && g.reasoning == h.reasoning && g.verifySteps == h.verifySteps
  {
  }

  // ---------- the evidence keeps its order ----------

  /** From position `i` on, the short references that have not occurred before. */
  function NewFrom(references: seq<string>, i: nat): seq<string>
    requires i <= |references|
    decreases |references| - i
  {
    if i == |references| then []
    else
      (if Short(references[i]) && references[i] !in references[..i] then [references[i]] else [])
      + NewFrom(references, i + 1)
  }

  /** And of these the ones that were sent. */
  function KeptFrom(references: seq<string>, i: nat, allowed: set<string>): seq<string>
    requires i <= |references|
    decreases |references| - i
  {
    if i == |references| then []
    else
      (if Short(references[i]) && references[i] !in references[..i] && references[i] in allowed
       then [references[i]] else [])
      + KeptFrom(references, i + 1, allowed)
  }

  ghost predicate KnownUpTo(known: seq<string>, references: seq<string>, i: nat)
    requires i <= |references|
  {
    forall r :: r in known <==> r in references[..i] && Short(r)
  }

  lemma {:induction false} RequestedAreNew(references: seq<string>, i: nat, known: seq<string>)
    requires i <= |references| && KnownUpTo(known, references, i)
    ensures Requested(references[i..], known) == known + NewFrom(references, i)
    decreases |references| - i
  {
    if i == |references| {
      assert known + [] == known;
    } else {
      var r, later := references[i], NewFrom(references, i + 1);
      assert references[i..][1..] == references[i + 1..];
      assert references[..i + 1] == references[..i] + [r];
      if |r| > 64 || r in known {
        RequestedAreNew(references, i + 1, known);
        assert [] + later == later;
      } else {
        RequestedAreNew(references, i + 1, known + [r]);
        Regroup(known, [r], later);
      }
    }
  }

  lemma {:induction false} GrantedOfSum(a: seq<string>, b: seq<string>, allowed: set<string>)
    ensures Granted(a + b, allowed) == Granted(a, allowed) + Granted(b, allowed)
  {
    if a == [] {
      assert a + b == b;
    } else {
      assert (a + b)[1..] == a[1..] + b;
      GrantedOfSum(a[1..], b, allowed);
    }
  }

  lemma {:induction false} GrantedOfNew(references: seq<string>, i: nat, allowed: set<string>)
    requires i <= |references|
    ensures Granted(NewFrom(references, i), allowed) == KeptFrom(references, i, allowed)
    decreases |references| - i
  {
    if i < |references| {
      var first := if Short(references[i]) && references[i] !in references[..i] then [references[i]] else [];
      GrantedOfSum(first, NewFrom(references, i + 1), allowed);
      GrantedOfNew(references, i + 1, allowed);
    }
  }

  /** The evidence kept is what was asked for at its first place, in order, if it is short and was sent. */
  lemma EvidenceKeepsItsOrder(h: Hypothesis, c: Context)
    ensures Ground(h, c).hypothesis.evidence == KeptFrom(h.evidence, 0, c.allowed)
  {
    RequestedAreNew(h.evidence, 0, []);
    assert h.evidence[0..] == h.evidence && [] + NewFrom(h.evidence, 0) == NewFrom(h.evidence, 0);
    GrantedOfNew(h.evidence, 0, c.allowed);
  }

  // ---------- which hypotheses survive ----------

  function KeysFor(hs: seq<Hypothesis>, c: Context): (keys: seq<Key>)
    ensures |keys| == |hs|
  {
    if hs == [] then [] else [KeyOf(Cleaned(hs[0], c), c)] + KeysFor(hs[1..], c)
  }

  function ResultsFor(hs: seq<Hypothesis>, c: Context): (results: seq<Checked>)
    ensures |results| == |hs|
  {
    if hs == [] then [] else [Ground(Cleaned(hs[0], c), c)] + ResultsFor(hs[1..], c)
  }

  /** From position `i` on, each element whose key no earlier one has. */
  function FirstsFrom<K(==), X>(keys: seq<K>, xs: seq<X>, i: nat): seq<X>
    requires |keys| == |xs| && i <= |keys|
    decreases |keys| - i
  {
    if i == |keys| then [] else (if keys[i] in keys[..i] then [] else [xs[i]]) + FirstsFrom(keys, xs, i + 1)
  }

  function Deduplicated<K(==), X>(keys: seq<K>, xs: seq<X>, seen: set<K>): seq<X>
    requires |keys| == |xs|
  {
    if keys == [] then []
    else if keys[0] in seen then Deduplicated(keys[1..], xs[1..], seen)
    else [xs[0]] + Deduplicated(keys[1..], xs[1..], seen + {keys[0]})
  }

  lemma {:induction false} CheckDeduplicates(hs: seq<Hypothesis>, seen: set<Key>, c: Context)
    ensures Check(hs, seen, c) == Deduplicated(KeysFor(hs, c), ResultsFor(hs, c), seen)
    decreases |hs|
  {
    if hs != [] {
      var key := KeyOf(Cleaned(hs[0], c), c);
      CheckDeduplicates(hs[1..], if key in seen then seen else seen + {key}, c);
      assert KeysFor(hs, c)[1..] == KeysFor(hs[1..], c) && ResultsFor(hs, c)[1..] == ResultsFor(hs[1..], c);
    }
  }

  lemma {:induction false} FirstsAreDeduplicated<K, X>(keys: seq<K>, xs: seq<X>, i: nat, seen: set<K>)
    requires |keys| == |xs| && i <= |keys|
    requires forall k :: k in seen <==> k in keys[..i]
    ensures Deduplicated(keys[i..], xs[i..], seen) == FirstsFrom(keys, xs, i)
    decreases |keys| - i
  {
    if i < |keys| {
      assert keys[i..][1..] == keys[i + 1..] && xs[i..][1..] == xs[i + 1..];
      assert keys[..i + 1] == keys[..i] + [keys[i]];
      if keys[i] in seen {
        FirstsAreDeduplicated(keys, xs, i + 1, seen);
        assert [] + FirstsFrom(keys, xs, i + 1) == FirstsFrom(keys, xs, i + 1);
      } else {
        FirstsAreDeduplicated(keys, xs, i + 1, seen + {keys[i]});
      }
    }
  }

  /** The hypotheses that survive are the first of each key, in order. */
  lemma FirstOfEachKeySurvives(hs: seq<Hypothesis>, c: Context)
    ensures Check(hs, {}, c) == FirstsFrom(KeysFor(hs, c), ResultsFor(hs, c), 0)
  {
    var keys, results := KeysFor(hs, c), ResultsFor(hs, c);
    CheckDeduplicates(hs, {}, c);
    FirstsAreDeduplicated(keys, results, 0, {});
    assert keys[0..] == keys && results[0..] == results;
  }
}
