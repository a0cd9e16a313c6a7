/** What is sent of one captured body, byte for byte, and which gate kept it back if none is. */
module ContextGates {
  import opened Utf8
  import opened ContextBudget

  /** The redacted text of a capture: through the redactor for bodies, or that for encoded bytes. */
  ghost predicate IsRedacted(redacted: bytes, c: Capture, redactors: Redactors) {
    match (c.text, c.base64)
    case (Some(text), _) => redacted == redactors.body(text)
    case (None, Some(base64)) =>
      redacted == ['b' as int, 'a' as int, 's' as int, 'e' as int, '6' as int, '4' as int, ':' as int]
                  + redactors.fallback(base64)
    case (None, None) => redacted == []
  }

  /** All of the text if it fits, and otherwise its longest beginning that leaves room for the marker, and that. */
  ghost predicate IsLimited(content: bytes, redacted: bytes, limit: nat, marker: bytes) {
    if |redacted| <= limit then content == redacted
    else
      limit > |marker|
      && exists t :: content == t + marker && LongestBeginning(t, redacted, limit - |marker|)
  }

  lemma LimitedIsSent(c: Capture, limit: nat, redacted: bytes, marker: bytes)
    requires IsMarker(marker) && Valid(redacted)
    ensures var body := LimitBody(c, limit, redacted, marker);
            body.content.Some? ==> IsLimited(body.content.value, redacted, limit, marker)
  {
    if |redacted| > limit > |marker| {
      var t := Truncated(redacted, limit - |marker|);
      TruncatedIsLongestValid(redacted, limit - |marker|);
      assert LongestBeginning(t, redacted, limit - |marker|);
      assert WithMarker(redacted, limit, marker) == t + marker;
    }
  }

  /** Nothing but redacted text is ever sent, as much of it as the limit allows. */
  lemma OnlyRedactedTextIsSent(c: Capture, limit: nat, policy: Policy, redactors: Redactors, marker: bytes,
                               redacted: bytes)
    requires IsMarker(marker) && IsRedacted(redacted, c, redactors) && Valid(redacted)
    ensures var body := PrepareBody(c, limit, policy, redactors, marker);
            && body.sourceBytes == (if c.size > 0 then c.size else 0)
            && (body.content.Some? ==> IsLimited(body.content.value, redacted, limit, marker))
  {
    assert redacted == Redacted(c, redactors);
    LimitedIsSent(c, limit, redacted, marker);
  }

  /** The six statuses of a body that could not be decoded or read to its end. */
  predicate Unusable(status: string) {
    || status == "decode_failed" || status == "unsupported_encoding" || status == "encoded_truncated"
    || status == "decode_truncated" || status == "stream_error" || status == "stream_incomplete"
  }

  /** The gates in their order, each with the reason it gives. */
  ghost predicate GateHolds(gate: Reason, c: Capture, limit: nat, policy: Policy, redacted: bytes, marker: bytes) {
    match gate
    case CapturedBodyTruncated => c.truncated && !policy.includeTruncated
    case DecodeStatusNotSendable => Unusable(c.status) && !policy.includeDecodeFailed
    case BodyNotCaptured => c.text.None? && c.base64.None?
    case PolicyLimitZero => limit == 0
    case BinaryBodyNotEnabled => c.text.None? && !Unusable(c.status) && !policy.includeBinary
    case EmptyBody => redacted == []
    case PolicyLimitTooSmall => |redacted| > limit && limit <= |marker|
    case _ => false
  }

  const GATES := [CapturedBodyTruncated, DecodeStatusNotSendable, BodyNotCaptured, PolicyLimitZero,
                  BinaryBodyNotEnabled, EmptyBody, PolicyLimitTooSmall]

  /** The reason is that of the first gate that holds the body back, if one does. */
  lemma FirstGateGivesReason(c: Capture, limit: nat, policy: Policy, redactors: Redactors, marker: bytes,
                             redacted: bytes, i: nat)
    requires IsMarker(marker) && IsRedacted(redacted, c, redactors) && i < |GATES|
    requires forall j :: 0 <= j < i ==> !GateHolds(GATES[j], c, limit, policy, redacted, marker)
    ensures var body := PrepareBody(c, limit, policy, redactors, marker);
            && (GateHolds(GATES[i], c, limit, policy, redacted, marker) ==>
                  body.reason == GATES[i] && body.content.None?)
            && (i == |GATES| - 1 && !GateHolds(GATES[i], c, limit, policy, redacted, marker) ==>
                  body.content.Some? && SaysIncluded(body.reason))
  {
    assert redacted == Redacted(c, redactors);
    assert Unusable(c.status) <==> c.status in UNUSABLE;
    assert GATES[0] == CapturedBodyTruncated && GATES[1] == DecodeStatusNotSendable && GATES[2] == BodyNotCaptured;
    assert GATES[3] == PolicyLimitZero && GATES[4] == BinaryBodyNotEnabled && GATES[5] == EmptyBody;
    assert GATES[6] == PolicyLimitTooSmall;
  }

  /** A body that is sent says under which permission: the first that it needed. */
  lemma PermissionIsNamed(c: Capture, limit: nat, policy: Policy, redactors: Redactors, marker: bytes)
    ensures var body := PrepareBody(c, limit, policy, redactors, marker);
            body.content.Some? ==>
              body.reason == if c.truncated then IncludedTruncated
                             else if Unusable(c.status) then IncludedAfterDecodeFailure
                             else if c.text.None? then IncludedBinary
                             else Included
  {
    assert Unusable(c.status) <==> c.status in UNUSABLE;
  }
}
