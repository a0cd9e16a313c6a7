/**
  Fitting HTTP bodies into the context budget: truncation at character boundaries, the
  policy gates of `prepare_body`, and the loop of `build_preview` that shortens the bodies
  until the rendered prompt fits.
 */
module ContextBudget {
  import opened Wrappers
  import opened Utf8

  // ---------- truncation ----------

  /** The last boundary at or before `i`. */
  function BoundaryBefore(s: bytes, i: nat): (b: nat)
    requires i <= |s|
    ensures b <= i && IsBoundary(s, b)
    ensures forall k :: b < k <= i ==> !IsBoundary(s, k)
  {
    if IsBoundary(s, i) then i else BoundaryBefore(s, i - 1)
  }

  function Truncated(s: bytes, max: nat): bytes {
    if |s| <= max then s else s[..BoundaryBefore(s, max)]
  }

  method TruncateUtf8(s: bytes, max: nat) returns (kept: bytes, truncated: bool)
    ensures kept == Truncated(s, max) && (truncated <==> |s| > max)
  {
    if |s| <= max { return s, false; }
    if max == 0 { return [], true; }
    var boundary: nat := max;
    while boundary > 0 && !IsBoundary(s, boundary)
      invariant BoundaryBefore(s, max) == BoundaryBefore(s, boundary)
      invariant boundary <= max
    {
      boundary := boundary - 1;
    }
    return s[..boundary], true;
  }

  /** Truncation keeps the longest beginning that fits and is still UTF-8. */
  lemma TruncatedIsLongestValid(s: bytes, max: nat)
    requires Valid(s)
    ensures var t := Truncated(s, max);
            && Valid(t) && t <= s && |t| <= max
            && forall k :: |t| < k <= max && k <= |s| ==> !Valid(s[..k])
  {
    if |s| > max {
      var b := BoundaryBefore(s, max);
      BoundarySplits(s, b);
      forall k | b < k <= max
        ensures !Valid(s[..k])
      {
        if Valid(s[..k]) {
          ValidPrefixEndsAtBoundary(s, k);
        }
      }
    }
  }

  function WithMarker(s: bytes, max: nat, marker: bytes): bytes {
    if |s| <= max then s
    else if max <= |marker| then []
    else Truncated(s, max - |marker|) + marker
  }

  method TruncateUtf8WithMarker(s: bytes, max: nat, marker: bytes) returns (kept: bytes, truncated: bool)
    ensures kept == WithMarker(s, max, marker) && (truncated <==> |s| > max)
  {
    if |s| <= max { return s, false; }
    if max <= |marker| { return [], true; }
    var cut, _ := TruncateUtf8(s, max - |marker|);
    return cut + marker, true;
  }

  lemma CutAndMarkedFits(s: bytes, max: nat, marker: bytes)
    requires Valid(s) && Valid(marker) && |s| > max
    ensures Valid(Truncated(s, max) + marker) && |Truncated(s, max)| <= max
  {
    TruncatedIsLongestValid(s, max);
    ValidAppend(Truncated(s, max), marker);
  }

  lemma MarkedFits(s: bytes, max: nat, marker: bytes)
    requires Valid(s) && Valid(marker)
    ensures Valid(WithMarker(s, max, marker)) && |WithMarker(s, max, marker)| <= max
  {
    if |s| > max > |marker| {
      CutAndMarkedFits(s, max - |marker|, marker);
    }
  }

  /** What the proofs ask of a truncation marker. */
  ghost predicate IsMarker(marker: bytes) {
    marker != [] && Valid(marker)
  }

  const BODY_POLICY_LIMIT_MARKER := "\n[OMITTED:body_policy_limit]"
  const TOTAL_CONTEXT_LIMIT_MARKER := "\n[OMITTED:total_context_limit]"

  /** The program's two markers are ASCII. */
  lemma ProgramMarkersAreAscii(marker: string)
    requires marker == BODY_POLICY_LIMIT_MARKER || marker == TOTAL_CONTEXT_LIMIT_MARKER
    ensures IsAscii(marker) && marker != ""
  {
  }

  lemma AsciiIsMarker(text: string)
    requires IsAscii(text) && text != ""
    ensures IsMarker(Ascii(text))
  {
    AsciiIsValid(Ascii(text));
  }

  lemma ProgramMarkers(marker: string)
    requires marker == BODY_POLICY_LIMIT_MARKER || marker == TOTAL_CONTEXT_LIMIT_MARKER
    ensures IsAscii(marker) && IsMarker(Ascii(marker))
  {
    ProgramMarkersAreAscii(marker);
    AsciiIsMarker(marker);
  }

  // ---------- the policy gates ----------

  datatype Policy = Policy(redactBodySecrets: bool, includeTruncated: bool, includeBinary: bool,
                           includeDecodeFailed: bool)

  datatype Reason =
    | CapturedBodyTruncated | DecodeStatusNotSendable | BodyNotCaptured | PolicyLimitZero
    | BinaryBodyNotEnabled | EmptyBody | PolicyLimitTooSmall | OmittedByTotalLimit
    | Included | IncludedTruncated | IncludedAfterDecodeFailure | IncludedBinary

  datatype Body = Body(sourceBytes: nat, content: Option<bytes>, reason: Reason, truncatedByPolicy: bool) {

    function Length(): nat {
      if content.Some? then |content.value| else 0
    }
  }

  const UNUSABLE := {"decode_failed", "unsupported_encoding", "encoded_truncated", "decode_truncated",
                     "stream_error", "stream_incomplete"}

  /** A captured body: text, or base64 when the bytes are not text; sizes may be reported negative. */
  datatype Capture = Capture(text: Option<bytes>, base64: Option<bytes>, status: string, size: int, truncated: bool)

  /** The redactors, whose patterns are not part of this model. */
  datatype Redactors = Redactors(body: bytes -> bytes, fallback: bytes -> bytes)

  /** The bytes of `base64:`. */
  const BASE64_PREFIX: bytes := [0x62, 0x61, 0x73, 0x65, 0x36, 0x34, 0x3A]

  function Redacted(c: Capture, redactors: Redactors): bytes {
    if c.text.Some? then redactors.body(c.text.value)
    else if c.base64.Some? then BASE64_PREFIX + redactors.fallback(c.base64.value)
    else []
  }

  function SourceBytes(c: Capture): nat {
    if c.size < 0 then 0 else c.size
  }

  function InclusionReason(c: Capture): Reason {
    if c.truncated then IncludedTruncated
    else if c.status in UNUSABLE then IncludedAfterDecodeFailure
    else if c.text.None? then IncludedBinary
    else Included
  }

  /** The last part of `prepare_body`: cutting the redacted text to the policy limit. */
  function LimitBody(c: Capture, limit: nat, redacted: bytes, marker: bytes): Body {
    if redacted == [] then Body(SourceBytes(c), None, EmptyBody, false)
    else
      var content := WithMarker(redacted, limit, marker);
      if content == [] then Body(SourceBytes(c), None, PolicyLimitTooSmall, true)
      else Body(SourceBytes(c), Some(content), InclusionReason(c), |redacted| > limit)
  }

  function PrepareBody(c: Capture, limit: nat, policy: Policy, redactors: Redactors, marker: bytes): Body {
    var unusable := c.status in UNUSABLE;
    if c.truncated && !policy.includeTruncated then Body(SourceBytes(c), None, CapturedBodyTruncated, false)
    else if unusable && !policy.includeDecodeFailed then Body(SourceBytes(c), None, DecodeStatusNotSendable, false)
    else if c.text.None? && c.base64.None? then Body(SourceBytes(c), None, BodyNotCaptured, false)
    else if limit == 0 then Body(SourceBytes(c), None, PolicyLimitZero, true)
    else if c.text.None? && !(if unusable then policy.includeDecodeFailed else policy.includeBinary) then
      Body(SourceBytes(c), None, BinaryBodyNotEnabled, false)
    else LimitBody(c, limit, Redacted(c, redactors), marker)
  }

  /** Whether the policy lets this capture into the prompt at all. */
  predicate Permitted(c: Capture, policy: Policy) {
    && (c.truncated ==> policy.includeTruncated)
    && (c.status in UNUSABLE ==> policy.includeDecodeFailed)
    && (c.text.None? ==> c.base64.Some? && (c.status in UNUSABLE || policy.includeBinary))
  }

  /** What a body that may enter the shortening loop looks like. */
  ghost predicate Sendable(body: Body) {
    body.content.Some? ==> body.content.value != [] && Valid(body.content.value)
  }

  /** The cut leaves nothing exactly when there is nothing, or no room for more than the marker. */
  lemma LimitBodyKeeps(c: Capture, limit: nat, redacted: bytes, marker: bytes)
    requires limit > 0 && IsMarker(marker)
    ensures LimitBody(c, limit, redacted, marker).content.Some?
            <==> redacted != [] && (|redacted| <= limit || |marker| < limit)
    ensures Valid(redacted) ==>
              Sendable(LimitBody(c, limit, redacted, marker)) && LimitBody(c, limit, redacted, marker).Length() <= limit
  {
    if Valid(redacted) {
      MarkedFits(redacted, limit, marker);
    }
  }

  /** A body is sent exactly when the policy permits it and something of it fits; then it is UTF-8 within the limit. */
  lemma SentIffPermittedAndFits(c: Capture, limit: nat, policy: Policy, redactors: Redactors, marker: bytes)
    requires IsMarker(marker)
    ensures var body, redacted := PrepareBody(c, limit, policy, redactors, marker), Redacted(c, redactors);
            && (body.content.Some? <==>
                  && Permitted(c, policy)
                  && limit > 0
                  && redacted != []
                  && (|redacted| <= limit || |marker| < limit))
            && (Valid(redacted) ==> Sendable(body) && body.Length() <= limit)
  {
    if limit > 0 {
      LimitBodyKeeps(c, limit, Redacted(c, redactors), marker);
    }
  }

  predicate SaysIncluded(reason: Reason) {
    || reason == Included || reason == IncludedTruncated
    || reason == IncludedAfterDecodeFailure || reason == IncludedBinary
  }

  /** The reason given tells whether a body is sent, under which permission, and whether its limit cut it. */
  lemma ReasonTellsWhatHappened(c: Capture, limit: nat, policy: Policy, redactors: Redactors, marker: bytes)
    ensures var body := PrepareBody(c, limit, policy, redactors, marker);
            && (body.content.Some? <==> SaysIncluded(body.reason))
            && (body.reason == IncludedTruncated ==> c.truncated && policy.includeTruncated)
            && (body.reason == IncludedAfterDecodeFailure ==> c.status in UNUSABLE && policy.includeDecodeFailed)
            && (body.reason == IncludedBinary ==> c.text.None? && c.base64.Some? && policy.includeBinary)
            && (body.reason == Included ==> c.text.Some? && !c.truncated && c.status !in UNUSABLE)
            && (body.truncatedByPolicy <==>
                  if body.content.Some? then |Redacted(c, redactors)| > limit
                  else body.reason == PolicyLimitZero || body.reason == PolicyLimitTooSmall)
  {
  }

  // ---------- the shrinking loop ----------

  datatype Bodies = Bodies(request: Body, response: Body) {

    function Length(): nat {
      request.Length() + response.Length()
    }
  }

  /** The size of system prompt and rendered retry prompt for the two bodies; any function at all. */
  type Total = (Option<bytes>, Option<bytes>) -> nat

  function Size(total: Total, bodies: Bodies): nat {
    total(bodies.request.content, bodies.response.content)
  }

  datatype Preview = Fits(bodies: Bodies, omissions: nat) | FixedPartTooLarge

  /** How many bytes the next cut aims for: at least 256 go, and at least the overflow. */
  function Keep(length: nat, overflow: nat): (keep: nat)
    ensures keep == 0 || keep + 256 <= length
    ensures length > 0 ==> keep < length
  {
    var cut := if overflow > 256 then overflow else 256;
    if length > cut then length - cut else 0
  }

  function Shorten(body: Body, overflow: nat, marker: bytes): Body
    requires body.content.Some?
  {
    var shortened := WithMarker(body.content.value, Keep(body.Length(), overflow), marker);
    if shortened == [] then body.(content := None, reason := OmittedByTotalLimit, truncatedByPolicy := true)
    else body.(content := Some(shortened), truncatedByPolicy := true)
  }

  lemma ShortenShortens(body: Body, overflow: nat, marker: bytes)
    requires body.Length() > 0
    ensures Shorten(body, overflow, marker).Length() < body.Length()
    ensures Shorten(body, overflow, marker).content.Some? ==> Shorten(body, overflow, marker).Length() > 0
  {
  }

  /** What is left of a content of this length when at least the overflow, and at least 256 bytes, must go. */
  predicate Room(length: nat, overflow: nat, room: nat) {
    room + overflow <= length && room + 256 <= length && (room + overflow == length || room + 256 == length)
  }

  /** `t` is the longest UTF-8 beginning of `s` of at most `max` bytes. */
  ghost predicate LongestBeginning(t: bytes, s: bytes, max: nat) {
    && t <= s && Valid(t) && |t| <= max
    && forall k :: |t| < k <= max && k <= |s| ==> !Valid(s[..k])
  }

  /**
    A cut never drops what would fit: if there is room for the marker and something before it, the
    body keeps the longest beginning for which there is room, and the marker; otherwise it goes.
   */
  lemma CutKeepsWhatFits(body: Body, overflow: nat, room: nat, marker: bytes)
    requires Sendable(body) && body.content.Some? && IsMarker(marker)
    ensures var next := Shorten(body, overflow, marker);
            && (Room(body.Length(), overflow, room) && room > |marker| ==>
                  && next.content.Some? && next.reason == body.reason
                  && exists t :: next.content.value == t + marker
                                 && LongestBeginning(t, body.content.value, room - |marker|))
            && (body.Length() > 0 && (forall r: nat :: Room(body.Length(), overflow, r) ==> r <= |marker|) ==>
                  next.content.None? && next.reason == OmittedByTotalLimit)
            && next.truncatedByPolicy && next.sourceBytes == body.sourceBytes
  {
    var content, keep := body.content.value, Keep(body.Length(), overflow);
    if Room(body.Length(), overflow, room) && room > |marker| {
      assert keep == room;
      TruncatedIsLongestValid(content, room - |marker|);
      assert WithMarker(content, room, marker) == Truncated(content, room - |marker|) + marker;
    }
    if body.Length() > 0 && keep > 0 {
      assert Room(body.Length(), overflow, keep);
    }
  }

  /** One iteration: the response is cut while there is one, then the request. */
  function Cut(bodies: Bodies, overflow: nat, marker: bytes): (next: Bodies)
    requires bodies.Length() > 0
    ensures next.Length() < bodies.Length()
  {
    if bodies.response.Length() > 0 then
      ShortenShortens(bodies.response, overflow, marker);
      bodies.(response := Shorten(bodies.response, overflow, marker))
    else
      ShortenShortens(bodies.request, overflow, marker);
      bodies.(request := Shorten(bodies.request, overflow, marker))
  }

  function Shrink(bodies: Bodies, total: Total, limit: nat, marker: bytes, omissions: nat): Preview
    decreases bodies.Length()
  {
    if Size(total, bodies) <= limit then Fits(bodies, omissions)
    else if bodies.Length() == 0 then FixedPartTooLarge
    else Shrink(Cut(bodies, Size(total, bodies) - limit, marker), total, limit, marker, omissions + 1)
  }

  predicate Counts(from: Bodies, omissions: nat, p: Preview) {
    p.Fits? ==>
      && omissions <= p.omissions && p.bodies.Length() + (p.omissions - omissions) <= from.Length()
      && (p.omissions == omissions ==> p.bodies == from)
  }

  lemma CountsOneMore(from: Bodies, next: Bodies, omissions: nat, p: Preview)
    requires next.Length() < from.Length() && Counts(next, omissions + 1, p)
    ensures Counts(from, omissions, p)
  {
  }

  /** Every iteration records one omission and removes at least one byte. */
  lemma {:induction false} ShrinkCounts(bodies: Bodies, total: Total, limit: nat, marker: bytes, omissions: nat)
    ensures Counts(bodies, omissions, Shrink(bodies, total, limit, marker, omissions))
    decreases bodies.Length()
  {
    if Size(total, bodies) > limit && bodies.Length() > 0 {
      var next := Cut(bodies, Size(total, bodies) - limit, marker);
      ShrinkStep(bodies, Size(total, bodies) - limit, next, total, limit, marker, omissions,
                 Shrink(next, total, limit, marker, omissions + 1));
      ShrinkCounts(next, total, limit, marker, omissions + 1);
      CountsOneMore(bodies, next, omissions, Shrink(next, total, limit, marker, omissions + 1));
    }
  }

  method ShortenBody(body: Body, overflow: nat, marker: bytes) returns (shorter: Body)
    requires body.content.Some?
    ensures shorter == Shorten(body, overflow, marker)
  {
    var shortened, _ := TruncateUtf8WithMarker(body.content.value, Keep(body.Length(), overflow), marker);
    if shortened == [] {
      shorter := body.(content := None, reason := OmittedByTotalLimit);
    } else {
      shorter := body.(content := Some(shortened));
    }
    shorter := shorter.(truncatedByPolicy := true);
  }

  lemma ShrinkStep(bodies: Bodies, overflow: nat, next: Bodies, total: Total, limit: nat, marker: bytes,
                   omissions: nat, p: Preview)
    requires Size(total, bodies) == limit + overflow && overflow > 0 && bodies.Length() > 0
    requires next == Cut(bodies, overflow, marker)
    requires p == Shrink(next, total, limit, marker, omissions + 1)
    ensures Shrink(bodies, total, limit, marker, omissions) == p
  {
  }

  method FitBodies(request: Body, response: Body, total: Total, limit: nat, marker: bytes) returns (preview: Preview)
    ensures preview == Shrink(Bodies(request, response), total, limit, marker, 0)
  {
    var req, resp := request, response;
    var omissions: nat := 0;
    while total(req.content, resp.content) > limit
      invariant Shrink(Bodies(request, response), total, limit, marker, 0)
                == Shrink(Bodies(req, resp), total, limit, marker, omissions)
      decreases Bodies(req, resp).Length()
    {
      var overflow := total(req.content, resp.content) - limit;
      ghost var before := Bodies(req, resp);
      if resp.Length() > 0 {
        resp := ShortenBody(resp, overflow, marker);
      } else if req.Length() > 0 {
        req := ShortenBody(req, overflow, marker);
      } else {
        return FixedPartTooLarge;
      }
      ShrinkStep(before, overflow, Bodies(req, resp), total, limit, marker, omissions,
                 Shrink(Bodies(req, resp), total, limit, marker, omissions + 1));
      omissions := omissions + 1;
    }
    return Fits(Bodies(req, resp), omissions);
  }

  /** `now` is a beginning of `start` with one marker behind it, however often it was cut. */
  ghost predicate CutFrom(start: bytes, now: bytes, marker: bytes) {
    exists kept: bytes :: kept <= start && now == kept + marker
  }

  /** `now` is `start` as it was, or cut with one marker behind it, or gone. */
  ghost predicate ShortenedFrom(start: Body, now: Body, marker: bytes) {
    || now == start
    || (&& start.content.Some? && now.truncatedByPolicy && now.sourceBytes == start.sourceBytes
        && (match now.content
            case None => now.reason == OmittedByTotalLimit
            case Some(b) => now.reason == start.reason && CutFrom(start.content.value, b, marker)))
  }

  lemma ShortenKeepsShape(start: Body, now: Body, overflow: nat, marker: bytes)
    requires ShortenedFrom(start, now, marker) && now.Length() > 0
    ensures ShortenedFrom(start, Shorten(now, overflow, marker), marker)
  {
  }

  lemma ShortenKeepsSendable(body: Body, overflow: nat, marker: bytes)
    requires Sendable(body) && body.Length() > 0 && IsMarker(marker)
    ensures Sendable(Shorten(body, overflow, marker))
  {
    MarkedFits(body.content.value, Keep(body.Length(), overflow), marker);
  }

  /** What the loop keeps true of the two bodies it started with. */
  ghost predicate Shrunk(start: Bodies, now: Bodies, marker: bytes) {
    && ShortenedFrom(start.request, now.request, marker) && ShortenedFrom(start.response, now.response, marker)
    && Sendable(now.request) && Sendable(now.response)
    && (now.request != start.request ==> now.response.content.None?)
  }

  lemma CutKeepsShrunk(start: Bodies, now: Bodies, overflow: nat, marker: bytes)
    requires IsMarker(marker) && Shrunk(start, now, marker) && now.Length() > 0
    ensures Shrunk(start, Cut(now, overflow, marker), marker)
  {
    if now.response.Length() > 0 {
      ShortenKeepsShape(start.response, now.response, overflow, marker);
      ShortenKeepsSendable(now.response, overflow, marker);
    } else {
      ShortenKeepsShape(start.request, now.request, overflow, marker);
      ShortenKeepsSendable(now.request, overflow, marker);
    }
  }

  /**
    The loop ends; on success the prompt fits, the bodies are untouched or cut cleanly, stay
    UTF-8, and the request is untouched unless the response is gone. When it fails, the prompt
    is too large even without both bodies.
   */
  lemma {:induction false} ShrinkFits(start: Bodies, now: Bodies, total: Total, limit: nat, marker: bytes,
                                      omissions: nat)
    requires IsMarker(marker) && Shrunk(start, now, marker)
    ensures match Shrink(now, total, limit, marker, omissions)
            case Fits(bodies, n) => Size(total, bodies) <= limit && Shrunk(start, bodies, marker)
            case FixedPartTooLarge => total(None, None) > limit
    decreases now.Length()
  {
    if Size(total, now) > limit && now.Length() > 0 {
      var next := Cut(now, Size(total, now) - limit, marker);
      CutKeepsShrunk(start, now, Size(total, now) - limit, marker);
      ShrinkFits(start, next, total, limit, marker, omissions + 1);
      ShrinkStep(now, Size(total, now) - limit, next, total, limit, marker, omissions,
                 Shrink(next, total, limit, marker, omissions + 1));
    }
  }

  // ---------- what is reported ----------

  datatype Decision = Decision(included: bool, sentBytes: nat, truncatedByPolicy: bool)

  function Decide(body: Body): Decision {
    Decision(body.content.Some?, body.Length(), body.truncatedByPolicy)
  }

  datatype EvidenceRef =
    | RequestMethod | RequestUrl | RequestHost | RequestHeaders | ResponseStatus | ResponseHeaders | PassiveRuleTags
    | RequestBody | ResponseBody

  const FIXED_REFS :=
    [RequestMethod, RequestUrl, RequestHost, RequestHeaders, ResponseStatus, ResponseHeaders, PassiveRuleTags]

  method EvidenceRefs(request: Body, response: Body) returns (refs: seq<EvidenceRef>)
    ensures [RequestMethod, RequestUrl, RequestHost, RequestHeaders, ResponseStatus, ResponseHeaders, PassiveRuleTags]
            <= refs
    ensures RequestBody in refs <==> request.content.Some?
    ensures ResponseBody in refs <==> response.content.Some?
    ensures forall i, j :: 0 <= i < j < |refs| ==> refs[i] != refs[j]
  {
    refs := FIXED_REFS;
    if request.content.Some? {
      refs := refs + [RequestBody];
    }
    if response.content.Some? {
      refs := refs + [ResponseBody];
    }
  }

  /** A decision says included exactly when bytes are sent, and truncated exactly when something was cut. */
  lemma DecisionsAgreeWithBodies(start: Bodies, total: Total, limit: nat, marker: bytes)
    requires IsMarker(marker) && Sendable(start.request) && Sendable(start.response)
    ensures match Shrink(start, total, limit, marker, 0)
            case Fits(now, n) =>
              && (Decide(now.request).included <==> Decide(now.request).sentBytes > 0)
              && (Decide(now.response).included <==> Decide(now.response).sentBytes > 0)
              && (n > 0 <==> now != start)
              && (Decide(now.request).truncatedByPolicy
                  <==> start.request.truncatedByPolicy || now.request != start.request)
              && (Decide(now.response).truncatedByPolicy
                  <==> start.response.truncatedByPolicy || now.response != start.response)
            case FixedPartTooLarge => true
  {
    ShrinkFits(start, start, total, limit, marker, 0);
    ShrinkCounts(start, total, limit, marker, 0);
  }
}
