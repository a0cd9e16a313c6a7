/** What the redactors report: what was replaced and how often, what was left out, what was disclosed. */
module RedactionManifest {
  import opened Wrappers

  datatype Redaction = Redaction(location: string, kind: string, count: nat)

  datatype Disclosure = SensitiveField(location: string) | DetectedValue(location: string, kind: string)

  datatype Manifest = Manifest(redactions: seq<Redaction>, omissions: seq<string>, disclosures: seq<Disclosure>) {

    function Record(location: string, kind: string): Manifest {
      this.(redactions := Recorded(redactions, location, kind))
    }

    function Omit(location: string): Manifest {
      this.(omissions := omissions + [location])
    }

    function Disclose(disclosure: Disclosure): Manifest {
      if disclosure in disclosures then this else this.(disclosures := disclosures + [disclosure])
    }
  }

  predicate Matches(r: Redaction, location: string, kind: string) {
    r.location == location && r.kind == kind
  }

  /** One more redaction: the first matching record counts it, or a new record does. */
  function Recorded(records: seq<Redaction>, location: string, kind: string): seq<Redaction> {
    if records == [] then [Redaction(location, kind, 1)]
    else if Matches(records[0], location, kind) then [records[0].(count := records[0].count + 1)] + records[1..]
    else [records[0]] + Recorded(records[1..], location, kind)
  }

  lemma {:induction false} RecordedSkips(records: seq<Redaction>, location: string, kind: string, i: nat)
    requires i <= |records| && forall j :: 0 <= j < i ==> !Matches(records[j], location, kind)
    requires i == |records| || Matches(records[i], location, kind)
    ensures Recorded(records, location, kind)
            == if i < |records| then records[i := records[i].(count := records[i].count + 1)]
               else records + [Redaction(location, kind, 1)]
  {
    if 0 < i {
      var rest := records[1..];
      assert !Matches(records[0], location, kind);
      RecordedSkips(rest, location, kind, i - 1);
      assert records == [records[0]] + rest;
      assert Recorded(records, location, kind) == [records[0]] + Recorded(rest, location, kind);
    }
  }

  /** Records keep their places and keys; a new one goes to the end. */
  lemma {:induction false} RecordedKeepsPlaces(records: seq<Redaction>, location: string, kind: string)
    ensures var after := Recorded(records, location, kind);
            && |records| <= |after| <= |records| + 1
            && (forall i :: 0 <= i < |records| ==> Matches(after[i], records[i].location, records[i].kind))
            && (|after| > |records| ==> after[|records|] == Redaction(location, kind, 1))
  {
    if records != [] && !Matches(records[0], location, kind) {
      RecordedKeepsPlaces(records[1..], location, kind);
    }
  }

  /** The manifest as the redactors change it. */
  class Log {
    var redactions: seq<Redaction>
    var omissions: seq<string>
    var disclosures: seq<Disclosure>

    function View(): Manifest
      reads this
    {
      Manifest(redactions, omissions, disclosures)
    }

    method RecordRedaction(location: string, kind: string)
      modifies this
      ensures View() == old(View()).Record(location, kind)
    {
      var i := 0;
      while i < |redactions| && !Matches(redactions[i], location, kind)
        invariant i <= |redactions| && redactions == old(redactions)
        invariant forall j :: 0 <= j < i ==> !Matches(redactions[j], location, kind)
      {
        i := i + 1;
      }
      RecordedSkips(redactions, location, kind, i);
      if i < |redactions| {
        redactions := redactions[i := redactions[i].(count := redactions[i].count + 1)];
      } else {
        redactions := redactions + [Redaction(location, kind, 1)];
      }
    }

    method Omit(location: string)
      modifies this`omissions
      ensures View() == old(View()).Omit(location)
    {
      omissions := omissions + [location];
    }

    method Disclose(disclosure: Disclosure)
      modifies this`disclosures
      ensures View() == old(View()).Disclose(disclosure)
    {
      if disclosure !in disclosures {
        disclosures := disclosures + [disclosure];
      }
    }

    method Become(manifest: Manifest)
      modifies this
      ensures View() == manifest
    {
      redactions, omissions, disclosures := manifest.redactions, manifest.omissions, manifest.disclosures;
    }
  }

  function CountOf(records: seq<Redaction>, location: string, kind: string): nat {
    if records == [] then 0
    else (if Matches(records[0], location, kind) then records[0].count else 0) + CountOf(records[1..], location, kind)
  }

  predicate DistinctKeys(records: seq<Redaction>) {
    forall i, j :: 0 <= i < j < |records| ==> !Matches(records[j], records[i].location, records[i].kind)
  }

  /** Recording adds one to its own key and nothing to any other. */
  lemma {:induction false} RecordedCounts(records: seq<Redaction>, location: string, kind: string, l: string, k: string)
    ensures CountOf(Recorded(records, location, kind), l, k)
            == CountOf(records, l, k) + if location == l && kind == k then 1 else 0
  {
    var after := Recorded(records, location, kind);
    if records == [] {
      assert after[1..] == [];
    } else if Matches(records[0], location, kind) {
      assert after[1..] == records[1..];
    } else {
      RecordedCounts(records[1..], location, kind, l, k);
      assert after[1..] == Recorded(records[1..], location, kind);
    }
  }

  lemma {:induction false} RecordedMembers(records: seq<Redaction>, location: string, kind: string, r: Redaction)
    requires r in Recorded(records, location, kind)
    ensures Matches(r, location, kind) || r in records
  {
    if records != [] && !Matches(records[0], location, kind) && r != records[0] {
      RecordedMembers(records[1..], location, kind, r);
    }
  }

  /** There is never more than one record for a location and kind. */
  lemma {:induction false} RecordedKeepsKeysDistinct(records: seq<Redaction>, location: string, kind: string)
    requires DistinctKeys(records)
    ensures DistinctKeys(Recorded(records, location, kind))
  {
    if records != [] && !Matches(records[0], location, kind) {
      var rest := Recorded(records[1..], location, kind);
      RecordedKeepsKeysDistinct(records[1..], location, kind);
      forall j | 0 <= j < |rest|
        ensures !Matches(rest[j], records[0].location, records[0].kind)
      {
        RecordedMembers(records[1..], location, kind, rest[j]);
      }
    }
  }

  // ---------- the detectors ----------

  /** Name list, secret patterns and the text scanner, none of which is part of this model. */
  datatype Detectors = Detectors(
    sensitive: string -> bool,
    kind: string -> Option<string>,
    hint: string -> bool,
    fallback: (string, string, Manifest) -> (string, Manifest))

  const REDACTED_FIELD := "[REDACTED:sensitive_field]"

  /** `redact_or_disclose_value`: replace what looks like a secret, or say that it is sent. */
  function RedactOrDisclose(value: string, location: string, enabled: bool, d: Detectors, m: Manifest)
    : (string, Manifest)
  {
    match d.kind(value)
    case None => if enabled && d.hint(value) then d.fallback(value, location, m) else (value, m)
    case Some(kind) =>
      if enabled then ("[REDACTED:" + kind + "]", m.Record(location, kind))
      else (value, m.Disclose(DetectedValue(location, kind)))
  }

  method RedactOrDiscloseValue(value: string, location: string, enabled: bool, d: Detectors, log: Log)
    returns (out: string)
    modifies log
    ensures (out, log.View()) == RedactOrDisclose(value, location, enabled, d, old(log.View()))
  {
    if d.kind(value).None? {
      if enabled && d.hint(value) {
        var (scanned, manifest) := d.fallback(value, location, log.View());
        log.Become(manifest);
        return scanned;
      }
      return value;
    }
    var kind := d.kind(value).value;
    if enabled {
      log.RecordRedaction(location, kind);
      return "[REDACTED:" + kind + "]";
    } else {
      log.Disclose(DetectedValue(location, kind));
      return value;
    }
  }

  /**
    What may come out for a string: with redaction on, the marker of the kind detected, and what
    the text scanner makes of one that only holds a hint; in all other cases the string itself.
   */
  ghost predicate TextComesOut(text: string, out: string, location: string, enabled: bool, d: Detectors) {
    if enabled && d.kind(text).Some? then out == "[REDACTED:" + d.kind(text).value + "]"
    else if enabled && d.hint(text) then exists m :: out == d.fallback(text, location, m).0
    else out == text
  }

  /** Two strings that no reader of the output is to tell apart: equal, or of the same detected kind. */
  predicate Alike(a: string, b: string, d: Detectors) {
    a == b || (d.kind(a).Some? && d.kind(a) == d.kind(b))
  }

  lemma DetectedTextDoesNotShow(a: string, b: string, location: string, enabled: bool, d: Detectors, m: Manifest)
    ensures TextComesOut(a, RedactOrDisclose(a, location, enabled, d, m).0, location, enabled, d)
    ensures enabled && Alike(a, b, d) ==>
              RedactOrDisclose(a, location, enabled, d, m) == RedactOrDisclose(b, location, enabled, d, m)
  {
  }

  // ---------- what a string adds to the manifest ----------

  /** The text scanner leaves the count of this location and kind alone, or at least does not lower it. */
  ghost predicate ScannerKeeps(d: Detectors, l: string, k: string, exactly: bool) {
    forall text, location, m ::
      var after := CountOf(d.fallback(text, location, m).1.redactions, l, k);
      if exactly then after == CountOf(m.redactions, l, k) else after >= CountOf(m.redactions, l, k)
  }

  predicate Grows(before: nat, after: nat, more: nat, exactly: bool) {
    if exactly then after == before + more else after >= before + more
  }

  /** How often a string counts as a redaction of this location and kind. */
  function FoundInText(text: string, location: string, d: Detectors, l: string, k: string): nat {
    if location == l && d.kind(text) == Some(k) then 1 else 0
  }

  lemma TextIsCounted(text: string, location: string, d: Detectors, m: Manifest, l: string, k: string, exactly: bool)
    requires ScannerKeeps(d, l, k, exactly)
    ensures var after := RedactOrDisclose(text, location, true, d, m).1;
            Grows(CountOf(m.redactions, l, k), CountOf(after.redactions, l, k),
                  FoundInText(text, location, d, l, k), exactly)
  {
    if d.kind(text).Some? {
      RecordedCounts(m.redactions, location, d.kind(text).value, l, k);
    }
  }

  /** With redaction off a detected string is disclosed, with its place and kind, and nothing else happens. */
  lemma TextIsDisclosed(text: string, location: string, d: Detectors, m: Manifest, x: Disclosure)
    ensures var after := RedactOrDisclose(text, location, false, d, m).1;
            && after.redactions == m.redactions && after.omissions == m.omissions
            && (x in after.disclosures <==>
                  x in m.disclosures || (x.DetectedValue? && x.location == location && d.kind(text) == Some(x.kind)))
  {
  }
}
