/**
  Redacting a JSON value field by field, and what a reader of the result can and cannot learn:
  nothing about what lies below a sensitive key, and the whole shape of everything else.
 */
module JsonRedaction {
  import opened Wrappers
  import opened JsonTree
  import opened RedactionManifest

  type Value = Json<string>

  /** In which order an object's fields are visited: sorted, in the program; here any fixed order. */
  type KeyOrder = set<string> -> seq<string>

  ghost predicate Enumerates(keys: seq<string>, names: set<string>) {
    && (forall k :: k in names <==> k in keys)
    && (forall i, j :: 0 <= i < j < |keys| ==> keys[i] != keys[j])
  }

  /** How an array index is written into a location. */
  type Digits = nat -> string

  datatype Context = Context(enabled: bool, detectors: Detectors, order: KeyOrder, digits: Digits)

  ghost predicate Ordered(c: Context) {
    forall names :: Enumerates(c.order(names), names)
  }

  predicate Hidden(c: Context, key: Option<string>) {
    key.Some? && c.detectors.sensitive(key.value)
  }

  function RedactValue(v: Value, location: string, key: Option<string>, c: Context, m: Manifest): (Value, Manifest)
    requires Ordered(c)
    decreases v, 1, 0
  {
    if Hidden(c, key) then
      if c.enabled then (Str(REDACTED_FIELD), m.Record(location, "sensitive_field"))
      else (v, m.Disclose(SensitiveField(location)))
    else
      match v
      case Obj(fields) =>
        var (out, after) := RedactFields(v, c.order(fields.Keys), location, c, m);
        (Obj(out), after)
      case Arr(items) =>
        var (out, after) := RedactItems(v, 0, location, c, m);
        (Arr(out), after)
      case Str(text) =>
        var (out, after) := RedactOrDisclose(text, location, c.enabled, c.detectors, m);
        (Str(out), after)
      case _ => (v, m)
  }

  /** The fields named in `keys`, in that order. */
  function RedactFields(v: Value, keys: seq<string>, location: string, c: Context, m: Manifest)
    : (map<string, Value>, Manifest)
    requires Ordered(c) && v.Obj? && forall k :: k in keys ==> k in v.fields
    decreases v, 0, |keys|
  {
    if keys == [] then (map[], m)
    else
      var (child, between) := RedactValue(v.fields[keys[0]], location + "." + keys[0], Some(keys[0]), c, m);
      var (rest, after) := RedactFields(v, keys[1..], location, c, between);
      (rest[keys[0] := child], after)
  }

  /** The items from index `i` on. */
  function RedactItems(v: Value, i: nat, location: string, c: Context, m: Manifest): (seq<Value>, Manifest)
    requires Ordered(c) && v.Arr? && i <= |v.items|
    decreases v, 0, |v.items| - i
  {
    if i == |v.items| then ([], m)
    else
      var (child, between) := RedactValue(v.items[i], location + "[" + c.digits(i) + "]", None, c, m);
      var (rest, after) := RedactItems(v, i + 1, location, c, between);
      ([child] + rest, after)
  }

  method RedactJsonValue(value: Value, location: string, key: Option<string>, c: Context, log: Log)
    returns (out: Value)
    requires Ordered(c)
    modifies log
    ensures (out, log.View()) == RedactValue(value, location, key, c, old(log.View()))
    decreases value
  {
    if Hidden(c, key) {
      if c.enabled {
        out := Str(REDACTED_FIELD);
        log.RecordRedaction(location, "sensitive_field");
      } else {
        out := value;
        log.Disclose(SensitiveField(location));
      }
      return;
    }
    match value {
      case Obj(fields) => out := RedactJsonFields(value, location, c, log);
      case Arr(items) => out := RedactJsonItems(value, location, c, log);
      case Str(text) =>
        var redacted := RedactOrDiscloseValue(text, location, c.enabled, c.detectors, log);
        out := Str(redacted);
      case _ => out := value;
    }
  }

  method RedactJsonFields(value: Value, location: string, c: Context, log: Log) returns (out: Value)
    requires Ordered(c) && value.Obj?
    modifies log
    ensures var (fields, m) := RedactFields(value, c.order(value.fields.Keys), location, c, old(log.View()));
            out == Obj(fields) && log.View() == m
    decreases value, 0
  {
    var keys := c.order(value.fields.Keys);
    var done: map<string, Value> := map[];
    ghost var all := RedactFields(value, keys, location, c, log.View());
    assert keys[0..] == keys && done + all.0 == all.0;
    for i := 0 to |keys|
      invariant var (rest, m) := RedactFields(value, keys[i..], location, c, log.View());
                all == (done + rest, m)
    {
      var name := keys[i];
      ghost var m := log.View();
      NextField(value, keys, i, location, c, m, done);
      var child := RedactJsonValue(value.fields[name], location + "." + name, Some(name), c, log);
      done := done[name := child];
    }
    assert done + map[] == done;
    out := Obj(done);
  }

  lemma NextField(v: Value, keys: seq<string>, i: nat, location: string, c: Context, m: Manifest,
                  done: map<string, Value>)
    requires Ordered(c) && v.Obj? && Enumerates(keys, v.fields.Keys) && i < |keys|
    ensures var (child, between) := RedactValue(v.fields[keys[i]], location + "." + keys[i], Some(keys[i]), c, m);
            var (rest, after) := RedactFields(v, keys[i + 1..], location, c, between);
            var (all, end) := RedactFields(v, keys[i..], location, c, m);
            (done + all, end) == (done[keys[i] := child] + rest, after)
  {
    assert keys[i..][1..] == keys[i + 1..];
    var (child, between) := RedactValue(v.fields[keys[i]], location + "." + keys[i], Some(keys[i]), c, m);
    FieldsHaveTheirKeys(v, keys[i + 1..], location, c, between);
    var rest := RedactFields(v, keys[i + 1..], location, c, between).0;
    assert done + rest[keys[i] := child] == done[keys[i] := child] + rest;
  }

  method RedactJsonItems(value: Value, location: string, c: Context, log: Log) returns (out: Value)
    requires Ordered(c) && value.Arr?
    modifies log
    ensures var (items, m) := RedactItems(value, 0, location, c, old(log.View()));
            out == Arr(items) && log.View() == m
    decreases value, 0
  {
    var done: seq<Value> := [];
    ghost var all := RedactItems(value, 0, location, c, log.View());
    for i := 0 to |value.items|
      invariant var (rest, m) := RedactItems(value, i, location, c, log.View());
                all.0 == done + rest && all.1 == m
    {
      var child := RedactJsonValue(value.items[i], location + "[" + c.digits(i) + "]", None, c, log);
      done := done + [child];
    }
    out := Arr(done);
  }

  lemma {:induction false} FieldsHaveTheirKeys(v: Value, keys: seq<string>, location: string, c: Context, m: Manifest)
    requires Ordered(c) && v.Obj? && forall k :: k in keys ==> k in v.fields
    ensures forall k :: k in RedactFields(v, keys, location, c, m).0 <==> k in keys
    decreases |keys|
  {
    if keys != [] {
      var between := RedactValue(v.fields[keys[0]], location + "." + keys[0], Some(keys[0]), c, m).1;
      FieldsHaveTheirKeys(v, keys[1..], location, c, between);
    }
  }

  // ---------- what the result reveals ----------

  /** The two values differ, if at all, below keys the redactor hides and in strings of the same detected kind. */
  ghost predicate Agree(a: Value, b: Value, key: Option<string>, c: Context)
    decreases a
  {
    || Hidden(c, key)
    || match a
       case Obj(fields) =>
         b.Obj? && b.fields.Keys == fields.Keys
         && forall k :: k in fields ==> Agree(fields[k], b.fields[k], Some(k), c)
       case Arr(items) =>
         b.Arr? && |b.items| == |items| && forall i :: 0 <= i < |items| ==> Agree(items[i], b.items[i], None, c)
       case Str(text) => b.Str? && Alike(text, b.text, c.detectors)
       case _ => a == b
  }

  /** With redaction on, such values give the same output and the same manifest. */
  lemma {:induction false} HiddenValuesDoNotShow(a: Value, b: Value, location: string, key: Option<string>, c: Context,
                                                 m: Manifest)
    requires Ordered(c) && c.enabled && Agree(a, b, key, c)
    ensures RedactValue(a, location, key, c, m) == RedactValue(b, location, key, c, m)
    decreases a, 1, 0
  {
    if !Hidden(c, key) {
      match a {
        case Obj(fields) => HiddenFieldsDoNotShow(a, b, c.order(fields.Keys), location, c, m);
        case Arr(items) => HiddenItemsDoNotShow(a, b, 0, location, c, m);
        case Str(text) => DetectedTextDoesNotShow(text, b.text, location, true, c.detectors, m);
        case _ =>
      }
    }
  }

  lemma {:induction false} HiddenFieldsDoNotShow(a: Value, b: Value, keys: seq<string>, location: string, c: Context,
                                                 m: Manifest)
    requires Ordered(c) && c.enabled && a.Obj? && b.Obj? && a.fields.Keys == b.fields.Keys
    requires forall k :: k in keys ==> k in a.fields
    requires forall k :: k in a.fields ==> Agree(a.fields[k], b.fields[k], Some(k), c)
    ensures RedactFields(a, keys, location, c, m) == RedactFields(b, keys, location, c, m)
    decreases a, 0, |keys|
  {
    if keys != [] {
      var k := keys[0];
      HiddenValuesDoNotShow(a.fields[k], b.fields[k], location + "." + k, Some(k), c, m);
      HiddenFieldsDoNotShow(a, b, keys[1..], location, c,
        RedactValue(a.fields[k], location + "." + k, Some(k), c, m).1);
    }
  }

  lemma {:induction false} HiddenItemsDoNotShow(a: Value, b: Value, i: nat, location: string, c: Context, m: Manifest)
    requires Ordered(c) && c.enabled && a.Arr? && b.Arr? && |a.items| == |b.items| && i <= |a.items|
    requires forall j :: 0 <= j < |a.items| ==> Agree(a.items[j], b.items[j], None, c)
    ensures RedactItems(a, i, location, c, m) == RedactItems(b, i, location, c, m)
    decreases a, 0, |a.items| - i
  {
    if i < |a.items| {
      var place := location + "[" + c.digits(i) + "]";
      HiddenValuesDoNotShow(a.items[i], b.items[i], place, None, c, m);
      HiddenItemsDoNotShow(a, b, i + 1, location, c, RedactValue(a.items[i], place, None, c, m).1);
    }
  }

  /**
    `out` is `v` with hidden values replaced (or, with redaction off, kept) and each string as
    `TextComesOut` says for its place.
   */
  ghost predicate SameShape(v: Value, out: Value, location: string, key: Option<string>, c: Context)
    decreases v
  {
    if Hidden(c, key) then out == if c.enabled then Str(REDACTED_FIELD) else v
    else
      match v
      case Obj(fields) =>
        out.Obj? && out.fields.Keys == fields.Keys
        && forall k :: k in fields ==> SameShape(fields[k], out.fields[k], location + "." + k, Some(k), c)
      case Arr(items) =>
        out.Arr? && |out.items| == |items|
        && forall i :: 0 <= i < |items| ==>
             SameShape(items[i], out.items[i], location + "[" + c.digits(i) + "]", None, c)
      case Str(text) => out.Str? && TextComesOut(text, out.text, location, c.enabled, c.detectors)
      case _ => out == v
  }

  /** Keys, lengths and scalars come through, detected strings as markers, and with redaction off everything. */
  lemma {:induction false} RedactionKeepsShape(v: Value, location: string, key: Option<string>, c: Context, m: Manifest)
    requires Ordered(c)
    ensures SameShape(v, RedactValue(v, location, key, c, m).0, location, key, c)
    decreases v, 1, 0
  {
    if !Hidden(c, key) {
      match v {
        case Obj(fields) =>
          FieldsKeepShape(v, c.order(fields.Keys), location, c, m);
          FieldsHaveTheirKeys(v, c.order(fields.Keys), location, c, m);
          assert RedactFields(v, c.order(fields.Keys), location, c, m).0.Keys == fields.Keys;
        case Arr(items) => ItemsKeepShape(v, 0, location, c, m);
        case Str(text) => DetectedTextDoesNotShow(text, text, location, c.enabled, c.detectors, m);
        case _ =>
      }
    }
  }

  lemma {:induction false} FieldsKeepShape(v: Value, keys: seq<string>, location: string, c: Context, m: Manifest)
    requires Ordered(c) && v.Obj? && forall k :: k in keys ==> k in v.fields
    ensures var out := RedactFields(v, keys, location, c, m).0;
            forall k :: k in out ==> k in v.fields && SameShape(v.fields[k], out[k], location + "." + k, Some(k), c)
    decreases v, 0, |keys|
  {
    if keys != [] {
      var k := keys[0];
      RedactionKeepsShape(v.fields[k], location + "." + k, Some(k), c, m);
      FieldsKeepShape(v, keys[1..], location, c, RedactValue(v.fields[k], location + "." + k, Some(k), c, m).1);
    }
  }

  lemma {:induction false} ItemsKeepShape(v: Value, i: nat, location: string, c: Context, m: Manifest)
    requires Ordered(c) && v.Arr? && i <= |v.items|
    ensures var out := RedactItems(v, i, location, c, m).0;
            && |out| == |v.items| - i
            && forall j :: i <= j < |v.items| ==>
                 SameShape(v.items[j], out[j - i], location + "[" + c.digits(j) + "]", None, c)
    decreases v, 0, |v.items| - i
  {
    if i < |v.items| {
      var place := location + "[" + c.digits(i) + "]";
      RedactionKeepsShape(v.items[i], place, None, c, m);
      ItemsKeepShape(v, i + 1, location, c, RedactValue(v.items[i], place, None, c, m).1);
    }
  }

  lemma {:induction false} SameShapeWhenOff(v: Value, out: Value, location: string, key: Option<string>, c: Context)
    requires !c.enabled && SameShape(v, out, location, key, c)
    ensures out == v
    decreases v
  {
    if !Hidden(c, key) {
      match v {
        case Obj(fields) =>
          forall k | k in fields
            ensures out.fields[k] == fields[k]
          {
            SameShapeWhenOff(fields[k], out.fields[k], location + "." + k, Some(k), c);
          }
          assert out.fields == fields;
        case Arr(items) =>
          forall i | 0 <= i < |items|
            ensures out.items[i] == items[i]
          {
            SameShapeWhenOff(items[i], out.items[i], location + "[" + c.digits(i) + "]", None, c);
          }
          assert out.items == items;
        case _ =>
      }
    }
  }

  /** With redaction off every value comes out as it went in. */
  lemma NothingChangesWhenOff(v: Value, location: string, key: Option<string>, c: Context, m: Manifest)
    requires Ordered(c)
    ensures !c.enabled ==> RedactValue(v, location, key, c, m).0 == v
  {
    RedactionKeepsShape(v, location, key, c, m);
    if !c.enabled {
      SameShapeWhenOff(v, RedactValue(v, location, key, c, m).0, location, key, c);
    }
  }

  // ---------- what the manifest counts ----------

  /** How often a visit redacts at location `l` for reason `k`. */
  function FoundIn(v: Value, location: string, key: Option<string>, c: Context, l: string, k: string): nat
    requires Ordered(c)
    decreases v, 1, 0
  {
    if Hidden(c, key) then if location == l && k == "sensitive_field" then 1 else 0
    else
      match v
      case Obj(fields) => FoundInFields(v, c.order(fields.Keys), location, c, l, k)
      case Arr(items) => FoundInItems(v, 0, location, c, l, k)
      case Str(text) => FoundInText(text, location, c.detectors, l, k)
      case _ => 0
  }

  function FoundInFields(v: Value, keys: seq<string>, location: string, c: Context, l: string, k: string): nat
    requires Ordered(c) && v.Obj? && forall name :: name in keys ==> name in v.fields
    decreases v, 0, |keys|
  {
    if keys == [] then 0
    else
      FoundIn(v.fields[keys[0]], location + "." + keys[0], Some(keys[0]), c, l, k)
      + FoundInFields(v, keys[1..], location, c, l, k)
  }

  function FoundInItems(v: Value, i: nat, location: string, c: Context, l: string, k: string): nat
    requires Ordered(c) && v.Arr? && i <= |v.items|
    decreases v, 0, |v.items| - i
  {
    if i == |v.items| then 0
    else
      FoundIn(v.items[i], location + "[" + c.digits(i) + "]", None, c, l, k)
      + FoundInItems(v, i + 1, location, c, l, k)
  }

  /**
    The manifest's count for every location and kind grows by exactly the hidden values and detected
    strings there, if the text scanner leaves it alone, and by no less if the scanner only adds.
   */
  lemma {:induction false} EveryRedactionIsCounted(v: Value, location: string, key: Option<string>, c: Context,
                                                   m: Manifest, l: string, k: string, exactly: bool)
    requires Ordered(c) && c.enabled && ScannerKeeps(c.detectors, l, k, exactly)
    ensures var after := RedactValue(v, location, key, c, m).1;
            Grows(CountOf(m.redactions, l, k), CountOf(after.redactions, l, k),
                  FoundIn(v, location, key, c, l, k), exactly)
    decreases v, 1, 0
  {
    if Hidden(c, key) {
      RecordedCounts(m.redactions, location, "sensitive_field", l, k);
    } else {
      match v {
        case Obj(fields) => FieldsAreCounted(v, c.order(fields.Keys), location, c, m, l, k, exactly);
        case Arr(items) => ItemsAreCounted(v, 0, location, c, m, l, k, exactly);
        case Str(text) => TextIsCounted(text, location, c.detectors, m, l, k, exactly);
        case _ =>
      }
    }
  }

  lemma {:induction false} FieldsAreCounted(v: Value, keys: seq<string>, location: string, c: Context, m: Manifest,
                                            l: string, k: string, exactly: bool)
    requires Ordered(c) && c.enabled && ScannerKeeps(c.detectors, l, k, exactly)
    requires v.Obj? && forall name :: name in keys ==> name in v.fields
    ensures var after := RedactFields(v, keys, location, c, m).1;
            Grows(CountOf(m.redactions, l, k), CountOf(after.redactions, l, k),
                  FoundInFields(v, keys, location, c, l, k), exactly)
    decreases v, 0, |keys|
  {
    if keys != [] {
      var name := keys[0];
      var between := RedactValue(v.fields[name], location + "." + name, Some(name), c, m).1;
      EveryRedactionIsCounted(v.fields[name], location + "." + name, Some(name), c, m, l, k, exactly);
      FieldsAreCounted(v, keys[1..], location, c, between, l, k, exactly);
    }
  }

  lemma {:induction false} ItemsAreCounted(v: Value, i: nat, location: string, c: Context, m: Manifest,
                                           l: string, k: string, exactly: bool)
    requires Ordered(c) && c.enabled && ScannerKeeps(c.detectors, l, k, exactly)
    requires v.Arr? && i <= |v.items|
    ensures var after := RedactItems(v, i, location, c, m).1;
            Grows(CountOf(m.redactions, l, k), CountOf(after.redactions, l, k),
                  FoundInItems(v, i, location, c, l, k), exactly)
    decreases v, 0, |v.items| - i
  {
    if i < |v.items| {
      var place := location + "[" + c.digits(i) + "]";
      EveryRedactionIsCounted(v.items[i], place, None, c, m, l, k, exactly);
      ItemsAreCounted(v, i + 1, location, c, RedactValue(v.items[i], place, None, c, m).1, l, k, exactly);
    }
  }

  // ---------- what the manifest discloses ----------

  /** The value holds a sensitive field or a detected string that `x` names. */
  ghost predicate Names(v: Value, location: string, key: Option<string>, c: Context, x: Disclosure)
    decreases v
  {
    if Hidden(c, key) then x == SensitiveField(location)
    else
      match v
      case Obj(fields) => exists k :: k in fields && Names(fields[k], location + "." + k, Some(k), c, x)
      case Arr(items) =>
        exists i :: 0 <= i < |items| && Names(items[i], location + "[" + c.digits(i) + "]", None, c, x)
      case Str(text) => x.DetectedValue? && x.location == location && c.detectors.kind(text) == Some(x.kind)
      case _ => false
  }

  /** With redaction off nothing is recorded as redacted, and what is sent openly is disclosed, all of it. */
  lemma {:induction false} DisclosuresAreExact(v: Value, location: string, key: Option<string>, c: Context,
                                               m: Manifest, x: Disclosure)
    requires Ordered(c) && !c.enabled
    ensures var after := RedactValue(v, location, key, c, m).1;
            && after.redactions == m.redactions && after.omissions == m.omissions
            && (x in after.disclosures <==> x in m.disclosures || Names(v, location, key, c, x))
    decreases v, 1, 0
  {
    if !Hidden(c, key) {
      match v {
        case Obj(fields) => FieldsAreDisclosed(v, c.order(fields.Keys), location, c, m, x);
        case Arr(items) => ItemsAreDisclosed(v, 0, location, c, m, x);
        case Str(text) => TextIsDisclosed(text, location, c.detectors, m, x);
        case _ =>
      }
    }
  }

  lemma {:induction false} FieldsAreDisclosed(v: Value, keys: seq<string>, location: string, c: Context, m: Manifest,
                                              x: Disclosure)
    requires Ordered(c) && !c.enabled && v.Obj? && forall k :: k in keys ==> k in v.fields
    ensures var after := RedactFields(v, keys, location, c, m).1;
            && after.redactions == m.redactions && after.omissions == m.omissions
            && (x in after.disclosures <==>
                  x in m.disclosures || exists k :: k in keys && Names(v.fields[k], location + "." + k, Some(k), c, x))
    decreases v, 0, |keys|
  {
    if keys != [] {
      var k := keys[0];
      DisclosuresAreExact(v.fields[k], location + "." + k, Some(k), c, m, x);
      FieldsAreDisclosed(v, keys[1..], location, c, RedactValue(v.fields[k], location + "." + k, Some(k), c, m).1, x);
      assert forall name :: name in keys <==> name == k || name in keys[1..];
    }
  }

  lemma {:induction false} ItemsAreDisclosed(v: Value, i: nat, location: string, c: Context, m: Manifest, x: Disclosure)
    requires Ordered(c) && !c.enabled && v.Arr? && i <= |v.items|
    ensures var after := RedactItems(v, i, location, c, m).1;
            && after.redactions == m.redactions && after.omissions == m.omissions
            && (x in after.disclosures <==>
                  || x in m.disclosures
                  || exists j :: i <= j < |v.items|
                                 && Names(v.items[j], location + "[" + c.digits(j) + "]", None, c, x))
    decreases v, 0, |v.items| - i
  {
    if i < |v.items| {
      var place := location + "[" + c.digits(i) + "]";
      DisclosuresAreExact(v.items[i], place, None, c, m, x);
      ItemsAreDisclosed(v, i + 1, location, c, RedactValue(v.items[i], place, None, c, m).1, x);
    }
  }
}
