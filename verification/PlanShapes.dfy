/**
  Normalising the shape of a plan: the aliases `phase_name` and `tasks` become `title` and
  `children` on every node, and lists of lines become text.
 */
module PlanShapes {
  import opened Wrappers
  import opened JsonTree
  import opened Text

  /** The keys the normaliser knows, and every other. */
  datatype Name =
    | Phases | PhaseName | Tasks | Title | Children
    | Description | Why | HowTo | VerifyCriteria | RequiredRole | RequiredSession | ExpectedObservation
    | Other(text: string)

  type Tree = Json<Name>

  type Fields = map<Name, Tree>

  const TEXT_FIELDS :=
    [Description, Why, HowTo, VerifyCriteria, RequiredRole, RequiredSession, ExpectedObservation]

  predicate IsTextField(name: Name) {
    name.Description? || name.Why? || name.HowTo? || name.VerifyCriteria? || name.RequiredRole?
    || name.RequiredSession? || name.ExpectedObservation?
  }

  // ---------- one node ----------

  predicate HasTitle(fields: Fields) {
    Title in fields && fields[Title].Str? && Trim(fields[Title].text) != ""
  }

  function TakePhaseName(fields: Fields): Fields {
    if PhaseName !in fields then fields
    else
      var rest := fields - {PhaseName};
      if HasTitle(rest) then rest else rest[Title := fields[PhaseName]]
  }

  /** A node with tasks must not have children of its own. */
  predicate Conflicts(fields: Fields) {
    Tasks in fields && Children in fields && !fields[Children].Null?
  }

  function TakeTasks(fields: Fields): Fields {
    if Tasks !in fields then fields else (fields - {Tasks})[Children := fields[Tasks]]
  }

  /** How a list number is written. */
  type Digits = nat -> string

  predicate AllText(items: seq<Tree>) {
    forall i :: 0 <= i < |items| ==> items[i].Str?
  }

  predicate IsLines(v: Tree) {
    v.Arr? && AllText(v.items)
  }

  /** Line number `i`, trimmed, and numbered for `how_to`. */
  function LineOf(name: Name, item: Tree, i: nat, digits: Digits): string
    requires item.Str?
  {
    (if name == HowTo then digits(i + 1) + ". " else "") + Trim(item.text)
  }

  function Separator(name: Name): string {
    if name == RequiredRole || name == RequiredSession then ", " else "\n"
  }

  /** The lines from number `i` on, joined. */
  function JoinLines(name: Name, items: seq<Tree>, i: nat, digits: Digits): string
    requires i <= |items| && AllText(items)
    decreases |items| - i
  {
    if i == |items| then ""
    else
      var line := LineOf(name, items[i], i, digits);
      if i == |items| - 1 then line else line + Separator(name) + JoinLines(name, items, i + 1, digits)
  }

  function Folded(name: Name, v: Tree, digits: Digits): Tree {
    if IsTextField(name) && IsLines(v) then Str(JoinLines(name, v.items, 0, digits)) else v
  }

  function FoldTexts(fields: Fields, digits: Digits): Fields {
    map name | name in fields :: Folded(name, fields[name], digits)
  }

  /** All that happens to a node itself, unless it conflicts. */
  function Renamed(fields: Fields, digits: Digits): Fields {
    FoldTexts(TakeTasks(TakePhaseName(fields)), digits)
  }

  lemma TextFieldsAreListed(name: Name)
    ensures IsTextField(name) <==> name in TEXT_FIELDS
  {
  }

  method NormalizeTextArrays(fields: Fields, digits: Digits) returns (folded: Fields)
    ensures folded == FoldTexts(fields, digits)
  {
    folded := fields;
    for i := 0 to |TEXT_FIELDS|
      invariant folded.Keys == fields.Keys
      invariant forall name :: name in fields ==>
                  folded[name] == if name in TEXT_FIELDS[..i] then Folded(name, fields[name], digits) else fields[name]
    {
      var name := TEXT_FIELDS[i];
      if name in folded && IsLines(folded[name]) {
        folded := folded[name := Str(JoinLines(name, folded[name].items, 0, digits))];
      }
    }
    forall name | name in fields
      ensures folded[name] == Folded(name, fields[name], digits)
    {
      TextFieldsAreListed(name);
    }
  }

  // ---------- the tree ----------

  /** Where a node's children are found, before or after the renaming. */
  function ChildSource(fields: Fields): Tree {
    if Tasks in fields then fields[Tasks] else if Children in fields then fields[Children] else Null
  }

  /** A node and all nodes below it; `None` when two sets of children compete somewhere. */
  function NormalizeNode(v: Tree, digits: Digits): Option<Tree>
    decreases v, 1, 0
  {
    if !v.Obj? then Some(v)
    else if Conflicts(v.fields) then None
    else
      var fields, source := Renamed(v.fields, digits), ChildSource(v.fields);
      if !source.Arr? then Some(Obj(fields))
      else
        match NormalizeItems(source, 0, digits)
        case None => None
        case Some(items) => Some(Obj(fields[Children := Arr(items)]))
  }

  /** The items from number `i` on. */
  function NormalizeItems(source: Tree, i: nat, digits: Digits): Option<seq<Tree>>
    requires source.Arr? && i <= |source.items|
    decreases source, 0, |source.items| - i
  {
    if i == |source.items| then Some([])
    else
      match NormalizeNode(source.items[i], digits)
      case None => None
      case Some(first) =>
        match NormalizeItems(source, i + 1, digits)
        case None => None
        case Some(rest) => Some([first] + rest)
  }

  /** The whole plan: the nodes under `phases`, if that is a list. */
  function NormalizePlan(v: Tree, digits: Digits): Option<Tree> {
    if v.Obj? && Phases in v.fields && v.fields[Phases].Arr? then
      match NormalizeItems(v.fields[Phases], 0, digits)
      case None => None
      case Some(items) => Some(Obj(v.fields[Phases := Arr(items)]))
    else Some(v)
  }

  /** The name changes leave exactly the children that were meant. */
  lemma RenamedChildren(fields: Fields, digits: Digits)
    ensures var r := Renamed(fields, digits);
            && PhaseName !in r && Tasks !in r
            && (Children in r <==> Tasks in fields || Children in fields)
            && (Children in r ==> r[Children] == ChildSource(fields))
  {
  }

  method NormalizeTree(v: Tree, digits: Digits) returns (normal: Option<Tree>)
    ensures normal == NormalizeNode(v, digits)
    decreases v, 1
  {
    if !v.Obj? { return Some(v); }
    var node := v.fields;
    if PhaseName in node {
      var phaseName := node[PhaseName];
      node := node - {PhaseName};
      if !HasTitle(node) {
        node := node[Title := phaseName];
      }
    }
    assert node == TakePhaseName(v.fields);
    if Tasks in node {
      var tasks := node[Tasks];
      node := node - {Tasks};
      if Children in node && !node[Children].Null? {
        return None;
      }
      node := node[Children := tasks];
    }
    assert node == TakeTasks(TakePhaseName(v.fields));
    node := NormalizeTextArrays(node, digits);
    RenamedChildren(v.fields, digits);
    if Children in node && node[Children].Arr? {
      var children := NormalizeChildren(ChildSource(v.fields), digits);
      if children.None? { return None; }
      node := node[Children := Arr(children.value)];
    }
    return Some(Obj(node));
  }

  function Behind(done: seq<Tree>, rest: Option<seq<Tree>>): Option<seq<Tree>> {
    match rest
    case None => None
    case Some(items) => Some(done + items)
  }

  lemma BehindOneMore(done: seq<Tree>, child: Tree, rest: Option<seq<Tree>>)
    ensures Behind(done, if rest.Some? then Some([child] + rest.value) else None) == Behind(done + [child], rest)
  {
    if rest.Some? {
      Regroup(done, [child], rest.value);
    }
  }

  method NormalizeChildren(source: Tree, digits: Digits) returns (items: Option<seq<Tree>>)
    requires source.Arr?
    ensures items == NormalizeItems(source, 0, digits)
    decreases source, 0
  {
    var done: seq<Tree> := [];
    ghost var all := NormalizeItems(source, 0, digits);
    assert all.Some? ==> [] + all.value == all.value;
    for i := 0 to |source.items|
      invariant all == Behind(done, NormalizeItems(source, i, digits))
    {
      var child := NormalizeTree(source.items[i], digits);
      if child.None? { return None; }
      BehindOneMore(done, child.value, NormalizeItems(source, i + 1, digits));
      done := done + [child.value];
    }
    assert done + [] == done;
    return Some(done);
  }

  method NormalizePlanNodeShapes(v: Tree, digits: Digits) returns (normal: Option<Tree>)
    ensures normal == NormalizePlan(v, digits)
  {
    if !(v.Obj? && Phases in v.fields && v.fields[Phases].Arr?) { return Some(v); }
    var items := NormalizeChildren(v.fields[Phases], digits);
    if items.None? { return None; }
    return Some(Obj(v.fields[Phases := Arr(items.value)]));
  }

  // ---------- canonical trees ----------

  predicate NoLineLists(fields: Fields) {
    forall name :: name in fields && IsTextField(name) ==> !IsLines(fields[name])
  }

  /** No alias and no list of lines on any node reached through children. */
  predicate Canonical(v: Tree)
    decreases v
  {
    v.Obj? ==>
      && PhaseName !in v.fields && Tasks !in v.fields && NoLineLists(v.fields)
      && (Children in v.fields && v.fields[Children].Arr? ==>
            forall i :: 0 <= i < |v.fields[Children].items| ==> Canonical(v.fields[Children].items[i]))
  }

  predicate AllCanonical(items: seq<Tree>) {
    forall i :: 0 <= i < |items| ==> Canonical(items[i])
  }

  /** What comes out is canonical. */
  lemma {:induction false} NormalIsCanonical(v: Tree, digits: Digits)
    requires NormalizeNode(v, digits).Some?
    ensures Canonical(NormalizeNode(v, digits).value)
    decreases v, 1, 0
  {
    if v.Obj? {
      var fields, source := Renamed(v.fields, digits), ChildSource(v.fields);
      RenamedChildren(v.fields, digits);
      if source.Arr? {
        NormalItemsAreCanonical(source, 0, digits);
        CanonicalWith(fields, NormalizeItems(source, 0, digits).value);
      }
    }
  }

  lemma CanonicalWith(fields: Fields, items: seq<Tree>)
    requires PhaseName !in fields && Tasks !in fields && NoLineLists(fields) && AllCanonical(items)
    ensures Canonical(Obj(fields[Children := Arr(items)]))
  {
  }

  lemma {:induction false} NormalItemsAreCanonical(source: Tree, i: nat, digits: Digits)
    requires source.Arr? && i <= |source.items| && NormalizeItems(source, i, digits).Some?
    ensures AllCanonical(NormalizeItems(source, i, digits).value)
    decreases source, 0, |source.items| - i
  {
    if i < |source.items| {
      NormalIsCanonical(source.items[i], digits);
      NormalItemsAreCanonical(source, i + 1, digits);
    }
  }

  lemma CanonicalFieldsStay(fields: Fields, digits: Digits)
    requires PhaseName !in fields && Tasks !in fields && NoLineLists(fields)
    ensures Renamed(fields, digits) == fields
  {
  }

  /** Canonical trees come through unchanged. */
  lemma {:induction false} CanonicalStays(v: Tree, digits: Digits)
    requires Canonical(v)
    ensures NormalizeNode(v, digits) == Some(v)
    decreases v, 1, 0
  {
    if v.Obj? {
      CanonicalFieldsStay(v.fields, digits);
      if Children in v.fields && v.fields[Children].Arr? {
        var source := v.fields[Children];
        CanonicalItemsStay(source, 0, digits);
        assert source.items[0..] == source.items;
        assert v.fields[Children := Arr(source.items)] == v.fields;
      }
    }
  }

  lemma {:induction false} CanonicalItemsStay(source: Tree, i: nat, digits: Digits)
    requires source.Arr? && i <= |source.items| && AllCanonical(source.items)
    ensures NormalizeItems(source, i, digits) == Some(source.items[i..])
    decreases source, 0, |source.items| - i
  {
    if i < |source.items| {
      CanonicalStays(source.items[i], digits);
      CanonicalItemsStay(source, i + 1, digits);
      assert source.items[i..] == [source.items[i]] + source.items[i + 1..];
    } else {
      assert source.items[i..] == [];
    }
  }

  /** Normalising again changes nothing, and only canonical trees are left alone. */
  lemma NormalizeTwice(v: Tree, digits: Digits)
    requires NormalizeNode(v, digits).Some?
    ensures NormalizeNode(NormalizeNode(v, digits).value, digits) == NormalizeNode(v, digits)
    ensures NormalizeNode(v, digits).value == v <==> Canonical(v)
  {
    NormalIsCanonical(v, digits);
    CanonicalStays(NormalizeNode(v, digits).value, digits);
    if Canonical(v) {
      CanonicalStays(v, digits);
    }
  }

  lemma PlanTwice(v: Tree, digits: Digits)
    requires NormalizePlan(v, digits).Some?
    ensures NormalizePlan(NormalizePlan(v, digits).value, digits) == NormalizePlan(v, digits)
  {
    if v.Obj? && Phases in v.fields && v.fields[Phases].Arr? {
      var items := NormalizeItems(v.fields[Phases], 0, digits).value;
      NormalItemsAreCanonical(v.fields[Phases], 0, digits);
      CanonicalItemsStay(Arr(items), 0, digits);
      assert Arr(items).items[0..] == items;
      assert v.fields[Phases := Arr(items)][Phases := Arr(items)] == v.fields[Phases := Arr(items)];
    }
  }

  // ---------- folded text keeps its lines ----------

  /** The lines of a folded list. */
  function LinesOf(name: Name, items: seq<Tree>, i: nat, digits: Digits): seq<string>
    requires i <= |items| && AllText(items)
    decreases |items| - i
  {
    if i == |items| then [] else [LineOf(name, items[i], i, digits)] + LinesOf(name, items, i + 1, digits)
  }

  /** Line `i` is the trimmed text of item `i`, and in `how_to` its number, from 1, stands in front. */
  ghost predicate AreLinesOf(lines: seq<string>, name: Name, items: seq<Tree>, digits: Digits)
    requires AllText(items)
  {
    |lines| == |items|
    && forall i :: 0 <= i < |items| ==>
         lines[i] == if name == HowTo then digits(i + 1) + ". " + Trim(items[i].text) else Trim(items[i].text)
  }

  function JoinedWith(separator: string, lines: seq<string>): string {
    if lines == [] then ""
    else if |lines| == 1 then lines[0]
    else lines[0] + separator + JoinedWith(separator, lines[1..])
  }

  lemma {:induction false} LineCount(name: Name, items: seq<Tree>, i: nat, digits: Digits)
    requires i <= |items| && AllText(items)
    ensures |LinesOf(name, items, i, digits)| == |items| - i
    decreases |items| - i
  {
    if i < |items| {
      LineCount(name, items, i + 1, digits);
    }
  }

  lemma {:induction false} LineAt(name: Name, items: seq<Tree>, i: nat, k: nat, digits: Digits)
    requires i <= k < |items| && AllText(items)
    ensures k - i < |LinesOf(name, items, i, digits)|
    ensures LinesOf(name, items, i, digits)[k - i] == LineOf(name, items[k], k, digits)
    decreases |items| - i
  {
    if i < k {
      LineAt(name, items, i + 1, k, digits);
    }
  }

  lemma JoinedInFront(separator: string, line: string, rest: seq<string>)
    ensures JoinedWith(separator, [line] + rest)
            == if rest == [] then line else line + separator + JoinedWith(separator, rest)
  {
    assert ([line] + rest)[1..] == rest;
  }

  lemma {:induction false} FoldedIsJoined(name: Name, items: seq<Tree>, i: nat, digits: Digits)
    requires i <= |items| && AllText(items)
    ensures JoinLines(name, items, i, digits) == JoinedWith(Separator(name), LinesOf(name, items, i, digits))
    decreases |items| - i
  {
    if i < |items| {
      var line, rest := LineOf(name, items[i], i, digits), LinesOf(name, items, i + 1, digits);
      LineCount(name, items, i + 1, digits);
      FoldedIsJoined(name, items, i + 1, digits);
      JoinedInFront(Separator(name), line, rest);
      assert LinesOf(name, items, i, digits) == [line] + rest;
    }
  }

  /** Every key that the normaliser knows by name, but for the structural ones, is a text field. */
  predicate Structural(name: Name) {
    name.Phases? || name.PhaseName? || name.Tasks? || name.Title? || name.Children?
  }

  predicate Untouched(name: Name) {
    name.Phases? || name.Other?
  }

  /** A list of lines becomes one text: roles and sessions joined by commas, all else by line feeds. */
  lemma FoldedTextIsJoined(name: Name, v: Tree, digits: Digits) returns (lines: seq<string>)
    requires !Structural(name) && !Untouched(name) && IsLines(v)
    ensures AreLinesOf(lines, name, v.items, digits)
    ensures Folded(name, v, digits)
            == Str(JoinedWith(if name.RequiredRole? || name.RequiredSession? then ", " else "\n", lines))
  {
    lines := LinesOf(name, v.items, 0, digits);
    LineCount(name, v.items, 0, digits);
    FoldedIsJoined(name, v.items, 0, digits);
    forall i | 0 <= i < |v.items|
      ensures lines[i] == LineOf(name, v.items[i], i, digits)
    {
      LineAt(name, v.items, 0, i, digits);
    }
  }

  lemma {:induction false} JoinIsWithLineFeeds(lines: seq<string>)
    ensures JoinedWith("\n", lines) == Join(lines)
  {
    if |lines| > 1 {
      JoinIsWithLineFeeds(lines[1..]);
    }
  }

  predicate JoinedByLineFeeds(name: Name) {
    name != RequiredRole && name != RequiredSession
  }

  /** Lines without line feeds of their own are told apart in the folded text. */
  lemma FoldedLinesComeBack(name: Name, v: Tree, digits: Digits)
    requires IsTextField(name) && JoinedByLineFeeds(name) && IsLines(v) && v.items != []
    requires AllNoLineFeed(LinesOf(name, v.items, 0, digits))
    ensures Folded(name, v, digits).Str?
    ensures SplitAtLineFeeds(Folded(name, v, digits).text) == LinesOf(name, v.items, 0, digits)
  {
    LineCount(name, v.items, 0, digits);
    FoldedIsJoined(name, v.items, 0, digits);
    JoinIsWithLineFeeds(LinesOf(name, v.items, 0, digits));
    SplitOfJoined(LinesOf(name, v.items, 0, digits));
  }

  // ---------- when it fails, and what it keeps ----------

  /** Some node reached has both tasks and children that are not null. */
  predicate ConflictBelow(v: Tree)
    decreases v
  {
    v.Obj? &&
    (|| Conflicts(v.fields)
     || (Tasks in v.fields && v.fields[Tasks].Arr?
         && exists i :: 0 <= i < |v.fields[Tasks].items| && ConflictBelow(v.fields[Tasks].items[i]))
     || (Tasks !in v.fields && Children in v.fields && v.fields[Children].Arr?
         && exists i :: 0 <= i < |v.fields[Children].items| && ConflictBelow(v.fields[Children].items[i])))
  }

  lemma {:induction false} FailsIffConflict(v: Tree, digits: Digits)
    ensures NormalizeNode(v, digits).None? <==> ConflictBelow(v)
    decreases v, 1, 0
  {
    if v.Obj? && ChildSource(v.fields).Arr? {
      ItemsFailIffConflict(ChildSource(v.fields), 0, digits);
    }
  }

  lemma {:induction false} ItemsFailIffConflict(source: Tree, i: nat, digits: Digits)
    requires source.Arr? && i <= |source.items|
    ensures NormalizeItems(source, i, digits).None?
            <==> exists j :: i <= j < |source.items| && ConflictBelow(source.items[j])
    decreases source, 0, |source.items| - i
  {
    if i < |source.items| {
      FailsIffConflict(source.items[i], digits);
      ItemsFailIffConflict(source, i + 1, digits);
    }
  }

  predicate PlanConflicts(v: Tree) {
    && v.Obj? && Phases in v.fields && v.fields[Phases].Arr?
    && exists i :: 0 <= i < |v.fields[Phases].items| && ConflictBelow(v.fields[Phases].items[i])
  }

  lemma PlanFailsIffConflict(v: Tree, digits: Digits)
    ensures NormalizePlan(v, digits).None? <==> PlanConflicts(v)
  {
    if v.Obj? && Phases in v.fields && v.fields[Phases].Arr? {
      ItemsFailIffConflict(v.fields[Phases], 0, digits);
    }
  }

  /** No key appears or goes beyond the two aliases and what they stand for. */
  ghost predicate SameKeys(before: Fields, after: Fields) {
    forall name :: name in after <==>
      || (name in before && name != PhaseName && name != Tasks)
      || (name == Title && PhaseName in before)
      || (name == Children && Tasks in before)
  }

  /** There is a title, and it is a text with something to read in it. */
  ghost predicate SaysTitle(fields: Fields) {
    Title in fields && fields[Title].Str? && !AllSpace(fields[Title].text)
  }

  lemma HasTitleIffItSays(fields: Fields)
    ensures HasTitle(fields) <==> SaysTitle(fields)
  {
    if Title in fields && fields[Title].Str? {
      var text := fields[Title].text;
      var before, after := TrimSplits(text);
      if Trim(text) != "" {
        assert text[|before|] == Trim(text)[0] && !IsSpace(text[|before|]);
      } else {
        assert text == before + after;
      }
    }
  }

  /** The alias gives way to a title that is there and says something. */
  ghost predicate TitleKept(before: Fields, after: Fields) {
    && (PhaseName in before && !SaysTitle(before) ==> Title in after && after[Title] == before[PhaseName])
    && (Title in before && (PhaseName !in before || SaysTitle(before)) ==>
          Title in after && after[Title] == before[Title])
  }

  predicate ValuesKept(before: Fields, after: Fields, digits: Digits) {
    && (forall name :: name in before && Untouched(name) ==> name in after && after[name] == before[name])
    && (forall name :: name in before && !Structural(name) && !Untouched(name) ==>
          name in after && after[name] == Folded(name, before[name], digits))
  }

  ghost predicate FieldsKept(before: Fields, after: Fields, digits: Digits) {
    SameKeys(before, after) && TitleKept(before, after) && ValuesKept(before, after, digits)
  }

  /** The same node, and the same nodes below it in the same order, in the canonical shape. */
  ghost predicate SameNode(v: Tree, w: Tree, digits: Digits)
    decreases v
  {
    if !v.Obj? then w == v
    else
      && w.Obj? && FieldsKept(v.fields, w.fields, digits)
      && (Tasks in v.fields || Children in v.fields ==>
            Children in w.fields && SameChildren(ChildSource(v.fields), w.fields[Children], digits))
  }

  ghost predicate SameChildren(source: Tree, out: Tree, digits: Digits)
    decreases source, 1
  {
    if !source.Arr? then out == source
    else
      && out.Arr? && |out.items| == |source.items|
      && forall i :: 0 <= i < |source.items| ==> SameNode(source.items[i], out.items[i], digits)
  }

  lemma RenamedFieldsAreKept(fields: Fields, digits: Digits)
    ensures FieldsKept(fields, Renamed(fields, digits), digits)
  {
    var r := Renamed(fields, digits);
    HasTitleIffItSays(fields);
    HasTitleIffItSays(fields - {PhaseName});
    assert SameKeys(fields, r);
    assert TitleKept(fields, r);
  }

  lemma RenamedWithChildren(v: Tree, children: Tree, digits: Digits)
    requires v.Obj? && SameChildren(ChildSource(v.fields), children, digits)
    requires Tasks in v.fields || Children in v.fields
    ensures SameNode(v, Obj(Renamed(v.fields, digits)[Children := children]), digits)
  {
    var r := Renamed(v.fields, digits);
    var out := r[Children := children];
    RenamedChildren(v.fields, digits);
    RenamedFieldsAreKept(v.fields, digits);
    assert SameKeys(v.fields, out);
    assert TitleKept(v.fields, out);
    assert ValuesKept(v.fields, out, digits);
  }

  lemma RenamedLeaf(v: Tree, digits: Digits)
    requires v.Obj? && !ChildSource(v.fields).Arr?
    ensures SameNode(v, Obj(Renamed(v.fields, digits)), digits)
  {
    RenamedChildren(v.fields, digits);
    RenamedFieldsAreKept(v.fields, digits);
  }

  lemma {:induction false} NormalIsSame(v: Tree, digits: Digits)
    requires NormalizeNode(v, digits).Some?
    ensures SameNode(v, NormalizeNode(v, digits).value, digits)
    decreases v, 1, 0
  {
    if v.Obj? {
      var source := ChildSource(v.fields);
      if source.Arr? {
        NormalItemsAreSame(source, 0, digits);
        RenamedWithChildren(v, Arr(NormalizeItems(source, 0, digits).value), digits);
      } else {
        RenamedLeaf(v, digits);
      }
    }
  }

  lemma {:induction false} NormalItemsAreSame(source: Tree, i: nat, digits: Digits)
    requires source.Arr? && i <= |source.items| && NormalizeItems(source, i, digits).Some?
    ensures var out := NormalizeItems(source, i, digits).value;
            && |out| == |source.items| - i
            && forall j :: i <= j < |source.items| ==> SameNode(source.items[j], out[j - i], digits)
    decreases source, 0, |source.items| - i
  {
    if i < |source.items| {
      NormalIsSame(source.items[i], digits);
      NormalItemsAreSame(source, i + 1, digits);
    }
  }

  lemma {:induction false} SameNodeIsUnique(v: Tree, w: Tree, u: Tree, digits: Digits)
    requires SameNode(v, w, digits) && SameNode(v, u, digits)
    ensures w == u
    decreases v, 1
  {
    if v.Obj? {
      forall name | name in w.fields && name != Children
        ensures w.fields[name] == u.fields[name]
      {
      }
      if Tasks in v.fields || Children in v.fields {
        SameChildrenAreUnique(ChildSource(v.fields), w.fields[Children], u.fields[Children], digits);
      }
      assert w.fields.Keys == u.fields.Keys;
      assert w.fields == u.fields;
    }
  }

  lemma {:induction false} SameChildrenAreUnique(source: Tree, a: Tree, b: Tree, digits: Digits)
    requires SameChildren(source, a, digits) && SameChildren(source, b, digits)
    ensures a == b
    decreases source, 2
  {
    if source.Arr? {
      forall i | 0 <= i < |source.items|
        ensures a.items[i] == b.items[i]
      {
        SameNodeIsUnique(source.items[i], a.items[i], b.items[i], digits);
      }
      assert a.items == b.items;
    }
  }

  /**
    For every tree: normalising yields the one tree that has the same nodes in the canonical
    shape, and fails on conflicts alone.
   */
  lemma NormalizesIffSame(v: Tree, w: Tree, digits: Digits)
    ensures NormalizeNode(v, digits) == Some(w) <==> !ConflictBelow(v) && SameNode(v, w, digits)
  {
    FailsIffConflict(v, digits);
    if NormalizeNode(v, digits).Some? {
      NormalIsSame(v, digits);
      if SameNode(v, w, digits) {
        SameNodeIsUnique(v, w, NormalizeNode(v, digits).value, digits);
      }
    }
  }

  /** The same plan with every node under its phases in the canonical shape. */
  ghost predicate SamePlan(v: Tree, w: Tree, digits: Digits) {
    if !v.Obj? || Phases !in v.fields then w == v
    else
      && w.Obj? && w.fields.Keys == v.fields.Keys
      && (forall name :: name in v.fields && name != Phases ==> w.fields[name] == v.fields[name])
      && SameChildren(v.fields[Phases], w.fields[Phases], digits)
  }

  lemma PlanNormalizesIffSame(v: Tree, w: Tree, digits: Digits)
    ensures NormalizePlan(v, digits) == Some(w) <==> !PlanConflicts(v) && SamePlan(v, w, digits)
  {
    PlanFailsIffConflict(v, digits);
    var normal := NormalizePlan(v, digits);
    if normal.Some? {
      PlanIsSame(v, digits);
      if SamePlan(v, w, digits) {
        SamePlanIsUnique(v, w, normal.value, digits);
      }
    }
  }

  lemma PlanIsSame(v: Tree, digits: Digits)
    requires NormalizePlan(v, digits).Some?
    ensures SamePlan(v, NormalizePlan(v, digits).value, digits)
  {
    if v.Obj? && Phases in v.fields && v.fields[Phases].Arr? {
      var phases := v.fields[Phases];
      NormalItemsAreSame(phases, 0, digits);
      PlanWithPhases(v, Arr(NormalizeItems(phases, 0, digits).value), digits);
    }
  }

  lemma PlanWithPhases(v: Tree, phases: Tree, digits: Digits)
    requires v.Obj? && Phases in v.fields && SameChildren(v.fields[Phases], phases, digits)
    ensures SamePlan(v, Obj(v.fields[Phases := phases]), digits)
  {
    assert v.fields[Phases := phases].Keys == v.fields.Keys;
  }

  lemma SamePlanIsUnique(v: Tree, w: Tree, u: Tree, digits: Digits)
    requires SamePlan(v, w, digits) && SamePlan(v, u, digits)
    ensures w == u
  {
    if v.Obj? && Phases in v.fields {
      SameChildrenAreUnique(v.fields[Phases], w.fields[Phases], u.fields[Phases], digits);
      assert w.fields == u.fields;
    }
  }
}
