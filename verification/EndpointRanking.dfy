/** Ranking the endpoints of a digest, and why the ranking is one and the same for every map order. */
module EndpointRanking {
  import opened TrafficDigest

  // ---------- the score ----------

  /** The range of row ids, and the patterns for static files and health checks, which are left open. */
  datatype Scoring = Scoring(minId: int, maxId: int, isStatic: (string, set<string>) -> bool, isNoise: string -> bool)

  function Log2(n: nat): nat {
    if n < 2 then 0 else 1 + Log2(n / 2)
  }

  function Clamp(x: int, low: int, high: int): int
    requires low <= high
  {
    Max(low, Min(x, high))
  }

  function Recency(lastId: int, s: Scoring): int {
    Clamp(Max(lastId - s.minId, 0) * 100 / Max(s.maxId - s.minId, 1), 0, 100)
  }

  function Rarity(count: nat): int {
    if count == 1 then 160 else if 2 <= count <= 3 then 100 else if 4 <= count <= 10 then 40
    else -(Log2(count) * 25)
  }

  predicate HasErrorStatus(a: Aggregate) {
    exists name :: name in FacetCounts(a, Status) && name != "" && (name[0] == '4' || name[0] == '5')
  }

  predicate HasDocument(a: Aggregate) {
    "application/json" in FacetCounts(a, ContentType) || "text/html" in FacetCounts(a, ContentType)
  }

  /** What counts besides the age of the last request. */
  function Merit(a: Aggregate, s: Scoring): int {
    Rarity(a.count)
    + (if a.key.method_ != "GET" && a.key.method_ != "HEAD" then 80 else 0)
    + (if HasErrorStatus(a) then 80 else 0)
    + (if HasDocument(a) then 50 else 0)
    + (if |FacetCounts(a, Role)| > 1 then 70 else 0)
    + (if a.tags != {} then 240 else 0)
    - (if s.isStatic(a.key.route, FacetCounts(a, ContentType).Keys) then 450 else 0)
    - (if s.isNoise(a.key.route) then 500 + Log2(a.count) * 40 else 0)
  }

  function Score(a: Aggregate, s: Scoring): int {
    500 + Recency(a.lastId, s) + Merit(a, s)
  }

  method EndpointScore(a: Aggregate, s: Scoring) returns (score: int)
    ensures score == Score(a, s)
  {
    var span := Max(s.maxId - s.minId, 1);
    var recency := Clamp(Max(a.lastId - s.minId, 0) * 100 / span, 0, 100);
    score := 500 + recency;
    score := score + Rarity(a.count);
    if a.key.method_ != "GET" && a.key.method_ != "HEAD" {
      score := score + 80;
    }
    if HasErrorStatus(a) {
      score := score + 80;
    }
    if HasDocument(a) {
      score := score + 50;
    }
    if |FacetCounts(a, Role)| > 1 {
      score := score + 70;
    }
    if a.tags != {} {
      score := score + 240;
    }
    if s.isStatic(a.key.route, FacetCounts(a, ContentType).Keys) {
      score := score - 450;
    }
    if s.isNoise(a.key.route) {
      score := score - (500 + Log2(a.count) * 40);
    }
  }

  lemma ProductIsMonotone(a: int, b: int, d: int)
    requires a <= b && d > 0
    ensures d * a <= d * b
  {
  }

  lemma DivisionIsMonotone(x: int, y: int, d: int)
    requires x <= y && d > 0
    ensures x / d <= y / d
  {
    if y / d < x / d {
      ProductIsMonotone(y / d + 1, x / d, d);
      assert false;
    }
  }

  lemma RecencyIsMonotone(first: int, second: int, s: Scoring)
    requires first <= second
    ensures Recency(first, s) <= Recency(second, s)
  {
    DivisionIsMonotone(Max(first - s.minId, 0) * 100, Max(second - s.minId, 0) * 100, Max(s.maxId - s.minId, 1));
  }

  lemma MeritIgnoresLastId(a: Aggregate, lastId: int, s: Scoring)
    ensures Merit(a.(lastId := lastId), s) == Merit(a, s)
  {
    var b := a.(lastId := lastId);
    FacetsIgnoreLastId(a, lastId);
    assert HasDocument(b) == HasDocument(a);
  }

  lemma FacetsIgnoreLastId(a: Aggregate, lastId: int)
    ensures var b := a.(lastId := lastId);
            && FacetCounts(b, Status) == FacetCounts(a, Status)
            && FacetCounts(b, ContentType) == FacetCounts(a, ContentType)
            && FacetCounts(b, Role) == FacetCounts(a, Role)
            && HasErrorStatus(b) == HasErrorStatus(a)
  {
  }

  /** A later last request never costs an endpoint points. */
  lemma LaterScoresNoLower(a: Aggregate, lastId: int, s: Scoring)
    requires a.lastId <= lastId
    ensures Score(a, s) <= Score(a.(lastId := lastId), s)
  {
    RecencyIsMonotone(a.lastId, lastId, s);
    MeritIgnoresLastId(a, lastId, s);
  }

  // ---------- what gains and what loses points ----------

  lemma {:induction false} Log2IsMonotone(m: nat, n: nat)
    requires m <= n
    ensures Log2(m) <= Log2(n)
  {
    if m >= 2 {
      Log2IsMonotone(m / 2, n / 2);
    }
  }

  lemma RarityFalls(m: nat, n: nat)
    requires 1 <= m <= n
    ensures Rarity(n) <= Rarity(m)
  {
    Log2IsMonotone(m, n);
    if m > 10 {
      assert Log2(n) * 25 >= Log2(m) * 25;
    }
  }

  /** The merit that the number of requests has no part in. */
  function OtherMerit(a: Aggregate, s: Scoring): int {
    Merit(a, s) - Rarity(a.count) + if s.isNoise(a.key.route) then Log2(a.count) * 40 else 0
  }

  lemma CountIsNoOtherMerit(a: Aggregate, count: nat, s: Scoring)
    ensures OtherMerit(a.(count := count), s) == OtherMerit(a, s)
  {
    var b := a.(count := count);
    assert b.facets == a.facets && b.key == a.key && b.tags == a.tags;
    assert forall f :: FacetCounts(b, f) == FacetCounts(a, f);
  }

  /** More requests to an endpoint never gain it points. */
  lemma MoreRequestsGainNothing(a: Aggregate, count: nat, s: Scoring)
    requires 1 <= a.count <= count
    ensures Score(a.(count := count), s) <= Score(a, s)
  {
    Log2IsMonotone(a.count, count);
    RarityFalls(a.count, count);
    CountIsNoOtherMerit(a, count, s);
    FromOtherMerit(a, s);
    FromOtherMerit(a.(count := count), s);
  }

  lemma FromOtherMerit(a: Aggregate, s: Scoring)
    ensures Score(a, s) == 500 + Recency(a.lastId, s) + OtherMerit(a, s) + Rarity(a.count)
                           - if s.isNoise(a.key.route) then Log2(a.count) * 40 else 0
  {
  }

  /** Rule tags gain 240 points, and a method other than GET and HEAD gains 80. */
  lemma TagsAndMethodGain(a: Aggregate, tags: set<string>, method_: string, s: Scoring)
    requires a.tags == {} && tags != {}
    requires (a.key.method_ == "GET" || a.key.method_ == "HEAD") && method_ != "GET" && method_ != "HEAD"
    ensures Score(a.(tags := tags), s) == Score(a, s) + 240
    ensures Score(a.(key := a.key.(method_ := method_)), s) == Score(a, s) + 80
  {
    FacetsAlone(a, a.(tags := tags));
    FacetsAlone(a, a.(key := a.key.(method_ := method_)));
  }

  lemma FacetsAlone(a: Aggregate, b: Aggregate)
    requires a.facets == b.facets
    ensures HasErrorStatus(a) == HasErrorStatus(b) && HasDocument(a) == HasDocument(b)
    ensures forall f :: FacetCounts(a, f) == FacetCounts(b, f)
  {
  }

  predicate IsError(status: string) {
    "4" <= status || "5" <= status
  }

  /** With other labels on one facet. */
  function Relabelled(a: Aggregate, f: Facet, labels: Counts): Aggregate {
    a.(facets := a.facets[f := labels])
  }

  lemma OtherFacetsStay(a: Aggregate, f: Facet, labels: Counts)
    ensures FacetCounts(Relabelled(a, f, labels), f) == labels
    ensures forall g :: g != f ==> FacetCounts(Relabelled(a, f, labels), g) == FacetCounts(a, g)
  {
  }

  /** A status of the 400s or 500s among the labels gains 80 points. */
  lemma ErrorStatusGains(a: Aggregate, labels: Counts, s: Scoring)
    requires !HasErrorStatus(a)
    ensures Score(Relabelled(a, Status, labels), s)
            == Score(a, s) + if exists name :: name in labels && IsError(name) then 80 else 0
  {
    var b := Relabelled(a, Status, labels);
    OtherFacetsStay(a, Status, labels);
    ErrorStatusIs(b);
    assert HasDocument(b) == HasDocument(a);
  }

  /** A second role gains 70. */
  lemma SecondRoleGains(a: Aggregate, labels: Counts, s: Scoring)
    requires |FacetCounts(a, Role)| <= 1
    ensures Score(Relabelled(a, Role, labels), s) == Score(a, s) + if |labels| > 1 then 70 else 0
  {
    var b := Relabelled(a, Role, labels);
    OtherFacetsStay(a, Role, labels);
    ErrorStatusIs(a);
    ErrorStatusIs(b);
    assert HasDocument(b) == HasDocument(a);
  }

  lemma ErrorStatusIs(a: Aggregate)
    ensures HasErrorStatus(a) <==> exists name :: name in FacetCounts(a, Status) && IsError(name)
  {
  }

  /** JSON or HTML among the content types gains 50 points, unless it changes whether the file is static. */
  lemma DocumentGains(a: Aggregate, labels: Counts, s: Scoring)
    requires !HasDocument(a)
    requires s.isStatic(a.key.route, labels.Keys) == s.isStatic(a.key.route, FacetCounts(a, ContentType).Keys)
    ensures Score(Relabelled(a, ContentType, labels), s)
            == Score(a, s) + if "application/json" in labels || "text/html" in labels then 50 else 0
  {
    var b := Relabelled(a, ContentType, labels);
    assert FacetCounts(b, Status) == FacetCounts(a, Status) && FacetCounts(b, Role) == FacetCounts(a, Role);
    ErrorStatusIs(a);
    ErrorStatusIs(b);
  }

  /** A static file loses 450 points, a health check 500 and 40 for each doubling of its requests. */
  lemma StaticAndNoiseLose(a: Aggregate, s: Scoring, t: Scoring)
    requires t.minId == s.minId && t.maxId == s.maxId
    requires var types := FacetCounts(a, ContentType).Keys; !s.isStatic(a.key.route, types) && !s.isNoise(a.key.route)
    ensures var types := FacetCounts(a, ContentType).Keys;
            Score(a, s) - Score(a, t)
            == (if t.isStatic(a.key.route, types) then 450 else 0)
               + (if t.isNoise(a.key.route) then 500 + 40 * Log2(a.count) else 0)
  {
  }

  /** `Log2` is the exponent of the largest power of two in `n`. */
  lemma {:induction false} Log2IsExponent(n: nat)
    requires n >= 1
    ensures Power2(Log2(n)) <= n < Power2(Log2(n) + 1)
  {
    if n >= 2 {
      Log2IsExponent(n / 2);
    }
  }

  function Power2(k: nat): nat {
    if k == 0 then 1 else 2 * Power2(k - 1)
  }

  /** The first points: 160 for a single request, 100 up to three, 40 up to ten, then 25 off for each doubling. */
  lemma FirstPoints(a: Aggregate, s: Scoring)
    requires a.tags == {} && a.key.method_ == "GET" && a.facets == map[]
    requires !s.isStatic(a.key.route, {}) && !s.isNoise(a.key.route) && a.count >= 1
    ensures Score(a, s) == 500 + Recency(a.lastId, s)
                           + if a.count == 1 then 160 else if a.count <= 3 then 100 else if a.count <= 10 then 40
                             else -25 * Log2(a.count)
  {
    assert FacetCounts(a, ContentType).Keys == {} && !HasErrorStatus(a) && !HasDocument(a);
  }

  /** Recency runs from 0 for the first row to 100 for the last. */
  lemma RecencyRuns(id: int, s: Scoring)
    ensures 0 <= Recency(id, s) <= 100
    ensures id <= s.minId ==> Recency(id, s) == 0
    ensures s.minId < s.maxId <= id ==> Recency(id, s) == 100
  {
    if id <= s.minId {
      NothingOver(Max(s.maxId - s.minId, 1));
    } else if s.minId < s.maxId <= id {
      HundredAtLeast(id - s.minId, s.maxId - s.minId);
    }
  }

  lemma NothingOver(d: int)
    requires d > 0
    ensures 0 / d == 0
  {
  }

  lemma HundredAtLeast(x: int, d: int)
    requires 0 < d <= x
    ensures x * 100 / d >= 100
  {
    DivisionIsMonotone(100 * d, x * 100, d);
  }

  // ---------- the order ----------

  function CompareInts(a: int, b: int): int {
    if a < b then -1 else if a == b then 0 else 1
  }

  function CompareStrings(a: string, b: string): int {
    if a == "" || b == "" then CompareInts(|a|, |b|)
    else if a[0] != b[0] then if a[0] < b[0] then -1 else 1
    else CompareStrings(a[1..], b[1..])
  }

  /** How endpoints are scored; the ranking is well defined for any way. */
  type Ranking = Aggregate -> int

  /** Negative when `left` comes first: higher score, then later last id, then by name. */
  function Compare(left: Aggregate, right: Aggregate, score: Ranking): int {
    var byScore := CompareInts(score(right), score(left));
    var byId := CompareInts(right.lastId, left.lastId);
    var byMethod := CompareStrings(left.key.method_, right.key.method_);
    var byHost := CompareStrings(left.key.host, right.key.host);
    if byScore != 0 then byScore
    else if byId != 0 then byId
    else if byMethod != 0 then byMethod
    else if byHost != 0 then byHost
    else CompareStrings(left.key.route, right.key.route)
  }

  predicate Before(left: Aggregate, right: Aggregate, score: Ranking) {
    Compare(left, right, score) < 0
  }

  /** With different last ids, the names never decide. */
  lemma IdsDecide(a: Aggregate, b: Aggregate, score: Ranking)
    requires a.lastId != b.lastId
    ensures Before(a, b, score) <==> score(a) > score(b) || (score(a) == score(b) && a.lastId > b.lastId)
    ensures Before(a, b, score) <==> !Before(b, a, score)
    ensures Compare(a, b, score) != 0
  {
  }

  // ---------- sorting ----------

  function Insert(a: Aggregate, list: seq<Aggregate>, score: Ranking): seq<Aggregate> {
    if list == [] then [a]
    else if Compare(a, list[0], score) <= 0 then [a] + list
    else [list[0]] + Insert(a, list[1..], score)
  }

  function Sort(list: seq<Aggregate>, score: Ranking): seq<Aggregate> {
    if list == [] then [] else Insert(list[0], Sort(list[1..], score), score)
  }

  ghost predicate Ranked(list: seq<Aggregate>, score: Ranking) {
    forall i, j :: 0 <= i < j < |list| ==> list[i].lastId != list[j].lastId && Before(list[i], list[j], score)
  }

  ghost predicate DistinctLastIds(list: seq<Aggregate>) {
    forall i, j :: 0 <= i < j < |list| ==> list[i].lastId != list[j].lastId
  }

  lemma {:induction false} InsertKeeps(a: Aggregate, list: seq<Aggregate>, score: Ranking)
    ensures multiset(Insert(a, list, score)) == multiset{a} + multiset(list)
  {
    if list != [] && Compare(a, list[0], score) > 0 {
      InsertKeeps(a, list[1..], score);
      assert list == [list[0]] + list[1..];
    }
  }

  lemma {:induction false} SortKeeps(list: seq<Aggregate>, score: Ranking)
    ensures multiset(Sort(list, score)) == multiset(list)
  {
    if list != [] {
      SortKeeps(list[1..], score);
      InsertKeeps(list[0], Sort(list[1..], score), score);
      assert list == [list[0]] + list[1..];
    }
  }

  /** `a` ranks before all of the list. */
  ghost predicate Leads(a: Aggregate, list: seq<Aggregate>, score: Ranking) {
    forall j :: 0 <= j < |list| ==> a.lastId != list[j].lastId && Before(a, list[j], score)
  }

  lemma LeaderInFront(a: Aggregate, list: seq<Aggregate>, score: Ranking)
    requires Ranked(list, score) && Leads(a, list, score)
    ensures Ranked([a] + list, score)
  {
  }

  lemma FirstLeads(list: seq<Aggregate>, score: Ranking)
    requires Ranked(list, score) && list != []
    ensures Leads(list[0], list[1..], score) && Ranked(list[1..], score)
  {
  }

  lemma LeadsFurther(a: Aggregate, b: Aggregate, list: seq<Aggregate>, score: Ranking)
    requires a.lastId != b.lastId && Before(a, b, score) && Leads(b, list, score)
    requires forall j :: 0 <= j < |list| ==> list[j].lastId != a.lastId
    ensures Leads(a, [b] + list, score)
  {
  }

  lemma LeadsInserted(b: Aggregate, a: Aggregate, list: seq<Aggregate>, score: Ranking)
    requires a.lastId != b.lastId && Before(b, a, score) && Leads(b, list, score)
    ensures Leads(b, Insert(a, list, score), score)
  {
  }

  lemma {:induction false} InsertRanks(a: Aggregate, list: seq<Aggregate>, score: Ranking)
    requires Ranked(list, score) && forall i :: 0 <= i < |list| ==> list[i].lastId != a.lastId
    ensures Ranked(Insert(a, list, score), score)
  {
    if list != [] {
      IdsDecide(a, list[0], score);
      FirstLeads(list, score);
      assert list == [list[0]] + list[1..];
      if Before(a, list[0], score) {
        LeadsFurther(a, list[0], list[1..], score);
        LeaderInFront(a, list, score);
      } else {
        InsertRanks(a, list[1..], score);
        LeadsInserted(list[0], a, list[1..], score);
        LeaderInFront(list[0], Insert(a, list[1..], score), score);
      }
    }
  }

  lemma {:induction false} SortRanks(list: seq<Aggregate>, score: Ranking)
    requires DistinctLastIds(list)
    ensures Ranked(Sort(list, score), score)
  {
    if list != [] {
      var rest := Sort(list[1..], score);
      SortRanks(list[1..], score);
      SortKeeps(list[1..], score);
      forall i | 0 <= i < |rest|
        ensures rest[i].lastId != list[0].lastId
      {
        assert rest[i] in multiset(rest);
        var j :| 0 <= j < |list[1..]| && list[1..][j] == rest[i];
        assert list[j + 1] == rest[i];
      }
      InsertRanks(list[0], rest, score);
    }
  }

  ghost predicate SameMembers(a: seq<Aggregate>, b: seq<Aggregate>) {
    forall x :: x in a <==> x in b
  }

  lemma NoMembers(a: seq<Aggregate>, b: seq<Aggregate>)
    requires SameMembers(a, b)
    ensures a == [] <==> b == []
  {
    assert a != [] ==> a[0] in a;
    assert b != [] ==> b[0] in b;
  }

  /** A ranked list is determined by its members. */
  lemma {:induction false} RankedIsUnique(a: seq<Aggregate>, b: seq<Aggregate>, score: Ranking)
    requires Ranked(a, score) && Ranked(b, score) && SameMembers(a, b)
    ensures a == b
  {
    if a == [] || b == [] {
      NoMembers(a, b);
    } else {
      assert a[0] in b;
      var j :| 0 <= j < |b| && b[j] == a[0];
      assert b[0] in a;
      var i :| 0 <= i < |a| && a[i] == b[0];
      if i > 0 && j > 0 {
        IdsDecide(a[0], a[i], score);
      }
      assert a[0] == b[0];
      forall x
        ensures x in a[1..] <==> x in b[1..]
      {
        TailMembers(a, score, x);
        TailMembers(b, score, x);
      }
      RankedIsUnique(a[1..], b[1..], score);
    }
  }

  lemma TailMembers(a: seq<Aggregate>, score: Ranking, x: Aggregate)
    requires Ranked(a, score) && a != []
    ensures x in a[1..] <==> x in a && x != a[0]
  {
  }

  // ---------- the top of the list ----------

  const MAX_ENDPOINTS := 30

  /** The order in which a hash map hands out its keys. */
  ghost predicate Enumerates(order: seq<Key>, keys: set<Key>) {
    && (forall k :: k in keys <==> k in order)
    && (forall i, j :: 0 <= i < j < |order| ==> order[i] != order[j])
  }

  function ValuesIn(order: seq<Key>, endpoints: Endpoints): (values: seq<Aggregate>)
    requires forall k :: k in order ==> k in endpoints
    ensures |values| == |order|
    ensures forall i :: 0 <= i < |order| ==> values[i] == endpoints[order[i]]
  {
    if order == [] then [] else [endpoints[order[0]]] + ValuesIn(order[1..], endpoints)
  }

  function TopEndpoints(order: seq<Key>, endpoints: Endpoints, score: Ranking): seq<Aggregate>
    requires forall k :: k in order ==> k in endpoints
  {
    var sorted := Sort(ValuesIn(order, endpoints), score);
    if |sorted| > MAX_ENDPOINTS then sorted[..MAX_ENDPOINTS] else sorted
  }

  lemma ValuesHaveDistinctIds(rows: seq<Row>, order: seq<Key>)
    requires DistinctIds(rows) && Enumerates(order, Digest(rows).Keys)
    ensures DistinctLastIds(ValuesIn(order, Digest(rows)))
  {
    forall i, j | 0 <= i < j < |order|
      ensures Digest(rows)[order[i]].lastId != Digest(rows)[order[j]].lastId
    {
      LastIdsDiffer(rows, order[i], order[j]);
    }
  }

  lemma SortedMembers(rows: seq<Row>, order: seq<Key>, score: Ranking, x: Aggregate)
    requires Enumerates(order, Digest(rows).Keys)
    ensures x in Sort(ValuesIn(order, Digest(rows)), score) <==> exists k :: k in Digest(rows) && Digest(rows)[k] == x
  {
    var values := ValuesIn(order, Digest(rows));
    SortKeeps(values, score);
    assert x in Sort(values, score) <==> x in multiset(Sort(values, score));
    assert x in values <==> x in multiset(values);
    if x in values {
      var i :| 0 <= i < |values| && values[i] == x;
      assert order[i] in Digest(rows);
    }
    if k :| k in Digest(rows) && Digest(rows)[k] == x {
      var i :| 0 <= i < |order| && order[i] == k;
      assert values[i] == x;
    }
  }

  /** Whatever the map order, the list shown is the same. */
  lemma MapOrderDoesNotMatter(rows: seq<Row>, first: seq<Key>, second: seq<Key>, score: Ranking)
    requires DistinctIds(rows)
    requires Enumerates(first, Digest(rows).Keys) && Enumerates(second, Digest(rows).Keys)
    ensures TopEndpoints(first, Digest(rows), score) == TopEndpoints(second, Digest(rows), score)
  {
    var a, b := Sort(ValuesIn(first, Digest(rows)), score), Sort(ValuesIn(second, Digest(rows)), score);
    ValuesHaveDistinctIds(rows, first);
    ValuesHaveDistinctIds(rows, second);
    SortRanks(ValuesIn(first, Digest(rows)), score);
    SortRanks(ValuesIn(second, Digest(rows)), score);
    forall x
      ensures x in a <==> x in b
    {
      SortedMembers(rows, first, score, x);
      SortedMembers(rows, second, score, x);
    }
    RankedIsUnique(a, b, score);
  }

  /** What is cut off ranks behind everything that is shown. */
  lemma ShownRankBeforeHidden(rows: seq<Row>, order: seq<Key>, score: Ranking, shown: Aggregate, k: Key)
    requires DistinctIds(rows) && Enumerates(order, Digest(rows).Keys) && k in Digest(rows)
    requires shown in TopEndpoints(order, Digest(rows), score)
    requires Digest(rows)[k] !in TopEndpoints(order, Digest(rows), score)
    ensures Before(shown, Digest(rows)[k], score)
    ensures |TopEndpoints(order, Digest(rows), score)| == 30
  {
    var sorted := Sort(ValuesIn(order, Digest(rows)), score);
    ValuesHaveDistinctIds(rows, order);
    SortRanks(ValuesIn(order, Digest(rows)), score);
    SortedMembers(rows, order, score, Digest(rows)[k]);
    assert forall i :: 0 <= i < MAX_ENDPOINTS && i < |sorted| ==> sorted[i] in TopEndpoints(order, Digest(rows), score);
    var j :| 0 <= j < |sorted| && sorted[j] == Digest(rows)[k];
    if |sorted| > MAX_ENDPOINTS {
      var i :| 0 <= i < MAX_ENDPOINTS && sorted[..MAX_ENDPOINTS][i] == shown;
      assert sorted[i] == shown;
    }
  }

  /** What the digest shows for the rows when the map hands out its keys in this order. */
  function Shown(rows: seq<Row>, order: seq<Key>, s: Scoring): seq<Aggregate>
    requires forall k :: k in order ==> k in Digest(rows)
  {
    TopEndpoints(order, Digest(rows), (a: Aggregate) => Score(a, s))
  }

  /** Whatever the map order, the digest shows the same endpoints in the same order. */
  lemma ShownIgnoresMapOrder(rows: seq<Row>, first: seq<Key>, second: seq<Key>, s: Scoring)
    requires DistinctIds(rows)
    requires Enumerates(first, Digest(rows).Keys) && Enumerates(second, Digest(rows).Keys)
    ensures Shown(rows, first, s) == Shown(rows, second, s)
  {
    MapOrderDoesNotMatter(rows, first, second, (a: Aggregate) => Score(a, s));
  }
}
