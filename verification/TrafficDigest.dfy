/**
  The traffic digest: rows aggregated by endpoint, endpoints ranked by score. Neither depends on
  the order in which a hash map happens to hand out its entries.
 */
module TrafficDigest {
  // ---------- rows and aggregates ----------

  datatype Key = Key(method_: string, scheme: string, host: string, port: int, route: string)

  /** A traffic row with its route, labels and tags already normalised. */
  datatype Row = Row(id: int, key: Key, status: string, contentType: string, role: string,
                     queryNames: set<string>, tags: set<string>) {

    function LabelOf(f: Facet): string {
      match f
      case Status => status
      case ContentType => contentType
      case Role => role
    }
  }

  datatype Facet = Status | ContentType | Role

  type Counts = map<string, nat>

  datatype Aggregate = Aggregate(key: Key, count: nat, firstId: int, lastId: int, facets: map<Facet, Counts>,
                                 queryNames: set<string>, tags: set<string>)

  type Endpoints = map<Key, Aggregate>

  const NO_COUNTS: map<Facet, Counts> := map[Status := map[], ContentType := map[], Role := map[]]

  function Bump(counts: Counts, name: string): Counts {
    counts[name := 1 + if name in counts then counts[name] else 0]
  }

  function FacetCounts(a: Aggregate, f: Facet): Counts {
    if f in a.facets then a.facets[f] else map[]
  }

  function Min(a: int, b: int): int {
    if a <= b then a else b
  }

  function Max(a: int, b: int): int {
    if a >= b then a else b
  }

  /** The entry of a row's endpoint, fresh if there is none. */
  function Entry(endpoints: Endpoints, row: Row): Aggregate {
    if row.key in endpoints then endpoints[row.key]
    else Aggregate(row.key, 0, row.id, row.id, NO_COUNTS, {}, {})
  }

  function Grown(a: Aggregate, row: Row): Aggregate {
    Aggregate(
      row.key,
      a.count + 1,
      Min(a.firstId, row.id),
      Max(a.lastId, row.id),
      map[Status := Bump(FacetCounts(a, Status), row.status),
          ContentType := Bump(FacetCounts(a, ContentType), row.contentType),
          Role := Bump(FacetCounts(a, Role), row.role)],
      a.queryNames + row.queryNames,
      a.tags + row.tags)
  }

  function AddRow(endpoints: Endpoints, row: Row): Endpoints {
    endpoints[row.key := Grown(Entry(endpoints, row), row)]
  }

  /** The endpoints of all rows, taken in order. */
  function Digest(rows: seq<Row>): Endpoints {
    if rows == [] then map[] else AddRow(Digest(rows[..|rows| - 1]), rows[|rows| - 1])
  }

  /** The row loop of `build_redacted_digest`. */
  method AggregateRows(rows: seq<Row>) returns (endpoints: Endpoints)
    ensures endpoints == Digest(rows)
  {
    endpoints := map[];
    for i := 0 to |rows|
      invariant endpoints == Digest(rows[..i])
    {
      assert rows[..i + 1][..i] == rows[..i];
      endpoints := AddRow(endpoints, rows[i]);
    }
    assert rows[..|rows|] == rows;
  }

  // ---------- what the aggregation means ----------

  /** How many rows belong to an endpoint. */
  function CountKey(rows: seq<Row>, k: Key): nat {
    if rows == [] then 0
    else CountKey(rows[..|rows| - 1], k) + if rows[|rows| - 1].key == k then 1 else 0
  }

  /** How many of them carry a label. */
  function CountLabel(rows: seq<Row>, k: Key, f: Facet, name: string): nat {
    if rows == [] then 0
    else
      var last := rows[|rows| - 1];
      CountLabel(rows[..|rows| - 1], k, f, name) + if last.key == k && last.LabelOf(f) == name then 1 else 0
  }

  ghost function Total<K>(m: map<K, nat>): nat {
    if m == map[] then 0
    else
      var k :| k in m;
      m[k] + Total(m - {k})
  }

  ghost predicate IdsInRange(a: Aggregate, rows: seq<Row>, k: Key) {
    && (exists i :: 0 <= i < |rows| && rows[i].key == k && rows[i].id == a.lastId)
    && (exists i :: 0 <= i < |rows| && rows[i].key == k && rows[i].id == a.firstId)
    && (forall i :: 0 <= i < |rows| && rows[i].key == k ==> a.firstId <= rows[i].id <= a.lastId)
  }

  /** A label is listed when it occurs, with the number of times it does. */
  ghost predicate LabelsCounted(a: Aggregate, rows: seq<Row>, k: Key) {
    && a.facets.Keys == {Status, ContentType, Role}
    && forall f, name :: CountIn(a, f, name) == CountLabel(rows, k, f, name)
                         && (name in FacetCounts(a, f) <==> CountLabel(rows, k, f, name) > 0)
  }

  function CountIn(a: Aggregate, f: Facet, name: string): nat {
    if name in FacetCounts(a, f) then FacetCounts(a, f)[name] else 0
  }

  ghost predicate NamesCollected(a: Aggregate, rows: seq<Row>, k: Key) {
    && (forall n :: n in a.queryNames <==> exists i :: 0 <= i < |rows| && rows[i].key == k && n in rows[i].queryNames)
    && (forall t :: t in a.tags <==> exists i :: 0 <= i < |rows| && rows[i].key == k && t in rows[i].tags)
  }

  ghost predicate TotalsAgree(a: Aggregate) {
    forall f :: Total(FacetCounts(a, f)) == a.count
  }

  ghost predicate Summarises(a: Aggregate, rows: seq<Row>, k: Key) {
    && a.key == k
    && a.count == CountKey(rows, k) > 0
    && IdsInRange(a, rows, k)
    && LabelsCounted(a, rows, k)
    && NamesCollected(a, rows, k)
    && TotalsAgree(a)
  }

  /** The entry before its next row: a summary so far, or fresh. */
  ghost predicate Entered(a: Aggregate, rows: seq<Row>, row: Row) {
    && a.count == CountKey(rows, row.key)
    && (if a.count > 0 then IdsInRange(a, rows, row.key) else a.firstId == a.lastId == row.id)
    && LabelsCounted(a, rows, row.key)
    && NamesCollected(a, rows, row.key)
    && TotalsAgree(a)
  }

  function CountsOf(endpoints: Endpoints): map<Key, nat> {
    map k | k in endpoints :: endpoints[k].count
  }

  // ---------- sums over maps ----------

  lemma {:induction false} TotalRemove<K>(m: map<K, nat>, k: K)
    requires k in m
    ensures Total(m) == m[k] + Total(m - {k})
    decreases m.Keys
  {
    var j :| j in m && Total(m) == m[j] + Total(m - {j});
    if j != k {
      assert (m - {j}).Keys == m.Keys - {j};
      assert (m - {k}).Keys == m.Keys - {k};
      TotalRemove(m - {j}, k);
      TotalRemove(m - {k}, j);
      assert m - {j} - {k} == m - {k} - {j};
    }
  }

  lemma TotalSet<K>(m: map<K, nat>, k: K, v: nat)
    ensures Total(m[k := v]) + (if k in m then m[k] else 0) == Total(m) + v
  {
    TotalRemove(m[k := v], k);
    assert m[k := v] - {k} == m - {k};
    if k in m {
      TotalRemove(m, k);
    } else {
      assert m - {k} == m;
    }
  }

  // ---------- one more row ----------

  /** `all` is `rows` and one more. */
  predicate Extends(all: seq<Row>, rows: seq<Row>, row: Row) {
    |all| == |rows| + 1 && all[..|rows|] == rows && all[|rows|] == row
  }

  lemma OtherEndpointStays(a: Aggregate, rows: seq<Row>, row: Row, all: seq<Row>, k: Key)
    requires Extends(all, rows, row) && row.key != k && Summarises(a, rows, k)
    ensures Summarises(a, all, k)
  {
  }

  lemma {:induction false} CountedRowExists(rows: seq<Row>, k: Key, i: nat)
    requires i < |rows| && rows[i].key == k
    ensures CountKey(rows, k) > 0
  {
    if i < |rows| - 1 {
      CountedRowExists(rows[..|rows| - 1], k, i);
    }
  }

  lemma FreshIsEntered(rows: seq<Row>, row: Row)
    requires CountKey(rows, row.key) == 0
    ensures Entered(Aggregate(row.key, 0, row.id, row.id, NO_COUNTS, {}, {}), rows, row)
  {
  }

  lemma GrownIds(a: Aggregate, rows: seq<Row>, row: Row, all: seq<Row>)
    requires Extends(all, rows, row) && Entered(a, rows, row)
    ensures IdsInRange(Grown(a, row), all, row.key)
  {
    assert forall i :: 0 <= i < |rows| ==> all[i] == rows[i];
    assert all[|rows|].id == row.id;
    if a.count > 0 {
      var first :| 0 <= first < |rows| && rows[first].key == row.key && rows[first].id == a.firstId;
      var last :| 0 <= last < |rows| && rows[last].key == row.key && rows[last].id == a.lastId;
      assert all[first].id == a.firstId && all[last].id == a.lastId;
    } else {
      forall i | 0 <= i < |rows|
        ensures rows[i].key != row.key
      {
        if rows[i].key == row.key {
          CountedRowExists(rows, row.key, i);
        }
      }
    }
  }

  lemma GrownFacet(a: Aggregate, row: Row, f: Facet)
    ensures FacetCounts(Grown(a, row), f) == Bump(FacetCounts(a, f), row.LabelOf(f))
    ensures Total(FacetCounts(Grown(a, row), f)) == Total(FacetCounts(a, f)) + 1
  {
    match f {
      case Status =>
      case ContentType =>
      case Role =>
    }
    var counts := FacetCounts(a, f);
    TotalSet(counts, row.LabelOf(f), Bump(counts, row.LabelOf(f))[row.LabelOf(f)]);
  }

  lemma GrownLabels(a: Aggregate, rows: seq<Row>, row: Row, all: seq<Row>)
    requires Extends(all, rows, row) && LabelsCounted(a, rows, row.key) && TotalsAgree(a)
    ensures LabelsCounted(Grown(a, row), all, row.key) && TotalsAgree(Grown(a, row))
  {
    forall f, name
      ensures var b := Grown(a, row);
              && CountIn(b, f, name) == CountLabel(all, row.key, f, name)
              && (name in FacetCounts(b, f) <==> CountLabel(all, row.key, f, name) > 0)
    {
      GrownFacet(a, row, f);
    }
    forall f
      ensures Total(FacetCounts(Grown(a, row), f)) == Grown(a, row).count
    {
      GrownFacet(a, row, f);
    }
  }

  lemma GrownNames(a: Aggregate, rows: seq<Row>, row: Row, all: seq<Row>)
    requires Extends(all, rows, row) && NamesCollected(a, rows, row.key)
    ensures NamesCollected(Grown(a, row), all, row.key)
  {
  }

  lemma GrownSummarises(a: Aggregate, rows: seq<Row>, row: Row, all: seq<Row>)
    requires Extends(all, rows, row) && Entered(a, rows, row)
    ensures Summarises(Grown(a, row), all, row.key)
  {
    GrownIds(a, rows, row, all);
    GrownLabels(a, rows, row, all);
    GrownNames(a, rows, row, all);
  }

  // ---------- every row is in the digest once ----------

  lemma {:induction false} DigestKeys(rows: seq<Row>, k: Key)
    ensures k in Digest(rows) <==> CountKey(rows, k) > 0
  {
    if rows != [] {
      DigestKeys(rows[..|rows| - 1], k);
    }
  }

  /** The entry of an endpoint sums up exactly its rows. */
  lemma {:induction false} DigestSummarises(rows: seq<Row>, k: Key)
    requires k in Digest(rows)
    ensures Summarises(Digest(rows)[k], rows, k)
  {
    var before, row := rows[..|rows| - 1], rows[|rows| - 1];
    if k != row.key {
      DigestSummarises(before, k);
      OtherEndpointStays(Digest(before)[k], before, row, rows, k);
    } else {
      if k in Digest(before) {
        DigestSummarises(before, k);
      } else {
        DigestKeys(before, k);
        FreshIsEntered(before, row);
      }
      GrownSummarises(Entry(Digest(before), row), before, row, rows);
    }
  }

  /** The counts of all endpoints add up to the number of rows. */
  lemma {:induction false} CountsAddUp(rows: seq<Row>)
    ensures Total(CountsOf(Digest(rows))) == |rows|
  {
    if rows != [] {
      var before, row := Digest(rows[..|rows| - 1]), rows[|rows| - 1];
      CountsAddUp(rows[..|rows| - 1]);
      assert CountsOf(Digest(rows)) == CountsOf(before)[row.key := Grown(Entry(before, row), row).count];
      TotalSet(CountsOf(before), row.key, Grown(Entry(before, row), row).count);
    } else {
      assert CountsOf(map[]) == map[];
    }
  }

  lemma FacetsAreUnique(a: Aggregate, b: Aggregate, rows: seq<Row>, k: Key)
    requires LabelsCounted(a, rows, k) && LabelsCounted(b, rows, k)
    ensures a.facets == b.facets
  {
    forall f
      ensures FacetCounts(a, f) == FacetCounts(b, f)
    {
      assert forall name :: CountIn(a, f, name) == CountLabel(rows, k, f, name) == CountIn(b, f, name);
    }
    forall f | f in a.facets
      ensures a.facets[f] == b.facets[f]
    {
      assert a.facets[f] == FacetCounts(a, f);
    }
  }

  /** A summary says all there is: two summaries of the same rows are the same. */
  lemma SummaryIsUnique(a: Aggregate, b: Aggregate, rows: seq<Row>, k: Key)
    requires Summarises(a, rows, k) && Summarises(b, rows, k)
    ensures a == b
  {
    FacetsAreUnique(a, b, rows, k);
  }

  // ---------- last ids tell endpoints apart ----------

  ghost predicate DistinctIds(rows: seq<Row>) {
    forall i, j :: 0 <= i < j < |rows| ==> rows[i].id != rows[j].id
  }

  lemma LastIdIsOwn(rows: seq<Row>, k: Key) returns (i: nat)
    requires k in Digest(rows)
    ensures i < |rows| && rows[i].key == k && rows[i].id == Digest(rows)[k].lastId
  {
    DigestSummarises(rows, k);
    i :| 0 <= i < |rows| && rows[i].key == k && rows[i].id == Digest(rows)[k].lastId;
  }

  /** The last id of an endpoint is one of its own rows', so no two endpoints share one. */
  lemma LastIdsDiffer(rows: seq<Row>, j: Key, k: Key)
    requires DistinctIds(rows) && j in Digest(rows) && k in Digest(rows) && j != k
    ensures Digest(rows)[j].lastId != Digest(rows)[k].lastId
  {
    var x := LastIdIsOwn(rows, j);
    var y := LastIdIsOwn(rows, k);
  }
}
