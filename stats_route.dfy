/** The statistics endpoint: the per-store file counts, and their combination into counts
    over both stores. */
module StatsRoute {
  import opened JsonValue

  /** A number of files per category or per extension. */
  type Counts = map<string, int>

  /** One store's figures, or the combined ones. */
  datatype StoreCounts = StoreCounts(total: int, byCategory: Counts, byExtension: Counts)

  /** The response body. */
  datatype Stats = Stats(postgres: StoreCounts, mongodb: StoreCounts, combined: StoreCounts)

  const NoCounts := StoreCounts(0, map[], map[])

  /** What a store's queries return, in the order the route runs them; a query that
      throws is nothing, and the queries after it are not run. Each grouping query gives
      one row per key. */
  datatype StoreQueries = StoreQueries(
    count: Option<int>, categoryRows: Option<seq<(string, int)>>, extensionRows: Option<seq<(string, int)>>)

  // ---------------------------------------------------------------------
  // Filling one map from query rows

  /** The map after `rows.forEach(row => counts[row.key] = row.count)` has run over the
      rows. */
  function RowCounts(rows: seq<(string, int)>): Counts
  {
    if rows == [] then map[] else RowCounts(rows[..|rows| - 1])[rows[|rows| - 1].0 := rows[|rows| - 1].1]
  }

  /** The `forEach` that copies grouped rows into a map. */
  method FillCounts(rows: seq<(string, int)>) returns (counts: Counts)
    ensures counts == RowCounts(rows)
  {
    counts := map[];
    var i := 0;
    while i < |rows|
      invariant i <= |rows|
      invariant counts == RowCounts(rows[..i])
    {
      assert rows[..i + 1][..i] == rows[..i];
      counts := counts[rows[i].0 := rows[i].1];
      i := i + 1;
    }
    assert rows[..i] == rows;
  }

  /** The keys of the map are the keys of the rows, and each takes the count of the last row
      with that key (the only one when the keys are distinct, as grouped rows are). */
  lemma {:induction false} RowCountsSpec(rows: seq<(string, int)>, k: string)
    ensures k in RowCounts(rows) <==> exists i | 0 <= i < |rows| :: rows[i].0 == k
    ensures forall i | 0 <= i < |rows| && rows[i].0 == k && (forall j | i < j < |rows| :: rows[j].0 != k) ::
      RowCounts(rows)[k] == rows[i].1
  {
    if rows != [] {
      var init := rows[..|rows| - 1];
      RowCountsSpec(init, k);
      if k in RowCounts(init) {
        var i :| 0 <= i < |init| && init[i].0 == k;
        assert rows[i].0 == k;
      }
      if exists i | 0 <= i < |rows| :: rows[i].0 == k {
        var i :| 0 <= i < |rows| && rows[i].0 == k;
        if i < |init| {
          assert init[i].0 == k;
        }
      }
      forall i | 0 <= i < |rows| && rows[i].0 == k && (forall j | i < j < |rows| :: rows[j].0 != k)
        ensures RowCounts(rows)[k] == rows[i].1
      {
        if i < |init| {
          assert init[i] == rows[i];
          forall j | i < j < |init| ensures init[j].0 != k {
            assert init[j] == rows[j];
          }
        }
      }
    }
  }

  // ---------------------------------------------------------------------
  // One store

  /** One store's figures as the route leaves them: the total once the count query
      answers, each map once its query answers, and zero and empty maps for what a throw
      cut short. */
  function StoreSpec(q: StoreQueries): StoreCounts
  {
    if q.count.None? then NoCounts
    else if q.categoryRows.None? then StoreCounts(q.count.value, map[], map[])
    else if q.extensionRows.None? then StoreCounts(q.count.value, RowCounts(q.categoryRows.value), map[])
    else StoreCounts(q.count.value, RowCounts(q.categoryRows.value), RowCounts(q.extensionRows.value))
  }

  /** The `try` block of one store, filling its part of the statistics step by step. */
  method GatherStore(q: StoreQueries) returns (s: StoreCounts)
    ensures s == StoreSpec(q)
  {
    s := NoCounts;
    if q.count.None? {
      return;
    }
    s := s.(total := q.count.value);
    if q.categoryRows.None? {
      return;
    }
    var byCategory := FillCounts(q.categoryRows.value);
    s := s.(byCategory := byCategory);
    if q.extensionRows.None? {
      return;
    }
    var byExtension := FillCounts(q.extensionRows.value);
    s := s.(byExtension := byExtension);
  }

  /** A store whose first query throws adds a zero total and no keys; once its count
      answers, the total is that count whatever happens after. */
  lemma StoreFailure(q: StoreQueries)
    ensures q.count.None? ==> StoreSpec(q) == StoreCounts(0, map[], map[])
    ensures q.count.Some? ==> StoreSpec(q).total == q.count.value
    ensures q.categoryRows.None? ==> StoreSpec(q).byCategory == map[] && StoreSpec(q).byExtension == map[]
  {
  }

  // ---------------------------------------------------------------------
  // Combining the stores

  /** `counts[key] || 0`. */
  function CountOf(counts: Counts, key: string): int
  {
    if key in counts then counts[key] else 0
  }

  /** The combined map: one entry per key of either store, the sum of the two stores'
      counts for it. */
  ghost predicate IsSum(c: Counts, a: Counts, b: Counts)
  {
    && c.Keys == a.Keys + b.Keys
    && forall k | k in c :: c[k] == CountOf(a, k) + CountOf(b, k)
  }

  /** The `forEach` over the set of both stores' keys. */
  method SumCounts(a: Counts, b: Counts) returns (c: Counts)
    ensures IsSum(c, a, b)
  {
    var allKeys := a.Keys + b.Keys;
    var keys := allKeys;
    c := map[];
    while keys != {}
      invariant keys <= allKeys
      invariant c.Keys == allKeys - keys
      invariant forall k | k in c :: c[k] == CountOf(a, k) + CountOf(b, k)
      decreases keys
    {
      var key :| key in keys;
      c := c[key := CountOf(a, key) + CountOf(b, key)];
      keys := keys - {key};
    }
  }

  /** At most one map satisfies the description, so the combination does not depend on
      the order the keys are visited in. */
  lemma SumUnique(c1: Counts, c2: Counts, a: Counts, b: Counts)
    requires IsSum(c1, a, b) && IsSum(c2, a, b)
    ensures c1 == c2
  {
  }

  /** The combination as a value. */
  function Sum(a: Counts, b: Counts): (c: Counts)
    ensures IsSum(c, a, b)
  {
    map k | k in a.Keys + b.Keys :: CountOf(a, k) + CountOf(b, k)
  }

  /** Combining is symmetric, and a store with no entries leaves the other's counts as
      they are. */
  lemma SumFacts(a: Counts, b: Counts)
    ensures Sum(a, b) == Sum(b, a)
    ensures Sum(a, map[]) == a && Sum(map[], b) == b
  {
    assert Sum(a, map[]) == a;
    assert Sum(map[], b) == b;
  }

  /** The combined figures. */
  function CombinedSpec(postgres: StoreCounts, mongodb: StoreCounts): StoreCounts
  {
    StoreCounts(postgres.total + mongodb.total,
                Sum(postgres.byCategory, mongodb.byCategory),
                Sum(postgres.byExtension, mongodb.byExtension))
  }

  /** The statistics the endpoint answers with. */
  function StatsSpec(pg: StoreQueries, mongo: StoreQueries): Stats
  {
    var postgres := StoreSpec(pg);
    var mongodb := StoreSpec(mongo);
    Stats(postgres, mongodb, CombinedSpec(postgres, mongodb))
  }

  /** `GET /api/stats`: both stores' figures, then their combination. */
  method GetStats(pg: StoreQueries, mongo: StoreQueries) returns (stats: Stats)
    ensures stats == StatsSpec(pg, mongo)
  {
    stats := Stats(NoCounts, NoCounts, NoCounts);
    var postgres := GatherStore(pg);
    stats := stats.(postgres := postgres);
    var mongodb := GatherStore(mongo);
    stats := stats.(mongodb := mongodb);
    var byCategory := SumCounts(stats.postgres.byCategory, stats.mongodb.byCategory);
    var byExtension := SumCounts(stats.postgres.byExtension, stats.mongodb.byExtension);
    SumUnique(byCategory, Sum(stats.postgres.byCategory, stats.mongodb.byCategory),
              stats.postgres.byCategory, stats.mongodb.byCategory);
    SumUnique(byExtension, Sum(stats.postgres.byExtension, stats.mongodb.byExtension),
              stats.postgres.byExtension, stats.mongodb.byExtension);
    stats := stats.(combined := StoreCounts(stats.postgres.total + stats.mongodb.total, byCategory, byExtension));
  }

  /** The combined total is the sum of the two totals; the combined maps hold the keys of
      both stores, each with the sum of its two counts, a missing one counting as 0; a
      store whose queries all throw leaves the combined figures equal to the other
      store's. */
  lemma StatsCombine(pg: StoreQueries, mongo: StoreQueries, k: string)
    ensures var s := StatsSpec(pg, mongo);
      && s.combined.total == s.postgres.total + s.mongodb.total
      && (k in s.combined.byCategory <==> k in s.postgres.byCategory || k in s.mongodb.byCategory)
      && CountOf(s.combined.byCategory, k) == CountOf(s.postgres.byCategory, k) + CountOf(s.mongodb.byCategory, k)
      && (k in s.combined.byExtension <==> k in s.postgres.byExtension || k in s.mongodb.byExtension)
      && CountOf(s.combined.byExtension, k) == CountOf(s.postgres.byExtension, k) + CountOf(s.mongodb.byExtension, k)
      && (pg.count.None? ==> s.combined == s.mongodb)
      && (mongo.count.None? ==> s.combined == s.postgres)
  {
    var s := StatsSpec(pg, mongo);
    SumFacts(s.postgres.byCategory, s.mongodb.byCategory);
    SumFacts(s.postgres.byExtension, s.mongodb.byExtension);
  }
}
