/** Loading deliveries for one or several configurations. The Sheets read
    is a parameter: `fetchGrid(spreadsheetId, sheetName)` is the response's
    `values` (itself optional), or None when the request fails or answers
    with an error status, which the source throws. The remote configuration
    store is a parameter too. */
module Fetch {
  import opened Base
  import opened Types
  import opened ConfigStore
  import opened SheetRows

  /** What the Sheets read gives for one sheet: None when it throws, else
      the optional `values` grid, header row included. */
  type GridSource = (string, string) -> Option<Option<seq<Row>>>

  /** The header row is dropped when there is one. */
  function StripHeader(values: Option<seq<Row>>): (rows: seq<Row>)
    ensures values.None? || values.value == [] ==> rows == []
    ensures values.Some? && values.value != [] ==> rows == values.value[1..]
  {
    match values
    case None => []
    case Some(v) => if v == [] then [] else v[1..]
  }

  /** The configuration a load uses: the local one when it exists, else the
      remote one. */
  function ResolveConfig(st: Stored, configId: string, remote: Option<SheetsConfig>): (c: Option<SheetsConfig>)
    ensures GetConfigById(st, configId).Some? ==> c == GetConfigById(st, configId)
    ensures GetConfigById(st, configId).None? ==> c == remote
  {
    match GetConfigById(st, configId)
    case Some(local) => Some(local)
    case None => remote
  }

  /** `fetchDeliveryDataFromConfig(configId)`: None stands for a thrown
      error. A configuration missing from both stores gives no events. */
  function FetchFromConfig(st: Stored, configId: string, remote: Option<SheetsConfig>, fetchGrid: GridSource)
    : (r: Option<seq<DeliveryEvent>>)
    ensures ResolveConfig(st, configId, remote).None? ==> r == Some([])
    ensures ResolveConfig(st, configId, remote).Some? ==>
      var c := ResolveConfig(st, configId, remote).value;
      match fetchGrid(c.spreadsheetId, c.sheetName)
      case None => r.None?
      case Some(values) => r == Some(TransformSheetsData(StripHeader(values), Some(c)))
  {
    match ResolveConfig(st, configId, remote)
    case None => Some([])
    case Some(c) =>
      match fetchGrid(c.spreadsheetId, c.sheetName)
      case None => None
      case Some(values) => Some(TransformSheetsData(StripHeader(values), Some(c)))
  }

  /** `results.flat()`. */
  function Flatten<T>(xs: seq<seq<T>>): (r: seq<T>)
    decreases |xs|
  {
    if xs == [] then [] else xs[0] + Flatten(xs[1..])
  }

  /** The total number of elements of the parts. */
  function TotalLength<T>(xs: seq<seq<T>>): nat
    decreases |xs|
  {
    if xs == [] then 0 else |xs[0]| + TotalLength(xs[1..])
  }

  /** Flattening keeps every element: nothing is merged or deduplicated. */
  lemma {:induction false} FlattenLength<T>(xs: seq<seq<T>>)
    ensures |Flatten(xs)| == TotalLength(xs)
    decreases |xs|
  {
    if xs != [] {
      FlattenLength(xs[1..]);
    }
  }

  /** Flattening a concatenation of part lists concatenates the results, so
      the parts appear in order. */
  lemma {:induction false} FlattenConcat<T>(a: seq<seq<T>>, b: seq<seq<T>>)
    ensures Flatten(a + b) == Flatten(a) + Flatten(b)
    decreases |a|
  {
    if a == [] {
      assert a + b == b;
    } else {
      assert (a + b)[0] == a[0];
      assert (a + b)[1..] == a[1..] + b;
      FlattenConcat(a[1..], b);
    }
  }

  /** An element is in the flattened list exactly when it is in one part. */
  lemma {:induction false} FlattenMember<T>(xs: seq<seq<T>>, x: T)
    ensures x in Flatten(xs) <==> exists i :: 0 <= i < |xs| && x in xs[i]
    decreases |xs|
  {
    if xs != [] {
      FlattenMember(xs[1..], x);
      if exists i :: 0 <= i < |xs[1..]| && x in xs[1..][i] {
        var i :| 0 <= i < |xs[1..]| && x in xs[1..][i];
        assert x in xs[i + 1];
      }
      if exists i :: 0 <= i < |xs| && x in xs[i] {
        var i :| 0 <= i < |xs| && x in xs[i];
        if i > 0 {
          assert x in xs[1..][i - 1];
        }
      }
    }
  }

  /** Every load succeeded. */
  predicate AllLoaded(results: seq<Option<seq<DeliveryEvent>>>) {
    forall i :: 0 <= i < |results| ==> results[i].Some?
  }

  /** The events of each successful load. */
  function Loaded(results: seq<Option<seq<DeliveryEvent>>>): (parts: seq<seq<DeliveryEvent>>)
    requires AllLoaded(results)
    ensures |parts| == |results|
    ensures forall i :: 0 <= i < |results| ==> parts[i] == results[i].value
  {
    seq(|results|, i requires 0 <= i < |results| => results[i].value)
  }

  /** `Promise.all(...)` followed by `.flat()`: any failed load makes the
      whole call fail; otherwise the results are concatenated in order. */
  function Merge(results: seq<Option<seq<DeliveryEvent>>>): (r: Option<seq<DeliveryEvent>>)
    ensures r.Some? <==> AllLoaded(results)
    ensures results == [] ==> r == Some([])
  {
    if AllLoaded(results) then Some(Flatten(Loaded(results))) else None
  }

  /** The loads of `fetchDeliveryDataFromMultipleConfigs`, one per id. */
  function Loads(st: Stored, configIds: seq<string>, remote: string -> Option<SheetsConfig>,
                 fetchGrid: GridSource): (results: seq<Option<seq<DeliveryEvent>>>)
    ensures |results| == |configIds|
    ensures forall i :: 0 <= i < |configIds| ==>
      results[i] == FetchFromConfig(st, configIds[i], remote(configIds[i]), fetchGrid)
  {
    seq(|configIds|, i requires 0 <= i < |configIds| =>
      FetchFromConfig(st, configIds[i], remote(configIds[i]), fetchGrid))
  }

  /** `fetchDeliveryDataFromMultipleConfigs(configIds)`: no ids gives no
      events; otherwise each id is loaded and the results merged in the
      order of `configIds`, failing when any load fails. */
  function FetchMany(st: Stored, configIds: seq<string>, remote: string -> Option<SheetsConfig>,
                     fetchGrid: GridSource): (r: Option<seq<DeliveryEvent>>)
    ensures configIds == [] ==> r == Some([])
    ensures r.Some? <==> forall i :: 0 <= i < |configIds| ==>
      FetchFromConfig(st, configIds[i], remote(configIds[i]), fetchGrid).Some?
  {
    Merge(Loads(st, configIds, remote, fetchGrid))
  }

  /** Loading ids `a` then ids `b` gives the same events as loading `a + b`:
      the results follow the order of the ids. */
  lemma FetchManyConcat(st: Stored, a: seq<string>, b: seq<string>, remote: string -> Option<SheetsConfig>,
                        fetchGrid: GridSource)
    requires FetchMany(st, a, remote, fetchGrid).Some? && FetchMany(st, b, remote, fetchGrid).Some?
    ensures FetchMany(st, a + b, remote, fetchGrid) ==
      Some(FetchMany(st, a, remote, fetchGrid).value + FetchMany(st, b, remote, fetchGrid).value)
  {
    var la := Loads(st, a, remote, fetchGrid);
    var lb := Loads(st, b, remote, fetchGrid);
    var lab := Loads(st, a + b, remote, fetchGrid);
    forall i | 0 <= i < |a + b|
      ensures lab[i] == (la + lb)[i]
    {
      if i >= |a| {
        assert (a + b)[i] == b[i - |a|];
      }
    }
    assert lab == la + lb;
    MergeConcat(la, lb);
  }

  /** One id alone loads exactly that configuration's events. */
  lemma FetchManySingle(st: Stored, id: string, remote: string -> Option<SheetsConfig>, fetchGrid: GridSource)
    ensures FetchMany(st, [id], remote, fetchGrid) == FetchFromConfig(st, id, remote(id), fetchGrid)
  {
    var l := Loads(st, [id], remote, fetchGrid);
    MergeSingle(l);
  }

  lemma MergeSingle(results: seq<Option<seq<DeliveryEvent>>>)
    requires |results| == 1
    ensures Merge(results) == results[0]
  {
    if AllLoaded(results) {
      var x := results[0].value;
      assert Loaded(results) == [x];
      assert [x][1..] == [];
      assert Flatten([x]) == x + Flatten([]);
      assert x + [] == x;
    }
  }

  /** `fetchDeliveryData()`: every stored configuration, in store order. */
  function FetchAll(st: Stored, remote: string -> Option<SheetsConfig>, fetchGrid: GridSource)
    : (r: Option<seq<DeliveryEvent>>)
    ensures GetAllConfigs(st) == [] ==> r == Some([])
    ensures r == FetchMany(st, Ids(GetAllConfigs(st)), remote, fetchGrid)
  {
    var configs := GetAllConfigs(st);
    if configs == [] then Some([]) else FetchMany(st, Ids(configs), remote, fetchGrid)
  }

  /** Loading two lists of ids one after the other gives the same events as
      loading their concatenation at once. */
  lemma MergeConcat(a: seq<Option<seq<DeliveryEvent>>>, b: seq<Option<seq<DeliveryEvent>>>)
    requires Merge(a).Some? && Merge(b).Some?
    ensures Merge(a + b) == Some(Merge(a).value + Merge(b).value)
  {
    assert AllLoaded(a + b) by {
      forall i | 0 <= i < |a + b|
        ensures (a + b)[i].Some?
      {
        if i >= |a| {
          assert (a + b)[i] == b[i - |a|];
        }
      }
    }
    assert Loaded(a + b) == Loaded(a) + Loaded(b);
    FlattenConcat(Loaded(a), Loaded(b));
  }

  /** The merge keeps every event of every load, duplicated ids included:
      its length is the sum of the loads' lengths, and an event is in it
      exactly when some load returned it. */
  lemma MergeContents(results: seq<Option<seq<DeliveryEvent>>>, e: DeliveryEvent)
    requires Merge(results).Some?
    ensures |Merge(results).value| == TotalLength(Loaded(results))
    ensures e in Merge(results).value <==> exists i :: 0 <= i < |results| && e in results[i].value
  {
    FlattenLength(Loaded(results));
    FlattenMember(Loaded(results), e);
  }

  /** The events of the first id come first, in the order loaded. */
  lemma MergeFirst(results: seq<Option<seq<DeliveryEvent>>>)
    requires Merge(results).Some? && results != []
    ensures Merge(results).value == results[0].value + Merge(results[1..]).value
  {
    assert results == [results[0]] + results[1..];
    MergeConcat([results[0]], results[1..]);
    assert Loaded([results[0]]) == [results[0].value];
    assert Flatten([results[0].value]) == results[0].value + Flatten([]);
  }
}
