/** `calculateDeliveryStats`: the number of deliveries, the total item
    count, and how many deliveries each marketplace and each department
    has. The source fills its three accumulators in one pass; each depends
    only on its own previous value, so each is modelled as a fold of its
    own, and the two breakdowns share one fold over a key function. */
module Stats {
  import opened Base
  import opened Types

  /** One more occurrence of `key`: `counts[key] ? counts[key] + 1 : 1`. */
  function Bump(counts: map<string, int>, key: string): (r: map<string, int>)
    ensures r.Keys == counts.Keys + {key}
    ensures forall k :: k in counts && k != key ==> r[k] == counts[k]
    ensures r[key] == if key in counts && counts[key] != 0 then counts[key] + 1 else 1
  {
    if key in counts && counts[key] != 0 then counts[key := counts[key] + 1] else counts[key := 1]
  }

  /** The counts of the keys of `events`, in event order; an event whose
      key is None is not counted. */
  function Breakdown(events: seq<DeliveryEvent>, key: DeliveryEvent -> Option<string>): map<string, int>
    decreases |events|
  {
    if events == [] then map[]
    else
      var n := |events| - 1;
      var counts := Breakdown(events[..n], key);
      match key(events[n])
      case None => counts
      case Some(k) => Bump(counts, k)
  }

  /** `totals[key] ? totals[key] + v : v`: a key whose total is 0 (falsy)
      restarts from `v`, which gives the same number. */
  function AddTo(totals: map<string, int>, key: string, v: int): (r: map<string, int>)
    ensures r.Keys == totals.Keys + {key}
    ensures r[key] == (if key in totals then totals[key] else 0) + v
    ensures forall k :: k in totals && k != key ==> r[k] == totals[k]
  {
    if key in totals && totals[key] != 0 then totals[key := totals[key] + v] else totals[key := v]
  }

  /** The item totals of the keys of `events`, in event order. */
  function ItemBreakdown(events: seq<DeliveryEvent>, key: DeliveryEvent -> Option<string>): map<string, int>
    decreases |events|
  {
    if events == [] then map[]
    else
      var n := |events| - 1;
      var totals := ItemBreakdown(events[..n], key);
      match key(events[n])
      case None => totals
      case Some(k) => AddTo(totals, k, events[n].itemCount)
  }

  /** `totalItems += event.itemCount`, in event order. */
  function ItemTotal(events: seq<DeliveryEvent>): int
    decreases |events|
  {
    if events == [] then 0
    else ItemTotal(events[..|events| - 1]) + events[|events| - 1].itemCount
  }

  /** Every event counts under its marketplace. */
  function MarketplaceKey(e: DeliveryEvent): Option<string> {
    Some(e.marketplace)
  }

  /** `if (event.department)`: only a non-empty department is counted. */
  function DepartmentKey(e: DeliveryEvent): Option<string> {
    if e.department != "" then Some(e.department) else None
  }

  function CalculateDeliveryStats(events: seq<DeliveryEvent>): (s: DeliveryStats)
    ensures s.totalDeliveries == |events|
    ensures events == [] ==> s == DeliveryStats(0, 0, map[], map[])
  {
    DeliveryStats(|events|, ItemTotal(events), Breakdown(events, MarketplaceKey), Breakdown(events, DepartmentKey))
  }

  // ---------------------------------------------------------------------
  // Reference counts, read from the front
  // ---------------------------------------------------------------------

  function SumItems(events: seq<DeliveryEvent>): int
    decreases |events|
  {
    if events == [] then 0 else events[0].itemCount + SumItems(events[1..])
  }

  /** The number of events whose key is `k`. */
  function CountKey(events: seq<DeliveryEvent>, key: DeliveryEvent -> Option<string>, k: string): nat
    decreases |events|
  {
    if events == [] then 0
    else (if key(events[0]) == Some(k) then 1 else 0) + CountKey(events[1..], key, k)
  }

  /** The items of the events whose key is `k`. */
  function SumKeyItems(events: seq<DeliveryEvent>, key: DeliveryEvent -> Option<string>, k: string): int
    decreases |events|
  {
    if events == [] then 0
    else (if key(events[0]) == Some(k) then events[0].itemCount else 0) + SumKeyItems(events[1..], key, k)
  }

  /** The items of the events that have a key at all. */
  function SumKeyedItems(events: seq<DeliveryEvent>, key: DeliveryEvent -> Option<string>): int
    decreases |events|
  {
    if events == [] then 0
    else (if key(events[0]).Some? then events[0].itemCount else 0) + SumKeyedItems(events[1..], key)
  }

  /** The number of events that have a key at all. */
  function CountKeyed(events: seq<DeliveryEvent>, key: DeliveryEvent -> Option<string>): (n: nat)
    ensures n <= |events|
    decreases |events|
  {
    if events == [] then 0
    else (if key(events[0]).Some? then 1 else 0) + CountKeyed(events[1..], key)
  }

  lemma {:induction false} SumItemsSnoc(a: seq<DeliveryEvent>, x: DeliveryEvent)
    ensures SumItems(a + [x]) == SumItems(a) + x.itemCount
    decreases |a|
  {
    if a == [] {
      assert [x][1..] == [];
    } else {
      assert (a + [x])[1..] == a[1..] + [x];
      SumItemsSnoc(a[1..], x);
    }
  }

  lemma {:induction false} CountKeySnoc(a: seq<DeliveryEvent>, x: DeliveryEvent, key: DeliveryEvent -> Option<string>,
                                        k: string)
    ensures CountKey(a + [x], key, k) == CountKey(a, key, k) + (if key(x) == Some(k) then 1 else 0)
    decreases |a|
  {
    if a == [] {
      assert [x][1..] == [];
    } else {
      assert (a + [x])[1..] == a[1..] + [x];
      CountKeySnoc(a[1..], x, key, k);
    }
  }

  lemma {:induction false} CountKeyedSnoc(a: seq<DeliveryEvent>, x: DeliveryEvent, key: DeliveryEvent -> Option<string>)
    ensures CountKeyed(a + [x], key) == CountKeyed(a, key) + (if key(x).Some? then 1 else 0)
    decreases |a|
  {
    if a == [] {
      assert [x][1..] == [];
    } else {
      assert (a + [x])[1..] == a[1..] + [x];
      CountKeyedSnoc(a[1..], x, key);
    }
  }

  lemma {:induction false} SumKeyItemsSnoc(a: seq<DeliveryEvent>, x: DeliveryEvent, key: DeliveryEvent -> Option<string>,
                                           k: string)
    ensures SumKeyItems(a + [x], key, k) == SumKeyItems(a, key, k) + (if key(x) == Some(k) then x.itemCount else 0)
    decreases |a|
  {
    if a == [] {
      assert [x][1..] == [];
    } else {
      assert (a + [x])[1..] == a[1..] + [x];
      SumKeyItemsSnoc(a[1..], x, key, k);
    }
  }

  lemma {:induction false} SumKeyedItemsSnoc(a: seq<DeliveryEvent>, x: DeliveryEvent, key: DeliveryEvent -> Option<string>)
    ensures SumKeyedItems(a + [x], key) == SumKeyedItems(a, key) + (if key(x).Some? then x.itemCount else 0)
    decreases |a|
  {
    if a == [] {
      assert [x][1..] == [];
    } else {
      assert (a + [x])[1..] == a[1..] + [x];
      SumKeyedItemsSnoc(a[1..], x, key);
    }
  }

  /** With a key on every event, every event's items are counted. */
  lemma {:induction false} SumKeyedItemsAll(events: seq<DeliveryEvent>, key: DeliveryEvent -> Option<string>)
    requires forall i :: 0 <= i < |events| ==> key(events[i]).Some?
    ensures SumKeyedItems(events, key) == SumItems(events)
    decreases |events|
  {
    if events != [] {
      SumKeyedItemsAll(events[1..], key);
    }
  }

  /** A key is counted at least once exactly when some event has it. */
  lemma {:induction false} CountKeyPositive(events: seq<DeliveryEvent>, key: DeliveryEvent -> Option<string>, k: string)
    ensures CountKey(events, key, k) > 0 <==> exists i :: 0 <= i < |events| && key(events[i]) == Some(k)
    decreases |events|
  {
    if events != [] {
      CountKeyPositive(events[1..], key, k);
      if exists i :: 0 <= i < |events| && key(events[i]) == Some(k) {
        var i :| 0 <= i < |events| && key(events[i]) == Some(k);
        if i > 0 {
          assert key(events[1..][i - 1]) == Some(k);
        }
      }
      if exists i :: 0 <= i < |events[1..]| && key(events[1..][i]) == Some(k) {
        var i :| 0 <= i < |events[1..]| && key(events[1..][i]) == Some(k);
        assert key(events[i + 1]) == Some(k);
      }
    }
  }

  // ---------------------------------------------------------------------
  // The sum of a map's values
  // ---------------------------------------------------------------------

  ghost function SumValues(m: map<string, int>): int
    decreases |m.Keys|
  {
    if m.Keys == {} then 0
    else
      var k :| k in m.Keys;
      m[k] + SumValues(m - {k})
  }

  /** Any key can be taken out first. */
  lemma {:induction false} SumValuesRemove(m: map<string, int>, k: string)
    requires k in m
    ensures SumValues(m) == m[k] + SumValues(m - {k})
    decreases |m.Keys|
  {
    var j :| j in m.Keys && SumValues(m) == m[j] + SumValues(m - {j});
    if j != k {
      var mj := m - {j};
      var mk := m - {k};
      assert |mj.Keys| < |m.Keys| by {
        assert mj.Keys < m.Keys;
      }
      assert |mk.Keys| < |m.Keys| by {
        assert mk.Keys < m.Keys;
      }
      SumValuesRemove(mj, k);
      SumValuesRemove(mk, j);
      assert mj - {k} == mk - {j};
    }
  }

  lemma SumValuesEmpty()
    ensures SumValues(map[]) == 0
  {
  }

  lemma SumValuesAddTo(m: map<string, int>, k: string, v: int)
    ensures SumValues(AddTo(m, k, v)) == SumValues(m) + v
  {
    var r := AddTo(m, k, v);
    SumValuesRemove(r, k);
    if k in m {
      SumValuesRemove(m, k);
      assert r - {k} == m - {k};
    } else {
      assert r - {k} == m;
    }
  }

  lemma SumValuesBump(m: map<string, int>, k: string)
    requires k in m ==> m[k] != 0
    ensures SumValues(Bump(m, k)) == SumValues(m) + 1
  {
    var r := Bump(m, k);
    SumValuesRemove(r, k);
    if k in m {
      SumValuesRemove(m, k);
      assert r - {k} == m - {k};
    } else {
      assert r - {k} == m;
    }
  }

  // ---------------------------------------------------------------------
  // What the fold computes
  // ---------------------------------------------------------------------

  lemma {:induction false} ItemTotalIsSum(events: seq<DeliveryEvent>)
    ensures ItemTotal(events) == SumItems(events)
    decreases |events|
  {
    if events != [] {
      var n := |events| - 1;
      ItemTotalIsSum(events[..n]);
      SumItemsSnoc(events[..n], events[n]);
      assert events[..n] + [events[n]] == events;
    }
  }

  /** A key is in the breakdown exactly when some event has it, and its
      count is the number of such events. */
  lemma {:induction false} BreakdownCounts(events: seq<DeliveryEvent>, key: DeliveryEvent -> Option<string>, k: string)
    ensures k in Breakdown(events, key) <==> CountKey(events, key, k) > 0
    ensures k in Breakdown(events, key) ==> Breakdown(events, key)[k] == CountKey(events, key, k)
    decreases |events|
  {
    if events != [] {
      var n := |events| - 1;
      BreakdownCounts(events[..n], key, k);
      CountKeySnoc(events[..n], events[n], key, k);
      assert events[..n] + [events[n]] == events;
    }
  }

  /** Every count is positive, and the counts add up to the number of
      events that have a key. */
  lemma {:induction false} BreakdownSum(events: seq<DeliveryEvent>, key: DeliveryEvent -> Option<string>)
    ensures forall k :: k in Breakdown(events, key) ==> Breakdown(events, key)[k] >= 1
    ensures SumValues(Breakdown(events, key)) == CountKeyed(events, key)
    decreases |events|
  {
    if events != [] {
      var n := |events| - 1;
      BreakdownSum(events[..n], key);
      CountKeyedSnoc(events[..n], events[n], key);
      assert events[..n] + [events[n]] == events;
      match key(events[n])
      case None =>
      case Some(k) =>
        SumValuesBump(Breakdown(events[..n], key), k);
    }
  }

  /** With a key on every event, every event is counted. */
  lemma {:induction false} CountKeyedAll(events: seq<DeliveryEvent>, key: DeliveryEvent -> Option<string>)
    requires forall i :: 0 <= i < |events| ==> key(events[i]).Some?
    ensures CountKeyed(events, key) == |events|
    decreases |events|
  {
    if events != [] {
      CountKeyedAll(events[1..], key);
    }
  }

  /** `totalItems` is the sum of the item counts. */
  lemma TotalItems(events: seq<DeliveryEvent>)
    ensures CalculateDeliveryStats(events).totalItems == SumItems(events)
  {
    ItemTotalIsSum(events);
  }

  /** A marketplace is a key exactly when some event has it; its count is
      the number of those events; the counts add up to the number of
      deliveries. */
  lemma MarketplaceBreakdown(events: seq<DeliveryEvent>, mp: string)
    ensures var b := CalculateDeliveryStats(events).marketplaceBreakdown;
      && (mp in b <==> exists i :: 0 <= i < |events| && events[i].marketplace == mp)
      && (mp in b ==> b[mp] == CountKey(events, MarketplaceKey, mp))
      && SumValues(b) == CalculateDeliveryStats(events).totalDeliveries
  {
    BreakdownCounts(events, MarketplaceKey, mp);
    CountKeyPositive(events, MarketplaceKey, mp);
    BreakdownSum(events, MarketplaceKey);
    CountKeyedAll(events, MarketplaceKey);
    if exists i :: 0 <= i < |events| && events[i].marketplace == mp {
      var i :| 0 <= i < |events| && events[i].marketplace == mp;
      assert MarketplaceKey(events[i]) == Some(mp);
    }
  }

  /** A department is a key exactly when it is non-empty and some event
      has it; the counts add up to at most the number of deliveries. */
  lemma DepartmentBreakdown(events: seq<DeliveryEvent>, dept: string)
    ensures var b := CalculateDeliveryStats(events).departmentBreakdown;
      && (dept in b <==> dept != "" && exists i :: 0 <= i < |events| && events[i].department == dept)
      && (dept in b ==> b[dept] == CountKey(events, DepartmentKey, dept))
      && SumValues(b) <= CalculateDeliveryStats(events).totalDeliveries
  {
    BreakdownCounts(events, DepartmentKey, dept);
    CountKeyPositive(events, DepartmentKey, dept);
    BreakdownSum(events, DepartmentKey);
    if dept != "" && exists i :: 0 <= i < |events| && events[i].department == dept {
      var i :| 0 <= i < |events| && events[i].department == dept;
      assert DepartmentKey(events[i]) == Some(dept);
    }
  }

  /** A key is in the item breakdown exactly when some event has it; its
      total is the items of those events; the totals add up to the items
      of the keyed events. */
  lemma {:induction false} ItemBreakdownSums(events: seq<DeliveryEvent>, key: DeliveryEvent -> Option<string>, k: string)
    ensures k in ItemBreakdown(events, key) <==> CountKey(events, key, k) > 0
    ensures k in ItemBreakdown(events, key) ==> ItemBreakdown(events, key)[k] == SumKeyItems(events, key, k)
    ensures CountKey(events, key, k) == 0 ==> SumKeyItems(events, key, k) == 0
    decreases |events|
  {
    if events != [] {
      var n := |events| - 1;
      ItemBreakdownSums(events[..n], key, k);
      CountKeySnoc(events[..n], events[n], key, k);
      SumKeyItemsSnoc(events[..n], events[n], key, k);
      assert events[..n] + [events[n]] == events;
    }
  }

  lemma {:induction false} ItemBreakdownTotal(events: seq<DeliveryEvent>, key: DeliveryEvent -> Option<string>)
    ensures SumValues(ItemBreakdown(events, key)) == SumKeyedItems(events, key)
    decreases |events|
  {
    if events == [] {
      SumValuesEmpty();
    } else {
      var n := |events| - 1;
      ItemBreakdownTotal(events[..n], key);
      SumKeyedItemsSnoc(events[..n], events[n], key);
      assert events[..n] + [events[n]] == events;
      match key(events[n])
      case None =>
      case Some(k) =>
        SumValuesAddTo(ItemBreakdown(events[..n], key), k, events[n].itemCount);
    }
  }
}
