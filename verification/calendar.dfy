/** The calendar view's pure parts: the per-day counters it shows, the
    colour of a marketplace's counter, the filter it applies to the events
    it is given, and the order in which a day's marketplaces are listed.
    The date-range part of the filter and the DOM updates are not
    modelled. */
module Calendar {
  import opened Base
  import opened Strings
  import opened Types
  import opened Gather
  import opened Stats
  import Colors

  // ---------------------------------------------------------------------
  // Per-day counters
  // ---------------------------------------------------------------------

  /** `date.split('T')[0]`: the day part of an ISO date-time. */
  function DateKey(date: string): (k: string)
    ensures 'T' !in k
    ensures 'T' !in date ==> k == date
  {
    Split(date, 'T')[0]
  }

  /** The day part survives when a time is appended. */
  lemma DateKeyOfDateTime(day: string, time: string)
    requires 'T' !in day
    ensures DateKey(day + ['T'] + time) == day
  {
    var s := day + ['T'] + time;
    IndexOfAfterFree(day, 'T', time);
    assert s[..|day|] == day;
  }

  function DayOf(e: DeliveryEvent): Option<string> {
    Some(DateKey(e.date))
  }

  /** `countDeliveriesByDate`. */
  function CountDeliveriesByDate(events: seq<DeliveryEvent>): map<string, int> {
    Breakdown(events, DayOf)
  }

  /** `countItemsByDate`: `itemCount || 0` is the count itself for an
      integer. */
  function CountItemsByDate(events: seq<DeliveryEvent>): map<string, int> {
    ItemBreakdown(events, DayOf)
  }

  /** `countDeliveriesByDateAndMarketplace`: a day's map is created empty
      on its first event. */
  function CountDeliveriesByDateAndMarketplace(events: seq<DeliveryEvent>): map<string, map<string, int>>
    decreases |events|
  {
    if events == [] then map[]
    else
      var n := |events| - 1;
      var m := CountDeliveriesByDateAndMarketplace(events[..n]);
      var day := DateKey(events[n].date);
      var inner := if day in m then m[day] else map[];
      m[day := Bump(inner, events[n].marketplace)]
  }

  /** `if (!counts[mp]) counts[mp] = 0; counts[mp] += itemCount`. */
  function AddItems(counts: map<string, int>, mp: string, v: int): (r: map<string, int>)
    ensures r.Keys == counts.Keys + {mp}
    ensures r[mp] == (if mp in counts then counts[mp] else 0) + v
    ensures forall k :: k in counts && k != mp ==> r[k] == counts[k]
  {
    var seeded := if mp in counts && counts[mp] != 0 then counts else counts[mp := 0];
    seeded[mp := seeded[mp] + v]
  }

  lemma SumValuesAddItems(m: map<string, int>, k: string, v: int)
    ensures SumValues(AddItems(m, k, v)) == SumValues(m) + v
  {
    var r := AddItems(m, k, v);
    assert r == AddTo(m, k, v);
    SumValuesAddTo(m, k, v);
  }

  /** `countItemsByDateAndMarketplace`. */
  function CountItemsByDateAndMarketplace(events: seq<DeliveryEvent>): map<string, map<string, int>>
    decreases |events|
  {
    if events == [] then map[]
    else
      var n := |events| - 1;
      var m := CountItemsByDateAndMarketplace(events[..n]);
      var day := DateKey(events[n].date);
      var inner := if day in m then m[day] else map[];
      m[day := AddItems(inner, events[n].marketplace, events[n].itemCount)]
  }

  /** A day is a key exactly when some event falls on it, and the day's
      counts add up to the number of events. */
  lemma DeliveriesByDate(events: seq<DeliveryEvent>, day: string)
    ensures day in CountDeliveriesByDate(events) <==> exists i :: 0 <= i < |events| && DateKey(events[i].date) == day
    ensures SumValues(CountDeliveriesByDate(events)) == |events|
  {
    BreakdownCounts(events, DayOf, day);
    CountKeyPositive(events, DayOf, day);
    BreakdownSum(events, DayOf);
    CountKeyedAll(events, DayOf);
    if exists i :: 0 <= i < |events| && DateKey(events[i].date) == day {
      var i :| 0 <= i < |events| && DateKey(events[i].date) == day;
      assert DayOf(events[i]) == Some(day);
    }
  }

  /** The per-day item totals add up to the total item count. */
  lemma ItemsByDate(events: seq<DeliveryEvent>)
    ensures SumValues(CountItemsByDate(events)) == SumItems(events)
  {
    ItemBreakdownTotal(events, DayOf);
    SumKeyedItemsAll(events, DayOf);
  }

  /** Both delivery maps have the same days, and every per-marketplace
      count is at least one. */
  lemma {:induction false} DayMapsAgree(events: seq<DeliveryEvent>)
    ensures CountDeliveriesByDateAndMarketplace(events).Keys == CountDeliveriesByDate(events).Keys
    ensures forall day, mp ::
      (day in CountDeliveriesByDateAndMarketplace(events) && mp in CountDeliveriesByDateAndMarketplace(events)[day]) ==>
        CountDeliveriesByDateAndMarketplace(events)[day][mp] >= 1
    decreases |events|
  {
    if events != [] {
      var n := |events| - 1;
      DayMapsAgree(events[..n]);
      assert CountDeliveriesByDate(events) == Bump(CountDeliveriesByDate(events[..n]), DateKey(events[n].date));
    }
  }

  /** For every day, the per-marketplace delivery counts add up to the
      day's delivery count. */
  lemma {:induction false} MarketplaceDeliveriesAddUp(events: seq<DeliveryEvent>)
    ensures forall day :: day in CountDeliveriesByDateAndMarketplace(events) ==>
      day in CountDeliveriesByDate(events) &&
      SumValues(CountDeliveriesByDateAndMarketplace(events)[day]) == CountDeliveriesByDate(events)[day]
    decreases |events|
  {
    DayMapsAgree(events);
    if events != [] {
      var n := |events| - 1;
      var pre := events[..n];
      MarketplaceDeliveriesAddUp(pre);
      DayMapsAgree(pre);
      BreakdownSum(pre, DayOf);
      var m := CountDeliveriesByDateAndMarketplace(pre);
      var c := CountDeliveriesByDate(pre);
      var m' := CountDeliveriesByDateAndMarketplace(events);
      var c' := CountDeliveriesByDate(events);
      var day := DateKey(events[n].date);
      var inner := if day in m then m[day] else map[];
      assert c' == Bump(c, day);
      assert m' == m[day := Bump(inner, events[n].marketplace)];
      forall d | d in m'
        ensures SumValues(m'[d]) == c'[d]
      {
        if d == day {
          SumValuesBump(inner, events[n].marketplace);
          SumValuesEmpty();
        }
      }
    }
  }

  /** For every day, the per-marketplace item totals add up to the day's
      item total, and both maps have the same days. */
  lemma {:induction false} MarketplaceItemsAddUp(events: seq<DeliveryEvent>)
    ensures CountItemsByDateAndMarketplace(events).Keys == CountItemsByDate(events).Keys
    ensures forall day :: day in CountItemsByDateAndMarketplace(events) ==>
      SumValues(CountItemsByDateAndMarketplace(events)[day]) == CountItemsByDate(events)[day]
    decreases |events|
  {
    if events != [] {
      var n := |events| - 1;
      var pre := events[..n];
      MarketplaceItemsAddUp(pre);
      var m := CountItemsByDateAndMarketplace(pre);
      var c := CountItemsByDate(pre);
      var day := DateKey(events[n].date);
      var inner := if day in m then m[day] else map[];
      var m' := CountItemsByDateAndMarketplace(events);
      var c' := CountItemsByDate(events);
      assert m' == m[day := AddItems(inner, events[n].marketplace, events[n].itemCount)];
      assert c' == AddTo(c, day, events[n].itemCount);
      forall d | d in m'
        ensures SumValues(m'[d]) == c'[d]
      {
        if d == day {
          SumValuesAddItems(inner, events[n].marketplace, events[n].itemCount);
          SumValuesEmpty();
        }
      }
    }
  }

  // ---------------------------------------------------------------------
  // Counter colour
  // ---------------------------------------------------------------------

  const CounterDefault: string := "#333333"

  /** The calendar's own `getMarketplaceColor`: substring tests on the
      lower-cased name, Wildberries first, then Ozon, then Яндекс. */
  function CounterColor(marketplace: string): (c: string)
    ensures marketplace == "" ==> c == CounterDefault
    ensures marketplace != "" ==>
      var l := Lower(marketplace);
      && (Contains(l, "wildberries") ==> c == "#CB11AB")
      && (!Contains(l, "wildberries") && Contains(l, "ozon") ==> c == "#0051E7")
      && (!Contains(l, "wildberries") && !Contains(l, "ozon") && Contains(l, "яндекс") ==> c == "#FFCC00")
      && (!Contains(l, "wildberries") && !Contains(l, "ozon") && !Contains(l, "яндекс") ==> c == CounterDefault)
  {
    if marketplace == "" then CounterDefault
    else
      var l := Lower(marketplace);
      if Contains(l, "wildberries") then "#CB11AB"
      else if Contains(l, "ozon") then "#0051E7"
      else if Contains(l, "яндекс") then "#FFCC00"
      else CounterDefault
  }

  /** On the three canonical labels the counter colour is the colour
      map's brand colour. */
  lemma CounterColorOfLabels()
    ensures CounterColor(Wildberries) == Colors.MarketplaceColor(Wildberries)
    ensures CounterColor(Ozon) == Colors.MarketplaceColor(Ozon)
    ensures CounterColor(YandexMarket) == Colors.MarketplaceColor(YandexMarket)
  {
    Colors.LabelColors();
    assert Lower(Wildberries) == "wildberries";
    assert Lower(Ozon) == "ozon";
    assert Lower(YandexMarket) == "яндекс.маркет";
    ContainsSelf("wildberries");
    NotContains("ozon", "wildberries", 0);
    ContainsSelf("ozon");
    NotContains("яндекс.маркет", "wildberries", 0);
    NotContains("яндекс.маркет", "ozon", 0);
    assert MatchesAt("яндекс.маркет", "яндекс", 0);
  }

  // ---------------------------------------------------------------------
  // Filter
  // ---------------------------------------------------------------------

  /** A marketplace filter that stands for Wildberries. */
  predicate IsWildberriesFilter(f: string) {
    Contains(f, "wild") || f == "wildberries" || f == "вайлдберриз" || f == "wb" || f == "вб"
  }

  /** A lower-cased event marketplace that counts as Wildberries. */
  predicate IsWildberriesName(l: string) {
    Contains(l, "wild") || l == "wb" || l == "вб" || Contains(l, "вайлдберриз") || l == "wildberries"
  }

  /** The marketplace test: skipped for no filter and for an event
      without a marketplace. */
  predicate MarketplacePasses(filter: Option<string>, marketplace: string) {
    if filter.Some? && filter.value != "" && marketplace != "" then
      var f := Lower(filter.value);
      if IsWildberriesFilter(f) then IsWildberriesName(Lower(marketplace))
      else Lower(marketplace) == f
    else true
  }

  predicate WarehousePasses(filter: Option<string>, warehouse: string) {
    filter.Some? && filter.value != "" ==> warehouse == filter.value
  }

  predicate DepartmentPasses(filter: Option<seq<string>>, department: string) {
    filter.Some? && |filter.value| > 0 ==> department in filter.value
  }

  /** The non-date part of the calendar's filter; a missing event never
      passes. */
  predicate CalendarPasses(filters: Option<FilterOptions>, e: Option<DeliveryEvent>) {
    && e.Some?
    && (filters.Some? ==>
         && MarketplacePasses(filters.value.marketplace, e.value.marketplace)
         && WarehousePasses(filters.value.warehouse, e.value.warehouse)
         && DepartmentPasses(filters.value.department, e.value.department))
  }

  function CalendarFilter(filters: Option<FilterOptions>): Option<DeliveryEvent> -> bool {
    e => CalendarPasses(filters, e)
  }

  /** `events.filter(...)` in the calendar: present events that pass each
      active test, in input order. */
  function FilterCalendarEvents(filters: Option<FilterOptions>, events: seq<Option<DeliveryEvent>>)
    : (r: seq<Option<DeliveryEvent>>)
    ensures forall k :: 0 <= k < |r| ==> r[k].Some? && r[k] in events
  {
    Filter(events, CalendarFilter(filters))
  }

  /** The filter keeps exactly the events that pass, in order. */
  lemma CalendarFilterSpec(filters: Option<FilterOptions>, events: seq<Option<DeliveryEvent>>, e: Option<DeliveryEvent>)
    ensures IsSubsequence(FilterCalendarEvents(filters, events), events)
    ensures e in FilterCalendarEvents(filters, events) <==> e in events && CalendarPasses(filters, e)
  {
    FilterIsSubsequence(events, CalendarFilter(filters));
    if e in events && CalendarPasses(filters, e) {
      FilterKeeps(events, CalendarFilter(filters), e);
    }
  }

  /** Without filters only missing events are dropped. */
  lemma NoFiltersKeepsPresent(events: seq<Option<DeliveryEvent>>, e: DeliveryEvent)
    ensures Some(e) in FilterCalendarEvents(None, events) <==> Some(e) in events
  {
    CalendarFilterSpec(None, events, Some(e));
  }

  /** Any Wildberries spelling as the filter keeps the same events: the
      canonical label, "wb" or "вб" all select the Wildberries names. */
  lemma WildberriesFiltersAgree(f: string, g: string, marketplace: string)
    requires IsWildberriesFilter(Lower(f)) && IsWildberriesFilter(Lower(g)) && f != "" && g != ""
    ensures MarketplacePasses(Some(f), marketplace) == MarketplacePasses(Some(g), marketplace)
  {
  }

  /** The canonical label is a Wildberries filter. */
  lemma WildberriesLabelIsFilter()
    ensures IsWildberriesFilter(Lower(Wildberries))
  {
    assert Lower(Wildberries) == "wildberries";
  }

  // ---------------------------------------------------------------------
  // Marketplace order of a day's counters
  // ---------------------------------------------------------------------

  /** The sort comparator: Wildberries names first, then Ozon names, and
      0 otherwise. */
  function CompareMarketplaces(a: string, b: string): int {
    var la := Lower(a);
    var lb := Lower(b);
    if Contains(la, "wildberries") && !Contains(lb, "wildberries") then -1
    else if !Contains(la, "wildberries") && Contains(lb, "wildberries") then 1
    else if Contains(la, "ozon") && !Contains(lb, "ozon") then -1
    else if !Contains(la, "ozon") && Contains(lb, "ozon") then 1
    else 0
  }

  /** A name's rank: (not Wildberries, not Ozon) read as a two-digit
      binary number. */
  function Rank(name: string): (r: int)
    ensures 0 <= r <= 3
  {
    var l := Lower(name);
    (if Contains(l, "wildberries") then 0 else 2) + (if Contains(l, "ozon") then 0 else 1)
  }

  /** The comparator is the lexicographic comparison of the two flags. */
  lemma CompareIsRankOrder(a: string, b: string)
    ensures CompareMarketplaces(a, b) == (if Rank(a) < Rank(b) then -1 else if Rank(a) > Rank(b) then 1 else 0)
  {
  }

  lemma CompareAntisymmetric(a: string, b: string)
    ensures CompareMarketplaces(a, b) == -CompareMarketplaces(b, a)
  {
    CompareIsRankOrder(a, b);
    CompareIsRankOrder(b, a);
  }

  lemma CompareTransitive(a: string, b: string, c: string)
    requires CompareMarketplaces(a, b) <= 0 && CompareMarketplaces(b, c) <= 0
    ensures CompareMarketplaces(a, c) <= 0
  {
    CompareIsRankOrder(a, b);
    CompareIsRankOrder(b, c);
    CompareIsRankOrder(a, c);
  }
}
