/** The dashboard's top-level state transitions: the filter-bar option
    lists, the filter it applies before computing the statistics, the
    filter-bar change handler, the auto-refresh toggle, and sign-in and
    sign-out. React's state setters become functions from one `AppState`
    to the next; the clock and the timer handle are parameters. */
module App {
  import opened Base
  import opened Types
  import opened Gather
  import opened Stats
  import Tokens
  import AutoRefresh

  // ---------------------------------------------------------------------
  // Option lists
  // ---------------------------------------------------------------------

  /** `[...new Set(xs)]`: each value once, in order of first occurrence. */
  function Distinct(xs: seq<string>): (r: seq<string>)
    ensures forall x :: x in r <==> x in xs
    ensures forall i, j :: 0 <= i < j < |r| ==> r[i] != r[j]
    decreases |xs|
  {
    if xs == [] then []
    else
      var n := |xs| - 1;
      assert xs == xs[..n] + [xs[n]];
      var d := Distinct(xs[..n]);
      if xs[n] in d then d else d + [xs[n]]
  }

  /** A list without repeats is its own set of distinct values. */
  lemma {:induction false} DistinctOfUnique(xs: seq<string>)
    requires forall i, j :: 0 <= i < j < |xs| ==> xs[i] != xs[j]
    ensures Distinct(xs) == xs
    decreases |xs|
  {
    if xs != [] {
      var n := |xs| - 1;
      var pre := xs[..n];
      DistinctOfUnique(pre);
      forall i | 0 <= i < |pre|
        ensures pre[i] != xs[n]
      {
        assert pre[i] == xs[i];
      }
      assert xs == pre + [xs[n]];
    }
  }

  /** Keeping the distinct values a second time changes nothing. */
  lemma DistinctIdempotent(xs: seq<string>)
    ensures Distinct(Distinct(xs)) == Distinct(xs)
  {
    DistinctOfUnique(Distinct(xs));
  }

  /** One field of every event, in event order. */
  function Column(events: seq<DeliveryEvent>, field: DeliveryEvent -> string): (c: seq<string>)
    ensures |c| == |events|
    ensures forall i :: 0 <= i < |events| ==> c[i] == field(events[i])
  {
    seq(|events|, i requires 0 <= i < |events| => field(events[i]))
  }

  /** The distinct values of one field. */
  function Options(events: seq<DeliveryEvent>, field: DeliveryEvent -> string): (r: seq<string>)
    ensures forall v :: v in r <==> exists e :: e in events && field(e) == v
    ensures forall i, j :: 0 <= i < j < |r| ==> r[i] != r[j]
  {
    var c := Column(events, field);
    assert forall v :: v in c ==> exists e :: e in events && field(e) == v by {
      forall v | v in c
        ensures exists e :: e in events && field(e) == v
      {
        var i :| 0 <= i < |c| && c[i] == v;
        assert events[i] in events;
      }
    }
    assert forall e :: e in events ==> field(e) in c by {
      forall e | e in events
        ensures field(e) in c
      {
        var i :| 0 <= i < |events| && events[i] == e;
        assert c[i] == field(e);
      }
    }
    Distinct(c)
  }

  function MarketplaceOf(e: DeliveryEvent): string { e.marketplace }
  function WarehouseOf(e: DeliveryEvent): string { e.warehouse }
  function DepartmentOf(e: DeliveryEvent): string { e.department }

  /** The marketplace dropdown: every marketplace of the loaded events,
      once each. */
  function MarketplaceOptions(events: seq<DeliveryEvent>): (r: seq<string>)
    ensures forall m :: m in r <==> exists e :: e in events && e.marketplace == m
    ensures forall i, j :: 0 <= i < j < |r| ==> r[i] != r[j]
  {
    Options(events, MarketplaceOf)
  }

  /** The selected marketplace, if one is set (an empty one is none). */
  predicate OfSelectedMarketplace(filters: FilterOptions, e: DeliveryEvent) {
    !Truthy(filters.marketplace) || e.marketplace == filters.marketplace.value
  }

  /** The warehouse dropdown: the warehouses of the events of the selected
      marketplace, or of all events when none is selected. */
  function WarehouseOptions(events: seq<DeliveryEvent>, filters: FilterOptions): (r: seq<string>)
    ensures forall w :: w in r <==>
      exists e :: e in events && OfSelectedMarketplace(filters, e) && e.warehouse == w
    ensures forall i, j :: 0 <= i < j < |r| ==> r[i] != r[j]
  {
    var selected := Filter(events, e => OfSelectedMarketplace(filters, e));
    assert forall e :: e in selected <==> e in events && OfSelectedMarketplace(filters, e) by {
      forall e | e in events && OfSelectedMarketplace(filters, e)
        ensures e in selected
      {
        FilterKeeps(events, e => OfSelectedMarketplace(filters, e), e);
      }
    }
    Options(selected, WarehouseOf)
  }

  /** The department dropdown: every department of the loaded events,
      once each. */
  function DepartmentOptions(events: seq<DeliveryEvent>): (r: seq<string>)
    ensures forall d :: d in r <==> exists e :: e in events && e.department == d
    ensures forall i, j :: 0 <= i < j < |r| ==> r[i] != r[j]
  {
    Options(events, DepartmentOf)
  }

  /** With no marketplace selected the warehouse list covers every
      event. */
  lemma AllWarehousesWithoutMarketplace(events: seq<DeliveryEvent>, filters: FilterOptions, w: string)
    requires !Truthy(filters.marketplace)
    ensures w in WarehouseOptions(events, filters) <==> exists e :: e in events && e.warehouse == w
  {
  }

  // ---------------------------------------------------------------------
  // The statistics filter
  // ---------------------------------------------------------------------

  /** The date-range test, which the model takes as given: it stands for
      the comparison of `new Date(event.date)` with the selected days. */
  type DateWindow = (DeliveryEvent, FilterOptions) -> bool

  /** The non-date tests of `filteredEvents`: exact, case-sensitive
      marketplace and warehouse, and membership in a non-empty department
      list. */
  predicate AppPasses(filters: FilterOptions, e: DeliveryEvent) {
    && OfSelectedMarketplace(filters, e)
    && (!Truthy(filters.warehouse) || e.warehouse == filters.warehouse.value)
    && (filters.department.None? || |filters.department.value| == 0 || e.department in filters.department.value)
  }

  /** A date bound is set. */
  predicate HasDateRange(filters: FilterOptions) {
    Truthy(filters.startDate) || Truthy(filters.endDate)
  }

  /** The whole test: the date window is consulted only when a bound is
      set. */
  predicate FilteredPasses(filters: FilterOptions, window: DateWindow, e: DeliveryEvent) {
    AppPasses(filters, e) && (HasDateRange(filters) ==> window(e, filters))
  }

  /** `filteredEvents`. */
  function FilteredEvents(events: seq<DeliveryEvent>, filters: FilterOptions, window: DateWindow): (r: seq<DeliveryEvent>)
    ensures |r| <= |events|
  {
    Filter(events, e => FilteredPasses(filters, window, e))
  }

  /** The filtered events are a subsequence of the events, and an event is
      kept exactly when it passes. */
  lemma FilteredEventsSpec(events: seq<DeliveryEvent>, filters: FilterOptions, window: DateWindow, e: DeliveryEvent)
    ensures IsSubsequence(FilteredEvents(events, filters, window), events)
    ensures e in FilteredEvents(events, filters, window) <==> e in events && FilteredPasses(filters, window, e)
  {
    FilterIsSubsequence(events, e => FilteredPasses(filters, window, e));
    if e in events && FilteredPasses(filters, window, e) {
      FilterKeeps(events, e => FilteredPasses(filters, window, e), e);
    }
  }

  /** Without any filter every event is kept. */
  lemma NoFiltersKeepAll(events: seq<DeliveryEvent>, window: DateWindow, e: DeliveryEvent)
    ensures e in FilteredEvents(events, NoFilters, window) <==> e in events
  {
    FilteredEventsSpec(events, NoFilters, window, e);
  }

  /** The marketplace filter is an exact match: a name that differs only
      in letter case is dropped. */
  lemma MarketplaceIsExact(events: seq<DeliveryEvent>, filters: FilterOptions, window: DateWindow, e: DeliveryEvent)
    requires Truthy(filters.marketplace) && e.marketplace != filters.marketplace.value
    ensures e !in FilteredEvents(events, filters, window)
  {
    FilteredEventsSpec(events, filters, window, e);
  }

  /** The statistics are computed over the filtered events. */
  function AppStats(events: seq<DeliveryEvent>, filters: FilterOptions, window: DateWindow): (s: DeliveryStats)
    ensures s.totalDeliveries <= |events|
    ensures s.totalDeliveries == |FilteredEvents(events, filters, window)|
  {
    CalculateDeliveryStats(FilteredEvents(events, filters, window))
  }

  // ---------------------------------------------------------------------
  // Filter changes
  // ---------------------------------------------------------------------

  /** The single-valued filter keys. */
  datatype TextFilter = MarketplaceFilter | WarehouseFilter | StartDateFilter | EndDateFilter

  /** `handleFilterChange` for a single-valued key: the key gets the value;
      a new marketplace also clears the warehouse. */
  function HandleFilterChange(filters: FilterOptions, key: TextFilter, value: Option<string>): (r: FilterOptions)
    ensures key == MarketplaceFilter ==>
      r == filters.(marketplace := value, warehouse := None)
    ensures key == WarehouseFilter ==> r.warehouse == value
    ensures key == StartDateFilter ==> r.startDate == value
    ensures key == EndDateFilter ==> r.endDate == value
    ensures r.department == filters.department
    ensures key != MarketplaceFilter ==> r.marketplace == filters.marketplace
    ensures key != MarketplaceFilter && key != WarehouseFilter ==> r.warehouse == filters.warehouse
    ensures key != StartDateFilter ==> r.startDate == filters.startDate
    ensures key != EndDateFilter ==> r.endDate == filters.endDate
  {
    match key
    case MarketplaceFilter => filters.(marketplace := value, warehouse := None)
    case WarehouseFilter => filters.(warehouse := value)
    case StartDateFilter => filters.(startDate := value)
    case EndDateFilter => filters.(endDate := value)
  }

  /** `handleFilterChange('department', …)`: only the department list
      changes. */
  function HandleDepartmentChange(filters: FilterOptions, value: Option<seq<string>>): (r: FilterOptions)
    ensures r.department == value
    ensures r.marketplace == filters.marketplace && r.warehouse == filters.warehouse
    ensures r.startDate == filters.startDate && r.endDate == filters.endDate
  {
    filters.(department := value)
  }

  /** After a marketplace change every event passes the warehouse test,
      whatever warehouse had been selected. */
  lemma MarketplaceChangeClearsWarehouse(filters: FilterOptions, value: Option<string>, e: DeliveryEvent)
    requires Truthy(value) && e.marketplace == value.value
    requires filters.department.None?
    ensures AppPasses(HandleFilterChange(filters, MarketplaceFilter, value), e)
  {
  }

  /** Choosing a marketplace keeps its own warehouses available. */
  lemma SelectedWarehousesOffered(events: seq<DeliveryEvent>, filters: FilterOptions, value: Option<string>, e: DeliveryEvent)
    requires Truthy(value) && e in events && e.marketplace == value.value
    ensures e.warehouse in WarehouseOptions(events, HandleFilterChange(filters, MarketplaceFilter, value))
  {
  }

  // ---------------------------------------------------------------------
  // Dashboard state
  // ---------------------------------------------------------------------

  /** The state the dashboard keeps: its own React state, and the token
      store and refresh scheduler it drives. */
  datatype AppState = AppState(
    events: seq<DeliveryEvent>,
    filters: FilterOptions,
    auth: AuthState,
    autoRefreshEnabled: bool,
    activeConfigIds: seq<string>,
    tokens: Tokens.TokenStore,
    scheduler: AutoRefresh.Scheduler)

  /** `toggleAutoRefresh`: stop a running refresh; otherwise start one
      every minute over the active configurations. `handle` is the timer
      the browser hands out, distinct from every live one. */
  function ToggleAutoRefresh(s: AppState, now: int, handle: nat): (r: AppState)
    requires handle !in s.scheduler.live
    ensures AutoRefresh.IsActive(r.scheduler) <==> !AutoRefresh.IsActive(s.scheduler)
    ensures r.autoRefreshEnabled <==> AutoRefresh.IsActive(r.scheduler)
    ensures !AutoRefresh.IsActive(s.scheduler) ==>
      && r.scheduler.interval == AutoRefresh.DefaultIntervalMs
      && r.scheduler.timer == Some(handle)
      && r.scheduler.lastRefresh == Some(now)
      && r.scheduler.target == AutoRefresh.TargetOf(Some(s.activeConfigIds))
    ensures r.events == s.events && r.auth == s.auth && r.tokens == s.tokens
    ensures r.activeConfigIds == s.activeConfigIds && r.filters == s.filters
  {
    if AutoRefresh.IsActive(s.scheduler) then
      s.(scheduler := AutoRefresh.Stop(s.scheduler), autoRefreshEnabled := false)
    else
      s.(scheduler := AutoRefresh.Start(s.scheduler, now, 60000, Some(s.activeConfigIds), handle),
         autoRefreshEnabled := true)
  }

  /** Toggling twice leaves the refresh stopped when it was running and
      running when it was stopped, so two toggles from a stopped state
      end stopped with the scheduler's invariant kept. */
  lemma ToggleTwice(s: AppState, now1: int, now2: int, h1: nat, h2: nat)
    requires AutoRefresh.Inv(s.scheduler) && !AutoRefresh.IsActive(s.scheduler)
    requires h1 !in s.scheduler.live
    ensures h2 !in ToggleAutoRefresh(s, now1, h1).scheduler.live || h2 == h1
    ensures var once := ToggleAutoRefresh(s, now1, h1);
      h2 !in once.scheduler.live ==>
        var twice := ToggleAutoRefresh(once, now2, h2);
        !AutoRefresh.IsActive(twice.scheduler) && !twice.autoRefreshEnabled &&
        AutoRefresh.Inv(twice.scheduler) && twice.scheduler.live == {}
  {
  }

  /** What a sign-in reports: an OAuth response carries an access token; a
      federated one carries the user's uid, e-mail and display name. */
  datatype LoginResponse = LoginResponse(
    accessToken: Option<string>,
    uid: string,
    email: Option<string>,
    displayName: Option<string>)

  /** `handleLoginSuccess`: a response with an access token signs in
      directly; any other signs in a federated user, carrying the stored
      access token when there is one. */
  function HandleLoginSuccess(s: AppState, response: LoginResponse): (r: AppState)
    ensures r.auth.isLoggedIn
    ensures Truthy(response.accessToken) ==>
      r.auth == AuthState(true, Some(GoogleUser(response.accessToken.value)), Some(Google))
    ensures !Truthy(response.accessToken) ==>
      && r.auth.provider == Some(Firebase)
      && r.auth.user.Some? && r.auth.user.value.FirebaseUser?
      && r.auth.user.value.uid == response.uid
      && r.auth.user.value.email == OrEmpty(response.email)
      && r.auth.user.value.displayName == response.displayName
      && (r.auth.user.value.token.Some? <==> Truthy(s.tokens.accessToken))
      && (Truthy(s.tokens.accessToken) ==> r.auth.user.value.token == s.tokens.accessToken)
    ensures r == s.(auth := r.auth)
  {
    if Truthy(response.accessToken) then
      s.(auth := AuthState(true, Some(GoogleUser(response.accessToken.value)), Some(Google)))
    else
      var stored := if Truthy(s.tokens.accessToken) then s.tokens.accessToken else None;
      s.(auth := AuthState(true,
        Some(FirebaseUser(response.uid, OrEmpty(response.email), response.displayName, stored)),
        Some(Firebase)))
  }

  /** `handleLogout`: stop the refresh, forget the active configurations,
      clear the token store only for a direct OAuth sign-in, sign out and
      drop the loaded events. */
  function HandleLogout(s: AppState): (r: AppState)
    ensures !AutoRefresh.IsActive(r.scheduler) && !r.autoRefreshEnabled
    ensures r.activeConfigIds == [] && r.events == []
    ensures r.auth == LoggedOut
    ensures s.auth.provider == Some(Google) ==> r.tokens == Tokens.ClearToken(s.tokens)
    ensures s.auth.provider != Some(Google) ==> r.tokens == s.tokens
    ensures r.filters == s.filters
    ensures AutoRefresh.Inv(s.scheduler) ==> AutoRefresh.Inv(r.scheduler) && r.scheduler.live == {}
  {
    var tokens := if s.auth.provider == Some(Google) then Tokens.ClearToken(s.tokens) else s.tokens;
    AppState([], s.filters, LoggedOut, false, [], tokens, AutoRefresh.Stop(s.scheduler))
  }

  /** After a direct OAuth session is closed, the stored token counts as
      expired at every time. */
  lemma LogoutExpiresGoogleToken(s: AppState, now: int)
    requires s.auth.provider == Some(Google)
    ensures Tokens.IsTokenExpired(HandleLogout(s).tokens, now)
  {
  }

  /** Signing in and then out ends logged out with nothing loaded,
      whichever way the user signed in. */
  lemma LoginThenLogout(s: AppState, response: LoginResponse)
    ensures var r := HandleLogout(HandleLoginSuccess(s, response));
      r.auth == LoggedOut && r.events == [] && r.activeConfigIds == []
    ensures Truthy(response.accessToken) ==>
      HandleLogout(HandleLoginSuccess(s, response)).tokens == Tokens.ClearToken(s.tokens)
    ensures !Truthy(response.accessToken) ==>
      HandleLogout(HandleLoginSuccess(s, response)).tokens == s.tokens
  {
  }
}
