/** The queries of the itinerary library (lib/itinerary.ts) and the rules
    by which its inserts build new rows. The inserts and deletes themselves
    are methods of the Store class. */
module Itinerary {
  import opened Wrappers
  import opened Seqs
  import opened Text
  import opened Sorting
  import opened Schema
  import opened Sql

  // ---------------------------------------------------------------- stops

  /** `SELECT MAX(stop_order) FROM trip_stops WHERE trip_id = ?`: NULL when
      the trip has no stops. */
  function MaxStopOrder(stops: seq<TripStop>, tripId: Id): (r: Option<int>)
    ensures r.None? <==> forall i :: 0 <= i < |stops| ==> stops[i].tripId != tripId
    ensures r.Some? ==> forall i :: 0 <= i < |stops| && stops[i].tripId == tripId ==> stops[i].stopOrder <= r.value
    ensures r.Some? ==> exists i :: 0 <= i < |stops| && stops[i].tripId == tripId && stops[i].stopOrder == r.value
  {
    if stops == [] then None
    else
      var init := stops[..|stops| - 1];
      var last := stops[|stops| - 1];
      var m := MaxStopOrder(init, tripId);
      assert forall i :: 0 <= i < |init| ==> init[i] == stops[i];
      if last.tripId != tripId then m
      else if m.None? || last.stopOrder > m.value then Some(last.stopOrder)
      else m
  }

  /** `(COALESCE(MAX(stop_order), 0) || 0) + 1`: one past the largest order of
      the trip, 1 for a trip without stops. */
  function NextStopOrder(stops: seq<TripStop>, tripId: Id): (r: int)
    ensures forall i :: 0 <= i < |stops| && stops[i].tripId == tripId ==> stops[i].stopOrder < r
    ensures (forall i :: 0 <= i < |stops| ==> stops[i].tripId != tripId) ==> r == 1
  {
    MaxStopOrder(stops, tripId).GetOr(0) + 1
  }

  /** The row `addTripStop` inserts: a fresh id, the next order of the trip,
      and NULL for absent or empty notes. */
  function NewStop(stops: seq<TripStop>, tripId: Id, cityId: Id, arrivalDate: string,
                   departureDate: string, notes: Option<string>, createdAt: nat): (r: TripStop)
    ensures r.tripId == tripId && r.cityId == cityId
    ensures r.arrivalDate == arrivalDate && r.departureDate == departureDate
    ensures r.stopOrder == NextStopOrder(stops, tripId)
    ensures r.notes.None? <==> !Truthy(notes)
    ensures r.notes.Some? ==> r.notes == notes
    ensures forall i :: 0 <= i < |stops| ==> stops[i].id != r.id
    ensures r.createdAt == createdAt
  {
    assert forall i :: 0 <= i < |stops| ==> StopIds(stops)[i] == stops[i].id;
    TripStop(NextId(StopIds(stops)), tripId, cityId, arrivalDate, departureDate,
             NextStopOrder(stops, tripId), NullIfFalsy(notes), createdAt)
  }

  /** The order given to a new stop depends on the stops of its own trip only. */
  lemma NextStopOrderOwnTrip(stops: seq<TripStop>, tripId: Id)
    ensures NextStopOrder(stops, tripId) == NextStopOrder(Filter(stops, StopOfTrip, tripId), tripId)
    ensures MaxStopOrder(stops, tripId) == MaxStopOrder(Filter(stops, StopOfTrip, tripId), tripId)
  {
    MaxStopOrderOwnTrip(stops, tripId);
  }

  lemma {:induction false} MaxStopOrderOwnTrip(stops: seq<TripStop>, tripId: Id)
    ensures MaxStopOrder(stops, tripId) == MaxStopOrder(Filter(stops, StopOfTrip, tripId), tripId)
    decreases |stops|
  {
    if stops != [] {
      var init := stops[..|stops| - 1];
      var last := stops[|stops| - 1];
      var f := Filter(init, StopOfTrip, tripId);
      MaxStopOrderOwnTrip(init, tripId);
      if last.tripId == tripId {
        assert Filter(stops, StopOfTrip, tripId) == f + [last];
        MaxStopOrderSnoc(f, last, tripId);
      } else {
        assert Filter(stops, StopOfTrip, tripId) == f by {
          assert f + [] == f;
        }
      }
    }
  }

  /** One more row changes the maximum only when it belongs to the trip. */
  lemma MaxStopOrderSnoc(stops: seq<TripStop>, last: TripStop, tripId: Id)
    ensures var m := MaxStopOrder(stops, tripId);
      MaxStopOrder(stops + [last], tripId)
        == if last.tripId != tripId then m
           else if m.None? || last.stopOrder > m.value then Some(last.stopOrder)
           else m
  {
    assert (stops + [last])[..|stops|] == stops;
  }

  /** Rows added for other trips leave a trip's next order unchanged. */
  lemma NextStopOrderIgnoresOtherTrips(stops: seq<TripStop>, other: seq<TripStop>, tripId: Id)
    requires forall i :: 0 <= i < |other| ==> other[i].tripId != tripId
    ensures NextStopOrder(stops + other, tripId) == NextStopOrder(stops, tripId)
  {
    NextStopOrderOwnTrip(stops + other, tripId);
    NextStopOrderOwnTrip(stops, tripId);
    FilterAppend(stops, other, StopOfTrip, tripId);
    FilterNone(other, StopOfTrip, tripId);
    assert Filter(stops, StopOfTrip, tripId) + [] == Filter(stops, StopOfTrip, tripId);
  }

  /** Within one trip, distinct stop rows carry distinct orders. */
  ghost predicate OrdersDistinct(stops: seq<TripStop>, tripId: Id)
  {
    forall i, j :: 0 <= i < j < |stops| && stops[i].tripId == tripId && stops[j].tripId == tripId
      ==> stops[i].stopOrder != stops[j].stopOrder
  }

  /** Adding a stop, to this trip or any other, keeps every trip's orders
      pairwise distinct. */
  lemma AddStopKeepsOrdersDistinct(stops: seq<TripStop>, t: Id, tripId: Id, cityId: Id,
                                   arrivalDate: string, departureDate: string,
                                   notes: Option<string>, createdAt: nat)
    requires OrdersDistinct(stops, t)
    ensures OrdersDistinct(stops + [NewStop(stops, tripId, cityId, arrivalDate, departureDate, notes, createdAt)], t)
  {
    var s' := stops + [NewStop(stops, tripId, cityId, arrivalDate, departureDate, notes, createdAt)];
    forall i, j | 0 <= i < j < |s'| && s'[i].tripId == t && s'[j].tripId == t
      ensures s'[i].stopOrder != s'[j].stopOrder
    {
      if j == |stops| {
        assert s'[i] == stops[i];
      } else {
        assert s'[i] == stops[i] && s'[j] == stops[j];
      }
    }
  }

  /** Deleting a stop never renumbers the others: when another stop of the
      trip still holds the largest order, the next stop gets the same order it
      would have got before the delete, so the deleted order stays a gap. */
  lemma DeleteStopKeepsNextOrder(stops: seq<TripStop>, stopId: Id, tripId: Id, k: int)
    requires 0 <= k < |stops| && stops[k].tripId == tripId && stops[k].id != stopId
    requires MaxStopOrder(stops, tripId) == Some(stops[k].stopOrder)
    ensures NextStopOrder(Filter(stops, StopIdIsNot, stopId), tripId) == NextStopOrder(stops, tripId)
  {
    var kept := Filter(stops, StopIdIsNot, stopId);
    assert stops[k] in kept;
    var m := MaxStopOrder(kept, tripId);
    var j :| 0 <= j < |kept| && kept[j] == stops[k];
    assert m.Some?;
    assert m.value >= stops[k].stopOrder;
    var i :| 0 <= i < |kept| && kept[i].tripId == tripId && kept[i].stopOrder == m.value;
    assert kept[i] in stops;
  }

  /** A stop row joined with its city's name and country. */
  datatype StopWithCity = StopWithCity(stop: TripStop, cityName: string, cityCountry: string)

  /** The joined row of one stop: its city's columns, when the city exists
      (city ids are primary keys, so there is at most one). */
  function WithCity(s: TripStop, cities: seq<City>): (r: Option<StopWithCity>)
    ensures r.Some? <==> LookupCity(cities, s.cityId).Some?
    ensures r.Some? ==> r.value.stop == s
  {
    match LookupCity(cities, s.cityId)
    case None => None
    case Some(c) => Some(StopWithCity(s, c.name, c.country))
  }

  /** `JOIN cities c ON ts.city_id = c.id`, in the order of the stops. */
  function JoinCities(stops: seq<TripStop>, cities: seq<City>): (r: seq<StopWithCity>)
    ensures |r| <= |stops|
    ensures forall x :: x in r ==> x.stop in stops && WithCity(x.stop, cities) == Some(x)
    ensures forall s :: s in stops && WithCity(s, cities).Some? ==> WithCity(s, cities).value in r
  {
    if stops == [] then []
    else
      var s := stops[|stops| - 1];
      assert forall x :: x in stops ==> x in stops[..|stops| - 1] || x == s;
      JoinCities(stops[..|stops| - 1], cities) + (if WithCity(s, cities).Some? then [WithCity(s, cities).value] else [])
  }

  /** The join keeps every stop with a city as often as the table holds it,
      and nothing else. */
  lemma {:induction false} JoinCitiesCount(stops: seq<TripStop>, cities: seq<City>, x: StopWithCity)
    ensures multiset(JoinCities(stops, cities))[x] ==
      if WithCity(x.stop, cities) == Some(x) then multiset(stops)[x.stop] else 0
    decreases |stops|
  {
    if stops != [] {
      JoinCitiesCount(stops[..|stops| - 1], cities, x);
      SplitLast(stops);
    }
  }

  /** How often the stop query of a trip selects the row x: as often as the
      table holds x's stop, when that stop belongs to the trip and joins the
      city in x; otherwise never. */
  function StopRowCount(stops: seq<TripStop>, cities: seq<City>, tripId: Id, x: StopWithCity): nat
  {
    if x.stop.tripId == tripId && WithCity(x.stop, cities) == Some(x) then multiset(stops)[x.stop] else 0
  }

  /** The rows the stop query selects, before ordering. */
  lemma TripStopsCount(stops: seq<TripStop>, cities: seq<City>, tripId: Id)
    ensures forall x :: multiset(JoinCities(Filter(stops, StopOfTrip, tripId), cities))[x]
                        == StopRowCount(stops, cities, tripId, x)
  {
    forall x
      ensures multiset(JoinCities(Filter(stops, StopOfTrip, tripId), cities))[x]
              == StopRowCount(stops, cities, tripId, x)
    {
      JoinCitiesCount(Filter(stops, StopOfTrip, tripId), cities, x);
      FilterCount(stops, StopOfTrip, tripId, x.stop);
    }
  }

  predicate StopOrderAsc(a: StopWithCity, b: StopWithCity)
  {
    a.stop.stopOrder <= b.stop.stopOrder
  }

  lemma StopOrderAscTotal()
    ensures TotalPreorder(StopOrderAsc)
  {
  }

  /** `getTripStops`: the trip's stops with their city, by stop order; []
      when the query fails. */
  function GetTripStops(stops: seq<TripStop>, cities: seq<City>, tripId: Id, fault: bool): (r: seq<StopWithCity>)
    ensures fault ==> r == []
    ensures forall x :: x in r ==> x.stop in stops && x.stop.tripId == tripId && WithCity(x.stop, cities) == Some(x)
    ensures !fault ==> forall s :: s in stops && s.tripId == tripId && WithCity(s, cities).Some?
                          ==> WithCity(s, cities).value in r
    ensures !fault ==> forall x :: multiset(r)[x] == StopRowCount(stops, cities, tripId, x)
    ensures Sorted(r, StopOrderAsc)
  {
    if fault then []
    else
      var joined := JoinCities(Filter(stops, StopOfTrip, tripId), cities);
      StopOrderAscTotal();
      SortByCorrect(joined, StopOrderAsc);
      SortByMembers(joined, StopOrderAsc);
      TripStopsCount(stops, cities, tripId);
      SortBy(joined, StopOrderAsc)
  }

  // ---------------------------------------------------------------- cities

  /** `name LIKE '%q%' OR country LIKE '%q%'`: SQLite's LIKE ignores ASCII case. */
  predicate CityMatches(c: City, query: string)
  {
    Contains(Lower(c.name), Lower(query)) || Contains(Lower(c.country), Lower(query))
  }

  predicate PopularityDesc(a: City, b: City)
  {
    a.popularity >= b.popularity
  }

  lemma PopularityDescTotal()
    ensures TotalPreorder(PopularityDesc)
  {
  }

  /** `searchCities`: matching cities, most popular first, at most 20: the
      20 most popular matches, or every match when there are fewer. */
  function SearchCities(cities: seq<City>, query: string, fault: bool): (r: seq<City>)
    ensures fault ==> r == []
    ensures !fault ==> TopN(r, Filter(cities, CityMatches, query), 20, PopularityDesc)
    ensures |r| <= 20
    ensures forall i :: 0 <= i < |r| ==> r[i] in cities && CityMatches(r[i], query)
    ensures Sorted(r, PopularityDesc)
    ensures !fault && |Filter(cities, CityMatches, query)| <= 20 ==>
              multiset(r) == multiset(Filter(cities, CityMatches, query))
  {
    if fault then []
    else
      var matching := Filter(cities, CityMatches, query);
      PopularityDescTotal();
      SortByCorrect(matching, PopularityDesc);
      LimitSortBy(matching, 20, PopularityDesc);
      var sorted := SortBy(matching, PopularityDesc);
      var r := Limit(sorted, 20);
      assert forall i :: 0 <= i < |r| ==> r[i] == sorted[i] && sorted[i] in multiset(matching);
      r
  }

  /** An empty query matches every city. */
  lemma SearchEmptyQueryMatchesAll(c: City)
    ensures CityMatches(c, "")
  {
    ContainsEmpty(Lower(c.name));
  }

  /** The match ignores the case of the query. */
  lemma SearchIgnoresQueryCase(c: City, query: string)
    ensures CityMatches(c, Lower(query)) == CityMatches(c, query)
  {
    LowerIdempotent(query);
  }

  // ------------------------------------------------------------ activities

  predicate ActivityInCity(a: Activity, cityId: Id)
  {
    a.cityId == cityId
  }

  predicate CostAsc(a: Activity, b: Activity)
  {
    a.estimatedCost <= b.estimatedCost
  }

  /** `getActivitiesByCity`: the city's catalog activities, cheapest first. */
  function GetActivitiesByCity(activities: seq<Activity>, cityId: Id, fault: bool): (r: seq<Activity>)
    ensures fault ==> r == []
    ensures !fault ==> multiset(r) == multiset(Filter(activities, ActivityInCity, cityId))
    ensures forall i :: 0 <= i < |r| ==> r[i] in activities && r[i].cityId == cityId
    ensures Sorted(r, CostAsc)
  {
    if fault then []
    else
      var mine := Filter(activities, ActivityInCity, cityId);
      assert TotalPreorder(CostAsc);
      SortByCorrect(mine, CostAsc);
      var r := SortBy(mine, CostAsc);
      assert forall i :: 0 <= i < |r| ==> r[i] in multiset(mine);
      r
  }

  /** A trip_activities row with the columns of its catalog activity. */
  datatype ScheduledActivity = ScheduledActivity(
    entry: TripActivity, activityName: string, activityDescription: Option<string>,
    activityCategory: Option<string>, estimatedCost: int, durationHours: Option<int>)

  /** The joined row of one trip activity, when its catalog activity exists. */
  function WithActivity(e: TripActivity, activities: seq<Activity>): (r: Option<ScheduledActivity>)
    ensures r.Some? <==> LookupActivity(activities, e.activityId).Some?
    ensures r.Some? ==> r.value.entry == e
  {
    match LookupActivity(activities, e.activityId)
    case None => None
    case Some(a) => Some(ScheduledActivity(e, a.name, a.description, a.category, a.estimatedCost, a.durationHours))
  }

  /** `JOIN activities a ON ta.activity_id = a.id`, in the order of the entries. */
  function JoinActivities(entries: seq<TripActivity>, activities: seq<Activity>): (r: seq<ScheduledActivity>)
    ensures |r| <= |entries|
    ensures forall x :: x in r ==> x.entry in entries && WithActivity(x.entry, activities) == Some(x)
    ensures forall e :: e in entries && WithActivity(e, activities).Some? ==> WithActivity(e, activities).value in r
  {
    if entries == [] then []
    else
      var e := entries[|entries| - 1];
      assert forall x :: x in entries ==> x in entries[..|entries| - 1] || x == e;
      JoinActivities(entries[..|entries| - 1], activities)
        + (if WithActivity(e, activities).Some? then [WithActivity(e, activities).value] else [])
  }

  /** The join keeps every entry whose activity exists as often as the table
      holds it, and nothing else. */
  lemma {:induction false} JoinActivitiesCount(entries: seq<TripActivity>, activities: seq<Activity>, x: ScheduledActivity)
    ensures multiset(JoinActivities(entries, activities))[x] ==
      if WithActivity(x.entry, activities) == Some(x) then multiset(entries)[x.entry] else 0
    decreases |entries|
  {
    if entries != [] {
      JoinActivitiesCount(entries[..|entries| - 1], activities, x);
      SplitLast(entries);
    }
  }

  /** How often the activity query of a stop selects the row x: as often as
      the table holds x's entry, when that entry is scheduled at the stop and
      joins the activity in x; otherwise never. */
  function EntryRowCount(entries: seq<TripActivity>, activities: seq<Activity>, stopId: Id, x: ScheduledActivity): nat
  {
    if x.entry.tripStopId == stopId && WithActivity(x.entry, activities) == Some(x) then multiset(entries)[x.entry] else 0
  }

  /** The rows the activity query of a stop selects, before ordering. */
  lemma StopActivitiesCount(entries: seq<TripActivity>, activities: seq<Activity>, stopId: Id)
    ensures forall x :: multiset(JoinActivities(Filter(entries, TripActivityOfStop, stopId), activities))[x]
                        == EntryRowCount(entries, activities, stopId, x)
  {
    forall x
      ensures multiset(JoinActivities(Filter(entries, TripActivityOfStop, stopId), activities))[x]
              == EntryRowCount(entries, activities, stopId, x)
    {
      JoinActivitiesCount(Filter(entries, TripActivityOfStop, stopId), activities, x);
      FilterCount(entries, TripActivityOfStop, stopId, x.entry);
    }
  }

  /** SQLite's ascending order on a nullable TEXT column: NULL first, then
      code-unit order. */
  predicate NullsFirstLe(a: Option<string>, b: Option<string>)
  {
    a.None? || (b.Some? && LexLe(a.value, b.value))
  }

  lemma NullsFirstLeTotal(a: Option<string>, b: Option<string>)
    ensures NullsFirstLe(a, b) || NullsFirstLe(b, a)
  {
    if a.Some? && b.Some? {
      LexLeTotal(a.value, b.value);
    }
  }

  lemma NullsFirstLeTransitive(a: Option<string>, b: Option<string>, c: Option<string>)
    requires NullsFirstLe(a, b) && NullsFirstLe(b, c)
    ensures NullsFirstLe(a, c)
  {
    if a.Some? {
      LexLeTransitive(a.value, b.value, c.value);
    }
  }

  lemma NullsFirstLeAntisymmetric(a: Option<string>, b: Option<string>)
    requires NullsFirstLe(a, b) && NullsFirstLe(b, a)
    ensures a == b
  {
    if a.Some? {
      LexLeAntisymmetric(a.value, b.value);
    }
  }

  /** `ORDER BY ta.scheduled_date ASC, ta.scheduled_time ASC`. */
  predicate ScheduleLe(a: TripActivity, b: TripActivity)
  {
    if a.scheduledDate != b.scheduledDate then NullsFirstLe(a.scheduledDate, b.scheduledDate)
    else NullsFirstLe(a.scheduledTime, b.scheduledTime)
  }

  lemma ScheduleLeTotal()
    ensures TotalPreorder(ScheduleLe)
  {
    forall a, b
      ensures ScheduleLe(a, b) || ScheduleLe(b, a)
    {
      NullsFirstLeTotal(a.scheduledDate, b.scheduledDate);
      NullsFirstLeTotal(a.scheduledTime, b.scheduledTime);
    }
    forall a, b, c | ScheduleLe(a, b) && ScheduleLe(b, c)
      ensures ScheduleLe(a, c)
    {
      var da, db, dc := a.scheduledDate, b.scheduledDate, c.scheduledDate;
      if da == db && db == dc {
        NullsFirstLeTransitive(a.scheduledTime, b.scheduledTime, c.scheduledTime);
      } else if da == db {
      } else if db == dc {
      } else {
        NullsFirstLeTransitive(da, db, dc);
        if da == dc {
          NullsFirstLeAntisymmetric(da, db);
        }
      }
    }
  }

  predicate EntryScheduleLe(a: ScheduledActivity, b: ScheduledActivity)
  {
    ScheduleLe(a.entry, b.entry)
  }

  /** `getTripActivities`: the stop's scheduled activities with their catalog
      columns, by (date, time) with unscheduled ones first. */
  function GetTripActivities(entries: seq<TripActivity>, activities: seq<Activity>, stopId: Id, fault: bool)
    : (r: seq<ScheduledActivity>)
    ensures fault ==> r == []
    ensures forall x :: x in r ==> x.entry in entries && x.entry.tripStopId == stopId && WithActivity(x.entry, activities) == Some(x)
    ensures !fault ==> forall e :: e in entries && e.tripStopId == stopId && WithActivity(e, activities).Some?
                          ==> WithActivity(e, activities).value in r
    ensures !fault ==> forall x :: multiset(r)[x] == EntryRowCount(entries, activities, stopId, x)
    ensures Sorted(r, EntryScheduleLe)
  {
    if fault then []
    else
      var joined := JoinActivities(Filter(entries, TripActivityOfStop, stopId), activities);
      ScheduleLeTotal();
      SortByCorrect(joined, EntryScheduleLe);
      SortByMembers(joined, EntryScheduleLe);
      StopActivitiesCount(entries, activities, stopId);
      SortBy(joined, EntryScheduleLe)
  }

  /** The row `addTripActivity` inserts: absent or empty date and time, and an
      absent or zero actual cost, are stored as NULL. */
  function NewTripActivity(entries: seq<TripActivity>, tripStopId: Id, activityId: Id,
                           scheduledDate: Option<string>, scheduledTime: Option<string>,
                           actualCost: Option<int>, createdAt: nat): (r: TripActivity)
    ensures r.tripStopId == tripStopId && r.activityId == activityId
    ensures r.scheduledDate.None? <==> !Truthy(scheduledDate)
    ensures r.scheduledTime.None? <==> !Truthy(scheduledTime)
    ensures r.actualCost.None? <==> actualCost.None? || actualCost.value == 0
    ensures r.scheduledDate.Some? ==> r.scheduledDate == scheduledDate
    ensures r.scheduledTime.Some? ==> r.scheduledTime == scheduledTime
    ensures r.actualCost.Some? ==> r.actualCost == actualCost
    ensures r.notes.None?
    ensures forall i :: 0 <= i < |entries| ==> entries[i].id != r.id
    ensures r.createdAt == createdAt
  {
    assert forall i :: 0 <= i < |entries| ==> TripActivityIds(entries)[i] == entries[i].id;
    TripActivity(NextId(TripActivityIds(entries)), tripStopId, activityId, NullIfFalsy(scheduledDate),
                 NullIfFalsy(scheduledTime), NullIfZero(actualCost), None, createdAt)
  }
  predicate StopCreatedDesc(a: TripStop, b: TripStop)
  {
    a.createdAt >= b.createdAt
  }

  /** `SELECT * FROM trip_stops WHERE trip_id = ? ORDER BY created_at DESC
      LIMIT 1`: the trip's most recently created stop. */
  function LatestStop(stops: seq<TripStop>, tripId: Id): (r: Option<TripStop>)
    ensures r.None? <==> forall s :: s in stops ==> s.tripId != tripId
    ensures r.Some? ==> r.value in stops && r.value.tripId == tripId
    ensures r.Some? ==> forall s :: s in stops && s.tripId == tripId ==> s.createdAt <= r.value.createdAt
  {
    var mine := Filter(stops, StopOfTrip, tripId);
    assert TotalPreorder(StopCreatedDesc);
    SortByCorrect(mine, StopCreatedDesc);
    SortByMembers(mine, StopCreatedDesc);
    var top := Limit(SortBy(mine, StopCreatedDesc), 1);
    if top == [] then None else Some(top[0])
  }

  /** A stop created after every existing row is the latest of its trip. */
  lemma LatestStopIsNewest(stops: seq<TripStop>, row: TripStop)
    requires forall s :: s in stops ==> s.createdAt < row.createdAt
    ensures LatestStop(stops + [row], row.tripId) == Some(row)
  {
    var mine := Filter(stops + [row], StopOfTrip, row.tripId);
    assert TotalPreorder(StopCreatedDesc);
    SortByFirst(mine, StopCreatedDesc, row);
  }

  predicate EntryCreatedDesc(a: TripActivity, b: TripActivity)
  {
    a.createdAt >= b.createdAt
  }

  /** `SELECT * FROM trip_activities WHERE trip_stop_id = ? ORDER BY
      created_at DESC LIMIT 1`: the stop's most recently created entry. */
  function LatestTripActivity(entries: seq<TripActivity>, stopId: Id): (r: Option<TripActivity>)
    ensures r.None? <==> forall e :: e in entries ==> e.tripStopId != stopId
    ensures r.Some? ==> r.value in entries && r.value.tripStopId == stopId
    ensures r.Some? ==> forall e :: e in entries && e.tripStopId == stopId ==> e.createdAt <= r.value.createdAt
  {
    var mine := Filter(entries, TripActivityOfStop, stopId);
    assert TotalPreorder(EntryCreatedDesc);
    SortByCorrect(mine, EntryCreatedDesc);
    SortByMembers(mine, EntryCreatedDesc);
    var top := Limit(SortBy(mine, EntryCreatedDesc), 1);
    if top == [] then None else Some(top[0])
  }

  /** An entry created after every existing row is the latest of its stop. */
  lemma LatestTripActivityIsNewest(entries: seq<TripActivity>, row: TripActivity)
    requires forall e :: e in entries ==> e.createdAt < row.createdAt
    ensures LatestTripActivity(entries + [row], row.tripStopId) == Some(row)
  {
    var mine := Filter(entries + [row], TripActivityOfStop, row.tripStopId);
    assert TotalPreorder(EntryCreatedDesc);
    SortByFirst(mine, EntryCreatedDesc, row);
  }

  /** The columns `updateTripActivity` may be given: the four stored columns
      of trip_activities, and the five joined columns of its read type, which
      the table does not have. */
  datatype JoinedColumn =
    ActivityName | ActivityDescription | ActivityCategory | EstimatedCost | DurationHours

  datatype TripActivityUpdate =
    | SetScheduledDate(date: Option<string>)
    | SetScheduledTime(time: Option<string>)
    | SetActualCost(cost: Option<int>)
    | SetNotes(notes: Option<string>)
    | SetJoined(column: JoinedColumn, value: SqlValue)

  function UpdateKey(u: TripActivityUpdate): string
  {
    match u
    case SetScheduledDate(_) => "scheduled_date"
    case SetScheduledTime(_) => "scheduled_time"
    case SetActualCost(_) => "actual_cost"
    case SetNotes(_) => "notes"
    case SetJoined(c, _) =>
      match c
      case ActivityName => "activity_name"
      case ActivityDescription => "activity_description"
      case ActivityCategory => "activity_category"
      case EstimatedCost => "estimated_cost"
      case DurationHours => "duration_hours"
  }

  function TextOrNull(s: Option<string>): SqlValue
  {
    if s.Some? then SqlText(s.value) else SqlNull
  }

  function UpdateValue(u: TripActivityUpdate): SqlValue
  {
    match u
    case SetScheduledDate(d) => TextOrNull(d)
    case SetScheduledTime(t) => TextOrNull(t)
    case SetActualCost(c) => if c.Some? then SqlInt(c.value) else SqlNull
    case SetNotes(n) => TextOrNull(n)
    case SetJoined(_, v) => v
  }

  /** `Object.keys(updates)`. */
  function UpdateKeys(us: seq<TripActivityUpdate>): (r: seq<string>)
    ensures |r| == |us| && forall i :: 0 <= i < |us| ==> r[i] == UpdateKey(us[i])
  {
    seq(|us|, i requires 0 <= i < |us| => UpdateKey(us[i]))
  }

  /** `[...Object.values(updates), activityId]`. */
  function UpdateParams(us: seq<TripActivityUpdate>, id: Id): (r: seq<SqlValue>)
    ensures |r| == |us| + 1 && r[|us|] == SqlInt(id)
    ensures forall i :: 0 <= i < |us| ==> r[i] == UpdateValue(us[i])
  {
    seq(|us|, i requires 0 <= i < |us| => UpdateValue(us[i])) + [SqlInt(id)]
  }

  /** The statement `updateTripActivity` runs binds exactly as many values as
      it has placeholders. */
  lemma UpdateTripActivityPlaceholders(us: seq<TripActivityUpdate>, id: Id)
    ensures Count(UpdateTripActivitySql(UpdateKeys(us)), '?') == |UpdateParams(us, id)|
  {
    var keys := UpdateKeys(us);
    forall i | 0 <= i < |keys|
      ensures Count(keys[i], '?') == 0
    {
      UpdateKeyPlain(us[i]);
    }
    ActivitySqlPlaceholders(keys);
  }

  /** No column name holds a placeholder. */
  lemma UpdateKeyPlain(u: TripActivityUpdate)
    ensures Count(UpdateKey(u), '?') == 0
  {
    match u
    case SetScheduledDate(_) => CountNone("scheduled_date", '?');
    case SetScheduledTime(_) => CountNone("scheduled_time", '?');
    case SetActualCost(_) => CountNone("actual_cost", '?');
    case SetNotes(_) => CountNone("notes", '?');
    case SetJoined(c, _) =>
      match c
      case ActivityName => CountNone("activity_name", '?');
      case ActivityDescription => CountNone("activity_description", '?');
      case ActivityCategory => CountNone("activity_category", '?');
      case EstimatedCost => CountNone("estimated_cost", '?');
      case DurationHours => CountNone("duration_hours", '?');
  }

  /** SQLite accepts the statement exactly when there is at least one
      assignment and every key names a column of trip_activities. */
  predicate UpdateAccepted(us: seq<TripActivityUpdate>)
  {
    us != [] && forall i :: 0 <= i < |us| ==> !us[i].SetJoined?
  }

  /** With no keys the SET list is empty, which SQLite rejects. */
  lemma UpdateSetEmptyIffNoKeys(us: seq<TripActivityUpdate>)
    ensures SetFields(UpdateKeys(us)) == "" <==> us == []
  {
    SetFieldsEmpty(UpdateKeys(us));
  }

  /** One assignment applied to a row. */
  function ApplyUpdate(e: TripActivity, u: TripActivityUpdate): TripActivity
  {
    match u
    case SetScheduledDate(d) => e.(scheduledDate := d)
    case SetScheduledTime(t) => e.(scheduledTime := t)
    case SetActualCost(c) => e.(actualCost := c)
    case SetNotes(n) => e.(notes := n)
    case SetJoined(_, _) => e
  }

  /** All assignments applied in order. A joined column changes nothing
      here; UpdateAccepted rejects a statement that names one. */
  function ApplyUpdates(e: TripActivity, us: seq<TripActivityUpdate>): (r: TripActivity)
    ensures r.id == e.id && r.tripStopId == e.tripStopId && r.activityId == e.activityId
    ensures r.createdAt == e.createdAt
  {
    if us == [] then e else ApplyUpdate(ApplyUpdates(e, us[..|us| - 1]), us[|us| - 1])
  }

  /** The columns `updateTripActivity` may name: those of trip_activities,
      and the joined activity columns the page sends back. */
  datatype EntryColumn = ScheduledDateColumn | ScheduledTimeColumn | ActualCostColumn | NotesColumn
                       | JoinedActivityColumn(joined: JoinedColumn)

  function UpdateColumn(u: TripActivityUpdate): EntryColumn
  {
    match u
    case SetScheduledDate(_) => ScheduledDateColumn
    case SetScheduledTime(_) => ScheduledTimeColumn
    case SetActualCost(_) => ActualCostColumn
    case SetNotes(_) => NotesColumn
    case SetJoined(c, _) => JoinedActivityColumn(c)
  }

  /** The value a row holds in one of the columns of trip_activities, as
      SQLite stores it. */
  function EntryColumnValue(e: TripActivity, c: EntryColumn): SqlValue
    requires !c.JoinedActivityColumn?
  {
    match c
    case ScheduledDateColumn => TextOrNull(e.scheduledDate)
    case ScheduledTimeColumn => TextOrNull(e.scheduledTime)
    case ActualCostColumn => if e.actualCost.Some? then SqlInt(e.actualCost.value) else SqlNull
    case NotesColumn => TextOrNull(e.notes)
  }

  /** One assignment sets its column to its bound value and no other. */
  lemma ApplyUpdateColumn(e: TripActivity, u: TripActivityUpdate, c: EntryColumn)
    requires !c.JoinedActivityColumn?
    ensures EntryColumnValue(ApplyUpdate(e, u), c)
         == if UpdateColumn(u) == c then UpdateValue(u) else EntryColumnValue(e, c)
  {
  }

  /** No assignment of us names column c. */
  predicate EntryColumnUnassigned(us: seq<TripActivityUpdate>, c: EntryColumn)
  {
    forall i :: 0 <= i < |us| ==> UpdateColumn(us[i]) != c
  }

  /** us[i] is the last assignment of us naming column c. */
  predicate LastAssignsEntryColumn(us: seq<TripActivityUpdate>, i: int, c: EntryColumn)
  {
    0 <= i < |us| && UpdateColumn(us[i]) == c && forall j :: i < j < |us| ==> UpdateColumn(us[j]) != c
  }

  /** After the UPDATE a column no assignment names keeps its value. */
  lemma {:induction false} UnassignedEntryColumnKept(e: TripActivity, us: seq<TripActivityUpdate>, c: EntryColumn)
    requires !c.JoinedActivityColumn? && EntryColumnUnassigned(us, c)
    ensures EntryColumnValue(ApplyUpdates(e, us), c) == EntryColumnValue(e, c)
    decreases |us|
  {
    if us != [] {
      var n := |us| - 1;
      var init := us[..n];
      assert EntryColumnUnassigned(init, c);
      UnassignedEntryColumnKept(e, init, c);
      ApplyUpdateColumn(ApplyUpdates(e, init), us[n], c);
    }
  }

  /** After the UPDATE a column holds the value bound to the last assignment
      naming it: for a repeated column the rightmost assignment wins. */
  lemma {:induction false} LastEntryAssignmentWins(e: TripActivity, us: seq<TripActivityUpdate>, c: EntryColumn, i: int)
    requires !c.JoinedActivityColumn? && LastAssignsEntryColumn(us, i, c)
    ensures EntryColumnValue(ApplyUpdates(e, us), c) == UpdateValue(us[i])
    decreases |us|
  {
    var n := |us| - 1;
    var init := us[..n];
    ApplyUpdateColumn(ApplyUpdates(e, init), us[n], c);
    if i < n {
      assert LastAssignsEntryColumn(init, i, c);
      LastEntryAssignmentWins(e, init, c, i);
    }
  }

  /** The trip_activities table after the UPDATE: the row with that id
      changed, every other row as it was. */
  function UpdateEntries(entries: seq<TripActivity>, id: Id, us: seq<TripActivityUpdate>): (r: seq<TripActivity>)
    ensures |r| == |entries|
    ensures forall i :: 0 <= i < |entries| && entries[i].id != id ==> r[i] == entries[i]
    ensures forall i :: 0 <= i < |entries| && entries[i].id == id ==> r[i] == ApplyUpdates(entries[i], us)
  {
    seq(|entries|, i requires 0 <= i < |entries| =>
      if entries[i].id == id then ApplyUpdates(entries[i], us) else entries[i])
  }
}
