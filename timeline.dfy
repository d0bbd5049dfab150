/** The trip timeline of lib/timeline.ts: arrival and departure events for
    every stop, an event for every scheduled activity, then a stable sort by
    date and time. */
module Timeline {
  import opened Wrappers
  import opened Seqs
  import opened Text
  import opened Sorting
  import opened Schema
  import opened Itinerary

  datatype EventKind = Arrival | Departure | ActivityEvent

  /** A `TimelineEvent`; absent optional properties are None. */
  datatype Event = Event(
    id: int, kind: EventKind, date: string, time: Option<string>, title: string,
    description: Option<string>, city: Option<string>, cost: Option<int>,
    category: Option<string>)

  /** A row of the activity query: the entry joined with its catalog
      activity and the city of its stop. */
  datatype ActivityRow = ActivityRow(entry: TripActivity, activity: Activity, cityName: string)

  /** The joins of the activity query for one entry: its activity, its stop
      (which must belong to the trip) and the stop's city. */
  function RowOf(e: TripActivity, db: Tables, tripId: Id): (r: Option<ActivityRow>)
    ensures r.Some? ==> r.value.entry == e
  {
    var a := LookupActivity(db.activities, e.activityId);
    var s := LookupStop(db.stops, e.tripStopId);
    if a.None? || s.None? || s.value.tripId != tripId then None
    else
      var c := LookupCity(db.cities, s.value.cityId);
      if c.None? then None else Some(ActivityRow(e, a.value, c.value.name))
  }

  /** The three inner joins, in the order of the entries. */
  function JoinRows(entries: seq<TripActivity>, db: Tables, tripId: Id): (r: seq<ActivityRow>)
    ensures forall x :: x in r ==> x.entry in entries && RowOf(x.entry, db, tripId) == Some(x)
    ensures forall e :: e in entries && RowOf(e, db, tripId).Some? ==> RowOf(e, db, tripId).value in r
  {
    if entries == [] then []
    else
      var e := entries[|entries| - 1];
      assert forall x :: x in entries ==> x in entries[..|entries| - 1] || x == e;
      JoinRows(entries[..|entries| - 1], db, tripId) + (if RowOf(e, db, tripId).Some? then [RowOf(e, db, tripId).value] else [])
  }

  /** How often the activity query of a trip selects the row x: as often as
      the table holds x's entry when the entry joins into x; otherwise never. */
  function TripRowCount(db: Tables, tripId: Id, x: ActivityRow): nat
  {
    if RowOf(x.entry, db, tripId) == Some(x) then multiset(db.tripActivities)[x.entry] else 0
  }

  /** The join keeps every joinable entry as often as the table holds it. */
  lemma {:induction false} JoinRowsCount(entries: seq<TripActivity>, db: Tables, tripId: Id, x: ActivityRow)
    ensures multiset(JoinRows(entries, db, tripId))[x] ==
      if RowOf(x.entry, db, tripId) == Some(x) then multiset(entries)[x.entry] else 0
    decreases |entries|
  {
    if entries != [] {
      JoinRowsCount(entries[..|entries| - 1], db, tripId, x);
      SplitLast(entries);
    }
  }

  predicate RowScheduleLe(a: ActivityRow, b: ActivityRow)
  {
    ScheduleLe(a.entry, b.entry)
  }

  /** The activity query, ordered by (scheduled_date, scheduled_time). */
  function ActivityRows(db: Tables, tripId: Id): (r: seq<ActivityRow>)
    ensures forall x :: x in r ==> x.entry in db.tripActivities && RowOf(x.entry, db, tripId) == Some(x)
    ensures forall e :: e in db.tripActivities && RowOf(e, db, tripId).Some? ==> RowOf(e, db, tripId).value in r
    ensures forall x :: multiset(r)[x] == TripRowCount(db, tripId, x)
  {
    var rows := JoinRows(db.tripActivities, db, tripId);
    ScheduleLeTotal();
    SortByMembers(rows, RowScheduleLe);
    SortByCorrect(rows, RowScheduleLe);
    forall x
      ensures multiset(rows)[x] == TripRowCount(db, tripId, x)
    {
      JoinRowsCount(db.tripActivities, db, tripId, x);
    }
    SortBy(rows, RowScheduleLe)
  }

  /** The stop query: the trip's stops with their city, by stop order. */
  function StopRows(db: Tables, tripId: Id): seq<StopWithCity>
  {
    GetTripStops(db.stops, db.cities, tripId, false)
  }

  function ArrivalOf(s: StopWithCity): (r: Event)
    ensures r.id == s.stop.id * 1000 && r.kind == Arrival && r.date == s.stop.arrivalDate && r.time.None?
  {
    Event(s.stop.id * 1000, Arrival, s.stop.arrivalDate, None, "Arrive in " + s.cityName,
          Some(s.cityCountry), Some(s.cityName), None, None)
  }

  function DepartureOf(s: StopWithCity): (r: Event)
    ensures r.id == s.stop.id * 1000 + 1 && r.kind == Departure && r.date == s.stop.departureDate && r.time.None?
  {
    Event(s.stop.id * 1000 + 1, Departure, s.stop.departureDate, None, "Depart from " + s.cityName,
          Some(s.cityCountry), Some(s.cityName), None, None)
  }

  /** The event of a scheduled activity: its time only when truthy, and its
      cost `actual_cost || estimated_cost`, so an actual cost of 0 falls back
      to the estimate. */
  function EventOf(row: ActivityRow): (r: Event)
    requires Truthy(row.entry.scheduledDate)
    ensures r.id == row.entry.id && r.kind == ActivityEvent && r.date == row.entry.scheduledDate.value
    ensures r.time.Some? <==> Truthy(row.entry.scheduledTime)
    ensures r.cost.Some?
    ensures row.entry.actualCost.Some? && row.entry.actualCost.value != 0 ==> r.cost.value == row.entry.actualCost.value
    ensures row.entry.actualCost.None? || row.entry.actualCost.value == 0 ==> r.cost.value == row.activity.estimatedCost
  {
    var e := row.entry;
    var cost := if e.actualCost.Some? && e.actualCost.value != 0 then e.actualCost.value else row.activity.estimatedCost;
    Event(e.id, ActivityEvent, e.scheduledDate.value, NullIfFalsy(e.scheduledTime), row.activity.name,
          row.activity.description, Some(row.cityName), Some(cost), row.activity.category)
  }

  /** The events the first loop pushes: arrival then departure, stop by stop. */
  function StopEvents(stops: seq<StopWithCity>): (r: seq<Event>)
    ensures |r| == 2 * |stops|
  {
    if stops == [] then []
    else StopEvents(stops[..|stops| - 1]) + [ArrivalOf(stops[|stops| - 1]), DepartureOf(stops[|stops| - 1])]
  }

  /** The events the second loop pushes: one per row with a truthy date. */
  function ActivityEvents(rows: seq<ActivityRow>): seq<Event>
  {
    if rows == [] then []
    else
      var row := rows[|rows| - 1];
      ActivityEvents(rows[..|rows| - 1]) + (if Truthy(row.entry.scheduledDate) then [EventOf(row)] else [])
  }

  /** `a.time || "00:00"`. */
  function TimeKey(e: Event): string
  {
    if Truthy(e.time) then e.time.value else "00:00"
  }

  /** The comparator: date first, then time. */
  predicate EventLe(a: Event, b: Event)
  {
    if a.date != b.date then LexLe(a.date, b.date) else LexLe(TimeKey(a), TimeKey(b))
  }

  lemma EventLeTotal()
    ensures TotalPreorder(EventLe)
  {
    forall a, b
      ensures EventLe(a, b) || EventLe(b, a)
    {
      LexLeTotal(a.date, b.date);
      LexLeTotal(TimeKey(a), TimeKey(b));
    }
    forall a, b, c | EventLe(a, b) && EventLe(b, c)
      ensures EventLe(a, c)
    {
      if a.date == b.date && b.date == c.date {
        LexLeTransitive(TimeKey(a), TimeKey(b), TimeKey(c));
      } else if a.date != b.date && b.date != c.date {
        LexLeTransitive(a.date, b.date, c.date);
        if a.date == c.date {
          LexLeAntisymmetric(a.date, b.date);
        }
      }
    }
  }

  /** `getTripTimeline` as a value: [] when a query fails. */
  function TimelineOf(db: Tables, tripId: Id, fault: bool): (r: seq<Event>)
    ensures fault ==> r == []
    ensures Sorted(r, EventLe)
    ensures !fault ==> |r| == |StopEvents(StopRows(db, tripId))| + |ActivityEvents(ActivityRows(db, tripId))|
  {
    EventLeTotal();
    SortByCorrect(StopEvents(StopRows(db, tripId)) + ActivityEvents(ActivityRows(db, tripId)), EventLe);
    if fault then []
    else SortBy(StopEvents(StopRows(db, tripId)) + ActivityEvents(ActivityRows(db, tripId)), EventLe)
  }

  /** The first loop: push the arrival and the departure of every stop. */
  method PushStopEvents(stops: seq<StopWithCity>) returns (events: seq<Event>)
    ensures events == StopEvents(stops)
  {
    events := [];
    var i := 0;
    while i < |stops|
      invariant 0 <= i <= |stops|
      invariant events == StopEvents(stops[..i])
    {
      assert stops[..i + 1][..i] == stops[..i];
      events := events + [ArrivalOf(stops[i])];
      events := events + [DepartureOf(stops[i])];
      i := i + 1;
    }
    assert stops[..i] == stops;
  }

  /** The second loop: push an event for every row with a scheduled date. */
  method PushActivityEvents(start: seq<Event>, rows: seq<ActivityRow>) returns (events: seq<Event>)
    ensures events == start + ActivityEvents(rows)
  {
    events := start;
    var j := 0;
    while j < |rows|
      invariant 0 <= j <= |rows|
      invariant events == start + ActivityEvents(rows[..j])
    {
      assert rows[..j + 1][..j] == rows[..j];
      if Truthy(rows[j].entry.scheduledDate) {
        events := events + [EventOf(rows[j])];
      }
      j := j + 1;
    }
    assert rows[..j] == rows;
  }

  /** `getTripTimeline`: the two queries, the two loops, then the sort. */
  method GetTripTimeline(db: Tables, tripId: Id, fault: bool) returns (events: seq<Event>)
    ensures events == TimelineOf(db, tripId, fault)
  {
    if fault {
      return [];
    }
    var stops := StopRows(db, tripId);
    var rows := ActivityRows(db, tripId);
    events := PushStopEvents(stops);
    events := PushActivityEvents(events, rows);
    events := SortBy(events, EventLe);
  }

  /** Whether the row's activity has a scheduled date is `dated`; the rows
      that get an event are `Filter(rows, Dated, true)`. */
  predicate Dated(row: ActivityRow, dated: bool)
  {
    Truthy(row.entry.scheduledDate) == dated
  }

  lemma {:induction false} ActivityEventsLength(rows: seq<ActivityRow>)
    ensures |ActivityEvents(rows)| == |Filter(rows, Dated, true)|
    decreases |rows|
  {
    if rows != [] {
      ActivityEventsLength(rows[..|rows| - 1]);
    }
  }

  /** The timeline holds exactly the built events, in date and time order,
      two per stop and one per activity with a scheduled date. */
  lemma TimelineContents(db: Tables, tripId: Id)
    ensures var built := StopEvents(StopRows(db, tripId)) + ActivityEvents(ActivityRows(db, tripId));
      && multiset(TimelineOf(db, tripId, false)) == multiset(built)
      && Sorted(TimelineOf(db, tripId, false), EventLe)
      && |TimelineOf(db, tripId, false)| == 2 * |StopRows(db, tripId)| + |Filter(ActivityRows(db, tripId), Dated, true)|
  {
    var built := StopEvents(StopRows(db, tripId)) + ActivityEvents(ActivityRows(db, tripId));
    EventLeTotal();
    SortByCorrect(built, EventLe);
    ActivityEventsLength(ActivityRows(db, tripId));
  }

  /** The sort is stable: among events with equal (date, time) keys, stop
      events keep their order and come before activity events. */
  lemma TimelineStable(db: Tables, tripId: Id, k: Event)
    ensures TiedWith(TimelineOf(db, tripId, false), k, EventLe)
            == TiedWith(StopEvents(StopRows(db, tripId)), k, EventLe)
               + TiedWith(ActivityEvents(ActivityRows(db, tripId)), k, EventLe)
  {
    var a := StopEvents(StopRows(db, tripId));
    var b := ActivityEvents(ActivityRows(db, tripId));
    EventLeTotal();
    SortByStable(a + b, k, EventLe);
    TiedWithAppend(a, b, k, EventLe);
  }

  /** Stop i contributes its arrival at position 2i and its departure right
      after it, so with equal dates the arrival sorts first. */
  lemma {:induction false} StopEventsAt(stops: seq<StopWithCity>, i: int)
    requires 0 <= i < |stops|
    ensures StopEvents(stops)[2 * i] == ArrivalOf(stops[i])
    ensures StopEvents(stops)[2 * i + 1] == DepartureOf(stops[i])
    decreases |stops|
  {
    if i < |stops| - 1 {
      StopEventsAt(stops[..|stops| - 1], i);
    }
  }

  /** Arrival and departure ids of stops with distinct ids are pairwise
      distinct. */
  lemma StopEventIdsDistinct(stops: seq<StopWithCity>, i: int, j: int)
    requires forall p, q :: 0 <= p < q < |stops| ==> stops[p].stop.id != stops[q].stop.id
    requires 0 <= i < j < |StopEvents(stops)|
    ensures StopEvents(stops)[i].id != StopEvents(stops)[j].id
  {
    StopEventsAt(stops, i / 2);
    StopEventsAt(stops, j / 2);
    var a := stops[i / 2].stop.id;
    var b := stops[j / 2].stop.id;
    if i / 2 != j / 2 {
      assert a != b;
      if a < b {
        assert a * 1000 + 1 < b * 1000;
      } else {
        assert b * 1000 + 1 < a * 1000;
      }
    }
  }

  /** Every activity event of the timeline carries the cost rule: the actual
      cost when it is set and non-zero, else the catalog estimate. */
  lemma {:induction false} ActivityEventCosts(rows: seq<ActivityRow>, ev: Event)
    requires ev in ActivityEvents(rows)
    ensures exists row :: row in rows && Truthy(row.entry.scheduledDate) && ev == EventOf(row)
    decreases |rows|
  {
    var init := rows[..|rows| - 1];
    if ev in ActivityEvents(init) {
      ActivityEventCosts(init, ev);
      var row :| row in init && Truthy(row.entry.scheduledDate) && ev == EventOf(row);
      assert row in rows;
    }
  }
}
