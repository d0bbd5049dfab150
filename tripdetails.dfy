/** The GlobeTrotter trip page (client/src/pages/TripDetails.jsx): the total
    of the activity costs and the layout of one row per stop. The page reads
    the JSON of `GET /api/trips/:id`, whose `stops` and `activities` fields
    it treats as possibly missing. */
module TripDetails {
  import opened Wrappers
  import opened Seqs
  import opened Text
  import Curated
  import TripRoutes

  datatype StopJson = StopJson(id: nat, activities: Option<seq<TripRoutes.Activity>>)
  datatype TripJson = TripJson(stops: Option<seq<StopJson>>)

  function ToStopJson(v: TripRoutes.StopView): StopJson
  {
    StopJson(v.stop.id, Some(v.activities))
  }

  /** The response body of `GET /:id` as the page receives it. */
  function FromView(v: TripRoutes.TripView): (r: TripJson)
    ensures r.stops.Some? && |r.stops.value| == |v.stops|
    ensures forall i :: 0 <= i < |v.stops| ==> r.stops.value[i].activities == Some(v.stops[i].activities)
  {
    TripJson(Some(seq(|v.stops|, i requires 0 <= i < |v.stops| => ToStopJson(v.stops[i]))))
  }

  function CostOf(a: TripRoutes.Activity): int
  {
    a.cost
  }

  /** `act.cost` of every activity, in order. */
  function Costs(acts: seq<TripRoutes.Activity>): (r: seq<int>)
    ensures |r| == |acts|
    ensures forall i :: 0 <= i < |acts| ==> r[i] == acts[i].cost
  {
    MapAt(acts, CostOf);
    Map(acts, CostOf)
  }

  /** The inner `stop.activities.reduce((sum, act) => sum + act.cost, 0)`,
      taken as 0 for a stop without activities. */
  function StopSum(s: StopJson): int
  {
    if s.activities.Some? then Sum(Costs(s.activities.value)) else 0
  }

  /** All activities of the stops, stop by stop. */
  function AllActivities(stops: seq<StopJson>): seq<TripRoutes.Activity>
  {
    if stops == [] then []
    else
      var last := stops[|stops| - 1];
      AllActivities(stops[..|stops| - 1]) + (if last.activities.Some? then last.activities.value else [])
  }

  /** The outer reduce over the stops. Reading `.reduce` of a missing
      `activities` throws a TypeError, which nothing on the page catches. */
  function {:induction false} StopsTotal(stops: seq<StopJson>): (r: Result<int, string>)
    ensures r.Err? <==> exists s :: s in stops && s.activities.None?
    ensures r.Err? ==> r.error == "TypeError"
    ensures r.Ok? ==> r.value == Sum(Costs(AllActivities(stops)))
    ensures r.Ok? ==> r.value == Sum(Map(stops, StopSum))
  {
    if stops == [] then Ok(0)
    else
      var init, last := stops[..|stops| - 1], stops[|stops| - 1];
      assert stops == init + [last];
      var before := StopsTotal(init);
      if before.Err? then before
      else if last.activities.None? then Err("TypeError")
      else
        StopsTotalStep(init, last);
        Ok(before.value + Sum(Costs(last.activities.value)))
  }

  /** One more stop with activities adds its own sum to both totals. */
  lemma StopsTotalStep(init: seq<StopJson>, last: StopJson)
    requires last.activities.Some?
    ensures Sum(Costs(AllActivities(init + [last]))) == Sum(Costs(AllActivities(init))) + StopSum(last)
    ensures Sum(Map(init + [last], StopSum)) == Sum(Map(init, StopSum)) + StopSum(last)
  {
    var stops := init + [last];
    assert stops[..|stops| - 1] == init;
    MapAppend(AllActivities(init), last.activities.value, CostOf);
    SumAppend(Costs(AllActivities(init)), Costs(last.activities.value));
    SumAppend(Map(init, StopSum), [StopSum(last)]);
    SumSingleton(StopSum(last));
  }

  /** `totalCost`: 0 when the trip has no `stops` (`?.` then `|| 0`),
      otherwise the sum of every activity's cost. */
  function TotalCost(t: TripJson): (r: Result<int, string>)
    ensures t.stops.None? ==> r == Ok(0)
    ensures t.stops.Some? ==> r == StopsTotal(t.stops.value)
  {
    if t.stops.None? then Ok(0) else StopsTotal(t.stops.value)
  }

  /** A trip sent by the server never makes the total throw, and the total
      is the sum of the costs of the activities of all its stops. */
  lemma ServerTripTotal(v: TripRoutes.TripView)
    ensures TotalCost(FromView(v)).Ok?
    ensures TotalCost(FromView(v)).value == Sum(Costs(AllActivities(FromView(v).stops.value)))
  {
    var stops := FromView(v).stops.value;
    forall s | s in stops
      ensures s.activities.Some?
    {
      var i :| 0 <= i < |stops| && stops[i] == s;
    }
  }

  /** The order of the stops does not change the total. */
  lemma TotalIgnoresStopOrder(a: seq<StopJson>, b: seq<StopJson>)
    requires multiset(a) == multiset(b)
    ensures TotalCost(TripJson(Some(a))) == TotalCost(TripJson(Some(b)))
  {
    assert forall s :: s in a <==> s in b by {
      forall s
        ensures s in a <==> s in b
      {
        assert s in a <==> s in multiset(a);
        assert s in b <==> s in multiset(b);
      }
    }
    if StopsTotal(a).Ok? {
      MapMultiset(a, b, StopSum);
      SumPermutation(Map(a, StopSum), Map(b, StopSum));
    }
  }

  /** Reordering the activities of one stop does not change the total. */
  lemma TotalIgnoresActivityOrder(stops: seq<StopJson>, i: int, acts: seq<TripRoutes.Activity>)
    requires 0 <= i < |stops| && stops[i].activities.Some?
    requires multiset(acts) == multiset(stops[i].activities.value)
    ensures TotalCost(TripJson(Some(stops[i := StopJson(stops[i].id, Some(acts))])))
         == TotalCost(TripJson(Some(stops)))
  {
    var stops' := stops[i := StopJson(stops[i].id, Some(acts))];
    MapMultiset(acts, stops[i].activities.value, CostOf);
    SumPermutation(Costs(acts), Costs(stops[i].activities.value));
    assert StopSum(stops'[i]) == StopSum(stops[i]);
    forall s | s in stops'
      ensures s.activities.None? ==> exists u :: u in stops && u.activities.None?
    {
      var k :| 0 <= k < |stops'| && stops'[k] == s;
      if k != i {
        assert stops[k] == s;
      }
    }
    forall s | s in stops
      ensures s.activities.None? ==> exists u :: u in stops' && u.activities.None?
    {
      var k :| 0 <= k < |stops| && stops[k] == s;
      if k != i {
        assert stops'[k] == s;
      }
    }
    MapAt(stops', StopSum);
    MapAt(stops, StopSum);
    assert Map(stops', StopSum) == Map(stops, StopSum);
  }

  /** `activity.cost > 0 ? `$${activity.cost}` : 'Free'`. */
  function ExpenseLabel(cost: int): (r: string)
    ensures r == "Free" <==> !(cost > 0)
    ensures cost > 0 ==> |r| > 1 && r[0] == '$' && ParseInt(r[1..]) == Some(cost)
  {
    if cost > 0 then
      var r := "$" + IntToString(cost);
      ParseIntToString(cost);
      assert r[1..] == IntToString(cost);
      r
    else "Free"
  }

  /** `Day {index + 1}`. */
  function DayLabel(index: nat): (r: string)
    ensures |r| > 4 && r[..4] == "Day " && ParseInt(r[4..]) == Some(index + 1)
  {
    var digits := IntToString(index + 1);
    ParseIntToString(index + 1);
    var r := "Day " + digits;
    assert r[4..] == digits;
    r
  }

  /** An activity card: its image (or the generic travel image), its name
      and its type badge when it has a type. */
  datatype ActivityCard = ActivityCard(image: string, name: string, badge: Option<string>)

  function Card(a: TripRoutes.Activity): (c: ActivityCard)
    ensures c.name == a.name
    ensures a.imageUrl != "" ==> c.image == a.imageUrl
    ensures a.imageUrl == "" ==> c.image == Curated.CoverUrl(Curated.Generic)
    ensures c.badge.Some? <==> a.kind != ""
  {
    ActivityCard(if a.imageUrl != "" then a.imageUrl else Curated.CoverUrl(Curated.Generic), a.name,
                 if a.kind != "" then Some(a.kind) else None)
  }

  /** The block rendered for one stop. */
  datatype StopRow = StopRow(dayLabel: string, cards: seq<ActivityCard>, placeholder: bool,
                             expenses: seq<string>, connector: bool)

  function RowAt(stops: seq<StopJson>, index: nat): (r: StopRow)
    requires index < |stops|
    ensures r.dayLabel == DayLabel(index)
    ensures r.connector <==> index < |stops| - 1
    ensures r.placeholder <==> stops[index].activities.None? || stops[index].activities.value == []
    ensures stops[index].activities.None? ==> r.cards == [] && r.expenses == []
    ensures stops[index].activities.Some? ==>
      var acts := stops[index].activities.value;
      && |r.cards| == |acts| && |r.expenses| == |acts|
      && (forall k :: 0 <= k < |acts| ==> r.cards[k] == Card(acts[k]))
      && (forall k :: 0 <= k < |acts| ==> r.expenses[k] == ExpenseLabel(acts[k].cost))
  {
    var acts := stops[index].activities;
    StopRow(DayLabel(index),
            if acts.Some? then seq(|acts.value|, k requires 0 <= k < |acts.value| => Card(acts.value[k])) else [],
            acts.None? || acts.value == [],
            if acts.Some? then seq(|acts.value|, k requires 0 <= k < |acts.value| => ExpenseLabel(acts.value[k].cost)) else [],
            index < |stops| - 1)
  }

  /** `trip.stops?.map(...)`: one row per stop, none when `stops` is missing. */
  function Rows(t: TripJson): (r: seq<StopRow>)
    ensures t.stops.None? ==> r == []
    ensures t.stops.Some? ==> |r| == |t.stops.value|
    ensures t.stops.Some? ==> forall i :: 0 <= i < |r| ==> r[i] == RowAt(t.stops.value, i)
  {
    if t.stops.None? then []
    else seq(|t.stops.value|, i requires 0 <= i < |t.stops.value| => RowAt(t.stops.value, i))
  }

  function Connectors(rows: seq<StopRow>): nat
  {
    if rows == [] then 0 else Connectors(rows[..|rows| - 1]) + (if rows[|rows| - 1].connector then 1 else 0)
  }

  lemma {:induction false} ConnectorsAll(rows: seq<StopRow>)
    requires forall i :: 0 <= i < |rows| ==> rows[i].connector
    ensures Connectors(rows) == |rows|
    decreases |rows|
  {
    if rows != [] {
      ConnectorsAll(rows[..|rows| - 1]);
    }
  }

  /** A connector follows every stop but the last: n stops, n - 1 connectors. */
  lemma ConnectorCount(t: TripJson)
    requires t.stops.Some? && t.stops.value != []
    ensures Connectors(Rows(t)) == |t.stops.value| - 1
  {
    var rows := Rows(t);
    var n := |rows|;
    ConnectorsAll(rows[..n - 1]);
    assert rows[..n][..n - 1] == rows[..n - 1];
    assert rows[..n] == rows;
    assert !rows[n - 1].connector;
  }
}
