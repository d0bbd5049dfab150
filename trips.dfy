/** The trip queries of lib/trips.ts and the rows its statements write. The
    statements themselves are methods of the Store class. */
module Trips {
  import opened Wrappers
  import opened Seqs
  import opened Text
  import opened Sorting
  import opened Schema
  import opened Sql
  import opened Itinerary

  predicate TripCreatedDesc(a: Trip, b: Trip)
  {
    a.createdAt >= b.createdAt
  }

  /** The row `createTrip` inserts: not public, NULL for an absent or empty
      cover photo. The description is stored as given. */
  function NewTrip(trips: seq<Trip>, userId: Id, name: string, description: string,
                   startDate: string, endDate: string, coverPhoto: Option<string>, now: nat): (r: Trip)
    ensures r.userId == userId && r.name == name && r.description == Some(description)
    ensures r.startDate == startDate && r.endDate == endDate
    ensures r.coverPhoto.None? <==> !Truthy(coverPhoto)
    ensures r.coverPhoto.Some? ==> r.coverPhoto == coverPhoto
    ensures r.isPublic == 0
    ensures forall i :: 0 <= i < |trips| ==> trips[i].id != r.id
    ensures r.createdAt == now && r.updatedAt == now
  {
    assert forall i :: 0 <= i < |trips| ==> TripIds(trips)[i] == trips[i].id;
    Trip(NextId(TripIds(trips)), userId, name, Some(description), startDate, endDate,
         NullIfFalsy(coverPhoto), 0, now, now)
  }

  /** `SELECT * FROM trips WHERE user_id = ? ORDER BY created_at DESC LIMIT 1`. */
  function LatestTrip(trips: seq<Trip>, userId: Id): (r: Option<Trip>)
    ensures r.None? <==> forall t :: t in trips ==> t.userId != userId
    ensures r.Some? ==> r.value in trips && r.value.userId == userId
    ensures r.Some? ==> forall t :: t in trips && t.userId == userId ==> t.createdAt <= r.value.createdAt
  {
    var mine := Filter(trips, TripOfUser, userId);
    assert TotalPreorder(TripCreatedDesc);
    SortByCorrect(mine, TripCreatedDesc);
    SortByMembers(mine, TripCreatedDesc);
    var top := Limit(SortBy(mine, TripCreatedDesc), 1);
    if top == [] then None else Some(top[0])
  }

  /** A trip created after every existing row is its user's latest. */
  lemma LatestTripIsNewest(trips: seq<Trip>, row: Trip)
    requires forall t :: t in trips ==> t.createdAt < row.createdAt
    ensures LatestTrip(trips + [row], row.userId) == Some(row)
  {
    var mine := Filter(trips + [row], TripOfUser, row.userId);
    assert TotalPreorder(TripCreatedDesc);
    SortByFirst(mine, TripCreatedDesc, row);
  }

  /** `getTripById`: the row with that id, or null (also on failure). */
  function GetTripById(trips: seq<Trip>, tripId: Id, fault: bool): (r: Option<Trip>)
    ensures fault ==> r.None?
    ensures r.Some? ==> r.value in trips && r.value.id == tripId
    ensures !fault && r.None? ==> forall t :: t in trips ==> t.id != tripId
  {
    var found := Filter(trips, TripIdIs, tripId);
    if fault || found == [] then None else Some(found[0])
  }

  predicate TripIdIs(t: Trip, id: Id)
  {
    t.id == id
  }

  /** A trip with its number of stops (`COUNT(DISTINCT ts.id)`). */
  datatype TripWithStats = TripWithStats(trip: Trip, cityCount: nat)

  function WithStats(t: Trip, stops: seq<TripStop>): TripWithStats
  {
    TripWithStats(t, CityCount(stops, t.id))
  }

  function AddStats(trips: seq<Trip>, stops: seq<TripStop>): (r: seq<TripWithStats>)
    ensures |r| == |trips|
    ensures forall i :: 0 <= i < |trips| ==> r[i] == WithStats(trips[i], stops)
  {
    seq(|trips|, i requires 0 <= i < |trips| => WithStats(trips[i], stops))
  }

  /** `getUserTrips`: the user's trips, newest first, each with its stop count;
      [] when the query fails. */
  function GetUserTrips(db: Tables, userId: Id, fault: bool): (r: seq<TripWithStats>)
    ensures fault ==> r == []
    ensures !fault ==> |r| == |Filter(db.trips, TripOfUser, userId)|
    ensures forall i :: 0 <= i < |r| ==>
              r[i].trip in db.trips && r[i].trip.userId == userId && r[i].cityCount == CityCount(db.stops, r[i].trip.id)
    ensures !fault ==> forall t :: t in db.trips && t.userId == userId ==> WithStats(t, db.stops) in r
    ensures forall i, j :: 0 <= i < j < |r| ==> r[i].trip.createdAt >= r[j].trip.createdAt
  {
    if fault then []
    else
      var mine := Filter(db.trips, TripOfUser, userId);
      assert TotalPreorder(TripCreatedDesc);
      SortByCorrect(mine, TripCreatedDesc);
      SortByMembers(mine, TripCreatedDesc);
      var sorted := SortBy(mine, TripCreatedDesc);
      var r := AddStats(sorted, db.stops);
      assert forall t :: t in sorted ==> exists i :: 0 <= i < |sorted| && sorted[i] == t && r[i] == WithStats(t, db.stops);
      r
  }

  /** `getPopularCities(limit = 6)`: the `limit` most popular cities, most
      popular first (every city when the limit is negative or not below
      their number). */
  function GetPopularCities(cities: seq<City>, limit: Option<int>, fault: bool): (r: seq<City>)
    ensures fault ==> r == []
    ensures !fault ==> TopN(r, cities, limit.GetOr(6), PopularityDesc)
    ensures limit.None? ==> |r| <= 6
    ensures limit.Some? && limit.value >= 0 ==> |r| <= limit.value
    ensures forall c :: c in r ==> c in cities
    ensures Sorted(r, PopularityDesc)
    ensures !fault && |cities| <= limit.GetOr(6) ==> multiset(r) == multiset(cities)
  {
    if fault then []
    else
      PopularityDescTotal();
      SortByCorrect(cities, PopularityDesc);
      SortByMembers(cities, PopularityDesc);
      LimitSortBy(cities, limit.GetOr(6), PopularityDesc);
      Limit(SortBy(cities, PopularityDesc), limit.GetOr(6))
  }

  /** The columns `updateTrip` may be given. */
  datatype TripUpdate =
    | SetName(name: string)
    | SetDescription(description: Option<string>)
    | SetStartDate(startDate: string)
    | SetEndDate(endDate: string)
    | SetCoverPhoto(coverPhoto: Option<string>)
    | SetIsPublic(isPublic: int)

  function TripUpdateKey(u: TripUpdate): string
  {
    match u
    case SetName(_) => "name"
    case SetDescription(_) => "description"
    case SetStartDate(_) => "start_date"
    case SetEndDate(_) => "end_date"
    case SetCoverPhoto(_) => "cover_photo"
    case SetIsPublic(_) => "is_public"
  }

  function TripUpdateValue(u: TripUpdate): SqlValue
  {
    match u
    case SetName(n) => SqlText(n)
    case SetDescription(d) => TextOrNull(d)
    case SetStartDate(d) => SqlText(d)
    case SetEndDate(d) => SqlText(d)
    case SetCoverPhoto(c) => TextOrNull(c)
    case SetIsPublic(p) => SqlInt(p)
  }

  function TripUpdateKeys(us: seq<TripUpdate>): (r: seq<string>)
    ensures |r| == |us| && forall i :: 0 <= i < |us| ==> r[i] == TripUpdateKey(us[i])
  {
    seq(|us|, i requires 0 <= i < |us| => TripUpdateKey(us[i]))
  }

  /** `[...values, tripId]`. */
  function TripUpdateParams(us: seq<TripUpdate>, id: Id): (r: seq<SqlValue>)
    ensures |r| == |us| + 1 && r[|us|] == SqlInt(id)
    ensures forall i :: 0 <= i < |us| ==> r[i] == TripUpdateValue(us[i])
  {
    seq(|us|, i requires 0 <= i < |us| => TripUpdateValue(us[i])) + [SqlInt(id)]
  }

  /** The statement `updateTrip` runs has |keys| + 1 placeholders, as many as
      the values it binds. */
  lemma UpdateTripPlaceholders(us: seq<TripUpdate>, id: Id)
    ensures Count(UpdateTripSql(TripUpdateKeys(us)), '?') == |us| + 1 == |TripUpdateParams(us, id)|
  {
    var keys := TripUpdateKeys(us);
    forall i | 0 <= i < |keys|
      ensures Count(keys[i], '?') == 0
    {
      TripUpdateKeyPlain(us[i]);
    }
    TripSqlPlaceholders(keys);
  }

  /** No column name holds a placeholder. */
  lemma TripUpdateKeyPlain(u: TripUpdate)
    ensures Count(TripUpdateKey(u), '?') == 0
  {
    match u
    case SetName(_) => CountNone("name", '?');
    case SetDescription(_) => CountNone("description", '?');
    case SetStartDate(_) => CountNone("start_date", '?');
    case SetEndDate(_) => CountNone("end_date", '?');
    case SetCoverPhoto(_) => CountNone("cover_photo", '?');
    case SetIsPublic(_) => CountNone("is_public", '?');
  }

  /** With no keys the statement reads `SET , updated_at = ...`, which SQLite
      rejects; so `updateTrip({})` fails. */
  lemma UpdateTripSetEmptyIffNoKeys(us: seq<TripUpdate>)
    ensures SetFields(TripUpdateKeys(us)) == "" <==> us == []
  {
    SetFieldsEmpty(TripUpdateKeys(us));
  }

  function ApplyTripUpdate(t: Trip, u: TripUpdate): Trip
  {
    match u
    case SetName(n) => t.(name := n)
    case SetDescription(d) => t.(description := d)
    case SetStartDate(d) => t.(startDate := d)
    case SetEndDate(d) => t.(endDate := d)
    case SetCoverPhoto(c) => t.(coverPhoto := c)
    case SetIsPublic(p) => t.(isPublic := p)
  }

  /** The columns `updateTrip` may assign. */
  datatype TripColumn = NameColumn | DescriptionColumn | StartDateColumn | EndDateColumn
                      | CoverPhotoColumn | IsPublicColumn

  function TripUpdateColumn(u: TripUpdate): TripColumn
  {
    match u
    case SetName(_) => NameColumn
    case SetDescription(_) => DescriptionColumn
    case SetStartDate(_) => StartDateColumn
    case SetEndDate(_) => EndDateColumn
    case SetCoverPhoto(_) => CoverPhotoColumn
    case SetIsPublic(_) => IsPublicColumn
  }

  /** The value a row holds in a column, as SQLite stores it. */
  function TripColumnValue(t: Trip, c: TripColumn): SqlValue
  {
    match c
    case NameColumn => SqlText(t.name)
    case DescriptionColumn => TextOrNull(t.description)
    case StartDateColumn => SqlText(t.startDate)
    case EndDateColumn => SqlText(t.endDate)
    case CoverPhotoColumn => TextOrNull(t.coverPhoto)
    case IsPublicColumn => SqlInt(t.isPublic)
  }

  /** One assignment sets its column to its bound value and no other. */
  lemma ApplyTripUpdateColumn(t: Trip, u: TripUpdate, c: TripColumn)
    ensures TripColumnValue(ApplyTripUpdate(t, u), c)
         == if TripUpdateColumn(u) == c then TripUpdateValue(u) else TripColumnValue(t, c)
  {
  }

  /** The assignments in order, then `updated_at = CURRENT_TIMESTAMP`. */
  function ApplyTripUpdates(t: Trip, us: seq<TripUpdate>, now: nat): (r: Trip)
    ensures r.id == t.id && r.userId == t.userId && r.createdAt == t.createdAt
    ensures r.updatedAt == now
  {
    if us == [] then t.(updatedAt := now)
    else ApplyTripUpdate(ApplyTripUpdates(t, us[..|us| - 1], now), us[|us| - 1])
  }

  /** No assignment of us names column c. */
  predicate TripColumnUnassigned(us: seq<TripUpdate>, c: TripColumn)
  {
    forall i :: 0 <= i < |us| ==> TripUpdateColumn(us[i]) != c
  }

  /** us[i] is the last assignment of us naming column c. */
  predicate LastAssignsTripColumn(us: seq<TripUpdate>, i: int, c: TripColumn)
  {
    0 <= i < |us| && TripUpdateColumn(us[i]) == c && forall j :: i < j < |us| ==> TripUpdateColumn(us[j]) != c
  }

  /** After the UPDATE a column no assignment names keeps its value. */
  lemma {:induction false} UnassignedTripColumnKept(t: Trip, us: seq<TripUpdate>, now: nat, c: TripColumn)
    requires TripColumnUnassigned(us, c)
    ensures TripColumnValue(ApplyTripUpdates(t, us, now), c) == TripColumnValue(t, c)
    decreases |us|
  {
    if us != [] {
      var n := |us| - 1;
      var init := us[..n];
      assert TripColumnUnassigned(init, c);
      UnassignedTripColumnKept(t, init, now, c);
      ApplyTripUpdateColumn(ApplyTripUpdates(t, init, now), us[n], c);
    }
  }

  /** After the UPDATE a column holds the value bound to the last assignment
      naming it: for a repeated column the rightmost assignment wins. */
  lemma {:induction false} LastTripAssignmentWins(t: Trip, us: seq<TripUpdate>, now: nat, c: TripColumn, i: int)
    requires LastAssignsTripColumn(us, i, c)
    ensures TripColumnValue(ApplyTripUpdates(t, us, now), c) == TripUpdateValue(us[i])
    decreases |us|
  {
    var n := |us| - 1;
    var init := us[..n];
    ApplyTripUpdateColumn(ApplyTripUpdates(t, init, now), us[n], c);
    if i < n {
      assert LastAssignsTripColumn(init, i, c);
      LastTripAssignmentWins(t, init, now, c, i);
    }
  }

  /** The trips table after the UPDATE: the row with that id changed, every
      other row as it was. */
  function UpdateTrips(trips: seq<Trip>, id: Id, us: seq<TripUpdate>, now: nat): (r: seq<Trip>)
    ensures |r| == |trips|
    ensures forall i :: 0 <= i < |trips| && trips[i].id != id ==> r[i] == trips[i]
    ensures forall i :: 0 <= i < |trips| && trips[i].id == id ==> r[i] == ApplyTripUpdates(trips[i], us, now)
  {
    seq(|trips|, i requires 0 <= i < |trips| =>
      if trips[i].id == id then ApplyTripUpdates(trips[i], us, now) else trips[i])
  }
}
