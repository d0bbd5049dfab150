/** The rows of the travel-planning application's SQLite tables (users,
    trips, trip_stops, cities, activities, trip_activities, trip_expenses),
    held in memory as sequences in insertion (rowid) order. A nullable column
    is an Option. Timestamps (created_at, updated_at) are ticks of the
    store's logical clock. Money is an integer amount. */
module Schema {
  import opened Wrappers
  import opened Seqs

  type Id = nat

  datatype User = User(
    id: Id, email: string, passwordHash: string, name: string,
    profilePhoto: Option<string>, createdAt: nat, updatedAt: nat)

  /** A users row without its password_hash column, as the auth functions
      hand it to callers. */
  datatype PublicUser = PublicUser(
    id: Id, email: string, name: string, profilePhoto: Option<string>,
    createdAt: nat, updatedAt: nat)

  datatype Trip = Trip(
    id: Id, userId: Id, name: string, description: Option<string>,
    startDate: string, endDate: string, coverPhoto: Option<string>,
    isPublic: int, createdAt: nat, updatedAt: nat)

  datatype City = City(
    id: Id, name: string, country: string, costIndex: int, popularity: int,
    imageUrl: Option<string>, description: Option<string>)

  datatype TripStop = TripStop(
    id: Id, tripId: Id, cityId: Id, arrivalDate: string, departureDate: string,
    stopOrder: int, notes: Option<string>, createdAt: nat)

  datatype Activity = Activity(
    id: Id, cityId: Id, name: string, description: Option<string>,
    category: Option<string>, estimatedCost: int, durationHours: Option<int>,
    imageUrl: Option<string>)

  datatype TripActivity = TripActivity(
    id: Id, tripStopId: Id, activityId: Id, scheduledDate: Option<string>,
    scheduledTime: Option<string>, actualCost: Option<int>, notes: Option<string>,
    createdAt: nat)

  datatype TripExpense = TripExpense(
    id: Id, tripId: Id, tripStopId: Option<Id>, category: string,
    description: string, amount: int, expenseDate: string)

  datatype Tables = Tables(
    users: seq<User>, trips: seq<Trip>, stops: seq<TripStop>, cities: seq<City>,
    activities: seq<Activity>, tripActivities: seq<TripActivity>,
    expenses: seq<TripExpense>)

  const EmptyTables := Tables([], [], [], [], [], [], [])

  /** JavaScript truthiness of an optional string: present and not "". */
  predicate Truthy(s: Option<string>)
  {
    s.Some? && s.value != ""
  }

  /** `s || null` on an optional string: undefined and "" are stored as NULL. */
  function NullIfFalsy(s: Option<string>): (r: Option<string>)
    ensures r.None? <==> !Truthy(s)
    ensures r.Some? ==> r == s
  {
    if Truthy(s) then s else None
  }

  /** `n || null` on an optional number: undefined and 0 are stored as NULL. */
  function NullIfZero(n: Option<int>): (r: Option<int>)
    ensures r.None? <==> (n.None? || n.value == 0)
    ensures r.Some? ==> r == n
  {
    if n.Some? && n.value != 0 then n else None
  }

  /** A rowid larger than every id in ids (SQLite: one more than the largest). */
  function NextId(ids: seq<Id>): (r: Id)
    ensures forall i :: 0 <= i < |ids| ==> ids[i] < r
    ensures r >= 1
  {
    if ids == [] then 1
    else
      var m := NextId(ids[..|ids| - 1]);
      if ids[|ids| - 1] + 1 > m then ids[|ids| - 1] + 1 else m
  }

  function UserIds(rows: seq<User>): (r: seq<Id>)
    ensures |r| == |rows| && forall i :: 0 <= i < |rows| ==> r[i] == rows[i].id
  {
    seq(|rows|, i requires 0 <= i < |rows| => rows[i].id)
  }
  function TripIds(rows: seq<Trip>): (r: seq<Id>)
    ensures |r| == |rows| && forall i :: 0 <= i < |rows| ==> r[i] == rows[i].id
  {
    seq(|rows|, i requires 0 <= i < |rows| => rows[i].id)
  }
  function StopIds(rows: seq<TripStop>): (r: seq<Id>)
    ensures |r| == |rows| && forall i :: 0 <= i < |rows| ==> r[i] == rows[i].id
  {
    seq(|rows|, i requires 0 <= i < |rows| => rows[i].id)
  }
  function TripActivityIds(rows: seq<TripActivity>): (r: seq<Id>)
    ensures |r| == |rows| && forall i :: 0 <= i < |rows| ==> r[i] == rows[i].id
  {
    seq(|rows|, i requires 0 <= i < |rows| => rows[i].id)
  }
  function ExpenseIds(rows: seq<TripExpense>): (r: seq<Id>)
    ensures |r| == |rows| && forall i :: 0 <= i < |rows| ==> r[i] == rows[i].id
  {
    seq(|rows|, i requires 0 <= i < |rows| => rows[i].id)
  }

  /** The row of a primary key: the first row carrying that id. */
  function LookupActivity(rows: seq<Activity>, id: Id): (r: Option<Activity>)
    ensures r.Some? ==> r.value in rows && r.value.id == id
    ensures r.None? ==> forall i :: 0 <= i < |rows| ==> rows[i].id != id
  {
    if rows == [] then None
    else if rows[0].id == id then Some(rows[0])
    else LookupActivity(rows[1..], id)
  }

  function LookupStop(rows: seq<TripStop>, id: Id): (r: Option<TripStop>)
    ensures r.Some? ==> r.value in rows && r.value.id == id
    ensures r.None? ==> forall i :: 0 <= i < |rows| ==> rows[i].id != id
  {
    if rows == [] then None
    else if rows[0].id == id then Some(rows[0])
    else LookupStop(rows[1..], id)
  }

  function LookupCity(rows: seq<City>, id: Id): (r: Option<City>)
    ensures r.Some? ==> r.value in rows && r.value.id == id
    ensures r.None? ==> forall i :: 0 <= i < |rows| ==> rows[i].id != id
  {
    if rows == [] then None
    else if rows[0].id == id then Some(rows[0])
    else LookupCity(rows[1..], id)
  }

  function LookupUser(rows: seq<User>, id: Id): (r: Option<User>)
    ensures r.Some? ==> r.value in rows && r.value.id == id
    ensures r.None? ==> forall i :: 0 <= i < |rows| ==> rows[i].id != id
  {
    if rows == [] then None
    else if rows[0].id == id then Some(rows[0])
    else LookupUser(rows[1..], id)
  }

  /** Rows kept by `DELETE FROM ... WHERE id = ?`. */
  predicate StopIdIsNot(s: TripStop, id: Id) { s.id != id }
  predicate TripIdIsNot(t: Trip, id: Id) { t.id != id }
  predicate TripActivityIdIsNot(a: TripActivity, id: Id) { a.id != id }

  /** Row filters of the WHERE clauses. */
  predicate StopOfTrip(s: TripStop, tripId: Id) { s.tripId == tripId }
  predicate TripOfUser(t: Trip, userId: Id) { t.userId == userId }
  predicate TripActivityOfStop(a: TripActivity, stopId: Id) { a.tripStopId == stopId }
  predicate ExpenseOfTrip(e: TripExpense, tripId: Id) { e.tripId == tripId }
  predicate UserWithEmail(u: User, email: string) { u.email == email }

  /** `COUNT(DISTINCT ts.id)` over the stops of a trip. */
  function CityCount(stops: seq<TripStop>, tripId: Id): nat
  {
    |set s | s in stops && s.tripId == tripId :: s.id|
  }
}
