/** The community listing and the share link of lib/sharing.ts. */
module Sharing {
  import opened Wrappers
  import opened Seqs
  import opened Text
  import opened Sorting
  import opened Schema

  /** A row of the public listing. */
  datatype PublicTrip = PublicTrip(
    id: Id, name: string, description: Option<string>, startDate: string,
    endDate: string, userName: string, cityCount: nat, createdAt: nat)

  /** `WHERE t.is_public = 1` together with `JOIN users u ON t.user_id = u.id`:
      a public trip whose owner exists. */
  predicate Listed(t: Trip, users: seq<User>)
  {
    t.isPublic == 1 && LookupUser(users, t.userId).Some?
  }

  function ToPublic(t: Trip, db: Tables): PublicTrip
    requires Listed(t, db.users)
  {
    PublicTrip(t.id, t.name, t.description, t.startDate, t.endDate,
               LookupUser(db.users, t.userId).value.name, CityCount(db.stops, t.id), t.createdAt)
  }

  function ToPublicAll(trips: seq<Trip>, db: Tables): (r: seq<PublicTrip>)
    requires forall t :: t in trips ==> Listed(t, db.users)
    ensures |r| == |trips|
    ensures forall i :: 0 <= i < |trips| ==> r[i] == ToPublic(trips[i], db)
  {
    seq(|trips|, i requires 0 <= i < |trips| => ToPublic(trips[i], db))
  }

  /** The listed trips as listing rows, in table order. */
  function ListedRows(db: Tables): (r: seq<PublicTrip>)
    ensures forall x :: x in r <==> exists t :: t in db.trips && Listed(t, db.users) && x == ToPublic(t, db)
  {
    var listed := Filter(db.trips, Listed, db.users);
    var r := ToPublicAll(listed, db);
    assert forall t :: t in listed ==> exists i :: 0 <= i < |listed| && listed[i] == t && r[i] == ToPublic(t, db);
    r
  }

  predicate CreatedDesc(a: PublicTrip, b: PublicTrip)
  {
    a.createdAt >= b.createdAt
  }

  /** `getPublicTrips(limit = 20)`: the `limit` newest listed trips, newest
      first, each with its owner's name and stop count; [] on failure. */
  function GetPublicTrips(db: Tables, limit: Option<int>, fault: bool): (r: seq<PublicTrip>)
    ensures fault ==> r == []
    ensures !fault ==> TopN(r, ListedRows(db), limit.GetOr(20), CreatedDesc)
    ensures limit.None? ==> |r| <= 20
    ensures limit.Some? && limit.value >= 0 ==> |r| <= limit.value
    ensures forall x :: x in r ==> x in ListedRows(db)
    ensures Sorted(r, CreatedDesc)
    ensures !fault && |ListedRows(db)| <= limit.GetOr(20) ==> multiset(r) == multiset(ListedRows(db))
  {
    if fault then []
    else
      var rows := ListedRows(db);
      assert TotalPreorder(CreatedDesc);
      SortByCorrect(rows, CreatedDesc);
      SortByMembers(rows, CreatedDesc);
      LimitSortBy(rows, limit.GetOr(20), CreatedDesc);
      var sorted := SortBy(rows, CreatedDesc);
      var r := Limit(sorted, limit.GetOr(20));
      assert forall x :: x in r ==> x in sorted;
      r
  }

  /** Only public trips of existing users are listed, each with its owner's
      name and its stop count. */
  lemma PublicTripsListed(db: Tables, limit: Option<int>, fault: bool, x: PublicTrip)
    requires x in GetPublicTrips(db, limit, fault)
    ensures exists t ::
              && t in db.trips && t.isPublic == 1 && t.id == x.id
              && LookupUser(db.users, t.userId).Some?
              && x.userName == LookupUser(db.users, t.userId).value.name
              && x.cityCount == CityCount(db.stops, t.id)
  {
  }

  /** `LEFT JOIN trip_stops`: a trip without stops is still listed, with a
      count of 0. */
  lemma NoStopsCountsZero(stops: seq<TripStop>, tripId: Id)
    requires forall s :: s in stops ==> s.tripId != tripId
    ensures CityCount(stops, tripId) == 0
  {
    assert (set s | s in stops && s.tripId == tripId :: s.id) == {};
  }

  /** `generateShareUrl`: `${origin}/shared/${tripId}` in a browser, "" where
      there is no window (server rendering). */
  function GenerateShareUrl(origin: Option<string>, tripId: Id): (r: string)
    ensures origin.None? <==> r == ""
  {
    if origin.None? then "" else origin.value + "/shared/" + IntToString(tripId)
  }

  /** The shared-trip page reads its id back with `Number.parseInt` from the
      part of the path after `/shared/`. */
  lemma ShareUrlRoundTrip(origin: string, tripId: Id)
    ensures var url := GenerateShareUrl(Some(origin), tripId);
      |url| >= |origin| + 8 && url[..|origin| + 8] == origin + "/shared/"
      && ParseInt(url[|origin| + 8..]) == Some(tripId)
  {
    var url := GenerateShareUrl(Some(origin), tripId);
    assert url == (origin + "/shared/") + IntToString(tripId);
    assert url[|origin| + 8..] == IntToString(tripId);
    ParseIntToString(tripId);
  }
}
