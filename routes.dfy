/** The GlobeTrotter trip routes (server/routes/trips.js): bearer-token
    authentication, trip creation with its first stop and suggested
    activities, and the owner check in front of reading and deleting a trip.
    The Prisma client is a class holding one sequence per table. */
module TripRoutes {
  import opened Wrappers
  import opened Seqs
  import opened Text
  import opened Sorting
  import Schema
  import opened Curated

  datatype Claims = Claims(userId: nat)

  /** The outcome of `authenticateToken`. */
  datatype AuthOutcome = Unauthorized | Forbidden | Authenticated(claims: Claims)

  /** `authHeader && authHeader.split(' ')[1]`, with every falsy value as None. */
  function ExtractToken(header: Option<string>): (r: Option<string>)
    ensures r.Some? ==> r.value != "" && forall j :: 0 <= j < |r.value| ==> r.value[j] != ' '
    ensures header.None? ==> r.None?
  {
    if header.None? || header.value == "" then None
    else
      var words := Split(header.value, ' ');
      SplitPiecesFree(header.value, ' ');
      if |words| < 2 || words[1] == "" then None else Some(words[1])
  }

  /** The token is the word after the scheme: `Authorization: Bearer <token>`. */
  lemma BearerToken(scheme: string, token: string)
    requires forall j :: 0 <= j < |scheme| ==> scheme[j] != ' '
    requires token != "" && forall j :: 0 <= j < |token| ==> token[j] != ' '
    ensures ExtractToken(Some(scheme + " " + token)) == Some(token)
  {
    SplitAfterWord(scheme, ' ', token);
    SplitNoSeparator(token, ' ');
    assert scheme + " " + token == scheme + [' '] + token;
  }

  /** A header of one word (a bare token without a scheme) carries no token. */
  lemma OneWordNoToken(header: string)
    requires forall j :: 0 <= j < |header| ==> header[j] != ' '
    ensures ExtractToken(Some(header)) == None
  {
    SplitNoSeparator(header, ' ');
  }

  /** `authenticateToken`: 401 without a token, 403 when `jwt.verify` (a
      parameter here) rejects it, otherwise the token's claims. */
  function Authenticate(header: Option<string>, verify: string -> Option<Claims>): (r: AuthOutcome)
    ensures r == Unauthorized <==> ExtractToken(header).None?
    ensures r == Forbidden <==> ExtractToken(header).Some? && verify(ExtractToken(header).value).None?
    ensures r.Authenticated? ==> Some(r.claims) == verify(ExtractToken(header).value)
  {
    match ExtractToken(header)
    case None => Unauthorized
    case Some(token) =>
      match verify(token)
      case None => Forbidden
      case Some(claims) => Authenticated(claims)
  }

  datatype Trip = Trip(id: nat, userId: nat, name: string, startDate: string, endDate: string,
                       description: string, coverImage: string)
  datatype City = City(id: nat, name: string, country: string, costIndex: int)
  datatype Stop = Stop(id: nat, tripId: nat, cityId: nat, arrivalDate: string, departureDate: string, order: int)
  datatype Activity = Activity(id: nat, stopId: nat, name: string, cost: int, kind: string,
                               imageUrl: string, status: string)

  /** The JSON body of `POST /`; its `coverImage` field is read but never used. */
  datatype TripRequest = TripRequest(name: Option<string>, startDate: Option<string>, endDate: Option<string>,
                                     description: Option<string>, coverImage: Option<string>,
                                     location: Option<string>)

  /** A stop as `GET /:id` returns it, with its activities and its city. */
  datatype StopView = StopView(stop: Stop, activities: seq<Activity>, city: Option<City>)
  datatype TripView = TripView(trip: Trip, stops: seq<StopView>)

  datatype Body = TripJson(trip: Trip) | TripViewJson(view: TripView) | ErrorJson(error: string)
                | MessageJson(message: string) | StatusOnly
  datatype Response = Response(status: int, body: Body)

  /** The response of a request `authenticateToken` stops. */
  function Denied(a: AuthOutcome): (r: Response)
    requires !a.Authenticated?
    ensures r.status == (if a == Unauthorized then 401 else 403)
  {
    Response(if a == Unauthorized then 401 else 403, StatusOnly)
  }

  /** `!name || !startDate || !endDate` fails. */
  predicate HasRequiredFields(b: TripRequest)
  {
    Schema.Truthy(b.name) && Schema.Truthy(b.startDate) && Schema.Truthy(b.endDate)
  }

  /** The row `prisma.trip.create` stores for a valid request with a location. */
  function NewTrip(id: nat, userId: nat, b: TripRequest): (t: Trip)
    requires HasRequiredFields(b) && b.location.Some?
    ensures t.id == id && t.userId == userId
    ensures t.name == b.name.value && t.startDate == b.startDate.value && t.endDate == b.endDate.value
    ensures Schema.Truthy(b.description) ==> t.description == b.description.value
    ensures !Schema.Truthy(b.description) ==> t.description == "Trip to " + b.location.value
    ensures Ok(t.coverImage) == GetCoverImage(b.location)
  {
    Trip(id, userId, b.name.value, b.startDate.value, b.endDate.value,
         if Schema.Truthy(b.description) then b.description.value else "Trip to " + b.location.value,
         CoverUrl(RegionOf(b.location.value)))
  }

  /** `prisma.city.findFirst({ where: { name } })`: the first city with that
      exact name. */
  function FindCityByName(cities: seq<City>, name: string): (r: Option<City>)
    ensures r.Some? ==> r.value in cities && r.value.name == name
    ensures r.None? ==> forall c :: c in cities ==> c.name != name
  {
    if cities == [] then None
    else if cities[0].name == name then Some(cities[0])
    else FindCityByName(cities[1..], name)
  }

  /** The `'planned'` activity row created for a suggestion. */
  function Planned(id: nat, stopId: nat, s: Suggestion): (a: Activity)
    ensures a.id == id && a.stopId == stopId && a.status == "planned"
    ensures a.name == s.name && a.cost == s.cost && a.kind == s.kind && a.imageUrl == s.imageUrl
  {
    Activity(id, stopId, s.name, s.cost, s.kind, s.imageUrl, "planned")
  }

  /** The rows created for a list of suggestions, with consecutive ids. */
  function PlannedAll(firstId: nat, stopId: nat, ss: seq<Suggestion>): (r: seq<Activity>)
    ensures |r| == |ss|
    ensures forall i :: 0 <= i < |ss| ==> r[i] == Planned(firstId + i, stopId, ss[i])
  {
    seq(|ss|, i requires 0 <= i < |ss| => Planned(firstId + i, stopId, ss[i]))
  }

  /** `findUnique({ where: { id } })` and the `city` relation of a stop: the
      row whose key is `id`. */
  function FindUnique<T>(rows: seq<T>, key: T -> nat, id: nat): (r: Option<T>)
    ensures r.Some? ==> r.value in rows && key(r.value) == id
    ensures r.None? ==> forall x :: x in rows ==> key(x) != id
  {
    if rows == [] then None
    else if key(rows[0]) == id then Some(rows[0])
    else FindUnique(rows[1..], key, id)
  }

  function TripKey(t: Trip): nat { t.id }

  function CityKey(c: City): nat { c.id }

  /** The 404/403 check that `GET /:id` and `DELETE /:id` make before acting. */
  datatype Gate = NotFound | NotOwner | Owner(trip: Trip)

  function OwnerGate(trips: seq<Trip>, id: nat, caller: nat): (g: Gate)
    ensures g == NotFound <==> forall t :: t in trips ==> t.id != id
    ensures g.NotOwner? ==> exists t :: t in trips && t.id == id && t.userId != caller
    ensures g.Owner? ==> g.trip in trips && g.trip.id == id && g.trip.userId == caller
  {
    match FindUnique(trips, TripKey, id)
    case None => NotFound
    case Some(t) => if t.userId != caller then NotOwner else Owner(t)
  }

  /** The response for a gate that does not let the request through. */
  function GateResponse(g: Gate): (r: Response)
    requires !g.Owner?
    ensures r.status == (if g == NotFound then 404 else 403)
  {
    if g == NotFound then Response(404, ErrorJson("Trip not found")) else Response(403, ErrorJson("Unauthorized"))
  }

  predicate StopOfTrip(s: Stop, tripId: nat)
  {
    s.tripId == tripId
  }

  predicate ActivityOfStop(a: Activity, stopId: nat)
  {
    a.stopId == stopId
  }

  predicate OrderAsc(a: StopView, b: StopView)
  {
    a.stop.order <= b.stop.order
  }

  lemma OrderAscTotal()
    ensures TotalPreorder(OrderAsc)
  {
  }

  function ViewStop(s: Stop, activities: seq<Activity>, cities: seq<City>): (v: StopView)
    ensures v.stop == s
    ensures forall a :: a in v.activities <==> a in activities && a.stopId == s.id
  {
    StopView(s, Filter(activities, ActivityOfStop, s.id), FindUnique(cities, CityKey, s.cityId))
  }

  /** `include: { stops: { include: { activities, city }, orderBy: { order: 'asc' } } }`. */
  function ViewTrip(t: Trip, stops: seq<Stop>, activities: seq<Activity>, cities: seq<City>): (v: TripView)
    ensures v.trip == t
    ensures |v.stops| == |Filter(stops, StopOfTrip, t.id)|
    ensures Sorted(v.stops, OrderAsc)
    ensures forall sv :: sv in v.stops ==> sv == ViewStop(sv.stop, activities, cities) && sv.stop in stops && sv.stop.tripId == t.id
    ensures forall s :: s in stops && s.tripId == t.id ==> ViewStop(s, activities, cities) in v.stops
    ensures multiset(Map(v.stops, StopOf)) == multiset(Filter(stops, StopOfTrip, t.id))
  {
    var own := Filter(stops, StopOfTrip, t.id);
    var views := StopViews(own, activities, cities);
    SortedViews(views);
    SortedStops(own, views);
    TripView(t, SortBy(views, OrderAsc))
  }

  function StopOf(sv: StopView): Stop
  {
    sv.stop
  }

  /** The views list the stops they were built from, one for one. */
  lemma ViewedStops(own: seq<Stop>, views: seq<StopView>)
    requires |views| == |own|
    requires forall i :: 0 <= i < |own| ==> views[i].stop == own[i]
    ensures Map(views, StopOf) == own
  {
    MapAt(views, StopOf);
  }

  /** Sorting views built one for one from `own` keeps exactly the stops of
      `own`, with their multiplicities. */
  lemma SortedStops(own: seq<Stop>, views: seq<StopView>)
    requires |views| == |own|
    requires forall i :: 0 <= i < |own| ==> views[i].stop == own[i]
    ensures multiset(Map(SortBy(views, OrderAsc), StopOf)) == multiset(own)
  {
    OrderAscTotal();
    SortByCorrect(views, OrderAsc);
    ViewedStops(own, views);
    MapMultiset(SortBy(views, OrderAsc), views, StopOf);
  }

  /** One view per stop, in the stops' order. */
  function StopViews(own: seq<Stop>, activities: seq<Activity>, cities: seq<City>): (r: seq<StopView>)
    ensures |r| == |own|
    ensures forall i :: 0 <= i < |own| ==> r[i].stop == own[i]
    ensures forall s :: s in own ==> ViewStop(s, activities, cities) in r
    ensures forall sv :: sv in r ==> sv == ViewStop(sv.stop, activities, cities) && sv.stop in own
  {
    var views := seq(|own|, i requires 0 <= i < |own| => ViewStop(own[i], activities, cities));
    assert forall s :: s in own ==> ViewStop(s, activities, cities) in views by {
      forall s | s in own
        ensures ViewStop(s, activities, cities) in views
      {
        var i :| 0 <= i < |own| && own[i] == s;
        assert views[i] == ViewStop(s, activities, cities);
      }
    }
    views
  }

  /** Sorting the views by order keeps exactly the same views. */
  lemma SortedViews(views: seq<StopView>)
    ensures Sorted(SortBy(views, OrderAsc), OrderAsc)
    ensures |SortBy(views, OrderAsc)| == |views|
    ensures forall sv :: sv in SortBy(views, OrderAsc) <==> sv in views
  {
    OrderAscTotal();
    SortByCorrect(views, OrderAsc);
    SortByMembers(views, OrderAsc);
  }

  predicate TripIdIsNot(t: Trip, id: nat)
  {
    t.id != id
  }

  predicate StopNotOfTrip(s: Stop, tripId: nat)
  {
    s.tripId != tripId
  }

  predicate ActivityNotOfStops(a: Activity, stopIds: set<nat>)
  {
    a.stopId !in stopIds
  }

  function StopIdsOf(stops: seq<Stop>, tripId: nat): (r: set<nat>)
    ensures forall id :: id in r <==> exists s :: s in stops && s.tripId == tripId && s.id == id
  {
    set s | s in stops && s.tripId == tripId :: s.id
  }

  class Prisma {
    var trips: seq<Trip>
    var cities: seq<City>
    var stops: seq<Stop>
    var activities: seq<Activity>
    /** Stands for the database's id generator. */
    var nextId: nat

    /** Every stored id was issued before `nextId`, so `nextId` is fresh. */
    ghost predicate Valid()
      reads this
    {
      && (forall t :: t in trips ==> t.id < nextId)
      && (forall c :: c in cities ==> c.id < nextId)
      && (forall s :: s in stops ==> s.id < nextId)
      && (forall a :: a in activities ==> a.id < nextId)
      && (forall u, v :: u in trips && v in trips && u.id == v.id ==> u == v)
    }

    constructor()
      ensures Valid()
      ensures cities == [] && trips == [] && stops == [] && activities == []
    {
      cities := [];
      trips := [];
      stops := [];
      activities := [];
      nextId := 1;
    }

    /** `prisma.trip.create`. */
    method InsertTrip(t: Trip)
      requires Valid() && t.id == nextId
      modifies this
      ensures Valid()
      ensures trips == old(trips) + [t] && nextId == old(nextId) + 1
      ensures cities == old(cities) && stops == old(stops) && activities == old(activities)
    {
      trips := trips + [t];
      nextId := nextId + 1;
    }

    /** Reuses the city named `name`, or creates it with country "Unknown". */
    method FindOrCreateCity(name: string) returns (city: City)
      requires Valid()
      modifies this
      ensures Valid()
      ensures city in cities && city.name == name
      ensures FindCityByName(old(cities), name).Some? ==>
        city == FindCityByName(old(cities), name).value && cities == old(cities) && nextId == old(nextId)
      ensures FindCityByName(old(cities), name).None? ==>
        city == City(old(nextId), name, "Unknown", 1) && cities == old(cities) + [city] && nextId == old(nextId) + 1
      ensures trips == old(trips) && stops == old(stops) && activities == old(activities)
    {
      var found := FindCityByName(cities, name);
      if found.Some? {
        return found.value;
      }
      city := City(nextId, name, "Unknown", 1);
      cities := cities + [city];
      nextId := nextId + 1;
    }

    /** `prisma.stop.create`. */
    method InsertStop(s: Stop)
      requires Valid() && s.id == nextId
      modifies this
      ensures Valid()
      ensures stops == old(stops) + [s] && nextId == old(nextId) + 1
      ensures trips == old(trips) && cities == old(cities) && activities == old(activities)
    {
      stops := stops + [s];
      nextId := nextId + 1;
    }

    /** The `for (const act of activities)` loop creating one row per suggestion. */
    method InsertPlanned(stopId: nat, ss: seq<Suggestion>)
      requires Valid()
      modifies this
      ensures Valid()
      ensures activities == old(activities) + PlannedAll(old(nextId), stopId, ss)
      ensures nextId == old(nextId) + |ss|
      ensures trips == old(trips) && cities == old(cities) && stops == old(stops)
    {
      ghost var first := nextId;
      for i := 0 to |ss|
        invariant Valid()
        invariant nextId == first + i
        invariant activities == old(activities) + PlannedAll(first, stopId, ss[..i])
        invariant trips == old(trips) && cities == old(cities) && stops == old(stops)
      {
        var a := Planned(nextId, stopId, ss[i]);
        activities := activities + [a];
        nextId := nextId + 1;
        assert PlannedAll(first, stopId, ss[..i + 1]) == PlannedAll(first, stopId, ss[..i]) + [a];
      }
      assert ss[..|ss|] == ss;
    }

    /** `POST /`. */
    method CreateTripRoute(header: Option<string>, verify: string -> Option<Claims>, b: TripRequest)
      returns (res: Response, ghost suggested: seq<Suggestion>)
      requires Valid()
      modifies this
      ensures Valid()
      ensures !Authenticate(header, verify).Authenticated? ==>
        res == Denied(Authenticate(header, verify)) && unchanged(this)
      ensures Authenticate(header, verify).Authenticated? && !HasRequiredFields(b) ==>
        res == Response(400, ErrorJson("Name and dates are required")) && unchanged(this)
      ensures Authenticate(header, verify).Authenticated? && HasRequiredFields(b) && b.location.None? ==>
        res == Response(500, ErrorJson("Failed to create trip")) && unchanged(this)
      ensures Authenticate(header, verify).Authenticated? && HasRequiredFields(b) && b.location.Some? ==>
        var t := NewTrip(old(nextId), Authenticate(header, verify).claims.userId, b);
        && res == Response(201, TripJson(t))
        && trips == old(trips) + [t]
        && (!Schema.Truthy(b.location) ==>
              cities == old(cities) && stops == old(stops) && activities == old(activities))
        && (Schema.Truthy(b.location) ==>
              FirstStopCreated(old(cities), old(stops), old(activities), old(nextId) + 1, b, t, suggested))
    {
      suggested := [];
      var auth := Authenticate(header, verify);
      if !auth.Authenticated? {
        return Denied(auth), suggested;
      }
      if !HasRequiredFields(b) {
        return Response(400, ErrorJson("Name and dates are required")), suggested;
      }
      var cover := GetCoverImage(b.location);
      if cover.Err? {
        return Response(500, ErrorJson("Failed to create trip")), suggested;
      }
      var t := NewTrip(nextId, auth.claims.userId, b);
      InsertTrip(t);
      if Schema.Truthy(b.location) {
        suggested := CreateFirstStop(b, t);
      }
      res := Response(201, TripJson(t));
    }

    /** The `if (location)` block: the named city (reused or created), one
        stop of order 1 spanning the trip's dates, and one planned activity
        per suggestion. */
    method CreateFirstStop(b: TripRequest, t: Trip) returns (ghost suggested: seq<Suggestion>)
      requires Valid() && Schema.Truthy(b.location) && HasRequiredFields(b)
      modifies this
      ensures Valid()
      ensures FirstStopCreated(old(cities), old(stops), old(activities), old(nextId), b, t, suggested)
      ensures trips == old(trips)
    {
      var location := b.location.value;
      var city := FindOrCreateCity(location);
      var s := Stop(nextId, t.id, city.id, b.startDate.value, b.endDate.value, 1);
      InsertStop(s);
      var picks := GetRandomTopActivities(location);
      InsertPlanned(s.id, picks);
      suggested := picks;
    }

    /** The tables after the `if (location)` block, given the tables before
        it and the first id it hands out. */
    ghost predicate FirstStopCreated(oldCities: seq<City>, oldStops: seq<Stop>, oldActivities: seq<Activity>,
                                     firstId: nat, b: TripRequest, t: Trip, suggested: seq<Suggestion>)
      requires Schema.Truthy(b.location) && HasRequiredFields(b)
      reads this
    {
      var location := b.location.value;
      var found := FindCityByName(oldCities, location);
      var cityId := if found.Some? then found.value.id else firstId;
      var stopId := if found.Some? then firstId else firstId + 1;
      && (found.Some? ==> cities == oldCities)
      && (found.None? ==> cities == oldCities + [City.City(firstId, location, "Unknown", 1)])
      && stops == oldStops + [Stop(stopId, t.id, cityId, b.startDate.value, b.endDate.value, 1)]
      && PossibleSuggestions(location, suggested)
      && activities == oldActivities + PlannedAll(stopId + 1, stopId, suggested)
    }

    /** `GET /:id`. */
    function GetTripRoute(header: Option<string>, verify: string -> Option<Claims>, id: nat): (res: Response)
      reads this
      ensures !Authenticate(header, verify).Authenticated? ==> res == Denied(Authenticate(header, verify))
      ensures Authenticate(header, verify).Authenticated? ==>
        var g := OwnerGate(trips, id, Authenticate(header, verify).claims.userId);
        && (g.Owner? ==> res == Response(200, TripViewJson(ViewTrip(g.trip, stops, activities, cities))))
        && (!g.Owner? ==> res == GateResponse(g))
    {
      var auth := Authenticate(header, verify);
      if !auth.Authenticated? then Denied(auth)
      else
        var g := OwnerGate(trips, id, auth.claims.userId);
        if g.Owner? then Response(200, TripViewJson(ViewTrip(g.trip, stops, activities, cities)))
        else GateResponse(g)
    }

    /** `DELETE /:id`. The delete cascades to the trip's stops and their
        activities. */
    method DeleteTripRoute(header: Option<string>, verify: string -> Option<Claims>, id: nat)
      returns (res: Response)
      requires Valid()
      modifies this
      ensures Valid()
      ensures !Authenticate(header, verify).Authenticated? ==>
        res == Denied(Authenticate(header, verify)) && unchanged(this)
      ensures Authenticate(header, verify).Authenticated? ==>
        var g := OwnerGate(old(trips), id, Authenticate(header, verify).claims.userId);
        && (!g.Owner? ==> res == GateResponse(g) && unchanged(this))
        && (g.Owner? ==>
              && res == Response(200, MessageJson("Trip deleted successfully"))
              && trips == Filter(old(trips), TripIdIsNot, id)
              && stops == Filter(old(stops), StopNotOfTrip, id)
              && activities == Filter(old(activities), ActivityNotOfStops, StopIdsOf(old(stops), id))
              && cities == old(cities) && nextId == old(nextId))
    {
      var auth := Authenticate(header, verify);
      if !auth.Authenticated? {
        return Denied(auth);
      }
      var g := OwnerGate(trips, id, auth.claims.userId);
      if !g.Owner? {
        return GateResponse(g);
      }
      var doomed := StopIdsOf(stops, id);
      activities := Filter(activities, ActivityNotOfStops, doomed);
      stops := Filter(stops, StopNotOfTrip, id);
      trips := Filter(trips, TripIdIsNot, id);
      res := Response(200, MessageJson("Trip deleted successfully"));
    }
  }

  /** A caller who does not own a trip can never delete it: whatever the
      token, the trip is still there afterwards. */
  method NonOwnerCannotDelete(p: Prisma, header: Option<string>, verify: string -> Option<Claims>, id: nat, t: Trip)
    requires p.Valid() && t in p.trips && t.id == id
    requires Authenticate(header, verify).Authenticated? ==> Authenticate(header, verify).claims.userId != t.userId
    modifies p
    ensures t in p.trips
  {
    var res := p.DeleteTripRoute(header, verify, id);
  }
}
