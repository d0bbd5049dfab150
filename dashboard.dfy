/** The GlobeTrotter dashboard (client/src/pages/Dashboard.jsx): each fetched
    trip gets a status from the current time, and the search box filters the
    list by name. Instants are milliseconds; an unparsable date is None and
    stands for JavaScript's NaN. */
module Dashboard {
  import opened Wrappers
  import opened Seqs
  import opened Text
  import TripRoutes

  datatype Status = Upcoming | Ongoing | Completed

  /** `status` in `fetchTrips`: 'completed' once now is past the end,
      'ongoing' between start and end inclusive, otherwise 'upcoming'.
      A comparison with NaN is false. */
  function TripStatus(now: int, start: Option<int>, end: Option<int>): (r: Status)
    ensures r == Completed <==> end.Some? && now > end.value
    ensures r == Ongoing <==> !(end.Some? && now > end.value)
                              && start.Some? && end.Some? && start.value <= now <= end.value
  {
    if end.Some? && now > end.value then Completed
    else if start.Some? && end.Some? && now >= start.value && now <= end.value then Ongoing
    else Upcoming
  }

  /** For a trip that ends no earlier than it starts, it is upcoming exactly
      before its start. */
  lemma UpcomingBeforeStart(now: int, start: int, end: int)
    requires start <= end
    ensures TripStatus(now, Some(start), Some(end)) == Upcoming <==> now < start
  {
  }

  /** A trip with an unparsable end date is never completed nor ongoing. */
  lemma UnparsableEndUpcoming(now: int, start: Option<int>)
    ensures TripStatus(now, start, None) == Upcoming
  {
  }

  function Rank(s: Status): nat
  {
    match s
    case Upcoming => 0
    case Ongoing => 1
    case Completed => 2
  }

  /** As time passes a well-formed trip only moves forward, from upcoming
      to ongoing to completed. */
  lemma StatusMonotone(now1: int, now2: int, start: int, end: int)
    requires now1 <= now2 && start <= end
    ensures Rank(TripStatus(now1, Some(start), Some(end))) <= Rank(TripStatus(now2, Some(start), Some(end)))
  {
  }

  /** `{ ...trip, startDate: start.toLocaleDateString(), endDate: ..., status }`. */
  datatype DashboardTrip = DashboardTrip(id: nat, userId: nat, name: string, description: string,
                                         coverImage: string, startDate: string, endDate: string,
                                         status: Status)

  /** `parse` is `new Date(s)` and `display` is `toLocaleDateString()`; both
      depend on the browser. */
  function FormatTrip(t: TripRoutes.Trip, now: int, parse: string -> Option<int>,
                      display: Option<int> -> string): (r: DashboardTrip)
    ensures r.id == t.id && r.userId == t.userId && r.name == t.name
    ensures r.description == t.description && r.coverImage == t.coverImage
    ensures r.startDate == display(parse(t.startDate)) && r.endDate == display(parse(t.endDate))
    ensures r.status == TripStatus(now, parse(t.startDate), parse(t.endDate))
  {
    var start, end := parse(t.startDate), parse(t.endDate);
    DashboardTrip(t.id, t.userId, t.name, t.description, t.coverImage, display(start), display(end),
                  TripStatus(now, start, end))
  }

  /** `data.map(...)`: one formatted trip per fetched trip, in order. */
  function FormatTrips(ts: seq<TripRoutes.Trip>, now: int, parse: string -> Option<int>,
                       display: Option<int> -> string): (r: seq<DashboardTrip>)
    ensures |r| == |ts|
    ensures forall i :: 0 <= i < |ts| ==> r[i] == FormatTrip(ts[i], now, parse, display)
  {
    seq(|ts|, i requires 0 <= i < |ts| => FormatTrip(ts[i], now, parse, display))
  }

  predicate NameMatches(t: DashboardTrip, term: string)
  {
    Contains(Lower(t.name), Lower(term))
  }

  /** `filteredTrips`: the trips whose name contains the search term,
      ignoring case, in their order. */
  function FilteredTrips(trips: seq<DashboardTrip>, term: string): (r: seq<DashboardTrip>)
    ensures |r| <= |trips|
    ensures forall t :: t in r <==> t in trips && Contains(Lower(t.name), Lower(term))
    ensures SubsequenceOf(r, trips)
    ensures forall t :: multiset(r)[t] == if Contains(Lower(t.name), Lower(term)) then multiset(trips)[t] else 0
  {
    FilterExact(trips, NameMatches, term);
    Filter(trips, NameMatches, term)
  }

  /** The initial empty search term shows every trip. */
  lemma EmptySearchKeepsAll(trips: seq<DashboardTrip>)
    ensures FilteredTrips(trips, "") == trips
  {
    forall i | 0 <= i < |trips|
      ensures NameMatches(trips[i], "")
    {
      ContainsEmpty(Lower(trips[i].name));
    }
    FilterAll(trips, NameMatches, "");
  }

  /** The search ignores the case of the term. */
  lemma SearchIgnoresCase(trips: seq<DashboardTrip>, term: string)
    ensures FilteredTrips(trips, Lower(term)) == FilteredTrips(trips, term)
  {
    LowerIdempotent(term);
    FilterSameKeys(trips, NameMatches, Lower(term), term);
  }

  /** Searching for a trip's full name finds it. */
  lemma SearchFindsName(trips: seq<DashboardTrip>, t: DashboardTrip)
    requires t in trips
    ensures t in FilteredTrips(trips, t.name)
  {
    ContainsSelf(Lower(t.name));
  }
}
