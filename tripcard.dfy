/** The trip card of the travel-planning app (components/trip-card.tsx):
    what the card shows for one trip with its statistics. Instants are
    milliseconds; an unparsable date is None and stands for NaN. */
module TripCard {
  import opened Wrappers
  import opened Text
  import Schema
  import Trips

  const DayMs := 1000 * 60 * 60 * 24

  /** `Math.ceil(x / d)` for a positive whole d. */
  function CeilDiv(x: int, d: int): (r: int)
    requires d > 0
    ensures (r - 1) * d < x <= r * d
  {
    -((-x) / d)
  }

  /** `duration`: whole days from start to end, a partial day counting as a
      whole one. */
  function Duration(start: Option<int>, end: Option<int>): (r: Option<int>)
    ensures r.Some? <==> start.Some? && end.Some?
    ensures r.Some? ==> (r.value - 1) * DayMs < end.value - start.value <= r.value * DayMs
  {
    if start.Some? && end.Some? then Some(CeilDiv(end.value - start.value, DayMs)) else None
  }

  /** The ceiling is the only whole number of days with that property. */
  lemma DurationUnique(start: int, end: int, days: int)
    requires (days - 1) * DayMs < end - start <= days * DayMs
    ensures Duration(Some(start), Some(end)) == Some(days)
  {
  }

  lemma SameInstantZeroDays(t: int)
    ensures Duration(Some(t), Some(t)) == Some(0)
  {
    DurationUnique(t, t, 0);
  }

  lemma PartialDayIsOneDay(t: int, ms: int)
    requires 0 < ms <= DayMs
    ensures Duration(Some(t), Some(t + ms)) == Some(1)
  {
    DurationUnique(t, t + ms, 1);
  }

  /** `{trip.city_count || 0} {trip.city_count === 1 ? "city" : "cities"}`. */
  function CityLabel(count: Option<int>): (r: string)
    ensures count == Some(1) ==> r == "1 city"
    ensures count.None? || count == Some(0) ==> r == "0 cities"
    ensures count.Some? && count.value != 1 ==> r == IntToString(count.value) + " cities"
  {
    var shown := if count.Some? then count.value else 0;
    IntToString(shown) + " " + (if count == Some(1) then "city" else "cities")
  }

  datatype CardInput = CardInput(name: string, description: Option<string>, coverPhoto: Option<string>,
                                 isPublic: int, cityCount: Option<int>, start: Option<int>, end: Option<int>)

  /** What the card renders: the cover image (None for the placeholder
      icon), the "Public" badge, the description line, the city count and
      the duration. */
  datatype CardView = CardView(cover: Option<string>, publicBadge: bool, description: Option<string>,
                               cityLabel: string, days: Option<int>)

  function RenderCard(c: CardInput): (v: CardView)
    ensures v.cover.Some? <==> Schema.Truthy(c.coverPhoto)
    ensures v.cover.Some? ==> v.cover == c.coverPhoto
    ensures v.publicBadge <==> c.isPublic == 1
    ensures v.description.Some? <==> Schema.Truthy(c.description)
    ensures v.cityLabel == CityLabel(c.cityCount)
    ensures v.days == Duration(c.start, c.end)
  {
    CardView(Schema.NullIfFalsy(c.coverPhoto), c.isPublic == 1, Schema.NullIfFalsy(c.description),
             CityLabel(c.cityCount), Duration(c.start, c.end))
  }

  /** The card props of a trip returned by `getUserTrips`; `parse` is
      `new Date(s).getTime()`. */
  function FromStats(t: Trips.TripWithStats, parse: string -> Option<int>): (c: CardInput)
    ensures c.cityCount == Some(t.cityCount as int) && c.isPublic == t.trip.isPublic
  {
    CardInput(t.trip.name, t.trip.description, t.trip.coverPhoto, t.trip.isPublic,
              Some(t.cityCount as int), parse(t.trip.startDate), parse(t.trip.endDate))
  }

  /** A freshly created trip shows no "Public" badge, shows its cover
      exactly when one was given, and counts no cities. */
  lemma NewTripCard(trips: seq<Schema.Trip>, userId: Schema.Id, name: string, description: string,
                    startDate: string, endDate: string, coverPhoto: Option<string>, now: nat,
                    parse: string -> Option<int>)
    ensures var t := Trips.NewTrip(trips, userId, name, description, startDate, endDate, coverPhoto, now);
            var v := RenderCard(FromStats(Trips.TripWithStats(t, 0), parse));
            && !v.publicBadge
            && (v.cover.Some? <==> Schema.Truthy(coverPhoto))
            && v.cityLabel == "0 cities"
  {
  }
}
