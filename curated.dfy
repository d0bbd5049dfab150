/** The demo content of the GlobeTrotter trip routes (server/routes/trips.js):
    a cover image and a list of suggested activities chosen by the first
    keyword, in a fixed priority, that the lower-cased location contains. */
module Curated {
  import opened Wrappers
  import opened Seqs
  import opened Text

  datatype Region = Chennai | Bangalore | Mysore | Europe | Asia | America | Generic

  /** The lower-cased location contains one of the region's keywords. */
  predicate Mentions(loc: string, r: Region)
  {
    match r
    case Chennai => Contains(loc, "chennai")
    case Bangalore => Contains(loc, "bangalore") || Contains(loc, "bengaluru")
    case Mysore => Contains(loc, "mysore") || Contains(loc, "mysuru")
    case Europe => Contains(loc, "europe")
    case Asia => Contains(loc, "asia")
    case America => Contains(loc, "america") || Contains(loc, "usa")
    case Generic => true
  }

  /** The keyword chain shared by `getCoverImage` and `getRandomTopActivities`:
      the first region, in the order the chain tests them, whose keywords
      the lower-cased location contains; Generic when there is none. */
  function RegionOf(location: string): (r: Region)
    ensures var loc := Lower(location);
      && (r == Chennai <==> Mentions(loc, Chennai))
      && (r == Bangalore <==> !Mentions(loc, Chennai) && Mentions(loc, Bangalore))
      && (r == Mysore <==> !Mentions(loc, Chennai) && !Mentions(loc, Bangalore) && Mentions(loc, Mysore))
      && (r == Europe <==> !Mentions(loc, Chennai) && !Mentions(loc, Bangalore) && !Mentions(loc, Mysore)
                           && Mentions(loc, Europe))
      && (r == Asia <==> !Mentions(loc, Chennai) && !Mentions(loc, Bangalore) && !Mentions(loc, Mysore)
                         && !Mentions(loc, Europe) && Mentions(loc, Asia))
      && (r == America <==> !Mentions(loc, Chennai) && !Mentions(loc, Bangalore) && !Mentions(loc, Mysore)
                            && !Mentions(loc, Europe) && !Mentions(loc, Asia) && Mentions(loc, America))
      && (r == Generic <==> !Mentions(loc, Chennai) && !Mentions(loc, Bangalore) && !Mentions(loc, Mysore)
                            && !Mentions(loc, Europe) && !Mentions(loc, Asia) && !Mentions(loc, America))
  {
    var loc := Lower(location);
    if Contains(loc, "chennai") then Chennai
    else if Contains(loc, "bangalore") || Contains(loc, "bengaluru") then Bangalore
    else if Contains(loc, "mysore") || Contains(loc, "mysuru") then Mysore
    else if Contains(loc, "europe") then Europe
    else if Contains(loc, "asia") then Asia
    else if Contains(loc, "america") || Contains(loc, "usa") then America
    else Generic
  }

  /** The choice ignores letter case. */
  lemma RegionIgnoresCase(location: string)
    ensures RegionOf(Lower(location)) == RegionOf(location)
  {
    LowerIdempotent(location);
  }

  function CoverUrl(r: Region): string
  {
    match r
    case Chennai => Photo("1582510003544-4d00b7f00d44")
    case Bangalore => Photo("1596176530529-78163a4f7af2")
    case Mysore => Photo("1600100598079-43d93297a7e8")
    case Europe => Photo("1467269204594-9661b134dd2b")
    case Asia => Photo("1535139262971-c51845709a48")
    case America => Photo("1501594907352-04cda38ebc29")
    case Generic => Photo("1476514525535-07fb3b4ae5f1")
  }

  /** `getCoverImage(location)`: the region's image; an undefined location
      makes `location.toLowerCase()` throw a TypeError. */
  function GetCoverImage(location: Option<string>): (r: Result<string, string>)
    ensures r.Err? <==> location.None?
    ensures r.Ok? ==> r.value == CoverUrl(RegionOf(location.value))
  {
    if location.None? then Err("TypeError") else Ok(CoverUrl(RegionOf(location.value)))
  }

  /** A suggested activity: `{ name, cost, type, imageUrl }`. */
  datatype Suggestion = Suggestion(name: string, cost: int, kind: string, imageUrl: string)

  const Unsplash := "https://images.unsplash.com/photo-"
  const Crop := "?auto=format&fit=crop&q=80"

  /** An Unsplash image address with the crop options every suggestion uses. */
  function Photo(id: string): string
  {
    Unsplash + id + Crop
  }

  lemma PhotoInjective(a: string, b: string)
    ensures Photo(a) == Photo(b) ==> a == b
  {
    if Photo(a) == Photo(b) {
      assert |a| == |b|;
      assert Photo(a)[|Unsplash|..|Unsplash| + |a|] == a;
      assert Photo(b)[|Unsplash|..|Unsplash| + |b|] == b;
    }
  }

  /** The i-th of the five curated suggestions of a named region, in source
      order. */
  function RegionSuggestion(r: Region, i: int): Suggestion
    requires r != Generic
  {
    match r
    case Chennai =>
      if i == 0 then Suggestion("Marina Beach Sunrise Walk", 0, "Nature", Photo("1621239632832-c6517f8b72e1"))
      else if i == 1 then Suggestion("Kapaleeshwarar Temple Visit", 0, "Culture", Photo("1616832626017-f584e030c50d"))
      else if i == 2 then Suggestion("DakshinChitra Museum", 15, "History",
          "https://dynamic-media-cdn.tripadvisor.com" + "/media/photo-o/16/8c/2a/39/"
            + "dakshinachitra-museum.jpg" + "?w=1200&h=-1&s=1")
      else if i == 3 then Suggestion("Exploring Mahabalipuram", 20, "Sightseeing", Photo("1605634509746-88d44747eb4d"))
      else Suggestion("T. Nagar Shopping Spree", 50, "Shopping", Photo("1605218427368-35b8092fb1fa"))
    case Bangalore =>
      if i == 0 then Suggestion("Cubbon Park Morning Walk", 0, "Nature", Photo("1596176530529-78163a4f7af2"))
      else if i == 1 then Suggestion("Bangalore Palace Tour", 10, "History", Photo("1590050752117-238cb0fb56fb"))
      else if i == 2 then Suggestion("Microbrewery Hopping in Indiranagar", 60, "Food", Photo("1571216682970-d8868c68eb84"))
      else if i == 3 then Suggestion("Lalbagh Botanical Garden", 5, "Nature", Photo("1614850388277-c99a0ed30cc8"))
      else Suggestion("Wonderla Amusement Park", 40, "Adventure", Photo("1623136868208-4122d2f782c5"))
    case Mysore =>
      if i == 0 then Suggestion("Mysore Palace Illumination", 5, "Sightseeing", Photo("1600100598079-43d93297a7e8"))
      else if i == 1 then Suggestion("Chamundi Hills Trek", 0, "Adventure", Photo("1625904323602-23c2a0ac3500"))
      else if i == 2 then Suggestion("Brindavan Gardens", 2, "Nature", Photo("1592651478170-692795c6439a"))
      else if i == 3 then Suggestion("Mysore Zoo Visit", 10, "Nature", Photo("1534567176735-84240f4015cc"))
      else Suggestion("St. Philomena's Cathedral", 0, "History", Photo("1606297341398-32c02114713c"))
    case Europe =>
      if i == 0 then Suggestion("Eiffel Tower Visit", 30, "Sightseeing", Photo("1511739001486-915228bc02aa"))
      else if i == 1 then Suggestion("Colosseum Tour", 25, "History", Photo("1552832230-c0197dd311b5"))
      else if i == 2 then Suggestion("Swiss Alps Hiking", 0, "Nature", Photo("1531366936337-7c912a4589a7"))
      else if i == 3 then Suggestion("Amsterdam Canal Cruise", 20, "Relaxation", Photo("1585672913162-841d63654483"))
      else Suggestion("Santorini Sunset", 0, "Nature", Photo("1613395877344-13d4c2ce5d4d"))
    case Asia =>
      if i == 0 then Suggestion("Great Wall of China Hike", 15, "Adventure", Photo("1508804185872-d7badad00f7d"))
      else if i == 1 then Suggestion("Kyoto Temple Tour", 10, "Culture", Photo("1493976040374-85c8e12f0c0e"))
      else if i == 2 then Suggestion("Bali Beach Day", 0, "Relaxation", Photo("1537996194471-e657df975ab4"))
      else if i == 3 then Suggestion("Taj Mahal Visit", 15, "History", Photo("1564507592333-c60657eea523"))
      else Suggestion("Street Food in Bangkok", 20, "Food", Photo("1559314809-0d155014e29e"))
    case America =>
      if i == 0 then Suggestion("Grand Canyon Helicopter Tour", 200, "Adventure", Photo("1474044159687-1ee9f3a51722"))
      else if i == 1 then Suggestion("New York City Sightseeing", 50, "Sightseeing", Photo("1496442226666-8d4a0e62e6e9"))
      else if i == 2 then Suggestion("Yosemite National Park", 35, "Nature", Photo("1532274402911-5a369e4c4bb5"))
      else if i == 3 then Suggestion("Miami Beach Day", 0, "Relaxation", Photo("1507525428034-b723cf961d3e"))
      else Suggestion("Hollywood Walk of Fame", 0, "Culture", Photo("1534050359320-02900022671e"))
  }

  /** The five curated suggestions of a named region, in source order. */
  function RegionList(r: Region): (s: seq<Suggestion>)
    requires r != Generic
    ensures |s| == 5
    ensures forall i :: 0 <= i < 5 ==> s[i] == RegionSuggestion(r, i)
  {
    seq(5, i requires 0 <= i < 5 => RegionSuggestion(r, i))
  }

  /** The i-th of the seven generic suggestions; two of them name the location. */
  function FallbackSuggestion(location: string, i: int): Suggestion
  {
    if i == 0 then Suggestion("Visit " + location + " Museum", 15, "Culture", Photo("1518998053901-5348d3969105"))
    else if i == 1 then Suggestion("City Center Walking Tour", 0, "Sightseeing", Photo("1477959858617-67f85cf4f1df"))
    else if i == 2 then Suggestion("Local Food Tasting", 30, "Food", Photo("1504674900247-0877df9cc836"))
    else if i == 3 then Suggestion("Sunset Viewpoint", 0, "Nature", Photo("1495616811223-4d98c6e9d856"))
    else if i == 4 then Suggestion("Historic Cathedral", 10, "History", Photo("1548625361-bd872b2ff822"))
    else if i == 5 then Suggestion(location + " Botanical Gardens", 12, "Nature", Photo("1466692476868-aef1dfb1e735"))
    else Suggestion("Traditional Market Shopping", 50, "Shopping", Photo("1483985988355-763728e1935b"))
  }

  /** The seven generic suggestions. */
  function FallbackList(location: string): (s: seq<Suggestion>)
    ensures |s| == 7
    ensures forall i :: 0 <= i < 7 ==> s[i] == FallbackSuggestion(location, i)
  {
    seq(7, i requires 0 <= i < 7 => FallbackSuggestion(location, i))
  }

  /** The seven generic suggestions are pairwise different (their images
      differ), whatever the location. */
  lemma FallbackDistinct(location: string)
    ensures Distinct(FallbackList(location))
  {
    var s := FallbackList(location);
    var ids := ["1518998053901-5348d3969105", "1477959858617-67f85cf4f1df", "1504674900247-0877df9cc836",
                "1495616811223-4d98c6e9d856", "1548625361-bd872b2ff822", "1466692476868-aef1dfb1e735",
                "1483985988355-763728e1935b"];
    forall i, j | 0 <= i < j < 7
      ensures s[i] != s[j]
    {
      assert s[i].imageUrl == Photo(ids[i]) && s[j].imageUrl == Photo(ids[j]);
      PhotoInjective(ids[i], ids[j]);
    }
  }

  /** What `getRandomTopActivities` may return for a location: the region's
      five suggestions in order, or four different generic suggestions. */
  ghost predicate PossibleSuggestions(location: string, s: seq<Suggestion>)
  {
    if RegionOf(location) != Generic then s == RegionList(RegionOf(location))
    else |s| == 4 && Distinct(s) && forall x :: x in s ==> x in FallbackList(location)
  }

  /** `getRandomTopActivities(location)`. The shuffle `sort(() => 0.5 -
      Math.random())` is some permutation of the generic list; which one is
      left open. */
  method GetRandomTopActivities(location: string) returns (s: seq<Suggestion>)
    ensures PossibleSuggestions(location, s)
    ensures |s| == 4 || |s| == 5
  {
    var region := RegionOf(location);
    if region != Generic {
      return RegionList(region);
    }
    var list := FallbackList(location);
    FallbackDistinct(location);
    s := ShuffleTake(list, 4);
  }

  /** `list.sort(() => 0.5 - Math.random()).slice(0, n)`: n different
      elements of a list without duplicates, in some order. */
  method ShuffleTake<T(==)>(list: seq<T>, n: nat) returns (s: seq<T>)
    requires Distinct(list) && n <= |list|
    ensures |s| == n && Distinct(s)
    ensures forall x :: x in s ==> x in list
  {
    var shuffled :| multiset(shuffled) == multiset(list);
    PermutationDistinct(list, shuffled);
    assert |shuffled| == |multiset(shuffled)| == |list|;
    s := shuffled[..n];
    forall x | x in s
      ensures x in list
    {
      assert x in shuffled;
      assert x in multiset(shuffled);
    }
  }
}
