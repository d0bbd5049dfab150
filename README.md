# Travel planner core, modelled in Dafny

This project models the logic of two small travel-planning applications and
proves properties of that logic.

**travel-planning-application** is a Next.js app over an SQLite database held
in the browser. Its library functions are modelled here:

- itinerary: trip stops, scheduled activities and the city and activity catalog;
- trips: create, read, update and delete, plus the popular-cities list;
- sharing: the public community listing and the share link;
- auth: registration, login and the session's current user;
- budget: the per-trip breakdown and the daily series;
- timeline: the trip timeline.

Two pieces of its UI logic are also modelled: the trip card (duration, labels,
badge) and the profile initials.

The tables are in-memory sequences of records (`Schema.Tables`). Each SELECT
becomes a function built from filter, join, group, order and limit. Each
INSERT, UPDATE or DELETE is a method of the `Store.Store` class. That class
owns the tables and a logical clock that stands for `CURRENT_TIMESTAMP`.

**GlobeTrotter** is an Express and Prisma server with a React client.

- The trip routes are modelled in `TripRoutes` and `Curated`:
  - bearer-token authentication;
  - `POST /` with its validation, cover image, first stop and curated activities;
  - `GET /:id` and `DELETE /:id` with the 404/403 ownership gate.
  - The Prisma tables are the `TripRoutes.Prisma` class.
- Three client pages are modelled:
  - dashboard: trip status and the search filter;
  - calendar: month arithmetic over `new Date(y, m, d)`, which reads a year argument in 0..99 as 1900 plus it, and the month grid;
  - trip details: the nested cost total and the per-stop rows.

Abstractions:

- **Failures.** A database driver failure is a `fault` parameter. The library's
  catch branches then return their failure value: `[]`, `null`, `false` or the
  zero breakdown.
- **Foreign functions.** bcrypt's hash, `jwt.verify`, `new Date(string)` and
  `toLocaleDateString` are function parameters.
- **Random order.** The `Math.random` shuffle is a nondeterministic choice of
  permutation.

## Model

| member | source | states |
|---|---|---|
| Itinerary.MaxStopOrder | travel-planning-application/lib/itinerary.ts:114-117 | NULL exactly when the trip has no stop; otherwise the largest stop_order of the trip, attained by one of its stops |
| Itinerary.NextStopOrder | travel-planning-application/lib/itinerary.ts:114-118 | the new order exceeds every order of the trip's stops, and is 1 for a trip without stops |
| Itinerary.NewStop | travel-planning-application/lib/itinerary.ts:120-123 | the inserted stop carries the given columns, the next order of its trip, a fresh id, and NULL notes exactly when the notes are falsy |
| Itinerary.NextStopOrderOwnTrip | travel-planning-application/lib/itinerary.ts:114-118 | the next order depends only on the stops of the same trip |
| Itinerary.NextStopOrderIgnoresOtherTrips | travel-planning-application/lib/itinerary.ts:114-118 | stops added to other trips leave a trip's next order unchanged |
| Itinerary.AddStopKeepsOrdersDistinct | travel-planning-application/lib/itinerary.ts:114-123 | adding a stop keeps stop orders pairwise distinct within every trip |
| Itinerary.DeleteStopKeepsNextOrder | travel-planning-application/lib/itinerary.ts:137-145 | deleting a stop other than the one holding the maximum order leaves the next order unchanged; stops are never renumbered |
| Itinerary.WithCity | travel-planning-application/lib/itinerary.ts:94 | a stop joins exactly when its city exists, and the joined row carries that stop |
| Itinerary.JoinCities | travel-planning-application/lib/itinerary.ts:88-95 | the inner join with cities keeps exactly the stops whose city exists, each with that city's name and country |
| Itinerary.JoinCitiesCount | travel-planning-application/lib/itinerary.ts:88-95 | the join holds each joined row as often as the table holds its stop, and no other row |
| Itinerary.StopOrderAscTotal | travel-planning-application/lib/itinerary.ts:96 | ordering by stop_order is a total preorder |
| Itinerary.TripStopsCount | travel-planning-application/lib/itinerary.ts:88-95 | before ordering, a row is selected as often as the table holds its stop when that stop is the trip's and has a city, and never otherwise |
| Itinerary.GetTripStops | travel-planning-application/lib/itinerary.ts:86-103 | exactly the trip's stops that have a city, each as often as the table holds it, sorted by stop_order; [] on failure |
| Itinerary.PopularityDescTotal | travel-planning-application/lib/itinerary.ts:58 | ordering by popularity descending is a total preorder |
| Itinerary.SearchCities | travel-planning-application/lib/itinerary.ts:55-65 | the top 20 by popularity of the cities whose name or country contains the query, ignoring case: exactly min(20, matches) rows taken from the matches, most popular first, and no match left out is more popular than a row kept; [] on failure |
| Itinerary.SearchEmptyQueryMatchesAll | travel-planning-application/lib/itinerary.ts:58-59 | the pattern `%%` of an empty query matches every city |
| Itinerary.SearchIgnoresQueryCase | travel-planning-application/lib/itinerary.ts:58-59 | LIKE matching does not depend on the query's letter case |
| Itinerary.GetActivitiesByCity | travel-planning-application/lib/itinerary.ts:147-156 | a permutation of the city's catalog activities sorted by estimated cost ascending; [] on failure |
| Itinerary.WithActivity | travel-planning-application/lib/itinerary.ts:169 | an entry joins exactly when its catalog activity exists, and the joined row carries that entry |
| Itinerary.JoinActivities | travel-planning-application/lib/itinerary.ts:160-170 | the inner join with activities keeps exactly the entries whose catalog activity exists |
| Itinerary.JoinActivitiesCount | travel-planning-application/lib/itinerary.ts:160-170 | the join holds each joined row as often as the table holds its entry, and no other row |
| Itinerary.NullsFirstLeTotal | travel-planning-application/lib/itinerary.ts:171 | the ascending order on a nullable date or time column, with NULL first, is total |
| Itinerary.NullsFirstLeTransitive | travel-planning-application/lib/itinerary.ts:171 | that order is transitive |
| Itinerary.NullsFirstLeAntisymmetric | travel-planning-application/lib/itinerary.ts:171 | that order is antisymmetric |
| Itinerary.ScheduleLeTotal | travel-planning-application/lib/itinerary.ts:171 | ordering by (scheduled_date, scheduled_time) is a total preorder |
| Itinerary.StopActivitiesCount | travel-planning-application/lib/itinerary.ts:160-170 | before ordering, a row is selected as often as the table holds its entry when that entry is the stop's and has an activity, and never otherwise |
| Itinerary.GetTripActivities | travel-planning-application/lib/itinerary.ts:158-178 | exactly the stop's entries that have a catalog activity, each as often as the table holds it, sorted by date and then time; [] on failure |
| Itinerary.NewTripActivity | travel-planning-application/lib/itinerary.ts:188-191 | the inserted entry has a fresh id, no notes, and NULL date, time or cost exactly when the argument is falsy (a cost of 0 becomes NULL) |
| Itinerary.LatestStop | travel-planning-application/lib/itinerary.ts:125-130 | the read-back stop is null exactly when the trip has no stop; otherwise it is the trip's stop created last |
| Itinerary.LatestStopIsNewest | travel-planning-application/lib/itinerary.ts:120-130 | the stop just inserted, later than every row, is the one read back |
| Itinerary.LatestTripActivity | travel-planning-application/lib/itinerary.ts:193-198 | the read-back entry is null exactly when the stop has none; otherwise it is the stop's entry created last |
| Itinerary.LatestTripActivityIsNewest | travel-planning-application/lib/itinerary.ts:188-198 | the entry just inserted is the one read back |
| Itinerary.UpdateTripActivityPlaceholders | travel-planning-application/lib/itinerary.ts:220-225 | the statement has exactly as many `?` as bound parameters |
| Itinerary.UpdateSetEmptyIffNoKeys | travel-planning-application/lib/itinerary.ts:220-225 | the SET list is empty exactly when no column is given |
| Itinerary.ApplyUpdates | travel-planning-application/lib/itinerary.ts:225 | the id, the stop and the activity of the entry are untouched |
| Itinerary.ApplyUpdateColumn | travel-planning-application/lib/itinerary.ts:220-225 | one assignment sets its own column to its value and leaves every other column as it was |
| Itinerary.UnassignedEntryColumnKept | travel-planning-application/lib/itinerary.ts:220-225 | a column that no update names keeps its value |
| Itinerary.LastEntryAssignmentWins | travel-planning-application/lib/itinerary.ts:220-225 | a column named by some update ends with the value of the last update naming it |
| Itinerary.UpdateEntries | travel-planning-application/lib/itinerary.ts:225 | only the row with that id changes; every other row is unchanged |
| Sql.SetFieldsPlaceholders | travel-planning-application/lib/trips.ts:83-85 | a SET list over plain column names holds exactly one placeholder per key |
| Sql.SetFieldsEmpty | travel-planning-application/lib/trips.ts:83-85 | the SET list is empty exactly when there are no keys |
| Sql.ActivitySqlPlaceholders | travel-planning-application/lib/itinerary.ts:225 | the trip_activities UPDATE holds one placeholder per key plus one for the id |
| Sql.TripSqlPlaceholders | travel-planning-application/lib/trips.ts:88 | the trips UPDATE holds one placeholder per key plus one for the id; the timestamp assignment binds nothing |
| Store.Store.constructor | travel-planning-application/lib/db.ts:20-40 | empty user tables over the given city and activity catalog |
| Store.Store.AddTripStop | travel-planning-application/lib/itinerary.ts:105-135 | on success, appends exactly the NewStop row and returns it; on failure, null and nothing changes |
| Store.Store.DeleteTripStop | travel-planning-application/lib/itinerary.ts:137-145 | removes exactly the rows with that id; every other table and row is unchanged |
| Store.Store.AddTripActivity | travel-planning-application/lib/itinerary.ts:180-203 | on success, appends exactly the NewTripActivity row and returns it; on failure, null and nothing changes |
| Store.Store.DeleteTripActivity | travel-planning-application/lib/itinerary.ts:205-213 | removes exactly the entries with that id and nothing else |
| Store.Store.UpdateTripActivity | travel-planning-application/lib/itinerary.ts:215-232 | true exactly when the driver works and at least one column is given; then only the row with that id is updated |
| Store.Store.CreateTrip | travel-planning-application/lib/trips.ts:43-66 | on success, appends exactly the NewTrip row and returns it as the user's newest trip; on failure, null and nothing changes |
| Store.Store.UpdateTrip | travel-planning-application/lib/trips.ts:78-98 | true exactly when the driver works and the update is non-empty; then only that trip changes and its updated_at advances |
| Store.Store.DeleteTrip | travel-planning-application/lib/trips.ts:100-108 | removes exactly the trip rows with that id and nothing else |
| Store.Store.RegisterUser | travel-planning-application/lib/auth.ts:21-55 | a known email yields "User already exists" with the table unchanged; otherwise appends the user with the password's hash and returns it without the hash; "Registration failed" on failure |
| Store.Store.AddTripExpense | travel-planning-application/lib/budget.ts:103-121 | on success, appends exactly the NewExpense row; on failure, false and nothing changes |
| Trips.NewTrip | travel-planning-application/lib/trips.ts:52-55 | the inserted trip is private, has a fresh id and both timestamps set to now, and has a NULL cover exactly when the cover is falsy |
| Trips.LatestTrip | travel-planning-application/lib/trips.ts:57-61 | the read-back trip is null exactly when the user has no trip; otherwise it is the user's trip created last |
| Trips.LatestTripIsNewest | travel-planning-application/lib/trips.ts:52-61 | the trip just inserted is the one read back |
| Trips.GetTripById | travel-planning-application/lib/trips.ts:68-76 | the row with that id; null when there is none or on failure |
| Trips.GetUserTrips | travel-planning-application/lib/trips.ts:21-41 | exactly the user's trips, newest first, each with its stop count; [] on failure |
| Trips.GetPopularCities | travel-planning-application/lib/trips.ts:110-125 | the top `limit` (default 6) cities by popularity: exactly min(limit, cities) rows taken from the table, most popular first, and no city left out is more popular than a row kept; [] on failure |
| Trips.UpdateTripPlaceholders | travel-planning-application/lib/trips.ts:83-91 | the statement has exactly |keys| + 1 placeholders, as many as bound parameters |
| Trips.UpdateTripSetEmptyIffNoKeys | travel-planning-application/lib/trips.ts:83-88 | the SET list is empty, and the statement malformed, exactly when no column is given |
| Trips.ApplyTripUpdates | travel-planning-application/lib/trips.ts:88 | the id, owner and creation time are kept, and updated_at becomes now |
| Trips.ApplyTripUpdateColumn | travel-planning-application/lib/trips.ts:83-88 | one assignment sets its own column to its value and leaves every other column as it was |
| Trips.UnassignedTripColumnKept | travel-planning-application/lib/trips.ts:83-88 | a column that no update names keeps its value |
| Trips.LastTripAssignmentWins | travel-planning-application/lib/trips.ts:83-88 | a column named by some update ends with the value of the last update naming it |
| Trips.UpdateTrips | travel-planning-application/lib/trips.ts:88 | only the trip with that id changes |
| Sharing.ListedRows | travel-planning-application/lib/sharing.ts:16-30 | a row is listed exactly when it comes from a public trip whose owner exists |
| Sharing.GetPublicTrips | travel-planning-application/lib/sharing.ts:14-39 | the newest `limit` (default 20) listed rows: exactly min(limit, listed) rows taken from the listing, newest first, and no listed row left out is newer than a row kept; [] on failure |
| Sharing.PublicTripsListed | travel-planning-application/lib/sharing.ts:16-30 | every returned row comes from a public trip, with its owner's name and its stop count |
| Sharing.NoStopsCountsZero | travel-planning-application/lib/sharing.ts:27-29 | thanks to the LEFT JOIN, a trip without stops is listed with a count of 0 |
| Sharing.GenerateShareUrl | travel-planning-application/lib/sharing.ts:41-44 | "" exactly when there is no window |
| Sharing.ShareUrlRoundTrip | travel-planning-application/lib/sharing.ts:43 | the link is the origin followed by `/shared/` and the trip id, which parses back to that id |
| Auth.Failure | travel-planning-application/lib/auth.ts:27 | a failure response: not successful, no user, the given message |
| Auth.WithoutHash | travel-planning-application/lib/auth.ts:76-77 | every column except the password hash is kept |
| Auth.FindByEmail | travel-planning-application/lib/auth.ts:24-28 | a row with that email; none exactly when no row has it |
| Auth.NewUser | travel-planning-application/lib/auth.ts:31-38 | the inserted user stores the hash of the password, has a fresh id and no photo |
| Auth.LoginUser | travel-planning-application/lib/auth.ts:57-82 | success exactly when the email is known and the password hashes to the stored hash; then the user without hash; "Invalid credentials" otherwise; "Login failed" on failure |
| Auth.LoginDoesNotRevealEmails | travel-planning-application/lib/auth.ts:62-73 | an unknown email and a wrong password get the same response |
| Auth.LoginAfterRegister | travel-planning-application/lib/auth.ts:31-77 | a freshly registered user logs in with that password and gets the stored row without its hash |
| Auth.FoundAfterInsert | travel-planning-application/lib/auth.ts:24-44 | after inserting a new email, the lookup finds that row |
| Auth.Session.constructor | travel-planning-application/lib/auth.ts:84-88 | a session starts with no stored user |
| Auth.Session.GetCurrentUser | travel-planning-application/lib/auth.ts:84-95 | null without a window; otherwise the stored user |
| Auth.Session.SetCurrentUser | travel-planning-application/lib/auth.ts:97-105 | afterwards the current user is the one given, and null removes it; nothing is stored without a window |
| Auth.Session.LogoutUser | travel-planning-application/lib/auth.ts:107-109 | afterwards there is no current user |
| Budget.JoinedCost | travel-planning-application/lib/budget.ts:28-32 | an entry counts exactly when its activity and its stop exist and the stop belongs to the trip; its cost is actual_cost when not NULL, otherwise the estimated cost |
| Budget.ActivityCosts | travel-planning-application/lib/budget.ts:26-35 | at most one cost per entry, each the coalesced cost of a joined entry; none when no entry joins |
| Budget.ActivitiesTotal | travel-planning-application/lib/budget.ts:26-35 | 0 when no entry joins an activity and a stop of the trip |
| Budget.ActivitiesTotalAfterInsert | travel-planning-application/lib/budget.ts:26-35 | scheduling one more activity adds its coalesced cost to the activities total |
| Budget.Categories | travel-planning-application/lib/budget.ts:40-43 | the distinct categories of the trip's expenses |
| Budget.CategoriesGroupOrder | travel-planning-application/lib/budget.ts:38-46 | the order of first appearance is one admissible order of the groups: each category of the trip once |
| Budget.ExpenseGroupsAdd | travel-planning-application/lib/budget.ts:38-46 | one more expense adds its amount to the group totals when its category is grouped |
| Budget.ExpenseGroupsTotal | travel-planning-application/lib/budget.ts:38-46 | grouping loses no amount: in any order holding each category once, the group totals add up to the sum of the amounts |
| Budget.Get | travel-planning-application/lib/budget.ts:60-63 | undefined exactly when no key matches |
| Budget.Put | travel-planning-application/lib/budget.ts:51 | writing `__proto__` stores nothing, as the inherited setter ignores a number; any other key then holds the value, other keys are unchanged and keys stay distinct |
| Budget.Assign | travel-planning-application/lib/budget.ts:51 | writing an own property: the key holds the value, other keys are unchanged and keys stay distinct |
| Budget.ValuesSumPut | travel-planning-application/lib/budget.ts:51-58 | overwriting a key replaces its old value in the sum of values; writing `__proto__` leaves the sum unchanged |
| Budget.FoldGroups | travel-planning-application/lib/budget.ts:49-55 | the fold yields an object with distinct keys |
| Budget.FoldGroupsGet | travel-planning-application/lib/budget.ts:49-55 | after the fold a key holds the total of the last group whose lower-cased category is that key; `__proto__` is never a property |
| Budget.CategoryTotals | travel-planning-application/lib/budget.ts:49-55 | the loop writing `acc[category.toLowerCase()] = total` computes the fold |
| Budget.BreakdownOf | travel-planning-application/lib/budget.ts:65-75 | any failure gives the all-zero breakdown, whatever the order of the groups |
| Budget.GetTripBudgetBreakdown | travel-planning-application/lib/budget.ts:23-76 | the breakdown the queries, the fold (which drops a `__proto__` category) and the field selection compute, for groups in any admissible order |
| Budget.ValuesSumSplit | travel-planning-application/lib/budget.ts:58-63 | the sum of all values is the four named buckets plus every other key |
| Budget.BreakdownTotal | travel-planning-application/lib/budget.ts:57-64 | total is activities, plus the four buckets, plus every category outside them |
| Budget.FoldKeys | travel-planning-application/lib/budget.ts:51 | every key is the lower-cased category of some group, and none is `__proto__` |
| Budget.UnnamedSumZero | travel-planning-application/lib/budget.ts:58-63 | with only the four named keys, nothing lies outside the buckets |
| Budget.UnnamedSumPositive | travel-planning-application/lib/budget.ts:58-63 | an unnamed key with a positive value makes the unbucketed part positive |
| Budget.UnnamedSumNonNegative | travel-planning-application/lib/budget.ts:58-63 | with non-negative values, the unbucketed part is non-negative |
| Budget.BreakdownTotalExact | travel-planning-application/lib/budget.ts:57-64 | when every category lower-cases to a named bucket, total is exactly the sum of the five fields |
| Budget.BreakdownTotalExceeds | travel-planning-application/lib/budget.ts:57-64 | with positive totals, one category outside the buckets and other than `__proto__` makes total exceed the sum of the five fields |
| Budget.LastWithKeyFound | travel-planning-application/lib/budget.ts:51 | a category that lower-cases to the key makes the key present |
| Budget.FoldValues | travel-planning-application/lib/budget.ts:51 | every value of the fold is the total of some group |
| Budget.LastWithKeyValue | travel-planning-application/lib/budget.ts:51 | the value of a key is the total of a group with that lower-cased category |
| Budget.GetAt | travel-planning-application/lib/budget.ts:60-63 | reading an existing key gives its value |
| Budget.CaseCollision | travel-planning-application/lib/budget.ts:49-58 | two groups whose categories differ only in case leave a single property holding the later total; the earlier total is lost from the sum; when both lower-case to `__proto__` nothing is stored |
| Budget.CaseCollisionExample | travel-planning-application/lib/budget.ts:49-58 | the groups "Meals" (10) and "meals" (5) leave meals 5 and a sum of 5 |
| Budget.LastWithKeyAbsent | travel-planning-application/lib/budget.ts:51 | a key no category lower-cases to is absent from the fold |
| Budget.FoldGroupsSum | travel-planning-application/lib/budget.ts:49-58 | when no two categories lower-case alike, the values of the fold add up to the group totals less those of groups whose category lower-cases to `__proto__` |
| Budget.ProtoCategoryExample | travel-planning-application/lib/budget.ts:49-58 | a single "__PROTO__" group of 100 leaves an empty object, a sum of 0 and `other` 0 |
| Budget.BreakdownTotalNoCollision | travel-planning-application/lib/budget.ts:23-64 | without categories that differ only in case, total is the activities total plus every expense amount less the group of a category lower-casing to `__proto__`, in any group order; with no such category, plus every expense amount |
| Budget.EmptyTripBreakdown | travel-planning-application/lib/budget.ts:48-64 | a trip without scheduled activities and without expenses gets the all-zero breakdown |
| Budget.NoRowsNoCosts | travel-planning-application/lib/budget.ts:28-32 | entries whose stop is not the trip's contribute no cost |
| Budget.Dates | travel-planning-application/lib/budget.ts:83-90 | the distinct scheduled dates |
| Budget.CountOn | travel-planning-application/lib/budget.ts:85 | the count of a date is positive exactly when some row has that date |
| Budget.LexLeTotalPreorder | travel-planning-application/lib/budget.ts:91 | ascending string order is a total preorder |
| Budget.GetDailyBudget | travel-planning-application/lib/budget.ts:78-101 | one row per distinct non-NULL date of the trip, in strictly ascending order, with the coalesced cost sum and row count of that date; [] on failure |
| Budget.UndatedExcluded | travel-planning-application/lib/budget.ts:89 | a row without a scheduled date contributes to no day |
| Budget.NewExpense | travel-planning-application/lib/budget.ts:112-115 | the inserted expense has a fresh id, the given columns, and a NULL stop exactly when the stop id is absent or 0 |
| Timeline.RowOf | travel-planning-application/lib/timeline.ts:63-66 | a joined row carries its entry |
| Timeline.JoinRows | travel-planning-application/lib/timeline.ts:41-67 | an entry is joined exactly when its activity, its stop (of this trip) and the stop's city exist |
| Timeline.JoinRowsCount | travel-planning-application/lib/timeline.ts:41-67 | the join holds each joined row as often as the table holds its entry, and no other row |
| Timeline.ActivityRows | travel-planning-application/lib/timeline.ts:41-71 | exactly the joinable entries of the trip, each as often as the table holds it |
| Timeline.ArrivalOf | travel-planning-application/lib/timeline.ts:76-83 | an arrival event has id `stop.id * 1000` and the arrival date |
| Timeline.DepartureOf | travel-planning-application/lib/timeline.ts:85-92 | a departure event has id `stop.id * 1000 + 1` and the departure date |
| Timeline.EventOf | travel-planning-application/lib/timeline.ts:98-109 | an activity event has a time exactly when the scheduled time is truthy, and its cost is the actual cost unless that is NULL or 0, then the estimated cost |
| Timeline.StopEvents | travel-planning-application/lib/timeline.ts:75-94 | two events per stop |
| Timeline.EventLeTotal | travel-planning-application/lib/timeline.ts:114-121 | the comparator on (date, time or "00:00") is a total preorder |
| Timeline.PushStopEvents | travel-planning-application/lib/timeline.ts:75-94 | the first loop pushes the arrival and departure of each stop, in stop order |
| Timeline.PushActivityEvents | travel-planning-application/lib/timeline.ts:96-111 | the second loop appends one event per row with a truthy scheduled date |
| Timeline.TimelineOf | travel-planning-application/lib/timeline.ts:15-128 | [] on failure; otherwise sorted by (date, time), with one event per built event |
| Timeline.GetTripTimeline | travel-planning-application/lib/timeline.ts:15-128 | the queries, both loops and the sort compute the timeline; [] on failure |
| Timeline.ActivityEventsLength | travel-planning-application/lib/timeline.ts:97-98 | there is one activity event per dated row |
| Timeline.TimelineContents | travel-planning-application/lib/timeline.ts:72-121 | the timeline is a permutation of the built events, sorted by (date, time), of length 2·stops + dated rows |
| Timeline.TimelineStable | travel-planning-application/lib/timeline.ts:114-121 | the sort is stable: among events with equal keys, stop events come first, in build order |
| Timeline.StopEventsAt | travel-planning-application/lib/timeline.ts:75-94 | stop i gives events 2i (arrival) and 2i+1 (departure) |
| Timeline.StopEventIdsDistinct | travel-planning-application/lib/timeline.ts:77-86 | stops with distinct ids give pairwise distinct event ids |
| Timeline.ActivityEventCosts | travel-planning-application/lib/timeline.ts:97-108 | every activity event comes from a dated row, by EventOf |
| Sorting.SortByCorrect | travel-planning-application/lib/timeline.ts:114 | the sort yields a sorted permutation of its input |
| Sorting.SortByStable | travel-planning-application/lib/timeline.ts:114 | the sort keeps the input order among tied elements |
| Sorting.Limit | travel-planning-application/lib/sharing.ts:32 | `LIMIT n` keeps the first n rows, or all of them when there are at most n; a negative limit keeps all |
| Sorting.LimitSortBy | travel-planning-application/lib/sharing.ts:31-32 | `ORDER BY ... LIMIT n` keeps the n best rows: exactly as many as the limit lets through, drawn from the input, sorted, and none left out ranks before one kept |
| Sorting.SortedPrefix | travel-planning-application/lib/sharing.ts:31-32 | a prefix of a sorted sequence is sorted and no element after it ranks before one in it |
| Seqs.MapAt | GlobeTrotter/client/src/pages/TripDetails.jsx:59 | `map` puts f of the i-th element at position i |
| Seqs.FilterCount | GlobeTrotter/client/src/pages/Dashboard.jsx:49-51 | `filter` keeps each selected element as often as the input holds it, and no other |
| Seqs.FilterSubsequence | GlobeTrotter/client/src/pages/Dashboard.jsx:49-51 | `filter` keeps its elements in input order |
| Seqs.FilterExact | GlobeTrotter/client/src/pages/Dashboard.jsx:49-51 | `filter` gives an ordered subsequence of its input holding every selected element with its multiplicity |
| Text.SplitPiecesFree | travel-planning-application/app/profile/page.tsx:44 | no piece of `split(" ")` contains the separator |
| Text.JoinSplit | travel-planning-application/app/profile/page.tsx:44 | joining the pieces with the separator gives the original string |
| Text.ParseIntToString | travel-planning-application/lib/sharing.ts:43 | `parseInt` reads back the decimal rendering of any integer |
| Profile.FirstChar | travel-planning-application/app/profile/page.tsx:45 | `n[0]`: the first character, or nothing for an empty piece |
| Profile.JoinNoSeparator | travel-planning-application/app/profile/page.tsx:46 | `join("")` concatenates the pieces |
| Profile.ConcatFirstCharsLength | travel-planning-application/app/profile/page.tsx:45-46 | the joined first characters are as many as the non-empty pieces |
| Profile.Initials | travel-planning-application/app/profile/page.tsx:43-47 | one character per non-empty space-separated piece, with no lower-case ASCII letter left |
| Profile.EmptyNameNoInitials | travel-planning-application/app/profile/page.tsx:43-47 | an empty name gives "" |
| Profile.SplitJoin | travel-planning-application/app/profile/page.tsx:44 | splitting single-space-joined words gives the words back |
| Profile.ConcatOfFirsts | travel-planning-application/app/profile/page.tsx:45-46 | for non-empty words, the concatenation is the sequence of their first letters |
| Profile.InitialsOfWords | travel-planning-application/app/profile/page.tsx:43-47 | for a name of words separated by single spaces, the initials are the upper-cased first letters in order |
| TripCard.CeilDiv | travel-planning-application/components/trip-card.tsx:17-19 | `Math.ceil(x / d)`: the least r with x ≤ r·d |
| TripCard.Duration | travel-planning-application/components/trip-card.tsx:17-19 | whole days, with a partial day counting as one; undefined when a date does not parse |
| TripCard.DurationUnique | travel-planning-application/components/trip-card.tsx:17-19 | the ceiling is the only day count with that property |
| TripCard.SameInstantZeroDays | travel-planning-application/components/trip-card.tsx:17-19 | the same start and end give 0 days |
| TripCard.PartialDayIsOneDay | travel-planning-application/components/trip-card.tsx:17-19 | a span of at most one day, but more than none, gives 1 day |
| TripCard.CityLabel | travel-planning-application/components/trip-card.tsx:55 | "1 city" for one, "0 cities" for a missing or zero count, otherwise the count followed by " cities" |
| TripCard.RenderCard | travel-planning-application/components/trip-card.tsx:16-58 | cover image exactly when cover_photo is truthy; "Public" badge exactly when is_public is 1; description exactly when truthy; the city label and the duration |
| TripCard.FromStats | travel-planning-application/components/trip-card.tsx:16 | the card input of a getUserTrips row keeps its stop count and public flag |
| TripCard.NewTripCard | travel-planning-application/lib/trips.ts:52-55 | a freshly created trip shows no badge and "0 cities", and shows a cover exactly when one was given |
| TripRoutes.ExtractToken | GlobeTrotter/server/routes/trips.js:11-12 | the token is a non-empty word without spaces; none without a header |
| TripRoutes.BearerToken | GlobeTrotter/server/routes/trips.js:12 | `Bearer <token>` yields the token |
| TripRoutes.OneWordNoToken | GlobeTrotter/server/routes/trips.js:12-14 | a one-word header yields no token |
| TripRoutes.Authenticate | GlobeTrotter/server/routes/trips.js:10-22 | 401 exactly when there is no token; 403 exactly when the token does not verify; otherwise the verified claims |
| TripRoutes.Denied | GlobeTrotter/server/routes/trips.js:14-17 | the status of a refused request is 401 or 403 |
| TripRoutes.NewTrip | GlobeTrotter/server/routes/trips.js:142-151 | the created trip has the caller's id; its description falls back to "Trip to " + location; its cover is getCoverImage(location) |
| TripRoutes.FindCityByName | GlobeTrotter/server/routes/trips.js:160 | a city with that name; none exactly when there is none |
| TripRoutes.Planned | GlobeTrotter/server/routes/trips.js:183-191 | a 'planned' activity row carrying the suggestion's fields |
| TripRoutes.FindUnique | GlobeTrotter/server/routes/trips.js:236 | `findUnique` by id (a trip, or the city of a stop): a row with that key; none exactly when no row has it |
| TripRoutes.OwnerGate | GlobeTrotter/server/routes/trips.js:220-221 | not found exactly when no trip has that id; otherwise owner or non-owner by userId |
| TripRoutes.GateResponse | GlobeTrotter/server/routes/trips.js:220-221 | 404 for a missing trip, 403 for another user's trip |
| TripRoutes.OrderAscTotal | GlobeTrotter/server/routes/trips.js:215 | ordering stops by `order` is a total preorder |
| TripRoutes.ViewStop | GlobeTrotter/server/routes/trips.js:211-214 | a stop with exactly its activities, in table order |
| TripRoutes.ViewTrip | GlobeTrotter/server/routes/trips.js:206-217 | the trip with exactly its stops, each as often as in the table, sorted by order |
| TripRoutes.SortedStops | GlobeTrotter/server/routes/trips.js:209-215 | sorting the stop views by order keeps the same stops with the same multiplicities |
| TripRoutes.StopIdsOf | GlobeTrotter/server/routes/trips.js:240 | the ids of the trip's stops |
| TripRoutes.Prisma.constructor | GlobeTrotter/server/routes/trips.js:132-246 | all tables start empty |
| TripRoutes.Prisma.InsertTrip | GlobeTrotter/server/routes/trips.js:142-151 | appends the trip; the other tables are unchanged |
| TripRoutes.Prisma.FindOrCreateCity | GlobeTrotter/server/routes/trips.js:160-169 | reuses the first city with that name, or creates one with country "Unknown" and cost index 1 |
| TripRoutes.Prisma.InsertStop | GlobeTrotter/server/routes/trips.js:171-179 | appends the stop; the other tables are unchanged |
| TripRoutes.Prisma.InsertPlanned | GlobeTrotter/server/routes/trips.js:182-193 | the loop appends one planned activity per suggestion |
| TripRoutes.Prisma.CreateTripRoute | GlobeTrotter/server/routes/trips.js:132-201 | auth refusals and 400 "Name and dates are required" change nothing; a missing location makes getCoverImage throw, giving 500 "Failed to create trip" with nothing created; otherwise 201 with the trip, plus a first stop and its curated activities when the location is truthy |
| TripRoutes.Prisma.CreateFirstStop | GlobeTrotter/server/routes/trips.js:154-193 | the city, the stop with order 1 and the trip's dates, and one planned activity per suggestion |
| TripRoutes.Prisma.GetTripRoute | GlobeTrotter/server/routes/trips.js:204-228 | refused, 404, 403, or 200 with the trip and its ordered stops |
| TripRoutes.Prisma.DeleteTripRoute | GlobeTrotter/server/routes/trips.js:231-246 | a refusal or gate failure changes nothing; the owner's delete removes the trip, its stops and their activities and answers "Trip deleted successfully" |
| TripRoutes.NonOwnerCannotDelete | GlobeTrotter/server/routes/trips.js:236-238 | a caller who does not own a trip can never delete it |
| Curated.RegionOf | GlobeTrotter/server/routes/trips.js:117-128 | the keyword chain, case-insensitive: each region is chosen exactly when one of its keywords occurs and no keyword of an earlier region does (chennai; bangalore or bengaluru; mysore or mysuru; europe; asia; america or usa); generic exactly when no keyword occurs |
| Curated.RegionIgnoresCase | GlobeTrotter/server/routes/trips.js:118 | the choice does not depend on letter case |
| Curated.GetCoverImage | GlobeTrotter/server/routes/trips.js:117-129 | the region's image; a TypeError exactly when the location is undefined |
| Curated.PhotoInjective | GlobeTrotter/server/routes/trips.js:104-112 | different photo ids give different image addresses |
| Curated.RegionList | GlobeTrotter/server/routes/trips.js:40-101 | five curated suggestions per named region |
| Curated.FallbackList | GlobeTrotter/server/routes/trips.js:104-112 | seven generic suggestions |
| Curated.FallbackDistinct | GlobeTrotter/server/routes/trips.js:104-112 | the generic suggestions are pairwise different, so a shuffle keeps four different ones |
| Curated.GetRandomTopActivities | GlobeTrotter/server/routes/trips.js:39-114 | the region's five suggestions, or four of the seven generic ones in some order |
| Dashboard.TripStatus | GlobeTrotter/client/src/pages/Dashboard.jsx:22-28 | completed exactly when now is past the end; ongoing exactly when not completed and start ≤ now ≤ end; upcoming otherwise |
| Dashboard.UpcomingBeforeStart | GlobeTrotter/client/src/pages/Dashboard.jsx:26-28 | for a well-formed trip, upcoming exactly when now is before the start |
| Dashboard.UnparsableEndUpcoming | GlobeTrotter/client/src/pages/Dashboard.jsx:25-28 | an unparsable end date (NaN) leaves the trip upcoming |
| Dashboard.StatusMonotone | GlobeTrotter/client/src/pages/Dashboard.jsx:26-28 | as time passes, status only moves from upcoming to ongoing to completed |
| Dashboard.FormatTrip | GlobeTrotter/client/src/pages/Dashboard.jsx:23-35 | the trip's fields are kept, the dates are displayed and the status is derived |
| Dashboard.FilteredTrips | GlobeTrotter/client/src/pages/Dashboard.jsx:49-51 | an ordered subsequence of the trips; a trip is kept exactly when its lower-cased name contains the lower-cased term, as often as it occurs |
| Dashboard.EmptySearchKeepsAll | GlobeTrotter/client/src/pages/Dashboard.jsx:49-51 | the empty term keeps every trip, in order |
| Dashboard.SearchIgnoresCase | GlobeTrotter/client/src/pages/Dashboard.jsx:50 | the result does not depend on the term's letter case |
| Dashboard.SearchFindsName | GlobeTrotter/client/src/pages/Dashboard.jsx:50 | searching for a trip's name finds it |
| Calendar.DaysIn | GlobeTrotter/client/src/pages/CalendarView.jsx:29-31 | 28 to 31 days; February has 29 exactly in leap years |
| Calendar.MonthOf | GlobeTrotter/client/src/pages/CalendarView.jsx:38 | a month index splits into a year and a month in 0..11 |
| Calendar.MonthLength | GlobeTrotter/client/src/pages/CalendarView.jsx:29-31 | the length of a month index is 28 to 31 days |
| Calendar.LeapsStep | GlobeTrotter/client/src/pages/CalendarView.jsx:29-35 | the leap-year count grows by one exactly at leap years |
| Calendar.MonthStep | GlobeTrotter/client/src/pages/CalendarView.jsx:29-35 | a month starts right after the previous one ends |
| Calendar.FirstOfMonthIncreasing | GlobeTrotter/client/src/pages/CalendarView.jsx:29-35 | later months start after earlier ones end |
| Calendar.DayNumberOrder | GlobeTrotter/client/src/pages/CalendarView.jsx:41-48 | comparing day numbers orders valid dates as the calendar does |
| Calendar.RollBack | GlobeTrotter/client/src/pages/CalendarView.jsx:30 | a day below 1 rolls back into earlier months, keeping the day number |
| Calendar.RollForward | GlobeTrotter/client/src/pages/CalendarView.jsx:42 | a day past the month's end rolls forward, keeping the day number |
| Calendar.Normalize | GlobeTrotter/client/src/pages/CalendarView.jsx:30-42 | an out-of-range month or day carries into a valid date with the same day number |
| Calendar.FullYear | GlobeTrotter/client/src/pages/CalendarView.jsx:30-42 | a year argument in 0..99 is read as 1900 plus it, any other year as itself |
| Calendar.MakeDate | GlobeTrotter/client/src/pages/CalendarView.jsx:30-42 | `new Date(y, m, d)` gives a valid date with the day number of the triple whose year is read as above |
| Calendar.NormalizeValid | GlobeTrotter/client/src/pages/CalendarView.jsx:34 | a valid date is left as it is |
| Calendar.MakeDateValid | GlobeTrotter/client/src/pages/CalendarView.jsx:34 | a valid date keeps its month and day; its year is kept outside 0..99 and becomes 19yy inside |
| Calendar.TwoDigitYears | GlobeTrotter/client/src/pages/CalendarView.jsx:30-38 | month 10 of year 99 is November 1999, month 12 of year 99 is January 2000, and February of year 0 has 28 days |
| Calendar.Weekday | GlobeTrotter/client/src/pages/CalendarView.jsx:34 | `getDay()` lies in 0..6 |
| Calendar.EpochIsThursday | GlobeTrotter/client/src/pages/CalendarView.jsx:34 | 1 January 1970 is a Thursday |
| Calendar.LastDayOfMonth | GlobeTrotter/client/src/pages/CalendarView.jsx:30 | day 0 of the next month is the last day of this month |
| Calendar.GetDaysInMonth | GlobeTrotter/client/src/pages/CalendarView.jsx:29-31 | the length of the month in the year the year is read as: 28 to 31, and 29 for February exactly when that year is a leap year |
| Calendar.GetFirstDayOfMonth | GlobeTrotter/client/src/pages/CalendarView.jsx:33-35 | the weekday of day 1 of the month, in the year the year is read as |
| Calendar.NextMonthStartsAfter | GlobeTrotter/client/src/pages/CalendarView.jsx:29-35 | next month's first weekday is this month's first weekday plus its length, mod 7 |
| Calendar.BlankCells | GlobeTrotter/client/src/pages/CalendarView.jsx:56-59 | n empty cells |
| Calendar.CalendarView.constructor | GlobeTrotter/client/src/pages/CalendarView.jsx:9-27 | the page starts at today with the fetched trips |
| Calendar.CalendarView.ChangeMonth | GlobeTrotter/client/src/pages/CalendarView.jsx:37-39 | moves exactly `offset` months from the current month with its year read as above, to day 1; outside years 0..99 exactly `offset` months from the current month |
| Calendar.CalendarView.DailyTrips | GlobeTrotter/client/src/pages/CalendarView.jsx:41-63 | an ordered subsequence of the trips; exactly the trips that cover the day (its year read as above), as often as they occur |
| Calendar.CalendarView.RenderCalendarDays | GlobeTrotter/client/src/pages/CalendarView.jsx:51-102 | firstDay blank cells, then one cell per day with its trips; at most 37 cells |
| Calendar.CoversInclusive | GlobeTrotter/client/src/pages/CalendarView.jsx:48 | a trip covers its first and its last day, and not the day before it starts |
| Calendar.ChangeMonthRoundTrip | GlobeTrotter/client/src/pages/CalendarView.jsx:37-39 | one month forward then one back returns to the same month of the year the year is read as; December of year -1 comes back as December 1899 |
| TripDetails.FromView | GlobeTrotter/server/routes/trips.js:223 | the page receives every stop with its activities |
| TripDetails.Costs | GlobeTrotter/client/src/pages/TripDetails.jsx:59 | the i-th cost is the cost of the i-th activity |
| TripDetails.StopsTotal | GlobeTrotter/client/src/pages/TripDetails.jsx:58-60 | a TypeError exactly when some stop lacks activities; otherwise the sum of all activity costs, which is also the sum of the per-stop sums |
| TripDetails.TotalCost | GlobeTrotter/client/src/pages/TripDetails.jsx:58-60 | 0 when the trip has no stops; otherwise the nested reduce |
| TripDetails.ServerTripTotal | GlobeTrotter/client/src/pages/TripDetails.jsx:58-60 | a trip as the server sends it never throws, and totals all its activity costs |
| TripDetails.TotalIgnoresStopOrder | GlobeTrotter/client/src/pages/TripDetails.jsx:58-60 | reordering the stops does not change the total |
| TripDetails.TotalIgnoresActivityOrder | GlobeTrotter/client/src/pages/TripDetails.jsx:59 | reordering one stop's activities does not change the total |
| TripDetails.ExpenseLabel | GlobeTrotter/client/src/pages/TripDetails.jsx:196 | "Free" exactly when the cost is not positive; otherwise "$" followed by the cost |
| TripDetails.DayLabel | GlobeTrotter/client/src/pages/TripDetails.jsx:143 | "Day " followed by index + 1 |
| TripDetails.Card | GlobeTrotter/client/src/pages/TripDetails.jsx:148-171 | the image, or the generic travel image when imageUrl is empty; a type badge exactly when the type is non-empty |
| TripDetails.RowAt | GlobeTrotter/client/src/pages/TripDetails.jsx:131-206 | a stop's day label, cards and expense labels; a placeholder exactly when it has no activities; a connector exactly when it is not the last stop |
| TripDetails.ConnectorCount | GlobeTrotter/client/src/pages/TripDetails.jsx:203 | n stops show n - 1 connectors |

## Left out

- React rendering, hooks, routing, toasts and fetch calls are not modelled; only the values the pages compute are. This includes the dashboard header, whose initials code is the same computation as `Profile.Initials`.
- lib/db.ts is not part of this model. It loads sql.js and serialises the database to localStorage; the model uses in-memory tables instead.
- The Express and Prisma wiring, the server entry points and the Python scripts are not modelled.
- The `GET /` list route of server/routes/trips.js (lines 25-36) is not modelled. It is a plain find-many by user.
- `getAllCities`, `getCityById` (lib/itinerary.ts) and `getTripExpenses` (lib/budget.ts) are not modelled. They are single-table reads with no rule beyond what the modelled queries show.
- `copyToClipboard` (lib/sharing.ts) is browser I/O and is not modelled.
- bcrypt and `jwt.verify` are foreign libraries. The hash is a parameter `string -> string`, a comparison succeeds when the hashes are equal, and `verify` is a parameter returning the claims or nothing.
- The `Math.random` order of the generic suggestions is not modelled. `Curated.GetRandomTopActivities` picks any permutation.
- Parsing with `new Date(string)`, time zones, `toLocaleDateString` and `localeCompare` collation are not modelled. Date parsing and display are parameters; ISO date strings compare by code point.
- SQL ORDER BY ties are kept in table order. SQLite promises no particular order among ties.
- The expense query of the budget breakdown (lib/budget.ts:38-46) has GROUP BY but no ORDER BY, so the order of its rows is a parameter `order`: any arrangement of the distinct categories, each once. Which later group wins a case collision depends on that order.
- Budget.BreakdownTotalExceeds: does not cover a category that lower-cases to `__proto__`. That category is outside the four buckets but is never stored, so it adds nothing to `total`; Budget.ProtoCategoryExample states that case.
- Budget.Get: reads own properties only. `acc.__proto__` would give Object.prototype, but the breakdown reads only the four bucket keys.
- `CURRENT_TIMESTAMP` has one-second resolution, so two rows could tie. The model uses a strictly increasing logical clock instead.
- Trips.GetUserTrips: does not state the `total_cost` column. The three LEFT JOINs fan out and multiply that sum.
- Money is modelled as integers. Floating-point costs, `toFixed`, and the float `costIndex` (stored as 1) are not modelled.
- Prisma ids are the naturals issued by the `nextId` counter; the uuid format is not modelled.
- The Prisma schema is not part of this model. `DELETE /:id` is modelled as cascading to the trip's stops and their activities, as the data model describes.
- Prisma failures other than the missing-location TypeError in POST (500 "Failed to create trip") are not modelled. This includes failures in GET and DELETE.
- The coverImage field of the POST body is read but never used, and it is ignored here too; `encodeURIComponent` on the client is not modelled.
- SQLite LIKE wildcards inside the query string (`%`, `_`) are not modelled. The query is matched as a plain substring, ignoring ASCII case.
- Case mapping covers ASCII letters only; Unicode case folding is not modelled. Strings are sequences of characters, so `n[0]` of the initials is a whole character, where JavaScript takes one UTF-16 code unit (half of a surrogate pair for characters outside the Basic Multilingual Plane).
- The "Failed to create user" branch of `registerUser` (lib/auth.ts:46-48) is not modelled separately. The model always reads back the inserted row.
- The trips table's `is_public` default is taken as 0, the value a fresh trip shows.
- TripDetails.Card: does not state the activity description fallback (TripDetails.jsx:171) or the styling.
- Driver failures are modelled only on the first statement of each library function. A failure between an INSERT and its read-back is not modelled.
