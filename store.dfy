/** The application's database as one mutable object: the tables of the
    in-browser SQLite file and the clock behind CURRENT_TIMESTAMP. Each
    method is one library function that runs INSERT, UPDATE or DELETE
    statements (lib/itinerary.ts, lib/trips.ts, lib/budget.ts, lib/auth.ts).
    `fault` says whether the database driver throws on the first statement;
    the library then catches the error and returns its failure value. */
module Store {
  import opened Wrappers
  import opened Seqs
  import opened Schema
  import opened Sql
  import opened Itinerary
  import opened Trips
  import opened Auth
  import opened Budget

  class Store {
    var db: Tables
    /** The next CURRENT_TIMESTAMP: later statements see later times. */
    var clock: nat

    /** Every stored timestamp lies in the past. */
    ghost predicate Valid()
      reads this
    {
      && (forall u :: u in db.users ==> u.createdAt < clock)
      && (forall t :: t in db.trips ==> t.createdAt < clock)
      && (forall s :: s in db.stops ==> s.createdAt < clock)
      && (forall e :: e in db.tripActivities ==> e.createdAt < clock)
    }

    constructor(catalog: seq<City>, activities: seq<Activity>)
      ensures Valid()
      ensures db == EmptyTables.(cities := catalog, activities := activities)
    {
      db := EmptyTables.(cities := catalog, activities := activities);
      clock := 0;
    }

    /** `addTripStop`: append the stop with the next order of its trip, then
        read back the trip's newest stop, which is the one just added. */
    method AddTripStop(tripId: Id, cityId: Id, arrivalDate: string, departureDate: string,
                       notes: Option<string>, fault: bool) returns (r: Option<TripStop>)
      requires Valid()
      modifies this
      ensures Valid()
      ensures fault ==> r.None? && db == old(db) && clock == old(clock)
      ensures !fault ==>
                var row := NewStop(old(db.stops), tripId, cityId, arrivalDate, departureDate, notes, old(clock));
                && db == old(db).(stops := old(db.stops) + [row])
                && r == Some(row)
                && clock == old(clock) + 1
    {
      if fault {
        return None;
      }
      var row := NewStop(db.stops, tripId, cityId, arrivalDate, departureDate, notes, clock);
      LatestStopIsNewest(db.stops, row);
      db := db.(stops := db.stops + [row]);
      clock := clock + 1;
      r := LatestStop(db.stops, tripId);
    }

    /** `deleteTripStop`: remove the row with that id and nothing else. */
    method DeleteTripStop(stopId: Id, fault: bool) returns (ok: bool)
      requires Valid()
      modifies this
      ensures Valid() && ok == !fault && clock == old(clock)
      ensures db == old(db).(stops := if fault then old(db.stops) else Filter(old(db.stops), StopIdIsNot, stopId))
    {
      if fault {
        return false;
      }
      db := db.(stops := Filter(db.stops, StopIdIsNot, stopId));
      ok := true;
    }

    /** `addTripActivity`: append the entry, then read back the stop's newest
        entry, which is the one just added. */
    method AddTripActivity(tripStopId: Id, activityId: Id, scheduledDate: Option<string>,
                           scheduledTime: Option<string>, actualCost: Option<int>, fault: bool)
      returns (r: Option<TripActivity>)
      requires Valid()
      modifies this
      ensures Valid()
      ensures fault ==> r.None? && db == old(db) && clock == old(clock)
      ensures !fault ==>
                var row := NewTripActivity(old(db.tripActivities), tripStopId, activityId, scheduledDate,
                                           scheduledTime, actualCost, old(clock));
                && db == old(db).(tripActivities := old(db.tripActivities) + [row])
                && r == Some(row)
                && clock == old(clock) + 1
    {
      if fault {
        return None;
      }
      var row := NewTripActivity(db.tripActivities, tripStopId, activityId, scheduledDate, scheduledTime,
                                 actualCost, clock);
      LatestTripActivityIsNewest(db.tripActivities, row);
      db := db.(tripActivities := db.tripActivities + [row]);
      clock := clock + 1;
      r := LatestTripActivity(db.tripActivities, tripStopId);
    }

    /** `deleteTripActivity`: remove the entry with that id and nothing else. */
    method DeleteTripActivity(entryId: Id, fault: bool) returns (ok: bool)
      requires Valid()
      modifies this
      ensures Valid() && ok == !fault && clock == old(clock)
      ensures db == old(db).(tripActivities :=
                if fault then old(db.tripActivities) else Filter(old(db.tripActivities), TripActivityIdIsNot, entryId))
    {
      if fault {
        return false;
      }
      db := db.(tripActivities := Filter(db.tripActivities, TripActivityIdIsNot, entryId));
      ok := true;
    }

    /** `updateTripActivity`: the statement fails (false, nothing changes)
        when the driver fails, when there are no keys (an empty SET list) and
        when a key is a joined column the table lacks; otherwise the row with
        that id is updated, and the answer is true even if no row has it. */
    method UpdateTripActivity(entryId: Id, us: seq<TripActivityUpdate>, fault: bool) returns (ok: bool)
      requires Valid()
      modifies this
      ensures Valid() && clock == old(clock)
      ensures ok <==> !fault && UpdateAccepted(us)
      ensures db == old(db).(tripActivities :=
                if ok then UpdateEntries(old(db.tripActivities), entryId, us) else old(db.tripActivities))
    {
      if fault || !UpdateAccepted(us) {
        return false;
      }
      var entries := UpdateEntries(db.tripActivities, entryId, us);
      assert forall e :: e in entries ==> e.createdAt < clock by {
        forall e | e in entries
          ensures e.createdAt < clock
        {
          var i :| 0 <= i < |entries| && entries[i] == e;
          assert db.tripActivities[i] in db.tripActivities;
        }
      }
      db := db.(tripActivities := entries);
      ok := true;
    }

    /** `createTrip`: insert the trip, then read back the user's newest trip,
        which is the one just added. */
    method CreateTrip(userId: Id, name: string, description: string, startDate: string, endDate: string,
                      coverPhoto: Option<string>, fault: bool) returns (r: Option<Trip>)
      requires Valid()
      modifies this
      ensures Valid()
      ensures fault ==> r.None? && db == old(db) && clock == old(clock)
      ensures !fault ==>
                var row := NewTrip(old(db.trips), userId, name, description, startDate, endDate, coverPhoto, old(clock));
                && db == old(db).(trips := old(db.trips) + [row])
                && r == Some(row)
                && clock == old(clock) + 1
    {
      if fault {
        return None;
      }
      var row := NewTrip(db.trips, userId, name, description, startDate, endDate, coverPhoto, clock);
      LatestTripIsNewest(db.trips, row);
      db := db.(trips := db.trips + [row]);
      clock := clock + 1;
      r := LatestTrip(db.trips, userId);
    }

    /** `updateTrip`: false with nothing changed when the driver fails or
        there are no keys (`SET , updated_at`); otherwise the row with that id
        gets the new values and a new updated_at. */
    method UpdateTrip(tripId: Id, us: seq<TripUpdate>, fault: bool) returns (ok: bool)
      requires Valid()
      modifies this
      ensures Valid()
      ensures ok <==> !fault && us != []
      ensures !ok ==> db == old(db) && clock == old(clock)
      ensures ok ==> db == old(db).(trips := UpdateTrips(old(db.trips), tripId, us, old(clock)))
                     && clock == old(clock) + 1
    {
      if fault || us == [] {
        return false;
      }
      var trips := UpdateTrips(db.trips, tripId, us, clock);
      assert forall t :: t in trips ==> t.createdAt < clock by {
        forall t | t in trips
          ensures t.createdAt < clock
        {
          var i :| 0 <= i < |trips| && trips[i] == t;
          assert db.trips[i] in db.trips;
        }
      }
      db := db.(trips := trips);
      clock := clock + 1;
      ok := true;
    }

    /** `deleteTrip`: remove the trip row with that id and nothing else. */
    method DeleteTrip(tripId: Id, fault: bool) returns (ok: bool)
      requires Valid()
      modifies this
      ensures Valid() && ok == !fault && clock == old(clock)
      ensures db == old(db).(trips := if fault then old(db.trips) else Filter(old(db.trips), TripIdIsNot, tripId))
    {
      if fault {
        return false;
      }
      db := db.(trips := Filter(db.trips, TripIdIsNot, tripId));
      ok := true;
    }

    /** `registerUser`: refuse a known email with the table unchanged;
        otherwise store the hash of the password and answer with the new row
        without its hash. */
    method RegisterUser(email: string, password: string, name: string, hash: string -> string, fault: bool)
      returns (r: AuthResponse)
      requires Valid()
      modifies this
      ensures Valid()
      ensures fault ==> r == Failure(RegistrationFailed) && db == old(db) && clock == old(clock)
      ensures !fault && FindByEmail(old(db.users), email).Some? ==>
                r == Failure(UserExists) && db == old(db) && clock == old(clock)
      ensures !fault && FindByEmail(old(db.users), email).None? ==>
                var row := NewUser(old(db.users), email, hash(password), name, old(clock));
                && db == old(db).(users := old(db.users) + [row])
                && r == AuthResponse(true, Some(WithoutHash(row)), None)
                && clock == old(clock) + 1
    {
      if fault {
        return Failure(RegistrationFailed);
      }
      if FindByEmail(db.users, email).Some? {
        return Failure(UserExists);
      }
      var row := NewUser(db.users, email, hash(password), name, clock);
      FoundAfterInsert(db.users, row);
      db := db.(users := db.users + [row]);
      clock := clock + 1;
      var found := FindByEmail(db.users, email);
      r := AuthResponse(true, Some(WithoutHash(found.value)), None);
    }

    /** `addTripExpense`: append the expense row. */
    method AddTripExpense(tripId: Id, category: string, description: string, amount: int,
                          expenseDate: string, tripStopId: Option<Id>, fault: bool) returns (ok: bool)
      requires Valid()
      modifies this
      ensures Valid() && ok == !fault && clock == old(clock)
      ensures db == old(db).(expenses := if fault then old(db.expenses) else
                old(db.expenses) + [NewExpense(old(db.expenses), tripId, category, description, amount,
                                               expenseDate, tripStopId)])
    {
      if fault {
        return false;
      }
      var row := NewExpense(db.expenses, tripId, category, description, amount, expenseDate, tripStopId);
      db := db.(expenses := db.expenses + [row]);
      ok := true;
    }
  }
}
