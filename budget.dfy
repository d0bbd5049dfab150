/** The budget views of lib/budget.ts: the per-trip breakdown (activity costs
    plus expenses folded by lower-cased category) and the per-day series. */
module Budget {
  import opened Wrappers
  import opened Seqs
  import opened Text
  import opened Sorting
  import opened Schema

  // ------------------------------------------------------ activity costs

  /** `COALESCE(ta.actual_cost, a.estimated_cost)` of an entry that joins its
      catalog activity and a stop of the trip; None when a join drops it or the
      stop belongs to another trip. An actual cost of 0 is kept. */
  function JoinedCost(e: TripActivity, activities: seq<Activity>, stops: seq<TripStop>, tripId: Id): (r: Option<int>)
    ensures r.Some? <==> LookupActivity(activities, e.activityId).Some? && LookupStop(stops, e.tripStopId).Some?
                         && LookupStop(stops, e.tripStopId).value.tripId == tripId
    ensures r.Some? && e.actualCost.Some? ==> r.value == e.actualCost.value
    ensures r.Some? && e.actualCost.None? ==> r.value == LookupActivity(activities, e.activityId).value.estimatedCost
  {
    var a := LookupActivity(activities, e.activityId);
    var s := LookupStop(stops, e.tripStopId);
    if a.Some? && s.Some? && s.value.tripId == tripId then Some(e.actualCost.GetOr(a.value.estimatedCost))
    else None
  }

  /** No entry joins an activity and a stop of the trip. */
  predicate NoJoinedEntry(entries: seq<TripActivity>, activities: seq<Activity>, stops: seq<TripStop>, tripId: Id)
  {
    forall i :: 0 <= i < |entries| ==> JoinedCost(entries[i], activities, stops, tripId).None?
  }

  /** The coalesced costs of the joined rows, in table order. */
  function ActivityCosts(entries: seq<TripActivity>, activities: seq<Activity>, stops: seq<TripStop>, tripId: Id)
    : (r: seq<int>)
    ensures |r| <= |entries|
    ensures forall c :: c in r ==> exists e :: e in entries && JoinedCost(e, activities, stops, tripId) == Some(c)
    ensures NoJoinedEntry(entries, activities, stops, tripId) ==> r == []
  {
    if entries == [] then []
    else
      var e := entries[|entries| - 1];
      ActivityCosts(entries[..|entries| - 1], activities, stops, tripId)
        + (if JoinedCost(e, activities, stops, tripId).Some? then [JoinedCost(e, activities, stops, tripId).value] else [])
  }

  /** `COALESCE(SUM(COALESCE(ta.actual_cost, a.estimated_cost)), 0)`, then
      `|| 0`. */
  function ActivitiesTotal(db: Tables, tripId: Id): (r: int)
    ensures NoJoinedEntry(db.tripActivities, db.activities, db.stops, tripId) ==> r == 0
  {
    Sum(ActivityCosts(db.tripActivities, db.activities, db.stops, tripId))
  }

  /** Scheduling one more activity adds its coalesced cost to the total of
      its trip and leaves every other trip's total as it was. */
  lemma ActivitiesTotalAfterInsert(db: Tables, tripId: Id, row: TripActivity)
    ensures ActivitiesTotal(db.(tripActivities := db.tripActivities + [row]), tripId)
            == ActivitiesTotal(db, tripId) + JoinedCost(row, db.activities, db.stops, tripId).GetOr(0)
  {
    var entries := db.tripActivities + [row];
    assert entries[..|entries| - 1] == db.tripActivities;
    var costs := ActivityCosts(db.tripActivities, db.activities, db.stops, tripId);
    var c := JoinedCost(row, db.activities, db.stops, tripId);
    SumAppend(costs, if c.Some? then [c.value] else []);
    if c.Some? {
      SumSingleton(c.value);
    }
  }

  // ------------------------------------------------------------- expenses

  /** The trip's expense rows: `FROM trip_expenses WHERE trip_id = ?`. */
  function TripExpenses(db: Tables, tripId: Id): seq<TripExpense>
  {
    Filter(db.expenses, ExpenseOfTrip, tripId)
  }

  /** The distinct categories, in order of first appearance: one order in
      which the grouped rows may come back. */
  function Categories(exps: seq<TripExpense>): (r: seq<string>)
    ensures Distinct(r)
    ensures forall c :: c in r <==> exists e :: e in exps && e.category == c
  {
    if exps == [] then []
    else
      var init := Categories(exps[..|exps| - 1]);
      var c := exps[|exps| - 1].category;
      assert forall e :: e in exps ==> e in exps[..|exps| - 1] || e == exps[|exps| - 1];
      if c in init then init else init + [c]
  }

  /** `SUM(amount)` over the rows of one category (exact, case-sensitive
      comparison, as SQLite's default collation groups). */
  function CategoryTotal(exps: seq<TripExpense>, c: string): int
  {
    if exps == [] then 0
    else
      var e := exps[|exps| - 1];
      CategoryTotal(exps[..|exps| - 1], c) + (if e.category == c then e.amount else 0)
  }

  /** A row of `SELECT category, COALESCE(SUM(amount), 0) ... GROUP BY category`. */
  datatype Group = Group(category: string, total: int)

  /** The order of the grouped rows. The query has no ORDER BY, so SQLite
      promises none: any arrangement of the distinct categories, each once. */
  ghost predicate GroupOrder(order: seq<string>, exps: seq<TripExpense>)
  {
    Distinct(order) && forall c :: c in order <==> exists e :: e in exps && e.category == c
  }

  /** The order of first appearance is one such order. */
  lemma CategoriesGroupOrder(exps: seq<TripExpense>)
    ensures GroupOrder(Categories(exps), exps)
  {
  }

  /** The grouped rows, in the given order of categories. */
  function ExpenseGroups(exps: seq<TripExpense>, order: seq<string>): (r: seq<Group>)
    ensures |r| == |order|
    ensures forall i :: 0 <= i < |r| ==> r[i] == Group(order[i], CategoryTotal(exps, order[i]))
  {
    seq(|order|, i requires 0 <= i < |order| => Group(order[i], CategoryTotal(exps, order[i])))
  }

  /** The sum of the group totals. */
  function GroupsTotal(gs: seq<Group>): int
  {
    if gs == [] then 0 else GroupsTotal(gs[..|gs| - 1]) + gs[|gs| - 1].total
  }

  /** The sum of the expense amounts. */
  function AmountsTotal(exps: seq<TripExpense>): int
  {
    if exps == [] then 0 else AmountsTotal(exps[..|exps| - 1]) + exps[|exps| - 1].amount
  }

  lemma ExpenseGroupsStep(exps: seq<TripExpense>, order: seq<string>)
    requires order != []
    ensures GroupsTotal(ExpenseGroups(exps, order))
         == GroupsTotal(ExpenseGroups(exps, order[..|order| - 1])) + CategoryTotal(exps, order[|order| - 1])
  {
    assert ExpenseGroups(exps, order)[..|order| - 1] == ExpenseGroups(exps, order[..|order| - 1]);
  }

  lemma {:induction false} NoExpensesNoTotals(order: seq<string>)
    ensures GroupsTotal(ExpenseGroups([], order)) == 0
    decreases |order|
  {
    if order != [] {
      NoExpensesNoTotals(order[..|order| - 1]);
      ExpenseGroupsStep([], order);
    }
  }

  /** One more expense adds its amount to the group of its category. */
  lemma {:induction false} ExpenseGroupsAdd(exps: seq<TripExpense>, e: TripExpense, order: seq<string>)
    requires Distinct(order)
    ensures GroupsTotal(ExpenseGroups(exps + [e], order))
         == GroupsTotal(ExpenseGroups(exps, order)) + (if e.category in order then e.amount else 0)
    decreases |order|
  {
    if order != [] {
      var n := |order| - 1;
      ExpenseGroupsAdd(exps, e, order[..n]);
      ExpenseGroupsStep(exps + [e], order);
      ExpenseGroupsStep(exps, order);
      assert (exps + [e])[..|exps|] == exps;
      assert e.category in order <==> e.category in order[..n] || e.category == order[n] by {
        assert order == order[..n] + [order[n]];
      }
      assert order[n] !in order[..n];
    }
  }

  /** Grouping loses no amount: over an order that holds every category
      once, the group totals add up to the sum of the amounts. */
  lemma {:induction false} ExpenseGroupsTotal(exps: seq<TripExpense>, order: seq<string>)
    requires Distinct(order)
    requires forall e :: e in exps ==> e.category in order
    ensures GroupsTotal(ExpenseGroups(exps, order)) == AmountsTotal(exps)
    decreases |exps|
  {
    if exps == [] {
      NoExpensesNoTotals(order);
    } else {
      var init := exps[..|exps| - 1];
      ExpenseGroupsTotal(init, order);
      SplitLast(exps);
      ExpenseGroupsAdd(init, exps[|exps| - 1], order);
    }
  }

  // ------------------------------------- the JavaScript object of the fold

  /** A property of a plain JavaScript object, which keeps its keys in
      insertion order. */
  datatype Entry = Entry(key: string, value: int)

  predicate KeysDistinct(acc: seq<Entry>)
  {
    forall i, j :: 0 <= i < j < |acc| ==> acc[i].key != acc[j].key
  }

  /** The one key a plain object does not store as its own property:
      assigning to it runs the setter inherited from Object.prototype, which
      ignores a number. */
  const ProtoKey := "__proto__"

  /** `acc[k]` for an own property: undefined (None) when the key is absent. */
  function Get(acc: seq<Entry>, k: string): (r: Option<int>)
    ensures r.None? <==> forall i :: 0 <= i < |acc| ==> acc[i].key != k
  {
    if acc == [] then None
    else if acc[0].key == k then Some(acc[0].value)
    else Get(acc[1..], k)
  }

  /** `acc[k] = v`: for `__proto__` nothing is stored, any other key is
      written as an own property. */
  function Put(acc: seq<Entry>, k: string, v: int): (r: seq<Entry>)
    ensures k == ProtoKey ==> r == acc
    ensures k != ProtoKey ==> Get(r, k) == Some(v)
    ensures forall k' :: k' != k ==> Get(r, k') == Get(acc, k')
    ensures KeysDistinct(acc) ==> KeysDistinct(r)
  {
    if k == ProtoKey then acc else Assign(acc, k, v)
  }

  /** Writing an own property: overwrite in place when the key exists,
      append otherwise. */
  function Assign(acc: seq<Entry>, k: string, v: int): (r: seq<Entry>)
    ensures Get(r, k) == Some(v)
    ensures forall k' :: k' != k ==> Get(r, k') == Get(acc, k')
    ensures KeysDistinct(acc) ==> KeysDistinct(r)
  {
    if acc == [] then [Entry(k, v)]
    else if acc[0].key == k then
      var r := [Entry(k, v)] + acc[1..];
      assert r[1..] == acc[1..];
      r
    else
      var rest := Assign(acc[1..], k, v);
      var r := [acc[0]] + rest;
      assert r[1..] == rest;
      assert KeysDistinct(acc) ==> Get(acc[1..], acc[0].key).None?;
      r
  }

  /** `Object.values(acc).reduce((sum, val) => sum + val, 0)`. */
  function ValuesSum(acc: seq<Entry>): int
  {
    if acc == [] then 0 else acc[0].value + ValuesSum(acc[1..])
  }

  /** Overwriting a key replaces its old value in the sum; writing
      `__proto__` leaves the sum as it is. */
  lemma {:induction false} ValuesSumPut(acc: seq<Entry>, k: string, v: int)
    requires KeysDistinct(acc)
    ensures ValuesSum(Put(acc, k, v))
         == if k == ProtoKey then ValuesSum(acc) else ValuesSum(acc) - Get(acc, k).GetOr(0) + v
    decreases |acc|
  {
    if k == ProtoKey {
    } else if acc != [] && acc[0].key != k {
      ValuesSumPut(acc[1..], k, v);
      assert [acc[0]] + Put(acc[1..], k, v) == Put(acc, k, v);
      assert ([acc[0]] + Put(acc[1..], k, v))[1..] == Put(acc[1..], k, v);
    } else if acc != [] {
      assert Get(acc[1..], k).None?;
      assert ([Entry(k, v)] + acc[1..])[1..] == acc[1..];
    }
  }

  /** The imperative fold `acc[row.category.toLowerCase()] = row.total`,
      written as a function over the groups. */
  function FoldGroups(gs: seq<Group>): (r: seq<Entry>)
    ensures KeysDistinct(r)
  {
    if gs == [] then []
    else Put(FoldGroups(gs[..|gs| - 1]), Lower(gs[|gs| - 1].category), gs[|gs| - 1].total)
  }

  /** The total of the last group whose lower-cased category is k. */
  function LastWithKey(gs: seq<Group>, k: string): Option<int>
  {
    if gs == [] then None
    else if Lower(gs[|gs| - 1].category) == k then Some(gs[|gs| - 1].total)
    else LastWithKey(gs[..|gs| - 1], k)
  }

  /** After the fold, key k holds the total of the LAST group whose category
      lower-cases to k: categories differing only in case overwrite each
      other, and no group is looked up by its exact spelling. A category
      that lower-cases to `__proto__` leaves no property. */
  lemma {:induction false} FoldGroupsGet(gs: seq<Group>, k: string)
    ensures Get(FoldGroups(gs), k) == if k == ProtoKey then None else LastWithKey(gs, k)
    decreases |gs|
  {
    if gs != [] {
      FoldGroupsGet(gs[..|gs| - 1], k);
    }
  }

  /** The fold as the source runs it: a loop over the grouped rows writing
      one property per row. */
  method CategoryTotals(gs: seq<Group>) returns (acc: seq<Entry>)
    ensures acc == FoldGroups(gs)
  {
    acc := [];
    var i := 0;
    while i < |gs|
      invariant 0 <= i <= |gs|
      invariant acc == FoldGroups(gs[..i])
    {
      assert gs[..i + 1][..i] == gs[..i];
      acc := Put(acc, Lower(gs[i].category), gs[i].total);
      i := i + 1;
    }
    assert gs[..i] == gs;
  }

  // ------------------------------------------------------------ breakdown

  datatype Breakdown = Breakdown(total: int, activities: int, transport: int,
                                 accommodation: int, meals: int, other: int)

  const ZeroBreakdown := Breakdown(0, 0, 0, 0, 0, 0)

  /** `expensesByCategory.k || 0`. */
  function Field(acc: seq<Entry>, k: string): int
  {
    Get(acc, k).GetOr(0)
  }

  predicate Named(k: string)
  {
    k == "transport" || k == "accommodation" || k == "meals" || k == "other"
  }

  /** The sum of the values whose key is none of the four named buckets. */
  function UnnamedSum(acc: seq<Entry>): int
  {
    if acc == [] then 0 else (if Named(acc[0].key) then 0 else acc[0].value) + UnnamedSum(acc[1..])
  }

  function FromFold(activities: int, acc: seq<Entry>): Breakdown
  {
    Breakdown(activities + ValuesSum(acc), activities, Field(acc, "transport"),
              Field(acc, "accommodation"), Field(acc, "meals"), Field(acc, "other"))
  }

  /** `getTripBudgetBreakdown` as a value, for the group order the database
      returns: all zeros when a query fails. */
  function BreakdownOf(db: Tables, tripId: Id, order: seq<string>, fault: bool): (r: Breakdown)
    ensures fault ==> r == ZeroBreakdown
  {
    if fault then ZeroBreakdown
    else FromFold(ActivitiesTotal(db, tripId), FoldGroups(ExpenseGroups(TripExpenses(db, tripId), order)))
  }

  /** `getTripBudgetBreakdown`: the two queries, then the fold loop; `order`
      is the order in which the database returns the groups. */
  method GetTripBudgetBreakdown(db: Tables, tripId: Id, order: seq<string>, fault: bool) returns (b: Breakdown)
    requires GroupOrder(order, TripExpenses(db, tripId))
    ensures b == BreakdownOf(db, tripId, order, fault)
  {
    if fault {
      return ZeroBreakdown;
    }
    var activitiesTotal := ActivitiesTotal(db, tripId);
    var groups := ExpenseGroups(TripExpenses(db, tripId), order);
    var acc := CategoryTotals(groups);
    b := FromFold(activitiesTotal, acc);
  }

  /** With distinct keys, the sum of all values is the four named buckets
      plus every other key. */
  lemma {:induction false} ValuesSumSplit(acc: seq<Entry>)
    requires KeysDistinct(acc)
    ensures ValuesSum(acc) == Field(acc, "transport") + Field(acc, "accommodation")
                              + Field(acc, "meals") + Field(acc, "other") + UnnamedSum(acc)
    decreases |acc|
  {
    if acc != [] {
      ValuesSumSplit(acc[1..]);
      var k := acc[0].key;
      assert Get(acc[1..], k).None?;
    }
  }

  /** `total` is `activities` plus the four buckets plus every category
      outside them. */
  lemma BreakdownTotal(db: Tables, tripId: Id, order: seq<string>)
    ensures var b := BreakdownOf(db, tripId, order, false);
      b.total == b.activities + b.transport + b.accommodation + b.meals + b.other
                 + UnnamedSum(FoldGroups(ExpenseGroups(TripExpenses(db, tripId), order)))
  {
    ValuesSumSplit(FoldGroups(ExpenseGroups(TripExpenses(db, tripId), order)));
  }

  /** Every key of the fold is the lower-cased category of some group, and
      none is `__proto__`. */
  lemma FoldKeys(gs: seq<Group>, i: int)
    requires 0 <= i < |FoldGroups(gs)|
    ensures exists j :: 0 <= j < |gs| && Lower(gs[j].category) == FoldGroups(gs)[i].key
    ensures FoldGroups(gs)[i].key != ProtoKey
  {
    var k := FoldGroups(gs)[i].key;
    FoldGroupsGet(gs, k);
    LastWithKeyValue(gs, k);
  }

  lemma {:induction false} UnnamedSumZero(acc: seq<Entry>)
    requires forall i :: 0 <= i < |acc| ==> Named(acc[i].key)
    ensures UnnamedSum(acc) == 0
    decreases |acc|
  {
    if acc != [] {
      UnnamedSumZero(acc[1..]);
    }
  }

  lemma {:induction false} UnnamedSumPositive(acc: seq<Entry>, i: int)
    requires forall j :: 0 <= j < |acc| ==> acc[j].value > 0
    requires 0 <= i < |acc| && !Named(acc[i].key)
    ensures UnnamedSum(acc) > 0
    decreases |acc|
  {
    if i > 0 {
      UnnamedSumPositive(acc[1..], i - 1);
    } else {
      UnnamedSumNonNegative(acc[1..]);
    }
  }

  lemma {:induction false} UnnamedSumNonNegative(acc: seq<Entry>)
    requires forall j :: 0 <= j < |acc| ==> acc[j].value >= 0
    ensures UnnamedSum(acc) >= 0
    decreases |acc|
  {
    if acc != [] {
      UnnamedSumNonNegative(acc[1..]);
    }
  }

  /** When every category lower-cases to one of the four buckets, `total` is
      exactly the sum of the five other fields. */
  lemma BreakdownTotalExact(db: Tables, tripId: Id, order: seq<string>)
    requires GroupOrder(order, TripExpenses(db, tripId))
    requires forall e :: e in TripExpenses(db, tripId) ==> Named(Lower(e.category))
    ensures var b := BreakdownOf(db, tripId, order, false);
      b.total == b.activities + b.transport + b.accommodation + b.meals + b.other
  {
    var exps := TripExpenses(db, tripId);
    var gs := ExpenseGroups(exps, order);
    var acc := FoldGroups(gs);
    forall i | 0 <= i < |acc|
      ensures Named(acc[i].key)
    {
      FoldKeys(gs, i);
      var j :| 0 <= j < |gs| && Lower(gs[j].category) == acc[i].key;
      assert gs[j].category in order;
    }
    UnnamedSumZero(acc);
    BreakdownTotal(db, tripId, order);
  }

  /** With positive group totals, a category outside the four buckets makes
      `total` exceed the sum of the five other fields, unless it lower-cases
      to `__proto__`, which is never stored. */
  lemma BreakdownTotalExceeds(db: Tables, tripId: Id, order: seq<string>, e: TripExpense)
    requires GroupOrder(order, TripExpenses(db, tripId))
    requires e in TripExpenses(db, tripId) && !Named(Lower(e.category)) && Lower(e.category) != ProtoKey
    requires forall g :: g in ExpenseGroups(TripExpenses(db, tripId), order) ==> g.total > 0
    ensures var b := BreakdownOf(db, tripId, order, false);
      b.total > b.activities + b.transport + b.accommodation + b.meals + b.other
  {
    var exps := TripExpenses(db, tripId);
    var gs := ExpenseGroups(exps, order);
    var acc := FoldGroups(gs);
    var k := Lower(e.category);
    assert e.category in order;
    var ci :| 0 <= ci < |order| && order[ci] == e.category;
    assert Lower(gs[ci].category) == k;
    assert LastWithKey(gs, k).Some? by {
      LastWithKeyFound(gs, k, ci);
    }
    FoldGroupsGet(gs, k);
    var i :| 0 <= i < |acc| && acc[i].key == k;
    forall j | 0 <= j < |acc|
      ensures acc[j].value > 0
    {
      FoldValues(gs, j);
    }
    UnnamedSumPositive(acc, i);
    BreakdownTotal(db, tripId, order);
  }

  lemma {:induction false} LastWithKeyAbsent(gs: seq<Group>, k: string)
    requires forall j :: 0 <= j < |gs| ==> Lower(gs[j].category) != k
    ensures LastWithKey(gs, k).None?
    decreases |gs|
  {
    if gs != [] {
      LastWithKeyAbsent(gs[..|gs| - 1], k);
    }
  }

  /** The sum of the totals of the groups whose category lower-cases to
      `__proto__`. */
  function ProtoTotal(gs: seq<Group>): int
  {
    if gs == [] then 0
    else ProtoTotal(gs[..|gs| - 1]) + (if Lower(gs[|gs| - 1].category) == ProtoKey then gs[|gs| - 1].total else 0)
  }

  lemma {:induction false} ProtoTotalNone(gs: seq<Group>)
    requires forall i :: 0 <= i < |gs| ==> Lower(gs[i].category) != ProtoKey
    ensures ProtoTotal(gs) == 0
    decreases |gs|
  {
    if gs != [] {
      ProtoTotalNone(gs[..|gs| - 1]);
    }
  }

  /** When no two groups have categories that lower-case alike, the fold
      loses only the groups written to `__proto__`: its values add up to the
      group totals less theirs. */
  lemma {:induction false} FoldGroupsSum(gs: seq<Group>)
    requires forall i, j :: 0 <= i < j < |gs| ==> Lower(gs[i].category) != Lower(gs[j].category)
    ensures ValuesSum(FoldGroups(gs)) == GroupsTotal(gs) - ProtoTotal(gs)
    decreases |gs|
  {
    if gs != [] {
      var n := |gs| - 1;
      var init := gs[..n];
      var k := Lower(gs[n].category);
      FoldGroupsSum(init);
      LastWithKeyAbsent(init, k);
      FoldGroupsGet(init, k);
      ValuesSumPut(FoldGroups(init), k, gs[n].total);
    }
  }

  /** No two categories of the rows differ only in letter case. */
  predicate NoCaseCollision(exps: seq<TripExpense>)
  {
    forall e1, e2 :: e1 in exps && e2 in exps && Lower(e1.category) == Lower(e2.category)
                     ==> e1.category == e2.category
  }

  /** When no two categories of the trip differ only in case, `total` is the
      activities total plus every expense amount, less the group of a
      category that lower-cases to `__proto__`, whatever order the groups
      come back in; without such a category, plus every expense amount. */
  lemma BreakdownTotalNoCollision(db: Tables, tripId: Id, order: seq<string>)
    requires GroupOrder(order, TripExpenses(db, tripId))
    requires NoCaseCollision(TripExpenses(db, tripId))
    ensures BreakdownOf(db, tripId, order, false).total
         == ActivitiesTotal(db, tripId) + AmountsTotal(TripExpenses(db, tripId))
            - ProtoTotal(ExpenseGroups(TripExpenses(db, tripId), order))
    ensures (forall e :: e in TripExpenses(db, tripId) ==> Lower(e.category) != ProtoKey) ==>
      BreakdownOf(db, tripId, order, false).total
         == ActivitiesTotal(db, tripId) + AmountsTotal(TripExpenses(db, tripId))
  {
    var exps := TripExpenses(db, tripId);
    var gs := ExpenseGroups(exps, order);
    forall i, j | 0 <= i < j < |gs|
      ensures Lower(gs[i].category) != Lower(gs[j].category)
    {
      assert order[i] in order && order[j] in order;
      var e1 :| e1 in exps && e1.category == order[i];
      var e2 :| e2 in exps && e2.category == order[j];
    }
    FoldGroupsSum(gs);
    ExpenseGroupsTotal(exps, order);
    if forall e :: e in exps ==> Lower(e.category) != ProtoKey {
      forall i | 0 <= i < |gs|
        ensures Lower(gs[i].category) != ProtoKey
      {
        assert order[i] in order;
      }
      ProtoTotalNone(gs);
    }
  }

  /** One expense of category "__PROTO__": the fold stores nothing, so the
      amount is counted neither in a bucket nor in `total`. */
  lemma ProtoCategoryExample()
    ensures var acc := FoldGroups([Group("__PROTO__", 100)]);
      acc == [] && ValuesSum(acc) == 0 && Field(acc, "other") == 0
  {
    var gs := [Group("__PROTO__", 100)];
    assert gs[..0] == [];
    ProtoUpperLowers();
  }

  lemma ProtoUpperLowers()
    ensures Lower("__PROTO__") == ProtoKey
  {
    var up := "__PROTO__";
    var low := Lower(up);
    forall i | 0 <= i < |up|
      ensures low[i] == ProtoKey[i]
    {
      assert low[i] == LowerChar(up[i]);
    }
  }

  lemma {:induction false} LastWithKeyFound(gs: seq<Group>, k: string, i: int)
    requires 0 <= i < |gs| && Lower(gs[i].category) == k
    ensures LastWithKey(gs, k).Some?
    decreases |gs|
  {
    if i < |gs| - 1 && Lower(gs[|gs| - 1].category) != k {
      LastWithKeyFound(gs[..|gs| - 1], k, i);
    }
  }

  /** Every value of the fold is the total of some group. */
  lemma {:induction false} FoldValues(gs: seq<Group>, i: int)
    requires 0 <= i < |FoldGroups(gs)|
    ensures exists j :: 0 <= j < |gs| && gs[j].total == FoldGroups(gs)[i].value
    decreases |gs|
  {
    var init := gs[..|gs| - 1];
    var acc := FoldGroups(gs);
    var k := acc[i].key;
    FoldGroupsGet(gs, k);
    LastWithKeyValue(gs, k);
    GetAt(acc, i);
  }

  lemma {:induction false} LastWithKeyValue(gs: seq<Group>, k: string)
    requires LastWithKey(gs, k).Some?
    ensures exists j :: 0 <= j < |gs| && Lower(gs[j].category) == k && gs[j].total == LastWithKey(gs, k).value
    decreases |gs|
  {
    if Lower(gs[|gs| - 1].category) != k {
      LastWithKeyValue(gs[..|gs| - 1], k);
      var j :| 0 <= j < |gs| - 1 && Lower(gs[..|gs| - 1][j].category) == k
               && gs[..|gs| - 1][j].total == LastWithKey(gs, k).value;
      assert gs[j] == gs[..|gs| - 1][j];
    }
  }

  lemma {:induction false} GetAt(acc: seq<Entry>, i: int)
    requires KeysDistinct(acc) && 0 <= i < |acc|
    ensures Get(acc, acc[i].key) == Some(acc[i].value)
    decreases |acc|
  {
    if i > 0 {
      GetAt(acc[1..], i - 1);
    }
  }

  /** Two groups "Meals" (10) and "meals" (5): the later one overwrites the
      earlier, so 10 is counted neither in `meals` nor in `total`. */
  lemma CaseCollisionExample()
    ensures var acc := FoldGroups([Group("Meals", 10), Group("meals", 5)]);
      Field(acc, "meals") == 5 && ValuesSum(acc) == 5
  {
    assert Lower("meals") == "meals";
    assert Lower("Meals") == "meals";
    CaseCollision("Meals", "meals", 10, 5);
  }

  /** Two groups whose categories differ only in case leave one property,
      holding the later total: the earlier total is lost. When both
      lower-case to `__proto__`, neither is stored. */
  lemma CaseCollision(a: string, b: string, x: int, y: int)
    requires Lower(a) == Lower(b)
    ensures var acc := FoldGroups([Group(a, x), Group(b, y)]);
      Lower(b) != ProtoKey ==> acc == [Entry(Lower(b), y)] && ValuesSum(acc) == y
    ensures Lower(b) == ProtoKey ==> FoldGroups([Group(a, x), Group(b, y)]) == []
  {
    var gs := [Group(a, x), Group(b, y)];
    assert gs[..1][..0] == [];
    if Lower(a) != ProtoKey {
      assert FoldGroups(gs[..1]) == [Entry(Lower(a), x)];
    } else {
      assert FoldGroups(gs[..1]) == [];
    }
  }

  /** A trip with no scheduled activities and no expenses has an all-zero
      breakdown. */
  lemma EmptyTripBreakdown(db: Tables, tripId: Id, order: seq<string>)
    requires ActivityCosts(db.tripActivities, db.activities, db.stops, tripId) == []
    requires TripExpenses(db, tripId) == [] && GroupOrder(order, [])
    ensures BreakdownOf(db, tripId, order, false) == ZeroBreakdown
  {
    assert forall i :: 0 <= i < |order| ==> order[i] in order;
  }

  /** A trip whose trip_activities and trip_expenses rows are all absent gets
      no cost from either table. */
  lemma {:induction false} NoRowsNoCosts(entries: seq<TripActivity>, activities: seq<Activity>, stops: seq<TripStop>, tripId: Id)
    requires forall e :: e in entries ==> LookupStop(stops, e.tripStopId).None? || LookupStop(stops, e.tripStopId).value.tripId != tripId
    ensures ActivityCosts(entries, activities, stops, tripId) == []
    decreases |entries|
  {
    if entries != [] {
      NoRowsNoCosts(entries[..|entries| - 1], activities, stops, tripId);
    }
  }

  // ----------------------------------------------------------- daily series

  /** A scheduled cost: the date and coalesced cost of one joined row. */
  datatype Dated = Dated(date: string, cost: int)

  /** The joined rows of the trip with `ta.scheduled_date IS NOT NULL`. */
  function DatedCosts(entries: seq<TripActivity>, activities: seq<Activity>, stops: seq<TripStop>, tripId: Id)
    : seq<Dated>
  {
    if entries == [] then []
    else
      var e := entries[|entries| - 1];
      var c := JoinedCost(e, activities, stops, tripId);
      DatedCosts(entries[..|entries| - 1], activities, stops, tripId)
        + (if c.Some? && e.scheduledDate.Some? then [Dated(e.scheduledDate.value, c.value)] else [])
  }

  /** The distinct dates, in order of first appearance. */
  function Dates(ds: seq<Dated>): (r: seq<string>)
    ensures Distinct(r)
    ensures forall d :: d in r <==> exists x :: x in ds && x.date == d
  {
    if ds == [] then []
    else
      var init := Dates(ds[..|ds| - 1]);
      var d := ds[|ds| - 1].date;
      assert forall x :: x in ds ==> x in ds[..|ds| - 1] || x == ds[|ds| - 1];
      if d in init then init else init + [d]
  }

  function AmountOn(ds: seq<Dated>, d: string): int
  {
    if ds == [] then 0
    else AmountOn(ds[..|ds| - 1], d) + (if ds[|ds| - 1].date == d then ds[|ds| - 1].cost else 0)
  }

  function CountOn(ds: seq<Dated>, d: string): (r: nat)
    ensures r > 0 <==> exists x :: x in ds && x.date == d
  {
    if ds == [] then 0
    else
      assert forall x :: x in ds ==> x in ds[..|ds| - 1] || x == ds[|ds| - 1];
      CountOn(ds[..|ds| - 1], d) + (if ds[|ds| - 1].date == d then 1 else 0)
  }

  /** A row of `getDailyBudget`. */
  datatype DailyBudget = DailyBudget(date: string, amount: int, activitiesCount: nat)

  function DayRows(dates: seq<string>, ds: seq<Dated>): (r: seq<DailyBudget>)
    ensures |r| == |dates|
    ensures forall i :: 0 <= i < |dates| ==> r[i] == DailyBudget(dates[i], AmountOn(ds, dates[i]), CountOn(ds, dates[i]))
  {
    seq(|dates|, i requires 0 <= i < |dates| => DailyBudget(dates[i], AmountOn(ds, dates[i]), CountOn(ds, dates[i])))
  }

  lemma LexLeTotalPreorder()
    ensures TotalPreorder(LexLe)
  {
    forall a, b
      ensures LexLe(a, b) || LexLe(b, a)
    {
      LexLeTotal(a, b);
    }
    forall a, b, c | LexLe(a, b) && LexLe(b, c)
      ensures LexLe(a, c)
    {
      LexLeTransitive(a, b, c);
    }
  }

  /** The trip's scheduled costs. */
  function TripDatedCosts(db: Tables, tripId: Id): seq<Dated>
  {
    DatedCosts(db.tripActivities, db.activities, db.stops, tripId)
  }

  /** The distinct dates in ascending order: sorted, without duplicates,
      and exactly the dates of the rows. */
  lemma SortedDates(ds: seq<Dated>)
    ensures var sorted := SortBy(Dates(ds), LexLe);
      && Sorted(sorted, LexLe) && Distinct(sorted)
      && forall d :: d in sorted <==> exists x :: x in ds && x.date == d
  {
    var dates := Dates(ds);
    LexLeTotalPreorder();
    SortByCorrect(dates, LexLe);
    SortByMembers(dates, LexLe);
    PermutationDistinct(dates, SortBy(dates, LexLe));
  }

  /** The day rows of ascending distinct dates, one per date of the rows. */
  lemma DayRowsOrdered(sorted: seq<string>, ds: seq<Dated>)
    requires Sorted(sorted, LexLe) && Distinct(sorted)
    requires forall d :: d in sorted <==> exists x :: x in ds && x.date == d
    ensures var r := DayRows(sorted, ds);
      && (forall i, j :: 0 <= i < j < |r| ==> LexLe(r[i].date, r[j].date) && r[i].date != r[j].date)
      && (forall i :: 0 <= i < |r| ==> r[i].activitiesCount == CountOn(ds, r[i].date) > 0)
      && (forall x :: x in ds ==> exists i :: 0 <= i < |r| && r[i].date == x.date)
  {
    var r := DayRows(sorted, ds);
    forall i | 0 <= i < |r|
      ensures CountOn(ds, r[i].date) > 0
    {
      assert r[i].date == sorted[i] && sorted[i] in sorted;
    }
    forall x | x in ds
      ensures exists i :: 0 <= i < |r| && r[i].date == x.date
    {
      assert x.date in sorted;
      var i :| 0 <= i < |sorted| && sorted[i] == x.date;
      assert r[i].date == x.date;
    }
  }

  /** `getDailyBudget`: one row per distinct scheduled date of the trip,
      dates strictly ascending, with the day's coalesced cost sum and row
      count; [] when the query fails. */
  function GetDailyBudget(db: Tables, tripId: Id, fault: bool): (r: seq<DailyBudget>)
    ensures fault ==> r == []
    ensures forall i, j :: 0 <= i < j < |r| ==> LexLe(r[i].date, r[j].date) && r[i].date != r[j].date
    ensures forall i :: 0 <= i < |r| ==> r[i].amount == AmountOn(TripDatedCosts(db, tripId), r[i].date)
    ensures forall i :: 0 <= i < |r| ==> r[i].activitiesCount == CountOn(TripDatedCosts(db, tripId), r[i].date) > 0
    ensures !fault ==> forall x :: x in TripDatedCosts(db, tripId) ==> exists i :: 0 <= i < |r| && r[i].date == x.date
  {
    if fault then []
    else
      var ds := TripDatedCosts(db, tripId);
      SortedDates(ds);
      DayRowsOrdered(SortBy(Dates(ds), LexLe), ds);
      DayRows(SortBy(Dates(ds), LexLe), ds)
  }

  /** A row without a scheduled date contributes to no day. */
  lemma {:induction false} UndatedExcluded(entries: seq<TripActivity>, activities: seq<Activity>,
                                           stops: seq<TripStop>, tripId: Id, e: TripActivity)
    requires e.scheduledDate.None?
    ensures DatedCosts(entries + [e], activities, stops, tripId) == DatedCosts(entries, activities, stops, tripId)
  {
    assert (entries + [e])[..|entries + [e]| - 1] == entries;
  }

  /** The row `addTripExpense` inserts: `tripStopId || null` stores an
      absent or zero stop id as NULL. */
  function NewExpense(exps: seq<TripExpense>, tripId: Id, category: string, description: string,
                      amount: int, expenseDate: string, tripStopId: Option<Id>): (r: TripExpense)
    ensures r.tripId == tripId && r.category == category && r.description == description
    ensures r.amount == amount && r.expenseDate == expenseDate
    ensures r.tripStopId.None? <==> tripStopId.None? || tripStopId.value == 0
    ensures r.tripStopId.Some? ==> r.tripStopId == tripStopId
    ensures forall i :: 0 <= i < |exps| ==> exps[i].id != r.id
  {
    assert forall i :: 0 <= i < |exps| ==> ExpenseIds(exps)[i] == exps[i].id;
    var stop := if tripStopId.Some? && tripStopId.value != 0 then tripStopId else None;
    TripExpense(NextId(ExpenseIds(exps)), tripId, stop, category, description, amount, expenseDate)
  }
}
