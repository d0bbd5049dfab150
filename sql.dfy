/** The SQL text the libraries build for partial updates: one `key = ?`
    assignment per key of the update object, comma-joined, with the values
    bound in key order and the row id last. */
module Sql {
  import opened Text

  /** A value bound to a placeholder. */
  datatype SqlValue = SqlText(text: string) | SqlInt(number: int) | SqlNull

  /** `keys.map((key) => `${key} = ?`)`. */
  function Assignments(keys: seq<string>): (r: seq<string>)
    ensures |r| == |keys|
    ensures forall i :: 0 <= i < |keys| ==> r[i] == keys[i] + " = ?"
  {
    seq(|keys|, i requires 0 <= i < |keys| => keys[i] + " = ?")
  }

  /** `.join(", ")` of the assignments. */
  function SetFields(keys: seq<string>): string
  {
    Join(Assignments(keys), ", ")
  }

  /** A column name holds no placeholder. */
  predicate PlainKeys(keys: seq<string>)
  {
    forall i :: 0 <= i < |keys| ==> Count(keys[i], '?') == 0
  }

  /** The SET list holds exactly one placeholder per key. */
  lemma {:induction false} SetFieldsPlaceholders(keys: seq<string>)
    requires PlainKeys(keys)
    ensures Count(SetFields(keys), '?') == |keys|
    decreases |keys|
  {
    if |keys| == 1 {
      CountAppend(keys[0], " = ?", '?');
      CountLast(" = ", '?');
      assert " = " + ['?'] == " = ?";
    } else if |keys| > 1 {
      SetFieldsPlaceholders(keys[1..]);
      assert Assignments(keys)[1..] == Assignments(keys[1..]);
      CountAppend(keys[0], " = ?", '?');
      CountAppend(keys[0] + " = ?", ", ", '?');
      CountAppend(keys[0] + " = ?" + ", ", SetFields(keys[1..]), '?');
      CountLast(" = ", '?');
      assert " = " + ['?'] == " = ?";
      CountNone(", ", '?');
    }
  }

  /** The SET list is empty exactly when there are no keys, which leaves
      `SET` without an assignment: a syntax error in SQLite. */
  lemma SetFieldsEmpty(keys: seq<string>)
    ensures SetFields(keys) == "" <==> keys == []
  {
    if keys != [] {
      if |keys| == 1 {
        assert |SetFields(keys)| == |keys[0]| + 4;
      } else {
        assert |SetFields(keys)| >= |Assignments(keys)[0]|;
      }
    }
  }

  /** `UPDATE trip_activities SET ${fields} WHERE id = ?`. */
  function UpdateTripActivitySql(keys: seq<string>): string
  {
    "UPDATE trip_activities SET " + SetFields(keys) + " WHERE id = ?"
  }

  /** `UPDATE trips SET ${fields}, updated_at = CURRENT_TIMESTAMP WHERE id = ?`. */
  function UpdateTripSql(keys: seq<string>): string
  {
    "UPDATE trips SET " + SetFields(keys) + ", updated_at = CURRENT_TIMESTAMP" + " WHERE id = ?"
  }

  lemma WhereIdPlaceholder()
    ensures Count(" WHERE id = ?", '?') == 1
  {
    CountLast(" WHERE id = ", '?');
    assert " WHERE id = " + ['?'] == " WHERE id = ?";
  }

  /** The trip_activities statement holds one placeholder per key plus one
      for the id. */
  lemma ActivitySqlPlaceholders(keys: seq<string>)
    requires PlainKeys(keys)
    ensures Count(UpdateTripActivitySql(keys), '?') == |keys| + 1
  {
    SetFieldsPlaceholders(keys);
    var f := SetFields(keys);
    CountAppend("UPDATE trip_activities SET ", f, '?');
    CountAppend("UPDATE trip_activities SET " + f, " WHERE id = ?", '?');
    CountNone("UPDATE trip_activities SET ", '?');
    WhereIdPlaceholder();
  }

  /** So does the trips statement: its timestamp assignment binds nothing. */
  lemma TripSqlPlaceholders(keys: seq<string>)
    requires PlainKeys(keys)
    ensures Count(UpdateTripSql(keys), '?') == |keys| + 1
  {
    SetFieldsPlaceholders(keys);
    var f := SetFields(keys);
    var stamp := ", updated_at = CURRENT_TIMESTAMP";
    CountAppend("UPDATE trips SET ", f, '?');
    CountAppend("UPDATE trips SET " + f, stamp, '?');
    CountAppend("UPDATE trips SET " + f + stamp, " WHERE id = ?", '?');
    CountNone("UPDATE trips SET ", '?');
    CountNone(stamp, '?');
    WhereIdPlaceholder();
  }
}
