/**
 * RoomPostgres: the SQL each room operation sends and how it reads the database's answers.
 * The database is abstract: a query goes in, and its outcome is a parameter of the model.
 * The table names come from constants defined outside the modelled file, so they are
 * parameters too.
 */
module RoomRepository {
  import opened Common
  import opened Decimal
  import opened RoomInput

  /** A bound argument of a query: Go passes strings and ints through `[]interface{}`. */
  datatype Arg = Text(text: string) | Int(n: int)

  /** A statement and the arguments bound to `$1`, `$2`, ... in order. */
  datatype Query = Query(sql: string, args: seq<Arg>)

  /** `$n`, a numbered placeholder. */
  function Placeholder(n: int): string
  {
    "$" + Itoa(n)
  }

  /** strings.Join. */
  function Join(parts: seq<string>, sep: string): string
  {
    if |parts| == 0 then ""
    else if |parts| == 1 then parts[0]
    else Join(parts[..|parts| - 1], sep) + sep + parts[|parts| - 1]
  }

  // ---------------------------------------------------------------- UpdateRoom

  /** The columns an update sets and their new values: name first, then description. */
  function Assignments(input: UpdateRoomInput): (a: seq<(string, string)>)
    ensures |a| <= 2
  {
    (if input.name.Some? then [("name", input.name.value)] else [])
    + (if input.description.Some? then [("description", input.description.value)] else [])
  }

  /** The k-th SET clause binds the k-th value, to placeholder k + 1. */
  function SetClauses(a: seq<(string, string)>): (cs: seq<string>)
    ensures |cs| == |a|
  {
    seq(|a|, k requires 0 <= k < |a| => a[k].0 + " = " + Placeholder(k + 1))
  }

  function SetArgs(a: seq<(string, string)>): (args: seq<Arg>)
    ensures |args| == |a|
  {
    seq(|a|, k requires 0 <= k < |a| => Text(a[k].1))
  }

  lemma AssignmentsSnoc(a: seq<(string, string)>, col: string, value: string)
    ensures SetClauses(a + [(col, value)]) == SetClauses(a) + [col + " = " + Placeholder(|a| + 1)]
    ensures SetArgs(a + [(col, value)]) == SetArgs(a) + [Text(value)]
  {
  }

  /** The statement UpdateRoom runs, or the error it returns before running anything. */
  function UpdateStatement(table: string, roomId: int, userId: int, input: UpdateRoomInput): (r: Result<Query>)
    ensures r.Err? <==> input.name.None? && input.description.None?
    ensures r.Ok? ==> |r.value.args| == |Assignments(input)| + 2
                      && r.value.args[|r.value.args| - 2..] == [Int(roomId), Int(userId)]
  {
    var a := Assignments(input);
    if |a| == 0 then Err(Failure("no fields to update"))
    else
      Ok(Query("UPDATE " + table + " SET " + Join(SetClauses(a), ", ")
               + " WHERE id = " + Placeholder(|a| + 1) + " AND created_by = " + Placeholder(|a| + 2),
               SetArgs(a) + [Int(roomId), Int(userId)]))
  }

  /**
   * The builder of RoomPostgres.UpdateRoom: it appends a clause and an argument per present
   * field, counting placeholders in `argId`, then adds the WHERE clause and its two arguments.
   */
  method BuildUpdate(table: string, roomId: int, userId: int, input: UpdateRoomInput)
    returns (r: Result<Query>)
    ensures r == UpdateStatement(table, roomId, userId, input)
  {
    var setValues: seq<string> := [];
    var args: seq<Arg> := [];
    var argId := 1;
    ghost var a: seq<(string, string)> := [];
    assert "name" + " = " == "name = " && "description" + " = " == "description = ";

    if input.name.Some? {
      setValues := setValues + ["name = " + Placeholder(argId)];
      args := args + [Text(input.name.value)];
      AssignmentsSnoc(a, "name", input.name.value);
      a := a + [("name", input.name.value)];
      argId := argId + 1;
    } else {
      assert SetClauses(a) == [] && SetArgs(a) == [];
    }
    assert setValues == SetClauses(a) && args == SetArgs(a) && argId == |a| + 1;

    if input.description.Some? {
      setValues := setValues + ["description = " + Placeholder(argId)];
      args := args + [Text(input.description.value)];
      AssignmentsSnoc(a, "description", input.description.value);
      a := a + [("description", input.description.value)];
      argId := argId + 1;
    }
    assert a == Assignments(input);
    assert setValues == SetClauses(a) && args == SetArgs(a) && argId == |a| + 1;

    if |setValues| == 0 {
      return Err(Failure("no fields to update"));
    }

    var setQuery := Join(setValues, ", ");
    var query := "UPDATE " + table + " SET " + setQuery
                 + " WHERE id = " + Placeholder(argId) + " AND created_by = " + Placeholder(argId + 1);
    args := args + [Int(roomId), Int(userId)];
    r := Ok(Query(query, args));
  }

  /** An update with neither field set is refused with "no fields to update", and only then. */
  lemma UpdateStatementRefuses(table: string, roomId: int, userId: int, input: UpdateRoomInput)
    ensures UpdateStatement(table, roomId, userId, input).Err? <==>
            input.name.None? && input.description.None?
    ensures UpdateStatement(table, roomId, userId, input).Err? ==>
            UpdateStatement(table, roomId, userId, input).error == Failure("no fields to update")
  {
  }

  /**
   * The arguments line up with the placeholders: `$k` of the k-th SET clause binds the
   * k-th present field's value, the WHERE clause uses the next two numbers for the room
   * and the user, and the highest placeholder is the number of arguments.
   */
  lemma UpdateStatementBinding(table: string, roomId: int, userId: int, input: UpdateRoomInput)
    requires input.name.Some? || input.description.Some?
    ensures var q := UpdateStatement(table, roomId, userId, input).value;
            var n := |q.args|;
            var cs := SetClauses(Assignments(input));
            && n == |cs| + 2 && 3 <= n <= 4
            && (forall k :: 0 <= k < |cs| ==>
                  cs[k] == Assignments(input)[k].0 + " = " + Placeholder(k + 1)
                  && q.args[k] == Text(Assignments(input)[k].1))
            && q.args[n - 2] == Int(roomId) && q.args[n - 1] == Int(userId)
            && q.sql == "UPDATE " + table + " SET " + Join(cs, ", ")
                        + " WHERE id = " + Placeholder(n - 1) + " AND created_by = " + Placeholder(n)
  {
  }

  /** The name clause always comes first, and the description is bound to `$2` exactly when a name is set too. */
  lemma UpdateStatementOrder(input: UpdateRoomInput)
    ensures input.name.Some? ==> SetClauses(Assignments(input))[0] == "name = " + Placeholder(1)
    ensures input.description.Some? ==>
              var cs := SetClauses(Assignments(input));
              cs[|cs| - 1] == "description = " + Placeholder(if input.name.Some? then 2 else 1)
  {
  }

  /** No two placeholders of a statement print alike, so no argument is bound twice. */
  lemma PlaceholdersDistinct(j: int, k: int)
    requires 1 <= j <= 4 && 1 <= k <= 4
    ensures Placeholder(j) == Placeholder(k) <==> j == k
  {
    ItoaInjective(j, k);
    if Placeholder(j) == Placeholder(k) {
      assert Itoa(j) == Placeholder(j)[1..];
    }
  }

  /** Reading the number back out of a placeholder gives the argument position plus one. */
  lemma PlaceholderNumber(n: int)
    requires 1 <= n <= MaxInt
    ensures Atoi(Placeholder(n)[1..]) == Some(n)
  {
    assert Placeholder(n)[1..] == Itoa(n);
    AtoiItoa(n);
  }

  // ---------------------------------------------------------------- rows affected

  /** What `db.Exec` gives: an error, or a result whose RowsAffected is a count or an error. */
  datatype ExecOutcome = ExecFailed(error: Error) | Executed(affected: Result<int>)

  /** The tail shared by UpdateRoom and DeleteRoom: an error, no rows, or success. */
  function RowsAffected(o: ExecOutcome): (err: Option<Error>)
    ensures err == None <==> o.Executed? && o.affected.Ok? && o.affected.value != 0
    ensures o == Executed(Ok(0)) ==> err == Some(NoRows)
    ensures o.ExecFailed? ==> err == Some(o.error)
    ensures o.Executed? && o.affected.Err? ==> err == Some(o.affected.error)
  {
    match o
    case ExecFailed(e) => Some(e)
    case Executed(Err(e)) => Some(e)
    case Executed(Ok(n)) => if n == 0 then Some(NoRows) else None
  }

  /**
   * RoomPostgres.UpdateRoom: build the statement; if it is refused nothing runs, otherwise
   * it goes to the database and the outcome is read by RowsAffected.
   */
  method UpdateRoom(table: string, roomId: int, userId: int, input: UpdateRoomInput,
                    db: Query -> ExecOutcome)
    returns (err: Option<Error>)
    ensures input.name.None? && input.description.None? ==> err == Some(Failure("no fields to update"))
    ensures input.name.Some? || input.description.Some? ==>
              err == RowsAffected(db(UpdateStatement(table, roomId, userId, input).value))
  {
    var q := BuildUpdate(table, roomId, userId, input);
    UpdateStatementRefuses(table, roomId, userId, input);
    if q.Err? {
      return Some(q.error);
    }
    err := RowsAffected(db(q.value));
  }

  /** The statement DeleteRoom runs: the room id binds `$1` and the owner `$2`. */
  function DeleteStatement(table: string, userId: int, roomId: int): (q: Query)
    ensures q.args == [Int(roomId), Int(userId)]
  {
    Query("DELETE FROM " + table + " WHERE id = " + Placeholder(1) + " AND created_by = " + Placeholder(2),
          [Int(roomId), Int(userId)])
  }

  /** RoomPostgres.DeleteRoom. */
  function DeleteRoom(table: string, userId: int, roomId: int, db: Query -> ExecOutcome): (err: Option<Error>)
    ensures err == None <==>
              var o := db(DeleteStatement(table, userId, roomId));
              o.Executed? && o.affected.Ok? && o.affected.value != 0
    ensures db(DeleteStatement(table, userId, roomId)) == Executed(Ok(0)) ==> err == Some(NoRows)
  {
    RowsAffected(db(DeleteStatement(table, userId, roomId)))
  }

  // ---------------------------------------------------------------- SearchRoomByName

  /** The ILIKE pattern: the name with a `%` wildcard on each side. */
  function SearchPattern(name: string): (p: string)
    ensures |p| == |name| + 2 && p[0] == '%' && p[|p| - 1] == '%' && p[1..|p| - 1] == name
  {
    "%" + name + "%"
  }

  function SearchStatement(table: string, name: string): (q: Query)
    ensures q.args == [Text(SearchPattern(name))]
  {
    Query("SELECT * FROM " + table + " WHERE name ILIKE " + Placeholder(1) + " ORDER BY name",
          [Text(SearchPattern(name))])
  }

  /** RoomPostgres.SearchRoomByName: the rows found, or the error with no rows. */
  function SearchRoomByName(table: string, name: string, db: Query -> Result<seq<Room>>): (r: Result<seq<Room>>)
    ensures r == db(SearchStatement(table, name))
  {
    var found := db(SearchStatement(table, name));
    if found.Err? then Err(found.error) else Ok(found.value)
  }

  /** Different names search with different patterns. */
  lemma SearchPatternInjective(m: string, n: string)
    ensures SearchPattern(m) == SearchPattern(n) <==> m == n
  {
    if SearchPattern(m) == SearchPattern(n) {
      assert m == SearchPattern(m)[1..|m| + 1];
    }
  }

  // ---------------------------------------------------------------- CreateRoom

  /** The calls CreateRoom makes on the database, in order. */
  datatype DbCall =
    | CheckUser(check: Query)
    | Begin
    | Insert(insert: Query)
    | Rollback
    | Commit

  /**
   * What the database answers, in order: whether the user exists, whether a transaction
   * could be begun, the id the insert returns, and the commit's error.
   */
  datatype CreateAnswers = CreateAnswers(
    userExists: Result<bool>,
    begin: Option<Error>,
    inserted: Result<int>,
    commit: Option<Error>)

  datatype Created = Created(id: int, err: Option<Error>, calls: seq<DbCall>)

  function UserCheckStatement(usersTable: string, userId: int): Query
  {
    Query("SELECT EXISTS(SELECT 1 FROM " + usersTable + " WHERE id = " + Placeholder(1) + ")", [Int(userId)])
  }

  function InsertStatement(roomsTable: string, userId: int, room: Room): Query
  {
    Query("INSERT INTO " + roomsTable + " (name, description, created_by) VALUES ("
          + Placeholder(1) + ", " + Placeholder(2) + ", " + Placeholder(3) + ") RETURNING id",
          [Text(room.name), Text(room.description), Int(userId)])
  }

  /** The error text for an unknown user. */
  function UnknownUser(userId: int): string
  {
    "user with id " + Itoa(userId) + " does not exist"
  }

  /** RoomPostgres.CreateRoom. */
  function CreateRoom(usersTable: string, roomsTable: string, userId: int, room: Room, db: CreateAnswers): (r: Created)
    ensures r.calls != [] && r.calls[0] == CheckUser(UserCheckStatement(usersTable, userId))
    ensures r.id != 0 ==> r.calls == [r.calls[0], Begin, Insert(InsertStatement(roomsTable, userId, room)), Commit]
  {
    var check := CheckUser(UserCheckStatement(usersTable, userId));
    if db.userExists.Err? then Created(0, Some(db.userExists.error), [check])
    else if !db.userExists.value then Created(0, Some(Failure(UnknownUser(userId))), [check])
    else if db.begin.Some? then Created(0, db.begin, [check, Begin])
    else
      var insert := Insert(InsertStatement(roomsTable, userId, room));
      if db.inserted.Err? then Created(0, Some(db.inserted.error), [check, Begin, insert, Rollback])
      else Created(db.inserted.value, db.commit, [check, Begin, insert, Commit])
  }

  /**
   * The shape of every call sequence: the user check, then possibly Begin, and once a
   * transaction has begun the insert inside it and exactly one Rollback or Commit.
   */
  predicate Bracketed(calls: seq<DbCall>)
  {
    && |calls| >= 1 && calls[0].CheckUser?
    && (|calls| == 1
        || (|calls| == 2 && calls[1] == Begin)
        || (|calls| == 4 && calls[1] == Begin && calls[2].Insert? && (calls[3] == Rollback || calls[3] == Commit)))
  }

  /**
   * CreateRoom asks whether the user exists first and begins a transaction only for a user
   * who does; an unknown user gets an error naming the id.
   */
  lemma CreateRoomGuard(usersTable: string, roomsTable: string, userId: int, room: Room, db: CreateAnswers)
    ensures var r := CreateRoom(usersTable, roomsTable, userId, room, db);
            && Bracketed(r.calls)
            && r.calls[0] == CheckUser(UserCheckStatement(usersTable, userId))
            && (Begin in r.calls <==> db.userExists == Ok(true))
            && (db.userExists == Ok(false) ==> r.id == 0 && r.err == Some(Failure(UnknownUser(userId))))
  {
    var r := CreateRoom(usersTable, roomsTable, userId, room, db);
    if db.userExists != Ok(true) {
      assert r.calls == [r.calls[0]];
    }
  }

  /**
   * A room id is returned only once the insert has succeeded inside the transaction, with
   * the commit's error beside it; every other path returns id 0 and an error, and a failed
   * insert is rolled back.
   */
  lemma CreateRoomOutcome(usersTable: string, roomsTable: string, userId: int, room: Room, db: CreateAnswers)
    ensures var r := CreateRoom(usersTable, roomsTable, userId, room, db);
            && (Commit in r.calls <==> db.userExists == Ok(true) && db.begin.None? && db.inserted.Ok?)
            && (Commit in r.calls ==> r.id == db.inserted.value && r.err == db.commit
                                      && r.calls[2] == Insert(InsertStatement(roomsTable, userId, room)))
            && (Commit !in r.calls ==> r.id == 0 && r.err.Some?)
            && (Rollback in r.calls <==> db.userExists == Ok(true) && db.begin.None? && db.inserted.Err?)
  {
  }

  /** The unknown-user error names the id it was given: reading it back gives the id. */
  lemma UnknownUserNamesId(userId: int)
    requires MinInt <= userId <= MaxInt
    ensures var t := UnknownUser(userId);
            |t| > 28 && Atoi(t[13..|t| - 15]) == Some(userId)
  {
    var t := UnknownUser(userId);
    NatToStringDigits(if userId < 0 then -userId else userId);
    assert t[13..|t| - 15] == Itoa(userId);
    AtoiItoa(userId);
  }
}
