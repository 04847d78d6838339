/** The single SQLite table `list(id INTEGER PRIMARY KEY AUTOINCREMENT,
    user_id INTEGER, user TEXT, name TEXT)` and the statements the bot runs
    on it.  The table is a value (`Table`): its rows in rowid order and the
    AUTOINCREMENT counter, which SQLite keeps in `sqlite_sequence` and which
    never goes down, so an id is never issued twice, not even after every
    row has been deleted.  Each statement is a function on that value;
    `ContactTable` is the shared, mutable table the handlers update in place. */
module ContactStore {
  import opened Text

  /** One contact.  `name` is nullable: an UPDATE can store NULL there. */
  datatype Row = Row(id: nat, userId: nat, user: string, name: Option<string>)

  /** The rows in rowid order (the order of a plain `SELECT`) and the largest
      id ever issued. */
  datatype Table = Table(rows: seq<Row>, lastId: nat)

  /** The freshly created table: no rows, nothing issued yet. */
  const Empty := Table([], 0)

  predicate IdsAscending(rows: seq<Row>) {
    forall i, j :: 0 <= i < j < |rows| ==> rows[i].id < rows[j].id
  }

  /** What AUTOINCREMENT keeps true: ids ascend in rowid order and every
      stored id is between 1 and the largest id ever issued. */
  predicate WellFormed(t: Table) {
    && IdsAscending(t.rows)
    && forall i :: 0 <= i < |t.rows| ==> 1 <= t.rows[i].id <= t.lastId
  }

  /** `SELECT * FROM list WHERE id = ?` finds a row. */
  predicate HasId(rows: seq<Row>, id: nat) {
    exists i :: 0 <= i < |rows| && rows[i].id == id
  }

  /** `INSERT INTO list(user_id, user, name) VALUES (?, ?, ?)`: one row is
      appended under a fresh id, larger than every id issued before. */
  function Inserted(t: Table, userId: nat, user: string, name: string): (r: Table)
    ensures |r.rows| == |t.rows| + 1 && r.rows[..|t.rows|] == t.rows
    ensures r.lastId > t.lastId
    ensures r.rows[|t.rows|] == Row(r.lastId, userId, user, Some(name))
    ensures WellFormed(t) ==> WellFormed(r)
  {
    var id := t.lastId + 1;
    Table(t.rows + [Row(id, userId, user, Some(name))], id)
  }

  /** The rows of `rows` whose id is not `id`, in their order. */
  function WithoutId(rows: seq<Row>, id: nat): (r: seq<Row>)
    ensures |r| <= |rows|
  {
    if rows == [] then []
    else if rows[0].id == id then WithoutId(rows[1..], id)
    else [rows[0]] + WithoutId(rows[1..], id)
  }

  /** `WithoutId` keeps exactly the rows with another id, and their order. */
  lemma WithoutIdKeepsOthers(rows: seq<Row>, id: nat)
    ensures forall x :: x in WithoutId(rows, id) ==> x in rows && x.id != id
    ensures forall x :: x in rows && x.id != id ==> x in WithoutId(rows, id)
    ensures IdsAscending(rows) ==> IdsAscending(WithoutId(rows, id))
  {
    WithoutIdSound(rows, id);
    WithoutIdComplete(rows, id);
    if IdsAscending(rows) {
      WithoutIdAscending(rows, id);
    }
  }

  lemma {:induction false} WithoutIdSound(rows: seq<Row>, id: nat)
    ensures forall x :: x in WithoutId(rows, id) ==> x in rows && x.id != id
  {
    if rows != [] {
      WithoutIdSound(rows[1..], id);
      assert rows == [rows[0]] + rows[1..];
    }
  }

  lemma {:induction false} WithoutIdComplete(rows: seq<Row>, id: nat)
    ensures forall x :: x in rows && x.id != id ==> x in WithoutId(rows, id)
  {
    if rows != [] {
      WithoutIdComplete(rows[1..], id);
      assert rows == [rows[0]] + rows[1..];
    }
  }

  lemma {:induction false} WithoutIdAscending(rows: seq<Row>, id: nat)
    requires IdsAscending(rows)
    ensures IdsAscending(WithoutId(rows, id))
  {
    if rows != [] {
      var tail := rows[1..];
      AscendingTail(rows);
      WithoutIdAscending(tail, id);
      if rows[0].id != id {
        var rest := WithoutId(tail, id);
        WithoutIdSound(tail, id);
        forall j | 0 <= j < |rest| ensures rows[0].id < rest[j].id {
          assert rest[j] in tail;
        }
      }
    }
  }

  lemma AscendingTail(rows: seq<Row>)
    requires IdsAscending(rows) && rows != []
    ensures IdsAscending(rows[1..])
  {
    forall i, j | 0 <= i < j < |rows| - 1 ensures rows[1..][i].id < rows[1..][j].id {
      assert rows[1..][i] == rows[i + 1] && rows[1..][j] == rows[j + 1];
    }
  }

  /** `DELETE FROM list WHERE id = ?`. */
  function Deleted(t: Table, id: nat): (r: Table)
    ensures r.lastId == t.lastId
    ensures !HasId(r.rows, id)
    ensures WellFormed(t) ==> WellFormed(r)
  {
    var rows := WithoutId(t.rows, id);
    WithoutIdKeepsOthers(t.rows, id);
    assert forall i :: 0 <= i < |rows| ==> rows[i] in rows;
    Table(rows, t.lastId)
  }

  /** Deleting an id that no row has changes nothing. */
  lemma {:induction false} DeleteMissing(t: Table, id: nat)
    requires !HasId(t.rows, id)
    ensures Deleted(t, id) == t
  {
    WithoutIdMissing(t.rows, id);
  }

  lemma {:induction false} WithoutIdMissing(rows: seq<Row>, id: nat)
    requires !HasId(rows, id)
    ensures WithoutId(rows, id) == rows
  {
    if rows != [] {
      assert !HasId(rows[1..], id) by {
        forall i | 0 <= i < |rows| - 1 ensures rows[1..][i].id != id {
          assert rows[1..][i] == rows[i + 1];
        }
      }
      WithoutIdMissing(rows[1..], id);
    }
  }

  /** Deleting an id that a row has removes exactly that row: the rows before
      and after it stay, in order, and the count drops by one. */
  lemma DeletePresent(t: Table, id: nat)
    requires WellFormed(t) && HasId(t.rows, id)
    ensures exists k :: (0 <= k < |t.rows| && t.rows[k].id == id
                         && Deleted(t, id).rows == t.rows[..k] + t.rows[k + 1..])
    ensures |Deleted(t, id).rows| == |t.rows| - 1
  {
    var rows := t.rows;
    var k :| 0 <= k < |rows| && rows[k].id == id;
    var before, after := rows[..k], rows[k + 1..];
    assert !HasId(before, id) by {
      forall i | 0 <= i < |before| ensures before[i].id != id {
        assert before[i] == rows[i];
      }
    }
    assert !HasId(after, id) by {
      forall i | 0 <= i < |after| ensures after[i].id != id {
        assert after[i] == rows[k + 1 + i];
      }
    }
    WithoutIdSplit(rows, id, k);
    assert |before + after| == |rows| - 1;
  }

  /** Removing the only row with the id leaves the rows around it. */
  lemma WithoutIdSplit(rows: seq<Row>, id: nat, k: nat)
    requires k < |rows| && rows[k].id == id
    requires !HasId(rows[..k], id) && !HasId(rows[k + 1..], id)
    ensures WithoutId(rows, id) == rows[..k] + rows[k + 1..]
  {
    var before, after := rows[..k], rows[k + 1..];
    assert rows == before + ([rows[k]] + after);
    WithoutIdAppend(before, [rows[k]] + after, id);
    WithoutIdMissing(before, id);
    assert ([rows[k]] + after)[1..] == after;
    WithoutIdMissing(after, id);
  }

  /** Deleting distributes over concatenation. */
  lemma {:induction false} WithoutIdAppend(a: seq<Row>, b: seq<Row>, id: nat)
    ensures WithoutId(a + b, id) == WithoutId(a, id) + WithoutId(b, id)
  {
    if a == [] {
      assert a + b == b;
    } else {
      var ab := a + b;
      assert ab[0] == a[0];
      assert ab[1..] == a[1..] + b;
      WithoutIdAppend(a[1..], b, id);
      var w := WithoutId(a[1..], id);
      if a[0].id == id {
        calc {
          WithoutId(ab, id);
          WithoutId(a[1..] + b, id);
        }
      } else {
        calc {
          WithoutId(ab, id);
          [a[0]] + WithoutId(a[1..] + b, id);
          [a[0]] + (w + WithoutId(b, id));
          { AppendAssociative([a[0]], w, WithoutId(b, id)); }
          ([a[0]] + w) + WithoutId(b, id);
        }
      }
    }
  }

  lemma AppendAssociative<T>(a: seq<T>, b: seq<T>, c: seq<T>)
    ensures a + (b + c) == (a + b) + c
  {
  }

  /** `UPDATE list SET name = ? WHERE id = ?`: the row with that id gets the
      new name, its other columns and every other row stay as they were. */
  function Renamed(rows: seq<Row>, id: nat, name: Option<string>): (r: seq<Row>)
    ensures |r| == |rows|
    ensures forall i :: 0 <= i < |rows| ==>
      r[i] == if rows[i].id == id then rows[i].(name := name) else rows[i]
  {
    if rows == [] then []
    else [if rows[0].id == id then rows[0].(name := name) else rows[0]] + Renamed(rows[1..], id, name)
  }

  /** `SELECT COUNT(*) FROM list WHERE user_id = ?`. */
  function CountUserId(rows: seq<Row>, userId: nat): (n: nat)
    ensures n <= |rows|
    ensures n == 0 <==> forall i :: 0 <= i < |rows| ==> rows[i].userId != userId
  {
    if rows == [] then 0
    else (if rows[0].userId == userId then 1 else 0) + CountUserId(rows[1..], userId)
  }

  /** The insert-if-absent of `echo_message`: the sender is stored only when
      no row carries their `user_id`; afterwards some row does, and the rows
      already there are untouched. */
  function Registered(t: Table, userId: nat, user: string, name: string): (r: Table)
    ensures |r.rows| == |t.rows| + (if CountUserId(t.rows, userId) == 0 then 1 else 0)
    ensures r.rows[..|t.rows|] == t.rows
    ensures exists i :: 0 <= i < |r.rows| && r.rows[i].userId == userId
    ensures CountUserId(t.rows, userId) > 0 ==> r == t
    ensures CountUserId(t.rows, userId) == 0 ==>
      r.rows[|t.rows|] == Row(t.lastId + 1, userId, user, Some(name)) && r.lastId == t.lastId + 1
    ensures WellFormed(t) ==> WellFormed(r)
  {
    var count := CountUserId(t.rows, userId);
    if count > 0 then t else Inserted(t, userId, user, name)
  }

  /** Registering the same sender again, under any handle and name, changes nothing. */
  lemma RegisterIdempotent(t: Table, userId: nat, user: string, name: string, user': string, name': string)
    ensures Registered(Registered(t, userId, user, name), userId, user', name') == Registered(t, userId, user, name)
  {
    var r := Registered(t, userId, user, name);
    var i :| 0 <= i < |r.rows| && r.rows[i].userId == userId;
    assert CountUserId(r.rows, userId) > 0;
  }

  /** `DELETE FROM list`: every row goes, the counter stays. */
  function Cleared(t: Table): (r: Table)
    ensures r.rows == [] && r.lastId == t.lastId
  {
    Table([], t.lastId)
  }

  /** The columns a listing can be filtered on. */
  datatype Column = UserColumn | NameColumn

  /** SQL's `column = ?`: comparing with NULL is never true. */
  predicate Matches(row: Row, column: Column, value: Option<string>) {
    match value
    case None => false
    case Some(v) =>
      match column
      case UserColumn => row.user == v
      case NameColumn => row.name == Some(v)
  }

  /** `SELECT * FROM list WHERE column = ?`. */
  function Where(rows: seq<Row>, column: Column, value: Option<string>): (r: seq<Row>)
    ensures |r| <= |rows|
  {
    if rows == [] then []
    else if Matches(rows[0], column, value) then [rows[0]] + Where(rows[1..], column, value)
    else Where(rows[1..], column, value)
  }

  /** The filtered select returns exactly the matching rows, in table order. */
  lemma WhereExactly(rows: seq<Row>, column: Column, value: Option<string>)
    ensures forall x :: x in Where(rows, column, value) ==> x in rows && Matches(x, column, value)
    ensures forall i :: 0 <= i < |rows| && Matches(rows[i], column, value) ==> rows[i] in Where(rows, column, value)
    ensures IdsAscending(rows) ==> IdsAscending(Where(rows, column, value))
  {
    WhereSound(rows, column, value);
    WhereComplete(rows, column, value);
    if IdsAscending(rows) {
      WhereAscending(rows, column, value);
    }
  }

  lemma {:induction false} WhereSound(rows: seq<Row>, column: Column, value: Option<string>)
    ensures forall x :: x in Where(rows, column, value) ==> x in rows && Matches(x, column, value)
  {
    if rows != [] {
      WhereSound(rows[1..], column, value);
      assert rows == [rows[0]] + rows[1..];
    }
  }

  lemma {:induction false} WhereComplete(rows: seq<Row>, column: Column, value: Option<string>)
    ensures forall i :: 0 <= i < |rows| && Matches(rows[i], column, value) ==> rows[i] in Where(rows, column, value)
  {
    if rows != [] {
      var tail := rows[1..];
      WhereComplete(tail, column, value);
      forall i | 1 <= i < |rows| && Matches(rows[i], column, value)
        ensures rows[i] in Where(rows, column, value)
      {
        assert rows[i] == tail[i - 1];
      }
    }
  }

  lemma {:induction false} WhereAscending(rows: seq<Row>, column: Column, value: Option<string>)
    requires IdsAscending(rows)
    ensures IdsAscending(Where(rows, column, value))
  {
    if rows != [] {
      var tail := rows[1..];
      AscendingTail(rows);
      WhereAscending(tail, column, value);
      if Matches(rows[0], column, value) {
        var rest := Where(tail, column, value);
        WhereSound(tail, column, value);
        forall j | 0 <= j < |rest| ensures rows[0].id < rest[j].id {
          assert rest[j] in tail;
        }
      }
    }
  }

  /** Filtering distributes over concatenation, so the result keeps the
      table's order. */
  lemma {:induction false} WhereAppend(a: seq<Row>, b: seq<Row>, column: Column, value: Option<string>)
    ensures Where(a + b, column, value) == Where(a, column, value) + Where(b, column, value)
  {
    if a == [] {
      assert a + b == b;
    } else {
      var ab := a + b;
      assert ab[0] == a[0];
      assert ab[1..] == a[1..] + b;
      WhereAppend(a[1..], b, column, value);
      var w := Where(a[1..], column, value);
      if Matches(a[0], column, value) {
        calc {
          Where(ab, column, value);
          [a[0]] + Where(a[1..] + b, column, value);
          [a[0]] + (w + Where(b, column, value));
          ([a[0]] + w) + Where(b, column, value);
        }
      } else {
        calc {
          Where(ab, column, value);
          Where(a[1..] + b, column, value);
        }
      }
    }
  }

  /** `SELECT user_id FROM list`. */
  function UserIds(rows: seq<Row>): (ids: seq<nat>)
    ensures |ids| == |rows|
    ensures forall i :: 0 <= i < |rows| ==> ids[i] == rows[i].userId
  {
    if rows == [] then [] else [rows[0].userId] + UserIds(rows[1..])
  }

  /** The statements that change the table. */
  datatype Op =
    | Insert(userId: nat, user: string, name: string)
    | Register(userId: nat, user: string, name: string)
    | Delete(id: nat)
    | Rename(id: nat, newName: Option<string>)
    | Clear

  function Applied(t: Table, op: Op): (r: Table)
    ensures WellFormed(t) ==> WellFormed(r)
    ensures r.lastId >= t.lastId
  {
    match op
    case Insert(userId, user, name) => Inserted(t, userId, user, name)
    case Register(userId, user, name) => Registered(t, userId, user, name)
    case Delete(id) => Deleted(t, id)
    case Rename(id, name) =>
      var r := Table(Renamed(t.rows, id, name), t.lastId);
      assert forall i :: 0 <= i < |r.rows| ==> r.rows[i].id == t.rows[i].id;
      r
    case Clear => Cleared(t)
  }

  function Run(t: Table, ops: seq<Op>): Table
    decreases |ops|
  {
    if ops == [] then t else Run(Applied(t, ops[0]), ops[1..])
  }

  /** Any sequence of statements keeps the table well formed and never
      lowers the counter. */
  lemma {:induction false} RunKeepsCounter(t: Table, ops: seq<Op>)
    requires WellFormed(t)
    ensures WellFormed(Run(t, ops))
    ensures Run(t, ops).lastId >= t.lastId
    decreases |ops|
  {
    if ops != [] {
      RunKeepsCounter(Applied(t, ops[0]), ops[1..]);
    }
  }

  /** AUTOINCREMENT never reuses an id: whatever was inserted, deleted or
      cleared in between, the next insert gets an id above every id that
      was ever stored in an earlier state. */
  lemma NoIdReuse(t: Table, ops: seq<Op>, userId: nat, user: string, name: string)
    requires WellFormed(t)
    ensures var before := Run(t, ops);
      var r := Inserted(before, userId, user, name);
      forall i :: 0 <= i < |t.rows| ==> t.rows[i].id < r.rows[|before.rows|].id
  {
    RunKeepsCounter(t, ops);
  }

  /** The shared table the handlers update in place. */
  class ContactTable {
    var rows: seq<Row>
    var lastId: nat

    function Value(): Table
      reads this
    {
      Table(rows, lastId)
    }

    predicate Valid()
      reads this
    {
      WellFormed(Value())
    }

    /** Opening the database file with `CREATE TABLE IF NOT EXISTS
        list(...)`: the table a previous run left, rows and counter, is kept
        as it was; on the very first run it is `Empty`. */
    constructor (stored: Table)
      requires WellFormed(stored)
      ensures Valid() && Value() == stored
    {
      rows, lastId := stored.rows, stored.lastId;
    }

    /** `insert_data`. */
    method Insert(userId: nat, user: string, name: string) returns (id: nat)
      requires Valid()
      modifies this
      ensures Valid() && Value() == Inserted(old(Value()), userId, user, name)
      ensures id == lastId && id > old(lastId)
    {
      id := lastId + 1;
      rows := rows + [Row(id, userId, user, Some(name))];
      lastId := id;
    }

    /** The table half of `echo_message`: count the rows with this
        `user_id`, insert only when there are none. */
    method RegisterIfAbsent(userId: nat, user: string, name: string) returns (inserted: bool)
      requires Valid()
      modifies this
      ensures Valid() && Value() == Registered(old(Value()), userId, user, name)
      ensures inserted <==> forall i :: 0 <= i < |old(rows)| ==> old(rows)[i].userId != userId
    {
      var count := CountUserId(rows, userId);
      inserted := count == 0;
      if inserted {
        var _ := Insert(userId, user, name);
      }
    }

    /** `delete_data`: look the id up, delete only when found, and say which. */
    method DeleteById(id: nat) returns (found: bool)
      requires Valid()
      modifies this
      ensures Valid() && Value() == Deleted(old(Value()), id)
      ensures found == HasId(old(rows), id)
    {
      found := HasId(rows, id);
      if found {
        rows := Deleted(Value(), id).rows;
      } else {
        DeleteMissing(Value(), id);
      }
    }

    /** The UPDATE of `replace_name`. */
    method ReplaceName(id: nat, name: Option<string>)
      requires Valid()
      modifies this
      ensures Valid() && Value() == Applied(old(Value()), Rename(id, name))
    {
      rows := Renamed(rows, id, name);
    }

    /** The DELETE of `clear_db`. */
    method Clear()
      requires Valid()
      modifies this
      ensures Valid() && Value() == Cleared(old(Value()))
    {
      rows := [];
    }

    /** Runs one statement. */
    method Apply(op: Op)
      requires Valid()
      modifies this
      ensures Valid() && Value() == Applied(old(Value()), op)
    {
      match op
      case Insert(userId, user, name) =>
        var _ := Insert(userId, user, name);
      case Register(userId, user, name) =>
        var _ := RegisterIfAbsent(userId, user, name);
      case Delete(id) =>
        var _ := DeleteById(id);
      case Rename(id, name) =>
        ReplaceName(id, name);
      case Clear =>
        Clear();
    }
  }
}
