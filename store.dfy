/**
 * The SQLite database as the two servers use it, reduced to what their
 * handlers observe: a table is a map from row id to row, a counter that
 * hands out the next id, and the UNIQUE columns whose violation the
 * handlers report. Values are the JSON values a request body can carry.
 */
module Store {
  import opened Text

  /** A request-body or column value; `Null` is SQL NULL and JavaScript `undefined`/`null`. */
  datatype Value = Null | Str(s: string) | Num(n: int) | Bool(b: bool)

  /** JavaScript truthiness: NULL, "", 0 and false are falsy. */
  predicate Truthy(v: Value) {
    match v
    case Null => false
    case Str(s) => |s| > 0
    case Num(n) => n != 0
    case Bool(b) => b
  }

  type Row = map<string, Value>

  /** A body field or column; a missing key reads as `undefined`, which binds as NULL. */
  function Get(r: Row, c: string): Value {
    if c in r then r[c] else Null
  }

  /** `v || d`. */
  function Or(v: Value, d: Value): (r: Value)
    ensures Truthy(v) ==> r == v
    ensures !Truthy(v) ==> r == d
  {
    if Truthy(v) then v else d
  }

  /** The number of `?` placeholders in an SQL text. */
  function Placeholders(sql: string): nat {
    CountChar(sql, '?')
  }

  lemma PlaceholdersAppend(a: string, b: string)
    ensures Placeholders(a + b) == Placeholders(a) + Placeholders(b)
  {
    CountCharConcat(a, b, '?');
  }

  lemma {:induction false} NoPlaceholders(a: string)
    requires '?' !in a
    ensures Placeholders(a) == 0
  {
    if a != [] {
      assert a[0] != '?';
      assert forall k :: 0 <= k < |a[1..]| ==> a[1..][k] == a[k + 1];
      NoPlaceholders(a[1..]);
    }
  }

  lemma OnePlaceholder()
    ensures Placeholders("?") == 1
  {
    assert "?"[1..] == [];
  }

  /** A clause made of placeholder-free text and one `?`. */
  lemma ClauseOne(text: string)
    requires '?' !in text
    ensures Placeholders(text + "?") == 1
  {
    NoPlaceholders(text);
    OnePlaceholder();
    PlaceholdersAppend(text, "?");
  }

  /** Joining clauses of one placeholder each with a placeholder-free separator. */
  lemma {:induction false} JoinPlaceholders(parts: seq<string>, sep: string)
    requires Placeholders(sep) == 0
    requires forall i :: 0 <= i < |parts| ==> Placeholders(parts[i]) == 1
    ensures Placeholders(Join(parts, sep)) == |parts|
  {
    if parts == [] {
      NoPlaceholders("");
    } else if |parts| > 1 {
      JoinPlaceholders(parts[1..], sep);
      PlaceholdersAppend(parts[0], sep);
      PlaceholdersAppend(parts[0] + sep, Join(parts[1..], sep));
    }
  }

  /** The two forms of UPDATE the servers issue. */
  datatype Change =
    | CoalesceSet(cols: set<string>, body: Row)   // `c = COALESCE(?, c)` for each c in cols
    | AssignSet(cols: set<string>, body: Row)     // `c = ?` for each c in cols

  /** The row an UPDATE leaves behind. */
  function Applied(ch: Change, stored: Row): (r: Row)
    ensures r.Keys == stored.Keys
  {
    match ch
    case CoalesceSet(cols, body) =>
      map c | c in stored :: if c in cols && Get(body, c) != Null then Get(body, c) else stored[c]
    case AssignSet(cols, body) =>
      map c | c in stored :: if c in cols then Get(body, c) else stored[c]
  }

  /**
   * A COALESCE update keeps every column the body leaves out (or sends as
   * null), overwrites exactly the supplied ones, and applying it twice is
   * applying it once.
   */
  lemma CoalesceKeepsAbsent(stored: Row, cols: set<string>, body: Row)
    ensures var r := Applied(CoalesceSet(cols, body), stored);
      (forall c :: c in stored && (c !in cols || Get(body, c) == Null) ==> r[c] == stored[c]) &&
      (forall c :: c in stored && c in cols && Get(body, c) != Null ==> r[c] == body[c]) &&
      Applied(CoalesceSet(cols, body), r) == r
  {
  }

  /** A COALESCE update with an empty body changes nothing. */
  lemma CoalesceEmptyBody(stored: Row, cols: set<string>)
    ensures Applied(CoalesceSet(cols, map[]), stored) == stored
  {
  }

  /** A plain assignment overwrites its columns even with NULL; the other columns are kept. */
  lemma AssignOverwrites(stored: Row, cols: set<string>, body: Row)
    ensures var r := Applied(AssignSet(cols, body), stored);
      (forall c :: c in stored && c in cols ==> r[c] == Get(body, c)) &&
      (forall c :: c in stored && c !in cols ==> r[c] == stored[c])
  {
  }

  /**
   * The named fields of a request body, as a handler destructures them and
   * an INSERT stores them: every column, NULL where the body gives no value.
   */
  function Normalize(values: Row, columns: set<string>): (r: Row)
    ensures r.Keys == columns
    ensures forall c :: c in columns ==> r[c] == Get(values, c)
  {
    map c | c in columns :: Get(values, c)
  }

  /** No two rows share a non-NULL value in a UNIQUE column (SQLite allows repeated NULLs). */
  ghost predicate Distinct(rows: map<int, Row>, unique: set<string>) {
    forall i, j, c :: i in rows && j in rows && i != j && c in unique && Get(rows[i], c) != Null ==>
      Get(rows[i], c) != Get(rows[j], c)
  }

  /** Storing `r` under `id` would repeat a UNIQUE value of another row. */
  predicate Clashes(rows: map<int, Row>, unique: set<string>, r: Row, id: int) {
    exists j, c :: j in rows && c in unique && j != id && Get(r, c) != Null && Get(rows[j], c) == Get(r, c)
  }

  /** Storing a row that clashes with no other row keeps the UNIQUE columns distinct. */
  lemma StoreKeepsDistinct(rows: map<int, Row>, unique: set<string>, r: Row, id: int)
    requires Distinct(rows, unique) && !Clashes(rows, unique, r, id)
    ensures Distinct(rows[id := r], unique)
  {
    var s := rows[id := r];
    forall i, j, c | i in s && j in s && i != j && c in unique && Get(s[i], c) != Null
      ensures Get(s[i], c) != Get(s[j], c)
    {
      if i == id {
        assert Get(s[j], c) == Get(rows[j], c);
      } else if j == id {
        assert Get(s[i], c) == Get(rows[i], c);
      } else {
        assert Get(s[i], c) == Get(rows[i], c) && Get(s[j], c) == Get(rows[j], c);
      }
    }
  }

  /** What `this.changes` reports for an UPDATE, or the UNIQUE failure it raised instead. */
  datatype WriteResult = Changes(n: nat) | UniqueViolation

  /** One SQLite table with an AUTOINCREMENT id. */
  class Table {
    const columns: set<string>
    const unique: set<string>
    var rows: map<int, Row>
    var nextId: int

    ghost predicate Valid()
      reads this
    {
      1 <= nextId && unique <= columns &&
      (forall id :: id in rows ==> 1 <= id < nextId && rows[id].Keys == columns) &&
      Distinct(rows, unique)
    }

    constructor(columns: set<string>, unique: set<string>)
      requires unique <= columns
      ensures Valid()
      ensures this.columns == columns && this.unique == unique && rows == map[] && nextId == 1
    {
      this.columns := columns;
      this.unique := unique;
      rows := map[];
      nextId := 1;
    }

    /** The row with that id, if any (`db.get(... WHERE id = ?)`). */
    function Find(id: int): (r: Option<Row>)
      reads this
      ensures r.Some? <==> id in rows
      ensures r.Some? ==> r.value == rows[id]
    {
      if id in rows then Some(rows[id]) else None
    }

    /** The rows whose column `c` holds `v` (`db.all(... WHERE c = ?)`). */
    function Where(c: string, v: Value): (r: map<int, Row>)
      reads this
      ensures forall id :: id in r <==> id in rows && Get(rows[id], c) == v
      ensures forall id :: id in r ==> r[id] == rows[id]
    {
      map id | id in rows && Get(rows[id], c) == v :: rows[id]
    }

    /** The row of a UNIQUE column holding `v` (`db.get(... WHERE c = ?)`): there is at most one. */
    function FindUnique(c: string, v: Value): (r: Option<int>)
      requires Valid() && c in unique && v != Null
      reads this
      ensures r.Some? <==> exists id :: id in rows && Get(rows[id], c) == v
      ensures r.Some? ==> r.value in rows && Get(rows[r.value], c) == v
    {
      if exists id :: id in rows && Get(rows[id], c) == v then
        var id :| id in rows && Get(rows[id], c) == v; Some(id)
      else None
    }

    /**
     * `INSERT`: the row gets the next id, unless it repeats a UNIQUE value,
     * in which case nothing changes and no id is used up.
     */
    method Insert(values: Row) returns (id: Option<int>)
      requires Valid()
      modifies this
      ensures Valid()
      ensures id.None? <==> Clashes(old(rows), unique, Normalize(values, columns), old(nextId))
      ensures id.None? ==> rows == old(rows) && nextId == old(nextId)
      ensures id.Some? ==>
        id.value == old(nextId) && nextId == old(nextId) + 1 && rows == old(rows)[id.value := Normalize(values, columns)]
    {
      var r := Normalize(values, columns);
      if Clashes(rows, unique, r, nextId) {
        return None;
      }
      StoreKeepsDistinct(rows, unique, r, nextId);
      rows := rows[nextId := r];
      id := Some(nextId);
      nextId := nextId + 1;
    }

    /**
     * `UPDATE ... WHERE id = ?`: no row gives zero changes; a row whose new
     * values repeat a UNIQUE value of another row raises the constraint
     * error and stays as it was.
     */
    method Update(id: int, ch: Change) returns (w: WriteResult)
      requires Valid()
      modifies this
      ensures Valid() && nextId == old(nextId)
      ensures id !in old(rows) ==> w == Changes(0) && rows == old(rows)
      ensures id in old(rows) && Clashes(old(rows), unique, Applied(ch, old(rows)[id]), id) ==>
        w == UniqueViolation && rows == old(rows)
      ensures id in old(rows) && !Clashes(old(rows), unique, Applied(ch, old(rows)[id]), id) ==>
        w == Changes(1) && rows == old(rows)[id := Applied(ch, old(rows)[id])]
    {
      if id !in rows {
        return Changes(0);
      }
      var r := Applied(ch, rows[id]);
      if Clashes(rows, unique, r, id) {
        return UniqueViolation;
      }
      StoreKeepsDistinct(rows, unique, r, id);
      rows := rows[id := r];
      w := Changes(1);
    }

    /** `DELETE ... WHERE id = ?`: removes that row only and reports how many rows went. */
    method Delete(id: int) returns (changes: nat)
      requires Valid()
      modifies this
      ensures Valid() && nextId == old(nextId)
      ensures rows == old(rows) - {id}
      ensures changes == if id in old(rows) then 1 else 0
    {
      changes := if id in rows then 1 else 0;
      rows := rows - {id};
    }
  }

  /** One row of the `activities` table: its type and the values its description mentions. */
  datatype Activity = Activity(kind: string, about: seq<Value>)

  /** The `activities` table, written by `logActivity`. */
  class ActivityLog {
    var entries: seq<Activity>

    constructor()
      ensures entries == []
    {
      entries := [];
    }

    method Log(kind: string, about: seq<Value>)
      modifies this
      ensures entries == old(entries) + [Activity(kind, about)]
    {
      entries := entries + [Activity(kind, about)];
    }
  }

  /** An HTTP answer of the servers, reduced to its status and the data it carries. */
  datatype Response =
    | Ok(body: Row)                    // 200 with a JSON object
    | Rows(rows: map<int, Row>)        // 200 with a JSON array of rows
    | Created(body: Row)               // 201
    | BadRequest | Unauthorized | Forbidden | NotFound | Conflict | ServerError

  function StatusCode(r: Response): (code: int)
    ensures 200 <= code < 600
  {
    match r
    case Ok(_) => 200
    case Rows(_) => 200
    case Created(_) => 201
    case BadRequest => 400
    case Unauthorized => 401
    case Forbidden => 403
    case NotFound => 404
    case Conflict => 409
    case ServerError => 500
  }
}
