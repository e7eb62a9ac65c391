/**
 * The request handlers of the admin server (port 3002): list queries
 * narrowed by project, required-field checks and defaults, COALESCE
 * updates, deletes that answer 404 when no row went, the admin user
 * endpoints and the user-table metadata endpoints. Each handler takes the
 * tables it touches and the activity log, and answers with a `Response`.
 */
module AdminServer {
  import opened Text
  import opened Store

  const ProjectColumns: set<string> := {"name", "currentVersion", "status", "lastUpdated", "description", "team", "progress"}
  const TaskColumns: set<string> := {"title", "description", "status", "assignee", "priority", "projectId"}
  const RecipeColumns: set<string> := {"name", "ingredients", "difficulty"}
  const IngredientColumns: set<string> := {"name", "type", "rarity"}
  const BuildColumns: set<string> := {"projectId", "version", "platform", "status", "duration"}
  const UserColumns: set<string> := {"username", "password", "email", "role"}
  const UserTableColumns: set<string> := {"projectId", "name", "description", "schemaJson"}

  /** The columns each PUT passes through COALESCE. */
  const ProjectUpdate: set<string> := {"name", "description", "team", "progress"}
  const TaskUpdate: set<string> := TaskColumns

  /** The fields `POST /api/recipes` and `POST /api/ingredients` refuse to do without. */
  const RecipeRequired: set<string> := {"name", "ingredients"}
  const IngredientRequired: set<string> := {"name"}

  /** Every one of `cols` holds a truthy value in the body. */
  predicate AllTruthy(body: Row, cols: set<string>) {
    forall c :: c in cols ==> Truthy(Get(body, c))
  }

  /** The body with a leading `id` field; as in `{ id, ...req.body }`, a body field `id` wins. */
  function WithId(id: Value, body: Row): (r: Row)
    ensures r.Keys == body.Keys + {"id"}
    ensures "id" !in body ==> r["id"] == id
    ensures forall c :: c in body ==> r[c] == body[c]
  {
    map["id" := id] + body
  }

  function Changed(n: nat): Row {
    map["changes" := Num(n)]
  }

  // ---------------------------------------------------------------- list queries

  /**
   * The list query of `GET /api/tasks`, `/api/assets` and `/api/builds`:
   * the filter clause and its parameter are added exactly when the
   * `projectId` query parameter is truthy.
   */
  method ListQuery(table: string, projectId: Value) returns (sql: string, params: seq<Value>)
    requires '?' !in table
    ensures sql == SelectFrom + table + (if Truthy(projectId) then WhereProject else "")
    ensures params == if Truthy(projectId) then [projectId] else []
    ensures Placeholders(sql) == |params|
  {
    var filtered := Truthy(projectId);
    sql := SelectFrom + table;
    params := [];
    if filtered {
      sql := sql + WhereProject;
      params := [projectId];
    } else {
      assert sql == SelectFrom + table + "";
    }
    ListQueryPlaceholders(table, filtered);
  }

  const SelectFrom := "SELECT * FROM "
  const WhereProject := " WHERE projectId = " + "?"

  /** The list query has one placeholder when it filters and none otherwise. */
  lemma ListQueryPlaceholders(table: string, filtered: bool)
    requires '?' !in table
    ensures Placeholders(SelectFrom + table + (if filtered then WhereProject else "")) == if filtered then 1 else 0
  {
    SelectFromPlaceholders();
    NoPlaceholders(table);
    PlaceholdersAppend(SelectFrom, table);
    var w := if filtered then WhereProject else "";
    if filtered {
      WhereProjectPlaceholders();
    } else {
      NoPlaceholders(w);
    }
    PlaceholdersAppend(SelectFrom + table, w);
  }

  lemma SelectFromPlaceholders()
    ensures Placeholders(SelectFrom) == 0
  {
    NoPlaceholders(SelectFrom);
  }

  lemma WhereProjectPlaceholders()
    ensures Placeholders(WhereProject) == 1
  {
    NoPlaceholders(" WHERE projectId = ");
    OnePlaceholder();
    PlaceholdersAppend(" WHERE projectId = ", "?");
  }

  /** The rows such a query returns: those of that project, or all of them. */
  function ListScope(t: Table, projectId: Value): (r: map<int, Row>)
    reads t
    ensures Truthy(projectId) ==> r.Keys == set id | id in t.rows && Get(t.rows[id], "projectId") == projectId
    ensures !Truthy(projectId) ==> r == t.rows
    ensures forall id :: id in r ==> id in t.rows && r[id] == t.rows[id]
  {
    if Truthy(projectId) then t.Where("projectId", projectId) else t.rows
  }

  /** `GET /api/tasks`, `/api/assets`, `/api/builds` with an optional `projectId`. */
  method List(t: Table, table: string, projectId: Value) returns (resp: Response)
    requires '?' !in table
    ensures resp == Rows(ListScope(t, projectId))
  {
    var sql, params := ListQuery(table, projectId);
    if |params| == 1 {
      resp := Rows(t.Where("projectId", params[0]));
    } else {
      resp := Rows(t.rows);
    }
  }

  // ---------------------------------------------------------------- projects

  /** `GET /api/projects/:id`: the row with its id as a string, or 404. */
  method GetProject(projects: Table, id: int) returns (resp: Response)
    requires projects.Valid()
    ensures id !in projects.rows <==> resp == NotFound
    ensures id in projects.rows ==> resp == Ok(projects.rows[id]["id" := Str(NatToString(id))])
  {
    var row := projects.Find(id);
    if row.None? {
      return NotFound;
    }
    resp := Ok(row.value["id" := Str(NatToString(id))]);
  }

  /** `PUT /api/projects/:id`: a COALESCE update of name, description, team and progress. */
  method UpdateProject(projects: Table, log: ActivityLog, id: int, body: Row) returns (resp: Response)
    requires projects.Valid() && projects.unique == {}
    modifies projects, log
    ensures projects.Valid() && projects.nextId == old(projects.nextId)
    ensures resp == NotFound <==> id !in old(projects.rows)
    ensures id !in old(projects.rows) ==> projects.rows == old(projects.rows) && log.entries == old(log.entries)
    ensures id in old(projects.rows) ==>
      resp == Ok(Changed(1)) &&
      projects.rows == old(projects.rows)[id := Applied(CoalesceSet(ProjectUpdate, body), old(projects.rows)[id])] &&
      log.entries == old(log.entries) + [Activity("项目更新", [Or(Get(body, "name"), Str("未知项目")), Num(id)])]
  {
    var w := projects.Update(id, CoalesceSet(ProjectUpdate, body));
    match w
    case UniqueViolation =>
      resp := ServerError;
    case Changes(n) =>
      if n == 0 {
        return NotFound;
      }
      log.Log("项目更新", [Or(Get(body, "name"), Str("未知项目")), Num(id)]);
      resp := Ok(Changed(n));
  }

  /** `DELETE /api/projects/:id`: 404 for a missing row; the activity names the deleted project. */
  method DeleteProject(projects: Table, log: ActivityLog, id: int) returns (resp: Response)
    requires projects.Valid()
    modifies projects, log
    ensures projects.Valid() && projects.nextId == old(projects.nextId)
    ensures projects.rows == old(projects.rows) - {id}
    ensures resp == NotFound <==> id !in old(projects.rows)
    ensures id !in old(projects.rows) ==> log.entries == old(log.entries)
    ensures id in old(projects.rows) ==>
      resp == Ok(Changed(1)) &&
      log.entries == old(log.entries) + [Activity("项目删除", [Get(old(projects.rows)[id], "name")])]
  {
    var row := projects.Find(id);
    if row.None? {
      return NotFound;
    }
    var changes := projects.Delete(id);
    if changes > 0 {
      log.Log("项目删除", [Get(row.value, "name")]);
    }
    resp := Ok(Changed(changes));
  }

  // ---------------------------------------------------------------- tasks

  /** The row `POST /api/tasks` inserts, or None (400) without a title or a project. */
  function NewTask(body: Row): (r: Option<Row>)
    ensures r.None? <==> !Truthy(Get(body, "title")) || !Truthy(Get(body, "projectId"))
    ensures r.Some? ==> r.value.Keys == TaskColumns
    ensures r.Some? ==> r.value["status"] == Or(Get(body, "status"), Str("todo"))
    ensures r.Some? ==> r.value["priority"] == Or(Get(body, "priority"), Str("medium"))
    ensures r.Some? ==> forall c :: c in TaskColumns - {"status", "priority"} ==> r.value[c] == Get(body, c)
  {
    if !Truthy(Get(body, "title")) || !Truthy(Get(body, "projectId")) then None
    else Some(Normalize(body, TaskColumns)["status" := Or(Get(body, "status"), Str("todo"))]
                                     ["priority" := Or(Get(body, "priority"), Str("medium"))])
  }

  /** A created task always has a status and a priority, whatever the body left out. */
  lemma NewTaskDefaults(body: Row)
    requires NewTask(body).Some?
    ensures Truthy(NewTask(body).value["status"]) && Truthy(NewTask(body).value["priority"])
    ensures !Truthy(Get(body, "status")) ==> NewTask(body).value["status"] == Str("todo")
  {
  }

  /** `POST /api/tasks`: 201 with the new id as a string in front of the body. */
  method PostTask(tasks: Table, log: ActivityLog, body: Row) returns (resp: Response)
    requires tasks.Valid() && tasks.columns == TaskColumns && tasks.unique == {}
    modifies tasks, log
    ensures tasks.Valid()
    ensures resp == BadRequest <==> NewTask(body).None?
    ensures NewTask(body).None? ==> tasks.rows == old(tasks.rows) && tasks.nextId == old(tasks.nextId) && log.entries == old(log.entries)
    ensures NewTask(body).Some? ==>
      var id := old(tasks.nextId);
      tasks.rows == old(tasks.rows)[id := NewTask(body).value] && tasks.nextId == id + 1 &&
      resp == Created(WithId(Str(NatToString(id)), body)) &&
      log.entries == old(log.entries) + [Activity("新任务", [Get(body, "title")])]
  {
    var values := NewTask(body);
    if values.None? {
      return BadRequest;
    }
    assert Normalize(values.value, TaskColumns) == values.value;
    var id := tasks.Insert(values.value);
    if id.None? {
      return ServerError;
    }
    log.Log("新任务", [Get(body, "title")]);
    resp := Created(WithId(Str(NatToString(id.value)), body));
  }

  /** `PUT /api/tasks/:id`: a COALESCE update of every task column. */
  method UpdateTask(tasks: Table, id: int, body: Row) returns (resp: Response)
    requires tasks.Valid() && tasks.unique == {}
    modifies tasks
    ensures tasks.Valid() && tasks.nextId == old(tasks.nextId)
    ensures resp == NotFound <==> id !in old(tasks.rows)
    ensures id !in old(tasks.rows) ==> tasks.rows == old(tasks.rows)
    ensures id in old(tasks.rows) ==>
      resp == Ok(Changed(1)) &&
      tasks.rows == old(tasks.rows)[id := Applied(CoalesceSet(TaskUpdate, body), old(tasks.rows)[id])]
  {
    var w := tasks.Update(id, CoalesceSet(TaskUpdate, body));
    match w
    case UniqueViolation =>
      resp := ServerError;
    case Changes(n) =>
      resp := if n == 0 then NotFound else Ok(Changed(n));
  }

  /** `DELETE /api/tasks/:id`: 404 for a missing row; the activity names the deleted task. */
  method DeleteTask(tasks: Table, log: ActivityLog, id: int) returns (resp: Response)
    requires tasks.Valid()
    modifies tasks, log
    ensures tasks.Valid() && tasks.nextId == old(tasks.nextId)
    ensures tasks.rows == old(tasks.rows) - {id}
    ensures resp == NotFound <==> id !in old(tasks.rows)
    ensures id !in old(tasks.rows) ==> log.entries == old(log.entries)
    ensures id in old(tasks.rows) ==>
      resp == Ok(Changed(1)) &&
      log.entries == old(log.entries) + [Activity("任务删除", [Get(old(tasks.rows)[id], "title")])]
  {
    var row := tasks.Find(id);
    if row.None? {
      return NotFound;
    }
    var changes := tasks.Delete(id);
    if changes > 0 {
      log.Log("任务删除", [Get(row.value, "title")]);
    }
    resp := Ok(Changed(changes));
  }

  // ---------------------------------------------------------------- recipes and ingredients

  /**
   * `POST /api/recipes` and `POST /api/ingredients`: 400 unless every
   * required field is truthy; a repeated name fails the UNIQUE constraint,
   * which these endpoints answer with 500.
   */
  method PostNamed(t: Table, required: set<string>, body: Row) returns (resp: Response)
    requires t.Valid()
    modifies t
    ensures t.Valid()
    ensures resp == BadRequest <==> !AllTruthy(body, required)
    ensures !AllTruthy(body, required) ==> t.rows == old(t.rows) && t.nextId == old(t.nextId)
    ensures AllTruthy(body, required) ==>
      var row := Normalize(body, t.columns);
      if Clashes(old(t.rows), t.unique, row, old(t.nextId)) then
        resp == ServerError && t.rows == old(t.rows) && t.nextId == old(t.nextId)
      else
        resp == Created(WithId(Num(old(t.nextId)), body)) &&
        t.rows == old(t.rows)[old(t.nextId) := row] && t.nextId == old(t.nextId) + 1
  {
    if !AllTruthy(body, required) {
      return BadRequest;
    }
    var id := t.Insert(body);
    if id.None? {
      return ServerError;
    }
    resp := Created(WithId(Num(id.value), body));
  }

  /** A table whose only UNIQUE column is `name`, as `recipes` and `ingredients` are. */
  ghost predicate NamedTable(t: Table, columns: set<string>)
    reads t
  {
    t.Valid() && t.columns == columns && t.unique == {"name"}
  }

  /** With `name` the only UNIQUE column, a new row clashes exactly when another row has its name. */
  lemma ClashesOnName(rows: map<int, Row>, r: Row, id: int)
    requires id !in rows && Get(r, "name") != Null
    ensures Clashes(rows, {"name"}, r, id) <==> exists j :: j in rows && Get(rows[j], "name") == Get(r, "name")
  {
    if j :| j in rows && Get(rows[j], "name") == Get(r, "name") {
      assert j != id;
      assert Clashes(rows, {"name"}, r, id);
    }
  }

  /**
   * `POST /api/recipes`: 400 without a name or ingredients; 500 when a
   * recipe of that name exists; otherwise the three columns are stored
   * under the next id.
   */
  method PostRecipe(t: Table, body: Row) returns (resp: Response)
    requires NamedTable(t, RecipeColumns)
    modifies t
    ensures NamedTable(t, RecipeColumns)
    ensures resp == BadRequest <==> !Truthy(Get(body, "name")) || !Truthy(Get(body, "ingredients"))
    ensures resp == ServerError <==>
      Truthy(Get(body, "name")) && Truthy(Get(body, "ingredients")) &&
      exists j :: j in old(t.rows) && Get(old(t.rows)[j], "name") == Get(body, "name")
    ensures !resp.Created? ==> t.rows == old(t.rows) && t.nextId == old(t.nextId)
    ensures resp.Created? ==>
      resp == Created(WithId(Num(old(t.nextId)), body)) && t.nextId == old(t.nextId) + 1 &&
      t.rows == old(t.rows)[old(t.nextId) := Normalize(body, RecipeColumns)]
  {
    assert AllTruthy(body, RecipeRequired) <==> Truthy(Get(body, "name")) && Truthy(Get(body, "ingredients"));
    if Truthy(Get(body, "name")) {
      ClashesOnName(t.rows, Normalize(body, t.columns), t.nextId);
    }
    resp := PostNamed(t, RecipeRequired, body);
  }

  /**
   * `POST /api/ingredients`: 400 without a name; 500 when an ingredient
   * of that name exists; otherwise the three columns are stored under the
   * next id.
   */
  method PostIngredient(t: Table, body: Row) returns (resp: Response)
    requires NamedTable(t, IngredientColumns)
    modifies t
    ensures NamedTable(t, IngredientColumns)
    ensures resp == BadRequest <==> !Truthy(Get(body, "name"))
    ensures resp == ServerError <==>
      Truthy(Get(body, "name")) && exists j :: j in old(t.rows) && Get(old(t.rows)[j], "name") == Get(body, "name")
    ensures !resp.Created? ==> t.rows == old(t.rows) && t.nextId == old(t.nextId)
    ensures resp.Created? ==>
      resp == Created(WithId(Num(old(t.nextId)), body)) && t.nextId == old(t.nextId) + 1 &&
      t.rows == old(t.rows)[old(t.nextId) := Normalize(body, IngredientColumns)]
  {
    assert AllTruthy(body, IngredientRequired) <==> Truthy(Get(body, "name"));
    if Truthy(Get(body, "name")) {
      ClashesOnName(t.rows, Normalize(body, t.columns), t.nextId);
    }
    resp := PostNamed(t, IngredientRequired, body);
  }

  /**
   * `PUT /api/recipes/:id` and `PUT /api/ingredients/:id`: a COALESCE
   * update of every column; 404 when no row has the id, 500 when the new
   * name is taken.
   */
  method UpdateNamed(t: Table, id: int, body: Row) returns (resp: Response)
    requires t.Valid()
    modifies t
    ensures t.Valid() && t.nextId == old(t.nextId)
    ensures resp == NotFound <==> id !in old(t.rows)
    ensures id !in old(t.rows) ==> t.rows == old(t.rows)
    ensures id in old(t.rows) ==>
      var r := Applied(CoalesceSet(t.columns, body), old(t.rows)[id]);
      if Clashes(old(t.rows), t.unique, r, id) then resp == ServerError && t.rows == old(t.rows)
      else resp == Ok(Changed(1)) && t.rows == old(t.rows)[id := r]
  {
    var w := t.Update(id, CoalesceSet(t.columns, body));
    match w
    case UniqueViolation =>
      resp := ServerError;
    case Changes(n) =>
      resp := if n == 0 then NotFound else Ok(Changed(n));
  }

  /** `DELETE` of a recipe, an ingredient or a user-table entry: 404 exactly when no row went. */
  method DeleteById(t: Table, id: int) returns (resp: Response)
    requires t.Valid()
    modifies t
    ensures t.Valid() && t.nextId == old(t.nextId)
    ensures t.rows == old(t.rows) - {id}
    ensures resp == NotFound <==> id !in old(t.rows)
    ensures id in old(t.rows) ==> resp == Ok(Changed(1))
  {
    var changes := t.Delete(id);
    resp := if changes == 0 then NotFound else Ok(Changed(changes));
  }

  // ---------------------------------------------------------------- builds

  const BuildRequired: set<string> := {"projectId", "version", "platform", "status"}

  /** `POST /api/builds`: 400 unless project, version, platform and status are given. */
  method PostBuild(builds: Table, log: ActivityLog, body: Row) returns (resp: Response)
    requires builds.Valid() && builds.columns == BuildColumns && builds.unique == {}
    modifies builds, log
    ensures builds.Valid()
    ensures resp == BadRequest <==> !AllTruthy(body, BuildRequired)
    ensures !AllTruthy(body, BuildRequired) ==>
      builds.rows == old(builds.rows) && builds.nextId == old(builds.nextId) && log.entries == old(log.entries)
    ensures AllTruthy(body, BuildRequired) ==>
      var id := old(builds.nextId);
      builds.rows == old(builds.rows)[id := Normalize(body, BuildColumns)] && builds.nextId == id + 1 &&
      resp == Created(WithId(Num(id), body)) &&
      log.entries == old(log.entries) + [Activity("构建记录",
        [Get(body, "projectId"), Get(body, "version"), Get(body, "platform"), Get(body, "status")])]
  {
    if !AllTruthy(body, BuildRequired) {
      return BadRequest;
    }
    var id := builds.Insert(body);
    if id.None? {
      return ServerError;
    }
    log.Log("构建记录", [Get(body, "projectId"), Get(body, "version"), Get(body, "platform"), Get(body, "status")]);
    resp := Created(WithId(Num(id.value), body));
  }

  // ---------------------------------------------------------------- admin users

  /**
   * The row `POST /api/admin/users` inserts, or None (400) without a
   * username or a password; `hashed` is the bcrypt hash of the password.
   */
  function NewUser(body: Row, hashed: string): (r: Option<Row>)
    ensures r.None? <==> !Truthy(Get(body, "username")) || !Truthy(Get(body, "password"))
    ensures r.Some? ==> r.value.Keys == UserColumns && r.value["password"] == Str(hashed)
    ensures r.Some? ==> r.value["username"] == Get(body, "username") && r.value["email"] == Get(body, "email")
    ensures r.Some? ==> r.value["role"] == Or(Get(body, "role"), Str("player"))
  {
    if !Truthy(Get(body, "username")) || !Truthy(Get(body, "password")) then None
    else Some(map["username" := Get(body, "username"), "password" := Str(hashed),
                  "email" := Get(body, "email"), "role" := Or(Get(body, "role"), Str("player"))])
  }

  /** A user created without a (truthy) role is stored as a player. */
  lemma NewUserDefaultRole(body: Row, hashed: string)
    requires NewUser(body, hashed).Some? && !Truthy(Get(body, "role"))
    ensures NewUser(body, hashed).value["role"] == Str("player")
  {
  }

  /** `POST /api/admin/users`: 409 when the username or email is taken. */
  method CreateUser(users: Table, log: ActivityLog, body: Row, hashed: string) returns (resp: Response)
    requires users.Valid() && users.columns == UserColumns
    modifies users, log
    ensures users.Valid()
    ensures resp == BadRequest <==> NewUser(body, hashed).None?
    ensures NewUser(body, hashed).None? ==>
      users.rows == old(users.rows) && users.nextId == old(users.nextId) && log.entries == old(log.entries)
    ensures NewUser(body, hashed).Some? ==>
      var row := NewUser(body, hashed).value;
      var id := old(users.nextId);
      if Clashes(old(users.rows), users.unique, row, id) then
        resp == Conflict && users.rows == old(users.rows) && users.nextId == id && log.entries == old(log.entries)
      else
        users.rows == old(users.rows)[id := row] && users.nextId == id + 1 &&
        resp == Created(map["id" := Num(id), "username" := row["username"], "email" := row["email"], "role" := row["role"]]) &&
        log.entries == old(log.entries) + [Activity("用户管理", [row["username"], row["role"]])]
  {
    var values := NewUser(body, hashed);
    if values.None? {
      return BadRequest;
    }
    var row := values.value;
    assert Normalize(row, UserColumns) == row;
    var id := users.Insert(row);
    if id.None? {
      return Conflict;
    }
    log.Log("用户管理", [row["username"], row["role"]]);
    resp := Created(map["id" := Num(id.value), "username" := row["username"], "email" := row["email"], "role" := row["role"]]);
  }

  /** `PUT /api/admin/users/:id/password`: 400 without a new password, 404 for an unknown user. */
  method UpdatePassword(users: Table, log: ActivityLog, id: int, body: Row, hashed: string) returns (resp: Response)
    requires users.Valid() && users.columns == UserColumns && "password" !in users.unique
    modifies users, log
    ensures users.Valid() && users.nextId == old(users.nextId)
    ensures resp == BadRequest <==> !Truthy(Get(body, "newPassword"))
    ensures resp == NotFound <==> Truthy(Get(body, "newPassword")) && id !in old(users.rows)
    ensures resp != Ok(map[]) ==> users.rows == old(users.rows) && log.entries == old(log.entries)
    ensures resp == Ok(map[]) ==>
      id in old(users.rows) &&
      users.rows == old(users.rows)[id := old(users.rows)[id]["password" := Str(hashed)]] &&
      log.entries == old(log.entries) + [Activity("用户管理", [Num(id)])]
    ensures Truthy(Get(body, "newPassword")) && id in old(users.rows) ==> resp == Ok(map[])
  {
    if !Truthy(Get(body, "newPassword")) {
      return BadRequest;
    }
    var change := AssignSet({"password"}, map["password" := Str(hashed)]);
    ghost var before := users.rows;
    var w := users.Update(id, change);
    if id in before {
      assert Applied(change, before[id]) == before[id]["password" := Str(hashed)];
    }
    match w
    case UniqueViolation =>
      resp := ServerError;
    case Changes(n) =>
      if n == 0 {
        return NotFound;
      }
      log.Log("用户管理", [Num(id)]);
      resp := Ok(map[]);
  }

  const UserDetails: set<string> := {"username", "email", "role"}

  /** `PUT /api/admin/users/:id`: username, email and role are all required and overwritten. */
  method UpdateUser(users: Table, log: ActivityLog, id: int, body: Row) returns (resp: Response)
    requires users.Valid()
    modifies users, log
    ensures users.Valid() && users.nextId == old(users.nextId)
    ensures resp == BadRequest <==> !AllTruthy(body, UserDetails)
    ensures resp == NotFound <==> AllTruthy(body, UserDetails) && id !in old(users.rows)
    ensures resp != Ok(map[]) ==> users.rows == old(users.rows) && log.entries == old(log.entries)
    ensures AllTruthy(body, UserDetails) && id in old(users.rows) ==>
      var r := Applied(AssignSet(UserDetails, body), old(users.rows)[id]);
      if Clashes(old(users.rows), users.unique, r, id) then resp == Conflict
      else (resp == Ok(map[]) && users.rows == old(users.rows)[id := r] &&
            log.entries == old(log.entries) + [Activity("用户管理", [Num(id)])])
  {
    if !AllTruthy(body, UserDetails) {
      return BadRequest;
    }
    var w := users.Update(id, AssignSet(UserDetails, body));
    match w
    case UniqueViolation =>
      resp := Conflict;
    case Changes(n) =>
      if n == 0 {
        return NotFound;
      }
      log.Log("用户管理", [Num(id)]);
      resp := Ok(map[]);
  }

  /** `DELETE /api/admin/users/:id`: 404 for an unknown user; logged only when a row went. */
  method DeleteUser(users: Table, log: ActivityLog, id: int) returns (resp: Response)
    requires users.Valid()
    modifies users, log
    ensures users.Valid() && users.nextId == old(users.nextId)
    ensures users.rows == old(users.rows) - {id}
    ensures resp == NotFound <==> id !in old(users.rows)
    ensures id !in old(users.rows) ==> log.entries == old(log.entries)
    ensures id in old(users.rows) ==> resp == Ok(map[]) && log.entries == old(log.entries) + [Activity("用户管理", [Num(id)])]
  {
    var changes := users.Delete(id);
    if changes == 0 {
      return NotFound;
    }
    log.Log("用户管理", [Num(id)]);
    resp := Ok(map[]);
  }

  // ---------------------------------------------------------------- user-table metadata

  const UserTableRequired: set<string> := {"projectId", "name", "schemaJson"}
  const UserTablePut: set<string> := {"name", "description", "schemaJson"}

  /** `GET /api/user-tables/:projectId`: the entries of that project and no others. */
  method ListUserTables(t: Table, projectId: Value) returns (resp: Response)
    ensures resp.Rows?
    ensures forall id :: id in resp.rows <==> id in t.rows && Get(t.rows[id], "projectId") == projectId
    ensures forall id :: id in resp.rows ==> resp.rows[id] == t.rows[id]
  {
    resp := Rows(t.Where("projectId", projectId));
  }

  /** `POST /api/user-tables`: 400 unless project, name and schema are given. */
  method PostUserTable(t: Table, body: Row) returns (resp: Response)
    requires t.Valid() && t.columns == UserTableColumns && t.unique == {}
    modifies t
    ensures t.Valid()
    ensures resp == BadRequest <==> !AllTruthy(body, UserTableRequired)
    ensures !AllTruthy(body, UserTableRequired) ==> t.rows == old(t.rows) && t.nextId == old(t.nextId)
    ensures AllTruthy(body, UserTableRequired) ==>
      var id := old(t.nextId);
      t.rows == old(t.rows)[id := Normalize(body, UserTableColumns)] && t.nextId == id + 1 &&
      resp == Created(Normalize(body, UserTableColumns)["id" := Num(id)])
  {
    if !AllTruthy(body, UserTableRequired) {
      return BadRequest;
    }
    var row := Normalize(body, UserTableColumns);
    var id := t.Insert(body);
    if id.None? {
      return ServerError;
    }
    resp := Created(row["id" := Num(id.value)]);
  }

  /**
   * `PUT /api/user-tables/:id`: name and schema are required; name,
   * description and schema are overwritten as given, so a missing
   * description becomes NULL.
   */
  method PutUserTable(t: Table, id: int, body: Row) returns (resp: Response)
    requires t.Valid() && t.unique == {}
    modifies t
    ensures t.Valid() && t.nextId == old(t.nextId)
    ensures resp == BadRequest <==> !Truthy(Get(body, "name")) || !Truthy(Get(body, "schemaJson"))
    ensures resp == NotFound <==>
      Truthy(Get(body, "name")) && Truthy(Get(body, "schemaJson")) && id !in old(t.rows)
    ensures Truthy(Get(body, "name")) && Truthy(Get(body, "schemaJson")) && id in old(t.rows) ==> resp.Ok?
    ensures resp.Ok? ==>
      id in old(t.rows) && resp.body == Normalize(body, UserTablePut)["id" := Num(id)] &&
      t.rows == old(t.rows)[id := Applied(AssignSet(UserTablePut, body), old(t.rows)[id])]
    ensures !resp.Ok? ==> t.rows == old(t.rows)
  {
    if !Truthy(Get(body, "name")) || !Truthy(Get(body, "schemaJson")) {
      return BadRequest;
    }
    var w := t.Update(id, AssignSet(UserTablePut, body));
    match w
    case UniqueViolation =>
      resp := ServerError;
    case Changes(n) =>
      resp := if n == 0 then NotFound else Ok(Normalize(body, UserTablePut)["id" := Num(id)]);
  }
}
