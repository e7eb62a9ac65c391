/**
 * The request logic of the player server (port 3001): the bearer-token
 * gate, registration and login, the profile update with its SQL builder,
 * and the search and filter queries over the games table. Signing and
 * checking tokens and passwords are done by libraries this model does not
 * contain; they are passed in as functions.
 */
module PlayerServer {
  import opened Text
  import opened Store

  // ---------------------------------------------------------------- token gate

  /**
   * `authHeader && authHeader.split(' ')[1]`: no header gives no token;
   * an empty header is falsy and is itself the result; otherwise the second
   * space-separated piece, if there is one.
   */
  function HeaderToken(authHeader: Option<string>): (r: Option<string>)
    ensures authHeader.None? ==> r.None?
    ensures authHeader == Some("") ==> r == Some("")
    ensures authHeader.Some? && authHeader.value != "" ==> (r.Some? <==> ' ' in authHeader.value)
  {
    SecondPieceIffSeparator(if authHeader.Some? then authHeader.value else "", ' ');
    if authHeader.None? then None
    else if authHeader.value == "" then Some("")
    else Piece(authHeader.value, ' ', 1)
  }

  /** `Bearer <token>` yields the token when neither part holds a space. */
  lemma BearerToken(scheme: string, token: string)
    requires scheme != "" && ' ' !in scheme && ' ' !in token
    ensures HeaderToken(Some(scheme + " " + token)) == Some(token)
  {
    SplitAtSeparator(scheme, token, ' ');
    SplitNoSeparator(token, ' ');
    assert scheme + " " + token == scheme + [' '] + token;
  }

  /** What `authenticateToken` does with a request. */
  datatype Gate = Reject(response: Response) | Next(token: string)

  /** `authenticateToken`: 401 without a token, 403 for a token `verify` refuses, else on to the handler. */
  function Authenticate(authHeader: Option<string>, verify: string -> bool): (g: Gate)
    ensures g == Reject(Unauthorized) <==> HeaderToken(authHeader).None?
    ensures g == Reject(Forbidden) <==> HeaderToken(authHeader).Some? && !verify(HeaderToken(authHeader).value)
    ensures g.Next? ==> HeaderToken(authHeader) == Some(g.token) && verify(g.token)
  {
    var token := HeaderToken(authHeader);
    if token.None? then Reject(Unauthorized)
    else if !verify(token.value) then Reject(Forbidden)
    else Next(token.value)
  }

  /** A header without a space never reaches the handler: there is no second piece. */
  lemma NoSpaceUnauthorized(authHeader: string, verify: string -> bool)
    requires authHeader != "" && ' ' !in authHeader
    ensures Authenticate(Some(authHeader), verify) == Reject(Unauthorized)
  {
  }

  // ---------------------------------------------------------------- register and login

  /** The payload signed into a token. */
  datatype Claims = Claims(id: int, username: Value, role: Value)

  /** The user object of the register and login answers. */
  datatype UserInfo = UserInfo(id: int, username: Value, email: Value, role: Value)

  datatype Reply =
    | Refused(response: Response)                  // 400, 401, 409 or 500
    | Registered(token: string, user: UserInfo)    // 201
    | LoggedIn(token: string, user: UserInfo)      // 200

  function ReplyStatus(r: Reply): (code: int)
    ensures r.Registered? ==> code == 201
    ensures r.LoggedIn? ==> code == 200
  {
    match r
    case Refused(resp) => StatusCode(resp)
    case Registered(_, _) => 201
    case LoggedIn(_, _) => 200
  }

  /** Username and password are both present (truthy). */
  predicate HasCredentials(body: Row) {
    Truthy(Get(body, "username")) && Truthy(Get(body, "password"))
  }

  /** The `users` table as the player server reads it: `username` is UNIQUE. */
  ghost predicate UsersTable(users: Table)
    reads users
  {
    users.Valid() && users.columns == {"username", "password", "email", "role"} && "username" in users.unique
  }

  /** The row registration inserts; `hashed` is the bcrypt hash of the password. */
  function RegisteredRow(body: Row, hashed: string): (r: Row)
    ensures r.Keys == {"username", "password", "email", "role"}
    ensures r["role"] == Or(Get(body, "role"), Str("player"))
    ensures r["username"] == Get(body, "username") && r["password"] == Str(hashed)
  {
    map["username" := Get(body, "username"), "password" := Str(hashed), "email" := Get(body, "email"),
        "role" := Or(Get(body, "role"), Str("player"))]
  }

  /**
   * `POST /api/register`: 400 without credentials, 409 when the username
   * is taken, 500 when the insert fails (a taken email); otherwise the new
   * user with a token signed over its id, username and role.
   */
  method Register(users: Table, log: ActivityLog, body: Row, hashed: string, sign: Claims -> string)
    returns (reply: Reply)
    requires UsersTable(users)
    modifies users, log
    ensures UsersTable(users)
    ensures reply == Refused(BadRequest) <==> !HasCredentials(body)
    ensures reply == Refused(Conflict) <==>
      HasCredentials(body) && exists id :: id in old(users.rows) && Get(old(users.rows)[id], "username") == Get(body, "username")
    ensures reply == Refused(ServerError) <==>
      HasCredentials(body) &&
      (forall id :: id in old(users.rows) ==> Get(old(users.rows)[id], "username") != Get(body, "username")) &&
      Clashes(old(users.rows), users.unique, RegisteredRow(body, hashed), old(users.nextId))
    ensures HasCredentials(body) &&
      (forall id :: id in old(users.rows) ==> Get(old(users.rows)[id], "username") != Get(body, "username"))
      ==> (reply.Registered? <==> !Clashes(old(users.rows), users.unique, RegisteredRow(body, hashed), old(users.nextId)))
    ensures !reply.Registered? ==>
      users.rows == old(users.rows) && users.nextId == old(users.nextId) && log.entries == old(log.entries)
    ensures reply.Registered? ==>
      var id := old(users.nextId);
      var row := RegisteredRow(body, hashed);
      users.rows == old(users.rows)[id := row] && users.nextId == id + 1 &&
      reply == Registered(sign(Claims(id, row["username"], row["role"])), UserInfo(id, row["username"], row["email"], row["role"])) &&
      log.entries == old(log.entries) + [Activity("用户注册", [row["username"], row["role"]])]
  {
    if !HasCredentials(body) {
      return Refused(BadRequest);
    }
    var username := Get(body, "username");
    var existing := users.FindUnique("username", username);
    if existing.Some? {
      return Refused(Conflict);
    }
    var row := RegisteredRow(body, hashed);
    assert Normalize(row, users.columns) == row;
    var id := users.Insert(row);
    if id.None? {
      return Refused(ServerError);
    }
    log.Log("用户注册", [row["username"], row["role"]]);
    reply := Registered(sign(Claims(id.value, row["username"], row["role"])),
                        UserInfo(id.value, row["username"], row["email"], row["role"]));
  }

  /**
   * `POST /api/login` as a decision on the stored users: 400 without
   * credentials; the same 401 for an unknown username and for a password
   * `matches` rejects; otherwise the stored user and a token for it.
   */
  function LoginReply(users: Table, body: Row, matches: (Value, Value) -> bool, sign: Claims -> string): (r: Reply)
    requires UsersTable(users)
    reads users
    ensures r == Refused(BadRequest) <==> !HasCredentials(body)
    ensures r == Refused(Unauthorized) <==>
      HasCredentials(body) &&
      ((forall id :: id in users.rows ==> Get(users.rows[id], "username") != Get(body, "username")) ||
       (exists id :: id in users.rows && Get(users.rows[id], "username") == Get(body, "username") &&
          !matches(Get(body, "password"), Get(users.rows[id], "password"))))
    ensures HasCredentials(body) && r != Refused(Unauthorized) ==> r.LoggedIn?
    ensures r.LoggedIn? ==>
      r.user.id in users.rows && Get(users.rows[r.user.id], "username") == Get(body, "username") &&
      matches(Get(body, "password"), Get(users.rows[r.user.id], "password")) &&
      var u := users.rows[r.user.id];
      r == LoggedIn(sign(Claims(r.user.id, Get(u, "username"), Get(u, "role"))),
                    UserInfo(r.user.id, Get(u, "username"), Get(u, "email"), Get(u, "role")))
    ensures !r.Registered?
  {
    if !HasCredentials(body) then Refused(BadRequest)
    else
      var found := users.FindUnique("username", Get(body, "username"));
      if found.None? then Refused(Unauthorized)
      else
        var id := found.value;
        var u := users.rows[id];
        if !matches(Get(body, "password"), Get(u, "password")) then Refused(Unauthorized)
        else LoggedIn(sign(Claims(id, Get(u, "username"), Get(u, "role"))),
                      UserInfo(id, Get(u, "username"), Get(u, "email"), Get(u, "role")))
  }

  /** `POST /api/login`: the decision above, and the activity logged on success only. */
  method Login(users: Table, log: ActivityLog, body: Row, matches: (Value, Value) -> bool, sign: Claims -> string)
    returns (reply: Reply)
    requires UsersTable(users)
    modifies log
    ensures reply == LoginReply(users, body, matches, sign)
    ensures !reply.LoggedIn? ==> log.entries == old(log.entries)
    ensures reply.LoggedIn? ==>
      log.entries == old(log.entries) + [Activity("用户登录", [Get(body, "username"), reply.user.role])]
  {
    reply := LoginReply(users, body, matches, sign);
    if reply.LoggedIn? {
      log.Log("用户登录", [Get(body, "username"), reply.user.role]);
    }
  }

  // ---------------------------------------------------------------- profile update

  const UpdateUsers := "UPDATE users SET "
  const UsernameClause := "username = " + "?"
  const EmailClause := "email = " + "?"
  const ClauseSeparator := ", "
  const WhereId := " WHERE id = " + "?"

  lemma UpdateUsersFree()
    ensures '?' !in UpdateUsers
  {
  }

  lemma SeparatorFree()
    ensures '?' !in ClauseSeparator
  {
  }

  lemma UsernameTextFree()
    ensures '?' !in "username = "
  {
  }

  lemma EmailTextFree()
    ensures '?' !in "email = "
  {
  }

  lemma WhereIdTextFree()
    ensures '?' !in " WHERE id = "
  {
  }

  /** Each SET clause and the WHERE clause binds one parameter; the rest none. */
  lemma ClausePlaceholders()
    ensures Placeholders(UsernameClause) == 1 && Placeholders(EmailClause) == 1 && Placeholders(WhereId) == 1
    ensures Placeholders(UpdateUsers) == 0 && Placeholders(ClauseSeparator) == 0
  {
    UsernameTextFree();
    ClauseOne("username = ");
    EmailTextFree();
    ClauseOne("email = ");
    WhereIdTextFree();
    ClauseOne(" WHERE id = ");
    UpdateUsersFree();
    NoPlaceholders(UpdateUsers);
    SeparatorFree();
    NoPlaceholders(ClauseSeparator);
  }

  /** The SET clauses of the profile update, in the order username then email. */
  function ProfileClauses(username: Value, email: Value): (r: seq<string>)
    ensures |r| == (if Truthy(username) then 1 else 0) + (if Truthy(email) then 1 else 0)
    ensures Truthy(username) ==> r[0] == UsernameClause
    ensures Truthy(email) ==> r[|r| - 1] == EmailClause
  {
    (if Truthy(username) then [UsernameClause] else []) + (if Truthy(email) then [EmailClause] else [])
  }

  /** The values bound to the SET clauses, in the same order as the clauses. */
  function ProfileValues(username: Value, email: Value): (r: seq<Value>)
    ensures |r| == |ProfileClauses(username, email)|
    ensures Truthy(username) ==> r[0] == username
    ensures Truthy(email) ==> r[|r| - 1] == email
  {
    (if Truthy(username) then [username] else []) + (if Truthy(email) then [email] else [])
  }

  /**
   * The SQL and parameters `PUT /api/player/profile/:userId` builds: one
   * SET clause per present field, username first, joined by commas, their
   * values in the same order and the user id bound last to the WHERE clause.
   */
  method ProfileUpdateQuery(username: Value, email: Value, userId: int) returns (sql: string, params: seq<Value>)
    ensures sql == UpdateUsers + Join(ProfileClauses(username, email), ClauseSeparator) + WhereId
    ensures params == ProfileValues(username, email) + [Num(userId)]
    ensures Placeholders(sql) == |params|
  {
    var hasUsername := Truthy(username);
    var hasEmail := Truthy(email);
    sql := UpdateUsers;
    params := [];
    var updates: seq<string> := [];
    if hasUsername {
      updates := updates + [UsernameClause];
      params := params + [username];
    }
    if hasEmail {
      updates := updates + [EmailClause];
      params := params + [email];
    }
    assert updates == ProfileClauses(username, email);
    assert params == ProfileValues(username, email);
    var set_ := Join(updates, ClauseSeparator);
    sql := sql + set_ + WhereId;
    params := params + [Num(userId)];
    ProfileQueryPlaceholders(username, email, set_);
  }

  lemma ProfileQueryPlaceholders(username: Value, email: Value, set_: string)
    requires set_ == Join(ProfileClauses(username, email), ClauseSeparator)
    ensures Placeholders(UpdateUsers + set_ + WhereId) == |ProfileClauses(username, email)| + 1
  {
    ClausePlaceholders();
    UpdateShape(UpdateUsers, UsernameClause, EmailClause, ClauseSeparator, WhereId, Truthy(username), Truthy(email));
  }

  /** An UPDATE made of a head, up to two one-placeholder SET clauses joined by a separator, and a WHERE clause. */
  lemma UpdateShape(head: string, x: string, y: string, sep: string, tail: string, onX: bool, onY: bool)
    requires Placeholders(head) == 0 && Placeholders(sep) == 0 && Placeholders(tail) == 1
    requires Placeholders(x) == 1 && Placeholders(y) == 1
    ensures var c := (if onX then [x] else []) + (if onY then [y] else []);
      Placeholders(head + Join(c, sep) + tail) == |c| + 1
  {
    var c := (if onX then [x] else []) + (if onY then [y] else []);
    assert forall i :: 0 <= i < |c| ==> c[i] == x || c[i] == y;
    JoinPlaceholders(c, sep);
    PlaceholdersAppend(head, Join(c, sep));
    PlaceholdersAppend(head + Join(c, sep), tail);
  }

  /** The columns the profile update assigns: the present ones among username and email. */
  function ProfileColumns(body: Row): (cols: set<string>)
    ensures cols <= {"username", "email"}
    ensures "username" in cols <==> Truthy(Get(body, "username"))
    ensures "email" in cols <==> Truthy(Get(body, "email"))
  {
    (if Truthy(Get(body, "username")) then {"username"} else {}) + (if Truthy(Get(body, "email")) then {"email"} else {})
  }

  /**
   * The SET clauses the query builds assign exactly the profile columns
   * the update applies: one clause per column.
   */
  lemma ProfileClausesMatchColumns(body: Row)
    ensures var cl := ProfileClauses(Get(body, "username"), Get(body, "email"));
      (UsernameClause in cl <==> "username" in ProfileColumns(body)) &&
      (EmailClause in cl <==> "email" in ProfileColumns(body)) &&
      |cl| == |ProfileColumns(body)|
  {
    assert UsernameClause != EmailClause by {
      assert UsernameClause[0] != EmailClause[0];
    }
  }

  /**
   * `PUT /api/player/profile/:userId`: 400 when neither field is present,
   * 409 when the new username or email is taken, 404 when no row has the
   * id; otherwise the present fields are overwritten and the rest kept.
   */
  method UpdateProfile(users: Table, userId: int, body: Row) returns (resp: Response)
    requires users.Valid()
    modifies users
    ensures users.Valid() && users.nextId == old(users.nextId)
    ensures resp == BadRequest <==> ProfileColumns(body) == {}
    ensures resp == NotFound <==> ProfileColumns(body) != {} && userId !in old(users.rows)
    ensures !resp.Ok? ==> users.rows == old(users.rows)
    ensures ProfileColumns(body) != {} && userId in old(users.rows) ==>
      var r := Applied(AssignSet(ProfileColumns(body), body), old(users.rows)[userId]);
      if Clashes(old(users.rows), users.unique, r, userId) then resp == Conflict
      else (resp == Ok(map["changes" := Num(1)]) && users.rows == old(users.rows)[userId := r])
  {
    var username := Get(body, "username");
    var email := Get(body, "email");
    if !Truthy(username) && !Truthy(email) {
      return BadRequest;
    }
    var sql, params := ProfileUpdateQuery(username, email, userId);
    var w := users.Update(userId, AssignSet(ProfileColumns(body), body));
    match w
    case UniqueViolation =>
      resp := Conflict;
    case Changes(n) =>
      resp := if n == 0 then NotFound else Ok(map["changes" := Num(n)]);
  }

  /** The profile update keeps every column other than the present ones. */
  lemma ProfileUpdateKeepsOthers(stored: Row, body: Row)
    ensures var r := Applied(AssignSet(ProfileColumns(body), body), stored);
      (forall c :: c in stored && c != "username" && c != "email" ==> r[c] == stored[c]) &&
      ("username" in stored && !Truthy(Get(body, "username")) ==> r["username"] == stored["username"]) &&
      ("email" in stored && !Truthy(Get(body, "email")) ==> r["email"] == stored["email"])
  {
  }

  // ---------------------------------------------------------------- games queries

  /** The search statement: four LIKE comparisons, one placeholder each. */
  const SearchSql := "SELECT * FROM games WHERE title LIKE " + "?" + " OR description LIKE " + "?" +
                     " OR genre LIKE " + "?" + " OR developer LIKE " + "?"

  lemma SearchTitleFree()
    ensures '?' !in "SELECT * FROM games WHERE title LIKE "
  {
  }

  lemma SearchDescriptionFree()
    ensures '?' !in " OR description LIKE "
  {
  }

  lemma SearchGenreFree()
    ensures '?' !in " OR genre LIKE "
  {
  }

  lemma SearchDeveloperFree()
    ensures '?' !in " OR developer LIKE "
  {
  }

  /** `GET /api/player/games/search`: None (400) without a query, else `%query%` bound four times. */
  function SearchParams(query: Option<string>): (r: Option<seq<Value>>)
    ensures r.None? <==> query.None? || query.value == ""
    ensures r.Some? ==> |r.value| == 4 && forall i :: 0 <= i < 4 ==> r.value[i] == Str("%" + query.value + "%")
  {
    if query.None? || query.value == "" then None
    else
      var pattern := Str("%" + query.value + "%");
      Some([pattern, pattern, pattern, pattern])
  }

  /** The search SQL has exactly as many placeholders as the parameters bound to it. */
  lemma SearchPlaceholders(query: Option<string>)
    requires SearchParams(query).Some?
    ensures Placeholders(SearchSql) == |SearchParams(query).value|
  {
    var a, b, c, d := "SELECT * FROM games WHERE title LIKE ", " OR description LIKE ", " OR genre LIKE ", " OR developer LIKE ";
    SearchTitleFree();
    ClauseOne(a);
    SearchDescriptionFree();
    NoPlaceholders(b);
    SearchGenreFree();
    NoPlaceholders(c);
    SearchDeveloperFree();
    NoPlaceholders(d);
    OnePlaceholder();
    FourClauses(a, b, c, d);
  }

  /** The count over the left-nested concatenation the search statement is written as. */
  lemma FourClauses(a: string, b: string, c: string, d: string)
    requires Placeholders(a + "?") == 1 && Placeholders(b) == 0 && Placeholders(c) == 0 && Placeholders(d) == 0
    requires Placeholders("?") == 1
    ensures Placeholders(a + "?" + b + "?" + c + "?" + d + "?") == 4
  {
    PlaceholdersAppend(a + "?", b);
    PlaceholdersAppend(a + "?" + b, "?");
    PlaceholdersAppend(a + "?" + b + "?", c);
    PlaceholdersAppend(a + "?" + b + "?" + c, "?");
    PlaceholdersAppend(a + "?" + b + "?" + c + "?", d);
    PlaceholdersAppend(a + "?" + b + "?" + c + "?" + d, "?");
  }

  /** The pattern is the query wrapped in `%` wildcards, so LIKE matches any text containing it. */
  lemma SearchPatternWraps(query: string)
    requires query != ""
    ensures var p := SearchParams(Some(query)).value[0].s;
      p[0] == '%' && p[|p| - 1] == '%' && p[1..|p| - 1] == query
  {
  }

  const FilterBase := "SELECT * FROM games WHERE 1=1"
  const GenreClause := " AND genre = " + "?"
  const DeveloperClause := " AND developer = " + "?"
  const RatingClause := " AND rating >= " + "?"

  lemma FilterBaseFree()
    ensures '?' !in FilterBase
  {
  }

  lemma GenreTextFree()
    ensures '?' !in " AND genre = "
  {
  }

  lemma DeveloperTextFree()
    ensures '?' !in " AND developer = "
  {
  }

  lemma RatingTextFree()
    ensures '?' !in " AND rating >= "
  {
  }

  lemma FilterPlaceholders()
    ensures Placeholders(FilterBase) == 0
    ensures Placeholders(GenreClause) == 1 && Placeholders(DeveloperClause) == 1 && Placeholders(RatingClause) == 1
  {
    FilterBaseFree();
    NoPlaceholders(FilterBase);
    GenreTextFree();
    ClauseOne(" AND genre = ");
    DeveloperTextFree();
    ClauseOne(" AND developer = ");
    RatingTextFree();
    ClauseOne(" AND rating >= ");
  }

  /** A query-string parameter is truthy when present and not empty. */
  predicate Given(p: Option<string>) {
    p.Some? && p.value != ""
  }

  /** The statement text the filter builds for the given parameters. */
  function FilterSql(genre: bool, developer: bool, rating: bool): (sql: string)
  {
    FilterBase + (if genre then GenreClause else "") + (if developer then DeveloperClause else "") +
    (if rating then RatingClause else "")
  }

  /** Three optional one-placeholder clauses after a placeholder-free base. */
  lemma OptionalClauses(base: string, x: string, y: string, z: string, onX: bool, onY: bool, onZ: bool)
    requires Placeholders(base) == 0 && Placeholders(x) == 1 && Placeholders(y) == 1 && Placeholders(z) == 1
    ensures Placeholders(base + (if onX then x else "") + (if onY then y else "") + (if onZ then z else "")) ==
      (if onX then 1 else 0) + (if onY then 1 else 0) + (if onZ then 1 else 0)
  {
    NoPlaceholders("");
    var a, b, c := (if onX then x else ""), (if onY then y else ""), (if onZ then z else "");
    PlaceholdersAppend(base, a);
    PlaceholdersAppend(base + a, b);
    PlaceholdersAppend(base + a + b, c);
  }

  /** The filter statement binds one parameter per clause it holds. */
  lemma FilterSqlPlaceholders(genre: bool, developer: bool, rating: bool)
    ensures Placeholders(FilterSql(genre, developer, rating)) ==
      (if genre then 1 else 0) + (if developer then 1 else 0) + (if rating then 1 else 0)
  {
    FilterPlaceholders();
    OptionalClauses(FilterBase, GenreClause, DeveloperClause, RatingClause, genre, developer, rating);
  }

  /**
   * `GET /api/player/games/filter`: starting from `WHERE 1=1`, the genre,
   * developer and minimum-rating clauses are appended in that order, each
   * only when its parameter is given, and each binds one parameter in the
   * same order. `parseFloat` is passed in as `toNumber`.
   */
  method FilterQuery(genre: Option<string>, developer: Option<string>, ratingMin: Option<string>, toNumber: string -> Value)
    returns (sql: string, params: seq<Value>)
    ensures sql == FilterSql(Given(genre), Given(developer), Given(ratingMin))
    ensures |params| == (if Given(genre) then 1 else 0) + (if Given(developer) then 1 else 0) + (if Given(ratingMin) then 1 else 0)
    ensures Given(genre) ==> params[0] == Str(genre.value)
    ensures Given(developer) ==> params[if Given(genre) then 1 else 0] == Str(developer.value)
    ensures Given(ratingMin) ==> params[|params| - 1] == toNumber(ratingMin.value)
    ensures Placeholders(sql) == |params|
  {
    var g, d, m := Given(genre), Given(developer), Given(ratingMin);
    sql := FilterBase;
    params := [];
    if g {
      sql := sql + GenreClause;
      params := params + [Str(genre.value)];
    } else {
      assert sql == FilterBase + "";
    }
    ghost var afterGenre := sql;
    if d {
      sql := sql + DeveloperClause;
      params := params + [Str(developer.value)];
    } else {
      assert sql == afterGenre + "";
    }
    ghost var afterDeveloper := sql;
    if m {
      sql := sql + RatingClause;
      params := params + [toNumber(ratingMin.value)];
    } else {
      assert sql == afterDeveloper + "";
    }
    FilterSqlPlaceholders(g, d, m);
  }
}
