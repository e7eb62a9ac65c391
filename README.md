# Game development platform: request logic and front-end state

This project models the logic at the heart of a small game-development
platform. The platform has two Express servers over one SQLite database and a
React front end. The admin server on port 3002 handles projects, tasks,
recipes, ingredients, builds, users and user-table metadata. The player server
on port 3001 handles registration, login, the player profile and the game
search. The front end keeps the logged-in user, guards routes and builds
navigation. Its pages edit gameplay elements and user-table schemas, and show
task boards, build histories and the game library. A start-up helper frees the
ports by killing whatever holds them.

Each source file of the core becomes one module:

- `Text`: the JavaScript string operations the code relies on, such as
  `indexOf`, `substring`, `trim`, `split`, `join`, `startsWith` and
  `toLowerCase` on ASCII. It also holds list helpers (`Filter`, `RemoveAt`).
- `Store`: the database as the handlers see it.
  - A `Table` class holds three things: a map from row id to row, the next
    AUTOINCREMENT id, and the set of UNIQUE columns.
  - Its methods are `Insert`, `Update` and `Delete`, and it has a `Valid`
    invariant that they preserve.
  - An `ActivityLog` class stands for the `activities` table.
  - The module also has JavaScript truthiness, `||` defaults, the two forms of
    UPDATE (`COALESCE(?, c)` and `c = ?`), the `?` placeholder count and the
    HTTP answers.
- `AdminServer` and `PlayerServer`: one method per endpoint. Each takes the
  tables it touches and states the response and the new table contents. The
  SQL builders are methods that build the text step by step, and each is
  proved to bind exactly as many parameters as its text has placeholders.
- `AuthContext`: a class with the user and token state and local storage as a
  map. The provider's init, login and logout are each proved against a
  function on the whole state. Reloading after a login restores the same
  session.
- `ProtectedRoute`, `Layout`, `ProjectDetails` and `BuildHistoryList`: the pure
  decisions of those components.
- `GameLibrary`: the page's search and genre state as a class. The URL it
  fetches is built step by step.
- `GameplayManagement`: the tag codec that hides the gameplay logic in a task
  description, with both round trips. It also covers the type derivation and
  the page state its handlers replace.
- `DatabaseManagement`: the schema dialog as a class whose field list is never
  empty, and the checks run before a save.
- `TaskBoard`: the status columns, proved to show every shown task exactly
  once, and the board state that `addTask` changes.
- `PortManager`: the commands run, the parsing of their output and the
  decision of `ensurePortAvailable`. What each shell command reports is an
  input.

## Model

| member | source | states |
|---|---|---|
| Store.Or | server/admin-server.js:162 | an `or` default: the value itself when truthy, the default otherwise |
| Store.Normalize | server/admin-server.js:247-248 | the fields an INSERT binds: exactly the named columns, each the body's value or NULL |
| Store.Applied | server/admin-server.js:84-90 | the row an UPDATE leaves has the same columns as before |
| Store.CoalesceKeepsAbsent | server/admin-server.js:84-90 | a COALESCE update keeps every column the body leaves out or sends as null and overwrites exactly the supplied ones; applying it twice equals applying it once |
| Store.CoalesceEmptyBody | server/admin-server.js:180-188 | a COALESCE update with an empty body leaves the row unchanged |
| Store.AssignOverwrites | server/admin-server.js:660-661 | a plain `c = ?` update overwrites its columns even with NULL and keeps the others |
| Store.StoreKeepsDistinct | server/database.js:99-104 | storing a row that repeats no UNIQUE value of another row keeps the UNIQUE columns distinct |
| Store.Table.Insert | server/admin-server.js:521-526 | the row gets the next id and the counter advances; a repeated UNIQUE value is refused and leaves rows and counter unchanged |
| Store.Table.Update | server/admin-server.js:590-600 | no row with the id gives zero changes; new values that repeat another row's UNIQUE value raise the constraint error and change nothing; otherwise exactly that row is replaced |
| Store.Table.Delete | server/admin-server.js:283-291 | removes that id's row only and reports 1 exactly when the row existed |
| Store.Table.Find | server/admin-server.js:66-76 | the row with that id exactly when one exists |
| Store.Table.Where | server/admin-server.js:626 | exactly the rows whose column holds the value, unchanged |
| Store.Table.FindUnique | server/player-server.js:60-66 | a row holding the value in a UNIQUE column exactly when one exists |
| Store.ActivityLog.Log | server/admin-server.js:28-35 | appends one activity and keeps the earlier ones |
| AdminServer.WithId | server/admin-server.js:169-172 | `{ id, ...req.body }`: every body field is kept, a body `id` wins, otherwise the new id is added |
| AdminServer.ListQuery | server/admin-server.js:136-141 | ` WHERE projectId = ?` and one parameter are added exactly when `projectId` is truthy; placeholders equal parameters |
| AdminServer.ListQueryPlaceholders | server/admin-server.js:403-408 | the list query holds one placeholder when it filters and none otherwise |
| AdminServer.ListScope | server/admin-server.js:462-467 | a truthy `projectId` selects exactly that project's rows, otherwise all rows |
| AdminServer.List | server/admin-server.js:134-152 | the tasks, assets or builds listing answers the rows of that scope |
| AdminServer.GetProject | server/admin-server.js:64-78 | 404 exactly when no row has the id; otherwise the row with its id as a string |
| AdminServer.UpdateProject | server/admin-server.js:81-102 | 404 exactly for a missing id, with nothing changed or logged; otherwise a COALESCE update of name, description, team and progress, one change and the activity naming the project (`未知项目` without a name) |
| AdminServer.DeleteProject | server/admin-server.js:105-128 | 404 for a missing row; otherwise the row is removed and the activity names the deleted project; nothing else is removed |
| AdminServer.NewTask | server/admin-server.js:157-162 | the body is refused (400) exactly without a title or a project; status defaults to `todo` and priority to `medium`; the other columns are taken from the body |
| AdminServer.NewTaskDefaults | server/admin-server.js:162 | a created task always has a truthy status and priority, and `todo` when the body gave none |
| AdminServer.PostTask | server/admin-server.js:156-174 | 400 exactly when `NewTask` refuses the body, with nothing stored or logged; otherwise the row is stored under the next id and the answer is 201 with the id as a string in front of the body |
| AdminServer.UpdateTask | server/admin-server.js:177-199 | 404 exactly when no row has the id; otherwise a COALESCE update of every task column |
| AdminServer.DeleteTask | server/admin-server.js:202-225 | 404 for a missing row; otherwise the row is removed and the activity names the deleted task |
| AdminServer.PostNamed | server/admin-server.js:242-256 | the insert both POST handlers share: 400 exactly when a required field is falsy; a row that repeats a UNIQUE value gives 500 with nothing stored; otherwise 201 with the numeric id in front of the body |
| AdminServer.ClashesOnName | server/database.js:43 | with `name` the only UNIQUE column, a new row clashes exactly when a stored row has the same name |
| AdminServer.PostRecipe | server/admin-server.js:242-256 | 400 exactly without a name or ingredients; 500 exactly when a recipe of that name exists, with nothing stored; otherwise name, ingredients and difficulty stored under the next id and 201 with the id in front of the body |
| AdminServer.PostIngredient | server/admin-server.js:311-325 | 400 exactly without a name; 500 exactly when an ingredient of that name exists, with nothing stored; otherwise name, type and rarity stored under the next id and 201 with the id in front of the body |
| AdminServer.UpdateNamed | server/admin-server.js:259-278 | 404 exactly when no row has the id; a COALESCE update that repeats a UNIQUE name gives 500 and changes nothing; otherwise that row is replaced |
| AdminServer.DeleteById | server/admin-server.js:281-294 | deleting a recipe, an ingredient or a user-table entry removes that row only and answers 404 exactly when no row went |
| AdminServer.PostBuild | server/admin-server.js:478-493 | 400 exactly without project, version, platform or status; otherwise the build is stored, logged and answered 201 |
| AdminServer.NewUser | server/admin-server.js:511-522 | refused (400) exactly without username or password; stores the hash, never the password; role defaults to `player` |
| AdminServer.NewUserDefaultRole | server/admin-server.js:519 | a user created without a truthy role is stored as a player |
| AdminServer.CreateUser | server/admin-server.js:510-541 | 400 as above; 409 when the username or email is taken, with nothing stored or logged; otherwise 201 with id, username, email and role, and the activity logged |
| AdminServer.UpdatePassword | server/admin-server.js:544-568 | 400 exactly without a new password; 404 exactly for an unknown id; otherwise only the password column changes to the hash and the change is logged |
| AdminServer.UpdateUser | server/admin-server.js:582-604 | 400 unless username, email and role are all truthy; 404 exactly for an unknown id; 409 on a repeated username or email; otherwise the three columns are overwritten and the change is logged |
| AdminServer.DeleteUser | server/admin-server.js:607-620 | 404 exactly for an unknown id; the activity is logged only when a row went |
| AdminServer.ListUserTables | server/admin-server.js:624-633 | the entries of that project and no others |
| AdminServer.PostUserTable | server/admin-server.js:636-651 | 400 exactly without project, name or schema; otherwise the metadata row is stored and answered with its id |
| AdminServer.PutUserTable | server/admin-server.js:654-674 | 400 exactly without name or schema; 404 exactly for an unknown id; otherwise always 200, with name, description and schema overwritten as given, so a missing description becomes NULL |
| PlayerServer.HeaderToken | server/player-server.js:38-39 | no header gives no token; an empty header is itself the result; otherwise there is a token exactly when the header holds a space |
| PlayerServer.BearerToken | server/player-server.js:39 | `Bearer <token>` yields exactly the token |
| PlayerServer.Authenticate | server/player-server.js:37-48 | 401 exactly without a token; 403 exactly for a token the verifier refuses; otherwise on to the handler with that token |
| PlayerServer.NoSpaceUnauthorized | server/player-server.js:39-41 | a header without a space is answered 401 |
| PlayerServer.RegisteredRow | server/player-server.js:69-73 | the inserted row holds the username, the hash and the role, which defaults to `player` |
| PlayerServer.Register | server/player-server.js:53-84 | 400 exactly without credentials; 409 exactly when the username exists; 500 exactly when the new row repeats another UNIQUE value (a taken email), changing nothing; every other request registers: the new row under the next id, a token signed over id, username and role, and the activity logged |
| PlayerServer.LoginReply | server/player-server.js:87-110 | 400 exactly without credentials; the same 401 exactly for an unknown username or a rejected password; every other request logs in, answering that stored user and a token for it |
| PlayerServer.Login | server/player-server.js:108-110 | answers the decision above and logs the activity on success only |
| PlayerServer.ProfileClauses | server/player-server.js:244-251 | one SET clause per truthy field, username before email |
| PlayerServer.ProfileValues | server/player-server.js:244-250 | the values bound to the SET clauses, in the same order |
| PlayerServer.ProfileUpdateQuery | server/player-server.js:240-254 | the SET clauses joined by commas between `UPDATE users SET ` and ` WHERE id = ?`; the parameters are the values followed by the user id; placeholders equal parameters |
| PlayerServer.ProfileQueryPlaceholders | server/player-server.js:253-254 | the profile update holds one placeholder per clause plus one for the id |
| PlayerServer.ProfileColumns | server/player-server.js:244-251 | the profile update assigns exactly the truthy fields among username and email |
| PlayerServer.ProfileClausesMatchColumns | server/player-server.js:244-251 | the query has a SET clause for username exactly when username is an assigned column, the same for email, and one clause per column |
| PlayerServer.UpdateProfile | server/player-server.js:232-269 | 400 exactly when neither field is given; 404 exactly for an unknown id; 409 on a repeated username or email; otherwise the given fields are overwritten |
| PlayerServer.ProfileUpdateKeepsOthers | server/player-server.js:240-253 | the profile update keeps every other column and every field the body leaves out |
| PlayerServer.SearchParams | server/player-server.js:152-158 | no parameters (400) exactly without a query; otherwise `%query%` bound four times |
| PlayerServer.SearchPlaceholders | server/player-server.js:157-158 | the search statement holds exactly as many placeholders as parameters |
| PlayerServer.SearchPatternWraps | server/player-server.js:156 | the pattern is the query between two `%` wildcards |
| PlayerServer.FilterSql | server/player-server.js:172-186 | the filter text: the `WHERE 1=1` base, then the genre, developer and minimum-rating clauses in that order, each only when its parameter is given; its placeholders are counted by `FilterSqlPlaceholders` |
| PlayerServer.FilterSqlPlaceholders | server/player-server.js:172-186 | the filter statement binds one parameter per clause it holds |
| PlayerServer.FilterQuery | server/player-server.js:170-186 | starts from `WHERE 1=1`; adds the genre, developer and minimum-rating clauses in that order, each only when given; parameters follow the clause order; placeholders equal parameters |
| AuthContext.InitState | src/context/AuthContext.tsx:23-39 | restores user and token only when both keys hold values and the user parses; both keys are removed when the user fails to parse; otherwise nothing changes |
| AuthContext.LoginState | src/context/AuthContext.tsx:41-46 | stores the token and the serialised user and sets both state fields; other keys are untouched |
| AuthContext.LogoutState | src/context/AuthContext.tsx:48-53 | removes both keys and nulls both state fields; other keys are untouched |
| AuthContext.LoginLogoutMirrorToken | src/context/AuthContext.tsx:41-53 | after a login or a logout the token state equals what storage holds under `token`, absent exactly when null |
| AuthContext.LoginThenReload | src/context/AuthContext.tsx:23-46 | a reload after a login restores the same user and token |
| AuthContext.LogoutThenReload | src/context/AuthContext.tsx:23-53 | a reload after a logout restores nothing |
| AuthContext.InitMirrorsToken | src/context/AuthContext.tsx:23-31 | init mirrors the token unless a token is stored without a usable user |
| AuthContext.EmptyStoredTokenNotMirrored | src/context/AuthContext.tsx:27 | an empty stored token is neither restored nor removed, so state and storage then disagree |
| AuthContext.AuthProvider.constructor | src/context/AuthContext.tsx:20-21 | both state fields start null over the existing storage |
| AuthContext.AuthProvider.Init | src/context/AuthContext.tsx:23-39 | the provider's state after the mount effect is `InitState` of its state before |
| AuthContext.AuthProvider.Login | src/context/AuthContext.tsx:41-46 | the provider's state after login is `LoginState` of its state before |
| AuthContext.AuthProvider.Logout | src/context/AuthContext.tsx:48-53 | the provider's state after logout is `LogoutState` of its state before |
| AuthContext.UseAuth | src/context/AuthContext.tsx:62-68 | throws exactly when there is no provider; otherwise the provider's state |
| ProtectedRoute.UserRole | src/components/protected-route.tsx:13 | the user's role, or `guest` without a user; the layout (src/components/layout.tsx:50) uses the same fallback |
| ProtectedRoute.Authenticated | src/components/protected-route.tsx:12 | `!!token`: a token is present and not empty; `Guard` states what follows from it |
| ProtectedRoute.Guard | src/components/protected-route.tsx:10-33 | `/login` without a token; renders exactly when a token exists and no role is required or the roles agree, showing the children if given and the outlet otherwise; on a mismatch a player goes to `/home`, an admin to `/admin/overview` and any other role to `/login` |
| ProtectedRoute.GuestToLogin | src/components/protected-route.tsx:13-29 | a token without a user is sent to `/login` by every role-restricted route |
| ProtectedRoute.MismatchTargets | src/components/protected-route.tsx:20-29 | a role mismatch always redirects; a player on an admin route goes home and an admin on a player route goes to the overview |
| Layout.DisplayName | src/components/layout.tsx:49 | the user's name, or `Guest` |
| Layout.DisplayedNavItems | src/components/layout.tsx:53-58 | the admin items for `admin`, the player items for `player`, none otherwise |
| Layout.AdminPathsInAdminArea | src/components/layout.tsx:41-47 | every admin item leads under `/admin/` |
| Layout.PlayerPathsOutsideAdminArea | src/components/layout.tsx:35-39 | no player item leads under `/admin/` |
| Layout.NavItemsByArea | src/components/layout.tsx:35-58 | an admin sees five items, all under `/admin/`; a player sees three, none under `/admin/` |
| Layout.ProjectBaseIsPrefix | src/components/layout.tsx:68-70 | a project path up to its last `/` is a prefix of the path |
| Layout.IsActive | src/components/layout.tsx:64-73 | a pathname that starts with the path is always active; `/home` is active on `/`; outside the project branch, active exactly when the pathname starts with the path |
| Layout.ProjectSiblingsActive | src/components/layout.tsx:68-70 | two tabs of one project page are both active |
| ProjectDetails.ActiveTab | src/pages/project-details.tsx:22-28 | always one of the four tabs; `dashboard` on the project's own page; otherwise the first of `/assets`, `/gameplay` and `/database` the path contains, and `dashboard` when it contains none |
| ProjectDetails.ProjectPageIsDashboard | src/pages/project-details.tsx:23 | the project's own page under any prefix shows the dashboard |
| ProjectDetails.AssetsPageSelectsAssets | src/pages/project-details.tsx:24 | an assets page selects the assets tab, whatever else the path contains |
| GameLibrary.QueryString | src/pages/game-library.tsx:36-37 | no parameters give the empty query string; one gives `key=value` |
| GameLibrary.FetchUrl | src/pages/game-library.tsx:23-38 | a non-empty search query selects the search endpoint whatever the genre; otherwise a genre other than `全部` selects the filter endpoint; otherwise the plain list with no `?` |
| GameLibrary.GenreFilter | src/pages/game-library.tsx:31 | a genre filter is in force exactly when a genre is selected, is not empty and is not `全部`; `FetchUrl` states the URL it selects |
| GameLibrary.GenreFor | src/pages/game-library.tsx:72 | `全部` selects no genre, any other tag itself |
| GameLibrary.GenreTagsDistinct | src/pages/game-library.tsx:102 | the six genre tags are distinct |
| GameLibrary.Highlighted | src/pages/game-library.tsx:107 | a tag is highlighted when it is the selected genre, and `全部` when none is selected; `ClickedTagAloneHighlighted` states its consequence |
| GameLibrary.ClickedTagAloneHighlighted | src/pages/game-library.tsx:102-107 | after a click on a shown tag exactly that tag is highlighted |
| GameLibrary.GenreClickFetches | src/pages/game-library.tsx:71-75 | after a genre click the filter endpoint is fetched for that tag, and the plain list for `全部` |
| GameLibrary.GameLibraryPage.constructor | src/pages/game-library.tsx:18-19 | empty query and no genre |
| GameLibrary.GameLibraryPage.SetSearchQuery | src/pages/game-library.tsx:94 | typing sets the query and keeps the genre |
| GameLibrary.GameLibraryPage.HandleSearch | src/pages/game-library.tsx:65-69 | clears the genre and keeps the query |
| GameLibrary.GameLibraryPage.HandleGenreFilter | src/pages/game-library.tsx:71-75 | sets the genre for the tag and clears the query |
| GameLibrary.GameLibraryPage.Fetch | src/pages/game-library.tsx:61-63 | the URL fetched for the current state follows `FetchUrl` |
| TaskBoard.EmptyDraft | src/components/task-board.tsx:29-36 | the empty form: blank texts, status `todo`, priority `medium`, the board's project |
| TaskBoard.TasksByStatus | src/components/task-board.tsx:110-112 | exactly the tasks with that status |
| TaskBoard.AppendedTaskEndsItsColumn | src/components/task-board.tsx:90 | an appended task ends its own column and leaves the other columns as they were, so the board order is kept |
| TaskBoard.ColumnsPartition | src/components/task-board.tsx:191-229 | the three columns together show exactly the tasks with one of the three statuses, counted with multiplicity |
| TaskBoard.ShownExactlyOnce | src/components/task-board.tsx:191-229 | a shown task appears in the columns exactly as often as on the board; any other task never |
| TaskBoard.TaskBoardComponent.constructor | src/components/task-board.tsx:24-36 | no tasks and the empty form for the project |
| TaskBoard.TaskBoardComponent.Loaded | src/components/task-board.tsx:39-58 | the board shows the tasks the server returned, unchanged on failure |
| TaskBoard.TaskBoardComponent.AddTask | src/components/task-board.tsx:69-108 | no request exactly for a blank title; on success the returned task is appended and the form is reset for the same project; on failure nothing changes |
| BuildHistoryList.StatusBadgeVariant | src/components/build-history-list.tsx:53-64 | `成功` gives default, `失败` destructive and `进行中` secondary, each exactly; any other status gives outline |
| BuildHistoryList.DurationCell | src/components/build-history-list.tsx:129 | a missing or empty duration shows as `-`; any other as stored |
| PortManager.ProbeCommand | server/port-manager.js:9-13 | the probe command ends in `:port` |
| PortManager.LookupCommand | server/port-manager.js:38-42 | on Windows the lookup is the probe command itself |
| PortManager.KillCommand | server/port-manager.js:74-78 | the kill command ends in the PID |
| PortManager.IsPortTaken | server/port-manager.js:4-31 | false when the command fails; otherwise true exactly when the output contains `:port` |
| Text.SplitLastSuffix | server/port-manager.js:52-54 | the last piece of `split` is a suffix of the text: all of it, or what follows its last separator |
| PortManager.LastLine | server/port-manager.js:52-54 | the last line holds no newline |
| PortManager.LastLineAfterLastNewline | server/port-manager.js:52-54 | the last line is the text after the last newline of the trimmed output, or all of it without one |
| PortManager.Win32Pid | server/port-manager.js:51-57 | the Windows PID holds no whitespace |
| PortManager.Win32PidMaximal | server/port-manager.js:55-56 | the Windows PID ends the trimmed last line and is all of it or follows a whitespace character: the maximal whitespace-free suffix |
| Text.AfterLastSuffix | server/port-manager.js:55-56 | what follows the last separator is the end of the text |
| PortManager.PidByPort | server/port-manager.js:33-67 | null when the command fails; on Windows the last token of the last line; elsewhere the captured number when non-empty |
| PortManager.Found | server/port-manager.js:97 | `if (pid)`: a PID counts as found exactly when present and not empty |
| PortManager.EmptyOutputEmptyPid | server/port-manager.js:51-57 | empty Windows output gives the empty PID, which counts as none found |
| PortManager.SingleLine | server/port-manager.js:52-54 | output without a newline is its own last line, trimmed |
| PortManager.Win32PidOfRow | server/port-manager.js:51-57 | the PID of one `netstat` row is its last column |
| PortManager.KillSucceeds | server/port-manager.js:69-90 | the kill resolves exactly when its command reports no error |
| PortManager.CommandOf | server/port-manager.js:9-78 | the text each step runs, as `ensurePortAvailable` runs them: the probe ends in `:port` and the kill ends in the PID |
| PortManager.EnsurePortAvailable | server/port-manager.js:92-115 | a free port is available after the probe alone; a taken port is available exactly when a non-empty PID was found and the kill succeeded, and the kill runs only when a PID was found |
| GameplayManagement.EncodeDescription | src/pages/gameplay-management.tsx:29-34 | the result ends with the description; empty logic leaves the description unchanged |
| GameplayManagement.DecodeDescription | src/pages/gameplay-management.tsx:37-49 | without a split the whole input is the description |
| GameplayManagement.DecodeSplitsIff | src/pages/gameplay-management.tsx:43 | decoding splits exactly when both tags occur and the first end tag lies after the first start tag |
| GameplayManagement.EndTagAfterStartTag | src/pages/gameplay-management.tsx:43-44 | an end tag after a start tag begins after the start tag ends |
| GameplayManagement.DecodeSplitParts | src/pages/gameplay-management.tsx:44-46 | when decoding splits, the logic is the text between the tags and the description the text after the end tag |
| GameplayManagement.DecodeSplit | src/pages/gameplay-management.tsx:40-46 | a split input is a dropped prefix without a start tag, the start tag, logic without an end tag, the end tag and the description |
| GameplayManagement.EncodeDecodeRoundTrip | src/pages/gameplay-management.tsx:29-49 | decoding an encoded description gives back the description and the logic, for any non-empty logic without an end tag |
| GameplayManagement.DecodeEncodeRoundTrip | src/pages/gameplay-management.tsx:29-49 | encoding a split decoding restores the input from its first start tag on |
| GameplayManagement.DerivedType | src/pages/gameplay-management.tsx:125-132 | the `derivedType` chain over the decoded logic and the lower-cased title; `DerivedTypePrecedence` states its outcome for each case |
| GameplayManagement.DerivedTypePrecedence | src/pages/gameplay-management.tsx:125-132 | script exactly with logic; else rule exactly for a title with `规则`; else event exactly for one with `事件`; else other |
| GameplayManagement.ToElement | src/pages/gameplay-management.tsx:123-140 | a loaded element keeps the stored id and title, takes its description and logic from decoding the stored description (`""` when it is empty or NULL), and gets the derived type of that logic |
| GameplayManagement.SaveElement | src/pages/gameplay-management.tsx:178-217 | no request exactly when the name or description is blank or no project is selected; otherwise the encoded payload, sent as an update of the element being edited exactly when editing |
| GameplayManagement.SaveThenLoad | src/pages/gameplay-management.tsx:188-191 | an element saved with logic loads back as a script with the same name, description and logic |
| GameplayManagement.SaveThenLoadNoLogic | src/pages/gameplay-management.tsx:188-191 | an element saved without logic, whose description holds no start tag, loads back with the same name and description, no logic and the type its name gives |
| GameplayManagement.WithoutElement | src/pages/gameplay-management.tsx:261 | no element with the id remains |
| GameplayManagement.WithoutElementExactly | src/pages/gameplay-management.tsx:261 | deleting keeps every other element and their order, and leaves a list without the id unchanged |
| GameplayManagement.GameplayPage.LoadElements | src/pages/gameplay-management.tsx:108-140 | no project clears the list; a failed request keeps it; otherwise one element per task, in order |
| GameplayManagement.GameplayPage.HandleDelete | src/pages/gameplay-management.tsx:240-261 | the request is sent exactly when a project is selected; on success the elements with the id are removed |
| DatabaseManagement.SetKey | src/pages/database-management.tsx:92 | sets the chosen key of an entry and keeps the other |
| DatabaseManagement.RemoveField | src/pages/database-management.tsx:96-99 | never empty: the list without the entry, or one blank entry when nothing is left |
| DatabaseManagement.RemoveFieldExactly | src/pages/database-management.tsx:97 | removing from two or more entries deletes exactly that entry and keeps the others in order |
| DatabaseManagement.RemoveLastField | src/pages/database-management.tsx:98 | removing the only entry leaves one blank entry |
| DatabaseManagement.OpenedFields | src/pages/database-management.tsx:79 | the table's own fields when it has any, otherwise exactly one blank entry |
| DatabaseManagement.ValidFields | src/pages/database-management.tsx:111 | exactly the entries whose trimmed name is non-empty |
| DatabaseManagement.ValidFieldsOrdered | src/pages/database-management.tsx:111 | the filter keeps the original order and drops exactly the blank-named entries |
| DatabaseManagement.NoValidFields | src/pages/database-management.tsx:111-119 | no valid field remains exactly when every name is blank |
| DatabaseManagement.SaveTable | src/pages/database-management.tsx:101-126 | refused when the name or description is blank, then when every field name is blank; otherwise the payload carries the valid fields as typed, names untrimmed, and is sent as an update exactly when editing |
| DatabaseManagement.SchemaForm.ResetForm | src/pages/database-management.tsx:67-72 | clears the form and leaves one blank field |
| DatabaseManagement.SchemaForm.OpenDialog | src/pages/database-management.tsx:74-84 | loads the table, or resets for a new one, and opens the dialog; the fields are `OpenedFields`: the table's own, or exactly one blank entry |
| DatabaseManagement.SchemaForm.AddField | src/pages/database-management.tsx:86-88 | appends one blank field and keeps the earlier ones |
| DatabaseManagement.SchemaForm.ChangeField | src/pages/database-management.tsx:90-94 | changes only the chosen key of the entry at the index; length and other entries unchanged |
| DatabaseManagement.SchemaForm.RemoveFieldAt | src/pages/database-management.tsx:96-99 | the list after `RemoveField`, still non-empty |

## Left out

- I/O is not modelled: `fetch`, toasts, `alert`, navigation, JSX rendering and console logging. A server answer enters a front-end method as an optional value. An `exec` outcome enters the port manager as an `ExecResult`.
- React batching is not modelled. The source calls `fetchGames()` in the handlers right after setting state, so that call sees the previous render's values. The model has only the fetch that follows the state change (`GameLibraryPage.Fetch`).
- Library code becomes function parameters, because the model does not contain it:
  - bcrypt hashing and comparison;
  - jwt signing and verification;
  - `JSON.parse` and `JSON.stringify`;
  - `URLSearchParams` percent-encoding (`encode`);
  - `parseFloat` (`toNumber`).
- The unix branch of `getPidByPort` is not modelled. Its `lsof` pattern match becomes an input (`unixMatch`), because regular expressions are not part of this model.
- Strings are sequences of Unicode scalar values. JavaScript strings are UTF-16 code units, so indices differ for characters outside the Basic Multilingual Plane.
- `toLowerCase` is modelled on ASCII letters only. Whether a title contains `规则` or `事件` does not depend on case, and `DerivedTypePrecedence` proves this.
- SQLite is reduced to a map from id to row:
  - type affinity and comparison are not modelled;
  - `NOT NULL` constraints are not modelled;
  - store errors other than UNIQUE violations are not modelled;
  - the order of listed rows is not modelled;
  - `ORDER BY RANDOM()`, `LIMIT` and joins are not modelled.
- The player-facing GET endpoints are left out: they are single queries with no decisions. They are at server/player-server.js:117-148, 198-229 and 272-293.
- Some admin GET endpoints are left out for the same reason: the unfiltered lists of projects, recipes, ingredients, activities and users.
- Route ids are not modelled as text. `parseInt(req.params.id, 10)` becomes an integer parameter, so a non-numeric id (`NaN`) is not modelled. The users and user-table routes bind the raw text parameter; the model uses the integer for those too.
- Activity descriptions are reduced to the kind and the values they mention, because the formatted text adds no decision.
- Timestamps and `created_at` defaults are not modelled.
- Asset upload and delete are left out: they are files on disk through multer and `fs.unlink`.
- The legacy `/connect-sqlite` and `/get-table-data` endpoints are left out: they open arbitrary database files.
- server/database.js (DDL, seeding, the role migration) and server/index.js (start-up) are not part of this model. Only the UNIQUE columns of the schema appear, as `Table.unique`.
- The user-table endpoints store and update a metadata row in `user_tables_metadata` and create no SQL table of their own; the model does the same.
- `authenticateToken` is modelled, although no route of the player server uses it.
- The board component's `handleInputChange` and `handleSelectChange` are left out. They are generic form setters keyed by element id.
- The board component's loading and error flags are left out: they are display only.
- The gameplay page's dialog fields are left out. The type a user picks there is not sent, and `SaveThenLoad` states the consequence.
- GameplayManagement.GameplayPage.constructor, DatabaseManagement.SchemaForm.constructor and Store.Table.constructor carry only initial values, so they have no row.
- DatabaseManagement.SchemaForm.ChangeField requires an index in range. The source throws a TypeError there instead.
  - The source also assigns into the entry object it shares with the previous list and the opened table, so those change with it.
  - The model replaces the entry by value, so aliasing is not modelled.
- AdminServer.List answers the rows as stored. The tasks listing also turns each id into a string, and that conversion is not modelled.
- AdminServer.PutUserTable answers the fields and the id but not the confirmation message. The other endpoints drop their `message` texts too.
- DatabaseManagement.DatabaseTable types the description as text. A stored description can be NULL, because POST does not require it and PUT writes NULL when it is absent; the TypeError `tableDescription.trim()` then raises in `handleSave` is not modelled.
- Mock data is left out: the project header of the project page and the random record count of the database page.
