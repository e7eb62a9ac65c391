/**
 * The authentication context of the front end: the logged-in user and
 * token held in component state, mirrored into the browser's local
 * storage under the keys `token` and `user`. Storage is a map from key to
 * string; `JSON.stringify` and `JSON.parse` are passed in as functions.
 */
module AuthContext {
  import opened Text

  datatype User = User(id: int, username: string, email: string, role: string)

  /** The outcome of `JSON.parse` on the stored user: it throws, or yields a user or `null`. */
  datatype Parse = Threw | Parsed(user: Option<User>)

  type Storage = map<string, string>

  /** The provider's state: the two state fields and local storage. */
  datatype AuthState = AuthState(user: Option<User>, token: Option<string>, storage: Storage)

  /** `localStorage.getItem(key)` is truthy: the key is stored with a non-empty value. */
  predicate Stored(storage: Storage, key: string) {
    key in storage && storage[key] != ""
  }

  /** The token state agrees with storage: null exactly when no token is stored, else the stored token. */
  predicate TokenMirrored(s: AuthState) {
    (s.token.None? <==> "token" !in s.storage) && (s.token.Some? ==> s.storage["token"] == s.token.value)
  }

  /**
   * The mount effect: when both keys hold a value and the user parses,
   * user and token are taken from storage; when the user fails to parse,
   * both keys are removed; otherwise nothing changes.
   */
  function InitState(s: AuthState, parse: string -> Parse): (r: AuthState)
    ensures !(Stored(s.storage, "token") && Stored(s.storage, "user")) ==> r == s
    ensures Stored(s.storage, "token") && Stored(s.storage, "user") && parse(s.storage["user"]).Threw? ==>
      r == s.(storage := s.storage - {"token", "user"})
    ensures Stored(s.storage, "token") && Stored(s.storage, "user") && parse(s.storage["user"]).Parsed? ==>
      r == s.(user := parse(s.storage["user"]).user, token := Some(s.storage["token"]))
  {
    if Stored(s.storage, "token") && Stored(s.storage, "user") then
      match parse(s.storage["user"])
      case Threw => s.(storage := s.storage - {"token", "user"})
      case Parsed(u) => s.(user := u, token := Some(s.storage["token"]))
    else s
  }

  /** `login`: both keys written, both state fields set; every other key untouched. */
  function LoginState(s: AuthState, newToken: string, newUser: User, serialize: User -> string): (r: AuthState)
    ensures r.user == Some(newUser) && r.token == Some(newToken)
    ensures r.storage.Keys == s.storage.Keys + {"token", "user"}
    ensures r.storage["token"] == newToken && r.storage["user"] == serialize(newUser)
    ensures forall k :: k in s.storage && k != "token" && k != "user" ==> r.storage[k] == s.storage[k]
  {
    AuthState(Some(newUser), Some(newToken), s.storage["token" := newToken]["user" := serialize(newUser)])
  }

  /** `logout`: both keys removed, both state fields null; every other key untouched. */
  function LogoutState(s: AuthState): (r: AuthState)
    ensures r.user.None? && r.token.None?
    ensures r.storage.Keys == s.storage.Keys - {"token", "user"}
    ensures forall k :: k in r.storage ==> r.storage[k] == s.storage[k]
  {
    AuthState(None, None, s.storage - {"token", "user"})
  }

  /** After any login or logout the token state equals what storage holds under `token`. */
  lemma LoginLogoutMirrorToken(s: AuthState, newToken: string, newUser: User, serialize: User -> string)
    ensures TokenMirrored(LoginState(s, newToken, newUser, serialize))
    ensures TokenMirrored(LogoutState(s))
  {
  }

  /**
   * A reload after a login restores the same user and token, provided the
   * token is non-empty, the user's serialisation is non-empty and parses back.
   */
  lemma LoginThenReload(s: AuthState, newToken: string, newUser: User, serialize: User -> string,
                        parse: string -> Parse)
    requires newToken != "" && serialize(newUser) != "" && parse(serialize(newUser)) == Parsed(Some(newUser))
    ensures var stored := LoginState(s, newToken, newUser, serialize).storage;
      InitState(AuthState(None, None, stored), parse) == AuthState(Some(newUser), Some(newToken), stored)
  {
  }

  /** A reload after a logout restores nothing and leaves storage as logout left it. */
  lemma LogoutThenReload(s: AuthState, parse: string -> Parse)
    ensures var stored := LogoutState(s).storage;
      InitState(AuthState(None, None, stored), parse) == AuthState(None, None, stored)
  {
  }

  /** The mount effect on a fresh provider ends with the token mirrored, unless a token is stored without a usable user. */
  lemma InitMirrorsToken(storage: Storage, parse: string -> Parse)
    requires "token" in storage ==> Stored(storage, "token") && Stored(storage, "user")
    ensures TokenMirrored(InitState(AuthState(None, None, storage), parse))
  {
  }

  /** An empty stored token is kept in storage but not restored: the token state and storage then disagree. */
  lemma EmptyStoredTokenNotMirrored(storage: Storage, parse: string -> Parse)
    requires "token" in storage && storage["token"] == ""
    ensures !TokenMirrored(InitState(AuthState(None, None, storage), parse))
  {
  }

  /** `AuthProvider`: the state fields and local storage, changed by init, login and logout. */
  class AuthProvider {
    var user: Option<User>
    var token: Option<string>
    var storage: Storage

    function State(): AuthState
      reads this
    {
      AuthState(user, token, storage)
    }

    /** The provider mounts with both state fields null over the browser's existing storage. */
    constructor(storage: Storage)
      ensures State() == AuthState(None, None, storage)
    {
      user := None;
      token := None;
      this.storage := storage;
    }

    /** The mount effect. */
    method Init(parse: string -> Parse)
      modifies this
      ensures State() == InitState(old(State()), parse)
    {
      var storedToken := if "token" in storage then Some(storage["token"]) else None;
      var storedUser := if "user" in storage then Some(storage["user"]) else None;
      if storedToken.Some? && storedToken.value != "" && storedUser.Some? && storedUser.value != "" {
        var parsed := parse(storedUser.value);
        match parsed
        case Threw =>
          storage := storage - {"token"};
          storage := storage - {"user"};
          assert storage == old(storage) - {"token", "user"};
        case Parsed(u) =>
          user := u;
          token := storedToken;
      }
    }

    method Login(newToken: string, newUser: User, serialize: User -> string)
      modifies this
      ensures State() == LoginState(old(State()), newToken, newUser, serialize)
    {
      storage := storage["token" := newToken];
      storage := storage["user" := serialize(newUser)];
      user := Some(newUser);
      token := Some(newToken);
    }

    method Logout()
      modifies this
      ensures State() == LogoutState(old(State()))
    {
      storage := storage - {"token"};
      storage := storage - {"user"};
      assert storage == old(storage) - {"token", "user"};
      user := None;
      token := None;
    }
  }

  /** What `useAuth` finds: the provider's value, or nothing outside a provider. */
  datatype Hook = Throws(message: string) | Context(state: AuthState)

  /** `useAuth`: throws exactly when there is no provider; otherwise the provider's state. */
  function UseAuth(provider: Option<AuthState>): (h: Hook)
    ensures h.Throws? <==> provider.None?
    ensures provider.Some? ==> h == Context(provider.value)
  {
    if provider.None? then Throws("useAuth must be used within an AuthProvider")
    else Context(provider.value)
  }
}
