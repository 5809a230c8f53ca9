/**
 * The client's auth slice: a three-field state (user, token, authenticated)
 * loaded from browser storage at start-up and changed by two reducers, one
 * that stores the credentials of a login or registration and one that logs out.
 *
 * Storage is a map from key to string (`getItem` of an absent key is `null`);
 * `JSON.parse` and `JSON.stringify` of the user are the parameters `parse` and
 * `stringify`. A parse outcome is a thrown error, the JSON `null`, or a user.
 */
module AuthSlice {
  import opened Results

  datatype AuthUser = AuthUser(id: int, username: string, email: string, role: string)

  datatype AuthState = AuthState(user: Option<AuthUser>, token: Option<string>, isAuthenticated: bool)

  type Storage = map<string, string>

  datatype Parsed = Malformed | JsonNull | JsonUser(user: AuthUser)

  /** A state together with the storage it leaves behind. */
  datatype Session = Session(state: AuthState, storage: Storage)

  const TokenKey: string := "token"
  const UserKey: string := "user"

  const LoggedOut: AuthState := AuthState(None, None, false)

  /** The slice's intended invariant: authenticated exactly when a user is held, exactly when a token is held. */
  predicate Consistent(st: AuthState) {
    (st.isAuthenticated <==> st.user.Some?) && (st.isAuthenticated <==> st.token.Some?)
  }

  /** `localStorage.getItem(key)` is truthy: present and not the empty string. */
  predicate Truthy(storage: Storage, key: string) {
    key in storage && storage[key] != ""
  }

  /**
   * `initializeState` as written: with a truthy token and user string it parses
   * the user and reports an authenticated state holding whatever the parse gave,
   * JSON `null` included; a parse error removes both keys and logs out.
   */
  function InitializeStateAsWritten(storage: Storage, parse: string -> Parsed): (r: Session)
    ensures r.state.isAuthenticated ==> Truthy(storage, TokenKey) && Truthy(storage, UserKey)
    ensures r.state.isAuthenticated ==> r.state.token == Some(storage[TokenKey]) && r.storage == storage
    ensures !r.state.isAuthenticated ==> r.state == LoggedOut
    ensures r.storage == storage || r.storage == storage - {TokenKey, UserKey}
  {
    if Truthy(storage, TokenKey) && Truthy(storage, UserKey) then
      match parse(storage[UserKey])
      case Malformed => Session(LoggedOut, storage - {TokenKey, UserKey})
      case JsonNull => Session(AuthState(None, Some(storage[TokenKey]), true), storage)
      case JsonUser(u) => Session(AuthState(Some(u), Some(storage[TokenKey]), true), storage)
    else Session(LoggedOut, storage)
  }

  /** A stored user string `"null"` next to a token makes the state authenticated without a user. */
  lemma NullUserBreaksInvariant(parse: string -> Parsed)
    requires parse("null") == JsonNull
    ensures var st := InitializeStateAsWritten(map[TokenKey := "t", UserKey := "null"], parse).state;
      st.isAuthenticated && st.user.None? && !Consistent(st)
  {
    var storage := map[TokenKey := "t", UserKey := "null"];
    assert Truthy(storage, TokenKey) && Truthy(storage, UserKey);
  }

  /**
   * `initializeState` with a parsed `null` user treated like no stored session:
   * authenticated exactly when both keys are truthy and the user string parses
   * to a user; a parse error still clears both keys.
   */
  function InitializeState(storage: Storage, parse: string -> Parsed): (r: Session)
    ensures Consistent(r.state)
    ensures r.state.isAuthenticated <==>
      Truthy(storage, TokenKey) && Truthy(storage, UserKey) && parse(storage[UserKey]).JsonUser?
    ensures r.state.isAuthenticated ==>
      r.state == AuthState(Some(parse(storage[UserKey]).user), Some(storage[TokenKey]), true)
    ensures !r.state.isAuthenticated ==> r.state == LoggedOut
    ensures r.storage ==
      if Truthy(storage, TokenKey) && Truthy(storage, UserKey) && parse(storage[UserKey]).Malformed?
      then storage - {TokenKey, UserKey} else storage
  {
    if Truthy(storage, TokenKey) && Truthy(storage, UserKey) then
      match parse(storage[UserKey])
      case Malformed => Session(LoggedOut, storage - {TokenKey, UserKey})
      case JsonNull => Session(LoggedOut, storage)
      case JsonUser(u) => Session(AuthState(Some(u), Some(storage[TokenKey]), true), storage)
    else Session(LoggedOut, storage)
  }

  /** The two agree on every storage whose user string does not parse to `null`. */
  lemma InitializeStateAgrees(storage: Storage, parse: string -> Parsed)
    requires UserKey in storage ==> !parse(storage[UserKey]).JsonNull?
    ensures InitializeState(storage, parse) == InitializeStateAsWritten(storage, parse)
  {
  }

  /** `setCredentials`: holds the user and token, and writes both to storage. */
  function SetCredentials(s: Session, user: AuthUser, token: string, stringify: AuthUser -> string): (r: Session)
    ensures Consistent(r.state) && r.state.isAuthenticated
    ensures r.state.user == Some(user) && r.state.token == Some(token)
    ensures TokenKey in r.storage && r.storage[TokenKey] == token
    ensures UserKey in r.storage && r.storage[UserKey] == stringify(user)
    ensures forall k :: k != TokenKey && k != UserKey ==> (k in r.storage <==> k in s.storage)
    ensures forall k :: k in s.storage && k != TokenKey && k != UserKey ==> r.storage[k] == s.storage[k]
  {
    Session(AuthState(Some(user), Some(token), true), s.storage[TokenKey := token][UserKey := stringify(user)])
  }

  /** `logout`: drops the user and token, and removes both from storage. */
  function Logout(s: Session): (r: Session)
    ensures Consistent(r.state) && !r.state.isAuthenticated
    ensures TokenKey !in r.storage && UserKey !in r.storage
    ensures forall k :: k != TokenKey && k != UserKey ==> (k in r.storage <==> k in s.storage)
    ensures forall k :: k in r.storage ==> r.storage[k] == s.storage[k]
  {
    Session(LoggedOut, s.storage - {TokenKey, UserKey})
  }

  /** Logging out twice is logging out once. */
  lemma LogoutIdempotent(s: Session)
    ensures Logout(Logout(s)) == Logout(s)
  {
    assert Logout(s).storage - {TokenKey, UserKey} == Logout(s).storage;
  }

  /** Both reducers, and start-up, leave the state consistent whatever state they start from. */
  lemma ReducersKeepConsistent(s: Session, user: AuthUser, token: string, stringify: AuthUser -> string, parse: string -> Parsed)
    ensures Consistent(InitializeState(s.storage, parse).state)
    ensures Consistent(SetCredentials(s, user, token, stringify).state)
    ensures Consistent(Logout(s).state)
  {
  }

  /** After a logout, a reload starts logged out and leaves storage as the logout left it. */
  lemma ReloadAfterLogout(s: Session, parse: string -> Parsed)
    ensures InitializeState(Logout(s).storage, parse) == Logout(s)
    ensures InitializeStateAsWritten(Logout(s).storage, parse) == Logout(s)
  {
  }

  /**
   * After storing credentials, a reload restores the same state, provided the
   * token is not empty and parsing the stored user gives the user back.
   */
  lemma ReloadAfterSetCredentials(s: Session, user: AuthUser, token: string, stringify: AuthUser -> string, parse: string -> Parsed)
    requires token != "" && stringify(user) != ""
    requires parse(stringify(user)) == JsonUser(user)
    ensures var s' := SetCredentials(s, user, token, stringify);
      InitializeState(s'.storage, parse) == s'
  {
    var s' := SetCredentials(s, user, token, stringify);
    assert Truthy(s'.storage, TokenKey) && Truthy(s'.storage, UserKey);
  }

  /** An empty token is stored but not restored: the reload is logged out. */
  lemma EmptyTokenNotRestored(s: Session, user: AuthUser, stringify: AuthUser -> string, parse: string -> Parsed)
    ensures InitializeState(SetCredentials(s, user, "", stringify).storage, parse).state == LoggedOut
  {
  }
}
