/** The authentication reducer of the client (client/src/contexts/AuthContext.jsx).
    The signed-in user is a plain object, modelled as a map from field names to
    field values. */
module AuthReducer {
  import opened Common

  type UserObject = map<string, string>

  datatype State = State(user: Option<UserObject>, token: Option<string>, isAuthenticated: bool, loading: bool)

  /** The state before anything is dispatched; `stored` is the token kept by the browser. */
  function InitialState(stored: Option<string>): (s: State)
    ensures s.user.None? && s.token == stored && !s.isAuthenticated && s.loading
  {
    State(None, stored, false, true)
  }

  datatype Action =
    | LoginSuccess(user: UserObject, token: string)
    | Logout
    | SetLoading(loading: bool)
    | UpdateUser(fields: UserObject)
    | UnknownAction(kind: string)

  /** `{ ...state.user, ...payload }`: spreading a null user contributes no field, and
      a payload field replaces the user's field of the same name. */
  function Spread(user: Option<UserObject>, fields: UserObject): (r: UserObject)
    ensures r.Keys == fields.Keys + (if user.Some? then user.value.Keys else {})
    ensures forall k :: k in fields ==> r[k] == fields[k]
    ensures user.Some? ==> forall k :: k in user.value && k !in fields ==> r[k] == user.value[k]
  {
    (if user.Some? then user.value else map[]) + fields
  }

  /** `authReducer`. */
  function Reduce(s: State, a: Action): State {
    match a
    case LoginSuccess(user, token) => s.(user := Some(user), token := Some(token), isAuthenticated := true, loading := false)
    case Logout => s.(user := None, token := None, isAuthenticated := false, loading := false)
    case SetLoading(loading) => s.(loading := loading)
    case UpdateUser(fields) => s.(user := Some(Spread(s.user, fields)))
    case UnknownAction(_) => s
  }

  /** LOGIN_SUCCESS stores the payload's user and token and ends loading; the state
      it leaves does not depend on the state before. */
  lemma LoginSuccessEffect(s: State, s': State, user: UserObject, token: string)
    ensures Reduce(s, LoginSuccess(user, token)) == State(Some(user), Some(token), true, false)
    ensures Reduce(s, LoginSuccess(user, token)) == Reduce(s', LoginSuccess(user, token))
  {
  }

  /** LOGOUT clears user and token, and a logout followed by a login is the login. */
  lemma LogoutEffect(s: State, user: UserObject, token: string)
    ensures Reduce(s, Logout) == State(None, None, false, false)
    ensures Reduce(Reduce(s, Logout), Logout) == Reduce(s, Logout)
    ensures Reduce(Reduce(s, Logout), LoginSuccess(user, token)) == Reduce(s, LoginSuccess(user, token))
  {
  }

  /** UPDATE_USER overlays the payload onto the user and leaves the token, the
      authentication flag and loading as they were; applying the same payload twice
      is applying it once. */
  lemma UpdateUserEffect(s: State, fields: UserObject)
    ensures var r := Reduce(s, UpdateUser(fields));
      && r.user.Some?
      && (forall k :: k in fields ==> k in r.user.value && r.user.value[k] == fields[k])
      && (s.user.Some? ==> forall k :: k in s.user.value && k !in fields ==> k in r.user.value && r.user.value[k] == s.user.value[k])
      && (forall k :: k in r.user.value ==> k in fields || (s.user.Some? && k in s.user.value))
      && r.token == s.token && r.isAuthenticated == s.isAuthenticated && r.loading == s.loading
      && Reduce(r, UpdateUser(fields)) == r
  {
    var r := Reduce(s, UpdateUser(fields));
    assert Spread(r.user, fields) == r.user.value;
  }

  /** An update after a logout leaves a user object although nobody is signed in. */
  lemma UpdateAfterLogout(s: State, fields: UserObject)
    ensures var r := Reduce(Reduce(s, Logout), UpdateUser(fields));
      r.user == Some(fields) && !r.isAuthenticated && r.token.None?
  {
    assert map[] + fields == fields;
  }

  /** SET_LOADING changes only `loading`; an unknown action is the identity. */
  lemma OtherActionsEffect(s: State, loading: bool, kind: string)
    ensures Reduce(s, SetLoading(loading)) == State(s.user, s.token, s.isAuthenticated, loading)
    ensures Reduce(s, UnknownAction(kind)) == s
  {
  }
}
