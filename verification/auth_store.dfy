/** The authentication store of store/authStore.ts as a reducer over an
    explicit state record.  The user profile is a type parameter: the store
    never looks inside it.  Persistence to device storage is not modelled. */
module AuthStore {
  import opened Wrappers

  datatype AuthState<U> = AuthState(token: Option<string>, user: Option<U>, isAuthenticated: bool)

  /** The four setters the store exposes. */
  datatype Action<U> =
    | Login(token: string, user: U)
    | Logout
    | SetToken(newToken: Option<string>)
    | SetUser(newUser: Option<U>)

  /** Nobody is signed in. */
  function Initial<U>(): (s: AuthState<U>)
    ensures s.token == None && s.user == None && !s.isAuthenticated
  {
    AuthState(None, None, false)
  }

  /** JavaScript's `!!token` on a `string | null`. */
  predicate TokenTruthy(token: Option<string>) {
    token.Some? && token.value != ""
  }

  /** The store's one structural promise: a signed-in state holds a token. */
  predicate Valid<U>(s: AuthState<U>) {
    s.isAuthenticated ==> s.token.Some?
  }

  /** One setter applied to the state. */
  function Step<U>(s: AuthState<U>, a: Action<U>): (r: AuthState<U>)
    ensures a.Login? ==> r == AuthState(Some(a.token), Some(a.user), true)
    ensures a.Logout? ==> r == Initial()
    ensures a.SetToken? ==>
              r.token == a.newToken && r.user == s.user && (r.isAuthenticated <==> TokenTruthy(a.newToken))
    ensures a.SetUser? ==> r.user == a.newUser && r.token == s.token && r.isAuthenticated == s.isAuthenticated
  {
    match a
    case Login(t, u) => AuthState(Some(t), Some(u), true)
    case Logout => AuthState(None, None, false)
    case SetToken(t) => s.(token := t, isAuthenticated := TokenTruthy(t))
    case SetUser(u) => s.(user := u)
  }

  /** The state after a sequence of setters, starting from `s`. */
  function Replay<U>(s: AuthState<U>, actions: seq<Action<U>>): AuthState<U>
    decreases |actions|
  {
    if actions == [] then s else Replay(Step(s, actions[0]), actions[1..])
  }

  /** Every setter keeps the store valid. */
  lemma StepKeepsValid<U>(s: AuthState<U>, a: Action<U>)
    requires Valid(s)
    ensures Valid(Step(s, a))
  {
  }

  /** Every state the application can reach from the initial one is valid. */
  lemma {:induction false} ReachableValid<U>(s: AuthState<U>, actions: seq<Action<U>>)
    requires Valid(s)
    ensures Valid(Replay(s, actions))
    decreases |actions|
  {
    if actions != [] {
      StepKeepsValid(s, actions[0]);
      ReachableValid(Step(s, actions[0]), actions[1..]);
    }
  }

  /** Logging out forgets everything, whatever happened before. */
  lemma LogoutResets<U>(s: AuthState<U>)
    ensures Step(s, Logout) == Initial<U>()
  {
  }

  /** `login` accepts any string: an empty token still marks the user as
      signed in, although `setToken` with that token would not. */
  lemma EmptyTokenLogin<U>(s: AuthState<U>, u: U)
    ensures Step(s, Login("", u)).isAuthenticated
    ensures !Step(s, SetToken(Some(""))).isAuthenticated
  {
  }
}
