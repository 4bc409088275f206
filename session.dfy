/**
 * The value-level part of the session store (src/lib/stores/auth.js): the
 * five-field session record, the outcome of a login or registration request,
 * and the record such an outcome settles into.
 */
module Session {
  import opened Js

  const LoginFailed := "Login failed"
  const RegistrationFailed := "Registration failed"

  /** The user record the server returns (`data.data`); it carries the bearer token. */
  datatype User = User(token: Option<string>, fields: map<string, string>)

  datatype AuthState = AuthState(
    user: Option<User>,
    token: Option<string>,
    isAuthenticated: bool,
    isLoading: bool,
    error: Option<string>)

  /** The state at start-up and after logout. */
  const SignedOut := AuthState(None, None, false, false, None)

  /** How a login or registration request ended. */
  datatype AuthOutcome =
    | Accepted(user: User)             // response.ok and status === 'success'
    | Declined(message: Option<string>) // response.ok, any other status; the body's message
    | HttpError(detail: Option<string>) // !response.ok; the body's detail
    | NetworkError(reason: string)      // fetch, response.json() or reading data.data.token threw

  /** The record a successful request sets, persists and returns. */
  function Authenticated(u: User): (s: AuthState)
    ensures s.isAuthenticated && !s.isLoading && s.error.None?
    ensures s.user == Some(u) && s.token == u.token
  {
    AuthState(Some(u), u.token, true, false, None)
  }

  /** The record a failed request sets: nothing of the session is kept. */
  function Errored(message: string): (s: AuthState)
    ensures !s.isAuthenticated && !s.isLoading && s.user.None? && s.token.None?
    ensures s.error == Some(message)
  {
    AuthState(None, None, false, false, Some(message))
  }

  /** The message a failed request records and throws; `fallback` names the operation. */
  function FailureMessage(o: AuthOutcome, fallback: string): (m: string)
    requires !o.Accepted?
    ensures o.HttpError? ==> m == OrElse(o.detail, fallback)
    ensures o.Declined? ==> m == OrElse(o.message, fallback)
    ensures o.NetworkError? ==> m == o.reason
    ensures !o.NetworkError? && fallback != "" ==> m != ""
  {
    match o
    case HttpError(detail) => OrElse(detail, fallback)
    case Declined(message) => OrElse(message, fallback)
    case NetworkError(reason) => reason
  }

  /** The state a login or registration request settles into. */
  function Settled(o: AuthOutcome, fallback: string): (s: AuthState)
    ensures !s.isLoading
    ensures s.isAuthenticated <==> o.Accepted?
    ensures s.user.Some? <==> o.Accepted?
    ensures s.error.None? <==> o.Accepted?
    ensures o.Accepted? ==> s.user == Some(o.user) && s.token == o.user.token
    ensures !o.Accepted? ==> s.token.None? && s.error == Some(FailureMessage(o, fallback))
  {
    if o.Accepted? then Authenticated(o.user) else Errored(FailureMessage(o, fallback))
  }

  /** Exactly one of the full authenticated record and a full errored one; nothing in between. */
  lemma NoPartialState(o: AuthOutcome, fallback: string)
    ensures var s := Settled(o, fallback);
      (exists u :: s == Authenticated(u)) != (exists m :: s == Errored(m))
  {
    var s := Settled(o, fallback);
    if o.Accepted? {
      assert s == Authenticated(o.user);
    } else {
      assert s == Errored(FailureMessage(o, fallback));
    }
  }

  /** isAuthenticated holds exactly when both a user and a token are present. */
  predicate Consistent(s: AuthState)
  {
    s.isAuthenticated <==> s.user.Some? && s.token.Some?
  }

  /**
   * The settled state keeps that invariant unless the server accepts the
   * request without a token in the user record.
   */
  lemma ConsistentUnlessTokenless(o: AuthOutcome, fallback: string)
    ensures Consistent(Settled(o, fallback)) <==> !(o.Accepted? && o.user.token.None?)
  {
  }

  /** A stored record that loadFromStorage restores: truthy token and user. */
  predicate Restorable(record: AuthState)
  {
    Truthy(record.token) && record.user.Some?
  }

  /**
   * The record persisted by a request is restored at the next start-up exactly
   * when the request succeeded with a non-empty token.
   */
  lemma PersistedIsRestorable(o: AuthOutcome, fallback: string)
    requires o.Accepted?
    ensures Restorable(Settled(o, fallback)) <==> Truthy(o.user.token)
  {
  }
}
