/**
 * The session store (src/lib/stores/auth.js, createAuthStore): the state cell
 * as a field of a class, each operation as a method that replaces it and adds
 * or removes keys of the shared local storage. The request is replaced by its
 * outcome, passed in; the credentials it would carry are not modelled.
 */
module AuthStore {
  import opened Js
  import opened Session
  import opened BrowserStorage

  class AuthStore {
    var state: AuthState
    const storage: LocalStorage

    constructor (storage: LocalStorage)
      ensures state == SignedOut && this.storage == storage
    {
      this.storage := storage;
      state := SignedOut;
    }

    /** The synchronous start of a request: loading starts and the error is cleared. */
    method BeginRequest()
      modifies this
      ensures state == old(state).(isLoading := true, error := None)
    {
      state := state.(isLoading := true, error := None);
    }

    /**
     * How a request settles: the authenticated record is set, persisted and
     * returned, or the errored record is set and its message thrown; storage
     * is written on success only.
     */
    method Settle(o: AuthOutcome, fallback: string) returns (r: Result<AuthState>)
      modifies this, storage
      ensures state == Settled(o, fallback)
      ensures o.Accepted? ==>
        r == Ok(state) && storage.items == old(storage.items)[AuthKey := SessionJson(state)]
      ensures !o.Accepted? ==>
        r == Err(FailureMessage(o, fallback)) && storage.items == old(storage.items)
    {
      if o.Accepted? {
        var userData := AuthState(Some(o.user), o.user.token, true, false, None);
        state := userData;
        storage.SetItem(AuthKey, SessionJson(userData));
        r := Ok(userData);
      } else {
        var message := FailureMessage(o, fallback);
        state := AuthState(None, None, false, false, Some(message));
        r := Err(message);
      }
    }

    /** `login(email, password)` run to completion with the request's outcome. */
    method Login(o: AuthOutcome) returns (r: Result<AuthState>)
      modifies this, storage
      ensures state == Settled(o, LoginFailed)
      ensures o.Accepted? ==>
        && state.isAuthenticated && state.user == Some(o.user) && state.token == o.user.token
        && r == Ok(state) && storage.items == old(storage.items)[AuthKey := SessionJson(state)]
      ensures !o.Accepted? ==>
        && state.user.None? && state.token.None? && !state.isAuthenticated && !state.isLoading
        && r.Err? && state.error == Some(r.message)
        && storage.items == old(storage.items)
    {
      BeginRequest();
      r := Settle(o, LoginFailed);
    }

    /** `register(name, email, password)` run to completion with the request's outcome. */
    method Register(o: AuthOutcome) returns (r: Result<AuthState>)
      modifies this, storage
      ensures state == Settled(o, RegistrationFailed)
      ensures o.Accepted? ==>
        && state.isAuthenticated && state.user == Some(o.user) && state.token == o.user.token
        && r == Ok(state) && storage.items == old(storage.items)[AuthKey := SessionJson(state)]
      ensures !o.Accepted? ==>
        && state.user.None? && state.token.None? && !state.isAuthenticated && !state.isLoading
        && r.Err? && state.error == Some(r.message)
        && storage.items == old(storage.items)
    {
      BeginRequest();
      r := Settle(o, RegistrationFailed);
    }

    /** Signs out whatever the state, and forgets both the session and the cached conversations. */
    method Logout()
      modifies this, storage
      ensures state == SignedOut
      ensures storage.items == old(storage.items) - {AuthKey, ConversationsKey}
    {
      state := AuthState(None, None, false, false, None);
      storage.RemoveItem(AuthKey);
      storage.RemoveItem(ConversationsKey);
    }

    /**
     * Reads the persisted session once: a record with a truthy token and user
     * replaces the state; an unparsable value is removed; anything else is
     * ignored.
     */
    method LoadFromStorage()
      modifies this, storage
      ensures var stored := old(storage.GetItem(AuthKey));
        if stored == Some(Malformed) then
          state == old(state) && storage.items == old(storage.items) - {AuthKey}
        else
          && storage.items == old(storage.items)
          && state == if stored.Some? && stored.value.SessionJson? && Restorable(stored.value.record)
                      then stored.value.record else old(state)
    {
      var stored := storage.GetItem(AuthKey);
      if stored.Some? && stored.value != Blank {
        match stored.value
        case Malformed =>
          storage.RemoveItem(AuthKey);
        case SessionJson(record) =>
          if Restorable(record) {
            state := record;
          }
        case _ =>
      }
    }

    /** Clears only the error. */
    method ClearError()
      modifies this
      ensures state == old(state).(error := None)
    {
      state := state.(error := None);
    }
  }
}
