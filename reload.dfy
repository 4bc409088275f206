/**
 * What survives a page reload. Both stores mirror part of their state into
 * the same local storage and read it back once at start-up; these client
 * methods run one operation, then build fresh stores on the same storage and
 * load them, and state what the fresh stores hold.
 */
module Reload {
  import opened Js
  import opened Conversations
  import opened Session
  import opened BrowserStorage
  import opened ChatStore
  import opened AuthStore

  /**
   * After a successful send, a fresh conversation store loads exactly the
   * list in memory, in the same order, and selects its most recent entry.
   */
  method ReloadAfterSend(items: map<string, Stored>, text: string, assistantResponse: Option<string>,
                         messageId: string, conversationId: string, sentAt: int, replyId: string, repliedAt: int)
    returns (saved: seq<Conversation>, reloaded: seq<Conversation>, selected: Option<Conversation>)
    ensures saved != [] && reloaded == saved && selected == Some(saved[0])
  {
    var st := new LocalStorage(items);
    var before := new ChatStore(st);
    before.LoadConversations();
    var _ := before.SendMessage(text, Answered(assistantResponse), messageId, conversationId, sentAt, replyId, repliedAt);
    saved := before.conversations;
    var after := new ChatStore(st);
    after.LoadConversations();
    SortedIsFixpoint(saved);
    reloaded, selected := after.conversations, after.current;
  }

  /**
   * After a login, a fresh session store restores the signed-in state exactly
   * when the login succeeded with a non-empty token; a failed login leaves a
   * previously persisted session in place.
   */
  method ReloadAfterLogin(items: map<string, Stored>, o: AuthOutcome)
    returns (loggedIn: AuthState, reloaded: AuthState)
    ensures o.Accepted? && Truthy(o.user.token) ==> reloaded == loggedIn && loggedIn.isAuthenticated
    ensures o.Accepted? && !Truthy(o.user.token) ==> reloaded == SignedOut
    ensures !o.Accepted? && AuthKey in items && items[AuthKey].SessionJson? && Restorable(items[AuthKey].record) ==>
      !loggedIn.isAuthenticated && reloaded == items[AuthKey].record
  {
    var st := new LocalStorage(items);
    var before := new AuthStore(st);
    var _ := before.Login(o);
    loggedIn := before.state;
    var after := new AuthStore(st);
    after.LoadFromStorage();
    reloaded := after.state;
  }

  /** After a logout, fresh stores start signed out and without conversations. */
  method ReloadAfterLogout(items: map<string, Stored>)
    returns (session: AuthState, conversations: seq<Conversation>, selected: Option<Conversation>)
    ensures session == SignedOut && conversations == [] && selected.None?
  {
    var st := new LocalStorage(items);
    var auth := new AuthStore(st);
    auth.LoadFromStorage();
    auth.Logout();
    var freshAuth := new AuthStore(st);
    freshAuth.LoadFromStorage();
    var chat := new ChatStore(st);
    chat.LoadConversations();
    session, conversations, selected := freshAuth.state, chat.conversations, chat.current;
  }
}
