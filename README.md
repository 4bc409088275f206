# HealthVault client stores in Dafny

A model of the two client-side state stores of the HealthVault caregiver web
app:

- the **conversation store** (`createChatStore`) holds the conversation list,
  the selected conversation, a loading flag and an error;
- the **session store** (`createAuthStore`) holds the signed-in user, the bearer
  token, `isAuthenticated`, a loading flag and an error.

Both mirror part of their state into the browser's local storage under the keys
`healthvault_conversations` and `healthvault_auth`.

Each store is a Dafny class. Its fields are the store's state cell, and every
operation is a method with a `modifies` clause. The local storage is one shared
`LocalStorage` object, so the session store's logout can delete the
conversation store's key. Stored values are kept by what `JSON.parse` would make
of them: `Blank`, `Malformed`, a conversation list or a session record.

The HTTP request of each operation is replaced by its outcome, which the caller
passes in:

- chat: `Answered(assistant_response)`, `HttpError(detail)`, `NetworkError(reason)`;
- auth: `Accepted(user)`, `Declined(message)`, `HttpError(detail)`, `NetworkError(reason)`.

The clock and the generated ids are parameters too.

`sendMessage` is split into its three state updates. `BeginSend` is the
optimistic append, `CompleteSend` is the reconcile on success and `AbortSend` is
the rollback. `SendMessage` composes them into one call. The value-level logic
is in two modules of functions and lemmas:

- `Conversations`: the title rule, the reply fallback, `findIndex`, upsert by id,
  the sort by recency and the filter by id;
- `Session`: the settled session records and the error-message choice.

Files: `js.dfy` (optional values, truthiness, `||`), `conversations.dfy`,
`session.dfy`, `storage.dfy`, `chat_store.dfy`, `auth_store.dfy`, `reload.dfy`
(what fresh stores load after an operation).

Behaviour of the source the model keeps:

- A long title ends in three ASCII full stops `...` (src/lib/stores/chat.js:81).
- An unparsable stored session is removed, and the state is left as it was; it
  is empty only when this runs at start-up (src/lib/stores/auth.js:146-149).
- A successful login sets `isAuthenticated` even when the server's user record
  has no token (src/lib/stores/auth.js:38-44). `Session.ConsistentUnlessTokenless` states exactly when the
  "authenticated iff user and token" invariant holds.
- `findIndex` replaces only the first entry with the conversation's id
  (src/lib/stores/chat.js:130-132). After a successful send the list holds one
  entry with that id if it held none, and as many as before otherwise, so exactly
  one precisely when it held at most one before (`Conversations.UpsertSortedCount`).

## Model

| member | source | states |
|---|---|---|
| `Js.OrElse` | src/lib/stores/chat.js:119 | the JavaScript default `s or fallback` is the string when it is present and non-empty, otherwise the fallback, and is non-empty when the fallback is |
| `Conversations.Title` | src/lib/stores/chat.js:81 | a message of at most 30 characters is its own title; a longer one gives 33 characters: its first 30 followed by `...` |
| `Conversations.TitleBounded` | src/lib/stores/chat.js:81 | a title is at most 33 characters, and equals the message exactly when the message is short or already ends in `...` at position 30 |
| `Conversations.TitleDependsOnPrefix` | src/lib/stores/chat.js:81 | long messages with the same first 30 characters get the same title |
| `Conversations.WithUserMessage` | src/lib/stores/chat.js:77-97 | the optimistic append: a new conversation with the given id when none is selected; the user message `(id, text, isUser = true, now)` appended after the old messages; stamped `now`; titled by the rule when the message is the conversation's first, otherwise the old title is kept |
| `Conversations.ReplyText` | src/lib/stores/chat.js:119 | the reply is never empty: it is `assistant_response` when present and non-empty, else "Sorry, I couldn't process your request." |
| `Conversations.WithReply` | src/lib/stores/chat.js:124-127 | the old messages are kept as a prefix, followed by one non-user reply message, and the conversation is stamped; id and title are unchanged |
| `Conversations.Retracted` | src/lib/stores/chat.js:155-158 | dropping the last message, if any, undoes one append; id, title and stamp are unchanged |
| `Conversations.RetractUndoesAppend` | src/lib/stores/chat.js:87-157 | retracting after the optimistic append restores exactly the messages from before it (none for a conversation the send created) |
| `Conversations.FailureMessage` | src/lib/stores/chat.js:112-114 | a non-OK response's error is its non-empty `detail`, else "Failed to send message"; a network failure keeps the runtime's message |
| `Conversations.FindIndex` | src/lib/stores/chat.js:130 | the first position holding the id, or -1 exactly when no entry has it |
| `Conversations.Upsert` | src/lib/stores/chat.js:130-135 | the conversation ends up in the list; an existing entry with its id is replaced at the same position, the length is unchanged and every other position is untouched; otherwise it is prepended and the length grows by one |
| `Conversations.SortedPrepend` | src/lib/stores/chat.js:138 | putting a conversation at least as recent as the head in front of a list in recency order keeps it in order |
| `Conversations.InsertByRecency` | src/lib/stores/chat.js:138 | inserting into a list in recency order keeps it in order and adds exactly the one element |
| `Conversations.SortByRecency` | src/lib/stores/chat.js:138 | the result is sorted most recent first and is a permutation of the input (same multiset) |
| `Conversations.SortKeepsMembers` | src/lib/stores/chat.js:26 | sorting keeps the length and exactly the members of the list |
| `Conversations.SortedIsFixpoint` | src/lib/stores/chat.js:26 | a list already in recency order is not reordered by the sort |
| `Conversations.SortIdempotent` | src/lib/stores/chat.js:26 | sorting a sorted list again changes nothing |
| `Conversations.Without` | src/lib/stores/chat.js:171 | exactly the entries whose id differs remain; the result is never longer, and nothing changes when no entry has the id |
| `Conversations.WithoutIsSubsequence` | src/lib/stores/chat.js:171 | the remaining entries keep their original relative order |
| `Conversations.WithoutKeepsCopies` | src/lib/stores/chat.js:171 | every copy of an entry whose id differs is kept |
| `Conversations.WithoutKeepsSorted` | src/lib/stores/chat.js:171-174 | deleting from a list in recency order leaves it in recency order, so the new head is the most recent conversation |
| `Conversations.IdCount` | src/lib/stores/chat.js:130 | the number of entries with an id is zero exactly when no entry has it |
| `Conversations.IdCountInsert` | src/lib/stores/chat.js:138 | inserting one conversation adds one to its id's count and nothing to any other id's |
| `Conversations.IdCountSort` | src/lib/stores/chat.js:138 | sorting neither adds nor drops an entry with any id |
| `Conversations.IdCountReplace` | src/lib/stores/chat.js:132 | replacing an entry by one with the same id keeps that id's count |
| `Conversations.UpsertSortedCount` | src/lib/stores/chat.js:130-138 | after upsert and sort, the id occurs once if it was absent and as often as before otherwise; so exactly once precisely when it occurred at most once before |
| `Session.Authenticated` | src/lib/stores/auth.js:38-44 | the success record: authenticated, not loading, no error, the server's user and that user's token |
| `Session.Errored` | src/lib/stores/auth.js:58-64 | the failure record: no user, no token, not authenticated, not loading, the error message |
| `Session.FailureMessage` | src/lib/stores/auth.js:33-56 | a non-OK response's error is its non-empty `detail`, an OK response with another status gives its non-empty `message`, otherwise "Login failed" / "Registration failed"; a network failure keeps the runtime's message |
| `Session.Settled` | src/lib/stores/auth.js:33-66 | authenticated, with a user and no error, exactly when the request was accepted; otherwise no user, no token and the chosen error; never loading |
| `Session.NoPartialState` | src/lib/stores/auth.js:37-66 | a settled state is exactly one of a full authenticated record and a full errored record |
| `Session.ConsistentUnlessTokenless` | src/lib/stores/auth.js:38-44 | "isAuthenticated iff both user and token are present" holds after a request unless the server accepted it without a token |
| `Session.PersistedIsRestorable` | src/lib/stores/auth.js:137-146 | the record a successful request persists passes the restore test exactly when its token is non-empty |
| `BrowserStorage.LocalStorage.constructor` | src/lib/stores/chat.js:20 | storage starts with what earlier sessions left |
| `BrowserStorage.LocalStorage.GetItem` | src/lib/stores/chat.js:20 | the stored value exactly when the key is present |
| `BrowserStorage.LocalStorage.SetItem` | src/lib/stores/chat.js:142 | only the given key changes, to the given value |
| `BrowserStorage.LocalStorage.RemoveItem` | src/lib/stores/chat.js:194 | only the given key is removed |
| `ChatStore.ChatStore.constructor` | src/lib/stores/chat.js:8-13 | empty list, nothing selected, not loading, no error |
| `ChatStore.ChatStore.LoadConversations` | src/lib/stores/chat.js:18-41 | a stored list becomes the list sorted by recency and of the same length; the most recent entry is selected only when nothing was selected and the list is non-empty; an absent, blank, unparsable or non-list value changes nothing; storage is never written |
| `ChatStore.ChatStore.StartNewConversation` | src/lib/stores/chat.js:43-55 | selects an empty "New Conversation"; the list, flags and storage are untouched |
| `ChatStore.ChatStore.SelectConversation` | src/lib/stores/chat.js:57-62 | selects the conversation; the list, flags and storage are untouched |
| `ChatStore.ChatStore.BeginSend` | src/lib/stores/chat.js:65-97 | loading with no error; the selection becomes the conversation with the user message appended; the list is untouched |
| `ChatStore.ChatStore.CompleteSend` | src/lib/stores/chat.js:116-151 | with a selection: the reply appended, the list becomes the upserted list sorted by recency, and that list is persisted; without one, the list and storage are untouched; either way not loading and no error; the list stays sorted |
| `ChatStore.ChatStore.AbortSend` | src/lib/stores/chat.js:153-165 | the selection loses its last message, not loading, the error recorded; the list and storage are untouched |
| `ChatStore.ChatStore.SendMessage` | src/lib/stores/chat.js:64-167 | on success: N messages become N+2 (the old ones, the user's message, then a non-user reply with the reply text); the conversation is in the list; the list is sorted, grows by one exactly when its id was new, holds exactly one entry with that id precisely when it held at most one, and is what storage holds; no error. On failure: the error is thrown and recorded, the messages are exactly those before the call (none for a conversation the call created), and the list and storage are untouched. On both paths: the title rule, not loading, something selected |
| `ChatStore.ChatStore.DeleteConversation` | src/lib/stores/chat.js:169-184 | the list becomes the filtered list and stays sorted; a deleted selection becomes the new head or none, and no longer has the deleted id; any other selection is unchanged; storage receives the filtered list; the flags are untouched |
| `ChatStore.ChatStore.ClearAllConversations` | src/lib/stores/chat.js:186-196 | empty list, no selection, the storage key removed and nothing else in storage changed; the flags are untouched |
| `ChatStore.ChatStore.ClearError` | src/lib/stores/chat.js:198-200 | only the error changes, to none |
| `AuthStore.AuthStore.constructor` | src/lib/stores/auth.js:8-14 | the signed-out state |
| `AuthStore.AuthStore.BeginRequest` | src/lib/stores/auth.js:19 | loading with no error; user, token and isAuthenticated preserved |
| `AuthStore.AuthStore.Settle` | src/lib/stores/auth.js:33-66 | the state becomes the settled record; on success it is returned and written under `healthvault_auth`, on failure its message is thrown and storage is untouched |
| `AuthStore.AuthStore.Login` | src/lib/stores/auth.js:18-68 | success gives exactly the authenticated record, stored and returned; any failure gives no user, no token, not authenticated, not loading, the thrown message as the error, and storage untouched, so an earlier stored session survives |
| `AuthStore.AuthStore.Register` | src/lib/stores/auth.js:70-120 | as Login, with "Registration failed" as the default message |
| `AuthStore.AuthStore.Logout` | src/lib/stores/auth.js:122-135 | whatever the prior state: the signed-out state, with both `healthvault_auth` and `healthvault_conversations` removed and nothing else in storage changed |
| `AuthStore.AuthStore.LoadFromStorage` | src/lib/stores/auth.js:137-152 | a stored record with a non-empty token and a user replaces the state; an unparsable value is removed and the state is unchanged; an absent, blank or incomplete value changes nothing |
| `AuthStore.AuthStore.ClearError` | src/lib/stores/auth.js:154-156 | only the error changes, to none |
| `Reload.ReloadAfterSend` | src/lib/stores/chat.js:138-142 | after a successful send, a fresh store loads exactly the list that was in memory, in the same order, and selects its head |
| `Reload.ReloadAfterLogin` | src/lib/stores/auth.js:46-51 | after a login, a fresh store restores the signed-in state exactly when the login succeeded with a non-empty token; after a failed login, a previously stored session is restored |
| `Reload.ReloadAfterLogout` | src/lib/stores/auth.js:122-135 | after a logout, fresh stores start signed out and with no conversations, whatever was stored |

## Left out

- The HTTP requests: URLs, headers, the API key, the bearer token and the request bodies (email, password, name, message text). They are I/O. Each request is replaced by its outcome, so the credentials `login`/`register` take and the token `sendMessage` takes are not parameters of the model.
- `JSON.parse` and `JSON.stringify`: stored values are kept by their parsed shape. JSON text that parses to another shape (`null`, a number, an array of something else) is not modelled. A stored session is restored with its five fields as stored.
- A non-string `detail` or `message` (such as a list of validation errors, which `new Error` turns into text) is not modelled. Both are optional strings.
- A missing `data.data` in a successful auth response makes reading the token throw. It is covered by `NetworkError(reason)`, whose text is the runtime's own.
- Svelte's `writable`/`subscribe`: subscribers are not modelled. The intermediate loading states are visible only as the results of `BeginSend` and `BeginRequest`.
- `Date.now()` ids and ISO timestamps: ids and times are parameters, and all clock reads within one synchronous step take the same instant. Ids are not claimed to be unique. `lastUpdated` is an integer, so unparsable date strings (which make the comparator return NaN) are not modelled.
- Overlapping `sendMessage` calls that interleave across the `await`: the model runs each call atomically (this is a concurrency concern).
- Object aliasing between the selected conversation and a list entry. Conversations are values. In the source, a failed send that was appended to a conversation also present in the list changes that list entry's `lastUpdated` (and possibly its title) in memory, though not in storage. The model leaves the list untouched.
- The `browser` guard (taken as always true) and `console.error` logging.
- `SelectConversation` takes a conversation; the source would also accept `null`.
- SortByRecency: the definition is a stable sort, as JavaScript's `Array.prototype.sort` is, but stability (equal timestamps keep their order) is not stated as a separate property.
- Conversations.Title: lengths and the cut at 30 count Unicode scalar values (one Dafny `char` each), while the source's `message.length` and `substring(0, 30)` count UTF-16 code units. The two agree for text within the Basic Multilingual Plane; for text with characters beyond it (emoji, for one) the source cuts earlier, and a cut in the middle of a surrogate pair leaves a lone surrogate that a Dafny string cannot hold. The model's titles of such text differ from the source's.
- BrowserStorage.LocalStorage.SetItem: a write never fails in the model. In the source a throwing `setItem` (a full quota, for one) changes the outcome of the operation that calls it, and the model does not capture this:
  - SendMessage: a throw at src/lib/stores/chat.js:142 comes after the reply was appended and the list upserted and sorted, so the rollback removes the reply rather than the user's message; the conversation keeps N+1 messages, the in-memory list holds it, and storage is not written. The model's success contract assumes the write succeeds.
  - Login and Register: `set(userData)` at src/lib/stores/auth.js:46 and 98 runs before the write, and a failing write then turns the accepted request into the errored record and rethrows. The model's success contract assumes the write succeeds.
