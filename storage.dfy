/**
 * The browser's local key-value storage, shared by both stores. Values are
 * kept by what parsing them would yield rather than as JSON text.
 */
module BrowserStorage {
  import opened Js
  import Conversations
  import Session

  const ConversationsKey := "healthvault_conversations"
  const AuthKey := "healthvault_auth"

  /** A stored string, by what `JSON.parse` makes of it. */
  datatype Stored =
    | Blank                                                 // the empty string: falsy, never parsed
    | Malformed                                             // `JSON.parse` throws
    | ConversationsJson(list: seq<Conversations.Conversation>) // an array of conversations
    | SessionJson(record: Session.AuthState)                   // a session record object

  class LocalStorage {
    var items: map<string, Stored>

    /** Storage as the browser hands it over, with whatever earlier sessions left. */
    constructor (items: map<string, Stored>)
      ensures this.items == items
    {
      this.items := items;
    }

    /** `getItem(key)`: the stored value, or null when the key is absent. */
    function GetItem(key: string): (v: Option<Stored>)
      reads this
      ensures v.Some? <==> key in items
      ensures v.Some? ==> v.value == items[key]
    {
      if key in items then Some(items[key]) else None
    }

    /** `setItem(key, value)`. */
    method SetItem(key: string, value: Stored)
      modifies this
      ensures items == old(items)[key := value]
    {
      items := items[key := value];
    }

    /** `removeItem(key)`; no effect when the key is absent. */
    method RemoveItem(key: string)
      modifies this
      ensures items == old(items) - {key}
    {
      items := items - {key};
    }
  }
}
