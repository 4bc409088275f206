/**
 * The conversation store (src/lib/stores/chat.js, createChatStore): the state
 * cell as the fields of a class, each operation as a method that updates those
 * fields and the shared local storage. The chat request is replaced by its
 * outcome, passed in; the clock and the generated ids are parameters.
 */
module ChatStore {
  import opened Js
  import opened Conversations
  import opened BrowserStorage

  class ChatStore {
    var conversations: seq<Conversation>
    var current: Option<Conversation>
    var isLoading: bool
    var error: Option<string>
    const storage: LocalStorage

    /** The conversation list is always in recency order. */
    ghost predicate Valid()
      reads this
    {
      SortedByRecency(conversations)
    }

    constructor (storage: LocalStorage)
      ensures Valid() && this.storage == storage
      ensures conversations == [] && current.None? && !isLoading && error.None?
    {
      this.storage := storage;
      conversations := [];
      current := None;
      isLoading := false;
      error := None;
    }

    /**
     * Reads the persisted list once: a list is sorted by recency and, when no
     * conversation is selected, its most recent entry is selected. Anything
     * else under the key (nothing, blank, unparsable, not a list) is ignored.
     */
    method LoadConversations()
      requires Valid()
      modifies this
      ensures Valid()
      ensures isLoading == old(isLoading) && error == old(error)
      ensures var stored := storage.GetItem(ConversationsKey);
        if stored.Some? && stored.value.ConversationsJson? then
          && conversations == SortByRecency(stored.value.list)
          && |conversations| == |stored.value.list|
          && current == (if old(current).None? && conversations != [] then Some(conversations[0]) else old(current))
        else
          conversations == old(conversations) && current == old(current)
    {
      var stored := storage.GetItem(ConversationsKey);
      if stored.Some? && stored.value.ConversationsJson? {
        var list := stored.value.list;
        conversations := SortByRecency(list);
        SortKeepsMembers(list);
        if |conversations| > 0 && current.None? {
          current := Some(conversations[0]);
        }
      }
    }

    /** Selects a fresh, empty, unsaved conversation. */
    method StartNewConversation(id: string, now: int)
      modifies this
      ensures current == Some(Conversation(id, NewConversationTitle, [], now))
      ensures conversations == old(conversations) && isLoading == old(isLoading) && error == old(error)
    {
      current := Some(Conversation(id, NewConversationTitle, [], now));
    }

    /** Selects the given conversation; nothing is saved. */
    method SelectConversation(c: Conversation)
      modifies this
      ensures current == Some(c)
      ensures conversations == old(conversations) && isLoading == old(isLoading) && error == old(error)
    {
      current := Some(c);
    }

    /**
     * The synchronous first half of a send: loading starts, the error is
     * cleared, and the user's message is appended to the current conversation
     * (created if none is selected).
     */
    method BeginSend(text: string, messageId: string, conversationId: string, now: int)
      modifies this
      ensures isLoading && error.None?
      ensures current == Some(WithUserMessage(old(current), text, messageId, conversationId, now))
      ensures conversations == old(conversations)
    {
      isLoading, error := true, None;
      var c: Conversation;
      if current.None? {
        c := Conversation(conversationId, Title(text), [], now);
      } else {
        c := current.value;
      }
      c := c.(messages := c.messages + [Message(messageId, text, true, now)]);
      c := c.(lastUpdated := now);
      if |c.messages| == 1 {
        c := c.(title := Title(text));
      }
      current := Some(c);
    }

    /**
     * The second half of a successful send: the reply is appended, the
     * conversation is written into the list by id, the list is re-sorted and
     * persisted.
     */
    method CompleteSend(replyText: string, replyId: string, now: int)
      requires Valid()
      modifies this, storage
      ensures Valid()
      ensures !isLoading && error.None?
      ensures old(current).None? ==>
        current.None? && conversations == old(conversations) && storage.items == old(storage.items)
      ensures old(current).Some? ==>
        && current == Some(WithReply(old(current).value, replyText, replyId, now))
        && conversations == SortByRecency(Upsert(old(conversations), current.value))
        && storage.items == old(storage.items)[ConversationsKey := ConversationsJson(conversations)]
    {
      if current.Some? {
        var c := current.value;
        c := c.(messages := c.messages + [Message(replyId, replyText, false, now)], lastUpdated := now);
        current := Some(c);
        var k := FindIndex(conversations, c.id);
        if k != -1 {
          conversations := conversations[k := c];
        } else {
          conversations := [c] + conversations;
        }
        conversations := SortByRecency(conversations);
        storage.SetItem(ConversationsKey, ConversationsJson(conversations));
      }
      isLoading, error := false, None;
    }

    /** The rollback of a failed send: the optimistic message is removed and the error recorded. */
    method AbortSend(message: string)
      modifies this
      ensures !isLoading && error == Some(message)
      ensures current == if old(current).Some? then Some(Retracted(old(current).value)) else None
      ensures conversations == old(conversations)
    {
      if current.Some? && |current.value.messages| > 0 {
        var c := current.value;
        current := Some(c.(messages := c.messages[..|c.messages| - 1]));
      }
      isLoading, error := false, Some(message);
    }

    /**
     * `sendMessage(text, token)` run to completion with the request's outcome.
     * Returns the message of the error the source throws, or None.
     */
    method SendMessage(text: string, outcome: ChatOutcome, messageId: string, conversationId: string, sentAt: int, replyId: string, repliedAt: int)
      returns (thrown: Option<string>)
      requires Valid()
      modifies this, storage
      ensures Valid()
      ensures !isLoading && current.Some?
      // the new state, in terms of the value-level operations
      ensures var sent := WithUserMessage(old(current), text, messageId, conversationId, sentAt);
        if outcome.Answered? then
          && thrown.None? && error.None?
          && current == Some(WithReply(sent, ReplyText(outcome.assistantResponse), replyId, repliedAt))
          && conversations == SortByRecency(Upsert(old(conversations), current.value))
          && storage.items == old(storage.items)[ConversationsKey := ConversationsJson(conversations)]
        else
          && thrown == Some(FailureMessage(outcome)) && error == thrown
          && current == Some(Retracted(sent))
          && conversations == old(conversations)
          && storage.items == old(storage.items)
      // the title rule holds on both paths
      ensures current.value.title ==
        if old(current).Some? && old(current).value.messages != [] then old(current).value.title else Title(text)
      // what that amounts to for the messages and the list
      ensures var before := if old(current).Some? then old(current).value.messages else [];
        var n := |before|;
        var after := current.value.messages;
        if outcome.Answered? then
          && |after| == n + 2 && after[..n] == before
          && after[n] == Message(messageId, text, true, sentAt)
          && !after[n + 1].isUser && after[n + 1].text == ReplyText(outcome.assistantResponse)
          && current.value in conversations
          && |conversations| == |old(conversations)| + (if HasId(old(conversations), current.value.id) then 0 else 1)
        else
          after == before
      // exactly one entry for the conversation precisely when there was at most one before
      ensures outcome.Answered? ==>
        (IdCount(conversations, current.value.id) == 1 <==> IdCount(old(conversations), current.value.id) <= 1)
    {
      BeginSend(text, messageId, conversationId, sentAt);
      ghost var sent := current.value;
      if outcome.Answered? {
        CompleteSend(ReplyText(outcome.assistantResponse), replyId, repliedAt);
        var up := Upsert(old(conversations), current.value);
        SortKeepsMembers(up);
        UpsertSortedCount(old(conversations), current.value);
        thrown := None;
      } else {
        var m := FailureMessage(outcome);
        AbortSend(m);
        RetractUndoesAppend(old(current), text, messageId, conversationId, sentAt);
        thrown := Some(m);
      }
    }

    /**
     * Removes every conversation with the id; a deleted selection falls back
     * to the new most recent conversation, or to none. The list is persisted.
     */
    method DeleteConversation(id: string)
      requires Valid()
      modifies this, storage
      ensures Valid()
      ensures conversations == Without(old(conversations), id)
      ensures current == if old(current).Some? && old(current).value.id == id
                         then (if conversations == [] then None else Some(conversations[0]))
                         else old(current)
      ensures current.Some? && old(current).Some? && old(current).value.id == id ==> current.value.id != id
      ensures storage.items == old(storage.items)[ConversationsKey := ConversationsJson(conversations)]
      ensures isLoading == old(isLoading) && error == old(error)
    {
      WithoutKeepsSorted(conversations, id);
      conversations := Without(conversations, id);
      if current.Some? && current.value.id == id {
        current := if |conversations| > 0 then Some(conversations[0]) else None;
      }
      storage.SetItem(ConversationsKey, ConversationsJson(conversations));
    }

    /** Empties the list, clears the selection and removes the persisted list. */
    method ClearAllConversations()
      modifies this, storage
      ensures Valid()
      ensures conversations == [] && current.None?
      ensures isLoading == old(isLoading) && error == old(error)
      ensures storage.items == old(storage.items) - {ConversationsKey}
    {
      conversations, current := [], None;
      storage.RemoveItem(ConversationsKey);
    }

    /** Clears only the error. */
    method ClearError()
      modifies this
      ensures error.None?
      ensures conversations == old(conversations) && current == old(current) && isLoading == old(isLoading)
    {
      error := None;
    }
  }
}
