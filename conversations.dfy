/**
 * The value-level part of the conversation store (src/lib/stores/chat.js):
 * messages and conversations, the title rule, the optimistic user message,
 * the reply and its rollback, and the list operations the store applies to
 * its conversation list (findIndex, upsert by id, sort by recency, filter by id).
 */
module Conversations {
  import opened Js

  /** Titles are cut after this many characters. */
  const TitleLimit: nat := 30
  /** What a cut title ends with: three ASCII full stops. */
  const Ellipsis := "..."
  /** The title of a conversation started explicitly, before its first message. */
  const NewConversationTitle := "New Conversation"
  /** The reply shown when the server's reply text is missing or empty. */
  const ReplyFallback := "Sorry, I couldn't process your request."
  /** The error of a non-OK chat response without a `detail`. */
  const SendFailed := "Failed to send message"

  /** Timestamps are milliseconds since the epoch. */
  datatype Message = Message(id: string, text: string, isUser: bool, timestamp: int)

  datatype Conversation = Conversation(id: string, title: string, messages: seq<Message>, lastUpdated: int)

  /** How the chat request ended. */
  datatype ChatOutcome =
    | Answered(assistantResponse: Option<string>)  // response.ok; the body's assistant_response
    | HttpError(detail: Option<string>)            // !response.ok; the body's detail
    | NetworkError(reason: string)                 // fetch or response.json() threw

  // ----- Title rule -----

  /** The title a conversation takes from its first message. */
  function Title(text: string): (t: string)
    ensures |text| <= TitleLimit ==> t == text
    ensures |text| > TitleLimit ==> |t| == TitleLimit + |Ellipsis| && t[..TitleLimit] == text[..TitleLimit] && t[TitleLimit..] == Ellipsis
  {
    if |text| > TitleLimit then text[..TitleLimit] + Ellipsis else text
  }

  /** A title is never longer than the limit plus the ellipsis. */
  lemma TitleBounded(text: string)
    ensures |Title(text)| <= TitleLimit + |Ellipsis|
    ensures Title(text) == text <==> |text| <= TitleLimit || (|text| == TitleLimit + |Ellipsis| && text[TitleLimit..] == Ellipsis)
  {
  }

  /** Two long messages agreeing on their first 30 characters get the same title. */
  lemma TitleDependsOnPrefix(a: string, b: string)
    requires |a| > TitleLimit && |b| > TitleLimit
    requires a[..TitleLimit] == b[..TitleLimit]
    ensures Title(a) == Title(b)
  {
  }

  // ----- Messages of the current conversation -----

  /**
   * The current conversation after the optimistic append of a user message:
   * a fresh conversation is created when none is selected, the message is
   * appended, the conversation is stamped, and the title rule is applied when
   * the message is the conversation's first.
   */
  function WithUserMessage(current: Option<Conversation>, text: string, messageId: string, conversationId: string, now: int): (c: Conversation)
    ensures c.id == (if current.Some? then current.value.id else conversationId)
    ensures c.messages == (if current.Some? then current.value.messages else []) + [Message(messageId, text, true, now)]
    ensures c.lastUpdated == now
    ensures c.title == if current.Some? && current.value.messages != [] then current.value.title else Title(text)
  {
    var base := if current.Some? then current.value else Conversation(conversationId, Title(text), [], now);
    var appended := base.(messages := base.messages + [Message(messageId, text, true, now)], lastUpdated := now);
    if |appended.messages| == 1 then appended.(title := Title(text)) else appended
  }

  /** `data.assistant_response || fallback`: the text of the assistant's message. */
  function ReplyText(assistantResponse: Option<string>): (t: string)
    ensures t != ""
    ensures Truthy(assistantResponse) ==> t == assistantResponse.value
    ensures !Truthy(assistantResponse) ==> t == ReplyFallback
  {
    OrElse(assistantResponse, ReplyFallback)
  }

  /** The conversation after the assistant's reply is appended and the conversation stamped. */
  function WithReply(c: Conversation, text: string, replyId: string, now: int): (r: Conversation)
    ensures r.id == c.id && r.title == c.title && r.lastUpdated == now
    ensures |r.messages| == |c.messages| + 1 && r.messages[..|c.messages|] == c.messages
    ensures r.messages[|c.messages|] == Message(replyId, text, false, now)
  {
    c.(messages := c.messages + [Message(replyId, text, false, now)], lastUpdated := now)
  }

  /** The rollback of a failed send: the last message, if any, is dropped. */
  function Retracted(c: Conversation): (r: Conversation)
    ensures r.id == c.id && r.title == c.title && r.lastUpdated == c.lastUpdated
    ensures c.messages != [] ==> r.messages + [c.messages[|c.messages| - 1]] == c.messages
    ensures c.messages == [] ==> r.messages == []
  {
    if |c.messages| > 0 then c.(messages := c.messages[..|c.messages| - 1]) else c
  }

  /** A failed send leaves the conversation with exactly the messages it had before. */
  lemma RetractUndoesAppend(current: Option<Conversation>, text: string, messageId: string, conversationId: string, now: int)
    ensures Retracted(WithUserMessage(current, text, messageId, conversationId, now)).messages
            == if current.Some? then current.value.messages else []
  {
  }

  /** The error message a failed send records and throws. */
  function FailureMessage(o: ChatOutcome): (m: string)
    requires !o.Answered?
    ensures o.HttpError? ==> m != "" && (Truthy(o.detail) ==> m == o.detail.value) && (!Truthy(o.detail) ==> m == SendFailed)
    ensures o.NetworkError? ==> m == o.reason
  {
    if o.HttpError? then OrElse(o.detail, SendFailed) else o.reason
  }

  // ----- Lookup and upsert by id -----

  /** `findIndex(c => c.id === id)`: the first position holding that id, or -1. */
  function FindIndex(s: seq<Conversation>, id: string): (k: int)
    ensures -1 <= k < |s|
    ensures k >= 0 ==> s[k].id == id && forall i :: 0 <= i < k ==> s[i].id != id
    ensures k == -1 <==> forall i :: 0 <= i < |s| ==> s[i].id != id
    decreases |s|
  {
    if s == [] then -1
    else if s[0].id == id then 0
    else
      var k := FindIndex(s[1..], id);
      if k == -1 then -1 else k + 1
  }

  /** Whether some entry of the list has the given id. */
  predicate HasId(s: seq<Conversation>, id: string)
  {
    exists i :: 0 <= i < |s| && s[i].id == id
  }

  /**
   * The list after the conversation is written into it: the first entry with
   * the same id is replaced in place, or the conversation is prepended.
   */
  function Upsert(s: seq<Conversation>, c: Conversation): (r: seq<Conversation>)
    ensures c in r
    ensures |r| == if HasId(s, c.id) then |s| else |s| + 1
    ensures HasId(s, c.id) ==> var k := FindIndex(s, c.id);
              r[k] == c && forall i :: 0 <= i < |s| && i != k ==> r[i] == s[i]
    ensures !HasId(s, c.id) ==> r[0] == c && r[1..] == s
  {
    var k := FindIndex(s, c.id);
    if k != -1 then
      var r := s[k := c];
      assert r[k] == c;
      r
    else [c] + s
  }

  // ----- Ordering by recency -----

  /** Most recently updated first. */
  predicate SortedByRecency(s: seq<Conversation>)
  {
    forall i, j :: 0 <= i < j < |s| ==> s[i].lastUpdated >= s[j].lastUpdated
  }

  /** Putting a conversation at least as recent as the head in front keeps the order. */
  lemma SortedPrepend(x: Conversation, s: seq<Conversation>)
    requires SortedByRecency(s)
    requires s != [] ==> x.lastUpdated >= s[0].lastUpdated
    ensures SortedByRecency([x] + s)
  {
    var r := [x] + s;
    forall i, j | 0 <= i < j < |r| ensures r[i].lastUpdated >= r[j].lastUpdated {
      assert r[j] == s[j - 1];
      if i == 0 {
        assert s[0].lastUpdated >= s[j - 1].lastUpdated;
      } else {
        assert r[i] == s[i - 1];
      }
    }
  }

  /**
   * One step of a stable insertion sort: `c`, which came before every element of
   * `s`, goes in front of the first element not more recent than itself.
   */
  function InsertByRecency(c: Conversation, s: seq<Conversation>): (r: seq<Conversation>)
    requires SortedByRecency(s)
    ensures SortedByRecency(r)
    ensures multiset(r) == multiset(s) + multiset{c}
    ensures r[0] == c || r[0] == s[0]
    decreases |s|
  {
    if s == [] || c.lastUpdated >= s[0].lastUpdated then
      SortedPrepend(c, s);
      [c] + s
    else
      var rest := InsertByRecency(c, s[1..]);
      assert s == [s[0]] + s[1..];
      assert multiset([s[0]] + rest) == multiset{s[0]} + multiset(rest);
      SortedPrepend(s[0], rest);
      [s[0]] + rest
  }

  /**
   * `list.sort((a, b) => b.lastUpdated - a.lastUpdated)`: the stable sort,
   * most recent first, that both loading and a successful send apply.
   */
  function SortByRecency(s: seq<Conversation>): (r: seq<Conversation>)
    ensures SortedByRecency(r)
    ensures multiset(r) == multiset(s)
    decreases |s|
  {
    if s == [] then []
    else
      assert s == [s[0]] + s[1..];
      InsertByRecency(s[0], SortByRecency(s[1..]))
  }

  /** Sorting keeps the length and the members of the list. */
  lemma SortKeepsMembers(s: seq<Conversation>)
    ensures |SortByRecency(s)| == |s|
    ensures forall c :: c in SortByRecency(s) <==> c in s
  {
    var r := SortByRecency(s);
    assert |multiset(r)| == |multiset(s)|;
    forall c ensures c in r <==> c in s {
      assert c in r <==> c in multiset(r);
    }
  }

  /** A list that is already in order is left as it is. */
  lemma {:induction false} SortedIsFixpoint(s: seq<Conversation>)
    requires SortedByRecency(s)
    ensures SortByRecency(s) == s
    decreases |s|
  {
    if s != [] {
      SortedIsFixpoint(s[1..]);
      assert s == [s[0]] + s[1..];
    }
  }

  /** Sorting twice is sorting once: reloading a persisted list does not reorder it. */
  lemma SortIdempotent(s: seq<Conversation>)
    ensures SortByRecency(SortByRecency(s)) == SortByRecency(s)
  {
    SortedIsFixpoint(SortByRecency(s));
  }

  // ----- Filtering by id -----

  /** `filter(c => c.id !== id)`: every entry whose id differs, in the original order. */
  function Without(s: seq<Conversation>, id: string): (r: seq<Conversation>)
    ensures forall x :: x in r <==> x in s && x.id != id
    ensures |r| <= |s|
    ensures !HasId(s, id) ==> r == s
    decreases |s|
  {
    if s == [] then []
    else
      var rest := Without(s[1..], id);
      assert s == [s[0]] + s[1..];
      assert forall i :: 0 < i < |s| ==> s[i] == s[1..][i - 1];
      if s[0].id == id then rest else [s[0]] + rest
  }

  /** `r` can be obtained from `s` by deleting entries. */
  ghost predicate IsSubsequence(r: seq<Conversation>, s: seq<Conversation>)
    decreases |s|
  {
    r == [] || (s != [] && ((r[0] == s[0] && IsSubsequence(r[1..], s[1..])) || IsSubsequence(r, s[1..])))
  }

  /** The entries that survive a delete keep their relative order. */
  lemma {:induction false} WithoutIsSubsequence(s: seq<Conversation>, id: string)
    ensures IsSubsequence(Without(s, id), s)
    decreases |s|
  {
    if s != [] {
      WithoutIsSubsequence(s[1..], id);
    }
  }

  /** A delete keeps every copy of each entry whose id differs. */
  lemma {:induction false} WithoutKeepsCopies(s: seq<Conversation>, id: string, x: Conversation)
    requires x.id != id
    ensures multiset(Without(s, id))[x] == multiset(s)[x]
    decreases |s|
  {
    if s != [] {
      WithoutKeepsCopies(s[1..], id, x);
      assert s == [s[0]] + s[1..];
    }
  }

  /** Deleting from a list in recency order leaves it in recency order. */
  lemma {:induction false} WithoutKeepsSorted(s: seq<Conversation>, id: string)
    requires SortedByRecency(s)
    ensures SortedByRecency(Without(s, id))
    decreases |s|
  {
    if s != [] {
      WithoutKeepsSorted(s[1..], id);
      var rest := Without(s[1..], id);
      if rest != [] {
        var i :| 0 <= i < |s[1..]| && s[1..][i] == rest[0];
        assert s[i + 1] == rest[0];
      }
      if s[0].id != id {
        SortedPrepend(s[0], rest);
      }
    }
  }

  // ----- How many entries carry an id -----

  function IdCount(s: seq<Conversation>, id: string): (n: nat)
    ensures n <= |s|
    ensures n == 0 <==> !HasId(s, id)
    decreases |s|
  {
    if s == [] then 0
    else
      assert forall i :: 0 < i < |s| ==> s[i] == s[1..][i - 1];
      (if s[0].id == id then 1 else 0) + IdCount(s[1..], id)
  }

  lemma {:induction false} IdCountInsert(c: Conversation, s: seq<Conversation>, id: string)
    requires SortedByRecency(s)
    ensures IdCount(InsertByRecency(c, s), id) == IdCount(s, id) + (if c.id == id then 1 else 0)
    decreases |s|
  {
    if s != [] && c.lastUpdated < s[0].lastUpdated {
      IdCountInsert(c, s[1..], id);
      var r := InsertByRecency(c, s);
      assert r[1..] == InsertByRecency(c, s[1..]);
    } else {
      assert ([c] + s)[1..] == s;
    }
  }

  /** Sorting neither adds nor drops an entry with a given id. */
  lemma {:induction false} IdCountSort(s: seq<Conversation>, id: string)
    ensures IdCount(SortByRecency(s), id) == IdCount(s, id)
    decreases |s|
  {
    if s != [] {
      IdCountSort(s[1..], id);
      IdCountInsert(s[0], SortByRecency(s[1..]), id);
    }
  }

  lemma {:induction false} IdCountReplace(s: seq<Conversation>, k: nat, c: Conversation)
    requires k < |s| && s[k].id == c.id
    ensures IdCount(s[k := c], c.id) == IdCount(s, c.id)
    decreases k
  {
    if k == 0 {
      assert s[k := c][1..] == s[1..];
    } else {
      IdCountReplace(s[1..], k - 1, c);
      assert s[k := c][1..] == s[1..][k - 1 := c];
    }
  }

  /**
   * After a successful send the list holds one entry with the conversation's
   * id if it held none, and as many as before otherwise: exactly one precisely
   * when it held at most one before.
   */
  lemma UpsertSortedCount(s: seq<Conversation>, c: Conversation)
    ensures IdCount(SortByRecency(Upsert(s, c)), c.id) == if IdCount(s, c.id) == 0 then 1 else IdCount(s, c.id)
  {
    IdCountSort(Upsert(s, c), c.id);
    var k := FindIndex(s, c.id);
    if k != -1 {
      IdCountReplace(s, k, c);
    } else {
      assert ([c] + s)[1..] == s;
    }
  }
}
