/** The conversation list: the user's messages, newest first, grouped into
    one summary per counterpart holding the newest message and the number of
    the counterpart's messages still unread. */
module Messages {

  import opened Database
  import Seqs

  /** The list query's filter: the user sent or received the message. */
  predicate Involves(m: Message, userId: Id)
  {
    m.senderId == userId || m.receiverId == userId
  }

  /** The user's messages, from a table already ordered by creation time,
      newest first (the query's `order`). */
  function UserMessages(table: seq<Message>, userId: Id): (messages: seq<Message>)
  {
    Seqs.Filter(table, (m: Message) => Involves(m, userId))
  }

  /** The other participant of a message, seen from `userId`. */
  function Counterpart(m: Message, userId: Id): (other: Id)
  {
    if m.senderId == userId then m.receiverId else m.senderId
  }

  /** A message that counts towards the user's unread badge. */
  predicate IsUnreadFor(m: Message, userId: Id)
  {
    m.receiverId == userId && !m.isRead
  }

  /** The counterpart of each message, message by message. */
  function Counterparts(messages: seq<Message>, userId: Id): (ids: seq<Id>)
    ensures |ids| == |messages|
  {
    seq(|messages|, k requires 0 <= k < |messages| => Counterpart(messages[k], userId))
  }

  /** The counterparts in order of their first message. */
  function CounterpartOrder(messages: seq<Message>, userId: Id): (order: seq<Id>)
  {
    Seqs.Distinct(Counterparts(messages, userId))
  }

  /** The first message exchanged with `other`. */
  function FirstWith(messages: seq<Message>, userId: Id, other: Id): (m: Message)
    requires other in Counterparts(messages, userId)
  {
    messages[Seqs.FirstIndex(Counterparts(messages, userId), other)]
  }

  /** The `unreadCount++` of the loop over the whole sequence: the number of
      unread messages received in the exchange with `other`. */
  function UnreadCount(messages: seq<Message>, userId: Id, other: Id): (n: nat)
  {
    if messages == [] then 0
    else
      var last := messages[|messages| - 1];
      UnreadCount(messages[..|messages| - 1], userId, other)
        + (if Counterpart(last, userId) == other && IsUnreadFor(last, userId) then 1 else 0)
  }

  /** The unread count is the number of messages `other` sent to the user
      that are not read. Messages the user sent never count, except one the
      user sent to themselves, which is also received. */
  lemma {:induction false} UnreadCountIsReceivedUnread(messages: seq<Message>, userId: Id, other: Id)
    ensures UnreadCount(messages, userId, other) ==
      |Seqs.Filter(messages, (m: Message) => m.receiverId == userId && !m.isRead && m.senderId == other)|
  {
    if messages != [] {
      var init, last := messages[..|messages| - 1], messages[|messages| - 1];
      var keep := (m: Message) => m.receiverId == userId && !m.isRead && m.senderId == other;
      UnreadCountIsReceivedUnread(init, userId, other);
      assert messages == init + [last];
      Seqs.FilterSnoc(init, last, keep);
      CountedIffReceivedUnread(last, userId, other);
    }
  }

  /** One message adds to the count exactly when `other` sent it to the user
      and it is unread. */
  lemma CountedIffReceivedUnread(m: Message, userId: Id, other: Id)
    ensures (Counterpart(m, userId) == other && IsUnreadFor(m, userId))
      <==> (m.receiverId == userId && !m.isRead && m.senderId == other)
  {
  }

  /** The summary the list shows for `other`. */
  function Summary(messages: seq<Message>, userId: Id, other: Id): (c: Conversation)
    requires other in Counterparts(messages, userId)
  {
    Conversation(other, FirstWith(messages, userId, other), UnreadCount(messages, userId, other))
  }

  /** The list the page shows: one summary per counterpart, in order of
      each counterpart's first message. */
  function Conversations(messages: seq<Message>, userId: Id): (conversations: seq<Conversation>)
  {
    var order := CounterpartOrder(messages, userId);
    Seqs.DistinctElements(Counterparts(messages, userId));
    seq(|order|, k requires 0 <= k < |order| => Summary(messages, userId, order[k]))
  }

  /** The loop's invariant: `order` lists the counterparts of `prefix` in
      order of first message, and the map holds each one's summary. */
  ghost predicate Grouped(byCounterpart: map<Id, Conversation>, order: seq<Id>, prefix: seq<Message>, userId: Id)
  {
    && order == CounterpartOrder(prefix, userId)
    && (forall k :: k in order <==> k in Counterparts(prefix, userId))
    && (forall k :: k in byCounterpart <==> k in Counterparts(prefix, userId))
    && (forall k :: k in byCounterpart ==> byCounterpart[k] == Summary(prefix, userId, k))
  }

  /** The page's grouping loop. A map keyed by counterpart is filled in
      message order: a counterpart seen for the first time gets a summary
      holding this message and a zero count, and each unread message
      received bumps its counterpart's count. The result lists the summaries
      in the map's insertion order. */
  method GroupConversations(messages: seq<Message>, userId: Id) returns (conversations: seq<Conversation>)
    ensures conversations == Conversations(messages, userId)
  {
    var byCounterpart: map<Id, Conversation> := map[];
    var order: seq<Id> := [];
    var i := 0;
    GroupedStart(messages, userId);
    while i < |messages|
      invariant 0 <= i <= |messages|
      invariant Grouped(byCounterpart, order, messages[..i], userId)
    {
      ghost var before, orderBefore := byCounterpart, order;
      byCounterpart, order := AddMessage(byCounterpart, order, messages[i], userId);
      GroupedStep(messages, userId, i, before, orderBefore, byCounterpart, order);
      i := i + 1;
    }
    GroupedListsSummaries(byCounterpart, order, messages, userId);
    conversations := ValuesInOrder(byCounterpart, order);
  }

  /** `Array.from(map.values())`: the values of a map in the order its keys
      were inserted. */
  function ValuesInOrder(m: map<Id, Conversation>, keys: seq<Id>): (values: seq<Conversation>)
    requires forall k :: 0 <= k < |keys| ==> keys[k] in m
    ensures |values| == |keys|
    ensures forall k :: 0 <= k < |keys| ==> values[k] == m[keys[k]]
  {
    seq(|keys|, k requires 0 <= k < |keys| => m[keys[k]])
  }

  /** At the end of the loop the map holds a summary for every counterpart
      in `order`. */
  lemma GroupedListsSummaries(byCounterpart: map<Id, Conversation>, order: seq<Id>, messages: seq<Message>, userId: Id)
    requires Grouped(byCounterpart, order, messages[..|messages|], userId)
    ensures forall k :: 0 <= k < |order| ==> order[k] in byCounterpart
    ensures ValuesInOrder(byCounterpart, order) == Conversations(messages, userId)
  {
    assert messages[..|messages|] == messages;
    var cs := Conversations(messages, userId);
    forall k | 0 <= k < |order| ensures ValuesInOrder(byCounterpart, order)[k] == cs[k] {
      ConversationAt(messages, userId, k);
    }
  }

  /** Before the loop: no message, no counterpart, an empty map. */
  lemma GroupedStart(messages: seq<Message>, userId: Id)
    ensures Grouped(map[], [], messages[..0], userId)
  {
    assert messages[..0] == [];
  }

  /** What one message does to the map and its key order: only the entry
      of the message's counterpart `c` changes; it is created with this
      message when new, and counts the message when it is unread. */
  ghost predicate Absorbed(before: map<Id, Conversation>, orderBefore: seq<Id>,
                           after: map<Id, Conversation>, orderAfter: seq<Id>, m: Message, userId: Id)
  {
    var c := Counterpart(m, userId);
    var bump := if IsUnreadFor(m, userId) then 1 else 0;
    && orderAfter == (if c in before then orderBefore else orderBefore + [c])
    && c in after
    && after[c] == (if c in before then before[c].(unreadCount := before[c].unreadCount + bump)
                    else Conversation(c, m, bump))
    && (forall k :: k != c ==> (k in after <==> k in before))
    && (forall k :: k != c && k in before ==> after[k] == before[k])
  }

  /** The body of the page's `forEach` for one message. */
  method AddMessage(byCounterpart: map<Id, Conversation>, order: seq<Id>, msg: Message, userId: Id)
    returns (updated: map<Id, Conversation>, updatedOrder: seq<Id>)
    ensures Absorbed(byCounterpart, order, updated, updatedOrder, msg, userId)
  {
    updated, updatedOrder := byCounterpart, order;
    var otherId := if msg.senderId == userId then msg.receiverId else msg.senderId;
    if otherId !in updated {
      updated := updated[otherId := Conversation(otherId, msg, 0)];
      updatedOrder := updatedOrder + [otherId];
    }
    if msg.receiverId == userId && !msg.isRead {
      var conv := updated[otherId];
      updated := updated[otherId := conv.(unreadCount := conv.unreadCount + 1)];
    }
  }

  /** One turn of the loop keeps the invariant. */
  lemma GroupedStep(messages: seq<Message>, userId: Id, i: nat,
                    before: map<Id, Conversation>, orderBefore: seq<Id>,
                    after: map<Id, Conversation>, orderAfter: seq<Id>)
    requires i < |messages|
    requires Grouped(before, orderBefore, messages[..i], userId)
    requires Absorbed(before, orderBefore, after, orderAfter, messages[i], userId)
    ensures Grouped(after, orderAfter, messages[..i + 1], userId)
  {
    KeysStep(messages, userId, i, before, orderBefore, after, orderAfter);
    forall k | k in after ensures after[k] == Summary(messages[..i + 1], userId, k) {
      EntryStep(messages, userId, i, before, orderBefore, after, orderAfter, k);
    }
  }

  /** One turn of the loop keeps the keys and their order in step with the
      counterparts. */
  lemma KeysStep(messages: seq<Message>, userId: Id, i: nat,
                 before: map<Id, Conversation>, orderBefore: seq<Id>,
                 after: map<Id, Conversation>, orderAfter: seq<Id>)
    requires i < |messages|
    requires orderBefore == CounterpartOrder(messages[..i], userId)
    requires forall x :: x in before <==> x in Counterparts(messages[..i], userId)
    requires Absorbed(before, orderBefore, after, orderAfter, messages[i], userId)
    ensures orderAfter == CounterpartOrder(messages[..i + 1], userId)
    ensures forall x :: x in orderAfter <==> x in Counterparts(messages[..i + 1], userId)
    ensures forall x :: x in after <==> x in Counterparts(messages[..i + 1], userId)
  {
    PrefixStep(messages, userId, i);
    Seqs.DistinctElements(Counterparts(messages[..i + 1], userId));
  }

  /** One entry of the map after one turn of the loop. */
  lemma EntryStep(messages: seq<Message>, userId: Id, i: nat,
                  before: map<Id, Conversation>, orderBefore: seq<Id>,
                  after: map<Id, Conversation>, orderAfter: seq<Id>, k: Id)
    requires i < |messages|
    requires forall x :: x in before <==> x in Counterparts(messages[..i], userId)
    requires forall x :: x in before ==> before[x] == Summary(messages[..i], userId, x)
    requires Absorbed(before, orderBefore, after, orderAfter, messages[i], userId)
    requires k in after
    ensures k in Counterparts(messages[..i + 1], userId)
    ensures after[k] == Summary(messages[..i + 1], userId, k)
  {
    var prefix, m := messages[..i], messages[i];
    var c := Counterpart(m, userId);
    PrefixStep(messages, userId, i);
    FirstWithStep(messages, userId, i, k);
    UnreadCountStep(messages, userId, i, k);
    if k != c {
      assert before[k] == Summary(prefix, userId, k);
    } else if c in before {
      assert before[c] == Summary(prefix, userId, c);
    } else {
      NoUnreadFromStranger(prefix, userId, c);
    }
  }

  /** Nothing is unread from someone the messages never involve. */
  lemma {:induction false} NoUnreadFromStranger(messages: seq<Message>, userId: Id, other: Id)
    requires other !in Counterparts(messages, userId)
    ensures UnreadCount(messages, userId, other) == 0
  {
    if messages != [] {
      var init := messages[..|messages| - 1];
      assert Counterparts(messages, userId)[|messages| - 1] == Counterpart(messages[|messages| - 1], userId);
      assert forall j :: 0 <= j < |init| ==> Counterparts(init, userId)[j] == Counterparts(messages, userId)[j];
      NoUnreadFromStranger(init, userId, other);
    }
  }

  /** Adding a message adds its counterpart at the end. */
  lemma CounterpartsStep(messages: seq<Message>, userId: Id, i: nat)
    requires i < |messages|
    ensures Counterparts(messages[..i + 1], userId)
      == Counterparts(messages[..i], userId) + [Counterpart(messages[i], userId)]
  {
  }

  /** How the counterparts of a prefix change when the next message is added. */
  lemma PrefixStep(messages: seq<Message>, userId: Id, i: nat)
    requires i < |messages|
    ensures var prefix, next := messages[..i], messages[..i + 1];
      var c := Counterpart(messages[i], userId);
      && Counterparts(next, userId) == Counterparts(prefix, userId) + [c]
      && CounterpartOrder(next, userId) ==
           (if c in Counterparts(prefix, userId) then CounterpartOrder(prefix, userId)
            else CounterpartOrder(prefix, userId) + [c])
  {
    var prefix, next := messages[..i], messages[..i + 1];
    var ids, c := Counterparts(prefix, userId), Counterpart(messages[i], userId);
    CounterpartsStep(messages, userId, i);
    assert (ids + [c])[..|ids|] == ids;
    Seqs.DistinctElements(ids);
  }

  /** The first message exchanged with a counterpart stays the same when a
      message is added, and is the added message for a new counterpart. */
  lemma FirstWithStep(messages: seq<Message>, userId: Id, i: nat, other: Id)
    requires i < |messages|
    requires other in Counterparts(messages[..i + 1], userId)
    ensures other in Counterparts(messages[..i], userId) ==>
      FirstWith(messages[..i + 1], userId, other) == FirstWith(messages[..i], userId, other)
    ensures other !in Counterparts(messages[..i], userId) ==>
      FirstWith(messages[..i + 1], userId, other) == messages[i]
  {
    CounterpartsStep(messages, userId, i);
    var ids := Counterparts(messages[..i], userId);
    var c := Counterpart(messages[i], userId);
    if other in ids {
      Seqs.FirstIndexSnoc(ids, c, other);
    } else {
      assert (ids + [c])[|ids|] == other;
    }
  }

  /** The unread count of a counterpart grows by one when the added message
      is an unread message from it, and stays the same otherwise. */
  lemma UnreadCountStep(messages: seq<Message>, userId: Id, i: nat, other: Id)
    requires i < |messages|
    ensures UnreadCount(messages[..i + 1], userId, other) == UnreadCount(messages[..i], userId, other)
      + (if Counterpart(messages[i], userId) == other && IsUnreadFor(messages[i], userId) then 1 else 0)
  {
    assert messages[..i + 1][..i] == messages[..i];
  }

  /** The conversation at position `k` of the list is the summary of the
      `k`-th counterpart in order of first message. */
  lemma ConversationAt(messages: seq<Message>, userId: Id, k: nat)
    requires k < |Conversations(messages, userId)|
    ensures |Conversations(messages, userId)| == |CounterpartOrder(messages, userId)|
    ensures CounterpartOrder(messages, userId)[k] in Counterparts(messages, userId)
    ensures Conversations(messages, userId)[k] == Summary(messages, userId, CounterpartOrder(messages, userId)[k])
  {
    Seqs.DistinctElements(Counterparts(messages, userId));
  }

  /** No two conversations of the list have the same counterpart. */
  lemma ConversationsDistinct(messages: seq<Message>, userId: Id)
    ensures var cs := Conversations(messages, userId);
      forall a, b :: 0 <= a < b < |cs| ==> cs[a].otherUserId != cs[b].otherUserId
  {
    var cs := Conversations(messages, userId);
    Seqs.DistinctElements(Counterparts(messages, userId));
    forall a, b | 0 <= a < b < |cs| ensures cs[a].otherUserId != cs[b].otherUserId {
      ConversationAt(messages, userId, a);
      ConversationAt(messages, userId, b);
    }
  }

  /** Everyone the user exchanged a message with has a conversation. */
  lemma EveryCounterpartListed(messages: seq<Message>, userId: Id, j: nat)
    requires j < |messages|
    ensures exists k :: (0 <= k < |Conversations(messages, userId)|
      && Conversations(messages, userId)[k].otherUserId == Counterpart(messages[j], userId))
  {
    var ids := Counterparts(messages, userId);
    var order := CounterpartOrder(messages, userId);
    Seqs.DistinctElements(ids);
    assert ids[j] in order;
    var k :| 0 <= k < |order| && order[k] == ids[j];
    ConversationAt(messages, userId, k);
  }

  /** Every conversation is with someone the user exchanged a message with;
      without messages there is none. */
  lemma OnlyCounterpartsListed(messages: seq<Message>, userId: Id, k: nat)
    requires k < |Conversations(messages, userId)|
    ensures exists j :: (0 <= j < |messages|
      && Counterpart(messages[j], userId) == Conversations(messages, userId)[k].otherUserId)
  {
    var ids := Counterparts(messages, userId);
    ConversationAt(messages, userId, k);
    var j :| 0 <= j < |ids| && ids[j] == CounterpartOrder(messages, userId)[k];
    assert Counterpart(messages[j], userId) == ids[j];
  }

  /** Without messages the list is empty. */
  lemma NoMessagesNoConversations(userId: Id)
    ensures Conversations([], userId) == []
  {
    assert Counterparts([], userId) == [];
  }

  /** A conversation's message is one exchanged with its counterpart; with
      the messages sorted newest first it is the newest such message. */
  lemma LastMessageIsNewest(messages: seq<Message>, userId: Id, k: nat)
    requires k < |Conversations(messages, userId)|
    ensures var c := Conversations(messages, userId)[k];
      c.lastMessage in messages && Counterpart(c.lastMessage, userId) == c.otherUserId
    ensures var c := Conversations(messages, userId)[k];
      Seqs.Descending(messages, (m: Message) => m.createdAt) ==>
        forall j :: 0 <= j < |messages| && Counterpart(messages[j], userId) == c.otherUserId ==>
          c.lastMessage.createdAt >= messages[j].createdAt
  {
    var ids := Counterparts(messages, userId);
    var order := CounterpartOrder(messages, userId);
    Seqs.DistinctElements(ids);
    var other := order[k];
    var first := Seqs.FirstIndex(ids, other);
    assert Conversations(messages, userId)[k] == Summary(messages, userId, other);
    forall j | 0 <= j < |messages| && Counterpart(messages[j], userId) == other
      ensures Seqs.Descending(messages, (m: Message) => m.createdAt) ==> messages[first].createdAt >= messages[j].createdAt
    {
      assert ids[j] == other;
      assert first <= j;
    }
  }

  /** A conversation's unread count is the number of messages its
      counterpart sent to the user that are not read. */
  lemma ConversationUnreadCount(messages: seq<Message>, userId: Id, k: nat)
    requires k < |Conversations(messages, userId)|
    ensures var c := Conversations(messages, userId)[k];
      c.unreadCount == |Seqs.Filter(messages, (m: Message) =>
        m.receiverId == userId && !m.isRead && m.senderId == c.otherUserId)|
  {
    ConversationAt(messages, userId, k);
    UnreadCountIsReceivedUnread(messages, userId, CounterpartOrder(messages, userId)[k]);
  }

  /** A message the user sent to someone else never counts: appending one
      leaves every unread count as it was. */
  lemma SentMessageNeverCounts(messages: seq<Message>, userId: Id, other: Id, m: Message)
    requires m.senderId == userId && m.receiverId != userId
    ensures UnreadCount(messages + [m], userId, other) == UnreadCount(messages, userId, other)
  {
    assert (messages + [m])[..|messages|] == messages;
  }

  /** With the messages sorted newest first, the conversations come out
      sorted by their message, newest first. */
  lemma ConversationsNewestFirst(messages: seq<Message>, userId: Id)
    requires Seqs.Descending(messages, (m: Message) => m.createdAt)
    ensures Seqs.Descending(Conversations(messages, userId), (c: Conversation) => c.lastMessage.createdAt)
  {
    var ids := Counterparts(messages, userId);
    var order := CounterpartOrder(messages, userId);
    var cs := Conversations(messages, userId);
    Seqs.DistinctElements(ids);
    forall a, b | 0 <= a < b < |cs| ensures cs[a].lastMessage.createdAt >= cs[b].lastMessage.createdAt {
      Seqs.DistinctFollowsFirstOccurrence(ids, a, b);
      assert cs[a] == Summary(messages, userId, order[a]);
      assert cs[b] == Summary(messages, userId, order[b]);
    }
  }
}
