/** The chat page: the two-party thread, marking the counterpart's messages
    read, the send guard and payload, and the day separators. */
module Chat {

  import opened Database
  import Seqs
  import JsText
  import Messages

  /** The thread query's filter: messages between the user and the
      recipient, in either direction. */
  predicate InThread(m: Message, userId: Id, recipientId: Id)
  {
    (m.senderId == userId && m.receiverId == recipientId)
    || (m.senderId == recipientId && m.receiverId == userId)
  }

  /** The thread, from a table already ordered by creation time, oldest first
      (the query's `order`). */
  function Thread(table: seq<Message>, userId: Id, recipientId: Id): (thread: seq<Message>)
  {
    Seqs.Filter(table, (m: Message) => InThread(m, userId, recipientId))
  }

  /** The thread holds exactly the messages between the two, in table order,
      so oldest first. */
  lemma ThreadExact(table: seq<Message>, userId: Id, recipientId: Id)
    ensures forall m :: m in Thread(table, userId, recipientId) <==>
      m in table && ((m.senderId == userId && m.receiverId == recipientId)
                     || (m.senderId == recipientId && m.receiverId == userId))
    ensures Seqs.IsSubsequence(Thread(table, userId, recipientId), table)
    ensures Seqs.Ascending(table, (m: Message) => m.createdAt)
      ==> Seqs.Ascending(Thread(table, userId, recipientId), (m: Message) => m.createdAt)
  {
    var keep := (m: Message) => InThread(m, userId, recipientId);
    forall m | m in table && keep(m) ensures m in Thread(table, userId, recipientId) {
      var k :| 0 <= k < |table| && table[k] == m;
    }
    Seqs.FilterIsSubsequence(table, keep);
    if Seqs.Ascending(table, (m: Message) => m.createdAt) {
      Seqs.FilterKeepsAscending(table, keep, (m: Message) => m.createdAt);
    }
  }

  /** The thread with `recipientId` is the user's conversation with
      `recipientId`: every message in it has that counterpart, and every
      message of the user's with that counterpart is in it. */
  lemma ThreadIsConversation(m: Message, userId: Id, recipientId: Id)
    ensures InThread(m, userId, recipientId) ==> Messages.Counterpart(m, userId) == recipientId
    ensures (m.senderId == userId || m.receiverId == userId) && Messages.Counterpart(m, userId) == recipientId
      ==> InThread(m, userId, recipientId)
  {
  }

  /** A bubble is the user's own when the user sent it; in a thread with
      someone else, any other bubble was sent by the recipient to the user. */
  predicate IsOwn(m: Message, userId: Id)
  {
    m.senderId == userId
  }

  lemma NotOwnIsFromRecipient(m: Message, userId: Id, recipientId: Id)
    requires InThread(m, userId, recipientId)
    ensures !IsOwn(m, userId) ==> m.senderId == recipientId && m.receiverId == userId
    ensures IsOwn(m, userId) ==> m.receiverId == recipientId || m.senderId == recipientId
  {
  }

  /** The mark-read update on one row: a message the recipient sent to the
      user becomes read. */
  function MarkOne(m: Message, userId: Id, recipientId: Id): (marked: Message)
  {
    if m.receiverId == userId && m.senderId == recipientId then m.(isRead := true) else m
  }

  /** The mark-read update on the whole table: `is_read` becomes true on the
      messages the recipient sent to the user; nothing else changes. */
  function MarkedRead(table: seq<Message>, userId: Id, recipientId: Id): (marked: seq<Message>)
    ensures |marked| == |table|
    ensures forall k :: 0 <= k < |table| ==> marked[k] == table[k].(isRead := marked[k].isRead)
    ensures forall k :: 0 <= k < |table| ==>
      (marked[k].isRead <==> table[k].isRead || (table[k].receiverId == userId && table[k].senderId == recipientId))
  {
    seq(|table|, k requires 0 <= k < |table| => MarkOne(table[k], userId, recipientId))
  }

  /** Marking read again changes nothing, and never makes a message unread. */
  lemma MarkedReadIdempotent(table: seq<Message>, userId: Id, recipientId: Id)
    ensures MarkedRead(MarkedRead(table, userId, recipientId), userId, recipientId)
      == MarkedRead(table, userId, recipientId)
    ensures forall k :: 0 <= k < |table| && table[k].isRead ==> MarkedRead(table, userId, recipientId)[k].isRead
  {
  }

  /** Marking read leaves every message's counterpart as it was. */
  lemma MarkedReadKeepsCounterparts(table: seq<Message>, userId: Id, recipientId: Id)
    ensures Messages.Counterparts(MarkedRead(table, userId, recipientId), userId)
      == Messages.Counterparts(table, userId)
  {
    var marked := MarkedRead(table, userId, recipientId);
    assert forall k :: 0 <= k < |table| ==>
      Messages.Counterparts(marked, userId)[k] == Messages.Counterparts(table, userId)[k];
  }

  lemma MarkedReadPrefix(table: seq<Message>, userId: Id, recipientId: Id, n: nat)
    requires n <= |table|
    ensures MarkedRead(table, userId, recipientId)[..n] == MarkedRead(table[..n], userId, recipientId)
  {
  }

  /** After marking read, nothing from the recipient is unread, and every
      other counterpart's unread count is what it was. */
  lemma {:induction false} MarkedReadUnreadCounts(table: seq<Message>, userId: Id, recipientId: Id, other: Id)
    ensures Messages.UnreadCount(MarkedRead(table, userId, recipientId), userId, other)
      == if other == recipientId then 0 else Messages.UnreadCount(table, userId, other)
  {
    if table != [] {
      var n := |table|;
      var marked := MarkedRead(table, userId, recipientId);
      MarkedReadUnreadCounts(table[..n - 1], userId, recipientId, other);
      MarkedReadPrefix(table, userId, recipientId, n - 1);
      assert Messages.Counterpart(marked[n - 1], userId) == Messages.Counterpart(table[n - 1], userId);
    }
  }

  /** Mark-read seen from the conversation list: the same conversations in
      the same order, the recipient's with nothing unread and every other
      one's count unchanged. */
  lemma MarkReadClearsConversation(table: seq<Message>, userId: Id, recipientId: Id)
    ensures |Messages.Conversations(MarkedRead(table, userId, recipientId), userId)|
      == |Messages.Conversations(table, userId)|
    ensures forall k :: 0 <= k < |Messages.Conversations(table, userId)| ==>
      var before := Messages.Conversations(table, userId)[k];
      var after := Messages.Conversations(MarkedRead(table, userId, recipientId), userId)[k];
      && after.otherUserId == before.otherUserId
      && after.lastMessage == MarkOne(before.lastMessage, userId, recipientId)
      && after.unreadCount == (if before.otherUserId == recipientId then 0 else before.unreadCount)
  {
    var marked := MarkedRead(table, userId, recipientId);
    MarkedReadKeepsCounterparts(table, userId, recipientId);
    forall k | 0 <= k < |Messages.Conversations(table, userId)|
      ensures var before := Messages.Conversations(table, userId)[k];
        var after := Messages.Conversations(marked, userId)[k];
        && after.otherUserId == before.otherUserId
        && after.lastMessage == MarkOne(before.lastMessage, userId, recipientId)
        && after.unreadCount == (if before.otherUserId == recipientId then 0 else before.unreadCount)
    {
      Messages.ConversationAt(table, userId, k);
      Messages.ConversationAt(marked, userId, k);
      MarkedReadUnreadCounts(table, userId, recipientId, Messages.CounterpartOrder(table, userId)[k]);
    }
  }

  /** Marking read works row by row, so it splits over a concatenation. */
  lemma MarkedReadAppend(a: seq<Message>, b: seq<Message>, userId: Id, recipientId: Id)
    ensures MarkedRead(a + b, userId, recipientId) == MarkedRead(a, userId, recipientId) + MarkedRead(b, userId, recipientId)
  {
  }

  /** Marking read and the conversation list's query commute: the list
      re-read after the update is the old list with the recipient's messages
      to the user marked read. Marking changes only `is_read`, which the
      list's filter does not look at. */
  lemma {:induction false} MarkedReadCommutesWithUserMessages(table: seq<Message>, userId: Id, recipientId: Id, viewer: Id)
    ensures Messages.UserMessages(MarkedRead(table, userId, recipientId), viewer)
      == MarkedRead(Messages.UserMessages(table, viewer), userId, recipientId)
  {
    if table != [] {
      var head := if Messages.Involves(table[0], viewer) then [table[0]] else [];
      var rest := Messages.UserMessages(table[1..], viewer);
      MarkedReadFirstStep(table, userId, recipientId, viewer);
      MarkedReadCommutesWithUserMessages(table[1..], userId, recipientId, viewer);
      MarkedReadAppend(head, rest, userId, recipientId);
      assert Messages.UserMessages(table, viewer) == head + rest;
    }
  }

  /** The first row's share of the list query after marking read. */
  lemma MarkedReadFirstStep(table: seq<Message>, userId: Id, recipientId: Id, viewer: Id)
    requires table != []
    ensures Messages.UserMessages(MarkedRead(table, userId, recipientId), viewer)
      == MarkedRead(if Messages.Involves(table[0], viewer) then [table[0]] else [], userId, recipientId)
        + Messages.UserMessages(MarkedRead(table[1..], userId, recipientId), viewer)
  {
    var marked := MarkedRead(table, userId, recipientId);
    assert marked[1..] == MarkedRead(table[1..], userId, recipientId);
    assert MarkedRead([table[0]], userId, recipientId) == [marked[0]];
    assert Messages.Involves(marked[0], viewer) == Messages.Involves(table[0], viewer);
  }

  /** After the chat marks the recipient's messages read, the user's
      conversation list shows nothing unread from the recipient. */
  lemma MarkReadClearsListedConversation(table: seq<Message>, userId: Id, recipientId: Id)
    ensures var listed := Messages.Conversations(Messages.UserMessages(MarkedRead(table, userId, recipientId), userId), userId);
      forall k :: 0 <= k < |listed| && listed[k].otherUserId == recipientId ==> listed[k].unreadCount == 0
  {
    MarkedReadCommutesWithUserMessages(table, userId, recipientId, userId);
    MarkReadClearsConversation(Messages.UserMessages(table, userId), userId, recipientId);
  }

  /** What the send mutation inserts; the table fills in the id, the time and
      `is_read = false`. */
  datatype MessageDraft = MessageDraft(senderId: Id, receiverId: Id, content: string)

  /** `handleSend` and the mutation: nothing when the trimmed text is empty,
      otherwise a message from the user to the recipient holding the
      trimmed text. */
  function SendPayload(text: string, userId: Id, recipientId: Id): (draft: Option<MessageDraft>)
  {
    var content := JsText.Trim(text);
    if content == "" then None else Some(MessageDraft(userId, recipientId, content))
  }

  /** Nothing is sent exactly when the text is all white space. */
  lemma SendPayloadNoneIffBlank(text: string, userId: Id, recipientId: Id)
    ensures SendPayload(text, userId, recipientId).None? <==> JsText.AllSpace(text)
  {
    JsText.TrimEmptyIffBlank(text);
  }

  /** What is sent goes from the user to the recipient, is not empty, has no
      white space at either end, and so is left as it is by trimming. */
  lemma SendPayloadTrimmed(text: string, userId: Id, recipientId: Id)
    ensures var draft := SendPayload(text, userId, recipientId);
      draft.Some? ==>
        && draft.value.senderId == userId && draft.value.receiverId == recipientId
        && draft.value.content != ""
        && !JsText.IsSpace(draft.value.content[0])
        && !JsText.IsSpace(draft.value.content[|draft.value.content| - 1])
        && JsText.Trim(draft.value.content) == draft.value.content
  {
    var content := JsText.Trim(text);
    if content != "" {
      JsText.TrimSlice(text);
      JsText.TrimIdempotent(text);
    }
  }

  /** What is sent is a piece of the typed text, and what is cut away around
      it is white space. */
  lemma SendPayloadFromText(text: string, userId: Id, recipientId: Id)
    ensures var draft := SendPayload(text, userId, recipientId);
      draft.Some? ==> exists i, j :: (0 <= i <= j <= |text| && draft.value.content == text[i..j]
        && JsText.AllSpace(text[..i]) && JsText.AllSpace(text[j..]))
  {
    JsText.TrimSlice(text);
  }

  /** Minutes per day: timestamps are minutes since an abstract epoch in
      local time. */
  const MinutesPerDay := 1440

  /** `new Date(t).toDateString()`: the local calendar day of a timestamp. */
  function DayOf(t: int): (day: int)
  {
    t / MinutesPerDay
  }

  /** A later time is never on an earlier day. */
  lemma DayOfMonotone(s: int, t: int)
    requires s <= t
    ensures DayOf(s) <= DayOf(t)
  {
    var ds, dt := DayOf(s), DayOf(t);
    assert s == ds * MinutesPerDay + s % MinutesPerDay;
    assert t == dt * MinutesPerDay + t % MinutesPerDay;
  }

  /** Whether the thread shows a date separator above message `i`: above the
      first one, and whenever the day differs from the previous message's. */
  predicate ShowDate(thread: seq<Message>, i: nat)
    requires i < |thread|
  {
    i == 0 || DayOf(thread[i].createdAt) != DayOf(thread[i - 1].createdAt)
  }

  /** With the thread oldest first, a separator shows above a message
      exactly when it is the first message of its day. */
  lemma ShowDateIffFirstOfDay(thread: seq<Message>, i: nat)
    requires Seqs.Ascending(thread, (m: Message) => m.createdAt)
    requires i < |thread|
    ensures ShowDate(thread, i) <==>
      forall j :: 0 <= j < i ==> DayOf(thread[j].createdAt) != DayOf(thread[i].createdAt)
  {
    if i > 0 && ShowDate(thread, i) {
      DayOfMonotone(thread[i - 1].createdAt, thread[i].createdAt);
      forall j | 0 <= j < i ensures DayOf(thread[j].createdAt) != DayOf(thread[i].createdAt) {
        if j < i - 1 {
          assert thread[j].createdAt <= thread[i - 1].createdAt;
        }
        DayOfMonotone(thread[j].createdAt, thread[i - 1].createdAt);
      }
    }
  }
}
