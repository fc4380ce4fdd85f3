/** The three tables the pages write, and the writes themselves: the status
    update and the review insert of the booking page, the booking insert of
    the wizard, and the mark-read update and message insert of the chat. */
module Store {

  import opened Database
  import JsText
  import BookingDetail
  import BookingForm
  import Chat

  /** The row the bookings table stores for an insert: the new id, the
      default status `pending` and the insert time as both timestamps. */
  function BookingRow(insert: BookingForm.BookingInsert, id: Id, now: int): (row: Booking)
  {
    Booking(id, insert.customerId, insert.providerId, insert.serviceId, Pending, insert.scheduledAt,
            insert.description, insert.address, insert.totalPrice, now, now)
  }

  /** The row the reviews table stores for a review. */
  function ReviewRow(draft: BookingDetail.ReviewDraft, id: Id, now: int): (row: Review)
  {
    Review(id, draft.bookingId, draft.customerId, draft.providerId, draft.rating, draft.comment, now)
  }

  /** The row the messages table stores for a sent message: unread and not
      tied to a booking. */
  function MessageRow(draft: Chat.MessageDraft, id: Id, now: int): (row: Message)
  {
    Message(id, draft.senderId, draft.receiverId, None, draft.content, false, now)
  }

  class Store {
    var bookings: seq<Booking>
    var messages: seq<Message>
    var reviews: seq<Review>

    /** What the pages' writes keep true of the tables: every review's rating
        is a star value, every stored total price is null or non-zero, and
        every message is non-empty with no white space at either end. */
    ghost predicate Valid()
      reads this
    {
      && (forall k :: 0 <= k < |reviews| ==> 1 <= reviews[k].rating <= 5)
      && (forall k :: 0 <= k < |bookings| ==> bookings[k].totalPrice != Some(0))
      && (forall k :: 0 <= k < |messages| ==>
            messages[k].content != "" && JsText.Trim(messages[k].content) == messages[k].content)
    }

    constructor ()
      ensures Valid() && bookings == [] && messages == [] && reviews == []
    {
      bookings, messages, reviews := [], [], [];
    }

    /** `updateStatus`: every booking with the id gets the new status,
        whatever its current status. */
    method UpdateStatus(id: Id, status: BookingStatus)
      requires Valid()
      modifies this
      ensures Valid()
      ensures bookings == BookingDetail.WithStatus(old(bookings), id, status)
      ensures messages == old(messages) && reviews == old(reviews)
    {
      BookingDetail.WithStatusTouchesOnlyStatus(bookings, id, status);
      bookings := BookingDetail.WithStatus(bookings, id, status);
    }

    /** `submitReview`: inserts the review dialog's review for the booking,
        with no check for an existing one. */
    method SubmitReview(form: BookingDetail.ReviewForm, routeId: Id, userId: Id, booking: Booking, newId: Id, now: int)
      requires Valid() && form.Valid()
      modifies this
      ensures Valid()
      ensures reviews == old(reviews) + [ReviewRow(form.Draft(routeId, userId, booking), newId, now)]
      ensures bookings == old(bookings) && messages == old(messages)
    {
      reviews := reviews + [ReviewRow(form.Draft(routeId, userId, booking), newId, now)];
    }

    /** The wizard's booking mutation: validates the request and, when it
        passes, inserts the booking. */
    method CreateBooking(request: BookingForm.BookingRequest, user: Option<Id>, providerId: Id,
                         serviceId: Option<Id>, price: Option<int>, newId: Id, now: int)
      returns (r: Result<BookingForm.BookingInsert>)
      requires Valid()
      modifies this
      ensures Valid()
      ensures r == BookingForm.CreateBooking(request, user, providerId, serviceId, price)
      ensures bookings == if r.Ok? then old(bookings) + [BookingRow(r.value, newId, now)] else old(bookings)
      ensures messages == old(messages) && reviews == old(reviews)
    {
      r := BookingForm.CreateBooking(request, user, providerId, serviceId, price);
      if r.Ok? {
        bookings := bookings + [BookingRow(r.value, newId, now)];
      }
    }

    /** The chat page's effect: with a signed-in user and a recipient, marks
        the recipient's messages to the user read. */
    method MarkRead(user: Option<Id>, recipientId: Id)
      requires Valid()
      modifies this
      ensures Valid()
      ensures messages == if user.Some? && recipientId != "" then Chat.MarkedRead(old(messages), user.value, recipientId)
                          else old(messages)
      ensures bookings == old(bookings) && reviews == old(reviews)
    {
      if user.Some? && recipientId != "" {
        messages := Chat.MarkedRead(messages, user.value, recipientId);
      }
    }

    /** `handleSend` and the send mutation: nothing for blank text, otherwise
        the trimmed text is inserted as an unread message. */
    method SendMessage(text: string, userId: Id, recipientId: Id, newId: Id, now: int) returns (sent: bool)
      requires Valid()
      modifies this
      ensures Valid()
      ensures sent <==> !JsText.AllSpace(text)
      ensures messages == if sent then old(messages) + [MessageRow(Chat.SendPayload(text, userId, recipientId).value, newId, now)]
                          else old(messages)
      ensures bookings == old(bookings) && reviews == old(reviews)
    {
      var draft := Chat.SendPayload(text, userId, recipientId);
      Chat.SendPayloadNoneIffBlank(text, userId, recipientId);
      Chat.SendPayloadTrimmed(text, userId, recipientId);
      sent := draft.Some?;
      if sent {
        messages := messages + [MessageRow(draft.value, newId, now)];
      }
    }
  }
}
