/** The booking page: which status buttons a viewer is offered, the review
    gate, the status write and the review form. */
module BookingDetail {

  import opened Database
  import Seqs

  /** The statuses the page's buttons write, in the order they are rendered:
      a provider may decline or accept a pending booking and complete an
      accepted one; anyone else may cancel a pending booking. */
  function OfferedActions(isProvider: bool, status: BookingStatus): (targets: seq<BookingStatus>)
  {
    if isProvider && status == Pending then [Declined, Accepted]
    else if isProvider && status == Accepted then [Completed]
    else if !isProvider && status == Pending then [Cancelled]
    else []
  }

  /** The lifecycle as a table of edges (from, to, made by the provider side). */
  const LifecycleEdges: set<(BookingStatus, BookingStatus, bool)> :=
    {(Pending, Accepted, true), (Pending, Declined, true),
     (Pending, Cancelled, false), (Accepted, Completed, true)}

  /** The buttons offered are exactly the edges of the lifecycle table leaving
      the current status for the viewer's role, each offered once. */
  lemma OfferedActionsMatchTable(isProvider: bool, from: BookingStatus, to: BookingStatus)
    ensures to in OfferedActions(isProvider, from) <==> (from, to, isProvider) in LifecycleEdges
    ensures Seqs.NoDuplicates(OfferedActions(isProvider, from))
  {
  }

  predicate IsTerminal(status: BookingStatus)
  {
    status == Declined || status == Completed || status == Cancelled
  }

  /** A status offers nothing to either role exactly when it is terminal. */
  lemma TerminalIffNothingOffered(status: BookingStatus)
    ensures (OfferedActions(true, status) == [] && OfferedActions(false, status) == []) <==> IsTerminal(status)
  {
  }

  /** How far along the lifecycle a status is. */
  function Stage(status: BookingStatus): (n: nat)
    ensures n <= 2
  {
    match status
    case Pending => 0
    case Accepted => 1
    case _ => 2
  }

  /** A sequence of statuses where each next one is offered, to one role or
      the other, by the page while the booking shows the previous one. */
  ghost predicate OfferedRun(run: seq<BookingStatus>)
  {
    forall k :: 0 < k < |run| ==>
      run[k] in OfferedActions(true, run[k - 1]) || run[k] in OfferedActions(false, run[k - 1])
  }

  /** Every offered action moves the booking strictly forward, so following
      the page's buttons from `pending` visits at most three statuses, every
      one of which is reachable through the lifecycle table. */
  lemma {:induction false} OfferedRunsMoveForward(run: seq<BookingStatus>)
    requires |run| > 0 && OfferedRun(run)
    ensures Stage(run[|run| - 1]) >= Stage(run[0]) + |run| - 1
    ensures |run| <= 3
    ensures forall k :: 0 < k < |run| ==>
      (run[k - 1], run[k], true) in LifecycleEdges || (run[k - 1], run[k], false) in LifecycleEdges
  {
    if |run| > 1 {
      var init := run[..|run| - 1];
      assert OfferedRun(init) by {
        forall k | 0 < k < |init| ensures
          init[k] in OfferedActions(true, init[k - 1]) || init[k] in OfferedActions(false, init[k - 1])
        {
          assert init[k] == run[k] && init[k - 1] == run[k - 1];
        }
      }
      OfferedRunsMoveForward(init);
      var a, b := run[|run| - 2], run[|run| - 1];
      assert b in OfferedActions(true, a) || b in OfferedActions(false, a);
      assert Stage(b) > Stage(a);
    }
    forall k | 0 < k < |run| ensures
      (run[k - 1], run[k], true) in LifecycleEdges || (run[k - 1], run[k], false) in LifecycleEdges
    {
      OfferedActionsMatchTable(true, run[k - 1], run[k]);
      OfferedActionsMatchTable(false, run[k - 1], run[k]);
    }
  }

  /** The status write: every row whose id matches gets the new status,
      whatever its current status is; nothing else changes. */
  function WithStatus(bookings: seq<Booking>, id: Id, status: BookingStatus): (r: seq<Booking>)
    ensures |r| == |bookings|
  {
    if bookings == [] then []
    else
      var b := bookings[0];
      [if b.id == id then b.(status := status) else b] + WithStatus(bookings[1..], id, status)
  }

  /** Row by row, the write touches only the `status` field of the rows with
      the given id. */
  lemma {:induction false} WithStatusTouchesOnlyStatus(bookings: seq<Booking>, id: Id, status: BookingStatus)
    ensures |WithStatus(bookings, id, status)| == |bookings|
    ensures forall i :: 0 <= i < |bookings| && bookings[i].id == id ==>
      WithStatus(bookings, id, status)[i] == bookings[i].(status := status)
    ensures forall i :: 0 <= i < |bookings| && bookings[i].id != id ==>
      WithStatus(bookings, id, status)[i] == bookings[i]
  {
    if bookings != [] {
      WithStatusTouchesOnlyStatus(bookings[1..], id, status);
      var r := WithStatus(bookings, id, status);
      forall i | 0 < i < |bookings| ensures r[i] == WithStatus(bookings[1..], id, status)[i - 1] {
      }
    }
  }

  /** The write is not conditioned on the status the row holds: of two
      writes to the same booking the later one wins, whatever the earlier
      one wrote. */
  lemma {:induction false} LastStatusWriteWins(bookings: seq<Booking>, id: Id, first: BookingStatus, second: BookingStatus)
    ensures WithStatus(WithStatus(bookings, id, first), id, second) == WithStatus(bookings, id, second)
  {
    if bookings != [] {
      LastStatusWriteWins(bookings[1..], id, first, second);
      assert WithStatus(bookings, id, first)[1..] == WithStatus(bookings[1..], id, first);
    }
  }

  /** Hence an accept sent from a stale page, where the booking still showed
      as pending and so offered "Accept", overrides a cancellation that
      happened in between: whatever the table held, every row of the booking
      ends up accepted. */
  lemma StaleAcceptOverridesCancel(bookings: seq<Booking>, id: Id)
    ensures Accepted in OfferedActions(true, Pending)
    ensures var after := WithStatus(WithStatus(bookings, id, Cancelled), id, Accepted);
      after == WithStatus(bookings, id, Accepted)
      && forall i :: 0 <= i < |bookings| && bookings[i].id == id ==> after[i].status == Accepted
  {
    LastStatusWriteWins(bookings, id, Cancelled, Accepted);
    WithStatusTouchesOnlyStatus(bookings, id, Accepted);
  }

  /** The review lookup (`maybeSingle` on the reviews of this booking): the
      review when exactly one exists; no row and more than one row both give
      no data. */
  function ExistingReview(reviews: seq<Review>, bookingId: Id): (r: Option<Review>)
    ensures r.Some? ==> r.value in reviews && r.value.bookingId == bookingId
  {
    var matches := Seqs.Filter(reviews, (rv: Review) => rv.bookingId == bookingId);
    if |matches| == 1 then Some(matches[0]) else None
  }

  /** Whether the page offers "Leave a Review". */
  predicate CanReview(isProvider: bool, booking: Booking, existing: Option<Review>)
  {
    !isProvider && booking.status == Completed && existing.None?
  }

  /** The gate is open exactly for a customer-side viewer of a completed
      booking that has no review yet. */
  lemma CanReviewIff(isProvider: bool, booking: Booking, reviews: seq<Review>)
    ensures CanReview(isProvider, booking, ExistingReview(reviews, booking.id))
      <==> !isProvider && booking.status == Completed
           && |Seqs.Filter(reviews, (rv: Review) => rv.bookingId == booking.id)| != 1
  {
  }

  /** Once the first review of a booking is stored the gate closes. */
  lemma GateClosesAfterFirstReview(isProvider: bool, booking: Booking, reviews: seq<Review>, review: Review)
    requires forall k :: 0 <= k < |reviews| ==> reviews[k].bookingId != booking.id
    requires review.bookingId == booking.id
    ensures ExistingReview(reviews + [review], booking.id) == Some(review)
    ensures !CanReview(isProvider, booking, ExistingReview(reviews + [review], booking.id))
  {
    var keep := (rv: Review) => rv.bookingId == booking.id;
    Seqs.FilterNone(reviews, keep);
    Seqs.FilterSnoc(reviews, review, keep);
  }

  /** Nothing but the gate stops a second review: inserting another review
      for a reviewed booking makes the lookup see two rows, return no data,
      and the gate opens again for a completed booking. */
  lemma GateReopensAfterDuplicate(booking: Booking, reviews: seq<Review>, review: Review)
    requires booking.status == Completed
    requires |Seqs.Filter(reviews, (rv: Review) => rv.bookingId == booking.id)| == 1
    requires review.bookingId == booking.id
    ensures ExistingReview(reviews, booking.id).Some?
    ensures CanReview(false, booking, ExistingReview(reviews + [review], booking.id))
  {
    Seqs.FilterSnoc(reviews, review, (rv: Review) => rv.bookingId == booking.id);
  }

  /** What the review insert sends. */
  datatype ReviewDraft = ReviewDraft(
    bookingId: Id,
    customerId: Id,
    providerId: Id,
    rating: int,
    comment: Option<string>)

  /** The star buttons of the review dialog. */
  const StarValues: seq<int> := [1, 2, 3, 4, 5]

  /** The review dialog's state: the chosen rating and the comment text. */
  class ReviewForm {
    var rating: int
    var comment: string

    ghost predicate Valid()
      reads this
    {
      1 <= rating <= 5
    }

    constructor ()
      ensures Valid() && rating == 5 && comment == ""
    {
      rating := 5;
      comment := "";
    }

    /** A star button sets the rating to its value. */
    method SelectStar(star: int)
      requires Valid() && star in StarValues
      modifies this
      ensures Valid() && rating == star && comment == old(comment)
    {
      rating := star;
    }

    method EditComment(text: string)
      requires Valid()
      modifies this
      ensures Valid() && rating == old(rating) && comment == text
    {
      comment := text;
    }

    /** The review for `booking`, opened at route id `routeId` by `userId`:
        the rating is a star value and an empty comment is sent as null. */
    function Draft(routeId: Id, userId: Id, booking: Booking): (d: ReviewDraft)
      reads this
      requires Valid()
      ensures d.bookingId == routeId && d.customerId == userId && d.providerId == booking.providerId
      ensures d.rating in StarValues
      ensures d.comment.None? <==> comment == ""
      ensures d.comment.Some? ==> d.comment.value == comment
    {
      ReviewDraft(routeId, userId, booking.providerId, rating, OrNull(comment))
    }
  }
}
