/** The bookings list: the status badge table, which bookings a viewer is
    shown, and the split into the "Active" and "Past" tabs. */
module Bookings {

  import opened Database
  import Seqs

  datatype StatusIcon = AlertCircle | CheckCircle | XCircle

  datatype StatusStyle = StatusStyle(caption: string, color: string, icon: StatusIcon)

  /** The badge of each status (the page's `statusConfig` record). */
  function StatusConfig(status: BookingStatus): (style: StatusStyle)
  {
    match status
    case Pending => StatusStyle("Pending", "bg-warning/10 text-warning", AlertCircle)
    case Accepted => StatusStyle("Accepted", "bg-success/10 text-success", CheckCircle)
    case Declined => StatusStyle("Declined", "bg-destructive/10 text-destructive", XCircle)
    case Completed => StatusStyle("Completed", "bg-primary/10 text-primary", CheckCircle)
    case Cancelled => StatusStyle("Cancelled", "bg-muted text-muted-foreground", XCircle)
  }

  /** Every status has a badge with a non-empty caption, and no two statuses
      share a caption. */
  lemma StatusConfigTotalAndDistinct(a: BookingStatus, b: BookingStatus)
    ensures |StatusConfig(a).caption| > 0
    ensures StatusConfig(a).caption == StatusConfig(b).caption ==> a == b
  {
  }

  /** Who is looking at the list: the signed-in user, the role flag and the
      id of the user's provider profile, when one is loaded. */
  datatype Viewer = Viewer(userId: Id, isProvider: bool, providerProfileId: Option<Id>)

  /** The list query's filter: a provider with a loaded provider profile sees
      the bookings made with that profile; everyone else sees the bookings
      they made as a customer. */
  predicate VisibleTo(viewer: Viewer, b: Booking)
  {
    if viewer.isProvider && viewer.providerProfileId.Some? then b.providerId == viewer.providerProfileId.value
    else b.customerId == viewer.userId
  }

  /** The bookings the list shows, from a table already ordered by the
      scheduled time, latest first (the query's `order`). */
  function VisibleBookings(table: seq<Booking>, viewer: Viewer): (r: seq<Booking>)
  {
    Seqs.Filter(table, (b: Booking) => VisibleTo(viewer, b))
  }

  /** The list holds exactly the visible rows of the table, in table order. */
  lemma VisibleBookingsExact(table: seq<Booking>, viewer: Viewer)
    ensures forall b :: b in VisibleBookings(table, viewer) <==> b in table && VisibleTo(viewer, b)
    ensures Seqs.IsSubsequence(VisibleBookings(table, viewer), table)
    ensures Seqs.Descending(table, (b: Booking) => b.scheduledAt)
      ==> Seqs.Descending(VisibleBookings(table, viewer), (b: Booking) => b.scheduledAt)
  {
    var keep := (b: Booking) => VisibleTo(viewer, b);
    var r := VisibleBookings(table, viewer);
    forall b | b in table && VisibleTo(viewer, b) ensures b in r {
      var k :| 0 <= k < |table| && table[k] == b;
    }
    Seqs.FilterIsSubsequence(table, keep);
    if Seqs.Descending(table, (b: Booking) => b.scheduledAt) {
      Seqs.FilterKeepsDescending(table, keep, (b: Booking) => b.scheduledAt);
    }
  }

  predicate IsActive(b: Booking)
  {
    b.status == Pending || b.status == Accepted
  }

  predicate IsPast(b: Booking)
  {
    b.status == Completed || b.status == Declined || b.status == Cancelled
  }

  /** The "Active" tab; before the list has loaded it is empty. */
  function ActiveBookings(loaded: Option<seq<Booking>>): (r: seq<Booking>)
  {
    if loaded.None? then [] else Seqs.Filter(loaded.value, IsActive)
  }

  /** The "Past" tab; before the list has loaded it is empty. */
  function PastBookings(loaded: Option<seq<Booking>>): (r: seq<Booking>)
  {
    if loaded.None? then [] else Seqs.Filter(loaded.value, IsPast)
  }

  /** "Active" holds exactly the pending and accepted bookings, "Past" exactly
      the completed, declined and cancelled ones. */
  lemma TabsHoldTheirStatuses(bookings: seq<Booking>)
    ensures forall b :: b in ActiveBookings(Some(bookings)) <==>
      b in bookings && (b.status == Pending || b.status == Accepted)
    ensures forall b :: b in PastBookings(Some(bookings)) <==>
      b in bookings && (b.status == Completed || b.status == Declined || b.status == Cancelled)
  {
    forall b | b in bookings ensures (IsActive(b) ==> b in ActiveBookings(Some(bookings)))
      && (IsPast(b) ==> b in PastBookings(Some(bookings)))
    {
      var k :| 0 <= k < |bookings| && bookings[k] == b;
    }
  }

  /** The two tabs split the list: no booking is in both, and together they
      hold every booking exactly as often as the list does, whatever the
      statuses. */
  lemma TabsPartitionList(bookings: seq<Booking>)
    ensures forall b :: !(b in ActiveBookings(Some(bookings)) && b in PastBookings(Some(bookings)))
    ensures |ActiveBookings(Some(bookings))| + |PastBookings(Some(bookings))| == |bookings|
    ensures multiset(ActiveBookings(Some(bookings))) + multiset(PastBookings(Some(bookings)))
      == multiset(bookings)
  {
    TabsHoldTheirStatuses(bookings);
    Seqs.FilterPartition(bookings, IsActive, IsPast);
  }

  /** Each tab keeps the list's order, so it stays sorted by scheduled time,
      latest first. */
  lemma TabsKeepScheduleOrder(bookings: seq<Booking>)
    requires Seqs.Descending(bookings, (b: Booking) => b.scheduledAt)
    ensures Seqs.IsSubsequence(ActiveBookings(Some(bookings)), bookings)
    ensures Seqs.IsSubsequence(PastBookings(Some(bookings)), bookings)
    ensures Seqs.Descending(ActiveBookings(Some(bookings)), (b: Booking) => b.scheduledAt)
    ensures Seqs.Descending(PastBookings(Some(bookings)), (b: Booking) => b.scheduledAt)
  {
    Seqs.FilterIsSubsequence(bookings, IsActive);
    Seqs.FilterIsSubsequence(bookings, IsPast);
    Seqs.FilterKeepsDescending(bookings, IsActive, (b: Booking) => b.scheduledAt);
    Seqs.FilterKeepsDescending(bookings, IsPast, (b: Booking) => b.scheduledAt);
  }
}
