/** The records of the marketplace's tables (bookings, messages, reviews,
    profiles, provider profiles and services), with the optional columns as
    `Option`, timestamps and days as abstract integers and prices as integers. */
module Database {

  datatype Option<+T> = None | Some(value: T)

  datatype Result<+T> = Ok(value: T) | Err(error: string)

  type Id = string

  datatype BookingStatus = Pending | Accepted | Declined | Completed | Cancelled

  datatype Booking = Booking(
    id: Id,
    customerId: Id,
    providerId: Id,
    serviceId: Option<Id>,
    status: BookingStatus,
    scheduledAt: int,
    description: Option<string>,
    address: Option<string>,
    totalPrice: Option<int>,
    createdAt: int,
    updatedAt: int)

  datatype Message = Message(
    id: Id,
    senderId: Id,
    receiverId: Id,
    bookingId: Option<Id>,
    content: string,
    isRead: bool,
    createdAt: int)

  datatype Review = Review(
    id: Id,
    bookingId: Id,
    customerId: Id,
    providerId: Id,
    rating: int,
    comment: Option<string>,
    createdAt: int)

  datatype Profile = Profile(
    id: Id,
    userId: Id,
    fullName: string,
    phone: Option<string>,
    location: Option<string>)

  datatype ProviderStatus = ProviderPending | Approved | Rejected

  datatype ProviderProfile = ProviderProfile(
    id: Id,
    userId: Id,
    bio: Option<string>,
    hourlyRate: Option<int>,
    status: ProviderStatus,
    avgRating: int)

  datatype ProviderService = ProviderService(
    id: Id,
    providerId: Id,
    categoryId: Id,
    price: Option<int>)

  /** A conversation summary: the counterpart, the newest message exchanged
      with them and how many of their messages the user has not read. */
  datatype Conversation = Conversation(otherUserId: Id, lastMessage: Message, unreadCount: nat)

  /** JavaScript truthiness of a nullable number: null and 0 are falsy. */
  predicate Truthy(n: Option<int>)
  {
    n.Some? && n.value != 0
  }

  /** `s || null` on a string: the empty string becomes null. */
  function OrNull(s: string): (r: Option<string>)
    ensures r.None? <==> s == ""
    ensures r.Some? ==> r.value == s
  {
    if s == "" then None else Some(s)
  }
}
