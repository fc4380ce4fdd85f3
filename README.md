# HireRight Now: bookings, messages and provider search in Dafny

HireRight Now is a mobile marketplace. Customers find service providers,
book them for a time slot, follow the booking through its lifecycle, review
completed work and message the other party. The app is a React front end
over a hosted Postgres store. This project models the logic that the pages
and hooks run on the store's rows, and proves properties of it:

- **Booking page** (`BookingDetail`):
  - which status buttons each role is offered;
  - the unconditional status write;
  - the review gate, built on a `maybeSingle` lookup;
  - the review dialog's state and the review insert payload.
- **Bookings list** (`Bookings`):
  - the status badge table;
  - which bookings a viewer is shown;
  - the split into the "Active" and "Past" tabs.
- **Booking wizard** (`BookingForm`):
  - the time slots and how `"hh:mm"` is parsed;
  - the price fallback;
  - the validation and payload of the booking insert;
  - the three-step form, as a class.
- **Conversation list** (`Messages`): the `forEach` loop that folds the
  user's messages, newest first, into one summary per counterpart in a
  `Map`. It is an imperative method proved against a specification
  function, and properties are proved about that function.
- **Chat page** (`Chat`):
  - the two-party thread;
  - the bulk mark-read update;
  - the trimmed-send guard and its payload;
  - the own-bubble test and the day separators.
- **Provider list hook** (`Providers`):
  - the approved-provider query with its category restriction and limit;
  - the early return for a category without services;
  - the join of providers to profiles;
  - the case-insensitive search;
  - the hook's `providers`/`loading`/`error` state, as a class.
- **The store** (`Store`): the bookings, messages and reviews tables as a
  class, whose methods are the pages' writes. Its invariant is what those
  writes keep true:
  - ratings are 1 to 5;
  - a stored total is never 0;
  - messages are non-empty and trimmed.

Supporting modules:

- `Database` holds the row types of `src/types/database.ts`, plus JavaScript
  truthiness and `x || null`.
- `Seqs` holds `filter`, subsequences, first occurrence and the insertion
  order of a `Map`'s keys.
- `JsText` holds `trim`, `toLowerCase`, `includes`, `split` and `Number`.

Conventions:

- The store's reads become sequences handed to the functions.
- A query's `order` becomes a precondition on that sequence, and its
  filters become Dafny predicates.
- Timestamps are integers counting minutes in local time.
- Money and ratings are integers.

Where the code and the system's written design disagree, the model follows
the code:

- Status writes are not conditioned on the current status.
- A second review is not rejected.
- Messages are not de-duplicated.
- Of several messages with one counterpart, the conversation keeps the
  FIRST in the input order (the newest), not a later one.

`BookingDetail.LastStatusWriteWins` (with its corollary
`BookingDetail.StaleAcceptOverridesCancel`) and
`BookingDetail.GateReopensAfterDuplicate` state the first two of these as
lemmas.

## Model

| member | source | states |
|---|---|---|
| BookingDetail.OfferedActionsMatchTable | src/pages/BookingDetail.tsx:301-344 | a target is offered iff it is an edge of the lifecycle table from the current status for the viewer's role (provider: pending to declined/accepted, accepted to completed; customer: pending to cancelled); no target is offered twice |
| BookingDetail.TerminalIffNothingOffered | src/pages/BookingDetail.tsx:301-344 | neither role is offered anything exactly when the status is declined, completed or cancelled |
| BookingDetail.OfferedRunsMoveForward | src/pages/BookingDetail.tsx:301-344 | any run of offered transitions moves strictly forward through the lifecycle, has at most three statuses and uses only table edges |
| BookingDetail.WithStatusTouchesOnlyStatus | src/pages/BookingDetail.tsx:81-88 | the status write sets the status of every row with the id and changes no other row and no other field |
| BookingDetail.LastStatusWriteWins | src/pages/BookingDetail.tsx:83-86 | the write is unconditional: of two status writes to one booking the later wins, on any table, whatever the earlier wrote |
| BookingDetail.StaleAcceptOverridesCancel | src/pages/BookingDetail.tsx:83-86 | on any table, an accept offered on a pending page and sent after a cancellation leaves every row of the booking accepted, as if the cancellation never happened |
| BookingDetail.ExistingReview | src/pages/BookingDetail.tsx:68-79 | the lookup's review, when there is one, is a stored review of this booking |
| BookingDetail.CanReviewIff | src/pages/BookingDetail.tsx:163 | the review gate is open iff the viewer is not a provider, the booking is completed and the lookup finds no single review |
| BookingDetail.GateClosesAfterFirstReview | src/pages/BookingDetail.tsx:68-79 | once the first review of a booking is stored, the lookup returns it and the gate is closed |
| BookingDetail.GateReopensAfterDuplicate | src/pages/BookingDetail.tsx:68-79 | a second review row makes the lookup return no data, so the gate of a completed booking opens again |
| BookingDetail.ReviewForm.constructor | src/pages/BookingDetail.tsx:29-30 | the dialog starts at rating 5 with an empty comment |
| BookingDetail.ReviewForm.SelectStar | src/pages/BookingDetail.tsx:360-363 | a star button sets the rating to its value 1..5, keeping the rating in range |
| BookingDetail.ReviewForm.EditComment | src/pages/BookingDetail.tsx:379 | the comment box replaces the comment and keeps the rating |
| BookingDetail.ReviewForm.Draft | src/pages/BookingDetail.tsx:99-111 | the review payload names this booking, the current user and the booking's provider, has a rating in 1..5, and sends an empty comment as null |
| Bookings.StatusConfigTotalAndDistinct | src/pages/Bookings.tsx:16-22 | every status has a badge with a non-empty caption, and captions tell statuses apart |
| Bookings.VisibleBookingsExact | src/pages/Bookings.tsx:45-51 | a provider with a provider profile sees exactly the bookings made with that profile, anyone else exactly their own as customer; the list keeps the table's latest-first order |
| Bookings.TabsHoldTheirStatuses | src/pages/Bookings.tsx:60-61 | "Active" holds exactly the pending and accepted bookings, "Past" exactly the completed, declined and cancelled ones |
| Bookings.TabsPartitionList | src/pages/Bookings.tsx:60-61 | the tabs are disjoint and together hold the list as a multiset |
| Bookings.TabsKeepScheduleOrder | src/pages/Bookings.tsx:45-61 | each tab is an order-preserving sublist of the list, so still latest first |
| BookingForm.ParseClockTime | src/pages/Booking.tsx:65 | splitting "hh:mm" at the colon and converting both parts gives the hour and the minute |
| BookingForm.TimeSlotsParse | src/pages/Booking.tsx:15-18 | the k-th time slot parses to hour 9+k, minute 0 |
| BookingForm.SelectedService | src/pages/Booking.tsx:56 | the selected service is one of the provider's services with the requested id; none means no service has it |
| BookingForm.TotalPriceFallback | src/pages/Booking.tsx:56-57 | the stored total is the service price when set and non-zero, else the hourly rate when set and non-zero, else null; never 0 |
| BookingForm.CreateBooking | src/pages/Booking.tsx:59-85 | fails with "Missing required fields" iff date, time or user is absent; succeeds iff those are present and the time parses; the payload has the user as customer, the route's provider, an empty service id, the address and the description as given when non-empty and null when empty (`x || null`), the chosen day at the parsed time and the total price |
| BookingForm.Wizard.constructor | src/pages/Booking.tsx:28-32 | the wizard starts on step 1 with nothing chosen |
| BookingForm.Wizard.SelectDate | src/pages/Booking.tsx:133 | the calendar sets the date and nothing else |
| BookingForm.Wizard.SelectTime | src/pages/Booking.tsx:146 | a slot button sets the time to that slot and nothing else |
| BookingForm.Wizard.EditDetails | src/pages/Booking.tsx:179-190 | the step-2 inputs set address and description and nothing else |
| BookingForm.Wizard.Back | src/pages/Booking.tsx:99 | back goes one step down when above step 1 and leaves the page from step 1; the fields are kept |
| BookingForm.Wizard.Continue | src/pages/Booking.tsx:162-163 | step 1 advances to 2 only with both a date and a time |
| BookingForm.Wizard.ToReview | src/pages/Booking.tsx:198 | step 2 advances to 3 |
| BookingForm.Wizard.Confirm | src/pages/Booking.tsx:59-79 | from step 3 the mutation succeeds iff a user is signed in, scheduling the chosen day at the chosen slot's hour |
| Messages.GroupConversations | src/pages/Messages.tsx:35-57 | the loop over the messages, filling a map and bumping `unreadCount`, returns the specification's conversation list |
| Messages.AddMessage | src/pages/Messages.tsx:37-54 | one loop step: a new counterpart gets an entry with this message and count 0, then the count grows by one for an unread message received; every other entry is unchanged |
| Messages.UnreadCountIsReceivedUnread | src/pages/Messages.tsx:50-54 | a counterpart's unread count is the number of unread messages the user received from it |
| Messages.ConversationsDistinct | src/pages/Messages.tsx:41-48 | no two conversations share a counterpart |
| Messages.EveryCounterpartListed | src/pages/Messages.tsx:38-48 | every message's counterpart has a conversation |
| Messages.OnlyCounterpartsListed | src/pages/Messages.tsx:38-48 | every conversation's counterpart is the counterpart of some message |
| Messages.NoMessagesNoConversations | src/pages/Messages.tsx:35-57 | no messages give no conversations |
| Messages.LastMessageIsNewest | src/pages/Messages.tsx:30-47 | a conversation's last message is one of its messages, and with the input newest first no message with that counterpart is newer |
| Messages.ConversationUnreadCount | src/pages/Messages.tsx:50-54 | each conversation's unread count is the number of unread messages its counterpart sent the user |
| Messages.SentMessageNeverCounts | src/pages/Messages.tsx:51 | a message the user sent to someone else adds to no unread count |
| Messages.ConversationsNewestFirst | src/pages/Messages.tsx:30-57 | with the input newest first, the conversations come out ordered by last message, newest first |
| Chat.ThreadExact | src/pages/Chat.tsx:42-45 | a message is in the thread iff it goes between the user and the recipient in either direction; the thread keeps the table's oldest-first order |
| Chat.ThreadIsConversation | src/pages/Chat.tsx:42-44 | the thread with a recipient holds exactly the user's messages whose counterpart is that recipient |
| Chat.NotOwnIsFromRecipient | src/pages/Chat.tsx:186 | a bubble in the thread that is not the user's own was sent by the recipient to the user |
| Chat.MarkedRead | src/pages/Chat.tsx:54-60 | mark-read sets `is_read` exactly on the messages the recipient sent to the user and changes no other field or row |
| Chat.MarkedReadIdempotent | src/pages/Chat.tsx:56-60 | marking read twice is marking read once, and a read message stays read |
| Chat.MarkedReadUnreadCounts | src/pages/Chat.tsx:56-60 | after mark-read the recipient's unread count is 0 and every other counterpart's is unchanged |
| Chat.MarkReadClearsConversation | src/pages/Chat.tsx:56-60 | after mark-read the conversation list has the same counterparts in the same order, the recipient's count is 0 and the others' counts are unchanged |
| Chat.MarkedReadCommutesWithUserMessages | src/pages/Messages.tsx:29-30 | the list query's sender-or-receiver filter and mark-read commute: the list read after the update is the old list marked read |
| Chat.MarkReadClearsListedConversation | src/pages/Messages.tsx:29-54 | after the chat marks read, the user's conversation list, built from the user's messages, shows no unread count for the recipient |
| Chat.SendPayloadNoneIffBlank | src/pages/Chat.tsx:118-123 | nothing is sent iff the text is all white space |
| Chat.SendPayloadTrimmed | src/pages/Chat.tsx:101-107 | the message goes from the user to the recipient, and its content is non-empty, has no white space at either end and is unchanged by trimming |
| Chat.SendPayloadFromText | src/pages/Chat.tsx:106 | the content is a piece of the typed text with only white space cut away around it |
| Chat.DayOfMonotone | src/pages/Chat.tsx:187-189 | a later time is never on an earlier day |
| Chat.ShowDateIffFirstOfDay | src/pages/Chat.tsx:187-189 | in an oldest-first thread, a date separator shows above a message iff no earlier message is on its day |
| Providers.EffectiveLimit | src/hooks/useProviders.ts:12 | the limit is 20 unless one is given |
| Providers.CategoryProviderIdsExact | src/hooks/useProviders.ts:29-35 | the category's provider ids are exactly the providers with a service in the category |
| Providers.ProviderQuerySpec | src/hooks/useProviders.ts:21-35 | the query returns at most `limit` approved providers from the table, restricted to the ids when given, and keeps the best-rated-first order |
| Providers.ProviderQueryComplete | src/hooks/useProviders.ts:21-35 | conversely, a row passing the filters with fewer than `limit` qualifying rows ahead of it is returned, at the position given by the number of those rows |
| Providers.QueryIds | src/hooks/useProviders.ts:28-37 | the query is restricted to ids exactly when a non-empty category is given |
| Providers.FindProfile | src/hooks/useProviders.ts:62 | the profile found is the first one with the provider's user id; none means no profile has it |
| Providers.JoinSpec | src/hooks/useProviders.ts:60-63 | the join keeps the providers in length and order and attaches a profile with the provider's user id, or none when there is none |
| Providers.SearchFilterSpec | src/hooks/useProviders.ts:65-74 | no or empty query leaves the list unchanged; otherwise a provider stays iff its lower-cased name, bio or location contains the lower-cased query; the result is an order-preserving sublist and does not depend on the query's letter case |
| Providers.CategoryShortCircuit | src/hooks/useProviders.ts:28-41 | a category without services gives an empty list whatever the provider table holds |
| Providers.FetchedSpec | src/hooks/useProviders.ts:21-76 | everything listed is an approved provider from the table, offers a service in the category when one is given, matches the query when one is given, and there are at most `limit` of them |
| Providers.FetchedComplete | src/hooks/useProviders.ts:21-76 | conversely, an approved provider offering a service in the category when one is given, with fewer than `limit` qualifying rows ahead of it and matching the query with its joined profile when one is given, is listed |
| Providers.ProviderList.constructor | src/hooks/useProviders.ts:13-15 | the hook starts with no providers, loading, and no error |
| Providers.ProviderList.Fetch | src/hooks/useProviders.ts:18-82 | an empty category empties the list; a provider query error is recorded and the list kept; otherwise the list becomes the searched join; the error is never cleared and loading ends in every case |
| Store.Store.constructor | src/types/database.ts:57-97 | the tables start empty and valid |
| Store.Store.UpdateStatus | src/pages/BookingDetail.tsx:81-88 | the bookings table gets the status write; the other tables and the invariant are kept |
| Store.Store.SubmitReview | src/pages/BookingDetail.tsx:99-111 | the review dialog's payload is appended to the reviews table, with no check for an existing review; ratings stay in 1..5 |
| Store.Store.CreateBooking | src/pages/Booking.tsx:59-85 | the wizard's mutation result is returned and, on success, the pending booking row is appended |
| Store.Store.MarkRead | src/pages/Chat.tsx:54-65 | with a user and a recipient, the messages table gets the mark-read update; otherwise nothing changes |
| Store.Store.SendMessage | src/pages/Chat.tsx:97-123 | a message is stored iff the text is not all white space, and it holds the trimmed text, unread; stored messages stay non-empty and trimmed |

## Left out

- Network and store I/O are not modelled. The query builders, the `select` joins of related rows, react-query caching and invalidation, toasts and navigation are left out. Each query's result is an input sequence, and its `order` is a precondition on that sequence.
- Store-side ordering ties are resolved by input order; the model does not re-sort.
- Query errors on the booking, review, services and profiles lookups are left out. The code ignores the last three, and the first only shows a spinner or "not found".
- The realtime subscription of the chat page (`src/pages/Chat.tsx:68-90`) is left out: it is a foreign transport that only triggers a refetch.
- The auto-scroll and the clearing of the input box after a send are left out: they change only the view.
- The sign-in state is not modelled: the user, the provider role flag and the provider profile id come from the authentication context and are parameters. `src/contexts/AuthContext.tsx` is not part of this model.
- The `!` assertions on the user and the booking (`user!.id`, `booking!.provider_id`) are not modelled as checks: the model takes the user and the booking as given values.
- Timestamps are not modelled as date-time values: they are integers counting minutes in one local time zone. A day is 1440 minutes, so `toDateString` is division by 1440. There are no time zones, no daylight saving and no ISO strings.
- The booking calendar's rule that past days cannot be chosen is left out, as is the `Date` value of a day.
- `toLowerCase` is modelled on ASCII only: it maps A to Z and keeps every other character, so letters outside ASCII are not lower-cased.
- `trim` removes exactly the white space and line terminators of ECMA-262: tab, vertical tab, form feed, U+FEFF, the Unicode space separators (U+0020, U+00A0, U+1680, U+2000 to U+200A, U+202F, U+205F, U+3000), line feed, carriage return, U+2028 and U+2029. Space separators added to Unicode after that list are not modelled.
- `Number` is modelled only on strings of decimal digits. Signs, decimals, white space and `Infinity` are not modelled.
- The initials shown in avatars (`split(' ').map(n => n[0]).join('').toUpperCase()`) are left out, along with the other purely presentational fields: the profiles shown beside bookings and conversations (`otherUserProfile`), avatars and formatted dates.
- Prices, hourly rates and average ratings are not modelled as floating-point numbers: they are integers.
- Providers.ProviderList.Fetch: each fetch is one atomic step. The hook reruns on every change of category, search text or limit (`src/hooks/useProviders.ts:17-86`, with the search text typed on `src/pages/Search.tsx:16-26`) and nothing cancels an earlier run, so an older run's list can overwrite a newer one and loading can end while a later fetch is still pending. That interleaving is not modelled.
- BookingDetail.ExistingReview: the lookup is modelled as returning no data for more than one row, as `maybeSingle` does. The model does not show the error it raises.

