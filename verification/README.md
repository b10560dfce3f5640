# Mentoring app core in Dafny

A Dafny model of the core of a student–mentor booking app: the WebRTC
call-signaling relay, the in-memory store with the HTTP handlers built on
it, and the client-side rules that feed them. The client-side rules are
the form schemas, the mentor search filter, the video-session join window
and the "Next"/submit behaviour of the forms.

Everything is modelled with immutable datatypes and pure functions. A
handler takes a state and an event and returns the new state together with
what it sends.

- **Signaling relay** (`signaling.dfy`, `signaling_properties.dfy`).
  - The registry is a `map<string, seq<SocketId>>`. Sockets are opaque ids; SDP and ICE payloads are opaque blobs.
  - Which sockets are OPEN is a parameter, so `sendToSocket` drops sends to closed sockets.
  - The close handler visits sessions in an order given as a parameter. The code iterates a JavaScript `Map`.
  - The invariant: no stored session is empty, and no socket occurs twice in one session.
- **Store** (`tables.dfy`, `storage.dfy`).
  - Each `MemStorage` map is a sequence of rows in insertion order plus its id counter.
  - Every table is *dense*: the ids are exactly 1..n and the counter is n+1.
  - Lookups are by id. The clock is a parameter `now`.
- **Handlers** (`routes.dfy`, `lifecycle.dfy`).
  - Each handler returns the new store, the HTTP status and the payload.
  - `Lifecycle` serves an arbitrary sequence of requests from any store that satisfies its invariant. It proves the booking and review lifecycle: one booking per slot, one review per booking, and a review only for a completed booking of the student who wrote it.
  - Requests never create slots; only the constructor's sample data does. So the invariant is also shown to survive the sample data's writes (users, mentors, slots). `Lifecycle.Sample` builds a store in that shape, and `Lifecycle.BookCompleteReview` walks a booking through book, complete and review from any such store.
- **Client rules** (`video_session.dfy`, `mentor_search.dfy`, `payment_form.dfy`, `register_form.dfy`, `mentor_application.dfy`, `message_input.dfy`, `submission.dfy`).
  - Each schema is a list of issues. It comes with a declarative "accepted" predicate and an all-inputs lemma connecting the two.
  - The busy flag the forms share (`isProcessing`, `isSubmitting`, `isSending`) is one generic gate. At most one request is in flight per settle.
- **Helpers.** `text.dfy` holds the string helpers: ASCII digits, decimal rendering, lower-casing, substring search and the digit sanitiser. `wrappers.dfy` holds `Option`.

Notes on the code's behaviour:

- **No participant cap.** A third joiner is appended to a two-party session and receives only `joined`. Its relayed messages go to index 0 (`SignalingProperties.ThirdJoiner`).
- **A disconnect is not a reset.** After A disconnects, B stays in "call-42". A client C joining that id meets B: the session holds B and C, and B is told `ready` (`SignalingProperties.ScenarioDisconnect`).
- **Admin self-registration.** The server's register schema accepts the user type "admin". A freshly registered admin passes the admin gate (`Routes.RegisteredAdminPassesGate`); only the client form keeps the choice to student or mentor.
- **Register endpoint.** The client registration form posts to `/api/register`, while the server registers users at `/api/auth/register`. The model pairs the form with the server's register handler.
- **Review rating.** The review route recomputes the rating of the mentor id sent in the request body, not the booking's mentor.
- **Booking route.** It does not check that the slot belongs to the mentor named in the request.
- **Mentor conversation route.** It uses the `:mentorId` path parameter as a user id.
- **Mentor ids and user ids.** A booking's `mentorId` is a mentor profile id, while the booking routes and the video-session page compare it with the viewer's user id. The two come from separate counters. So for a student whose user id equals the profile id the comparison selects their own `student` field. A mentor whose two ids differ is refused by the booking routes, and the page's comparison would select their own profile (`VideoSession.CountersCoincide`). The comparison only selects a field: the booking the page receives has no party fields at all (see Findings).
- **Truthiness.** `if (booking.reviewId)` and `if (!conversationId)` follow JavaScript truthiness, so an id of 0 reads as absent.
- **Rows that drop out.** Review lists and message listings leave out rows whose student or sender no longer resolves. The mentor's rating is computed from that reduced list.

## Model

Helpers that only compute a value for the members below have no row of their own. These are the table getters such as `Storage.GetUser`, predicates such as `MentorSearch.Passes`, and `Lifecycle.ServeAll`, which folds `Lifecycle.Serve` over a list of requests.

| member | source | states |
|---|---|---|
| Signaling.FindIndex | server/webrtc/signaling.ts:123-127 | `findIndex` is -1 exactly when the socket is absent, and otherwise the position of its first occurrence |
| Signaling.HandleJoin | server/webrtc/signaling.ts:75-108 | a repeated join changes nothing; otherwise the joiner is appended and only it gets `joined`; `ready` goes only to index 0 and only when the list reaches two; other sessions are untouched; the invariant is kept |
| Signaling.Relay | server/webrtc/signaling.ts:110-210 | offer/answer/candidate never change the registry; at most one send, present exactly when payload, session, membership and a counterpart exist; the send goes to the opposite index in the same session, never back to the sender |
| Signaling.Broadcast | server/webrtc/signaling.ts:228-233 | every OPEN remaining member gets `leave`, and nobody else |
| Signaling.HandleLeave | server/webrtc/signaling.ts:212-242 | no-op for an unknown session or non-member; otherwise removes exactly the leaver, keeps the others in order, deletes an emptied session, notifies the rest; the invariant is kept |
| Signaling.Depart | server/webrtc/signaling.ts:224-241 | once the leaver is found: the session becomes the list without it, is deleted exactly when it was the last member, and every OPEN remaining member is told `leave` |
| Signaling.SpliceIsWithout | server/webrtc/signaling.ts:219-225 | `splice(findIndex(s), 1)` on a duplicate-free list equals removing every occurrence of s |
| Signaling.WithoutRemoves | server/webrtc/signaling.ts:225 | after removal the socket is gone, the others all remain, and the list stays duplicate-free |
| Signaling.HandleClose | server/webrtc/signaling.ts:62-72 | closing only shrinks sessions, leaves unvisited sessions as they were, sends only `leave` to OPEN former members, and keeps the invariant |
| Signaling.CloseRemovesSocket | server/webrtc/signaling.ts:62-72 | after the close handler the socket is in none of the visited sessions, and each one is its old list without the socket |
| Signaling.OnMessage | server/webrtc/signaling.ts:22-60 | a message without a session id or with an unknown type does nothing; relayed kinds never change the registry; every send carries the message's session id and goes to a member or to the joiner |
| Signaling.Run | server/webrtc/signaling.ts:19-73 | any sequential trace of messages and closes keeps the registry invariant |
| SignalingProperties.FirstJoin | server/webrtc/signaling.ts:77-96 | the first join of an unseen id creates the session holding the joiner alone and sends it `joined` |
| SignalingProperties.SecondJoin | server/webrtc/signaling.ts:89-104 | the second join appends and sends `joined` to the joiner, then `ready` to the first participant |
| SignalingProperties.Pairing | server/webrtc/signaling.ts:75-104 | A then B join a fresh id: A receives `joined` then `ready`, B receives only `joined` |
| SignalingProperties.RelayFidelity | server/webrtc/signaling.ts:130-141 | in a two-party session each side's offer, answer or candidate reaches exactly the other side with the same kind, id and payload |
| SignalingProperties.AloneIsDropped | server/webrtc/signaling.ts:129-134 | a participant alone in its session sends into the void: nothing sent, nothing changed |
| SignalingProperties.ThirdJoiner | server/webrtc/signaling.ts:89-104 | a third joiner is appended, receives only `joined`, and its relayed messages reach index 0 |
| SignalingProperties.CleanupOnLeave | server/webrtc/signaling.ts:212-233 | when one of two leaves, the other stays alone and is told `leave` |
| SignalingProperties.LastLeaveThenFreshJoin | server/webrtc/signaling.ts:235-238 | the last leave deletes the session, so a later join under that id starts it afresh |
| SignalingProperties.CloseIsLeave | server/webrtc/signaling.ts:62-72 | closing a socket that is in exactly one session has the same effect as an explicit leave of it, whatever the visit order |
| SignalingProperties.NothingToClose | server/webrtc/signaling.ts:66-70 | closing a socket that is in no session changes nothing and sends nothing |
| SignalingProperties.Isolation | server/webrtc/signaling.ts:33-52 | messages naming one session never change another, never reach a socket of another, and only bring their own senders into it |
| SignalingProperties.JoinLeaveMembers | server/webrtc/signaling.ts:22-60 | one message can add no socket to a session other than its own sender |
| SignalingProperties.ScenarioPairing | server/webrtc/signaling.ts:75-104 | the "call-42" walk-through: two joins give `joined`, `joined`, `ready` to the right sockets |
| SignalingProperties.ScenarioExchange | server/webrtc/signaling.ts:110-176 | A's offer reaches B and B's answer reaches A, unchanged |
| SignalingProperties.ScenarioDisconnect | server/webrtc/signaling.ts:62-104 | A's close tells B `leave`; C then joins B's session and B is told `ready` |
| Tables.DenseIdsIncrease | server/storage.ts:94-102 | ids handed out by a counter starting at 1 are unique, increasing and below the counter |
| Tables.Get | server/storage.ts:635-637 | `map.get(id)` is absent exactly when no row has the id, and otherwise a stored row with that id |
| Tables.DenseGet | server/storage.ts:635-637 | in a dense table the row with id k is the k-th row, and ids outside 1..n find nothing |
| Tables.InsertKeepsDense | server/storage.ts:645-659 | `id = counter++` followed by `set` keeps the table dense, and the new id exceeds every old one |
| Tables.InsertGet | server/storage.ts:645-659 | after an insert the new id finds the new row and every other id finds what it found before |
| Tables.Put | server/storage.ts:786-795 | a get-then-set update rewrites the rows with that id and leaves every other row in place |
| Tables.PutLookup | server/storage.ts:786-795 | the update keeps the table dense, changes only the looked-up row, and is a no-op for an unknown id |
| Tables.Filter | server/storage.ts:759-765 | `filter` keeps every element satisfying the predicate, as often as it occurs and in the input's order, and no other |
| Tables.Any | server/storage.ts:1051-1054 | `some` holds iff some element satisfies the predicate |
| Tables.SortBy | server/storage.ts:759-765 | the comparator sort returns a permutation of its input, ascending by the key |
| Storage.Empty | server/storage.ts:83-102 | all nine of the constructor's tables are empty and dense, with every counter at 1 |
| Storage.GetUserByUsername | server/storage.ts:639-643 | absent iff no user has that name; otherwise the earliest such user |
| Storage.CreateUser | server/storage.ts:645-659 | the new user carries the counter's id and the given fields; only the users table changes; every other id looks up as before |
| Storage.CreateMentor | server/storage.ts:713-733 | a new mentor has rating 0, no reviews, and is verified and active |
| Storage.CreateSlot | server/storage.ts:771-784 | a new slot is not booked and has the given mentor and times |
| Storage.CreateBooking | server/storage.ts:837-853 | a new booking carries the request fields, no review id and no notes |
| Storage.CreateReview | server/storage.ts:902-916 | a new review takes the next id above every existing one and is found under it |
| Storage.CreateConversation | server/storage.ts:1020-1035 | a new conversation takes the next id and advances the counter |
| Storage.AddParticipant | server/storage.ts:1037-1049 | one membership row naming both ids is appended, and earlier rows are kept |
| Storage.CreateMessage | server/storage.ts:1097-1112 | a new message is appended unread |
| Storage.CreateApplication | server/storage.ts:1127-1144 | a new application is "pending" with no reviewing admin and no notes |
| Storage.MarkSlotAsBooked | server/storage.ts:786-795 | only `isBooked` of that slot changes, to true; other slots are unchanged; no-op for an unknown id |
| Storage.UpdateBookingStatus | server/storage.ts:855-865 | only status and updatedAt of that booking change; no-op for an unknown id |
| Storage.UpdateBookingReview | server/storage.ts:867-877 | only reviewId and updatedAt of that booking change; no-op for an unknown id |
| Storage.MentorReviews | server/storage.ts:880-900 | the mentor's reviews whose student still resolves, and no others, each at most as often as stored; on a valid store its length is the number of such reviews |
| Storage.Average | server/storage.ts:742-744 | the average times the count equals the sum of the ratings |
| Storage.AverageBounds | server/storage.ts:742-744 | the average of ratings in [lo, hi] lies in [lo, hi] |
| Storage.UpdateMentorRating | server/storage.ts:735-756 | no counted reviews leaves the store as it was; otherwise only that mentor's rating and count change, to the mean and the number of counted reviews |
| Storage.RatingIsMean | server/storage.ts:735-756 | after recomputing, the count is the number of counted reviews and the rating is their mean, between the lowest and highest rating allowed |
| Storage.GetMentorSlots | server/storage.ts:759-765 | exactly the mentor's unbooked slots that start after now, ascending by start time |
| Storage.BookedSlotNotOffered | server/storage.ts:759-795 | after booking a slot it is no longer listed, and every other listed slot still is |
| Storage.ConversationMessages | server/storage.ts:1074-1095 | exactly the conversation's messages whose sender resolves, each at most as often as stored, ascending by timestamp; on a valid store its length is the number of such messages |
| Storage.UnreadCount | server/storage.ts:950-956 | the count is 0 iff no listed message from someone else is unread; on a valid store it is the number of such messages |
| Storage.AppendedMessageListed | server/storage.ts:1074-1112 | a new message from a known sender joins its conversation's listing, which keeps its old messages and grows by one |
| Storage.AppendedMessageUnread | server/storage.ts:950-956 | a new unread message raises the unread count of every user but its sender by one, and leaves the sender's count alone |
| Storage.MarkMessagesAsRead | server/storage.ts:1114-1124 | a message becomes read iff it is in the conversation and from someone else; nothing else changes; afterwards the user's unread count there is 0 |
| Storage.MarkReadIdempotent | server/storage.ts:1114-1124 | marking twice is marking once |
| Storage.IsParticipant | server/storage.ts:1051-1054 | true iff some membership row names both the conversation and the user |
| Storage.FindConversationBetween | server/storage.ts:1056-1071 | absent iff the two users share no conversation; otherwise a conversation both belong to |
| Storage.FindConversationIsFirst | server/storage.ts:1056-1071 | the conversation found is the one of user1's earliest membership row that user2 shares |
| Routes.Requester | server/routes.ts:116-121 | a request is authenticated iff its session id resolves to a stored user |
| Routes.Register | server/routes.ts:74-91 | 400 iff the user type is unknown or the username is taken, with nothing stored; otherwise 201 and the user appended |
| Routes.Login | server/routes.ts:41-56 | "Incorrect username" iff no user has the name; "Incorrect password" iff the first such user's password differs; success carries that user |
| Routes.LoginIffCredentials | server/routes.ts:41-56 | with unique usernames, login succeeds iff a stored user has exactly that username and password |
| Routes.AdminGate | server/routes.ts:523-533 | 401 iff unauthenticated, 403 iff the user's type is not "admin", otherwise proceed with that user |
| Routes.RegisteredAdminPassesGate | server/routes.ts:523-533 | a fresh username registered with the type "admin" passes the admin gate |
| Routes.BookSlot | server/routes.ts:194-232 | 401/404/400 exactly for no login, missing slot, booked slot, with nothing stored; 201 stores a confirmed, paid booking of 1500 with the slot's times and marks the slot booked |
| Routes.ViewBooking | server/routes.ts:257-281 | read-only; 401/404/403 exactly for no login, missing booking, non-party; otherwise the booking |
| Routes.CompleteBooking | server/routes.ts:283-309 | same guards; on success only the booking's status changes, to "completed" |
| Routes.SubmitReview | server/routes.ts:312-360 | 401/404/403/400 exactly for no login, missing booking, not its student, not completed or already reviewed; 201 appends the review, points the booking's reviewId at it, sets the named mentor's count to the number of counted reviews (at least the new one) and the rating to their mean, and leaves other mentors alone |
| Routes.ViewConversation | server/routes.ts:387-413 | read-only; 403 for non-members before 404 for a missing conversation |
| Routes.MentorConversation | server/routes.ts:415-441 | reuses a shared conversation; otherwise creates one and adds exactly the requester and the mentor |
| Routes.OpenConversation | server/routes.ts:429-435 | a new conversation with the next id, then exactly two membership rows: the requester first, then the mentor; nothing else changes |
| Routes.ReadMessages | server/routes.ts:443-468 | members get the listing as it was before marking: the conversation's messages with a known sender, oldest first, each stored message once; afterwards nothing in it is unread for them; non-members get 403 and nothing changes |
| Routes.SendMessage | server/routes.ts:470-497 | members append one unread message; non-members get 403 and nothing changes |
| Routes.SentMessageListed | server/routes.ts:443-497 | a sent message shows in the next listing, which keeps its old messages and grows by one; it is unread for every other user and not for the sender |
| Routes.ApplyAsMentor | server/routes.ts:149-166 | 401 without a login; otherwise a pending application for the requester is stored |
| Lifecycle.EmptyInv | server/storage.ts:83-102 | the empty store satisfies the lifecycle invariant |
| Lifecycle.OneReviewPerBooking | server/routes.ts:338-354 | two linked reviews of the same booking are the same review |
| Lifecycle.ReviewedOnlyWhenCompleted | server/routes.ts:333-354 | every stored review's booking exists, is completed, belongs to the review's student and points back to the review |
| Lifecycle.RegisterKeepsInv | server/routes.ts:74-91 | registering keeps the invariant, including unique usernames |
| Lifecycle.BookKeepsInv | server/routes.ts:194-232 | booking keeps every booking on its own booked slot |
| Lifecycle.BookedKeepsInv | server/routes.ts:214-228 | one new booking on a free slot, with that slot marked booked, keeps the invariant |
| Lifecycle.CompleteKeepsInv | server/routes.ts:283-309 | completing keeps the invariant |
| Lifecycle.CompletedKeepsInv | server/routes.ts:303 | marking one existing booking "completed", with its slot, its review link and every other row unchanged, keeps the invariant |
| Lifecycle.ReviewKeepsInv | server/routes.ts:312-360 | reviewing keeps reviews linked one-to-one with completed bookings |
| Lifecycle.LinkedReviewKeepsInv | server/routes.ts:338-354 | a new review on a completed, unreviewed booking of its student, with the booking pointed at it, keeps the invariant |
| Lifecycle.ConversationKeepsInv | server/routes.ts:415-441 | opening a conversation keeps membership rows pointing at known conversations |
| Lifecycle.OpenedKeepsInv | server/routes.ts:429-435 | a new conversation id with membership rows naming it keeps the invariant |
| Lifecycle.Serve | server/routes.ts:74-497 | each of the ten modelled requests, served on a store that keeps the invariant, leaves a store that keeps it |
| Lifecycle.ServeAllKeepsInv | server/routes.ts:74-497 | any sequence of requests keeps the invariant |
| Lifecycle.LifecycleHolds | server/routes.ts:194-360 | from any store satisfying the invariant, whatever requests arrive: no slot carries two bookings, booked slots are marked, every review belongs to a completed booking of its student, and distinct reviews are on distinct bookings |
| Lifecycle.SeedUserKeepsInv | server/storage.ts:109-181 | a sample user with a name not yet taken keeps the invariant |
| Lifecycle.SeedMentorKeepsInv | server/storage.ts:243-375 | a sample mentor profile keeps the invariant |
| Lifecycle.SeedSlotKeepsInv | server/storage.ts:376-575 | a sample slot is free and keeps the invariant |
| Lifecycle.Sample | server/storage.ts:109-575 | a store with two users, a mentor and a free slot of that mentor, built by the sample data's writes, satisfies the invariant |
| Lifecycle.BookCompleteReview | server/routes.ts:194-360 | from any store satisfying the invariant, a known user books a free slot (201), completes it (200) and reviews it (201); the review is stored for that booking, the slot is taken, the invariant holds, and a second review is refused with 400 |
| VideoSession.SessionIdFor | client/src/pages/VideoSession.tsx:63 | the session id is "session-" followed by the booking id's digits |
| VideoSession.Admit | client/src/pages/VideoSession.tsx:38-66 | too early iff before start minus 10 minutes; ended iff after the end; admitted with `session-<id>` iff inside the inclusive window |
| VideoSession.ParseSessionIdRoundTrip | client/src/pages/VideoSession.tsx:63 | the booking id can be read back from its session id |
| VideoSession.SessionIdsDistinct | client/src/pages/VideoSession.tsx:63 | two bookings share a session id iff they are the same booking |
| VideoSession.BookingsNeverShareARelaySession | client/src/pages/VideoSession.tsx:63 | joining the relay for one booking leaves another booking's session unchanged and sends nothing under its id |
| VideoSession.OtherParticipant | client/src/pages/VideoSession.tsx:136 | the `student` field is selected iff the viewer's user id is the booking's mentorId, otherwise the `mentor` field |
| VideoSession.ShownSideIsOtherParty | client/src/pages/VideoSession.tsx:136 | for a booking the view route returned, with distinct student and mentor ids, the field selected is that of the party the viewer is not |
| VideoSession.CountersCoincide | client/src/pages/VideoSession.tsx:136 | with the sample data's ids (student user 1, mentor profile 1 owned by user 2) the comparison selects the student's own field for the student, and would select the mentor's own profile for the mentor |
| VideoSession.Load | client/src/pages/VideoSession.tsx:136-186 | the render fails iff the selected party field is absent; otherwise that party is shown and admission is the booking effect's decision on the booking's times |
| VideoSession.FetchedBookingNeverRenders | server/routes.ts:266-277 | every booking the view route returns lacks both party fields, so the page's render fails and nobody is admitted (see Findings) |
| VideoSession.EnrichedBookingRenders | server/storage.ts:816-835 | with the enriched booking every admitted viewer is shown one of the booking's parties, the one they are not when the ids differ, and admission follows the booking's times |
| MentorSearch.ParseFloat | client/src/components/mentors/MentorSearch.tsx:58 | NaN exactly when the string starts with no digit (or a point without digits); otherwise a non-negative number |
| MentorSearch.ParseFloatWhole | client/src/components/mentors/MentorSearch.tsx:58 | parseFloat reads a rendered whole number back, whatever non-numeric text follows |
| MentorSearch.ParseFloatDecimal | client/src/components/mentors/MentorSearch.tsx:58 | parseFloat reads `n.f` back as n plus the fraction digits over the matching power of ten |
| MentorSearch.ParseDigitsPointDigits | client/src/components/mentors/MentorSearch.tsx:58 | `w.f` followed by a non-digit parses to the value of w plus that of f scaled by its length |
| MentorSearch.RatingOptionsParse | client/src/components/mentors/MentorSearch.tsx:58 | the offered thresholds "4", "4.5" and "5" parse to 4, 4.5 and 5 |
| MentorSearch.PassesIffAdmits | client/src/components/mentors/MentorSearch.tsx:36-75 | the early-return filter equals the conjunction: exact university and company, expertise and language membership, no rating below the threshold, and the case-insensitive search term in the name, university or an expertise |
| MentorSearch.FilterMentors | client/src/components/mentors/MentorSearch.tsx:36-75 | every passing mentor, as often as it is listed and no other, as an order-preserving sub-list |
| MentorSearch.NoFiltersListAll | client/src/components/mentors/MentorSearch.tsx:19-75 | with no filter and no search term every mentor is listed, in order |
| MentorSearch.NarrowerListsFewer | client/src/components/mentors/MentorSearch.tsx:36-75 | keeping every set filter and setting more gives an ordered sub-list of the wider result |
| MentorSearch.HandleFilterChange | client/src/components/mentors/MentorSearch.tsx:77-87 | only the named filter changes; the expertise control also records the selection |
| MentorSearch.SettingAFilterNarrows | client/src/components/mentors/MentorSearch.tsx:36-87 | choosing a value for an unset filter never brings a mentor into the list |
| MentorSearch.ResetFilters | client/src/components/mentors/MentorSearch.tsx:90-100 | every filter, the search term and the selection are cleared, so every mentor is listed |
| PaymentForm.MonthPatternMeaning | client/src/components/booking/PaymentForm.tsx:28 | `^(0?[1-9]\|1[0-2])$` accepts exactly one or two digits naming a month 1..12 |
| PaymentForm.FieldIssues | client/src/components/booking/PaymentForm.tsx:20-38 | a box has no issue iff its own rule holds, and every issue it reports is its own |
| PaymentForm.Issues | client/src/components/booking/PaymentForm.tsx:20-38 | no issue iff a 16-digit card, a month 1..12, a 2-digit year, a 3-digit CVV and a non-empty name |
| PaymentForm.Shown | client/src/components/booking/PaymentForm.tsx:20-38 | a box shows a message iff one of its checks fails, and the message is one of them |
| PaymentForm.ShownIsFirstOfField | client/src/components/booking/PaymentForm.tsx:20-38 | the message under a box is its own first failing check |
| PaymentForm.BlankFormMessages | client/src/components/booking/PaymentForm.tsx:54-60 | the empty form is refused and each box asks for its value |
| PaymentForm.Sanitise | client/src/components/booking/PaymentForm.tsx:137-140 | after a paste into the empty box it holds only digits, at most maxLength of them: the digits of the pasted text's first maxLength characters, in order |
| PaymentForm.SanitiseIdempotent | client/src/components/booking/PaymentForm.tsx:140 | sanitising a sanitised value changes nothing |
| PaymentForm.CardBoxAccepted | client/src/components/booking/PaymentForm.tsx:137-140 | a card number pasted into the empty box passes iff its first 16 characters are 16 digits |
| PaymentForm.CvvBoxAccepted | client/src/components/booking/PaymentForm.tsx:203-207 | a CVV pasted into the empty box passes iff its first 3 characters are 3 digits |
| PaymentForm.Key | client/src/components/booking/PaymentForm.tsx:136-141 | one key typed into a box of digits: refused when the box is full, otherwise the box gains the key if it is a digit |
| PaymentForm.TypeKeysKeepsFirstDigits | client/src/components/booking/PaymentForm.tsx:136-141 | typed key by key, a box holds its old digits then the typed digits, cut at maxLength |
| PaymentForm.CardKeysAccepted | client/src/components/booking/PaymentForm.tsx:136-141 | typed into the empty card box, the value passes iff at least 16 digits were typed, and it is the first 16 |
| PaymentForm.CvvKeysAccepted | client/src/components/booking/PaymentForm.tsx:202-208 | typed into the empty CVV box, the value passes iff at least 3 digits were typed, and it is the first 3 |
| PaymentForm.TypingVersusPasting | client/src/components/booking/PaymentForm.tsx:202-208 | "1 2 3" typed fills the CVV box with "123"; pasted, it leaves "12" |
| PaymentForm.GroupedNumberTyped | client/src/components/booking/PaymentForm.tsx:136-141 | a number typed as four spaced groups of four digits, as in the placeholder, fills the card box with its 16 digits and passes the card checks |
| PaymentForm.MonthBoxNeedsSchema | client/src/components/booking/PaymentForm.tsx:160-163 | "0" and "13" survive the sanitiser and are refused by the month check |
| PaymentForm.Pay | client/src/components/booking/PaymentForm.tsx:86-94 | details are sent only when accepted and the button is enabled |
| PaymentForm.ShownFeeIsCharged | client/src/components/booking/PaymentForm.tsx:101-105 | the fee shown is the amount the booking route stores |
| RegisterForm.Issues | client/src/components/auth/RegisterForm.tsx:20-31 | no issue iff a username of 3..50, a password of 8..100 and the student or mentor type |
| RegisterForm.UsernameIssues | client/src/components/auth/RegisterForm.tsx:21-23 | no username issue iff the username has 3..50 characters |
| RegisterForm.PasswordIssues | client/src/components/auth/RegisterForm.tsx:25-27 | no password issue iff the password has 8..100 characters |
| RegisterForm.DefaultsNeedInput | client/src/components/auth/RegisterForm.tsx:44-50 | the defaults pick "student" and ask for a username and a password |
| RegisterForm.AdminNotSelectable | client/src/components/auth/RegisterForm.tsx:28-30 | the form refuses "admin", which the server would accept |
| RegisterForm.AcceptedFormRegisters | client/src/components/auth/RegisterForm.tsx:20-31 | accepted form values are refused by the register handler iff the username is taken |
| RegisterForm.Press | client/src/components/auth/RegisterForm.tsx:72-80 | values are sent only when accepted and the button is enabled |
| MentorApplication.FieldIssues | client/src/pages/BecomeAMentorPage.tsx:35-50 | a field has an issue iff it fails its own rule: name 2+, phone 10+, bio 100+, year of four digits, profile optional, others non-empty |
| MentorApplication.IssuesOf | client/src/pages/BecomeAMentorPage.tsx:35-50 | no issue on a list of fields iff each passes its rule |
| MentorApplication.AcceptedIffNoIssues | client/src/pages/BecomeAMentorPage.tsx:35-50 | the schema finds no issue iff every field passes |
| MentorApplication.StepsPartitionFields | client/src/pages/BecomeAMentorPage.tsx:119-122 | the two step lists are disjoint and together list the fourteen schema keys once each |
| MentorApplication.StepsCoverSchema | client/src/pages/BecomeAMentorPage.tsx:119-122 | a form passes both steps iff the schema accepts it |
| MentorApplication.Defaults | client/src/pages/BecomeAMentorPage.tsx:62-80 | the name and email default to the user's, `\|\| ""`, and every other field is empty |
| MentorApplication.NextStepAsWritten | client/src/pages/BecomeAMentorPage.tsx:118-134 | the written Next button always moves to step 2 |
| MentorApplication.NextStepAsWrittenSkipsValidation | client/src/pages/BecomeAMentorPage.tsx:125-131 | the blank form moves past step 1 although its step-1 fields fail |
| MentorApplication.NextStep | client/src/pages/BecomeAMentorPage.tsx:118-134 | step 2 is reached iff the step-1 fields pass |
| MentorApplication.Submit | client/src/pages/BecomeAMentorPage.tsx:108-116 | refused values change nothing; without a login the sign-in dialog opens and nothing is sent; otherwise the application is sent while the button is enabled |
| MentorApplication.Succeeded | client/src/pages/BecomeAMentorPage.tsx:87-95 | success shows the thank-you step |
| MentorApplication.Settled | client/src/pages/BecomeAMentorPage.tsx:103-105 | settling re-enables the button and keeps what was sent |
| MentorApplication.HandleKeepsPromises | client/src/pages/BecomeAMentorPage.tsx:108-134 | for the page with the corrected Next button (`NextStep`, see Findings): leaving step 1 needs valid step-1 fields, only accepted applications are sent, and only a submit sends |
| MessageInput.ContentIssue | client/src/components/messaging/MessageInput.tsx:13-15 | no message iff the content has 1..1000 characters |
| MessageInput.Send | client/src/components/messaging/MessageInput.tsx:56-59 | the content is sent iff it is accepted and the controls are enabled |
| MessageInput.Press | client/src/components/messaging/MessageInput.tsx:64-86 | on enabled controls Enter submits: without Shift through the key handler, with Shift through the form's implicit submission; every other key, and any key while sending, leaves the box alone |
| MessageInput.Succeeded | client/src/components/messaging/MessageInput.tsx:40-43 | a successful send empties the box |
| MessageInput.Settled | client/src/components/messaging/MessageInput.tsx:51-53 | settling re-enables the controls |
| MessageInput.EnterSendsOnce | client/src/components/messaging/MessageInput.tsx:64-86 | Shift+Enter sends exactly what Enter sends; Enter sends once; a second Enter before settling sends nothing more |
| MessageInput.SuccessEmptiesBox | client/src/components/messaging/MessageInput.tsx:30-43 | the empty box cannot be sent, so Enter after a successful send sends nothing |
| Submission.Submit | client/src/components/messaging/MessageInput.tsx:74-86 | a submit sends iff the control is enabled and the values pass; it then disables the control |
| Submission.Settle | client/src/components/messaging/MessageInput.tsx:51-53 | `onSettled` re-enables the control and keeps what was sent |
| Submission.OneRequestPerSettle | client/src/components/booking/PaymentForm.tsx:86-94 | over any run, the requests sent number at most one more than the settles |
| Submission.OnlyValidSent | client/src/components/booking/PaymentForm.tsx:91-94 | only values that passed the schema are ever sent |
| Text.NatToString | client/src/pages/VideoSession.tsx:63 | the rendering is all digits, has no leading zero, and its decimal value is the number |
| Text.NatToStringInjective | client/src/pages/VideoSession.tsx:63 | two numbers render alike iff they are equal |
| Text.ContainsIffOccurs | client/src/components/mentors/MentorSearch.tsx:65-67 | `includes` holds iff the needle occurs at some position |
| Text.KeepDigits | client/src/components/booking/PaymentForm.tsx:140 | `replace(/\D/g, '')` leaves only digits, never lengthens, and leaves a digit string as it is |
| Text.KeepDigitsAppend | client/src/components/booking/PaymentForm.tsx:140 | the digits of a + b are the digits of a followed by those of b |
| Text.KeepDigitsKeepsDigitsInOrder | client/src/components/booking/PaymentForm.tsx:140 | the sanitiser keeps every digit of its input, in order |

## Left out

- WebSocket transport: JSON parsing and serialising, logging, the `try`/`catch` around a handler, and the connection callbacks themselves. Sockets are ids, and the events of all connections form one sequential trace.
- The participant's optional `userId` in the relay is never set by the code and is not modelled.
- Signaling.HandleClose: the close handler iterates a JavaScript `Map` in insertion order; the model takes the visit order as a parameter. `CloseIsLeave` and `CloseRemovesSocket` hold for every order.
- Media capture and the peer connection (`VideoCall.tsx`) are browser APIs outside the model.
- Express, passport and session plumbing. The request parsing and every 500 branch are left out. Passport's (de)serialisation is the `Requester` lookup.
- Lifecycle.Sample: builds only the sample data's shape (users, a mentor, a free slot). The sample's past booking, review, conversation and messages, the literal sample values and the start-up creation of a fixed admin account are not rebuilt.
- PaymentForm.Key: a key is typed at the end of the box; a key typed at another caret position, and a paste into a box that is not empty, are not modelled.
- Read-only routes with no guard of interest are not modelled: the mentor list and profile, the slots of a mentor, a slot by id, a mentor's reviews, the user's bookings and conversations, and the current user.
- The admin application routes call storage methods that `MemStorage` does not define. They are not modelled beyond the `isAdmin` gate.
- The name and picture enrichment of reviews, messages and conversations is not modelled. Only its effect of dropping rows whose user is gone is modelled. `getStudentBookings`/`getMentorBookings` sort an array of Promises and are not modelled.
- Storage.MentorReviews: the list's order (newest first) is not stated, because only the sum and the count are used.
- Routes.ReadMessages: the order of messages with equal timestamps is not stated.
- Storage.Average: the rating is an exact `real`; JavaScript's floating-point rounding of the division is not modelled.
- Routes.ApplyAsMentor: the request body is spread after the session's user id, so a body carrying `userId` would override it; and `createMentorApplication` spreads the data after the counter id, so a body carrying `id` would replace the stored row's `id` (the Map key stays the counter value) and the reply's `id`. The model takes a body with neither key: it always files the application under the requester and under the counter id. So the dense applications table in `Valid` and `Inv`, and with it `Lifecycle.Serve` and `Lifecycle.ServeAllKeepsInv`, assume no request body carries `id`; with such a body two stored applications can share an id.
- RegisterForm.Issues and MentorApplication.FieldIssues: the zod `.email()` check is not modelled, because its pattern lives in the library. Email values are accepted as they are.
- String lengths are counted in characters; zod counts UTF-16 code units. Lower-casing is ASCII only.
- MentorSearch.ParseFloat: parses only a leading `digits[.digits]`. Leading white space, signs, exponents and "Infinity" are not modelled; the control only offers "", "4", "4.5" and "5".
- Toasts, navigation, scrolling, query invalidation and the dialog's own behaviour are presentation and are left out.
- The form library calls `onSubmit` only after the schema accepts the values. Every `Submit` models that as a precondition check, so its own validation display is not modelled.

## Findings

| source | as written | input that shows it | evidently intended | confidence | as-written member | corrected member |
|---|---|---|---|---|---|---|
| client/src/pages/BecomeAMentorPage.tsx:125-131 | `currentStepFields.every(field => form.trigger(field))` tests the Promise that `trigger` returns; a Promise is always truthy, so `isValid` is always true and the page moves to step 2 | step 1 with every field empty (the default values) | await the validation of the step-1 fields and move to step 2 only when all pass | not executed; high | MentorApplication.NextStepAsWritten, MentorApplication.NextStepAsWrittenSkipsValidation | MentorApplication.NextStep |
| client/src/pages/VideoSession.tsx:136 | the page reads `booking.student` or `booking.mentor` and then `.name` of it (lines 160, 171, 186), but `GET /api/bookings/:id` sends the stored row from `getBookingById`, which has neither field; the read throws during render, and with no error boundary the booking effect never runs | any booking the view route returns to one of its parties | send the booking through `enrichBookingWithDetails`, so the selected party exists and is shown | not executed; high | VideoSession.FetchedBookingNeverRenders | VideoSession.EnrichedBookingRenders |
