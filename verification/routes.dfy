/** The guard and transition logic of the HTTP handlers (server/routes.ts).

    A handler takes the store, the session and the request's parsed fields
    and returns the new store with the HTTP status and the payload. The
    session holds the id passport serialised; passport re-reads the user on
    every request, so an id that no longer resolves is not authenticated.
    Parsing of path parameters and bodies, and the 500 branches, are not
    modelled. */
module Routes {
  import opened Wrappers
  import opened Tables
  import opened Storage

  /** The fixed price of a session (rupees) charged by the booking route. */
  const BookingAmount := 1500

  type Session = Option<Id>

  datatype Reply<T> = Reply(store: Store, status: nat, value: Option<T>)

  /** req.isAuthenticated() together with req.user. */
  function Requester(st: Store, session: Session): (u: Option<User>)
    ensures u.None? <==> session.None? || GetUser(st, session.value).None?
    ensures u.Some? ==> u.value.id == session.value && u.value in st.users.rows
  {
    if session.None? then None else GetUser(st, session.value)
  }

  // ---------------------------------------------------------------- register and login

  datatype Registration = Registration(username: string, password: string, email: string, userType: Option<string>)

  /** The server schema's user type: absent, or one of the three roles. */
  predicate KnownUserType(t: Option<string>) {
    t.None? || t.value == "mentor" || t.value == "student" || t.value == "admin"
  }

  /** POST /api/auth/register: 400 for a bad user type or a taken
      username, with nothing stored; otherwise 201 and the new user. */
  function Register(st: Store, reg: Registration, now: Time): (r: Reply<Id>)
    ensures r.status == 201 || r.status == 400
    ensures r.status == 400 <==> !KnownUserType(reg.userType) || GetUserByUsername(st, reg.username).Some?
    ensures r.status == 400 ==> r.store == st
    ensures r.status == 201 ==> r.store.users.rows == st.users.rows + [User(st.users.next, reg.username, reg.password, reg.email, reg.userType, now, now)]
    ensures r.status == 201 ==> r.store == st.(users := r.store.users)
    ensures Valid(st) ==> Valid(r.store)
  {
    if !KnownUserType(reg.userType) then Reply(st, 400, None)
    else if GetUserByUsername(st, reg.username).Some? then Reply(st, 400, None)
    else
      var c := CreateUser(st, NewUser(reg.username, reg.password, reg.email, reg.userType), now);
      Reply(c.store, 201, None)
  }

  datatype LoginResult = LoggedIn(user: User) | Refused(message: string)

  /** The passport local strategy. */
  function Login(st: Store, username: string, password: string): (r: LoginResult)
    ensures r == Refused("Incorrect username") <==> GetUserByUsername(st, username).None?
    ensures r == Refused("Incorrect password") <==>
      GetUserByUsername(st, username).Some? && GetUserByUsername(st, username).value.password != password
    ensures r.LoggedIn? ==> r.user in st.users.rows && r.user.username == username && r.user.password == password
    ensures r.Refused? || r.LoggedIn?
  {
    var found := GetUserByUsername(st, username);
    if found.None? then Refused("Incorrect username")
    else if found.value.password != password then Refused("Incorrect password")
    else LoggedIn(found.value)
  }

  /** No two users share a username. */
  ghost predicate UniqueUsernames(st: Store) {
    forall i, j :: 0 <= i < j < |st.users.rows| ==> st.users.rows[i].username != st.users.rows[j].username
  }

  /** With unique usernames, login succeeds exactly for a stored pair of
      username and password. */
  lemma LoginIffCredentials(st: Store, username: string, password: string)
    requires UniqueUsernames(st)
    ensures Login(st, username, password).LoggedIn? <==>
      exists i :: 0 <= i < |st.users.rows| && st.users.rows[i].username == username && st.users.rows[i].password == password
  {
    var found := GetUserByUsername(st, username);
    if found.Some? {
      var i :| 0 <= i < |st.users.rows| && st.users.rows[i] == found.value && found.value.username == username;
      assert forall j :: 0 <= j < |st.users.rows| && st.users.rows[j].username == username ==> j == i;
    }
  }

  // ---------------------------------------------------------------- admin gate

  datatype Gate = Proceed(user: User) | Reject(status: nat)

  /** The isAdmin middleware: 401 without a login, 403 unless the user's
      type is "admin". */
  function AdminGate(st: Store, session: Session): (g: Gate)
    ensures g == Reject(401) <==> Requester(st, session).None?
    ensures g == Reject(403) <==> Requester(st, session).Some? && Requester(st, session).value.userType != Some("admin")
    ensures g.Proceed? <==> Requester(st, session).Some? && Requester(st, session).value.userType == Some("admin")
    ensures g.Proceed? ==> g.user == Requester(st, session).value
  {
    var u := Requester(st, session);
    if u.None? then Reject(401)
    else if u.value.userType != Some("admin") then Reject(403)
    else Proceed(u.value)
  }

  /** The register route accepts the admin role: a fresh username
      registered as "admin" passes the admin gate once signed in. */
  lemma RegisteredAdminPassesGate(st: Store, username: string, password: string, email: string, now: Time)
    requires Valid(st) && GetUserByUsername(st, username).None?
    ensures var r := Register(st, Registration(username, password, email, Some("admin")), now);
      r.status == 201 && AdminGate(r.store, Some(st.users.next)).Proceed?
  {
    var c := CreateUser(st, NewUser(username, password, email, Some("admin")), now);
    assert GetUser(c.store, st.users.next) == Some(c.row);
  }

  // ---------------------------------------------------------------- bookings

  /** POST /api/bookings. The mentor id is taken from the request as
      sent; the slot's own mentor is not compared with it. */
  function BookSlot(st: Store, session: Session, mentorId: Id, slotId: Id, now: Time): (r: Reply<Id>)
    ensures r.status in {201, 400, 401, 404}
    ensures r.status == 401 <==> Requester(st, session).None?
    ensures r.status == 404 <==> Requester(st, session).Some? && GetSlot(st, slotId).None?
    ensures r.status == 400 <==> Requester(st, session).Some? && GetSlot(st, slotId).Some? && GetSlot(st, slotId).value.isBooked
    ensures r.status != 201 ==> r.store == st && r.value.None?
    ensures r.status == 201 ==> r.value == Some(st.bookings.next)
    ensures r.status == 201 ==> r.store == st.(bookings := r.store.bookings, slots := r.store.slots)
    ensures Valid(st) ==> Valid(r.store)
    ensures Valid(st) && r.status == 201 ==>
      var slot := GetSlot(st, slotId).value;
      && GetBooking(r.store, st.bookings.next) == Some(Booking(st.bookings.next, session.value, mentorId, slotId, "confirmed",
                                                              slot.startTime, slot.endTime, BookingAmount, "paid",
                                                              None, None, now, now))
      && GetSlot(r.store, slotId) == Some(slot.(isBooked := true))
  {
    var u := Requester(st, session);
    if u.None? then Reply(st, 401, None)
    else
      var slot := GetSlot(st, slotId);
      if slot.None? then Reply(st, 404, None)
      else if slot.value.isBooked then Reply(st, 400, None)
      else
        var c := CreateBooking(st, NewBooking(u.value.id, mentorId, slotId, "confirmed", slot.value.startTime,
                                              slot.value.endTime, BookingAmount, "paid"), now);
        Reply(MarkSlotAsBooked(c.store, slotId), 201, Some(c.row.id))
  }

  /** Whether the user may see or complete the booking. */
  predicate Party(b: Booking, userId: Id) {
    b.studentId == userId || b.mentorId == userId
  }

  /** GET /api/bookings/:id: read-only. */
  function ViewBooking(st: Store, session: Session, bookingId: Id): (r: Reply<Booking>)
    ensures r.store == st
    ensures r.status in {200, 401, 403, 404}
    ensures r.status == 401 <==> Requester(st, session).None?
    ensures r.status == 404 <==> Requester(st, session).Some? && GetBooking(st, bookingId).None?
    ensures r.status == 403 <==> (Requester(st, session).Some? && GetBooking(st, bookingId).Some?
      && !Party(GetBooking(st, bookingId).value, session.value))
    ensures r.status == 200 <==> r.value.Some?
    ensures r.value.Some? ==> r.value == GetBooking(st, bookingId) && Party(r.value.value, session.value)
  {
    var u := Requester(st, session);
    if u.None? then Reply(st, 401, None)
    else
      var b := GetBooking(st, bookingId);
      if b.None? then Reply(st, 404, None)
      else if !Party(b.value, u.value.id) then Reply(st, 403, None)
      else Reply(st, 200, b)
  }

  /** POST /api/bookings/:id/complete: a party to the booking sets its
      status to "completed"; nothing else changes. */
  function CompleteBooking(st: Store, session: Session, bookingId: Id, now: Time): (r: Reply<()>)
    ensures r.status in {200, 401, 403, 404}
    ensures r.status == 401 <==> Requester(st, session).None?
    ensures r.status == 404 <==> Requester(st, session).Some? && GetBooking(st, bookingId).None?
    ensures r.status == 403 <==> (Requester(st, session).Some? && GetBooking(st, bookingId).Some?
      && !Party(GetBooking(st, bookingId).value, session.value))
    ensures r.status != 200 ==> r.store == st
    ensures r.store == st.(bookings := r.store.bookings)
    ensures Valid(st) ==> Valid(r.store)
    ensures Valid(st) && r.status == 200 ==>
      && GetBooking(r.store, bookingId) == Some(GetBooking(st, bookingId).value.(status := "completed", updatedAt := now))
      && forall k :: k != bookingId ==> GetBooking(r.store, k) == GetBooking(st, k)
  {
    var u := Requester(st, session);
    if u.None? then Reply(st, 401, None)
    else
      var b := GetBooking(st, bookingId);
      if b.None? then Reply(st, 404, None)
      else if !Party(b.value, u.value.id) then Reply(st, 403, None)
      else Reply(UpdateBookingStatus(st, bookingId, "completed", now), 200, None)
  }

  // ---------------------------------------------------------------- reviews

  /** `if (booking.reviewId)`: JavaScript truthiness, so an id of 0 would
      read as no review. */
  predicate HasReview(b: Booking) {
    b.reviewId.Some? && b.reviewId.value != 0
  }

  /** POST /api/reviews. The rating recomputed is that of the mentor id
      sent with the request. */
  function SubmitReview(st: Store, session: Session, bookingId: Id, mentorId: Id, rating: int,
                        comment: Option<string>, now: Time): (r: Reply<Id>)
    ensures r.status in {201, 400, 401, 403, 404}
    ensures r.status == 401 <==> Requester(st, session).None?
    ensures r.status == 404 <==> Requester(st, session).Some? && GetBooking(st, bookingId).None?
    ensures r.status == 403 <==> (Requester(st, session).Some? && GetBooking(st, bookingId).Some?
      && GetBooking(st, bookingId).value.studentId != session.value)
    ensures r.status == 400 <==> (Requester(st, session).Some? && GetBooking(st, bookingId).Some?
      && GetBooking(st, bookingId).value.studentId == session.value
      && (GetBooking(st, bookingId).value.status != "completed" || HasReview(GetBooking(st, bookingId).value)))
    ensures r.status != 201 ==> r.store == st && r.value.None?
    ensures r.status == 201 ==> (r.value == Some(st.reviews.next)
      && r.store.reviews.rows == st.reviews.rows + [Review(st.reviews.next, bookingId, session.value, mentorId, rating, comment, now)])
    ensures Valid(st) && r.status == 201 ==>
      GetBooking(r.store, bookingId) == Some(GetBooking(st, bookingId).value.(reviewId := Some(st.reviews.next), updatedAt := now))
    ensures Valid(st) && r.status == 201 ==>
      var rs := MentorReviews(r.store, mentorId);
      && |rs| > 0
      && GetMentor(r.store, mentorId) == (if GetMentor(st, mentorId).Some?
                                          then Some(GetMentor(st, mentorId).value.(rating := Average(rs), reviewCount := |rs|))
                                          else None)
    ensures Valid(st) ==> forall k :: k != mentorId ==> GetMentor(r.store, k) == GetMentor(st, k)
    ensures Valid(st) ==> Valid(r.store)
  {
    var u := Requester(st, session);
    if u.None? then Reply(st, 401, None)
    else
      var b := GetBooking(st, bookingId);
      if b.None? then Reply(st, 404, None)
      else if b.value.studentId != u.value.id then Reply(st, 403, None)
      else if b.value.status != "completed" then Reply(st, 400, None)
      else if HasReview(b.value) then Reply(st, 400, None)
      else
        var c := CreateReview(st, NewReview(bookingId, u.value.id, mentorId, rating, comment), now);
        var linked := UpdateBookingReview(c.store, bookingId, c.row.id, now);
        assert c.row in MentorReviews(linked, mentorId) by {
          assert linked.reviews.rows[|st.reviews.rows|] == c.row;
        }
        Reply(UpdateMentorRating(linked, mentorId), 201, Some(c.row.id))
  }

  // ---------------------------------------------------------------- conversations and messages

  /** GET /api/messages/conversation/:id: membership is checked before
      existence. Read-only. */
  function ViewConversation(st: Store, session: Session, conversationId: Id): (r: Reply<Conversation>)
    ensures r.store == st
    ensures r.status in {200, 401, 403, 404}
    ensures r.status == 401 <==> Requester(st, session).None?
    ensures r.status == 403 <==> Requester(st, session).Some? && !IsParticipant(st, conversationId, session.value)
    ensures r.status == 404 <==> (Requester(st, session).Some? && IsParticipant(st, conversationId, session.value)
      && GetConversation(st, conversationId).None?)
    ensures r.status == 200 ==> r.value == GetConversation(st, conversationId) && r.value.Some?
  {
    var u := Requester(st, session);
    if u.None? then Reply(st, 401, None)
    else if !IsParticipant(st, conversationId, u.value.id) then Reply(st, 403, None)
    else
      var c := GetConversation(st, conversationId);
      if c.None? then Reply(st, 404, None) else Reply(st, 200, c)
  }

  /** POST /api/messages/conversation/mentor/:mentorId: reuse a shared
      conversation, otherwise open one with the two of them. The path id
      is used as a user id. `if (!conversationId)` also treats an id of 0
      as none. */
  function MentorConversation(st: Store, session: Session, mentorId: Id, now: Time): (r: Reply<Id>)
    ensures r.status == 200 || r.status == 401
    ensures r.status == 401 <==> Requester(st, session).None?
    ensures r.status == 401 ==> r.store == st && r.value.None?
    ensures r.status == 200 ==> (r.value.Some?
      && IsParticipant(r.store, r.value.value, session.value) && IsParticipant(r.store, r.value.value, mentorId))
    ensures (r.status == 200 && FindConversationBetween(st, session.value, mentorId).Some?
             && FindConversationBetween(st, session.value, mentorId).value != 0) ==>
      r.store == st && r.value == FindConversationBetween(st, session.value, mentorId)
    ensures r.status == 200 && r.store != st ==>
      && r.value == Some(st.conversations.next)
      && r.store == st.(conversations := r.store.conversations, participants := r.store.participants)
      && r.store.conversations.rows == st.conversations.rows + [Conversation(st.conversations.next, now)]
      && r.store.conversations.next == st.conversations.next + 1
      && r.store.participants.rows == st.participants.rows
           + [Participant(st.participants.next, st.conversations.next, session.value, now),
              Participant(st.participants.next + 1, st.conversations.next, mentorId, now)]
    ensures Valid(st) ==> Valid(r.store)
  {
    var u := Requester(st, session);
    if u.None? then Reply(st, 401, None)
    else
      var found := FindConversationBetween(st, u.value.id, mentorId);
      if found.Some? && found.value != 0 then Reply(st, 200, found)
      else Reply(OpenConversation(st, u.value.id, mentorId, now), 200, Some(st.conversations.next))
  }

  /** createConversation followed by adding the requester and then the
      mentor as participants. */
  function OpenConversation(st: Store, userId: Id, mentorId: Id, now: Time): (s: Store)
    ensures s == st.(conversations := s.conversations, participants := s.participants)
    ensures s.conversations.rows == st.conversations.rows + [Conversation(st.conversations.next, now)]
    ensures s.conversations.next == st.conversations.next + 1
    ensures s.participants.rows == st.participants.rows
              + [Participant(st.participants.next, st.conversations.next, userId, now),
                 Participant(st.participants.next + 1, st.conversations.next, mentorId, now)]
    ensures IsParticipant(s, st.conversations.next, userId) && IsParticipant(s, st.conversations.next, mentorId)
    ensures s != st
    ensures Valid(st) ==> Valid(s)
  {
    var c := CreateConversation(st, now);
    var s1 := AddParticipant(c.store, c.row.id, userId, now);
    var s2 := AddParticipant(s1, c.row.id, mentorId, now);
    var n := |st.participants.rows|;
    assert IsParticipant(s2, c.row.id, userId) by { assert s2.participants.rows[n].userId == userId; }
    assert IsParticipant(s2, c.row.id, mentorId) by { assert s2.participants.rows[n + 1].userId == mentorId; }
    assert s2 != st by { assert |s2.participants.rows| != n; }
    s2
  }

  /** GET /api/messages/:conversationId: members get the listing as it
      was, and afterwards nothing in it is unread for them. */
  function ReadMessages(st: Store, session: Session, conversationId: Id): (r: Reply<seq<Message>>)
    ensures r.status in {200, 401, 403}
    ensures r.status == 401 <==> Requester(st, session).None?
    ensures r.status == 403 <==> Requester(st, session).Some? && !IsParticipant(st, conversationId, session.value)
    ensures r.status != 200 ==> r.store == st && r.value.None?
    ensures r.status == 200 ==> (r.value.Some?
      && r.value.value == ConversationMessages(st, conversationId)
      && (forall m :: m in r.value.value <==> m in st.messages.rows && Listed(st, m, conversationId))
      && multiset(r.value.value) <= multiset(st.messages.rows)
      && SortedBy(r.value.value, TimestampOf)
      && UnreadCount(r.store, conversationId, session.value) == 0
      && r.store == MarkMessagesAsRead(st, conversationId, session.value))
    ensures Valid(st) && r.status == 200 ==>
      |r.value.value| == |set m | m in st.messages.rows && Listed(st, m, conversationId)|
    ensures Valid(st) ==> Valid(r.store)
  {
    var u := Requester(st, session);
    if u.None? then Reply(st, 401, None)
    else if !IsParticipant(st, conversationId, u.value.id) then Reply(st, 403, None)
    else
      var listing := ConversationMessages(st, conversationId);
      Reply(MarkMessagesAsRead(st, conversationId, u.value.id), 200, Some(listing))
  }

  /** POST /api/messages/:conversationId: members append an unread
      message. The server does not check the content. */
  function SendMessage(st: Store, session: Session, conversationId: Id, content: string, now: Time): (r: Reply<Id>)
    ensures r.status in {201, 401, 403}
    ensures r.status == 401 <==> Requester(st, session).None?
    ensures r.status == 403 <==> Requester(st, session).Some? && !IsParticipant(st, conversationId, session.value)
    ensures r.status != 201 ==> r.store == st && r.value.None?
    ensures r.status == 201 ==> (r.value == Some(st.messages.next) && r.store == st.(messages := r.store.messages)
      && r.store.messages.rows == st.messages.rows + [Message(st.messages.next, conversationId, session.value, content, false, now)])
    ensures Valid(st) ==> Valid(r.store)
  {
    var u := Requester(st, session);
    if u.None? then Reply(st, 401, None)
    else if !IsParticipant(st, conversationId, u.value.id) then Reply(st, 403, None)
    else
      var c := CreateMessage(st, conversationId, u.value.id, content, now);
      Reply(c.store, 201, Some(c.row.id))
  }

  /** A sent message appears in the conversation's next listing, which
      keeps every message it had and grows by exactly one; it is unread
      for every other user and not for its sender. */
  lemma SentMessageListed(st: Store, session: Session, conversationId: Id, content: string, now: Time)
    requires Valid(st)
    requires SendMessage(st, session, conversationId, content, now).status == 201
    ensures var st' := SendMessage(st, session, conversationId, content, now).store;
      var m := Message(st.messages.next, conversationId, session.value, content, false, now);
      && (forall x :: x in ConversationMessages(st', conversationId) <==> x == m || x in ConversationMessages(st, conversationId))
      && |ConversationMessages(st', conversationId)| == |ConversationMessages(st, conversationId)| + 1
      && UnreadCount(st', conversationId, session.value) == UnreadCount(st, conversationId, session.value)
      && forall u :: u != session.value ==> UnreadCount(st', conversationId, u) == UnreadCount(st, conversationId, u) + 1
  {
    var st' := SendMessage(st, session, conversationId, content, now).store;
    var m := Message(st.messages.next, conversationId, session.value, content, false, now);
    SendAppends(st, session, conversationId, content, now);
    AppendedMessageListed(st, st', m);
    AppendedMessageUnreadAll(st, st', m);
  }

  /** A successful send appends one fresh, unread message from a known
      sender and changes nothing but the messages table. */
  lemma SendAppends(st: Store, session: Session, conversationId: Id, content: string, now: Time)
    requires Valid(st)
    requires SendMessage(st, session, conversationId, content, now).status == 201
    ensures var st' := SendMessage(st, session, conversationId, content, now).store;
      var m := Message(st.messages.next, conversationId, session.value, content, false, now);
      && Valid(st') && st'.users == st.users && GetUser(st, m.senderId).Some?
      && st'.messages.rows == st.messages.rows + [m] && m !in st.messages.rows
  {
    var m := Message(st.messages.next, conversationId, session.value, content, false, now);
    assert m !in st.messages.rows by {
      DenseIdsIncrease(st.messages, MessageKey);
      forall x | x in st.messages.rows ensures x.id < st.messages.next {
        var i :| 0 <= i < |st.messages.rows| && st.messages.rows[i] == x;
      }
    }
  }

  /** POST /api/mentor/apply: a signed-in user files a pending application. */
  function ApplyAsMentor(st: Store, session: Session, form: ApplicationForm, now: Time): (r: Reply<Id>)
    ensures r.status == 201 || r.status == 401
    ensures r.status == 401 <==> Requester(st, session).None?
    ensures r.status == 401 ==> r.store == st
    ensures r.status == 201 ==> (r.value == Some(st.applications.next) && r.store == st.(applications := r.store.applications)
      && r.store.applications.rows == st.applications.rows + [Application(st.applications.next, session.value, "pending", form, None, None, now, now)])
    ensures Valid(st) ==> Valid(r.store)
  {
    var u := Requester(st, session);
    if u.None? then Reply(st, 401, None)
    else
      var c := CreateApplication(st, u.value.id, form, now);
      Reply(c.store, 201, Some(c.row.id))
  }
}
