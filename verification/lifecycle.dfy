/** The booking and review lifecycle that the handlers of server/routes.ts
    maintain on top of the store: a slot is booked at most once, a booking
    carries at most one review, and only a completed booking's own student
    reviews it. Requests are served one after another. */
module Lifecycle {
  import opened Wrappers
  import opened Tables
  import opened Storage
  import opened Routes

  predicate SlotTaken(st: Store, slotId: Id) {
    GetSlot(st, slotId).Some? && GetSlot(st, slotId).value.isBooked
  }

  /** Every booking's slot exists and is marked booked. */
  ghost predicate BookingsHoldSlots(st: Store) {
    forall k :: GetBooking(st, k).Some? ==> SlotTaken(st, GetBooking(st, k).value.slotId)
  }

  /** No two bookings share a slot. */
  ghost predicate OneBookingPerSlot(st: Store) {
    forall j, k :: j != k && GetBooking(st, j).Some? && GetBooking(st, k).Some? ==>
      GetBooking(st, j).value.slotId != GetBooking(st, k).value.slotId
  }

  /** A review belongs to a completed booking of its own student, and that
      booking points back at it. */
  predicate Linked(st: Store, v: Review) {
    && GetBooking(st, v.bookingId).Some?
    && GetBooking(st, v.bookingId).value.reviewId == Some(v.id)
    && GetBooking(st, v.bookingId).value.status == "completed"
    && GetBooking(st, v.bookingId).value.studentId == v.studentId
  }

  ghost predicate ReviewsLinked(st: Store) {
    forall k :: GetReview(st, k).Some? ==> Linked(st, GetReview(st, k).value)
  }

  /** Membership rows only name conversations already handed out. */
  ghost predicate ParticipantsKnown(st: Store) {
    forall p :: p in st.participants.rows ==> p.conversationId < st.conversations.next
  }

  ghost predicate Inv(st: Store) {
    && Valid(st) && UniqueUsernames(st) && BookingsHoldSlots(st) && OneBookingPerSlot(st)
    && ReviewsLinked(st) && ParticipantsKnown(st)
  }

  lemma EmptyInv()
    ensures Inv(Empty())
  {
    var st := Empty();
    forall k ensures GetBooking(st, k).None? && GetReview(st, k).None? {
    }
  }

  /** Reviews of the same booking are the same review. */
  lemma OneReviewPerBooking(st: Store, j: Id, k: Id)
    requires ReviewsLinked(st)
    requires GetReview(st, j).Some? && GetReview(st, k).Some?
    requires GetReview(st, j).value.bookingId == GetReview(st, k).value.bookingId
    ensures j == k
  {
    assert Linked(st, GetReview(st, j).value) && Linked(st, GetReview(st, k).value);
  }

  /** A stored review's booking was completed and reviewed by its student. */
  lemma ReviewedOnlyWhenCompleted(st: Store, k: Id)
    requires Inv(st) && GetReview(st, k).Some?
    ensures var b := GetBooking(st, GetReview(st, k).value.bookingId);
      b.Some? && b.value.status == "completed" && HasReview(b.value)
      && b.value.studentId == GetReview(st, k).value.studentId
  {
    assert Linked(st, GetReview(st, k).value);
    DenseGet(st.reviews, ReviewKey, k);
  }

  // ---------------------------------------------------------------- per route

  /** Routes that leave users, slots, bookings, reviews, conversations and
      memberships alone keep the lifecycle. */
  lemma QuietKeepsInv(st: Store, st': Store)
    requires Inv(st) && Valid(st')
    requires st'.users == st.users && st'.slots == st.slots && st'.bookings == st.bookings
    requires st'.reviews == st.reviews && st'.conversations == st.conversations && st'.participants == st.participants
    ensures Inv(st')
  {
    assert forall k :: GetBooking(st', k) == GetBooking(st, k);
    assert forall k :: GetSlot(st', k) == GetSlot(st, k);
    assert forall k :: GetReview(st', k) == GetReview(st, k);
  }

  lemma ReadKeepsInv(st: Store, session: Session, cid: Id)
    requires Inv(st)
    ensures Inv(ReadMessages(st, session, cid).store)
  {
    QuietKeepsInv(st, ReadMessages(st, session, cid).store);
  }

  lemma SendKeepsInv(st: Store, session: Session, cid: Id, content: string, now: Time)
    requires Inv(st)
    ensures Inv(SendMessage(st, session, cid, content, now).store)
  {
    QuietKeepsInv(st, SendMessage(st, session, cid, content, now).store);
  }

  lemma ApplyKeepsInv(st: Store, session: Session, form: ApplicationForm, now: Time)
    requires Inv(st)
    ensures Inv(ApplyAsMentor(st, session, form, now).store)
  {
    QuietKeepsInv(st, ApplyAsMentor(st, session, form, now).store);
  }

  lemma RegisterKeepsInv(st: Store, reg: Registration, now: Time)
    requires Inv(st)
    ensures Inv(Register(st, reg, now).store)
  {
    var r := Register(st, reg, now);
    if r.status == 201 {
      var rows := st.users.rows;
      var row := User(st.users.next, reg.username, reg.password, reg.email, reg.userType, now, now);
      assert r.store.users.rows == rows + [row];
      assert GetUserByUsername(st, reg.username).None?;
      assert forall i :: 0 <= i < |rows| ==> rows[i].username != reg.username;
      assert UniqueUsernames(r.store);
      assert forall k :: GetBooking(r.store, k) == GetBooking(st, k);
      assert forall k :: GetSlot(r.store, k) == GetSlot(st, k);
      assert forall k :: GetReview(r.store, k) == GetReview(st, k);
    }
  }

  lemma BookKeepsInv(st: Store, session: Session, mentorId: Id, slotId: Id, now: Time)
    requires Inv(st)
    ensures Inv(BookSlot(st, session, mentorId, slotId, now).store)
  {
    var r := BookSlot(st, session, mentorId, slotId, now);
    if r.status == 201 {
      BookFrame(st, session, mentorId, slotId, now);
      BookedKeepsInv(st, r.store, slotId, GetBooking(r.store, st.bookings.next).value);
    }
  }

  /** What a successful booking changes: one new booking row on the slot,
      that slot marked booked, everything else as it was. */
  lemma BookFrame(st: Store, session: Session, mentorId: Id, slotId: Id, now: Time)
    requires Valid(st)
    requires BookSlot(st, session, mentorId, slotId, now).status == 201
    ensures var st' := BookSlot(st, session, mentorId, slotId, now).store;
      var n := st.bookings.next;
      && GetBooking(st', n).Some? && GetBooking(st', n).value.slotId == slotId && GetBooking(st', n).value.id == n
      && (forall k :: k != n ==> GetBooking(st', k) == GetBooking(st, k))
      && (forall k :: k != slotId ==> GetSlot(st', k) == GetSlot(st, k))
  {
    var u := Requester(st, session).value;
    var slot := GetSlot(st, slotId).value;
    var c := CreateBooking(st, NewBooking(u.id, mentorId, slotId, "confirmed", slot.startTime,
                                          slot.endTime, BookingAmount, "paid"), now);
    var st' := BookSlot(st, session, mentorId, slotId, now).store;
    assert st' == MarkSlotAsBooked(c.store, slotId);
    assert forall k :: GetBooking(st', k) == GetBooking(c.store, k);
    assert forall k :: GetSlot(c.store, k) == GetSlot(st, k);
  }

  /** Adding a booking row on a free slot and marking that slot booked
      keeps the invariant. */
  lemma BookedKeepsInv(st: Store, st': Store, slotId: Id, row: Booking)
    requires Inv(st) && Valid(st')
    requires st' == st.(bookings := st'.bookings, slots := st'.slots)
    requires row.id == st.bookings.next && row.slotId == slotId
    requires GetSlot(st, slotId).Some? && !GetSlot(st, slotId).value.isBooked
    requires GetSlot(st', slotId) == Some(GetSlot(st, slotId).value.(isBooked := true))
    requires forall k :: k != slotId ==> GetSlot(st', k) == GetSlot(st, k)
    requires GetBooking(st', row.id) == Some(row)
    requires forall k :: k != row.id ==> GetBooking(st', k) == GetBooking(st, k)
    ensures Inv(st')
  {
    var n := row.id;
    assert SlotTaken(st', slotId);
    // no old booking held the slot, since it was not booked
    assert forall k :: k != n && GetBooking(st, k).Some? ==> GetBooking(st, k).value.slotId != slotId;
    assert BookingsHoldSlots(st') by {
      forall k | GetBooking(st', k).Some? ensures SlotTaken(st', GetBooking(st', k).value.slotId) {
        if k != n {
          var s := GetBooking(st, k).value.slotId;
          assert SlotTaken(st, s);
          assert s == slotId || GetSlot(st', s) == GetSlot(st, s);
        }
      }
    }
    assert OneBookingPerSlot(st');
    assert forall k :: GetReview(st', k) == GetReview(st, k);
    assert ReviewsLinked(st') by {
      forall k | GetReview(st', k).Some? ensures Linked(st', GetReview(st', k).value) {
        var v := GetReview(st, k).value;
        assert Linked(st, v);
        assert v.bookingId != n by {
          DenseGet(st.bookings, BookingKey, v.bookingId);
        }
      }
    }
  }

  lemma CompleteKeepsInv(st: Store, session: Session, bookingId: Id, now: Time)
    requires Inv(st)
    ensures Inv(CompleteBooking(st, session, bookingId, now).store)
  {
    var r := CompleteBooking(st, session, bookingId, now);
    if r.status == 200 {
      CompletedKeepsInv(st, r.store, bookingId, now);
    }
  }

  /** Marking one existing booking completed, with nothing else changed,
      keeps the invariant. */
  lemma CompletedKeepsInv(st: Store, st': Store, bookingId: Id, now: Time)
    requires Inv(st) && Valid(st')
    requires st' == st.(bookings := st'.bookings)
    requires GetBooking(st, bookingId).Some?
    requires GetBooking(st', bookingId) == Some(GetBooking(st, bookingId).value.(status := "completed", updatedAt := now))
    requires forall k :: k != bookingId ==> GetBooking(st', k) == GetBooking(st, k)
    ensures Inv(st')
  {
    assert forall k :: GetSlot(st', k) == GetSlot(st, k);
    assert forall k :: GetReview(st', k) == GetReview(st, k);
    assert forall k :: GetBooking(st', k).Some? <==> GetBooking(st, k).Some?;
    assert forall k :: GetBooking(st', k).Some? ==> GetBooking(st', k).value.slotId == GetBooking(st, k).value.slotId;
    assert BookingsHoldSlots(st');
    assert OneBookingPerSlot(st');
    assert ReviewsLinked(st') by {
      forall k | GetReview(st', k).Some? ensures Linked(st', GetReview(st', k).value) {
        var v := GetReview(st, k).value;
        assert Linked(st, v);
      }
    }
  }

  /** What a successful review changes: slots stay, only the reviewed
      booking changes (it gains the new review's id), and the reviews are
      those after the insert. */
  lemma ReviewFrame(st: Store, session: Session, bookingId: Id, mentorId: Id, rating: int,
                    comment: Option<string>, now: Time)
    requires Inv(st)
    requires SubmitReview(st, session, bookingId, mentorId, rating, comment, now).status == 201
    ensures var st' := SubmitReview(st, session, bookingId, mentorId, rating, comment, now).store;
      var u := Requester(st, session).value;
      var c := CreateReview(st, NewReview(bookingId, u.id, mentorId, rating, comment), now);
      && (forall k :: GetSlot(st', k) == GetSlot(st, k))
      && (forall k :: k != bookingId ==> GetBooking(st', k) == GetBooking(st, k))
      && GetBooking(st, bookingId).Some?
      && GetBooking(st', bookingId) == Some(GetBooking(st, bookingId).value.(reviewId := Some(c.row.id), updatedAt := now))
      && (forall k :: GetReview(st', k) == GetReview(c.store, k))
  {
    var r := SubmitReview(st, session, bookingId, mentorId, rating, comment, now);
    var u := Requester(st, session).value;
    var c := CreateReview(st, NewReview(bookingId, u.id, mentorId, rating, comment), now);
    var linked := UpdateBookingReview(c.store, bookingId, c.row.id, now);
    assert r.store == UpdateMentorRating(linked, mentorId);
    assert forall k :: GetBooking(r.store, k) == GetBooking(linked, k);
    assert forall k :: GetBooking(c.store, k) == GetBooking(st, k);
  }

  lemma ReviewKeepsInv(st: Store, session: Session, bookingId: Id, mentorId: Id, rating: int,
                       comment: Option<string>, now: Time)
    requires Inv(st)
    ensures Inv(SubmitReview(st, session, bookingId, mentorId, rating, comment, now).store)
  {
    var r := SubmitReview(st, session, bookingId, mentorId, rating, comment, now);
    if r.status == 201 {
      ReviewFrame(st, session, bookingId, mentorId, rating, comment, now);
      var u := Requester(st, session).value;
      var c := CreateReview(st, NewReview(bookingId, u.id, mentorId, rating, comment), now);
      LinkedReviewKeepsInv(st, r.store, bookingId, c.row, now);
    }
  }

  /** Adding a review row and pointing its completed, unreviewed booking
      at it keeps the invariant, whatever happens to the mentors. */
  lemma LinkedReviewKeepsInv(st: Store, st': Store, bookingId: Id, row: Review, now: Time)
    requires Inv(st) && Valid(st')
    requires st'.users == st.users && st'.slots == st.slots
    requires st'.conversations == st.conversations && st'.participants == st.participants
    requires GetBooking(st, bookingId).Some?
    requires var b := GetBooking(st, bookingId).value;
      b.status == "completed" && !HasReview(b) && b.studentId == row.studentId && row.bookingId == bookingId
    requires forall k :: k != bookingId ==> GetBooking(st', k) == GetBooking(st, k)
    requires GetBooking(st', bookingId) == Some(GetBooking(st, bookingId).value.(reviewId := Some(row.id), updatedAt := now))
    requires forall k :: GetReview(st', k) == if k == row.id then Some(row) else GetReview(st, k)
    ensures Inv(st')
  {
    assert forall k :: GetSlot(st', k) == GetSlot(st, k);
    assert forall k :: GetBooking(st', k).Some? <==> GetBooking(st, k).Some?;
    assert forall k :: GetBooking(st', k).Some? ==> GetBooking(st', k).value.slotId == GetBooking(st, k).value.slotId;
    assert BookingsHoldSlots(st');
    assert OneBookingPerSlot(st');
    assert ReviewsLinked(st') by {
      forall k | GetReview(st', k).Some? ensures Linked(st', GetReview(st', k).value) {
        if k != row.id {
          var v := GetReview(st, k).value;
          assert Linked(st, v) && v.id == k;
          DenseGet(st.reviews, ReviewKey, k);
          assert v.bookingId != bookingId;
        }
      }
    }
  }

  lemma ConversationKeepsInv(st: Store, session: Session, mentorId: Id, now: Time)
    requires Inv(st)
    ensures Inv(MentorConversation(st, session, mentorId, now).store)
  {
    var r := MentorConversation(st, session, mentorId, now);
    if r.store != st {
      OpenedKeepsInv(st, r.store, r.store.participants.rows[|st.participants.rows|..]);
    }
  }

  /** Opening a conversation (a new counter value, membership rows that
      name it) keeps the invariant. */
  lemma OpenedKeepsInv(st: Store, st': Store, added: seq<Participant>)
    requires Inv(st) && Valid(st')
    requires st' == st.(conversations := st'.conversations, participants := st'.participants)
    requires st'.conversations.next == st.conversations.next + 1
    requires st'.participants.rows == st.participants.rows + added
    requires forall p :: p in added ==> p.conversationId == st.conversations.next
    ensures Inv(st')
  {
    assert forall k :: GetBooking(st', k) == GetBooking(st, k);
    assert forall k :: GetSlot(st', k) == GetSlot(st, k);
    assert forall k :: GetReview(st', k) == GetReview(st, k);
    assert ParticipantsKnown(st') by {
      forall p | p in st'.participants.rows ensures p.conversationId < st'.conversations.next {
        assert p in st.participants.rows || p in added;
      }
    }
  }

  // ---------------------------------------------------------------- serving requests

  datatype Request =
    | RegisterRequest(reg: Registration)
    | BookRequest(mentorId: Id, slotId: Id)
    | ViewBookingRequest(bookingId: Id)
    | CompleteRequest(bookingId: Id)
    | ReviewRequest(bookingId: Id, reviewMentorId: Id, rating: int, comment: Option<string>)
    | ViewConversationRequest(conversationId: Id)
    | MentorConversationRequest(userIdOfMentor: Id)
    | ReadMessagesRequest(readConversationId: Id)
    | SendMessageRequest(sendConversationId: Id, content: string)
    | ApplyRequest(form: ApplicationForm)

  datatype Call = Call(session: Session, request: Request, now: Time)

  /** The store after one request. Each branch carries the proof that its
      route keeps the lifecycle invariant. */
  function Serve(st: Store, c: Call): (r: Store)
    ensures Valid(st) ==> Valid(r)
    ensures Inv(st) ==> Inv(r)
  {
    match c.request
    case RegisterRequest(reg) =>
      var r := Register(st, reg, c.now).store;
      assert Inv(st) ==> Inv(r) by { if Inv(st) { RegisterKeepsInv(st, reg, c.now); } }
      r
    case BookRequest(m, s) =>
      var r := BookSlot(st, c.session, m, s, c.now).store;
      assert Inv(st) ==> Inv(r) by { if Inv(st) { BookKeepsInv(st, c.session, m, s, c.now); } }
      r
    case ViewBookingRequest(b) => ViewBooking(st, c.session, b).store
    case CompleteRequest(b) =>
      var r := CompleteBooking(st, c.session, b, c.now).store;
      assert Inv(st) ==> Inv(r) by { if Inv(st) { CompleteKeepsInv(st, c.session, b, c.now); } }
      r
    case ReviewRequest(b, m, rating, comment) =>
      var r := SubmitReview(st, c.session, b, m, rating, comment, c.now).store;
      assert Inv(st) ==> Inv(r) by { if Inv(st) { ReviewKeepsInv(st, c.session, b, m, rating, comment, c.now); } }
      r
    case ViewConversationRequest(cid) => ViewConversation(st, c.session, cid).store
    case MentorConversationRequest(m) =>
      var r := MentorConversation(st, c.session, m, c.now).store;
      assert Inv(st) ==> Inv(r) by { if Inv(st) { ConversationKeepsInv(st, c.session, m, c.now); } }
      r
    case ReadMessagesRequest(cid) =>
      var r := ReadMessages(st, c.session, cid).store;
      assert Inv(st) ==> Inv(r) by { if Inv(st) { ReadKeepsInv(st, c.session, cid); } }
      r
    case SendMessageRequest(cid, content) =>
      var r := SendMessage(st, c.session, cid, content, c.now).store;
      assert Inv(st) ==> Inv(r) by { if Inv(st) { SendKeepsInv(st, c.session, cid, content, c.now); } }
      r
    case ApplyRequest(form) =>
      var r := ApplyAsMentor(st, c.session, form, c.now).store;
      assert Inv(st) ==> Inv(r) by { if Inv(st) { ApplyKeepsInv(st, c.session, form, c.now); } }
      r
  }

  /** The store after a sequence of requests, served in order. */
  function ServeAll(st: Store, calls: seq<Call>): (r: Store)
    ensures Valid(st) ==> Valid(r)
    decreases |calls|
  {
    if |calls| == 0 then st else ServeAll(Serve(st, calls[0]), calls[1..])
  }

  lemma {:induction false} ServeAllKeepsInv(st: Store, calls: seq<Call>)
    requires Inv(st)
    ensures Inv(ServeAll(st, calls))
    decreases |calls|
  {
    if |calls| > 0 {
      ServeAllKeepsInv(Serve(st, calls[0]), calls[1..]);
    }
  }

  /** From any store that keeps the lifecycle (the empty one, or one the
      sample data built), whatever requests arrive: no slot is held by two
      bookings, every booking's slot is booked, and no booking has two
      reviews. */
  lemma LifecycleHolds(st0: Store, calls: seq<Call>)
    requires Inv(st0)
    ensures var st := ServeAll(st0, calls);
      && OneBookingPerSlot(st) && BookingsHoldSlots(st) && ReviewsLinked(st)
      && forall j, k :: GetReview(st, j).Some? && GetReview(st, k).Some? && j != k ==>
           GetReview(st, j).value.bookingId != GetReview(st, k).value.bookingId
  {
    ServeAllKeepsInv(st0, calls);
    var st := ServeAll(st0, calls);
    forall j, k | GetReview(st, j).Some? && GetReview(st, k).Some? && j != k
      ensures GetReview(st, j).value.bookingId != GetReview(st, k).value.bookingId
    {
      if GetReview(st, j).value.bookingId == GetReview(st, k).value.bookingId {
        OneReviewPerBooking(st, j, k);
      }
    }
  }

  // ---------------------------------------------------------------- sample data

  /** The constructor's sample users: a user whose name is still free
      keeps the lifecycle. */
  lemma SeedUserKeepsInv(st: Store, data: NewUser, now: Time)
    requires Inv(st) && GetUserByUsername(st, data.username).None?
    ensures Inv(CreateUser(st, data, now).store)
  {
    var st' := CreateUser(st, data, now).store;
    var rows := st.users.rows;
    assert st'.users.rows == rows + [CreateUser(st, data, now).row];
    assert forall i :: 0 <= i < |rows| ==> rows[i].username != data.username;
    assert UniqueUsernames(st');
    assert forall k :: GetBooking(st', k) == GetBooking(st, k);
    assert forall k :: GetSlot(st', k) == GetSlot(st, k);
    assert forall k :: GetReview(st', k) == GetReview(st, k);
  }

  /** The sample mentor profiles keep the lifecycle. */
  lemma SeedMentorKeepsInv(st: Store, userId: Id, profile: MentorProfile, now: Time)
    requires Inv(st)
    ensures Inv(CreateMentor(st, userId, profile, now).store)
  {
    QuietKeepsInv(st, CreateMentor(st, userId, profile, now).store);
  }

  /** The sample slots: a new slot is free, and no booking holds it. */
  lemma SeedSlotKeepsInv(st: Store, mentorId: Id, startTime: Time, endTime: Time, now: Time)
    requires Inv(st)
    ensures Inv(CreateSlot(st, mentorId, startTime, endTime, now).store)
  {
    var c := CreateSlot(st, mentorId, startTime, endTime, now);
    var st' := c.store;
    assert GetSlot(st, c.row.id).None? by {
      DenseGet(st.slots, SlotKey, c.row.id);
    }
    assert forall k :: GetBooking(st', k) == GetBooking(st, k);
    assert forall k :: GetReview(st', k) == GetReview(st, k);
    assert forall k :: SlotTaken(st, k) ==> SlotTaken(st', k);
  }

  /** A store in the shape of the sample data: a student, a mentor with a
      profile, and one free slot of that mentor. */
  function Sample(profile: MentorProfile, startTime: Time, endTime: Time, now: Time): (st: Store)
    ensures Inv(st)
    ensures GetUser(st, 1).Some? && GetUser(st, 2).Some? && GetMentor(st, 1).Some?
    ensures GetSlot(st, 1) == Some(Slot(1, 1, startTime, endTime, false, now))
  {
    var s0 := Empty();
    EmptyInv();
    var u1 := CreateUser(s0, NewUser("student1", "password", "student1@example.com", Some("student")), now);
    SeedUserKeepsInv(s0, NewUser("student1", "password", "student1@example.com", Some("student")), now);
    var u2 := CreateUser(u1.store, NewUser("mentor1", "password", "mentor1@example.com", Some("mentor")), now);
    assert GetUserByUsername(u1.store, "mentor1").None? by {
      assert u1.store.users.rows == [u1.row];
    }
    SeedUserKeepsInv(u1.store, NewUser("mentor1", "password", "mentor1@example.com", Some("mentor")), now);
    var m := CreateMentor(u2.store, u2.row.id, profile, now);
    SeedMentorKeepsInv(u2.store, u2.row.id, profile, now);
    var sl := CreateSlot(m.store, m.row.id, startTime, endTime, now);
    SeedSlotKeepsInv(m.store, m.row.id, startTime, endTime, now);
    sl.store
  }

  /** The lifecycle is reachable and not vacuous: from any store that
      keeps it, a known user books a free slot, completes the booking and
      reviews it; each step succeeds, the review is stored against that
      booking, the slot is taken, and a second review is refused. */
  lemma BookCompleteReview(st: Store, session: Session, mentorId: Id, slotId: Id, rating: int,
                           comment: Option<string>, now: Time)
    requires Inv(st) && Requester(st, session).Some?
    requires GetSlot(st, slotId).Some? && !GetSlot(st, slotId).value.isBooked
    ensures var bookingId := st.bookings.next;
      var b := BookSlot(st, session, mentorId, slotId, now);
      var c := CompleteBooking(b.store, session, bookingId, now);
      var v := SubmitReview(c.store, session, bookingId, mentorId, rating, comment, now);
      && b.status == 201 && c.status == 200 && v.status == 201
      && Inv(v.store) && SlotTaken(v.store, slotId)
      && Review(c.store.reviews.next, bookingId, session.value, mentorId, rating, comment, now) in v.store.reviews.rows
      && SubmitReview(v.store, session, bookingId, mentorId, rating, comment, now).status == 400
  {
    var bookingId := st.bookings.next;
    var b := BookSlot(st, session, mentorId, slotId, now);
    BookKeepsInv(st, session, mentorId, slotId, now);
    assert Requester(b.store, session) == Requester(st, session);
    var c := CompleteBooking(b.store, session, bookingId, now);
    CompleteKeepsInv(b.store, session, bookingId, now);
    assert Requester(c.store, session) == Requester(st, session);
    assert GetSlot(c.store, slotId) == GetSlot(b.store, slotId);
    var v := SubmitReview(c.store, session, bookingId, mentorId, rating, comment, now);
    ReviewKeepsInv(c.store, session, bookingId, mentorId, rating, comment, now);
    ReviewFrame(c.store, session, bookingId, mentorId, rating, comment, now);
    assert v.store.reviews.rows[|c.store.reviews.rows|] == Review(c.store.reviews.next, bookingId, session.value, mentorId, rating, comment, now);
    assert Requester(v.store, session) == Requester(st, session);
  }
}
