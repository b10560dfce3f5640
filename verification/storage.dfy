/** The in-memory store `MemStorage` (server/storage.ts).

    Nine tables, each with its own id counter starting at 1. The clock
    (`new Date()`) is the parameter `now`; timestamps are integers
    (milliseconds). The display enrichment of rows (names, pictures) is not
    modelled, only the presence checks it performs. */
module Storage {
  import opened Wrappers
  import opened Tables

  type Time = int

  /** userType is absent when registration omitted it: the in-memory store
      applies no column default. */
  datatype User = User(id: Id, username: string, password: string, email: string, userType: Option<string>,
                       createdAt: Time, updatedAt: Time)
  datatype NewUser = NewUser(username: string, password: string, email: string, userType: Option<string>)

  datatype MentorProfile = MentorProfile(bio: string, university: string, degree: string, graduationYear: string,
                                         company: string, title: string, experience: string,
                                         expertise: seq<string>, languages: seq<string>)
  /** rating is a JavaScript number; it is modelled as an exact real. */
  datatype Mentor = Mentor(id: Id, userId: Id, profile: MentorProfile, rating: real, reviewCount: nat,
                           isVerified: bool, isActive: bool, createdAt: Time, updatedAt: Time)

  datatype Slot = Slot(id: Id, mentorId: Id, startTime: Time, endTime: Time, isBooked: bool, createdAt: Time)

  datatype Booking = Booking(id: Id, studentId: Id, mentorId: Id, slotId: Id, status: string,
                             startTime: Time, endTime: Time, amount: int, paymentStatus: string,
                             reviewId: Option<Id>, notes: Option<string>, createdAt: Time, updatedAt: Time)
  datatype NewBooking = NewBooking(studentId: Id, mentorId: Id, slotId: Id, status: string,
                                   startTime: Time, endTime: Time, amount: int, paymentStatus: string)

  datatype Review = Review(id: Id, bookingId: Id, studentId: Id, mentorId: Id, rating: int,
                           comment: Option<string>, date: Time)
  datatype NewReview = NewReview(bookingId: Id, studentId: Id, mentorId: Id, rating: int, comment: Option<string>)

  datatype Conversation = Conversation(id: Id, createdAt: Time)
  datatype Participant = Participant(id: Id, conversationId: Id, userId: Id, createdAt: Time)
  datatype Message = Message(id: Id, conversationId: Id, senderId: Id, content: string, isRead: bool, timestamp: Time)

  /** The fourteen answers of a mentor application. */
  datatype ApplicationForm = ApplicationForm(name: string, email: string, phone: string, university: string,
                                             degree: string, graduationYear: string, company: string, title: string,
                                             experience: string, bio: string, expertiseAreas: string,
                                             languages: string, linkedinProfile: Option<string>, hearAboutUs: string)
  datatype Application = Application(id: Id, userId: Id, status: string, form: ApplicationForm,
                                     reviewedBy: Option<Id>, reviewNotes: Option<string>,
                                     createdAt: Time, updatedAt: Time)

  datatype Store = Store(users: Table<User>, mentors: Table<Mentor>, slots: Table<Slot>,
                         bookings: Table<Booking>, reviews: Table<Review>,
                         conversations: Table<Conversation>, participants: Table<Participant>,
                         messages: Table<Message>, applications: Table<Application>)

  /** A create* returns the store after the insert and the stored row. */
  datatype Created<R> = Created(store: Store, row: R)

  function UserKey(u: User): Id { u.id }
  function MentorKey(m: Mentor): Id { m.id }
  function SlotKey(s: Slot): Id { s.id }
  function BookingKey(b: Booking): Id { b.id }
  function ReviewKey(r: Review): Id { r.id }
  function ConversationKey(c: Conversation): Id { c.id }
  function ParticipantKey(p: Participant): Id { p.id }
  function MessageKey(m: Message): Id { m.id }
  function ApplicationKey(a: Application): Id { a.id }

  /** Every table follows the counter discipline. */
  predicate Valid(st: Store) {
    && Dense(st.users, UserKey) && Dense(st.mentors, MentorKey) && Dense(st.slots, SlotKey)
    && Dense(st.bookings, BookingKey) && Dense(st.reviews, ReviewKey)
    && Dense(st.conversations, ConversationKey) && Dense(st.participants, ParticipantKey)
    && Dense(st.messages, MessageKey) && Dense(st.applications, ApplicationKey)
  }

  /** The constructor: every table empty, every counter at 1. */
  function Empty(): (st: Store)
    ensures Valid(st)
    ensures st.users.rows == [] && st.mentors.rows == [] && st.slots.rows == [] && st.bookings.rows == []
    ensures st.reviews.rows == [] && st.conversations.rows == [] && st.participants.rows == []
    ensures st.messages.rows == [] && st.applications.rows == []
  {
    Store(EmptyTable(), EmptyTable(), EmptyTable(), EmptyTable(), EmptyTable(),
          EmptyTable(), EmptyTable(), EmptyTable(), EmptyTable())
  }

  function GetUser(st: Store, id: Id): Option<User> { Get(st.users.rows, UserKey, id) }
  function GetMentor(st: Store, id: Id): Option<Mentor> { Get(st.mentors.rows, MentorKey, id) }
  function GetSlot(st: Store, id: Id): Option<Slot> { Get(st.slots.rows, SlotKey, id) }
  function GetBooking(st: Store, id: Id): Option<Booking> { Get(st.bookings.rows, BookingKey, id) }
  function GetReview(st: Store, id: Id): Option<Review> { Get(st.reviews.rows, ReviewKey, id) }
  function GetConversation(st: Store, id: Id): Option<Conversation> { Get(st.conversations.rows, ConversationKey, id) }

  /** getUserByUsername: the first user, in insertion order, with that name. */
  function GetUserByUsername(st: Store, username: string): (r: Option<User>)
    ensures r.None? <==> forall i :: 0 <= i < |st.users.rows| ==> st.users.rows[i].username != username
    ensures r.Some? ==> exists i :: (0 <= i < |st.users.rows| && st.users.rows[i] == r.value
      && r.value.username == username
      && forall j :: 0 <= j < i ==> st.users.rows[j].username != username)
  {
    FirstByName(st.users.rows, username)
  }

  function FirstByName(rows: seq<User>, username: string): (r: Option<User>)
    ensures r.None? <==> forall i :: 0 <= i < |rows| ==> rows[i].username != username
    ensures r.Some? ==> exists i :: (0 <= i < |rows| && rows[i] == r.value && r.value.username == username
      && forall j :: 0 <= j < i ==> rows[j].username != username)
  {
    if |rows| == 0 then None
    else if rows[0].username == username then
      Some(rows[0])
    else
      var r := FirstByName(rows[1..], username);
      assert forall i :: 1 <= i < |rows| ==> rows[i] == rows[1..][i - 1];
      if r.Some? then
        var i :| 0 <= i < |rows[1..]| && rows[1..][i] == r.value && r.value.username == username
          && forall j :: 0 <= j < i ==> rows[1..][j].username != username;
        assert rows[i + 1] == r.value;
        r
      else r
  }

  // ---------------------------------------------------------------- creates

  function CreateUser(st: Store, data: NewUser, now: Time): (r: Created<User>)
    ensures r.row.id == st.users.next
    ensures r.row == User(r.row.id, data.username, data.password, data.email, data.userType, now, now)
    ensures r.store == st.(users := r.store.users) && |r.store.users.rows| == |st.users.rows| + 1
    ensures Valid(st) ==> Valid(r.store) && GetUser(r.store, r.row.id) == Some(r.row)
    ensures Valid(st) ==> forall u :: u in st.users.rows ==> u.id < r.row.id
    ensures Valid(st) ==> forall k :: k != r.row.id ==> GetUser(r.store, k) == GetUser(st, k)
  {
    var row := User(st.users.next, data.username, data.password, data.email, data.userType, now, now);
    var st' := st.(users := Insert(st.users, row));
    if Valid(st) then
      InsertKeepsDense(st.users, UserKey, row);
      InsertGetAll(st.users, UserKey, row);
      Created(st', row)
    else Created(st', row)
  }

  /** Insert lookup for every id at once. */
  lemma InsertGetAll<R>(t: Table<R>, key: R -> Id, row: R)
    requires Dense(t, key) && key(row) == t.next
    ensures Dense(Insert(t, row), key)
    ensures forall k :: Get(Insert(t, row).rows, key, k) == if k == t.next then Some(row) else Get(t.rows, key, k)
  {
    InsertKeepsDense(t, key, row);
    forall k ensures Get(Insert(t, row).rows, key, k) == if k == t.next then Some(row) else Get(t.rows, key, k) {
      InsertGet(t, key, row, k);
    }
  }

  /** createMentor: a new mentor starts unrated, with no reviews, verified
      and active. */
  function CreateMentor(st: Store, userId: Id, profile: MentorProfile, now: Time): (r: Created<Mentor>)
    ensures r.row.id == st.mentors.next && r.row.userId == userId && r.row.profile == profile
    ensures r.row.rating == 0.0 && r.row.reviewCount == 0 && r.row.isVerified && r.row.isActive
    ensures r.store == st.(mentors := r.store.mentors) && |r.store.mentors.rows| == |st.mentors.rows| + 1
    ensures Valid(st) ==> Valid(r.store) && GetMentor(r.store, r.row.id) == Some(r.row)
    ensures Valid(st) ==> forall m :: m in st.mentors.rows ==> m.id < r.row.id
  {
    var row := Mentor(st.mentors.next, userId, profile, 0.0, 0, true, true, now, now);
    if Valid(st) then
      InsertGetAll(st.mentors, MentorKey, row);
      Created(st.(mentors := Insert(st.mentors, row)), row)
    else Created(st.(mentors := Insert(st.mentors, row)), row)
  }

  /** createSlot: a new slot is never booked. */
  function CreateSlot(st: Store, mentorId: Id, startTime: Time, endTime: Time, now: Time): (r: Created<Slot>)
    ensures r.row.id == st.slots.next && r.row.mentorId == mentorId
    ensures r.row.startTime == startTime && r.row.endTime == endTime && !r.row.isBooked
    ensures r.store == st.(slots := r.store.slots) && |r.store.slots.rows| == |st.slots.rows| + 1
    ensures Valid(st) ==> Valid(r.store) && GetSlot(r.store, r.row.id) == Some(r.row)
    ensures Valid(st) ==> forall k :: k != r.row.id ==> GetSlot(r.store, k) == GetSlot(st, k)
  {
    var row := Slot(st.slots.next, mentorId, startTime, endTime, false, now);
    if Valid(st) then
      InsertGetAll(st.slots, SlotKey, row);
      Created(st.(slots := Insert(st.slots, row)), row)
    else Created(st.(slots := Insert(st.slots, row)), row)
  }

  /** createBooking: the request's fields, no review and no notes yet. */
  function CreateBooking(st: Store, data: NewBooking, now: Time): (r: Created<Booking>)
    ensures r.row.id == st.bookings.next
    ensures r.row == Booking(r.row.id, data.studentId, data.mentorId, data.slotId, data.status, data.startTime,
                             data.endTime, data.amount, data.paymentStatus, None, None, now, now)
    ensures r.store == st.(bookings := r.store.bookings) && |r.store.bookings.rows| == |st.bookings.rows| + 1
    ensures Valid(st) ==> Valid(r.store) && GetBooking(r.store, r.row.id) == Some(r.row)
    ensures Valid(st) ==> forall k :: k != r.row.id ==> GetBooking(r.store, k) == GetBooking(st, k)
  {
    var row := Booking(st.bookings.next, data.studentId, data.mentorId, data.slotId, data.status, data.startTime,
                       data.endTime, data.amount, data.paymentStatus, None, None, now, now);
    if Valid(st) then
      InsertGetAll(st.bookings, BookingKey, row);
      Created(st.(bookings := Insert(st.bookings, row)), row)
    else Created(st.(bookings := Insert(st.bookings, row)), row)
  }

  /** createReview, dated now. */
  function CreateReview(st: Store, data: NewReview, now: Time): (r: Created<Review>)
    ensures r.row == Review(st.reviews.next, data.bookingId, data.studentId, data.mentorId, data.rating, data.comment, now)
    ensures r.store == st.(reviews := r.store.reviews) && |r.store.reviews.rows| == |st.reviews.rows| + 1
    ensures Valid(st) ==> Valid(r.store) && r.row.id >= 1
    ensures Valid(st) ==> forall v :: v in st.reviews.rows ==> v.id < r.row.id
    ensures Valid(st) ==> forall k :: GetReview(r.store, k) == if k == r.row.id then Some(r.row) else GetReview(st, k)
  {
    var row := Review(st.reviews.next, data.bookingId, data.studentId, data.mentorId, data.rating, data.comment, now);
    if Valid(st) then
      InsertGetAll(st.reviews, ReviewKey, row);
      Created(st.(reviews := Insert(st.reviews, row)), row)
    else Created(st.(reviews := Insert(st.reviews, row)), row)
  }

  function CreateConversation(st: Store, now: Time): (r: Created<Conversation>)
    ensures r.row == Conversation(st.conversations.next, now)
    ensures r.store == st.(conversations := r.store.conversations)
    ensures r.store.conversations.rows == st.conversations.rows + [r.row]
    ensures r.store.conversations.next == st.conversations.next + 1
    ensures Valid(st) ==> Valid(r.store) && GetConversation(r.store, r.row.id) == Some(r.row)
    ensures Valid(st) ==> forall c :: c in st.conversations.rows ==> c.id < r.row.id
  {
    var row := Conversation(st.conversations.next, now);
    if Valid(st) then
      InsertGetAll(st.conversations, ConversationKey, row);
      Created(st.(conversations := Insert(st.conversations, row)), row)
    else Created(st.(conversations := Insert(st.conversations, row)), row)
  }

  /** addConversationParticipant: one more membership row. It does not
      check that the conversation or the user exists. */
  function AddParticipant(st: Store, conversationId: Id, userId: Id, now: Time): (r: Store)
    ensures r == st.(participants := r.participants)
    ensures r.participants.rows == st.participants.rows + [Participant(st.participants.next, conversationId, userId, now)]
    ensures r.participants.next == st.participants.next + 1
    ensures Valid(st) ==> Valid(r)
  {
    var row := Participant(st.participants.next, conversationId, userId, now);
    if Valid(st) then
      InsertKeepsDense(st.participants, ParticipantKey, row);
      st.(participants := Insert(st.participants, row))
    else st.(participants := Insert(st.participants, row))
  }

  /** createMessage: a new message is unread. */
  function CreateMessage(st: Store, conversationId: Id, senderId: Id, content: string, now: Time): (r: Created<Message>)
    ensures r.row == Message(st.messages.next, conversationId, senderId, content, false, now)
    ensures r.store == st.(messages := r.store.messages)
    ensures r.store.messages.rows == st.messages.rows + [r.row]
    ensures Valid(st) ==> Valid(r.store)
    ensures Valid(st) ==> forall m :: m in st.messages.rows ==> m.id < r.row.id
  {
    var row := Message(st.messages.next, conversationId, senderId, content, false, now);
    if Valid(st) then
      InsertKeepsDense(st.messages, MessageKey, row);
      Created(st.(messages := Insert(st.messages, row)), row)
    else Created(st.(messages := Insert(st.messages, row)), row)
  }

  /** createMentorApplication: a new application is pending and unreviewed. */
  function CreateApplication(st: Store, userId: Id, form: ApplicationForm, now: Time): (r: Created<Application>)
    ensures r.row.id == st.applications.next && r.row.userId == userId && r.row.form == form
    ensures r.row.status == "pending" && r.row.reviewedBy.None? && r.row.reviewNotes.None?
    ensures r.store == st.(applications := r.store.applications)
    ensures Valid(st) ==> Valid(r.store)
    ensures Valid(st) ==> forall a :: a in st.applications.rows ==> a.id < r.row.id
  {
    var row := Application(st.applications.next, userId, "pending", form, None, None, now, now);
    if Valid(st) then
      InsertKeepsDense(st.applications, ApplicationKey, row);
      Created(st.(applications := Insert(st.applications, row)), row)
    else Created(st.(applications := Insert(st.applications, row)), row)
  }

  // ---------------------------------------------------------------- updates

  function BookSlotRow(s: Slot): Slot { s.(isBooked := true) }

  /** markSlotAsBooked: only isBooked of that slot changes, to true; an
      unknown id changes nothing. */
  function MarkSlotAsBooked(st: Store, id: Id): (r: Store)
    ensures r == st.(slots := r.slots)
    ensures Valid(st) ==> Valid(r)
    ensures Valid(st) ==> GetSlot(r, id) == (if GetSlot(st, id).Some? then Some(GetSlot(st, id).value.(isBooked := true)) else None)
    ensures Valid(st) ==> forall k :: k != id ==> GetSlot(r, k) == GetSlot(st, k)
    ensures Valid(st) && GetSlot(st, id).None? ==> r == st
  {
    var r := st.(slots := Put(st.slots, SlotKey, id, BookSlotRow));
    if Valid(st) then
      PutLookup(st.slots, SlotKey, id, BookSlotRow);
      DenseGet(st.slots, SlotKey, id);
      r
    else r
  }

  /** updateBookingStatus: only status (and updatedAt) of that booking. */
  function UpdateBookingStatus(st: Store, id: Id, status: string, now: Time): (r: Store)
    ensures r == st.(bookings := r.bookings)
    ensures Valid(st) ==> Valid(r)
    ensures Valid(st) ==> GetBooking(r, id) == (if GetBooking(st, id).Some? then Some(GetBooking(st, id).value.(status := status, updatedAt := now)) else None)
    ensures Valid(st) ==> forall k :: k != id ==> GetBooking(r, k) == GetBooking(st, k)
    ensures Valid(st) && GetBooking(st, id).None? ==> r == st
  {
    var f := (b: Booking) => b.(status := status, updatedAt := now);
    var r := st.(bookings := Put(st.bookings, BookingKey, id, f));
    if Valid(st) then
      PutLookup(st.bookings, BookingKey, id, f);
      DenseGet(st.bookings, BookingKey, id);
      r
    else r
  }

  /** updateBookingReview: only reviewId (and updatedAt) of that booking. */
  function UpdateBookingReview(st: Store, id: Id, reviewId: Id, now: Time): (r: Store)
    ensures r == st.(bookings := r.bookings)
    ensures Valid(st) ==> Valid(r)
    ensures Valid(st) ==> GetBooking(r, id) == (if GetBooking(st, id).Some? then Some(GetBooking(st, id).value.(reviewId := Some(reviewId), updatedAt := now)) else None)
    ensures Valid(st) ==> forall k :: k != id ==> GetBooking(r, k) == GetBooking(st, k)
    ensures Valid(st) && GetBooking(st, id).None? ==> r == st
  {
    var f := (b: Booking) => b.(reviewId := Some(reviewId), updatedAt := now);
    var r := st.(bookings := Put(st.bookings, BookingKey, id, f));
    if Valid(st) then
      PutLookup(st.bookings, BookingKey, id, f);
      DenseGet(st.bookings, BookingKey, id);
      r
    else r
  }

  // ---------------------------------------------------------------- ratings

  /** A review counts for a mentor when it is theirs and its student still
      resolves to a user (the enrichment drops the others). */
  predicate Counted(st: Store, v: Review, mentorId: Id) {
    v.mentorId == mentorId && GetUser(st, v.studentId).Some?
  }

  /** getMentorReviews: the counted reviews, each at most as often as it
      is stored; on a valid store each counted review once, so the length,
      which becomes reviewCount, is the number of counted reviews. Its date
      sort does not affect the sum or the count. */
  function MentorReviews(st: Store, mentorId: Id): (r: seq<Review>)
    ensures forall v :: v in r <==> v in st.reviews.rows && Counted(st, v, mentorId)
    ensures multiset(r) <= multiset(st.reviews.rows)
    ensures Valid(st) ==> |r| == |set v | v in st.reviews.rows && Counted(st, v, mentorId)|
  {
    var r := Filter(st.reviews.rows, CountedFor(st.users.rows, mentorId));
    if Valid(st) then
      DenseFilterCount(st.reviews, ReviewKey, CountedFor(st.users.rows, mentorId), set v | v in st.reviews.rows && Counted(st, v, mentorId));
      r
    else r
  }

  /** Counted as a filter; it reads only the users, so stores with the
      same users and reviews list the same reviews. */
  function CountedFor(users: seq<User>, mentorId: Id): Review -> bool {
    (v: Review) => v.mentorId == mentorId && Get(users, UserKey, v.studentId).Some?
  }

  function RatingSum(rs: seq<Review>): int {
    if |rs| == 0 then 0 else RatingSum(rs[..|rs| - 1]) + rs[|rs| - 1].rating
  }

  /** The average of a non-empty list of review ratings. */
  function Average(rs: seq<Review>): (a: real)
    requires |rs| > 0
    ensures a * |rs| as real == RatingSum(rs) as real
  {
    RatingSum(rs) as real / |rs| as real
  }

  /** The sum of ratings that all lie in [lo, hi] lies in [n*lo, n*hi]. */
  lemma {:induction false} SumBounds(rs: seq<Review>, lo: int, hi: int)
    requires forall i :: 0 <= i < |rs| ==> lo <= rs[i].rating <= hi
    ensures |rs| * lo <= RatingSum(rs) <= |rs| * hi
  {
    if |rs| > 0 {
      SumBounds(rs[..|rs| - 1], lo, hi);
    }
  }

  /** The stored average is a proper mean: it lies between the lowest and
      the highest rating allowed. */
  lemma AverageBounds(rs: seq<Review>, lo: int, hi: int)
    requires |rs| > 0
    requires forall i :: 0 <= i < |rs| ==> lo <= rs[i].rating <= hi
    ensures lo as real <= Average(rs) <= hi as real
  {
    SumBounds(rs, lo, hi);
    var n := |rs| as real;
    assert Average(rs) * n == RatingSum(rs) as real;
    assert lo as real * n <= Average(rs) * n <= hi as real * n;
  }

  function Rated(count: nat, avg: real): Mentor -> Mentor {
    (m: Mentor) => m.(rating := avg, reviewCount := count)
  }

  /** updateMentorRating: with no counted reviews nothing changes;
      otherwise the mentor's reviewCount becomes their number and rating
      their mean, and no other field, mentor or table changes. */
  function UpdateMentorRating(st: Store, mentorId: Id): (r: Store)
    ensures r == st.(mentors := r.mentors)
    ensures |MentorReviews(st, mentorId)| == 0 ==> r == st
    ensures Valid(st) ==> Valid(r)
    ensures Valid(st) && |MentorReviews(st, mentorId)| > 0 ==>
      var rs := MentorReviews(st, mentorId);
      GetMentor(r, mentorId) == (if GetMentor(st, mentorId).Some?
                                 then Some(GetMentor(st, mentorId).value.(rating := Average(rs), reviewCount := |rs|))
                                 else None)
    ensures Valid(st) ==> forall k :: k != mentorId ==> GetMentor(r, k) == GetMentor(st, k)
  {
    var rs := MentorReviews(st, mentorId);
    if |rs| == 0 then st
    else
      var f := Rated(|rs|, Average(rs));
      var r := st.(mentors := Put(st.mentors, MentorKey, mentorId, f));
      if Valid(st) then
        PutLookup(st.mentors, MentorKey, mentorId, f);
        DenseGet(st.mentors, MentorKey, mentorId);
        r
      else r
  }

  /** After a recomputation the stored count is the number of counted
      reviews, the stored rating is their mean (Average times the count is
      the sum), and with ratings in [lo, hi] the stored rating is in
      [lo, hi] too. */
  lemma RatingIsMean(st: Store, mentorId: Id, lo: int, hi: int)
    requires Valid(st) && GetMentor(st, mentorId).Some? && |MentorReviews(st, mentorId)| > 0
    requires forall v :: v in st.reviews.rows ==> lo <= v.rating <= hi
    ensures var m := GetMentor(UpdateMentorRating(st, mentorId), mentorId);
      && m.Some?
      && m.value.reviewCount == |MentorReviews(st, mentorId)|
      && m.value.rating == Average(MentorReviews(st, mentorId))
      && lo as real <= m.value.rating <= hi as real
  {
    var rs := MentorReviews(st, mentorId);
    var m := GetMentor(st, mentorId).value;
    assert GetMentor(UpdateMentorRating(st, mentorId), mentorId) == Some(m.(rating := Average(rs), reviewCount := |rs|));
    assert forall i :: 0 <= i < |rs| ==> rs[i] in rs;
    MeanOf(rs, lo, hi);
  }

  lemma MeanOf(rs: seq<Review>, lo: int, hi: int)
    requires |rs| > 0
    requires forall i :: 0 <= i < |rs| ==> lo <= rs[i].rating <= hi
    ensures Average(rs) * |rs| as real == RatingSum(rs) as real
    ensures lo as real <= Average(rs) <= hi as real
  {
    AverageBounds(rs, lo, hi);
  }

  // ---------------------------------------------------------------- slots

  function StartOf(s: Slot): int { s.startTime }

  /** Whether a slot is offered: the mentor's, unbooked, in the future. */
  predicate Offered(s: Slot, mentorId: Id, now: Time) {
    s.mentorId == mentorId && !s.isBooked && s.startTime > now
  }

  /** getMentorSlots: exactly the mentor's unbooked future slots, each as
      often as stored, ascending by start time. */
  function GetMentorSlots(st: Store, mentorId: Id, now: Time): (r: seq<Slot>)
    ensures forall s :: s in r <==> s in st.slots.rows && Offered(s, mentorId, now)
    ensures multiset(r) <= multiset(st.slots.rows)
    ensures SortedBy(r, StartOf)
  {
    var offered := Filter(st.slots.rows, (s: Slot) => Offered(s, mentorId, now));
    var r := SortBy(offered, StartOf);
    SameMembers(r, offered);
    r
  }

  /** Once a slot is booked it is no longer offered, and every other
      slot's offer stays as it was. */
  lemma BookedSlotNotOffered(st: Store, slotId: Id, mentorId: Id, now: Time)
    requires Valid(st)
    ensures forall s :: s in GetMentorSlots(MarkSlotAsBooked(st, slotId), mentorId, now) ==> s.id != slotId
    ensures forall s :: s in GetMentorSlots(st, mentorId, now) && s.id != slotId ==>
      s in GetMentorSlots(MarkSlotAsBooked(st, slotId), mentorId, now)
  {
    var r := MarkSlotAsBooked(st, slotId);
    PutLookup(st.slots, SlotKey, slotId, BookSlotRow);
    forall s | s in r.slots.rows && s.id == slotId ensures s.isBooked {
      var i :| 0 <= i < |r.slots.rows| && r.slots.rows[i] == s;
    }
    forall s | s in st.slots.rows && s.id != slotId ensures s in r.slots.rows {
      var i :| 0 <= i < |st.slots.rows| && st.slots.rows[i] == s;
      assert r.slots.rows[i] == s;
    }
  }

  // ---------------------------------------------------------------- messages

  function TimestampOf(m: Message): int { m.timestamp }

  /** A message counts in a conversation listing when its sender resolves. */
  predicate Listed(st: Store, m: Message, conversationId: Id) {
    m.conversationId == conversationId && GetUser(st, m.senderId).Some?
  }

  /** getConversationMessages: the conversation's messages with a known
      sender, oldest first, each at most as often as it is stored; on a
      valid store each listed message once. */
  function ConversationMessages(st: Store, conversationId: Id): (r: seq<Message>)
    ensures forall m :: m in r <==> m in st.messages.rows && Listed(st, m, conversationId)
    ensures multiset(r) <= multiset(st.messages.rows)
    ensures Valid(st) ==> |r| == |set m | m in st.messages.rows && Listed(st, m, conversationId)|
    ensures SortedBy(r, TimestampOf)
  {
    var listed := Filter(st.messages.rows, ListedIn(st.users.rows, conversationId));
    var r := SortBy(listed, TimestampOf);
    SameMembers(r, listed);
    assert |r| == |multiset(r)| == |multiset(listed)| == |listed|;
    if Valid(st) then
      DenseFilterCount(st.messages, MessageKey, ListedIn(st.users.rows, conversationId),
                       set m | m in st.messages.rows && Listed(st, m, conversationId));
      r
    else r
  }

  function ListedIn(users: seq<User>, conversationId: Id): Message -> bool {
    (m: Message) => m.conversationId == conversationId && Get(users, UserKey, m.senderId).Some?
  }

  predicate UnreadFor(st: Store, m: Message, conversationId: Id, userId: Id) {
    Listed(st, m, conversationId) && m.senderId != userId && !m.isRead
  }

  function UnreadIn(users: seq<User>, conversationId: Id, userId: Id): Message -> bool {
    (m: Message) => m.conversationId == conversationId && Get(users, UserKey, m.senderId).Some?
                    && m.senderId != userId && !m.isRead
  }

  /** unreadCount of a conversation listing: the listed messages from
      someone else that are not read; on a valid store, their number. */
  function UnreadCount(st: Store, conversationId: Id, userId: Id): (n: nat)
    ensures n == 0 <==> forall m :: m in st.messages.rows ==> !UnreadFor(st, m, conversationId, userId)
    ensures n <= |st.messages.rows|
    ensures Valid(st) ==> n == |set m | m in st.messages.rows && UnreadFor(st, m, conversationId, userId)|
  {
    var unread := Filter(st.messages.rows, UnreadIn(st.users.rows, conversationId, userId));
    assert |unread| > 0 ==> unread[0] in unread;
    if Valid(st) then
      DenseFilterCount(st.messages, MessageKey, UnreadIn(st.users.rows, conversationId, userId),
                       set m | m in st.messages.rows && UnreadFor(st, m, conversationId, userId));
      |unread|
    else |unread|
  }

  /** A new row from a known sender joins its conversation's listing. */
  lemma AppendedMessageListed(st: Store, st': Store, m: Message)
    requires Valid(st) && Valid(st') && st'.users == st.users
    requires st'.messages.rows == st.messages.rows + [m] && m !in st.messages.rows
    requires GetUser(st, m.senderId).Some?
    ensures forall x :: x in ConversationMessages(st', m.conversationId) <==> x == m || x in ConversationMessages(st, m.conversationId)
    ensures |ConversationMessages(st', m.conversationId)| == |ConversationMessages(st, m.conversationId)| + 1
  {
    var c := m.conversationId;
    forall x ensures x in ConversationMessages(st', c) <==> x == m || x in ConversationMessages(st, c) {
      assert Listed(st', x, c) == Listed(st, x, c);
      assert x in st'.messages.rows <==> x in st.messages.rows || x == m;
    }
    var listed := set x | x in st.messages.rows && Listed(st, x, c);
    assert (set x | x in st'.messages.rows && Listed(st', x, c)) == listed + {m};
  }

  /** A new unread row is unread for everyone but its sender. */
  lemma AppendedMessageUnread(st: Store, st': Store, m: Message, userId: Id)
    requires Valid(st) && Valid(st') && st'.users == st.users
    requires st'.messages.rows == st.messages.rows + [m] && m !in st.messages.rows
    requires GetUser(st, m.senderId).Some? && !m.isRead
    ensures UnreadCount(st', m.conversationId, userId) ==
            UnreadCount(st, m.conversationId, userId) + (if userId != m.senderId then 1 else 0)
  {
    var unread := set x | x in st.messages.rows && UnreadFor(st, x, m.conversationId, userId);
    if userId != m.senderId {
      assert (set x | x in st'.messages.rows && UnreadFor(st', x, m.conversationId, userId)) == unread + {m};
    } else {
      assert (set x | x in st'.messages.rows && UnreadFor(st', x, m.conversationId, userId)) == unread;
    }
  }

  /** A fresh unread message raises the unread count of every other user
      by one and leaves the sender's as it was. */
  lemma AppendedMessageUnreadAll(st: Store, st': Store, m: Message)
    requires Valid(st) && Valid(st') && st'.users == st.users
    requires st'.messages.rows == st.messages.rows + [m] && m !in st.messages.rows
    requires GetUser(st, m.senderId).Some? && !m.isRead
    ensures UnreadCount(st', m.conversationId, m.senderId) == UnreadCount(st, m.conversationId, m.senderId)
    ensures forall u :: u != m.senderId ==> UnreadCount(st', m.conversationId, u) == UnreadCount(st, m.conversationId, u) + 1
  {
    AppendedMessageUnread(st, st', m, m.senderId);
    forall u | u != m.senderId
      ensures UnreadCount(st', m.conversationId, u) == UnreadCount(st, m.conversationId, u) + 1
    {
      AppendedMessageUnread(st, st', m, u);
    }
  }

  predicate ToMark(m: Message, conversationId: Id, userId: Id) {
    m.conversationId == conversationId && m.senderId != userId && !m.isRead
  }

  /** markMessagesAsRead: the conversation's messages from others become
      read; nothing else about any message changes, no message of another
      conversation or from the reader changes, and afterwards the reader
      has nothing unread there. */
  function MarkMessagesAsRead(st: Store, conversationId: Id, userId: Id): (r: Store)
    ensures r == st.(messages := r.messages) && r.messages.next == st.messages.next
    ensures |r.messages.rows| == |st.messages.rows|
    ensures forall i :: 0 <= i < |st.messages.rows| ==>
      r.messages.rows[i] == st.messages.rows[i].(isRead := r.messages.rows[i].isRead)
    ensures forall i :: 0 <= i < |st.messages.rows| ==>
      (r.messages.rows[i].isRead <==>
        st.messages.rows[i].isRead
        || (st.messages.rows[i].conversationId == conversationId && st.messages.rows[i].senderId != userId))
    ensures UnreadCount(r, conversationId, userId) == 0
    ensures Valid(st) ==> Valid(r)
  {
    var rows := st.messages.rows;
    var marked := seq(|rows|, i requires 0 <= i < |rows| =>
                        if ToMark(rows[i], conversationId, userId) then rows[i].(isRead := true) else rows[i]);
    var r := st.(messages := Table(marked, st.messages.next));
    assert forall m :: m in marked ==> !UnreadFor(r, m, conversationId, userId) by {
      forall m | m in marked ensures !UnreadFor(r, m, conversationId, userId) {
        var i :| 0 <= i < |marked| && marked[i] == m;
      }
    }
    r
  }

  /** Marking twice marks nothing more. */
  lemma MarkReadIdempotent(st: Store, conversationId: Id, userId: Id)
    ensures MarkMessagesAsRead(MarkMessagesAsRead(st, conversationId, userId), conversationId, userId)
         == MarkMessagesAsRead(st, conversationId, userId)
  {
    var once := MarkMessagesAsRead(st, conversationId, userId);
    var twice := MarkMessagesAsRead(once, conversationId, userId);
    assert twice.messages.rows == once.messages.rows;
  }

  // ---------------------------------------------------------------- conversations

  /** isConversationParticipant: some membership row names both. */
  function IsParticipant(st: Store, conversationId: Id, userId: Id): (b: bool)
    ensures b <==> exists i :: (0 <= i < |st.participants.rows|
      && st.participants.rows[i].conversationId == conversationId && st.participants.rows[i].userId == userId)
  {
    Any(st.participants.rows, (p: Participant) => p.conversationId == conversationId && p.userId == userId)
  }

  /** The conversation ids of a user's membership rows, in row order. */
  function ConversationsOf(rows: seq<Participant>, userId: Id): (cs: seq<Id>)
    ensures forall c :: c in cs <==> exists i :: 0 <= i < |rows| && rows[i].userId == userId && rows[i].conversationId == c
  {
    if |rows| == 0 then []
    else
      var rest := ConversationsOf(rows[1..], userId);
      assert forall i :: 1 <= i < |rows| ==> rows[i] == rows[1..][i - 1];
      if rows[0].userId == userId then [rows[0].conversationId] + rest else rest
  }

  /** The first element of xs that also occurs in ys. */
  function FirstCommon(xs: seq<Id>, ys: seq<Id>): (r: Option<Id>)
    ensures r.None? <==> forall i :: 0 <= i < |xs| ==> xs[i] !in ys
    ensures r.Some? ==> exists i :: (0 <= i < |xs| && xs[i] == r.value && r.value in ys
      && forall j :: 0 <= j < i ==> xs[j] !in ys)
  {
    if |xs| == 0 then None
    else if xs[0] in ys then
      Some(xs[0])
    else
      var r := FirstCommon(xs[1..], ys);
      assert forall i :: 1 <= i < |xs| ==> xs[i] == xs[1..][i - 1];
      if r.Some? then
        var i :| 0 <= i < |xs[1..]| && xs[1..][i] == r.value && r.value in ys && forall j :: 0 <= j < i ==> xs[1..][j] !in ys;
        assert xs[i + 1] == r.value;
        r
      else r
  }

  /** findConversationBetweenUsers: a conversation both users belong to,
      or None exactly when they share none. */
  function FindConversationBetween(st: Store, user1: Id, user2: Id): (r: Option<Id>)
    ensures r.None? <==> forall c :: IsParticipant(st, c, user1) ==> !IsParticipant(st, c, user2)
    ensures r.Some? ==> IsParticipant(st, r.value, user1) && IsParticipant(st, r.value, user2)
  {
    var mine := ConversationsOf(st.participants.rows, user1);
    var theirs := ConversationsOf(st.participants.rows, user2);
    var r := FirstCommon(mine, theirs);
    assert forall c :: IsParticipant(st, c, user1) <==> c in mine;
    assert forall c :: IsParticipant(st, c, user2) <==> c in theirs;
    if r.None? then
      assert forall c :: c in mine ==> c !in theirs;
      r
    else r
  }

  /** The shared conversation found is the one of user1's earliest
      membership row that user2 shares. */
  lemma FindConversationIsFirst(st: Store, user1: Id, user2: Id)
    requires FindConversationBetween(st, user1, user2).Some?
    ensures var c := FindConversationBetween(st, user1, user2).value;
      exists i :: 0 <= i < |st.participants.rows|
        && st.participants.rows[i].userId == user1 && st.participants.rows[i].conversationId == c
        && forall j :: 0 <= j < i && st.participants.rows[j].userId == user1 ==>
             !IsParticipant(st, st.participants.rows[j].conversationId, user2)
  {
    var rows := st.participants.rows;
    var c := FindConversationBetween(st, user1, user2).value;
    FirstOfUser(rows, user1, ConversationsOf(rows, user2), c);
    assert forall x :: x in ConversationsOf(rows, user2) <==> IsParticipant(st, x, user2);
  }

  lemma {:induction false} FirstOfUser(rows: seq<Participant>, user1: Id, theirs: seq<Id>, c: Id)
    requires FirstCommon(ConversationsOf(rows, user1), theirs) == Some(c)
    ensures exists i :: (0 <= i < |rows| && rows[i].userId == user1 && rows[i].conversationId == c
        && forall j :: 0 <= j < i && rows[j].userId == user1 ==> rows[j].conversationId !in theirs)
  {
    var mine := ConversationsOf(rows, user1);
    assert |rows| > 0;
    var rest := ConversationsOf(rows[1..], user1);
    if rows[0].userId == user1 {
      assert mine == [rows[0].conversationId] + rest;
      if rows[0].conversationId in theirs {
        assert c == rows[0].conversationId;
      } else {
        assert FirstCommon(mine, theirs) == FirstCommon(rest, theirs);
        FirstOfUser(rows[1..], user1, theirs, c);
        var i :| 0 <= i < |rows[1..]| && rows[1..][i].userId == user1 && rows[1..][i].conversationId == c
          && forall j :: 0 <= j < i && rows[1..][j].userId == user1 ==> rows[1..][j].conversationId !in theirs;
        assert rows[i + 1] == rows[1..][i];
        assert forall j :: 1 <= j < i + 1 ==> rows[j] == rows[1..][j - 1];
      }
    } else {
      assert mine == rest;
      FirstOfUser(rows[1..], user1, theirs, c);
      var i :| 0 <= i < |rows[1..]| && rows[1..][i].userId == user1 && rows[1..][i].conversationId == c
        && forall j :: 0 <= j < i && rows[1..][j].userId == user1 ==> rows[1..][j].conversationId !in theirs;
      assert rows[i + 1] == rows[1..][i];
      assert forall j :: 1 <= j < i + 1 ==> rows[j] == rows[1..][j - 1];
    }
  }
}
