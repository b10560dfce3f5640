/** The booking effect and participant choice of the video-session page
    (client/src/pages/VideoSession.tsx). The page admits a user from ten
    minutes before the booked start until the booked end and then derives
    the relay session id from the booking id. Times are epoch milliseconds;
    the clock is the parameter `now`. The page is modelled on the enriched
    booking; the raw row the view route sends is kept as the as-written
    case. */
module VideoSession {
  import opened Wrappers
  import opened Text
  import Signaling
  import Storage
  import Routes

  /** How early before the start the page lets a user in: 10 minutes. */
  const JoinLead: int := 10 * 60 * 1000

  const Prefix: string := "session-"

  datatype Admission = TooEarly | AlreadyEnded | Admitted(sessionId: string)

  /** `session-${bookingId}` for the numeric booking id. */
  function SessionIdFor(bookingId: nat): (s: string)
    ensures |s| > |Prefix| && s[..|Prefix|] == Prefix
  {
    Prefix + NatToString(bookingId)
  }

  /** The booking effect: too early redirects, ended redirects, otherwise
      the session id is set. Both window ends are inclusive. */
  function Admit(now: int, startTime: int, endTime: int, bookingId: nat): (a: Admission)
    ensures a == TooEarly <==> now < startTime - JoinLead
    ensures a == AlreadyEnded <==> startTime - JoinLead <= now && now > endTime
    ensures a.Admitted? <==> startTime - JoinLead <= now <= endTime
    ensures a.Admitted? ==> a.sessionId == SessionIdFor(bookingId)
  {
    if now < startTime - JoinLead then TooEarly
    else if now > endTime then AlreadyEnded
    else Admitted(SessionIdFor(bookingId))
  }

  /** Reads a booking id back out of a session id. */
  function ParseSessionId(s: string): (r: Option<nat>)
    ensures r.Some? ==> |s| > |Prefix| && s[..|Prefix|] == Prefix && AllDigits(s[|Prefix|..])
  {
    if |s| > |Prefix| && s[..|Prefix|] == Prefix && AllDigits(s[|Prefix|..]) then Some(DecimalValue(s[|Prefix|..]))
    else None
  }

  /** The session id names its booking: parsing it gives the id back. */
  lemma ParseSessionIdRoundTrip(bookingId: nat)
    ensures ParseSessionId(SessionIdFor(bookingId)) == Some(bookingId)
  {
    var s := SessionIdFor(bookingId);
    assert s[|Prefix|..] == NatToString(bookingId);
  }

  /** Two bookings share a session id only if they are the same booking. */
  lemma SessionIdsDistinct(a: nat, b: nat)
    ensures SessionIdFor(a) == SessionIdFor(b) <==> a == b
  {
    if SessionIdFor(a) == SessionIdFor(b) {
      ParseSessionIdRoundTrip(a);
      ParseSessionIdRoundTrip(b);
    }
  }

  /** Joining the relay for one booking leaves another booking's session
      untouched and sends nothing under its id. */
  lemma BookingsNeverShareARelaySession(reg: Signaling.Registry, open: set<Signaling.SocketId>,
                                        a: nat, b: nat, s: Signaling.SocketId)
    requires a != b
    ensures var r := Signaling.HandleJoin(reg, open, SessionIdFor(a), s);
      && Signaling.Members(r.sessions, SessionIdFor(b)) == Signaling.Members(reg, SessionIdFor(b))
      && forall m :: m in r.outbox ==> m.msg.sessionId != SessionIdFor(b)
  {
    SessionIdsDistinct(a, b);
  }

  datatype Side = StudentSide | MentorSide

  /** `booking.mentorId === user?.id ? booking.student : booking.mentor`
      selects which party field of the booking the page reads. The mentor
      id of a booking is compared with the viewer's user id as the page
      does; without a user the `mentor` field is selected. */
  function OtherParticipant(mentorId: nat, viewer: Option<nat>): (side: Side)
    ensures side == StudentSide <==> viewer == Some(mentorId)
    ensures side == MentorSide <==> viewer.None? || viewer.value != mentorId
  {
    if viewer.Some? && viewer.value == mentorId then StudentSide else MentorSide
  }

  /** `GET /api/bookings/:id` answers only a party to the booking, judged by
      the same comparison of `mentorId` with the user id. So whenever the
      two ids of the booking differ, the field selected is the party the
      viewer is not. */
  lemma ShownSideIsOtherParty(st: Storage.Store, session: Routes.Session, bookingId: nat)
    requires Routes.ViewBooking(st, session, bookingId).status == 200
    requires var b := Routes.ViewBooking(st, session, bookingId).value.value; b.studentId != b.mentorId
    ensures var b := Routes.ViewBooking(st, session, bookingId).value.value;
      && session.Some?
      && (OtherParticipant(b.mentorId, session) == StudentSide <==> session.value != b.studentId)
  {
  }

  /** A booking stores the mentor's profile id, a user is known by the
      user id, and the two are drawn from separate counters: in the sample
      data the first student is user 1 and the first mentor profile is
      mentor 1, owned by user 2. For that student's booking with that
      mentor, the comparison selects the student field for the student
      themselves; the mentor, whose user id does not match, is refused by
      the view route, and the comparison would select their own profile. */
  lemma CountersCoincide(studentUserId: nat, mentorProfileId: nat, mentorUserId: nat)
    requires studentUserId == 1 && mentorProfileId == 1 && mentorUserId == 2
    ensures OtherParticipant(mentorProfileId, Some(studentUserId)) == StudentSide
    ensures OtherParticipant(mentorProfileId, Some(mentorUserId)) == MentorSide
  {
  }

  /** A party object as `enrichBookingWithDetails` attaches it; only its id
      is modelled (names and pictures are presentation). */
  datatype Person = Person(id: nat)

  /** The booking object the page receives: the stored row, and the
      `student` and `mentor` objects when the booking was enriched. */
  datatype BookingView = BookingView(row: Storage.Booking, student: Option<Person>, mentor: Option<Person>)

  /** What `GET /api/bookings/:id` sends: the stored row as it is, with
      neither party object. */
  function AsFetched(b: Storage.Booking): BookingView
  {
    BookingView(b, None, None)
  }

  /** What `enrichBookingWithDetails` makes of a row: both parties attached
      under the row's own ids. */
  function Enriched(b: Storage.Booking): BookingView
  {
    BookingView(b, Some(Person(b.studentId)), Some(Person(b.mentorId)))
  }

  /** The party field the page reads, absent when the booking lacks it. */
  function Selected(v: BookingView, viewer: Option<nat>): Option<Person>
  {
    if OtherParticipant(v.row.mentorId, viewer) == StudentSide then v.student else v.mentor
  }

  /** The page once its booking has loaded. The render reads `.name` of the
      selected party; when that field is absent the render throws, and with
      no error boundary nothing commits, so the booking effect never runs.
      Otherwise the party is shown and the effect decides admission. */
  datatype Page = RenderFailed | Shown(with: Person, admission: Admission)

  function Load(v: BookingView, viewer: Option<nat>, bookingId: nat, now: int): (p: Page)
    ensures p.RenderFailed? <==> Selected(v, viewer).None?
    ensures p.Shown? ==> Some(p.with) == Selected(v, viewer)
    ensures p.Shown? ==> p.admission == Admit(now, v.row.startTime, v.row.endTime, bookingId)
  {
    match Selected(v, viewer)
    case None => RenderFailed
    case Some(party) => Shown(party, Admit(now, v.row.startTime, v.row.endTime, bookingId))
  }

  /** As written: every booking the view route returns reaches the page
      without party objects, so the page never renders it and never
      admits anyone. */
  lemma FetchedBookingNeverRenders(st: Storage.Store, session: Routes.Session, bookingId: nat, now: int)
    requires Routes.ViewBooking(st, session, bookingId).status == 200
    ensures Load(AsFetched(Routes.ViewBooking(st, session, bookingId).value.value), session, bookingId, now)
      == RenderFailed
  {
  }

  /** Corrected: with the enriched booking every viewer the route admits is
      shown a party, the party is the one they are not whenever the two ids
      of the booking differ, and the booking effect decides admission from
      the booking's times. */
  lemma EnrichedBookingRenders(st: Storage.Store, session: Routes.Session, bookingId: nat, now: int)
    requires Routes.ViewBooking(st, session, bookingId).status == 200
    ensures var b := Routes.ViewBooking(st, session, bookingId).value.value;
      var p := Load(Enriched(b), session, bookingId, now);
      && p.Shown?
      && p.admission == Admit(now, b.startTime, b.endTime, bookingId)
      && (p.with.id == b.studentId || p.with.id == b.mentorId)
      && (b.studentId != b.mentorId ==> (p.with.id == b.studentId <==> session.value != b.studentId))
  {
    var b := Routes.ViewBooking(st, session, bookingId).value.value;
    if b.studentId != b.mentorId {
      ShownSideIsOtherParty(st, session, bookingId);
    }
  }
}
