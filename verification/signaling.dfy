/** The call-signaling relay of server/webrtc/signaling.ts.

    The relay keeps one registry, a map from session id to the ordered list
    of sockets that joined that session. Every inbound event is a pure
    transition from a registry to a new registry plus an outbox: the
    sequence of (socket, message) sends the handler performs, in order.
    Sockets are opaque ids; the set of sockets whose transport is OPEN is a
    parameter, because a send to any other socket is silently dropped. */
module Signaling {
  import opened Wrappers

  type SocketId = nat
  type SessionId = string

  /** An SDP description or ICE candidate. The relay never looks inside. */
  datatype Blob = Blob(json: string)

  /** An inbound message after JSON parsing: its `type` string, its
      `sessionId` (the empty string when the field is missing, since both are
      falsy), and the optional `sdp` and `candidate` payloads. */
  datatype Inbound = Inbound(kind: string, sessionId: SessionId, sdp: Option<Blob>, candidate: Option<Blob>)

  /** The messages the relay sends. */
  datatype Outbound =
    | Joined(sessionId: SessionId)
    | Ready(sessionId: SessionId)
    | Offer(sessionId: SessionId, sdp: Blob)
    | Answer(sessionId: SessionId, sdp: Blob)
    | Candidate(sessionId: SessionId, candidate: Blob)
    | Leave(sessionId: SessionId)

  datatype Send = Send(to: SocketId, msg: Outbound)

  type Registry = map<SessionId, seq<SocketId>>

  /** The result of handling one event. */
  datatype Step = Step(sessions: Registry, outbox: seq<Send>)

  predicate NoDuplicates(ps: seq<SocketId>) {
    forall i, j :: 0 <= i < j < |ps| ==> ps[i] != ps[j]
  }

  /** The registry invariant: no stored session is empty and no socket
      appears twice in one session. */
  predicate Valid(reg: Registry) {
    forall sid :: sid in reg ==> |reg[sid]| > 0 && NoDuplicates(reg[sid])
  }

  /** The participants of a session; none when the session is not stored. */
  function Members(reg: Registry, sid: SessionId): seq<SocketId> {
    if sid in reg then reg[sid] else []
  }

  /** sendToSocket: the message is delivered only when the socket is OPEN. */
  function SendTo(open: set<SocketId>, s: SocketId, m: Outbound): seq<Send> {
    if s in open then [Send(s, m)] else []
  }

  /** `participants.findIndex(p => p.socket === socket)`. */
  function FindIndex(ps: seq<SocketId>, s: SocketId): (i: int)
    ensures -1 <= i < |ps|
    ensures i == -1 <==> s !in ps
    ensures 0 <= i ==> ps[i] == s && s !in ps[..i]
  {
    if |ps| == 0 then -1
    else if ps[0] == s then 0
    else
      var j := FindIndex(ps[1..], s);
      if j == -1 then -1 else j + 1
  }

  /** The list with every occurrence of s removed: the reference meaning of
      "remove the leaving socket, keep the others in order". */
  function Without(ps: seq<SocketId>, s: SocketId): seq<SocketId> {
    if |ps| == 0 then []
    else if ps[0] == s then Without(ps[1..], s)
    else [ps[0]] + Without(ps[1..], s)
  }

  // ---------------------------------------------------------------- join

  /** handleJoin: create the session if unseen, ignore a socket that is
      already a member, otherwise append it, acknowledge with `joined`, and
      send `ready` to the first participant when the list reaches two. */
  function HandleJoin(reg: Registry, open: set<SocketId>, sid: SessionId, s: SocketId): (r: Step)
    ensures Valid(reg) ==> Valid(r.sessions)
    ensures s in Members(reg, sid) ==> r == Step(reg, [])
    ensures s !in Members(reg, sid) ==>
              && r.sessions.Keys == reg.Keys + {sid}
              && r.sessions[sid] == Members(reg, sid) + [s]
    ensures forall k :: k != sid ==> (k in r.sessions <==> k in reg) && Members(r.sessions, k) == Members(reg, k)
    // who receives what
    ensures forall m :: m in r.outbox ==> m.msg.sessionId == sid && m.to in open && m.to in Members(r.sessions, sid)
    ensures forall m :: m in r.outbox ==> (m.msg.Joined? && m.to == s) || (m.msg.Ready? && m.to == Members(r.sessions, sid)[0])
    ensures Send(s, Joined(sid)) in r.outbox <==> s !in Members(reg, sid) && s in open
    ensures (exists m :: m in r.outbox && m.msg.Ready?) <==>
              s !in Members(reg, sid) && |Members(reg, sid)| == 1 && Members(reg, sid)[0] in open
  {
    var participants := Members(reg, sid);
    if s in participants then Step(reg, [])
    else
      var ps := participants + [s];
      var reg' := reg[sid := ps];
      assert Members(reg', sid) == ps;
      Step(reg', SendTo(open, s, Joined(sid)) + (if |ps| == 2 then SendTo(open, ps[0], Ready(sid)) else []))
  }

  // ---------------------------------------------------------------- relay

  /** Which of the three relayed kinds a message is. */
  datatype RelayKind = OfferKind | AnswerKind | CandidateKind

  /** The forwarded message: same kind, same session id, same payload. */
  function Forwarded(k: RelayKind, sid: SessionId, b: Blob): (m: Outbound)
    ensures m.sessionId == sid
  {
    match k
    case OfferKind => Offer(sid, b)
    case AnswerKind => Answer(sid, b)
    case CandidateKind => Candidate(sid, b)
  }

  /** peersOf: the participant at the opposite index, when s is a member of
      a session that has a second participant. */
  function Counterpart(ps: seq<SocketId>, s: SocketId): Option<SocketId> {
    if s in ps && |ps| >= 2 then Some(if ps[0] == s then ps[1] else ps[0]) else None
  }

  /** handleOffer / handleAnswer / handleCandidate: drop the message when the
      payload is missing, the session is unknown, the sender is not a member
      or is alone; otherwise forward it to index `senderIndex == 0 ? 1 : 0`. */
  function Relay(reg: Registry, open: set<SocketId>, k: RelayKind, sid: SessionId, s: SocketId, payload: Option<Blob>): (r: Step)
    ensures r.sessions == reg
    ensures |r.outbox| <= 1
    ensures r.outbox != [] <==>
              payload.Some? && Counterpart(Members(reg, sid), s).Some? && Counterpart(Members(reg, sid), s).value in open
    ensures r.outbox != [] ==>
              && r.outbox[0].to == Counterpart(Members(reg, sid), s).value
              && r.outbox[0].msg == Forwarded(k, sid, payload.value)
    ensures forall m :: m in r.outbox ==> m.to in Members(reg, sid) && m.to in open && m.msg.sessionId == sid
    ensures NoDuplicates(Members(reg, sid)) ==> forall m :: m in r.outbox ==> m.to != s
  {
    if payload.None? then Step(reg, [])
    else if sid !in reg then Step(reg, [])
    else
      var participants := reg[sid];
      var senderIndex := FindIndex(participants, s);
      if senderIndex == -1 then Step(reg, [])
      else
        var otherIndex := if senderIndex == 0 then 1 else 0;
        if otherIndex >= |participants| then Step(reg, [])
        else Step(reg, SendTo(open, participants[otherIndex], Forwarded(k, sid, payload.value)))
  }

  // ---------------------------------------------------------------- leave

  /** `leave` to every socket of ps that is OPEN, in list order. */
  function Broadcast(open: set<SocketId>, ps: seq<SocketId>, m: Outbound): (out: seq<Send>)
    ensures |out| <= |ps|
    ensures forall x :: x in out ==> x.msg == m && x.to in ps && x.to in open
    ensures forall p :: p in ps && p in open ==> Send(p, m) in out
  {
    if |ps| == 0 then []
    else SendTo(open, ps[0], m) + Broadcast(open, ps[1..], m)
  }

  /** Without distributes over concatenation. */
  lemma {:induction false} WithoutAppend(a: seq<SocketId>, b: seq<SocketId>, s: SocketId)
    ensures Without(a + b, s) == Without(a, s) + Without(b, s)
  {
    if |a| == 0 {
      assert a + b == b;
    } else {
      assert (a + b)[1..] == a[1..] + b;
      WithoutAppend(a[1..], b, s);
    }
  }

  /** Removing an absent socket changes nothing. */
  lemma {:induction false} WithoutAbsent(ps: seq<SocketId>, s: SocketId)
    requires s !in ps
    ensures Without(ps, s) == ps
  {
    if |ps| > 0 {
      WithoutAbsent(ps[1..], s);
    }
  }

  /** Splicing out the first occurrence of a socket that occurs once is
      removing it: `splice(leavingIndex, 1)` meets the reference definition. */
  lemma SpliceIsWithout(ps: seq<SocketId>, i: nat, s: SocketId)
    requires i < |ps| && ps[i] == s && NoDuplicates(ps)
    ensures ps[..i] + ps[i + 1..] == Without(ps, s)
  {
    assert ps == ps[..i] + ([s] + ps[i + 1..]);
    WithoutAppend(ps[..i], [s] + ps[i + 1..], s);
    WithoutAbsent(ps[..i], s);
    assert ([s] + ps[i + 1..])[1..] == ps[i + 1..];
    assert forall j :: i < j < |ps| ==> ps[j] != s;
    assert s !in ps[i + 1..];
    WithoutAbsent(ps[i + 1..], s);
  }

  /** handleLeave: remove the leaving socket, tell every remaining OPEN
      participant `leave`, delete the session when it becomes empty; a no-op
      when the session or the member is absent. */
  function HandleLeave(reg: Registry, open: set<SocketId>, sid: SessionId, s: SocketId): (r: Step)
    ensures Valid(reg) ==> Valid(r.sessions)
    ensures s !in Members(reg, sid) ==> r == Step(reg, [])
    ensures forall k :: k != sid ==> (k in r.sessions <==> k in reg) && Members(r.sessions, k) == Members(reg, k)
    ensures r.sessions.Keys <= reg.Keys
    ensures forall k, x :: x in Members(r.sessions, k) ==> x in Members(reg, k)
    ensures Valid(reg) && s in Members(reg, sid) ==>
              && Members(r.sessions, sid) == Without(reg[sid], s)
              && (sid in r.sessions <==> |reg[sid]| > 1)
              && s !in Members(r.sessions, sid)
    ensures forall m :: m in r.outbox ==> m.msg == Leave(sid) && m.to in open && m.to in Members(r.sessions, sid)
    ensures forall p :: p in Members(r.sessions, sid) && p in open && s in Members(reg, sid) ==> Send(p, Leave(sid)) in r.outbox
  {
    if sid !in reg then Step(reg, [])
    else
      var leavingIndex := FindIndex(reg[sid], s);
      if leavingIndex == -1 then Step(reg, [])
      else Depart(reg, open, sid, s, leavingIndex)
  }

  /** The rest of handleLeave once the socket is found at index i: splice
      it out, broadcast `leave` to the open remaining participants, and
      drop the session if nobody is left. */
  function Depart(reg: Registry, open: set<SocketId>, sid: SessionId, s: SocketId, i: nat): (r: Step)
    requires sid in reg && i < |reg[sid]| && reg[sid][i] == s
    ensures Valid(reg) ==> Valid(r.sessions)
    ensures forall k :: k != sid ==> (k in r.sessions <==> k in reg) && Members(r.sessions, k) == Members(reg, k)
    ensures r.sessions.Keys <= reg.Keys
    ensures forall k, x :: x in Members(r.sessions, k) ==> x in Members(reg, k)
    ensures Valid(reg) ==>
              && Members(r.sessions, sid) == Without(reg[sid], s)
              && (sid in r.sessions <==> |reg[sid]| > 1)
              && s !in Members(r.sessions, sid)
    ensures forall m :: m in r.outbox ==> m.msg == Leave(sid) && m.to in open && m.to in Members(r.sessions, sid)
    ensures forall p :: p in Members(r.sessions, sid) && p in open ==> Send(p, Leave(sid)) in r.outbox
  {
    var participants := reg[sid];
    var rest := participants[..i] + participants[i + 1..];
    SpliceFacts(participants, i, s);
    var sends := Broadcast(open, rest, Leave(sid));
    if |rest| == 0 then Step(reg - {sid}, sends)
    else Step(reg[sid := rest], sends)
  }

  lemma SpliceFacts(ps: seq<SocketId>, i: nat, s: SocketId)
    requires i < |ps| && ps[i] == s
    ensures NoDuplicates(ps) ==>
              && ps[..i] + ps[i + 1..] == Without(ps, s)
              && s !in Without(ps, s)
              && NoDuplicates(Without(ps, s))
  {
    if NoDuplicates(ps) {
      SpliceIsWithout(ps, i, s);
      WithoutRemoves(ps, s);
    }
  }

  /** Facts about one leave step of a valid registry that the callers need. */
  lemma CloseStepFacts(reg: Registry, sid: SessionId, s: SocketId)
    ensures Valid(reg) && s in Members(reg, sid) ==>
              && s !in Without(reg[sid], s)
              && Without(Without(reg[sid], s), s) == Without(reg[sid], s)
              && forall x :: x in Without(reg[sid], s) ==> x in reg[sid]
  {
    if Valid(reg) && s in Members(reg, sid) {
      WithoutRemoves(reg[sid], s);
      WithoutAbsent(Without(reg[sid], s), s);
    }
  }

  /** What Without leaves behind: the other sockets, each still distinct. */
  lemma {:induction false} WithoutRemoves(ps: seq<SocketId>, s: SocketId)
    requires NoDuplicates(ps)
    ensures s !in Without(ps, s)
    ensures NoDuplicates(Without(ps, s))
    ensures forall x :: x in Without(ps, s) <==> x in ps && x != s
  {
    if |ps| > 0 {
      assert NoDuplicates(ps[1..]) by {
        forall i, j | 0 <= i < j < |ps[1..]| ensures ps[1..][i] != ps[1..][j] {
          assert ps[1..][i] == ps[i + 1] && ps[1..][j] == ps[j + 1];
        }
      }
      WithoutRemoves(ps[1..], s);
      if ps[0] != s {
        assert ps[0] !in ps[1..] by {
          forall j | 0 <= j < |ps[1..]| ensures ps[1..][j] != ps[0] {
            assert ps[1..][j] == ps[j + 1];
          }
        }
        var w := Without(ps[1..], s);
        assert forall i, j :: 0 <= i < j < |[ps[0]] + w| ==> ([ps[0]] + w)[i] != ([ps[0]] + w)[j] by {
          forall i, j | 0 <= i < j < |[ps[0]] + w| ensures ([ps[0]] + w)[i] != ([ps[0]] + w)[j] {
            if i == 0 {
              assert ([ps[0]] + w)[j] == w[j - 1];
              assert w[j - 1] in w;
            } else {
              assert ([ps[0]] + w)[i] == w[i - 1] && ([ps[0]] + w)[j] == w[j - 1];
            }
          }
        }
      }
    }
  }

  // ---------------------------------------------------------------- close

  /** The close handler: `handleLeave` on every session that contains the
      socket. A JavaScript Map is visited in insertion order, which a Dafny
      map does not record, so the visit order is a parameter. */
  function HandleClose(reg: Registry, open: set<SocketId>, s: SocketId, order: seq<SessionId>): (r: Step)
    ensures Valid(reg) ==> Valid(r.sessions)
    ensures r.sessions.Keys <= reg.Keys
    ensures forall k, x :: x in Members(r.sessions, k) ==> x in Members(reg, k)
    ensures forall k :: k !in order ==> (k in r.sessions <==> k in reg) && Members(r.sessions, k) == Members(reg, k)
    ensures forall m :: m in r.outbox ==> m.msg.Leave? && m.to in open && m.to in Members(reg, m.msg.sessionId)
    decreases |order|
  {
    if |order| == 0 then Step(reg, [])
    else
      var sid := order[0];
      var first := if s in Members(reg, sid) then HandleLeave(reg, open, sid, s) else Step(reg, []);
      var rest := HandleClose(first.sessions, open, s, order[1..]);
      Step(rest.sessions, first.outbox + rest.outbox)
  }

  /** After a close, the socket is in none of the visited sessions, and
      each visited session lost exactly that socket. */
  lemma {:induction false} CloseRemovesSocket(reg: Registry, open: set<SocketId>, s: SocketId, order: seq<SessionId>)
    requires Valid(reg)
    ensures forall k :: k in order ==> s !in Members(HandleClose(reg, open, s, order).sessions, k)
    ensures forall k :: k in order && k in reg ==> Members(HandleClose(reg, open, s, order).sessions, k) == Without(reg[k], s)
    decreases |order|
  {
    if |order| > 0 {
      var sid := order[0];
      var first := if s in Members(reg, sid) then HandleLeave(reg, open, sid, s) else Step(reg, []);
      var r := HandleClose(reg, open, s, order);
      assert r.sessions == HandleClose(first.sessions, open, s, order[1..]).sessions;
      CloseRemovesSocket(first.sessions, open, s, order[1..]);
      CloseStepFacts(reg, sid, s);
      if sid in reg && s !in reg[sid] {
        WithoutAbsent(reg[sid], s);
      }
      forall k | k in order && k in reg
        ensures Members(r.sessions, k) == Without(reg[k], s)
      {
        if k != sid {
          assert k in order[1..];
        } else if k !in order[1..] {
          assert Members(r.sessions, k) == Members(first.sessions, k);
        } else if k in first.sessions {
          assert Members(first.sessions, k) == Without(reg[k], s);
        }
      }
    }
  }

  // ---------------------------------------------------------------- dispatch

  /** The `message` callback: drop a message without a session id, dispatch
      the five known kinds, and ignore any other kind. */
  function OnMessage(reg: Registry, open: set<SocketId>, s: SocketId, msg: Inbound): (r: Step)
    ensures Valid(reg) ==> Valid(r.sessions)
    ensures msg.sessionId == "" ==> r == Step(reg, [])
    ensures msg.kind !in {"join", "offer", "answer", "candidate", "leave"} ==> r == Step(reg, [])
    ensures msg.kind in {"offer", "answer", "candidate"} ==> r.sessions == reg
    ensures forall k :: k != msg.sessionId ==> (k in r.sessions <==> k in reg) && Members(r.sessions, k) == Members(reg, k)
    ensures forall m :: m in r.outbox ==> m.msg.sessionId == msg.sessionId && m.to in open
    ensures forall m :: m in r.outbox ==> m.to in Members(reg, msg.sessionId) || (m.to == s && m.msg == Joined(msg.sessionId))
  {
    var sid := msg.sessionId;
    if sid == "" then Step(reg, [])
    else if msg.kind == "join" then HandleJoin(reg, open, sid, s)
    else if msg.kind == "offer" then Relay(reg, open, OfferKind, sid, s, msg.sdp)
    else if msg.kind == "answer" then Relay(reg, open, AnswerKind, sid, s, msg.sdp)
    else if msg.kind == "candidate" then Relay(reg, open, CandidateKind, sid, s, msg.candidate)
    else if msg.kind == "leave" then
      CloseStepFacts(reg, sid, s);
      HandleLeave(reg, open, sid, s)
    else Step(reg, [])
  }

  /** One event of a connection's life: an inbound message or the socket's
      closure (with the order in which the registry is visited). */
  datatype Event =
    | Message(from: SocketId, msg: Inbound)
    | Closed(socket: SocketId, order: seq<SessionId>)

  function Apply(reg: Registry, open: set<SocketId>, e: Event): (r: Step)
    ensures Valid(reg) ==> Valid(r.sessions)
  {
    match e
    case Message(from, msg) => OnMessage(reg, open, from, msg)
    case Closed(socket, order) => HandleClose(reg, open, socket, order)
  }

  /** A sequential trace of events, with every send collected in order. */
  function Run(reg: Registry, open: set<SocketId>, events: seq<Event>): (r: Step)
    ensures Valid(reg) ==> Valid(r.sessions)
    decreases |events|
  {
    if |events| == 0 then Step(reg, [])
    else
      var first := Apply(reg, open, events[0]);
      var rest := Run(first.sessions, open, events[1..]);
      Step(rest.sessions, first.outbox + rest.outbox)
  }
}
