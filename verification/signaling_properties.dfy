/** Properties of the relay that span several events: pairing, relay
    fidelity, cleanup on leave and on disconnect, session isolation, and
    the behaviour of a third joiner, which the code accepts. */
module SignalingProperties {
  import opened Wrappers
  import opened Signaling

  function JoinMsg(sid: SessionId): Inbound { Inbound("join", sid, None, None) }
  function LeaveMsg(sid: SessionId): Inbound { Inbound("leave", sid, None, None) }

  /** The sends addressed to one socket, in order. */
  function Received(out: seq<Send>, s: SocketId): (r: seq<Outbound>)
    ensures |r| <= |out|
  {
    if |out| == 0 then []
    else (if out[0].to == s then [out[0].msg] else []) + Received(out[1..], s)
  }

  /** Pairing: A then B join a fresh session; A receives `joined` then
      `ready`, B receives only `joined`. */
  lemma Pairing(reg: Registry, open: set<SocketId>, sid: SessionId, a: SocketId, b: SocketId)
    requires sid != "" && sid !in reg && a != b && a in open && b in open
    ensures Run(reg, open, [Message(a, JoinMsg(sid)), Message(b, JoinMsg(sid))]).sessions == reg[sid := [a, b]]
    ensures Received(Run(reg, open, [Message(a, JoinMsg(sid)), Message(b, JoinMsg(sid))]).outbox, a) == [Joined(sid), Ready(sid)]
    ensures Received(Run(reg, open, [Message(a, JoinMsg(sid)), Message(b, JoinMsg(sid))]).outbox, b) == [Joined(sid)]
  {
    var e1, e2 := Message(a, JoinMsg(sid)), Message(b, JoinMsg(sid));
    var m1 := reg[sid := [a]];
    var out := [Send(a, Joined(sid))] + [Send(b, Joined(sid)), Send(a, Ready(sid))];
    assert Apply(reg, open, e1) == Step(m1, [Send(a, Joined(sid))]) by {
      FirstJoin(reg, open, sid, a);
    }
    assert Apply(m1, open, e2) == Step(reg[sid := [a, b]], [Send(b, Joined(sid)), Send(a, Ready(sid))]) by {
      SecondJoin(m1, open, sid, a, b);
      UpdateTwice(reg, sid, [a], [a, b]);
    }
    assert Run(reg, open, [e1, e2]) == Step(reg[sid := [a, b]], out) by {
      RunTwo(reg, open, e1, e2);
    }
    PairingInbox(sid, a, b);
  }

  lemma UpdateTwice(m: Registry, k: SessionId, v1: seq<SocketId>, v2: seq<SocketId>)
    ensures m[k := v1][k := v2] == m[k := v2]
  {
  }

  /** Running two events is applying one after the other. */
  lemma RunTwo(reg: Registry, open: set<SocketId>, e1: Event, e2: Event)
    ensures var r1 := Apply(reg, open, e1);
            var r2 := Apply(r1.sessions, open, e2);
            Run(reg, open, [e1, e2]) == Step(r2.sessions, r1.outbox + r2.outbox)
  {
    assert [e1, e2][1..] == [e2];
    assert [e2][1..] == [];
    var r1 := Apply(reg, open, e1);
    var r2 := Apply(r1.sessions, open, e2);
    assert Run(r1.sessions, open, [e2]) == Step(r2.sessions, r2.outbox + []);
    assert r2.outbox + [] == r2.outbox;
  }

  lemma PairingInbox(sid: SessionId, a: SocketId, b: SocketId)
    requires a != b
    ensures var out := [Send(a, Joined(sid))] + [Send(b, Joined(sid)), Send(a, Ready(sid))];
            Received(out, a) == [Joined(sid), Ready(sid)] && Received(out, b) == [Joined(sid)]
  {
    var out := [Send(a, Joined(sid))] + [Send(b, Joined(sid)), Send(a, Ready(sid))];
    assert out[1..] == [Send(b, Joined(sid)), Send(a, Ready(sid))];
    assert out[1..][1..] == [Send(a, Ready(sid))];
    assert out[1..][1..][1..] == [];
    assert Received(out[1..][1..], a) == [Ready(sid)] + Received(out[1..][1..][1..], a);
    assert Received(out[1..][1..], b) == Received(out[1..][1..][1..], b);
    assert Received(out[1..], a) == Received(out[1..][1..], a);
    assert Received(out[1..], b) == [Joined(sid)] + Received(out[1..][1..], b);
  }

  /** The first join of an unseen session creates it with the joiner alone. */
  lemma FirstJoin(reg: Registry, open: set<SocketId>, sid: SessionId, a: SocketId)
    requires sid != "" && sid !in reg && a in open
    ensures OnMessage(reg, open, a, JoinMsg(sid)) == Step(reg[sid := [a]], [Send(a, Joined(sid))])
  {
    assert OnMessage(reg, open, a, JoinMsg(sid)) == HandleJoin(reg, open, sid, a);
    assert [] + [a] == [a];
  }

  /** The second join completes the pair: `joined` to the joiner, then
      `ready` to the first participant. */
  lemma SecondJoin(reg: Registry, open: set<SocketId>, sid: SessionId, a: SocketId, b: SocketId)
    requires sid != "" && sid in reg && reg[sid] == [a] && a != b && a in open && b in open
    ensures OnMessage(reg, open, b, JoinMsg(sid)) == Step(reg[sid := [a, b]], [Send(b, Joined(sid)), Send(a, Ready(sid))])
  {
    assert OnMessage(reg, open, b, JoinMsg(sid)) == HandleJoin(reg, open, sid, b);
    assert Members(reg, sid) == [a];
    assert [a] + [b] == [a, b];
  }

  /** Relay fidelity: in a two-party session each side's offer, answer or
      candidate reaches exactly the other side, unchanged. */
  lemma RelayFidelity(reg: Registry, open: set<SocketId>, k: RelayKind, sid: SessionId, a: SocketId, b: SocketId, p: Blob)
    requires Valid(reg) && sid in reg && reg[sid] == [a, b] && a in open && b in open
    ensures Relay(reg, open, k, sid, a, Some(p)) == Step(reg, [Send(b, Forwarded(k, sid, p))])
    ensures Relay(reg, open, k, sid, b, Some(p)) == Step(reg, [Send(a, Forwarded(k, sid, p))])
  {
    assert reg[sid][0] != reg[sid][1];
  }

  /** A participant alone in its session signals into the void: nothing is
      sent and nothing changes. */
  lemma AloneIsDropped(reg: Registry, open: set<SocketId>, k: RelayKind, sid: SessionId, a: SocketId, p: Option<Blob>)
    requires sid in reg && reg[sid] == [a]
    ensures Relay(reg, open, k, sid, a, p) == Step(reg, [])
  {
  }

  /** The code puts no cap on a session: a third joiner is appended and
      receives only `joined`, and its relayed messages go to index 0. */
  lemma ThirdJoiner(reg: Registry, open: set<SocketId>, sid: SessionId, a: SocketId, b: SocketId, c: SocketId, k: RelayKind, p: Blob)
    requires Valid(reg) && sid in reg && reg[sid] == [a, b] && c != a && c != b && a in open && c in open
    ensures var r := HandleJoin(reg, open, sid, c);
            && r.sessions[sid] == [a, b, c]
            && r.outbox == [Send(c, Joined(sid))]
            && Relay(r.sessions, open, k, sid, c, Some(p)) == Step(r.sessions, [Send(a, Forwarded(k, sid, p))])
  {
    var r := HandleJoin(reg, open, sid, c);
    assert r.sessions[sid] == [a, b, c];
    assert FindIndex([a, b, c], c) == 2;
  }

  /** Cleanup on leave: when one of two participants leaves, the other is
      told `leave` and stays alone; when the last one leaves the session is
      gone, so a later join starts a fresh session. */
  lemma CleanupOnLeave(reg: Registry, open: set<SocketId>, sid: SessionId, a: SocketId, b: SocketId)
    requires Valid(reg) && sid != "" && sid in reg && reg[sid] == [a, b] && b in open
    ensures OnMessage(reg, open, a, LeaveMsg(sid)) == Step(reg[sid := [b]], [Send(b, Leave(sid))])
  {
    assert reg[sid][0] != reg[sid][1];
    assert OnMessage(reg, open, a, LeaveMsg(sid)) == HandleLeave(reg, open, sid, a);
    assert FindIndex([a, b], a) == 0;
    assert [a, b][..0] + [a, b][1..] == [b];
  }

  /** When the last participant leaves, the session is deleted, and a later
      join under the same id starts a fresh session. */
  lemma LastLeaveThenFreshJoin(reg: Registry, open: set<SocketId>, sid: SessionId, b: SocketId, c: SocketId)
    requires Valid(reg) && sid != "" && sid in reg && reg[sid] == [b] && c in open
    ensures OnMessage(reg, open, b, LeaveMsg(sid)) == Step(reg - {sid}, [])
    ensures OnMessage(reg - {sid}, open, c, JoinMsg(sid)) == Step(reg[sid := [c]], [Send(c, Joined(sid))])
  {
    assert OnMessage(reg, open, b, LeaveMsg(sid)) == HandleLeave(reg, open, sid, b);
    assert FindIndex([b], b) == 0;
    assert [b][..0] + [b][1..] == [];
    FirstJoin(reg - {sid}, open, sid, c);
    assert (reg - {sid})[sid := [c]] == reg[sid := [c]];
  }

  /** A registry in which socket s occurs in exactly one session. */
  predicate OnlyIn(reg: Registry, s: SocketId, sid: SessionId) {
    s in Members(reg, sid) && forall k :: k in reg && k != sid ==> s !in reg[k]
  }

  /** Cleanup on disconnect: closing a socket that belongs to one session
      has exactly the effect of an explicit leave of that session, whatever
      order the registry is visited in (each key visited once). */
  lemma {:induction false} CloseIsLeave(reg: Registry, open: set<SocketId>, s: SocketId, sid: SessionId, order: seq<SessionId>)
    requires Valid(reg) && OnlyIn(reg, s, sid)
    requires sid in order && forall i, j :: 0 <= i < j < |order| ==> order[i] != order[j]
    ensures HandleClose(reg, open, s, order) == HandleLeave(reg, open, sid, s)
    decreases |order|
  {
    if order[0] == sid {
      CloseAtHome(reg, open, s, sid, order);
    } else {
      assert sid in order[1..];
      assert forall i, j :: 0 <= i < j < |order[1..]| ==> order[1..][i] != order[1..][j] by {
        forall i, j | 0 <= i < j < |order[1..]| ensures order[1..][i] != order[1..][j] {
          assert order[1..][i] == order[i + 1] && order[1..][j] == order[j + 1];
        }
      }
      CloseIsLeave(reg, open, s, sid, order[1..]);
      CloseSkips(reg, open, s, order);
    }
  }

  /** Visiting the socket's own session first: the leave happens there,
      and the rest of the visit finds nothing more to close. */
  lemma CloseAtHome(reg: Registry, open: set<SocketId>, s: SocketId, sid: SessionId, order: seq<SessionId>)
    requires Valid(reg) && OnlyIn(reg, s, sid) && |order| > 0 && order[0] == sid
    ensures HandleClose(reg, open, s, order) == HandleLeave(reg, open, sid, s)
  {
    var first := HandleLeave(reg, open, sid, s);
    CloseStepFacts(reg, sid, s);
    assert forall k :: s !in Members(first.sessions, k);
    NothingToClose(first.sessions, open, s, order[1..]);
    assert first.outbox + [] == first.outbox;
  }

  /** Visiting a session the socket is not in changes nothing. */
  lemma CloseSkips(reg: Registry, open: set<SocketId>, s: SocketId, order: seq<SessionId>)
    requires |order| > 0 && s !in Members(reg, order[0])
    ensures HandleClose(reg, open, s, order) == HandleClose(reg, open, s, order[1..])
  {
    assert [] + HandleClose(reg, open, s, order[1..]).outbox == HandleClose(reg, open, s, order[1..]).outbox;
  }

  /** Closing a socket that is in no session changes nothing. */
  lemma {:induction false} NothingToClose(reg: Registry, open: set<SocketId>, s: SocketId, order: seq<SessionId>)
    requires forall k :: s !in Members(reg, k)
    ensures HandleClose(reg, open, s, order) == Step(reg, [])
    decreases |order|
  {
    if |order| > 0 {
      NothingToClose(reg, open, s, order[1..]);
    }
  }

  /** Session isolation: in a trace of messages that all name session sid
      (and no closes), every send goes to a socket that was in sid at the
      start or that itself sent a message of the trace, so a socket
      registered only under another session id receives nothing; and every
      other session id keeps its presence and its member list. */
  predicate AllFor(events: seq<Event>, sid: SessionId) {
    forall i :: 0 <= i < |events| ==> events[i].Message? && events[i].msg.sessionId == sid
  }

  function Senders(events: seq<Event>): set<SocketId> {
    set i | 0 <= i < |events| && events[i].Message? :: events[i].from
  }

  lemma {:induction false} Isolation(reg: Registry, open: set<SocketId>, sid: SessionId, events: seq<Event>)
    requires AllFor(events, sid)
    ensures var r := Run(reg, open, events);
            forall m :: m in r.outbox ==> m.msg.sessionId == sid && (m.to in Members(reg, sid) || m.to in Senders(events))
    ensures forall x :: x in Members(Run(reg, open, events).sessions, sid) ==> x in Members(reg, sid) || x in Senders(events)
    ensures forall k :: k != sid ==>
              (k in Run(reg, open, events).sessions <==> k in reg) && Members(Run(reg, open, events).sessions, k) == Members(reg, k)
    decreases |events|
  {
    if |events| > 0 {
      var e := events[0];
      var first := Apply(reg, open, e);
      assert AllFor(events[1..], sid) by {
        forall i | 0 <= i < |events[1..]| ensures events[1..][i].Message? && events[1..][i].msg.sessionId == sid {
          assert events[1..][i] == events[i + 1];
        }
      }
      Isolation(first.sessions, open, sid, events[1..]);
      assert Senders(events[1..]) <= Senders(events) by {
        forall x | x in Senders(events[1..]) ensures x in Senders(events) {
          var i :| 0 <= i < |events[1..]| && events[1..][i].Message? && events[1..][i].from == x;
          assert events[i + 1] == events[1..][i];
        }
      }
      assert e.from in Senders(events) by {
        assert events[0].Message?;
      }
      JoinLeaveMembers(reg, open, e.from, e.msg);
    }
  }

  /** One message for sid can only bring its own sender into sid. */
  lemma JoinLeaveMembers(reg: Registry, open: set<SocketId>, s: SocketId, msg: Inbound)
    ensures forall x :: x in Members(OnMessage(reg, open, s, msg).sessions, msg.sessionId) ==> x in Members(reg, msg.sessionId) || x == s
  {
  }

  /** The call-42 walk-through, as the code behaves. Sockets A, B, C are
      1, 2, 3. A and B pair up. */
  lemma ScenarioPairing()
    ensures OnMessage(map[], {1, 2, 3}, 1, JoinMsg("call-42"))
            == Step(map["call-42" := [1]], [Send(1, Joined("call-42"))])
    ensures OnMessage(map["call-42" := [1]], {1, 2, 3}, 2, JoinMsg("call-42"))
            == Step(map["call-42" := [1, 2]], [Send(2, Joined("call-42")), Send(1, Ready("call-42"))])
  {
    var empty: Registry := map[];
    FirstJoin(empty, {1, 2, 3}, "call-42", 1);
    SecondJoin(map["call-42" := [1]], {1, 2, 3}, "call-42", 1, 2);
    UpdateTwice(empty, "call-42", [1], [1, 2]);
  }

  /** A's offer reaches B and B's answer reaches A, unchanged. */
  lemma ScenarioExchange(x: Blob, y: Blob)
    ensures OnMessage(map["call-42" := [1, 2]], {1, 2, 3}, 1, Inbound("offer", "call-42", Some(x), None))
            == Step(map["call-42" := [1, 2]], [Send(2, Offer("call-42", x))])
    ensures OnMessage(map["call-42" := [1, 2]], {1, 2, 3}, 2, Inbound("answer", "call-42", Some(y), None))
            == Step(map["call-42" := [1, 2]], [Send(1, Answer("call-42", y))])
  {
    var m2: Registry := map["call-42" := [1, 2]];
    assert OnMessage(m2, {1, 2, 3}, 1, Inbound("offer", "call-42", Some(x), None)) == Relay(m2, {1, 2, 3}, OfferKind, "call-42", 1, Some(x));
    assert OnMessage(m2, {1, 2, 3}, 2, Inbound("answer", "call-42", Some(y), None)) == Relay(m2, {1, 2, 3}, AnswerKind, "call-42", 2, Some(y));
    RelayFidelity(map["call-42" := [1, 2]], {1, 2, 3}, OfferKind, "call-42", 1, 2, x);
    RelayFidelity(map["call-42" := [1, 2]], {1, 2, 3}, AnswerKind, "call-42", 1, 2, y);
  }

  /** Then A's socket closes: B is told `leave` and stays. C joins the same
      id and, because B is still there, the session holds B and C and B is
      told `ready`; the session is not fresh. */
  lemma ScenarioDisconnect()
    ensures HandleClose(map["call-42" := [1, 2]], {2, 3}, 1, ["call-42"])
            == Step(map["call-42" := [2]], [Send(2, Leave("call-42"))])
    ensures OnMessage(map["call-42" := [2]], {2, 3}, 3, JoinMsg("call-42"))
            == Step(map["call-42" := [2, 3]], [Send(3, Joined("call-42")), Send(2, Ready("call-42"))])
  {
    var empty: Registry := map[];
    var m2: Registry := map["call-42" := [1, 2]];
    CloseIsLeave(m2, {2, 3}, 1, "call-42", ["call-42"]);
    CleanupOnLeave(m2, {2, 3}, "call-42", 1, 2);
    UpdateTwice(empty, "call-42", [1, 2], [2]);
    SecondJoin(map["call-42" := [2]], {2, 3}, "call-42", 2, 3);
    UpdateTwice(empty, "call-42", [2], [2, 3]);
  }
}
