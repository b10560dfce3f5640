/** The busy flag the client forms share: `onSubmit` sets it and sends
    the request (the form library only calls `onSubmit` with values that
    passed the schema), the request's `onSettled` clears it, and while it
    is set the submit control is disabled, so nothing is sent. The payment
    form (isProcessing), the registration form and the mentor application
    (isSubmitting) and the message box (isSending) all follow it. */
module Submission {

  /** The flag and every request sent so far, oldest first. */
  datatype Gate<D> = Gate(busy: bool, sent: seq<D>)

  datatype Event<D> = Attempt(values: D) | Settled

  /** One check of a schema: no issue when it holds, otherwise its own
      issue alone. */
  function Check<I>(ok: bool, issue: I): (r: seq<I>)
    ensures r == [] <==> ok
    ensures forall x :: x in r ==> x == issue
  {
    if ok then [] else [issue]
  }

  function Idle<D>(): Gate<D> {
    Gate(false, [])
  }

  /** One submit attempt: sent iff the control is enabled and the values
      pass the schema. */
  function Submit<D>(g: Gate<D>, d: D, valid: D -> bool): (r: Gate<D>)
    ensures !g.busy && valid(d) ==> r == Gate(true, g.sent + [d])
    ensures g.busy || !valid(d) ==> r == g
  {
    if g.busy || !valid(d) then g else Gate(true, g.sent + [d])
  }

  /** `onSettled`: the flag is cleared whatever the outcome. */
  function Settle<D>(g: Gate<D>): (r: Gate<D>)
    ensures !r.busy && r.sent == g.sent
  {
    g.(busy := false)
  }

  function Step<D>(g: Gate<D>, e: Event<D>, valid: D -> bool): Gate<D> {
    match e
    case Attempt(d) => Submit(g, d, valid)
    case Settled => Settle(g)
  }

  function Run<D>(g: Gate<D>, events: seq<Event<D>>, valid: D -> bool): (r: Gate<D>)
    ensures g.sent <= r.sent
    decreases |events|
  {
    if |events| == 0 then g else Run(Step(g, events[0], valid), events[1..], valid)
  }

  function Settles<D>(events: seq<Event<D>>): nat {
    if |events| == 0 then 0 else (if events[0].Settled? then 1 else 0) + Settles(events[1..])
  }

  /** Sent requests plus one while the control is enabled. */
  function Budget<D>(g: Gate<D>): nat {
    |g.sent| + if g.busy then 0 else 1
  }

  /** Each settle re-enables at most one more request: after any run the
      requests sent number at most one more than the settles seen. */
  lemma {:induction false} OneRequestPerSettle<D>(g: Gate<D>, events: seq<Event<D>>, valid: D -> bool)
    ensures Budget(Run(g, events, valid)) <= Budget(g) + Settles(events)
    ensures |Run(g, events, valid).sent| <= |g.sent| + 1 + Settles(events)
    decreases |events|
  {
    if |events| > 0 {
      OneRequestPerSettle(Step(g, events[0], valid), events[1..], valid);
    }
  }

  predicate AllValid<D>(xs: seq<D>, valid: D -> bool) {
    forall i :: 0 <= i < |xs| ==> valid(xs[i])
  }

  /** Only values that passed the schema are ever sent. */
  lemma {:induction false} OnlyValidSent<D>(g: Gate<D>, events: seq<Event<D>>, valid: D -> bool)
    requires AllValid(g.sent, valid)
    ensures AllValid(Run(g, events, valid).sent, valid)
    decreases |events|
  {
    if |events| > 0 {
      var h := Step(g, events[0], valid);
      assert AllValid(h.sent, valid);
      OnlyValidSent(h, events[1..], valid);
    }
  }
}
