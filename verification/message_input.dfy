/** The message box of a conversation
    (client/src/components/messaging/MessageInput.tsx): the content schema,
    the Enter-key rule, the sending flag and the reset after a successful
    send. */
module MessageInput {
  import Submission

  const MaxLength: nat := 1000

  /** The schema's message for a content of this length, if it fails. */
  function ContentIssue(content: string): (m: string)
    ensures m == "" <==> 1 <= |content| <= MaxLength
  {
    if |content| < 1 then "Message cannot be empty"
    else if |content| > MaxLength then "Message is too long"
    else ""
  }

  predicate Accepted(content: string) {
    1 <= |content| <= MaxLength
  }

  /** The box: its text and the sending flag with the contents sent. */
  datatype Box = Box(content: string, gate: Submission.Gate<string>)

  const Fresh := Box("", Submission.Idle())

  datatype Key = Key(name: string, shift: bool)

  /** Enter without Shift: the key handler prevents the default action and
      calls the form's submit handler itself. */
  predicate Intercepted(k: Key) {
    k.name == "Enter" && !k.shift
  }

  /** Shift+Enter: the key handler lets it through, and Enter in the form's
      only single-line input, next to an enabled submit button, is the
      browser's implicit submission, which runs the same submit handler. */
  predicate ImplicitSubmission(k: Key) {
    k.name == "Enter" && k.shift
  }

  /** Whether a key press submits, by either path. While sending, the input
      is disabled and receives no key presses. */
  predicate SubmitsOn(b: Box, k: Key) {
    !b.gate.busy && (Intercepted(k) || ImplicitSubmission(k))
  }

  /** A submit (button or Enter): the current text is sent when the schema
      accepts it and the controls are enabled. */
  function Send(b: Box): (r: Box)
    ensures r.content == b.content
    ensures r.gate.sent == if !b.gate.busy && Accepted(b.content) then b.gate.sent + [b.content] else b.gate.sent
    ensures r.gate.busy <==> b.gate.busy || Accepted(b.content)
  {
    b.(gate := Submission.Submit(b.gate, b.content, Accepted))
  }

  /** A key press: Enter submits, with or without Shift; any other key
      leaves the box to the input's own editing. */
  function Press(b: Box, k: Key): (r: Box)
    ensures !b.gate.busy && k.name == "Enter" ==> r == Send(b)
    ensures b.gate.busy || k.name != "Enter" ==> r == b
  {
    if SubmitsOn(b, k) then Send(b) else b
  }

  /** onSuccess: `form.reset()` restores the default, the empty text. */
  function Succeeded(b: Box): (r: Box)
    ensures r.content == "" && r.gate == b.gate
  {
    b.(content := "")
  }

  /** onSettled: the controls are enabled again. */
  function Settled(b: Box): (r: Box)
    ensures !r.gate.busy && r.content == b.content && r.gate.sent == b.gate.sent
  {
    b.(gate := Submission.Settle(b.gate))
  }

  /** Shift+Enter sends just as Enter does; Enter sends an acceptable text
      once, and a second Enter before the request settles sends nothing
      more. */
  lemma EnterSendsOnce(b: Box)
    requires !b.gate.busy && Accepted(b.content)
    ensures Press(b, Key("Enter", true)) == Press(b, Key("Enter", false))
    ensures Press(b, Key("Enter", true)).gate.sent == b.gate.sent + [b.content]
    ensures Press(b, Key("Enter", false)).gate.sent == b.gate.sent + [b.content]
    ensures Press(Press(b, Key("Enter", false)), Key("Enter", false)) == Press(b, Key("Enter", false))
  {
  }

  /** The empty box cannot be sent, and a successful send empties the box
      so that pressing Enter again sends nothing. */
  lemma SuccessEmptiesBox(b: Box)
    ensures !Accepted(Fresh.content)
    ensures var r := Settled(Succeeded(b));
      Press(r, Key("Enter", false)).gate.sent == b.gate.sent
  {
  }
}
