/** The sign-up form (client/src/components/auth/RegisterForm.tsx): its zod
    schema, default values and how its accepted values fare at the
    server's register handler. The email check is left out. */
module RegisterForm {
  import opened Wrappers
  import opened Storage
  import Routes
  import Submission

  datatype Field = Username | Password | UserType

  datatype Issue = Issue(field: Field, message: string)

  /** The user type is None when no radio value is set. */
  datatype SignUp = SignUp(username: string, email: string, password: string, userType: Option<string>)

  /** The default values: empty boxes and the "student" radio selected. */
  const Defaults := SignUp("", "", "", Some("student"))

  /** The two radio values the enum admits. */
  predicate SelectableType(t: Option<string>) {
    t == Some("student") || t == Some("mentor")
  }

  /** The enum's messages: its required_error for a missing value, the
      library's own wording for any other value. */
  function UserTypeMessage(t: Option<string>): string {
    if t.None? then "Please select a user type"
    else "Invalid enum value. Expected 'student' | 'mentor', received '" + t.value + "'"
  }

  /** Every failing check of the schema (without the email check), in
      schema order. */
  function Issues(f: SignUp): (r: seq<Issue>)
    ensures r == [] <==> Accepted(f)
    ensures forall x :: x in r && x.field == Username ==> !(3 <= |f.username| <= 50)
    ensures forall x :: x in r && x.field == Password ==> !(8 <= |f.password| <= 100)
  {
    UsernameIssues(f.username) + PasswordIssues(f.password) + UserTypeIssues(f.userType)
  }

  /** The username's two length checks. */
  function UsernameIssues(name: string): (r: seq<Issue>)
    ensures r == [] <==> 3 <= |name| <= 50
    ensures forall x :: x in r ==> x.field == Username
  {
    Submission.Check(|name| >= 3, Issue(Username, "Username must be at least 3 characters"))
    + Submission.Check(|name| <= 50, Issue(Username, "Username must be less than 50 characters"))
  }

  /** The password's two length checks. */
  function PasswordIssues(password: string): (r: seq<Issue>)
    ensures r == [] <==> 8 <= |password| <= 100
    ensures forall x :: x in r ==> x.field == Password
  {
    Submission.Check(|password| >= 8, Issue(Password, "Password must be at least 8 characters"))
    + Submission.Check(|password| <= 100, Issue(Password, "Password must be less than 100 characters"))
  }

  /** The role's enum check. */
  function UserTypeIssues(t: Option<string>): (r: seq<Issue>)
    ensures r == [] <==> SelectableType(t)
    ensures forall x :: x in r ==> x.field == UserType
  {
    Submission.Check(SelectableType(t), Issue(UserType, UserTypeMessage(t)))
  }

  /** What the schema accepts: a username of 3 to 50 characters, a
      password of 8 to 100 and the student or mentor role. */
  predicate Accepted(f: SignUp) {
    3 <= |f.username| <= 50 && 8 <= |f.password| <= 100 && SelectableType(f.userType)
  }

  /** The defaults select "student" and still need a username and a
      password before the form can be sent. */
  lemma DefaultsNeedInput()
    ensures Defaults.userType == Some("student") && SelectableType(Defaults.userType)
    ensures !Accepted(Defaults)
    ensures Issues(Defaults) == [Issue(Username, "Username must be at least 3 characters"),
                                 Issue(Password, "Password must be at least 8 characters")]
  {
  }

  /** The form cannot ask for the admin role (the server would accept it). */
  lemma AdminNotSelectable(f: SignUp)
    requires f.userType == Some("admin")
    ensures !Accepted(f)
    ensures Routes.KnownUserType(f.userType)
  {
  }

  /** The request the form would send to the register handler. */
  function AsRegistration(f: SignUp): (r: Routes.Registration)
    ensures r.username == f.username && r.password == f.password && r.email == f.email
    ensures r.userType == f.userType
  {
    Routes.Registration(f.username, f.password, f.email, f.userType)
  }

  /** Accepted values always pass the server's role check, so the server
      refuses them exactly when the username is taken. */
  lemma AcceptedFormRegisters(st: Store, f: SignUp, now: Time)
    requires Accepted(f)
    ensures var r := Routes.Register(st, AsRegistration(f), now);
      r.status == 400 <==> GetUserByUsername(st, f.username).Some?
  {
  }

  /** Pressing Register: only accepted values are sent, and only while
      the button is enabled. */
  function Press(g: Submission.Gate<SignUp>, f: SignUp): (r: Submission.Gate<SignUp>)
    ensures r.sent == if !g.busy && Accepted(f) then g.sent + [f] else g.sent
    ensures r.busy <==> g.busy || Accepted(f)
  {
    Submission.Submit(g, f, Accepted)
  }
}
