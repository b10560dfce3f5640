/** The two-step mentor application page
    (client/src/pages/BecomeAMentorPage.tsx): the zod schema of the
    fourteen fields, the split of the fields over the two steps, the
    "Next" button, the submit handler and the request callbacks. The
    email check is left out. */
module MentorApplication {
  import opened Wrappers
  import opened Text
  import Submission

  datatype Field =
    | Name | Email | Phone | University | Degree | GraduationYear
    | Company | Title | Experience | Bio | ExpertiseAreas | Languages | LinkedinProfile | HearAboutUs

  /** The fourteen keys of the schema, in schema order. */
  const AllFields: seq<Field> := [Name, Email, Phone, University, Degree, GraduationYear,
                                  Company, Title, Experience, Bio, ExpertiseAreas, Languages,
                                  LinkedinProfile, HearAboutUs]

  /** fieldsByStep[1] and fieldsByStep[2]. */
  const StepOne: seq<Field> := [Name, Email, Phone, University, Degree, GraduationYear]
  const StepTwo: seq<Field> := [Company, Title, Experience, Bio, ExpertiseAreas, Languages, LinkedinProfile, HearAboutUs]

  /** The form values; the optional LinkedIn profile may be absent. */
  datatype Values = Values(name: string, email: string, phone: string, university: string, degree: string,
                           graduationYear: string, company: string, title: string, experience: string,
                           bio: string, expertiseAreas: string, languages: string,
                           linkedinProfile: Option<string>, hearAboutUs: string)

  datatype Issue = Issue(field: Field, message: string)

  /** `a || ""` on an optional string: an absent or empty value gives "". */
  function OrEmpty(a: Option<string>): (s: string)
    ensures a.Some? ==> s == a.value
    ensures a.None? ==> s == ""
  {
    if a.Some? && a.value != "" then a.value else ""
  }

  /** The default values: the signed-in user's name and email when it has
      them, every other field empty. */
  function Defaults(userName: Option<string>, userEmail: Option<string>): (v: Values)
    ensures v.name == OrEmpty(userName) && v.email == OrEmpty(userEmail)
    ensures forall f :: f in StepTwo ==> Value(v, f) == ""
    ensures v.phone == "" && v.university == "" && v.degree == "" && v.graduationYear == ""
  {
    Values(OrEmpty(userName), OrEmpty(userEmail), "", "", "", "", "", "", "", "", "", "", Some(""), "")
  }

  /** A field's value as a string; an absent profile reads as "". */
  function Value(v: Values, f: Field): string {
    match f
    case Name => v.name
    case Email => v.email
    case Phone => v.phone
    case University => v.university
    case Degree => v.degree
    case GraduationYear => v.graduationYear
    case Company => v.company
    case Title => v.title
    case Experience => v.experience
    case Bio => v.bio
    case ExpertiseAreas => v.expertiseAreas
    case Languages => v.languages
    case LinkedinProfile => OrEmpty(v.linkedinProfile)
    case HearAboutUs => v.hearAboutUs
  }

  /** `/^\d{4}$/`. */
  predicate FourDigits(s: string) {
    |s| == 4 && AllDigits(s)
  }

  /** The minimum length the schema asks of a field; the graduation year,
      the email and the optional profile have none. */
  function MinLength(f: Field): nat {
    match f
    case Name => 2
    case Phone => 10
    case Bio => 100
    case GraduationYear => 0
    case Email => 0
    case LinkedinProfile => 0
    case _ => 1
  }

  function MinMessage(f: Field): string {
    match f
    case Name => "Name is required"
    case Phone => "Please enter a valid phone number"
    case University => "University is required"
    case Degree => "Degree is required"
    case Company => "Company is required"
    case Title => "Job title is required"
    case Experience => "Years of experience is required"
    case Bio => "Please write at least 100 characters about yourself"
    case ExpertiseAreas => "Please select at least one area of expertise"
    case Languages => "Please select at least one language"
    case HearAboutUs => "Please let us know how you heard about us"
    case _ => ""
  }

  /** The failing check of one field, if any. */
  function FieldIssues(v: Values, f: Field): (r: seq<Issue>)
    ensures |r| <= 1 && forall i :: 0 <= i < |r| ==> r[i].field == f
    ensures r == [] <==> FieldAccepted(v, f)
  {
    if f == GraduationYear then
      (if FourDigits(v.graduationYear) then [] else [Issue(f, "Please enter a valid year")])
    else if |Value(v, f)| >= MinLength(f) then []
    else [Issue(f, MinMessage(f))]
  }

  /** What the schema asks of each field, stated per field. */
  predicate FieldAccepted(v: Values, f: Field) {
    match f
    case Name => |v.name| >= 2
    case Phone => |v.phone| >= 10
    case Bio => |v.bio| >= 100
    case GraduationYear => |v.graduationYear| == 4 && forall i :: 0 <= i < 4 ==> IsDigit(v.graduationYear[i])
    case Email => true
    case LinkedinProfile => true
    case _ => |Value(v, f)| >= 1
  }

  /** The failing checks of the listed fields, in list order. */
  function IssuesOf(v: Values, fields: seq<Field>): (r: seq<Issue>)
    ensures r == [] <==> forall i :: 0 <= i < |fields| ==> FieldAccepted(v, fields[i])
  {
    if |fields| == 0 then []
    else FieldIssues(v, fields[0]) + IssuesOf(v, fields[1..])
  }

  predicate Accepted(v: Values) {
    forall f :: FieldAccepted(v, f)
  }

  /** Where a field sits in the schema and in the two step lists. */
  function Place(f: Field): (k: nat)
    ensures k < |AllFields| && AllFields[k] == f
    ensures k < |StepOne| ==> StepOne[k] == f
    ensures k >= |StepOne| ==> StepTwo[k - |StepOne|] == f
  {
    match f
    case Name => 0
    case Email => 1
    case Phone => 2
    case University => 3
    case Degree => 4
    case GraduationYear => 5
    case Company => 6
    case Title => 7
    case Experience => 8
    case Bio => 9
    case ExpertiseAreas => 10
    case Languages => 11
    case LinkedinProfile => 12
    case HearAboutUs => 13
  }

  /** The schema accepts the values iff it finds no issue in any field. */
  lemma AcceptedIffNoIssues(v: Values)
    ensures IssuesOf(v, AllFields) == [] <==> Accepted(v)
  {
    if IssuesOf(v, AllFields) == [] {
      forall f ensures FieldAccepted(v, f) {
        assert AllFields[Place(f)] == f;
      }
    }
  }

  /** The two steps split the schema: no field is on both, every one of
      the fourteen keys is on one, and no key is listed twice. */
  lemma StepsPartitionFields()
    ensures forall f :: f in StepOne <==> !(f in StepTwo)
    ensures forall f :: f in AllFields <==> f in StepOne + StepTwo
    ensures |AllFields| == 14 && |StepOne| + |StepTwo| == 14
    ensures forall i, j :: 0 <= i < j < |AllFields| ==> AllFields[i] != AllFields[j]
  {
    forall f ensures f in StepOne <==> !(f in StepTwo) {
      var k := Place(f);
      if k < |StepOne| {
        assert StepOne[k] == f;
      } else {
        assert StepTwo[k - |StepOne|] == f;
      }
    }
    forall f ensures f in AllFields {
      assert AllFields[Place(f)] == f;
    }
    assert StepOne + StepTwo == AllFields;
  }

  /** A form passes both steps iff the schema accepts it. */
  lemma StepsCoverSchema(v: Values)
    ensures (IssuesOf(v, StepOne) == [] && IssuesOf(v, StepTwo) == []) <==> Accepted(v)
  {
    if IssuesOf(v, StepOne) == [] && IssuesOf(v, StepTwo) == [] {
      forall f ensures FieldAccepted(v, f) {
        var k := Place(f);
        if k < |StepOne| {
          assert StepOne[k] == f;
        } else {
          assert StepTwo[k - |StepOne|] == f;
        }
      }
    }
  }

  // ---------------------------------------------------------------- the page

  /** The page: the step shown (1, 2 or the thank-you step 3), whether the
      sign-in dialog is open, and the submission flag with what was sent. */
  datatype Page = Page(step: nat, showAuthModal: bool, gate: Submission.Gate<Values>)

  const Start := Page(1, false, Submission.Idle())

  /** handleNextStep as written: `every` receives the Promise that
      `form.trigger` returns, which is truthy, so the page always moves
      to step 2 whatever the step-1 fields hold. */
  function NextStepAsWritten(p: Page, v: Values): (r: Page)
    ensures r.step == 2 && r.showAuthModal == p.showAuthModal && r.gate == p.gate
  {
    var isValid := forall i :: 0 <= i < |StepOne| ==> PromiseIsTruthy(StepOne[i]);
    if isValid then p.(step := 2) else p
  }

  /** Any Promise object is truthy in JavaScript. */
  predicate PromiseIsTruthy(f: Field) {
    true
  }

  /** The blank form moves past step 1 as written, although its step-1
      fields fail the schema. */
  lemma NextStepAsWrittenSkipsValidation()
    ensures var v := Defaults(None, None);
      NextStepAsWritten(Start, v).step == 2 && IssuesOf(v, StepOne) != []
  {
    var v := Defaults(None, None);
    assert !FieldAccepted(v, StepOne[0]);
  }

  /** handleNextStep as evidently intended: wait for the validation of
      the step-1 fields and move to step 2 only when all of them pass. */
  function NextStep(p: Page, v: Values): (r: Page)
    ensures r.step == 2 <==> IssuesOf(v, StepOne) == [] || p.step == 2
    ensures r.step != 2 ==> r == p
    ensures r.showAuthModal == p.showAuthModal && r.gate == p.gate
  {
    if IssuesOf(v, StepOne) == [] then p.(step := 2) else p
  }

  /** onSubmit behind handleSubmit: values the schema refuses are not
      submitted; a visitor who is not signed in gets the sign-in dialog
      and nothing is sent; otherwise the application is sent while the
      button is enabled. */
  function Submit(p: Page, v: Values, authenticated: bool): (r: Page)
    ensures !Accepted(v) ==> r == p
    ensures Accepted(v) && !authenticated ==> r == p.(showAuthModal := true)
    ensures r.gate.sent == if Accepted(v) && authenticated && !p.gate.busy then p.gate.sent + [v] else p.gate.sent
    ensures r.step == p.step
  {
    if !Accepted(v) then p
    else if !authenticated then p.(showAuthModal := true)
    else p.(gate := Submission.Submit(p.gate, v, Accepted))
  }

  /** onSuccess: the thank-you step. */
  function Succeeded(p: Page): (r: Page)
    ensures r.step == 3 && r.gate == p.gate
  {
    p.(step := 3)
  }

  /** onSettled, after success or failure. */
  function Settled(p: Page): (r: Page)
    ensures !r.gate.busy && r.gate.sent == p.gate.sent && r.step == p.step
  {
    p.(gate := Submission.Settle(p.gate))
  }

  datatype Event = Next(values: Values) | Back | Send(values: Values, authenticated: bool) | Success | Done

  /** The page's reaction to one event, with the corrected Next button. */
  function Handle(p: Page, e: Event): Page {
    match e
    case Next(v) => if p.step == 1 then NextStep(p, v) else p
    case Back => if p.step == 2 then p.(step := 1) else p
    case Send(v, auth) => if p.step == 2 then Submit(p, v, auth) else p
    case Success => Succeeded(p)
    case Done => Settled(p)
  }

  /** Leaving step 1 requires valid step-1 fields, and every application
      sent was accepted by the whole schema. */
  lemma {:induction false} HandleKeepsPromises(p: Page, e: Event)
    requires forall i :: 0 <= i < |p.gate.sent| ==> Accepted(p.gate.sent[i])
    ensures p.step == 1 && e.Next? && Handle(p, e).step == 2 ==> IssuesOf(e.values, StepOne) == []
    ensures var r := Handle(p, e); forall i :: 0 <= i < |r.gate.sent| ==> Accepted(r.gate.sent[i])
    ensures !e.Send? ==> Handle(p, e).gate.sent == p.gate.sent
  {
  }
}
