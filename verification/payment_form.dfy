/** The card form of the booking flow
    (client/src/components/booking/PaymentForm.tsx): the zod schema, the
    digit-only input boxes and the fee it shows. Card details are only
    checked for shape; nothing compares the expiry with the date. */
module PaymentForm {
  import opened Wrappers
  import opened Text
  import opened Tables
  import opened Storage
  import Routes
  import Submission

  /** MENTORSHIP_FEE of client/src/lib/constants.ts, in rupees. */
  const MentorshipFee: nat := 1500

  datatype Field = CardNumber | ExpiryMonth | ExpiryYear | Cvv | NameOnCard

  datatype Issue = Issue(field: Field, message: string)

  datatype Payment = Payment(cardNumber: string, expiryMonth: string, expiryYear: string, cvv: string, nameOnCard: string)

  /** The default values: every box empty. */
  const Blank := Payment("", "", "", "", "")

  /** `^(0?[1-9]|1[0-2])$`. */
  predicate MonthPattern(s: string) {
    || (|s| == 1 && '1' <= s[0] <= '9')
    || (|s| == 2 && s[0] == '0' && '1' <= s[1] <= '9')
    || (|s| == 2 && s[0] == '1' && '0' <= s[1] <= '2')
  }

  /** One or two digits naming a month 1..12. */
  predicate MonthNumber(s: string) {
    1 <= |s| <= 2 && AllDigits(s) && 1 <= DecimalValue(s) <= 12
  }

  /** The pattern is exactly "a month number written with at most two
      digits": 1-9, 01-09 and 10-12 pass, 0, 00 and 13 do not. */
  lemma MonthPatternMeaning(s: string)
    ensures MonthPattern(s) <==> MonthNumber(s)
  {
    if |s| == 1 && AllDigits(s) {
      assert DecimalValue(s) == DigitValue(s[0]) by { assert s[..0] == []; }
    }
    if |s| == 2 && AllDigits(s) {
      assert DecimalValue(s) == 10 * DigitValue(s[0]) + DigitValue(s[1]) by {
        assert s[..1] == [s[0]] && s[..1][..0] == [];
        assert DecimalValue(s[..1]) == DigitValue(s[0]);
        assert DecimalValue(s) == 10 * DecimalValue(s[..1]) + DigitValue(s[1]);
      }
    }
  }

  /** The failing checks of one field, in the order the schema lists them. */
  function FieldIssues(p: Payment, field: Field): (r: seq<Issue>)
    ensures forall x :: x in r ==> x.field == field
    ensures r == [] <==> FieldAccepted(p, field)
  {
    match field
    case CardNumber => CardIssues(p.cardNumber)
    case ExpiryMonth => MonthIssues(p.expiryMonth)
    case ExpiryYear => YearIssues(p.expiryYear)
    case Cvv => CvvIssues(p.cvv)
    case NameOnCard => Submission.Check(|p.nameOnCard| >= 1, Issue(NameOnCard, "Name on card is required"))
  }

  /** The card number box's three checks. */
  function CardIssues(s: string): (r: seq<Issue>)
    ensures forall x :: x in r ==> x.field == CardNumber
    ensures r == [] <==> |s| == 16 && AllDigits(s)
  {
    Submission.Check(|s| >= 16, Issue(CardNumber, "Card number must be 16 digits"))
    + Submission.Check(|s| <= 16, Issue(CardNumber, "Card number must be 16 digits"))
    + Submission.Check(AllDigits(s), Issue(CardNumber, "Card number must contain only digits"))
  }

  /** The expiry month box's three checks. */
  function MonthIssues(s: string): (r: seq<Issue>)
    ensures forall x :: x in r ==> x.field == ExpiryMonth
    ensures r == [] <==> MonthNumber(s)
  {
    MonthPatternMeaning(s);
    Submission.Check(|s| >= 1, Issue(ExpiryMonth, "Expiry month is required"))
    + Submission.Check(|s| <= 2, Issue(ExpiryMonth, "Invalid expiry month"))
    + Submission.Check(MonthPattern(s), Issue(ExpiryMonth, "Expiry month must be between 1-12"))
  }

  /** The expiry year box's three checks. */
  function YearIssues(s: string): (r: seq<Issue>)
    ensures forall x :: x in r ==> x.field == ExpiryYear
    ensures r == [] <==> |s| == 2 && AllDigits(s)
  {
    Submission.Check(|s| >= 2, Issue(ExpiryYear, "Expiry year is required"))
    + Submission.Check(|s| <= 2, Issue(ExpiryYear, "Use last 2 digits of year"))
    + Submission.Check(AllDigits(s), Issue(ExpiryYear, "Expiry year must contain only digits"))
  }

  /** The CVV box's three checks. */
  function CvvIssues(s: string): (r: seq<Issue>)
    ensures forall x :: x in r ==> x.field == Cvv
    ensures r == [] <==> |s| == 3 && AllDigits(s)
  {
    Submission.Check(|s| >= 3, Issue(Cvv, "CVV must be 3 digits"))
    + Submission.Check(|s| <= 3, Issue(Cvv, "CVV must be 3 digits"))
    + Submission.Check(AllDigits(s), Issue(Cvv, "CVV must contain only digits"))
  }

  /** Every failing check of the schema, field after field. */
  function Issues(p: Payment): (r: seq<Issue>)
    ensures r == [] <==> Accepted(p)
  {
    var c, m, y, v, n := FieldIssues(p, CardNumber), FieldIssues(p, ExpiryMonth), FieldIssues(p, ExpiryYear),
                         FieldIssues(p, Cvv), FieldIssues(p, NameOnCard);
    assert |c + m + y + v + n| == |c| + |m| + |y| + |v| + |n|;
    c + m + y + v + n
  }

  /** What the schema accepts for one field. */
  predicate FieldAccepted(p: Payment, field: Field) {
    match field
    case CardNumber => |p.cardNumber| == 16 && AllDigits(p.cardNumber)
    case ExpiryMonth => MonthNumber(p.expiryMonth)
    case ExpiryYear => |p.expiryYear| == 2 && AllDigits(p.expiryYear)
    case Cvv => |p.cvv| == 3 && AllDigits(p.cvv)
    case NameOnCard => |p.nameOnCard| >= 1
  }

  /** What the schema accepts, field by field. */
  predicate Accepted(p: Payment) {
    && |p.cardNumber| == 16 && AllDigits(p.cardNumber)
    && MonthNumber(p.expiryMonth)
    && |p.expiryYear| == 2 && AllDigits(p.expiryYear)
    && |p.cvv| == 3 && AllDigits(p.cvv)
    && |p.nameOnCard| >= 1
  }

  /** The message shown under a box: the first issue for that field. */
  function Shown(issues: seq<Issue>, field: Field): (m: Option<string>)
    ensures m.None? <==> forall i :: 0 <= i < |issues| ==> issues[i].field != field
    ensures m.Some? ==> exists i :: 0 <= i < |issues| && issues[i] == Issue(field, m.value)
  {
    if |issues| == 0 then None
    else if issues[0].field == field then Some(issues[0].message)
    else
      var m := Shown(issues[1..], field);
      assert forall i :: 0 <= i < |issues[1..]| ==> issues[1..][i] == issues[i + 1];
      m
  }

  lemma {:induction false} ShownAppend(a: seq<Issue>, b: seq<Issue>, field: Field)
    ensures Shown(a + b, field) == if Shown(a, field).Some? then Shown(a, field) else Shown(b, field)
  {
    if |a| > 0 {
      assert (a + b)[0] == a[0] && (a + b)[1..] == a[1..] + b;
      ShownAppend(a[1..], b, field);
    } else {
      assert a + b == b;
    }
  }

  /** The message under a box is the first failing check of that box;
      the other fields' checks never show there. */
  lemma ShownIsFirstOfField(p: Payment, field: Field)
    ensures var own := FieldIssues(p, field);
      Shown(Issues(p), field) == if own == [] then None else Some(own[0].message)
  {
    var c, m, y, v, n := FieldIssues(p, CardNumber), FieldIssues(p, ExpiryMonth), FieldIssues(p, ExpiryYear),
                         FieldIssues(p, Cvv), FieldIssues(p, NameOnCard);
    assert Issues(p) == c + m + y + v + n;
    var own := FieldIssues(p, field);
    assert own == match field
      case CardNumber => c case ExpiryMonth => m case ExpiryYear => y case Cvv => v case NameOnCard => n;
    ShownOfFive(c, m, y, v, n, own, field);
  }

  /** Five runs of issues, one per field in schema order: under a box
      shows the first issue of that box's own run. */
  lemma ShownOfFive(c: seq<Issue>, m: seq<Issue>, y: seq<Issue>, v: seq<Issue>, n: seq<Issue>,
                    own: seq<Issue>, field: Field)
    requires forall x :: x in c ==> x.field == CardNumber
    requires forall x :: x in m ==> x.field == ExpiryMonth
    requires forall x :: x in y ==> x.field == ExpiryYear
    requires forall x :: x in v ==> x.field == Cvv
    requires forall x :: x in n ==> x.field == NameOnCard
    requires own == match field
      case CardNumber => c case ExpiryMonth => m case ExpiryYear => y case Cvv => v case NameOnCard => n
    ensures Shown(c + m + y + v + n, field) == if own == [] then None else Some(own[0].message)
  {
    ShownAppend(c, m, field);
    ShownAppend(c + m, y, field);
    ShownAppend(c + m + y, v, field);
    ShownAppend(c + m + y + v, n, field);
    ShownUniform(c, CardNumber, field);
    ShownUniform(m, ExpiryMonth, field);
    ShownUniform(y, ExpiryYear, field);
    ShownUniform(v, Cvv, field);
    ShownUniform(n, NameOnCard, field);
  }

  /** Issues that all belong to one field show only under that field's
      box, and there the first of them shows. */
  lemma ShownUniform(issues: seq<Issue>, g: Field, field: Field)
    requires forall x :: x in issues ==> x.field == g
    ensures Shown(issues, field) == if issues == [] || g != field then None else Some(issues[0].message)
  {
    if g != field {
      assert forall i :: 0 <= i < |issues| ==> issues[i] in issues;
    }
  }

  /** The untouched form cannot be paid, and each box asks for its value. */
  lemma BlankFormMessages()
    ensures !Accepted(Blank)
    ensures Shown(Issues(Blank), CardNumber) == Some("Card number must be 16 digits")
    ensures Shown(Issues(Blank), ExpiryMonth) == Some("Expiry month is required")
    ensures Shown(Issues(Blank), ExpiryYear) == Some("Expiry year is required")
    ensures Shown(Issues(Blank), Cvv) == Some("CVV must be 3 digits")
    ensures Shown(Issues(Blank), NameOnCard) == Some("Name on card is required")
  {
    ShownIsFirstOfField(Blank, CardNumber);
    ShownIsFirstOfField(Blank, ExpiryMonth);
    ShownIsFirstOfField(Blank, ExpiryYear);
    ShownIsFirstOfField(Blank, Cvv);
    ShownIsFirstOfField(Blank, NameOnCard);
  }

  // ---------------------------------------------------------------- the input boxes

  /** A paste into an empty box: the browser keeps at most `maxLength`
      characters, then `replace(/\D/g, '')` keeps the digits. */
  function Sanitise(raw: string, maxLength: nat): (r: string)
    ensures forall i :: 0 <= i < |r| ==> IsDigit(r[i])
    ensures |r| <= maxLength
    ensures IsSubsequence(r, Typed(raw, maxLength))
    ensures |r| == CountDigits(Typed(raw, maxLength))
  {
    KeepDigitsKeepsDigitsInOrder(Typed(raw, maxLength));
    KeepDigits(Typed(raw, maxLength))
  }

  function Typed(raw: string, maxLength: nat): (t: string)
    ensures t <= raw && |t| <= maxLength
  {
    if |raw| <= maxLength then raw else raw[..maxLength]
  }

  /** Re-entering a sanitised value leaves it as it is. */
  lemma SanitiseIdempotent(raw: string, maxLength: nat)
    ensures Sanitise(Sanitise(raw, maxLength), maxLength) == Sanitise(raw, maxLength)
  {
  }

  /** A card number pasted into the empty box passes its three checks iff
      the first 16 characters pasted hold 16 digits. */
  lemma CardBoxAccepted(raw: string)
    ensures var v := Sanitise(raw, 16);
      (|v| == 16 && AllDigits(v)) <==> CountDigits(Typed(raw, 16)) == 16
  {
  }

  /** A CVV pasted into the empty box: three digits within its first
      three characters. */
  lemma CvvBoxAccepted(raw: string)
    ensures var v := Sanitise(raw, 3);
      (|v| == 3 && AllDigits(v)) <==> CountDigits(Typed(raw, 3)) == 3
  {
  }

  /** One key typed at the end of a box: the browser refuses it once the
      box holds `maxLength` characters; otherwise the box re-renders with
      the digits of its value plus the key. */
  function Key(v: string, c: char, maxLength: nat): (r: string)
    ensures forall i :: 0 <= i < |r| ==> IsDigit(r[i]) || |v| >= maxLength
    ensures (forall i :: 0 <= i < |v| ==> IsDigit(v[i])) ==>
      r == if |v| >= maxLength then v else v + KeepDigits([c])
  {
    if |v| >= maxLength then v
    else
      KeepDigitsAppend(v, [c]);
      KeepDigits(v + [c])
  }

  /** Keys typed one after another, each through Key. */
  function TypeKeys(v: string, keys: string, maxLength: nat): string
    decreases |keys|
  {
    if |keys| == 0 then v else TypeKeys(Key(v, keys[0], maxLength), keys[1..], maxLength)
  }

  /** The first n elements, or all of them when there are fewer. */
  function Take(s: string, n: nat): (t: string)
    ensures t <= s && |t| == if |s| <= n then |s| else n
  {
    if |s| <= n then s else s[..n]
  }

  /** Typing into a box of digits leaves the box holding its old digits
      followed by the typed digits, cut at maxLength: non-digits vanish,
      and keys past the limit are lost. */
  lemma {:induction false} TypeKeysKeepsFirstDigits(v: string, keys: string, maxLength: nat)
    requires forall i :: 0 <= i < |v| ==> IsDigit(v[i])
    requires |v| <= maxLength
    ensures TypeKeys(v, keys, maxLength) == Take(v + KeepDigits(keys), maxLength)
    decreases |keys|
  {
    if |keys| == 0 {
      assert v + [] == v;
    } else {
      var c, rest := keys[0], keys[1..];
      assert keys == [c] + rest;
      KeepDigitsAppend([c], rest);
      var v' := Key(v, c, maxLength);
      TypeKeysKeepsFirstDigits(v', rest, maxLength);
      if |v| >= maxLength {
        assert Take(v + KeepDigits(rest), maxLength) == v by {
          assert (v + KeepDigits(rest))[..|v|] == v;
        }
        assert Take(v + KeepDigits(keys), maxLength) == v by {
          assert (v + KeepDigits(keys))[..|v|] == v;
        }
      } else {
        var d, e := KeepDigits([c]), KeepDigits(rest);
        assert v' == v + d;
        assert KeepDigits(keys) == d + e;
        AppendAssociative(v, d, e);
      }
    }
  }

  lemma AppendAssociative(a: string, b: string, c: string)
    ensures (a + b) + c == a + (b + c)
  {
  }

  /** Typed key by key into the empty card box, the number passes its
      three checks iff at least 16 digits were typed; the box then holds
      the first 16 of them. */
  lemma CardKeysAccepted(keys: string)
    ensures var v := TypeKeys("", keys, 16);
      && ((|v| == 16 && AllDigits(v)) <==> CountDigits(keys) >= 16)
      && (CountDigits(keys) >= 16 ==> v == Take(KeepDigits(keys), 16))
  {
    TypeKeysKeepsFirstDigits("", keys, 16);
    KeepDigitsKeepsDigitsInOrder(keys);
    assert "" + KeepDigits(keys) == KeepDigits(keys);
  }

  /** The CVV box, typed key by key: accepted iff at least three digits
      were typed. */
  lemma CvvKeysAccepted(keys: string)
    ensures var v := TypeKeys("", keys, 3);
      && ((|v| == 3 && AllDigits(v)) <==> CountDigits(keys) >= 3)
      && (CountDigits(keys) >= 3 ==> v == Take(KeepDigits(keys), 3))
  {
    TypeKeysKeepsFirstDigits("", keys, 3);
    KeepDigitsKeepsDigitsInOrder(keys);
    assert "" + KeepDigits(keys) == KeepDigits(keys);
  }

  /** Typing and pasting differ: typed, "1 2 3" fills the CVV box, while
      pasted the box keeps "1 2" and so "12". */
  lemma TypingVersusPasting()
    ensures TypeKeys("", "1 2 3", 3) == "123"
    ensures Sanitise("1 2 3", 3) == "12"
  {
    TypeKeysKeepsFirstDigits("", "1 2 3", 3);
    assert KeepDigits("1 2 3") == "123";
    assert Typed("1 2 3", 3) == "1 2";
    assert KeepDigits("1 2") == "12";
  }

  /** A card number typed in the placeholder's grouped form, four groups
      of four digits separated by spaces, fills the box with its sixteen
      digits and passes the card checks. */
  lemma GroupedNumberTyped(a: string, b: string, c: string, d: string)
    requires |a| == |b| == |c| == |d| == 4
    requires AllDigits(a) && AllDigits(b) && AllDigits(c) && AllDigits(d)
    ensures TypeKeys("", a + " " + b + " " + c + " " + d, 16) == a + b + c + d
    ensures FieldIssues(Blank.(cardNumber := TypeKeys("", a + " " + b + " " + c + " " + d, 16)), CardNumber) == []
  {
    var keys := a + " " + b + " " + c + " " + d;
    TypeKeysKeepsFirstDigits("", keys, 16);
    NextGroup("", "", a);
    assert "" + a == a;
    NextGroup(a + " ", a, b);
    NextGroup(a + " " + b + " ", a + b, c);
    KeepDigitsAppend(a + " " + b + " " + c + " ", d);
    assert "" + KeepDigits(keys) == a + b + c + d;
  }

  /** One more group of digits, then a space, adds just the group. */
  lemma NextGroup(before: string, digits: string, g: string)
    requires KeepDigits(before) == digits && AllDigits(g)
    ensures KeepDigits(before + g + " ") == digits + g
  {
    KeepDigitsAppend(before + g, " ");
    KeepDigitsAppend(before, g);
    assert KeepDigits(" ") == [];
    assert digits + g + [] == digits + g;
  }

  /** The month box alone does not guarantee a month: "0" and "13" get
      through the sanitiser and are refused by the schema. */
  lemma MonthBoxNeedsSchema()
    ensures Sanitise("0", 2) == "0" && !MonthNumber("0")
    ensures Sanitise("13", 2) == "13" && !MonthNumber("13")
    ensures Sanitise("a9", 2) == "9" && MonthNumber("9")
  {
    MonthPatternMeaning("0");
    MonthPatternMeaning("13");
    MonthPatternMeaning("9");
    assert Typed("a9", 2) == "a9";
    assert KeepDigits("a9") == KeepDigits("9");
  }

  /** Pressing Pay: the details are sent only when the schema accepts them
      and the button is enabled; the button then stays disabled until the
      request settles. */
  function Pay(g: Submission.Gate<Payment>, p: Payment): (r: Submission.Gate<Payment>)
    ensures r.sent == if !g.busy && Accepted(p) then g.sent + [p] else g.sent
    ensures r.busy <==> g.busy || Accepted(p)
  {
    Submission.Submit(g, p, Accepted)
  }

  // ---------------------------------------------------------------- the fee

  /** The fee line and the total both show MENTORSHIP_FEE, and it is the
      amount the booking route stores. */
  lemma ShownFeeIsCharged(st: Store, session: Routes.Session, mentorId: Id, slotId: Id, now: Time)
    requires Valid(st)
    ensures var r := Routes.BookSlot(st, session, mentorId, slotId, now);
      r.status == 201 ==> GetBooking(r.store, r.value.value).value.amount == MentorshipFee
  {
  }
}
