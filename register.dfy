/**
 * The course-registration form: the course price table, the total shown for
 * a selection, the first-failure validator and the form record that the
 * change and submit handlers update.
 */
module Register {
  import opened Wrappers
  import opened JsStrings
  import opened Patterns

  /* ---------- course catalog and total price ---------- */

  /** The price table: a course key maps to its price; a `None` price is the
      "Contact Us" placeholder the total computation allows for. */
  const CoursePrices: map<string, Option<int>> := map[
    "teen-license" := Some(495),
    "driving-lessons" := Some(65),
    "driver-improvement" := Some(89),
    "road-test" := Some(120)
  ]

  /** The one course billed per hour of instruction. */
  const PerHourCourse: string := "driving-lessons"

  /** What the total computation yields: no course (`null`), the
      "Contact Us" placeholder, a number, `NaN` (an unparsable session count),
      or a thrown `TypeError` (a course key missing from the catalog). */
  datatype Total = NoTotal | ContactUs | Amount(value: int) | NotANumber | TypeError

  /** `calculateTotalPrice` for the selected course and session count. */
  function TotalPrice(course: string, sessions: string): (r: Total)
    ensures r == NoTotal <==> course == ""
    ensures r == TypeError <==> course != "" && course !in CoursePrices
    ensures r != ContactUs
  {
    if course == "" then NoTotal
    else if course !in CoursePrices then TypeError
    else
      match CoursePrices[course]
      case None => ContactUs
      case Some(unit) =>
        if course == PerHourCourse then
          match ParseInt(sessions)
          case None => NotANumber
          case Some(n) => Amount(unit * n)
        else Amount(unit)
  }

  /** The total is `NaN` exactly for the hourly course with a session count
      `parseInt` cannot read. */
  lemma TotalNotANumber(course: string, sessions: string)
    ensures TotalPrice(course, sessions) == NotANumber
      <==> course == PerHourCourse && ParseInt(sessions).None?
  {
  }

  /** Hourly lessons cost 65 per session, for every session count written in decimal. */
  lemma PerHourTotal(n: nat)
    ensures TotalPrice(PerHourCourse, DecimalString(n)) == Amount(65 * n)
  {
    ParseIntDecimal(n);
  }

  /** The three session counts the form offers, as the strings it stores. */
  lemma SessionOptionTotals()
    ensures TotalPrice(PerHourCourse, "1") == Amount(65)
    ensures TotalPrice(PerHourCourse, "5") == Amount(325)
    ensures TotalPrice(PerHourCourse, "10") == Amount(650)
  {
    PerHourTotal(1);
    PerHourTotal(5);
    PerHourTotal(10);
    SessionStrings();
  }

  lemma SessionStrings()
    ensures DecimalString(1) == "1" && DecimalString(5) == "5" && DecimalString(10) == "10"
  {
    assert DecimalString(10) == DecimalString(1) + "0";
  }

  /** The other courses cost their flat price whatever the session count. */
  lemma FlatPrices(sessions: string)
    ensures TotalPrice("teen-license", sessions) == Amount(495)
    ensures TotalPrice("driver-improvement", sessions) == Amount(89)
    ensures TotalPrice("road-test", sessions) == Amount(120)
  {
  }

  /* ---------- the form record ---------- */

  datatype Field =
    | FirstName | LastName | Email | Phone | DateOfBirth | Course
    | NumberOfSessions | Comments | CardNumber | CardName | Expiry | Cvv

  datatype FormData = FormData(
    firstName: string, lastName: string, email: string, phone: string,
    dateOfBirth: string, course: string, numberOfSessions: string, comments: string,
    cardNumber: string, cardName: string, expiry: string, cvv: string)
  {
    function Get(f: Field): string {
      match f
      case FirstName => firstName
      case LastName => lastName
      case Email => email
      case Phone => phone
      case DateOfBirth => dateOfBirth
      case Course => course
      case NumberOfSessions => numberOfSessions
      case Comments => comments
      case CardNumber => cardNumber
      case CardName => cardName
      case Expiry => expiry
      case Cvv => cvv
    }

    /** `{ ...prev, [f]: v }` */
    function With(f: Field, v: string): (r: FormData)
      ensures r.Get(f) == v
      ensures forall g | g != f :: r.Get(g) == Get(g)
    {
      match f
      case FirstName => this.(firstName := v)
      case LastName => this.(lastName := v)
      case Email => this.(email := v)
      case Phone => this.(phone := v)
      case DateOfBirth => this.(dateOfBirth := v)
      case Course => this.(course := v)
      case NumberOfSessions => this.(numberOfSessions := v)
      case Comments => this.(comments := v)
      case CardNumber => this.(cardNumber := v)
      case CardName => this.(cardName := v)
      case Expiry => this.(expiry := v)
      case Cvv => this.(cvv := v)
    }
  }

  /** Two records that agree on every field are the same record. */
  lemma FormDataExt(a: FormData, b: FormData)
    requires forall f :: a.Get(f) == b.Get(f)
    ensures a == b
  {
    assert a.Get(FirstName) == b.Get(FirstName) && a.Get(LastName) == b.Get(LastName);
    assert a.Get(Email) == b.Get(Email) && a.Get(Phone) == b.Get(Phone);
    assert a.Get(DateOfBirth) == b.Get(DateOfBirth) && a.Get(Course) == b.Get(Course);
    assert a.Get(NumberOfSessions) == b.Get(NumberOfSessions) && a.Get(Comments) == b.Get(Comments);
    assert a.Get(CardNumber) == b.Get(CardNumber) && a.Get(CardName) == b.Get(CardName);
    assert a.Get(Expiry) == b.Get(Expiry) && a.Get(Cvv) == b.Get(Cvv);
  }

  /** Writing a field twice keeps the second value; writing back its own value changes nothing. */
  lemma WithOverwrites(d: FormData, f: Field, v: string, w: string)
    ensures d.With(f, v).With(f, w) == d.With(f, w)
    ensures d.With(f, d.Get(f)) == d
  {
    FormDataExt(d.With(f, v).With(f, w), d.With(f, w));
    FormDataExt(d.With(f, d.Get(f)), d);
  }

  /** The record the form starts from and is reset to. */
  const InitialForm: FormData := FormData("", "", "", "", "", "", "1", "", "", "", "", "")

  lemma InitialFormFields(f: Field)
    ensures InitialForm.Get(f) == if f == NumberOfSessions then "1" else ""
  {
  }

  /* ---------- validation ---------- */

  /** The rules, in the order they are checked. */
  datatype Problem =
    | NoCourse | NoFullName | BadEmail | BadPhone | TooYoung
    | NoCardName | BadCardNumber | BadExpiry | BadCvv
  {
    function Message(): string {
      match this
      case NoCourse => "Please select a course"
      case NoFullName => "Please enter your full name"
      case BadEmail => "Please enter a valid email address"
      case BadPhone => "Please enter a valid phone number format: (XXX) XXX-XXXX"
      case TooYoung => "You must be at least 15 years old to register"
      case NoCardName => "Please enter the name on your card"
      case BadCardNumber => "Please enter a valid 16-digit card number"
      case BadExpiry => "Please enter a valid expiry date (MM/YY)"
      case BadCvv => "Please enter a valid CVV"
    }

    function Rank(): nat {
      match this
      case NoCourse => 0
      case NoFullName => 1
      case BadEmail => 2
      case BadPhone => 3
      case TooYoung => 4
      case NoCardName => 5
      case BadCardNumber => 6
      case BadExpiry => 7
      case BadCvv => 8
    }
  }

  /** `!s.trim()` is false */
  predicate NonBlank(s: string) {
    Trim(s) != []
  }

  /** `today.getFullYear() - birthDate.getFullYear() < 15` is false; an
      unparsable birth date has year `NaN` and the comparison is false. */
  predicate AgeOk(currentYear: int, birthYear: Option<int>) {
    match birthYear
    case None => true
    case Some(y) => !(currentYear - y < 15)
  }

  /** Rejected below 15 years of plain year difference, accepted from 15 on,
      never rejected for a date that does not parse. */
  lemma AgeBoundary(currentYear: int, birthYear: int)
    ensures AgeOk(currentYear, Some(birthYear)) <==> currentYear - birthYear >= 15
    ensures !AgeOk(currentYear, Some(currentYear - 14)) && AgeOk(currentYear, Some(currentYear - 15))
    ensures AgeOk(currentYear, None)
  {
  }

  /** Whether `d` satisfies one rule, taken on its own. */
  predicate Passes(p: Problem, d: FormData, currentYear: int, birthYear: Option<int>) {
    match p
    case NoCourse => d.course != ""
    case NoFullName => NonBlank(d.firstName) && NonBlank(d.lastName)
    case BadEmail => EmailOk(d.email)
    case BadPhone => PhoneOk(d.phone)
    case TooYoung => AgeOk(currentYear, birthYear)
    case NoCardName => NonBlank(d.cardName)
    case BadCardNumber => CardNumberOk(d.cardNumber)
    case BadExpiry => ExpiryOk(d.expiry)
    case BadCvv => CvvOk(d.cvv)
  }

  /** Every rule ranked before `rank` passes (see `PassesBeforeAll`). */
  predicate PassesBefore(rank: nat, d: FormData, currentYear: int, birthYear: Option<int>) {
    && (rank > 0 ==> Passes(NoCourse, d, currentYear, birthYear))
    && (rank > 1 ==> Passes(NoFullName, d, currentYear, birthYear))
    && (rank > 2 ==> Passes(BadEmail, d, currentYear, birthYear))
    && (rank > 3 ==> Passes(BadPhone, d, currentYear, birthYear))
    && (rank > 4 ==> Passes(TooYoung, d, currentYear, birthYear))
    && (rank > 5 ==> Passes(NoCardName, d, currentYear, birthYear))
    && (rank > 6 ==> Passes(BadCardNumber, d, currentYear, birthYear))
    && (rank > 7 ==> Passes(BadExpiry, d, currentYear, birthYear))
    && (rank > 8 ==> Passes(BadCvv, d, currentYear, birthYear))
  }

  /** Outcome of `validateForm`: `null`, a message, or a `TypeError` thrown by
      the catalog lookup. */
  datatype Validation = Valid | Invalid(problem: Problem) | Threw

  /** `validateForm`, given the current year and the year of the entered birth date. */
  function ValidateForm(d: FormData, currentYear: int, birthYear: Option<int>): Validation {
    match ValidatePersonal(d, currentYear, birthYear)
    case Some(p) => Invalid(p)
    case None =>
      match TotalPrice(d.course, d.numberOfSessions)
      case TypeError => Threw
      case ContactUs => Valid
      case _ => ValidatePayment(d)
  }

  /** The first five checks of `validateForm`, run before the total is computed. */
  function ValidatePersonal(d: FormData, currentYear: int, birthYear: Option<int>): Option<Problem> {
    if d.course == "" then Some(NoCourse)
    else if !NonBlank(d.firstName) || !NonBlank(d.lastName) then Some(NoFullName)
    else if !EmailOk(d.email) then Some(BadEmail)
    else if !PhoneOk(d.phone) then Some(BadPhone)
    else if !AgeOk(currentYear, birthYear) then Some(TooYoung)
    else None
  }

  /** The payment block of `validateForm`, run unless the total is "Contact Us". */
  function ValidatePayment(d: FormData): Validation {
    if !NonBlank(d.cardName) then Invalid(NoCardName)
    else if !CardNumberOk(d.cardNumber) then Invalid(BadCardNumber)
    else if !ExpiryOk(d.expiry) then Invalid(BadExpiry)
    else if !CvvOk(d.cvv) then Invalid(BadCvv)
    else Valid
  }

  /** `PassesBefore(rank, ..)` holds exactly when every rule ranked below `rank` passes. */
  lemma PassesBeforeAll(rank: nat, d: FormData, currentYear: int, birthYear: Option<int>)
    ensures PassesBefore(rank, d, currentYear, birthYear)
      <==> forall q: Problem | q.Rank() < rank :: Passes(q, d, currentYear, birthYear)
  {
    if PassesBefore(rank, d, currentYear, birthYear) {
      forall q: Problem | q.Rank() < rank ensures Passes(q, d, currentYear, birthYear) {
        match q
        case NoCourse =>
        case NoFullName =>
        case BadEmail =>
        case BadPhone =>
        case TooYoung =>
        case NoCardName =>
        case BadCardNumber =>
        case BadExpiry =>
        case BadCvv =>
      }
    }
  }

  /** `p` is the first rule, in checking order, that `d` breaks. */
  predicate FirstFailure(p: Problem, d: FormData, currentYear: int, birthYear: Option<int>) {
    !Passes(p, d, currentYear, birthYear) && PassesBefore(p.Rank(), d, currentYear, birthYear)
  }

  lemma {:induction false} FirstFailureUnique(p: Problem, q: Problem, d: FormData, currentYear: int, birthYear: Option<int>)
    requires FirstFailure(p, d, currentYear, birthYear) && FirstFailure(q, d, currentYear, birthYear)
    ensures p == q
  {
    assert p.Rank() == q.Rank();
  }

  /** The payment block reports the first card rule that fails, given that
      the five rules before it pass. */
  lemma ValidatePaymentSound(d: FormData, currentYear: int, birthYear: Option<int>)
    requires PassesBefore(5, d, currentYear, birthYear)
    ensures ValidatePayment(d).Valid? ==> PassesBefore(9, d, currentYear, birthYear)
    ensures ValidatePayment(d).Invalid? ==> FirstFailure(ValidatePayment(d).problem, d, currentYear, birthYear)
    ensures !ValidatePayment(d).Threw?
  {
    if !NonBlank(d.cardName) {
      assert FirstFailure(NoCardName, d, currentYear, birthYear);
    } else if !CardNumberOk(d.cardNumber) {
      assert FirstFailure(BadCardNumber, d, currentYear, birthYear);
    } else if !ExpiryOk(d.expiry) {
      assert FirstFailure(BadExpiry, d, currentYear, birthYear);
    } else if !CvvOk(d.cvv) {
      assert FirstFailure(BadCvv, d, currentYear, birthYear);
    } else {
    }
  }

  /** Each verdict of the validator, read off branch by branch. */
  lemma ValidateFormSound(d: FormData, currentYear: int, birthYear: Option<int>)
    requires d.course == "" || d.course in CoursePrices
    ensures ValidateForm(d, currentYear, birthYear).Valid? ==> PassesBefore(9, d, currentYear, birthYear)
    ensures ValidateForm(d, currentYear, birthYear).Invalid? ==>
      FirstFailure(ValidateForm(d, currentYear, birthYear).problem, d, currentYear, birthYear)
    ensures !ValidateForm(d, currentYear, birthYear).Threw?
  {
    ValidatePersonalSound(d, currentYear, birthYear);
    if PassesBefore(5, d, currentYear, birthYear) {
      CardChecksAlwaysRun(d, currentYear, birthYear);
      ValidatePaymentSound(d, currentYear, birthYear);
    }
  }

  /** The first five checks report the first of those rules that fails, and
      nothing exactly when all five pass. */
  lemma ValidatePersonalSound(d: FormData, currentYear: int, birthYear: Option<int>)
    ensures ValidatePersonal(d, currentYear, birthYear).None? <==> PassesBefore(5, d, currentYear, birthYear)
    ensures ValidatePersonal(d, currentYear, birthYear).Some? ==>
      ValidatePersonal(d, currentYear, birthYear).value.Rank() < 5
    ensures ValidatePersonal(d, currentYear, birthYear).Some? ==>
      FirstFailure(ValidatePersonal(d, currentYear, birthYear).value, d, currentYear, birthYear)
  {
    var r := ValidatePersonal(d, currentYear, birthYear);
    if r.Some? {
      PersonalFirstFailure(r.value, d, currentYear, birthYear);
    }
  }

  lemma PersonalFirstFailure(p: Problem, d: FormData, currentYear: int, birthYear: Option<int>)
    requires ValidatePersonal(d, currentYear, birthYear) == Some(p)
    ensures FirstFailure(p, d, currentYear, birthYear)
  {
    match p
    case NoCourse =>
    case NoFullName =>
    case BadEmail =>
    case BadPhone =>
    case TooYoung =>
  }

  /** For a course offered by the form (or none), validation reports the
      first rule that fails, in the fixed order, and accepts exactly when all
      nine rules pass: the card rules are never skipped. */
  lemma ValidateFormFirstFailure(d: FormData, currentYear: int, birthYear: Option<int>)
    requires d.course == "" || d.course in CoursePrices
    ensures ValidateForm(d, currentYear, birthYear) != Threw
    ensures ValidateForm(d, currentYear, birthYear) == Valid
      <==> PassesBefore(9, d, currentYear, birthYear)
    ensures forall p ::
      ValidateForm(d, currentYear, birthYear) == Invalid(p) <==> FirstFailure(p, d, currentYear, birthYear)
  {
    ValidateFormSound(d, currentYear, birthYear);
    SoundVerdictIsFirstFailure(ValidateForm(d, currentYear, birthYear), d, currentYear, birthYear);
  }

  /** A verdict that reports only first failures, and accepts only when all
      nine rules pass, is determined by the form. */
  lemma SoundVerdictIsFirstFailure(v: Validation, d: FormData, currentYear: int, birthYear: Option<int>)
    requires v.Valid? ==> PassesBefore(9, d, currentYear, birthYear)
    requires v.Invalid? ==> FirstFailure(v.problem, d, currentYear, birthYear)
    requires !v.Threw?
    ensures v == Valid <==> PassesBefore(9, d, currentYear, birthYear)
    ensures forall p :: v == Invalid(p) <==> FirstFailure(p, d, currentYear, birthYear)
  {
    forall p | FirstFailure(p, d, currentYear, birthYear) ensures v == Invalid(p) {
      if v.Invalid? {
        FirstFailureUnique(p, v.problem, d, currentYear, birthYear);
      }
    }
    if v.Invalid? {
      assert v.problem.Rank() < 9;
    }
  }

  /** A course key outside the catalog makes validation throw once the first
      five rules pass, and is reported by those rules otherwise. */
  lemma ValidateFormUnknownCourse(d: FormData, currentYear: int, birthYear: Option<int>)
    requires d.course != "" && d.course !in CoursePrices
    ensures ValidateForm(d, currentYear, birthYear) == Threw
      <==> PassesBefore(5, d, currentYear, birthYear)
    ensures forall p ::
      (ValidateForm(d, currentYear, birthYear) == Invalid(p)
       <==> FirstFailure(p, d, currentYear, birthYear) && p.Rank() < 5)
  {
    ValidatePersonalSound(d, currentYear, birthYear);
    var r := ValidatePersonal(d, currentYear, birthYear);
    forall p | FirstFailure(p, d, currentYear, birthYear) && p.Rank() < 5
      ensures r == Some(p)
    {
      if r.Some? {
        FirstFailureUnique(p, r.value, d, currentYear, birthYear);
      }
    }
  }

  /** An empty course is reported first, whatever the other fields hold. */
  lemma NoCourseFirst(d: FormData, currentYear: int, birthYear: Option<int>)
    requires d.course == ""
    ensures ValidateForm(d, currentYear, birthYear) == Invalid(NoCourse)
    ensures ValidateForm(d, currentYear, birthYear).problem.Message() == "Please select a course"
  {
  }

  /** With a catalog course and the first five rules met, the card fields
      decide: the "Contact Us" path that would skip them is never taken. */
  lemma CardChecksAlwaysRun(d: FormData, currentYear: int, birthYear: Option<int>)
    requires d.course in CoursePrices
    requires PassesBefore(5, d, currentYear, birthYear)
    ensures ValidateForm(d, currentYear, birthYear) == ValidatePayment(d)
    ensures ValidateForm(d, currentYear, birthYear) == Valid
      <==> NonBlank(d.cardName) && CardNumberOk(d.cardNumber) && ExpiryOk(d.expiry) && CvvOk(d.cvv)
  {
    ValidatePersonalSound(d, currentYear, birthYear);
  }

  /** An otherwise valid form whose card number has 15 digits once its
      whitespace is removed is refused for the card number. */
  lemma FifteenDigitCardRefused(d: FormData, currentYear: int, birthYear: Option<int>)
    requires d.course in CoursePrices
    requires PassesBefore(5, d, currentYear, birthYear)
    requires NonBlank(d.cardName)
    requires Digits(StripSpaces(d.cardNumber)) && |StripSpaces(d.cardNumber)| == 15
    ensures ValidateForm(d, currentYear, birthYear) == Invalid(BadCardNumber)
  {
    CardChecksAlwaysRun(d, currentYear, birthYear);
  }

  /* ---------- the form component ---------- */

  /** What a submission shows: the validation message, the confirmation
      naming the submitted email, or nothing because validation threw. */
  datatype SubmitOutcome = Rejected(message: string) | Confirmed(email: string) | Aborted

  class RegistrationForm {
    var data: FormData

    constructor ()
      ensures data == InitialForm
    {
      data := InitialForm;
    }

    /** `handleChange(f, v)` */
    method HandleChange(f: Field, v: string)
      modifies this
      ensures data == old(data).With(f, v)
      ensures data.Get(f) == v
      ensures forall g | g != f :: data.Get(g) == old(data).Get(g)
    {
      data := data.With(f, v);
    }

    /** `handleSubmit`: validate; on success (after the simulated payment
        delay) confirm and reset the record, otherwise leave it untouched. */
    method HandleSubmit(currentYear: int, birthYear: Option<int>) returns (outcome: SubmitOutcome)
      modifies this
      ensures match ValidateForm(old(data), currentYear, birthYear)
        case Valid => outcome == Confirmed(old(data).email) && data == InitialForm
        case Invalid(p) => outcome == Rejected(p.Message()) && data == old(data)
        case Threw => outcome == Aborted && data == old(data)
    {
      var verdict := ValidateForm(data, currentYear, birthYear);
      match verdict {
        case Invalid(p) =>
          outcome := Rejected(p.Message());
        case Threw =>
          outcome := Aborted;
        case Valid =>
          outcome := Confirmed(data.email);
          data := InitialForm;
      }
    }
  }

  /** After a confirmed submission the form is back to its start: submitting
      again at once is refused for the missing course. */
  lemma ResubmitAfterReset(currentYear: int, birthYear: Option<int>)
    ensures ValidateForm(InitialForm, currentYear, birthYear) == Invalid(NoCourse)
    ensures InitialForm.course == "" && InitialForm.numberOfSessions == "1"
  {
  }
}
