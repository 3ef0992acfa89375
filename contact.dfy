/**
 * The three places that compose the validators: the `Contact` constructor,
 * the submit handler's validation pipeline (with its loop over the e-mail
 * inputs) and the edit handler's BMI recalculation.
 */
module Contacts {
  import opened Wrappers
  import opened Text
  import opened JsValues
  import opened Errors
  import opened Dates
  import opened Validators
  import opened Bmi

  // ---------------------------------------------------------------- constructor

  /** The fields of a `Contact` once its constructor has returned. */
  datatype Contact = Contact(
    firstName: string,
    lastName: string,
    phoneNumber: string,
    email: string,
    birthDate: Date,
    gender: Value,
    height: real,
    weight: real,
    healthNotes: Value,
    bmiTenths: int)

  /** `Contact.prototype.calculateBMI`: the BMI of the stored height and weight, without argument checks. */
  function ContactBmi(weight: real, height: real): (t: int)
    requires weight > 0.0 && height > 0.0
    ensures CalculateBmi(Finite(weight), Finite(height)) == Success(t)
  {
    RoundToTenths(RawBmi(weight, height))
  }

  /** The constructor's checks, in the order it assigns the fields. */
  function ConstructorChecks(
    firstName: Value, lastName: Value, phoneNumber: string, email: string,
    birthDate: Value, parsed: Option<Date>, today: Date, height: Value, weight: Value)
    : seq<Option<ValidationError>>
  {
    [ ErrorOf(ValidateFirstName(firstName, "First Name")),
      ErrorOf(ValidateLastName(lastName, "Last Name")),
      ErrorOf(ValidatePhone(phoneNumber)),
      ErrorOf(ValidateEmail(email)),
      ErrorOf(ValidateBirthDate(birthDate, parsed, today)),
      ErrorOf(ValidateHeight(height)),
      ErrorOf(ValidateWeight(weight)) ]
  }

  /**
   * `new Contact(...)`: fails with the first failing check in field order,
   * otherwise holds the validated values and the BMI computed from them.
   */
  function NewContact(
    firstName: Value, lastName: Value, phoneNumber: string, email: string,
    birthDate: Value, parsed: Option<Date>, today: Date,
    height: Value, weight: Value, healthNotes: Value, gender: Value)
    : (r: Result<Contact, ValidationError>)
    ensures r.Success? <==>
              && ValidateFirstName(firstName, "First Name").Success?
              && ValidateLastName(lastName, "Last Name").Success?
              && ValidatePhone(phoneNumber).Success?
              && ValidateEmail(email).Success?
              && ValidateBirthDate(birthDate, parsed, today).Success?
              && ValidateHeight(height).Success?
              && ValidateWeight(weight).Success?
    ensures r.Success? ==>
              && r.value.firstName == Trim(firstName.s)
              && r.value.lastName == Trim(lastName.s)
              && r.value.phoneNumber == phoneNumber
              && r.value.email == email
              && parsed == Some(r.value.birthDate)
              && r.value.height == height.n.x
              && r.value.weight == weight.n.x
              && r.value.gender == gender
              && r.value.healthNotes == healthNotes
              && CalculateBmi(weight.n, height.n) == Success(r.value.bmiTenths)
  {
    var f :- ValidateFirstName(firstName, "First Name");
    var l :- ValidateLastName(lastName, "Last Name");
    var p :- ValidatePhone(phoneNumber);
    var e :- ValidateEmail(email);
    var d :- ValidateBirthDate(birthDate, parsed, today);
    var h :- ValidateHeight(height);
    var w :- ValidateWeight(weight);
    Success(Contact(f, l, p, e, d, gender, h, w, healthNotes, ContactBmi(w, h)))
  }

  /** The constructor throws the failure of the first check, in field order, that fails. */
  lemma ConstructorReportsFirstFailure(
    firstName: Value, lastName: Value, phoneNumber: string, email: string,
    birthDate: Value, parsed: Option<Date>, today: Date,
    height: Value, weight: Value, healthNotes: Value, gender: Value)
    ensures var r := NewContact(firstName, lastName, phoneNumber, email, birthDate, parsed, today,
                                height, weight, healthNotes, gender);
            var first := FirstError(ConstructorChecks(firstName, lastName, phoneNumber, email,
                                                      birthDate, parsed, today, height, weight));
            (r.Failure? <==> first.Some?) && (r.Failure? ==> r.error == first.value)
  {
    FirstErrorOfSeven(
      ErrorOf(ValidateFirstName(firstName, "First Name")),
      ErrorOf(ValidateLastName(lastName, "Last Name")),
      ErrorOf(ValidatePhone(phoneNumber)),
      ErrorOf(ValidateEmail(email)),
      ErrorOf(ValidateBirthDate(birthDate, parsed, today)),
      ErrorOf(ValidateHeight(height)),
      ErrorOf(ValidateWeight(weight)));
  }

  // ---------------------------------------------------------------- submit handler

  /** The form's values after `Number()` has been applied to weight and height. */
  datatype SubmitForm = SubmitForm(
    first: string,
    last: string,
    phone: string,
    dob: string,
    healthNotes: string,
    weight: Num,
    height: Num,
    gender: string,
    emailInputs: seq<string>)

  /** The patient object the submit handler builds. */
  datatype Patient = Patient(
    id: string,
    firstName: string,
    lastName: string,
    phone: string,
    emails: seq<string>,
    birthDate: Date,
    heightCm: real,
    weightKg: real,
    gender: string,
    bmiTenths: int,
    bmiCategory: Category,
    healthNotes: string)

  /** `map(el => el.value.trim())`: every input, trimmed, in order. */
  function TrimAll(inputs: seq<string>): (r: seq<string>)
    ensures |r| == |inputs|
    ensures forall k :: 0 <= k < |r| ==> r[k] == Trim(inputs[k])
  {
    if inputs == [] then []
    else
      assert forall k :: 1 <= k < |inputs| ==> inputs[1..][k - 1] == inputs[k];
      [Trim(inputs[0])] + TrimAll(inputs[1..])
  }

  /** `filter(v => v !== '')`. */
  function DropEmpty(xs: seq<string>): (r: seq<string>)
    ensures |r| <= |xs|
    ensures forall k :: 0 <= k < |r| ==> r[k] != ""
  {
    if xs == [] then []
    else if xs[0] == "" then DropEmpty(xs[1..])
    else [xs[0]] + DropEmpty(xs[1..])
  }

  /** The filter keeps exactly the non-empty strings. */
  lemma {:induction false} DropEmptyMembers(xs: seq<string>)
    ensures forall x :: x in DropEmpty(xs) <==> x in xs && x != ""
  {
    if xs != [] {
      DropEmptyMembers(xs[1..]);
      assert xs == [xs[0]] + xs[1..];
      forall x
        ensures x in xs <==> x == xs[0] || x in xs[1..]
      {
      }
    }
  }

  /** Filtering a concatenation filters each part, so the kept strings stay in order. */
  lemma {:induction false} DropEmptyAppend(a: seq<string>, b: seq<string>)
    ensures DropEmpty(a + b) == DropEmpty(a) + DropEmpty(b)
  {
    if a == [] {
      assert a + b == b;
    } else {
      assert (a + b)[0] == a[0];
      assert (a + b)[1..] == a[1..] + b;
      DropEmptyAppend(a[1..], b);
    }
  }

  /** One string is dropped exactly when it is empty. */
  lemma DropEmptySingle(x: string)
    ensures DropEmpty([x]) == if x == "" then [] else [x]
  {
    assert [x][1..] == [];
  }

  /** The e-mail inputs, trimmed, with the empty ones dropped. */
  function CollectEmails(inputs: seq<string>): (emails: seq<string>)
    ensures |emails| <= |inputs|
    ensures forall k :: 0 <= k < |emails| ==> emails[k] != "" && Trim(emails[k]) == emails[k]
  {
    var trimmed := TrimAll(inputs);
    DropEmptyMembers(trimmed);
    assert forall x :: x in trimmed ==> Trim(x) == x by {
      forall k | 0 <= k < |trimmed| ensures Trim(trimmed[k]) == trimmed[k] {
        TrimIdempotent(inputs[k]);
      }
    }
    DropEmpty(trimmed)
  }

  /** The collected e-mails are exactly the trimmed inputs that are not empty. */
  lemma CollectEmailsMembers(inputs: seq<string>)
    ensures forall e :: e in CollectEmails(inputs) <==> e in TrimAll(inputs) && e != ""
  {
    DropEmptyMembers(TrimAll(inputs));
  }

  /**
   * Collecting a concatenation of inputs collects each part, so the e-mails
   * keep the order of their inputs, repeats included.
   */
  lemma CollectEmailsAppend(a: seq<string>, b: seq<string>)
    ensures CollectEmails(a + b) == CollectEmails(a) + CollectEmails(b)
  {
    TrimAllAppend(a, b);
    DropEmptyAppend(TrimAll(a), TrimAll(b));
  }

  /** Trimming a concatenation trims each part. */
  lemma {:induction false} TrimAllAppend(a: seq<string>, b: seq<string>)
    ensures TrimAll(a + b) == TrimAll(a) + TrimAll(b)
  {
    if a == [] {
      assert a + b == b;
    } else {
      assert (a + b)[0] == a[0];
      assert (a + b)[1..] == a[1..] + b;
      TrimAllAppend(a[1..], b);
    }
  }

  /** One input gives its trimmed value, or nothing when that is empty. */
  lemma CollectEmailsSingle(x: string)
    ensures CollectEmails([x]) == if Trim(x) == "" then [] else [Trim(x)]
  {
    assert TrimAll([x]) == [Trim(x)];
    DropEmptySingle(Trim(x));
  }

  /** Every e-mail must pass; the loop stops at the first that does not. */
  function EmailsError(emails: seq<string>): (e: Option<ValidationError>)
    ensures e.None? <==> forall k :: 0 <= k < |emails| ==> MatchesEmailPattern(emails[k])
    ensures e.Some? ==> e.value == BadEmail
  {
    if forall k :: 0 <= k < |emails| ==> ValidateEmail(emails[k]).Success? then None
    else Some(BadEmail)
  }

  /** `for (const em of emails) Contact.validateEmail(em);` */
  method ValidateEmails(emails: seq<string>) returns (e: Option<ValidationError>)
    ensures e == EmailsError(emails)
  {
    var i := 0;
    while i < |emails|
      invariant 0 <= i <= |emails|
      invariant forall k :: 0 <= k < i ==> ValidateEmail(emails[k]).Success?
    {
      var r := ValidateEmail(emails[i]);
      if r.Failure? {
        return Some(r.error);
      }
      i := i + 1;
    }
    return None;
  }

  /** `!isFinite(n) || n <= 0` throws `err`: passes exactly a finite positive number. */
  function PositiveCheck(n: Num, err: ValidationError): (e: Option<ValidationError>)
    ensures e.None? <==> IsPositiveFinite(n)
    ensures e.Some? ==> e.value == err
  {
    if !IsFinite(n) || AtMost(n, 0.0) then Some(err) else None
  }

  /** The names, phone and e-mails that the submit handler has validated. */
  datatype Identity = Identity(firstName: string, lastName: string, emails: seq<string>)

  /** The first stage of the submit handler: names, phone, then every collected e-mail. */
  function SubmitIdentity(form: SubmitForm): (r: Result<Identity, ValidationError>)
    ensures r.Success? <==>
              && ValidateFirstName(Str(form.first), "First Name").Success?
              && ValidateLastName(Str(form.last), "Last Name").Success?
              && ValidatePhone(form.phone).Success?
              && EmailsError(CollectEmails(form.emailInputs)).None?
    ensures r.Success? ==>
              && r.value.firstName == Trim(form.first)
              && r.value.lastName == Trim(form.last)
              && r.value.emails == CollectEmails(form.emailInputs)
  {
    var f :- ValidateFirstName(Str(form.first), "First Name");
    var l :- ValidateLastName(Str(form.last), "Last Name");
    var _ :- ValidatePhone(form.phone);
    var emails := CollectEmails(form.emailInputs);
    if EmailsError(emails).Some? then Failure(BadEmail)
    else Success(Identity(f, l, emails))
  }

  /** The checks of the first stage, in order. */
  function IdentityChecks(form: SubmitForm): seq<Option<ValidationError>> {
    [ ErrorOf(ValidateFirstName(Str(form.first), "First Name")),
      ErrorOf(ValidateLastName(Str(form.last), "Last Name")),
      ErrorOf(ValidatePhone(form.phone)),
      EmailsError(CollectEmails(form.emailInputs)) ]
  }

  /** The first stage reports the first of its checks that fails. */
  lemma IdentityReportsFirstFailure(form: SubmitForm)
    ensures ErrorOf(SubmitIdentity(form)) == FirstError(IdentityChecks(form))
  {
    var c := IdentityChecks(form);
    FirstErrorCons(c[3], []);
    FirstErrorCons(c[2], [c[3]]);
    FirstErrorCons(c[1], [c[2], c[3]]);
    FirstErrorCons(c[0], [c[1], c[2], c[3]]);
  }

  /** Height, weight and the BMI computed from them. */
  datatype Measurements = Measurements(heightCm: real, weightKg: real, bmiTenths: int, bmiCategory: Category)

  /**
   * The last stage of the submit handler: weight and height positivity,
   * the height range, the weight range, then BMI and its category.
   */
  function SubmitMeasurements(weight: Num, height: Num): (r: Result<Measurements, ValidationError>)
    ensures r.Success? <==>
              && weight.Finite? && 1.0 <= weight.x <= 200.0
              && height.Finite? && 30.0 <= height.x <= 200.0
    ensures !IsPositiveFinite(weight) ==> r == Failure(WeightNotPositive)
    ensures IsPositiveFinite(weight) && !IsPositiveFinite(height) ==> r == Failure(HeightNotPositive)
    ensures r.Success? ==>
              && weight == Finite(r.value.weightKg) && height == Finite(r.value.heightCm)
              && CalculateBmi(weight, height) == Success(r.value.bmiTenths)
              && r.value.bmiCategory == GetBmiCategory(FromTenths(r.value.bmiTenths))
              && r.value.bmiCategory != Unknown
  {
    if PositiveCheck(weight, WeightNotPositive).Some? then Failure(WeightNotPositive)
    else if PositiveCheck(height, HeightNotPositive).Some? then Failure(HeightNotPositive)
    else
      var h :- ValidateHeight(Number(height));
      if Below(weight, 1.0) || Above(weight, 200.0) then Failure(SubmitWeightOutOfRange)
      else
        match CalculateBmi(weight, height)
        case Failure(e) => Failure(e)
        case Success(bmi) => Success(Measurements(h, weight.x, bmi, GetBmiCategory(FromTenths(bmi))))
  }

  /** The checks of the last stage, in order. */
  function MeasurementChecks(weight: Num, height: Num): seq<Option<ValidationError>> {
    [ PositiveCheck(weight, WeightNotPositive),
      PositiveCheck(height, HeightNotPositive),
      ErrorOf(ValidateHeight(Number(height))),
      if Below(weight, 1.0) || Above(weight, 200.0) then Some(SubmitWeightOutOfRange) else None ]
  }

  /** The last stage reports the first of its checks that fails. */
  lemma MeasurementsReportFirstFailure(weight: Num, height: Num)
    ensures ErrorOf(SubmitMeasurements(weight, height)) == FirstError(MeasurementChecks(weight, height))
  {
    var c := MeasurementChecks(weight, height);
    FirstErrorCons(c[3], []);
    FirstErrorCons(c[2], [c[3]]);
    FirstErrorCons(c[1], [c[2], c[3]]);
    FirstErrorCons(c[0], [c[1], c[2], c[3]]);
  }

  /**
   * The submit handler up to the record it would store: the first stage,
   * the birth date, then the last stage. `id` is the generated UUID.
   */
  function Submit(form: SubmitForm, id: string, parsed: Option<Date>, today: Date)
    : (r: Result<Patient, ValidationError>)
    ensures r.Success? <==>
              && SubmitIdentity(form).Success?
              && ValidateBirthDate(Str(form.dob), parsed, today).Success?
              && SubmitMeasurements(form.weight, form.height).Success?
    ensures r.Success? ==>
              && r.value.id == id
              && r.value.firstName == Trim(form.first)
              && r.value.lastName == Trim(form.last)
              && r.value.phone == form.phone
              && r.value.emails == CollectEmails(form.emailInputs)
              && parsed == Some(r.value.birthDate)
              && form.weight == Finite(r.value.weightKg) && form.height == Finite(r.value.heightCm)
              && CalculateBmi(form.weight, form.height) == Success(r.value.bmiTenths)
              && r.value.bmiCategory == GetBmiCategory(FromTenths(r.value.bmiTenths))
              && r.value.gender == form.gender && r.value.healthNotes == form.healthNotes
  {
    var who :- SubmitIdentity(form);
    var d :- ValidateBirthDate(Str(form.dob), parsed, today);
    var m :- SubmitMeasurements(form.weight, form.height);
    Success(Patient(id, who.firstName, who.lastName, form.phone, who.emails, d, m.heightCm, m.weightKg,
                    form.gender, m.bmiTenths, m.bmiCategory, form.healthNotes))
  }

  /** The submit handler's checks, in the order it makes them. */
  function SubmitChecks(form: SubmitForm, parsed: Option<Date>, today: Date)
    : seq<Option<ValidationError>>
  {
    IdentityChecks(form)
    + [ErrorOf(ValidateBirthDate(Str(form.dob), parsed, today))]
    + MeasurementChecks(form.weight, form.height)
  }

  /** The submit handler throws the failure of the first check, in the order it makes them, that fails. */
  lemma SubmitReportsFirstFailure(form: SubmitForm, id: string, parsed: Option<Date>, today: Date)
    ensures ErrorOf(Submit(form, id, parsed, today)) == FirstError(SubmitChecks(form, parsed, today))
  {
    var a := IdentityChecks(form);
    var b := ErrorOf(ValidateBirthDate(Str(form.dob), parsed, today));
    var c := MeasurementChecks(form.weight, form.height);
    IdentityReportsFirstFailure(form);
    MeasurementsReportFirstFailure(form.weight, form.height);
    FirstErrorAppend(a + [b], c);
    FirstErrorAppend(a, [b]);
    FirstErrorCons(b, []);
  }

  /**
   * The submit handler's own weight checks accept exactly what
   * `validateWeight` accepts, though with other messages.
   */
  lemma SubmitWeightMatchesValidator(weight: Num, height: Num)
    ensures SubmitMeasurements(weight, height).Success? ==>
              ValidateWeight(Number(weight)) == Success(SubmitMeasurements(weight, height).value.weightKg)
    ensures ValidateHeight(Number(height)).Success? && ValidateWeight(Number(weight)).Success? ==>
              SubmitMeasurements(weight, height).Success?
  {
  }

  // ---------------------------------------------------------------- edit handler

  /**
   * The edit handler's `bmi` and `bmiCategory`: the rounded BMI and its
   * band, or "N/A" (here `None`) and "Unknown" when `calculateBMI` throws.
   */
  function EditBmi(weightKg: Num, heightCm: Num): (r: (Option<int>, Category))
    ensures r.1 == Unknown <==> !(IsPositiveFinite(weightKg) && IsPositiveFinite(heightCm))
    ensures r.0.Some? <==> r.1 != Unknown
    ensures r.0.Some? ==> CalculateBmi(weightKg, heightCm) == Success(r.0.value)
                          && r.1 == GetBmiCategory(FromTenths(r.0.value))
  {
    match CalculateBmi(weightKg, heightCm)
    case Success(bmi) => (Some(bmi), GetBmiCategory(FromTenths(bmi)))
    case Failure(_) => (None, Unknown)
  }
}
