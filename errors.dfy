/**
 * The failures the validators and the BMI helper throw, one constructor per
 * distinct error (throw sites with the same class and message share one),
 * with the exception class and the message text of the source.
 */
module Errors {
  import opened Wrappers

  /** A message that names its field: the label, a space, then the text. */
  function Labelled(field: string, text: string): (m: string)
    ensures |m| > |field| && m[..|field|] == field && m[|field|] == ' '
  {
    var m := field + " " + text;
    assert m[..|field|] == field;
    m
  }

  /** `TypeError` or plain `Error`. */
  datatype ErrorClass = TypeError | PlainError

  datatype ValidationError =
    | NotAString(field: string)
    | FirstNameLength(field: string)
    | LastNameLength(field: string)
    | LastNameShape(field: string)
    | ConsecutivePunctuation(field: string)
    | TooManyHyphens(field: string)
    | TooManyApostrophes(field: string)
    | BadPhone
    | BadEmail
    | BirthDateRequired
    | InvalidBirthDate
    | AgeOutOfRange
    | HeightNotNumber
    | HeightOutOfRange
    | WeightNotNumber
    | WeightOutOfRange
    | WeightNotPositive
    | HeightNotPositive
    | SubmitWeightOutOfRange
  {
    /** Errors that carry the label of the field they are about. */
    predicate IsFieldError() {
      NotAString? || FirstNameLength? || LastNameLength? || LastNameShape?
      || ConsecutivePunctuation? || TooManyHyphens? || TooManyApostrophes?
    }

    /** Only the three type checks throw `TypeError`; every other check throws a plain `Error`. */
    function Class(): (c: ErrorClass)
      ensures c == TypeError <==> NotAString? || HeightNotNumber? || WeightNotNumber?
    {
      match this
      case NotAString(_) => TypeError
      case HeightNotNumber => TypeError
      case WeightNotNumber => TypeError
      case _ => PlainError
    }

    /** The message text; a field error's message starts with the field label, then a space. */
    function Message(): (m: string)
      ensures IsFieldError() ==> |m| > |field| && m[..|field|] == field && m[|field|] == ' '
    {
      if IsFieldError() then Labelled(field, Wording()) else Wording()
    }

    /** The message without the field label that field errors put in front. */
    function Wording(): string {
      match this
      case NotAString(_) => "must be a string."
      case FirstNameLength(_) => "must be between 2 and 12 characters long."
      case LastNameLength(_) => "must be between 2 and 20 characters long."
      case LastNameShape(_) =>
        "must start and end with a letter and contain only letters, apostrophes or a hyphen."
      case ConsecutivePunctuation(_) => "must not contain consecutive hyphens or apostrophes."
      case TooManyHyphens(_) => "may contain at most one hyphen."
      case TooManyApostrophes(_) => "may contain at most two apostrophes."
      case BadPhone => "Phone number must be 11 digits and start with 07."
      case BadEmail => "Invalid email address format."
      case BirthDateRequired => "Birth date is required."
      case InvalidBirthDate => "Invalid birth date."
      case AgeOutOfRange => "Age must be between 0 and 120 years."
      case HeightNotNumber => "Height must be a number."
      case HeightOutOfRange => "Height must be between 30 cm and 200 cm."
      case WeightNotNumber => "Weight must be a number."
      case WeightOutOfRange => "Weight must be between 1 kg and 200 kg."
      case WeightNotPositive => "Weight must be a positive number"
      case HeightNotPositive => "Height must be a positive number"
      case SubmitWeightOutOfRange => "Weight must be between 1 and 200 kg"
    }
  }

  // ---------------------------------------------------------------- order of checks

  /** The failure a result carries, if any. */
  function ErrorOf<T>(r: Result<T, ValidationError>): Option<ValidationError> {
    if r.Failure? then Some(r.error) else None
  }

  /** The first failure in a list of checks taken in order. */
  function FirstError(checks: seq<Option<ValidationError>>): (e: Option<ValidationError>)
    ensures e.None? <==> forall k :: 0 <= k < |checks| ==> checks[k].None?
    ensures e.Some? ==> exists k :: 0 <= k < |checks| && checks[k] == e
                                    && forall j :: 0 <= j < k ==> checks[j].None?
  {
    if checks == [] then None
    else if checks[0].Some? then checks[0]
    else
      var e := FirstError(checks[1..]);
      assert forall k :: 1 <= k < |checks| ==> checks[k] == checks[1..][k - 1];
      e
  }

  /** A check that passes hands over to the ones after it. */
  lemma FirstErrorCons(head: Option<ValidationError>, tail: seq<Option<ValidationError>>)
    ensures FirstError([head] + tail) == if head.Some? then head else FirstError(tail)
  {
    assert ([head] + tail)[1..] == tail;
  }

  /** Seven checks in a row: the first that fails is the one reported. */
  lemma FirstErrorOfSeven(e0: Option<ValidationError>, e1: Option<ValidationError>,
                          e2: Option<ValidationError>, e3: Option<ValidationError>,
                          e4: Option<ValidationError>, e5: Option<ValidationError>,
                          e6: Option<ValidationError>)
    ensures FirstError([e0, e1, e2, e3, e4, e5, e6])
            == if e0.Some? then e0 else if e1.Some? then e1 else if e2.Some? then e2
               else if e3.Some? then e3 else if e4.Some? then e4 else if e5.Some? then e5
               else e6
  {
    FirstErrorCons(e6, []);
    FirstErrorCons(e5, [e6]);
    FirstErrorCons(e4, [e5, e6]);
    FirstErrorCons(e3, [e4, e5, e6]);
    FirstErrorCons(e2, [e3, e4, e5, e6]);
    FirstErrorCons(e1, [e2, e3, e4, e5, e6]);
    FirstErrorCons(e0, [e1, e2, e3, e4, e5, e6]);
  }

  /** Failures that come first keep their place when more checks follow. */
  lemma {:induction false} FirstErrorAppend(a: seq<Option<ValidationError>>, b: seq<Option<ValidationError>>)
    ensures FirstError(a + b) == if FirstError(a).Some? then FirstError(a) else FirstError(b)
  {
    if a == [] {
      assert a + b == b;
    } else {
      assert (a + b)[0] == a[0];
      assert (a + b)[1..] == a[1..] + b;
      FirstErrorAppend(a[1..], b);
    }
  }
}
