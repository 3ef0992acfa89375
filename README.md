# PatientRecords validation core, in Dafny

This project models the validation and record-keeping core of the
PatientRecords web page (`Contacts.js`). It has six parts:

- The `Contact` class's static validators: first name, last name, phone,
  e-mail, birth date, height and weight. Each one returns the normalised
  value or throws an error whose message and class match the source.
- The `Contact` constructor, which runs the validators in field order.
- `calculateBMI`, with its two guards and its rounding to one decimal.
- `getBMICategory`, and the later of the two `calculateAge` functions.
- The submit handler's validation pipeline, including its loop over the
  e-mail inputs, and the patient record it would store.
- The edit and delete handlers' list logic: update-by-id (find the first
  record with the id and merge the edited fields over it, keeping the id)
  and delete-by-id (filter out the records with the id). The edit handler's
  BMI recalculation, with its "N/A"/"Unknown" fall-back, is modelled too.

Modules, one file each:

- `Wrappers` (`wrappers.dfy`): `Option` and `Result`.
- `Text` (`text.dfy`): JavaScript's `trim`, its whitespace set, `length` in
  UTF-16 code units, and occurrence counting.
- `JsValues` (`jsvalues.dfy`): the values `typeof` tells apart. A number is
  NaN, ±Infinity, or a finite value.
- `Errors` (`errors.dfy`): one constructor per distinct error. Throw sites
  with the same class and message share a constructor: the two "must be a
  string" checks, and the positive-number checks of `calculateBMI` and the
  submit handler.
- `Dates` (`dates.dfy`): dates and the two age computations.
- `Validators` (`validators.dfy`): the static validators.
- `Bmi` (`bmi.dfy`): the BMI helper and the category function.
- `Contacts` (`contact.dfy`): the constructor, the submit pipeline and the
  edit handler's BMI.
- `Records` (`records.dfy`): the stored list, as a class whose `seq` field
  is pushed to, updated in place and filtered.

Decisions the model makes:

- **Whitespace.** `trim()` and `\s` use the ECMAScript WhiteSpace and
  LineTerminator code points (sections 12.2 and 12.3 of ECMA-262). The model
  lists them one by one.
- **Length.** `length` counts UTF-16 code units, so a character outside the
  Basic Multilingual Plane counts as two.
- **Error order.** Every failure is a value of `Errors.ValidationError`, and
  the order in which errors are reported is proved.
- **E-mail pattern.** `/^[^\s@]+@[^\s@]+\.[^\s@]+$/` is three non-empty runs
  holding neither whitespace nor `@`, joined by the `@` and one dot. The runs
  may contain dots themselves, so only one dot of the domain needs a run on
  each side: "a@b.c." is accepted, its last run being "c.".
- **Rounding.** BMI is kept as a whole number of tenths, rounded half up.
  The category is computed from that rounded value, as the source does.

## Model

| member | source | states |
|---|---|---|
| Text.Trim | Contacts.js:41 | `trim()` leaves neither a leading nor a trailing whitespace character and never lengthens the string |
| Text.TrimIsTrimming | Contacts.js:41 | `trim()` removes exactly a whitespace-only prefix and a whitespace-only suffix, and the rest of the string is kept as a contiguous slice |
| Text.TrimIdempotent | Contacts.js:52 | trimming an already trimmed value changes nothing |
| Text.Utf16Length | Contacts.js:42 | `length` is between the number of characters and twice that, and is exactly the number of characters when all of them lie in the Basic Multilingual Plane |
| Text.Utf16LengthSingle | Contacts.js:42 | one character counts as one code unit inside the Basic Multilingual Plane and as two outside it |
| Text.Utf16LengthAppend | Contacts.js:42 | the `length` of a concatenation is the sum of the lengths of its parts |
| Text.Count | Contacts.js:64-65 | the match count is at most the length and is zero exactly when the character does not occur |
| Validators.ValidateFirstName | Contacts.js:37-46 | accepts exactly a string whose trimmed length is 2 to 12 and returns the trimmed string; a non-string gives the TypeError and a bad length the length error |
| Validators.EmojiFirstNameAccepted | Contacts.js:41-45 | a first name of one emoji, two code units long, is accepted unchanged |
| Validators.FirstNameIdempotent | Contacts.js:41-45 | a first name the validator returned is accepted again and returned unchanged |
| Validators.ValidateLastName | Contacts.js:48-73 | accepts exactly a string whose trimmed value is 2 to 20 ASCII letters, apostrophes and hyphens, starts and ends with a letter, has no two punctuation marks side by side, at most one hyphen and at most two apostrophes; returns the trimmed value; a non-string gives the TypeError; any other failure gives the error of the first failing check, in source order (length, pattern, doubled punctuation, hyphens, apostrophes) |
| Validators.LastNameChecks | Contacts.js:53-71 | the five checks of the last-name validator, in source order, each with the error it throws |
| Validators.LastNameChecksAgree | Contacts.js:53-71 | the validator's five checks (length, pattern, doubled punctuation, hyphen count, apostrophe count) together mean the character-by-character description of an acceptable last name |
| Validators.LastNameIdempotent | Contacts.js:52-72 | a last name the validator returned is accepted again and returned unchanged |
| Validators.DoubledApostropheRejected | Contacts.js:57-63 | "O''Brien" passes the pattern and fails with the consecutive-punctuation error |
| Validators.HyphenAndApostropheAccepted | Contacts.js:56-72 | "O'Brien-Smith" (one hyphen, one apostrophe) is accepted unchanged |
| Validators.ValidatePhone | Contacts.js:75-81 | accepts exactly 11 ASCII digits starting "07" and returns the input unchanged; otherwise the phone error |
| Validators.PhoneExamples | Contacts.js:76-79 | a valid mobile number is accepted; a wrong prefix and a 10-digit number are rejected |
| Validators.ValidateEmail | Contacts.js:83-89 | accepts exactly the strings the regular expression matches (a non-empty run, `@`, a non-empty run, `.`, a non-empty run, none holding whitespace or `@`) and returns the input unchanged; otherwise the e-mail error |
| Validators.TrailingDotAccepted | Contacts.js:84-85 | "a@b.c." is accepted, since the last run may itself contain a dot |
| Validators.EmailShapeIsPattern | Contacts.js:84 | the index-based shape test used to decide the pattern (no whitespace, a single `@` not first, a `.` in the domain neither first nor last) holds exactly when the regular expression matches |
| Validators.ValidateBirthDate | Contacts.js:91-109 | undefined, null or "" gives "Birth date is required."; an unparsable date gives "Invalid birth date."; otherwise succeeds exactly when the age on `today` is 0 to 120, returning the parsed date, else the age error |
| Validators.BirthDateBoundary | Contacts.js:105-107 | born exactly 120 years before today is accepted; exactly 121 years before is rejected with the age error |
| Validators.ValidateHeight | Contacts.js:111-119 | accepts exactly a finite number in [30, 200] and returns it; a non-number or NaN gives the TypeError; any other number (including ±Infinity) the range error |
| Validators.ValidateWeight | Contacts.js:121-129 | accepts exactly a finite number in [1, 200] and returns it; a non-number or NaN gives the TypeError; any other number the range error |
| Dates.InlineAge | Contacts.js:99-104 | the age computed inside `validateBirthDate` is the number of whole years passed: its anniversary has been reached by today and the next has not |
| Dates.CalculateAge | Contacts.js:319-334 | `calculateAge` is the number of whole years passed, and is the year difference or one less |
| Dates.AgesAgree | Contacts.js:323-331 | the validator's inline age and `calculateAge` agree on every pair of dates |
| Dates.AgeOnBirthday | Contacts.js:325-327 | on the birthday itself both computations already count the year |
| Bmi.RawBmi | Contacts.js:271-272 | the unrounded BMI is positive, and times the square of the height in metres gives back the weight |
| Bmi.RawBmiBounded | Contacts.js:111-129 | within the ranges the validators enforce (weight at most 200 kg, height at least 30 cm) the unrounded BMI stays below 2223 |
| Bmi.RoundToTenths | Contacts.js:273 | `toFixed(1)` of a non-negative value is within half a tenth of it, half rounded up |
| Bmi.CalculateBmi | Contacts.js:262-274 | succeeds exactly when weight and height are finite and positive; a bad weight is reported before a bad height; the result is the BMI rounded to the nearest tenth |
| Bmi.GetBmiCategory | Contacts.js:276-282 | "Unknown" exactly for a non-finite input |
| Bmi.CategoryOfTenths | Contacts.js:278-281 | on multiples of 0.1 each band is exactly an interval: below 18.5, 18.5 to 24.9, 25.0 to 29.9, 30.0 and up, so the bands leave no gap |
| Bmi.OffGridFallsToObese | Contacts.js:279-281 | a value between two bands, such as 24.95 or 29.95, falls through to "Obese" |
| Bmi.CalculatedBmiHasCategory | Contacts.js:277 | a BMI that `calculateBMI` returns never has the category "Unknown" |
| Bmi.BmiExamples | Contacts.js:271-273 | 74.5 kg at 170 cm gives 25.8 (Overweight); 60 kg at 165 cm gives 22.0 (Normal) |
| Contacts.ContactBmi | Contacts.js:31-34 | the instance method gives the same rounded BMI as `calculateBMI` on the stored positive height and weight |
| Errors.Labelled | Contacts.js:39 | a field message starts with the field label followed by a space |
| Errors.ValidationError.Class | Contacts.js:112-124 | a failure is a `TypeError` exactly for the three "must be a string" / "must be a number" throws, and a plain `Error` otherwise |
| Errors.ValidationError.Message | Contacts.js:37-129 | the message of a name validator's error starts with the field label and a space, as the template literals build it |
| Contacts.NewContact | Contacts.js:17-28 | construction succeeds exactly when all seven validators accept; the fields then hold the validated values and the BMI computed from them |
| Contacts.ConstructorReportsFirstFailure | Contacts.js:18-25 | the constructor throws the error of the first validator, in field order, that rejects |
| Contacts.TrimAll | Contacts.js:201 | every e-mail input, trimmed, in order |
| Contacts.DropEmpty | Contacts.js:201 | the filter keeps no empty string and never lengthens the list |
| Contacts.DropEmptyMembers | Contacts.js:201 | the filter keeps exactly the non-empty strings |
| Contacts.DropEmptyAppend | Contacts.js:201 | the filter distributes over concatenation, so the order of the kept strings is the input order |
| Contacts.DropEmptySingle | Contacts.js:201 | one string is dropped exactly when it is empty |
| Contacts.TrimAllAppend | Contacts.js:201 | trimming every input distributes over concatenation |
| Contacts.CollectEmails | Contacts.js:201 | the collected e-mails are non-empty and already trimmed, and there are no more of them than inputs |
| Contacts.CollectEmailsMembers | Contacts.js:201 | the collected e-mails are exactly the trimmed inputs that are not empty |
| Contacts.CollectEmailsAppend | Contacts.js:201 | collecting from two groups of inputs gives the two collections one after the other, so the order of the inputs is kept |
| Contacts.CollectEmailsSingle | Contacts.js:201 | one input yields its trimmed value, or nothing when that is empty |
| Contacts.EmailsError | Contacts.js:211-213 | the e-mail step passes exactly when every collected e-mail matches the pattern, and otherwise throws the e-mail error |
| Contacts.ValidateEmails | Contacts.js:211-213 | the loop over the e-mails returns the e-mail step's outcome, stopping at the first failure |
| Contacts.SubmitIdentity | Contacts.js:204-213 | the first stage of submit passes exactly when first name, last name, phone and every collected e-mail pass, and yields the trimmed names and the collected e-mails |
| Contacts.IdentityReportsFirstFailure | Contacts.js:204-213 | the first stage throws the error of its first failing check, in source order |
| Contacts.PositiveCheck | Contacts.js:221-222 | the "positive number" guard passes exactly for a finite number above zero, and otherwise throws the given error |
| Contacts.SubmitMeasurements | Contacts.js:218-227 | the last stage passes exactly when the weight is a finite number in [1, 200] and the height a finite number in [30, 200]; a non-positive weight is reported first, then a non-positive height; the BMI is calculated and its category is never "Unknown" |
| Contacts.MeasurementsReportFirstFailure | Contacts.js:218-223 | the last stage throws the error of its first failing check, in source order |
| Contacts.Submit | Contacts.js:203-242 | submission succeeds exactly when both stages and the birth date pass; the stored patient then carries the generated id, the validated names, phone, e-mails, birth date, height, weight, gender and notes, and the BMI and category computed from them |
| Contacts.SubmitReportsFirstFailure | Contacts.js:204-223 | submit throws the error of the first failing check among its nine, in source order |
| Contacts.SubmitWeightMatchesValidator | Contacts.js:219-223 | the submit handler's own weight checks accept the same weights as `validateWeight`, which it does not call |
| Contacts.EditBmi | Contacts.js:479-486 | the edit handler gets "N/A" and "Unknown" exactly when `calculateBMI` throws, and otherwise the rounded BMI and its category |
| Records.Merge | Contacts.js:498-501 | the merged record keeps the id; its fields are the old ones and the edited ones, the edited values winning |
| Records.IndexOfId | Contacts.js:490 | `findIndex` gives the first index holding the id, or -1 exactly when no record has it |
| Records.MergeById | Contacts.js:490-501 | update-by-id keeps the length and every id, replaces only the first record with the id by its merge, and leaves the list untouched for an unknown id |
| Records.RemoveId | Contacts.js:524 | the filtered list is no longer and holds no record with the id |
| Records.RemoveIdAppend | Contacts.js:524 | filtering distributes over concatenation, so the records kept stay in their original order |
| Records.RemoveIdSingle | Contacts.js:524 | one record is dropped exactly when it has the id |
| Records.RemoveIdAbsent | Contacts.js:524 | a list in which no record has the id is left unchanged |
| Records.RemoveIdIdempotent | Contacts.js:524 | deleting a second time changes nothing |
| Records.RemoveIdMembers | Contacts.js:524 | the records kept are exactly those whose id differs |
| Records.RemoveIdShrinks | Contacts.js:524 | the list keeps its length exactly when no record has the id |
| Records.RemoveAfterMerge | Contacts.js:490-524 | deleting a record after editing it leaves the same list as deleting it straight away |
| Records.PatientList.constructor | Contacts.js:489 | the list starts as the records loaded from storage |
| Records.PatientList.Push | Contacts.js:245-246 | submit appends the new patient at the end and changes nothing else |
| Records.PatientList.FindIndex | Contacts.js:490 | the search loop returns `findIndex`'s answer |
| Records.PatientList.UpdateById | Contacts.js:489-501 | reports "not found" exactly for an unknown id, and leaves the list as update-by-id describes |
| Records.PatientList.DeleteById | Contacts.js:521-524 | the list becomes the filtered list |

## Left out

- The page itself is not modelled: the DOM, form reading, the "add e-mail" button, alerts, console output and the confirmation dialog before a delete.
- Storage is not modelled: `localStorage` and JSON serialisation appear only as the records loaded into, and stored from, `PatientList`.
- `crypto.randomUUID()` is not modelled: the patient id is a parameter.
- `new Date(...)` parsing is not modelled: the parsed date, or `None` when its time value is NaN, is a parameter.
- The clock is not modelled: `today` is a parameter, in local-time year, zero-based month and day.
- The ISO formatting of the submitted birth date is not modelled. The submitted record holds the parsed date, not `toISOString().split('T')[0]`, and the possible UTC shift of that string is not captured.
- `Number(...)` and `parseFloat` coercion of form strings are not modelled. Weight and height arrive as already-converted JavaScript numbers.
- Bmi.RawBmi: computes over exact reals, not IEEE doubles. A double rounding error that moves `toFixed(1)` to the adjacent tenth is not captured, and neither is overflow: a huge weight (1e305 kg at 1 cm) or a height whose square underflows to zero gives `Infinity` in the source and a large finite value here.
- Bmi.CalculateBmi: never returns `Infinity`, because RawBmi has no overflow. For the argument ranges the constructor and the submit handler enforce, Bmi.RawBmiBounded shows the value stays far below the largest double, so the two agree there.
- Bmi.CalculatedBmiHasCategory: proved over exact reals. In the source, an overflowing BMI from `calculateBMI` has the category "Unknown"; within the validated ranges RawBmiBounded rules that out.
- Contacts.EditBmi: the edit handler checks no range, so in the source an overflowing weight and height pair is stored with BMI `Infinity` and category "Unknown". The model stores a finite BMI and its band.
- Bmi.RoundToTenths: rounds the exact value half up. `toFixed` rounds the binary value of the double, which differs only at exact halves.
- Validators.ValidatePhone: takes a string. The `String(...)` conversion the regular expression applies to other values is not modelled.
- Validators.ValidateEmail: takes a string. The `String(...)` conversion the regular expression applies to other values is not modelled.
- Strings are sequences of Unicode scalar values, so a lone UTF-16 surrogate cannot be represented.
- `createContact` is left out because it always fails: it calls the constructor with only two arguments.
- `isValidContact` is left out because it always fails: it calls the missing `Contact.validateName`.
- Dead code is left out:
  - the block that uses the undefined `parsedWeight`
  - the first, shadowed `calculateAge(birthYear)`
  - the "show all" handler, which writes to an undefined element
- The free-text search is left out: it formats arbitrary field values into one string.
- The `testPatients` sample data is left out.
- The "Calculate BMI" button handler is only DOM wiring around `calculateBMI` and `getBMICategory`, which are modelled.
- Three parts of the edit handler are not modelled: splitting the e-mail field on commas, loading the record into the form, and the lack of any validation of the edited fields.
- Update-by-id keeps the record's id structurally, because the edit handler's field set never holds an `id` key. Record field values are an abstract type.
- Single-threaded execution is assumed: the load-change-store cycles are modelled as whole operations on the list.
