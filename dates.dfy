/**
 * Calendar dates as the source reads them off a `Date` object, and the two
 * age computations of the source. The month is zero-based as `getMonth`
 * returns it; both computations only compare components, so no range is
 * imposed on them.
 */
module Dates {

  datatype Date = Date(year: int, month: int, day: int)

  /** Chronological order on (year, month, day). */
  predicate OnOrBefore(a: Date, b: Date) {
    a.year < b.year
    || (a.year == b.year && (a.month < b.month || (a.month == b.month && a.day <= b.day)))
  }

  /** The `n`-th anniversary of `dob`: same month and day, `n` years later. */
  function Anniversary(dob: Date, n: int): Date {
    Date(dob.year + n, dob.month, dob.day)
  }

  /**
   * `age` whole years have passed: the `age`-th anniversary has been reached
   * by `today` and the next one has not.
   */
  predicate IsAgeOn(dob: Date, today: Date, age: int) {
    OnOrBefore(Anniversary(dob, age), today) && !OnOrBefore(Anniversary(dob, age + 1), today)
  }

  /** The age computed inside `validateBirthDate`: year difference, minus one before the birthday. */
  function InlineAge(dob: Date, today: Date): (age: int)
    ensures IsAgeOn(dob, today, age)
    ensures age == today.year - dob.year || age == today.year - dob.year - 1
  {
    var age := today.year - dob.year;
    var monthDiff := today.month - dob.month;
    if monthDiff < 0 || (monthDiff == 0 && today.day < dob.day) then age - 1 else age
  }

  /** `calculateAge`: year difference, minus one unless the birthday has happened this year. */
  function CalculateAge(dob: Date, today: Date): (age: int)
    ensures IsAgeOn(dob, today, age)
    ensures age == today.year - dob.year || age == today.year - dob.year - 1
  {
    var age := today.year - dob.year;
    var hasHadBirthdayThisYear :=
      today.month > dob.month || (today.month == dob.month && today.day >= dob.day);
    if !hasHadBirthdayThisYear then age - 1 else age
  }

  /** At most one age fits a pair of dates. */
  lemma AgeUnique(dob: Date, today: Date, a: int, b: int)
    requires IsAgeOn(dob, today, a) && IsAgeOn(dob, today, b)
    ensures a == b
  {
  }

  /** The two age computations agree on every pair of dates. */
  lemma AgesAgree(dob: Date, today: Date)
    ensures InlineAge(dob, today) == CalculateAge(dob, today)
  {
    AgeUnique(dob, today, InlineAge(dob, today), CalculateAge(dob, today));
  }

  /** On the birthday itself the full year already counts. */
  lemma AgeOnBirthday(dob: Date, today: Date)
    requires today.month == dob.month && today.day == dob.day
    ensures CalculateAge(dob, today) == today.year - dob.year
    ensures InlineAge(dob, today) == today.year - dob.year
  {
  }
}
