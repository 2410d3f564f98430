/** The age column of the patient list (`src/components/patients/PatientList.js`):
    `calculateAge` on calendar dates already split into year, month and day,
    with "today" passed in instead of read from the clock. */
module PatientAge {
  /** A calendar date as `getFullYear()`, `getMonth()` and `getDate()`
      report it. Only the order of months and of days matters here, so the
      month may be counted from 0 or from 1. */
  datatype Date = Date(year: int, month: int, day: int)

  /** `a` falls on or before `b` in the calendar: by year, then month, then
      day. */
  predicate OnOrBefore(a: Date, b: Date) {
    a.year < b.year
    || (a.year == b.year && (a.month < b.month || (a.month == b.month && a.day <= b.day)))
  }

  /** The day-and-month of `today` comes before the day-and-month of the
      birth date within a year: the birthday has not come round yet. */
  predicate BeforeBirthdayInYear(birth: Date, today: Date) {
    today.month < birth.month || (today.month == birth.month && today.day < birth.day)
  }

  /** The `n`-th anniversary of a date: same month and day, `n` years on. */
  function Anniversary(birth: Date, n: int): (d: Date)
    ensures d.month == birth.month && d.day == birth.day
    ensures d.year - birth.year == n
  {
    Date(birth.year + n, birth.month, birth.day)
  }

  /** `calculateAge`: the difference of the years, one less when this
      year's birthday is still to come. */
  function CalculateAge(birth: Date, today: Date): (age: int)
    ensures age == today.year - birth.year || age == today.year - birth.year - 1
    ensures age == today.year - birth.year - 1 <==> BeforeBirthdayInYear(birth, today)
  {
    var age := today.year - birth.year;
    var monthDiff := today.month - birth.month;
    if monthDiff < 0 || (monthDiff == 0 && today.day < birth.day) then age - 1 else age
  }

  /** The age is the number of completed years: the `age`-th anniversary
      has been reached and the next one has not. */
  lemma AgeIsCompletedYears(birth: Date, today: Date)
    ensures var age := CalculateAge(birth, today);
      OnOrBefore(Anniversary(birth, age), today) && !OnOrBefore(Anniversary(birth, age + 1), today)
  {
    var age := CalculateAge(birth, today);
    if BeforeBirthdayInYear(birth, today) {
      assert Anniversary(birth, age).year < today.year;
      assert Anniversary(birth, age + 1).year == today.year;
    } else {
      assert Anniversary(birth, age).year == today.year;
      assert Anniversary(birth, age + 1).year > today.year;
    }
  }

  /** Reaching anniversaries is monotone: once the `m`-th is reached, every
      earlier one is reached too. */
  lemma AnniversaryOrder(birth: Date, today: Date, n: int, m: int)
    requires n <= m && OnOrBefore(Anniversary(birth, m), today)
    ensures OnOrBefore(Anniversary(birth, n), today)
  {
    if n < m {
      assert Anniversary(birth, n).year < Anniversary(birth, m).year;
    }
  }

  /** Only one number of years has that property, so the completed-years
      reading pins `calculateAge` down. */
  lemma AgeIsUnique(birth: Date, today: Date, n: int)
    requires OnOrBefore(Anniversary(birth, n), today)
    requires !OnOrBefore(Anniversary(birth, n + 1), today)
    ensures n == CalculateAge(birth, today)
  {
    var age := CalculateAge(birth, today);
    AgeIsCompletedYears(birth, today);
    if n < age {
      AnniversaryOrder(birth, today, n + 1, age);
    } else if n > age {
      AnniversaryOrder(birth, today, age + 1, n);
    }
  }

  /** On the birthday itself the full year is counted. */
  lemma AgeOnBirthday(birth: Date, n: int)
    ensures CalculateAge(birth, Anniversary(birth, n)) == n
  {
  }

  /** Someone born on or before today has a non-negative age. */
  lemma AgeNonNegative(birth: Date, today: Date)
    requires OnOrBefore(birth, today)
    ensures CalculateAge(birth, today) >= 0
  {
    var age := CalculateAge(birth, today);
    AgeIsCompletedYears(birth, today);
    assert Anniversary(birth, 0) == birth;
    if age < 0 {
      AnniversaryOrder(birth, today, age + 1, 0);
    }
  }

  /** A later "today" never gives a smaller age. */
  lemma AgeMonotone(birth: Date, today: Date, later: Date)
    requires OnOrBefore(today, later)
    ensures CalculateAge(birth, today) <= CalculateAge(birth, later)
  {
    var age := CalculateAge(birth, today);
    AgeIsCompletedYears(birth, today);
    AgeIsCompletedYears(birth, later);
    var a := Anniversary(birth, age);
    assert OnOrBefore(a, later);
    if CalculateAge(birth, later) < age {
      AnniversaryOrder(birth, later, CalculateAge(birth, later) + 1, age);
    }
  }
}
