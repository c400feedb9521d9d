/** The civil calendar kernel: Gregorian dates against day numbers counted from 1970-01-01. */
module Calendar {
  import opened Options

  datatype Date = Date(year: int, month: int, day: int)

  // ---------------------------------------------------------------------------
  // Rust's integer division, which truncates toward zero.

  function TruncDiv(a: int, b: int): (q: int)
    requires b > 0
  {
    if a >= 0 then a / b else -((-a) / b)
  }

  function TruncMod(a: int, b: int): (r: int)
    requires b > 0
  {
    a - b * TruncDiv(a, b)
  }

  /** The era adjustment both conversions use: truncation of the shifted numerator is a floor. */
  function EraOf(a: int, period: int): (era: int)
    requires period > 0
    ensures era * period <= a < era * period + period
  {
    FloorAdjustment(a, period);
    TruncDiv(if a >= 0 then a else a - (period - 1), period)
  }

  lemma FloorAdjustment(a: int, p: int)
    requires p > 0
    ensures var q := TruncDiv(if a >= 0 then a else a - (p - 1), p);
            q * p <= a < q * p + p
  {
    if a < 0 {
      var n := p - 1 - a;
      assert n == p * (n / p) + n % p;
      assert 0 <= n % p < p;
      assert (n / p) * p == p * (n / p);
      assert (-(n / p)) * p == -((n / p) * p);
    } else {
      assert a == p * (a / p) + a % p;
      assert (a / p) * p == p * (a / p);
    }
  }

  lemma MulStep(a: int, b: int, p: int)
    requires p > 0
    ensures a < b ==> a * p + p <= b * p
  {
    if a < b {
      assert (b - a - 1) * p >= 0;
    }
  }

  lemma FloorUnique(a: int, p: int, q: int)
    requires p > 0 && q * p <= a < q * p + p
    ensures EraOf(a, p) == q
  {
    var e := EraOf(a, p);
    MulStep(e, q, p);
    MulStep(q, e, p);
  }

  // ---------------------------------------------------------------------------
  // The source's functions.

  predicate IsLeapYear(year: int) {
    (TruncMod(year, 4) == 0 && TruncMod(year, 100) != 0) || TruncMod(year, 400) == 0
  }

  function DaysInMonth(year: int, month: int): (n: int)
    ensures 0 <= n <= 31
    ensures 1 <= month <= 12 <==> 28 <= n
  {
    if month in {1, 3, 5, 7, 8, 10, 12} then 31
    else if month in {4, 6, 9, 11} then 30
    else if month == 2 then (if IsLeapYear(year) then 29 else 28)
    else 0
  }

  predicate ValidDate(d: Date) {
    1 <= d.month <= 12 && 1 <= d.day <= DaysInMonth(d.year, d.month)
  }

  function Clamp(x: int, lo: int, hi: int): (r: int)
    requires lo <= hi
    ensures lo <= r <= hi
    ensures lo <= x <= hi ==> r == x
  {
    if x < lo then lo else if x > hi then hi else x
  }

  /** Clamping conversion: an impossible date becomes the nearest real one. */
  function DaysFromCivil(year: int, month: nat, day: nat): int {
    var month := Clamp(month, 1, 12);
    HinnantDays(year, month, Clamp(day, 1, DaysInMonth(year, month)))
  }

  function HinnantDays(year: int, month: int, day: int): int {
    var adjustedYear := if month <= 2 then year - 1 else year;
    var era := EraOf(adjustedYear, 400);
    var yearOfEra := adjustedYear - era * 400;
    var shiftedMonth := (month + 9) % 12;
    var dayOfYear := (153 * shiftedMonth + 2) / 5 + day - 1;
    var dayOfEra := yearOfEra * 365 + yearOfEra / 4 - yearOfEra / 100 + dayOfYear;
    era * 146097 + dayOfEra - 719468
  }

  function TryDaysFromCivil(year: int, month: nat, day: nat): Option<int> {
    if !(1 <= month <= 12) then None
    else if day < 1 || day > DaysInMonth(year, month) then None
    else Some(DaysFromCivil(year, month, day))
  }

  function CivilFromDays(days: int): Date {
    var shifted := days + 719468;
    var era := EraOf(shifted, 146097);
    CivilInEra(era, shifted - era * 146097)
  }

  /** The date of the given day of a 400 year era, which the source counts from March. */
  function CivilInEra(era: int, dayOfEra: int): Date {
    var yearOfEra := YearOfEra(dayOfEra);
    CivilInYear(yearOfEra + era * 400, dayOfEra - EraDays(yearOfEra))
  }

  function YearOfEra(dayOfEra: int): int {
    (dayOfEra - dayOfEra / 1460 + dayOfEra / 36524 - dayOfEra / 146096) / 365
  }

  function CivilInYear(year: int, dayOfYear: int): Date {
    var shiftedMonth := (5 * dayOfYear + 2) / 153;
    var day := dayOfYear - (153 * shiftedMonth + 2) / 5 + 1;
    var month := if shiftedMonth < 10 then shiftedMonth + 3 else shiftedMonth - 9;
    Date(if month <= 2 then year + 1 else year, month, day)
  }

  // ---------------------------------------------------------------------------
  // The reference: a date walked one calendar day at a time.

  function NextDate(d: Date): Date {
    if d.day < DaysInMonth(d.year, d.month) then Date(d.year, d.month, d.day + 1)
    else if d.month < 12 then Date(d.year, d.month + 1, 1)
    else Date(d.year + 1, 1, 1)
  }

  function PrevDate(d: Date): Date {
    if d.day > 1 then Date(d.year, d.month, d.day - 1)
    else if d.month > 1 then Date(d.year, d.month - 1, DaysInMonth(d.year, d.month - 1))
    else Date(d.year - 1, 12, 31)
  }

  /** The date `n` calendar days after (before, when negative) 1970-01-01. */
  function Walk(n: int): (d: Date)
    ensures ValidDate(d)
    decreases if n < 0 then -n else n
  {
    if n == 0 then Date(1970, 1, 1)
    else if n > 0 then NextDate(Walk(n - 1))
    else PrevDate(Walk(n + 1))
  }

  predicate Earlier(a: Date, b: Date) {
    a.year < b.year
    || (a.year == b.year && (a.month < b.month || (a.month == b.month && a.day < b.day)))
  }

  function DayNumber(d: Date): int
    requires ValidDate(d)
  {
    DaysFromCivil(d.year, d.month, d.day)
  }

  // ---------------------------------------------------------------------------
  // Years inside a 400 year era, counted from March.

  /** Days of the era before its March-based year `y`. */
  function EraDays(y: int): int {
    365 * y + y / 4 - y / 100
  }

  /** Whether the March-based year `y` of an era ends in a 29 February. */
  predicate LongYear(y: int) {
    (y + 1) % 4 == 0 && ((y + 1) % 100 != 0 || (y + 1) % 400 == 0)
  }

  lemma EraDaysStep(y: int)
    requires 0 <= y < 399
    ensures EraDays(y + 1) == EraDays(y) + (if LongYear(y) then 366 else 365)
  {
    assert (y + 1) / 4 == y / 4 + (if (y + 1) % 4 == 0 then 1 else 0);
    assert (y + 1) / 100 == y / 100 + (if (y + 1) % 100 == 0 then 1 else 0);
  }

  /** A March-based year split into century, quadrennium and year. */
  lemma EraDaysSplit(y: int) returns (c: int, q: int, r: int)
    requires 0 <= y < 400
    ensures 0 <= c < 4 && 0 <= q < 25 && 0 <= r < 4 && y == 100 * c + 4 * q + r
    ensures EraDays(y) == 36524 * c + 1461 * q + 365 * r
    ensures LongYear(y) ==> r == 3 && (q < 24 || c == 3)
  {
    c, q, r := y / 100, y % 100 / 4, y % 4;
    assert y == 100 * c + 4 * q + r;
    assert y / 4 == 25 * c + q;
    if LongYear(y) && q == 24 {
      assert y + 1 == 100 * (c + 1);
    }
  }

  lemma ReciprocalOfCentury(doe: int, c: int, rest: int)
    requires 0 <= c < 4 && 0 <= rest <= 36524 && (rest == 36524 ==> c == 3)
    requires doe == 36524 * c + rest
    ensures 0 <= doe < 146097 && doe / 36524 - doe / 146096 == c
  {
  }

  lemma ReciprocalOfQuadrennium(c: int, q: int, rest: int)
    requires 0 <= c < 4 && 0 <= q < 25 && 0 <= rest <= 1460
    ensures var e := if 24 * c + q + rest >= 1460 then 1 else 0;
            (36524 * c + 1461 * q + rest) / 1460 == 25 * c + q + e
  {
  }

  /** The source's reciprocal formula recovers the March-based year of any day of the era. */
  lemma YearOfEraRecovered(y: int, doy: int)
    requires 0 <= y < 400 && 0 <= doy <= 365
    requires doy == 365 ==> LongYear(y)
    ensures var doe := EraDays(y) + doy;
            0 <= doe < 146097 &&
            YearOfEra(doe) == y
  {
    var c, q, r := EraDaysSplit(y);
    var doe := EraDays(y) + doy;
    ReciprocalOfCentury(doe, c, 1461 * q + 365 * r + doy);
    ReciprocalOfQuadrennium(c, q, 365 * r + doy);
    var e := if 24 * c + q + 365 * r + doy >= 1460 then 1 else 0;
    assert doe - doe / 1460 + c == 365 * y + (doy - e);
    assert 0 <= doy - e < 365;
  }

  /** Every day of the era lies in exactly one March-based year. */
  lemma YearOfEraExists(doe: int) returns (y: int, doy: int)
    requires 0 <= doe < 146097
    ensures 0 <= y < 400 && 0 <= doy <= 365 && doe == EraDays(y) + doy
    ensures doy == 365 ==> LongYear(y)
  {
    var c := if doe / 36524 == 4 then 3 else doe / 36524;
    var d1 := doe - 36524 * c;
    var q := d1 / 1461;
    var d2 := d1 - 1461 * q;
    var r := if d2 / 365 == 4 then 3 else d2 / 365;
    y, doy := 100 * c + 4 * q + r, d2 - 365 * r;
    assert y / 100 == c && y / 4 == 25 * c + q;
    if doy == 365 {
      assert r == 3;
      assert (y + 1) % 4 == 0;
      assert q < 24 || c == 3;
    }
  }

  // ---------------------------------------------------------------------------
  // Months inside a March-based year.

  function MonthOffset(sm: int): int {
    (153 * sm + 2) / 5
  }

  function ShiftMonth(month: int): int {
    (month + 9) % 12
  }

  /** Length of the `sm`-th month counted from March, in a year whose February has `feb` days. */
  function ShiftedLength(sm: int, feb: int): int {
    if sm == 11 then feb else MonthOffset(sm + 1) - MonthOffset(sm)
  }

  lemma MonthRecovered(sm: int, day: int)
    requires 0 <= sm < 12 && 1 <= day <= ShiftedLength(sm, 29)
    ensures (5 * (MonthOffset(sm) + day - 1) + 2) / 153 == sm
    ensures 0 <= MonthOffset(sm) + day - 1 <= 365
    ensures MonthOffset(sm) + day - 1 == 365 <==> sm == 11 && day == 29
  {
  }

  lemma MonthExists(doy: int)
    requires 0 <= doy <= 365
    ensures var sm := (5 * doy + 2) / 153;
            0 <= sm < 12 && 1 <= doy - MonthOffset(sm) + 1 <= ShiftedLength(sm, 29)
  {
  }

  lemma MonthLengths(year: int, month: int)
    requires 1 <= month <= 12
    ensures ShiftedLength(ShiftMonth(month), DaysInMonth(year, 2)) == DaysInMonth(year, month)
  {
  }

  /** Truncating remainders give the same leap years as Euclidean ones, for years of any sign. */
  lemma LeapRule(year: int)
    ensures IsLeapYear(year) <==> (year % 4 == 0 && year % 100 != 0) || year % 400 == 0
  {
    assert TruncMod(year, 4) == 0 <==> year % 4 == 0;
    assert TruncMod(year, 100) == 0 <==> year % 100 == 0;
    assert TruncMod(year, 400) == 0 <==> year % 400 == 0;
  }

  lemma LeapIsLong(year: int, era: int, y: int)
    requires 0 <= y < 400 && year == era * 400 + y + 1
    ensures IsLeapYear(year) <==> LongYear(y)
  {
    LeapRule(year);
    EraShift(era, y + 1);
  }

  lemma EraShift(era: int, x: int)
    ensures (era * 400 + x) % 4 == x % 4
    ensures (era * 400 + x) % 100 == x % 100
    ensures (era * 400 + x) % 400 == x % 400
  {
    ShiftMod4(100 * era, x);
    ShiftMod100(4 * era, x);
    ShiftMod400(era, x);
  }

  lemma ShiftMod4(t: int, x: int)
    ensures (4 * t + x) % 4 == x % 4
  {
  }

  lemma ShiftMod100(t: int, x: int)
    ensures (100 * t + x) % 100 == x % 100
  {
  }

  lemma ShiftMod400(t: int, x: int)
    ensures (400 * t + x) % 400 == x % 400
  {
  }

  // ---------------------------------------------------------------------------
  // Main results.

  /** The parts a valid date splits into: era, March-based year, month and day. */
  lemma Decompose(d: Date) returns (era: int, y: int, sm: int)
    requires ValidDate(d)
    ensures 0 <= y < 400 && 0 <= sm < 12 && sm == ShiftMonth(d.month)
    ensures era * 400 + y == (if d.month <= 2 then d.year - 1 else d.year)
    ensures 1 <= d.day <= ShiftedLength(sm, 29)
    ensures sm == 11 && d.day == 29 ==> LongYear(y)
    ensures DayNumber(d) == era * 146097 + EraDays(y) + MonthOffset(sm) + d.day - 1 - 719468
  {
    var ay := if d.month <= 2 then d.year - 1 else d.year;
    era := EraOf(ay, 400);
    y := ay - era * 400;
    sm := ShiftMonth(d.month);
    MonthLengths(d.year, d.month);
    if d.month == 2 {
      LeapIsLong(d.year, era, y);
    }
  }

  function MonthOf(sm: int): int {
    if sm < 10 then sm + 3 else sm - 9
  }

  function YearOf(era: int, y: int, sm: int): int {
    era * 400 + y + (if sm < 10 then 0 else 1)
  }

  /** The inverse conversion reads off the parts a day number was composed from. */
  lemma Recompose(n: int, era: int, y: int, sm: int, day: int)
    requires 0 <= y < 400 && 0 <= sm < 12 && 1 <= day <= ShiftedLength(sm, 29)
    requires sm == 11 && day == 29 ==> LongYear(y)
    requires n == era * 146097 + EraDays(y) + MonthOffset(sm) + day - 1 - 719468
    ensures CivilFromDays(n) == Date(YearOf(era, y, sm), MonthOf(sm), day)
  {
    var doy := MonthOffset(sm) + day - 1;
    MonthRecovered(sm, day);
    YearOfEraRecovered(y, doy);
    FloorUnique(n + 719468, 146097, era);
    RecomposeInEra(era, y, sm, day);
  }

  lemma RecomposeInEra(era: int, y: int, sm: int, day: int)
    requires 0 <= y < 400 && 0 <= sm < 12 && 1 <= day <= ShiftedLength(sm, 29)
    requires sm == 11 && day == 29 ==> LongYear(y)
    ensures CivilInEra(era, EraDays(y) + MonthOffset(sm) + day - 1)
         == Date(YearOf(era, y, sm), MonthOf(sm), day)
  {
    var doy := MonthOffset(sm) + day - 1;
    MonthRecovered(sm, day);
    YearOfEraRecovered(y, doy);
    MonthInYear(era * 400 + y, sm, day);
  }

  lemma MonthInYear(year: int, sm: int, day: int)
    requires 0 <= sm < 12 && 1 <= day <= ShiftedLength(sm, 29)
    ensures CivilInYear(year, MonthOffset(sm) + day - 1)
         == Date(year + (if sm < 10 then 0 else 1), MonthOf(sm), day)
  {
    MonthRecovered(sm, day);
  }

  lemma RoundTripFromDate(d: Date)
    requires ValidDate(d)
    ensures CivilFromDays(DayNumber(d)) == d
  {
    var era, y, sm := Decompose(d);
    Recompose(DayNumber(d), era, y, sm, d.day);
  }

  lemma PartsAreValid(era: int, y: int, sm: int, day: int)
    requires 0 <= y < 400 && 0 <= sm < 12 && 1 <= day <= ShiftedLength(sm, 29)
    requires sm == 11 && day == 29 ==> LongYear(y)
    ensures ValidDate(Date(YearOf(era, y, sm), MonthOf(sm), day))
  {
    var year := YearOf(era, y, sm);
    MonthLengths(year, MonthOf(sm));
    if sm == 11 {
      LeapIsLong(year, era, y);
    }
  }

  lemma PartsAreUnique(era: int, y: int, sm: int, day: int, era': int, y': int, sm': int)
    requires 0 <= y < 400 && 0 <= sm < 12 && 0 <= y' < 400 && 0 <= sm' < 12
    requires MonthOf(sm) == MonthOf(sm') && era * 400 + y == era' * 400 + y'
    ensures era == era' && y == y' && sm == sm'
  {
  }

  lemma NumberOfParts(d: Date, era: int, y: int, sm: int)
    requires ValidDate(d) && 0 <= y < 400 && 0 <= sm < 12 && MonthOf(sm) == d.month
    requires YearOf(era, y, sm) == d.year
    ensures DayNumber(d) == era * 146097 + EraDays(y) + MonthOffset(sm) + d.day - 1 - 719468
  {
    var era', y', sm' := Decompose(d);
    PartsAreUnique(era, y, sm, d.day, era', y', sm');
  }

  lemma DayParts(n: int) returns (era: int, y: int, sm: int, day: int)
    ensures 0 <= y < 400 && 0 <= sm < 12 && 1 <= day <= ShiftedLength(sm, 29)
    ensures sm == 11 && day == 29 ==> LongYear(y)
    ensures n == era * 146097 + EraDays(y) + MonthOffset(sm) + day - 1 - 719468
  {
    era := EraOf(n + 719468, 146097);
    var doy;
    y, doy := YearOfEraExists(n + 719468 - era * 146097);
    MonthExists(doy);
    sm := (5 * doy + 2) / 153;
    day := doy - MonthOffset(sm) + 1;
    MonthRecovered(sm, day);
  }

  lemma RoundTripFromDays(n: int)
    ensures ValidDate(CivilFromDays(n))
    ensures DayNumber(CivilFromDays(n)) == n
  {
    var era, y, sm, day := DayParts(n);
    Recompose(n, era, y, sm, day);
    PartsAreValid(era, y, sm, day);
    NumberOfParts(Date(YearOf(era, y, sm), MonthOf(sm), day), era, y, sm);
  }

  lemma NextIsValid(d: Date)
    requires ValidDate(d)
    ensures ValidDate(NextDate(d))
  {
  }

  /** The next calendar date is always exactly one day number later. */
  lemma NextDayIsOneMore(d: Date)
    requires ValidDate(d)
    ensures ValidDate(NextDate(d))
    ensures DayNumber(NextDate(d)) == DayNumber(d) + 1
  {
    NextIsValid(d);
    var era, y, sm := Decompose(d);
    MonthLengths(d.year, d.month);
    if d.day < DaysInMonth(d.year, d.month) {
      NumberOfParts(NextDate(d), era, y, sm);
    } else if sm < 11 {
      NumberOfParts(NextDate(d), era, y, sm + 1);
    } else {
      EndOfFebruary(d.year, era, y);
    }
  }

  lemma EndOfFebruary(year: int, era: int, y: int)
    requires 0 <= y < 400 && era * 400 + y == year - 1
    ensures DayNumber(Date(year, 3, 1)) == DayNumber(Date(year, 2, DaysInMonth(year, 2))) + 1
  {
    LeapIsLong(year, era, y);
    NumberOfParts(Date(year, 2, DaysInMonth(year, 2)), era, y, 11);
    if y == 399 {
      NumberOfParts(Date(year, 3, 1), era + 1, 0, 0);
    } else {
      EraDaysStep(y);
      NumberOfParts(Date(year, 3, 1), era, y + 1, 0);
    }
  }

  lemma PrevUndoesNext(d: Date)
    requires ValidDate(d)
    ensures ValidDate(PrevDate(d)) && NextDate(PrevDate(d)) == d
  {
  }

  lemma WalkSteps(n: int)
    ensures NextDate(Walk(n)) == Walk(n + 1)
  {
    if n < 0 {
      PrevUndoesNext(Walk(n + 1));
    }
  }

  lemma {:induction false} WalkNumber(n: int)
    ensures DayNumber(Walk(n)) == n
    decreases if n < 0 then -n else n
  {
    if n == 0 {
      assert Walk(0) == Date(1970, 1, 1);
    } else {
      var m := if n > 0 then n - 1 else n + 1;
      WalkNumber(m);
      var lower := if n > 0 then m else n;
      WalkSteps(lower);
      NextDayIsOneMore(Walk(lower));
    }
  }

  /** The inverse conversion is the naive calendar walk, in both directions from the epoch. */
  lemma WalkAgrees(n: int)
    ensures DayNumber(Walk(n)) == n
    ensures CivilFromDays(n) == Walk(n)
  {
    WalkNumber(n);
    RoundTripFromDate(Walk(n));
  }

  /** Every valid date is reached by the walk, at its own day number. */
  lemma EveryDateIsWalked(d: Date)
    requires ValidDate(d)
    ensures Walk(DayNumber(d)) == d
  {
    WalkAgrees(DayNumber(d));
    RoundTripFromDate(d);
  }

  lemma NextIsLater(d: Date)
    requires ValidDate(d)
    ensures Earlier(d, NextDate(d))
  {
  }

  lemma {:induction false} WalkIsOrdered(m: int, n: int)
    requires m < n
    ensures Earlier(Walk(m), Walk(n))
    decreases n - m
  {
    var prev := Walk(n - 1);
    WalkSteps(n - 1);
    NextIsLater(prev);
    if m < n - 1 {
      WalkIsOrdered(m, n - 1);
    }
  }

  /** Day numbers order dates exactly as the calendar does. */
  lemma DayNumberIsMonotone(a: Date, b: Date)
    requires ValidDate(a) && ValidDate(b)
    ensures Earlier(a, b) <==> DayNumber(a) < DayNumber(b)
    ensures a == b <==> DayNumber(a) == DayNumber(b)
  {
    var m, n := DayNumber(a), DayNumber(b);
    EveryDateIsWalked(a);
    EveryDateIsWalked(b);
    if m < n {
      WalkIsOrdered(m, n);
    } else if n < m {
      WalkIsOrdered(n, m);
    }
  }

  lemma TryIsDefinedOnValidDates(year: int, month: nat, day: nat)
    ensures TryDaysFromCivil(year, month, day).Some? <==> ValidDate(Date(year, month, day))
    ensures ValidDate(Date(year, month, day)) ==>
              Walk(TryDaysFromCivil(year, month, day).value) == Date(year, month, day)
  {
    if ValidDate(Date(year, month, day)) {
      EveryDateIsWalked(Date(year, month, day));
    }
  }

  /** The clamping conversion never leaves the calendar: its result is the number of a real date. */
  lemma ClampedDateIsNearest(year: int, month: nat, day: nat)
    ensures var m := Clamp(month, 1, 12);
            var d := Clamp(day, 1, DaysInMonth(year, m));
            Walk(DaysFromCivil(year, month, day)) == Date(year, m, d)
  {
    var m := Clamp(month, 1, 12);
    var d := Clamp(day, 1, DaysInMonth(year, m));
    EveryDateIsWalked(Date(year, m, d));
  }
}
