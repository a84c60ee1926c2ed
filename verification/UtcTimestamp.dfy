/**
 * Timestamps of `scripts/validate_governance_state.py`: second-precision UTC instants of the years 2000 to 2099
 * in the form of RFC 3339, section 5.6. The program compares some of them as strings and others as instants.
 */
module UtcTimestamp {
  import opened Ordering

  datatype DateTime = DateTime(year: nat, month: nat, day: nat, hour: nat, minute: nat, second: nat) {
    predicate IsReal() {
      && 2000 <= year <= 2099
      && 1 <= month <= 12
      && 1 <= day <= DaysInMonth(year, month)
      && hour <= 23 && minute <= 59 && second <= 59
    }

    /** Order by the fields, which is how Python compares two datetimes. */
    predicate Leq(other: DateTime) {
      if year != other.year then year < other.year
      else if month != other.month then month < other.month
      else if day != other.day then day < other.day
      else if hour != other.hour then hour < other.hour
      else if minute != other.minute then minute < other.minute
      else second <= other.second
    }

    /** Seconds since the start of 2000. */
    function Instant(): int {
      ((DayNumber(year, month, day) * 24 + hour) * 60 + minute) * 60 + second
    }
  }

  predicate IsLeap(year: nat) {
    year % 4 == 0 && (year % 100 != 0 || year % 400 == 0)
  }

  function DaysInMonth(year: nat, month: nat): nat {
    if month == 2 then (if IsLeap(year) then 29 else 28)
    else if month == 4 || month == 6 || month == 9 || month == 11 then 30
    else 31
  }

  function DaysBeforeMonth(year: nat, month: nat): nat {
    if month <= 1 then 0 else DaysBeforeMonth(year, month - 1) + DaysInMonth(year, month - 1)
  }

  function DaysBeforeYear(year: nat): nat {
    if year <= 2000 then 0 else DaysBeforeYear(year - 1) + DaysBeforeMonth(year - 1, 13)
  }

  function DayNumber(year: nat, month: nat, day: nat): int {
    DaysBeforeYear(year) + DaysBeforeMonth(year, month) + day - 1
  }

  // ----- seconds and days -----

  /** What a clock shows one second later. */
  function NextSecond(t: DateTime): DateTime {
    if t.second < 59 then t.(second := t.second + 1)
    else if t.minute < 59 then t.(minute := t.minute + 1, second := 0)
    else if t.hour < 23 then t.(hour := t.hour + 1, minute := 0, second := 0)
    else if t.day < DaysInMonth(t.year, t.month) then DateTime(t.year, t.month, t.day + 1, 0, 0, 0)
    else if t.month < 12 then DateTime(t.year, t.month + 1, 1, 0, 0, 0)
    else DateTime(t.year + 1, 1, 1, 0, 0, 0)
  }

  lemma MonthStep(year: nat, month: nat)
    requires month >= 1
    ensures DaysBeforeMonth(year, month + 1) == DaysBeforeMonth(year, month) + DaysInMonth(year, month)
    ensures DaysBeforeMonth(year, 1) == 0
  {
  }

  lemma YearStep(year: nat)
    requires year >= 2000
    ensures DaysBeforeYear(year + 1) == DaysBeforeYear(year) + DaysBeforeMonth(year, 13)
    ensures DaysBeforeYear(2000) == 0
  {
  }

  /** After midnight it is the next day. */
  lemma NextDay(t: DateTime)
    requires t.IsReal()
    ensures var next := NextSecond(t);
      DayNumber(next.year, next.month, next.day) == DayNumber(t.year, t.month, t.day)
        + if t.hour == 23 && t.minute == 59 && t.second == 59 then 1 else 0
  {
    MonthStep(t.year, t.month);
    MonthStep(t.year + 1, 1);
    YearStep(t.year);
  }

  lemma SecondsOfDay(t: DateTime)
    requires t.IsReal()
    ensures var next := NextSecond(t);
      (next.hour * 60 + next.minute) * 60 + next.second
      == if t.hour == 23 && t.minute == 59 && t.second == 59 then 0
         else (t.hour * 60 + t.minute) * 60 + t.second + 1
  {
  }

  /** Instants count seconds, one by one, from the start of 2000. */
  lemma InstantsCountSeconds(t: DateTime)
    requires t.IsReal()
    ensures NextSecond(t).Instant() == t.Instant() + 1
    ensures NextSecond(t).IsReal() || NextSecond(t) == DateTime(2100, 1, 1, 0, 0, 0)
    ensures DateTime(2000, 1, 1, 0, 0, 0).Instant() == 0
  {
    NextDay(t);
    SecondsOfDay(t);
    MonthStep(2000, 1);
    YearStep(2000);
  }

  lemma LeapYears(year: nat)
    requires 2000 <= year <= 2099
    ensures IsLeap(year) <==> year % 4 == 0
    ensures (year - 1996) / 4 == (year - 1997) / 4 + if IsLeap(year) then 1 else 0
  {
  }

  lemma {:induction false} DaysOfYears(year: nat)
    requires 2000 <= year <= 2100
    ensures DaysBeforeYear(year) == 365 * (year - 2000) + (year - 1997) / 4
    decreases year
  {
    YearStep(2000);
    if year > 2000 {
      YearStep(year - 1);
      DaysOfYears(year - 1);
      DaysOfMonths(year - 1, 13);
      LeapYears(year - 1);
    }
  }

  lemma {:induction false} DaysOfMonths(year: nat, month: nat)
    requires 1 <= month <= 13
    ensures DaysBeforeMonth(year, month) ==
      if month <= 2 then 31 * (month - 1) else (153 * (month - 3) + 2) / 5 + (if IsLeap(year) then 60 else 59)
    decreases month
  {
    if month > 1 {
      DaysOfMonths(year, month - 1);
    }
  }

  /** The days of these years in closed form: a leap day every fourth year, and months of 30.6 days from March on. */
  lemma DaysInClosedForm(t: DateTime)
    requires t.IsReal()
    ensures DayNumber(t.year, t.month, t.day) ==
      if t.month <= 2 then 365 * (t.year - 2000) + (t.year - 1997) / 4 + 31 * (t.month - 1) + t.day - 1
      else 365 * (t.year - 2000) + (t.year - 1996) / 4 + (153 * (t.month - 3) + 2) / 5 + 59 + t.day - 1
  {
    DaysOfYears(t.year);
    DaysOfMonths(t.year, t.month);
    LeapYears(t.year);
  }

  // ----- the text form -----

  predicate IsDigit(c: char) {
    '0' <= c <= '9'
  }

  /** Two digits from place `i` on. */
  predicate AreDigits(s: string, i: nat) {
    i + 2 <= |s| && IsDigit(s[i]) && IsDigit(s[i + 1])
  }

  function Two(s: string, i: nat): nat
    requires AreDigits(s, i)
  {
    (s[i] as int - '0' as int) * 10 + (s[i + 1] as int - '0' as int)
  }

  /** Digits and punctuation in their places. */
  predicate HasShape(s: string) {
    && |s| == 20
    && AreDigits(s, 0) && AreDigits(s, 2) && AreDigits(s, 5) && AreDigits(s, 8)
    && AreDigits(s, 11) && AreDigits(s, 14) && AreDigits(s, 17)
    && s[4] == '-' && s[7] == '-' && s[10] == 'T' && s[13] == ':' && s[16] == ':' && s[19] == 'Z'
  }

  function FieldsOf(s: string): DateTime
    requires HasShape(s)
  {
    DateTime(100 * Two(s, 0) + Two(s, 2), Two(s, 5), Two(s, 8), Two(s, 11), Two(s, 14), Two(s, 17))
  }

  /** `require_utc_timestamp`: the pattern first, then the calendar. */
  predicate IsTimestamp(s: string) {
    && HasShape(s)
    && s[0] == '2' && s[1] == '0'
    && 1 <= Two(s, 5) <= 12 && 1 <= Two(s, 8) <= 31 && Two(s, 11) <= 23
    && s[14] <= '5' && s[17] <= '5'
    && Two(s, 8) <= DaysInMonth(FieldsOf(s).year, FieldsOf(s).month)
  }

  function Print2(n: nat): string
    requires n < 100
  {
    [('0' as int + n / 10) as char, ('0' as int + n % 10) as char]
  }

  function Format(t: DateTime): string
    requires t.IsReal()
  {
    Print2(t.year / 100) + Print2(t.year % 100) + "-" + Print2(t.month) + "-" + Print2(t.day) + "T"
    + Print2(t.hour) + ":" + Print2(t.minute) + ":" + Print2(t.second) + "Z"
  }

  lemma DigitsOfTwo(s: string, i: nat)
    requires AreDigits(s, i)
    ensures Two(s, i) < 100 && Print2(Two(s, i)) == [s[i], s[i + 1]]
  {
  }

  /** The accepted strings are exactly the printed forms of the real instants, one for each. */
  lemma TimestampsAreInstants(s: string)
    ensures IsTimestamp(s) <==> exists t: DateTime :: t.IsReal() && Format(t) == s
    ensures IsTimestamp(s) ==> FieldsOf(s).IsReal() && Format(FieldsOf(s)) == s
  {
    if IsTimestamp(s) {
      PrintOfFields(s);
    }
    if t: DateTime :| t.IsReal() && Format(t) == s {
      FieldsOfPrint(t);
    }
  }

  lemma PiecesOfShape(s: string)
    requires HasShape(s)
    ensures s == [s[0], s[1]] + [s[2], s[3]] + "-" + [s[5], s[6]] + "-" + [s[8], s[9]] + "T"
              + [s[11], s[12]] + ":" + [s[14], s[15]] + ":" + [s[17], s[18]] + "Z"
  {
  }

  lemma PrintOfFields(s: string)
    requires IsTimestamp(s)
    ensures FieldsOf(s).IsReal() && Format(FieldsOf(s)) == s
  {
    PiecesOfShape(s);
    DigitsOfTwo(s, 0);
    DigitsOfTwo(s, 2);
    DigitsOfTwo(s, 5);
    DigitsOfTwo(s, 8);
    DigitsOfTwo(s, 11);
    DigitsOfTwo(s, 14);
    DigitsOfTwo(s, 17);
    assert FieldsOf(s).year / 100 == Two(s, 0) && FieldsOf(s).year % 100 == Two(s, 2);
  }

  lemma FieldsOfPrint(t: DateTime)
    requires t.IsReal()
    ensures IsTimestamp(Format(t)) && FieldsOf(Format(t)) == t
  {
  }

  // ----- string order -----

  predicate CharLeq(a: char, b: char) {
    a <= b
  }

  /** Python's `a <= b` on strings. */
  predicate StringLeq(a: string, b: string) {
    LexLeq(CharLeq, a, b)
  }

  lemma LexFrom(a: string, b: string, i: nat)
    requires |a| == |b| && i < |a|
    ensures StringLeq(a[i..], b[i..]) == if a[i] == b[i] then StringLeq(a[i + 1..], b[i + 1..]) else a[i] <= b[i]
  {
    assert a[i..][1..] == a[i + 1..] && b[i..][1..] == b[i + 1..];
  }

  lemma LexTwo(a: string, b: string, i: nat)
    requires |a| == |b| && AreDigits(a, i) && AreDigits(b, i)
    ensures StringLeq(a[i..], b[i..]) ==
      if Two(a, i) == Two(b, i) then StringLeq(a[i + 2..], b[i + 2..]) else Two(a, i) < Two(b, i)
  {
    LexFrom(a, b, i);
    LexFrom(a, b, i + 1);
  }

  lemma TimeOfDayOrder(a: string, b: string)
    requires HasShape(a) && HasShape(b)
    ensures var x, y := FieldsOf(a), FieldsOf(b);
      StringLeq(a[11..], b[11..]) ==
        if x.hour != y.hour then x.hour < y.hour
        else if x.minute != y.minute then x.minute < y.minute
        else x.second <= y.second
  {
    LexTwo(a, b, 11);
    LexFrom(a, b, 13);
    LexTwo(a, b, 14);
    LexFrom(a, b, 16);
    LexTwo(a, b, 17);
    LexFrom(a, b, 19);
    assert a[20..] == [] == b[20..];
  }

  lemma StringOrderIsFieldOrder(a: string, b: string)
    requires HasShape(a) && HasShape(b)
    ensures StringLeq(a, b) <==> FieldsOf(a).Leq(FieldsOf(b))
  {
    assert a[0..] == a && b[0..] == b;
    LexTwo(a, b, 0);
    LexTwo(a, b, 2);
    LexFrom(a, b, 4);
    LexTwo(a, b, 5);
    LexFrom(a, b, 7);
    LexTwo(a, b, 8);
    LexFrom(a, b, 10);
    TimeOfDayOrder(a, b);
  }

  // ----- order of instants -----

  lemma {:induction false} MonthsAreDisjoint(year: nat, m: nat, n: nat)
    requires 1 <= m < n
    ensures DaysBeforeMonth(year, m) + DaysInMonth(year, m) <= DaysBeforeMonth(year, n)
    decreases n
  {
    if m < n - 1 {
      MonthsAreDisjoint(year, m, n - 1);
    }
  }

  lemma {:induction false} YearsAreDisjoint(y: nat, z: nat)
    requires 2000 <= y < z
    ensures DaysBeforeYear(y) + DaysBeforeMonth(y, 13) <= DaysBeforeYear(z)
    decreases z
  {
    if y < z - 1 {
      YearsAreDisjoint(y, z - 1);
    }
  }

  lemma EarlierDay(a: DateTime, b: DateTime)
    requires a.IsReal() && b.IsReal()
    requires a.year < b.year || (a.year == b.year && a.month < b.month)
    ensures DayNumber(a.year, a.month, a.day) < DayNumber(b.year, b.month, b.day)
  {
    MonthsAreDisjoint(a.year, a.month, 13);
    if a.year < b.year {
      YearsAreDisjoint(a.year, b.year);
    } else {
      MonthsAreDisjoint(a.year, a.month, b.month);
    }
  }

  lemma FieldOrderIsInstantOrder(a: DateTime, b: DateTime)
    requires a.IsReal() && b.IsReal()
    ensures a.Leq(b) <==> a.Instant() <= b.Instant()
  {
    var x, y := DayNumber(a.year, a.month, a.day), DayNumber(b.year, b.month, b.day);
    if a.year != b.year || a.month != b.month {
      if a.year < b.year || (a.year == b.year && a.month < b.month) {
        EarlierDay(a, b);
      } else {
        EarlierDay(b, a);
      }
    }
    assert a.Leq(b) <==>
      if x != y then x < y
      else (a.hour * 60 + a.minute) * 60 + a.second <= (b.hour * 60 + b.minute) * 60 + b.second;
  }

  /** The instant a timestamp names, in seconds since the start of 2000. */
  function InstantOf(s: string): int
    requires IsTimestamp(s)
  {
    FieldsOf(s).Instant()
  }

  /**
   * For accepted timestamps, comparing the strings, comparing the parsed fields and comparing the instants in
   * seconds all agree, leap years included, and equal instants are equal strings.
   */
  lemma OrdersAgree(a: string, b: string)
    requires IsTimestamp(a) && IsTimestamp(b)
    ensures StringLeq(a, b) <==> FieldsOf(a).Leq(FieldsOf(b))
    ensures StringLeq(a, b) <==> InstantOf(a) <= InstantOf(b)
    ensures a == b <==> InstantOf(a) == InstantOf(b)
  {
    TimestampsAreInstants(a);
    TimestampsAreInstants(b);
    StringOrderIsFieldOrder(a, b);
    StringOrderIsFieldOrder(b, a);
    FieldOrderIsInstantOrder(FieldsOf(a), FieldsOf(b));
    FieldOrderIsInstantOrder(FieldsOf(b), FieldsOf(a));
    if InstantOf(a) == InstantOf(b) {
      assert FieldsOf(a) == FieldsOf(b);
    }
  }
}
