/** Snapshot names: a sortable UTC time stamp with an optional label. Instants are nanoseconds
    since the start of year 0 in the proleptic Gregorian calendar, as Go's UTC clock shows them. */
module SnapshotNames {
  import opened Prelude
  import opened StringOrder

  const STAMP_LENGTH: nat := 25

  // ---------------------------------------------------------------- the calendar

  datatype Civil = Civil(year: nat, month: nat, day: nat, hour: nat, minute: nat, second: nat, nanos: nat)

  predicate Leap(year: nat) {
    year % 4 == 0 && (year % 100 != 0 || year % 400 == 0)
  }

  function DaysIn(year: nat, month: nat): (days: nat)
    ensures 28 <= days <= 31
  {
    if month == 2 then (if Leap(year) then 29 else 28)
    else if month in {4, 6, 9, 11} then 30
    else 31
  }

  function DaysBeforeMonth(year: nat, month: nat): nat {
    if month <= 1 then 0 else DaysBeforeMonth(year, month - 1) + DaysIn(year, month - 1)
  }

  function DaysBeforeYear(year: nat): nat {
    if year == 0 then 0 else DaysBeforeYear(year - 1) + DaysBeforeMonth(year - 1, 13)
  }

  predicate Valid(c: Civil) {
    && c.year < 10_000 && 1 <= c.month <= 12 && 1 <= c.day <= DaysIn(c.year, c.month)
    && c.hour < 24 && c.minute < 60 && c.second < 60 && c.nanos < 1_000_000_000
  }

  function DayNumber(c: Civil): nat
    requires Valid(c)
  {
    DaysBeforeYear(c.year) + DaysBeforeMonth(c.year, c.month) + c.day - 1
  }

  function TimeOfDay(c: Civil): (t: nat)
    requires Valid(c)
    ensures t < 86_400_000_000_000
  {
    ((c.hour * 60 + c.minute) * 60 + c.second) * 1_000_000_000 + c.nanos
  }

  function Instant(c: Civil): nat
    requires Valid(c)
  {
    DayNumber(c) * 86_400_000_000_000 + TimeOfDay(c)
  }

  lemma NextMonth(year: nat, month: nat)
    requires month >= 1
    ensures DaysBeforeMonth(year, month + 1) == DaysBeforeMonth(year, month) + DaysIn(year, month)
  {
  }

  lemma YearLength(year: nat)
    ensures DaysBeforeMonth(year, 13) == if Leap(year) then 366 else 365
  {
    NextMonth(year, 1); NextMonth(year, 2); NextMonth(year, 3); NextMonth(year, 4);
    NextMonth(year, 5); NextMonth(year, 6); NextMonth(year, 7); NextMonth(year, 8);
    NextMonth(year, 9); NextMonth(year, 10); NextMonth(year, 11); NextMonth(year, 12);
  }

  /** How many years from the first up to this one are divisible by four, but not the hundreds, except every
      fourth. */
  function LeapYears(year: nat): int {
    year / 4 - year / 100 + year / 400
  }

  lemma OneMoreYear(year: nat)
    requires year > 0
    ensures LeapYears(year) == LeapYears(year - 1) + if Leap(year) then 1 else 0
  {
    assert year / 4 == (year - 1) / 4 + if year % 4 == 0 then 1 else 0;
    assert year / 100 == (year - 1) / 100 + if year % 100 == 0 then 1 else 0;
    assert year / 400 == (year - 1) / 400 + if year % 400 == 0 then 1 else 0;
  }

  /** The calendar is the Gregorian one: 365 days a year and one more for each leap year gone by, year 0
      among them. */
  lemma {:induction false} YearsAreGregorian(year: nat)
    requires year > 0
    ensures DaysBeforeYear(year) == 365 * year + LeapYears(year - 1) + 1
  {
    YearLength(year - 1);
    if year > 1 {
      YearsAreGregorian(year - 1);
      OneMoreYear(year - 1);
    } else {
      assert DaysBeforeYear(0) == 0;
    }
  }

  // Every instant has its civil reading.

  function YearFrom(day: nat, year: nat): (y: nat)
    requires DaysBeforeYear(year) <= day
    ensures DaysBeforeYear(y) <= day < DaysBeforeYear(y + 1)
    decreases day - DaysBeforeYear(year)
  {
    if day < DaysBeforeYear(year + 1) then year else YearFrom(day, year + 1)
  }

  function MonthFrom(year: nat, day: nat, month: nat): (m: nat)
    requires 1 <= month <= 12 && DaysBeforeMonth(year, month) <= day < DaysBeforeMonth(year, 13)
    ensures month <= m <= 12 && DaysBeforeMonth(year, m) <= day < DaysBeforeMonth(year, m) + DaysIn(year, m)
    decreases 12 - month
  {
    if month == 12 || day < DaysBeforeMonth(year, month + 1) then month else MonthFrom(year, day, month + 1)
  }

  /** The clock reading t nanoseconds into the given day. */
  function ClockOf(year: nat, month: nat, day: nat, t: nat): (c: Civil)
    requires year < 10_000 && 1 <= month <= 12 && 1 <= day <= DaysIn(year, month) && t < 86_400_000_000_000
    ensures Valid(c) && TimeOfDay(c) == t && c.year == year && c.month == month && c.day == day
  {
    var seconds := t / 1_000_000_000;
    var minutes := seconds / 60;
    Civil(year, month, day, minutes / 60, minutes % 60, seconds % 60, t % 1_000_000_000)
  }

  function DateOf(n: nat): (d: (nat, nat, nat))
    ensures 1 <= d.1 <= 12 && 1 <= d.2 <= DaysIn(d.0, d.1)
    ensures DaysBeforeYear(d.0) + DaysBeforeMonth(d.0, d.1) + d.2 - 1 == n
  {
    var year := YearFrom(n, 0);
    var inYear := n - DaysBeforeYear(year);
    var month := MonthFrom(year, inYear, 1);
    (year, month, inYear - DaysBeforeMonth(year, month) + 1)
  }

  predicate FourDigitYear(t: int) {
    0 <= t && DateOf(t / 86_400_000_000_000).0 < 10_000
  }

  function CivilOf(t: int): (c: Civil)
    requires FourDigitYear(t)
    ensures Valid(c) && Instant(c) == t
  {
    var d := DateOf(t / 86_400_000_000_000);
    ClockOf(d.0, d.1, d.2, t % 86_400_000_000_000)
  }

  // ---------------------------------------------------------------- field order is time order

  predicate DateLess(c: Civil, d: Civil) {
    c.year < d.year || (c.year == d.year && (c.month < d.month || (c.month == d.month && c.day < d.day)))
  }

  predicate ClockLess(c: Civil, d: Civil) {
    c.hour < d.hour || (c.hour == d.hour && (c.minute < d.minute || (c.minute == d.minute &&
    (c.second < d.second || (c.second == d.second && c.nanos < d.nanos)))))
  }

  predicate SameDate(c: Civil, d: Civil) {
    c.year == d.year && c.month == d.month && c.day == d.day
  }

  predicate CivilLess(c: Civil, d: Civil) {
    DateLess(c, d) || (SameDate(c, d) && ClockLess(c, d))
  }

  lemma {:induction false} MonthsGrow(year: nat, a: nat, b: nat)
    requires 1 <= a < b
    ensures DaysBeforeMonth(year, a) + DaysIn(year, a) <= DaysBeforeMonth(year, b)
    decreases b - a
  {
    if a + 1 < b {
      MonthsGrow(year, a, b - 1);
    }
  }

  lemma {:induction false} YearsGrow(a: nat, b: nat)
    requires a <= b
    ensures DaysBeforeYear(a) <= DaysBeforeYear(b)
    decreases b - a
  {
    if a < b {
      YearsGrow(a, b - 1);
    }
  }

  lemma DateOrder(c: Civil, d: Civil)
    requires Valid(c) && Valid(d) && DateLess(c, d)
    ensures DayNumber(c) < DayNumber(d)
  {
    MonthsGrow(c.year, c.month, 13);
    if c.year < d.year {
      YearsGrow(c.year + 1, d.year);
    } else if c.month < d.month {
      MonthsGrow(c.year, c.month, d.month);
    }
  }

  lemma ClockOrder(c: Civil, d: Civil)
    requires Valid(c) && Valid(d)
    ensures ClockLess(c, d) <==> TimeOfDay(c) < TimeOfDay(d)
  {
  }

  /** Comparing the fields from the year down is comparing the instants. */
  lemma InstantOrder(c: Civil, d: Civil)
    requires Valid(c) && Valid(d)
    ensures CivilLess(c, d) <==> Instant(c) < Instant(d)
  {
    ClockOrder(c, d);
    if DateLess(c, d) {
      DateOrder(c, d);
    } else if DateLess(d, c) {
      DateOrder(d, c);
    }
  }

  lemma SameInstant(c: Civil, d: Civil)
    requires Valid(c) && Valid(d) && Instant(c) == Instant(d)
    ensures c == d
  {
    InstantOrder(c, d);
    InstantOrder(d, c);
  }

  lemma DayOfInstant(c: Civil)
    requires Valid(c)
    ensures Instant(c) / 86_400_000_000_000 == DayNumber(c)
  {
    var d, t := DayNumber(c), TimeOfDay(c);
    assert Instant(c) == d * 86_400_000_000_000 + t;
  }

  lemma DayInItsYear(c: Civil)
    requires Valid(c)
    ensures DayNumber(c) < DaysBeforeYear(c.year + 1)
  {
    MonthsGrow(c.year, c.month, 13);
  }

  /** And the reading of a valid one's instant is that very one. */
  lemma CivilIsUnique(c: Civil)
    requires Valid(c)
    ensures FourDigitYear(Instant(c)) && CivilOf(Instant(c)) == c
  {
    DayOfInstant(c);
    DayInItsYear(c);
    var year := DateOf(DayNumber(c)).0;
    if year > c.year {
      YearsGrow(c.year + 1, year);
    }
    SameInstant(CivilOf(Instant(c)), c);
  }

  // ---------------------------------------------------------------- digits

  predicate Digits(s: string) {
    forall i :: 0 <= i < |s| ==> '0' <= s[i] <= '9'
  }

  function Digit(n: nat): char
    requires n < 10
  {
    '0' + n as char
  }

  /** The last w decimal digits of n, zero-padded. */
  function Pad(n: nat, w: nat): (s: string)
    ensures |s| == w && Digits(s)
  {
    if w == 0 then "" else Pad(n / 10, w - 1) + [Digit(n % 10)]
  }

  function Number(s: string): nat
    requires Digits(s)
  {
    if s == "" then 0 else Number(s[..|s| - 1]) * 10 + (s[|s| - 1] - '0') as nat
  }

  function Pow10(w: nat): nat {
    if w == 0 then 1 else 10 * Pow10(w - 1)
  }

  lemma {:induction false} NumberOfPad(n: nat, w: nat)
    requires n < Pow10(w)
    ensures Number(Pad(n, w)) == n
  {
    if w > 0 {
      NumberOfPad(n / 10, w - 1);
      assert Pad(n, w)[..w - 1] == Pad(n / 10, w - 1);
    }
  }

  // ---------------------------------------------------------------- digit order

  lemma {:induction false} PadOrder(n: nat, m: nat, w: nat)
    requires n < Pow10(w) && m < Pow10(w)
    ensures StrLess(Pad(n, w), Pad(m, w)) <==> n < m
    ensures Pad(n, w) == Pad(m, w) <==> n == m
  {
    NumberOfPad(n, w);
    NumberOfPad(m, w);
    if w > 0 {
      PadOrder(n / 10, m / 10, w - 1);
      LastDigitOrder(n, m);
      StrLessAppend(Pad(n / 10, w - 1), [Digit(n % 10)], Pad(m / 10, w - 1), [Digit(m % 10)]);
    }
  }

  lemma LastDigitOrder(n: nat, m: nat)
    ensures n < m <==> n / 10 < m / 10 || (n / 10 == m / 10 && n % 10 < m % 10)
    ensures StrLess([Digit(n % 10)], [Digit(m % 10)]) <==> n % 10 < m % 10
  {
  }

  // ---------------------------------------------------------------- names

  predicate ValidLabel(tag: string) {
    |tag| <= 64 && forall i :: 0 <= i < |tag| ==> LabelChar(tag[i])
  }

  predicate LabelChar(c: char) {
    'A' <= c <= 'Z' || 'a' <= c <= 'z' || '0' <= c <= '9' || c == '_' || c == '-'
  }

  function ClockText(c: Civil): (s: string)
    ensures |s| == 16
  {
    Pad(c.hour, 2) + (Pad(c.minute, 2) + (Pad(c.second, 2) + ("." + Pad(c.nanos, 9))))
  }

  /** The layout 20060102-150405.000000000. */
  function Stamp(c: Civil): (s: string)
    ensures |s| == STAMP_LENGTH
  {
    Pad(c.year, 4) + (Pad(c.month, 2) + (Pad(c.day, 2) + ("-" + ClockText(c))))
  }

  /** The name Create gives a snapshot taken at instant t. */
  function Name(t: int, tag: string): string
    requires FourDigitYear(t)
  {
    Stamp(CivilOf(t)) + if tag == "" then "" else "-" + tag
  }

  // ---------------------------------------------------------------- reading a name back

  datatype Entry = Entry(name: string, tag: string, time: int)

  function Field(s: string): Option<nat> {
    if Digits(s) then Some(Number(s)) else None
  }

  /** The nine characters after the fraction mark: Go's parser lets them open with a sign. */
  function Fraction(s: string): Option<nat> {
    if Digits(s) then Some(Number(s))
    else if s == "" || !Digits(s[1..]) then None
    else if s[0] == '+' || (s[0] == '-' && Number(s[1..]) == 0) then Some(Number(s[1..]))
    else None
  }

  /** time.ParseInLocation with the layout above, in UTC. */
  function ParseStamp(s: string): (r: Option<Civil>)
    requires |s| == STAMP_LENGTH
    ensures r.Some? ==> Valid(r.value)
  {
    var year, month, day := Field(s[..4]), Field(s[4..6]), Field(s[6..8]);
    var hour, minute, second, nanos := Field(s[9..11]), Field(s[11..13]), Field(s[13..15]), Fraction(s[16..]);
    if s[8] != '-' || s[15] !in ".," then None
    else if year.None? || month.None? || day.None? || hour.None? || minute.None? || second.None? || nanos.None?
    then None
    else
      var c := Civil(year.value, month.value, day.value, hour.value, minute.value, second.value, nanos.value);
      if Valid(c) then Some(c) else None
  }

  function TrimDash(s: string): string {
    if s != "" && s[0] == '-' then s[1..] else s
  }

  function ParseName(name: string): Option<Entry> {
    if |name| < STAMP_LENGTH then None
    else
      match ParseStamp(name[..STAMP_LENGTH])
      case None => None
      case Some(c) => Some(Entry(name, TrimDash(name[STAMP_LENGTH..]), Instant(c)))
  }

  // ---------------------------------------------------------------- bare names

  function TrimSlashes(s: string): string {
    if s != "" && s[|s| - 1] == '/' then TrimSlashes(s[..|s| - 1]) else s
  }

  function AfterSlash(s: string): string {
    if s == "" || s[|s| - 1] == '/' then "" else AfterSlash(s[..|s| - 1]) + [s[|s| - 1]]
  }

  /** filepath.Base. */
  function Base(s: string): string {
    if s == "" then "."
    else if TrimSlashes(s) == "" then "/"
    else AfterSlash(TrimSlashes(s))
  }

  predicate ValidateName(name: string) {
    name != "" && name != "." && name != ".." && name == Base(name)
  }

  lemma {:induction false} AfterSlashBare(s: string)
    ensures '/' !in AfterSlash(s) && |AfterSlash(s)| <= |s|
    ensures '/' !in s ==> AfterSlash(s) == s && TrimSlashes(s) == s
  {
    if s != "" {
      AfterSlashBare(s[..|s| - 1]);
      assert s == s[..|s| - 1] + [s[|s| - 1]];
    }
  }

  lemma {:induction false} TrimSlashesEnds(s: string)
    ensures TrimSlashes(s) == "" || TrimSlashes(s)[|TrimSlashes(s)| - 1] != '/'
    ensures s == "/" <==> TrimSlashes(s) == "" && s != "" && |s| == 1
  {
    if s != "" {
      TrimSlashesEnds(s[..|s| - 1]);
    }
  }

  /** validateName lets through the single path components, and the lone slash: filepath.Base
      returns "/" unchanged. It is parseName that stops that one. */
  lemma ValidateNameExactly(name: string)
    ensures ValidateName(name) <==>
      name == "/" || (name != "" && name != "." && name != ".." && '/' !in name)
    ensures ValidateName(name) && ParseName(name).Some? ==> '/' !in name
  {
    AfterSlashBare(name);
    AfterSlashBare(TrimSlashes(name));
    TrimSlashesEnds(name);
  }

  // ---------------------------------------------------------------- the round trip

  lemma StampFields(c: Civil)
    requires Valid(c)
    ensures var s := Stamp(c);
      && s[..4] == Pad(c.year, 4) && s[4..6] == Pad(c.month, 2) && s[6..8] == Pad(c.day, 2)
      && s[8] == '-' && s[9..] == ClockText(c)
  {
    var s := Stamp(c);
    var s1 := Pad(c.month, 2) + (Pad(c.day, 2) + ("-" + ClockText(c)));
    var s2 := Pad(c.day, 2) + ("-" + ClockText(c));
    assert s[..4] == Pad(c.year, 4) && s[4..] == s1;
    assert s[4..6] == s1[..2] == Pad(c.month, 2) && s[6..] == s1[2..] == s2;
    assert s[6..8] == s2[..2] == Pad(c.day, 2) && s[8..] == s2[2..] == "-" + ClockText(c);
    assert s[8] == s[8..][0] && s[9..] == s[8..][1..];
  }

  lemma ClockFields(c: Civil)
    requires Valid(c)
    ensures var s := ClockText(c);
      && s[..2] == Pad(c.hour, 2) && s[2..4] == Pad(c.minute, 2) && s[4..6] == Pad(c.second, 2)
      && s[6] == '.' && s[7..] == Pad(c.nanos, 9)
  {
    var s := ClockText(c);
    var s1 := Pad(c.minute, 2) + (Pad(c.second, 2) + ("." + Pad(c.nanos, 9)));
    var s2 := Pad(c.second, 2) + ("." + Pad(c.nanos, 9));
    assert s[..2] == Pad(c.hour, 2) && s[2..] == s1;
    assert s[2..4] == s1[..2] == Pad(c.minute, 2) && s[4..] == s1[2..] == s2;
    assert s[4..6] == s2[..2] == Pad(c.second, 2) && s[6..] == s2[2..] == "." + Pad(c.nanos, 9);
    assert s[6] == s[6..][0] && s[7..] == s[6..][1..];
  }

  lemma Widths()
    ensures Pow10(2) == 100 && Pow10(4) == 10_000 && Pow10(9) == 1_000_000_000
  {
    assert Pow10(2) == 100;
    assert Pow10(4) == 100 * Pow10(2);
    assert Pow10(6) == 100 * Pow10(4);
    assert Pow10(8) == 100 * Pow10(6);
  }

  lemma FieldOfPad(n: nat, w: nat)
    requires n < Pow10(w)
    ensures Field(Pad(n, w)) == Some(n) && Fraction(Pad(n, w)) == Some(n)
  {
    NumberOfPad(n, w);
  }

  lemma StampParts(c: Civil)
    requires Valid(c)
    ensures var s := Stamp(c);
      && s[9..11] == Pad(c.hour, 2) && s[11..13] == Pad(c.minute, 2) && s[13..15] == Pad(c.second, 2)
      && s[15] == '.' && s[16..] == Pad(c.nanos, 9)
  {
    StampFields(c);
    ClockFields(c);
    TailParts(Stamp(c), ClockText(c));
  }

  lemma TailParts(s: string, k: string)
    requires |s| == STAMP_LENGTH && s[9..] == k
    ensures s[9..11] == k[..2] && s[11..13] == k[2..4] && s[13..15] == k[4..6] && s[15] == k[6] && s[16..] == k[7..]
  {
  }

  lemma ParseOfParts(s: string, c: Civil)
    requires Valid(c) && |s| == STAMP_LENGTH && s[8] == '-' && s[15] == '.'
    requires s[..4] == Pad(c.year, 4) && s[4..6] == Pad(c.month, 2) && s[6..8] == Pad(c.day, 2)
    requires s[9..11] == Pad(c.hour, 2) && s[11..13] == Pad(c.minute, 2) && s[13..15] == Pad(c.second, 2)
    requires s[16..] == Pad(c.nanos, 9)
    ensures ParseStamp(s) == Some(c)
  {
    Widths();
    FieldOfPad(c.year, 4);
    FieldOfPad(c.month, 2);
    FieldOfPad(c.day, 2);
    FieldOfPad(c.hour, 2);
    FieldOfPad(c.minute, 2);
    FieldOfPad(c.second, 2);
    FieldOfPad(c.nanos, 9);
  }

  lemma StampRoundTrip(c: Civil)
    requires Valid(c)
    ensures ParseStamp(Stamp(c)) == Some(c)
  {
    StampFields(c);
    StampParts(c);
    ParseOfParts(Stamp(c), c);
  }

  predicate StampChar(c: char) {
    '0' <= c <= '9' || c == '-' || c == '.'
  }

  lemma StampChars(c: Civil)
    ensures forall i :: 0 <= i < STAMP_LENGTH ==> StampChar(Stamp(c)[i])
  {
  }

  lemma NameIsBare(stamp: string, rest: string)
    requires |stamp| == STAMP_LENGTH && forall i :: 0 <= i < |stamp| ==> StampChar(stamp[i])
    requires forall i :: 0 <= i < |rest| ==> LabelChar(rest[i])
    ensures ValidateName(stamp + rest)
  {
    var name := stamp + rest;
    forall i | 0 <= i < |name| ensures name[i] != '/' {
      assert i < STAMP_LENGTH ==> StampChar(stamp[i]);
      assert i >= STAMP_LENGTH ==> LabelChar(rest[i - STAMP_LENGTH]);
    }
    ValidateNameExactly(name);
  }

  /** Every name Create can build passes validateName, and parseName reads from it the very
      instant and label it was built from. */
  lemma NameRoundTrip(t: int, tag: string)
    requires FourDigitYear(t) && ValidLabel(tag)
    ensures ValidateName(Name(t, tag))
    ensures ParseName(Name(t, tag)) == Some(Entry(Name(t, tag), tag, t))
  {
    var stamp := Stamp(CivilOf(t));
    var rest := if tag == "" then "" else "-" + tag;
    StampRoundTrip(CivilOf(t));
    StampChars(CivilOf(t));
    assert (stamp + rest)[..STAMP_LENGTH] == stamp && (stamp + rest)[STAMP_LENGTH..] == rest;
    assert TrimDash(rest) == tag;
    assert forall i :: 1 <= i < |rest| ==> rest[i] == tag[i - 1] && LabelChar(tag[i - 1]);
    NameIsBare(stamp, rest);
  }

  // ---------------------------------------------------------------- exactly what parses

  lemma {:induction false} PadOfNumber(s: string)
    requires Digits(s)
    ensures Number(s) < Pow10(|s|) && Pad(Number(s), |s|) == s
  {
    if s != "" {
      var init := s[..|s| - 1];
      PadOfNumber(init);
      assert s == init + [s[|s| - 1]];
    }
  }

  lemma FieldExactly(s: string, n: nat)
    requires n < Pow10(|s|)
    ensures Field(s) == Some(n) <==> s == Pad(n, |s|)
  {
    NumberOfPad(n, |s|);
    if Digits(s) {
      PadOfNumber(s);
    }
  }

  /** The nine characters of the fraction, or eight behind a sign, with a minus for zero alone. */
  predicate Writes(s: string, nanos: nat) {
    s == Pad(nanos, |s|)
    || (s != "" && s[0] in "+-" && s[1..] == Pad(nanos, |s| - 1)
        && nanos < Pow10(|s| - 1) && (s[0] == '-' ==> nanos == 0))
  }

  lemma SignedFraction(s: string, n: nat)
    requires s != "" && !Digits(s)
    ensures Fraction(s) == Some(n) <==>
      && s[0] in "+-" && n < Pow10(|s| - 1) && s[1..] == Pad(n, |s| - 1) && (s[0] == '-' ==> n == 0)
  {
    var t := s[1..];
    if Digits(t) {
      PadOfNumber(t);
      if n < Pow10(|t|) {
        NumberOfPad(n, |t|);
      }
    }
  }

  lemma FractionExactly(s: string, n: nat)
    requires n < Pow10(|s|)
    ensures Fraction(s) == Some(n) <==> Writes(s, n)
  {
    if Digits(s) {
      FieldExactly(s, n);
    } else {
      assert s != Pad(n, |s|);
      SignedFraction(s, n);
    }
  }

  /** A stamp of this moment, but that a comma may stand for the point and a sign before the fraction. */
  ghost predicate Reads(s: string, c: Civil) {
    && |s| == STAMP_LENGTH
    && s[..15] == Stamp(c)[..15] && s[15] in ".," && Writes(s[16..], c.nanos)
  }

  lemma FirstParts(s: string, c: Civil)
    requires Valid(c) && |s| == STAMP_LENGTH
    ensures s[..15] == Stamp(c)[..15] <==>
      && s[..4] == Pad(c.year, 4) && s[4..6] == Pad(c.month, 2) && s[6..8] == Pad(c.day, 2) && s[8] == '-'
      && s[9..11] == Pad(c.hour, 2) && s[11..13] == Pad(c.minute, 2) && s[13..15] == Pad(c.second, 2)
  {
    StampFields(c);
    StampParts(c);
    SameParts(s, Stamp(c));
  }

  lemma SameParts(s: string, t: string)
    requires |s| == |t| == STAMP_LENGTH
    ensures s[..15] == t[..15] <==>
      && s[..4] == t[..4] && s[4..6] == t[4..6] && s[6..8] == t[6..8] && s[8] == t[8]
      && s[9..11] == t[9..11] && s[11..13] == t[11..13] && s[13..15] == t[13..15]
  {
    assert s[..15] == s[..4] + s[4..6] + s[6..8] + [s[8]] + s[9..11] + s[11..13] + s[13..15];
    assert t[..15] == t[..4] + t[4..6] + t[6..8] + [t[8]] + t[9..11] + t[11..13] + t[13..15];
    if s[..15] == t[..15] {
      assert s[..4] == s[..15][..4] && s[4..6] == s[..15][4..6] && s[6..8] == s[..15][6..8] && s[8] == s[..15][8];
      assert t[..4] == t[..15][..4] && t[4..6] == t[..15][4..6] && t[6..8] == t[..15][6..8] && t[8] == t[..15][8];
      assert s[9..11] == s[..15][9..11] && s[11..13] == s[..15][11..13] && s[13..15] == s[..15][13..15];
      assert t[9..11] == t[..15][9..11] && t[11..13] == t[..15][11..13] && t[13..15] == t[..15][13..15];
    }
  }

  lemma FieldsExactly(s: string, c: Civil)
    requires Valid(c) && |s| == STAMP_LENGTH
    ensures Field(s[..4]) == Some(c.year) <==> s[..4] == Pad(c.year, 4)
    ensures Field(s[4..6]) == Some(c.month) <==> s[4..6] == Pad(c.month, 2)
    ensures Field(s[6..8]) == Some(c.day) <==> s[6..8] == Pad(c.day, 2)
    ensures Field(s[9..11]) == Some(c.hour) <==> s[9..11] == Pad(c.hour, 2)
    ensures Field(s[11..13]) == Some(c.minute) <==> s[11..13] == Pad(c.minute, 2)
    ensures Field(s[13..15]) == Some(c.second) <==> s[13..15] == Pad(c.second, 2)
    ensures Fraction(s[16..]) == Some(c.nanos) <==> Writes(s[16..], c.nanos)
  {
    Widths();
    FieldExactly(s[..4], c.year);
    FieldExactly(s[4..6], c.month);
    FieldExactly(s[6..8], c.day);
    FieldExactly(s[9..11], c.hour);
    FieldExactly(s[11..13], c.minute);
    FieldExactly(s[13..15], c.second);
    FractionExactly(s[16..], c.nanos);
  }

  lemma ParseStampExactly(s: string, c: Civil)
    requires |s| == STAMP_LENGTH
    ensures ParseStamp(s) == Some(c) <==> Valid(c) && Reads(s, c)
  {
    if Valid(c) {
      FieldsExactly(s, c);
      FirstParts(s, c);
    }
  }

  /** The label behind a stamp, with the dash between them or without. */
  predicate LabelPart(rest: string, tag: string) {
    if "-" <= rest then rest == "-" + tag else rest == tag
  }

  lemma TrimDashExactly(rest: string, tag: string)
    ensures TrimDash(rest) == tag <==> LabelPart(rest, tag)
  {
  }

  lemma StampParsesExactly(stamp: string, t: int)
    requires |stamp| == STAMP_LENGTH
    ensures ParseStamp(stamp).Some? && Instant(ParseStamp(stamp).value) == t <==>
      FourDigitYear(t) && Reads(stamp, CivilOf(t))
  {
    var c := ParseStamp(stamp);
    if c.Some? {
      CivilIsUnique(c.value);
      ParseStampExactly(stamp, c.value);
    }
    if FourDigitYear(t) {
      ParseStampExactly(stamp, CivilOf(t));
    }
  }

  /** What parses as a snapshot's name: such a stamp, and then the label, behind a dash or not. */
  lemma ParseNameExactly(name: string, e: Entry)
    ensures ParseName(name) == Some(e) <==>
      && e.name == name && FourDigitYear(e.time) && |name| >= STAMP_LENGTH
      && Reads(name[..STAMP_LENGTH], CivilOf(e.time))
      && LabelPart(name[STAMP_LENGTH..], e.tag)
  {
    if |name| >= STAMP_LENGTH {
      TrimDashExactly(name[STAMP_LENGTH..], e.tag);
      StampParsesExactly(name[..STAMP_LENGTH], e.time);
    }
  }

  // ---------------------------------------------------------------- string order is time order

  lemma FieldOrder(n: nat, m: nat, w: nat, b: string, d: string)
    requires n < Pow10(w) && m < Pow10(w)
    ensures StrLess(Pad(n, w) + b, Pad(m, w) + d) <==> n < m || (n == m && StrLess(b, d))
  {
    PadOrder(n, m, w);
    StrLessAppend(Pad(n, w), b, Pad(m, w), d);
  }

  lemma MarkOrder(mark: char, b: string, d: string)
    ensures StrLess([mark] + b, [mark] + d) <==> StrLess(b, d)
  {
    StrLessAppend([mark], b, [mark], d);
    StrTrichotomy([mark], [mark]);
  }

  lemma ClockTextOrder(c: Civil, d: Civil)
    requires Valid(c) && Valid(d)
    ensures StrLess(ClockText(c), ClockText(d)) <==> ClockLess(c, d)
  {
    Widths();
    var c1, d1 := Pad(c.nanos, 9), Pad(d.nanos, 9);
    PadOrder(c.nanos, d.nanos, 9);
    MarkOrder('.', c1, d1);
    var c2, d2 := "." + c1, "." + d1;
    FieldOrder(c.second, d.second, 2, c2, d2);
    var c3, d3 := Pad(c.second, 2) + c2, Pad(d.second, 2) + d2;
    FieldOrder(c.minute, d.minute, 2, c3, d3);
    var c4, d4 := Pad(c.minute, 2) + c3, Pad(d.minute, 2) + d3;
    FieldOrder(c.hour, d.hour, 2, c4, d4);
  }

  lemma StampOrder(c: Civil, d: Civil)
    requires Valid(c) && Valid(d)
    ensures StrLess(Stamp(c), Stamp(d)) <==> CivilLess(c, d)
  {
    Widths();
    ClockTextOrder(c, d);
    MarkOrder('-', ClockText(c), ClockText(d));
    var c2, d2 := "-" + ClockText(c), "-" + ClockText(d);
    FieldOrder(c.day, d.day, 2, c2, d2);
    var c3, d3 := Pad(c.day, 2) + c2, Pad(d.day, 2) + d2;
    FieldOrder(c.month, d.month, 2, c3, d3);
    var c4, d4 := Pad(c.month, 2) + c3, Pad(d.month, 2) + d3;
    FieldOrder(c.year, d.year, 4, c4, d4);
  }

  /** Names of distinct instants sort as the instants do, whatever the labels. */
  lemma NameOrder(t: int, tag: string, u: int, other: string)
    requires FourDigitYear(t) && FourDigitYear(u) && t != u
    ensures StrLess(Name(t, tag), Name(u, other)) <==> t < u
  {
    var c, d := CivilOf(t), CivilOf(u);
    StampOrder(c, d);
    StampOrder(d, c);
    InstantOrder(c, d);
    StrTrichotomy(Stamp(c), Stamp(d));
    StrLessAppend(Stamp(c), Name(t, tag)[STAMP_LENGTH..], Stamp(d), Name(u, other)[STAMP_LENGTH..]);
    assert Name(t, tag) == Stamp(c) + Name(t, tag)[STAMP_LENGTH..];
    assert Name(u, other) == Stamp(d) + Name(u, other)[STAMP_LENGTH..];
    StampDiffers(c, d);
  }

  lemma StampDiffers(c: Civil, d: Civil)
    requires Valid(c) && Valid(d) && c != d
    ensures Stamp(c) != Stamp(d)
  {
    StampRoundTrip(c);
    StampRoundTrip(d);
  }

  // ---------------------------------------------------------------- listing

  datatype DirEntry = DirEntry(name: string, isDir: bool)

  function Kept(dir: seq<DirEntry>): seq<Entry> {
    if dir == [] then []
    else
      var before := Kept(dir[..|dir| - 1]);
      var e := dir[|dir| - 1];
      if !e.isDir then before
      else
        match ParseName(e.name)
        case None => before
        case Some(entry) => before + [entry]
  }

  predicate SortedByName(s: seq<Entry>) {
    forall i, j :: 0 <= i < j < |s| ==> !StrLess(s[j].name, s[i].name)
  }

  function Insert(e: Entry, s: seq<Entry>): (r: seq<Entry>)
    ensures multiset(r) == multiset(s) + multiset{e}
  {
    if s == [] then [e]
    else if StrLess(e.name, s[|s| - 1].name) then
      assert s == s[..|s| - 1] + [s[|s| - 1]];
      Insert(e, s[..|s| - 1]) + [s[|s| - 1]]
    else s + [e]
  }

  lemma {:induction false} InsertSorts(e: Entry, s: seq<Entry>)
    requires SortedByName(s)
    ensures SortedByName(Insert(e, s))
  {
    if s != [] {
      var init, last := s[..|s| - 1], s[|s| - 1];
      if StrLess(e.name, last.name) {
        InsertSorts(e, init);
        assert s == init + [last];
        var r := Insert(e, init);
        forall i | 0 <= i < |r| ensures !StrLess(last.name, r[i].name) {
          StrTrichotomy(last.name, e.name);
          assert r[i] in multiset(r);
          assert r[i] == e || r[i] in init;
        }
      } else {
        forall i | 0 <= i < |s| ensures !StrLess(e.name, s[i].name) {
          StrTrichotomy(e.name, last.name);
          if StrLess(e.name, s[i].name) {
            StrTrichotomy(s[i].name, last.name);
            if s[i].name != last.name {
              StrLessTransitive(e.name, s[i].name, last.name);
            }
          }
        }
      }
    }
  }

  /** List: the directories with a snapshot's name, sorted by name. */
  method List(dir: seq<DirEntry>) returns (out: seq<Entry>)
    ensures SortedByName(out) && multiset(out) == multiset(Kept(dir))
  {
    out := [];
    for i := 0 to |dir|
      invariant SortedByName(out) && multiset(out) == multiset(Kept(dir[..i]))
    {
      assert dir[..i + 1][..i] == dir[..i];
      if dir[i].isDir {
        var entry := ParseName(dir[i].name);
        if entry.Some? {
          InsertSorts(entry.value, out);
          out := Insert(entry.value, out);
        }
      }
    }
    assert dir[..|dir|] == dir;
  }

  /** A directory holding only what Create made, no two snapshots at one instant. */
  predicate CreatedAt(e: Entry) {
    FourDigitYear(e.time) && ValidLabel(e.tag) && e.name == Name(e.time, e.tag)
  }

  /** In a listing of created snapshots the times never go back, so the last is the newest. */
  lemma LastIsNewest(listed: seq<Entry>, i: nat, j: nat)
    requires SortedByName(listed) && i <= j < |listed|
    requires CreatedAt(listed[i]) && CreatedAt(listed[j])
    ensures listed[i].time <= listed[j].time
  {
    var e, f := listed[i], listed[j];
    if f.time < e.time {
      NameOrder(f.time, f.tag, e.time, e.tag);
    }
  }
}
