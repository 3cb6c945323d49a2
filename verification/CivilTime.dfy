/** Calendar arithmetic and the two date parsers of the S3 client
    (host/src/s3.rs:303-356 and 432-467).

    The era/year-of-era/day-of-year formula is written with the widths of the
    source: a step that leaves its `u32` or `i32` gives `Overflow`.  The
    reference calendar is the plain sum of year and month lengths. */
module CivilTime {
  import opened Text

  datatype Checked<+T> = Value(value: T) | Overflow {
    predicate IsFailure() { Overflow? }
    function PropagateFailure<U>(): Checked<U> requires Overflow? { Overflow }
    function Extract(): T requires Value? { value }
  }

  function I32(n: int): Checked<int> {
    if -0x8000_0000 <= n < 0x8000_0000 then Value(n) else Overflow
  }

  function U32(n: int): Checked<int> {
    if 0 <= n < 0x1_0000_0000 then Value(n) else Overflow
  }

  function TruncDiv(a: int, b: int): int
    requires b > 0
  {
    if a >= 0 then a / b else -((-a) / b)
  }

  function DayOfYear(month: int, day: int): Checked<int> {
    var m :- I32(month);
    var shifted :- I32(m + if month > 2 then -3 else 9);
    var monthI :- U32(shifted);
    var scaled :- U32(153 * monthI);
    var biased :- U32(scaled + 2);
    var end :- U32(biased / 5 + day);
    U32(end - 1)
  }

  /** The 400-year era of a year, and the year's place in it. */
  function EraAndYear(y: int): Checked<(int, int)> {
    var floored :- I32(if y >= 0 then y else y - 399);
    var era := TruncDiv(floored, 400);
    var eraYears :- I32(era * 400);
    var rest :- I32(y - eraYears);
    var yoe :- U32(rest);
    Value((era, yoe))
  }

  function DayOfEra(yoe: int, doy: int): Checked<int> {
    var whole :- U32(yoe * 365);
    var leaps :- U32(whole + yoe / 4);
    var years :- U32(leaps - yoe / 100);
    U32(years + doy)
  }

  function DaysSinceEpoch(year: int, month: int, day: int): Checked<int> {
    var y :- I32(if month <= 2 then year - 1 else year);
    var (era, yoe) :- EraAndYear(y);
    var doy :- DayOfYear(month, day);
    var doe :- DayOfEra(yoe, doy);
    ShiftToEpoch(era, doe)
  }

  function ShiftToEpoch(era: int, doe: int): Checked<int> {
    var eraDays :- I32(era * 146097);
    var doeI :- I32(doe);
    var days :- I32(eraDays + doeI);
    I32(days - 719468)
  }

  /** The shared tail of both parsers. */
  function EpochSeconds(year: int, month: int, day: int, hour: int, minute: int, second: int): Checked<Option<nat>> {
    var days :- DaysSinceEpoch(year, month, day);
    var secs := days * 86400 + hour * 3600 + minute * 60 + second;
    Value(if secs < 0 then None else Some(secs))
  }

  // ----- the reference calendar -----

  predicate IsLeap(y: nat) {
    y % 4 == 0 && (y % 100 != 0 || y % 400 == 0)
  }

  function YearLength(y: nat): nat {
    if IsLeap(y) then 366 else 365
  }

  function MonthLength(y: nat, m: nat): nat {
    if m == 2 then (if IsLeap(y) then 29 else 28)
    else if m == 4 || m == 6 || m == 9 || m == 11 then 30
    else 31
  }

  /** Days in the years before `y`. */
  function YearStart(y: nat): nat {
    if y == 0 then 0 else YearStart(y - 1) + YearLength(y - 1)
  }

  /** Days of year `y` in the months before `m`. */
  function MonthStart(y: nat, m: nat): nat
    requires 1 <= m
  {
    if m == 1 then 0 else MonthStart(y, m - 1) + MonthLength(y, m - 1)
  }

  const EPOCH_YEAR: nat := 1970

  datatype Date = Date(year: nat, month: nat, day: nat) {
    predicate Valid() {
      1 <= month <= 12 && 1 <= day <= MonthLength(year, month)
    }

    /** Days from 1 January 1970. */
    function Number(): int
      requires Valid()
    {
      YearStart(year) + MonthStart(year, month) + day - 1 - YearStart(EPOCH_YEAR)
    }

    predicate Before(that: Date) {
      || year < that.year
      || (year == that.year && month < that.month)
      || (year == that.year && month == that.month && day < that.day)
    }
  }

  /** The number of leap years before `y`. */
  function Leaps(y: nat): int {
    (y + 3) / 4 - (y + 99) / 100 + (y + 399) / 400
  }

  lemma {:induction false} YearStartClosed(y: nat)
    ensures YearStart(y) == 365 * y + Leaps(y)
  {
    if y > 0 {
      YearStartClosed(y - 1);
      LeapStep(y - 1);
    }
  }

  lemma {:induction false} CeilingSteps4(x: nat)
    ensures (x + 4) / 4 - (x + 3) / 4 == if x % 4 == 0 then 1 else 0
  {
    var q, r := x / 4, x % 4;
    assert x == 4 * q + r;
  }

  lemma {:induction false} CeilingSteps100(x: nat)
    ensures (x + 100) / 100 - (x + 99) / 100 == if x % 100 == 0 then 1 else 0
  {
    var q, r := x / 100, x % 100;
    assert x == 100 * q + r;
    assert (x + 99) / 100 == if r == 0 then q else q + 1;
  }

  lemma {:induction false} CeilingSteps400(x: nat)
    ensures (x + 400) / 400 - (x + 399) / 400 == if x % 400 == 0 then 1 else 0
  {
    var q, r := x / 400, x % 400;
    assert x == 400 * q + r;
    assert (x + 399) / 400 == if r == 0 then q else q + 1;
  }

  lemma {:induction false} Multiples(y: nat)
    ensures y % 400 == 0 ==> y % 100 == 0
    ensures y % 100 == 0 ==> y % 4 == 0
  {
    if y % 400 == 0 {
      var k := 4 * (y / 400);
      assert y == 100 * k;
      assert 100 * k % 100 == 0;
    }
    if y % 100 == 0 {
      var k := 25 * (y / 100);
      assert y == 4 * k;
      assert 4 * k % 4 == 0;
    }
  }

  lemma {:induction false} LeapAsCounts(y: nat)
    ensures (if y % 4 == 0 then 1 else 0) - (if y % 100 == 0 then 1 else 0) + (if y % 400 == 0 then 1 else 0)
         == if IsLeap(y) then 1 else 0
  {
    Multiples(y);
  }

  /** The leap years before `y + 1`, less those before `y`. */
  lemma {:induction false} LeapStep(y: nat)
    ensures Leaps(y + 1) - Leaps(y) == if IsLeap(y) then 1 else 0
  {
    var a, b, c := (y + 4) / 4, (y + 100) / 100, (y + 400) / 400;
    assert Leaps(y + 1) == a - b + c;
    CeilingSteps4(y);
    CeilingSteps100(y);
    CeilingSteps400(y);
    LeapAsCounts(y);
  }

  lemma {:induction false} MonthStartClosed(y: nat, m: nat)
    requires 1 <= m <= 13
    ensures MonthStart(y, m) ==
            if m <= 2 then 31 * (m - 1)
            else (153 * (m - 3) + 2) / 5 + 59 + if IsLeap(y) then 1 else 0
  {
    if m > 1 {
      MonthStartClosed(y, m - 1);
    }
  }

  function MarchDays(y: int): int {
    365 * y + y / 4 - y / 100 + y / 400
  }

  /** Years counted from March, as the formula counts them. */
  lemma {:induction false} MarchYears(y: int)
    ensures var era, yoe := y / 400, y % 400;
            era * 146097 + yoe * 365 + yoe / 4 - yoe / 100 == MarchDays(y)
  {
    var era, yoe := y / 400, y % 400;
    assert y == 400 * era + yoe;
    assert y / 4 == 100 * era + yoe / 4;
    assert y / 100 == 4 * era + yoe / 100;
  }

  lemma {:induction false} EraAndYearIs(y: int)
    requires -400 <= y < 5_800_000
    ensures EraAndYear(y) == Value((y / 400, y % 400))
    ensures -1 <= y / 400 < 14_500
  {
    var era, yoe := y / 400, y % 400;
    assert y == 400 * era + yoe;
    if y < 0 {
      assert era == -1;
      assert (399 - y) / 400 == 1;
    }
  }

  lemma {:induction false} DayOfEraIs(yoe: nat, doy: nat)
    requires yoe < 400 && doy < 400
    ensures DayOfEra(yoe, doy) == Value(yoe * 365 + yoe / 4 - yoe / 100 + doy)
    ensures 0 <= yoe * 365 + yoe / 4 - yoe / 100 + doy < 147_000
  {
  }

  lemma {:induction false} MarchYearStart(y: nat)
    ensures Leaps(y + 1) == y / 4 - y / 100 + y / 400 + 1
  {
    assert (y + 4) / 4 == y / 4 + 1 && (y + 100) / 100 == y / 100 + 1 && (y + 400) / 400 == y / 400 + 1;
  }

  lemma {:induction false} DayOfYearIs(date: Date)
    requires date.Valid()
    ensures DayOfYear(date.month, date.day) == Value(MarchDayOfYear(date))
    ensures 0 <= MarchDayOfYear(date) < 400
  {
  }

  function MarchMonth(m: nat): nat
    requires 1 <= m <= 12
  {
    if m > 2 then m - 3 else m + 9
  }

  function MarchDayOfYear(date: Date): int
    requires date.Valid()
  {
    (153 * MarchMonth(date.month) + 2) / 5 + date.day - 1
  }

  function MarchYear(date: Date): int {
    if date.month <= 2 then date.year - 1 else date.year
  }

  /** The formula without its range checks. */
  lemma {:induction false} FormulaUnchecked(date: Date)
    requires date.Valid() && date.year < 5_800_000
    ensures DaysSinceEpoch(date.year, date.month, date.day) ==
            Value(MarchDays(MarchYear(date)) + MarchDayOfYear(date) - 719468)
  {
    var y := MarchYear(date);
    var era, yoe, doy := y / 400, y % 400, MarchDayOfYear(date);
    EraAndYearIs(y);
    DayOfYearIs(date);
    DayOfEraIs(yoe, doy);
    var doe := yoe * 365 + yoe / 4 - yoe / 100 + doy;
    ShiftToEpochIs(era, doe);
    FormulaSteps(date, era, yoe, doy, doe);
    MarchYears(y);
  }

  lemma {:induction false} FormulaSteps(date: Date, era: int, yoe: int, doy: int, doe: int)
    requires date.Valid() && date.year < 5_800_000
    requires EraAndYear(MarchYear(date)) == Value((era, yoe))
    requires DayOfYear(date.month, date.day) == Value(doy) && DayOfEra(yoe, doy) == Value(doe)
    ensures DaysSinceEpoch(date.year, date.month, date.day) == ShiftToEpoch(era, doe)
  {
  }

  lemma {:induction false} ShiftToEpochIs(era: int, doe: nat)
    requires -1 <= era < 14_500 && doe < 147_000
    ensures ShiftToEpoch(era, doe) == Value(era * 146097 + doe - 719468)
  {
  }

  lemma {:induction false} MarchDaysAreYears(date: Date)
    requires date.Valid()
    ensures MarchDays(MarchYear(date)) ==
            YearStart(date.year) + if date.month > 2 then (if IsLeap(date.year) then 0 else -1) else -366
  {
    YearStartClosed(date.year);
    if date.month > 2 {
      MarchYearStart(date.year);
      LeapStep(date.year);
    } else if date.year > 0 {
      MarchYearStart(date.year - 1);
    }
  }

  lemma {:induction false} MarchDayOfYearIsMonths(date: Date)
    requires date.Valid()
    ensures MarchDayOfYear(date) ==
            MonthStart(date.year, date.month) + date.day - 1 +
            if date.month > 2 then (if IsLeap(date.year) then -60 else -59) else 306
  {
    MonthStartClosed(date.year, date.month);
  }

  lemma {:induction false} CalendarFromMarch(date: Date)
    requires date.Valid()
    ensures YearStart(date.year) + MonthStart(date.year, date.month) + date.day - 1 ==
            MarchDays(MarchYear(date)) + MarchDayOfYear(date) + 60
  {
    MarchDaysAreYears(date);
    MarchDayOfYearIsMonths(date);
  }

  lemma {:induction false} EpochStart()
    ensures YearStart(EPOCH_YEAR) == 719528
  {
    YearStartClosed(EPOCH_YEAR);
  }

  /** For every valid date of a year before 5 800 000 the formula overflows
      nowhere and equals the sum of the year and month lengths. */
  lemma {:induction false} FormulaIsCalendar(date: Date)
    requires date.Valid() && date.year < 5_800_000
    ensures DaysSinceEpoch(date.year, date.month, date.day) == Value(date.Number())
  {
    FormulaUnchecked(date);
    CalendarFromMarch(date);
    EpochStart();
  }

  /** The parsers' tail gives the calendar's second count, and refuses exactly
      the dates before 1970. */
  lemma {:induction false} EpochSecondsAreCalendar(date: Date, hour: nat, minute: nat, second: nat)
    requires date.Valid() && date.year < 5_800_000 && hour < 24 && minute < 60 && second < 60
    ensures EpochSeconds(date.year, date.month, date.day, hour, minute, second) ==
            Value(if date.year < EPOCH_YEAR then None
                  else Some(date.Number() * 86400 + hour * 3600 + minute * 60 + second))
  {
    FormulaIsCalendar(date);
    var first := Date(EPOCH_YEAR, 1, 1);
    NumberIsMonotone(date, first);
    assert first.Number() == 0;
  }

  /** Later dates have larger numbers, and only later dates do. */
  lemma {:induction false} NumberIsMonotone(a: Date, b: Date)
    requires a.Valid() && b.Valid()
    ensures a.Before(b) <==> a.Number() < b.Number()
  {
    if a.Before(b) {
      NumberIsIncreasing(a, b);
    } else if b.Before(a) {
      NumberIsIncreasing(b, a);
    } else {
      assert a == b;
    }
  }

  lemma {:induction false} NumberIsIncreasing(a: Date, b: Date)
    requires a.Valid() && b.Valid() && a.Before(b)
    ensures a.Number() < b.Number()
  {
    var y, m := a.year, a.month + 1;
    assert MonthStart(y, a.month) + a.day <= MonthStart(y, m);
    if y < b.year {
      YearIsItsMonths(y);
      MonthStartGrows(y, m, MONTHS_END);
      assert YearStart(y) + YearLength(y) == YearStart(y + 1);
      YearStartGrows(y + 1, b.year);
    } else if a.month < b.month {
      MonthStartGrows(y, m, b.month);
    }
  }

  const MONTHS_END: nat := 13

  lemma {:induction false} YearIsItsMonths(y: nat)
    ensures MonthStart(y, MONTHS_END) == YearLength(y)
  {
    MonthStartClosed(y, MONTHS_END);
  }

  lemma {:induction false} YearStartGrows(y: nat, z: nat)
    requires y <= z
    ensures YearStart(y) <= YearStart(z)
    decreases z - y
  {
    if y < z {
      YearStartGrows(y, z - 1);
    }
  }

  lemma {:induction false} MonthStartGrows(y: nat, m: nat, n: nat)
    requires 1 <= m <= n
    ensures MonthStart(y, m) <= MonthStart(y, n)
    decreases n - m
  {
    if m < n {
      MonthStartGrows(y, m, n - 1);
    }
  }

  // ----- from a day number back to the date -----

  function MonthOf(y: nat, m: nat, days: nat): Date
    requires 1 <= m <= 12 && MonthStart(y, m) + days < MonthStart(y, MONTHS_END)
    decreases 12 - m
  {
    if days < MonthLength(y, m) then Date(y, m, days + 1)
    else MonthOf(y, m + 1, days - MonthLength(y, m))
  }

  function YearOf(y: nat, days: nat): Date
    decreases days
  {
    if days < YearLength(y) then
      YearIsItsMonths(y);
      MonthOf(y, 1, days)
    else YearOf(y + 1, days - YearLength(y))
  }

  /** The date that is `days` days after 1 January 1970. */
  function CivilFromDays(days: nat): Date {
    YearOf(EPOCH_YEAR, days)
  }

  lemma {:induction false} MonthOfIs(y: nat, m: nat, days: nat)
    requires 1 <= m <= 12 && MonthStart(y, m) + days < MonthStart(y, MONTHS_END)
    ensures var d := MonthOf(y, m, days);
            d.Valid() && d.year == y && MonthStart(y, d.month) + d.day - 1 == MonthStart(y, m) + days
    decreases 12 - m
  {
    if days >= MonthLength(y, m) {
      MonthOfIs(y, m + 1, days - MonthLength(y, m));
    }
  }

  lemma {:induction false} YearOfIs(y: nat, days: nat)
    ensures var d := YearOf(y, days);
            d.Valid() && d.year >= y && d.Number() == YearStart(y) + days - YearStart(EPOCH_YEAR)
    decreases days
  {
    if days < YearLength(y) {
      YearIsItsMonths(y);
      MonthOfIs(y, 1, days);
    } else {
      YearOfIs(y + 1, days - YearLength(y));
    }
  }

  lemma {:induction false} CivilFromDaysIs(days: nat)
    ensures var d := CivilFromDays(days);
            d.Valid() && d.year >= 1970 && d.Number() == days
  {
    YearOfIs(EPOCH_YEAR, days);
  }

  /** Every day from 1970 on is exactly one valid date. */
  lemma {:induction false} CivilFromDaysInverts(days: nat, date: Date)
    requires date.Valid()
    ensures date == CivilFromDays(days) <==> date.Number() == days
  {
    CivilFromDaysIs(days);
    NumberIsMonotone(date, CivilFromDays(days));
    NumberIsMonotone(CivilFromDays(days), date);
  }

  /** The last second of the year 9999. */
  const LAST_SECOND: nat := 253402300799

  lemma {:induction false} BeforeYear10000(days: nat)
    requires days <= LAST_SECOND / 86400
    ensures CivilFromDays(days).year <= 9999
  {
    var d := CivilFromDays(days);
    CivilFromDaysIs(days);
    if d.year > 9999 {
      var y := EPOCH_YEAR + 8030;
      YearStartGrows(y, d.year);
      YearStartClosed(y);
      EpochStart();
    }
  }

  // ----- the parsers -----

  predicate IsWhite(c: char) {
    var u := c as int;
    || 0x9 <= u <= 0xD || u == 0x20 || u == 0x85 || u == 0xA0 || u == 0x1680
    || 0x2000 <= u <= 0x200A || u == 0x2028 || u == 0x2029 || u == 0x202F || u == 0x205F || u == 0x3000
  }

  /** Visible ASCII is never white space; blanks and the controls from tab to
      carriage return are. */
  lemma {:induction false} WhiteIs(c: char)
    ensures '!' <= c <= '~' ==> !IsWhite(c)
    ensures c == ' ' || '\t' <= c <= '\r' ==> IsWhite(c)
  {
  }

  /** The length of the word `s` starts with. */
  function WordLength(s: string): (n: nat)
    ensures n <= |s|
    ensures s != "" && !IsWhite(s[0]) ==> n > 0
  {
    if s == "" || IsWhite(s[0]) then 0 else 1 + WordLength(s[1..])
  }

  /** `str::split_whitespace`. */
  function SplitWhitespace(s: string): seq<string>
    decreases |s|
  {
    if s == "" then []
    else if IsWhite(s[0]) then SplitWhitespace(s[1..])
    else [s[..WordLength(s)]] + SplitWhitespace(s[WordLength(s)..])
  }

  predicate IsWord(w: string) {
    w != "" && forall c <- w :: !IsWhite(c)
  }

  lemma {:induction false} WordLengthIs(w: string, rest: string)
    requires forall c <- w :: !IsWhite(c)
    requires rest == "" || IsWhite(rest[0])
    ensures WordLength(w + rest) == |w|
  {
    if w == "" {
      assert w + rest == rest;
    } else {
      assert (w + rest)[1..] == w[1..] + rest;
      assert w[0] in w;
      WordLengthIs(w[1..], rest);
    }
  }

  lemma {:induction false} FirstWord(w: string, rest: string)
    requires IsWord(w)
    ensures SplitWhitespace(w + " " + rest) == [w] + SplitWhitespace(rest)
  {
    var s := w + " " + rest;
    assert w[0] in w;
    assert s == w + (" " + rest);
    WordLengthIs(w, " " + rest);
    assert s[|w|..] == " " + rest;
    assert (" " + rest)[1..] == rest;
    assert s[..|w|] == w;
  }

  lemma {:induction false} LastWord(w: string)
    requires IsWord(w)
    ensures SplitWhitespace(w) == [w]
  {
    assert w[0] in w;
    assert w + "" == w;
    WordLengthIs(w, "");
    assert w[..|w|] == w && w[|w|..] == "";
  }

  function MonthFromName(s: string): Option<nat> {
    match s
    case "Jan" => Some(1)
    case "Feb" => Some(2)
    case "Mar" => Some(3)
    case "Apr" => Some(4)
    case "May" => Some(5)
    case "Jun" => Some(6)
    case "Jul" => Some(7)
    case "Aug" => Some(8)
    case "Sep" => Some(9)
    case "Oct" => Some(10)
    case "Nov" => Some(11)
    case "Dec" => Some(12)
    case _ => None
  }

  const U32_BOUND: nat := 0x1_0000_0000

  /** Hours, minutes and seconds around colons. */
  function ParseClock(s: string): Option<(nat, nat, nat)> {
    var bits := Split(s, ':');
    if |bits| != 3 then None
    else
      var hour :- ParseUnsigned(bits[0], U32_BOUND);
      var minute :- ParseUnsigned(bits[1], U32_BOUND);
      var second :- ParseUnsigned(bits[2], U32_BOUND);
      Some((hour, minute, second))
  }

  function HttpFields(s: string): Option<(int, nat, nat, (nat, nat, nat))> {
    var parts := SplitWhitespace(s);
    if |parts| < 6 then None
    else
      var day :- ParseUnsigned(parts[1], U32_BOUND);
      var month :- MonthFromName(parts[2]);
      var year :- ParseI32(parts[3]);
      var clock :- ParseClock(parts[4]);
      Some((year, month, day, clock))
  }

  function FieldSeconds(fields: Option<(int, nat, nat, (nat, nat, nat))>): Checked<Option<nat>> {
    match fields
    case None => Value(None)
    case Some((year, month, day, clock)) => EpochSeconds(year, month, day, clock.0, clock.1, clock.2)
  }

  function HttpDateParse(s: string): Checked<Option<nat>> {
    FieldSeconds(HttpFields(s))
  }

  /** `trim_end_matches('Z')`. */
  function TrimZ(s: string): string {
    if s != "" && s[|s| - 1] == 'Z' then TrimZ(s[..|s| - 1]) else s
  }

  function IsoFields(text: string): Option<(int, nat, nat, (nat, nat, nat))> {
    var s := TrimZ(text);
    var t := IndexOf(s, "T", 0);
    if t < 0 then None else IsoParts(s[..t], s[t + 1..])
  }

  function IsoParts(date: string, time: string): Option<(int, nat, nat, (nat, nat, nat))> {
    var bits := Split(date, '-');
    if |bits| != 3 then None
    else
      var year :- ParseI32(bits[0]);
      var month :- ParseUnsigned(bits[1], U32_BOUND);
      var day :- ParseUnsigned(bits[2], U32_BOUND);
      var clock :- ParseClock(Split(time, '.')[0]);
      Some((year, month, day, clock))
  }

  function Iso8601ToEpoch(s: string): Checked<Option<nat>> {
    FieldSeconds(IsoFields(s))
  }

  // ----- the printers, from RFC 9110 section 5.6.7 and ISO 8601 -----

  function Pad2(n: nat): string
    requires n < 100
  {
    [DigitOf(n / 10), DigitOf(n % 10)]
  }

  function Pad4(n: nat): string
    requires n < 10000
  {
    Pad2(n / 100) + Pad2(n % 100)
  }

  function MonthName(m: nat): string
    requires 1 <= m <= 12
  {
    ["Jan", "Feb", "Mar", "Apr", "May", "Jun", "Jul", "Aug", "Sep", "Oct", "Nov", "Dec"][m - 1]
  }

  function PrintClock(second: nat): string
    requires second < 86400
  {
    Pad2(second / 3600) + [':'] + (Pad2(second / 60 % 60) + [':'] + Pad2(second % 60))
  }

  function PrintHttpDate(weekday: string, d: Date, clock: string): string
    requires d.Valid() && d.year < 10000
  {
    Join([weekday, Pad2(d.day), MonthName(d.month), Pad4(d.year), clock, "GMT"], " ")
  }

  function PrintIsoDate(d: Date): string
    requires d.Valid() && d.year < 10000
  {
    Pad4(d.year) + ['-'] + (Pad2(d.month) + ['-'] + Pad2(d.day))
  }

  /** The date of instant `t`. */
  function DateAt(t: nat): (d: Date)
    requires t <= LAST_SECOND
    ensures d.Valid() && d.year < 10000 && d.Number() == t / 86400
  {
    CivilFromDaysIs(t / 86400);
    BeforeYear10000(t / 86400);
    CivilFromDays(t / 86400)
  }

  function PrintHttp(t: nat, weekday: string): string
    requires t <= LAST_SECOND
  {
    PrintHttpDate(weekday, DateAt(t), PrintClock(t % 86400))
  }

  /** `fraction` is empty, or a point and the digits after it. */
  function PrintIso(t: nat, fraction: string): string
    requires t <= LAST_SECOND
  {
    PrintIsoDate(DateAt(t)) + "T" + (PrintClock(t % 86400) + fraction) + "Z"
  }

  predicate IsFraction(s: string) {
    s == "" || (s[0] == '.' && AllDigits(s[1..]))
  }

  lemma {:induction false} Pad2Is(n: nat)
    requires n < 100
    ensures AllDigits(Pad2(n)) && IsWord(Pad2(n)) && ParseUnsigned(Pad2(n), U32_BOUND) == Some(n)
  {
    var s := Pad2(n);
    assert s[..|s| - 1] == [DigitOf(n / 10)];
    assert DigitsValue([DigitOf(n / 10)]) == n / 10;
  }

  lemma {:induction false} Pad4Is(n: nat)
    requires n < 10000
    ensures AllDigits(Pad4(n)) && IsWord(Pad4(n)) && ParseI32(Pad4(n)) == Some(n)
  {
    var s := Pad4(n);
    Pad2Is(n / 100);
    Pad2Is(n % 100);
    assert s[..3][..2] == Pad2(n / 100);
    assert DigitsValue(s[..3]) == 10 * DigitsValue(Pad2(n / 100)) + n % 100 / 10;
    assert DigitsValue(s) == 10 * DigitsValue(s[..3]) + n % 10;
  }

  /** The three numbers of a clock. */
  function Clock(second: nat): (nat, nat, nat) {
    (second / 3600, second / 60 % 60, second % 60)
  }

  lemma {:induction false} ClockRoundTrip(second: nat)
    requires second < 86400
    ensures IsWord(PrintClock(second)) && forall c <- PrintClock(second) :: IsDigit(c) || c == ':'
    ensures ParseClock(PrintClock(second)) == Some(Clock(second))
  {
    var h, m, s := Pad2(second / 3600), Pad2(second / 60 % 60), Pad2(second % 60);
    Pad2Is(second / 3600);
    Pad2Is(second / 60 % 60);
    Pad2Is(second % 60);
    SplitFirst(h, ':', m + [':'] + s);
    SplitFirst(m, ':', s);
    SplitOne(s, ':');
  }

  lemma {:induction false} WordsRoundTrip(words: seq<string>)
    requires words != [] && forall w <- words :: IsWord(w)
    ensures SplitWhitespace(Join(words, " ")) == words
  {
    if |words| == 1 {
      LastWord(words[0]);
    } else {
      WordsRoundTrip(words[1..]);
      FirstWord(words[0], Join(words[1..], " "));
    }
  }

  lemma {:induction false} MonthNameIs(m: nat)
    requires 1 <= m <= 12
    ensures IsWord(MonthName(m)) && MonthFromName(MonthName(m)) == Some(m)
  {
  }

  lemma {:induction false} HttpFieldsRoundTrip(weekday: string, d: Date, second: nat)
    requires IsWord(weekday) && d.Valid() && d.year < 10000 && second < 86400
    ensures HttpFields(PrintHttpDate(weekday, d, PrintClock(second))) == Some((d.year, d.month, d.day, Clock(second)))
  {
    Pad2Is(d.day);
    MonthNameIs(d.month);
    Pad4Is(d.year);
    ClockRoundTrip(second);
    WordsRoundTrip([weekday, Pad2(d.day), MonthName(d.month), Pad4(d.year), PrintClock(second), "GMT"]);
  }

  lemma {:induction false} SecondsOfCivil(t: nat)
    requires t <= LAST_SECOND
    ensures var d := DateAt(t);
            FieldSeconds(Some((d.year, d.month, d.day, Clock(t % 86400)))) == Value(Some(t))
  {
    FormulaIsCalendar(DateAt(t));
    ClockParts(t % 86400);
  }

  lemma {:induction false} ClockParts(c: nat)
    ensures c == c / 3600 * 3600 + c / 60 % 60 * 60 + c % 60
  {
    assert c / 3600 == c / 60 / 60;
    assert c == c / 60 * 60 + c % 60 && c / 60 == c / 60 / 60 * 60 + c / 60 % 60;
  }

  /** Every instant from 1970 to the end of 9999, printed as an IMF-fixdate,
      parses to itself, and no step overflows. The weekday is not looked at, so
      any word may stand for it. */
  lemma {:induction false} HttpRoundTrip(t: nat, weekday: string)
    requires t <= LAST_SECOND && IsWord(weekday)
    ensures HttpDateParse(PrintHttp(t, weekday)) == Value(Some(t))
  {
    HttpFieldsRoundTrip(weekday, DateAt(t), t % 86400);
    SecondsOfCivil(t);
  }

  lemma {:induction false} IsoDateRoundTrip(d: Date)
    requires d.Valid() && d.year < 10000
    ensures forall c <- PrintIsoDate(d) :: IsDigit(c) || c == '-'
    ensures Split(PrintIsoDate(d), '-') == [Pad4(d.year), Pad2(d.month), Pad2(d.day)]
  {
    Pad4Is(d.year);
    Pad2Is(d.month);
    Pad2Is(d.day);
    SplitFirst(Pad4(d.year), '-', Pad2(d.month) + ['-'] + Pad2(d.day));
    SplitFirst(Pad2(d.month), '-', Pad2(d.day));
    SplitOne(Pad2(d.day), '-');
  }

  lemma {:induction false} FractionCut(clock: string, fraction: string)
    requires clock != "" && IsFraction(fraction) && forall c <- clock :: IsDigit(c) || c == ':'
    ensures Split(clock + fraction, '.')[0] == clock
    ensures forall c <- clock + fraction :: c != 'Z'
  {
    if fraction == "" {
      assert clock + fraction == clock;
      SplitOne(clock, '.');
    } else {
      assert fraction == ['.'] + fraction[1..];
      assert clock + fraction == clock + ['.'] + fraction[1..];
      SplitFirst(clock, '.', fraction[1..]);
    }
  }

  lemma {:induction false} TrimOneZ(s: string)
    requires s != "" && s[|s| - 1] != 'Z'
    ensures TrimZ(s + "Z") == s
  {
    assert (s + "Z")[..|s|] == s;
  }

  lemma {:induction false} CutAtT(date: string, time: string)
    requires forall c <- date :: c != 'T'
    requires time != "" && forall c <- time :: c != 'Z'
    ensures IsoFields(date + "T" + time + "Z") == IsoParts(date, time)
  {
    var s := date + "T" + time;
    assert s[|s| - 1] == time[|time| - 1] && time[|time| - 1] in time;
    TrimOneZ(s);
    forall i: nat | i < |date|
      ensures !OccursAt(s, "T", i)
    {
      assert s[i] == date[i] && date[i] in date;
      Mismatch(s, "T", i, 0);
    }
    IndexOfIs(s, "T", 0, |date|);
    assert s[..|date|] == date && s[|date| + 1..] == time;
  }

  lemma {:induction false} IsoFieldsRoundTrip(d: Date, second: nat, fraction: string)
    requires d.Valid() && d.year < 10000 && second < 86400 && IsFraction(fraction)
    ensures IsoFields(PrintIsoDate(d) + "T" + (PrintClock(second) + fraction) + "Z") ==
            Some((d.year, d.month, d.day, Clock(second)))
  {
    ClockRoundTrip(second);
    IsoDateRoundTrip(d);
    FractionCut(PrintClock(second), fraction);
    CutAtT(PrintIsoDate(d), PrintClock(second) + fraction);
    Pad4Is(d.year);
    Pad2Is(d.month);
    Pad2Is(d.day);
  }

  /** Every instant from 1970 to the end of 9999, printed as ISO 8601 UTC with
      or without a fraction, parses to itself, and no step overflows. */
  lemma {:induction false} IsoRoundTrip(t: nat, fraction: string)
    requires t <= LAST_SECOND && IsFraction(fraction)
    ensures Iso8601ToEpoch(PrintIso(t, fraction)) == Value(Some(t))
  {
    IsoFieldsRoundTrip(DateAt(t), t % 86400, fraction);
    SecondsOfCivil(t);
  }

  /** The characters of a printed stamp. */
  lemma {:induction false} IsoCharacters(t: nat, fraction: string)
    requires t <= LAST_SECOND && IsFraction(fraction)
    ensures forall c <- PrintIso(t, fraction) :: IsDigit(c) || c == '-' || c == 'T' || c == ':' || c == '.' || c == 'Z'
  {
    hide PrintClock, PrintIsoDate, DateAt, ParseClock, Clock;
    ClockRoundTrip(t % 86400);
    IsoDateRoundTrip(DateAt(t));
    assert forall c <- fraction :: c == fraction[0] || c in fraction[1..];
  }
}
