// CP56Time2a (cpXXtime2a.c): seven octets holding a calendar time, and the conversions from and to milliseconds since
// 1970-01-01 00:00:00 UTC.
module CpTime {
  import opened Bytes

  // ---------------------------------------------------------------- the calendar, counted year by year

  /** A broken-down time in the conventions of struct tm: years since 1900, months from 0. */
  datatype Tm = Tm(year: int, mon: int, mday: int, hour: int, min: int, sec: int)

  predicate Leap(year: int) { year % 4 == 0 && (year % 100 != 0 || year % 400 == 0) }

  function DaysInMonth(year: int, mon: int): int {
    if mon == 1 then (if Leap(year) then 29 else 28)
    else if mon in {3, 5, 8, 10} then 30
    else 31
  }

  function DaysBeforeMonth(year: int, mon: nat): int {
    if mon == 0 then 0 else DaysBeforeMonth(year, mon - 1) + DaysInMonth(year, mon - 1)
  }

  function DaysInYear(year: int): int { if Leap(year) then 366 else 365 }

  /** Days from 1970-01-01 to the first day of a year. */
  function DaysBeforeYear(year: int): int
    requires year >= 1970
    decreases year
  {
    if year == 1970 then 0 else DaysBeforeYear(year - 1) + DaysInYear(year - 1)
  }

  predicate ValidDate(year: int, mon: int, mday: int) {
    year >= 1970 && 0 <= mon < 12 && 1 <= mday <= DaysInMonth(year, mon)
  }

  predicate ValidTm(tm: Tm) {
    && ValidDate(1900 + tm.year, tm.mon, tm.mday)
    && 0 <= tm.hour < 24 && 0 <= tm.min < 60 && 0 <= tm.sec < 60
  }

  function DayNumber(year: int, mon: int, mday: int): int
    requires ValidDate(year, mon, mday)
  {
    DaysBeforeYear(year) + DaysBeforeMonth(year, mon) + mday - 1
  }

  function SecondOfDay(tm: Tm): int { (tm.hour * 60 + tm.min) * 60 + tm.sec }

  // ---------------------------------------------------------------- the closed formula

  /** The day count of my_mktime, with the year since 1900 and January and February counted as months 12 and 13 of the
      previous year. */
  function ClosedDayNumber(year: int, mon: int, mday: int): int
    requires year >= 1 && mon >= -2
  {
    var m := if mon < 2 then mon + 12 else mon;
    var y := if mon < 2 then year - 1 else year;
    (y - 69) * 365 + y / 4 - y / 100 * 3 / 4 + (m + 2) * 153 / 5 - 446 + mday
  }

  function MkTime(tm: Tm): int
    requires tm.year >= 1 && tm.mon >= -2
  {
    ((ClosedDayNumber(tm.year, tm.mon, tm.mday) * 24 + tm.hour) * 60 + tm.min) * 60 + tm.sec
  }

  lemma CenturyStep(c: nat)
    ensures c >= 1 ==> c * 3 / 4 == (c - 1) * 3 / 4 + if c % 4 == 1 then 0 else 1
  {
  }

  /** The correction terms grow by one exactly from a leap year on. */
  lemma LeapStep(y: int)
    requires y >= 70
    ensures y / 4 - y / 100 * 3 / 4 == (y - 1) / 4 - (y - 1) / 100 * 3 / 4 + if Leap(1900 + y) then 1 else 0
  {
    hide Leap;
    LeapByCentury(y, y / 100);
    QuarterStep(y);
    CenturyStep(y / 100);
  }

  lemma QuarterStep(y: int)
    requires y >= 70
    ensures y / 4 == (y - 1) / 4 + if y % 4 == 0 then 1 else 0
    ensures (y - 1) / 100 == y / 100 - if y % 100 == 0 then 1 else 0
    ensures y % 100 == 0 ==> y / 100 >= 1 && y % 4 == 0
  {
    Fourth(y / 4, y % 4);
    Hundredth(y / 100, y % 100);
  }

  lemma Fourth(q: int, r: int)
    requires 0 <= r < 4
    ensures (4 * q + r - 1) / 4 == if r == 0 then q - 1 else q
  {
  }

  lemma Hundredth(q: int, r: int)
    requires 0 <= r < 100
    ensures (100 * q + r - 1) / 100 == if r == 0 then q - 1 else q
    ensures r == 0 ==> (100 * q + r) % 4 == 0
  {
  }

  lemma LeapByCentury(y: nat, c: nat)
    requires c == y / 100
    ensures Leap(1900 + y) <==> if y % 100 == 0 then c % 4 == 1 else y % 4 == 0
  {
    hide Leap;
    Remainders(c, y % 100);
    Remainders(c + 19, y % 100);
    CenturyRule(1900 + y, c, y % 100);
  }

  lemma CenturyRule(year: nat, c: nat, r: nat)
    requires year % 100 == r && year % 4 == r % 4 && year % 400 == (c + 19) % 4 * 100 + r
    ensures Leap(year) <==> if r == 0 then c % 4 == 1 else r % 4 == 0
  {
  }

  lemma Remainders(c: nat, r: nat)
    requires r < 100
    ensures (c * 100 + r) % 100 == r && (c * 100 + r) % 4 == r % 4 && (c * 100 + r) % 400 == c % 4 * 100 + r
  {
    OfFour(c * 25 + r / 4, r % 4);
    FourHundredth(c / 4, c % 4, r);
    OfHundred(c, r);
  }

  lemma OfFour(q: int, r: int)
    requires 0 <= r < 4
    ensures (4 * q + r) % 4 == r
  {
  }

  lemma OfHundred(q: int, r: int)
    requires 0 <= r < 100
    ensures (q * 100 + r) % 100 == r
  {
  }

  lemma FourHundredth(q: int, r: int, rest: int)
    requires 0 <= r < 4 && 0 <= rest < 100
    ensures ((q * 4 + r) * 100 + rest) % 400 == r * 100 + rest
  {
  }

  lemma {:induction false} ClosedYear(year: int)
    requires year >= 1970
    ensures ClosedDayNumber(year - 1900, 0, 1) == DaysBeforeYear(year)
    decreases year
  {
    if year == 1970 {
    } else {
      ClosedYear(year - 1);
      LeapStep(year - 1 - 1900);
    }
  }

  lemma {:induction false} ClosedMonth(year: int, mon: nat)
    requires year >= 1970 && mon < 12
    ensures ClosedDayNumber(year - 1900, mon, 1) == DaysBeforeYear(year) + DaysBeforeMonth(year, mon)
    decreases mon
  {
    if mon == 0 {
      ClosedYear(year);
    } else {
      ClosedMonth(year, mon - 1);
      LeapStep(year - 1900);
      MonthStep(mon);
    }
  }

  /** The slope 153/5 reproduces the lengths of the months from March on. */
  lemma MonthStep(mon: nat)
    requires 1 <= mon < 12
    ensures mon == 1 ==> (13 + 2) * 153 / 5 == (12 + 2) * 153 / 5 + 31
    ensures mon == 2 ==> (2 + 2) * 153 / 5 == (13 + 2) * 153 / 5 + 28 - 365
    ensures mon > 2 ==> (mon + 2) * 153 / 5 == (mon + 1) * 153 / 5 + if mon - 1 in {3, 5, 8, 10} then 30 else 31
  {
    if mon == 3 {} else if mon == 4 {} else if mon == 5 {} else if mon == 6 {} else if mon == 7 {} else if mon == 8 {}
    else if mon == 9 {} else if mon == 10 {} else {}
  }

  /** my_mktime counts the seconds of the Gregorian calendar, for every valid time from 1970 on. */
  lemma MkTimeCountsSeconds(tm: Tm)
    requires ValidTm(tm)
    ensures MkTime(tm) == DayNumber(1900 + tm.year, tm.mon, tm.mday) * 86400 + SecondOfDay(tm)
  {
    ClosedMonth(1900 + tm.year, tm.mon);
  }

  // ---------------------------------------------------------------- order

  predicate EarlierDate(a: Tm, b: Tm) {
    a.year < b.year || (a.year == b.year && (a.mon < b.mon || (a.mon == b.mon && a.mday < b.mday)))
  }

  predicate Earlier(a: Tm, b: Tm) {
    EarlierDate(a, b)
    || (a.year == b.year && a.mon == b.mon && a.mday == b.mday
        && (a.hour < b.hour || (a.hour == b.hour && (a.min < b.min || (a.min == b.min && a.sec < b.sec)))))
  }

  lemma {:induction false} MonthsAscend(year: int, m: nat, n: nat)
    requires m < n
    ensures DaysBeforeMonth(year, m) + DaysInMonth(year, m) <= DaysBeforeMonth(year, n)
    decreases n
  {
    if m < n - 1 {
      MonthsAscend(year, m, n - 1);
    }
  }

  lemma MonthsFillYear(year: int)
    ensures DaysBeforeMonth(year, 12) == DaysInYear(year)
  {
    hide Leap;
    assert DaysBeforeMonth(year, 1) == 31;
    assert DaysBeforeMonth(year, 2) == 59 + (if Leap(year) then 1 else 0);
    assert DaysBeforeMonth(year, 4) == DaysBeforeMonth(year, 2) + 61;
    assert DaysBeforeMonth(year, 6) == DaysBeforeMonth(year, 4) + 61;
    assert DaysBeforeMonth(year, 8) == DaysBeforeMonth(year, 6) + 62;
    assert DaysBeforeMonth(year, 10) == DaysBeforeMonth(year, 8) + 61;
  }

  lemma {:induction false} YearsAscend(y: int, z: int)
    requires 1970 <= y < z
    ensures DaysBeforeYear(y) + DaysInYear(y) <= DaysBeforeYear(z)
    decreases z
  {
    if y < z - 1 {
      YearsAscend(y, z - 1);
    }
  }

  lemma WithinYear(year: int, mon: int, mday: int)
    requires ValidDate(year, mon, mday)
    ensures 0 <= DaysBeforeMonth(year, mon) + mday - 1 < DaysInYear(year)
  {
    MonthsAscend(year, mon, 12);
    MonthsFillYear(year);
    if mon > 0 { MonthsAscend(year, 0, mon); }
  }

  lemma DaysAscend(a: Tm, b: Tm)
    requires ValidTm(a) && ValidTm(b) && EarlierDate(a, b)
    ensures DayNumber(1900 + a.year, a.mon, a.mday) < DayNumber(1900 + b.year, b.mon, b.mday)
  {
    if a.year < b.year {
      WithinYear(1900 + a.year, a.mon, a.mday);
      WithinYear(1900 + b.year, b.mon, b.mday);
      YearsAscend(1900 + a.year, 1900 + b.year);
    } else if a.mon < b.mon {
      MonthsAscend(1900 + a.year, a.mon, b.mon);
    }
  }

  /** A later time has a larger second count. */
  lemma StrictlyIncreasing(a: Tm, b: Tm)
    requires ValidTm(a) && ValidTm(b) && Earlier(a, b)
    ensures MkTime(a) < MkTime(b)
  {
    MkTimeCountsSeconds(a);
    MkTimeCountsSeconds(b);
    if EarlierDate(a, b) {
      DaysAscend(a, b);
    }
  }

  lemma Injective(a: Tm, b: Tm)
    requires ValidTm(a) && ValidTm(b)
    ensures MkTime(a) == MkTime(b) <==> a == b
  {
    if a != b {
      if Earlier(a, b) {
        StrictlyIncreasing(a, b);
      } else {
        StrictlyIncreasing(b, a);
      }
    }
  }

  // ---------------------------------------------------------------- gmtime

  /** The date of a day counted from the first day of a year on. */
  function DateFrom(year: int, days: nat): (r: (int, int, int))
    requires year >= 1970
    ensures ValidDate(r.0, r.1, r.2)
    ensures DayNumber(r.0, r.1, r.2) == DaysBeforeYear(year) + days
    decreases days
  {
    if days >= DaysInYear(year) then DateFrom(year + 1, days - DaysInYear(year))
    else
      MonthsFillYear(year);
      var (mon, mday) := MonthFrom(year, 0, days);
      (year, mon, mday)
  }

  function MonthFrom(year: int, mon: nat, days: nat): (r: (int, int))
    requires year >= 1970 && mon < 12 && DaysBeforeMonth(year, mon) + days < DaysBeforeMonth(year, 12)
    ensures ValidDate(year, r.0, r.1)
    ensures DaysBeforeMonth(year, r.0) + r.1 - 1 == DaysBeforeMonth(year, mon) + days
    decreases 12 - mon
  {
    if days >= DaysInMonth(year, mon) then MonthFrom(year, mon + 1, days - DaysInMonth(year, mon))
    else (mon, days + 1)
  }

  /** gmtime_r: the broken-down time of a second count. */
  function Gmtime(t: nat): (tm: Tm)
    ensures ValidTm(tm)
  {
    var (year, mon, mday) := DateFrom(1970, t / 86400);
    var s := t % 86400;
    Tm(year - 1900, mon, mday, s / 3600, s / 60 % 60, s % 60)
  }

  /** It is the only valid time my_mktime maps to the count. */
  lemma GmtimeUnique(t: nat, tm: Tm)
    requires ValidTm(tm)
    ensures MkTime(Gmtime(t)) == t
    ensures MkTime(tm) == t <==> tm == Gmtime(t)
  {
    MkTimeCountsSeconds(Gmtime(t));
    Clock(t % 86400);
    Injective(tm, Gmtime(t));
  }

  lemma Clock(s: nat)
    ensures (s / 3600 * 60 + s / 60 % 60) * 60 + s % 60 == s
  {
    assert s / 3600 == s / 60 / 60;
  }

  // ---------------------------------------------------------------- the seven octets

  /** The bit fields. Together they determine the octets and are determined by them. */
  datatype Fields = Fields(second: nat, millisecond: nat, minute: nat, substituted: bool, invalid: bool, hour: nat,
                           hourReserved: nat, summerTime: bool, dayOfMonth: nat, dayOfWeek: nat, month: nat,
                           monthReserved: nat, year: nat, yearReserved: nat)

  function Decode(e: seq<byte>): Fields
    requires |e| == 7
  {
    Fields(Word(e[0], e[1]) / 1000, Word(e[0], e[1]) % 1000,
           e[2] % 64, e[2] / 64 % 2 == 1, e[2] / 128 == 1,
           e[3] % 32, e[3] / 32 % 4, e[3] / 128 == 1,
           e[4] % 32, e[4] / 32, e[5] % 16, e[5] / 16, e[6] % 128, e[6] / 128)
  }

  lemma DecodeInjective(a: seq<byte>, b: seq<byte>)
    requires |a| == 7 == |b| && Decode(a) == Decode(b)
    ensures a == b
  {
    SameQuotients(Word(a[0], a[1]), Word(b[0], b[1]));
    SameWord(a[0], a[1], b[0], b[1]);
    SameBits(a[2], b[2], a[3], b[3]);
    SameBytes(a[4], b[4], a[5], b[5], a[6], b[6]);
    assert forall i | 0 <= i < 7 :: a[i] == b[i];
  }

  predicate InRange(f: Fields) {
    && f.second <= 64 && f.millisecond < 1000 && f.second * 1000 + f.millisecond < 0x1_0000
    && f.minute < 64 && f.hour < 32 && f.hourReserved < 4 && f.dayOfMonth < 32 && f.dayOfWeek < 8
    && f.month < 16 && f.monthReserved < 16 && f.year < 128 && f.yearReserved < 2
  }

  function Flag(b: bool): nat { if b then 1 else 0 }

  /** The octets as section 7.2.6.18 of IEC 60870-5-101 lays them out: milliseconds of the minute low octet first, minute
      with GEN and IV, hour with reserved bits and SU, day of month with day of week, month, year. */
  function Layout(f: Fields): (e: seq<byte>)
    requires InRange(f)
    ensures |e| == 7
  {
    var ms := f.second * 1000 + f.millisecond;
    [ms % 256, ms / 256, f.minute + 64 * Flag(f.substituted) + 128 * Flag(f.invalid),
     f.hour + 32 * f.hourReserved + 128 * Flag(f.summerTime), f.dayOfMonth + 32 * f.dayOfWeek,
     f.month + 16 * f.monthReserved, f.year + 128 * f.yearReserved]
  }

  /** The fields of these octets, and these octets only, read back. */
  lemma LayoutReadsBack(f: Fields, e: seq<byte>)
    requires InRange(f) && |e| == 7
    ensures Decode(e) == f <==> e == Layout(f)
  {
    TimeReadsBack(f);
    DateReadsBack(f);
    hide Layout, Decode;
    if Decode(e) == f { DecodeInjective(e, Layout(f)); }
  }

  lemma TimeReadsBack(f: Fields)
    requires InRange(f)
    ensures var d := Decode(Layout(f));
            && d.second == f.second && d.millisecond == f.millisecond
            && d.minute == f.minute && d.substituted == f.substituted && d.invalid == f.invalid
            && d.hour == f.hour && d.hourReserved == f.hourReserved && d.summerTime == f.summerTime
  {
    var e := Layout(f);
    var ms := f.second * 1000 + f.millisecond;
    assert e[0] as int == ms % 256 && e[1] as int == ms / 256;
    assert e[2] as int == f.minute + 64 * Flag(f.substituted) + 128 * Flag(f.invalid);
    assert e[3] as int == f.hour + 32 * f.hourReserved + 128 * Flag(f.summerTime);
    hide Layout, Flag, Word;
    MillisecondOctets(f.second, f.millisecond, e[0], e[1]);
    MinuteOctet(f.minute, f.substituted, f.invalid, e[2]);
    HourOctet(f.hour, f.hourReserved, f.summerTime, e[3]);
  }

  lemma MillisecondOctets(second: nat, millisecond: nat, low: byte, high: byte)
    requires millisecond < 1000
    requires var ms := second * 1000 + millisecond; low as int == ms % 256 && high as int == ms / 256
    ensures Word(low, high) / 1000 == second && Word(low, high) % 1000 == millisecond
  {
    Thousands(second, millisecond);
    assert Word(low, high) == second * 1000 + millisecond;
  }

  lemma MinuteOctet(minute: nat, substituted: bool, invalid: bool, b: byte)
    requires minute < 64 && b as int == minute + 64 * Flag(substituted) + 128 * Flag(invalid)
    ensures b % 64 == minute && (b / 64 % 2 == 1 <==> substituted) && (b / 128 == 1 <==> invalid)
  {
    FlagsAbove(minute, Flag(substituted), Flag(invalid));
  }

  lemma HourOctet(hour: nat, reserved: nat, summerTime: bool, b: byte)
    requires hour < 32 && reserved < 4 && b as int == hour + 32 * reserved + 128 * Flag(summerTime)
    ensures b % 32 == hour && b / 32 % 4 == reserved && (b / 128 == 1 <==> summerTime)
  {
    PartsAbove(hour, reserved, Flag(summerTime));
  }

  lemma DateReadsBack(f: Fields)
    requires InRange(f)
    ensures var d := Decode(Layout(f));
            && d.dayOfMonth == f.dayOfMonth && d.dayOfWeek == f.dayOfWeek && d.month == f.month
            && d.monthReserved == f.monthReserved && d.year == f.year && d.yearReserved == f.yearReserved
  {
    LowPart(f.dayOfMonth, f.dayOfWeek, 32);
    LowPart(f.month, f.monthReserved, 16);
    LowPart(f.year, f.yearReserved, 128);
    var e := Layout(f);
    assert e[4] as int == f.dayOfMonth + 32 * f.dayOfWeek;
    assert e[5] as int == f.month + 16 * f.monthReserved;
    assert e[6] as int == f.year + 128 * f.yearReserved;
    hide Layout, Word;
  }

  lemma Thousands(second: nat, millisecond: nat)
    requires millisecond < 1000
    ensures (second * 1000 + millisecond) / 1000 == second && (second * 1000 + millisecond) % 1000 == millisecond
  {
  }

  lemma FlagsAbove(minute: nat, low: nat, high: nat)
    requires minute < 64 && low < 2 && high < 2
    ensures var x := minute + 64 * low + 128 * high; x % 64 == minute && x / 64 % 2 == low && x / 128 == high
  {
  }

  lemma PartsAbove(hour: nat, middle: nat, high: nat)
    requires hour < 32 && middle < 4 && high < 2
    ensures var x := hour + 32 * middle + 128 * high; x % 32 == hour && x / 32 % 4 == middle && x / 128 == high
  {
    assert hour + 32 * middle + 128 * high == hour + 32 * (middle + 4 * high);
  }

  lemma LowPart(low: nat, high: nat, n: nat)
    requires low < n && n in {16, 32, 128}
    ensures (low + n * high) % n == low && (low + n * high) / n == high
  {
  }

  lemma SameQuotients(v: nat, w: nat)
    requires v / 1000 == w / 1000 && v % 1000 == w % 1000
    ensures v == w
  {
  }

  lemma SameWord(a: byte, b: byte, c: byte, d: byte)
    requires Word(a, b) == Word(c, d)
    ensures a == c && b == d
  {
  }

  lemma SameBits(v: byte, w: byte, x: byte, y: byte)
    requires v % 64 == w % 64 && (v / 64 % 2 == 1 <==> w / 64 % 2 == 1) && (v / 128 == 1 <==> w / 128 == 1)
    requires x % 32 == y % 32 && x / 32 % 4 == y / 32 % 4 && (x / 128 == 1 <==> y / 128 == 1)
    ensures v == w && x == y
  {
    assert v / 128 == v / 64 / 2 && w / 128 == w / 64 / 2 && x / 128 == x / 32 / 4 && y / 128 == y / 32 / 4;
    assert v / 64 == w / 64 && x / 32 == y / 32;
  }

  lemma SameBytes(a: byte, b: byte, c: byte, d: byte, e: byte, f: byte)
    requires a % 32 == b % 32 && a / 32 == b / 32 && c % 16 == d % 16 && c / 16 == d / 16
    requires e % 128 == f % 128 && e / 128 == f / 128
    ensures a == b && c == d && e == f
  {
  }

  /** What setFromMsTimestamp stores. */
  function FromMs(timestamp: nat): Fields {
    var tm := Gmtime(timestamp / 1000);
    Fields(tm.sec, timestamp % 1000, tm.min, false, false, tm.hour, 0, false, tm.mday, 0, tm.mon + 1, 0, tm.year % 100, 0)
  }

  /** What toMsTimestamp reads. */
  function ToMs(f: Fields): int {
    MkTime(Tm(f.year + 100, f.month - 1, f.dayOfMonth, f.hour, f.minute, f.second)) * 1000 + f.millisecond
  }

  /** The two-digit year limits the conversion: a time comes back exactly if its year is 2000 to 2099. */
  lemma RoundTrip(timestamp: nat)
    ensures ToMs(FromMs(timestamp)) == timestamp <==> 100 <= Gmtime(timestamp / 1000).year <= 199
  {
    hide MkTime, Gmtime, ValidTm;
    var tm := Gmtime(timestamp / 1000);
    GmtimeUnique(timestamp / 1000, tm);
    YearOf(tm);
    var read := tm.(year := tm.year % 100 + 100);
    assert ToMs(FromMs(timestamp)) == MkTime(read) * 1000 + timestamp % 1000;
    if read.year == tm.year {
      assert read == tm;
    } else {
      OtherYear(tm, read.year);
    }
  }

  lemma YearOf(tm: Tm)
    requires ValidTm(tm)
    ensures tm.year >= 70
    ensures tm.year % 100 + 100 == tm.year <==> 100 <= tm.year <= 199
  {
  }

  /** Reading a day with another year gives another count, even for February 29. */
  lemma OtherYear(tm: Tm, year: int)
    requires ValidTm(tm) && year >= 70 && year != tm.year
    ensures MkTime(tm.(year := year)) != MkTime(tm)
  {
    var other := tm.(year := year);
    if ValidTm(other) {
      Injective(tm, other);
    } else {
      var next := other.(mon := 2, mday := 1);
      assert tm.mon == 1 && tm.mday == 29;
      LeapDay(year);
      assert MkTime(next) == MkTime(other);
      Injective(tm, next);
    }
  }

  lemma LeapDay(year: int)
    requires year >= 70 && !Leap(1900 + year)
    ensures ClosedDayNumber(year, 1, 29) == ClosedDayNumber(year, 2, 1)
  {
    ClosedMonth(1900 + year, 1);
    ClosedMonth(1900 + year, 2);
  }

  /** The dates 2000-01-01 00:00:00.000 and 2099-12-31 23:59:59.999 bound the usable range. */
  lemma UsableRange(timestamp: nat)
    ensures 100 <= Gmtime(timestamp / 1000).year <= 199 <==> 946684800000 <= timestamp < 4102444800000
  {
    assert MkTime(Tm(100, 0, 1, 0, 0, 0)) == 946684800 && MkTime(Tm(200, 0, 1, 0, 0, 0)) == 4102444800;
    hide Gmtime, MkTime;
    var tm := Gmtime(timestamp / 1000);
    GmtimeUnique(timestamp / 1000, tm);
    YearBegins(tm, 100);
    YearBegins(tm, 200);
  }

  lemma YearBegins(tm: Tm, year: int)
    requires ValidTm(tm) && year >= 70
    ensures tm.year >= year <==> MkTime(tm) >= MkTime(Tm(year, 0, 1, 0, 0, 0))
  {
    hide MkTime;
    var start := Tm(year, 0, 1, 0, 0, 0);
    if Earlier(tm, start) {
      StrictlyIncreasing(tm, start);
    } else if tm != start {
      StrictlyIncreasing(start, tm);
    }
  }

  /** The low bits of an octet replaced: (b & ~mask) | (value & mask) for the mask m - 1. */
  function Masked(b: byte, m: nat, value: int): byte
    requires m in {16, 32, 64, 128}
  {
    b / m * m + value % m
  }

  lemma MaskedParts(b: byte, m: nat, value: int)
    requires m in {16, 32, 64, 128}
    ensures Masked(b, m, value) % m == value % m && Masked(b, m, value) / m == b / m
    ensures m == 64 ==> Masked(b, m, value) / 128 == b / 128
    ensures m == 32 ==> Masked(b, m, value) / 128 == b / 128
  {
    if m == 16 {
      Replaced16(b / 16, value % 16);
    } else if m == 32 {
      Replaced32(b / 32, value % 32);
      Replaced32(b / 32, b % 32);
    } else if m == 64 {
      Replaced64(b / 64, value % 64);
      Replaced64(b / 64, b % 64);
    } else {
      Replaced128(b / 128, value % 128);
    }
  }

  lemma Replaced16(q: int, r: int)
    requires 0 <= r < 16
    ensures (q * 16 + r) % 16 == r && (q * 16 + r) / 16 == q
  {
  }

  lemma Replaced32(q: int, r: int)
    requires 0 <= r < 32
    ensures (q * 32 + r) % 32 == r && (q * 32 + r) / 32 == q && (q * 32 + r) / 128 == q / 4
  {
  }

  lemma Replaced128(q: int, r: int)
    requires 0 <= r < 128
    ensures (q * 128 + r) % 128 == r && (q * 128 + r) / 128 == q
  {
  }

  lemma Replaced64(q: int, r: int)
    requires 0 <= r < 64
    ensures (q * 64 + r) % 64 == r && (q * 64 + r) / 64 == q && (q * 64 + r) / 128 == q / 2
  {
  }

  /** Division and remainder of C. */
  function Quotient(v: int, n: nat): int
    requires n > 0
  {
    if v >= 0 then v / n else -(-v / n)
  }

  function Remainder(v: int, n: nat): int
    requires n > 0
  {
    v - Quotient(v, n) * n
  }

  lemma YearRemainder(value: int)
    ensures value >= 0 ==> Remainder(value, 100) == value % 100 == Remainder(value, 100) % 128
  {
    if value >= 0 { assert value == 100 * (value / 100) + value % 100; }
  }

  /** What the low octet and the quotient by 256 leave of a number: the number modulo 65536, and 256 more for a negative
      one that 256 does not divide. */
  function StoredWord(v: int): nat {
    (if v >= 0 || v % 0x100 == 0 then v else v + 0x100) % 0x1_0000
  }

  lemma LowOctets(v: int)
    ensures Word(v % 0x100, Quotient(v, 0x100) % 0x100) == StoredWord(v)
  {
    var w := if v >= 0 || v % 0x100 == 0 then v else v + 0x100;
    QuotientByWord(v, w);
    TwoOctets(w);
  }

  lemma QuotientByWord(v: int, w: int)
    requires w == if v >= 0 || v % 0x100 == 0 then v else v + 0x100
    ensures w % 0x100 == v % 0x100 && Quotient(v, 0x100) == w / 0x100
  {
    var q, r := v / 0x100, v % 0x100;
    assert v == 0x100 * q + r;
    if v < 0 {
      NegativeQuotient(q, r);
    }
  }

  lemma NegativeQuotient(q: int, r: int)
    requires 0 <= r < 0x100
    ensures -(0x100 * q + r) / 0x100 == if r == 0 then -q else -q - 1
    ensures (0x100 * q + r + 0x100) / 0x100 == q + 1 && (0x100 * q + r + 0x100) % 0x100 == r
  {
  }

  lemma TwoOctets(v: int)
    ensures Word(v % 0x100, v / 0x100 % 0x100) == v % 0x10000
  {
    ThreeDigits(v / 0x10000, v / 0x100 % 0x100, v % 0x100);
    Nested(v);
  }

  lemma Nested(v: int)
    ensures v / 0x100 / 0x100 == v / 0x10000
  {
  }

  lemma ThreeDigits(high: int, middle: nat, low: nat)
    requires middle < 0x100 && low < 0x100
    ensures (high * 0x10000 + middle * 0x100 + low) % 0x10000 == middle * 0x100 + low
  {
  }

  class CP56Time2a {
    const encodedValue: array<byte>

    ghost predicate Valid() { encodedValue.Length == 7 }

    ghost function Value(): Fields
      requires Valid()
      reads encodedValue
    {
      Decode(encodedValue[..])
    }

    constructor ()
      ensures Valid() && fresh(encodedValue) && encodedValue[..] == [0, 0, 0, 0, 0, 0, 0]
    {
      encodedValue := new byte[7](_ => 0);
    }

    method StoreWord(millies: int)
      requires Valid()
      modifies encodedValue
      ensures Value() == old(Value()).(second := StoredWord(millies) / 1000, millisecond := StoredWord(millies) % 1000)
    {
      LowOctets(millies);
      hide StoredWord, Quotient;
      encodedValue[0] := millies % 0x100;
      encodedValue[1] := Quotient(millies, 0x100) % 0x100;
    }

    /** The second is kept as long as the two octets can hold the sum. */
    method SetMillisecond(value: int)
      requires Valid()
      modifies encodedValue
      ensures var millies := old(Value()).second * 1000 + value;
              Value() == old(Value()).(second := StoredWord(millies) / 1000, millisecond := StoredWord(millies) % 1000)
    {
      var millies := Word(encodedValue[0], encodedValue[1]);
      millies := millies - millies % 1000;
      millies := millies + value;
      StoreWord(millies);
    }

    method SetSecond(value: int)
      requires Valid()
      modifies encodedValue
      ensures var millies := value * 1000 + old(Value()).millisecond;
              Value() == old(Value()).(second := StoredWord(millies) / 1000, millisecond := StoredWord(millies) % 1000)
    {
      var millies := Word(encodedValue[0], encodedValue[1]);
      var msPart := millies % 1000;
      millies := value * 1000 + msPart;
      StoreWord(millies);
    }

    method SetMinute(value: int)
      requires Valid()
      modifies encodedValue
      ensures Value() == old(Value()).(minute := value % 64)
    {
      MaskedParts(encodedValue[2], 64, value);
      encodedValue[2] := Masked(encodedValue[2], 64, value);
    }

    method SetHour(value: int)
      requires Valid()
      modifies encodedValue
      ensures Value() == old(Value()).(hour := value % 32)
    {
      MaskedParts(encodedValue[3], 32, value);
      encodedValue[3] := Masked(encodedValue[3], 32, value);
    }

    method SetDayOfWeek(value: int)
      requires Valid()
      modifies encodedValue
      ensures Value() == old(Value()).(dayOfWeek := value % 8)
    {
      var b: int := encodedValue[4];
      encodedValue[4] := b % 32 + value % 8 * 32;
    }

    method SetDayOfMonth(value: int)
      requires Valid()
      modifies encodedValue
      ensures Value() == old(Value()).(dayOfMonth := value % 32)
    {
      MaskedParts(encodedValue[4], 32, value);
      encodedValue[4] := Masked(encodedValue[4], 32, value);
    }

    method SetMonth(value: int)
      requires Valid()
      modifies encodedValue
      ensures Value() == old(Value()).(month := value % 16)
    {
      MaskedParts(encodedValue[5], 16, value);
      encodedValue[5] := Masked(encodedValue[5], 16, value);
    }

    method SetYear(value: int)
      requires Valid()
      modifies encodedValue
      ensures Value() == old(Value()).(year := Remainder(value, 100) % 128)
      ensures value >= 0 ==> Value().year == value % 100
    {
      YearRemainder(value);
      var twoDigits := Remainder(value, 100);
      hide Remainder, Masked;
      MaskedParts(encodedValue[6], 128, twoDigits);
      encodedValue[6] := Masked(encodedValue[6], 128, twoDigits);
    }

    method SetFromMsTimestamp(timestamp: nat)
      requires Valid()
      modifies encodedValue
      ensures Value() == FromMs(timestamp)
    {
      hide Gmtime, Masked, Decode, ValidTm, DaysInMonth, StoredWord, Remainder;
      for i := 0 to 7
        invariant forall j | 0 <= j < i :: encodedValue[j] == 0
      {
        encodedValue[i] := 0;
      }
      Cleared(encodedValue[..]);
      var timeVal := timestamp / 1000;
      var msPart := timestamp % 1000;
      var tmTime := Gmtime(timeVal);
      FieldsFit(tmTime, msPart);
      SetMillisecond(msPart);
      SetSecond(tmTime.sec);
      SetMinute(tmTime.min);
      SetHour(tmTime.hour);
      SetDayOfMonth(tmTime.mday);
      SetDayOfWeek(0);
      SetMonth(tmTime.mon + 1);
      SetYear(tmTime.year);
    }

    method ToMsTimestamp() returns (msTimestamp: int)
      requires Valid()
      ensures msTimestamp == ToMs(Value())
    {
      hide MkTime;
      var e := encodedValue[..];
      var tmTime := Tm(e[6] as int % 128 + 100, e[5] as int % 16 - 1, e[4] as int % 32, e[3] as int % 32,
                       e[2] as int % 64, Word(e[0], e[1]) / 1000);
      msTimestamp := MkTime(tmTime) * 1000 + Word(e[0], e[1]) % 1000;
    }
  }

  /** Every part of a valid time fits its bit field. */
  lemma FieldsFit(tm: Tm, ms: nat)
    requires ValidTm(tm) && ms < 1000
    ensures 0 <= tm.sec < 60 && 0 <= tm.min < 60 && 0 <= tm.hour < 24 && 1 <= tm.mday < 32 && 0 <= tm.mon < 12
    ensures StoredWord(ms) / 1000 == 0 && StoredWord(ms) % 1000 == ms && 0 <= tm.year
    ensures StoredWord(tm.sec * 1000 + ms) / 1000 == tm.sec && StoredWord(tm.sec * 1000 + ms) % 1000 == ms
  {
    assert 1 <= tm.mday < 32;
    hide DaysInMonth;
    SecondsAndRest(tm.sec, ms);
    SecondsAndRest(0, ms);
  }

  lemma SecondsAndRest(sec: nat, ms: nat)
    requires sec < 60 && ms < 1000
    ensures (sec * 1000 + ms) % 0x10000 / 1000 == sec && (sec * 1000 + ms) % 0x10000 % 1000 == ms
  {
    assert (sec * 1000 + ms) % 0x10000 == sec * 1000 + ms;
  }

  lemma Cleared(e: seq<byte>)
    requires |e| == 7 && forall j | 0 <= j < 7 :: e[j] == 0
    ensures Decode(e) == Fields(0, 0, 0, false, false, 0, 0, false, 0, 0, 0, 0, 0, 0)
  {
  }

  /** The octets after setFromMsTimestamp, and nothing else, read back as the timestamp. */
  method StoreAndRead(time: CP56Time2a, timestamp: nat) returns (back: int)
    requires time.Valid()
    modifies time.encodedValue
    ensures back == timestamp <==> 946684800000 <= timestamp < 4102444800000
  {
    time.SetFromMsTimestamp(timestamp);
    back := time.ToMsTimestamp();
    RoundTrip(timestamp);
    UsableRange(timestamp);
  }
}
