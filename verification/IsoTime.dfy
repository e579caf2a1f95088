/** Timestamps as fixed-width text, and why the text sorts as the time does. */
module IsoTime {
  import opened Ascii
  import opened Bytes
  import opened ByteOrder

  // ------------------------------------------------------------------
  // Calendar: the proleptic Gregorian calendar from 0001-01-01
  // ------------------------------------------------------------------

  predicate IsLeap(y: nat) { y % 4 == 0 && (y % 100 != 0 || y % 400 == 0) }

  function YearLength(y: nat): nat { if IsLeap(y) then 366 else 365 }

  /** Days before year y. */
  function YearStart(y: nat): nat
    requires y >= 1
  {
    if y == 1 then 0 else YearStart(y - 1) + YearLength(y - 1)
  }

  const MONTH_LENGTHS: seq<nat> := [31, 28, 31, 30, 31, 30, 31, 31, 30, 31, 30, 31]

  function MonthLength(y: nat, m: nat): (n: nat)
    requires 1 <= m <= 12
    ensures 28 <= n <= 31
  {
    if m == 2 && IsLeap(y) then 29 else MONTH_LENGTHS[m - 1]
  }

  /** Days of the year before month m. */
  function MonthStart(y: nat, m: nat): (n: nat)
    requires 1 <= m <= 13
  {
    if m == 1 then 0 else MonthStart(y, m - 1) + MonthLength(y, m - 1)
  }

  lemma YearStep(y: nat)
    requires y >= 1
    ensures YearStart(y + 1) == YearStart(y) + YearLength(y) && YearStart(1) == 0
  {
  }

  lemma MonthStep(y: nat, m: nat)
    requires 1 <= m <= 12
    ensures MonthStart(y, m + 1) == MonthStart(y, m) + MonthLength(y, m) && MonthStart(y, 1) == 0
  {
  }

  lemma WholeYear(y: nat)
    ensures MonthStart(y, 13) == YearLength(y)
  {
    hide MonthStart;
    MonthStep(y, 1);
    MonthStep(y, 2);
    MonthStep(y, 3);
    MonthStep(y, 4);
    MonthStep(y, 5);
    MonthStep(y, 6);
    MonthStep(y, 7);
    MonthStep(y, 8);
    MonthStep(y, 9);
    MonthStep(y, 10);
    MonthStep(y, 11);
    MonthStep(y, 12);
  }

  /** The year, from y on, that a day falls in. */
  function YearOf(day: nat, y: nat): (r: nat)
    requires y >= 1 && YearStart(y) <= day
    ensures y <= r && YearStart(r) <= day < YearStart(r + 1)
    decreases day - YearStart(y)
  {
    if day < YearStart(y + 1) then y else YearOf(day, y + 1)
  }

  /** The month, from m on, that a day of the year falls in. */
  function MonthOf(y: nat, day: nat, m: nat): (r: nat)
    requires 1 <= m <= 12 && MonthStart(y, m) <= day < MonthStart(y, 13)
    ensures m <= r <= 12 && MonthStart(y, r) <= day < MonthStart(y, r + 1)
    decreases 13 - m
  {
    if day < MonthStart(y, m + 1) then m else MonthOf(y, day, m + 1)
  }

  // ------------------------------------------------------------------
  // The fields of a timestamp
  // ------------------------------------------------------------------

  /** Seconds since the Unix epoch of 0001-01-01T00:00:00 and of the end of 9999, the range of a timestamp. */
  const FIRST_SECOND: int := -62135596800
  const LAST_SECOND: int := 253402300799

  predicate InRange(t: int) { FIRST_SECOND <= t <= LAST_SECOND }

  datatype Civil = Civil(year: nat, month: nat, day: nat, hour: nat, minute: nat, second: nat)

  function DayOf(t: int): nat
    requires FIRST_SECOND <= t
  {
    (t - FIRST_SECOND) / 86400
  }

  function CivilOf(t: int): (c: Civil)
    requires FIRST_SECOND <= t
    ensures 1 <= c.year && 1 <= c.month <= 12 && 1 <= c.day <= 31
    ensures c.hour < 24 && c.minute < 60 && c.second < 60
  {
    var day, clock := DayOf(t), (t - FIRST_SECOND) % 86400;
    var y := YearOf(day, 1);
    WholeYear(y);
    var m := MonthOf(y, day - YearStart(y), 1);
    Civil(y, m, day - YearStart(y) - MonthStart(y, m) + 1, clock / 3600, clock / 60 % 60, clock % 60)
  }

  // ------------------------------------------------------------------
  // Fields and time agree on the order
  // ------------------------------------------------------------------

  lemma {:induction false} YearsGrow(y: nat, z: nat)
    requires 1 <= y < z
    ensures YearStart(y + 1) <= YearStart(z) && YearStart(z) >= YearStart(y) + 365
    decreases z
  {
    if y + 1 < z { YearsGrow(y, z - 1); }
  }

  lemma {:induction false} MonthsGrow(y: nat, m: nat, n: nat)
    requires 1 <= m < n <= 12
    ensures MonthStart(y, m + 1) <= MonthStart(y, n)
    decreases n
  {
    if m + 1 < n { MonthsGrow(y, m, n - 1); }
  }

  predicate DateBefore(c: Civil, d: Civil) {
    c.year < d.year || (c.year == d.year && (c.month < d.month || (c.month == d.month && c.day < d.day)))
  }

  predicate SameDate(c: Civil, d: Civil) { c.year == d.year && c.month == d.month && c.day == d.day }

  predicate ClockBefore(c: Civil, d: Civil) {
    c.hour < d.hour || (c.hour == d.hour && (c.minute < d.minute || (c.minute == d.minute && c.second < d.second)))
  }

  lemma DaysInOrder(t: int, u: int)
    requires FIRST_SECOND <= t && FIRST_SECOND <= u && DayOf(t) < DayOf(u)
    ensures DateBefore(CivilOf(t), CivilOf(u))
  {
    hide MonthLength, YearLength, MonthStart, YearStart, MonthOf, YearOf, DayOf;
    YearStep(1);
    var y, z := YearOf(DayOf(t), 1), YearOf(DayOf(u), 1);
    YearStep(y);
    YearsInOrder(DayOf(t), DayOf(u));
    WholeYear(y);
    MonthStep(y, 1);
    if y == z { MonthsInOrder(y, DayOf(t) - YearStart(y), DayOf(u) - YearStart(y)); }
  }

  lemma YearsInOrder(d: nat, e: nat)
    requires d < e
    ensures YearStart(1) == 0 && YearOf(d, 1) <= YearOf(e, 1)
  {
    hide YearLength, YearOf;
    var y, z := YearOf(d, 1), YearOf(e, 1);
    if y > z { YearsGrow(z, y); }
  }

  lemma MonthsInOrder(y: nat, d: nat, e: nat)
    requires d < e < MonthStart(y, 13) && MonthStart(y, 1) == 0
    ensures MonthOf(y, d, 1) <= MonthOf(y, e, 1)
  {
    hide MonthOf, MonthStart;
    var m, n := MonthOf(y, d, 1), MonthOf(y, e, 1);
    if m > n { MonthsGrow(y, n, m); }
  }

  lemma ClockInOrder(a: nat, b: nat)
    requires a < b < 86400
    ensures a / 3600 < b / 3600
            || (a / 3600 == b / 3600 && (a / 60 % 60 < b / 60 % 60 || (a / 60 % 60 == b / 60 % 60 && a % 60 < b % 60)))
  {
    var h, k := a / 3600, b / 3600;
    assert a / 60 == 60 * h + a / 60 % 60 && b / 60 == 60 * k + b / 60 % 60 by {
      Hours(a);
      Hours(b);
    }
  }

  lemma Hours(a: nat)
    ensures a / 60 / 60 == a / 3600 && a / 60 == 60 * (a / 3600) + a / 60 % 60
  {
  }

  /** An earlier second has the earlier date, or the same date and the earlier clock. */
  lemma CivilInOrder(t: int, u: int)
    requires FIRST_SECOND <= t < u
    ensures var c, d := CivilOf(t), CivilOf(u); DateBefore(c, d) || (SameDate(c, d) && ClockBefore(c, d))
  {
    hide YearOf, MonthOf, YearStart, MonthStart;
    assert DayOf(t) <= DayOf(u);
    if DayOf(t) < DayOf(u) {
      DaysInOrder(t, u);
    } else {
      ClockInOrder((t - FIRST_SECOND) % 86400, (u - FIRST_SECOND) % 86400);
    }
  }

  // ------------------------------------------------------------------
  // The text
  // ------------------------------------------------------------------

  /** The last n decimal digits of x. */
  function Pad(x: nat, n: nat): (s: Bytes)
    ensures |s| == n
    ensures forall i :: 0 <= i < n ==> 48 <= s[i] <= 57
  {
    if n == 0 then [] else Pad(x / 10, n - 1) + [(48 + x % 10) as byte]
  }

  const DASH: byte := 45
  const COLON: byte := 58
  const LETTER_T: byte := 84

  function DateText(c: Civil): (s: Bytes)
    ensures |s| == 10
  {
    Pad(c.year, 4) + ([DASH] + (Pad(c.month, 2) + ([DASH] + Pad(c.day, 2))))
  }

  function ClockText(c: Civil): (s: Bytes)
    ensures |s| == 8
  {
    Pad(c.hour, 2) + ([COLON] + (Pad(c.minute, 2) + ([COLON] + Pad(c.second, 2))))
  }

  /** yyyy-MM-ddTHH:mm:ss */
  function IsoKey(t: int): (s: Bytes)
    requires FIRST_SECOND <= t
    ensures |s| == 19
  {
    DateText(CivilOf(t)) + ([LETTER_T] + ClockText(CivilOf(t)))
  }

  // ------------------------------------------------------------------
  // Fixed-width text in byte order
  // ------------------------------------------------------------------

  /** Texts of equal length decide the order before what follows them does. */
  lemma {:induction false} LessConcat(a: Bytes, b: Bytes, x: Bytes, y: Bytes)
    requires |a| == |b|
    ensures Less(a, b) ==> Less(a + x, b + y)
    ensures a == b ==> (Less(a + x, b + y) <==> Less(x, y))
  {
    if a == [] {
      assert a + x == x && b + y == y;
    } else {
      assert (a + x)[1..] == a[1..] + x && (b + y)[1..] == b[1..] + y;
      LessConcat(a[1..], b[1..], x, y);
      if a == b { assert a[1..] == b[1..]; }
    }
  }

  lemma {:induction false} PadInOrder(a: nat, b: nat, n: nat)
    requires a < b < Pow10(n)
    ensures Less(Pad(a, n), Pad(b, n))
  {
    if n > 0 {
      var last, next := [(48 + a % 10) as byte], [(48 + b % 10) as byte];
      if a / 10 < b / 10 { PadInOrder(a / 10, b / 10, n - 1); }
      LessConcat(Pad(a / 10, n - 1), Pad(b / 10, n - 1), last, next);
    }
  }

  lemma Powers()
    ensures Pow10(2) == 100 && Pow10(4) == 10000
  {
    assert Pow10(3) == 1000;
  }

  lemma DateTextInOrder(c: Civil, d: Civil)
    requires DateBefore(c, d) && d.year < 10000 && c.month < 100 && d.month < 100 && c.day < 100 && d.day < 100
    ensures Less(DateText(c), DateText(d))
  {
    hide Pad, Less;
    Powers();
    var md, nd := Pad(c.day, 2), Pad(d.day, 2);
    var m1, m2 := Pad(c.month, 2) + ([DASH] + md), Pad(d.month, 2) + ([DASH] + nd);
    LessConcat(Pad(c.year, 4), Pad(d.year, 4), [DASH] + m1, [DASH] + m2);
    LessConcat([DASH], [DASH], m1, m2);
    LessConcat(Pad(c.month, 2), Pad(d.month, 2), [DASH] + md, [DASH] + nd);
    LessConcat([DASH], [DASH], md, nd);
    if c.year < d.year { PadInOrder(c.year, d.year, 4); }
    else if c.month < d.month { PadInOrder(c.month, d.month, 2); }
    else { PadInOrder(c.day, d.day, 2); }
  }

  lemma ClockTextInOrder(c: Civil, d: Civil)
    requires ClockBefore(c, d) && d.hour < 100 && c.minute < 100 && d.minute < 100 && c.second < 100 && d.second < 100
    ensures Less(ClockText(c), ClockText(d))
  {
    hide Pad, Less;
    Powers();
    var s1, s2 := Pad(c.second, 2), Pad(d.second, 2);
    var m1, m2 := Pad(c.minute, 2) + ([COLON] + s1), Pad(d.minute, 2) + ([COLON] + s2);
    LessConcat(Pad(c.hour, 2), Pad(d.hour, 2), [COLON] + m1, [COLON] + m2);
    LessConcat([COLON], [COLON], m1, m2);
    LessConcat(Pad(c.minute, 2), Pad(d.minute, 2), [COLON] + s1, [COLON] + s2);
    LessConcat([COLON], [COLON], s1, s2);
    if c.hour < d.hour { PadInOrder(c.hour, d.hour, 2); }
    else if c.minute < d.minute { PadInOrder(c.minute, d.minute, 2); }
    else { PadInOrder(c.second, d.second, 2); }
  }

  // ------------------------------------------------------------------
  // The years have four digits
  // ------------------------------------------------------------------

  lemma Quotients(n: nat, k: nat)
    requires k > 0
    ensures (n + 1) / k == n / k + if (n + 1) % k == 0 then 1 else 0
  {
    var q, r := n / k, n % k;
    assert n == k * q + r;
    if r + 1 == k { Divided(n + 1, k, q + 1, 0); } else { Divided(n + 1, k, q, r + 1); }
  }

  lemma Divided(n: nat, k: nat, q: nat, r: nat)
    requires 0 <= r < k && n == k * q + r
    ensures n / k == q && n % k == r
  {
    var d := n / k - q;
    assert k * (n / k) + n % k == n;
    assert k * d == r - n % k;
    MulBounds(k, d);
  }

  lemma MulBounds(k: int, d: int)
    requires k > 0
    ensures (d >= 1 ==> k * d >= k) && (d <= -1 ==> k * d <= -k)
  {
  }

  /** Leap days counted in closed form. */
  lemma {:induction false} YearStartClosed(y: nat)
    requires y >= 1
    ensures YearStart(y) == 365 * (y - 1) + (y - 1) / 4 - (y - 1) / 100 + (y - 1) / 400
  {
    hide YearStart, YearLength;
    if y == 1 {
      FirstYear();
    } else {
      YearStartClosed(y - 1);
      YearStartNext(y - 1);
      LeapsNext(y - 2);
    }
  }

  lemma FirstYear()
    ensures YearStart(1) == 0
  {
  }

  lemma YearStartNext(y: nat)
    requires y >= 1
    ensures YearStart(y + 1) == YearStart(y) + YearLength(y)
  {
  }

  lemma LeapsNext(n: nat)
    ensures (n + 1) / 4 - (n + 1) / 100 + (n + 1) / 400 == n / 4 - n / 100 + n / 400 + YearLength(n + 1) - 365
  {
    Quotients(n, 4);
    Quotients(n, 100);
    Quotients(n, 400);
    LeapParts(n + 1);
  }

  lemma LeapParts(y: nat)
    ensures (y % 100 == 0 ==> y % 4 == 0) && (y % 400 == 0 ==> y % 100 == 0)
  {
    hide *;
    if y % 100 == 0 { Divided(y, 4, 25 * (y / 100), 0); }
    if y % 400 == 0 { Divided(y, 100, 4 * (y / 400), 0); }
  }

  lemma FourDigitYear(t: int)
    requires InRange(t)
    ensures CivilOf(t).year <= 9999
  {
    hide YearOf, YearStart, MonthOf, MonthStart;
    YearStep(1);
    var y := YearOf(DayOf(t), 1);
    YearStartClosed(10000);
    if y > 10000 { YearsGrow(10000, y); }
  }

  /** Keys sort as the seconds they stand for, over the whole range of timestamps. */
  lemma IsoOrder(t: int, u: int)
    requires InRange(t) && InRange(u)
    ensures Less(IsoKey(t), IsoKey(u)) <==> t < u
  {
    hide IsoKey, Less;
    if t < u { IsoIncreases(t, u); }
    else if u < t {
      IsoIncreases(u, t);
      LessAsymmetric(IsoKey(u), IsoKey(t));
    } else {
      LessIrreflexive(IsoKey(t));
    }
  }

  lemma IsoIncreases(t: int, u: int)
    requires InRange(t) && InRange(u) && t < u
    ensures Less(IsoKey(t), IsoKey(u))
  {
    hide CivilOf, DateText, ClockText, Less, DateBefore, ClockBefore;
    var c, d := CivilOf(t), CivilOf(u);
    FourDigitYear(u);
    CivilInOrder(t, u);
    var x, y := [LETTER_T] + ClockText(c), [LETTER_T] + ClockText(d);
    LessConcat(DateText(c), DateText(d), x, y);
    LessConcat([LETTER_T], [LETTER_T], ClockText(c), ClockText(d));
    if DateBefore(c, d) { DateTextInOrder(c, d); }
    else {
      SameDateText(c, d);
      ClockTextInOrder(c, d);
    }
  }

  lemma SameDateText(c: Civil, d: Civil)
    requires SameDate(c, d)
    ensures DateText(c) == DateText(d)
  {
  }

  /** The two constants are right: second zero is the start of 1970. */
  lemma UnixEpoch()
    ensures CivilOf(0) == Civil(1970, 1, 1, 0, 0, 0)
  {
    hide YearOf, YearStart, MonthOf, MonthStart;
    YearStep(1);
    YearStartClosed(1970);
    YearStartClosed(1971);
    var y := YearOf(719162, 1);
    if y < 1970 { YearsGrow(y, 1970); }
    if y > 1971 { YearsGrow(1971, y); }
    WholeYear(1970);
    MonthStep(1970, 1);
    var m := MonthOf(1970, 0, 1);
    if m > 1 { MonthsGrow(1970, 1, m); }
  }

  // ------------------------------------------------------------------
  // Back from the fields, and from the text
  // ------------------------------------------------------------------

  /**
   * Days since 0001-01-01 by the usual closed formula: years that start in
   * March, so that the leap day is the last of its year.
   */
  function DaysOf(y: nat, m: nat, d: nat): int
    requires y >= 1 && 1 <= m <= 12
  {
    var years := if m <= 2 then y - 1 else y;
    var months := if m <= 2 then m + 9 else m - 3;
    365 * years + years / 4 - years / 100 + years / 400 + (153 * months + 2) / 5 + d - 1 - 306
  }

  function SecondOf(c: Civil): int
    requires c.year >= 1 && 1 <= c.month <= 12
  {
    FIRST_SECOND + 86400 * DaysOf(c.year, c.month, c.day) + 3600 * c.hour + 60 * c.minute + c.second
  }

  /** The fields of a second give the second back. */
  lemma CivilInverts(t: int)
    requires FIRST_SECOND <= t
    ensures SecondOf(CivilOf(t)) == t
  {
    var clock := (t - FIRST_SECOND) % 86400;
    ClockInverts(clock);
    WholeDay(t);
    hide DayOf, DaysOf, YearOf, YearStart, MonthOf, MonthStart;
  }

  lemma ClockInverts(clock: nat)
    ensures 3600 * (clock / 3600) + 60 * (clock / 60 % 60) + clock % 60 == clock
  {
    Hours(clock);
  }

  lemma WholeDay(t: int)
    requires FIRST_SECOND <= t
    ensures var c := CivilOf(t); DaysOf(c.year, c.month, c.day) == DayOf(t)
    ensures t == FIRST_SECOND + 86400 * DayOf(t) + (t - FIRST_SECOND) % 86400
  {
    hide YearOf, YearStart, MonthOf, MonthStart, DaysOf;
    YearStep(1);
    var day := DayOf(t);
    var y := YearOf(day, 1);
    WholeYear(y);
    YearStep(y);
    MonthStep(y, 1);
    var m := MonthOf(y, day - YearStart(y), 1);
    DaysAdd(y, m, day - YearStart(y) - MonthStart(y, m) + 1);
  }

  lemma DaysAdd(y: nat, m: nat, d: nat)
    requires y >= 1 && 1 <= m <= 12
    ensures DaysOf(y, m, d) == YearStart(y) + MonthStart(y, m) + d - 1
  {
    hide YearStart, MonthStart, IsLeap;
    YearStartClosed(y);
    MonthDays(y, m);
    if m > 2 {
      LeapsNext(y - 1);
    }
  }

  /** The days before a month, counted from March. */
  lemma MonthDays(y: nat, m: nat)
    requires 1 <= m <= 12
    ensures MonthStart(y, m) == if m <= 2 then (153 * (m + 9) + 2) / 5 - 306
                                else (153 * (m - 3) + 2) / 5 + (if IsLeap(y) then 60 else 59)
  {
    hide MonthStart, IsLeap;
    MonthStep(y, 1);
    MonthStep(y, 2);
    MonthStep(y, 3);
    MonthStep(y, 4);
    MonthStep(y, 5);
    MonthStep(y, 6);
    MonthStep(y, 7);
    MonthStep(y, 8);
    MonthStep(y, 9);
    MonthStep(y, 10);
    MonthStep(y, 11);
  }

  /** The range of a timestamp is the years 0001 to 9999. */
  lemma RangeIs()
    ensures SecondOf(Civil(1, 1, 1, 0, 0, 0)) == FIRST_SECOND
    ensures SecondOf(Civil(1970, 1, 1, 0, 0, 0)) == 0
    ensures SecondOf(Civil(9999, 12, 31, 23, 59, 59)) == LAST_SECOND
  {
  }

  function Number(s: Bytes): int { if s == [] then 0 else 10 * Number(s[..|s| - 1]) + s[|s| - 1] - 48 }

  lemma {:induction false} PadReads(x: nat, n: nat)
    requires x < Pow10(n)
    ensures Number(Pad(x, n)) == x
  {
    if n > 0 {
      var s, t := Pad(x, n), Pad(x / 10, n - 1);
      assert s[..n - 1] == t && s[n - 1] == 48 + x % 10;
      PadReads(x / 10, n - 1);
      hide Pad, Pow10;
      assert Number(s) == 10 * Number(t) + x % 10;
    }
  }

  /** The fields of a text of the form yyyy-MM-ddTHH:mm:ss. */
  function FieldsOf(s: Bytes): (int, int, int, int, int, int)
    requires |s| == 19
  {
    (Number(s[..4]), Number(s[5..7]), Number(s[8..10]), Number(s[11..13]), Number(s[14..16]), Number(s[17..]))
  }

  /** The text of a timestamp has that form, and the second can be told from its fields. */
  lemma IsoReads(t: int)
    requires InRange(t)
    ensures var s := IsoKey(t);
            && s[4] == s[7] == OfText("-")[0] && s[10] == OfText("T")[0] && s[13] == s[16] == OfText(":")[0]
            && (forall i :: 0 <= i < 19 && i !in {4, 7, 10, 13, 16} ==> OfText("0")[0] <= s[i] <= OfText("9")[0])
            && var (y, m, d, hour, minute, second) := FieldsOf(s);
               y >= 1 && 1 <= m <= 12 && d >= 0 && hour >= 0 && minute >= 0 && second >= 0
               && SecondOf(Civil(y, m, d, hour, minute, second)) == t
  {
    hide Pad, Number, CivilOf, SecondOf;
    var c := CivilOf(t);
    Powers();
    FourDigitYear(t);
    CivilInverts(t);
    PadReads(c.year, 4);
    PadReads(c.month, 2);
    PadReads(c.day, 2);
    PadReads(c.hour, 2);
    PadReads(c.minute, 2);
    PadReads(c.second, 2);
    DateSlices(c);
    ClockSlices(c);
    var s, date, clock := IsoKey(t), DateText(c), ClockText(c);
    hide DateText, ClockText;
    KeySlices(date, clock);
    assert c == Civil(c.year, c.month, c.day, c.hour, c.minute, c.second);
  }

  lemma DateSlices(c: Civil)
    ensures var s := DateText(c);
            && s[..4] == Pad(c.year, 4) && s[4] == s[7] == 45 && s[5..7] == Pad(c.month, 2)
            && s[8..10] == Pad(c.day, 2)
            && forall i :: 0 <= i < 10 && i !in {4, 7} ==> 48 <= s[i] <= 57
  {
    hide Pad;
  }

  lemma ClockSlices(c: Civil)
    ensures var s := ClockText(c);
            && s[..2] == Pad(c.hour, 2) && s[2] == s[5] == 58 && s[3..5] == Pad(c.minute, 2)
            && s[6..8] == Pad(c.second, 2)
            && forall i :: 0 <= i < 8 && i !in {2, 5} ==> 48 <= s[i] <= 57
  {
    hide Pad;
  }

  lemma KeySlices(date: Bytes, clock: Bytes)
    requires |date| == 10 && |clock| == 8
    ensures var s := date + ([LETTER_T] + clock);
            && |s| == 19 && s[10] == 84
            && s[..4] == date[..4] && s[5..7] == date[5..7] && s[8..10] == date[8..10]
            && s[11..13] == clock[..2] && s[14..16] == clock[3..5] && s[17..] == clock[6..8]
            && (forall i :: 0 <= i < 10 ==> s[i] == date[i]) && forall i :: 11 <= i < 19 ==> s[i] == clock[i - 11]
  {
  }
}
