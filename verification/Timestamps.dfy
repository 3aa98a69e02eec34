/**
 The ISO 8601 UTC stamps of src/async/task_manager.cpp.  The table compares them as
 strings; this module proves that the comparison is the comparison of instants
 (sections 5.1 and 5.6 of RFC 3339), which is what TaskStore's integers assume.
 */
module Timestamps {
  import opened Strings
  import opened Division
  import TaskStore

  // -------------------------------------------------- the civil calendar

  predicate IsLeap(y: int) {
    y % 4 == 0 && (y % 100 != 0 || y % 400 == 0)
  }

  /** Days from the first day of year 0 to the first day of year y. */
  function DaysBeforeYear(y: nat): nat {
    365 * y + (y + 3) / 4 - (y + 99) / 100 + (y + 399) / 400
  }

  /** How a count of the multiples of d below a number grows. */
  lemma MultiplesGrow(y: nat, d: nat)
    requires d > 1
    ensures (y + d) / d == (y + d - 1) / d + if y % d == 0 then 1 else 0
  {
    var (q, r) := (y / d, y % d);
    assert y == d * q + r;
    assert d * (q + 1) == d * q + d;
    DivMod(y + d, d, q + 1, r);
    if r == 0 {
      DivMod(y + d - 1, d, q, d - 1);
    } else {
      DivMod(y + d - 1, d, q + 1, r - 1);
    }
  }

  lemma LeapMultiples(y: nat)
    ensures y % 100 == 0 ==> y % 4 == 0
    ensures y % 400 == 0 ==> y % 100 == 0
  {
    if y % 100 == 0 { DivMod(y, 4, 25 * (y / 100), 0); }
    if y % 400 == 0 { DivMod(y, 100, 4 * (y / 400), 0); }
  }

  lemma YearLength(y: nat)
    ensures DaysBeforeYear(y + 1) == DaysBeforeYear(y) + if IsLeap(y) then 366 else 365
  {
    MultiplesGrow(y, 4);
    MultiplesGrow(y, 100);
    MultiplesGrow(y, 400);
    LeapMultiples(y);
  }

  lemma {:induction false} YearsAscend(y: nat, z: nat)
    requires y <= z
    ensures DaysBeforeYear(y) + (z - y) <= DaysBeforeYear(z)
    decreases z
  {
    if y < z {
      YearsAscend(y, z - 1);
      YearLength(z - 1);
    }
  }

  function DaysInMonth(y: nat, m: nat): nat {
    if m == 2 then (if IsLeap(y) then 29 else 28)
    else if m in {4, 6, 9, 11} then 30 else 31
  }

  function DaysBeforeMonth(y: nat, m: nat): nat
    requires 1 <= m <= 13
  {
    if m == 1 then 0 else DaysBeforeMonth(y, m - 1) + DaysInMonth(y, m - 1)
  }

  lemma {:induction false} MonthsAscend(y: nat, m: nat, n: nat)
    requires 1 <= m <= n <= 13
    ensures DaysBeforeMonth(y, m) <= DaysBeforeMonth(y, n)
    decreases n
  {
    if m < n { MonthsAscend(y, m, n - 1); }
  }

  lemma MonthsFillYear(y: nat)
    ensures DaysBeforeMonth(y, 13) == if IsLeap(y) then 366 else 365
  {
    var feb := DaysInMonth(y, 2);
    assert DaysBeforeMonth(y, 2) == 31;
    assert DaysBeforeMonth(y, 3) == 31 + feb;
    assert DaysBeforeMonth(y, 4) == 62 + feb;
    assert DaysBeforeMonth(y, 5) == 92 + feb;
    assert DaysBeforeMonth(y, 6) == 123 + feb;
    assert DaysBeforeMonth(y, 7) == 153 + feb;
    assert DaysBeforeMonth(y, 8) == 184 + feb;
    assert DaysBeforeMonth(y, 9) == 215 + feb;
    assert DaysBeforeMonth(y, 10) == 245 + feb;
    assert DaysBeforeMonth(y, 11) == 276 + feb;
    assert DaysBeforeMonth(y, 12) == 306 + feb;
    assert DaysBeforeMonth(y, 13) == 337 + feb;
  }

  datatype Date = Date(year: nat, month: nat, day: nat)

  predicate Valid(d: Date) {
    1 <= d.month <= 12 && 1 <= d.day <= DaysInMonth(d.year, d.month)
  }

  /** Days since the first day of year 0. */
  function DayNumber(d: Date): nat
    requires Valid(d)
  {
    DaysBeforeYear(d.year) + DaysBeforeMonth(d.year, d.month) + d.day - 1
  }

  predicate Earlier(a: Date, b: Date) {
    a.year < b.year || (a.year == b.year && (a.month < b.month || (a.month == b.month && a.day < b.day)))
  }

  lemma EarlierHasSmallerNumber(a: Date, b: Date)
    requires Valid(a) && Valid(b) && Earlier(a, b)
    ensures DayNumber(a) < DayNumber(b)
  {
    MonthsAscend(a.year, a.month + 1, 13);
    if a.year < b.year {
      MonthsFillYear(a.year);
      YearLength(a.year);
      YearsAscend(a.year + 1, b.year);
    } else if a.month < b.month {
      MonthsAscend(a.year, a.month + 1, b.month);
    }
  }

  /** The calendar order is the order of day numbers. */
  lemma DateOrder(a: Date, b: Date)
    requires Valid(a) && Valid(b)
    ensures Earlier(a, b) <==> DayNumber(a) < DayNumber(b)
    ensures DayNumber(a) == DayNumber(b) ==> a == b
  {
    if Earlier(a, b) { EarlierHasSmallerNumber(a, b); }
    if Earlier(b, a) { EarlierHasSmallerNumber(b, a); }
  }

  // ---------------------------------------------------------------- gmtime

  function YearFrom(y: nat, n: nat): (r: nat)
    requires DaysBeforeYear(y) <= n
    ensures y <= r && DaysBeforeYear(r) <= n < DaysBeforeYear(r + 1)
    decreases n - DaysBeforeYear(y)
  {
    YearLength(y);
    if n < DaysBeforeYear(y + 1) then y else YearFrom(y + 1, n)
  }

  function MonthFrom(y: nat, m: nat, n: nat): (r: nat)
    requires 1 <= m <= 12 && DaysBeforeMonth(y, m) <= n < DaysBeforeMonth(y, 13)
    ensures m <= r <= 12 && DaysBeforeMonth(y, r) <= n < DaysBeforeMonth(y, r + 1)
    decreases 13 - m
  {
    if n < DaysBeforeMonth(y, m + 1) then m else MonthFrom(y, m + 1, n)
  }

  function DateOf(n: nat): (d: Date)
    ensures Valid(d) && DayNumber(d) == n
  {
    var y := YearFrom(0, n);
    YearLength(y);
    MonthsFillYear(y);
    var m := MonthFrom(y, 1, n - DaysBeforeYear(y));
    Date(y, m, n - DaysBeforeYear(y) - DaysBeforeMonth(y, m) + 1)
  }

  /** Day number of 1970-01-01. */
  const EPOCH := DaysBeforeYear(1970)

  function DayOf(secs: int): int {
    secs / 86400 + EPOCH
  }

  /** The instants whose year has four digits. */
  predicate FourDigitYear(secs: int) {
    0 <= DayOf(secs) < DaysBeforeYear(10000)
  }

  // ------------------------------------------------------------- rendering

  function Digit(n: nat): char
    requires n < 10
  {
    '0' + n as char
  }

  /** printf's %0wd on a non-negative number. */
  function Padded(n: nat, w: nat): string
    decreases n + w
  {
    if n < 10 && w <= 1 then [Digit(n)] else Padded(n / 10, if w == 0 then 0 else w - 1) + [Digit(n % 10)]
  }

  function Pow10(w: nat): nat {
    if w == 0 then 1 else 10 * Pow10(w - 1)
  }

  /** In range, padded numbers have one width and are ordered as the numbers are. */
  lemma {:induction false} PaddedOrder(a: nat, b: nat, w: nat)
    requires 1 <= w && a < Pow10(w) && b < Pow10(w)
    ensures |Padded(a, w)| == |Padded(b, w)| == w
    ensures Less(Padded(a, w), Padded(b, w)) <==> a < b
    ensures Padded(a, w) == Padded(b, w) ==> a == b
  {
    if w > 1 {
      PaddedOrder(a / 10, b / 10, w - 1);
      var (x, y) := (Padded(a / 10, w - 1), Padded(b / 10, w - 1));
      LessOfConcat(x, y, [Digit(a % 10)], [Digit(b % 10)]);
      assert Padded(a, w)[..w - 1] == x && Padded(b, w)[..w - 1] == y;
      assert Padded(a, w)[w - 1] == Digit(a % 10) && Padded(b, w)[w - 1] == Digit(b % 10);
      if a / 10 == b / 10 {
        assert x == y;
        LessIrreflexive(x);
      }
    }
  }

  /** One fixed-width number and the punctuation after it. */
  datatype Field = Field(value: nat, width: nat, mark: string)

  function Render(fields: seq<Field>): string {
    if fields == [] then "" else Padded(fields[0].value, fields[0].width) + fields[0].mark + Render(fields[1..])
  }

  predicate SameLayout(f: seq<Field>, g: seq<Field>) {
    && |f| == |g|
    && forall i | 0 <= i < |f| ::
         && f[i].width == g[i].width >= 1 && f[i].mark == g[i].mark
         && f[i].value < Pow10(f[i].width) && g[i].value < Pow10(g[i].width)
  }

  predicate FieldsLess(f: seq<Field>, g: seq<Field>)
    requires |f| == |g|
  {
    f != [] && (f[0].value < g[0].value || (f[0].value == g[0].value && FieldsLess(f[1..], g[1..])))
  }

  /** Equally long numbers with the same mark after them are compared first. */
  lemma FieldFirst(a: string, b: string, mark: string, x: string, y: string)
    requires |a| == |b|
    ensures Less(a + mark + x, b + mark + y) <==> Less(a, b) || (a == b && Less(x, y))
  {
    LessOfConcat(a, b, mark + x, mark + y);
    LessOfConcat(mark, mark, x, y);
    LessIrreflexive(mark);
    assert a + (mark + x) == a + mark + x && b + (mark + y) == b + mark + y;
  }

  lemma {:induction false} RenderOrder(f: seq<Field>, g: seq<Field>)
    requires SameLayout(f, g)
    ensures Less(Render(f), Render(g)) <==> FieldsLess(f, g)
  {
    if f != [] {
      PaddedOrder(f[0].value, g[0].value, f[0].width);
      SameLayoutTail(f, g);
      RenderOrder(f[1..], g[1..]);
      FieldFirst(Padded(f[0].value, f[0].width), Padded(g[0].value, g[0].width), f[0].mark, Render(f[1..]),
        Render(g[1..]));
    }
  }

  lemma SameLayoutTail(f: seq<Field>, g: seq<Field>)
    requires SameLayout(f, g) && f != []
    ensures SameLayout(f[1..], g[1..])
    ensures f[0].width == g[0].width >= 1 && f[0].mark == g[0].mark
    ensures f[0].value < Pow10(f[0].width) && g[0].value < Pow10(g[0].width)
  {
  }

  function Fields(secs: int, ms: nat): seq<Field>
    requires 0 <= DayOf(secs)
  {
    var d := DateOf(DayOf(secs));
    var t := secs % 86400;
    [Field(d.year, 4, "-"), Field(d.month, 2, "-"), Field(d.day, 2, "T"),
     Field(t / 3600, 2, ":"), Field(t / 60 % 60, 2, ":"), Field(t % 60, 2, "."), Field(ms, 3, "Z")]
  }

  /** UnixToIso8601. */
  function UnixToIso8601(secs: int): string
    requires 0 <= DayOf(secs)
  {
    Render(Fields(secs, 0))
  }

  /** NowIso8601 at a number of milliseconds since the epoch. */
  function NowIso8601(ms: nat): string {
    Render(Fields(ms / 1000, ms % 1000))
  }

  // ------------------------------------------------------------------ order

  lemma YearBound(n: nat)
    requires n < DaysBeforeYear(10000)
    ensures DateOf(n).year < 10000
  {
    var d := DateOf(n);
    if d.year >= 10000 {
      YearsAscend(10000, d.year);
      assert false;
    }
  }

  lemma ClockRanges(t: nat)
    requires t < 86400
    ensures t / 3600 < 24 && t / 60 % 60 < 60 && t % 60 < 60
  {
  }

  lemma FieldRanges(secs: int, ms: nat)
    requires FourDigitYear(secs) && ms < 1000
    ensures SameLayout(Fields(secs, ms), Fields(secs, ms))
  {
    YearBound(DayOf(secs));
    ClockRanges(secs % 86400);
    assert Pow10(2) == 100 && Pow10(3) == 1000 && Pow10(4) == 10000;
    var f := Fields(secs, ms);
    assert f[0].value < 10000 && f[1].value < 100 && f[2].value < 100 && f[3].value < 100;
    assert f[4].value < 100 && f[5].value < 100 && f[6].value < 1000;
  }

  predicate ClockLess(f: seq<Field>, g: seq<Field>)
    requires |f| == |g| == 7
  {
    || f[3].value < g[3].value
    || (f[3].value == g[3].value && (f[4].value < g[4].value
    || (f[4].value == g[4].value && (f[5].value < g[5].value
    || (f[5].value == g[5].value && f[6].value < g[6].value)))))
  }

  lemma SevenFields(f: seq<Field>, g: seq<Field>)
    requires |f| == |g| == 7
    ensures FieldsLess(f, g) <==>
      || Earlier(Date(f[0].value, f[1].value, f[2].value), Date(g[0].value, g[1].value, g[2].value))
      || (f[0].value == g[0].value && f[1].value == g[1].value && f[2].value == g[2].value && ClockLess(f, g))
  {
    forall i | 0 <= i < 7 ensures f[i..][1..] == f[i + 1..] && g[i..][1..] == g[i + 1..] {
    }
    assert f[0..] == f && g[0..] == g;
    assert FieldsLess(f[6..], g[6..]) <==> f[6].value < g[6].value;
    assert FieldsLess(f[5..], g[5..]) <==>
      f[5].value < g[5].value || (f[5].value == g[5].value && f[6].value < g[6].value);
    assert FieldsLess(f[4..], g[4..]) <==>
      f[4].value < g[4].value || (f[4].value == g[4].value && FieldsLess(f[5..], g[5..]));
    assert FieldsLess(f[3..], g[3..]) <==> ClockLess(f, g);
    assert FieldsLess(f[2..], g[2..]) <==> f[2].value < g[2].value || (f[2].value == g[2].value && ClockLess(f, g));
    assert FieldsLess(f[1..], g[1..]) <==>
      f[1].value < g[1].value || (f[1].value == g[1].value && FieldsLess(f[2..], g[2..]));
  }

  /** Within a day, hours, minutes, seconds and milliseconds order as the elapsed time. */
  lemma ClockOrder(s: nat, t: nat, m: nat, n: nat)
    requires s < 86400 && t < 86400 && m < 1000 && n < 1000
    ensures (s < t || (s == t && m < n)) <==>
      || s / 3600 < t / 3600
      || (s / 3600 == t / 3600 && (s / 60 % 60 < t / 60 % 60
      || (s / 60 % 60 == t / 60 % 60 && (s % 60 < t % 60
      || (s % 60 == t % 60 && m < n)))))
  {
    ClockParts(s);
    ClockParts(t);
  }

  lemma ClockParts(s: nat)
    ensures s == 3600 * (s / 3600) + 60 * (s / 60 % 60) + s % 60
    ensures 0 <= s / 60 % 60 < 60 && 0 <= s % 60 < 60
  {
    var (minutes, seconds) := (s / 60, s % 60);
    assert s == 60 * minutes + seconds;
    assert minutes == 60 * (minutes / 60) + minutes % 60;
    DivMod(s, 3600, minutes / 60, 60 * (minutes % 60) + seconds);
  }

  /** Instants are ordered by day, then by the time within the day. */
  lemma DayFirst(s: int, m: nat, t: int, n: nat)
    requires m < 1000 && n < 1000
    ensures 1000 * s + m < 1000 * t + n <==>
      || s / 86400 < t / 86400
      || (s / 86400 == t / 86400 && (s % 86400 < t % 86400 || (s % 86400 == t % 86400 && m < n)))
  {
    assert s == 86400 * (s / 86400) + s % 86400 && t == 86400 * (t / 86400) + t % 86400;
  }

  lemma FieldsOrder(s: int, m: nat, t: int, n: nat)
    requires 0 <= DayOf(s) && 0 <= DayOf(t) && m < 1000 && n < 1000
    ensures FieldsLess(Fields(s, m), Fields(t, n)) <==> 1000 * s + m < 1000 * t + n
  {
    SevenFields(Fields(s, m), Fields(t, n));
    DateFields(s, t);
    ClockFields(s, m, t, n);
    DayFirst(s, m, t, n);
  }

  lemma DateFields(s: int, t: int)
    requires 0 <= DayOf(s) && 0 <= DayOf(t)
    ensures var (a, b) := (DateOf(DayOf(s)), DateOf(DayOf(t)));
            && (Earlier(a, b) <==> s / 86400 < t / 86400)
            && (a == b <==> s / 86400 == t / 86400)
  {
    DateOrder(DateOf(DayOf(s)), DateOf(DayOf(t)));
  }

  lemma ClockFields(s: int, m: nat, t: int, n: nat)
    requires 0 <= DayOf(s) && 0 <= DayOf(t) && m < 1000 && n < 1000
    ensures ClockLess(Fields(s, m), Fields(t, n)) <==>
            s % 86400 < t % 86400 || (s % 86400 == t % 86400 && m < n)
  {
    ClockOrder(s % 86400, t % 86400, m, n);
  }

  /** Stamps of years 0 to 9999 compare as strings exactly as their instants do. */
  lemma StampOrder(s: int, m: nat, t: int, n: nat)
    requires FourDigitYear(s) && FourDigitYear(t) && m < 1000 && n < 1000
    ensures Less(Render(Fields(s, m)), Render(Fields(t, n))) <==> 1000 * s + m < 1000 * t + n
  {
    FieldRanges(s, m);
    FieldRanges(t, n);
    RenderOrder(Fields(s, m), Fields(t, n));
    FieldsOrder(s, m, t, n);
  }

  /** A stamp sorts before a whole-second cutoff exactly when it is earlier. */
  lemma CutoffOrder(stamp: nat, secs: int)
    requires FourDigitYear(stamp / 1000) && FourDigitYear(secs)
    ensures Less(NowIso8601(stamp), UnixToIso8601(secs)) <==> stamp < 1000 * secs
  {
    StampOrder(stamp / 1000, stamp % 1000, secs, 0);
  }

  /** The oldest queued row by created_at string is the oldest by instant. */
  lemma CreationOrder(a: nat, b: nat)
    requires FourDigitYear(a / 1000) && FourDigitYear(b / 1000)
    ensures Less(NowIso8601(a), NowIso8601(b)) <==> a < b
  {
    StampOrder(a / 1000, a % 1000, b / 1000, b % 1000);
  }

  /** The guards of the zombie sweep and the requeue, written on strings as in the
      source, are the integer guards of TaskStore; one processing row meets exactly one
      of the two. */
  lemma RequeueOrSweepByString(row: TaskStore.Row, nowSecs: int, hours: int, secs: int)
    requires row.status == TaskStore.Processing && row.updatedAt >= 0 && secs == nowSecs - hours * 3600
    requires FourDigitYear(row.updatedAt / 1000) && FourDigitYear(secs)
    ensures var older := Less(NowIso8601(row.updatedAt), UnixToIso8601(secs));
            && (older <==> TaskStore.Zombie(row, TaskStore.Cutoff(nowSecs, hours * 3600)))
            && (!older <==> TaskStore.Stale(row, TaskStore.Cutoff(nowSecs, hours * 3600)))
  {
    CutoffOrder(row.updatedAt, secs);
  }

  /** The lookup's guard, written on strings as in the source, is the integer guard of
      TaskStore: the creation stamp does not sort before the stamp of the current second
      less the window. */
  lemma DebounceByString(row: TaskStore.Row, now: int, window: int, secs: int)
    requires row.createdAt >= 0 && secs == now / 1000 - window
    requires FourDigitYear(row.createdAt / 1000) && FourDigitYear(secs)
    ensures !Less(NowIso8601(row.createdAt), UnixToIso8601(secs))
            <==> row.createdAt >= TaskStore.DebounceCutoff(now, window)
  {
    CutoffOrder(row.createdAt, secs);
  }

  lemma YearOfDay(n: nat, y: nat)
    requires DaysBeforeYear(y) <= n < DaysBeforeYear(y + 1)
    ensures DateOf(n).year == y
  {
    var r := YearFrom(0, n);
    assert DateOf(n).year == r;
    if r < y { YearsAscend(r + 1, y); }
  }

  lemma FirstDigits()
    ensures Padded(9999, 4)[0] == '9' && Padded(10000, 4)[0] == '1'
  {
    assert Padded(99, 2) == Padded(9, 1) + ['9'];
    assert Padded(999, 3) == Padded(99, 2) + ['9'];
    assert Padded(10, 1) == Padded(1, 0) + ['0'];
    assert Padded(100, 2) == Padded(10, 1) + ['0'];
    assert Padded(1000, 3) == Padded(100, 2) + ['0'];
  }

  /** The bound on the year is needed: every stamp of year 10000 sorts before every
      stamp of year 9999. */
  lemma YearTenThousandSortsFirst(s: int, t: int, m: nat, n: nat)
    requires DaysBeforeYear(9999) <= DayOf(s) < DaysBeforeYear(10000) <= DayOf(t) < DaysBeforeYear(10001)
    ensures s < t && Less(Render(Fields(t, n)), Render(Fields(s, m)))
  {
    YearOfDay(DayOf(s), 9999);
    YearOfDay(DayOf(t), 10000);
    FirstDigits();
    var (f, g) := (Fields(t, n), Fields(s, m));
    assert Render(f)[0] == Padded(f[0].value, 4)[0] && Render(g)[0] == Padded(g[0].value, 4)[0];
  }
}
