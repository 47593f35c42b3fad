/** The clock rendering behind lease expiry in fszero-store: seconds since 1970 to a UTC date and
    time, rendered so that comparing strings compares times. */
module CivilDate {

  datatype Date = Date(year: int, month: int, day: int)

  // ----- the Gregorian calendar, independently of the algorithm -------------------------------

  predicate IsLeap(y: int) {
    y % 4 == 0 && (y % 100 != 0 || y % 400 == 0)
  }

  function MonthLength(y: int, m: int): int {
    if m == 2 then (if IsLeap(y) then 29 else 28)
    else if m == 4 || m == 6 || m == 9 || m == 11 then 30
    else 31
  }

  predicate IsDate(d: Date) {
    1 <= d.month <= 12 && 1 <= d.day <= MonthLength(d.year, d.month)
  }

  function NextDay(d: Date): Date {
    if d.day < MonthLength(d.year, d.month) then d.(day := d.day + 1)
    else if d.month < 12 then Date(d.year, d.month + 1, 1)
    else Date(d.year + 1, 1, 1)
  }

  predicate Before(a: Date, b: Date) {
    a.year < b.year || (a.year == b.year && (a.month < b.month || (a.month == b.month && a.day < b.day)))
  }

  // ----- the algorithm ------------------------------------------------------------------------

  // Days from 0000-03-01 to 1970-01-01, and in 400 years.
  const EPOCH_SHIFT := 719468
  const ERA_DAYS := 146097

  function YearOfEra(doe: int): int {
    (doe - doe / 1460 + doe / 36524 - doe / 146096) / 365
  }

  /** Day of the era on which its y-th year, counted from March, starts. */
  function YearStart(y: int): int {
    365 * y + y / 4 - y / 100
  }

  /** Day of the year, counted from March, on which its mp-th month starts. */
  function MonthStart(mp: int): int {
    (153 * mp + 2) / 5
  }

  function FromEra(era: int, yoe: int, doy: int): Date {
    var mp := (5 * doy + 2) / 153;
    var d := doy - MonthStart(mp) + 1;
    var m := if mp < 10 then mp + 3 else mp - 9;
    var y := yoe + era * 400;
    Date(if m <= 2 then y + 1 else y, m, d)
  }

  // Day counts are never negative here, so the adjustment for negative eras does not arise.
  function CivilFromDays(days: nat): Date {
    var z := days + EPOCH_SHIFT;
    var era := z / ERA_DAYS;
    var doe := z - era * ERA_DAYS;
    var yoe := YearOfEra(doe);
    FromEra(era, yoe, doe - YearStart(yoe))
  }

  /** Years of an era end where the next starts; the last one has the extra leap day of the era. */
  function YearEnd(y: int): int {
    if y == 399 then ERA_DAYS else YearStart(y + 1)
  }

  /** A day of the era: century `c`, then leap cycle `q`, then year `r` of it, then day `k`. The
      366th day exists in a year that ends a cycle, unless it also ends one of the first three
      centuries. */
  predicate IsEraDay(c: int, q: int, r: int, k: int) {
    0 <= c <= 3 && 0 <= q <= 24 && 0 <= r <= 3 && 0 <= k <= 365 && (k == 365 ==> r == 3 && (q < 24 || c == 3))
  }

  function EraDay(c: int, q: int, r: int, k: int): int {
    36524 * c + 1461 * q + 365 * r + k
  }

  function EraYear(c: int, q: int, r: int): int {
    100 * c + 4 * q + r
  }

  lemma EraYearStarts(c: int, q: int, r: int, k: int)
    requires IsEraDay(c, q, r, k)
    ensures var y := EraYear(c, q, r);
      && 0 <= y <= 399 && EraDay(c, q, r, k) == YearStart(y) + k
      && (YearEnd(y) - YearStart(y) == if r == 3 && (q < 24 || c == 3) then 366 else 365)
  {
    var y := EraYear(c, q, r);
    assert y / 4 == 25 * c + q;
    assert y / 100 == c;
    if r == 3 {
      assert (y + 1) / 4 == 25 * c + q + 1;
      assert (y + 1) / 100 == if q == 24 then c + 1 else c;
    } else {
      assert (y + 1) / 4 == 25 * c + q;
      assert (y + 1) / 100 == c;
    }
  }

  /** The year formula finds the year of every day of the era. */
  lemma YearOfEraDay(c: int, q: int, r: int, k: int)
    requires IsEraDay(c, q, r, k)
    ensures YearOfEra(EraDay(c, q, r, k)) == EraYear(c, q, r)
  {
    var doe := EraDay(c, q, r, k);
    var rest := 24 * c + q + 365 * r + k;
    var e := rest / 1460;
    assert doe == 1460 * (25 * c + q) + rest;
    assert doe / 1460 == 25 * c + q + e;
    var last := if doe == 146096 then 1 else 0;
    assert doe / 146096 == last;
    assert doe / 36524 == c + last;
    assert e == 0 || e == 1;
    assert doe - doe / 1460 + doe / 36524 - doe / 146096 == 365 * EraYear(c, q, r) + (k - e);
    assert 0 <= k - e < 365;
  }

  function Least(a: int, b: int): int {
    if a < b then a else b
  }

  lemma SplitEraDay(doe: int) returns (c: int, q: int, r: int, k: int)
    requires 0 <= doe < ERA_DAYS
    ensures IsEraDay(c, q, r, k) && doe == EraDay(c, q, r, k)
  {
    c := Least(doe / 36524, 3);
    var t := doe - 36524 * c;
    assert 0 <= t <= 36524 && (c < 3 ==> t < 36524);
    q := Least(t / 1461, 24);
    var u := t - 1461 * q;
    assert 0 <= u <= 1460;
    r := Least(u / 365, 3);
    k := u - 365 * r;
  }

  lemma YearOfEraIsRight(doe: int)
    requires 0 <= doe < ERA_DAYS
    ensures var y := YearOfEra(doe); 0 <= y <= 399 && YearStart(y) <= doe < YearEnd(y)
  {
    var c, q, r, k := SplitEraDay(doe);
    YearOfEraDay(c, q, r, k);
    EraYearStarts(c, q, r, k);
  }

  lemma YearParts(y: int) returns (c: int, q: int, r: int)
    requires 0 <= y <= 399
    ensures y == EraYear(c, q, r) && 0 <= c <= 3 && 0 <= q <= 24 && 0 <= r <= 3
  {
    c := y / 100;
    q := (y - 100 * c) / 4;
    r := y - 100 * c - 4 * q;
  }

  lemma EraYearLength(y: int)
    requires 0 <= y <= 399
    ensures YearEnd(y) - YearStart(y) == if IsLeap(y + 1) then 366 else 365
  {
    var c, q, r := YearParts(y);
    EraYearStarts(c, q, r, 0);
    LeapParts(c, q, r);
  }

  /** The length of a year of the era follows the civil year in which it ends. */
  lemma YearLength(era: int, y: int)
    requires 0 <= y <= 399
    ensures YearEnd(y) - YearStart(y) == if IsLeap(y + 1 + era * 400) then 366 else 365
  {
    EraYearLength(y);
    LeapInEra(era, y + 1);
  }

  lemma LeapParts(c: int, q: int, r: int)
    requires 0 <= c <= 3 && 0 <= q <= 24 && 0 <= r <= 3
    ensures IsLeap(EraYear(c, q, r) + 1) <==> r == 3 && (q < 24 || c == 3)
  {
    var y := EraYear(c, q, r) + 1;
    Cycle4(r + 1, 25 * c + q);
    Cycle100(4 * q + r + 1, c);
    assert y % 4 == (r + 1) % 4;
    assert y % 100 == (4 * q + r + 1) % 100;
    assert y % 100 == 0 <==> q == 24 && r == 3;
  }

  lemma YearOfDay(y: int, doy: int)
    requires 0 <= y <= 399 && 0 <= doy < YearEnd(y) - YearStart(y)
    ensures YearOfEra(YearStart(y) + doy) == y && 0 <= YearStart(y) + doy < ERA_DAYS && doy <= 365
  {
    var c, q, r := YearParts(y);
    EraYearStarts(c, q, r, 0);
    EraYearStarts(c, q, r, doy);
    YearOfEraDay(c, q, r, doy);
  }

  lemma Cycle4(y: int, n: int)
    ensures (y + 4 * n) % 4 == y % 4
  {
  }

  lemma Cycle100(y: int, n: int)
    ensures (y + 100 * n) % 100 == y % 100
  {
  }

  lemma Cycle400(y: int, n: int)
    ensures (y + 400 * n) % 400 == y % 400
  {
  }

  lemma LeapInEra(era: int, y: int)
    ensures IsLeap(y + era * 400) == IsLeap(y)
  {
    Cycle4(y, 100 * era);
    Cycle100(y, 4 * era);
    Cycle400(y, era);
  }

  function MonthOf(doy: int): int {
    (5 * doy + 2) / 153
  }

  lemma MonthOfIsRight(doy: int)
    requires 0 <= doy <= 365
    ensures var mp := MonthOf(doy); 0 <= mp <= 11 && MonthStart(mp) <= doy < MonthStart(mp + 1)
    ensures forall mp :: 0 <= mp <= 11 && MonthStart(mp) <= doy < MonthStart(mp + 1) ==> mp == MonthOf(doy)
  {
  }

  /** Months counted from March have the lengths of the calendar, except that the last one ends
      with the year. */
  lemma MonthLengths(year: int, mp: int)
    requires 0 <= mp <= 10
    ensures MonthStart(mp + 1) - MonthStart(mp) == MonthLength(year, if mp < 10 then mp + 3 else mp - 9)
  {
  }

  lemma FromEraNext(era: int, yoe: int, doy: int)
    requires 0 <= yoe <= 399 && 0 <= doy < YearEnd(yoe) - YearStart(yoe)
    ensures IsDate(FromEra(era, yoe, doy))
    ensures doy + 1 < YearEnd(yoe) - YearStart(yoe) ==> FromEra(era, yoe, doy + 1) == NextDay(FromEra(era, yoe, doy))
    ensures doy + 1 == YearEnd(yoe) - YearStart(yoe) ==>
              NextDay(FromEra(era, yoe, doy)) == Date(yoe + 1 + era * 400, 3, 1)
  {
    YearLength(era, yoe);
    MonthOfIsRight(doy);
    var mp := MonthOf(doy);
    if mp <= 10 {
      MonthLengths(FromEra(era, yoe, doy).year, mp);
    }
    if doy + 1 <= 365 {
      MonthOfIsRight(doy + 1);
    }
  }

  lemma EraSplit(era: int, doe: int)
    requires 0 <= doe < ERA_DAYS
    ensures (era * ERA_DAYS + doe) / ERA_DAYS == era
  {
  }

  lemma CivilOf(days: nat, era: int, yoe: int, doy: int)
    requires days + EPOCH_SHIFT == era * ERA_DAYS + YearStart(yoe) + doy
    requires 0 <= yoe <= 399 && 0 <= doy < YearEnd(yoe) - YearStart(yoe)
    ensures CivilFromDays(days) == FromEra(era, yoe, doy)
  {
    YearOfDay(yoe, doy);
    EraSplit(era, YearStart(yoe) + doy);
  }

  lemma PartsOf(days: nat) returns (era: int, yoe: int, doy: int)
    ensures days + EPOCH_SHIFT == era * ERA_DAYS + YearStart(yoe) + doy
    ensures 0 <= yoe <= 399 && 0 <= doy < YearEnd(yoe) - YearStart(yoe)
    ensures CivilFromDays(days) == FromEra(era, yoe, doy)
  {
    var z := days + EPOCH_SHIFT;
    era := z / ERA_DAYS;
    var doe := z - era * ERA_DAYS;
    yoe := YearOfEra(doe);
    YearOfEraIsRight(doe);
    doy := doe - YearStart(yoe);
  }

  lemma NextYearInEra(days: nat, era: int, yoe: int)
    requires 0 <= yoe < 399 && days + EPOCH_SHIFT == era * ERA_DAYS + YearEnd(yoe)
    ensures CivilFromDays(days) == Date(yoe + 1 + era * 400, 3, 1)
  {
    YearLength(era, yoe + 1);
    CivilOf(days, era, yoe + 1, 0);
  }

  lemma NextEraDay(days: nat, era: int)
    requires days + EPOCH_SHIFT == era * ERA_DAYS + YearEnd(399)
    ensures CivilFromDays(days) == Date(400 + era * 400, 3, 1)
  {
    assert YearEnd(399) == ERA_DAYS;
    FirstDayOfEra(days, era + 1);
  }

  lemma FirstDayOfEra(days: nat, era: int)
    requires days + EPOCH_SHIFT == era * ERA_DAYS
    ensures CivilFromDays(days) == Date(era * 400, 3, 1)
  {
    assert YearStart(0) == 0 && YearEnd(0) >= 365;
    CivilOf(days, era, 0, 0);
  }

  lemma NextYearDay(days: nat, era: int, yoe: int)
    requires 0 <= yoe <= 399 && days + EPOCH_SHIFT == era * ERA_DAYS + YearEnd(yoe)
    ensures CivilFromDays(days) == Date(yoe + 1 + era * 400, 3, 1)
  {
    if yoe < 399 {
      NextYearInEra(days, era, yoe);
    } else {
      NextEraDay(days, era);
    }
  }

  /** Each day is a date, and the next day is the next day of the calendar. */
  lemma CivilFollowsCalendar(days: nat)
    ensures IsDate(CivilFromDays(days)) && CivilFromDays(days + 1) == NextDay(CivilFromDays(days))
  {
    var era, yoe, doy := PartsOf(days);
    var d := FromEra(era, yoe, doy);
    FromEraNext(era, yoe, doy);
    if doy + 1 < YearEnd(yoe) - YearStart(yoe) {
      CivilOf(days + 1, era, yoe, doy + 1);
      assert CivilFromDays(days + 1) == NextDay(d);
    } else {
      NextYearDay(days + 1, era, yoe);
      assert CivilFromDays(days + 1) == NextDay(d);
    }
  }

  lemma CivilStarts()
    ensures CivilFromDays(0) == Date(1970, 1, 1)
  {
    assert EPOCH_SHIFT == 4 * ERA_DAYS + YearStart(369) + 306;
    CivilOf(0, 4, 369, 306);
  }

  lemma NextIsAfter(d: Date)
    requires IsDate(d)
    ensures Before(d, NextDay(d))
  {
  }

  lemma BeforeTrans(a: Date, b: Date, c: Date)
    requires Before(a, b) && Before(b, c)
    ensures Before(a, c)
  {
  }

  lemma CivilStep(days: nat)
    ensures Before(CivilFromDays(days), CivilFromDays(days + 1))
  {
    CivilFollowsCalendar(days);
    NextIsAfter(CivilFromDays(days));
  }

  ghost predicate StepsUp(f: nat -> Date, n: nat) {
    Before(f(n), f(n + 1))
  }

  lemma {:induction false} StepsToIncrease(f: nat -> Date, a: nat, b: nat)
    requires forall n: nat {:trigger StepsUp(f, n)} :: StepsUp(f, n)
    requires a < b
    ensures Before(f(a), f(b))
    decreases b
  {
    assert StepsUp(f, b - 1);
    if a < b - 1 {
      StepsToIncrease(f, a, b - 1);
      BeforeTrans(f(a), f(b - 1), f(b));
    }
  }

  /** Later days have later dates. */
  lemma CivilIncreases(a: nat, b: nat)
    requires a < b
    ensures Before(CivilFromDays(a), CivilFromDays(b))
  {
    forall n: nat ensures StepsUp(CivilFromDays, n) {
      CivilStep(n);
    }
    StepsToIncrease(CivilFromDays, a, b);
  }

  /** The day count of a date, from the calendar's own arithmetic. */
  function DaysFromCivil(d: Date): int {
    var y := if d.month <= 2 then d.year - 1 else d.year;
    var era := y / 400;
    var mp := if d.month > 2 then d.month - 3 else d.month + 9;
    era * ERA_DAYS + YearStart(y - era * 400) + MonthStart(mp) + d.day - 1 - EPOCH_SHIFT
  }

  lemma FromEraInverse(era: int, yoe: int, doy: int)
    requires 0 <= yoe <= 399 && 0 <= doy <= 365
    ensures DaysFromCivil(FromEra(era, yoe, doy)) == era * ERA_DAYS + YearStart(yoe) + doy - EPOCH_SHIFT
  {
    MonthOfIsRight(doy);
    var d, y := FromEra(era, yoe, doy), yoe + era * 400;
    EraOfYear(era, yoe);
    assert (if d.month <= 2 then d.year - 1 else d.year) == y;
  }

  lemma EraOfYear(era: int, yoe: int)
    requires 0 <= yoe <= 399
    ensures (yoe + era * 400) / 400 == era
  {
  }

  /** The two conversions undo each other: on every day count, and on every date from 1970 on. */
  lemma CivilInverts(days: nat)
    ensures DaysFromCivil(CivilFromDays(days)) == days
  {
    var era, yoe, doy := PartsOf(days);
    YearOfDay(yoe, doy);
    FromEraInverse(era, yoe, doy);
  }

  /** The day on which year `y`, counted from March, starts, in one formula for all eras. */
  lemma YearStartOverall(y: int)
    ensures y / 400 * ERA_DAYS + YearStart(y - y / 400 * 400) == 365 * y + y / 4 - y / 100 + y / 400
  {
    var era := y / 400;
    WholeEras(era, y - era * 400, 4);
    WholeEras(era, y - era * 400, 100);
  }

  lemma WholeEras(era: int, yoe: int, k: int)
    requires k == 4 || k == 100
    ensures (era * 400 + yoe) / k == era * (400 / k) + yoe / k
  {
  }

  lemma YearsAscend(y: int, z: int)
    requires y < z
    ensures 365 * y + y / 4 - y / 100 + y / 400 + (if IsLeap(y + 1)
            then 366 else 365) <= 365 * z + z / 4 - z / 100 + z / 400
    decreases z - y
  {
    NextYear(y);
    if y + 1 < z {
      YearsAscend(y + 1, z);
    }
  }

  lemma NextYear(y: int)
    ensures 365 * y + y / 4 - y / 100 + y / 400 + (if IsLeap(y + 1) then 366 else 365) ==
            365 * (y + 1) + (y + 1) / 4 - (y + 1) / 100 + (y + 1) / 400
  {
    DivisionSteps(y, 4);
    DivisionSteps(y, 100);
    DivisionSteps(y, 400);
    Multiples(y + 1);
  }

  lemma DivisionSteps(y: int, k: int)
    requires k == 4 || k == 100 || k == 400
    ensures (y + 1) / k == y / k + if (y + 1) % k == 0 then 1 else 0
  {
  }

  lemma Multiples(y: int)
    ensures (y % 400 == 0 ==> y % 100 == 0) && (y % 100 == 0 ==> y % 4 == 0)
  {
  }

  /** The dates with a day count are those from 1970 on. */
  lemma CountedFromEpoch(d: Date)
    requires IsDate(d)
    ensures DaysFromCivil(d) >= 0 <==> d.year >= 1970
  {
    var y := if d.month <= 2 then d.year - 1 else d.year;
    var mp := if d.month > 2 then d.month - 3 else d.month + 9;
    var doy := MonthStart(mp) + d.day - 1;
    DayInYear(d, mp, doy, y);
    YearStartOverall(y);
    if y > 1969 {
      YearsAscend(1969, y);
    } else if y < 1969 {
      YearsAscend(y, 1969);
    }
  }

  lemma CivilReachesAll(d: Date)
    requires IsDate(d) && d.year >= 1970
    ensures DaysFromCivil(d) >= 0 && CivilFromDays(DaysFromCivil(d)) == d
  {
    CountedFromEpoch(d);
    var y := if d.month <= 2 then d.year - 1 else d.year;
    var era := y / 400;
    var yoe := y - era * 400;
    var mp := if d.month > 2 then d.month - 3 else d.month + 9;
    var doy := MonthStart(mp) + d.day - 1;
    YearLength(era, yoe);
    DayInYear(d, mp, doy, y);
    CivilOf(DaysFromCivil(d), era, yoe, doy);
    FromEraOfDate(d, era, yoe, mp, doy);
  }

  lemma FromEraOfDate(d: Date, era: int, yoe: int, mp: int, doy: int)
    requires 1 <= d.month <= 12 && yoe + era * 400 == (if d.month <= 2 then d.year - 1 else d.year)
    requires mp == (if d.month > 2 then d.month - 3 else d.month + 9) && doy == MonthStart(mp) + d.day - 1
    requires 0 <= doy <= 365 && MonthStart(mp) <= doy < MonthStart(mp + 1)
    ensures FromEra(era, yoe, doy) == d
  {
    MonthOfIsRight(doy);
  }

  lemma DayInYear(d: Date, mp: int, doy: int, y: int)
    requires IsDate(d) && y == (if d.month <= 2 then d.year - 1 else d.year)
    requires mp == (if d.month > 2 then d.month - 3 else d.month + 9) && doy == MonthStart(mp) + d.day - 1
    ensures 0 <= mp <= 11 && MonthStart(mp) <= doy < MonthStart(mp + 1)
    ensures 0 <= doy < if IsLeap(y + 1) then 366 else 365
  {
    if mp <= 10 {
      MonthLengths(d.year, mp);
    }
  }

  // ----- rendering ----------------------------------------------------------------------------

  datatype Instant = Instant(date: Date, hour: int, minute: int, second: int)

  function InstantOf(secs: nat): Instant {
    var rem := secs % 86400;
    Instant(CivilFromDays(secs / 86400), rem / 3600, rem % 3600 / 60, rem % 60)
  }

  /** Decimal digits of `n`, padded with zeros to `width`; longer if `n` needs more. */
  function Padded(n: nat, width: nat): string
    decreases n, width
  {
    var last := ["0123456789"[n % 10]];
    if n < 10 && width <= 1 then last else Padded(n / 10, if width == 0 then 0 else width - 1) + last
  }

  // "{:04}-{:02}-{:02}T{:02}:{:02}:{:02}Z"
  function Render(t: Instant): string
    requires t.date.year >= 0 && t.date.month >= 0 && t.date.day >= 0 && t.hour >= 0 && t.minute >= 0 && t.second >= 0
  {
    Padded(t.date.year, 4) + ("-" + (Padded(t.date.month, 2) + ("-" + (Padded(t.date.day, 2) + ("T" +
      (Padded(t.hour, 2) + (":" + (Padded(t.minute, 2) + (":" + (Padded(t.second, 2) + "Z"))))))))))
  }

  /** Byte-wise order of strings. */
  predicate StringLess(a: string, b: string)
    decreases |a|
  {
    b != [] && (a == [] || a[0] < b[0] || (a[0] == b[0] && StringLess(a[1..], b[1..])))
  }

  lemma {:induction false} LessAfterPrefix(p: string, a: string, b: string)
    ensures StringLess(p + a, p + b) <==> StringLess(a, b)
  {
    if p == [] {
      assert p + a == a && p + b == b;
    } else {
      LessAfterPrefix(p[1..], a, b);
      assert (p + a)[1..] == p[1..] + a && (p + b)[1..] == p[1..] + b;
    }
  }

  lemma {:induction false} LessByPrefix(p: string, q: string, a: string, b: string)
    requires |p| == |q| && p != q
    ensures StringLess(p + a, q + b) <==> StringLess(p, q)
    decreases |p|
  {
    if p[0] == q[0] {
      assert p == [p[0]] + p[1..] && q == [q[0]] + q[1..];
      LessByPrefix(p[1..], q[1..], a, b);
      assert (p + a)[1..] == p[1..] + a && (q + b)[1..] == q[1..] + b;
    }
  }

  function Pow10(w: nat): nat {
    if w == 0 then 1 else 10 * Pow10(w - 1)
  }

  lemma {:induction false} PaddedWidth(n: nat, w: nat)
    requires w >= 1 && n < Pow10(w)
    ensures |Padded(n, w)| == w
    decreases w
  {
    if w > 1 {
      PaddedWidth(n / 10, w - 1);
    }
  }

  lemma LastDigits(a: nat, b: nat)
    requires a < 10 && b < 10
    ensures StringLess(["0123456789"[a]], ["0123456789"[b]]) <==> a < b
    ensures "0123456789"[a] == "0123456789"[b] <==> a == b
  {
    var x, y := "0123456789"[a], "0123456789"[b];
    assert [x][1..] == [] && [y][1..] == [];
  }

  /** At equal width, the order of the digits is the order of the numbers. */
  lemma {:induction false} PaddedOrder(n: nat, m: nat, w: nat)
    requires w >= 1 && n < Pow10(w) && m < Pow10(w)
    ensures StringLess(Padded(n, w), Padded(m, w)) <==> n < m
    ensures Padded(n, w) == Padded(m, w) <==> n == m
    decreases w
  {
    var a, b := ["0123456789"[n % 10]], ["0123456789"[m % 10]];
    LastDigits(n % 10, m % 10);
    if w > 1 {
      var p, q := Padded(n / 10, w - 1), Padded(m / 10, w - 1);
      PaddedOrder(n / 10, m / 10, w - 1);
      PaddedWidth(n / 10, w - 1);
      PaddedWidth(m / 10, w - 1);
      if n / 10 == m / 10 {
        LessAfterPrefix(p, a, b);
        assert (p + a)[|p|] == a[0] && (p + b)[|p|] == b[0];
      } else {
        LessByPrefix(p, q, a, b);
        assert p + a != q + b by {
          assert (p + a)[..|p|] == p && (q + b)[..|p|] == q;
        }
      }
    }
  }

  /** A padded field followed by a separator and the rest. */
  lemma FieldOrder(n: nat, m: nat, w: nat, sep: string, x: string, y: string)
    requires w >= 1 && n < Pow10(w) && m < Pow10(w)
    ensures StringLess(Padded(n, w) + (sep + x), Padded(m, w) + (sep + y)) <==>
            n < m || (n == m && StringLess(x, y))
  {
    PaddedOrder(n, m, w);
    PaddedWidth(n, w);
    PaddedWidth(m, w);
    if n == m {
      LessAfterPrefix(Padded(n, w), sep + x, sep + y);
      LessAfterPrefix(sep, x, y);
    } else {
      LessByPrefix(Padded(n, w), Padded(m, w), sep + x, sep + y);
    }
  }

  predicate Renders(t: Instant) {
    && 0 <= t.date.year <= 9999 && 0 <= t.date.month <= 99 && 0 <= t.date.day <= 99
    && 0 <= t.hour <= 99 && 0 <= t.minute <= 99 && 0 <= t.second <= 99
  }

  predicate EarlierInDay(a: Instant, b: Instant) {
    a.hour < b.hour || (a.hour == b.hour && (a.minute < b.minute || (a.minute == b.minute && a.second < b.second)))
  }

  predicate Earlier(a: Instant, b: Instant) {
    Before(a.date, b.date) || (a.date == b.date && EarlierInDay(a, b))
  }

  lemma RenderOrder(a: Instant, b: Instant)
    requires Renders(a) && Renders(b)
    ensures StringLess(Render(a), Render(b)) <==> Earlier(a, b)
  {
    assert Pow10(2) == 100 && Pow10(4) == 10000;
    var sa, sb := Padded(a.second, 2) + "Z", Padded(b.second, 2) + "Z";
    assert "Z" + "" == "Z";
    FieldOrder(a.second, b.second, 2, "Z", "", "");
    var ma, mb := Padded(a.minute, 2) + (":" + sa), Padded(b.minute, 2) + (":" + sb);
    FieldOrder(a.minute, b.minute, 2, ":", sa, sb);
    var ha, hb := Padded(a.hour, 2) + (":" + ma), Padded(b.hour, 2) + (":" + mb);
    FieldOrder(a.hour, b.hour, 2, ":", ma, mb);
    var da, db := Padded(a.date.day, 2) + ("T" + ha), Padded(b.date.day, 2) + ("T" + hb);
    FieldOrder(a.date.day, b.date.day, 2, "T", ha, hb);
    var oa, ob := Padded(a.date.month, 2) + ("-" + da), Padded(b.date.month, 2) + ("-" + db);
    FieldOrder(a.date.month, b.date.month, 2, "-", da, db);
    FieldOrder(a.date.year, b.date.year, 4, "-", oa, ob);
  }

  lemma ClockParts(r: int)
    requires 0 <= r < 86400
    ensures r == 3600 * (r / 3600) + 60 * (r % 3600 / 60) + r % 60
    ensures 0 <= r / 3600 <= 23 && 0 <= r % 3600 / 60 <= 59 && 0 <= r % 60 <= 59
  {
    var x := r % 3600;
    assert r == 3600 * (r / 3600) + x;
    assert x == 60 * (x / 60) + x % 60;
    Cycle60(x, r / 3600);
  }

  lemma Cycle60(x: int, n: int)
    ensures (3600 * n + x) % 60 == x % 60
  {
    assert 3600 * n + x == 60 * (60 * n) + x;
  }

  lemma ClockOrder(h: int, m: int, s: int, h': int, m': int, s': int)
    requires 0 <= m <= 59 && 0 <= s <= 59 && 0 <= m' <= 59 && 0 <= s' <= 59
    ensures 3600 * h + 60 * m + s < 3600 * h' + 60 * m' + s' <==>
            h < h' || (h == h' && (m < m' || (m == m' && s < s')))
  {
  }

  lemma TimeOrder(s: nat, t: nat)
    requires s / 86400 == t / 86400
    ensures EarlierInDay(InstantOf(s), InstantOf(t)) <==> s < t
  {
    var r, u := s % 86400, t % 86400;
    ClockParts(r);
    ClockParts(u);
    ClockOrder(r / 3600, r % 3600 / 60, r % 60, u / 3600, u % 3600 / 60, u % 60);
    assert s < t <==> r < u;
  }

  /** Of two times up to the year 9999, the earlier one has the smaller string: comparing a lease's
      expiry with the current time as strings compares the times. */
  lemma StringsCompareLikeTimes(s: nat, t: nat)
    requires InstantOf(s).date.year <= 9999 && InstantOf(t).date.year <= 9999
    ensures Renders(InstantOf(s)) && Renders(InstantOf(t))
    ensures StringLess(Render(InstantOf(s)), Render(InstantOf(t))) <==> s < t
  {
    var a, b := s / 86400, t / 86400;
    InstantRenders(s);
    InstantRenders(t);
    RenderOrder(InstantOf(s), InstantOf(t));
    if a < b {
      CivilIncreases(a, b);
    } else if b < a {
      CivilIncreases(b, a);
    } else {
      TimeOrder(s, t);
    }
  }

  lemma YearFromEpoch(days: nat)
    ensures CivilFromDays(days).year >= 1970
  {
    CivilStarts();
    if days > 0 {
      CivilIncreases(0, days);
    }
  }

  lemma InstantRenders(s: nat)
    requires InstantOf(s).date.year <= 9999
    ensures Renders(InstantOf(s))
  {
    CivilFollowsCalendar(s / 86400);
    YearFromEpoch(s / 86400);
  }
}
