/** Calendar dates and the text internal/storage/stats.go stores them as. */
module Dates {
  import opened Text

  datatype Date = Date(year: nat, month: nat, day: nat)

  predicate Leap(year: nat) {
    year % 4 == 0 && (year % 100 != 0 || year % 400 == 0)
  }

  function DaysIn(year: nat, month: nat): nat {
    if month == 2 then (if Leap(year) then 29 else 28)
    else if month in {4, 6, 9, 11} then 30 else 31
  }

  predicate Valid(d: Date) {
    1 <= d.month <= 12 && 1 <= d.day <= DaysIn(d.year, d.month)
  }

  predicate Before(a: Date, b: Date) {
    a.year < b.year || (a.year == b.year && (a.month < b.month || (a.month == b.month && a.day < b.day)))
  }

  /** The last `width` decimal digits of a number, zeros in front. */
  function Fixed(n: nat, width: nat): string {
    if width == 0 then "" else Fixed(n / 10, width - 1) + [Digit(n % 10)]
  }

  /** time.Format("2006-01-02"): years are padded to four digits, longer ones printed in full. */
  function DateText(d: Date): string {
    (if d.year < 10000 then Fixed(d.year, 4) else Dec(d.year)) + "-" + Fixed(d.month, 2) + "-" + Fixed(d.day, 2)
  }

  /** The database compares text byte by byte. */
  predicate TextLe(a: string, b: string) {
    a == "" || (b != "" && (a[0] < b[0] || (a[0] == b[0] && TextLe(a[1..], b[1..]))))
  }

  function Pow10(n: nat): nat {
    if n == 0 then 1 else 10 * Pow10(n - 1)
  }

  lemma {:induction false} CommonPrefix(p: string, a: string, b: string)
    ensures TextLe(p + a, p + b) == TextLe(a, b)
  {
    if p == "" {
      assert p + a == a && p + b == b;
    } else {
      assert (p + a)[1..] == p[1..] + a && (p + b)[1..] == p[1..] + b;
      CommonPrefix(p[1..], a, b);
    }
  }

  /** Numbers of one width compare as text the way they compare as numbers. */
  lemma {:induction false} FixedOrder(m: nat, u: string, n: nat, v: string, width: nat)
    requires m < Pow10(width) && n < Pow10(width)
    ensures TextLe(Fixed(m, width) + u, Fixed(n, width) + v) <==> m < n || (m == n && TextLe(u, v))
    decreases width
  {
    if width == 0 {
      assert Fixed(m, 0) + u == u && Fixed(n, 0) + v == v;
    } else {
      var a, b := [Digit(m % 10)] + u, [Digit(n % 10)] + v;
      assert Fixed(m, width) + u == Fixed(m / 10, width - 1) + a;
      assert Fixed(n, width) + v == Fixed(n / 10, width - 1) + b;
      assert a[1..] == u && b[1..] == v;
      FixedOrder(m / 10, a, n / 10, b, width - 1);
    }
  }

  lemma EmptyLe()
    ensures TextLe("", "")
  {}

  /** Digits a year is printed with. */
  function Width(year: nat): nat {
    if year < 10000 then 4 else |Dec(year)|
  }

  /** The month and the day, as they follow the year. */
  function MonthDay(d: Date): string {
    "-" + Fixed(d.month, 2) + "-" + Fixed(d.day, 2)
  }

  lemma {:induction false} DecIsFixed(n: nat)
    ensures Dec(n) == Fixed(n, |Dec(n)|)
    ensures n < Pow10(|Dec(n)|) && (n > 0 ==> Pow10(|Dec(n)| - 1) <= n)
  {
    if n < 10 {
      assert Fixed(n, 1) == Fixed(n / 10, 0) + [Digit(n % 10)];
      assert Pow10(0) == 1 && Pow10(1) == 10;
    } else {
      DecIsFixed(n / 10);
      assert |Dec(n)| == |Dec(n / 10)| + 1;
    }
  }

  lemma PowersOfTen()
    ensures Pow10(2) == 100 && Pow10(4) == 10000
  {
    assert Pow10(0) == 1 && Pow10(1) == 10 && Pow10(3) == 1000;
  }

  lemma {:induction false} Pow10Grows(m: nat, n: nat)
    requires m <= n
    ensures 0 < Pow10(m) <= Pow10(n)
    decreases n
  {
    if m < n { Pow10Grows(m, n - 1); } else if n > 0 { Pow10Grows(m - 1, n - 1); }
  }

  lemma YearText(d: Date)
    ensures DateText(d) == Fixed(d.year, Width(d.year)) + MonthDay(d)
    ensures d.year < Pow10(Width(d.year)) && Width(d.year) >= 4
    ensures Width(d.year) > 4 ==> Pow10(Width(d.year) - 1) <= d.year
  {
    hide Fixed, Dec, Pow10;
    PowersOfTen();
    if d.year >= 10000 {
      DecIsFixed(d.year);
      if |Dec(d.year)| < 4 { Pow10Grows(|Dec(d.year)|, 4); }
    }
    assert DateText(d) == Fixed(d.year, Width(d.year)) + "-" + Fixed(d.month, 2) + "-" + Fixed(d.day, 2);
  }

  lemma MonthDayOrder(a: Date, b: Date)
    requires Valid(a) && Valid(b)
    ensures TextLe(MonthDay(a), MonthDay(b)) <==> a.month < b.month || (a.month == b.month && a.day <= b.day)
  {
    hide Fixed, TextLe;
    PowersOfTen();
    var ad, bd := "-" + Fixed(a.day, 2), "-" + Fixed(b.day, 2);
    assert MonthDay(a) == "-" + (Fixed(a.month, 2) + ad) && MonthDay(b) == "-" + (Fixed(b.month, 2) + bd);
    CommonPrefix("-", Fixed(a.month, 2) + ad, Fixed(b.month, 2) + bd);
    FixedOrder(a.month, ad, b.month, bd, 2);
    CommonPrefix("-", Fixed(a.day, 2), Fixed(b.day, 2));
    assert Fixed(a.day, 2) + "" == Fixed(a.day, 2) && Fixed(b.day, 2) + "" == Fixed(b.day, 2);
    FixedOrder(a.day, "", b.day, "", 2);
    EmptyLe();
  }

  /** A number without its last `d` digits. */
  function Lead(n: nat, d: nat): nat {
    if d == 0 then n else Lead(n / 10, d - 1)
  }

  lemma {:induction false} FixedSplits(n: nat, w: nat, d: nat)
    ensures Fixed(n, w + d) == Fixed(Lead(n, d), w) + Fixed(n, d)
    decreases d
  {
    if d > 0 {
      FixedSplits(n / 10, w, d - 1);
    } else {
      assert Fixed(n, w) + Fixed(n, 0) == Fixed(n, w);
    }
  }

  /** Comparing with the leading digits is comparing with the whole number, scaled. */
  lemma {:induction false} LeadCompare(m: nat, n: nat, d: nat)
    ensures m <= Lead(n, d) <==> m * Pow10(d) <= n
    decreases d
  {
    if d > 0 {
      LeadCompare(m, n / 10, d - 1);
      TenTimes(m, Pow10(d - 1));
    }
  }

  lemma TenTimes(m: nat, p: nat)
    ensures m * (10 * p) == 10 * (m * p)
  {}

  lemma {:induction false} LeadBelow(n: nat, w: nat, d: nat)
    requires n < Pow10(w + d)
    ensures Lead(n, d) < Pow10(w)
    decreases d
  {
    if d > 0 {
      assert w + d - 1 == w + (d - 1);
      LeadBelow(n / 10, w, d - 1);
    }
  }

  lemma {:induction false} FixedLength(n: nat, w: nat)
    ensures |Fixed(n, w)| == w && forall c <- Fixed(n, w) :: IsDigit(c)
  {
    if w > 0 { FixedLength(n / 10, w - 1); }
  }

  /** A narrower year against a wider one, in both directions: the text compares the narrower
      year with the leading digits of the wider one. */
  lemma NarrowAgainstWide(a: Date, b: Date)
    requires Width(a.year) < Width(b.year)
    ensures var d := Width(b.year) - Width(a.year);
      && (TextLe(DateText(a), DateText(b)) <==> a.year * Pow10(d) <= b.year)
      && (TextLe(DateText(b), DateText(a)) <==> a.year * Pow10(d) > b.year)
  {
    hide Fixed, TextLe, Pow10, MonthDay, Lead;
    var w := Width(a.year);
    var d := Width(b.year) - w;
    YearText(a);
    YearText(b);
    FixedSplits(b.year, w, d);
    LeadBelow(b.year, w, d);
    LeadCompare(a.year, b.year, d);
    var lead, u, v := Lead(b.year, d), MonthDay(a), Fixed(b.year, d) + MonthDay(b);
    assert DateText(b) == Fixed(lead, w) + v;
    FixedOrder(a.year, u, lead, v, w);
    FixedOrder(lead, v, a.year, u, w);
    DashBeforeDigit(a, b.year, d, MonthDay(b));
  }

  lemma DashBeforeDigit(a: Date, n: nat, d: nat, rest: string)
    requires d > 0
    ensures TextLe(MonthDay(a), Fixed(n, d) + rest) && !TextLe(Fixed(n, d) + rest, MonthDay(a))
  {
    FixedLength(n, d);
    assert Fixed(n, d)[0] in Fixed(n, d);
    assert MonthDay(a)[0] == '-' && (Fixed(n, d) + rest)[0] == Fixed(n, d)[0];
  }

  /** Two years whose texts compare as the years do: printed equally wide, or the narrower one
      at most the leading digits of the wider one. */
  predicate Comparable(m: nat, n: nat) {
    var v, w := Width(m), Width(n);
    if v == w then true
    else if v < w then m * Pow10(w - v) <= n
    else n * Pow10(v - w) <= m
  }

  lemma NarrowIsBefore(a: Date, b: Date)
    requires Width(a.year) < Width(b.year)
    ensures a.year < b.year
  {
    hide Pow10, Dec;
    YearText(a);
    YearText(b);
    Pow10Grows(Width(a.year), Width(b.year) - 1);
  }

  /** Main result: two dates compare as text the way they compare as dates if and only if
      their years do. */
  lemma {:induction false} TextOrderIff(a: Date, b: Date)
    requires Valid(a) && Valid(b)
    ensures (TextLe(DateText(a), DateText(b)) <==> !Before(b, a)) <==> Comparable(a.year, b.year)
  {
    hide Fixed, TextLe, Pow10, DateText, Width, MonthDay;
    if Width(a.year) == Width(b.year) {
      YearText(a);
      YearText(b);
      FixedOrder(a.year, MonthDay(a), b.year, MonthDay(b), Width(a.year));
      MonthDayOrder(a, b);
    } else if Width(a.year) < Width(b.year) {
      NarrowAgainstWide(a, b);
      NarrowIsBefore(a, b);
    } else {
      NarrowAgainstWide(b, a);
      NarrowIsBefore(b, a);
    }
  }

  /** For years of at most four digits, text order is date order. */
  lemma TextOrderIsDateOrder(a: Date, b: Date)
    requires Valid(a) && Valid(b) && a.year < 10000 && b.year < 10000
    ensures TextLe(DateText(a), DateText(b)) <==> !Before(b, a)
  {
    TextOrderIff(a, b);
  }

  /** Where it goes wrong: the last day of 9999 and the next day, which sorts first. Two days of
      10000, or a day of 1000 and one of 10000, compare as they should. */
  lemma LongYears()
    ensures !Comparable(9999, 10000) && Comparable(10000, 10000) && Comparable(1000, 10000)
    ensures var a, b := Date(9999, 12, 31), Date(10000, 1, 1);
      Valid(a) && Valid(b) && Before(a, b) && !TextLe(DateText(a), DateText(b))
  {
    hide Dec, TextLe, DateText;
    TenThousandIsWider();
    TextOrderIff(Date(9999, 12, 31), Date(10000, 1, 1));
  }

  lemma TenThousandIsWider()
    ensures Width(10000) == 5 && Pow10(1) == 10
  {
    assert |Dec(10)| == 2 && |Dec(100)| == 3 && |Dec(1000)| == 4;
    assert Pow10(0) == 1;
  }

  /** The day before, as time.AddDate counts back; nothing comes before the first day of year 0. */
  function DayBefore(d: Date): Date {
    if d.day > 1 then d.(day := d.day - 1)
    else if d.month > 1 then Date(d.year, d.month - 1, DaysIn(d.year, d.month - 1))
    else if d.year > 0 then Date(d.year - 1, 12, 31)
    else d
  }

  function DaysBack(d: Date, n: nat): Date {
    if n == 0 then d else DayBefore(DaysBack(d, n - 1))
  }

  predicate Reaches(d: Date, n: nat) {
    forall k: nat | k < n :: DayBefore(DaysBack(d, k)) != DaysBack(d, k)
  }

  /** No date lies between a day and the day before it. */
  lemma Adjacent(d: Date, e: Date)
    requires Valid(d) && Valid(e) && DayBefore(d) != d
    ensures Valid(DayBefore(d)) && Before(DayBefore(d), d)
    ensures Before(e, d) <==> !Before(DayBefore(d), e)
  {}

  lemma {:induction false} BackStep(today: Date, n: nat)
    requires Valid(today) && Reaches(today, n)
    ensures Valid(DaysBack(today, n)) && !Before(today, DaysBack(today, n))
    ensures n > 0 ==> Before(DaysBack(today, n), DaysBack(today, n - 1))
  {
    if n > 0 {
      BackStep(today, n - 1);
      Adjacent(DaysBack(today, n - 1), today);
    }
  }

  /** Counting back gives a different, earlier date each time. */
  lemma {:induction false} DaysDiffer(today: Date, j: nat, k: nat)
    requires Valid(today) && j < k && Reaches(today, k)
    ensures Before(DaysBack(today, k), DaysBack(today, j))
    decreases k
  {
    BackStep(today, k);
    if j < k - 1 { DaysDiffer(today, j, k - 1); }
  }

  predicate InWindow(today: Date, n: nat, e: Date) {
    !Before(e, DaysBack(today, n)) && !Before(today, e)
  }

  /** Main result: the filter `date >= today - n` keeps today and the n days before it, and
      no other date up to today: n + 1 dates, by DaysDiffer. */
  lemma {:induction false} FilterKeepsDays(today: Date, n: nat, e: Date)
    requires Valid(today) && Valid(e) && Reaches(today, n)
    ensures InWindow(today, n, e) <==> exists k: nat :: k <= n && e == DaysBack(today, k)
  {
    BackStep(today, n);
    if n == 0 {
      assert InWindow(today, 0, e) ==> e == DaysBack(today, 0);
    } else {
      var last := DaysBack(today, n);
      BackStep(today, n - 1);
      Adjacent(DaysBack(today, n - 1), e);
      FilterKeepsDays(today, n - 1, e);
      assert InWindow(today, n, e) <==> InWindow(today, n - 1, e) || e == last;
    }
  }

  /** Days from the first of March to the first of each month, in any year. */
  function MarchOffset(month: nat): nat
    requires 1 <= month <= 12
  {
    [306, 337, 0, 31, 61, 92, 122, 153, 184, 214, 245, 275][month - 1]
  }

  /** Leap days in the years up to `y`: every fourth year, but only every fourth century. */
  function LeapDays(y: nat): int {
    y / 4 - y / 100 + y / 400
  }

  /** The number of a date in the Gregorian calendar, counted in years that begin in March so that
      a leap day comes last. It knows nothing of leap years or lengths of months. */
  function DayNumber(d: Date): int
    requires 1 <= d.month <= 12
  {
    var y := 400 + d.year - if d.month <= 2 then 1 else 0;
    365 * y + LeapDays(y) + MarchOffset(d.month) + d.day
  }

  const FIRST: Date := Date(0, 1, 1)

  /** The day after. */
  function DayAfter(d: Date): Date {
    if d.day < DaysIn(d.year, d.month) then d.(day := d.day + 1)
    else if d.month < 12 then Date(d.year, d.month + 1, 1)
    else Date(d.year + 1, 1, 1)
  }

  lemma Quarters(q: nat)
    ensures (q + 1) / 4 == q / 4 + if (q + 1) % 4 == 0 then 1 else 0
  {}

  lemma Centuries(q: nat)
    ensures (q + 1) / 100 == q / 100 + if (q + 1) % 100 == 0 then 1 else 0
  {}

  lemma FourCenturies(q: nat)
    ensures (q + 1) / 400 == q / 400 + if (q + 1) % 400 == 0 then 1 else 0
  {}

  lemma SameRest(y: nat)
    ensures (400 + y) % 4 == y % 4 && (400 + y) % 100 == y % 100 && (400 + y) % 400 == y % 400
    ensures y % 400 == 0 ==> y % 100 == 0
    ensures y % 100 == 0 ==> y % 4 == 0
  {
    RestInFour(y);
    RestInHundred(y);
    RestInFourHundred(y);
  }

  lemma RestInFour(y: nat)
    ensures (400 + y) % 4 == y % 4
  {
    var q, r := y / 4, y % 4;
    assert 400 + y == 4 * (100 + q) + r;
  }

  lemma RestInHundred(y: nat)
    ensures (400 + y) % 100 == y % 100
    ensures y % 100 == 0 ==> y % 4 == 0
  {
    var q, r := y / 100, y % 100;
    assert 400 + y == 100 * (4 + q) + r;
    assert y == 4 * (25 * q) + r;
  }

  lemma RestInFourHundred(y: nat)
    ensures (400 + y) % 400 == y % 400
    ensures y % 400 == 0 ==> y % 100 == 0
  {
    var q, r := y / 400, y % 400;
    assert 400 + y == 400 * (1 + q) + r;
    assert y == 100 * (4 * q) + r;
  }

  /** A leap year adds one. */
  lemma LeapDay(y: nat)
    ensures LeapDays(400 + y) == LeapDays(399 + y) + if Leap(y) then 1 else 0
  {
    Quarters(399 + y);
    Centuries(399 + y);
    FourCenturies(399 + y);
    SameRest(y);
  }

  /** Main result: the day before has the number before. */
  lemma {:induction false} DayBeforeNumber(d: Date)
    requires Valid(d) && d != FIRST
    ensures Valid(DayBefore(d)) && DayNumber(DayBefore(d)) == DayNumber(d) - 1
  {
    hide Leap, LeapDays;
    if d.day == 1 {
      if d.month == 3 {
        LeapDay(d.year);
      } else if d.month > 1 {
        assert MarchOffset(d.month) == MarchOffset(d.month - 1) + DaysIn(d.year, d.month - 1);
      }
    }
  }

  lemma DayAfterNumber(d: Date)
    requires Valid(d)
    ensures Valid(DayAfter(d)) && DayAfter(d) != FIRST && DayBefore(DayAfter(d)) == d
    ensures DayNumber(DayAfter(d)) == DayNumber(d) + 1
  {
    hide DayNumber;
    DayBeforeNumber(DayAfter(d));
  }

  lemma OnlyFirstStays(d: Date)
    requires Valid(d)
    ensures DayBefore(d) == d <==> d == FIRST
  {}

  /** Every number from the first date on is that of a date. */
  lemma {:induction false} DateOfNumber(n: int) returns (d: Date)
    requires n >= DayNumber(FIRST)
    ensures Valid(d) && DayNumber(d) == n
    decreases n - DayNumber(FIRST)
  {
    if n == DayNumber(FIRST) {
      d := FIRST;
    } else {
      d := DateOfNumber(n - 1);
      DayAfterNumber(d);
      d := DayAfter(d);
    }
  }

  /** A date is at or after any date that is not after it, and counting back from it meets it. */
  lemma {:induction false} NumberOrder(a: Date, b: Date)
    requires Valid(a) && Valid(b) && Before(a, b)
    ensures DayNumber(a) < DayNumber(b)
    decreases b.year, b.month, b.day
  {
    hide DayNumber;
    BeforeIsLater(a, b);
    OnlyFirstStays(b);
    DayBeforeNumber(b);
    Adjacent(b, a);
    if DayBefore(b) != a {
      NotBeforeEither(DayBefore(b), a);
      NumberOrder(a, DayBefore(b));
    }
  }

  lemma BeforeIsLater(a: Date, b: Date)
    requires Valid(a) && Valid(b) && Before(a, b)
    ensures b != FIRST
  {}

  lemma NotBeforeEither(a: Date, b: Date)
    ensures a == b || Before(a, b) || Before(b, a)
  {}

  /** Main result: different dates have different numbers, in the order of the dates. */
  lemma {:induction false} NumberOrderIff(a: Date, b: Date)
    requires Valid(a) && Valid(b)
    ensures Before(a, b) <==> DayNumber(a) < DayNumber(b)
    ensures a == b <==> DayNumber(a) == DayNumber(b)
  {
    hide DayNumber;
    NotBeforeEither(a, b);
    if Before(a, b) { NumberOrder(a, b); }
    if Before(b, a) { NumberOrder(b, a); }
  }

  /** Main result: n days back is n numbers back, as far as there are dates. */
  lemma {:induction false} DaysBackNumber(today: Date, n: nat)
    requires Valid(today)
    ensures Valid(DaysBack(today, n))
    ensures Reaches(today, n) <==> DayNumber(FIRST) + n <= DayNumber(today)
    ensures Reaches(today, n) ==> DayNumber(DaysBack(today, n)) == DayNumber(today) - n
    decreases n
  {
    hide DayNumber;
    AtLeastFirst(today);
    if n > 0 {
      DaysBackNumber(today, n - 1);
      var d := DaysBack(today, n - 1);
      OnlyFirstStays(d);
      assert Reaches(today, n) <==> Reaches(today, n - 1) && DayBefore(d) != d by { ReachesMore(today, n); }
      NumberOrderIff(d, FIRST);
      AtLeastFirst(d);
      if d != FIRST { DayBeforeNumber(d); }
    }
  }

  lemma ReachesMore(today: Date, n: nat)
    requires n > 0
    ensures Reaches(today, n) <==> Reaches(today, n - 1) && DayBefore(DaysBack(today, n - 1)) != DaysBack(today, n - 1)
  {
    hide DayBefore;
    if Reaches(today, n) {
      forall k: nat | k < n - 1 ensures DayBefore(DaysBack(today, k)) != DaysBack(today, k) {}
    }
  }

  lemma AtLeastFirst(d: Date)
    requires Valid(d)
    ensures DayNumber(FIRST) <= DayNumber(d)
  {
    hide DayNumber;
    if d != FIRST { NumberOrder(FIRST, d); }
  }

  /** Main result: the filter `date >= today - n` keeps the dates up to today that are at most n
      days back. */
  lemma FilterKeepsNumbers(today: Date, n: nat, e: Date)
    requires Valid(today) && Valid(e) && Reaches(today, n)
    ensures InWindow(today, n, e) <==> DayNumber(today) - n <= DayNumber(e) <= DayNumber(today)
  {
    hide DayNumber;
    DaysBackNumber(today, n);
    NumberOrderIff(e, DaysBack(today, n));
    NumberOrderIff(today, e);
  }

  lemma {:induction false} TextLeReflexive(s: string)
    ensures TextLe(s, s)
  {
    if s != "" { TextLeReflexive(s[1..]); }
  }

  /** Different dates are stored as different texts. */
  lemma DateTextInjective(a: Date, b: Date)
    requires Valid(a) && Valid(b) && DateText(a) == DateText(b)
    ensures a == b
  {
    hide DateText, TextLe, Comparable;
    TextLeReflexive(DateText(a));
    TextOrderIff(a, b);
    TextOrderIff(b, a);
    NotBeforeEither(a, b);
    ComparableEither(a.year, b.year);
  }

  lemma ComparableEither(m: nat, n: nat)
    ensures Comparable(m, n) <==> Comparable(n, m)
  {}

  /** The layout, at a leap day. */
  lemma LeapDayText()
    ensures Valid(Date(2024, 2, 29)) && DateText(Date(2024, 2, 29)) == "2024-02-29"
  {
    hide Fixed;
    TwoDigits(2);
    TwoDigits(29);
    FourDigits();
  }

  lemma TwoDigits(n: nat)
    requires n < 100
    ensures Fixed(n, 2) == [Digit(n / 10), Digit(n % 10)]
  {
    var tens := n / 10;
    assert tens < 10 && tens / 10 == 0 && tens % 10 == tens;
    assert Fixed(n, 2) == Fixed(tens, 1) + [Digit(n % 10)];
    assert Fixed(tens, 1) == Fixed(0, 0) + [Digit(tens)];
  }

  lemma FourDigits()
    ensures Fixed(2024, 4) == "2024"
  {
    assert Fixed(20, 2) == Fixed(2, 1) + "0" && Fixed(2, 1) == Fixed(0, 0) + "2";
  }
}
