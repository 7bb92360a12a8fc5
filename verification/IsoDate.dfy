/** Calendar dates: their ISO text, their day number, and why comparing the texts
    compares the days. */
module IsoDate {
  import opened Text

  datatype Date = Date(year: nat, month: nat, day: nat)

  predicate Leap(y: nat) {
    y % 4 == 0 && (y % 100 != 0 || y % 400 == 0)
  }

  function DaysInMonth(y: nat, m: nat): (d: nat)
    ensures 28 <= d <= 31
  {
    if m == 2 then (if Leap(y) then 29 else 28)
    else if m == 4 || m == 6 || m == 9 || m == 11 then 30 else 31
  }

  predicate IsDate(c: Date) {
    1 <= c.year <= 9999 && 1 <= c.month <= 12 && 1 <= c.day <= DaysInMonth(c.year, c.month)
  }

  predicate Earlier(a: Date, b: Date) {
    a.year < b.year || (a.year == b.year && (a.month < b.month || (a.month == b.month && a.day < b.day)))
  }

  /** `date.isoformat()`. */
  function Iso(c: Date): (s: string) {
    Padded(c.year, 4) + ("-" + (Padded(c.month, 2) + ("-" + Padded(c.day, 2))))
  }

  lemma IsoLength(c: Date)
    ensures |Iso(c)| == 10
  {
  }

  /** `date.fromisoformat()` on the dashed form. */
  function Parse(s: string): (r: Option<Date>)
    ensures r.Some? ==> IsDate(r.value)
  {
    if |s| == 10 && s[4] == '-' && s[7] == '-'
       && AllDigits(s[0..4]) && AllDigits(s[5..7]) && AllDigits(s[8..10])
    then
      var c := Date(Value(s[0..4]), Value(s[5..7]), Value(s[8..10]));
      if IsDate(c) then Some(c) else None
    else None
  }

  lemma {:induction false} PaddedValue(s: string)
    requires AllDigits(s)
    ensures Padded(Value(s), |s|) == s
  {
    if |s| > 0 {
      var head, last := s[..|s| - 1], s[|s| - 1];
      PaddedValue(head);
      assert Value(s) / 10 == Value(head) && Value(s) % 10 == DigitValue(last);
      assert s == head + [last];
    }
  }

  lemma ParseReadsIso(c: Date)
    requires IsDate(c)
    ensures Parse(Iso(c)) == Some(c)
  {
    var s := Iso(c);
    assert Pow10(4) == 10000 && Pow10(2) == 100;
    PaddedReads(c.year, 4);
    PaddedReads(c.month, 2);
    PaddedReads(c.day, 2);
    assert s[0..4] == Padded(c.year, 4) && s[5..7] == Padded(c.month, 2) && s[8..10] == Padded(c.day, 2);
  }

  lemma ParsedIsIso(s: string, c: Date)
    requires Parse(s) == Some(c)
    ensures s == Iso(c)
  {
    var y, m, d := s[0..4], s[5..7], s[8..10];
    assert c == Date(Value(y), Value(m), Value(d)) && AllDigits(y) && AllDigits(m) && AllDigits(d);
    PaddedValue(y);
    PaddedValue(m);
    PaddedValue(d);
  }

  /** A text is read as a date exactly when it is that date's ISO text. */
  lemma ParseIso(s: string, c: Date)
    ensures Parse(s) == Some(c) <==> IsDate(c) && s == Iso(c)
  {
    if Parse(s).Some? { ParsedIsIso(s, Parse(s).value); }
    if IsDate(c) { ParseReadsIso(c); }
  }

  /** The texts sort as the dates do: a lexical maximum is the latest date. */
  lemma IsoOrder(a: Date, b: Date)
    requires IsDate(a) && IsDate(b)
    ensures StrLess(Iso(a), Iso(b)) <==> Earlier(a, b)
  {
    assert Pow10(4) == 10000 && Pow10(2) == 100;
    PaddedOrder(a.year, b.year, 4);
    PaddedOrder(a.month, b.month, 2);
    PaddedOrder(a.day, b.day, 2);
    var da, db := Padded(a.day, 2), Padded(b.day, 2);
    StrLessConcat("-", da, "-", db);
    StrLessIrreflexive("-");
    var ma, mb := Padded(a.month, 2), Padded(b.month, 2);
    StrLessConcat(ma, "-" + da, mb, "-" + db);
    StrLessConcat("-", ma + ("-" + da), "-", mb + ("-" + db));
    StrLessConcat(Padded(a.year, 4), "-" + (ma + ("-" + da)), Padded(b.year, 4), "-" + (mb + ("-" + db)));
  }

  // ── Day numbers ──

  function DaysInYear(y: nat): nat {
    if Leap(y) then 366 else 365
  }

  function DaysBeforeYear(y: nat): nat {
    if y <= 1 then 0 else DaysBeforeYear(y - 1) + DaysInYear(y - 1)
  }

  function DaysBeforeMonth(y: nat, m: nat): nat {
    if m <= 1 then 0 else DaysBeforeMonth(y, m - 1) + DaysInMonth(y, m - 1)
  }

  /** `date.toordinal()`: 1 for 1 January of year 1. */
  function DayNumber(c: Date): nat {
    DaysBeforeYear(c.year) + DaysBeforeMonth(c.year, c.month) + c.day
  }

  lemma MonthTable(y: nat)
    ensures DaysBeforeMonth(y, 13) == DaysInYear(y)
  {
    var feb := DaysInMonth(y, 2);
    assert DaysBeforeMonth(y, 2) == 31;
    assert DaysBeforeMonth(y, 4) == feb + 62;
    assert DaysBeforeMonth(y, 6) == feb + 123;
    assert DaysBeforeMonth(y, 8) == feb + 184;
    assert DaysBeforeMonth(y, 10) == feb + 245;
    assert DaysBeforeMonth(y, 12) == feb + 306;
  }

  lemma CountMultiples(y: nat, k: nat)
    requires y >= 1 && k >= 1
    ensures y / k == (y - 1) / k + (if y % k == 0 then 1 else 0)
  {
    var q, r := (y - 1) / k, (y - 1) % k;
    assert y - 1 == k * q + r;
    if r == k - 1 {
      assert y == k * (q + 1);
      DivideExact(q + 1, k, 0, y);
    } else {
      DivideExact(q, k, r + 1, y);
    }
  }

  lemma DivideExact(q: nat, k: nat, r: nat, y: nat)
    requires k >= 1 && r < k && y == k * q + r
    ensures y / k == q && y % k == r
  {
    var gap := y / k - q;
    assert k * gap == r - y % k;
    assert gap >= 1 ==> k * gap >= k;
    assert gap <= -1 ==> k * gap + k <= 0;
  }

  function LeapDaysUpTo(y: nat): int {
    y / 4 - y / 100 + y / 400
  }

  function Once(b: bool): int {
    if b then 1 else 0
  }

  lemma LeapCounted(y: nat)
    ensures Once(Leap(y)) == Once(y % 4 == 0) - Once(y % 100 == 0) + Once(y % 400 == 0)
  {
    assert y % 400 == 0 ==> y % 100 == 0;
    assert y % 100 == 0 ==> y % 4 == 0;
  }

  lemma LeapDaysStep(y: nat)
    requires y >= 1
    ensures LeapDaysUpTo(y) == LeapDaysUpTo(y - 1) + Once(Leap(y))
  {
    hide Leap;
    CountMultiples(y, 4);
    CountMultiples(y, 100);
    CountMultiples(y, 400);
    LeapCounted(y);
  }

  lemma {:induction false} DaysBeforeYearClosed(y: nat)
    requires y >= 1
    ensures DaysBeforeYear(y) == (y - 1) * 365 + LeapDaysUpTo(y - 1)
  {
    if y > 1 {
      DaysBeforeYearClosed(y - 1);
      LeapDaysStep(y - 1);
    }
  }

  lemma {:induction false} MonthsAscend(y: nat, m: nat, later: nat)
    requires 1 <= m < later
    ensures DaysBeforeMonth(y, m) + DaysInMonth(y, m) <= DaysBeforeMonth(y, later)
    decreases later
  {
    if m < later - 1 { MonthsAscend(y, m, later - 1); }
  }

  lemma {:induction false} YearsAscend(y: nat, later: nat)
    requires 1 <= y < later
    ensures DaysBeforeYear(y) + DaysInYear(y) <= DaysBeforeYear(later)
    decreases later
  {
    if y < later - 1 { YearsAscend(y, later - 1); }
  }

  /** An earlier date has a smaller day number. */
  lemma DayNumberAscends(a: Date, b: Date)
    requires IsDate(a) && IsDate(b) && Earlier(a, b)
    ensures DayNumber(a) < DayNumber(b)
  {
    if a.year == b.year {
      if a.month < b.month { MonthsAscend(a.year, a.month, b.month); }
    } else {
      MonthTable(a.year);
      MonthsAscend(a.year, a.month, 13);
      YearsAscend(a.year, b.year);
    }
  }

  /** The day number of 31 December 9999, the last day a date can name. */
  const LAST_DAY := 3652059

  predicate IsLastDay(c: Date) {
    c.year == 9999 && c.month == 12 && c.day == 31
  }

  lemma LastDay(c: Date)
    requires IsLastDay(c)
    ensures DayNumber(c) == LAST_DAY
  {
    MonthTable(c.year);
    DaysBeforeYearClosed(c.year);
    assert DaysBeforeMonth(c.year, 13) == DaysBeforeMonth(c.year, 12) + 31;
  }

  lemma DayNumberRange(c: Date)
    requires IsDate(c)
    ensures 1 <= DayNumber(c) <= LAST_DAY
  {
    var first, last := Date(1, 1, 1), Date(9999, 12, 31);
    LastDay(last);
    if Earlier(first, c) { DayNumberAscends(first, c); }
    if Earlier(c, last) { DayNumberAscends(c, last); }
  }

  function NextDay(c: Date): (n: Date)
    requires IsDate(c) && !IsLastDay(c)
    ensures IsDate(n) && DayNumber(n) == DayNumber(c) + 1
  {
    MonthTable(c.year);
    if c.day < DaysInMonth(c.year, c.month) then c.(day := c.day + 1)
    else if c.month < 12 then Date(c.year, c.month + 1, 1)
    else Date(c.year + 1, 1, 1)
  }

  lemma DayNumberInjective(a: Date, b: Date)
    requires IsDate(a) && IsDate(b) && DayNumber(a) == DayNumber(b)
    ensures a == b
  {
    if Earlier(a, b) { DayNumberAscends(a, b); }
    if Earlier(b, a) { DayNumberAscends(b, a); }
  }

  lemma {:induction false} DayExists(n: int) returns (c: Date)
    requires 1 <= n <= LAST_DAY
    ensures IsDate(c) && DayNumber(c) == n
    decreases n
  {
    if n == 1 {
      c := Date(1, 1, 1);
      assert DaysBeforeYear(c.year) == 0 && DaysBeforeMonth(c.year, c.month) == 0;
    } else {
      var before := DayExists(n - 1);
      if IsLastDay(before) { LastDay(before); }
      c := NextDay(before);
    }
  }

  /** `date.fromordinal()`: the one date with this day number. */
  ghost function OfNumber(n: int): (c: Date)
    requires 1 <= n <= LAST_DAY
    ensures IsDate(c) && DayNumber(c) == n
  {
    assert exists c :: IsDate(c) && DayNumber(c) == n by {
      var c := DayExists(n);
    }
    var c :| IsDate(c) && DayNumber(c) == n;
    c
  }

  /** A date's number names that date alone. */
  lemma OfItsNumber(c: Date)
    requires IsDate(c)
    ensures 1 <= DayNumber(c) <= LAST_DAY && OfNumber(DayNumber(c)) == c
  {
    DayNumberRange(c);
    DayNumberInjective(OfNumber(DayNumber(c)), c);
  }

  /** A day's text sorts before another's exactly when the day comes before it. */
  lemma DayTextOrder(c: Date, n: int)
    requires IsDate(c) && 1 <= n <= LAST_DAY
    ensures StrLess(Iso(c), Iso(OfNumber(n))) <==> DayNumber(c) < n
  {
    var d := OfNumber(n);
    IsoOrder(c, d);
    if Earlier(c, d) { DayNumberAscends(c, d); }
    if Earlier(d, c) { DayNumberAscends(d, c); }
  }
}
