/** The time stamps of internal/storage/sqlite.go: RFC 3339 text in UTC, compared as text by the
    database. */
module Timestamps {

  /** A UTC time to the second, with a year of four digits. */
  datatype Stamp = Stamp(year: nat, month: nat, day: nat, hour: nat, minute: nat, second: nat)

  predicate IsLeap(year: nat) {
    year % 4 == 0 && (year % 100 != 0 || year % 400 == 0)
  }

  function MonthLength(year: nat, month: nat): nat {
    if month == 2 then (if IsLeap(year) then 29 else 28)
    else if month in {4, 6, 9, 11} then 30 else 31
  }

  predicate Valid(t: Stamp) {
    && t.year <= 9999 && 1 <= t.month <= 12 && 1 <= t.day <= MonthLength(t.year, t.month)
    && t.hour < 24 && t.minute < 60 && t.second < 60
  }

  // ---- As text ----

  function Digits(n: nat, width: nat): (s: string)
    ensures |s| == width
  {
    if width == 0 then "" else Digits(n / 10, width - 1) + ['0' + (n % 10) as char]
  }

  /** `time.RFC3339` in UTC. */
  function Text(t: Stamp): string {
    Digits(t.year, 4) + ("-" + (Digits(t.month, 2) + ("-" + (Digits(t.day, 2) + ("T" +
    (Digits(t.hour, 2) + (":" + (Digits(t.minute, 2) + (":" + (Digits(t.second, 2) + "Z"))))))))))
  }

  lemma TwoDigits(n: nat)
    requires n < 100
    ensures Digits(n, 2) == ['0' + (n / 10) as char, '0' + (n % 10) as char]
  {
    assert Digits(n / 10, 1) == Digits(n / 10 / 10, 0) + ['0' + (n / 10 % 10) as char];
  }

  lemma ExampleDigits()
    ensures Digits(2024, 4) == "2024" && Digits(2, 2) == "02" && Digits(29, 2) == "29"
    ensures Digits(23, 2) == "23" && Digits(59, 2) == "59" && Digits(58, 2) == "58"
  {
    TwoDigits(20);
    assert Digits(202, 3) == "202";
    TwoDigits(2);
    TwoDigits(29);
    TwoDigits(23);
    TwoDigits(59);
    TwoDigits(58);
  }

  lemma ExampleJoined(y: string, m: string, d: string, h: string, i: string, s: string)
    requires y == "2024" && m == "02" && d == "29" && h == "23" && i == "59" && s == "58"
    ensures y + ("-" + (m + ("-" + (d + ("T" + (h + (":" + (i + (":" + (s + "Z")))))))))) == "2024-02-29T23:59:58Z"
  {
    var time := h + (":" + (i + (":" + (s + "Z"))));
    assert time == "23:59:58Z";
    assert m + ("-" + (d + ("T" + time))) == "02-29T23:59:58Z";
  }

  /** The order of the fields, their widths and what stands between them. */
  lemma TextExample()
    ensures Text(Stamp(2024, 2, 29, 23, 59, 58)) == "2024-02-29T23:59:58Z"
  {
    ExampleDigits();
    ExampleJoined(Digits(2024, 4), Digits(2, 2), Digits(29, 2), Digits(23, 2), Digits(59, 2), Digits(58, 2));
  }

  /** The order of TEXT values. */
  predicate Before(a: string, b: string) {
    b != "" && (a == "" || a[0] < b[0] || (a[0] == b[0] && Before(a[1..], b[1..])))
  }

  lemma {:induction false} BeforeConcat(a: string, b: string, x: string, y: string)
    requires |a| == |b|
    ensures Before(a + x, b + y) <==> Before(a, b) || (a == b && Before(x, y))
  {
    if a == "" {
      assert a + x == x && b + y == y;
    } else {
      assert (a + x)[1..] == a[1..] + x && (b + y)[1..] == b[1..] + y;
      assert a == [a[0]] + a[1..] && b == [b[0]] + b[1..];
      BeforeConcat(a[1..], b[1..], x, y);
    }
  }

  lemma {:induction false} DigitsOrdered(m: nat, n: nat, width: nat)
    requires m < Power10(width) && n < Power10(width)
    ensures Before(Digits(m, width), Digits(n, width)) <==> m < n
    ensures Digits(m, width) == Digits(n, width) <==> m == n
  {
    if width > 0 {
      var x, y := ['0' + (m % 10) as char], ['0' + (n % 10) as char];
      var a, b := Digits(m / 10, width - 1), Digits(n / 10, width - 1);
      DigitsOrdered(m / 10, n / 10, width - 1);
      BeforeConcat(a, b, x, y);
      assert Digits(m, width)[..width - 1] == a && Digits(n, width)[..width - 1] == b;
      assert Digits(m, width)[width - 1] == x[0] && Digits(n, width)[width - 1] == y[0];
      assert Before(x, y) <==> m % 10 < n % 10;
      assert x == y <==> m % 10 == n % 10;
    }
  }

  function Power10(n: nat): nat {
    if n == 0 then 1 else 10 * Power10(n - 1)
  }

  /** One field of fixed width, its separator, and the rest. */
  lemma FieldOrdered(m: nat, n: nat, width: nat, separator: string, x: string, y: string)
    requires m < Power10(width) && n < Power10(width)
    ensures Before(Digits(m, width) + (separator + x), Digits(n, width) + (separator + y)) <==>
            m < n || (m == n && Before(x, y))
  {
    DigitsOrdered(m, n, width);
    BeforeConcat(Digits(m, width), Digits(n, width), separator + x, separator + y);
    BeforeConcat(separator, separator, x, y);
    Irreflexive(separator);
  }

  lemma {:induction false} Irreflexive(s: string)
    ensures !Before(s, s)
  {
    if s != "" {
      Irreflexive(s[1..]);
    }
  }

  predicate FieldsBefore(a: Stamp, b: Stamp) {
    || a.year < b.year
    || (a.year == b.year && (|| a.month < b.month
    || (a.month == b.month && (|| a.day < b.day
    || (a.day == b.day && (|| a.hour < b.hour
    || (a.hour == b.hour && (|| a.minute < b.minute
    || (a.minute == b.minute && a.second < b.second)))))))))
  }

  lemma TextOrdersFields(a: Stamp, b: Stamp)
    requires Valid(a) && Valid(b)
    ensures Before(Text(a), Text(b)) <==> FieldsBefore(a, b)
  {
    assert Power10(2) == 100 && Power10(4) == 10000;
    var s5, u5 := "Z", "Z";
    var s4, u4 := Digits(a.second, 2) + s5, Digits(b.second, 2) + u5;
    var s3, u3 := Digits(a.minute, 2) + (":" + s4), Digits(b.minute, 2) + (":" + u4);
    var s2, u2 := Digits(a.hour, 2) + (":" + s3), Digits(b.hour, 2) + (":" + u3);
    var s1, u1 := Digits(a.day, 2) + ("T" + s2), Digits(b.day, 2) + ("T" + u2);
    var s0, u0 := Digits(a.month, 2) + ("-" + s1), Digits(b.month, 2) + ("-" + u1);
    FieldOrdered(a.year, b.year, 4, "-", s0, u0);
    FieldOrdered(a.month, b.month, 2, "-", s1, u1);
    FieldOrdered(a.day, b.day, 2, "T", s2, u2);
    FieldOrdered(a.hour, b.hour, 2, ":", s3, u3);
    FieldOrdered(a.minute, b.minute, 2, ":", s4, u4);
    FieldOrdered(a.second, b.second, 2, "Z", "", "");
    assert s5 == "Z" + "" && u5 == "Z" + "";
  }

  // ---- As an instant ----

  function YearLength(year: nat): nat {
    if IsLeap(year) then 366 else 365
  }

  function DaysBeforeYear(year: nat): nat {
    if year == 0 then 0 else DaysBeforeYear(year - 1) + YearLength(year - 1)
  }

  function DaysBeforeMonth(year: nat, month: nat): nat {
    if month <= 1 then 0 else DaysBeforeMonth(year, month - 1) + MonthLength(year, month - 1)
  }

  function Seconds(t: Stamp): nat {
    var days := DaysBeforeYear(t.year) + DaysBeforeMonth(t.year, t.month) + t.day;
    ((days * 24 + t.hour) * 60 + t.minute) * 60 + t.second
  }

  function DayOfYear(t: Stamp): nat {
    DaysBeforeMonth(t.year, t.month) + t.day
  }

  lemma {:induction false} MonthsMonotone(year: nat, m: nat, n: nat)
    requires 1 <= m < n
    ensures DaysBeforeMonth(year, m) + MonthLength(year, m) <= DaysBeforeMonth(year, n)
  {
    if m < n - 1 {
      MonthsMonotone(year, m, n - 1);
    }
  }

  lemma YearHasMonths(year: nat)
    ensures DaysBeforeMonth(year, 12) + MonthLength(year, 12) == YearLength(year)
  {
    assert DaysBeforeMonth(year, 2) == 31;
    assert DaysBeforeMonth(year, 4) == 62 + MonthLength(year, 2);
    assert DaysBeforeMonth(year, 6) == 123 + MonthLength(year, 2);
    assert DaysBeforeMonth(year, 8) == 184 + MonthLength(year, 2);
    assert DaysBeforeMonth(year, 10) == 245 + MonthLength(year, 2);
  }

  lemma {:induction false} YearsMonotone(m: nat, n: nat)
    requires m < n
    ensures DaysBeforeYear(m) + YearLength(m) <= DaysBeforeYear(n)
  {
    if m < n - 1 {
      YearsMonotone(m, n - 1);
    }
  }

  /** The multiples of `d` below `x`. */
  function MultiplesBelow(x: nat, d: nat): nat
    requires d > 0
  {
    (x + d - 1) / d
  }

  lemma StepsAtMultiples(x: nat, d: nat)
    requires d == 4 || d == 100 || d == 400
    ensures MultiplesBelow(x + 1, d) == MultiplesBelow(x, d) + (if x % d == 0 then 1 else 0)
  {
  }

  lemma Times(n: nat)
    ensures 4 * n % 4 == 0 && 100 * n % 100 == 0
  {
  }

  lemma Centuries(year: nat, n: nat)
    requires year == 100 * n
    ensures year % 4 == 0 && year % 100 == 0
  {
    Times(n);
    Times(25 * n);
  }

  lemma LeapInMultiples(year: nat)
    ensures (if IsLeap(year) then 1 else 0) ==
            (if year % 4 == 0 then 1 else 0) - (if year % 100 == 0 then 1 else 0) + (if year % 400 == 0 then 1 else 0)
  {
    if year % 400 == 0 {
      Centuries(year, 4 * (year / 400));
    }
    if year % 100 == 0 {
      Centuries(year, year / 100);
    }
  }

  function LeapYearsBefore(year: nat): int {
    MultiplesBelow(year, 4) - MultiplesBelow(year, 100) + MultiplesBelow(year, 400)
  }

  lemma OneMoreYear(year: nat)
    ensures LeapYearsBefore(year + 1) == LeapYearsBefore(year) + (if IsLeap(year) then 1 else 0)
  {
    StepsAtMultiples(year, 4);
    StepsAtMultiples(year, 100);
    StepsAtMultiples(year, 400);
    LeapInMultiples(year);
  }

  /** The days before a year: every fourth year is longer, but for three of four whole centuries. */
  lemma {:induction false} DaysClosedForm(year: nat)
    ensures DaysBeforeYear(year) == 365 * year + LeapYearsBefore(year)
  {
    if year > 0 {
      DaysClosedForm(year - 1);
      OneMoreYear(year - 1);
    }
  }

  /** The days before a month of a year. */
  lemma MonthTable(year: nat, month: nat)
    requires 1 <= month <= 12
    ensures DaysBeforeMonth(year, month) ==
            [0, 31, 59, 90, 120, 151, 181, 212, 243, 273, 304, 334][month - 1]
            + (if month > 2 && year % 4 == 0 && (year % 100 != 0 || year % 400 == 0) then 1 else 0)
  {
    var d := MonthLength(year, 2);
    assert DaysBeforeMonth(year, 1) == 0 && DaysBeforeMonth(year, 2) == 31;
    assert DaysBeforeMonth(year, 3) == 31 + d && DaysBeforeMonth(year, 4) == 62 + d;
    assert DaysBeforeMonth(year, 5) == 92 + d && DaysBeforeMonth(year, 6) == 123 + d;
    assert DaysBeforeMonth(year, 7) == 153 + d && DaysBeforeMonth(year, 8) == 184 + d;
    assert DaysBeforeMonth(year, 9) == 215 + d && DaysBeforeMonth(year, 10) == 245 + d;
    assert DaysBeforeMonth(year, 11) == 276 + d && DaysBeforeMonth(year, 12) == 306 + d;
  }

  lemma DayInYear(t: Stamp)
    requires Valid(t)
    ensures 1 <= DayOfYear(t) <= YearLength(t.year)
  {
    YearHasMonths(t.year);
    if t.month < 12 {
      MonthsMonotone(t.year, t.month, 12);
    }
  }

  lemma FieldsOrderInstants(a: Stamp, b: Stamp)
    requires Valid(a) && Valid(b) && FieldsBefore(a, b)
    ensures Seconds(a) < Seconds(b)
  {
    DayInYear(a);
    DayInYear(b);
    if a.year < b.year {
      YearsMonotone(a.year, b.year);
    } else if a.month < b.month {
      MonthsMonotone(a.year, a.month, b.month);
    }
  }

  /** The database's text order on stored stamps is the order of time. */
  lemma TextOrderIsTimeOrder(a: Stamp, b: Stamp)
    requires Valid(a) && Valid(b)
    ensures Before(Text(a), Text(b)) <==> Seconds(a) < Seconds(b)
  {
    TextOrdersFields(a, b);
    if FieldsBefore(a, b) {
      FieldsOrderInstants(a, b);
    } else if a != b {
      FieldsOrderInstants(b, a);
    }
  }

  // ---- Purging the audit log ----

  /** DELETE FROM scan_audit_logs WHERE timestamp < threshold, on rows by ID: exactly the rows from
      before the threshold go. */
  method PurgeAuditLogs(rows: map<string, Stamp>, threshold: Stamp) returns (kept: map<string, Stamp>, purged: nat)
    requires Valid(threshold) && forall id :: id in rows ==> Valid(rows[id])
    ensures forall id :: id in kept <==> id in rows && Seconds(rows[id]) >= Seconds(threshold)
    ensures forall id :: id in kept ==> kept[id] == rows[id]
    ensures purged == |rows| - |kept|
  {
    kept, purged := rows, 0;
    var ids := rows.Keys;
    while ids != {}
      invariant ids <= kept.Keys <= rows.Keys
      invariant forall id :: id in kept ==> kept[id] == rows[id]
      invariant forall id :: id in rows && id !in ids ==> (id in kept <==> Seconds(rows[id]) >= Seconds(threshold))
      invariant purged == |rows| - |kept|
      decreases ids
    {
      var id :| id in ids;
      ids := ids - {id};
      TextOrderIsTimeOrder(rows[id], threshold);
      if Before(Text(rows[id]), Text(threshold)) {
        kept := kept - {id};
        purged := purged + 1;
      }
    }
  }
}
