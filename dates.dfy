/** The `date` column holds `YYYY-MM-DD` strings.  The list query orders rows
    by date; this module gives that order and shows that, for well-formed
    dates, comparing the strings character by character agrees with comparing
    the calendar dates they name. */
module Dates {

  /** `a` sorts no later than `b`: lexicographic order on strings, the order
      in which the date column is compared. */
  predicate DateLe(a: string, b: string)
    decreases |a|
  {
    a == [] || (b != [] && (a[0] < b[0] || (a[0] == b[0] && DateLe(a[1..], b[1..]))))
  }

  lemma {:induction false} DateLeReflexive(a: string)
    ensures DateLe(a, a)
  {
    if a != [] {
      DateLeReflexive(a[1..]);
    }
  }

  lemma {:induction false} DateLeTotal(a: string, b: string)
    ensures DateLe(a, b) || DateLe(b, a)
  {
    if a != [] && b != [] && a[0] == b[0] {
      DateLeTotal(a[1..], b[1..]);
    }
  }

  lemma {:induction false} DateLeTransitive(a: string, b: string, c: string)
    requires DateLe(a, b) && DateLe(b, c)
    ensures DateLe(a, c)
  {
    if a != [] && b != [] && c != [] && a[0] == b[0] && b[0] == c[0] {
      DateLeTransitive(a[1..], b[1..], c[1..]);
    }
  }

  lemma {:induction false} DateLeAntisymmetric(a: string, b: string)
    requires DateLe(a, b) && DateLe(b, a)
    ensures a == b
  {
    if a != [] && b != [] {
      DateLeAntisymmetric(a[1..], b[1..]);
      assert a == [a[0]] + a[1..];
      assert b == [b[0]] + b[1..];
    }
  }

  /** Comparing two concatenations whose first parts have equal length:
      the first parts decide unless they are equal. */
  lemma {:induction false} DateLeConcat(x: string, u: string, y: string, v: string)
    requires |x| == |y|
    ensures DateLe(x + u, y + v) <==> (x != y && DateLe(x, y)) || (x == y && DateLe(u, v))
  {
    if x == [] {
      assert x + u == u && y + v == v;
    } else {
      assert (x + u)[0] == x[0] && (y + v)[0] == y[0];
      assert (x + u)[1..] == x[1..] + u && (y + v)[1..] == y[1..] + v;
      DateLeConcat(x[1..], u, y[1..], v);
      assert x == [x[0]] + x[1..] && y == [y[0]] + y[1..];
    }
  }

  predicate IsDigit(c: char) {
    '0' <= c <= '9'
  }

  predicate AllDigits(s: string) {
    forall i :: 0 <= i < |s| ==> IsDigit(s[i])
  }

  function DigitValue(c: char): nat {
    if IsDigit(c) then c as int - '0' as int else 0
  }

  function Pow10(n: nat): (r: nat)
    ensures r >= 1
  {
    if n == 0 then 1 else 10 * Pow10(n - 1)
  }

  /** The number a string of decimal digits spells, most significant first. */
  function DigitsValue(s: string): nat {
    if s == [] then 0 else DigitValue(s[0]) * Pow10(|s| - 1) + DigitsValue(s[1..])
  }

  lemma {:induction false} DigitsValueBound(s: string)
    requires AllDigits(s)
    ensures DigitsValue(s) < Pow10(|s|)
  {
    if s != [] {
      assert AllDigits(s[1..]) && IsDigit(s[0]);
      DigitsValueBound(s[1..]);
      var d, p := DigitValue(s[0]), Pow10(|s| - 1);
      MulStep(d, 10, p);
      assert Pow10(|s|) == 10 * p;
      assert DigitsValue(s) == d * p + DigitsValue(s[1..]);
    }
  }

  /** A smaller leading digit loses by at least one unit of its place. */
  lemma MulStep(a: nat, b: nat, p: nat)
    requires a < b
    ensures a * p + p <= b * p
  {
    assert (a + 1) * p == a * p + p;
    assert (a + 1) * p <= b * p;
  }

  /** On digit strings of equal length, string order is numeric order. */
  lemma {:induction false} DigitsOrder(x: string, y: string)
    requires |x| == |y| && AllDigits(x) && AllDigits(y)
    ensures DateLe(x, y) <==> DigitsValue(x) <= DigitsValue(y)
  {
    if x != [] {
      assert AllDigits(x[1..]) && IsDigit(x[0]);
      assert AllDigits(y[1..]) && IsDigit(y[0]);
      var dx, dy, p := DigitValue(x[0]), DigitValue(y[0]), Pow10(|x| - 1);
      DigitsValueBound(x[1..]);
      DigitsValueBound(y[1..]);
      DigitsOrder(x[1..], y[1..]);
      assert DigitsValue(x) == dx * p + DigitsValue(x[1..]);
      assert DigitsValue(y) == dy * p + DigitsValue(y[1..]);
      if x[0] < y[0] {
        MulStep(dx, dy, p);
      } else if y[0] < x[0] {
        MulStep(dy, dx, p);
      }
    }
  }

  /** On digit strings of equal length, equal strings are equal numbers. */
  lemma DigitsEqual(x: string, y: string)
    requires |x| == |y| && AllDigits(x) && AllDigits(y)
    ensures x == y <==> DigitsValue(x) == DigitsValue(y)
  {
    DigitsOrder(x, y);
    DigitsOrder(y, x);
    if DigitsValue(x) == DigitsValue(y) {
      DateLeAntisymmetric(x, y);
    }
  }

  function Year(s: string): nat
    requires |s| == 10
  {
    DigitsValue(s[..4])
  }

  function Month(s: string): nat
    requires |s| == 10
  {
    DigitsValue(s[5..7])
  }

  function Day(s: string): nat
    requires |s| == 10
  {
    DigitsValue(s[8..])
  }

  predicate IsLeapYear(y: nat) {
    y % 4 == 0 && (y % 100 != 0 || y % 400 == 0)
  }

  function DaysInMonth(y: nat, m: nat): nat
    requires 1 <= m <= 12
  {
    if m == 2 then (if IsLeapYear(y) then 29 else 28)
    else if m == 4 || m == 6 || m == 9 || m == 11 then 30
    else 31
  }

  /** A zero-padded `YYYY-MM-DD` string naming a real calendar day, the form
      the date input of the form produces. */
  predicate IsIsoDate(s: string) {
    && |s| == 10
    && s[4] == '-' && s[7] == '-'
    && AllDigits(s[..4]) && AllDigits(s[5..7]) && AllDigits(s[8..])
    && 1 <= Month(s) <= 12
    && 1 <= Day(s) <= DaysInMonth(Year(s), Month(s))
  }

  /** `a` is the same day as `b` or an earlier one. */
  predicate CalendarLe(a: string, b: string)
    requires |a| == 10 && |b| == 10
  {
    || Year(a) < Year(b)
    || (Year(a) == Year(b) && Month(a) < Month(b))
    || (Year(a) == Year(b) && Month(a) == Month(b) && Day(a) <= Day(b))
  }

  /** For well-formed dates the string order used for sorting is the
      chronological order. */
  lemma IsoDateOrder(a: string, b: string)
    requires IsIsoDate(a) && IsIsoDate(b)
    ensures DateLe(a, b) <==> CalendarLe(a, b)
  {
    assert a == a[..4] + a[4..] && b == b[..4] + b[4..];
    DateLeConcat(a[..4], a[4..], b[..4], b[4..]);
    DigitsOrder(a[..4], b[..4]);
    DigitsEqual(a[..4], b[..4]);

    assert a[4..][0] == b[4..][0];
    assert a[4..][1..] == a[5..] && b[4..][1..] == b[5..];

    assert a[5..] == a[5..7] + a[7..] && b[5..] == b[5..7] + b[7..];
    DateLeConcat(a[5..7], a[7..], b[5..7], b[7..]);
    DigitsOrder(a[5..7], b[5..7]);
    DigitsEqual(a[5..7], b[5..7]);

    assert a[7..][0] == b[7..][0];
    assert a[7..][1..] == a[8..] && b[7..][1..] == b[8..];
    DigitsOrder(a[8..], b[8..]);
  }
}
