/**
 * The `YYYY-MM-DD` text of a session date (src/data/types.ts, app/index.tsx):
 * a four-digit year, a dash, the month and the day zero-padded to two digits.
 * Because every field has a fixed width, comparing two such texts character by
 * character is comparing the dates, which is why the model may use day numbers.
 */
module DateText {
  import opened Wrappers
  import opened Strings

  /** `String(n).padStart(2, '0')`. */
  function Pad2(n: nat): (r: string)
    ensures forall i :: 0 <= i < |r| ==> IsDigit(r[i])
    ensures n < 100 ==> |r| == 2 && DigitsValue(r) == n
  {
    var s := NatToString(n);
    DigitsValueOfNatToString(n);
    if |s| < 2 then
      assert ("0" + s)[..1] == "0";
      "0" + s
    else
      assert n < 100 ==> s == NatToString(n / 10) + [DigitChar(n % 10)];
      s
  }

  /** `${year}-${month}-${day}` with month and day padded. */
  function DateString(year: nat, month: nat, day: nat): string {
    NatToString(year) + "-" + Pad2(month) + "-" + Pad2(day)
  }

  /** A four-digit year and a month and day of at most two digits. */
  predicate ValidDate(year: nat, month: nat, day: nat) {
    1000 <= year <= 9999 && 1 <= month <= 12 && 1 <= day <= 31
  }

  lemma {:induction false} FourDigitYear(y: nat)
    requires 1000 <= y <= 9999
    ensures |NatToString(y)| == 4
  {
    assert NatToString(y) == NatToString(y / 10) + [DigitChar(y % 10)];
    assert NatToString(y / 10) == NatToString(y / 100) + [DigitChar(y / 10 % 10)];
    assert NatToString(y / 100) == NatToString(y / 1000) + [DigitChar(y / 100 % 10)];
  }

  /** The text is ten characters long, dashes at 4 and 7, and each field reads back with `parseInt`. */
  lemma DateStringFields(year: nat, month: nat, day: nat)
    requires ValidDate(year, month, day)
    ensures var r := DateString(year, month, day);
      && |r| == 10 && r[4] == '-' && r[7] == '-'
      && ParseInt(r[..4]) == Some(year)
      && ParseInt(r[5..7]) == Some(month)
      && ParseInt(r[8..]) == Some(day)
  {
    FourDigitYear(year);
    Slices(NatToString(year), Pad2(month), Pad2(day));
    ParseIntOfNatString(year, []);
    assert NatToString(year) + [] == NatToString(year);
    PaddedReadsBack(month);
    PaddedReadsBack(day);
  }

  lemma Slices(y: string, m: string, d: string)
    requires |y| == 4 && |m| == 2 && |d| == 2
    ensures var r := y + "-" + m + "-" + d;
      |r| == 10 && r[4] == '-' && r[7] == '-' && r[..4] == y && r[5..7] == m && r[8..] == d
  {
  }

  lemma PaddedReadsBack(n: nat)
    requires n < 100
    ensures ParseInt(Pad2(n)) == Some(n)
  {
    ParseIntOfDigits(Pad2(n), []);
    assert Pad2(n) + [] == Pad2(n);
  }

  /** Character order on two date texts is chronological order on the dates. */
  lemma DateStringOrder(y1: nat, m1: nat, d1: nat, y2: nat, m2: nat, d2: nat)
    requires ValidDate(y1, m1, d1) && ValidDate(y2, m2, d2)
    ensures StrLe(DateString(y1, m1, d1), DateString(y2, m2, d2))
            <==> y1 < y2 || (y1 == y2 && (m1 < m2 || (m1 == m2 && d1 <= d2)))
  {
    var a, b := NatToString(y1), NatToString(y2);
    FourDigitYear(y1);
    FourDigitYear(y2);
    DigitsValueOfNatToString(y1);
    DigitsValueOfNatToString(y2);
    FixedWidthDigitsOrder(a, b);
    var ta := "-" + Pad2(m1) + "-" + Pad2(d1);
    var tb := "-" + Pad2(m2) + "-" + Pad2(d2);
    assert DateString(y1, m1, d1) == a + ta;
    assert DateString(y2, m2, d2) == b + tb;
    StrLeAppend(a, ta, b, tb);
    MonthDayOrder(m1, d1, m2, d2);
  }

  /** Character order on the `-MM-DD` tails is the order on (month, day). */
  lemma MonthDayOrder(m1: nat, d1: nat, m2: nat, d2: nat)
    requires m1 < 100 && d1 < 100 && m2 < 100 && d2 < 100
    ensures StrLe("-" + Pad2(m1) + "-" + Pad2(d1), "-" + Pad2(m2) + "-" + Pad2(d2))
            <==> m1 < m2 || (m1 == m2 && d1 <= d2)
  {
    FixedWidthDigitsOrder(Pad2(m1), Pad2(m2));
    FixedWidthDigitsOrder(Pad2(d1), Pad2(d2));
    assert "-" + Pad2(m1) + "-" + Pad2(d1) == "-" + (Pad2(m1) + ("-" + Pad2(d1)));
    assert "-" + Pad2(m2) + "-" + Pad2(d2) == "-" + (Pad2(m2) + ("-" + Pad2(d2)));
    StrLeAppend("-", Pad2(m1) + ("-" + Pad2(d1)), "-", Pad2(m2) + ("-" + Pad2(d2)));
    StrLeAppend(Pad2(m1), "-" + Pad2(d1), Pad2(m2), "-" + Pad2(d2));
    StrLeAppend("-", Pad2(d1), "-", Pad2(d2));
  }
}
