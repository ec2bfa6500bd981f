/**
 `Time.Format("2006-01-02T15:04:05Z")`, the layout the date filters use: year, month,
 day, hour, minute and second as the time's own wall clock shows them, each written by
 Go's `appendInt` with its field width, and a literal `Z` at the end. No conversion to
 UTC takes place, whatever the time's location.
 */
module Dates {
  import opened Wrappers
  import opened Strings

  /** The wall-clock fields of a `time.Time` in its own location. */
  datatype Time = Time(year: int, month: int, day: int, hour: int, minute: int, second: int)

  predicate LeapYear(y: int) {
    y % 4 == 0 && (y % 100 != 0 || y % 400 == 0)
  }

  function DaysIn(month: int, year: int): int
    requires 1 <= month <= 12
  {
    if month == 2 then (if LeapYear(year) then 29 else 28)
    else if month == 4 || month == 6 || month == 9 || month == 11 then 30
    else 31
  }

  /** Fields a `time.Time` can show. */
  predicate Valid(t: Time) {
    && 1 <= t.month <= 12
    && 1 <= t.day <= DaysIn(t.month, t.year)
    && 0 <= t.hour < 24
    && 0 <= t.minute < 60
    && 0 <= t.second < 60
  }

  /**
   `appendInt(b, x, width)` of package time: a `-` for a negative number, then the
   digits of its magnitude, left-padded with zeros to `width`.
   */
  function AppendInt(x: int, width: nat): (r: GoString)
    ensures x >= 0 ==> AllDigits(r) && ParseNat(r) == x
    ensures x < 0 <==> |r| > 0 && r[0] == '-'
    ensures x < 0 ==> |r| >= 2 && AllDigits(r[1..]) && ParseNat(r[1..]) == -x
    ensures var digits := |NatDigits(if x < 0 then -x else x)|;
            |r| == (if x < 0 then 1 else 0) + (if digits < width then width else digits)
    ensures |r| >= width
  {
    if x < 0 then
      ParseNatZeroPad(-x, width);
      Signed(ZeroPad(-x, width));
      "-" + ZeroPad(-x, width)
    else
      ParseNatZeroPad(x, width);
      ZeroPad(x, width)
  }

  /** A `-` written before a digit string: the string follows it, unchanged. */
  lemma Signed(z: GoString)
    requires AllDigits(z)
    ensures |"-" + z| == |z| + 1 && ("-" + z)[0] == '-' && ("-" + z)[1..] == z
  {
  }

  /** A number below `10^width` is written in exactly `width` digits. */
  lemma AppendIntWidth(x: int, width: nat)
    requires width >= 1 && 0 <= x < Pow10(width)
    ensures |AppendInt(x, width)| == width
  {
    NatDigitsFit(x, width);
  }

  /** The layout with its six fields filled in. */
  function Stamp(y: GoString, mo: GoString, d: GoString, h: GoString, mi: GoString, se: GoString): GoString {
    y + ("-" + mo + "-" + d + "T" + h + ":" + mi + ":" + se + "Z")
  }

  /** `t.Format("2006-01-02T15:04:05Z")`. */
  function Format(t: Time): (r: GoString)
    ensures |r| >= 20
    ensures r[|r| - 1] == 'Z'
    ensures t.year < 0 <==> r[0] == '-'
  {
    Stamp(AppendInt(t.year, 4), AppendInt(t.month, 2), AppendInt(t.day, 2),
          AppendInt(t.hour, 2), AppendInt(t.minute, 2), AppendInt(t.second, 2))
  }

  lemma AppendIntBytes(x: int, width: nat)
    ensures IsBytes(AppendInt(x, width))
  {
    var r := AppendInt(x, width);
    if x < 0 {
      var z := ZeroPad(-x, width);
      assert r == "-" + z;
      forall j | 0 <= j < |r|
        ensures IsByte(r[j])
      {
        if j > 0 {
          assert r[j] == z[j - 1] && IsDigit(z[j - 1]);
        }
      }
    } else {
      assert forall j | 0 <= j < |r| :: IsDigit(r[j]);
    }
  }

  lemma StampBytes(y: GoString, mo: GoString, d: GoString, h: GoString, mi: GoString, se: GoString)
    requires IsBytes(y) && IsBytes(mo) && IsBytes(d) && IsBytes(h) && IsBytes(mi) && IsBytes(se)
    ensures IsBytes(Stamp(y, mo, d, h, mi, se))
  {
  }

  /** A formatted time is plain ASCII, whatever its fields. */
  lemma FormatBytes(t: Time)
    ensures IsBytes(Format(t))
  {
    AppendIntBytes(t.year, 4);
    AppendIntBytes(t.month, 2);
    AppendIntBytes(t.day, 2);
    AppendIntBytes(t.hour, 2);
    AppendIntBytes(t.minute, 2);
    AppendIntBytes(t.second, 2);
    StampBytes(AppendInt(t.year, 4), AppendInt(t.month, 2), AppendInt(t.day, 2),
               AppendInt(t.hour, 2), AppendInt(t.minute, 2), AppendInt(t.second, 2));
  }

  /** The `width`-character field of `s` at `i` read as a number, or nothing when it is not made of digits. */
  function Field(s: GoString, i: nat, width: nat): Option<int>
    requires i + width <= |s|
  {
    if AllDigits(s[i..i + width]) then Some(ParseNat(s[i..i + width])) else None
  }

  /**
   Reading a stamp of the form `YYYY-MM-DDTHH:MM:SSZ` back into its fields. Anything
   else, including a year outside 0000 to 9999, is rejected.
   */
  function ParseStamp(s: GoString): Option<Time> {
    if |s| != 20 || s[4] != '-' || s[7] != '-' || s[10] != 'T' || s[13] != ':' || s[16] != ':' || s[19] != 'Z'
    then None
    else
      match (Field(s, 0, 4), Field(s, 5, 2), Field(s, 8, 2), Field(s, 11, 2), Field(s, 14, 2), Field(s, 17, 2))
      case (Some(y), Some(mo), Some(d), Some(h), Some(mi), Some(se)) => Some(Time(y, mo, d, h, mi, se))
      case _ => None
  }

  /** The fields and the separators of a stamp built from six pieces of the right widths. */
  lemma StampLayout(y: GoString, mo: GoString, d: GoString, h: GoString, mi: GoString, se: GoString)
    requires |y| == 4 && |mo| == 2 && |d| == 2 && |h| == 2 && |mi| == 2 && |se| == 2
    ensures var s := Stamp(y, mo, d, h, mi, se);
            && |s| == 20
            && s[4] == '-' && s[7] == '-' && s[10] == 'T' && s[13] == ':' && s[16] == ':' && s[19] == 'Z'
            && s[0..4] == y && s[5..7] == mo && s[8..10] == d
            && s[11..13] == h && s[14..16] == mi && s[17..19] == se
  {
  }

  /** A valid time in the years 0 to 9999 formats to a stamp that reads back as that time. */
  lemma ParseFormat(t: Time)
    requires Valid(t) && 0 <= t.year <= 9999
    ensures |Format(t)| == 20
    ensures ParseStamp(Format(t)) == Some(t)
  {
    assert Pow10(4) == 10000 && Pow10(2) == 100;
    AppendIntWidth(t.year, 4);
    AppendIntWidth(t.month, 2);
    AppendIntWidth(t.day, 2);
    AppendIntWidth(t.hour, 2);
    AppendIntWidth(t.minute, 2);
    AppendIntWidth(t.second, 2);
    StampLayout(AppendInt(t.year, 4), AppendInt(t.month, 2), AppendInt(t.day, 2),
                AppendInt(t.hour, 2), AppendInt(t.minute, 2), AppendInt(t.second, 2));
  }

  /** Two different valid times in the years 0 to 9999 never share a stamp. */
  lemma FormatInjective(t: Time, u: Time)
    requires Valid(t) && 0 <= t.year <= 9999
    requires Valid(u) && 0 <= u.year <= 9999
    requires Format(t) == Format(u)
    ensures t == u
  {
    ParseFormat(t);
    ParseFormat(u);
  }

  /** A two-digit field, digit by digit. */
  lemma AppendIntTwo(x: int)
    requires 0 <= x < 100
    ensures AppendInt(x, 2) == [DigitChar(x / 10), DigitChar(x % 10)]
  {
    if x < 10 {
      assert Zeros(1) == "0" && DigitChar(0) == '0';
      assert NatDigits(x) == [DigitChar(x)];
    } else {
      assert NatDigits(x) == NatDigits(x / 10) + [DigitChar(x % 10)];
    }
  }

  /** A four-digit year from 1000 on, digit by digit. */
  lemma AppendIntFour(x: int)
    requires 1000 <= x < 10000
    ensures AppendInt(x, 4) == [DigitChar(x / 1000), DigitChar(x / 100 % 10), DigitChar(x / 10 % 10), DigitChar(x % 10)]
  {
    assert NatDigits(x / 1000) == [DigitChar(x / 1000)];
    assert NatDigits(x / 100) == NatDigits(x / 1000) + [DigitChar(x / 100 % 10)];
    assert NatDigits(x / 10) == NatDigits(x / 100) + [DigitChar(x / 10 % 10)];
  }

  lemma Year2025()
    ensures AppendInt(2025, 4) == "2025"
  {
    AppendIntFour(2025);
  }

  lemma TwoDigits(x: int, s: GoString)
    requires 0 <= x < 100
    requires s == [DigitChar(x / 10), DigitChar(x % 10)]
    ensures AppendInt(x, 2) == s
  {
    AppendIntTwo(x);
  }

  /** Midnight of 15 October 2025, as the filters send it. */
  lemma FormatExampleStart()
    ensures Format(Time(2025, 10, 15, 0, 0, 0)) == "2025-10-15T00:00:00Z"
  {
    Year2025();
    TwoDigits(10, "10");
    TwoDigits(15, "15");
    TwoDigits(0, "00");
    assert Stamp("2025", "10", "15", "00", "00", "00") == "2025-10-15T00:00:00Z";
  }

  /** The last second of 2025, as the filters send it. */
  lemma FormatExampleEnd()
    ensures Format(Time(2025, 12, 31, 23, 59, 59)) == "2025-12-31T23:59:59Z"
  {
    Year2025();
    TwoDigits(12, "12");
    TwoDigits(31, "31");
    TwoDigits(23, "23");
    TwoDigits(59, "59");
    assert Stamp("2025", "12", "31", "23", "59", "59") == "2025-12-31T23:59:59Z";
  }
}
