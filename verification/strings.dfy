/**
 Go strings and the handful of `strings` / `strconv` operations the client uses:
 trimming a one-byte cutset, decimal rendering of integers, zero padding,
 byte-wise ordering, joining and cutting at a separator.

 A Go string is a sequence of bytes. It is modelled as a Dafny string whose
 characters all have a code below 256, one character per byte, so that Go's
 byte-wise comparison and per-byte escaping can be stated exactly.
 */
module Strings {
  import opened Wrappers

  /** A Go string: a sequence of bytes, one character per byte. */
  type GoString = string

  predicate IsByte(c: char) {
    c as int < 256
  }

  /** Every character of `s` stands for a byte, as in every string a Go program holds. */
  predicate IsBytes(s: string) {
    forall i | 0 <= i < |s| :: IsByte(s[i])
  }

  /** Every character of `s` is `c`. */
  predicate AllChar(s: string, c: char) {
    forall i | 0 <= i < |s| :: s[i] == c
  }

  // ---------------------------------------------------------------------------
  // Trimming (strings.TrimLeft / TrimRight / Trim with a one-byte cutset)
  // ---------------------------------------------------------------------------

  /** Drops every leading `c`: the result is the longest suffix of `s` that does not start with `c`. */
  function TrimLeft(s: GoString, c: char): (r: GoString)
    ensures |r| <= |s| && r == s[|s| - |r|..]
    ensures AllChar(s[..|s| - |r|], c)
    ensures r == [] || r[0] != c
  {
    if |s| > 0 && s[0] == c then
      var r := TrimLeft(s[1..], c);
      assert s[1..][|s| - 1 - |r|..] == s[|s| - |r|..];
      assert s[..|s| - |r|] == [c] + s[1..][..|s| - 1 - |r|];
      r
    else s
  }

  /** Drops every trailing `c`: the result is the longest prefix of `s` that does not end with `c`. */
  function TrimRight(s: GoString, c: char): (r: GoString)
    ensures |r| <= |s| && r == s[..|r|]
    ensures AllChar(s[|r|..], c)
    ensures r == [] || r[|r| - 1] != c
  {
    if |s| > 0 && s[|s| - 1] == c then
      var r := TrimRight(s[..|s| - 1], c);
      assert s[..|s| - 1][..|r|] == s[..|r|];
      assert s[|r|..] == s[..|s| - 1][|r|..] + [c];
      r
    else s
  }

  /** Both ends trimmed: `s` is `c*` + r + `c*`, and r neither starts nor ends with `c`. */
  function Trim(s: GoString, c: char): (r: GoString)
    ensures |r| <= |s|
    ensures r == [] || (r[0] != c && r[|r| - 1] != c)
    ensures r == [] <==> AllChar(s, c)
  {
    var l := TrimLeft(s, c);
    TrimLeftEmpty(s, c);
    TrimRightEmpty(l, c);
    TrimRight(l, c)
  }

  lemma TrimLeftEmpty(s: GoString, c: char)
    ensures TrimLeft(s, c) == [] <==> AllChar(s, c)
  {
    var l := TrimLeft(s, c);
    if l == [] {
      assert s[..|s|] == s;
    } else {
      assert l[0] == s[|s| - |l|];
    }
  }

  lemma TrimRightEmpty(s: GoString, c: char)
    requires s == [] || s[0] != c
    ensures TrimRight(s, c) == [] <==> s == []
  {
    var r := TrimRight(s, c);
    assert r == [] ==> s[|r|..] == s;
  }

  /**
   Whatever the split of `s` into a run of `c`, a middle part and another run of `c`,
   if the middle part neither starts nor ends with `c` then it is the trimmed string.
   */
  lemma TrimIsMiddle(s: GoString, c: char, i: nat, j: nat)
    requires i <= j <= |s|
    requires AllChar(s[..i], c) && AllChar(s[j..], c)
    requires i == j || (s[i] != c && s[j - 1] != c)
    ensures Trim(s, c) == s[i..j]
  {
    if i == j {
      AllCharSplit(s, c, i);
    } else {
      TrimNonEmptyMiddle(s, c, i, j);
    }
  }

  lemma TrimNonEmptyMiddle(s: GoString, c: char, i: nat, j: nat)
    requires i < j <= |s|
    requires AllChar(s[..i], c) && AllChar(s[j..], c)
    requires s[i] != c && s[j - 1] != c
    ensures TrimRight(TrimLeft(s, c), c) == s[i..j]
  {
    TrimLeftRun(s, c, i);
    TrimRightOfSuffix(s, c, i, j);
  }

  lemma TrimRightOfSuffix(s: GoString, c: char, i: nat, j: nat)
    requires i < j <= |s|
    requires AllChar(s[j..], c) && s[j - 1] != c
    ensures TrimRight(s[i..], c) == s[i..j]
  {
    var l := s[i..];
    assert l[j - i..] == s[j..];
    assert l[j - i - 1] == s[j - 1];
    TrimRightRun(l, c, j - i);
    assert l[..j - i] == s[i..j];
  }

  lemma AllCharSplit(s: string, c: char, i: nat)
    requires i <= |s| && AllChar(s[..i], c) && AllChar(s[i..], c)
    ensures AllChar(s, c)
  {
    forall k | 0 <= k < |s|
      ensures s[k] == c
    {
      if k < i {
        assert s[k] == s[..i][k];
      } else {
        assert s[k] == s[i..][k - i];
      }
    }
  }

  lemma {:induction false} TrimLeftRun(s: GoString, c: char, i: nat)
    requires i <= |s| && AllChar(s[..i], c)
    requires i == |s| || s[i] != c
    ensures TrimLeft(s, c) == s[i..]
    decreases i
  {
    if i > 0 {
      assert s[0] == s[..i][0];
      assert s[1..][..i - 1] == s[1..i];
      TrimLeftRun(s[1..], c, i - 1);
      assert s[1..][i - 1..] == s[i..];
    }
  }

  lemma {:induction false} TrimRightRun(s: GoString, c: char, j: nat)
    requires j <= |s| && AllChar(s[j..], c)
    requires j == 0 || s[j - 1] != c
    ensures TrimRight(s, c) == s[..j]
    decreases |s| - j
  {
    if j < |s| {
      assert s[|s| - 1] == s[j..][|s| - 1 - j];
      assert s[..|s| - 1][j..] == s[j..|s| - 1];
      TrimRightRun(s[..|s| - 1], c, j);
      assert s[..|s| - 1][..j] == s[..j];
    }
  }

  // ---------------------------------------------------------------------------
  // Decimal digits (strconv.Itoa, strconv.FormatBool, zero padding)
  // ---------------------------------------------------------------------------

  predicate IsDigit(c: char) {
    '0' <= c <= '9'
  }

  predicate AllDigits(s: string) {
    forall i | 0 <= i < |s| :: IsDigit(s[i])
  }

  function DigitChar(d: nat): (c: char)
    requires d < 10
    ensures IsDigit(c)
  {
    ('0' as int + d) as char
  }

  function DigitValue(c: char): (d: nat)
    requires IsDigit(c)
    ensures d < 10 && DigitChar(d) == c
  {
    c as int - '0' as int
  }

  /** The canonical decimal form of `n`: at least one digit, no leading zero unless `n` is 0. */
  function NatDigits(n: nat): (r: GoString)
    ensures |r| >= 1 && AllDigits(r)
    ensures |r| > 1 ==> r[0] != '0'
    decreases n
  {
    if n < 10 then [DigitChar(n)] else NatDigits(n / 10) + [DigitChar(n % 10)]
  }

  /** The value of a string of decimal digits, most significant first (leading zeros allowed). */
  function ParseNat(s: string): nat
    requires AllDigits(s)
  {
    if s == [] then 0 else ParseNat(s[..|s| - 1]) * 10 + DigitValue(s[|s| - 1])
  }

  /** Reading back the canonical decimal form of `n` gives `n`. */
  lemma {:induction false} ParseNatDigits(n: nat)
    ensures ParseNat(NatDigits(n)) == n
    decreases n
  {
    if n >= 10 {
      var d := NatDigits(n);
      assert d[..|d| - 1] == NatDigits(n / 10);
      ParseNatDigits(n / 10);
    }
  }

  function Pow10(w: nat): (r: nat)
    ensures r >= 1
  {
    if w == 0 then 1 else 10 * Pow10(w - 1)
  }

  /** A number below `10^w` has at most `w` digits. */
  lemma {:induction false} NatDigitsFit(n: nat, w: nat)
    requires w >= 1 && n < Pow10(w)
    ensures |NatDigits(n)| <= w
    decreases w
  {
    if n >= 10 {
      assert w > 1;
      NatDigitsFit(n / 10, w - 1);
    }
  }

  /** Leading zeros do not change the value read. */
  lemma {:induction false} ParseNatLeadingZero(s: string)
    requires AllDigits(s)
    ensures ParseNat("0" + s) == ParseNat(s)
    decreases |s|
  {
    if s != [] {
      var t := "0" + s;
      assert t[..|t| - 1] == "0" + s[..|s| - 1];
      ParseNatLeadingZero(s[..|s| - 1]);
    }
  }

  /** `strconv.Itoa`: decimal, with a leading '-' for negative numbers. */
  function Itoa(i: int): (r: GoString)
    ensures |r| >= 1
    ensures r[0] == '-' <==> i < 0
    ensures i >= 0 ==> AllDigits(r)
    ensures i < 0 ==> AllDigits(r[1..])
    ensures var d := if i < 0 then r[1..] else r;
            && |d| >= 1
            && (|d| > 1 ==> d[0] != '0')
            && (d == "0" <==> i == 0)
  {
    if i < 0 then
      NatDigitsZero(-i);
      assert ("-" + NatDigits(-i))[1..] == NatDigits(-i);
      "-" + NatDigits(-i)
    else
      NatDigitsZero(i);
      NatDigits(i)
  }

  /** Only zero is written as a lone `0`. */
  lemma NatDigitsZero(n: nat)
    ensures NatDigits(n) == "0" <==> n == 0
  {
    if n < 10 {
      assert NatDigits(n) == [DigitChar(n)];
    }
  }

  /** Decimal text never holds `sep` when `sep` is not a digit or `-`. */
  lemma ItoaWithout(i: int, sep: char)
    requires !IsDigit(sep) && sep != '-'
    ensures sep !in Itoa(i)
  {
    var r := Itoa(i);
    forall j | 0 <= j < |r|
      ensures r[j] != sep
    {
      if i < 0 && j > 0 {
        assert r[j] == r[1..][j - 1];
      }
    }
  }

  /** Decimal text is plain ASCII. */
  lemma ItoaBytes(i: int)
    ensures IsBytes(Itoa(i))
  {
    var r := Itoa(i);
    forall j | 0 <= j < |r|
      ensures IsByte(r[j])
    {
      if j > 0 || i >= 0 {
        if i < 0 {
          assert r[j] == r[1..][j - 1];
        }
        assert IsDigit(r[j]);
      }
    }
  }

  /**
   A reader of signed decimal strings: an optional '-' followed by at least one digit.
   It accepts leading zeros and rejects everything else.
   */
  function Atoi(s: string): Option<int> {
    if |s| > 0 && s[0] == '-' then
      if |s| > 1 && AllDigits(s[1..]) then Some(0 - ParseNat(s[1..])) else None
    else if |s| > 0 && AllDigits(s) then Some(ParseNat(s))
    else None
  }

  /** `Itoa` loses nothing: reading its output back gives the same integer. */
  lemma AtoiItoa(i: int)
    ensures Atoi(Itoa(i)) == Some(i)
  {
    if i < 0 {
      ParseNatDigits(-i);
      assert Itoa(i)[1..] == NatDigits(-i);
    } else {
      ParseNatDigits(i);
    }
  }

  /** `strconv.FormatBool`. */
  function FormatBool(b: bool): (r: GoString)
    ensures r == "true" || r == "false"
    ensures (r == "true") == b
  {
    if b then "true" else "false"
  }

  function Zeros(k: nat): (r: GoString)
    ensures |r| == k && AllChar(r, '0') && AllDigits(r)
  {
    if k == 0 then "" else "0" + Zeros(k - 1)
  }

  /** The decimal digits of `n`, left-padded with zeros to at least `width` characters. */
  function ZeroPad(n: nat, width: nat): (r: GoString)
    ensures AllDigits(r)
    ensures |r| == if |NatDigits(n)| < width then width else |NatDigits(n)|
  {
    var d := NatDigits(n);
    if |d| < width then
      var z := Zeros(width - |d|);
      assert |z + d| == width;
      z + d
    else d
  }

  lemma {:induction false} ParseNatZeros(k: nat, s: string)
    requires AllDigits(s)
    ensures ParseNat(Zeros(k) + s) == ParseNat(s)
    decreases k
  {
    if k > 0 {
      assert Zeros(k) + s == "0" + (Zeros(k - 1) + s);
      ParseNatZeros(k - 1, s);
      ParseNatLeadingZero(Zeros(k - 1) + s);
    } else {
      assert Zeros(k) + s == s;
    }
  }

  /** Zero padding does not change the value read back. */
  lemma ParseNatZeroPad(n: nat, width: nat)
    ensures ParseNat(ZeroPad(n, width)) == n
  {
    var d := NatDigits(n);
    ParseNatDigits(n);
    if |d| < width {
      ParseNatZeros(width - |d|, d);
    }
  }

  // ---------------------------------------------------------------------------
  // Byte-wise ordering (Go's `<` on strings, used by slices.Sort)
  // ---------------------------------------------------------------------------

  /** `a` sorts at or before `b`: lexicographic order on bytes, a prefix first. */
  predicate Below(a: string, b: string) {
    |a| == 0 || (|b| > 0 && (a[0] < b[0] || (a[0] == b[0] && Below(a[1..], b[1..]))))
  }

  lemma BelowReflexive(a: string)
    ensures Below(a, a)
  {
  }

  lemma BelowAntisymmetric(a: string, b: string)
    requires Below(a, b) && Below(b, a)
    ensures a == b
  {
    if |a| > 0 {
      BelowAntisymmetric(a[1..], b[1..]);
      assert a == [a[0]] + a[1..] && b == [b[0]] + b[1..];
    }
  }

  lemma BelowAntisymmetricAll()
    ensures forall a: string, b: string :: Below(a, b) && Below(b, a) ==> a == b
  {
    forall a: string, b: string | Below(a, b) && Below(b, a)
      ensures a == b
    {
      BelowAntisymmetric(a, b);
    }
  }

  lemma BelowTransitive(a: string, b: string, c: string)
    requires Below(a, b) && Below(b, c)
    ensures Below(a, c)
  {
    if |a| > 0 && a[0] == b[0] && b[0] == c[0] {
      BelowTransitive(a[1..], b[1..], c[1..]);
    }
  }

  lemma BelowTotal(a: string, b: string)
    ensures Below(a, b) || Below(b, a)
  {
    if |a| > 0 && |b| > 0 && a[0] == b[0] {
      BelowTotal(a[1..], b[1..]);
    }
  }

  // ---------------------------------------------------------------------------
  // Joining and cutting at a one-byte separator (strings.Builder loop, strings.Cut)
  // ---------------------------------------------------------------------------

  /** The parts in order with one `sep` between neighbours. */
  function Join(parts: seq<GoString>, sep: char): (r: GoString)
  {
    if |parts| == 0 then ""
    else if |parts| == 1 then parts[0]
    else parts[0] + [sep] + Join(parts[1..], sep)
  }

  /**
   `strings.Cut(s, sep)`: the text before the first `sep`, the text after it, and whether
   it was found; when it is not found, everything is "before".
   */
  function Cut(s: GoString, sep: char): (r: (GoString, GoString, bool))
    ensures r.2 ==> s == r.0 + [sep] + r.1 && sep !in r.0
    ensures !r.2 ==> r.0 == s && r.1 == "" && sep !in s
  {
    if |s| == 0 then ("", "", false)
    else if s[0] == sep then ("", s[1..], true)
    else
      var rest := Cut(s[1..], sep);
      assert s == [s[0]] + s[1..];
      ([s[0]] + rest.0, rest.1, rest.2)
  }

  /** A cut is determined by where the first separator is. */
  lemma {:induction false} CutAt(a: GoString, sep: char, b: GoString)
    requires sep !in a
    ensures Cut(a + [sep] + b, sep) == (a, b, true)
    decreases |a|
  {
    var s := a + [sep] + b;
    if |a| == 0 {
      assert s[1..] == b;
    } else {
      assert s[0] == a[0] != sep;
      assert s[1..] == a[1..] + [sep] + b;
      CutAt(a[1..], sep, b);
      assert a == [a[0]] + a[1..];
    }
  }

  lemma CutAbsent(a: GoString, sep: char)
    requires sep !in a
    ensures Cut(a, sep) == (a, "", false)
  {
  }
}
