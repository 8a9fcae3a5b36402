/**
  Recognising and reading checkpoint file names.

  A checkpoint name is 68 characters long: a 4-digit objective score, '-', a 4-digit
  gradient score, "-RKTK-", the run identifier as 8, 4, 4, 4 and 12 hexadecimal digits
  separated by '-', another '-', a 12-digit iteration count and ".txt". This module
  holds the character classes, the range checks, the recogniser and the two readers of
  digit ranges, together with the zero-padded rendering the writer uses, so that the
  round trip between the two can be stated here.
*/
module FilenameHelpers {

  predicate IsDecDigit(c: char)
  {
    '0' <= c <= '9'
  }

  predicate IsHexDigit(c: char)
  {
    ('0' <= c <= '9') || ('a' <= c <= 'f') || ('A' <= c <= 'F')
  }

  /** The digits of a number written in `base`, which is 10 or 16. */
  predicate IsDigit(c: char, base: nat)
  {
    if base == 10 then IsDecDigit(c) else IsHexDigit(c)
  }

  predicate IsBase(base: nat)
  {
    base == 10 || base == 16
  }

  /** Every character of `str` in [begin, end) is a decimal digit; true on an empty range. */
  ghost predicate AllDec(str: string, begin: nat, end: nat)
    requires begin >= end || end <= |str|
  {
    forall i :: begin <= i < end ==> IsDecDigit(str[i])
  }

  /** Every character of `str` in [begin, end) is a hexadecimal digit; true on an empty range. */
  ghost predicate AllHex(str: string, begin: nat, end: nat)
    requires begin >= end || end <= |str|
  {
    forall i :: begin <= i < end ==> IsHexDigit(str[i])
  }

  ghost predicate AllDigits(s: string, base: nat)
  {
    forall i :: 0 <= i < |s| ==> IsDigit(s[i], base)
  }

  /** is_dec_substr: scans [begin, end) and stops at the first character that is not a digit. */
  method IsDecSubstr(str: string, begin: nat, end: nat) returns (b: bool)
    requires begin >= end || end <= |str|
    ensures b == AllDec(str, begin, end)
  {
    var i := begin;
    while i < end
      invariant begin <= i
      invariant i == begin || i <= end <= |str|
      invariant forall k :: begin <= k < i ==> IsDecDigit(str[k])
    {
      if !IsDecDigit(str[i]) {
        return false;
      }
      i := i + 1;
    }
    return true;
  }

  /** is_hex_substr: scans [begin, end) and stops at the first character that is not a hex digit. */
  method IsHexSubstr(str: string, begin: nat, end: nat) returns (b: bool)
    requires begin >= end || end <= |str|
    ensures b == AllHex(str, begin, end)
  {
    var i := begin;
    while i < end
      invariant begin <= i
      invariant i == begin || i <= end <= |str|
      invariant forall k :: begin <= k < i ==> IsHexDigit(str[k])
    {
      if !IsHexDigit(str[i]) {
        return false;
      }
      i := i + 1;
    }
    return true;
  }

  /**
    is_rktk_filename: the checks in the order the source makes them. The length test
    comes first, so every index read after it is in bounds (Dafny checks this).
  */
  ghost predicate IsRktkFilename(f: string)
  {
    |f| == 68
    && AllDec(f, 0, 4) && f[4] == '-'
    && AllDec(f, 5, 9) && f[9] == '-'
    && f[10] == 'R' && f[11] == 'K' && f[12] == 'T' && f[13] == 'K' && f[14] == '-'
    && AllHex(f, 15, 23) && f[23] == '-'
    && AllHex(f, 24, 28) && f[28] == '-'
    && AllHex(f, 29, 33) && f[33] == '-'
    && AllHex(f, 34, 38) && f[38] == '-'
    && AllHex(f, 39, 51) && f[51] == '-'
    && AllDec(f, 52, 64)
    && f[64] == '.' && f[65] == 't' && f[66] == 'x' && f[67] == 't'
  }

  /**
    is_rktk_filename as the source runs it: the length test, then each range check and
    each fixed character in turn, returning false at the first that fails.
  */
  method CheckRktkFilename(filename: string) returns (b: bool)
    ensures b <==> IsRktkFilename(filename)
  {
    if |filename| != 68 { return false; }
    b := IsDecSubstr(filename, 0, 4);
    if !b { return false; }
    if filename[4] != '-' { return false; }
    b := IsDecSubstr(filename, 5, 9);
    if !b { return false; }
    if filename[9] != '-' { return false; }
    if filename[10] != 'R' { return false; }
    if filename[11] != 'K' { return false; }
    if filename[12] != 'T' { return false; }
    if filename[13] != 'K' { return false; }
    if filename[14] != '-' { return false; }
    b := IsHexSubstr(filename, 15, 23);
    if !b { return false; }
    if filename[23] != '-' { return false; }
    b := IsHexSubstr(filename, 24, 28);
    if !b { return false; }
    if filename[28] != '-' { return false; }
    b := IsHexSubstr(filename, 29, 33);
    if !b { return false; }
    if filename[33] != '-' { return false; }
    b := IsHexSubstr(filename, 34, 38);
    if !b { return false; }
    if filename[38] != '-' { return false; }
    b := IsHexSubstr(filename, 39, 51);
    if !b { return false; }
    if filename[51] != '-' { return false; }
    b := IsDecSubstr(filename, 52, 64);
    if !b { return false; }
    if filename[64] != '.' { return false; }
    if filename[65] != 't' { return false; }
    if filename[66] != 'x' { return false; }
    return filename[67] == 't';
  }

  /** The value of one digit; letters count the same in either case. */
  function DigitValue(c: char): (d: nat)
    requires IsHexDigit(c)
    ensures d < 16
    ensures IsDecDigit(c) <==> d < 10
  {
    if '0' <= c <= '9' then c as int - '0' as int
    else if 'a' <= c <= 'f' then c as int - 'a' as int + 10
    else c as int - 'A' as int + 10
  }

  /** A letter digit has the same value in lower and upper case. */
  lemma CaseInsensitive(k: nat)
    requires k < 6
    ensures DigitValue(('a' as int + k) as char) == DigitValue(('A' as int + k) as char) == 10 + k
  {
  }

  function Pow(base: nat, e: nat): nat
  {
    if e == 0 then 1 else base * Pow(base, e - 1)
  }

  /** The positional value of a string of digits, most significant first. */
  function Value(s: string, base: nat): nat
    requires IsBase(base) && AllDigits(s, base)
  {
    if |s| == 0 then 0
    else Value(s[..|s| - 1], base) * base + DigitValue(s[|s| - 1])
  }

  /**
    dec_substr_to_int on a range of decimal digits: the base-10 value of the range,
    leading zeros allowed. An empty range gives 0, as a failed extraction does.
  */
  function DecSubstrToInt(str: string, begin: nat, end: nat): (r: nat)
    requires begin <= end <= |str| && AllDec(str, begin, end)
    ensures r < Pow(10, end - begin)
  {
    var s := str[begin..end];
    assert AllDigits(s, 10) by {
      forall i | 0 <= i < |s| ensures IsDigit(s[i], 10) {
        assert s[i] == str[begin + i];
      }
    }
    ValueBound(s, 10);
    Value(s, 10)
  }

  /** hex_substr_to_int on a range of hexadecimal digits: its base-16 value, either case. */
  function HexSubstrToInt(str: string, begin: nat, end: nat): (r: nat)
    requires begin <= end <= |str| && AllHex(str, begin, end)
    ensures r < Pow(16, end - begin)
  {
    var s := str[begin..end];
    assert AllDigits(s, 16) by {
      forall i | 0 <= i < |s| ensures IsDigit(s[i], 16) {
        assert s[i] == str[begin + i];
      }
    }
    ValueBound(s, 16);
    Value(s, 16)
  }

  /** A string of `|s|` digits in `base` is worth less than base^|s|. */
  lemma {:induction false} ValueBound(s: string, base: nat)
    requires IsBase(base) && AllDigits(s, base)
    ensures Value(s, base) < Pow(base, |s|)
  {
    if |s| > 0 {
      var p := s[..|s| - 1];
      assert AllDigits(p, base) by {
        forall i | 0 <= i < |p| ensures IsDigit(p[i], base) {
          assert p[i] == s[i];
        }
      }
      ValueBound(p, base);
      var d := DigitValue(s[|s| - 1]);
      assert d < base;
      calc {
        Value(s, base);
        Value(p, base) * base + d;
      <  { assert Value(p, base) + 1 <= Pow(base, |p|); }
        (Value(p, base) + 1) * base;
      <= { MulLeq(Value(p, base) + 1, Pow(base, |p|), base); }
        Pow(base, |p|) * base;
      }
    }
  }

  lemma MulLeq(a: nat, b: nat, c: nat)
    requires a <= b
    ensures a * c <= b * c
  {
  }

  // ---------------------------------------------------------------- rendering

  /** The digit character for `d`; letters are upper case (std::uppercase). */
  function DigitChar(d: nat): (c: char)
    requires d < 16
    ensures IsHexDigit(c) && DigitValue(c) == d
    ensures d < 10 ==> IsDecDigit(c)
  {
    if d < 10 then ('0' as int + d) as char else ('A' as int + d - 10) as char
  }

  /** The shortest rendering of `v` in `base`: "0" for zero, no leading zeros otherwise. */
  function Digits(v: nat, base: nat): string
    requires IsBase(base)
    decreases v
  {
    if v < base then [DigitChar(v)]
    else Digits(v / base, base) + [DigitChar(v % base)]
  }

  function Zeros(k: nat): (z: string)
    ensures |z| == k && forall i :: 0 <= i < k ==> z[i] == '0'
  {
    if k == 0 then [] else Zeros(k - 1) + ['0']
  }

  /**
    `v` printed with std::setw(width) and std::setfill('0'): zero-padded on the left to
    `width` characters, and never truncated when `v` needs more digits.
  */
  function Padded(v: nat, base: nat, width: nat): string
    requires IsBase(base)
  {
    var d := Digits(v, base);
    (if |d| < width then Zeros(width - |d|) else []) + d
  }

  lemma {:induction false} DigitsAreDigits(v: nat, base: nat)
    requires IsBase(base)
    ensures AllDigits(Digits(v, base), base)
    decreases v
  {
    if v >= base {
      DigitsAreDigits(v / base, base);
    }
  }

  lemma {:induction false} ValueOfDigits(v: nat, base: nat)
    requires IsBase(base)
    ensures AllDigits(Digits(v, base), base) && Value(Digits(v, base), base) == v
    decreases v
  {
    DigitsAreDigits(v, base);
    var s := Digits(v, base);
    if v >= base {
      ValueOfDigits(v / base, base);
      assert s[..|s| - 1] == Digits(v / base, base);
    }
  }

  /** Leading zeros do not change the value. */
  lemma {:induction false} ValueLeadingZeros(k: nat, s: string, base: nat)
    requires IsBase(base) && AllDigits(s, base)
    ensures AllDigits(Zeros(k) + s, base) && Value(Zeros(k) + s, base) == Value(s, base)
    decreases |s|
  {
    var z := Zeros(k) + s;
    assert AllDigits(z, base) by {
      forall i | 0 <= i < |z| ensures IsDigit(z[i], base) {
        if i < k { assert z[i] == '0'; } else { assert z[i] == s[i - k]; }
      }
    }
    if |s| == 0 {
      assert z == Zeros(k);
      ZerosValue(k, base);
    } else {
      var p := s[..|s| - 1];
      assert AllDigits(p, base) by {
        forall i | 0 <= i < |p| ensures IsDigit(p[i], base) {
          assert p[i] == s[i];
        }
      }
      ValueLeadingZeros(k, p, base);
      assert z[..|z| - 1] == Zeros(k) + p;
    }
  }

  lemma {:induction false} ZerosValue(k: nat, base: nat)
    requires IsBase(base)
    ensures AllDigits(Zeros(k), base) && Value(Zeros(k), base) == 0
  {
    if k > 0 {
      ZerosValue(k - 1, base);
      assert Zeros(k)[..k - 1] == Zeros(k - 1);
    }
  }

  /** The shortest rendering of `v` has at most `width` digits exactly when v < base^width. */
  lemma {:induction false} DigitsLength(v: nat, base: nat, width: nat)
    requires IsBase(base) && width >= 1
    ensures |Digits(v, base)| <= width <==> v < Pow(base, width)
    decreases v
  {
    if v >= base {
      if width == 1 {
        assert Pow(base, 1) == base;
      } else {
        DigitsLength(v / base, base, width - 1);
        DivBound(v, base, Pow(base, width - 1));
      }
    } else {
      PowAtLeastBase(base, width);
    }
  }

  lemma DivBound(v: nat, base: nat, p: nat)
    requires base > 0
    ensures v / base < p <==> v < p * base
  {
    var q, r := v / base, v % base;
    assert v == q * base + r && 0 <= r < base;
    if q < p {
      MulLeq(q + 1, p, base);
    } else {
      MulLeq(p, q, base);
    }
  }

  lemma {:induction false} PowAtLeastBase(base: nat, width: nat)
    requires IsBase(base) && width >= 1
    ensures Pow(base, width) >= base
  {
    if width > 1 {
      PowAtLeastBase(base, width - 1);
      MulLeq(1, Pow(base, width - 1), base);
    }
  }

  /**
    The writer's rendering is read back exactly: for v < base^width the padded text has
    exactly `width` digits of `base`, and its value is v.
  */
  lemma PaddedRoundTrip(v: nat, base: nat, width: nat)
    requires IsBase(base) && width >= 1 && v < Pow(base, width)
    ensures |Padded(v, base, width)| == width
    ensures AllDigits(Padded(v, base, width), base)
    ensures Value(Padded(v, base, width), base) == v
  {
    var d := Digits(v, base);
    DigitsLength(v, base, width);
    ValueOfDigits(v, base);
    ValueLeadingZeros(width - |d|, d, base);
    if |d| == width {
      assert Zeros(0) + d == d;
    }
  }

  /** A value too wide for the field is printed with more than `width` characters. */
  lemma PaddedOverflow(v: nat, base: nat, width: nat)
    requires IsBase(base) && width >= 1 && v >= Pow(base, width)
    ensures |Padded(v, base, width)| > width
  {
    DigitsLength(v, base, width);
  }

  /** Every decimal digit is a hexadecimal digit, and a character of a range that passed
      the decimal check passes the hexadecimal one. */
  lemma DecRangeIsHexRange(str: string, begin: nat, end: nat)
    requires begin >= end || end <= |str|
    requires AllDec(str, begin, end)
    ensures AllHex(str, begin, end)
  {
  }
}
