/**
 * Python's integer formatting `"%0<w>d" % n` and the reading of such text back
 * into a number. The sharder builds every numeric path component with it.
 */
module Decimal {

  /** The character of one decimal digit. */
  function DigitChar(d: nat): (c: char)
    requires d < 10
    ensures '0' <= c <= '9' && (c as int) - ('0' as int) == d
  {
    (('0' as int) + d) as char
  }

  predicate IsDigits(s: string) {
    forall i :: 0 <= i < |s| ==> '0' <= s[i] <= '9'
  }

  /** `"%d" % n` for n >= 0: the decimal digits of n, most significant first, without leading zeros. */
  function Digits(n: nat): (s: string)
    ensures 1 <= |s| && IsDigits(s)
    ensures n < 10 <==> |s| == 1
  {
    if n < 10 then [DigitChar(n)] else Digits(n / 10) + [DigitChar(n % 10)]
  }

  /** Left-pads s with '0' up to `width` characters; longer text is left alone. */
  function ZeroPad(s: string, width: nat): string {
    if |s| < width then seq(width - |s|, _ => '0') + s else s
  }

  /**
   * `"%0<width>d" % n`: zero-padded to `width`, a minus sign counted in the width
   * and placed before the padding ("%03d" % -5 is "-05").
   */
  function FormatInt(n: int, width: nat): string {
    if n >= 0 then ZeroPad(Digits(n), width)
    else "-" + ZeroPad(Digits(-n), if width > 0 then width - 1 else 0)
  }

  /** The value of a digit string read left to right; leading zeros add nothing. */
  function ValueOf(s: string): int {
    if s == [] then 0 else 10 * ValueOf(s[..|s| - 1]) + ((s[|s| - 1] as int) - ('0' as int))
  }

  /** Reads back what FormatInt writes: an optional minus sign, then digits. */
  function ParseInt(s: string): int {
    if |s| > 0 && s[0] == '-' then -ValueOf(s[1..]) else ValueOf(s)
  }

  lemma {:induction false} ValueOfDigits(n: nat)
    ensures ValueOf(Digits(n)) == n
  {
    if n >= 10 {
      var s := Digits(n / 10) + [DigitChar(n % 10)];
      assert s[..|s| - 1] == Digits(n / 10);
      ValueOfDigits(n / 10);
    }
  }

  lemma {:induction false} ValueOfZeros(k: nat)
    ensures ValueOf(seq(k, _ => '0')) == 0
  {
    if k > 0 {
      assert seq(k, _ => '0')[..k - 1] == seq(k - 1, _ => '0');
      ValueOfZeros(k - 1);
    }
  }

  /** Leading zeros do not change the value of a digit string. */
  lemma {:induction false} ValueOfLeadingZeros(k: nat, s: string)
    ensures ValueOf(seq(k, _ => '0') + s) == ValueOf(s)
    decreases |s|
  {
    var z := seq(k, _ => '0');
    if s == [] {
      assert z + s == z;
      ValueOfZeros(k);
    } else {
      assert (z + s)[..|z + s| - 1] == z + s[..|s| - 1];
      ValueOfLeadingZeros(k, s[..|s| - 1]);
    }
  }

  lemma ValueOfZeroPad(s: string, width: nat)
    ensures ValueOf(ZeroPad(s, width)) == ValueOf(s)
  {
    if |s| < width {
      ValueOfLeadingZeros(width - |s|, s);
    }
  }

  /** Reading a formatted integer gives the integer back, whatever the width. */
  lemma FormatIntRoundTrip(n: int, width: nat)
    ensures ParseInt(FormatInt(n, width)) == n
  {
    if n >= 0 {
      var s := ZeroPad(Digits(n), width);
      ValueOfZeroPad(Digits(n), width);
      ValueOfDigits(n);
      assert |s| > 0 && '0' <= s[0] <= '9' by {
        if |Digits(n)| < width {
          assert s[0] == '0';
        } else {
          assert s == Digits(n);
        }
      }
    } else {
      var w := if width > 0 then width - 1 else 0;
      var s := "-" + ZeroPad(Digits(-n), w);
      assert s[1..] == ZeroPad(Digits(-n), w);
      ValueOfZeroPad(Digits(-n), w);
      ValueOfDigits(-n);
    }
  }

  /** Distinct integers are formatted as distinct strings at any one width. */
  lemma FormatIntInjective(a: int, b: int, width: nat)
    ensures FormatInt(a, width) == FormatInt(b, width) ==> a == b
  {
    FormatIntRoundTrip(a, width);
    FormatIntRoundTrip(b, width);
  }

  /** A value in [0, 1000) is formatted by "%03d" as exactly three digits. */
  lemma ThreeDigits(n: int)
    requires 0 <= n < 1000
    ensures |FormatInt(n, 3)| == 3 && IsDigits(FormatInt(n, 3))
  {
    assert |Digits(n)| <= 3 by {
      if n >= 10 {
        assert n / 10 < 100;
        if n / 10 >= 10 {
          assert |Digits(n / 10)| == |Digits(n / 100)| + 1;
          assert n / 100 < 10;
        }
      }
    }
  }
}
