/**
 * ASCII decimal digit strings: the value of a digit string, the canonical
 * rendering of a natural number, and Python's `{n:02d}` zero padding.
 */
module Decimal {

  predicate IsDigit(c: char) {
    '0' <= c <= '9'
  }

  predicate IsDigits(s: string) {
    forall i :: 0 <= i < |s| ==> IsDigit(s[i])
  }

  predicate AllZeros(s: string) {
    forall i :: 0 <= i < |s| ==> s[i] == '0'
  }

  function DigitValue(c: char): (d: nat)
    requires IsDigit(c)
    ensures d < 10
  {
    c as int - '0' as int
  }

  function DigitChar(d: nat): (c: char)
    requires d < 10
    ensures IsDigit(c) && DigitValue(c) == d
  {
    ('0' as int + d) as char
  }

  /** The number a digit string denotes, most significant digit first; "" denotes 0. */
  function FromDigits(s: string): nat
    requires IsDigits(s)
    decreases |s|
  {
    if |s| == 0 then 0
    else 10 * FromDigits(s[..|s| - 1]) + DigitValue(s[|s| - 1])
  }

  /** The string of `n` zeros. */
  function Zeros(n: nat): (s: string)
    ensures |s| == n && AllZeros(s)
  {
    seq(n, _ => '0')
  }

  /** The canonical decimal rendering of `n` (Python's `str(n)` for n >= 0). */
  function ToDecimal(n: nat): (s: string)
    ensures |s| >= 1 && IsDigits(s)
    ensures s[0] == '0' <==> n == 0
    ensures |s| == 1 <==> n < 10
    ensures n < 100 ==> |s| <= 2
    decreases n
  {
    if n < 10 then [DigitChar(n)]
    else
      ToDecimal(n / 10) + [DigitChar(n % 10)]
  }

  /** Evaluating the rendering of `n` gives back `n`. */
  lemma {:induction false} DecimalValue(n: nat)
    ensures FromDigits(ToDecimal(n)) == n
    decreases n
  {
    if n >= 10 {
      var t := ToDecimal(n / 10);
      var s := ToDecimal(n);
      assert s[..|s| - 1] == t;
      DecimalValue(n / 10);
    }
  }

  /** Python's `f"{n:02d}"` for n >= 0: the decimal rendering, left-padded with '0' to width 2. */
  function Pad2(n: nat): (s: string)
    ensures |s| >= 2 && IsDigits(s)
    ensures n < 100 ==> |s| == 2
    ensures |s| == if n < 10 then 2 else |ToDecimal(n)|
    ensures s == Zeros(|s| - |ToDecimal(n)|) + ToDecimal(n)
  {
    if n < 10 then "0" + ToDecimal(n) else ToDecimal(n)
  }

  /** Evaluating the padded rendering of `n` gives back `n`: padding zeros carry no value. */
  lemma Pad2Value(n: nat)
    ensures FromDigits(Pad2(n)) == n
  {
    DecimalValue(n);
    if n < 10 {
      LeadingZero(ToDecimal(n));
    }
  }

  /** A leading '0' does not change the value of a digit string. */
  lemma {:induction false} LeadingZero(s: string)
    requires IsDigits(s)
    ensures IsDigits("0" + s) && FromDigits("0" + s) == FromDigits(s)
  {
    var z := "0" + s;
    if |s| > 0 {
      var p := s[..|s| - 1];
      assert z[..|z| - 1] == "0" + p;
      LeadingZero(p);
    } else {
      assert z[..|z| - 1] == "";
    }
  }

  /** A digit string denotes 0 exactly when every digit is '0'. */
  lemma {:induction false} ZeroValue(s: string)
    requires IsDigits(s)
    ensures FromDigits(s) == 0 <==> AllZeros(s)
  {
    if |s| > 0 {
      var p := s[..|s| - 1];
      ZeroValue(p);
      if AllZeros(s) {
        assert AllZeros(p);
      }
      if FromDigits(s) == 0 {
        assert forall i :: 0 <= i < |s| ==> s[i] == '0' by {
          forall i | 0 <= i < |s|
            ensures s[i] == '0'
          {
            if i < |s| - 1 {
              assert p[i] == s[i];
            }
          }
        }
      }
    }
  }

  /** Rendering is the inverse of evaluation on canonical digit strings (no leading zero). */
  lemma {:induction false} RenderValue(s: string)
    requires |s| >= 1 && IsDigits(s)
    requires s[0] == '0' ==> |s| == 1
    ensures ToDecimal(FromDigits(s)) == s
  {
    var p := s[..|s| - 1];
    var c := s[|s| - 1];
    if |p| == 0 {
      assert s == [c];
      assert DigitChar(DigitValue(c)) == c;
    } else {
      assert p[0] == s[0];
      assert !AllZeros(p);
      ZeroValue(p);
      RenderValue(p);
      DecimalValue(FromDigits(p));
      var n := FromDigits(s);
      assert n == 10 * FromDigits(p) + DigitValue(c);
      assert n / 10 == FromDigits(p) && n % 10 == DigitValue(c);
      assert DigitChar(DigitValue(c)) == c;
      assert s == p + [c];
    }
  }

  /** Distinct numbers have distinct padded renderings. */
  lemma Pad2Injective(a: nat, b: nat)
    ensures Pad2(a) == Pad2(b) <==> a == b
  {
    Pad2Value(a);
    Pad2Value(b);
  }
}
