// Decimal text as Python's int(), float(), str() and '{:.Nf}'.format read and
// write it, restricted to the plain forms the modelled code produces: an
// optional sign, ASCII digits and at most one decimal point.

module Decimal {
  import opened Wrappers

  predicate IsDigit(c: char)
  {
    '0' <= c <= '9'
  }

  predicate AllDigits(s: string)
  {
    forall i :: 0 <= i < |s| ==> IsDigit(s[i])
  }

  function DigitChar(d: nat): (c: char)
    requires d < 10
    ensures IsDigit(c) && c as int - '0' as int == d
  {
    ('0' as int + d) as char
  }

  function Pow10(k: nat): (r: nat)
    ensures r >= 1
  {
    if k == 0 then 1 else 10 * Pow10(k - 1)
  }

  /** The number a digit string spells; the empty string spells 0. */
  function Value(s: string): nat
    requires AllDigits(s)
  {
    if s == [] then 0 else 10 * Value(s[..|s| - 1]) + (s[|s| - 1] as int - '0' as int)
  }

  /** str(n) for a natural number: no leading zeros, "0" for zero. */
  function Show(n: nat): (s: string)
    ensures |s| >= 1 && AllDigits(s)
  {
    if n < 10 then [DigitChar(n)] else Show(n / 10) + [DigitChar(n % 10)]
  }

  /** The d digits of k with leading zeros, the fraction part of a fixed-point
      format. */
  function Pad(k: nat, d: nat): (s: string)
    ensures |s| == d && AllDigits(s)
  {
    if d == 0 then [] else Pad(k / 10, d - 1) + [DigitChar(k % 10)]
  }

  lemma {:induction false} ValueShow(n: nat)
    ensures Value(Show(n)) == n
  {
    if n >= 10 {
      ValueShow(n / 10);
      var s := Show(n);
      assert s[..|s| - 1] == Show(n / 10);
    }
  }

  lemma {:induction false} ValuePad(k: nat, d: nat)
    requires k < Pow10(d)
    ensures Value(Pad(k, d)) == k
  {
    if d > 0 {
      ValuePad(k / 10, d - 1);
      var s := Pad(k, d);
      assert s[..|s| - 1] == Pad(k / 10, d - 1);
    }
  }

  // ----- integers -----

  /** int(s) for the plain forms: an optional sign and at least one digit.
      Anything else is a ValueError. */
  function ParseInt(s: string): (r: Result<int>)
  {
    var (neg, body) := SplitSign(s);
    if body == [] || !AllDigits(body) then Err(ValueError)
    else
      var v: int := Value(body);
      Ok(if neg then -v else v)
  }

  /** str(i) for any integer. */
  function ShowInt(i: int): (s: string)
  {
    if i < 0 then "-" + Show(-i) else Show(i)
  }

  lemma ParseShowInt(i: int)
    ensures ParseInt(ShowInt(i)) == Ok(i)
  {
    var s := ShowInt(i);
    if i < 0 {
      ValueShow(-i);
      assert s[0] == '-' && s[1..] == Show(-i);
      assert SplitSign(s) == (true, Show(-i));
    } else {
      ValueShow(i);
      assert IsDigit(s[0]);
      assert SplitSign(s) == (false, s);
    }
  }

  // ----- reals -----

  function Abs(x: real): real
  {
    if x < 0.0 then -x else x
  }

  /** Round half to even, the rule of Python's round() and of its
      fixed-point formatting. */
  function RoundHalfEven(x: real): (n: int)
    ensures Abs(n as real - x) <= 0.5
    ensures x >= 0.0 ==> n >= 0
  {
    var f := x.Floor;
    var frac := x - f as real;
    if frac < 0.5 then f
    else if frac > 0.5 then f + 1
    else if f % 2 == 0 then f
    else f + 1
  }

  /** Rounding a whole number gives that number. */
  lemma RoundWhole(k: int)
    ensures RoundHalfEven(k as real) == k
  {
    var n := RoundHalfEven(k as real);
    assert -1 < n - k < 1;
  }

  /** x with the decimal point moved k places to the right. */
  function Shift(x: real, k: nat): (r: real)
    ensures x >= 0.0 ==> r >= 0.0
    decreases k
  {
    if k == 0 then x else Shift(x, k - 1) * 10.0
  }

  /** x with the decimal point moved k places to the left. */
  function Unshift(x: real, k: nat): real
    decreases k
  {
    if k == 0 then x else Unshift(x, k - 1) / 10.0
  }

  /** Moving the point k places to the right multiplies by 10^k. */
  lemma {:induction false} ShiftProduct(x: real, k: nat)
    ensures Shift(x, k) == x * Pow10(k) as real
  {
    if k > 0 {
      ShiftProduct(x, k - 1);
      assert Pow10(k) as real == 10.0 * Pow10(k - 1) as real;
    }
  }

  /** Moving the point k places to the left divides by 10^k. */
  lemma {:induction false} UnshiftQuotient(x: real, k: nat)
    ensures Unshift(x, k) * Pow10(k) as real == x
  {
    if k > 0 {
      UnshiftQuotient(x, k - 1);
      assert Pow10(k) as real == 10.0 * Pow10(k - 1) as real;
    }
  }

  lemma {:induction false} ShiftTenth(y: real, k: nat)
    ensures Shift(y / 10.0, k) == Shift(y, k) / 10.0
  {
    if k > 0 {
      ShiftTenth(y, k - 1);
    }
  }

  /** Moving the point back to the right undoes moving it to the left. */
  lemma {:induction false} ShiftUnshift(m: real, k: nat)
    ensures Shift(Unshift(m, k), k) == m
  {
    if k > 0 {
      ShiftTenth(Unshift(m, k - 1), k - 1);
      ShiftUnshift(m, k - 1);
    }
  }

  lemma {:induction false} ShiftSub(a: real, b: real, k: nat)
    ensures Shift(a - b, k) == Shift(a, k) - Shift(b, k)
  {
    if k > 0 {
      ShiftSub(a, b, k - 1);
    }
  }

  lemma {:induction false} ShiftAbs(y: real, k: nat)
    ensures Shift(Abs(y), k) == Abs(Shift(y, k))
  {
    if k > 0 {
      ShiftAbs(y, k - 1);
    }
  }

  lemma {:induction false} UnshiftAdd(a: real, b: real, k: nat)
    ensures Unshift(a + b, k) == Unshift(a, k) + Unshift(b, k)
  {
    if k > 0 {
      UnshiftAdd(a, b, k - 1);
    }
  }

  /** The magnitude '{:.{d}f}' writes, as an integer count of 10^-d. */
  function Scaled(x: real, d: nat): nat
  {
    RoundHalfEven(Shift(Abs(x), d))
  }

  /** '{:.{d}f}'.format(x) for d >= 1: a minus sign for a negative x (even when
      the rounded value is zero), the integer part, a point and exactly d
      fraction digits. */
  function FormatFixed(x: real, d: nat): (s: string)
    requires d >= 1
    ensures |s| >= d + 2
    ensures forall i :: 0 <= i < |s| ==> IsDigit(s[i]) || s[i] == '-' || s[i] == '.'
  {
    var m := Scaled(x, d);
    (if x < 0.0 then "-" else "") + Show(Whole(m, d)) + "." + Pad(m, d)
  }

  /** m with its last d decimal digits dropped, the integer part of m units
      of 10^-d; Pad(m, d) writes the digits dropped. */
  function Whole(m: nat, d: nat): nat
    decreases d
  {
    if d == 0 then m else Whole(m / 10, d - 1)
  }

  /** The integer part and the last d digits of m, read back, are m moved d
      places to the left. */
  lemma {:induction false} FixedDigits(m: nat, d: nat)
    ensures Unshift(m as real, d) == Whole(m, d) as real + Unshift(Value(Pad(m, d)) as real, d)
  {
    if d > 0 {
      var q := m / 10;
      var r := m % 10;
      var v := Value(Pad(q, d - 1));
      FixedDigits(q, d - 1);
      assert Value(Pad(m, d)) == 10 * v + r by {
        var s := Pad(m, d);
        assert s[..|s| - 1] == Pad(q, d - 1);
      }
      UnshiftFirst(m as real, d - 1);
      UnshiftFirst((10 * v + r) as real, d - 1);
      assert m as real / 10.0 == q as real + r as real / 10.0;
      assert (10 * v + r) as real / 10.0 == v as real + r as real / 10.0;
      UnshiftAdd(q as real, r as real / 10.0, d - 1);
      UnshiftAdd(v as real, r as real / 10.0, d - 1);
    }
  }

  /** Moving the point k + 1 places left is one place, then k more. */
  lemma {:induction false} UnshiftFirst(x: real, k: nat)
    ensures Unshift(x, k + 1) == Unshift(x / 10.0, k)
  {
    if k > 0 {
      UnshiftFirst(x, k - 1);
    }
  }

  /** The value the formatted text stands for. */
  function Rounded(x: real, d: nat): real
  {
    var v := Unshift(Scaled(x, d) as real, d);
    if x < 0.0 then -v else v
  }

  /** Rounding to d decimals moves a value by at most half a unit of the
      last place. */
  lemma RoundedClose(x: real, d: nat)
    ensures Shift(Abs(Rounded(x, d) - x), d) <= 0.5
  {
    var y := Abs(x);
    var m := Scaled(x, d) as real;
    var u := Unshift(m, d);
    assert Abs(Rounded(x, d) - x) == Abs(u - y);
    ShiftAbs(u - y, d);
    ShiftSub(u, y, d);
    ShiftUnshift(m, d);
  }

  /** A leading '-' or '+' taken off; true for '-'. */
  function SplitSign(s: string): (bool, string)
  {
    if |s| > 0 && (s[0] == '-' || s[0] == '+') then (s[0] == '-', s[1..]) else (false, s)
  }

  /** The text before and after the first '.', or all of it and "". */
  function SplitPoint(body: string): (string, string)
  {
    if body == [] then ([], [])
    else if body[0] == '.' then ([], body[1..])
    else
      var (a, b) := SplitPoint(body[1..]);
      ([body[0]] + a, b)
  }

  /** The text is split at its first point. */
  lemma {:induction false} SplitPointAt(ip: string, fp: string)
    requires '.' !in ip
    ensures SplitPoint(ip + "." + fp) == (ip, fp)
  {
    var body := ip + "." + fp;
    if ip != [] {
      assert body[0] == ip[0] && body[1..] == ip[1..] + "." + fp;
      SplitPointAt(ip[1..], fp);
      assert [ip[0]] + ip[1..] == ip;
    }
  }

  /** float(s) for the plain forms: an optional sign, digits, at most one
      point, at least one digit in all. Anything else is a ValueError. */
  function ParseFloat(s: string): (r: Result<real>)
  {
    var (neg, body) := SplitSign(s);
    var (ip, fp) := SplitPoint(body);
    if !AllDigits(ip) || !AllDigits(fp) || |ip| + |fp| == 0 then Err(ValueError)
    else Ok(PointValue(neg, ip, fp))
  }

  /** The number a signed integer part and fraction part stand for. */
  function PointValue(neg: bool, ip: string, fp: string): real
    requires AllDigits(ip) && AllDigits(fp)
  {
    var v := Value(ip) as real + Unshift(Value(fp) as real, |fp|);
    if neg then -v else v
  }

  /** A signed digit string with a point reads as its integer part plus its
      fraction. */
  lemma ParsePointed(neg: bool, ip: string, fp: string)
    requires |ip| >= 1 && AllDigits(ip) && AllDigits(fp)
    ensures ParseFloat((if neg then "-" else "") + (ip + "." + fp)) == Ok(PointValue(neg, ip, fp))
  {
    var body := ip + "." + fp;
    var s := (if neg then "-" else "") + body;
    assert SplitSign(s) == (neg, body) by {
      if neg {
        assert s[0] == '-' && s[1..] == body;
      } else {
        assert s == body && s[0] == ip[0] && IsDigit(ip[0]);
      }
    }
    assert SplitPoint(body) == (ip, fp) by {
      assert '.' !in ip by {
        assert forall k :: 0 <= k < |ip| ==> IsDigit(ip[k]);
      }
      SplitPointAt(ip, fp);
    }
  }

  /** float reads back what the fixed-point format writes: the value rounded
      to d decimals. */
  lemma ParseFormatFixed(x: real, d: nat)
    requires d >= 1
    ensures ParseFloat(FormatFixed(x, d)) == Ok(Rounded(x, d))
  {
    var m := Scaled(x, d);
    var ip := Show(Whole(m, d));
    var fp := Pad(m, d);
    assert FormatFixed(x, d) == (if x < 0.0 then "-" else "") + (ip + "." + fp);
    ParsePointed(x < 0.0, ip, fp);
    ValueShow(Whole(m, d));
    FixedDigits(m, d);
    var v := Unshift(m as real, d);
    assert PointValue(x < 0.0, ip, fp) == if x < 0.0 then -v else v;
    assert Rounded(x, d) == if x < 0.0 then -v else v;
    assert ParseFloat(FormatFixed(x, d)) == Ok(PointValue(x < 0.0, ip, fp));
  }
}
