/**
 Decimal text of INT128 values: printing (src/execution/ExecutionHelper.h, FormatValue) and parsing
 (src/column/NumericColumn.h, ColumnTypeTraits<Int128>::FromString).  All arithmetic is in 128-bit two's complement.
 */
module Int128Text {
  import opened Arithmetic
  import opened Values
  import opened Wrappers

  predicate IsInt128(v: int) {
    -TWO_127 <= v < TWO_127
  }

  function DigitChar(d: int): char
    requires 0 <= d < 10
  {
    ('0' as int + d) as char
  }

  predicate IsDigit(c: char) { '0' <= c <= '9' }

  function DigitValue(c: char): int
    requires IsDigit(c)
  {
    c as int - '0' as int
  }

  predicate AllDigits(s: string) {
    forall i :: 0 <= i < |s| ==> IsDigit(s[i])
  }

  /** Decimal digits without leading zeros; none for zero. */
  function Decimal(n: nat): (s: string)
    ensures AllDigits(s)
  {
    if n == 0 then [] else Decimal(n / 10) + [DigitChar(n % 10)]
  }

  /** The number a digit string denotes. */
  function Number(s: string): (n: int)
    requires AllDigits(s)
    ensures n >= 0
  {
    if s == [] then 0 else 10 * Number(s[..|s| - 1]) + DigitValue(s[|s| - 1])
  }

  lemma {:induction false} NumberOfDecimal(n: nat)
    ensures Number(Decimal(n)) == n
  {
    if n > 0 {
      NumberOfDecimal(n / 10);
      var s := Decimal(n);
      assert s[..|s| - 1] == Decimal(n / 10) && s[|s| - 1] == DigitChar(n % 10);
    }
  }

  /** A prefix denotes no larger number: the parser's accumulator never passes its final value. */
  lemma {:induction false} PrefixNotLarger(s: string, i: nat)
    requires AllDigits(s) && i <= |s|
    ensures Number(s[..i]) <= Number(s)
    decreases |s|
  {
    if i < |s| {
      PrefixNotLarger(s[..|s| - 1], i);
      assert s[..|s| - 1][..i] == s[..i];
    } else {
      assert s[..i] == s;
    }
  }

  function Reversed(s: string): (r: string)
    ensures |r| == |s| && forall i :: 0 <= i < |r| ==> r[i] == s[|s| - 1 - i]
  {
    seq(|s|, i requires 0 <= i < |s| => s[|s| - 1 - i])
  }

  /** What is printed; for the least value the negation overflows back to it and no digit is written. */
  function Text(v: int): string
    requires IsInt128(v)
  {
    if v == 0 then "0"
    else if v > 0 then Decimal(v)
    else if v == -TWO_127 then "-"
    else "-" + Decimal(-v)
  }

  /** FormatValue for INT128: digits from the right, then the sign, then reversed. */
  method Format(v: int) returns (s: string)
    requires IsInt128(v)
    ensures s == Text(v)
  {
    if v == 0 {
      return "0";
    }
    var res: string := "";
    var neg := v < 0;
    var val := v;
    if neg {
      NegationWraps(v);
      val := Wrap(TWO_127, -val);
    }
    ghost var start := if val > 0 then val else 0;
    while val > 0
      invariant val <= start && (val < 0 ==> start == 0 && res == "")
      invariant val >= 0 ==> Decimal(start) == Decimal(val) + Reversed(res)
    {
      ghost var before := res;
      ghost var digits := Decimal(val);
      res := res + [DigitChar(val % 10)];
      assert Reversed(res) == [DigitChar(val % 10)] + Reversed(before);
      assert digits == Decimal(val / 10) + [DigitChar(val % 10)];
      val := val / 10;
    }
    assert Reversed(res) == Decimal(start);
    if neg {
      assert Reversed(res + "-") == "-" + Reversed(res);
      res := res + "-";
    }
    s := Reversed(res);
  }

  lemma NegationWraps(v: int)
    requires IsInt128(v) && v < 0
    ensures Wrap(TWO_127, -v)
         == if v == -TWO_127 then v else -v
  {
    var h := TWO_127;
    if v == -h {
      DivUnique(-v + h, 2 * h, 1, 0);
    } else {
      WrapRange(h, -v);
    }
  }

  function Body(s: string): string
    requires s != []
  {
    if s[0] == '-' then s[1..] else s
  }

  /** FromString on a non-empty text: the digits' number, wrapped to 128 bits, or an error at a non-digit. */
  function Parsed(s: string): Result<int>
    requires s != []
  {
    if !AllDigits(Body(s)) then Err("Invalid integer value")
    else
      var n := Wrap(TWO_127, Number(Body(s)));
      Ok(if s[0] == '-' then Wrap(TWO_127, -n) else n)
  }

  lemma WrapDigit(half: int, n: int, d: int)
    requires half > 0
    ensures Wrap(half, Wrap(half, n) * 10 + d) == Wrap(half, 10 * n + d)
  {
    var m := 2 * half;
    var q, w := (n + half) / m, Wrap(half, n);
    assert n + half == m * q + (n + half) % m;
    assert 10 * n + d + half == (w * 10 + d + half) + m * (10 * q);
    var x := w * 10 + d + half;
    assert x == m * (x / m) + x % m;
    assert x + m * (10 * q) == m * (x / m + 10 * q) + x % m;
    DivUnique(x + m * (10 * q), m, x / m + 10 * q, x % m);
  }

  method Parse(s: string) returns (r: Result<int>)
    requires s != []
    ensures r == Parsed(s)
    ensures r.Ok? && Number(Body(s)) < TWO_127 ==>
              r.value == if s[0] == '-' then -Number(Body(s)) else Number(Body(s))
  {
    var view := Body(s);
    var result := 0;
    WrapRange(TWO_127, 0);
    for i := 0 to |view|
      invariant AllDigits(view[..i])
      invariant result == Wrap(TWO_127, Number(view[..i]))
    {
      if !IsDigit(view[i]) {
        assert !AllDigits(view);
        return Err("Invalid integer value");
      }
      assert view[..i + 1][..i] == view[..i];
      WrapDigit(TWO_127, Number(view[..i]), DigitValue(view[i]));
      result := Wrap(TWO_127, result * 10 + DigitValue(view[i]));
    }
    assert view[..|view|] == view;
    if Number(view) < TWO_127 {
      WrapRange(TWO_127, Number(view));
      WrapRange(TWO_127, -Number(view));
    }
    if s[0] == '-' {
      result := Wrap(TWO_127, -result);
    }
    r := Ok(result);
  }

  /** On a text whose number fits, no step of the digit loop wraps: each accumulated value is exact. */
  lemma NoStepOverflows(s: string, i: nat)
    requires AllDigits(s) && i <= |s| && Number(s) < TWO_127
    ensures Wrap(TWO_127, Number(s[..i])) == Number(s[..i])
  {
    PrefixNotLarger(s, i);
    WrapRange(TWO_127, Number(s[..i]));
  }

  /** Parsing the printed form gives the value back exactly when it is not the least one. */
  lemma ParseFormat(v: int)
    requires IsInt128(v)
    ensures Text(v) != [] && Parsed(Text(v)) == Ok(v) <==> v != -TWO_127
  {
    var h := TWO_127;
    if v == 0 {
      assert "0"[..0] == [] && Number("0") == 0;
      WrapRange(h, 0);
    } else if v > 0 {
      NumberOfDecimal(v);
      WrapRange(h, v);
      DecimalStart(v);
    } else if v == -h {
      assert Body("-") == [];
      WrapRange(h, 0);
    } else {
      NumberOfDecimal(-v);
      assert Body(Text(v)) == Decimal(-v);
      WrapRange(h, -v);
      WrapRange(h, v);
    }
  }

  lemma DecimalStart(n: nat)
    requires n > 0
    ensures Decimal(n) != [] && IsDigit(Decimal(n)[0]) && Body(Decimal(n)) == Decimal(n)
  {
  }

  // ----- digits, one by one -----

  /** One more digit: ten times the number before it, and the digit's distance from '0' (48). */
  lemma NumberBuilds(s: string, c: char)
    requires AllDigits(s) && IsDigit(c)
    ensures Number([]) == 0 && AllDigits(s + [c]) && Number(s + [c]) == 10 * Number(s) + (c as int - 48)
  {
    assert (s + [c])[..|s|] == s;
  }

  /** What is printed denotes the value: a minus for a negative one, and digits without a leading zero. */
  lemma TextDenotes(v: int)
    requires IsInt128(v) && v != -TWO_127
    ensures var digits := if v < 0 then Text(v)[1..] else Text(v);
            && (v < 0 ==> Text(v)[0] == '-') && AllDigits(digits) && Number(digits) == (if v < 0 then -v else v)
            && digits != [] && (v != 0 ==> digits[0] != '0')
  {
    if v == 0 {
      assert "0"[..0] == [];
    } else if v > 0 {
      NumberOfDecimal(v);
      DecimalLeads(v);
    } else {
      NumberOfDecimal(-v);
      DecimalLeads(-v);
      assert Text(v)[1..] == Decimal(-v);
    }
  }

  lemma {:induction false} DecimalLeads(n: nat)
    requires n > 0
    ensures Decimal(n) != [] && Decimal(n)[0] != '0'
    decreases n
  {
    if n >= 10 {
      DecimalLeads(n / 10);
    } else {
      assert n / 10 == 0 && Decimal(0) == [];
    }
  }
}
