/**
 The text forms of column values: how a builder reads a CSV field (FromString and Parse of src/column and src/types) and
 how a value is printed (src/execution/ExecutionHelper.h, FormatValue).
 */
module FieldTexts {
  import opened Values
  import opened Wrappers
  import opened StringTables
  import opened CsvRows
  import opened CsvRoundTrip
  import Dates
  import I = Int128Text
  import Timestamps

  // ----- bytes and characters -----

  function AsString(t: Text): (s: string)
    ensures |s| == |t| && forall i :: 0 <= i < |s| ==> s[i] == t[i] as char
  {
    seq(|t|, i requires 0 <= i < |t| => t[i] as char)
  }

  predicate Ascii(s: string) {
    forall i :: 0 <= i < |s| ==> s[i] as int < 128
  }

  function AsText(s: string): (t: Text)
    requires Ascii(s)
    ensures |t| == |s| && forall i :: 0 <= i < |t| ==> t[i] == s[i] as int
  {
    seq(|s|, i requires 0 <= i < |s| => s[i] as int)
  }

  lemma TextIsString(s: string)
    requires Ascii(s)
    ensures AsString(AsText(s)) == s
  {
  }

  /** A text without control characters that ends in a digit. */
  predicate EndsInDigit(s: string) {
    s != [] && '0' <= s[|s| - 1] <= '9' && forall i :: 0 <= i < |s| ==> 32 <= s[i] as int < 128
  }

  lemma DigitEndSurvives(s: string)
    requires EndsInDigit(s)
    ensures Ascii(s) && Survives(AsText(s))
  {
  }

  lemma Followed(a: string, b: string)
    requires EndsInDigit(b) && forall i :: 0 <= i < |a| ==> 32 <= a[i] as int < 128
    ensures EndsInDigit(a + b)
  {
  }

  // ----- whole numbers of the machine's widths -----

  /** std::to_string. */
  function ToText(i: int): string {
    if i == 0 then "0" else if i > 0 then I.Decimal(i) else "-" + I.Decimal(-i)
  }

  /** std::from_chars over the whole field: an optional minus, at least one digit, and a value in range. */
  function FromChars(half: int, s: string): Option<int> {
    var negative := s != [] && s[0] == '-';
    var digits := if negative then s[1..] else s;
    if digits == [] || !I.AllDigits(digits) then None
    else
      var n := if negative then -I.Number(digits) else I.Number(digits);
      if -half <= n < half then Some(n) else None
  }

  lemma DigitsEnd(n: nat)
    requires n > 0
    ensures EndsInDigit(I.Decimal(n))
  {
    var s := I.Decimal(n);
    forall i | 0 <= i < |s| ensures 32 <= s[i] as int < 128 {
      assert I.IsDigit(s[i]);
    }
    assert I.IsDigit(s[|s| - 1]);
  }

  lemma ToTextEnds(i: int)
    ensures EndsInDigit(ToText(i))
  {
    if i > 0 {
      DigitsEnd(i);
    } else if i < 0 {
      DigitsEnd(-i);
      Followed("-", I.Decimal(-i));
    }
  }

  lemma FromToText(half: int, i: int)
    requires -half <= i < half
    ensures FromChars(half, ToText(i)) == Some(i)
  {
    if i == 0 {
      assert "0"[..0] == [] && I.Number("0") == 0;
    } else if i > 0 {
      I.NumberOfDecimal(i);
      I.DecimalStart(i);
    } else {
      I.NumberOfDecimal(-i);
      I.DecimalStart(-i);
      assert ToText(i)[1..] == I.Decimal(-i);
    }
  }

  // ----- dates and timestamps -----

  lemma DateEnds(days: int)
    requires -719528 <= days <= 2932896
    ensures EndsInDigit(Dates.FormatSpec(days))
  {
    var c := Dates.CivilOf(days);
    Dates.DaysOfCivilOf(days);
    Dates.FourDigitYearRange(days);
    assert Dates.PowerOfTen(2) == 100 && Dates.PowerOfTen(4) == 10000;
    Dates.NumberOfDigits(c.year, 4);
    Dates.NumberOfDigits(c.month, 2);
    Dates.NumberOfDigits(c.day, 2);
    var y, m, d := Dates.Digits(c.year, 4), Dates.Digits(c.month, 2), Dates.Digits(c.day, 2);
    assert EndsInDigit(d) by { assert '0' <= d[1] <= '9'; }
    assert forall i :: 0 <= i < |y + "-" + m + "-"| ==> 32 <= (y + "-" + m + "-")[i] as int < 128;
    Followed(y + "-" + m + "-", d);
  }

  lemma TimestampEnds(total: int)
    requires -719528 * 86400 <= total < 2932897 * 86400
    ensures EndsInDigit(Timestamps.FormatSpec(total))
  {
    var day, sec := total / 86400, total % 86400;
    DateEnds(day);
    TimeEnds(sec);
    Followed(Dates.FormatSpec(day), Timestamps.TimeText(sec));
  }

  lemma TimeEnds(sec: int)
    requires 0 <= sec < 86400
    ensures EndsInDigit(Timestamps.TimeText(sec))
  {
    var h, m, s := Timestamps.Pair(sec / 3600), Timestamps.Pair(sec % 3600 / 60), Timestamps.Pair(sec % 60);
    var front := " " + h + ":" + m + ":";
    assert EndsInDigit(s) && forall i :: 0 <= i < |front| ==> 32 <= front[i] as int < 128;
    Followed(front, s);
    assert Timestamps.TimeText(sec) == front + s;
  }

  lemma Int128Ends(v: int)
    requires I.IsInt128(v) && v != -TWO_127
    ensures I.Text(v) == ToText(v)
  {
  }

  // ----- fields -----

  /** What the builder of a column of this type makes of a field; `None` where it throws or asserts. */
  function ParseField(ty: ColumnType, field: Text): Option<Value> {
    match ty
    case STRING => Some(Str(field))
    case CHAR =>
      if |field| != 1 then None
      else
        var c: int := field[0];
        Some(Int(if c < 128 then c else c - 256))
    case DATE => (match Dates.Parse(AsString(field)) case Ok(i) => Some(Int(i)) case Err(_) => None)
    case TIMESTAMP => (match Timestamps.Parse(AsString(field)) case Ok(i) => Some(Int(i)) case Err(_) => None)
    case INT128 =>
      if field == [] then None else (match I.Parsed(AsString(field)) case Ok(i) => Some(Int(i)) case Err(_) => None)
    case INT16 => (match FromChars(TWO_15, AsString(field)) case Some(i) => Some(Int(i)) case None => None)
    case INT32 => (match FromChars(TWO_31, AsString(field)) case Some(i) => Some(Int(i)) case None => None)
    case INT64 => (match FromChars(TWO_63, AsString(field)) case Some(i) => Some(Int(i)) case None => None)
    case FLOAT | DOUBLE | LONGDOUBLE => None
  }

  /** A field that parses gives a value that its column can hold. */
  lemma ParsedFits(ty: ColumnType, field: Text)
    requires ty.INT16? || ty.INT32? || ty.INT64? || ty.CHAR? || (ty.STRING? && |field| < TWO_64)
    ensures ParseField(ty, field).Some? ==> HasType(ParseField(ty, field).value, ty)
  {
  }

  lemma BehindMinus(digits: string)
    ensures ("-" + digits)[0] == '-' && ("-" + digits)[1..] == digits
  {
  }

  lemma FromCharsReads(half: int, digits: string, negative: bool)
    requires digits != [] && I.AllDigits(digits)
    ensures var s, n := if negative then "-" + digits else digits, if negative then -I.Number(digits) else I.Number(digits);
            FromChars(half, s) == if -half <= n < half then Some(n) else None
  {
    BehindMinus(digits);
    assert I.IsDigit(digits[0]);
  }

  lemma SignedAscii(digits: string, negative: bool)
    requires I.AllDigits(digits)
    ensures Ascii(if negative then "-" + digits else digits)
  {
    forall i | 0 <= i < |digits| ensures digits[i] as int < 128 {
      assert I.IsDigit(digits[i]);
    }
  }

  /** A whole number of digits, with or without a minus, is read as the number it denotes if the column can hold it, and refused if not. */
  lemma NumbersParse(ty: ColumnType, digits: string, negative: bool)
    requires ty.INT16? || ty.INT32? || ty.INT64?
    requires digits != [] && I.AllDigits(digits)
    ensures var s, n := if negative then "-" + digits else digits, if negative then -I.Number(digits) else I.Number(digits);
            Ascii(s) && ParseField(ty, AsText(s)) == if HasType(Int(n), ty) then Some(Int(n)) else None
  {
    var s := if negative then "-" + digits else digits;
    SignedAscii(digits, negative);
    TextIsString(s);
    FromCharsReads(HalfRange(ty), digits, negative);
  }

  /** std::to_string: a minus for a negative number, and digits that denote it. */
  lemma ToTextDenotes(i: int)
    ensures var s := ToText(i);
            && (i < 0 ==> s != [] && s[0] == '-' && I.AllDigits(s[1..]) && I.Number(s[1..]) == -i)
            && (i >= 0 ==> I.AllDigits(s) && I.Number(s) == i)
  {
    if i == 0 {
      assert "0"[..0] == [];
    } else if i > 0 {
      I.NumberOfDecimal(i);
    } else {
      I.NumberOfDecimal(-i);
      BehindMinus(I.Decimal(-i));
    }
  }

  /** A character column holds signed bytes; strings are taken as they are. */
  lemma CharsAndStrings(field: Text)
    ensures ParseField(CHAR, [65]) == Some(Int(65)) && ParseField(CHAR, [200]) == Some(Int(-56))
    ensures |field| != 1 ==> ParseField(CHAR, field) == None
    ensures ParseField(STRING, field) == Some(Str(field))
  {
  }

  /** The values whose text reads back: dates and times of years 0 to 9999, and every INT128 but the least. */
  predicate Printable(ty: ColumnType, v: Value) {
    && HasType(v, ty)
    && match ty
       case DATE => -719528 <= v.i <= 2932896
       case TIMESTAMP => -719528 * 86400 <= v.i < 2932897 * 86400
       case INT128 => v.i != -TWO_127
       case FLOAT | DOUBLE | LONGDOUBLE => false
       case STRING => v.Str?
       case _ => true
  }

  /** Printed digits as a field. */
  function NumberText(ty: ColumnType, i: int): (s: string)
    requires Printable(ty, Int(i)) && ty != STRING && ty != CHAR
    ensures EndsInDigit(s)
  {
    if ty == DATE then DateEnds(i); Dates.FormatSpec(i)
    else if ty == TIMESTAMP then TimestampEnds(i); Timestamps.FormatSpec(i)
    else if ty == INT128 then Int128Ends(i); ToTextEnds(i); I.Text(i)
    else ToTextEnds(i); ToText(i)
  }

  /** FormatValue. */
  function PrintValue(ty: ColumnType, v: Value): Text
    requires Printable(ty, v)
  {
    if ty == STRING then v.s
    else if ty == CHAR then [if v.i < 0 then v.i + 256 else v.i]
    else
      DigitEndSurvives(NumberText(ty, v.i));
      AsText(NumberText(ty, v.i))
  }

  lemma NumberReadsBack(ty: ColumnType, i: int)
    requires Printable(ty, Int(i)) && ty != STRING && ty != CHAR
    ensures Ascii(NumberText(ty, i)) && ParseField(ty, AsText(NumberText(ty, i))) == Some(Int(i))
  {
    DigitEndSurvives(NumberText(ty, i));
    TextIsString(NumberText(ty, i));
    match ty
    case DATE => Dates.ParseFormat(i);
    case TIMESTAMP => Timestamps.ParseFormat(i);
    case INT128 => I.ParseFormat(i);
    case INT16 => FromToText(TWO_15, i);
    case INT32 => FromToText(TWO_31, i);
    case INT64 => FromToText(TWO_63, i);
  }

  /** The builder of a column reads a printed value back, whatever the column's type. */
  lemma FieldReadsBack(ty: ColumnType, v: Value)
    requires Printable(ty, v)
    ensures ParseField(ty, PrintValue(ty, v)) == Some(v)
  {
    if ty != STRING && ty != CHAR {
      NumberReadsBack(ty, v.i);
    }
  }

  /** Printed numbers, dates and times always survive CSV; strings and characters if they have no CR and no blank end. */
  lemma PrintedSurvives(ty: ColumnType, v: Value)
    requires Printable(ty, v) && ty != STRING && ty != CHAR
    ensures Survives(PrintValue(ty, v))
  {
    DigitEndSurvives(NumberText(ty, v.i));
  }
}
