/**
 Column types, the values a column holds, and their order.

 A value is an integer (INT16..INT128, CHAR as a signed byte, DATE, TIMESTAMP) or a byte string.
 FLOAT, DOUBLE and LONGDOUBLE keep their tags and widths but have no modelled values.
 */
module Values {
  import opened Arithmetic

  type Byte = b: int | 0 <= b < 256 witness 0

  datatype ColumnType = INT16 | INT32 | INT64 | INT128 | FLOAT | DOUBLE | LONGDOUBLE
                      | CHAR | STRING | DATE | TIMESTAMP

  datatype Value = Int(i: int) | Str(s: seq<Byte>)

  type Row = seq<Value>

  /** sizeof of the element type of a fixed-width column; STRING has none. */
  function Width(ty: ColumnType): nat {
    match ty
    case INT16 => 2
    case INT32 | FLOAT | DATE => 4
    case INT64 | DOUBLE | TIMESTAMP => 8
    case INT128 | LONGDOUBLE => 16
    case CHAR => 1
    case STRING => 0
  }

  const TWO_7: int := 0x80
  const TWO_15: int := 0x8000
  const TWO_31: int := 0x8000_0000
  const TWO_32: int := 0x1_0000_0000
  const TWO_63: int := 0x8000_0000_0000_0000
  const TWO_64: int := 0x1_0000_0000_0000_0000
  const TWO_127: int := 0x8000_0000_0000_0000_0000_0000_0000_0000

  /** Half the number of values of a signed integer type: it holds [-h, h). */
  function HalfRange(ty: ColumnType): int {
    match ty
    case INT16 => TWO_15
    case INT32 | DATE => TWO_31
    case INT64 | TIMESTAMP => TWO_63
    case INT128 => TWO_127
    case CHAR => TWO_7
    case FLOAT | DOUBLE | LONGDOUBLE | STRING => 0
  }

  /** The value fits its column's type; a string's length fits size_t. */
  predicate HasType(v: Value, ty: ColumnType) {
    match v
    case Int(i) => -HalfRange(ty) <= i < HalfRange(ty)
    case Str(s) => ty == STRING && |s| < TWO_64
  }

  /** The value-initialised element of a column, as in `vector<T>(n)`. */
  function DefaultValue(ty: ColumnType): Value {
    if ty == STRING then Str([]) else Int(0)
  }

  /** Two's complement wrap into [-half, half). */
  function Wrap(half: int, x: int): int
    requires half > 0
  {
    (x + half) % (2 * half) - half
  }

  lemma WrapRange(half: int, x: int)
    requires half > 0 && -half <= x < half
    ensures Wrap(half, x) == x
  {
    ModSmall(x + half, 2 * half);
  }

  /** The wrapped value is in range and differs from x by a multiple of the number of values. */
  lemma WrapCongruent(half: int, x: int)
    requires half > 0
    ensures -half <= Wrap(half, x) < half && (Wrap(half, x) - x) % (2 * half) == 0
  {
    var m, y := 2 * half, x + half;
    assert y == m * (y / m) + y % m;
    DivUnique(Wrap(half, x) - x, m, -(y / m), 0);
  }

  /** Which values a column of each type can hold. */
  lemma TypeRanges(v: Value, ty: ColumnType)
    ensures HasType(v, ty) <==>
            match ty
            case INT16 => v.Int? && -0x8000 <= v.i < 0x8000
            case INT32 | DATE => v.Int? && -0x8000_0000 <= v.i < 0x8000_0000
            case INT64 | TIMESTAMP => v.Int? && -0x8000_0000_0000_0000 <= v.i < 0x8000_0000_0000_0000
            case INT128 =>
              v.Int? && -0x8000_0000_0000_0000_0000_0000_0000_0000 <= v.i < 0x8000_0000_0000_0000_0000_0000_0000_0000
            case CHAR => v.Int? && -128 <= v.i < 128
            case STRING => v.Str? && |v.s| < 0x1_0000_0000_0000_0000
            case FLOAT | DOUBLE | LONGDOUBLE => false
  {
  }

  /** Adding onto a wrapped sum is adding onto the sum. */
  lemma WrapAdd(half: int, x: int, y: int)
    requires half > 0
    ensures Wrap(half, Wrap(half, x) + y) == Wrap(half, x + y)
  {
    ModAdd(x + half, y, 2 * half);
  }

  lemma WrapTwice(half: int, x: int, y: int)
    requires half > 0
    ensures Wrap(half, Wrap(half, x) + Wrap(half, y)) == Wrap(half, x + y)
  {
    WrapAdd(half, x, Wrap(half, y));
    WrapAdd(half, y, x);
  }

  /** `std::string_view` order: bytewise, a proper prefix first. */
  predicate LexLess(a: seq<Byte>, b: seq<Byte>) {
    if b == [] then false
    else if a == [] then true
    else a[0] < b[0] || (a[0] == b[0] && LexLess(a[1..], b[1..]))
  }

  /** `<` on the elements of one column.  Mixed kinds do not occur; they are ordered only to keep this total. */
  predicate Less(a: Value, b: Value) {
    match (a, b)
    case (Int(x), Int(y)) => x < y
    case (Str(x), Str(y)) => LexLess(x, y)
    case (Int(_), Str(_)) => true
    case (Str(_), Int(_)) => false
  }

  // ----- the order, told without the loops that decide it -----

  /** The first byte in which they differ decides, and a proper prefix comes first. */
  ghost predicate BytesBefore(a: seq<Byte>, b: seq<Byte>) {
    exists k: nat :: k <= |a| && k < |b| && a[..k] == b[..k] && (k == |a| || a[k] < b[k])
  }

  /** Numbers by size, strings byte by byte; kinds are never mixed in a column. */
  ghost predicate Above(v: Value, w: Value) {
    match (v, w)
    case (Int(x), Int(y)) => x > y
    case (Str(x), Str(y)) => BytesBefore(y, x)
    case (_, _) => v.Str?
  }

  lemma {:induction false} LexLessExactly(a: seq<Byte>, b: seq<Byte>)
    ensures LexLess(a, b) <==> exists k: nat :: k <= |a| && k < |b| && a[..k] == b[..k] && (k == |a| || a[k] < b[k])
  {
    if b != [] && a == [] {
      assert a[..0] == b[..0];
    } else if b != [] && a[0] < b[0] {
      assert a[..0] == b[..0];
    } else if b != [] && a[0] == b[0] {
      LexLessExactly(a[1..], b[1..]);
      if j: nat :| j <= |a[1..]| && j < |b[1..]| && a[1..][..j] == b[1..][..j] && (j == |a[1..]| || a[1..][j] < b[1..][j]) {
        assert a[..j + 1] == [a[0]] + a[1..][..j] && b[..j + 1] == [b[0]] + b[1..][..j];
      }
      if k: nat :| k <= |a| && k < |b| && a[..k] == b[..k] && (k == |a| || a[k] < b[k]) {
        assert k > 0;
        assert a[1..][..k - 1] == a[..k][1..] && b[1..][..k - 1] == b[..k][1..];
      }
    } else if b != [] {
      forall k: nat | 0 < k <= |a| && k < |b| ensures a[..k] != b[..k] {
        assert a[..k][0] != b[..k][0];
      }
    }
  }

  /** `<` is the order of numbers, and of strings as above. */
  lemma LessExactly(v: Value, w: Value)
    ensures Less(v, w) <==> Above(w, v)
    ensures v.Int? && w.Int? ==> (Less(v, w) <==> v.i < w.i)
    ensures v.Str? && w.Str? ==> (Less(v, w) <==> BytesBefore(v.s, w.s))
  {
    if v.Str? && w.Str? {
      LexLessExactly(v.s, w.s);
    }
  }

  lemma {:induction false} LexTotal(a: seq<Byte>, b: seq<Byte>)
    ensures LexLess(a, b) || LexLess(b, a) || a == b
    ensures !(LexLess(a, b) && LexLess(b, a))
  {
    if a != [] && b != [] {
      LexTotal(a[1..], b[1..]);
      assert a == [a[0]] + a[1..] && b == [b[0]] + b[1..];
    }
  }

  lemma {:induction false} LexTransitive(a: seq<Byte>, b: seq<Byte>, c: seq<Byte>)
    requires LexLess(a, b) && LexLess(b, c)
    ensures LexLess(a, c)
  {
    if a != [] && b != [] && c != [] && a[0] == b[0] == c[0] {
      LexTransitive(a[1..], b[1..], c[1..]);
    }
  }

  /** `<` on values is a strict total order. */
  lemma LessIsStrictTotal(a: Value, b: Value, c: Value)
    ensures !Less(a, a)
    ensures Less(a, b) || Less(b, a) || a == b
    ensures !(Less(a, b) && Less(b, a))
    ensures Less(a, b) && Less(b, c) ==> Less(a, c)
  {
    if a.Str? {
      LexTotal(a.s, a.s);
      if b.Str? {
        LexTotal(a.s, b.s);
        if c.Str? && Less(a, b) && Less(b, c) {
          LexTransitive(a.s, b.s, c.s);
        }
      }
    }
  }

  /** Where x may stand before y: not larger, or not smaller if the order is descending. */
  ghost predicate InOrder(x: Value, y: Value, desc: bool) {
    match (x, y)
    case (Int(a), Int(b)) => if desc then a >= b else a <= b
    case (_, _) => x == y || if desc then Above(x, y) else Above(y, x)
  }

  lemma InOrderExactly(x: Value, y: Value, desc: bool)
    ensures InOrder(x, y, desc) <==> !(if desc then Less(x, y) else Less(y, x))
  {
    LessExactly(x, y);
    LessExactly(y, x);
    LessIsStrictTotal(x, y, x);
  }
}
