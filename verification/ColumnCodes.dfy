/**
 The bytes of one column chunk (src/io/ColumnarWriter.cpp, WriteBatch) and how a reader turns them back into a column
 (ReadFromBuffer of src/column/StringColumn.h and src/column/NumericColumn.h).
 */
module ColumnCodes {
  import opened Arithmetic
  import opened Values
  import opened Wrappers
  import opened Batches
  import Bytes
  import Sequences

  /** A value as stored: a 4-byte length and the bytes of a string, or the bytes of an integer of its width. */
  function ValueBytes(v: Value, ty: ColumnType): seq<Byte> {
    match v
    case Str(s) => Bytes.Encode(|s|, 4) + s
    case Int(i) => Bytes.EncodeSigned(i, Width(ty))
  }

  function ValueParts(data: seq<Value>, ty: ColumnType): (r: seq<seq<Byte>>)
    ensures |r| == |data|
  {
    seq(|data|, k requires 0 <= k < |data| => ValueBytes(data[k], ty))
  }

  function ColumnBytes(data: seq<Value>, ty: ColumnType): seq<Byte> {
    Sequences.Concat(ValueParts(data, ty))
  }

  lemma ColumnBytesFront(data: seq<Value>, ty: ColumnType)
    requires data != []
    ensures ColumnBytes(data, ty) == ValueBytes(data[0], ty) + ColumnBytes(data[1..], ty)
  {
    Sequences.ConcatFront(ValueParts(data, ty));
    PartsFront(data, ty);
  }

  lemma PartsFront(data: seq<Value>, ty: ColumnType)
    requires data != []
    ensures ValueParts(data, ty)[0] == ValueBytes(data[0], ty) && ValueParts(data, ty)[1..] == ValueParts(data[1..], ty)
  {
  }

  /** The column can be stored without loss: values of its type, string lengths of 32 bits. */
  ghost predicate Storable(data: seq<Value>, ty: ColumnType) {
    forall k :: 0 <= k < |data| ==> HasType(data[k], ty) && (data[k].Str? ==> |data[k].s| < TWO_32)
  }

  /** The writer's loop over one column. */
  method WriteColumn(data: seq<Value>, ty: ColumnType) returns (buffer: seq<Byte>)
    ensures buffer == ColumnBytes(data, ty)
  {
    buffer := [];
    ghost var parts := ValueParts(data, ty);
    for k := 0 to |data|
      invariant buffer == Sequences.Concat(parts[..k])
    {
      assert parts[..k + 1] == parts[..k] + [parts[k]];
      Sequences.ConcatSnoc(parts[..k], parts[k]);
      buffer := buffer + ValueBytes(data[k], ty);
    }
    assert parts[..|data|] == parts;
  }

  // ----- fixed-width columns -----

  function DecodeFixed(s: seq<Byte>, w: nat): seq<Value>
    requires w > 0
  {
    if |s| < w then [] else [Int(Bytes.DecodeSigned(s[..w]))] + DecodeFixed(s[w..], w)
  }

  /** ReadFromBuffer of a fixed-width column. */
  method ReadFixed(buffer: seq<Byte>, w: nat) returns (r: Result<seq<Value>>)
    requires w > 0
    ensures r == if |buffer| % w != 0 then Err("Raw buffer size is not aligned with type size") else Ok(DecodeFixed(buffer, w))
  {
    if |buffer| % w != 0 {
      return Err("Raw buffer size is not aligned with type size");
    }
    var data: seq<Value> := [];
    var offset := 0;
    assert buffer[0..] == buffer;
    while offset + w <= |buffer|
      invariant offset <= |buffer| && data + DecodeFixed(buffer[offset..], w) == DecodeFixed(buffer, w)
    {
      ghost var rest := buffer[offset..];
      assert buffer[offset..offset + w] == rest[..w] && buffer[offset + w..] == rest[w..];
      Sequences.Regroup(data, [Int(Bytes.DecodeSigned(rest[..w]))], DecodeFixed(rest[w..], w));
      data := data + [Int(Bytes.DecodeSigned(buffer[offset..offset + w]))];
      offset := offset + w;
    }
    assert data + [] == data;
    r := Ok(data);
  }

  lemma AddMultiple(n: nat, w: nat)
    requires w > 0 && n % w == 0
    ensures (w + n) % w == 0
  {
    DivUnique(w + n, w, n / w + 1, 0);
  }

  lemma {:induction false} FixedRoundTrip(data: seq<Value>, ty: ColumnType)
    requires Storable(data, ty) && Width(ty) > 0
    ensures |ColumnBytes(data, ty)| % Width(ty) == 0 && DecodeFixed(ColumnBytes(data, ty), Width(ty)) == data
  {
    var w := Width(ty);
    if data == [] {
      assert ColumnBytes(data, ty) == [];
    } else {
      var first, rest := ValueBytes(data[0], ty), ColumnBytes(data[1..], ty);
      FixedRoundTrip(data[1..], ty);
      ColumnBytesFront(data, ty);
      Bytes.TypedRange(data[0].i, ty);
      Bytes.SignedRoundTrip(data[0].i, w);
      assert (first + rest)[..w] == first && (first + rest)[w..] == rest;
      AddMultiple(|rest|, w);
    }
  }

  // ----- string columns -----

  /** The strings of a buffer; `None` where the source would read past its end. */
  function DecodeStrings(s: seq<Byte>): Option<seq<Value>>
    decreases |s|
  {
    if s == [] then Some([])
    else if |s| < 4 then None
    else
      var n := Bytes.Decode(s[..4]);
      if |s| < 4 + n then None
      else
        match DecodeStrings(s[4 + n..])
        case None => None
        case Some(rest) => Some([Str(s[4..4 + n])] + rest)
  }

  function Prefixed(data: seq<Value>, rest: Option<seq<Value>>): Option<seq<Value>> {
    if rest.None? then None else Some(data + rest.value)
  }

  lemma PrefixNothing(rest: Option<seq<Value>>)
    ensures Prefixed([], rest) == rest
  {
    if rest.Some? {
      assert [] + rest.value == rest.value;
    }
  }

  lemma PrefixTwice(data: seq<Value>, v: Value, rest: Option<seq<Value>>)
    ensures Prefixed(data, Prefixed([v], rest)) == Prefixed(data + [v], rest)
  {
    if rest.Some? {
      Sequences.Regroup(data, [v], rest.value);
    }
  }

  lemma FirstString(s: seq<Byte>, n: nat)
    requires |s| >= 4 && n == Bytes.Decode(s[..4])
    ensures |s| < 4 + n ==> DecodeStrings(s) == None
    ensures |s| >= 4 + n ==> DecodeStrings(s) == Prefixed([Str(s[4..4 + n])], DecodeStrings(s[4 + n..]))
  {
  }

  lemma StringAtOffset(buffer: seq<Byte>, offset: nat, n: nat)
    requires offset + 4 <= |buffer| && n == Bytes.Decode(buffer[offset..offset + 4])
    ensures offset + 4 + n > |buffer| ==> DecodeStrings(buffer[offset..]) == None
    ensures offset + 4 + n <= |buffer| ==>
              var text, rest := buffer[offset + 4..offset + 4 + n], buffer[offset + 4 + n..];
              DecodeStrings(buffer[offset..]) == Prefixed([Str(text)], DecodeStrings(rest))
  {
    Sequences.Shifted(buffer, offset, 0, 4);
    FirstString(buffer[offset..], n);
    if offset + 4 + n <= |buffer| {
      Sequences.Shifted(buffer, offset, 4, 4 + n);
    }
  }

  /** ReadFromBuffer of a string column. */
  method ReadStrings(buffer: seq<Byte>) returns (r: Option<seq<Value>>)
    ensures r == DecodeStrings(buffer)
  {
    var data: seq<Value> := [];
    var offset := 0;
    assert buffer[0..] == buffer;
    PrefixNothing(DecodeStrings(buffer));
    while offset < |buffer|
      invariant offset <= |buffer|
      invariant DecodeStrings(buffer) == Prefixed(data, DecodeStrings(buffer[offset..]))
    {
      ghost var start := offset;
      if offset + 4 > |buffer| {
        return None;
      }
      var length := Bytes.Decode(buffer[offset..offset + 4]);
      StringAtOffset(buffer, start, length);
      offset := offset + 4;
      if offset + length > |buffer| {
        return None;
      }
      var text := Str(buffer[offset..offset + length]);
      PrefixTwice(data, text, DecodeStrings(buffer[offset + length..]));
      data := data + [text];
      offset := offset + length;
    }
    assert data + [] == data;
    r := Some(data);
  }

  lemma {:induction false} StringsRoundTrip(data: seq<Value>)
    requires Storable(data, STRING)
    ensures DecodeStrings(ColumnBytes(data, STRING)) == Some(data)
  {
    if data == [] {
      assert ColumnBytes(data, STRING) == [];
    } else {
      var text, rest := data[0].s, ColumnBytes(data[1..], STRING);
      StringsRoundTrip(data[1..]);
      ColumnBytesFront(data, STRING);
      Bytes.Widths();
      Bytes.DecodeEncode(|text|, 4);
      var s := Bytes.Encode(|text|, 4) + text + rest;
      assert ColumnBytes(data, STRING) == s;
      assert s[..4] == Bytes.Encode(|text|, 4) && s[4..4 + |text|] == text && s[4 + |text|..] == rest;
      assert data == [Str(text)] + data[1..];
    }
  }

  // ----- any column -----

  /** The uint8_t stored for a column type, and back. */
  function Tag(ty: ColumnType): Byte {
    match ty
    case INT16 => 0
    case INT32 => 1
    case INT64 => 2
    case INT128 => 3
    case FLOAT => 4
    case DOUBLE => 5
    case LONGDOUBLE => 6
    case CHAR => 7
    case STRING => 8
    case DATE => 9
    case TIMESTAMP => 10
  }

  function TypeOfTag(tag: Byte): (r: Option<ColumnType>)
    ensures forall ty :: r == Some(ty) <==> Tag(ty) == tag
  {
    if tag == 0 then Some(INT16) else if tag == 1 then Some(INT32) else if tag == 2 then Some(INT64)
    else if tag == 3 then Some(INT128) else if tag == 4 then Some(FLOAT) else if tag == 5 then Some(DOUBLE)
    else if tag == 6 then Some(LONGDOUBLE) else if tag == 7 then Some(CHAR) else if tag == 8 then Some(STRING)
    else if tag == 9 then Some(DATE) else if tag == 10 then Some(TIMESTAMP) else None
  }

  function DecodeColumn(buffer: seq<Byte>, ty: ColumnType): Result<Column> {
    if ty == STRING then
      match DecodeStrings(buffer)
      case None => Err("read past the end")
      case Some(data) => Ok(Column(ty, data))
    else if |buffer| % Width(ty) != 0 then Err("Raw buffer size is not aligned with type size")
    else Ok(Column(ty, DecodeFixed(buffer, Width(ty))))
  }

  method ReadColumn(buffer: seq<Byte>, ty: ColumnType) returns (r: Result<Column>)
    ensures r == DecodeColumn(buffer, ty)
  {
    if ty == STRING {
      var data := ReadStrings(buffer);
      r := if data.None? then Err("read past the end") else Ok(Column(ty, data.value));
    } else {
      var data := ReadFixed(buffer, Width(ty));
      r := if data.Err? then Err(data.error) else Ok(Column(ty, data.value));
    }
  }

  /** Decoding a stored chunk gives the column back. */
  lemma ColumnRoundTrip(column: Column)
    requires Storable(column.data, column.ty)
    ensures DecodeColumn(ColumnBytes(column.data, column.ty), column.ty) == Ok(column)
  {
    if column.ty == STRING {
      StringsRoundTrip(column.data);
    } else {
      FixedRoundTrip(column.data, column.ty);
    }
  }
}
