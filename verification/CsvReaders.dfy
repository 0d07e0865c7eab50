/**
 CsvReader (src/io/CsvReader.cpp): the end of the text, the width check, and the header line.
 */
module CsvReaders {
  import opened Values
  import opened Wrappers
  import opened StringTables
  import opened CsvRows
  import opened CsvTokenizers
  import Sequences

  // ----- header cells: a type name, a colon, a column name -----

  const COLON: Byte := 58

  function TypeName(ty: ColumnType): Text {
    match ty
    case INT16 => [73, 78, 84, 49, 54]
    case INT32 => [73, 78, 84, 51, 50]
    case INT64 => [73, 78, 84, 54, 52]
    case INT128 => [73, 78, 84, 49, 50, 56]
    case FLOAT => [70, 76, 79, 65, 84]
    case DOUBLE => [68, 79, 85, 66, 76, 69]
    case LONGDOUBLE => [76, 79, 78, 71, 68, 79, 85, 66, 76, 69]
    case CHAR => [67, 72, 65, 82]
    case DATE => [68, 65, 84, 69]
    case TIMESTAMP => [84, 73, 77, 69, 83, 84, 65, 77, 80]
    case STRING => [83, 84, 82, 73, 78, 71]
  }

  /** The chain of comparisons over FOR_EACH_COLUMN_TYPE. */
  function TypeNamed(name: Text): Option<ColumnType> {
    if name == TypeName(INT16) then Some(INT16) else if name == TypeName(INT32) then Some(INT32)
    else if name == TypeName(INT64) then Some(INT64) else if name == TypeName(INT128) then Some(INT128)
    else if name == TypeName(FLOAT) then Some(FLOAT) else if name == TypeName(DOUBLE) then Some(DOUBLE)
    else if name == TypeName(LONGDOUBLE) then Some(LONGDOUBLE) else if name == TypeName(CHAR) then Some(CHAR)
    else if name == TypeName(DATE) then Some(DATE) else if name == TypeName(TIMESTAMP) then Some(TIMESTAMP)
    else if name == TypeName(STRING) then Some(STRING) else None
  }

  lemma TypeNamedIs(name: Text, ty: ColumnType)
    ensures TypeNamed(name) == Some(ty) <==> TypeName(ty) == name
  {
  }

  /** `token.find(':')`; the length if there is none. */
  function FirstColon(token: Text): (k: nat)
    ensures k <= |token| && (k < |token| ==> token[k] == COLON) && COLON !in token[..k]
  {
    if token == [] || token[0] == COLON then 0
    else
      var k := 1 + FirstColon(token[1..]);
      assert token[..k] == [token[0]] + token[1..][..k - 1];
      k
  }

  /** Type and name of a header cell; `None` where the source throws. */
  function HeaderField(token: Text): Option<(Text, ColumnType)> {
    var k := FirstColon(token);
    if k == |token| then None
    else
      match TypeNamed(token[..k])
      case None => None
      case Some(ty) => Some((token[k + 1..], ty))
  }

  ghost predicate HeaderParses(tokens: seq<Text>) {
    forall i :: 0 <= i < |tokens| ==> HeaderField(tokens[i]).Some?
  }

  ghost function HeaderNames(tokens: seq<Text>): (r: seq<Text>)
    requires HeaderParses(tokens)
    ensures |r| == |tokens|
  {
    seq(|tokens|, i requires 0 <= i < |tokens| => HeaderField(tokens[i]).value.0)
  }

  ghost function HeaderTypes(tokens: seq<Text>): (r: seq<ColumnType>)
    requires HeaderParses(tokens)
    ensures |r| == |tokens|
  {
    seq(|tokens|, i requires 0 <= i < |tokens| => HeaderField(tokens[i]).value.1)
  }

  /** A column's header cell. */
  function HeaderCell(name: Text, ty: ColumnType): Text {
    TypeName(ty) + ([COLON] + name)
  }

  lemma NoColonInTypeNames(ty: ColumnType)
    ensures COLON !in TypeName(ty)
  {
  }

  lemma {:induction false} FirstColonIs(token: Text, n: nat)
    requires n < |token| && token[n] == COLON && COLON !in token[..n]
    ensures FirstColon(token) == n
  {
    if n > 0 {
      assert token[..n][0] == token[0];
      assert token[..n] == [token[0]] + token[1..][..n - 1];
      FirstColonIs(token[1..], n - 1);
    }
  }

  /** Any name reads back from its cell, even one with a colon in it. */
  lemma HeaderCellReadsBack(name: Text, ty: ColumnType)
    ensures HeaderField(HeaderCell(name, ty)) == Some((name, ty))
  {
    var token, n := HeaderCell(name, ty), |TypeName(ty)|;
    NoColonInTypeNames(ty);
    TypeNamedIs(TypeName(ty), ty);
    assert token[..n] == TypeName(ty) && token[n] == COLON && token[n + 1..] == name;
    FirstColonIs(token, n);
  }

  /** The eleven type names character by character, a colon (58), and any column name. */
  lemma HeaderTypesNamed(code: Text, name: Text, ty: ColumnType)
    requires code == match ty
                     case INT16 => [73, 78, 84, 49, 54]
                     case INT32 => [73, 78, 84, 51, 50]
                     case INT64 => [73, 78, 84, 54, 52]
                     case INT128 => [73, 78, 84, 49, 50, 56]
                     case FLOAT => [70, 76, 79, 65, 84]
                     case DOUBLE => [68, 79, 85, 66, 76, 69]
                     case LONGDOUBLE => [76, 79, 78, 71, 68, 79, 85, 66, 76, 69]
                     case CHAR => [67, 72, 65, 82]
                     case DATE => [68, 65, 84, 69]
                     case TIMESTAMP => [84, 73, 77, 69, 83, 84, 65, 77, 80]
                     case STRING => [83, 84, 82, 73, 78, 71]
    ensures HeaderField(code + ([58] + name)) == Some((name, ty))
  {
    HeaderCellReadsBack(name, ty);
  }

  /** Any other text before the first colon, and a text without a colon, is refused. */
  lemma OtherHeadersRefused(token: Text)
    ensures HeaderField(token).Some? <==>
            exists k: nat, ty: ColumnType :: k < |token| && token[k] == 58 && 58 !in token[..k] && token[..k] == TypeName(ty)
  {
    var k := FirstColon(token);
    if HeaderField(token).Some? {
      var ty := HeaderField(token).value.1;
      TypeNamedIs(token[..k], ty);
    }
    if n: nat, ty: ColumnType :| n < |token| && token[n] == 58 && 58 !in token[..n] && token[..n] == TypeName(ty) {
      FirstColonIs(token, n);
      TypeNamedIs(token[..n], ty);
    }
  }

  // ----- the reader -----

  /** The rows still to be read. */
  ghost function Pending(rest: seq<Byte>, delim: Byte, eofReached: bool): seq<seq<Text>> {
    if eofReached then [] else TextRows(rest, delim)
  }

  class CsvReader {
    const tokenizer: CsvTokenizer
    var expectedColumns: nat

    ghost predicate Valid()
      reads this, tokenizer, tokenizer.buffer
    {
      tokenizer.Valid()
    }

    ghost function Remaining(): seq<seq<Text>>
      reads this, tokenizer
    {
      Pending(tokenizer.rest, tokenizer.delim, tokenizer.eofReached)
    }

    constructor (content: seq<Byte>, bufferSize: nat, delim: Byte)
      requires bufferSize > 0
      ensures Valid() && fresh(tokenizer) && fresh(tokenizer.buffer)
      ensures Remaining() == TextRows(content, delim) && expectedColumns == 0
    {
      tokenizer := new CsvTokenizer(content, bufferSize, delim);
      expectedColumns := 0;
    }

    /**
     ReadRow: false exactly when no row is left, whether the last one ended in a newline or not; an error exactly
     when a row has not the expected width.
     */
    method ReadRow(row: VectorOfStrings2D) returns (more: Result<bool>)
      requires Valid() && row.Valid() && row.line == [] && row.text == []
      modifies tokenizer, tokenizer.buffer, row
      ensures Valid() && row.Valid() && row.rows == old(row.rows) && row.text == []
      ensures more == Ok(false) <==> old(Remaining()) == []
      ensures more.Err? <==> old(Remaining()) != [] && expectedColumns != 0 && |old(Remaining())[0]| != expectedColumns
      ensures old(Remaining()) == [] ==> row.line == [] && Remaining() == []
      ensures old(Remaining()) != [] ==> row.line == old(Remaining())[0] && Remaining() == old(Remaining())[1..]
    {
      if tokenizer.eofReached {
        return Ok(false);
      }
      tokenizer.GetNextRow(row);
      if row.ColumnsInCurrentLine() == 0 && tokenizer.eofReached {
        return Ok(false);
      }
      if expectedColumns != 0 && row.ColumnsInCurrentLine() != expectedColumns {
        return Err("CSV row width mismatch");
      }
      tokenizer.endOfLine := false;
      more := Ok(true);
    }
  
    /** ReadHeader: names and types of the first row's cells, whose number all other rows must have. */
    method ReadHeader(headerNames: VectorOfStrings) returns (types: Result<seq<ColumnType>>)
      requires Valid()
      modifies this`expectedColumns, tokenizer, tokenizer.buffer, headerNames
      ensures Valid() && headerNames.Valid()
      ensures var header := HeaderOf(old(Remaining()));
              && Remaining() == BodyOf(old(Remaining())) && expectedColumns == |header|
              && (types.Ok? <==> HeaderParses(header))
              && (types.Ok? ==> types.value == HeaderTypes(header) && headerNames.strings == HeaderNames(header))
    {
      var raw := new VectorOfStrings2D();
      ghost var header := HeaderOf(Remaining());
      FirstRow(tokenizer.rest, tokenizer.delim, tokenizer.eofReached);
      assert [] + header == header;
      tokenizer.GetNextRow(raw);
      tokenizer.endOfLine := false;
      assert raw.line == header;
      expectedColumns := raw.Width();
      types := CollectHeader(raw, headerNames);
    }
  }

  ghost function HeaderOf(rows: seq<seq<Text>>): seq<Text> {
    if rows == [] then [] else rows[0]
  }

  ghost function BodyOf(rows: seq<seq<Text>>): seq<seq<Text>> {
    if rows == [] then [] else rows[1..]
  }

  lemma FirstRow(rest: seq<Byte>, delim: Byte, eofReached: bool)
    requires eofReached ==> rest == []
    ensures var row, rows := NextRow(rest, delim), Pending(rest, delim, eofReached);
            row.cells == HeaderOf(rows) && Pending(row.rest, delim, row.ranOut) == BodyOf(rows)
  {
  }

  lemma HeaderIs(tokens: seq<Text>, names: seq<Text>, types: seq<ColumnType>)
    requires |names| == |types| == |tokens|
    requires forall k :: 0 <= k < |tokens| ==> HeaderField(tokens[k]) == Some((names[k], types[k]))
    ensures HeaderParses(tokens) && HeaderNames(tokens) == names && HeaderTypes(tokens) == types
  {
  }

  method HeaderFieldAt(raw: VectorOfStrings2D, i: nat) returns (field: Option<(Text, ColumnType)>)
    requires raw.Valid() && raw.rows == [] && i < |raw.line|
    ensures field == HeaderField(raw.line[i])
  {
    Sequences.Empties(raw.line);
    var token := raw.GetString(i);
    field := HeaderField(token);
  }

  /** The first tokens are fields with these names and types. */
  ghost predicate Fields(tokens: seq<Text>, names: seq<Text>, types: seq<ColumnType>) {
    |names| == |types| <= |tokens| && forall k :: 0 <= k < |names| ==> HeaderField(tokens[k]) == Some((names[k], types[k]))
  }

  lemma NextField(tokens: seq<Text>, names: seq<Text>, types: seq<ColumnType>, field: (Text, ColumnType))
    requires Fields(tokens, names, types) && |names| < |tokens| && HeaderField(tokens[|names|]) == Some(field)
    ensures Fields(tokens, names + [field.0], types + [field.1])
  {
  }

  lemma NoField(tokens: seq<Text>, i: nat)
    requires i < |tokens| && HeaderField(tokens[i]).None?
    ensures !HeaderParses(tokens)
  {
  }

  /** The loop of ReadHeader. */
  method CollectHeader(raw: VectorOfStrings2D, headerNames: VectorOfStrings) returns (types: Result<seq<ColumnType>>)
    requires raw.Valid() && raw.rows == [] && raw.text == []
    modifies headerNames
    ensures headerNames.Valid() && (types.Ok? <==> HeaderParses(raw.line))
    ensures types.Ok? ==> types.value == HeaderTypes(raw.line) && headerNames.strings == HeaderNames(raw.line)
  {
    headerNames.Clear();
    var found: seq<ColumnType> := [];
    ghost var tokens, names: seq<Text> := raw.line, [];
    for i := 0 to raw.Width()
      invariant headerNames.Valid() && headerNames.strings == names && |found| == i
      invariant Fields(tokens, names, found)
    {
      var field := HeaderFieldAt(raw, i);
      if field.None? {
        NoField(tokens, i);
        return Err("Invalid header token");
      }
      headerNames.PushBack(field.value.0);
      NextField(tokens, names, found, field.value);
      names, found := names + [field.value.0], found + [field.value.1];
    }
    HeaderIs(tokens, names, found);
    types := Ok(found);
  }
}
