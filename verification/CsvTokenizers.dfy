/**
 CsvTokenizer (src/io/CsvTokenizer.cpp): rows read through a buffer that is refilled from the file.  Whatever the
 buffer's size, and wherever refills fall, each call yields exactly the next row of CsvRows.
 */
module CsvTokenizers {
  import opened Values
  import opened Wrappers
  import opened StringTables
  import opened CsvRows
  import Sequences

  class CsvTokenizer {
    const file: seq<Byte>
    const buffer: array<Byte>
    const delim: Byte
    var filePos: nat
    var bufferPos: nat
    var bufferEnd: nat
    var endOfLine: bool
    var eofReached: bool
    /** What has not been consumed: the buffered characters, then those still in the file. */
    ghost var rest: seq<Byte>

    ghost predicate Valid()
      reads this, buffer
    {
      && bufferPos <= bufferEnd <= buffer.Length && buffer.Length > 0 && filePos <= |file|
      && rest == buffer[bufferPos..bufferEnd] + file[filePos..]
      && (eofReached ==> rest == [])
    }

    constructor (content: seq<Byte>, bufferSize: nat, delimiter: Byte)
      requires bufferSize > 0
      ensures Valid() && fresh(buffer) && rest == content && delim == delimiter && !eofReached && !endOfLine
    {
      file, buffer, delim := content, new Byte[bufferSize], delimiter;
      filePos, bufferPos, bufferEnd, endOfLine, eofReached := 0, 0, 0, false, false;
      rest := content;
    }

    /** RefillBuffer: the next block of the file replaces a used-up buffer, and its first character is taken. */
    method RefillBuffer() returns (ch: Option<Byte>)
      requires Valid() && bufferPos == bufferEnd
      modifies this`filePos, this`bufferPos, this`bufferEnd, this`eofReached, this`rest, buffer
      ensures Valid() && ch == if old(rest) == [] then None else Some(old(rest)[0])
      ensures rest == if old(rest) == [] then [] else old(rest)[1..]
      ensures eofReached == (old(rest) == [])
      ensures ch.Some? ==> bufferPos == 1 && buffer[0] == ch.value
    {
      assert rest == file[filePos..];
      if eofReached {
        return None;
      }
      var n := if |file| - filePos < buffer.Length then |file| - filePos else buffer.Length;
      forall k | 0 <= k < n {
        buffer[k] := file[filePos + k];
      }
      assert buffer[0..n] == file[filePos..filePos + n];
      filePos, bufferEnd, bufferPos := filePos + n, n, 0;
      if bufferEnd == 0 {
        eofReached := true;
        return None;
      }
      ch := Some(buffer[0]);
      bufferPos := 1;
      rest := rest[1..];
      assert buffer[1..n] + file[filePos..] == rest;
    }

    /** The next character, left where it is; a used-up buffer is refilled first. */
    method Peek() returns (ch: Option<Byte>)
      requires Valid()
      modifies this`filePos, this`bufferPos, this`bufferEnd, this`eofReached, this`rest, buffer
      ensures Valid() && rest == old(rest) && ch == if rest == [] then None else Some(rest[0])
      ensures eofReached == (rest == [] || old(eofReached))
      ensures ch.Some? ==> bufferPos < bufferEnd && buffer[bufferPos] == ch.value
    {
      if bufferPos >= bufferEnd {
        ch := RefillBuffer();
        if ch.None? {
          return;
        }
        assert buffer[0..bufferEnd] == [ch.value] + buffer[1..bufferEnd];
        Sequences.Regroup([ch.value], buffer[1..bufferEnd], file[filePos..]);
        PutBack(old(rest));
        bufferPos, rest := bufferPos - 1, [ch.value] + rest;
      } else {
        ch := Some(buffer[bufferPos]);
      }
    }

    /** `buffer_pos_++` */
    method Advance()
      requires Valid() && bufferPos < bufferEnd
      modifies this`bufferPos, this`rest
      ensures Valid() && rest == old(rest)[1..]
    {
      assert buffer[bufferPos..bufferEnd] == [buffer[bufferPos]] + buffer[bufferPos + 1..bufferEnd];
      bufferPos, rest := bufferPos + 1, rest[1..];
    }

    /** The next character, or none at the end of the file. */
    method NextChar() returns (ch: Option<Byte>)
      requires Valid()
      modifies this`filePos, this`bufferPos, this`bufferEnd, this`eofReached, this`rest, buffer
      ensures Valid() && eofReached == (old(rest) == [] || old(eofReached))
      ensures if ch.None? then old(rest) == rest == [] else old(rest) != [] && ch.value == old(rest)[0] && rest == old(rest)[1..]
    {
      ch := Peek();
      if ch.Some? {
        Advance();
      }
    }

    /** A character inside quotes.  Only a quote needs a look at the next character, which may be in the next block. */
    method TakeQuoted(ch: Byte, rows: VectorOfStrings2D, ghost cells: seq<Text>) returns (inQuotes: bool)
      requires Valid() && rows.Valid()
      modifies this`filePos, this`bufferPos, this`bufferEnd, this`eofReached, this`rest, buffer, rows
      ensures Valid() && rows.Valid() && rows.rows == old(rows.rows) && rows.line == old(rows.line)
      ensures ReadFrom(rest, delim, Reading(cells, rows.text, ModeOf(true, inQuotes)))
           == ReadFrom(old(rest), delim, Step(Reading(cells, old(rows.text), Quoted), ch, delim))
      ensures |rest| <= |old(rest)|
    {
      if ch == QUOTE {
        var second := Peek();
        if second == Some(QUOTE) {
          rows.ContinueAddString(QUOTE);
          Advance();
          return true;
        }
        ClosedQuote(rest, delim, Reading(cells, rows.text, Closing));
        return false;
      }
      if ch != RETURN {
        rows.ContinueAddString(ch);
      }
      inQuotes := true;
    }

    method GetNextRow(rows: VectorOfStrings2D)
      requires Valid() && rows.Valid() && rows.text == []
      modifies this, buffer, rows
      ensures Valid() && rows.Valid() && rows.text == [] && rows.rows == old(rows.rows) && endOfLine
      ensures rows.line == old(rows.line) + NextRow(old(rest), delim).cells
      ensures rest == NextRow(old(rest), delim).rest
      ensures eofReached == NextRow(old(rest), delim).ranOut
    {
      var tokenStarted, inQuotes := false, false;
      ghost var before, row := rows.line, NextRow(rest, delim);
      ghost var cells: seq<Text> := [];
      while true
        invariant Valid() && rows.Valid() && rows.rows == old(rows.rows) && rows.line == before + cells
        invariant ReadFrom(rest, delim, Reading(cells, rows.text, ModeOf(tokenStarted, inQuotes))) == row
        invariant (inQuotes ==> tokenStarted) && (!tokenStarted ==> rows.text == [])
        decreases |rest|
      {
        var next := NextChar();
        if next.None? {
          break;
        }
        var ch := next.value;
        if !tokenStarted && !inQuotes && Blank(ch) {
          continue;
        }
        if inQuotes {
          inQuotes := TakeQuoted(ch, rows, cells);
        } else if ch == NEWLINE {
          ghost var cell := EndCell(rows, before, cells);
          endOfLine := true;
          return;
        } else {
          tokenStarted, inQuotes, cells := TakePlain(ch, delim, rows, tokenStarted, before, cells);
        }
      }
      if tokenStarted || !eofReached {
        ghost var cell := EndCell(rows, before, cells);
      }
      endOfLine := true;
    }
  }

  lemma PutBack(s: seq<Byte>)
    ensures s != [] ==> [s[0]] + s[1..] == s
  {
  }

  function ModeOf(tokenStarted: bool, inQuotes: bool): Mode {
    if inQuotes then Quoted else if tokenStarted then Plain else Between
  }

  /** A character outside quotes: a quote opens, the delimiter ends the cell, a carriage return is dropped. */
  method TakePlain(ch: Byte, delim: Byte, rows: VectorOfStrings2D, ghost tokenStarted: bool, ghost before: seq<Text>, ghost cells: seq<Text>)
    returns (started: bool, inQuotes: bool, ghost cells': seq<Text>)
    requires rows.Valid() && rows.line == before + cells && (tokenStarted || !Blank(ch))
    modifies rows
    ensures rows.Valid() && rows.rows == old(rows.rows) && rows.line == before + cells'
    ensures Reading(cells', rows.text, ModeOf(started, inQuotes))
         == Step(Reading(cells, old(rows.text), ModeOf(tokenStarted, false)), ch, delim)
    ensures (inQuotes ==> started) && (!started ==> rows.text == [])
  {
    started, inQuotes, cells' := true, false, cells;
    if ch == QUOTE {
      inQuotes := true;
    } else if ch == delim {
      ghost var cell := EndCell(rows, before, cells);
      started, cells' := false, cells + [cell];
    } else if ch != RETURN {
      rows.ContinueAddString(ch);
    }
  }

  /** One more cell behind those of the row. */
  method EndCell(rows: VectorOfStrings2D, ghost before: seq<Text>, ghost cells: seq<Text>) returns (ghost cell: Text)
    requires rows.Valid() && rows.line == before + cells
    modifies rows
    ensures rows.Valid() && rows.rows == old(rows.rows) && rows.text == []
    ensures cell == Trim(old(rows.text)) && rows.line == before + (cells + [cell])
  {
    cell := Trim(rows.text);
    EndTrimmed(rows);
    Sequences.Regroup(before, cells, [cell]);
  }

  /** The trimming loop before a string is ended: it stops at the string's own start. */
  method EndTrimmed(rows: VectorOfStrings2D)
    requires rows.Valid()
    modifies rows
    ensures rows.Valid() && rows.rows == old(rows.rows) && rows.text == []
    ensures rows.line == old(rows.line) + [Trim(old(rows.text))]
  {
    while !rows.EmptyLastString()
      invariant rows.Valid() && rows.rows == old(rows.rows) && rows.line == old(rows.line)
      invariant Trim(rows.text) == Trim(old(rows.text))
      decreases |rows.text|
    {
      var last := rows.BackLastString();
      if !Blank(last) {
        break;
      }
      rows.PopLastChar();
    }
    rows.EndAddString();
  }
}
