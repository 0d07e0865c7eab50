/**
 How a conversion cuts the rows of a CSV text into chunks (WriteToColumnar of src/io/CsvToColumnar.cpp): 8192 rows
 each and a last smaller one, read through a cache of about a megabyte.  The last one is lost when its last row is the
 very row that fills a cache: the end is then found with an empty cache, and the loop is left without writing.
 */
module CsvChunks {
  import opened Values
  import opened StringTables
  import Sequences

  /** ApproxByteSize of a table of these finished rows. */
  function CacheBytes(rows: seq<seq<Text>>): nat {
    |Sequences.Concat(Cells(rows, []))| + 8 * (|Cells(rows, [])| + 1)
  }

  predicate CacheFull(rows: seq<seq<Text>>) {
    CacheBytes(rows) >= 0x10_0000
  }

  /** The finished strings take the bytes up to the last offset. */
  lemma {:induction false} BytesHeld(data: seq<Byte>, offsets: seq<nat>, cells: seq<Text>, open: Text)
    requires Holds(data, offsets, cells, open)
    ensures |Sequences.Concat(cells)| == offsets[|cells|]
    decreases |cells|
  {
    if cells != [] {
      var n := |cells| - 1;
      assert StringAt(data, offsets, n, cells[n]);
      forall i | 0 <= i < n ensures StringAt(data, offsets[..n + 1], i, cells[..n][i]) {
        assert StringAt(data, offsets, i, cells[i]);
      }
      BytesHeld(data, offsets[..n + 1], cells[..n], data[offsets[n]..]);
    }
  }

  /** Rows taken by one filling of the cache that is not cut short by the row limit. */
  function FillLength(rows: seq<seq<Text>>, k: nat): (n: nat)
    requires k <= |rows|
    ensures k <= n <= |rows|
    decreases |rows| - k
  {
    if CacheFull(rows[..k]) || k == |rows| then k else FillLength(rows, k + 1)
  }

  lemma NothingFillsNothing()
    ensures !CacheFull([])
  {
  }

  lemma FillTakesSome(rows: seq<seq<Text>>)
    requires rows != []
    ensures FillLength(rows, 0) > 0
  {
    assert rows[..0] == [];
    NothingFillsNothing();
  }

  /** The rows are a whole number of full caches, each full only with its last row. */
  predicate FullCaches(rows: seq<seq<Text>>)
    decreases |rows|
  {
    rows == [] ||
    (FillTakesSome(rows);
     var k := FillLength(rows, 0);
     CacheFull(rows[..k]) && FullCaches(rows[k..]))
  }

  /** The chunks written. */
  function ChunksOf(rows: seq<seq<Text>>): seq<seq<seq<Text>>>
    decreases |rows|
  {
    if |rows| >= 8192 then [rows[..8192]] + ChunksOf(rows[8192..])
    else if FullCaches(rows) then []
    else [rows]
  }

  // ----- what is written, and what is not -----

  function LastRows(rows: seq<seq<Text>>): seq<seq<Text>>
    decreases |rows|
  {
    if |rows| >= 8192 then LastRows(rows[8192..]) else rows
  }

  /** The rows left over beyond whole chunks are those from the last multiple of 8192 on. */
  lemma {:induction false} LastRowsAre(rows: seq<seq<Text>>)
    ensures |LastRows(rows)| == |rows| % 8192 && LastRows(rows) == rows[|rows| - |rows| % 8192..]
    decreases |rows|
  {
    if |rows| >= 8192 {
      LastRowsAre(rows[8192..]);
      assert (|rows| - 8192) % 8192 == |rows| % 8192;
    }
  }

  /** Chunks have 1 to 8192 rows, all but the last exactly 8192. */
  lemma {:induction false} ChunkSizes(rows: seq<seq<Text>>, k: nat)
    requires k < |ChunksOf(rows)|
    ensures 1 <= |ChunksOf(rows)[k]| <= 8192
    ensures k < |ChunksOf(rows)| - 1 ==> |ChunksOf(rows)[k]| == 8192
    decreases |rows|
  {
    if |rows| >= 8192 && k > 0 {
      ChunkSizes(rows[8192..], k - 1);
    }
  }

  /** The chunks hold the rows in order, without the leftover when that is a whole number of full caches. */
  lemma {:induction false} ChunksHold(rows: seq<seq<Text>>)
    ensures |LastRows(rows)| <= |rows|
    ensures Sequences.Concat(ChunksOf(rows))
         == if FullCaches(LastRows(rows)) then rows[..|rows| - |LastRows(rows)|] else rows
    decreases |rows|
  {
    if |rows| >= 8192 {
      var rest := rows[8192..];
      ChunksHold(rest);
      var first := [rows[..8192]];
      Sequences.ConcatFront(first + ChunksOf(rest));
      Sequences.TakeDrop(first, ChunksOf(rest));
      Sequences.TakeTwice(rows, 8192, |rest|);
      Sequences.TakeTwice(rows, 8192, |rest| - |LastRows(rest)|);
      assert rest[..|rest|] == rest && rows[..|rows|] == rows;
    } else if FullCaches(rows) {
      assert rows[..0] == [];
    } else {
      assert ChunksOf(rows)[..0] == [] && [] + rows == rows;
    }
  }

  /** No row is lost exactly when none is left over or the leftover does not end with the row that fills a cache. */
  lemma NothingLost(rows: seq<seq<Text>>)
    ensures Sequences.Concat(ChunksOf(rows)) == rows
       <==> |rows| % 8192 == 0 || !FullCaches(rows[|rows| - |rows| % 8192..])
  {
    ChunksHold(rows);
    LastRowsAre(rows);
  }

  /** One row with one field of 2^20 bytes is lost. */
  lemma OneLongFieldIsLost(field: Text)
    requires |field| == 0x10_0000
    ensures ChunksOf([[field]]) == []
  {
    var rows := [[field]];
    assert rows[..1] == rows && rows[..0] == [] && rows[1..] == [];
    LongRowFills(field);
    NothingFillsNothing();
    assert CacheFull(rows[..1]) && FillLength(rows, 1) == 1 && FillLength(rows, 0) == 1;
    assert FullCaches(rows[1..]);
  }

  lemma LongRowFills(field: Text)
    ensures CacheBytes([[field]]) == |field| + 16
  {
    var rows, cells := [[field]], [field];
    assert rows[..0] == [] && cells[..0] == [];
    assert Sequences.Concat(rows) == [] + [field] == cells;
    assert Sequences.Concat(cells) == [] + field == field;
  }

  /** Bytes of the fields, and eight more for the offset of each. */
  function RowBytes(row: seq<Text>): nat {
    if row == [] then 0 else RowBytes(row[..|row| - 1]) + |row[|row| - 1]| + 8
  }

  lemma {:induction false} CellBytes(cells: seq<Text>, row: seq<Text>)
    ensures |Sequences.Concat(cells + row)| + 8 * |cells + row| == |Sequences.Concat(cells)| + 8 * |cells| + RowBytes(row)
    decreases |row|
  {
    if row == [] {
      assert cells + row == cells;
    } else {
      var n := |row| - 1;
      CellBytes(cells, row[..n]);
      assert cells + row == (cells + row[..n]) + [row[n]];
      Sequences.ConcatSnoc(cells + row[..n], row[n]);
    }
  }

  /** A cache of rows: a row adds the bytes of its fields and eight for each; it is full from 2^20 bytes on. */
  lemma CacheGrows(rows: seq<seq<Text>>, row: seq<Text>)
    ensures CacheBytes([]) == 8 && CacheBytes(rows + [row]) == CacheBytes(rows) + RowBytes(row)
    ensures CacheFull(rows) <==> CacheBytes(rows) >= 1048576
  {
    CellsOfNewLine(rows, row);
    Sequences.Empties(Sequences.Concat(rows));
    CellBytes(Cells(rows, []), row);
    assert Cells(rows, row) == Cells(rows, []) + row;
  }

  // ----- one step of the conversion -----

  /** What is still written when `held` rows are in the builders and `rows` are unread. */
  function StillWritten(held: seq<seq<Text>>, rows: seq<seq<Text>>): seq<seq<seq<Text>>>
    requires |held| < 8192
  {
    if |held| + |rows| >= 8192 then [held + rows[..8192 - |held|]] + ChunksOf(rows[8192 - |held|..])
    else if FullCaches(rows) then []
    else [held + rows]
  }

  lemma FromTheStart(rows: seq<seq<Text>>)
    ensures StillWritten([], rows) == ChunksOf(rows)
  {
    if |rows| >= 8192 {
      Sequences.Empties(rows[..8192]);
    } else {
      Sequences.Empties(rows);
    }
  }

  /** No row went into a full cache. */
  ghost predicate FilledInTurn(cache: seq<seq<Text>>) {
    forall i :: 0 <= i < |cache| ==> !CacheFull(cache[..i])
  }

  lemma {:induction false} FillReaches(cache: seq<seq<Text>>, unread: seq<seq<Text>>, i: nat)
    requires i <= |cache| && FilledInTurn(cache) && (CacheFull(cache) || unread == [])
    ensures FillLength(cache + unread, i) == |cache|
    decreases |cache| - i
  {
    var rows := cache + unread;
    if i < |cache| {
      assert rows[..i] == cache[..i];
      FillReaches(cache, unread, i + 1);
    } else {
      assert rows[..i] == cache;
    }
  }

  /** The cache filled up short of a chunk: its rows go to the builders. */
  lemma CacheMoved(held: seq<seq<Text>>, cache: seq<seq<Text>>, unread: seq<seq<Text>>)
    requires cache != [] && |held| + |cache| < 8192 && FilledInTurn(cache) && CacheFull(cache)
    ensures StillWritten(held + cache, unread) == StillWritten(held, cache + unread)
  {
    if |held| + |cache| + |unread| >= 8192 {
      MovedWithinChunk(held, cache, unread);
    } else {
      CachesInRow(cache, unread);
      Sequences.Regroup(held, cache, unread);
    }
  }

  lemma MovedWithinChunk(held: seq<seq<Text>>, cache: seq<seq<Text>>, unread: seq<seq<Text>>)
    requires |held| + |cache| < 8192 <= |held| + |cache| + |unread|
    ensures StillWritten(held + cache, unread) == StillWritten(held, cache + unread)
  {
    var k := 8192 - |held| - |cache|;
    ReadOn(held, cache, unread, k);
    SameNext(held + cache, unread, k, held, cache + unread, |cache| + k);
  }

  lemma SameNext(held: seq<seq<Text>>, rows: seq<seq<Text>>, n: nat, held': seq<seq<Text>>, rows': seq<seq<Text>>, n': nat)
    requires |held| < 8192 && n == 8192 - |held| <= |rows| && |held'| < 8192 && n' == 8192 - |held'| <= |rows'|
    requires held + rows[..n] == held' + rows'[..n'] && rows[n..] == rows'[n'..]
    ensures StillWritten(held, rows) == StillWritten(held', rows')
  {
    NextChunk(held, rows, n);
    NextChunk(held', rows', n');
  }

  lemma NextChunk(held: seq<seq<Text>>, rows: seq<seq<Text>>, n: nat)
    requires |held| < 8192 && n == 8192 - |held| <= |rows|
    ensures StillWritten(held, rows) == [held + rows[..n]] + ChunksOf(rows[n..])
  {
  }

  lemma CachesInRow(cache: seq<seq<Text>>, unread: seq<seq<Text>>)
    requires cache != [] && FilledInTurn(cache) && CacheFull(cache)
    ensures FullCaches(cache + unread) <==> FullCaches(unread)
  {
    FillReaches(cache, unread, 0);
    Sequences.TakeDrop(cache, unread);
  }

  lemma ReadOn(held: seq<seq<Text>>, cache: seq<seq<Text>>, unread: seq<seq<Text>>, k: nat)
    requires k <= |unread|
    ensures held + (cache + unread)[..|cache| + k] == held + cache + unread[..k]
    ensures (cache + unread)[|cache| + k..] == unread[k..]
  {
    assert (cache + unread)[..|cache| + k] == cache + unread[..k];
    Sequences.Regroup(held, cache, unread[..k]);
  }

  /** The rows reached 8192: a chunk. */
  lemma ChunkReached(held: seq<seq<Text>>, cache: seq<seq<Text>>, unread: seq<seq<Text>>)
    requires |held| < 8192 && |held| + |cache| == 8192
    ensures StillWritten(held, cache + unread) == [held + cache] + StillWritten([], unread)
  {
    NextChunk(held, cache + unread, |cache|);
    Sequences.TakeDrop(cache, unread);
    FromTheStart(unread);
  }

  /** The rows ended before the cache was full: the last chunk. */
  lemma EndReached(held: seq<seq<Text>>, cache: seq<seq<Text>>)
    requires cache != [] && |held| + |cache| < 8192 && FilledInTurn(cache) && !CacheFull(cache)
    ensures StillWritten(held, cache + []) == [held + cache] + StillWritten([], [])
  {
    assert cache + [] == cache && cache[..|cache|] == cache;
    FillReaches(cache, [], 0);
    assert [held + cache] + [] == [held + cache];
  }
}
