/**
 RLECodec (src/column/Codec.h) on integer columns: runs of equal values are stored as an 8-byte count and the value's
 fixed-width bytes.
 */
module Rle {
  import opened Values
  import Bytes
  import Sequences

  datatype Run = Run(count: nat, value: int)

  // ----- runs -----

  function Copies(n: nat, v: int): (s: seq<int>)
    ensures |s| == n && forall i :: 0 <= i < n ==> s[i] == v
  {
    seq(n, _ => v)
  }

  function CopyParts(runs: seq<Run>): (r: seq<seq<int>>)
    ensures |r| == |runs|
  {
    seq(|runs|, k requires 0 <= k < |runs| => Copies(runs[k].count, runs[k].value))
  }

  function Expand(runs: seq<Run>): seq<int> {
    Sequences.Concat(CopyParts(runs))
  }

  function Total(runs: seq<Run>): nat {
    if runs == [] then 0 else Total(runs[..|runs| - 1]) + runs[|runs| - 1].count
  }

  /** Counts are positive and neighbouring runs have different values: no shorter list of runs expands to the same. */
  ghost predicate Maximal(runs: seq<Run>) {
    && (forall k :: 0 <= k < |runs| ==> runs[k].count > 0)
    && forall k :: 0 < k < |runs| ==> runs[k - 1].value != runs[k].value
  }

  lemma {:induction false} ExpandLength(runs: seq<Run>)
    ensures |Expand(runs)| == Total(runs)
  {
    if runs != [] {
      ExpandLength(runs[..|runs| - 1]);
      assert CopyParts(runs)[..|runs| - 1] == CopyParts(runs[..|runs| - 1]);
    }
  }

  /** A run of the value `v` in the given width. */
  ghost predicate Storable(r: Run, w: nat) {
    r.count < Bytes.Pow256(8) && -Bytes.Pow256(w) <= 2 * r.value < Bytes.Pow256(w)
  }

  // ----- bytes -----

  function RunBytes(r: Run, w: nat): (s: seq<Byte>)
    ensures |s| == 8 + w
  {
    Bytes.Encode(r.count, 8) + Bytes.EncodeSigned(r.value, w)
  }

  function ByteParts(runs: seq<Run>, w: nat): (r: seq<seq<Byte>>)
    ensures |r| == |runs|
  {
    seq(|runs|, k requires 0 <= k < |runs| => RunBytes(runs[k], w))
  }

  function AllBytes(runs: seq<Run>, w: nat): seq<Byte> {
    Sequences.Concat(ByteParts(runs, w))
  }

  lemma AllBytesSnoc(runs: seq<Run>, r: Run, w: nat)
    ensures AllBytes(runs + [r], w) == AllBytes(runs, w) + RunBytes(r, w)
  {
    assert ByteParts(runs + [r], w) == ByteParts(runs, w) + [RunBytes(r, w)];
    Sequences.ConcatSnoc(ByteParts(runs, w), RunBytes(r, w));
  }

  lemma ExpandSnoc(runs: seq<Run>, r: Run)
    ensures Expand(runs + [r]) == Expand(runs) + Copies(r.count, r.value)
  {
    assert CopyParts(runs + [r]) == CopyParts(runs) + [Copies(r.count, r.value)];
    Sequences.ConcatSnoc(CopyParts(runs), Copies(r.count, r.value));
  }

  lemma LongerRun(done: seq<int>, count: nat, v: int)
    ensures done + Copies(count, v) + [v] == done + Copies(count + 1, v)
  {
    assert Copies(count + 1, v) == Copies(count, v) + [v];
    Sequences.Regroup(done, Copies(count, v), [v]);
  }

  /** AppendEncoded: the count, then the value. */
  method AppendEncoded(result: seq<Byte>, count: nat, value: int, w: nat, ghost runs: seq<Run>)
    returns (r: seq<Byte>, ghost runs': seq<Run>)
    requires result == AllBytes(runs, w)
    ensures runs' == runs + [Run(count, value)] && r == AllBytes(runs', w)
    ensures Expand(runs') == Expand(runs) + Copies(count, value)
  {
    r := result + (Bytes.Encode(count, 8) + Bytes.EncodeSigned(value, w));
    runs' := runs + [Run(count, value)];
    AllBytesSnoc(runs, Run(count, value), w);
    ExpandSnoc(runs, Run(count, value));
  }

  /** The encoder after `seen`: the runs written, and the run that is still growing. */
  ghost predicate Encoding(count: nat, current: int, result: seq<Byte>, w: nat, runs: seq<Run>, seen: seq<int>) {
    && count >= 1 && result == AllBytes(runs, w) && Maximal(runs)
    && (runs != [] ==> runs[|runs| - 1].value != current)
    && Expand(runs) + Copies(count, current) == seen
  }

  method EncodeNext(x: int, count: nat, current: int, result: seq<Byte>, w: nat, ghost runs: seq<Run>, ghost seen: seq<int>)
    returns (count': nat, current': int, result': seq<Byte>, ghost runs': seq<Run>)
    requires Encoding(count, current, result, w, runs, seen)
    ensures Encoding(count', current', result', w, runs', seen + [x])
  {
    count', current', result', runs' := count, current, result, runs;
    if x == current {
      LongerRun(Expand(runs), count, current);
      count' := count + 1;
    } else {
      result', runs' := AppendEncoded(result, count, current, w, runs);
      current' := x;
      count' := 1;
      RunStarts(runs, runs', count, current, x, seen);
    }
  }

  /** A run is complete, and its value is not that of the next. */
  lemma RunStarts(runs: seq<Run>, runs': seq<Run>, count: nat, current: int, x: int, seen: seq<int>)
    requires count >= 1 && x != current && Maximal(runs) && (runs != [] ==> runs[|runs| - 1].value != current)
    requires runs' == runs + [Run(count, current)] && Expand(runs') == Expand(runs) + Copies(count, current) == seen
    ensures Maximal(runs') && runs'[|runs'| - 1].value != x && Expand(runs') + Copies(1, x) == seen + [x]
  {
    FirstOfRun(Expand(runs'), x);
  }

  /** Encode, with the runs it writes: they are maximal and expand to the input. */
  method Encode(data: seq<int>, w: nat) returns (result: seq<Byte>, ghost runs: seq<Run>)
    ensures result == AllBytes(runs, w) && Expand(runs) == data && Maximal(runs) && Total(runs) == |data|
  {
    result, runs := [], [];
    if data == [] {
      return;
    }
    var count, current := 1, data[0];
    StartOfData(data);
    for i := 1 to |data|
      invariant Encoding(count, current, result, w, runs, data[..i])
    {
      assert data[..i + 1] == data[..i] + [data[i]];
      count, current, result, runs := EncodeNext(data[i], count, current, result, w, runs, data[..i]);
    }
    assert data[..|data|] == data;
    result, runs := EncodeLast(count, current, result, w, runs, data);
  }

  /** The run that is still growing at the end. */
  method EncodeLast(count: nat, current: int, result: seq<Byte>, w: nat, ghost runs: seq<Run>, ghost data: seq<int>)
    returns (result': seq<Byte>, ghost runs': seq<Run>)
    requires Encoding(count, current, result, w, runs, data)
    ensures result' == AllBytes(runs', w) && Expand(runs') == data && Maximal(runs') && Total(runs') == |data|
  {
    result', runs' := AppendEncoded(result, count, current, w, runs);
    ExpandLength(runs');
  }

  lemma StartOfData(data: seq<int>)
    requires data != []
    ensures Expand([]) + Copies(1, data[0]) == data[..1]
  {
  }

  lemma FirstOfRun(done: seq<int>, v: int)
    ensures done + Copies(1, v) == done + [v]
  {
    assert Copies(1, v) == [v];
  }

  /** The value of a run occurs in the expansion. */
  lemma {:induction false} RunValueIn(runs: seq<Run>, k: nat)
    requires k < |runs| && runs[k].count > 0
    ensures runs[k].value in Expand(runs)
    decreases |runs|
  {
    var n := |runs| - 1;
    assert runs == runs[..n] + [runs[n]];
    ExpandSnoc(runs[..n], runs[n]);
    if k < n {
      RunValueIn(runs[..n], k);
    } else {
      assert Copies(runs[n].count, runs[n].value)[0] == runs[n].value;
    }
  }

  // ----- decoding -----

  /** One stored run at the front of the buffer. */
  lemma FirstRun(runs: seq<Run>, w: nat)
    requires runs != [] && Storable(runs[0], w)
    ensures |AllBytes(runs, w)| >= 8 + w
    ensures Bytes.Decode(AllBytes(runs, w)[..8]) == runs[0].count
    ensures Bytes.DecodeSigned(AllBytes(runs, w)[8..8 + w]) == runs[0].value
    ensures AllBytes(runs, w)[8 + w..] == AllBytes(runs[1..], w)
  {
    BytesFront(runs, w);
    var r, a, b := runs[0], Bytes.Encode(runs[0].count, 8), Bytes.EncodeSigned(runs[0].value, w);
    var all, rest := AllBytes(runs, w), AllBytes(runs[1..], w);
    assert all == a + b + rest;
    assert all[..8] == a && all[8..8 + w] == b && all[8 + w..] == rest;
    Bytes.DecodeEncode(r.count, 8);
    Bytes.SignedRoundTrip(r.value, w);
  }

  lemma BytesFront(runs: seq<Run>, w: nat)
    requires runs != []
    ensures AllBytes(runs, w) == RunBytes(runs[0], w) + AllBytes(runs[1..], w)
  {
    Sequences.ConcatFront(ByteParts(runs, w));
    assert ByteParts(runs, w)[1..] == ByteParts(runs[1..], w);
  }

  lemma ExpandFront(runs: seq<Run>)
    requires runs != []
    ensures Expand(runs) == Copies(runs[0].count, runs[0].value) + Expand(runs[1..])
  {
    Sequences.ConcatFront(CopyParts(runs));
    assert CopyParts(runs)[1..] == CopyParts(runs[1..]);
  }

  /** One turn of Decode's loop: two memcpys at the offset. */
  method ReadRun(encoded: seq<Byte>, start: nat, w: nat, ghost left: seq<Run>) returns (count: nat, value: int, offset: nat)
    requires start < |encoded| && encoded[start..] == AllBytes(left, w) && forall k :: 0 <= k < |left| ==> Storable(left[k], w)
    ensures left != [] && Run(count, value) == left[0]
    ensures start < offset <= |encoded| && encoded[offset..] == AllBytes(left[1..], w)
  {
    FirstRun(left, w);
    ghost var at := encoded[start..];
    offset := start;
    assert encoded[offset..offset + 8] == at[..8];
    count := Bytes.Decode(encoded[offset..offset + 8]);
    offset := offset + 8;
    assert encoded[offset..offset + w] == at[8..8 + w];
    value := Bytes.DecodeSigned(encoded[offset..offset + w]);
    offset := offset + w;
    assert encoded[offset..] == at[8 + w..];
  }

  /** Decode of a buffer of stored runs: their expansion, reading the buffer to its very end. */
  method Decode(encoded: seq<Byte>, w: nat, ghost runs: seq<Run>) returns (result: seq<int>, offset: nat)
    requires encoded == AllBytes(runs, w) && forall k :: 0 <= k < |runs| ==> Storable(runs[k], w)
    ensures result == Expand(runs) && offset == |encoded|
  {
    result, offset := [], 0;
    ghost var left := runs;
    while offset < |encoded|
      invariant offset <= |encoded| && encoded[offset..] == AllBytes(left, w)
      invariant forall k :: 0 <= k < |left| ==> Storable(left[k], w)
      invariant result + Expand(left) == Expand(runs)
    {
      var count, value;
      count, value, offset := ReadRun(encoded, offset, w, left);
      ExpandFront(left);
      result := result + Copies(count, value);
      left := left[1..];
    }
    if left != [] {
      BytesFront(left, w);
    }
  }

  /** Decode(Encode(xs)) == xs for every column of w-byte integers of a length that size_t can count. */
  method RoundTrip(data: seq<int>, w: nat) returns (decoded: seq<int>)
    requires |data| < TWO_64 && forall i :: 0 <= i < |data| ==> -Bytes.Pow256(w) <= 2 * data[i] < Bytes.Pow256(w)
    ensures decoded == data
  {
    var bytes;
    ghost var runs;
    bytes, runs := Encode(data, w);
    RunsStorable(runs, data, w);
    var offset;
    decoded, offset := Decode(bytes, w, runs);
  }

  lemma {:induction false} CountAtMostTotal(runs: seq<Run>, k: nat)
    requires k < |runs|
    ensures runs[k].count <= Total(runs)
  {
    if k < |runs| - 1 {
      CountAtMostTotal(runs[..|runs| - 1], k);
    }
  }

  lemma RunsStorable(runs: seq<Run>, data: seq<int>, w: nat)
    requires Total(runs) == |data| < TWO_64
    requires forall i :: 0 <= i < |data| ==> -Bytes.Pow256(w) <= 2 * data[i] < Bytes.Pow256(w)
    requires Maximal(runs) && Expand(runs) == data
    ensures forall k :: 0 <= k < |runs| ==> Storable(runs[k], w)
  {
    Bytes.Widths();
    forall k | 0 <= k < |runs| ensures Storable(runs[k], w) {
      CountAtMostTotal(runs, k);
      RunValueIn(runs, k);
    }
  }

  /** Three sevens and a nine in four-byte numbers: count and value of each run, lowest bytes first. */
  lemma SampleRuns()
    ensures AllBytes([Run(3, 7), Run(1, 9)], 4)
         == [3, 0, 0, 0, 0, 0, 0, 0] + [7, 0, 0, 0] + ([1, 0, 0, 0, 0, 0, 0, 0] + [9, 0, 0, 0])
    ensures Expand([Run(3, 7), Run(1, 9)]) == [7, 7, 7, 9]
  {
    Bytes.EightBytes(3);
    Bytes.EightBytes(1);
    Bytes.FourBytes(7);
    Bytes.FourBytes(9);
    assert [] + [Run(3, 7)] == [Run(3, 7)] && [Run(3, 7)] + [Run(1, 9)] == [Run(3, 7), Run(1, 9)];
    AllBytesSnoc([], Run(3, 7), 4);
    AllBytesSnoc([Run(3, 7)], Run(1, 9), 4);
    ExpandSnoc([], Run(3, 7));
    ExpandSnoc([Run(3, 7)], Run(1, 9));
    assert AllBytes([], 4) == [] && Expand([]) == [];
    assert Copies(3, 7) == [7, 7, 7] && Copies(1, 9) == [9];
  }
}
