/**
 The rows a finished pipeline run has sunk, for any kind of batch that can be viewed as a list of rows.
 Batches stay abstract: `view` lists the rows of a batch, `good` says which batches it makes sense for.
 */
module PipelineRows {
  import opened Wrappers
  import opened Pipelines
  import Sequences

  datatype Lens<!B, !R> = Lens(view: B -> seq<R>, good: B -> bool)

  ghost predicate AllGood<B, R>(v: Lens<B, R>, bs: seq<B>) {
    forall i :: 0 <= i < |bs| ==> v.good(bs[i])
  }

  ghost function Flatten<B, R>(v: Lens<B, R>, bs: seq<B>): seq<R> {
    if bs == [] then [] else Flatten(v, bs[..|bs| - 1]) + v.view(bs[|bs| - 1])
  }

  lemma FlattenSnoc<B, R>(v: Lens<B, R>, bs: seq<B>, b: B)
    ensures Flatten(v, bs + [b]) == Flatten(v, bs) + v.view(b)
  {
    assert (bs + [b])[..|bs|] == bs;
  }

  lemma {:induction false} FlattenRemove<B, R>(v: Lens<B, R>, bs: seq<B>, j: nat)
    requires j < |bs|
    ensures multiset(Flatten(v, bs)) == multiset(Flatten(v, bs[..j] + bs[j + 1..])) + multiset(v.view(bs[j]))
    decreases |bs|
  {
    var n := |bs| - 1;
    var rest := bs[..j] + bs[j + 1..];
    if j == n {
      assert rest == bs[..n];
    } else {
      FlattenRemove(v, bs[..n], j);
      assert rest == (bs[..n][..j] + bs[..n][j + 1..]) + [bs[n]];
      FlattenSnoc(v, bs[..n][..j] + bs[..n][j + 1..], bs[n]);
    }
  }

  /** Lists with the same bag of batches have the same bag of rows. */
  lemma {:induction false} SameBatchesSameRows<B, R>(v: Lens<B, R>, xs: seq<B>, ys: seq<B>)
    requires multiset(xs) <= multiset(ys)
    ensures multiset(Flatten(v, xs)) <= multiset(Flatten(v, ys))
    ensures multiset(xs) == multiset(ys) ==> multiset(Flatten(v, xs)) == multiset(Flatten(v, ys))
    decreases |xs|
  {
    if xs == [] {
      if ys != [] { assert ys[0] in multiset(ys); }
    } else {
      var n := |xs| - 1;
      var j := Sequences.DropLastFromBoth(xs, ys);
      FlattenRemove(v, ys, j);
      SameBatchesSameRows(v, xs[..n], ys[..j] + ys[j + 1..]);
    }
  }

  lemma SubsetGood<B, R>(v: Lens<B, R>, xs: seq<B>, ys: seq<B>)
    requires AllGood(v, ys) && multiset(xs) <= multiset(ys)
    ensures AllGood(v, xs)
  {
    forall i | 0 <= i < |xs| ensures v.good(xs[i]) {
      var j := Sequences.Locate(xs, ys, xs[i]);
    }
  }

  /** The configuration counts and cuts rows as the lens shows them. */
  ghost predicate Faithful<B(!new), R>(c: Config<B>, v: Lens<B, R>) {
    && (forall b: B {:trigger v.good(b)} :: v.good(b) ==> |v.view(b)| == c.rows(b))
    && (forall b: B, n: nat {:trigger c.clip(b, n)} :: v.good(b) && n <= c.rows(b) ==>
          v.good(c.clip(b, n)) && v.view(c.clip(b, n)) == v.view(b)[..n])
  }

  function Take<T>(rs: seq<T>, limit: Option<nat>): (out: seq<T>)
    ensures out <= rs
  {
    if limit.Some? && limit.value < |rs| then rs[..limit.value] else rs
  }

  lemma {:induction false} TotalRowsIsLength<B(!new), R>(c: Config<B>, v: Lens<B, R>, bs: seq<B>)
    requires Faithful(c, v) && AllGood(v, bs)
    ensures TotalRows(c, bs) == |Flatten(v, bs)|
    decreases |bs|
  {
    if bs != [] {
      TotalRowsIsLength(c, v, bs[..|bs| - 1]);
      assert v.good(bs[|bs| - 1]);
    }
  }

  /** The pieces passed on are, in counting order, the first `limit` rows that arrived. */
  lemma {:induction false} PiecesAreAPrefix<B(!new), R>(c: Config<B>, v: Lens<B, R>, bs: seq<B>)
    requires Faithful(c, v) && AllGood(v, bs)
    ensures AllGood(v, Pieces(c, bs))
    ensures Flatten(v, Pieces(c, bs)) == Take(Flatten(v, bs), LimitOf(c))
    decreases |bs|
  {
    if EndsInLimit(c) && bs != [] {
      var front, b := bs[..|bs| - 1], bs[|bs| - 1];
      assert bs == front + [b];
      PiecesAreAPrefix(c, v, front);
      PiecesSnoc(c, front, b);
      TotalRowsIsLength(c, v, front);
      PrefixGrows(c, v, Pieces(c, front), b, Flatten(v, front));
    }
  }

  lemma PrefixGrows<B(!new), R>(c: Config<B>, v: Lens<B, R>, pieces: seq<B>, b: B, rows: seq<R>)
    requires Faithful(c, v) && AllGood(v, pieces) && v.good(b) && EndsInLimit(c)
    requires Flatten(v, pieces) == Take(rows, LimitOf(c))
    ensures var more := Listed(Piece(c, b, |rows|, LimitOf(c).value));
            && AllGood(v, pieces + more)
            && Flatten(v, pieces + more) == Take(rows + v.view(b), LimitOf(c))
  {
    var n := LimitOf(c).value;
    var piece := Piece(c, b, |rows|, n);
    if piece.Some? {
      FlattenSnoc(v, pieces, piece.value);
    } else {
      assert pieces + Listed(piece) == pieces;
    }
  }

  /**
   What the stages make of one batch, followed row by row: `trace[k]` are the rows that should stand before
   stage k, and `fit(k, b)` says which batches may stand there.
   */
  ghost predicate Follows<B(!new), R>(c: Config<B>, view: B -> seq<R>, fit: (nat, B) -> bool, trace: seq<seq<R>>) {
    && |trace| == Arrival(c) + 1
    && (forall k, b {:trigger fit(k, b)} :: fit(k, b) ==> |view(b)| == c.rows(b))
    && (forall k :: 0 <= k < Arrival(c) ==> c.stages[k].Work? && (trace[k] == [] ==> trace[k + 1] == []))
    && (forall k: nat, b {:trigger fit(k, b)} :: k < Arrival(c) && fit(k, b) && view(b) == trace[k] ==>
          Carries(view, fit, k + 1, c.stages[k].effect(b), trace[k + 1]))
  }

  ghost predicate Carries<B, R>(view: B -> seq<R>, fit: (nat, B) -> bool, k: nat, o: Outcome<B>, rows: seq<R>) {
    match o
    case Fault => false
    case Null => rows == []
    case Out(r) => fit(k, r) && view(r) == rows
  }

  lemma {:induction false} ThroughFollows<B(!new), R>(c: Config<B>, view: B -> seq<R>, fit: (nat, B) -> bool,
                                                      trace: seq<seq<R>>, b: B, k: nat)
    requires Follows(c, view, fit, trace) && k <= Arrival(c) && fit(k, b) && view(b) == trace[k]
    ensures Safe(c, b, k)
    ensures match Through(c, b, k)
            case None => trace[Arrival(c)] == []
            case Some(r) => fit(Arrival(c), r) && view(r) == trace[Arrival(c)]
    decreases Arrival(c) - k
  {
    if k < Arrival(c) {
      var o := c.stages[k].effect(b);
      assert Carries(view, fit, k + 1, o, trace[k + 1]);
      if o.Out? && c.rows(o.batch) > 0 {
        ThroughFollows(c, view, fit, trace, o.batch, k + 1);
      } else {
        EmptyTrace(c, view, fit, trace, k + 1);
      }
    }
  }

  lemma {:induction false} EmptyTrace<B(!new), R>(c: Config<B>, view: B -> seq<R>, fit: (nat, B) -> bool,
                                                  trace: seq<seq<R>>, k: nat)
    requires Follows(c, view, fit, trace) && k <= Arrival(c) && trace[k] == []
    ensures trace[Arrival(c)] == []
    decreases Arrival(c) - k
  {
    if k < Arrival(c) {
      EmptyTrace(c, view, fit, trace, k + 1);
    }
  }

  /** `left[i]` are the rows that batch i of the source leaves at the arrival stage. */
  ghost predicate Leaves<B, R>(c: Config<B>, v: Lens<B, R>, left: seq<seq<R>>) {
    && |left| == |c.supply|
    && forall i :: 0 <= i < |c.supply| ==>
         match Through(c, c.supply[i], 0)
         case None => left[i] == []
         case Some(r) => v.good(r) && v.view(r) == left[i]
  }

  lemma {:induction false} SurvivorRows<B, R>(c: Config<B>, v: Lens<B, R>, left: seq<seq<R>>, j: nat)
    requires Leaves(c, v, left) && j <= |c.supply|
    ensures AllGood(v, Survivors(c, j)) && Flatten(v, Survivors(c, j)) == Sequences.Concat(left[..j])
    decreases j
  {
    if j > 0 {
      SurvivorRows(c, v, left, j - 1);
      Sequences.ConcatPrefixSnoc(left, j - 1);
      MoreSurvivors(v, Survivors(c, j - 1), Through(c, c.supply[j - 1], 0), left[j - 1]);
    }
  }

  lemma MoreSurvivors<B, R>(v: Lens<B, R>, bs: seq<B>, o: Option<B>, rows: seq<R>)
    requires AllGood(v, bs) && (if o.Some? then v.good(o.value) && v.view(o.value) == rows else rows == [])
    ensures AllGood(v, bs + Listed(o)) && Flatten(v, bs + Listed(o)) == Flatten(v, bs) + rows
  {
    if o.Some? {
      FlattenSnoc(v, bs, o.value);
    } else {
      Sequences.Empties(bs);
      Sequences.Empties(Flatten(v, bs));
    }
  }

  /**
   Whatever the interleaving, the rows sunk are the first `limit` of some ordering of all the rows the source
   leaves; with a single source batch, in that batch's own order.
   */
  lemma RunRows<B(!new), R>(c: Config<B>, v: Lens<B, R>, left: seq<seq<R>>, s: State<B>, n: nat) returns (order: seq<R>)
    requires GoodConfig(c) && Faithful(c, v) && Leaves(c, v, left) && c.threads > 0
    requires Reaches(c, s, n) && s.finalized
    ensures AllGood(v, SunkBatches(s.sunk))
    ensures multiset(order) == multiset(Sequences.Concat(left))
    ensures multiset(Flatten(v, SunkBatches(s.sunk))) == multiset(Take(order, LimitOf(c)))
    ensures |c.supply| <= 1 ==> order == Sequences.Concat(left) && Flatten(v, SunkBatches(s.sunk)) == Take(order, LimitOf(c))
  {
    FinishedRun(c, s, n);
    SurvivorRows(c, v, left, |c.supply|);
    assert left[..|c.supply|] == left;
    var survivors := Survivors(c, |c.supply|);
    SubsetGood(v, s.arrived, survivors);
    PiecesAreAPrefix(c, v, s.arrived);
    SubsetGood(v, SunkBatches(s.sunk), Pieces(c, s.arrived));
    SameBatchesSameRows(v, SunkBatches(s.sunk), Pieces(c, s.arrived));
    TotalRowsIsLength(c, v, s.arrived);
    if |c.supply| <= 1 {
      order := Sequences.Concat(left);
      SingleArrival(c, v, s, survivors);
    } else {
      order := ArrivalOrder(c, v, s, survivors);
    }
  }

  /** The arrived rows, followed by those LIMIT made unnecessary. */
  lemma ArrivalOrder<B, R>(c: Config<B>, v: Lens<B, R>, s: State<B>, survivors: seq<B>) returns (order: seq<R>)
    requires multiset(s.arrived) <= multiset(survivors)
    requires Covered(c, s) || multiset(s.arrived) == multiset(survivors)
    requires TotalRows(c, s.arrived) == |Flatten(v, s.arrived)|
    ensures multiset(order) == multiset(Flatten(v, survivors))
    ensures Take(order, LimitOf(c)) == Take(Flatten(v, s.arrived), LimitOf(c))
  {
    SameBatchesSameRows(v, s.arrived, survivors);
    if multiset(s.arrived) == multiset(survivors) {
      order := Flatten(v, s.arrived);
    } else {
      var rest := Sequences.Remainder(Flatten(v, s.arrived), Flatten(v, survivors));
      order := Flatten(v, s.arrived) + rest;
    }
  }

  lemma AtMostOnePiece<B>(c: Config<B>, bs: seq<B>)
    requires |bs| <= 1
    ensures |Pieces(c, bs)| <= 1
  {
    if |bs| == 1 {
      PiecesSnoc(c, [], bs[0]);
      assert [] + [bs[0]] == bs;
    }
  }

  lemma AtMostOneSurvivor<B>(c: Config<B>)
    requires |c.supply| <= 1
    ensures |Survivors(c, |c.supply|)| <= 1
  {
    if |c.supply| == 1 {
      assert Survivors(c, 1) == Survivors(c, 0) + Listed(Through(c, c.supply[0], 0));
    }
  }

  /** With one source batch there is at most one delivery, so the rows keep the batch's order. */
  lemma SingleArrival<B(!new), R>(c: Config<B>, v: Lens<B, R>, s: State<B>, survivors: seq<B>)
    requires |c.supply| <= 1 && survivors == Survivors(c, |c.supply|) && multiset(s.arrived) <= multiset(survivors)
    requires Covered(c, s) || multiset(s.arrived) == multiset(survivors)
    requires multiset(SunkBatches(s.sunk)) == multiset(Pieces(c, s.arrived))
    requires Flatten(v, Pieces(c, s.arrived)) == Take(Flatten(v, s.arrived), LimitOf(c))
    ensures Flatten(v, SunkBatches(s.sunk)) == Take(Flatten(v, survivors), LimitOf(c))
  {
    AtMostOneSurvivor(c);
    OneOrNone(s.arrived, survivors);
    AtMostOnePiece(c, s.arrived);
    SameSmallBag(SunkBatches(s.sunk), Pieces(c, s.arrived));
    if s.arrived != survivors {
      NothingArrived(c, v, s, survivors);
    }
  }

  lemma OneOrNone<T>(some: seq<T>, all: seq<T>)
    requires |all| <= 1 && multiset(some) <= multiset(all)
    ensures some == all || (some == [] && multiset(some) != multiset(all))
  {
    Sequences.SmallBags(some, all);
    if some == [] && all != [] {
      assert all[0] in multiset(all);
    }
  }

  /** A limit that nothing has to arrive for. */
  lemma NothingArrived<B(!new), R>(c: Config<B>, v: Lens<B, R>, s: State<B>, survivors: seq<B>)
    requires s.arrived == [] && Covered(c, s)
    ensures Take(Flatten(v, s.arrived), LimitOf(c)) == Take(Flatten(v, survivors), LimitOf(c))
  {
  }

  lemma SameSmallBag<T>(a: seq<T>, b: seq<T>)
    requires multiset(a) == multiset(b) && |b| <= 1
    ensures a == b
  {
    Sequences.SameBagSameLength(a, b);
    Sequences.SmallBags(a, b);
  }
}
