/**
 Hash grouping on abstract rows and keys: numbering keys in order of first occurrence, and spreading rows over
 the numbered groups.
 */
module Groupings {
  import Sequences

  /** The table numbers exactly the listed keys, each by its place in the list. */
  ghost predicate Numbered<K>(table: map<K, nat>, ks: seq<K>) {
    && (forall g :: 0 <= g < |ks| ==> ks[g] in table && table[ks[g]] == g)
    && (forall k :: k in table ==> table[k] < |ks| && ks[table[k]] == k)
  }

  ghost predicate Distinct<K>(ks: seq<K>) {
    forall i, j :: 0 <= i < j < |ks| ==> ks[i] != ks[j]
  }

  lemma NumberedDistinct<K>(table: map<K, nat>, ks: seq<K>)
    requires Numbered(table, ks)
    ensures Distinct(ks)
  {
    forall i, j | 0 <= i < j < |ks| ensures ks[i] != ks[j] {
      assert table[ks[i]] == i && table[ks[j]] == j;
    }
  }

  /** Group g is non-empty and all its rows have the g-th key; no two groups share a key. */
  ghost predicate Grouped<R, K>(key: R -> K, ks: seq<K>, groups: seq<seq<R>>) {
    && |groups| == |ks| && Distinct(ks)
    && forall g :: 0 <= g < |groups| ==> groups[g] != [] && AllKeyed(key, ks[g], groups[g])
  }

  ghost predicate AllKeyed<R, K>(key: R -> K, k: K, rows: seq<R>) {
    forall i :: 0 <= i < |rows| ==> key(rows[i]) == k
  }

  // ----- numbering keys -----

  /**
   The loop of GroupBySinkSourceOperator::Sink: a key seen for the first time gets the next group id and its row
   number is remembered.  `ks` are the keys numbered before, `ks'` afterwards.
   */
  method AssignGroups<K(==)>(keys: seq<K>, ix: seq<nat>, table: map<K, nat>, numGroups: nat, ghost ks: seq<K>)
    returns (table': map<K, nat>, numGroups': nat, gids: seq<nat>, newIx: seq<nat>, ghost firsts: seq<nat>, ghost ks': seq<K>)
    requires Numbered(table, ks) && |ks| == numGroups && |ix| == |keys|
    requires numGroups + |keys| <= 0x1_0000_0000
    ensures ks <= ks' && Numbered(table', ks') && |ks'| == numGroups' == numGroups + |newIx|
    ensures |gids| == |keys| && forall i :: 0 <= i < |gids| ==> gids[i] < |ks'| && ks'[gids[i]] == keys[i]
    ensures |firsts| == |newIx|
    ensures forall j :: 0 <= j < |firsts| ==>
              firsts[j] < |keys| && newIx[j] == ix[firsts[j]] && gids[firsts[j]] == numGroups + j
  {
    table', numGroups', gids, newIx, firsts, ks' := table, numGroups, [], [], [], ks;
    for i := 0 to |keys|
      invariant ks <= ks' && Numbered(table', ks') && |ks'| == numGroups' == numGroups + |newIx|
      invariant |newIx| <= i
      invariant |gids| == i && forall m :: 0 <= m < i ==> gids[m] < |ks'| && ks'[gids[m]] == keys[m]
      invariant |firsts| == |newIx|
      invariant forall j :: 0 <= j < |firsts| ==>
                  firsts[j] < i && newIx[j] == ix[firsts[j]] && gids[firsts[j]] == numGroups + j
    {
      var key := keys[i];
      var gid: nat;
      if key !in table' {
        gid := numGroups' % 0x1_0000_0000;
        assert gid == numGroups';
        numGroups' := numGroups' + 1;
        table' := table'[key := gid];
        newIx := newIx + [ix[i]];
        firsts := firsts + [i];
        ks' := ks' + [key];
      } else {
        gid := table'[key];
      }
      gids := gids + [gid];
    }
  }

  lemma NumberedSnoc<K>(table: map<K, nat>, ks: seq<K>, k: K)
    requires Numbered(table, ks) && k !in table
    ensures Numbered(table[k := |ks|], ks + [k])
    ensures forall g :: 0 <= g < |ks| ==> ks[g] != k
  {
    forall g | 0 <= g < |ks| ensures ks[g] != k {
      assert ks[g] in table;
    }
  }

  // ----- encoded keys -----

  ghost function Mapped<A, B>(f: A -> B, s: seq<A>): (r: seq<B>)
    ensures |r| == |s| && forall i :: 0 <= i < |r| ==> r[i] == f(s[i])
  {
    seq(|s|, i requires 0 <= i < |s| => f(s[i]))
  }

  lemma MappedSnoc<A, B>(f: A -> B, s: seq<A>, x: A)
    ensures Mapped(f, s + [x]) == Mapped(f, s) + [f(x)]
  {
  }

  ghost function Opened<V>(vals: seq<V>, firsts: seq<nat>): (r: seq<V>)
    requires forall j :: 0 <= j < |firsts| ==> firsts[j] < |vals|
    ensures |r| == |firsts| && forall j :: 0 <= j < |r| ==> r[j] == vals[firsts[j]]
  {
    seq(|firsts|, j requires 0 <= j < |firsts| => vals[firsts[j]])
  }

  /** The codes numbered after a batch are those of the old keys and of the rows that opened a group. */
  lemma OpenedCodes<V, B>(f: V -> B, ks: seq<V>, vals: seq<V>, firsts: seq<nat>, codes: seq<B>)
    requires Mapped(f, ks) <= codes && |codes| == |ks| + |firsts|
    requires forall j :: 0 <= j < |firsts| ==> firsts[j] < |vals| && codes[|ks| + j] == f(vals[firsts[j]])
    ensures Mapped(f, ks + Opened(vals, firsts)) == codes
  {
    var all := ks + Opened(vals, firsts);
    forall g | 0 <= g < |all| ensures f(all[g]) == codes[g] {
      if g < |ks| {
        assert Mapped(f, ks)[g] == codes[g];
      } else {
        assert codes[|ks| + (g - |ks|)] == codes[g];
      }
    }
  }

  /** The table numbers the codes of the listed keys, all of which are proper keys. */
  ghost predicate Coded<V, B>(enc: V -> B, ok: V -> bool, table: map<B, nat>, ks: seq<V>) {
    (forall g :: 0 <= g < |ks| ==> ok(ks[g])) && Numbered(table, Mapped(enc, ks))
  }

  /** Proper keys with the same code are the same. */
  ghost predicate Injective<V(!new), B>(enc: V -> B, ok: V -> bool) {
    forall a, b {:trigger enc(a), enc(b)} :: ok(a) && ok(b) && enc(a) == enc(b) ==> a == b
  }

  lemma CodedDistinct<V, B>(enc: V -> B, ok: V -> bool, table: map<B, nat>, ks: seq<V>)
    requires Coded(enc, ok, table, ks)
    ensures Distinct(ks)
  {
    NumberedDistinct(table, Mapped(enc, ks));
    forall i, j | 0 <= i < j < |ks| ensures ks[i] != ks[j] {
      assert Mapped(enc, ks)[i] != Mapped(enc, ks)[j];
    }
  }

  lemma CodesMatch<V(!new), B>(enc: V -> B, ok: V -> bool, ks: seq<V>, vals: seq<V>, gids: seq<nat>)
    requires Injective(enc, ok) && |gids| == |vals|
    requires forall g :: 0 <= g < |ks| ==> ok(ks[g])
    requires forall i :: 0 <= i < |gids| ==> ok(vals[i]) && gids[i] < |ks| && Mapped(enc, ks)[gids[i]] == enc(vals[i])
    ensures forall i :: 0 <= i < |gids| ==> vals[i] == ks[gids[i]]
  {
  }

  /** Group ids for keys given as codes; `vals` are the keys behind them. */
  method NumberKeys<V(!new), B(==)>(ghost enc: V -> B, ghost ok: V -> bool, table: map<B, nat>, n: nat, codes: seq<B>,
                                    physical: seq<nat>, ghost ks: seq<V>, ghost vals: seq<V>)
    returns (table': map<B, nat>, n': nat, gids: seq<nat>, ix: seq<nat>, ghost firsts: seq<nat>)
    requires Injective(enc, ok) && Coded(enc, ok, table, ks) && |ks| == n
    requires n + |codes| <= 0x1_0000_0000 && |physical| == |codes|
    requires codes == Mapped(enc, vals) && forall i :: 0 <= i < |vals| ==> ok(vals[i])
    ensures |ix| == |firsts| && n' == n + |ix|
    ensures forall j :: 0 <= j < |ix| ==> firsts[j] < |vals| && ix[j] == physical[firsts[j]]
    ensures Coded(enc, ok, table', ks + Opened(vals, firsts))
    ensures |gids| == |vals|
    ensures forall i :: 0 <= i < |gids| ==> gids[i] < n' && vals[i] == (ks + Opened(vals, firsts))[gids[i]]
    ensures forall j :: 0 <= j < |firsts| ==> gids[firsts[j]] == n + j
  {
    ghost var codes' := [];
    table', n', gids, ix, firsts, codes' := AssignGroups(codes, physical, table, n, Mapped(enc, ks));
    OpenedCodes(enc, ks, vals, firsts, codes');
    OpenedOk(ok, ks, vals, firsts);
    CodesMatch(enc, ok, ks + Opened(vals, firsts), vals, gids);
  }

  lemma OpenedOk<V>(ok: V -> bool, ks: seq<V>, vals: seq<V>, firsts: seq<nat>)
    requires (forall g :: 0 <= g < |ks| ==> ok(ks[g])) && (forall i :: 0 <= i < |vals| ==> ok(vals[i]))
    requires forall j :: 0 <= j < |firsts| ==> firsts[j] < |vals|
    ensures forall g :: 0 <= g < |ks + Opened(vals, firsts)| ==> ok((ks + Opened(vals, firsts))[g])
  {
    forall j | 0 <= j < |firsts| ensures ok(Opened(vals, firsts)[j]) {
    }
  }

  /** The place of one more key in the table: where it is, or a new one at the end. */
  method PlaceKey<V(!new), B(==)>(ghost enc: V -> B, ghost ok: V -> bool, table: map<B, nat>, n: nat, code: B, ghost ks: seq<V>, ghost k: V)
    returns (table': map<B, nat>, target: nat)
    requires Injective(enc, ok) && Coded(enc, ok, table, ks) && |ks| == n < 0x1_0000_0000 && ok(k) && code == enc(k)
    ensures Coded(enc, ok, table', Extended(ks, k, target))
    ensures target <= |ks| && (target < |ks| ==> ks[target] == k)
    ensures target == |ks| ==> forall g :: 0 <= g < |ks| ==> ks[g] != k
  {
    if code in table {
      target := table[code];
      assert Mapped(enc, ks)[target] == code == enc(ks[target]);
      table' := table;
    } else {
      target := n % 0x1_0000_0000;
      assert target == n;
      NumberedSnoc(table, Mapped(enc, ks), code);
      MappedSnoc(enc, ks, k);
      forall g | 0 <= g < |ks| ensures ks[g] != k {
        assert Mapped(enc, ks)[g] != code;
      }
      table' := table[code := target];
    }
  }

  /** What is left of groups when only the codes in `todo` remain to be merged. */
  ghost predicate Remaining<R, B>(codes: seq<B>, groups: seq<seq<R>>, left: seq<seq<R>>, todo: set<B>) {
    && |left| == |groups| == |codes|
    && forall g :: 0 <= g < |codes| ==> left[g] == if codes[g] in todo then groups[g] else []
  }

  lemma AllRemaining<R, B>(table: map<B, nat>, codes: seq<B>, groups: seq<seq<R>>)
    requires Numbered(table, codes) && |groups| == |codes|
    ensures Remaining(codes, groups, groups, table.Keys)
  {
  }

  lemma NoneRemaining<R, B>(codes: seq<B>, groups: seq<seq<R>>, left: seq<seq<R>>)
    requires Remaining(codes, groups, left, {})
    ensures Sequences.Concat(left) == []
  {
    Sequences.ConcatOfEmpties(left);
  }

  lemma RemainingStep<R, B>(table: map<B, nat>, codes: seq<B>, groups: seq<seq<R>>, left: seq<seq<R>>, todo: set<B>, code: B)
    requires Numbered(table, codes) && Remaining(codes, groups, left, todo) && code in todo && code in table
    ensures table[code] < |codes| && left[table[code]] == groups[table[code]]
    ensures Remaining(codes, groups, left[table[code] := []], todo - {code})
    ensures multiset(Sequences.Concat(left))
         == multiset(Sequences.Concat(left[table[code] := []])) + multiset(groups[table[code]])
  {
    Sequences.ConcatClear(left, table[code]);
    forall g | 0 <= g < |codes| && g != table[code] ensures codes[g] != code {
      assert table[codes[g]] == g;
    }
  }

  // ----- spreading rows -----

  /** Groups extended by empty ones. */
  function Padded<R>(groups: seq<seq<R>>, n: nat): (r: seq<seq<R>>)
    requires |groups| <= n
    ensures |r| == n && forall g :: 0 <= g < n ==> r[g] == if g < |groups| then groups[g] else []
  {
    groups + seq(n - |groups|, _ => [])
  }

  lemma {:induction false} PaddedBag<R>(groups: seq<seq<R>>, n: nat)
    requires |groups| <= n
    ensures Sequences.Concat(Padded(groups, n)) == Sequences.Concat(groups)
    decreases n
  {
    if n == |groups| {
      assert Padded(groups, n) == groups;
    } else {
      PaddedBag(groups, n - 1);
      assert Padded(groups, n) == Padded(groups, n - 1) + [[]];
      Sequences.ConcatSnoc(Padded(groups, n - 1), []);
    }
  }

  /** Every row joins the group it was assigned. */
  function Spread<R>(groups: seq<seq<R>>, rows: seq<R>, gids: seq<nat>): (r: seq<seq<R>>)
    requires |gids| == |rows| && forall i :: 0 <= i < |gids| ==> gids[i] < |groups|
    ensures |r| == |groups|
  {
    if rows == [] then groups
    else
      var n := |rows| - 1;
      var before := Spread(groups, rows[..n], gids[..n]);
      before[gids[n] := before[gids[n]] + [rows[n]]]
  }

  lemma {:induction false} SpreadBag<R>(groups: seq<seq<R>>, rows: seq<R>, gids: seq<nat>)
    requires |gids| == |rows| && forall i :: 0 <= i < |gids| ==> gids[i] < |groups|
    ensures multiset(Sequences.Concat(Spread(groups, rows, gids))) == multiset(Sequences.Concat(groups)) + multiset(rows)
    decreases |rows|
  {
    if rows != [] {
      var n := |rows| - 1;
      var before := Spread(groups, rows[..n], gids[..n]);
      SpreadBag(groups, rows[..n], gids[..n]);
      Sequences.ConcatAppendTo(before, gids[n], [rows[n]]);
      Sequences.LastBag(rows);
    }
  }

  lemma {:induction false} SpreadKeyed<R, K>(key: R -> K, ks: seq<K>, groups: seq<seq<R>>, rows: seq<R>, gids: seq<nat>, g: nat)
    requires |gids| == |rows| && |groups| == |ks| && g < |ks|
    requires forall i :: 0 <= i < |gids| ==> gids[i] < |groups| && key(rows[i]) == ks[gids[i]]
    requires AllKeyed(key, ks[g], groups[g])
    ensures AllKeyed(key, ks[g], Spread(groups, rows, gids)[g])
    ensures groups[g] != [] || (exists i :: 0 <= i < |gids| && gids[i] == g) ==> Spread(groups, rows, gids)[g] != []
    decreases |rows|
  {
    if rows != [] {
      SpreadKeyed(key, ks, groups, rows[..|rows| - 1], gids[..|rows| - 1], g);
    }
  }

  /** A batch spread over old and new groups leaves everything grouped. */
  lemma SpreadGrouped<R, K>(key: R -> K, ks: seq<K>, groups: seq<seq<R>>, ks': seq<K>, rows: seq<R>, gids: seq<nat>, firsts: seq<nat>)
    requires Grouped(key, ks, groups) && ks <= ks' && Distinct(ks') && |gids| == |rows|
    requires forall i :: 0 <= i < |gids| ==> gids[i] < |ks'| && key(rows[i]) == ks'[gids[i]]
    requires |firsts| == |ks'| - |ks|
    requires forall j :: 0 <= j < |firsts| ==> firsts[j] < |gids| && gids[firsts[j]] == |ks| + j
    ensures Grouped(key, ks', Spread(Padded(groups, |ks'|), rows, gids))
    ensures multiset(Sequences.Concat(Spread(Padded(groups, |ks'|), rows, gids)))
         == multiset(Sequences.Concat(groups)) + multiset(rows)
  {
    var padded := Padded(groups, |ks'|);
    PaddedBag(groups, |ks'|);
    SpreadBag(padded, rows, gids);
    forall g | 0 <= g < |ks'|
      ensures Spread(padded, rows, gids)[g] != [] && AllKeyed(key, ks'[g], Spread(padded, rows, gids)[g])
    {
      if g >= |ks| {
        assert gids[firsts[g - |ks|]] == g;
      }
      SpreadKeyed(key, ks', padded, rows, gids, g);
    }
  }

  // ----- what grouping means -----

  function WithKey<R, K(==)>(key: R -> K, k: K, rows: seq<R>): (r: seq<R>) {
    if rows == [] then []
    else WithKey(key, k, rows[..|rows| - 1]) + (if key(rows[|rows| - 1]) == k then [rows[|rows| - 1]] else [])
  }

  lemma {:induction false} WithKeyShorter<R, K>(key: R -> K, k: K, rows: seq<R>)
    ensures |WithKey(key, k, rows)| <= |rows|
    decreases |rows|
  {
    if rows != [] {
      WithKeyShorter(key, k, rows[..|rows| - 1]);
    }
  }

  lemma {:induction false} WithKeyConcat<R, K>(key: R -> K, k: K, xs: seq<R>, ys: seq<R>)
    ensures WithKey(key, k, xs + ys) == WithKey(key, k, xs) + WithKey(key, k, ys)
    decreases |ys|
  {
    if ys == [] {
      assert xs + ys == xs;
    } else {
      WithKeyConcat(key, k, xs, ys[..|ys| - 1]);
      assert (xs + ys)[..|xs + ys| - 1] == xs + ys[..|ys| - 1];
    }
  }

  lemma {:induction false} WithKeyAllOrNone<R, K>(key: R -> K, k: K, rows: seq<R>)
    ensures AllKeyed(key, k, rows) ==> WithKey(key, k, rows) == rows
    ensures (forall i :: 0 <= i < |rows| ==> key(rows[i]) != k) ==> WithKey(key, k, rows) == []
    decreases |rows|
  {
    if rows != [] {
      WithKeyAllOrNone(key, k, rows[..|rows| - 1]);
      assert rows == rows[..|rows| - 1] + [rows[|rows| - 1]];
    }
  }

  lemma {:induction false} WithKeyBag<R, K>(key: R -> K, k: K, xs: seq<R>, ys: seq<R>)
    requires multiset(xs) == multiset(ys)
    ensures multiset(WithKey(key, k, xs)) == multiset(WithKey(key, k, ys))
    decreases |xs|
  {
    if xs == [] {
      Sequences.SameBagSameLength(xs, ys);
    } else {
      var n := |xs| - 1;
      var j := Sequences.DropLastFromBoth(xs, ys);
      WithKeyBag(key, k, xs[..n], ys[..j] + ys[j + 1..]);
      WithKeyRemove(key, k, ys, j);
    }
  }

  /** Taking out one row takes it out of the selection if its key matches. */
  lemma WithKeyRemove<R, K>(key: R -> K, k: K, ys: seq<R>, j: nat)
    requires j < |ys|
    ensures multiset(WithKey(key, k, ys))
         == multiset(WithKey(key, k, ys[..j] + ys[j + 1..])) + multiset(if key(ys[j]) == k then [ys[j]] else [])
  {
    Sequences.SplitOut(ys, j);
    WithKeyMiddle(key, k, ys[..j], ys[j], ys[j + 1..]);
  }

  lemma WithKeyMiddle<R, K>(key: R -> K, k: K, a: seq<R>, y: R, b: seq<R>)
    ensures multiset(WithKey(key, k, (a + [y]) + b))
         == multiset(WithKey(key, k, a + b)) + multiset(if key(y) == k then [y] else [])
  {
    WithKeyConcat(key, k, a + [y], b);
    WithKeyConcat(key, k, a, [y]);
    WithKeyConcat(key, k, a, b);
    WithKeyOne(key, k, y);
    Sequences.MiddleBag(WithKey(key, k, a), WithKey(key, k, [y]), WithKey(key, k, b));
  }

  lemma WithKeyOne<R, K>(key: R -> K, k: K, y: R)
    ensures WithKey(key, k, [y]) == if key(y) == k then [y] else []
  {
    assert WithKey(key, k, [y][..0]) == [];
  }

  lemma {:induction false} KeyInNoGroup<R, K>(key: R -> K, ks: seq<K>, groups: seq<seq<R>>, k: K)
    requires |ks| == |groups| && forall g :: 0 <= g < |ks| ==> ks[g] != k && AllKeyed(key, ks[g], groups[g])
    ensures WithKey(key, k, Sequences.Concat(groups)) == []
    decreases |groups|
  {
    if groups != [] {
      var n := |groups| - 1;
      KeyInNoGroup(key, ks[..n], groups[..n], k);
      WithKeyConcat(key, k, Sequences.Concat(groups[..n]), groups[n]);
      WithKeyAllOrNone(key, k, groups[n]);
    }
  }

  lemma {:induction false} KeyInOneGroup<R, K>(key: R -> K, ks: seq<K>, groups: seq<seq<R>>, g: nat)
    requires |groups| == |ks| && g < |ks|
    requires forall h :: 0 <= h < |ks| ==> AllKeyed(key, ks[h], groups[h]) && (h != g ==> ks[h] != ks[g])
    ensures WithKey(key, ks[g], Sequences.Concat(groups)) == groups[g]
    decreases |groups|
  {
    var n := |groups| - 1;
    var k, before := ks[g], Sequences.Concat(groups[..n]);
    WithKeyConcat(key, k, before, groups[n]);
    WithKeyAllOrNone(key, k, groups[n]);
    if g == n {
      KeyInNoGroup(key, ks[..n], groups[..n], k);
      assert [] + groups[n] == groups[n];
    } else {
      KeyInOneGroup(key, ks[..n], groups[..n], g);
      assert WithKey(key, k, groups[n]) == [];
      assert groups[g] + [] == groups[g];
    }
  }

  lemma {:induction false} KeyedIsThere<R, K>(key: R -> K, k: K, rows: seq<R>)
    ensures WithKey(key, k, rows) != [] <==> exists i :: 0 <= i < |rows| && key(rows[i]) == k
    decreases |rows|
  {
    if rows != [] {
      KeyedIsThere(key, k, rows[..|rows| - 1]);
    }
  }

  /** Each group is, up to order, what selecting by its key gives. */
  lemma GroupIsSelection<R, K>(key: R -> K, ks: seq<K>, groups: seq<seq<R>>, input: seq<R>, g: nat)
    requires Grouped(key, ks, groups) && multiset(Sequences.Concat(groups)) == multiset(input) && g < |ks|
    ensures multiset(groups[g]) == multiset(WithKey(key, ks[g], input))
    ensures exists i :: 0 <= i < |input| && key(input[i]) == ks[g]
  {
    KeyInOneGroup(key, ks, groups, g);
    WithKeyBag(key, ks[g], Sequences.Concat(groups), input);
    Sequences.SameBagSameLength(groups[g], WithKey(key, ks[g], input));
    KeyedIsThere(key, ks[g], input);
  }

  /** Every row's key has a group. */
  lemma KeyHasGroup<R, K>(key: R -> K, ks: seq<K>, groups: seq<seq<R>>, input: seq<R>, i: nat)
    requires Grouped(key, ks, groups) && multiset(Sequences.Concat(groups)) == multiset(input) && i < |input|
    ensures exists g :: 0 <= g < |ks| && ks[g] == key(input[i])
  {
    var k := key(input[i]);
    WithKeyBag(key, k, Sequences.Concat(groups), input);
    KeyedIsThere(key, k, input);
    if forall g :: 0 <= g < |ks| ==> ks[g] != k {
      KeyInNoGroup(key, ks, groups, k);
      Sequences.SameBagSameLength(WithKey(key, k, Sequences.Concat(groups)), WithKey(key, k, input));
    }
  }

  /** The keys are exactly those that occur. */
  ghost predicate KeysCover<R, K>(key: R -> K, ks: seq<K>, input: seq<R>) {
    && (forall i :: 0 <= i < |input| ==> key(input[i]) in ks)
    && forall g :: 0 <= g < |ks| ==> ks[g] in Mapped(key, input)
  }

  /** Distinct keys that all occur are not more than what they occur in. */
  lemma {:induction false} DistinctAtMost<K>(ks: seq<K>, xs: seq<K>)
    requires Distinct(ks) && forall g :: 0 <= g < |ks| ==> ks[g] in xs
    ensures |ks| <= |xs|
    decreases |ks|
  {
    if ks != [] {
      var n := |ks| - 1;
      var j :| 0 <= j < |xs| && xs[j] == ks[n];
      var rest := xs[..j] + xs[j + 1..];
      forall g | 0 <= g < n ensures ks[..n][g] in rest {
        var i :| 0 <= i < |xs| && xs[i] == ks[g];
        assert i != j && rest[if i < j then i else i - 1] == ks[g];
      }
      DistinctAtMost(ks[..n], rest);
    }
  }

  /** Two lists with the same keys, position by position, are covered by the same keys. */
  lemma SameCover<A, B, K>(f: A -> K, g: B -> K, ks: seq<K>, xs: seq<A>, ys: seq<B>)
    requires |xs| == |ys| && KeysCover(f, ks, xs) && forall i :: 0 <= i < |xs| ==> f(xs[i]) == g(ys[i])
    ensures KeysCover(g, ks, ys)
  {
    assert Mapped(f, xs) == Mapped(g, ys);
  }

  lemma GroupsCover<R, K>(key: R -> K, ks: seq<K>, groups: seq<seq<R>>, input: seq<R>)
    requires Grouped(key, ks, groups) && multiset(Sequences.Concat(groups)) == multiset(input)
    ensures KeysCover(key, ks, input)
  {
    forall i | 0 <= i < |input| ensures key(input[i]) in ks {
      KeyHasGroup(key, ks, groups, input, i);
    }
    forall g | 0 <= g < |ks| ensures ks[g] in Mapped(key, input) {
      GroupIsSelection(key, ks, groups, input, g);
      var i :| 0 <= i < |input| && key(input[i]) == ks[g];
      assert Mapped(key, input)[i] == ks[g];
    }
  }

  // ----- merging one group of a thread into the result -----

  /** One group of another thread joins the group with its key, or becomes a new one. */
  lemma MergeGroup<R, K>(key: R -> K, ks: seq<K>, groups: seq<seq<R>>, k: K, rows: seq<R>, target: nat)
    requires Grouped(key, ks, groups) && rows != [] && AllKeyed(key, k, rows)
    requires target <= |ks| && (target < |ks| ==> ks[target] == k)
    requires target == |ks| ==> forall g :: 0 <= g < |ks| ==> ks[g] != k
    ensures var ks', groups' := Extended(ks, k, target), Joined(groups, rows, target);
            && Grouped(key, ks', groups')
            && multiset(Sequences.Concat(groups')) == multiset(Sequences.Concat(groups)) + multiset(rows)
  {
    var groups' := Joined(groups, rows, target);
    if target < |ks| {
      Sequences.ConcatAppendTo(groups, target, rows);
      forall g | 0 <= g < |ks| ensures groups'[g] != [] && AllKeyed(key, ks[g], groups'[g]) {
        if g == target { KeyedConcat(key, k, groups[g], rows); }
      }
    } else {
      Sequences.ConcatSnoc(groups, rows);
    }
  }

  function Extended<K>(ks: seq<K>, k: K, target: nat): seq<K> {
    if target < |ks| then ks else ks + [k]
  }

  function Joined<R>(groups: seq<seq<R>>, rows: seq<R>, target: nat): seq<seq<R>> {
    if target < |groups| then groups[target := groups[target] + rows] else groups + [rows]
  }

  lemma KeyedConcat<R, K>(key: R -> K, k: K, xs: seq<R>, ys: seq<R>)
    requires AllKeyed(key, k, xs) && AllKeyed(key, k, ys)
    ensures AllKeyed(key, k, xs + ys)
  {
  }
}
