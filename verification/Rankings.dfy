/**
 Sorting under a comparator, and what may be thrown away early when only the first k elements are wanted.
 Elements and comparator are abstract; ORDER BY instantiates them with row numbers and the sort columns.
 */
module Rankings {
  import opened Wrappers
  import Sequences

  type Comparator<!R> = (R, R) -> bool

  /** A strict weak order: asymmetric, and "not less" is transitive. */
  ghost predicate WeakOrder<R(!new)>(lt: Comparator<R>) {
    && (forall a, b :: lt(a, b) ==> !lt(b, a))
    && (forall a, b, c {:trigger lt(a, b), lt(c, b)} {:trigger lt(a, b), lt(a, c)} :: lt(a, b) ==> lt(a, c) || lt(c, b))
  }

  ghost predicate Sorted<R>(lt: Comparator<R>, s: seq<R>) {
    forall i, j :: 0 <= i < j < |s| ==> !lt(s[j], s[i])
  }

  /** Nothing in `high` precedes anything in `low`. */
  ghost predicate Below<R>(lt: Comparator<R>, low: seq<R>, high: seq<R>) {
    forall i, j :: 0 <= i < |low| && 0 <= j < |high| ==> !lt(high[j], low[i])
  }

  // ----- sorting -----

  /** Puts `x` behind the elements it does not precede. */
  function Insert<R>(lt: Comparator<R>, s: seq<R>, x: R): (r: seq<R>)
    ensures multiset(r) == multiset(s) + multiset{x}
  {
    if s == [] then [x]
    else if lt(x, s[|s| - 1]) then
      assert s == s[..|s| - 1] + [s[|s| - 1]];
      Insert(lt, s[..|s| - 1], x) + [s[|s| - 1]]
    else s + [x]
  }

  lemma {:induction false} InsertSorted<R(!new)>(lt: Comparator<R>, s: seq<R>, x: R)
    requires WeakOrder(lt) && Sorted(lt, s)
    ensures Sorted(lt, Insert(lt, s, x))
  {
    if s != [] {
      var n := |s| - 1;
      if lt(x, s[n]) {
        var r := Insert(lt, s[..n], x);
        InsertSorted(lt, s[..n], x);
        forall i | 0 <= i < |r| ensures !lt(s[n], r[i]) {
          assert r[i] in multiset(r);
          assert r[i] == x || r[i] in s[..n];
        }
      } else {
        forall i | 0 <= i < |s| ensures !lt(x, s[i]) {
          assert i == n || !lt(s[n], s[i]);
        }
      }
    }
  }

  /** `std::sort`: some sorted permutation. */
  method Sort<R(!new)>(s: seq<R>, lt: Comparator<R>) returns (r: seq<R>)
    requires WeakOrder(lt)
    ensures multiset(r) == multiset(s) && Sorted(lt, r)
  {
    r := [];
    for i := 0 to |s|
      invariant multiset(r) == multiset(s[..i]) && Sorted(lt, r)
    {
      InsertSorted(lt, r, s[i]);
      r := Insert(lt, r, s[i]);
      assert s[..i + 1] == s[..i] + [s[i]];
    }
    assert s[..|s|] == s;
  }

  /** `std::partial_sort`: the first n in order, none of the others before them. */
  method PartialSort<R(!new)>(s: seq<R>, n: nat, lt: Comparator<R>) returns (r: seq<R>)
    requires WeakOrder(lt) && n <= |s|
    ensures multiset(r) == multiset(s) && |r| == |s|
    ensures Sorted(lt, r[..n]) && Below(lt, r[..n], r[n..])
  {
    r := Sort(s, lt);
    Sequences.SameBagSameLength(r, s);
  }

  /** `std::nth_element`: none of the elements from n on before any of the first n. */
  method NthElement<R(!new)>(s: seq<R>, n: nat, lt: Comparator<R>) returns (r: seq<R>)
    requires WeakOrder(lt) && n <= |s|
    ensures multiset(r) == multiset(s) && |r| == |s|
    ensures Below(lt, r[..n], r[n..])
  {
    r := Sort(s, lt);
    Sequences.SameBagSameLength(r, s);
  }

  lemma {:induction false} SortedExists<R(!new)>(lt: Comparator<R>, s: seq<R>) returns (r: seq<R>)
    requires WeakOrder(lt)
    ensures multiset(r) == multiset(s) && Sorted(lt, r)
  {
    r := [];
    for i := 0 to |s|
      invariant multiset(r) == multiset(s[..i]) && Sorted(lt, r)
    {
      InsertSorted(lt, r, s[i]);
      r := Insert(lt, r, s[i]);
      assert s[..i + 1] == s[..i] + [s[i]];
    }
    assert s[..|s|] == s;
  }

  // ----- early discarding -----

  /** How many elements do not come after `d`. */
  ghost function CountUpTo<R>(lt: Comparator<R>, s: seq<R>, d: R): nat {
    if s == [] then 0 else CountUpTo(lt, s[..|s| - 1], d) + (if lt(d, s[|s| - 1]) then 0 else 1)
  }

  lemma {:induction false} CountConcat<R>(lt: Comparator<R>, s: seq<R>, t: seq<R>, d: R)
    ensures CountUpTo(lt, s + t, d) == CountUpTo(lt, s, d) + CountUpTo(lt, t, d)
  {
    if t == [] {
      assert s + t == s;
    } else {
      assert (s + t)[..|s + t| - 1] == s + t[..|t| - 1];
      CountConcat(lt, s, t[..|t| - 1], d);
    }
  }

  lemma {:induction false} CountBounds<R>(lt: Comparator<R>, s: seq<R>, d: R)
    ensures CountUpTo(lt, s, d) <= |s|
    ensures (forall i :: 0 <= i < |s| ==> !lt(d, s[i])) ==> CountUpTo(lt, s, d) == |s|
    ensures (forall i :: 0 <= i < |s| ==> lt(d, s[i])) ==> CountUpTo(lt, s, d) == 0
  {
    if s != [] {
      CountBounds(lt, s[..|s| - 1], d);
    }
  }

  lemma {:induction false} CountBag<R>(lt: Comparator<R>, s: seq<R>, t: seq<R>, d: R)
    requires multiset(s) == multiset(t)
    ensures CountUpTo(lt, s, d) == CountUpTo(lt, t, d)
    decreases |s|
  {
    if s == [] {
      Sequences.SameBagSameLength(s, t);
    } else {
      var n := |s| - 1;
      var j := Sequences.DropLastFromBoth(s, t);
      CountBag(lt, s[..n], t[..j] + t[j + 1..], d);
      CountConcat(lt, t[..j], t[j + 1..], d);
      CountConcat(lt, t[..j], [t[j]] + t[j + 1..], d);
      CountConcat(lt, [t[j]], t[j + 1..], d);
      assert t == t[..j] + ([t[j]] + t[j + 1..]);
      assert CountUpTo(lt, [t[j]], d) == CountUpTo(lt, [], d) + (if lt(d, t[j]) then 0 else 1);
    }
  }

  /** Each discarded element has at least k kept ones that do not come after it. */
  ghost predicate Dominated<R>(lt: Comparator<R>, kept: seq<R>, gone: seq<R>, k: nat) {
    forall i :: 0 <= i < |gone| ==> CountUpTo(lt, kept, gone[i]) >= k
  }

  /** Keeping more elements keeps the domination. */
  lemma DominatedGrows<R>(lt: Comparator<R>, kept: seq<R>, more: seq<R>, gone: seq<R>, k: nat)
    requires Dominated(lt, kept, gone, k)
    ensures Dominated(lt, kept + more, gone, k) && Dominated(lt, more + kept, gone, k)
  {
    forall i | 0 <= i < |gone|
      ensures CountUpTo(lt, kept + more, gone[i]) >= k && CountUpTo(lt, more + kept, gone[i]) >= k
    {
      CountConcat(lt, kept, more, gone[i]);
      CountConcat(lt, more, kept, gone[i]);
    }
  }

  /** Keeping any k elements that none of the others precedes keeps the domination of earlier discards, and adds the new ones. */
  lemma TrimDominates<R(!new)>(lt: Comparator<R>, kept: seq<R>, p: seq<R>, gone: seq<R>, k: nat)
    requires WeakOrder(lt) && multiset(p) == multiset(kept) && k <= |p|
    requires Below(lt, p[..k], p[k..]) && Dominated(lt, kept, gone, k)
    ensures Dominated(lt, p[..k], gone + p[k..], k)
  {
    var low, high := p[..k], p[k..];
    var all := gone + high;
    forall i | 0 <= i < |all| ensures CountUpTo(lt, low, all[i]) >= k {
      if i < |gone| {
        CountBag(lt, kept, p, gone[i]);
        assert p == low + high;
        DiscardStays(lt, low, high, gone[i]);
      } else {
        CountBounds(lt, low, high[i - |gone|]);
      }
    }
  }

  lemma DiscardStays<R(!new)>(lt: Comparator<R>, low: seq<R>, high: seq<R>, d: R)
    requires WeakOrder(lt) && Below(lt, low, high) && CountUpTo(lt, low + high, d) >= |low|
    ensures CountUpTo(lt, low, d) == |low|
  {
    CountConcat(lt, low, high, d);
    CountBounds(lt, low, d);
    if x :| 0 <= x < |high| && !lt(d, high[x]) {
      forall i | 0 <= i < |low| ensures !lt(d, low[i]) {
        assert !lt(high[x], low[i]);
      }
    } else {
      CountBounds(lt, high, d);
    }
  }

  /** A first part that is sorted and below the other kept elements is below the discarded ones too. */
  lemma FirstBelowGone<R(!new)>(lt: Comparator<R>, first: seq<R>, rest: seq<R>, gone: seq<R>, k: nat)
    requires WeakOrder(lt) && Sorted(lt, first) && Below(lt, first, rest)
    requires Dominated(lt, first + rest, gone, k) && |first| <= k
    ensures Below(lt, first, gone)
  {
    forall i, j | 0 <= i < |first| && 0 <= j < |gone| ensures !lt(gone[j], first[i]) {
      if lt(gone[j], first[i]) {
        CountBeforeFirst(lt, first, rest, gone[j], i);
        assert false;
      }
    }
  }

  /** If `d` precedes the i-th of the sorted first part, only the i elements before that can be up to `d`. */
  lemma CountBeforeFirst<R(!new)>(lt: Comparator<R>, first: seq<R>, rest: seq<R>, d: R, i: nat)
    requires WeakOrder(lt) && Sorted(lt, first) && Below(lt, first, rest)
    requires i < |first| && lt(d, first[i])
    ensures CountUpTo(lt, first + rest, d) <= i
  {
    var low, high := first[..i], first[i..] + rest;
    assert first + rest == low + high;
    forall m | 0 <= m < |high| ensures lt(d, high[m]) {
      var x := high[m];
      assert m > 0 ==> !lt(x, first[i]) by {
        if 0 < m < |first| - i { assert x == first[i + m]; }
        if m >= |first| - i { assert x == rest[m - (|first| - i)]; }
      }
    }
    CountConcat(lt, low, high, d);
    CountBounds(lt, low, d);
    CountBounds(lt, high, d);
  }

  // ----- the result -----

  /** `p` is a sorted arrangement of the input. */
  ghost predicate Arranges<R>(lt: Comparator<R>, p: seq<R>, input: seq<R>) {
    multiset(p) == multiset(input) && Sorted(lt, p)
  }

  /** The first k elements of some sorted arrangement of the input. */
  ghost predicate IsTop<R(!new)>(lt: Comparator<R>, out: seq<R>, input: seq<R>, k: nat) {
    exists p :: Arranges(lt, p, input) && out == First(p, k)
  }

  function First<R>(p: seq<R>, k: nat): seq<R> {
    if k < |p| then p[..k] else p
  }

  lemma SortedConcat<R>(lt: Comparator<R>, s: seq<R>, t: seq<R>)
    requires Sorted(lt, s) && Sorted(lt, t) && Below(lt, s, t)
    ensures Sorted(lt, s + t)
  {
  }

  /**
   The first part of what was kept is a legal top k of everything, discarded elements included.
   `first` has k elements, or is all that was kept when that is at most k.
   */
  lemma KeptTopIsTop<R(!new)>(lt: Comparator<R>, input: seq<R>, first: seq<R>, rest: seq<R>, gone: seq<R>, k: nat)
    requires WeakOrder(lt) && multiset(first) + multiset(rest) + multiset(gone) == multiset(input)
    requires Sorted(lt, first) && Below(lt, first, rest) && Dominated(lt, first + rest, gone, k)
    requires |first| == k || (|first| < k && rest == [])
    ensures IsTop(lt, first, input, k)
  {
    FirstBelowGone(lt, first, rest, gone, k);
    var tail := SortedExists(lt, rest + gone);
    forall i, j | 0 <= i < |first| && 0 <= j < |tail| ensures !lt(tail[j], first[i]) {
      assert tail[j] in multiset(tail);
      assert tail[j] in multiset(rest) || tail[j] in multiset(gone);
    }
    SortedConcat(lt, first, tail);
    assert multiset(first + tail) == multiset(input);
    if |first| < k {
      ShortKeepsAll(lt, first, gone, k);
      assert rest + gone == [];
      Sequences.SameBagSameLength(tail, []);
    }
    assert Arranges(lt, first + tail, input) && First(first + tail, k) == first;
  }

  /** Fewer than k kept elements cannot dominate anything. */
  lemma ShortKeepsAll<R>(lt: Comparator<R>, kept: seq<R>, gone: seq<R>, k: nat)
    requires Dominated(lt, kept + [], gone, k) && |kept| < k
    ensures gone == []
  {
    assert kept + [] == kept;
    if gone != [] {
      CountBounds(lt, kept, gone[0]);
      assert false;
    }
  }
}
