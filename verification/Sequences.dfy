/** Facts about sequences and the multisets of their elements. */
module Sequences {

  lemma RemoveAt<T>(s: seq<T>, j: nat)
    requires j < |s|
    ensures multiset(s) == multiset(s[..j] + s[j + 1..]) + multiset{s[j]}
  {
    assert s == s[..j] + [s[j]] + s[j + 1..];
  }

  lemma LastBag<T>(s: seq<T>)
    requires s != []
    ensures multiset(s) == multiset(s[..|s| - 1]) + multiset([s[|s| - 1]])
  {
    assert s == s[..|s| - 1] + [s[|s| - 1]];
  }

  lemma PrefixBag<T>(s: seq<T>, t: seq<T>)
    requires s <= t
    ensures multiset(s) <= multiset(t)
  {
    assert t == s + t[|s|..];
  }

  /** A position of `t` holding an element that occurs in `s`. */
  lemma Locate<T>(s: seq<T>, t: seq<T>, x: T) returns (j: nat)
    requires x in s && multiset(s) <= multiset(t)
    ensures j < |t| && t[j] == x
  {
    assert multiset(s)[x] > 0;
    assert x in multiset(t);
    j :| 0 <= j < |t| && t[j] == x;
  }

  /** Taking one occurrence of `x` out of both bags. */
  lemma CancelOne<T>(a: multiset<T>, b: multiset<T>, x: T)
    ensures a + multiset{x} <= b + multiset{x} ==> a <= b
    ensures a + multiset{x} == b + multiset{x} ==> a == b
  {
    if a + multiset{x} <= b + multiset{x} {
      forall y ensures a[y] <= b[y] {
        assert (a + multiset{x})[y] <= (b + multiset{x})[y];
      }
    }
    if a + multiset{x} == b + multiset{x} {
      forall y ensures a[y] == b[y] {
        assert (a + multiset{x})[y] == (b + multiset{x})[y];
      }
    }
  }

  /** Removing the last element of `s` and an equal element of `t`. */
  lemma DropLastFromBoth<T>(s: seq<T>, t: seq<T>) returns (j: nat)
    requires s != [] && multiset(s) <= multiset(t)
    ensures j < |t| && t[j] == s[|s| - 1]
    ensures multiset(s[..|s| - 1]) <= multiset(t[..j] + t[j + 1..])
    ensures multiset(s) == multiset(t) ==> multiset(s[..|s| - 1]) == multiset(t[..j] + t[j + 1..])
  {
    var n := |s| - 1;
    j := Locate(s, t, s[n]);
    RemoveAt(t, j);
    RemoveAt(s, n);
    assert s[..n] + s[n + 1..] == s[..n];
    CancelOne(multiset(s[..n]), multiset(t[..j] + t[j + 1..]), s[n]);
  }

  lemma SameBagSameLength<T>(s: seq<T>, t: seq<T>)
    requires multiset(s) == multiset(t)
    ensures |s| == |t|
  {
    assert |multiset(s)| == |multiset(t)|;
  }

  /** The elements of `t` that are not matched by `s`. */
  lemma Remainder<T>(s: seq<T>, t: seq<T>) returns (rest: seq<T>)
    requires multiset(s) <= multiset(t)
    ensures multiset(s + rest) == multiset(t)
    decreases |s|
  {
    if s == [] {
      rest := t;
      assert s + rest == t;
    } else {
      var n := |s| - 1;
      var j := DropLastFromBoth(s, t);
      rest := Remainder(s[..n], t[..j] + t[j + 1..]);
      RemoveAt(t, j);
      LastThenMore(s, rest);
    }
  }

  lemma LastThenMore<T>(s: seq<T>, more: seq<T>)
    requires s != []
    ensures multiset(s + more) == multiset(s[..|s| - 1] + more) + multiset{s[|s| - 1]}
  {
    LastBag(s);
  }

  lemma SmallBags<T>(s: seq<T>, t: seq<T>)
    requires multiset(s) <= multiset(t) && |t| <= 1
    ensures s == [] || s == t
  {
    if s != [] {
      var j := Locate(s, t, s[0]);
      var rest := Remainder(s, t);
      SameBagSameLength(s + rest, t);
    }
  }

  function Concat<T>(parts: seq<seq<T>>): seq<T> {
    if parts == [] then [] else Concat(parts[..|parts| - 1]) + parts[|parts| - 1]
  }

  lemma ConcatSnoc<T>(parts: seq<seq<T>>, x: seq<T>)
    ensures Concat(parts + [x]) == Concat(parts) + x
  {
    assert (parts + [x])[..|parts|] == parts;
  }

  lemma {:induction false} ConcatFront<T>(parts: seq<seq<T>>)
    requires parts != []
    ensures Concat(parts) == parts[0] + Concat(parts[1..])
    decreases |parts|
  {
    var n := |parts| - 1;
    if n == 0 {
      assert parts[..0] == [] && parts[1..] == [];
    } else {
      ConcatFront(parts[..n]);
      assert parts[..n][1..] == parts[1..][..n - 1] && parts[1..][n - 1] == parts[n];
      Regroup(parts[0], Concat(parts[1..][..n - 1]), parts[n]);
    }
  }

  /** Appending to one part adds the same elements to the bag of all. */
  lemma {:induction false} ConcatAppendTo<T>(parts: seq<seq<T>>, j: nat, x: seq<T>)
    requires j < |parts|
    ensures multiset(Concat(parts[j := parts[j] + x])) == multiset(Concat(parts)) + multiset(x)
  {
    var n := |parts| - 1;
    var r := parts[j := parts[j] + x];
    if j == n {
      assert r[..n] == parts[..n];
    } else {
      ConcatAppendTo(parts[..n], j, x);
      assert r[..n] == parts[..n][j := parts[j] + x];
    }
  }

  lemma {:induction false} ConcatClear<T>(parts: seq<seq<T>>, j: nat)
    requires j < |parts|
    ensures multiset(Concat(parts)) == multiset(Concat(parts[j := []])) + multiset(parts[j])
    decreases |parts|
  {
    var n := |parts| - 1;
    var r := parts[j := []];
    if j == n {
      assert r[..n] == parts[..n];
    } else {
      ConcatClear(parts[..n], j);
      assert r[..n] == parts[..n][j := []];
    }
  }

  lemma {:induction false} ConcatOfEmpties<T>(parts: seq<seq<T>>)
    requires forall j :: 0 <= j < |parts| ==> parts[j] == []
    ensures Concat(parts) == []
  {
    if parts != [] {
      ConcatOfEmpties(parts[..|parts| - 1]);
    }
  }

  lemma {:induction false} OneAtMostAll<T>(parts: seq<seq<T>>, j: nat)
    requires j < |parts|
    ensures |parts[j]| <= |Concat(parts)|
    decreases |parts|
  {
    if j < |parts| - 1 {
      OneAtMostAll(parts[..|parts| - 1], j);
    }
  }

  lemma Empties<T>(s: seq<T>)
    ensures [] + s == s && s + [] == s
  {
  }

  /** One element more of a prefix. */
  lemma PrefixSnoc<T>(s: seq<T>, i: nat)
    requires i < |s|
    ensures s[..i + 1] == s[..i] + [s[i]]
  {
  }

  lemma ConcatPrefixSnoc<T>(parts: seq<seq<T>>, i: nat)
    requires i < |parts|
    ensures Concat(parts[..i + 1]) == Concat(parts[..i]) + parts[i]
  {
    PrefixSnoc(parts, i);
    ConcatSnoc(parts[..i], parts[i]);
  }

  lemma CutAndJoin<T>(s: seq<T>, k: nat)
    requires k <= |s|
    ensures s[..k] + s[k..] == s
  {
  }

  lemma TakeDrop<T>(a: seq<T>, b: seq<T>)
    ensures (a + b)[..|a|] == a && (a + b)[|a|..] == b
  {
  }

  /** Slices of what follows the first k elements. */
  lemma Shifted<T>(s: seq<T>, k: nat, i: nat, j: nat)
    requires i <= j && k + j <= |s|
    ensures s[k..][i..j] == s[k + i..k + j] && s[k..][j..] == s[k + j..]
  {
  }

  /** Taking some, and then some of what follows. */
  lemma TakeTwice<T>(s: seq<T>, k: nat, n: nat)
    requires k + n <= |s|
    ensures s[..k] + s[k..][..n] == s[..k + n]
  {
  }

  lemma Split3<T>(a: seq<T>, b: seq<T>, c: seq<T>)
    ensures var s, i, j := a + b + c, |a|, |a| + |b|;
            s[..i] == a && s[i..j] == b && s[j..] == c
  {
  }

  lemma SuffixSlice<T>(x: seq<T>, t: seq<T>, i: nat, j: nat)
    requires i <= j <= |t|
    ensures (x + t)[|x| + i..|x| + j] == t[i..j]
  {
  }

  lemma Regroup<T>(a: seq<T>, b: seq<T>, c: seq<T>)
    ensures (a + b) + c == a + (b + c)
  {
  }

  lemma TakeLess<T>(s: seq<T>, i: nat, j: nat)
    requires i <= j <= |s|
    ensures s[..j][..i] == s[..i]
  {
  }

  lemma SplitLast<T>(s: seq<T>)
    requires s != []
    ensures s == s[..|s| - 1] + [s[|s| - 1]]
  {
  }

  lemma SplitOut<T>(s: seq<T>, j: nat)
    requires j < |s|
    ensures s == (s[..j] + [s[j]]) + s[j + 1..]
  {
  }

  /** What leaves one bag and enters another. */
  lemma BagMoves<T>(a: multiset<T>, b: multiset<T>, a': multiset<T>, b': multiset<T>, x: multiset<T>)
    requires a' == a + x && b == b' + x
    ensures a' + b' == a + b
  {
  }

  /** Cutting a list and putting the rest behind another. */
  lemma CutBag<T>(s: seq<T>, k: nat, gone: seq<T>)
    requires k <= |s|
    ensures multiset(s[..k]) + multiset(gone + s[k..]) == multiset(s) + multiset(gone)
  {
    assert s == s[..k] + s[k..];
  }

  lemma MiddleBag<T>(a: seq<T>, b: seq<T>, c: seq<T>)
    ensures multiset((a + b) + c) == multiset(a + c) + multiset(b)
  {
  }

  /** Rearranging one of two parallel lists, and the other with it: `at[i]` is where the i-th element came from. */
  lemma Rearrangement<T>(s: seq<T>, p: seq<T>) returns (at: seq<nat>)
    requires multiset(p) == multiset(s)
    ensures |at| == |p| == |s|
    ensures forall i :: 0 <= i < |p| ==> at[i] < |s| && p[i] == s[at[i]]
    ensures forall i, j :: 0 <= i < j < |p| ==> at[i] != at[j]
    decreases |p|
  {
    SameBagSameLength(p, s);
    if p == [] {
      at := [];
    } else {
      var n := |p| - 1;
      var j := DropLastFromBoth(p, s);
      var rest := Rearrangement(s[..j] + s[j + 1..], p[..n]);
      at := seq(n, i requires 0 <= i < n => if rest[i] < j then rest[i] else rest[i] + 1) + [j];
    }
  }

  /** Picking every position once keeps the bag. */
  lemma PickAll<T>(s: seq<T>, at: seq<nat>) returns (q: seq<T>)
    requires |at| == |s| && (forall i :: 0 <= i < |at| ==> at[i] < |s|)
    requires forall i, j :: 0 <= i < j < |at| ==> at[i] != at[j]
    ensures |q| == |s| && (forall i :: 0 <= i < |q| ==> q[i] == s[at[i]]) && multiset(q) == multiset(s)
    decreases |s|
  {
    if s == [] {
      q := [];
    } else {
      var n := |s| - 1;
      var j := at[n];
      var s' := s[..j] + s[j + 1..];
      var at' := seq(n, i requires 0 <= i < n => if at[i] < j then at[i] else at[i] - 1);
      forall i | 0 <= i < n ensures at[i] != j && at'[i] < n && s'[at'[i]] == s[at[i]] {
        assert at[i] != at[n];
      }
      var q' := PickAll(s', at');
      q := q' + [s[j]];
      RemoveAt(s, j);
    }
  }

  /** The partner of a rearranged list. */
  lemma RearrangeWith<A, B>(xs: seq<A>, ys: seq<B>, ps: seq<A>) returns (qs: seq<B>, at: seq<nat>)
    requires |xs| == |ys| && multiset(ps) == multiset(xs)
    ensures |qs| == |ps| == |at| == |xs| && multiset(qs) == multiset(ys)
    ensures forall i :: 0 <= i < |ps| ==> at[i] < |xs| && ps[i] == xs[at[i]] && qs[i] == ys[at[i]]
  {
    at := Rearrangement(xs, ps);
    qs := PickAll(ys, at);
  }

  ghost predicate Possible<T(!new)>(p: (nat, T) -> bool, h: nat) {
    exists x :: p(h, x)
  }

  /** A list of witnesses, one per position. */
  lemma Choose<T(!new)>(n: nat, p: (nat, T) -> bool) returns (s: seq<T>)
    requires forall h: nat :: h < n ==> Possible(p, h)
    ensures |s| == n && forall h: nat :: h < n ==> p(h, s[h])
  {
    s := [];
    for i := 0 to n
      invariant |s| == i && forall h: nat :: h < i ==> p(h, s[h])
    {
      assert Possible(p, i);
      var x :| p(i, x);
      s := s + [x];
    }
  }
}
