/** Column names, and the sort-and-deduplicate step every plan node applies to the columns it asks its child for. */
module Names {
  import opened Values
  import opened Rankings
  import Sequences

  type Name = seq<Byte>

  /** "*" */
  const STAR: Name := [42]

  function NameOrder(): Comparator<Name> {
    (a: Name, b: Name) => LexLess(a, b)
  }

  lemma NameOrderIsWeak()
    ensures WeakOrder(NameOrder())
  {
    forall a, b: Name | LexLess(a, b) ensures !LexLess(b, a) {
      LexTotal(a, b);
    }
    forall a, b, c: Name | LexLess(a, b) ensures LexLess(a, c) || LexLess(c, b) {
      LexTotal(a, c);
      LexTotal(c, b);
      if LexLess(c, a) { LexTransitive(c, a, b); }
    }
  }

  ghost predicate StrictlySorted(s: seq<Name>) {
    forall i, j :: 0 <= i < j < |s| ==> LexLess(s[i], s[j])
  }

  ghost predicate SameNames(s: seq<Name>, t: seq<Name>) {
    forall x: Name :: x in s <==> x in t
  }

  /** Puts a name into a strictly sorted list unless it is there. */
  function InsertName(s: seq<Name>, x: Name): (r: seq<Name>)
    ensures forall y: Name :: y in r <==> y in s || y == x
  {
    if s == [] then [x]
    else if s[0] == x then s
    else if LexLess(x, s[0]) then [x] + s
    else
      var r := [s[0]] + InsertName(s[1..], x);
      assert s == [s[0]] + s[1..];
      r
  }

  lemma {:induction false} InsertNameSorted(s: seq<Name>, x: Name)
    requires StrictlySorted(s)
    ensures StrictlySorted(InsertName(s, x))
  {
    if s != [] && s[0] != x {
      LexTotal(s[0], x);
      if LexLess(x, s[0]) {
        forall j | 0 <= j < |s| ensures LexLess(x, s[j]) {
          if j > 0 { LexTransitive(x, s[0], s[j]); }
        }
      } else {
        var rest := InsertName(s[1..], x);
        InsertNameSorted(s[1..], x);
        forall j | 0 <= j < |rest| ensures LexLess(s[0], rest[j]) {
          assert rest[j] in s[1..] || rest[j] == x;
        }
      }
    }
  }

  /** `sort`, `unique`, `erase`: every name once, in order. */
  function SortUnique(names: seq<Name>): (r: seq<Name>)
    ensures SameNames(r, names)
  {
    if names == [] then []
    else
      assert names == names[..|names| - 1] + [names[|names| - 1]];
      InsertName(SortUnique(names[..|names| - 1]), names[|names| - 1])
  }

  lemma {:induction false} SortUniqueSorted(names: seq<Name>)
    ensures StrictlySorted(SortUnique(names))
  {
    if names != [] {
      SortUniqueSorted(names[..|names| - 1]);
      InsertNameSorted(SortUnique(names[..|names| - 1]), names[|names| - 1]);
    }
  }

  /** A strictly sorted list is determined by its names. */
  lemma {:induction false} SortedUnique(s: seq<Name>, t: seq<Name>)
    requires StrictlySorted(s) && StrictlySorted(t) && SameNames(s, t)
    ensures s == t
  {
    if s != [] { assert s[0] in s; }
    if t != [] { assert t[0] in t; }
    assert s == [] <==> t == [];
    if s != [] {
      SameFirst(s, t);
      forall x: Name ensures x in s[1..] <==> x in t[1..] {
        NotRepeated(s, x);
        NotRepeated(t, x);
      }
      SortedUnique(s[1..], t[1..]);
      assert s == [s[0]] + s[1..] && t == [t[0]] + t[1..];
    }
  }

  lemma SameFirst(s: seq<Name>, t: seq<Name>)
    requires StrictlySorted(s) && StrictlySorted(t) && SameNames(s, t) && s != [] && t != []
    ensures s[0] == t[0]
  {
    assert s[0] in s && t[0] in t;
    var i :| 0 <= i < |t| && t[i] == s[0];
    var j :| 0 <= j < |s| && s[j] == t[0];
    LexTotal(s[0], t[0]);
  }

  lemma NotRepeated(s: seq<Name>, x: Name)
    requires StrictlySorted(s) && s != []
    ensures x in s[1..] <==> x in s && x != s[0]
  {
    LexTotal(s[0], s[0]);
    if x in s[1..] {
      var i :| 0 <= i < |s[1..]| && s[1..][i] == x;
      assert LexLess(s[0], s[i + 1]);
    }
    if x in s && x != s[0] {
      var i :| 0 <= i < |s| && s[i] == x;
      assert s[1..][i - 1] == x;
    }
  }

  /** The library calls, step by step: sort, then keep each name that differs from the one kept before it. */
  method SortErase(names: seq<Name>) returns (r: seq<Name>)
    ensures r == SortUnique(names)
  {
    NameOrderIsWeak();
    var sorted := Sort(names, NameOrder());
    r := [];
    for i := 0 to |sorted|
      invariant StrictlySorted(r) && SameNames(r, sorted[..i])
      invariant r != [] ==> i > 0 && r[|r| - 1] == sorted[i - 1]
    {
      assert sorted[..i + 1] == sorted[..i] + [sorted[i]];
      if r == [] || r[|r| - 1] != sorted[i] {
        KeepName(r, sorted, i);
        r := r + [sorted[i]];
      }
    }
    assert sorted[..|sorted|] == sorted;
    forall x: Name ensures x in sorted <==> x in names {
      assert x in multiset(sorted) <==> x in multiset(names);
    }
    SortUniqueSorted(names);
    SortedUnique(r, SortUnique(names));
  }

  lemma KeepName(r: seq<Name>, sorted: seq<Name>, i: nat)
    requires StrictlySorted(r) && Sorted(NameOrder(), sorted) && i < |sorted|
    requires r != [] ==> i > 0 && r[|r| - 1] == sorted[i - 1] && r[|r| - 1] != sorted[i]
    ensures StrictlySorted(r + [sorted[i]])
  {
    if r != [] {
      var last := r[|r| - 1];
      LexTotal(last, sorted[i]);
      assert !NameOrder()(sorted[i], sorted[i - 1]);
      forall j | 0 <= j < |r| ensures LexLess(r[j], sorted[i]) {
        if j < |r| - 1 { LexTransitive(r[j], last, sorted[i]); }
      }
    }
  }
}
