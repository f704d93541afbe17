/** sort.Strings, and the one sorted listing a set of strings has. */
module Sorting {
  /** Go's string order. */
  predicate Le(a: string, b: string) {
    |a| == 0 || (|b| != 0 && (a[0] < b[0] || (a[0] == b[0] && Le(a[1..], b[1..]))))
  }

  lemma {:induction false} LeTotal(a: string, b: string)
    ensures Le(a, b) || Le(b, a)
  {
    if |a| != 0 && |b| != 0 && a[0] == b[0] {
      LeTotal(a[1..], b[1..]);
    }
  }

  lemma {:induction false} LeAntisymmetric(a: string, b: string)
    requires Le(a, b) && Le(b, a)
    ensures a == b
  {
    if |a| != 0 && |b| != 0 {
      LeAntisymmetric(a[1..], b[1..]);
      assert a == [a[0]] + a[1..] && b == [b[0]] + b[1..];
    }
  }

  lemma {:induction false} LeTransitive(a: string, b: string, d: string)
    requires Le(a, b) && Le(b, d)
    ensures Le(a, d)
  {
    if |a| != 0 && a[0] == b[0] == d[0] {
      LeTransitive(a[1..], b[1..], d[1..]);
    }
  }

  predicate Sorted(s: seq<string>) {
    forall i, j :: 0 <= i < j < |s| ==> Le(s[i], s[j])
  }

  predicate Distinct<T(==)>(s: seq<T>) {
    forall i, j :: 0 <= i < j < |s| ==> s[i] != s[j]
  }

  lemma TwiceInMultiset<T>(s: seq<T>, i: nat, j: nat)
    requires i < j < |s| && s[i] == s[j]
    ensures 2 <= multiset(s)[s[i]]
  {
    assert s == s[..j] + [s[j]] + s[j + 1..];
    assert s[i] in s[..j];
  }

  predicate Below(x: string, s: seq<string>) {
    forall y :: y in s ==> Le(x, y)
  }

  lemma SortedCons(x: string, s: seq<string>)
    requires Below(x, s) && Sorted(s)
    ensures Sorted([x] + s) && multiset([x] + s) == multiset{x} + multiset(s)
  {
  }

  lemma SortedHead(s: seq<string>)
    requires Sorted(s) && s != []
    ensures Below(s[0], s[1..]) && Sorted(s[1..])
    ensures multiset(s) == multiset{s[0]} + multiset(s[1..])
  {
    assert s == [s[0]] + s[1..];
  }

  lemma {:induction false} LeBelow(x: string, s: seq<string>)
    requires s != [] && Sorted(s) && Le(x, s[0])
    ensures Below(x, s)
  {
    forall y | y in s[1..]
      ensures Le(x, y)
    {
      LeTransitive(x, s[0], y);
    }
  }

  function Insert(s: seq<string>, x: string): (r: seq<string>)
    requires Sorted(s)
    ensures Sorted(r) && multiset(r) == multiset(s) + multiset{x}
    ensures forall y :: y in r ==> y == x || y in s
  {
    if s == [] then [x]
    else if Le(x, s[0]) then
      LeBelow(x, s);
      SortedCons(x, s);
      [x] + s
    else
      LeTotal(x, s[0]);
      SortedHead(s);
      var rest := Insert(s[1..], x);
      SortedCons(s[0], rest);
      [s[0]] + rest
  }

  function SortStrings(s: seq<string>): (r: seq<string>)
    ensures Sorted(r) && multiset(r) == multiset(s)
  {
    if s == [] then [] else
      assert s == s[..|s| - 1] + [s[|s| - 1]];
      Insert(SortStrings(s[..|s| - 1]), s[|s| - 1])
  }

  /** Sorted listings of the same strings are the same list. */
  lemma {:induction false} SortedIsUnique(s: seq<string>, t: seq<string>)
    requires Sorted(s) && Sorted(t) && multiset(s) == multiset(t)
    ensures s == t
  {
    hide Le, Sorted, Below;
    assert |multiset(s)| == |s| && |multiset(t)| == |t|;
    if s != [] {
      SameHead(s, t);
      SortedHead(s);
      SortedHead(t);
      SortedIsUnique(s[1..], t[1..]);
      assert s == [s[0]] + s[1..] && t == [t[0]] + t[1..];
    }
  }

  lemma {:induction false} SameHead(s: seq<string>, t: seq<string>)
    requires Sorted(s) && Sorted(t) && multiset(s) == multiset(t) && s != [] && t != []
    ensures s[0] == t[0]
    ensures multiset(s[1..]) == multiset(t[1..])
  {
    hide Le, Sorted, Below;
    assert s[0] in multiset(t) && t[0] in multiset(s);
    FirstIsLeast(s, t[0]);
    FirstIsLeast(t, s[0]);
    LeAntisymmetric(s[0], t[0]);
    SortedHead(s);
    SortedHead(t);
    assert multiset(s[1..]) == multiset(s) - multiset{s[0]};
    assert multiset(t[1..]) == multiset(t) - multiset{t[0]};
  }

  lemma {:induction false} LeReflexive(a: string)
    ensures Le(a, a)
  {
    if a != [] {
      LeReflexive(a[1..]);
    }
  }

  lemma {:induction false} FirstIsLeast(s: seq<string>, x: string)
    requires Sorted(s) && x in s
    ensures Le(s[0], x)
  {
    LeReflexive(x);
  }

  /** The keys of a map, in the order the source sorts them into. */
  ghost function SortedKeys(keys: set<string>): (r: seq<string>)
    ensures Sorted(r) && multiset(r) == multiset(keys)
  {
    if keys == {} then []
    else
      var k :| k in keys;
      assert multiset(keys) == multiset(keys - {k}) + multiset{k};
      Insert(SortedKeys(keys - {k}), k)
  }

  /** Whatever order a map's keys are collected in, sorting gives the same list. */
  lemma {:induction false} SortingForgetsOrder(collected: seq<string>, keys: set<string>)
    requires multiset(collected) == multiset(keys)
    ensures SortStrings(collected) == SortedKeys(keys)
  {
    SortedIsUnique(SortStrings(collected), SortedKeys(keys));
  }
}
