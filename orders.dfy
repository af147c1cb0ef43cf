/**
 * Enumeration orders. The .NET hash sets and dictionaries of the modelled code
 * enumerate in an order the code does not depend on for its results; the model
 * fixes one: increasing node id for sets of nodes, and ordinal (character code)
 * order for strings, which is also the order used where the code sorts by key.
 */
module Orders {

  /** s is strictly increasing. */
  predicate StrictlyIncreasing(s: seq<nat>)
  {
    forall i, j :: 0 <= i < j < |s| ==> s[i] < s[j]
  }

  predicate IsMin(m: nat, s: set<nat>)
  {
    m in s && forall y :: y in s ==> m <= y
  }

  lemma {:induction false} MinExists(s: set<nat>)
    requires s != {}
    ensures exists m :: IsMin(m, s)
    decreases |s|
  {
    var x :| x in s;
    var rest := s - {x};
    if rest == {} {
      assert s == {x};
      assert IsMin(x, s);
    } else {
      MinExists(rest);
      var m :| IsMin(m, rest);
      var r := if x < m then x else m;
      forall y | y in s ensures r <= y {
        if y != x { assert y in rest; }
      }
      assert IsMin(r, s);
    }
  }

  function Min(s: set<nat>): (m: nat)
    requires s != {}
    ensures IsMin(m, s)
  {
    MinExists(s);
    var m :| IsMin(m, s); m
  }

  /** The elements of s in increasing order. */
  function Enumerate(s: set<nat>): (r: seq<nat>)
    ensures |r| == |s|
    ensures forall x :: x in r <==> x in s
    ensures StrictlyIncreasing(r)
    decreases |s|
  {
    if s == {} then []
    else
      var m := Min(s);
      var rest := Enumerate(s - {m});
      ConsIncreasing(m, rest);
      [m] + rest
  }

  /** A number below every element of an increasing sequence extends it in front. */
  lemma ConsIncreasing(m: nat, rest: seq<nat>)
    requires StrictlyIncreasing(rest) && forall y :: y in rest ==> m < y
    ensures StrictlyIncreasing([m] + rest)
  {
    var r := [m] + rest;
    forall i, j | 0 <= i < j < |r| ensures r[i] < r[j]
    {
      assert r[j] == rest[j - 1] && r[j] in rest;
      if i > 0 {
        assert r[i] == rest[i - 1];
      }
    }
  }

  /** Ordinal comparison of strings: character by character, a proper prefix first. */
  predicate StrLe(a: string, b: string)
  {
    |a| == 0 || (|b| > 0 && (a[0] < b[0] || (a[0] == b[0] && StrLe(a[1..], b[1..]))))
  }

  lemma StrLeTotal(a: string, b: string)
    ensures StrLe(a, b) || StrLe(b, a)
  {
  }

  lemma {:induction false} StrLeAntisymmetric(a: string, b: string)
    requires StrLe(a, b) && StrLe(b, a)
    ensures a == b
  {
    if |a| > 0 && |b| > 0 {
      StrLeAntisymmetric(a[1..], b[1..]);
      assert a == [a[0]] + a[1..];
      assert b == [b[0]] + b[1..];
    }
  }

  lemma {:induction false} StrLeTransitive(a: string, b: string, c: string)
    requires StrLe(a, b) && StrLe(b, c)
    ensures StrLe(a, c)
  {
    if |a| > 0 && |b| > 0 && |c| > 0 && a[0] == b[0] && b[0] == c[0] {
      StrLeTransitive(a[1..], b[1..], c[1..]);
    }
  }

  predicate StrictlySortedStrings(s: seq<string>)
  {
    forall i, j :: 0 <= i < j < |s| ==> StrLe(s[i], s[j]) && s[i] != s[j]
  }

  lemma {:induction false} StrMinExists(s: set<string>)
    requires s != {}
    ensures exists m :: m in s && forall y :: y in s ==> StrLe(m, y)
  {
    var x :| x in s;
    if s - {x} != {} {
      StrMinExists(s - {x});
      var m :| m in s - {x} && forall y :: y in s - {x} ==> StrLe(m, y);
      StrLeTotal(x, m);
      if StrLe(x, m) {
        BelowMin(x, m, s);
      } else {
        AboveMin(x, m, s);
      }
    } else {
      assert s == {x};
      StrLeReflexive(x);
    }
  }

  /** x at most the least element m of the rest of s is the least element of s. */
  lemma BelowMin(x: string, m: string, s: set<string>)
    requires x in s && StrLe(x, m)
    requires forall y :: y in s - {x} ==> StrLe(m, y)
    ensures forall y :: y in s ==> StrLe(x, y)
  {
    forall y | y in s ensures StrLe(x, y) {
      if y != x { assert y in s - {x}; StrLeTransitive(x, m, y); } else { StrLeReflexive(x); }
    }
  }

  /** x above the least element m of the rest of s leaves m the least element of s. */
  lemma AboveMin(x: string, m: string, s: set<string>)
    requires x in s && m in s && StrLe(m, x)
    requires forall y :: y in s - {x} ==> StrLe(m, y)
    ensures forall y :: y in s ==> StrLe(m, y)
  {
    forall y | y in s ensures StrLe(m, y) {
      if y != x { assert y in s - {x}; }
    }
  }

  lemma StrLeReflexive(a: string)
    ensures StrLe(a, a)
  {
  }

  function StrMin(s: set<string>): (m: string)
    requires s != {}
    ensures m in s && forall y :: y in s ==> StrLe(m, y)
  {
    StrMinExists(s);
    StrMinUnique(s);
    var m :| m in s && forall y :: y in s ==> StrLe(m, y); m
  }

  lemma StrMinUnique(s: set<string>)
    ensures forall m1, m2 :: m1 in s && m2 in s && (forall y :: y in s ==> StrLe(m1, y)) && (forall y :: y in s ==> StrLe(m2, y)) ==> m1 == m2
  {
    forall m1, m2 | m1 in s && m2 in s && (forall y :: y in s ==> StrLe(m1, y)) && (forall y :: y in s ==> StrLe(m2, y))
      ensures m1 == m2
    {
      StrLeAntisymmetric(m1, m2);
    }
  }

  /** The strings of s in increasing ordinal order. */
  function SortStrings(s: set<string>): (r: seq<string>)
    ensures |r| == |s|
    ensures forall x :: x in r <==> x in s
    ensures StrictlySortedStrings(r)
    decreases |s|
  {
    if s == {} then []
    else
      var m := StrMin(s);
      var rest := SortStrings(s - {m});
      ConsSorted(m, rest);
      [m] + rest
  }

  /** A string below every element of a sorted sequence, and not in it, extends it in front. */
  lemma ConsSorted(m: string, rest: seq<string>)
    requires StrictlySortedStrings(rest) && m !in rest
    requires forall y :: y in rest ==> StrLe(m, y)
    ensures StrictlySortedStrings([m] + rest)
  {
    var r := [m] + rest;
    forall i, j | 0 <= i < j < |r| ensures StrLe(r[i], r[j]) && r[i] != r[j]
    {
      if i == 0 {
        assert r[j] == rest[j - 1] && r[j] in rest;
      } else {
        assert r[i] == rest[i - 1] && r[j] == rest[j - 1];
      }
    }
  }
}
