/**
 * The order in which ToSutParameters lists the unique parameters
 * (TestConfigurationExtention.UniqueParameterComparer and the final OrderBy):
 * roots first, then by the length of the chain of first parents.
 */
module ParameterOrder {
  import opened Wrappers
  import ParameterCompiler

  /** The parent links (parent, child) in the order LinkChild made them. */
  type Links = seq<(string, string)>

  /** Parents.Any(): some link names m as its child. */
  predicate HasParent(links: Links, m: string)
  {
    exists i :: 0 <= i < |links| && links[i].1 == m
  }

  /**
   * Parents.First().Value: the parent of the first link to m. Linking the same
   * parent again replaces the dictionary entry in place, so the first entry
   * belongs to the first link made.
   */
  function FirstParent(links: Links, m: string): (p: string)
    requires HasParent(links, m)
    ensures exists i :: 0 <= i < |links| && links[i] == (p, m) && forall j :: 0 <= j < i ==> links[j].1 != m
  {
    if links[0].1 == m then links[0].0
    else
      var i :| 0 <= i < |links| && links[i].1 == m;
      assert links[1..][i - 1] == links[i];
      var p := FirstParent(links[1..], m);
      var k :| 0 <= k < |links[1..]| && links[1..][k] == (p, m) && forall j :: 0 <= j < k ==> links[1..][j].1 != m;
      assert links[k + 1] == (p, m);
      assert forall j :: 0 < j < k + 1 ==> links[j] == links[1..][j - 1];
      p
  }

  /** The number of first-parent steps from m to a root, when it takes at most fuel steps. */
  function Depth(links: Links, m: string, fuel: nat): Option<nat>
    decreases fuel
  {
    if !HasParent(links, m) then Some(0)
    else if fuel == 0 then None
    else
      match Depth(links, FirstParent(links, m), fuel - 1)
      case None => None
      case Some(d) => Some(d + 1)
  }

  /**
   * UniqueParameterComparer.Compare, given fuel for its recursion: a root
   * before a child, and two children as their first parents compare.
   */
  function Compare(links: Links, x: string, y: string, fuel: nat): Option<int>
    decreases fuel
  {
    if !HasParent(links, x) then Some(if !HasParent(links, y) then 0 else -1)
    else if !HasParent(links, y) then Some(1)
    else if fuel == 0 then None
    else Compare(links, FirstParent(links, x), FirstParent(links, y), fuel - 1)
  }

  function Sign(n: int): int
  {
    if n < 0 then -1 else if n == 0 then 0 else 1
  }

  /** The comparer orders parameters by their depth. */
  lemma {:induction false} CompareByDepth(links: Links, x: string, y: string, fuel: nat)
    requires Depth(links, x, fuel).Some? && Depth(links, y, fuel).Some?
    ensures Compare(links, x, y, fuel) == Some(Sign(Depth(links, x, fuel).value - Depth(links, y, fuel).value))
    decreases fuel
  {
    if HasParent(links, x) && HasParent(links, y) {
      CompareByDepth(links, FirstParent(links, x), FirstParent(links, y), fuel - 1);
    }
  }

  /** Swapping the arguments negates the comparison. */
  lemma {:induction false} CompareAntisymmetric(links: Links, x: string, y: string, fuel: nat)
    ensures Compare(links, x, y, fuel).Some? <==> Compare(links, y, x, fuel).Some?
    ensures Compare(links, x, y, fuel).Some? ==> Compare(links, y, x, fuel).value == -Compare(links, x, y, fuel).value
    decreases fuel
  {
    if HasParent(links, x) && HasParent(links, y) && fuel > 0 {
      CompareAntisymmetric(links, FirstParent(links, x), FirstParent(links, y), fuel - 1);
    }
  }

  predicate SortedBy(s: seq<string>, rank: string -> nat)
  {
    forall i, j :: 0 <= i < j < |s| ==> rank(s[i]) <= rank(s[j])
  }

  /** The elements of s of rank k, in order. */
  function OfRank(s: seq<string>, rank: string -> nat, k: nat): seq<string>
  {
    if s == [] then []
    else OfRank(s[..|s| - 1], rank, k) + (if rank(s[|s| - 1]) == k then [s[|s| - 1]] else [])
  }

  /** x placed after every element of s whose rank is not above its own. */
  function Insert(s: seq<string>, x: string, rank: string -> nat): (r: seq<string>)
    ensures multiset(r) == multiset(s) + multiset{x}
  {
    if s == [] || rank(s[|s| - 1]) <= rank(x) then
      s + [x]
    else
      var front := s[..|s| - 1];
      assert s == front + [s[|s| - 1]];
      Insert(front, x, rank) + [s[|s| - 1]]
  }

  /** Inserting into a sorted sequence keeps it sorted. */
  lemma {:induction false} InsertSorted(s: seq<string>, x: string, rank: string -> nat)
    requires SortedBy(s, rank)
    ensures SortedBy(Insert(s, x, rank), rank)
  {
    if s != [] && rank(s[|s| - 1]) > rank(x) {
      var front := s[..|s| - 1];
      var last := s[|s| - 1];
      InsertSorted(front, x, rank);
      var r0 := Insert(front, x, rank);
      var r := r0 + [last];
      forall i, j | 0 <= i < j < |r| ensures rank(r[i]) <= rank(r[j])
      {
        if j == |r| - 1 {
          assert r[i] == r0[i] && r[i] in multiset(r0);
          if r[i] != x {
            assert r[i] in multiset(front);
            var k :| 0 <= k < |front| && front[k] == r[i];
            assert s[k] == r[i];
          }
        } else {
          assert r[i] == r0[i] && r[j] == r0[j];
        }
      }
    }
  }

  /** Insertion appends x to the elements of its rank and leaves the other ranks alone. */
  lemma {:induction false} InsertOfRank(s: seq<string>, x: string, rank: string -> nat, k: nat)
    ensures OfRank(Insert(s, x, rank), rank, k) == OfRank(s, rank, k) + (if rank(x) == k then [x] else [])
  {
    if s == [] || rank(s[|s| - 1]) <= rank(x) {
      OfRankSnoc(s, x, rank, k);
    } else {
      var front := s[..|s| - 1];
      var last := s[|s| - 1];
      InsertOfRank(front, x, rank, k);
      OfRankSnoc(Insert(front, x, rank), last, rank, k);
      OfRankSnoc(front, last, rank, k);
      assert s == front + [last];
      assert rank(x) == k ==> rank(last) != k;
    }
  }

  lemma OfRankSnoc(s: seq<string>, x: string, rank: string -> nat, k: nat)
    ensures OfRank(s + [x], rank, k) == OfRank(s, rank, k) + (if rank(x) == k then [x] else [])
  {
    assert (s + [x])[..|s|] == s;
  }

  /**
   * Enumerable.OrderBy: a stable sort. The result is sorted, holds the same
   * elements, and keeps the input order among elements of equal rank.
   */
  function SortBy(xs: seq<string>, rank: string -> nat): (r: seq<string>)
    ensures SortedBy(r, rank)
    ensures multiset(r) == multiset(xs)
    ensures forall k :: OfRank(r, rank, k) == OfRank(xs, rank, k)
  {
    if xs == [] then []
    else
      var front := xs[..|xs| - 1];
      var x := xs[|xs| - 1];
      var sorted := SortBy(front, rank);
      assert xs == front + [x];
      InsertSorted(sorted, x, rank);
      assert forall k :: OfRank(Insert(sorted, x, rank), rank, k) == OfRank(xs, rank, k) by {
        forall k ensures OfRank(Insert(sorted, x, rank), rank, k) == OfRank(xs, rank, k) {
          InsertOfRank(sorted, x, rank, k);
        }
      }
      Insert(sorted, x, rank)
  }

  /** The depth each parameter is sorted by, given enough fuel to reach a root. */
  function DepthRank(links: Links): string -> nat
  {
    m => var d := Depth(links, m, |links|); if d.Some? then d.value else 0
  }

  /**
   * uniqueParameters.Values.OrderBy(p => p, UniqueParameterComparer.Instance):
   * none when some parameter's first-parent chain does not reach a root (the
   * comparer's recursion would not end).
   */
  function Ordered(c: ParameterCompiler.Compiled): Option<seq<string>>
  {
    if forall m :: m in c.order ==> Depth(c.links, m, |c.links|).Some? then Some(SortBy(c.order, DepthRank(c.links)))
    else None
  }

  /** Later elements of the ordered list are at least as deep as earlier ones. */
  lemma OrderedDepths(c: ParameterCompiler.Compiled, i: nat, j: nat)
    requires Ordered(c).Some? && i < j < |Ordered(c).value|
    ensures Depth(c.links, Ordered(c).value[i], |c.links|).Some?
    ensures Depth(c.links, Ordered(c).value[j], |c.links|).Some?
    ensures Depth(c.links, Ordered(c).value[i], |c.links|).value <= Depth(c.links, Ordered(c).value[j], |c.links|).value
  {
    var rank := DepthRank(c.links);
    var r := SortBy(c.order, rank);
    assert Ordered(c) == Some(r);
    assert r[i] in c.order && r[j] in c.order by {
      assert r[i] in multiset(r) && r[j] in multiset(r);
    }
    assert rank(r[i]) <= rank(r[j]);
  }

  /** The ordered list agrees with the comparer: no element compares above a later one. */
  lemma OrderedByComparer(c: ParameterCompiler.Compiled, i: nat, j: nat)
    requires Ordered(c).Some? && i < j < |Ordered(c).value|
    ensures Compare(c.links, Ordered(c).value[i], Ordered(c).value[j], |c.links|).Some?
    ensures Compare(c.links, Ordered(c).value[i], Ordered(c).value[j], |c.links|).value <= 0
  {
    OrderedDepths(c, i, j);
    CompareByDepth(c.links, Ordered(c).value[i], Ordered(c).value[j], |c.links|);
  }

  /** The parameters without parents come before all those with one. */
  lemma RootsFirst(c: ParameterCompiler.Compiled, i: nat, j: nat)
    requires Ordered(c).Some? && i < j < |Ordered(c).value|
    requires HasParent(c.links, Ordered(c).value[i])
    ensures HasParent(c.links, Ordered(c).value[j])
  {
    OrderedDepths(c, i, j);
  }
}
