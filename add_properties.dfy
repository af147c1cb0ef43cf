/**
 * What TestModel.Add (ObST.Tester/Domain/TestModel.cs) does to the model as a whole:
 * a path none of whose pairs matches an instance becomes a new chain, listed pair by
 * pair; a path that continues an existing chain is merged into it, so that adding the
 * same path twice lists nothing new; and afterwards the lookup of Delete and GetKeys
 * finds the path's last id.
 */
module AddProperties {
  import opened Wrappers
  import opened Links
  import opened TestModels
  import opened Lookups
  import Orders
  import Products
  import Bindings
  import Queries

  /** The pairs of a path name different mappings. */
  ghost predicate DistinctMappings(path: seq<(string, string)>)
  {
    forall i, j :: 0 <= i < j < |path| ==> path[i].0 != path[j].0
  }

  /** The instances the state lists under m; none without an entry. */
  function Listed(st: State, m: string): set<NodeId>
  {
    if m in st then st[m] else {}
  }

  /**
   * The state after the iterations of Add's loop for the chain nodes base + j - 1
   * down to base + i that found no match: each of them joins the instances of its
   * mapping.
   */
  function Joined(st: State, path: seq<(string, string)>, base: NodeId, i: nat, j: nat): State
    requires i <= j <= |path|
    decreases j - i
  {
    if j == i then st else Joined(Join1(st, path, base, base + j - 1), path, base, i, j - 1)
  }

  /** The state after the iteration for the chain node c: it joins the instances of its mapping. */
  function Join1(st: State, path: seq<(string, string)>, base: NodeId, c: NodeId): State
    requires base <= c < base + |path|
  {
    st[path[c - base].0 := Listed(st, path[c - base].0) + {c}]
  }

  /** Joined leaves alone a mapping that none of the pairs i .. j - 1 names. */
  lemma {:induction false} JoinedMiss(st: State, path: seq<(string, string)>, base: NodeId, i: nat, j: nat, m: string)
    requires i <= j <= |path| && forall q :: i <= q < j ==> path[q].0 != m
    ensures (m in Joined(st, path, base, i, j) <==> m in st) && Listed(Joined(st, path, base, i, j), m) == Listed(st, m)
    decreases j - i
  {
    if j > i {
      JoinedMiss(Join1(st, path, base, base + j - 1), path, base, i, j - 1, m);
    }
  }

  /** With distinct mappings, Joined lists the node base + q under the mapping of the q-th pair. */
  lemma {:induction false} JoinedHit(st: State, path: seq<(string, string)>, base: NodeId, i: nat, j: nat, q: nat)
    requires i <= q < j <= |path| && DistinctMappings(path)
    ensures path[q].0 in Joined(st, path, base, i, j) && Joined(st, path, base, i, j)[path[q].0] == Listed(st, path[q].0) + {base + q}
    decreases j - i
  {
    var st1 := Join1(st, path, base, base + j - 1);
    if q == j - 1 {
      JoinedMiss(st1, path, base, i, j - 1, path[q].0);
    } else {
      JoinedHit(st1, path, base, i, j - 1, q);
      assert Listed(st1, path[q].0) == Listed(st, path[q].0);
    }
  }

  // ---------------------------------------------------------------------------------
  // The lookup along a chain of ids

  /** The q-th pair picks os[q] as the only child with its value under os[q - 1]. */
  ghost predicate LinkedAlong(g: IdGraph, path: seq<(string, string)>, os: seq<NodeId>, q: nat)
    requires Closed(g) && 1 <= q < |path| && |os| == |path|
  {
    os[q - 1] in g && path[q].0 in g[os[q - 1]].children &&
    WithValue(g, g[os[q - 1]].children[path[q].0], path[q].1) == {os[q]}
  }

  /**
   * The ids os are where each segment of path leads: the first pair has os[0] as its
   * only instance with that value, and each later pair os[q] as the only child with
   * its value under os[q - 1].
   */
  ghost predicate Resolves(g: IdGraph, st: State, path: seq<(string, string)>, os: seq<NodeId>)
    requires Wf(g, st)
  {
    |os| == |path| > 0 && (forall i :: 0 <= i < |os| ==> os[i] in g) &&
    path[0].0 in st && WithValue(g, st[path[0].0], path[0].1) == {os[0]} &&
    forall q :: 1 <= q < |path| ==> LinkedAlong(g, path, os, q)
  }

  lemma {:induction false} WalkAlong(g: IdGraph, st: State, path: seq<(string, string)>, os: seq<NodeId>, q: nat)
    requires Wf(g, st) && Resolves(g, st, path, os) && 1 <= q <= |path|
    ensures Walk(g, st, path[q..], Some(os[q - 1]), None) == Success(Some(os[|path| - 1]))
    decreases |path| - q
  {
    if q < |path| {
      assert LinkedAlong(g, path, os, q);
      assert path[q..][0] == path[q] && path[q..][1..] == path[q + 1..];
      WalkAlong(g, st, path, os, q + 1);
    }
  }

  /** Along such ids, the path loop of Delete resolves the path to the last of them. */
  lemma ResolvesToLast(g: IdGraph, st: State, path: seq<(string, string)>, os: seq<NodeId>, last: NodeId)
    requires Wf(g, st) && Resolves(g, st, path, os) && last == os[|os| - 1]
    ensures Resolve(g, st, path) == Success(Some(last))
  {
    WalkAlong(g, st, path, os, 1);
  }

  // ---------------------------------------------------------------------------------
  // Iterations without a match

  /**
   * For each chain node base + q with i <= q < j, no instance of its mapping has the
   * same value and parent.
   */
  ghost predicate Unmatched(g: IdGraph, path: seq<(string, string)>, st: State, base: NodeId, i: nat, j: nat)
    requires Closed(g) && j <= |path|
  {
    forall q :: i <= q < j ==> UnmatchedAt(g, path, st, base, q)
  }

  ghost predicate UnmatchedAt(g: IdGraph, path: seq<(string, string)>, st: State, base: NodeId, q: nat)
    requires Closed(g) && q < |path|
  {
    base + q in g && Descends(g, base + q) &&
    (path[q].0 in st ==> Matching(g, st[path[q].0], base + q) == {})
  }

  /**
   * The iterations of Add's loop at c = base + j - 1 down to base + i, when none of
   * them finds a match, keep the state well formed and the chain pending at
   * base + i - 1.
   */
  lemma {:induction false} UnmatchedRun(g: IdGraph, path: seq<(string, string)>, st: State, base: NodeId, i: nat, j: nat, c: NodeId)
    requires Wf(g, st) && DistinctMappings(path) && i < j <= |path| && c == base + j - 1
    requires Pending(g, path, st, base, c) && Unmatched(g, path, st, base, i, j)
    ensures Wf(g, Joined(st, path, base, i, j))
    ensures i > 0 ==> Pending(g, path, Joined(st, path, base, i, j), base, base + i - 1)
    decreases j - i
  {
    var st1 := Join1(st, path, base, c);
    assert Joined(st, path, base, i, j) == Joined(st1, path, base, i, j - 1);
    assert UnmatchedAt(g, path, st, base, j - 1);
    UnmatchedStep(g, path, st, base, c);
    if j - 1 > i {
      UnmatchedShift(g, path, st, base, i, j);
      UnmatchedRun(g, path, st1, base, i, j - 1, c - 1);
    } else {
      assert Joined(st1, path, base, i, j - 1) == st1;
    }
  }

  /**
   * ... and in them, from the chain's last node on, the arena stays as it is, the
   * nodes join the state and the loop ends without an exception.
   */
  lemma {:induction false} UnmatchedLoop(g: IdGraph, path: seq<(string, string)>, st: State, base: NodeId, j: nat, c: NodeId, js: State)
    requires Wf(g, st) && DistinctMappings(path) && 0 < j <= |path| && c == base + j - 1
    requires Pending(g, path, st, base, c) && Unmatched(g, path, st, base, 0, j)
    requires js == Joined(st, path, base, 0, j)
    ensures Deferred(j, g, path, st, base, c) == Outcome(g, js, None)
    decreases j
  {
    var st1 := Join1(st, path, base, c);
    assert js == Joined(st1, path, base, 0, j - 1);
    assert UnmatchedAt(g, path, st, base, j - 1);
    UnmatchedStep(g, path, st, base, c);
    if j > 1 {
      UnmatchedShift(g, path, st, base, 0, j);
      UnmatchedLoop(g, path, st1, base, j - 1, c - 1, js);
      UnmatchedThen(g, path, st, base, c, st1, j, Outcome(g, js, None));
    } else {
      assert js == st1;
      UnmatchedStepLoop(g, path, st, base, c);
      DeferredIs(j, g, path, st, base, c);
    }
  }

  /** An iteration without a match at c, followed by a loop from c - 1 with outcome out. */
  lemma UnmatchedThen(g: IdGraph, path: seq<(string, string)>, st: State, base: NodeId, c: NodeId, st1: State, k: nat, out: Outcome)
    requires Ready(g, path, st, base, c) && base < c < base + |path|
    requires Descends(g, c) && (path[c - base].0 in st ==> Matching(g, st[path[c - base].0], c) == {})
    requires st1 == Join1(st, path, base, c) && Ready(g, path, st1, base, c - 1)
    requires k > 0 && Deferred(k - 1, g, path, st1, base, c - 1) == out
    ensures Deferred(k, g, path, st, base, c) == out
  {
    DeferredIs(k - 1, g, path, st1, base, c - 1);
    UnmatchedStepOn(g, path, st, base, c, st1);
    DeferredIs(k, g, path, st, base, c);
  }

  /** The loop from c goes on from c - 1 with the joined state. */
  lemma UnmatchedStepOn(g: IdGraph, path: seq<(string, string)>, st: State, base: NodeId, c: NodeId, st1: State)
    requires Ready(g, path, st, base, c) && base < c < base + |path|
    requires Descends(g, c) && (path[c - base].0 in st ==> Matching(g, st[path[c - base].0], c) == {})
    requires st1 == Join1(st, path, base, c) && Ready(g, path, st1, base, c - 1)
    ensures AddLoop(g, path, st, base, Some(c)) == AddLoop(g, path, st1, base, Some(c - 1))
  {
    UnmatchedStepLoop(g, path, st, base, c);
  }

  /** Add's loop may go on from c. */
  ghost predicate Ready(g: IdGraph, path: seq<(string, string)>, st: State, base: NodeId, c: NodeId)
  {
    Wf(g, st) && Pending(g, path, st, base, c)
  }

  /**
   * AddLoop from c behind k calls that only count down: a lemma about Deferred keeps
   * the solver from unfolding the loop until DeferredIs is called.
   */
  function Deferred(k: nat, g: IdGraph, path: seq<(string, string)>, st: State, base: NodeId, c: NodeId): Outcome
    requires Ready(g, path, st, base, c)
    decreases k
  {
    if k == 0 then AddLoop(g, path, st, base, Some(c)) else Deferred(k - 1, g, path, st, base, c)
  }

  lemma {:induction false} DeferredIs(k: nat, g: IdGraph, path: seq<(string, string)>, st: State, base: NodeId, c: NodeId)
    requires Ready(g, path, st, base, c)
    ensures Deferred(k, g, path, st, base, c) == AddLoop(g, path, st, base, Some(c))
    decreases k
  {
    if k > 0 {
      DeferredIs(k - 1, g, path, st, base, c);
    }
  }


  /** One iteration without a match: the node joins the instances of its mapping ... */
  lemma UnmatchedStep(g: IdGraph, path: seq<(string, string)>, st: State, base: NodeId, c: NodeId)
    requires Wf(g, st) && Pending(g, path, st, base, c) && base + |path| > c
    requires Descends(g, c) && (path[c - base].0 in st ==> Matching(g, st[path[c - base].0], c) == {})
    ensures Wf(g, Join1(st, path, base, c)) && (c > base ==> Pending(g, path, Join1(st, path, base, c), base, c - 1))
  {
    assert ChainAt(g, path, base, c);
    ChainParent(g, path, st, base, c);
    AddedKeeps(g, path, st, base, c);
    if c > base {
      AddedPending(g, path, st, base, c);
    }
  }

  /** ... and the loop goes on from there. */
  lemma UnmatchedStepLoop(g: IdGraph, path: seq<(string, string)>, st: State, base: NodeId, c: NodeId)
    requires Wf(g, st) && Pending(g, path, st, base, c) && base + |path| > c
    requires Descends(g, c) && (path[c - base].0 in st ==> Matching(g, st[path[c - base].0], c) == {})
    ensures (UnmatchedStep(g, path, st, base, c);
      AddLoop(g, path, st, base, Some(c)) ==
      AddLoop(g, path, Join1(st, path, base, c), base, if c == base then None else Some(c - 1)))
  {
    UnmatchedStep(g, path, st, base, c);
    assert ChainAt(g, path, base, c);
    ChainParent(g, path, st, base, c);
    AddStepNoMatch(g, st, c);
    AddStepKeeps(g, path, st, base, c);
  }

  /** The chain nodes below keep their mappings' instances when another mapping gains one. */
  lemma UnmatchedShift(g: IdGraph, path: seq<(string, string)>, st: State, base: NodeId, i: nat, j: nat)
    requires Closed(g) && DistinctMappings(path) && i < j - 1 && j <= |path|
    requires Unmatched(g, path, st, base, i, j)
    ensures Unmatched(g, path, Join1(st, path, base, base + j - 1), base, i, j - 1)
  {
    var st1 := Join1(st, path, base, base + j - 1);
    forall q | i <= q < j - 1
      ensures UnmatchedAt(g, path, st1, base, q)
    {
      assert path[q].0 != path[j - 1].0;
      assert UnmatchedAt(g, path, st, base, q);
    }
  }

  /**
   * Add(values) when no pair of values matches an instance, the mappings being
   * distinct: no exception, the arena is ToIdModel's chain at base .. base + |values| - 1,
   * each chain node joins the instances of its mapping, and the path loop of Delete
   * resolves values to the last chain node.
   */
  lemma AddUnmatched(nodes: IdGraph, state: State, base: NodeId, values: seq<(string, string)>)
    requires Wf(nodes, state) && (forall n :: n in nodes ==> n < base) && |values| > 0 && DistinctMappings(values)
    requires Wf(WithChain(nodes, values, base, |values|), state)
    requires Unmatched(WithChain(nodes, values, base, |values|), values, state, base, 0, |values|)
    ensures AddSpec(nodes, state, base, values) ==
      Outcome(WithChain(nodes, values, base, |values|), Joined(state, values, base, 0, |values|), None)
    ensures Resolve(AddSpec(nodes, state, base, values).nodes, AddSpec(nodes, state, base, values).state, values) ==
      Success(Some(base + |values| - 1))
  {
    AddUnmatchedOutcome(nodes, state, base, values);
    ChainJoinedWf(nodes, state, base, values);
    ChainResolvesToLast(nodes, state, base, values, WithChain(nodes, values, base, |values|), Joined(state, values, base, 0, |values|));
  }

  /** The ids of a chain of n nodes from base. */
  function ChainIds(base: NodeId, n: nat): (os: seq<NodeId>)
    ensures |os| == n && forall q :: 0 <= q < n ==> os[q] == base + q
  {
    seq(n, q requires 0 <= q < n => base + q)
  }

  /** The loop of the unmatched Add, from the last chain node down to the first. */
  lemma AddUnmatchedOutcome(nodes: IdGraph, state: State, base: NodeId, values: seq<(string, string)>)
    requires Wf(nodes, state) && (forall n :: n in nodes ==> n < base) && |values| > 0 && DistinctMappings(values)
    requires Wf(WithChain(nodes, values, base, |values|), state)
    requires Unmatched(WithChain(nodes, values, base, |values|), values, state, base, 0, |values|)
    ensures AddSpec(nodes, state, base, values) ==
      Outcome(WithChain(nodes, values, base, |values|), Joined(state, values, base, 0, |values|), None)
  {
    var n := |values|;
    var c := base + n - 1;
    var w := WithChain(nodes, values, base, n);
    AddSpecStart(nodes, state, base, values, Some(c));
    UnmatchedLoop(w, values, state, base, n, c, Joined(state, values, base, 0, n));
    DeferredIs(n, w, values, state, base, c);
  }

  /** The fresh chain is where the path leads after the unmatched Add. */
  lemma ChainResolves(nodes: IdGraph, state: State, base: NodeId, values: seq<(string, string)>, os: seq<NodeId>)
    requires Wf(nodes, state) && (forall n :: n in nodes ==> n < base) && |values| > 0 && DistinctMappings(values)
    requires Wf(WithChain(nodes, values, base, |values|), state)
    requires Unmatched(WithChain(nodes, values, base, |values|), values, state, base, 0, |values|)
    requires |os| == |values| && forall q :: 0 <= q < |os| ==> os[q] == base + q
    ensures Wf(WithChain(nodes, values, base, |values|), Joined(state, values, base, 0, |values|))
    ensures Resolves(WithChain(nodes, values, base, |values|), Joined(state, values, base, 0, |values|), values, os)
  {
    var n := |values|;
    var w := WithChain(nodes, values, base, n);
    ChainRoot(nodes, state, base, values);
    WithChainShape(nodes, values, base, n);
    forall q | 1 <= q < n
      ensures LinkedAlong(w, values, os, q)
    {
      ChainLinkedAt(nodes, values, base, os, q);
    }
  }

  /** After the unmatched loop the first chain node is the one instance of its mapping with its value. */
  lemma ChainRoot(nodes: IdGraph, state: State, base: NodeId, values: seq<(string, string)>)
    requires Wf(nodes, state) && (forall n :: n in nodes ==> n < base) && |values| > 0 && DistinctMappings(values)
    requires Wf(WithChain(nodes, values, base, |values|), state)
    requires Unmatched(WithChain(nodes, values, base, |values|), values, state, base, 0, |values|)
    ensures var w, st := WithChain(nodes, values, base, |values|), Joined(state, values, base, 0, |values|);
      Wf(w, st) && values[0].0 in st && WithValue(w, st[values[0].0], values[0].1) == {base}
  {
    ChainJoinedWf(nodes, state, base, values);
    JoinedHit(state, values, base, 0, |values|, 0);
    RootUnmatched(nodes, state, base, values);
  }

  /** The unmatched loop keeps the state well formed. */
  lemma ChainJoinedWf(nodes: IdGraph, state: State, base: NodeId, values: seq<(string, string)>)
    requires Wf(nodes, state) && (forall n :: n in nodes ==> n < base) && |values| > 0 && DistinctMappings(values)
    requires Wf(WithChain(nodes, values, base, |values|), state)
    requires Unmatched(WithChain(nodes, values, base, |values|), values, state, base, 0, |values|)
    ensures Wf(WithChain(nodes, values, base, |values|), Joined(state, values, base, 0, |values|))
  {
    WithChainPending(nodes, state, values, base);
    UnmatchedRun(WithChain(nodes, values, base, |values|), values, state, base, 0, |values|, base + |values| - 1);
  }

  /** Each chain node has its successor as the one child with the next pair's value. */
  lemma ChainLinkedAt(nodes: IdGraph, values: seq<(string, string)>, base: NodeId, os: seq<NodeId>, q: nat)
    requires (forall n :: n in nodes ==> n < base) && 1 <= q < |values| && |os| == |values|
    requires Closed(WithChain(nodes, values, base, |values|)) && os[q - 1] == base + q - 1 && os[q] == base + q
    ensures LinkedAlong(WithChain(nodes, values, base, |values|), values, os, q)
  {
    var w := WithChain(nodes, values, base, |values|);
    WithChainAt(nodes, values, base, |values|, base + q - 1);
    WithChainAt(nodes, values, base, |values|, base + q);
    assert w[base + q - 1].children[values[q].0] == {base + q};
    assert WithValue(w, {base + q}, values[q].1) == {base + q};
  }

  /** No earlier instance of the first pair's mapping has its value. */
  lemma RootUnmatched(nodes: IdGraph, state: State, base: NodeId, values: seq<(string, string)>)
    requires Wf(nodes, state) && (forall n :: n in nodes ==> n < base) && |values| > 0
    requires Wf(WithChain(nodes, values, base, |values|), state)
    requires Unmatched(WithChain(nodes, values, base, |values|), values, state, base, 0, |values|)
    ensures var w := WithChain(nodes, values, base, |values|);
      base in w && WithValue(w, Listed(state, values[0].0) + {base}, values[0].1) == {base}
  {
    var w := WithChain(nodes, values, base, |values|);
    WithChainShape(nodes, values, base, |values|);
    assert w[base] == ChainNode(values, base, |values|, base);
    assert FirstParent(w[base]).None?;
    forall b | b in Listed(state, values[0].0)
      ensures w[b].data.value != values[0].1
    {
      assert UnmatchedAt(w, values, state, base, 0);
      assert b in w && b !in Matching(w, state[values[0].0], base);
      assert w[b].mapping == values[0].0;
    }
  }

  /** The path loop of Delete follows the fresh chain w, with the joined state js, to its last node. */
  lemma ChainResolvesToLast(nodes: IdGraph, state: State, base: NodeId, values: seq<(string, string)>, w: IdGraph, js: State)
    requires Wf(nodes, state) && (forall n :: n in nodes ==> n < base) && |values| > 0 && DistinctMappings(values)
    requires w == WithChain(nodes, values, base, |values|) && js == Joined(state, values, base, 0, |values|)
    requires Wf(w, state) && Unmatched(w, values, state, base, 0, |values|) && Wf(w, js)
    ensures Resolve(w, js, values) == Success(Some(base + |values| - 1))
  {
    var os := ChainIds(base, |values|);
    ChainResolves(nodes, state, base, values, os);
    ResolvesToLast(w, js, values, os, base + |values| - 1);
  }

  // ---------------------------------------------------------------------------------
  // A pair that already resolves

  /** A one-pair path resolves to x exactly when x is the one instance of its mapping with its value. */
  lemma ResolveSingle(nodes: IdGraph, state: State, p: (string, string), x: NodeId)
    requires Wf(nodes, state)
    ensures Resolve(nodes, state, [p]) == Success(Some(x)) <==>
      p.0 in state && WithValue(nodes, state[p.0], p.1) == {x}
  {
    assert [p][1..] == [];
    if p.0 in state && WithValue(nodes, state[p.0], p.1) == {x} {
      var r := SingleOrDefault(WithValue(nodes, state[p.0], p.1));
      assert |WithValue(nodes, state[p.0], p.1)| == 1;
      assert r.Success? && r.value.Some? && r.value.value in {x};
      assert Step(nodes, state, None, p.0, p.0, p.1) == Success(Some(x));
      assert Walk(nodes, state, [], Some(x), None) == Success(Some(x));
    } else if p.0 in state {
      var r := SingleOrDefault(WithValue(nodes, state[p.0], p.1));
      if r.Success? && r.value.Some? {
        assert Walk(nodes, state, [], r.value, None) == Success(r.value);
      }
    }
  }

  /**
   * Add([p]) when p already resolves to x: the fresh IdModel matches x alone, so it is
   * merged into x; the state is as it was, no exception is thrown and p still resolves
   * to x.
   */
  lemma AddResolvedPair(nodes: IdGraph, state: State, base: NodeId, p: (string, string), x: NodeId)
    requires Wf(nodes, state) && (forall n :: n in nodes ==> n < base)
    requires Resolve(nodes, state, [p]) == Success(Some(x))
    ensures AddSpec(nodes, state, base, [p]) == Outcome(nodes[base := Fresh(p)], state, None)
    ensures Resolve(AddSpec(nodes, state, base, [p]).nodes, AddSpec(nodes, state, base, [p]).state, [p]) == Success(Some(x))
  {
    var w := nodes[base := Fresh(p)];
    ResolveSingle(nodes, state, p, x);
    AddSpecStart(nodes, state, base, [p], Some(base));
    assert WithChain(nodes, [p], base, 1) == w;
    FreshMatches(nodes, state, base, p);
    AddStepMerged(w, state, base, x, w);
    assert AddLoop(w, [p], state, base, Some(base)) == Outcome(w, state, None);
    FreshResolves(nodes, state, base, p, x);
  }

  /** The fresh IdModel for p matches exactly the instances of p's mapping with p's value. */
  lemma FreshMatches(nodes: IdGraph, state: State, base: NodeId, p: (string, string))
    requires Wf(nodes, state) && (forall n :: n in nodes ==> n < base) && p.0 in state
    ensures var w := nodes[base := Fresh(p)];
      Closed(w) && Descends(w, base) && Matching(w, state[p.0], base) == WithValue(nodes, state[p.0], p.1)
  {
    var w := nodes[base := Fresh(p)];
    FreshClosed(nodes, base, p);
    forall b | b in state[p.0]
      ensures b in Matching(w, state[p.0], base) <==> b in WithValue(nodes, state[p.0], p.1)
    {
      assert b in nodes && w[b] == nodes[b] && nodes[b].mapping == p.0;
    }
  }

  /** A fresh IdModel without links keeps the arena closed. */
  lemma FreshClosed(nodes: IdGraph, base: NodeId, p: (string, string))
    requires Closed(nodes)
    ensures Closed(nodes[base := Fresh(p)])
  {
    var w := nodes[base := Fresh(p)];
    forall n | n in w
      ensures (forall m :: m in w[n].parents ==> w[n].parents[m] in w) &&
        (forall m :: m in w[n].children ==> w[n].children[m] <= w.Keys)
    {
      if n != base {
        assert w[n] == nodes[n];
      }
    }
  }

  /** The fresh IdModel is in no instance list, so p still resolves to x beside it. */
  lemma FreshResolves(nodes: IdGraph, state: State, base: NodeId, p: (string, string), x: NodeId)
    requires Wf(nodes, state) && (forall n :: n in nodes ==> n < base)
    requires p.0 in state && WithValue(nodes, state[p.0], p.1) == {x}
    ensures Wf(nodes[base := Fresh(p)], state)
    ensures Resolve(nodes[base := Fresh(p)], state, [p]) == Success(Some(x))
  {
    var w := nodes[base := Fresh(p)];
    FreshMatches(nodes, state, base, p);
    assert WithValue(w, state[p.0], p.1) == WithValue(nodes, state[p.0], p.1) by {
      forall b | b in state[p.0]
        ensures w[b] == nodes[b]
      {
        assert b in nodes;
      }
    }
    ResolveSingle(w, state, p, x);
  }

  /**
   * Adding the same pair twice: the first Add lists a fresh IdModel for it, the second
   * is merged into that one and leaves the state as the first left it; both times p
   * resolves to the IdModel of the first.
   */
  lemma AddSamePairTwice(nodes: IdGraph, state: State, base: NodeId, p: (string, string))
    requires Wf(nodes, state) && (forall n :: n in nodes ==> n < base)
    requires p.0 in state ==> WithValue(nodes, state[p.0], p.1) == {}
    ensures var r1 := AddSpec(nodes, state, base, [p]);
      var r2 := AddSpec(r1.nodes, r1.state, base + 1, [p]);
      r1.error.None? && r2.error.None? && r2.state == r1.state &&
      Resolve(r1.nodes, r1.state, [p]) == Success(Some(base)) &&
      Resolve(r2.nodes, r2.state, [p]) == Success(Some(base))
  {
    FreshUnmatched(nodes, state, base, p);
    AddUnmatched(nodes, state, base, [p]);
    var r1 := AddSpec(nodes, state, base, [p]);
    AddResolvedPair(r1.nodes, r1.state, base + 1, p, base);
  }

  /** A pair whose value no instance of its mapping has starts a one-node chain without a match. */
  lemma FreshUnmatched(nodes: IdGraph, state: State, base: NodeId, p: (string, string))
    requires Wf(nodes, state) && (forall n :: n in nodes ==> n < base)
    requires p.0 in state ==> WithValue(nodes, state[p.0], p.1) == {}
    ensures DistinctMappings([p]) && Wf(WithChain(nodes, [p], base, 1), state)
    ensures Unmatched(WithChain(nodes, [p], base, 1), [p], state, base, 0, 1)
  {
    var w := nodes[base := Fresh(p)];
    assert WithChain(nodes, [p], base, 1) == w;
    WithChainPending(nodes, state, [p], base);
    FreshClosed(nodes, base, p);
    if p.0 in state {
      FreshMatches(nodes, state, base, p);
    }
    assert UnmatchedAt(w, [p], state, base, 0);
  }

  // ---------------------------------------------------------------------------------
  // Paths over mappings the state does not list yet

  /** A path none of whose mappings has an instance yet is unmatched throughout its chain. */
  lemma NewMappingsUnmatched(nodes: IdGraph, state: State, base: NodeId, values: seq<(string, string)>)
    requires Wf(nodes, state) && (forall n :: n in nodes ==> n < base) && |values| > 0
    requires forall q :: 0 <= q < |values| ==> values[q].0 !in state
    ensures Wf(WithChain(nodes, values, base, |values|), state)
    ensures Unmatched(WithChain(nodes, values, base, |values|), values, state, base, 0, |values|)
  {
    var w := WithChain(nodes, values, base, |values|);
    WithChainPending(nodes, state, values, base);
    forall q | 0 <= q < |values|
      ensures UnmatchedAt(w, values, state, base, q)
    {
      ChainDescends(w, values, base, base + |values| - 1, base + q);
    }
  }

  // ---------------------------------------------------------------------------------
  // A new tail under a pair that already resolves (AddChildrenToParent)

  /**
   * Add(values) when the first pair already resolves to x, no child of x under the
   * second pair's mapping has the second pair's value, and no later pair matches an
   * instance: no exception; the first pair's chain node is merged into x, so its
   * mapping lists no new instance; every later chain node joins the instances of its
   * mapping; the second chain node hangs under x; and the path loop of Delete
   * resolves values to the last chain node, while the first pair still resolves to x.
   */
  lemma AddUnderResolved(nodes: IdGraph, state: State, base: NodeId, values: seq<(string, string)>, x: NodeId)
    requires Wf(nodes, state) && (forall n :: n in nodes ==> n < base) && |values| >= 2 && DistinctMappings(values)
    requires Resolve(nodes, state, [values[0]]) == Success(Some(x))
    requires values[1].0 in nodes[x].children ==> WithValue(nodes, nodes[x].children[values[1].0], values[1].1) == {}
    requires Wf(WithChain(nodes, values, base, |values|), state)
    requires Unmatched(WithChain(nodes, values, base, |values|), values, state, base, 1, |values|)
    ensures var r := AddSpec(nodes, state, base, values);
      r.error.None? && r.state == Joined(state, values, base, 1, |values|) &&
      (values[0].0 in r.state && r.state[values[0].0] == state[values[0].0]) &&
      (forall q :: 1 <= q < |values| ==> values[q].0 in r.state && r.state[values[q].0] == Listed(state, values[q].0) + {base + q}) &&
      x in r.nodes && values[1].0 in r.nodes[x].children && base + 1 in r.nodes[x].children[values[1].0]
    ensures var r := AddSpec(nodes, state, base, values);
      Resolve(r.nodes, r.state, [values[0]]) == Success(Some(x)) &&
      Resolve(r.nodes, r.state, values) == Success(Some(base + |values| - 1))
  {
    var n := |values|;
    ResolveSingle(nodes, state, values[0], x);
    var g2 := AddUnderResolvedOutcome(nodes, state, base, values, x);
    JoinedTail(state, values, base);
    WithChainPending(nodes, state, values, base);
    WithChainKeepsOld(nodes, values, base, n);
    TailResolves(nodes, state, base, values, x, WithChain(nodes, values, base, n), Joined(state, values, base, 1, n), g2);
  }

  /**
   * The loop of that Add: the chain nodes from the last down to the second join the
   * instances of their mappings, and the first is merged into x.
   */
  lemma AddUnderResolvedOutcome(nodes: IdGraph, state: State, base: NodeId, values: seq<(string, string)>, x: NodeId)
    returns (g2: IdGraph)
    requires Wf(nodes, state) && (forall n :: n in nodes ==> n < base) && |values| >= 2 && DistinctMappings(values)
    requires values[0].0 in state && WithValue(nodes, state[values[0].0], values[0].1) == {x}
    requires Wf(WithChain(nodes, values, base, |values|), state)
    requires Unmatched(WithChain(nodes, values, base, |values|), values, state, base, 1, |values|)
    ensures var js := Joined(state, values, base, 1, |values|);
      AddSpec(nodes, state, base, values) == Outcome(g2, js, None) && Wf(g2, js) &&
      values[0].0 in js && js[values[0].0] == state[values[0].0]
    ensures MergedUnder(WithChain(nodes, values, base, |values|), g2, values, base, x)
  {
    AddSpecStart(nodes, state, base, values, Some(base + |values| - 1));
    g2 := UnderResolvedMerge(nodes, state, base, values, x);
  }

  /** The same on the arena ToIdModel builds, before AddSpec's loop is entered. */
  lemma UnderResolvedMerge(nodes: IdGraph, state: State, base: NodeId, values: seq<(string, string)>, x: NodeId)
    returns (g2: IdGraph)
    requires Wf(nodes, state) && (forall n :: n in nodes ==> n < base) && |values| >= 2 && DistinctMappings(values)
    requires values[0].0 in state && WithValue(nodes, state[values[0].0], values[0].1) == {x}
    requires Wf(WithChain(nodes, values, base, |values|), state)
    requires Unmatched(WithChain(nodes, values, base, |values|), values, state, base, 1, |values|)
    ensures var js := Joined(state, values, base, 1, |values|);
      Wf(g2, js) && values[0].0 in js && js[values[0].0] == state[values[0].0] &&
      Pending(WithChain(nodes, values, base, |values|), values, state, base, base + |values| - 1) &&
      AddLoop(WithChain(nodes, values, base, |values|), values, state, base, Some(base + |values| - 1)) == Outcome(g2, js, None)
    ensures MergedUnder(WithChain(nodes, values, base, |values|), g2, values, base, x)
  {
    var w := WithChain(nodes, values, base, |values|);
    var js := Joined(state, values, base, 1, |values|);
    UnderResolvedStart(nodes, state, base, values, x, w, js);
    g2 := RootMerge(w, values, base, x);
    RootMergeStep(w, values, js, base, x, g2);
    UnderResolvedLoop(w, values, state, base, js, g2);
  }

  /** Before the loop: the chain is pending, and once its tail has joined the state, its first node matches x alone. */
  lemma UnderResolvedStart(nodes: IdGraph, state: State, base: NodeId, values: seq<(string, string)>, x: NodeId, w: IdGraph, js: State)
    requires Wf(nodes, state) && (forall n :: n in nodes ==> n < base) && |values| >= 2 && DistinctMappings(values)
    requires values[0].0 in state && WithValue(nodes, state[values[0].0], values[0].1) == {x}
    requires w == WithChain(nodes, values, base, |values|) && js == Joined(state, values, base, 1, |values|)
    requires Wf(w, state) && Unmatched(w, values, state, base, 1, |values|)
    ensures Pending(w, values, state, base, base + |values| - 1) && Ready(w, values, js, base, base)
    ensures x in w && x < base && base in w && base + 1 in w
    ensures w[base].parents == map[] && w[base].mapping == values[0].0 && w[base].data.value == values[0].1
    ensures w[base].children == map[values[1].0 := {base + 1}]
    ensures w[base + 1].parents == map[values[0].0 := base] && w[base + 1].mapping == values[1].0
    ensures values[0].0 in js && js[values[0].0] == state[values[0].0]
    ensures SingleOrDefault(Matching(w, js[values[0].0], base)) == Success(Some(x))
  {
    WithChainPending(nodes, state, values, base);
    UnmatchedToRoot(w, values, state, base, |values|);
    RootChainShape(nodes, values, base, w);
    StartRoot(nodes, state, base, values, x, w, js);
  }

  /** The unmatched iterations leave the loop at the first chain node. */
  lemma UnmatchedToRoot(g: IdGraph, path: seq<(string, string)>, st: State, base: NodeId, j: nat)
    requires Wf(g, st) && DistinctMappings(path) && 1 < j <= |path|
    requires Pending(g, path, st, base, base + j - 1) && Unmatched(g, path, st, base, 1, j)
    ensures Ready(g, path, Joined(st, path, base, 1, j), base, base)
  {
    UnmatchedRun(g, path, st, base, 1, j, base + j - 1);
    var b := base + 1 - 1;
    assert b == base;
    assert Pending(g, path, Joined(st, path, base, 1, j), base, b);
  }

  /** The first chain node, which has no parent, matches x alone among the old instances. */
  lemma StartRoot(nodes: IdGraph, state: State, base: NodeId, values: seq<(string, string)>, x: NodeId, w: IdGraph, js: State)
    requires Wf(nodes, state) && (forall n :: n in nodes ==> n < base) && |values| >= 2 && DistinctMappings(values)
    requires values[0].0 in state && WithValue(nodes, state[values[0].0], values[0].1) == {x}
    requires w == WithChain(nodes, values, base, |values|) && js == Joined(state, values, base, 1, |values|)
    requires Wf(w, state) && Pending(w, values, state, base, base + |values| - 1)
    requires base in w && w[base].parents == map[] && w[base].mapping == values[0].0 && w[base].data.value == values[0].1
    ensures x in w && x < base
    ensures values[0].0 in js && js[values[0].0] == state[values[0].0]
    ensures SingleOrDefault(Matching(w, js[values[0].0], base)) == Success(Some(x))
  {
    ChainDescends(w, values, base, base + |values| - 1, base);
    WithChainKeepsOld(nodes, values, base, |values|);
    RootInstances(nodes, state, base, values, x, w, js);
  }

  /** The whole loop, from the last chain node: the unmatched iterations, then the merge at the first. */
  lemma UnderResolvedLoop(w: IdGraph, values: seq<(string, string)>, state: State, base: NodeId, js: State, g2: IdGraph)
    requires Wf(w, state) && DistinctMappings(values) && |values| >= 2
    requires Pending(w, values, state, base, base + |values| - 1) && Unmatched(w, values, state, base, 1, |values|)
    requires js == Joined(state, values, base, 1, |values|) && Ready(w, values, js, base, base)
    requires Deferred(0, w, values, js, base, base) == Outcome(g2, js, None)
    ensures AddLoop(w, values, state, base, Some(base + |values| - 1)) == Outcome(g2, js, None)
  {
    UnmatchedDown(w, values, state, base, 1, |values|, base + |values| - 1, 0, |values| - 1, Outcome(g2, js, None));
    DeferredIs(|values| - 1, w, values, state, base, base + |values| - 1);
  }

  /**
   * The first chain node was merged into x: its child, the second chain node, now
   * hangs under x, and nothing else changed but the links of these three nodes.
   */
  ghost predicate MergedUnder(w: IdGraph, g2: IdGraph, values: seq<(string, string)>, base: NodeId, x: NodeId)
    requires |values| >= 2
  {
    base + 1 in w && x in w && g2.Keys == w.Keys &&
    (forall n :: n in w ==> g2[n].mapping == w[n].mapping && g2[n].data == w[n].data) &&
    (forall n :: n in w && n != x && n != base && n != base + 1 ==> g2[n] == w[n]) &&
    g2[base + 1].children == w[base + 1].children &&
    g2[x].children == w[x].children[values[1].0 := ChildrenUnder(w[x], values[1].0) + {base + 1}]
  }

  /** The tail's mappings each list their chain node beside the earlier instances. */
  lemma JoinedTail(state: State, values: seq<(string, string)>, base: NodeId)
    requires |values| >= 1 && DistinctMappings(values)
    ensures forall q :: 1 <= q < |values| ==>
      values[q].0 in Joined(state, values, base, 1, |values|) &&
      Joined(state, values, base, 1, |values|)[values[q].0] == Listed(state, values[q].0) + {base + q}
  {
    forall q | 1 <= q < |values|
      ensures values[q].0 in Joined(state, values, base, 1, |values|) &&
        Joined(state, values, base, 1, |values|)[values[q].0] == Listed(state, values[q].0) + {base + q}
    {
      JoinedHit(state, values, base, 1, |values|, q);
    }
  }

  /**
   * The iterations of Add's loop at the chain nodes base + j - 1 down to base + i,
   * none of which finds a match, hand the loop on to base + i - 1 with the joined
   * state: whatever the loop does from there, it does from base + j - 1.
   */
  lemma {:induction false} UnmatchedDown(g: IdGraph, path: seq<(string, string)>, st: State, base: NodeId, i: nat, j: nat, c: NodeId, k: nat, d: nat, out: Outcome)
    requires Wf(g, st) && DistinctMappings(path) && 0 < i < j <= |path| && c == base + j - 1 && d == k + j - i
    requires Pending(g, path, st, base, c) && Unmatched(g, path, st, base, i, j)
    requires Ready(g, path, Joined(st, path, base, i, j), base, base + i - 1)
    requires Deferred(k, g, path, Joined(st, path, base, i, j), base, base + i - 1) == out
    ensures Ready(g, path, st, base, c)
    ensures Deferred(d, g, path, st, base, c) == out
    decreases j - i
  {
    var st1 := Join1(st, path, base, c);
    assert Joined(st, path, base, i, j) == Joined(st1, path, base, i, j - 1);
    assert UnmatchedAt(g, path, st, base, j - 1);
    UnmatchedStep(g, path, st, base, c);
    if j - 1 > i {
      UnmatchedShift(g, path, st, base, i, j);
      UnmatchedDown(g, path, st1, base, i, j - 1, c - 1, k, d - 1, out);
    } else {
      assert Joined(st1, path, base, i, j - 1) == st1;
      assert c - 1 == base + i - 1 && d - 1 == k;
    }
    UnmatchedThen(g, path, st, base, c, st1, d, out);
  }

  /** The first pair's mapping lists exactly its old instances, and the first chain node matches x alone among them. */
  lemma RootInstances(nodes: IdGraph, state: State, base: NodeId, values: seq<(string, string)>, x: NodeId, w: IdGraph, js: State)
    requires Wf(nodes, state) && |values| >= 2 && DistinctMappings(values)
    requires values[0].0 in state && WithValue(nodes, state[values[0].0], values[0].1) == {x}
    requires js == Joined(state, values, base, 1, |values|)
    requires Closed(w) && Descends(w, base) && (forall n :: n in nodes ==> n in w && w[n] == nodes[n])
    requires w[base].parents == map[] && w[base].mapping == values[0].0 && w[base].data.value == values[0].1
    ensures values[0].0 in js && js[values[0].0] == state[values[0].0]
    ensures SingleOrDefault(Matching(w, js[values[0].0], base)) == Success(Some(x))
  {
    var m0 := values[0].0;
    forall q | 1 <= q < |values|
      ensures values[q].0 != m0
    {
      assert values[0].0 != values[q].0;
    }
    JoinedMiss(state, values, base, 1, |values|, m0);
    RootMatches(nodes, state[m0], w, base, values[0]);
  }

  /** A chain's first node, which has no parent, matches the instances with its value. */
  lemma RootMatches(nodes: IdGraph, ids: set<NodeId>, w: IdGraph, a: NodeId, p: (string, string))
    requires Closed(w) && Descends(w, a) && w[a].parents == map[] && w[a].mapping == p.0 && w[a].data.value == p.1
    requires forall b :: b in ids ==> b in nodes && b in w && w[b] == nodes[b] && nodes[b].mapping == p.0
    ensures Matching(w, ids, a) == WithValue(nodes, ids, p.1)
  {
    assert FirstParent(w[a]) == None;
    forall b | b in ids
      ensures b in Matching(w, ids, a) <==> b in WithValue(nodes, ids, p.1)
    {
    }
  }

  /** The first two chain nodes as ToIdModel leaves them. */
  lemma RootChainShape(nodes: IdGraph, values: seq<(string, string)>, base: NodeId, w: IdGraph)
    requires (forall n :: n in nodes ==> n < base) && |values| >= 2 && w == WithChain(nodes, values, base, |values|)
    ensures base in w && base + 1 in w
    ensures w[base].parents == map[] && w[base].mapping == values[0].0 && w[base].data.value == values[0].1
    ensures w[base].children == map[values[1].0 := {base + 1}]
    ensures w[base + 1].parents == map[values[0].0 := base] && w[base + 1].mapping == values[1].0
  {
    WithChainAt(nodes, values, base, |values|, base);
    WithChainAt(nodes, values, base, |values|, base + 1);
  }

  /**
   * The last iteration, at the first chain node, which matches x alone: its child,
   * the second chain node, moves under x; it has no parent, and the loop ends.
   */
  lemma RootMergeStep(w: IdGraph, values: seq<(string, string)>, js: State, base: NodeId, x: NodeId, g2: IdGraph)
    requires |values| >= 2 && Ready(w, values, js, base, base) && x in w && x != base
    requires w[base].parents == map[] && w[base].mapping == values[0].0 && values[0].0 in js
    requires SingleOrDefault(Matching(w, js[values[0].0], base)) == Success(Some(x))
    requires MergeChild(w, base, x) == Success(g2)
    ensures Deferred(0, w, values, js, base, base) == Outcome(g2, js, None) && Wf(g2, js)
  {
    AddStepKeeps(w, values, js, base, base);
    assert FirstParent(w[base]) == None;
    assert MergeParent(g2, base, x, None) == Success(g2);
    AddStepMerged(w, js, base, x, g2);
    assert AddLoop(g2, values, js, base, None) == Outcome(g2, js, None);
    DeferredIs(0, w, values, js, base, base);
  }

  /** Merging the first chain node into x moves the second chain node under x; only x and these two change. */
  lemma RootMerge(w: IdGraph, values: seq<(string, string)>, base: NodeId, x: NodeId) returns (g2: IdGraph)
    requires Closed(w) && |values| >= 2 && base in w && base + 1 in w && x in w && x != base && x != base + 1
    requires w[base].mapping == values[0].0 && w[base].children == map[values[1].0 := {base + 1}]
    requires w[base + 1].parents == map[values[0].0 := base] && w[base + 1].mapping == values[1].0
    ensures MergeChild(w, base, x) == Success(g2) && MergedUnder(w, g2, values, base, x)
  {
    FirstChildOfSingle(w[base], values[1].0, base + 1);
    var g1 := RootUnlinked(w, values, base);
    g2 := LinkChild(g1, x, base + 1);
    RootRelinked(w, g1, values, base, x);
  }

  /** ... and joins x under the second pair's mapping. */
  lemma RootRelinked(w: IdGraph, g1: IdGraph, values: seq<(string, string)>, base: NodeId, x: NodeId)
    requires |values| >= 2 && base in w && base + 1 in w && x in w && x != base && x != base + 1
    requires w[base + 1].mapping == values[1].0 && g1.Keys == w.Keys
    requires forall n :: n in w ==> g1[n].mapping == w[n].mapping && g1[n].data == w[n].data
    requires forall n :: n in w && n != base && n != base + 1 ==> g1[n] == w[n]
    requires g1[base + 1].children == w[base + 1].children
    ensures MergedUnder(w, LinkChild(g1, x, base + 1), values, base, x)
  {
    LinkChildEffect(g1, x, base + 1);
    LinkChildFrame(g1, x, base + 1);
  }

  /** The second chain node leaves the first: nothing else changes but the first node's children. */
  lemma RootUnlinked(w: IdGraph, values: seq<(string, string)>, base: NodeId) returns (g1: IdGraph)
    requires Closed(w) && |values| >= 2 && base in w && base + 1 in w
    requires w[base].children == map[values[1].0 := {base + 1}]
    requires w[base + 1].parents == map[values[0].0 := base] && w[base + 1].mapping == values[1].0
    ensures RemoveParent(w, base + 1, values[0].0) == Success(g1) && g1.Keys == w.Keys
    ensures forall n :: n in w ==> g1[n].mapping == w[n].mapping && g1[n].data == w[n].data
    ensures forall n :: n in w && n != base && n != base + 1 ==> g1[n] == w[n]
    ensures g1[base + 1].children == w[base + 1].children
  {
    g1 := RemoveParent(w, base + 1, values[0].0).value;
  }

  /** After the merge, the path runs from x down the rest of the chain to its last node. */
  lemma TailResolves(nodes: IdGraph, state: State, base: NodeId, values: seq<(string, string)>, x: NodeId, w: IdGraph, js: State, g2: IdGraph)
    requires Wf(nodes, state) && (forall n :: n in nodes ==> n < base) && |values| >= 2
    requires (forall n :: n in nodes ==> n in w && w[n] == nodes[n]) && Pending(w, values, state, base, base + |values| - 1)
    requires x in nodes && values[0].0 in state && WithValue(nodes, state[values[0].0], values[0].1) == {x}
    requires values[1].0 in nodes[x].children ==> WithValue(nodes, nodes[x].children[values[1].0], values[1].1) == {}
    requires values[0].0 in js && js[values[0].0] == state[values[0].0]
    requires Wf(g2, js) && MergedUnder(w, g2, values, base, x)
    ensures x in g2 && values[1].0 in g2[x].children && base + 1 in g2[x].children[values[1].0]
    ensures Resolve(g2, js, [values[0]]) == Success(Some(x))
    ensures Resolve(g2, js, values) == Success(Some(base + |values| - 1))
  {
    var os := [x] + ChainIds(base + 1, |values| - 1);
    RootStillResolves(nodes, state, w, js, g2, values[0], x);
    TailPath(nodes, state, base, values, x, w, js, g2, os);
    ResolvesToLast(g2, js, values, os, base + |values| - 1);
  }

  /** The ids x, base + 1, ..., base + |values| - 1 are where the segments of values lead. */
  lemma TailPath(nodes: IdGraph, state: State, base: NodeId, values: seq<(string, string)>, x: NodeId, w: IdGraph, js: State, g2: IdGraph, os: seq<NodeId>)
    requires Wf(nodes, state) && (forall n :: n in nodes ==> n < base) && |values| >= 2
    requires (forall n :: n in nodes ==> n in w && w[n] == nodes[n]) && Pending(w, values, state, base, base + |values| - 1)
    requires x in nodes && values[1].0 in nodes[x].children ==> WithValue(nodes, nodes[x].children[values[1].0], values[1].1) == {}
    requires Wf(g2, js) && MergedUnder(w, g2, values, base, x) && x in nodes
    requires values[0].0 in js && WithValue(g2, js[values[0].0], values[0].1) == {x}
    requires os == [x] + ChainIds(base + 1, |values| - 1)
    ensures x in g2 && values[1].0 in g2[x].children && base + 1 in g2[x].children[values[1].0]
    ensures Resolves(g2, js, values, os)
  {
    assert ChainAt(w, values, base, base + 1);
    TailHead(nodes, w, g2, values, base, x, os);
    TailLinked(w, g2, values, state, base, x, os);
    forall i | 1 <= i < |values|
      ensures os[i] in g2
    {
      assert ChainAt(w, values, base, base + i);
    }
  }

  /** The old instances keep their values, so the first pair still resolves to x. */
  lemma RootStillResolves(nodes: IdGraph, state: State, w: IdGraph, js: State, g2: IdGraph, p: (string, string), x: NodeId)
    requires Wf(nodes, state) && Wf(g2, js) && p.0 in state && WithValue(nodes, state[p.0], p.1) == {x}
    requires p.0 in js && js[p.0] == state[p.0]
    requires forall n :: n in nodes ==> n in w && w[n] == nodes[n]
    requires g2.Keys == w.Keys && forall n :: n in w ==> g2[n].data == w[n].data
    ensures WithValue(g2, js[p.0], p.1) == {x}
    ensures Resolve(g2, js, [p]) == Success(Some(x))
  {
    assert WithValue(g2, js[p.0], p.1) == WithValue(nodes, state[p.0], p.1) by {
      forall b | b in state[p.0]
        ensures b in g2 && g2[b].data == nodes[b].data
      {
        assert b in nodes;
      }
    }
    ResolveSingle(g2, js, p, x);
  }

  /** Under x, the second chain node is the one child with the second pair's value. */
  lemma TailHead(nodes: IdGraph, w: IdGraph, g2: IdGraph, values: seq<(string, string)>, base: NodeId, x: NodeId, os: seq<NodeId>)
    requires Closed(nodes) && Closed(g2) && |values| >= 2 && x in nodes
    requires forall n :: n in nodes ==> n in w && w[n] == nodes[n]
    requires values[1].0 in nodes[x].children ==> WithValue(nodes, nodes[x].children[values[1].0], values[1].1) == {}
    requires ChainAt(w, values, base, base + 1)
    requires MergedUnder(w, g2, values, base, x)
    requires |os| == |values| && os[0] == x && os[1] == base + 1
    ensures values[1].0 in g2[x].children && base + 1 in g2[x].children[values[1].0]
    ensures LinkedAlong(g2, values, os, 1)
  {
    forall b | b in g2[x].children[values[1].0]
      ensures b in g2 && (g2[b].data.value == values[1].1 <==> b == base + 1)
    {
      if b != base + 1 {
        assert b in nodes[x].children[values[1].0];
      }
    }
  }

  /** From the second chain node on, the path follows the chain. */
  lemma TailLinked(w: IdGraph, g2: IdGraph, values: seq<(string, string)>, state: State, base: NodeId, x: NodeId, os: seq<NodeId>)
    requires Closed(g2) && |values| >= 2 && x < base && Pending(w, values, state, base, base + |values| - 1)
    requires MergedUnder(w, g2, values, base, x)
    requires |os| == |values| && forall q :: 1 <= q < |os| ==> os[q] == base + q
    ensures forall q :: 2 <= q < |values| ==> LinkedAlong(g2, values, os, q)
  {
    forall q | 2 <= q < |values|
      ensures LinkedAlong(g2, values, os, q)
    {
      var j := base + q - 1;
      assert ChainNext(w, values, base, j) && ChainAt(w, values, base, j + 1);
      TailLinkedAt(w, g2, values, base, x, os, q);
    }
  }

  /** Further down, each chain node keeps its successor as its one child. */
  lemma TailLinkedAt(w: IdGraph, g2: IdGraph, values: seq<(string, string)>, base: NodeId, x: NodeId, os: seq<NodeId>, q: nat)
    requires Closed(g2) && 2 <= q < |values| && x < base
    requires ChainNext(w, values, base, base + q - 1) && ChainAt(w, values, base, base + q)
    requires MergedUnder(w, g2, values, base, x)
    requires |os| == |values| && os[q - 1] == base + q - 1 && os[q] == base + q
    ensures LinkedAlong(g2, values, os, q)
  {
    var j := base + q - 1;
    assert g2[j].children == w[j].children;
    assert WithValue(g2, {j + 1}, values[q].1) == {j + 1};
  }

  // ---------------------------------------------------------------------------------
  // Two pets with the same collar id (AddChildrenToParent_SameChildId)

  /** The path of a pet and its collar 45. */
  function PetCollar(pet: string): seq<(string, string)>
  {
    [("pets:id", pet), ("collar:id", "45")]
  }

  /**
   * From an empty model: Add(pet 123, collar 45), then Add(pet 124, collar 45). The
   * second collar is not merged into the first, whose parent has another value, so
   * each path resolves to its own collar (ids 1 and 3), and Delete(pet 123, collar 45)
   * marks collar 1 alone: collar 3 stays live.
   */
  lemma SameCollarId()
    ensures var r1 := AddSpec(map[], map[], 0, PetCollar("123"));
      var r2 := AddSpec(r1.nodes, r1.state, 2, PetCollar("124"));
      r1.error.None? && r2.error.None? &&
      Resolve(r2.nodes, r2.state, PetCollar("123")) == Success(Some(1)) &&
      Resolve(r2.nodes, r2.state, PetCollar("124")) == Success(Some(3)) &&
      (forall s :: Cascade(r2.nodes, 1, s) ==> s == {1}) &&
      3 in r2.nodes && !r2.nodes[3].data.isDeleted
  {
    var p1, p2 := PetCollar("123"), PetCollar("124");
    var w1, s1 := WithChain(map[], p1, 0, 2), Joined(map[], p1, 0, 0, 2);
    NewMappingsUnmatched(map[], map[], 0, p1);
    AddUnmatched(map[], map[], 0, p1);
    SecondCollarUnmatched(w1, s1);
    AddUnmatched(w1, s1, 2, p2);
    var w2, s2 := WithChain(w1, p2, 2, 2), Joined(s1, p2, 2, 0, 2);
    FirstCollarResolves(w1, s1, w2, s2);
    FirstCollarAlone(w1, w2);
  }

  /** After the first Add: the chain 0 - 1, listed under its mappings. */
  lemma FirstCollarShape(w1: IdGraph, s1: State)
    requires w1 == WithChain(map[], PetCollar("123"), 0, 2) && s1 == Joined(map[], PetCollar("123"), 0, 0, 2)
    ensures w1.Keys == {0, 1}
    ensures w1[0] == ChainNode(PetCollar("123"), 0, 2, 0) && w1[1] == ChainNode(PetCollar("123"), 0, 2, 1)
    ensures "pets:id" in s1 && s1["pets:id"] == {0} && "collar:id" in s1 && s1["collar:id"] == {1}
  {
    WithChainShape(map[], PetCollar("123"), 0, 2);
    JoinedHit(map[], PetCollar("123"), 0, 0, 2, 0);
    JoinedHit(map[], PetCollar("123"), 0, 0, 2, 1);
  }

  /** After the second chain 2 - 3 is built: the old nodes stay, the new ones carry pet 124 and collar 45. */
  lemma SecondCollarShape(w1: IdGraph, w2: IdGraph)
    requires w1 == WithChain(map[], PetCollar("123"), 0, 2) && w2 == WithChain(w1, PetCollar("124"), 2, 2)
    ensures w2.Keys == {0, 1, 2, 3}
    ensures w2[0] == ChainNode(PetCollar("123"), 0, 2, 0) && w2[1] == ChainNode(PetCollar("123"), 0, 2, 1)
    ensures w2[2] == ChainNode(PetCollar("124"), 2, 2, 2) && w2[3] == ChainNode(PetCollar("124"), 2, 2, 3)
  {
    WithChainShape(map[], PetCollar("123"), 0, 2);
    WithChainShape(w1, PetCollar("124"), 2, 2);
  }

  /** The second path matches nothing: pet 124 is new, and collar 1 hangs under pet 123. */
  lemma SecondCollarUnmatched(w1: IdGraph, s1: State)
    requires w1 == WithChain(map[], PetCollar("123"), 0, 2) && s1 == Joined(map[], PetCollar("123"), 0, 0, 2)
    requires Wf(w1, s1)
    ensures DistinctMappings(PetCollar("124")) && (forall n :: n in w1 ==> n < 2)
    ensures Wf(WithChain(w1, PetCollar("124"), 2, 2), s1)
    ensures Unmatched(WithChain(w1, PetCollar("124"), 2, 2), PetCollar("124"), s1, 2, 0, 2)
  {
    var w2 := WithChain(w1, PetCollar("124"), 2, 2);
    FirstCollarShape(w1, s1);
    WithChainPending(w1, s1, PetCollar("124"), 2);
    SecondPetNew(w1, s1, w2);
    SecondCollarNew(w1, s1, w2);
    UnmatchedTwo(w2, PetCollar("124"), s1, 2);
  }

  /** A two-pair path is unmatched when both of its chain nodes are. */
  lemma UnmatchedTwo(g: IdGraph, path: seq<(string, string)>, st: State, base: NodeId)
    requires Closed(g) && |path| == 2
    requires UnmatchedAt(g, path, st, base, 0) && UnmatchedAt(g, path, st, base, 1)
    ensures Unmatched(g, path, st, base, 0, 2)
  {
  }

  /** No instance of pets:id has the value 124. */
  lemma SecondPetNew(w1: IdGraph, s1: State, w2: IdGraph)
    requires w1 == WithChain(map[], PetCollar("123"), 0, 2) && s1 == Joined(map[], PetCollar("123"), 0, 0, 2)
    requires w2 == WithChain(w1, PetCollar("124"), 2, 2) && Closed(w2)
    ensures UnmatchedAt(w2, PetCollar("124"), s1, 2, 0)
  {
    FirstCollarShape(w1, s1);
    SecondCollarShape(w1, w2);
    assert Descends(w2, 2);
    assert !HasSameValueAndParent(w2, 2, 0);
    assert Matching(w2, s1["pets:id"], 2) == {};
  }

  /** Collar 1 has the value 45 too, but its pet is 123, not 124. */
  lemma SecondCollarNew(w1: IdGraph, s1: State, w2: IdGraph)
    requires w1 == WithChain(map[], PetCollar("123"), 0, 2) && s1 == Joined(map[], PetCollar("123"), 0, 0, 2)
    requires w2 == WithChain(w1, PetCollar("124"), 2, 2) && Closed(w2)
    ensures UnmatchedAt(w2, PetCollar("124"), s1, 2, 1)
  {
    FirstCollarShape(w1, s1);
    SecondCollarShape(w1, w2);
    FirstParentOfSingle(w2[3], "pets:id", 2);
    assert Descends(w2, 2) && Descends(w2, 3);
    assert !HasSameValueAndParent(w2, 2, 0);
    assert !HasSameValueAndParent(w2, 3, 1);
    assert Matching(w2, s1["collar:id"], 3) == {};
  }

  /** Pet 123 and collar 45 still lead to collar 1 after the second Add. */
  lemma FirstCollarResolves(w1: IdGraph, s1: State, w2: IdGraph, s2: State)
    requires w1 == WithChain(map[], PetCollar("123"), 0, 2) && s1 == Joined(map[], PetCollar("123"), 0, 0, 2)
    requires w2 == WithChain(w1, PetCollar("124"), 2, 2) && s2 == Joined(s1, PetCollar("124"), 2, 0, 2)
    requires Wf(w2, s2)
    ensures Resolve(w2, s2, PetCollar("123")) == Success(Some(1))
  {
    FirstPetUnique(w1, s1, w2, s2);
    FirstCollarUnder(w1, w2);
    ResolvesTwo(w2, s2, PetCollar("123"), 0, 1);
    ResolvesToLast(w2, s2, PetCollar("123"), [0, 1], 1);
  }

  /** The ids a, b resolve a two-pair path when a is the root's one match and b the one child under it. */
  lemma ResolvesTwo(g: IdGraph, st: State, path: seq<(string, string)>, a: NodeId, b: NodeId)
    requires Wf(g, st) && |path| == 2 && a in g && b in g
    requires path[0].0 in st && WithValue(g, st[path[0].0], path[0].1) == {a}
    requires LinkedAlong(g, path, [a, b], 1)
    ensures Resolves(g, st, path, [a, b])
  {
  }

  /** Pet 0 is the one pet with the value 123, beside the new pet 2. */
  lemma FirstPetUnique(w1: IdGraph, s1: State, w2: IdGraph, s2: State)
    requires w1 == WithChain(map[], PetCollar("123"), 0, 2) && s1 == Joined(map[], PetCollar("123"), 0, 0, 2)
    requires w2 == WithChain(w1, PetCollar("124"), 2, 2) && s2 == Joined(s1, PetCollar("124"), 2, 0, 2)
    requires Wf(w2, s2)
    ensures "pets:id" in s2 && WithValue(w2, s2["pets:id"], "123") == {0}
  {
    FirstCollarShape(w1, s1);
    SecondCollarShape(w1, w2);
    JoinedHit(s1, PetCollar("124"), 2, 0, 2, 0);
    assert s2["pets:id"] == {0, 2};
  }

  /** Collar 1 is the one child of pet 0 with the value 45. */
  lemma FirstCollarUnder(w1: IdGraph, w2: IdGraph)
    requires w1 == WithChain(map[], PetCollar("123"), 0, 2) && w2 == WithChain(w1, PetCollar("124"), 2, 2)
    requires Closed(w2)
    ensures 0 in w2 && 1 in w2 && LinkedAlong(w2, PetCollar("123"), [0, 1], 1)
  {
    SecondCollarShape(w1, w2);
    assert w2[0].children == map["collar:id" := {1}];
    assert WithValue(w2, {1}, "45") == {1};
  }

  /** Collar 1 has no children: the cascade from it is itself. */
  lemma FirstCollarAlone(w1: IdGraph, w2: IdGraph)
    requires w1 == WithChain(map[], PetCollar("123"), 0, 2) && w2 == WithChain(w1, PetCollar("124"), 2, 2)
    ensures forall s :: Cascade(w2, 1, s) ==> s == {1}
    ensures !w2[3].data.isDeleted
  {
    SecondCollarShape(w1, w2);
    assert AllChildren(w2[1]) == {};
    assert Downward(w2, {1});
  }
  /**
   * The scenario of AddChildrenToParent: Add of pet 123, then Add of pet 123 with
   * collar 45. The second pet node is merged into the first, so pets:id still lists
   * one instance; the collar joins the state and hangs under pet 0; and both paths
   * resolve, the long one to the collar.
   */
  lemma AddChildrenToParent()
    ensures var r1 := AddSpec(map[], map[], 0, [("pets:id", "123")]);
      var r2 := AddSpec(r1.nodes, r1.state, 1, PetCollar("123"));
      r1.error.None? && r2.error.None? &&
      r2.state == map["pets:id" := {0}, "collar:id" := {2}] &&
      0 in r2.nodes && "collar:id" in r2.nodes[0].children && 2 in r2.nodes[0].children["collar:id"] &&
      Resolve(r2.nodes, r2.state, [("pets:id", "123")]) == Success(Some(0)) &&
      Resolve(r2.nodes, r2.state, PetCollar("123")) == Success(Some(2))
  {
    var p := ("pets:id", "123");
    FirstPetAdded(p);
    var r1 := AddSpec(map[], map[], 0, [p]);
    CollarUnderPet(r1.nodes, r1.state);
  }

  /** The second Add of the scenario, on the model the first one left. */
  lemma CollarUnderPet(nodes: IdGraph, state: State)
    requires nodes == map[0 := Fresh(("pets:id", "123"))] && state == map["pets:id" := {0}]
    ensures var r2 := AddSpec(nodes, state, 1, PetCollar("123"));
      r2.error.None? &&
      r2.state == map["pets:id" := {0}, "collar:id" := {2}] &&
      0 in r2.nodes && "collar:id" in r2.nodes[0].children && 2 in r2.nodes[0].children["collar:id"] &&
      Resolve(r2.nodes, r2.state, [("pets:id", "123")]) == Success(Some(0)) &&
      Resolve(r2.nodes, r2.state, PetCollar("123")) == Success(Some(2))
  {
    var path := PetCollar("123");
    FirstPetResolves(nodes, state);
    CollarUnmatched(nodes, state);
    AddUnderResolved(nodes, state, 1, path, 0);
    CollarJoined(state);
    assert path[0] == ("pets:id", "123");
  }

  /** The state after the second Add: pets:id keeps pet 0 and collar:id lists node 2. */
  lemma CollarJoined(state: State)
    requires state == map["pets:id" := {0}]
    ensures Joined(state, PetCollar("123"), 1, 1, 2) == map["pets:id" := {0}, "collar:id" := {2}]
  {
    var path := PetCollar("123");
    assert Joined(state, path, 1, 1, 2) == Joined(Join1(state, path, 1, 2), path, 1, 1, 1);
    assert path[1].0 == "collar:id" && "collar:id" !in state;
    assert Listed(state, path[1].0) + {2} == {2};
    assert Join1(state, path, 1, 2) == state["collar:id" := {2}];
  }

  /**
   * The query of AddChildrenToParent_GetWithConstraint after the two Adds: over the
   * required pets:id constraint linked to its required collar:id child, the model
   * matches one binding, pet 123 with collar 45, both undeleted.
   */
  lemma AddChildrenToParentQuery(cg: Graph<()>)
    requires PetConstraints(cg)
    ensures var r1 := AddSpec(map[], map[], 0, [("pets:id", "123")]);
      var r2 := AddSpec(r1.nodes, r1.state, 1, PetCollar("123"));
      Wf(r2.nodes, r2.state) &&
      Queries.MatchingSubset(cg, r2.nodes, r2.state, [0, 1]) == [PetCollarBinding()]
  {
    var p := ("pets:id", "123");
    FirstPetAdded(p);
    var r1 := AddSpec(map[], map[], 0, [p]);
    CollarUnderPet(r1.nodes, r1.state);
    CollarNodes(r1.nodes, r1.state);
    var r2 := AddSpec(r1.nodes, r1.state, 1, PetCollar("123"));
    assert PetWithCollar(r2.nodes, r2.state);
    PetCollarMatches(cg, r2.nodes, r2.state);
  }

  /**
   * The constraints of that test: node 0 is pets:id and node 1 collar:id, both
   * required, with 1 linked as the one child of 0.
   */
  ghost predicate PetConstraints(cg: Graph<()>)
  {
    Closed(cg) && cg.Keys == {0, 1} &&
    cg[0] == Node("pets:id", true, map[], map["collar:id" := {1}], ()) &&
    cg[1] == Node("collar:id", true, map["pets:id" := 0], map[], ())
  }

  /** The one binding that test expects. */
  function PetCollarBinding(): Bindings.Binding
  {
    map["pets:id" := Bindings.Entry(Some("123"), false), "collar:id" := Bindings.Entry(Some("45"), false)]
  }

  /** The nodes around pet 0 and collar 2 after the second Add. */
  lemma CollarNodes(nodes: IdGraph, state: State)
    requires nodes == map[0 := Fresh(("pets:id", "123"))] && state == map["pets:id" := {0}]
    ensures var r2 := AddSpec(nodes, state, 1, PetCollar("123"));
      Wf(r2.nodes, r2.state) && 0 in r2.nodes && 2 in r2.nodes &&
      r2.nodes[0].mapping == "pets:id" && r2.nodes[0].data == IdData("123", false) &&
      r2.nodes[0].children == map["collar:id" := {2}] &&
      r2.nodes[2].mapping == "collar:id" && r2.nodes[2].data == IdData("45", false)
  {
    var path := PetCollar("123");
    FirstPetResolves(nodes, state);
    CollarUnmatched(nodes, state);
    assert WithValue(nodes, state[path[0].0], path[0].1) == {0};
    var g2 := AddUnderResolvedOutcome(nodes, state, 1, path, 0);
    var w := WithChain(nodes, path, 1, 2);
    WithChainShape(nodes, path, 1, 2);
    assert w[0] == Fresh(("pets:id", "123"));
    assert ChildrenUnder(w[0], "collar:id") == {};
    assert w[2] == ChainNode(path, 1, 2, 2);
  }

  /** The facts about pet 0 and collar 2 the query reads. */
  ghost predicate PetWithCollar(nodes: IdGraph, state: State)
  {
    Wf(nodes, state) && state == map["pets:id" := {0}, "collar:id" := {2}] && PetCollarNodes(nodes)
  }

  /** Pet 0 with collar 2 as its one child under collar:id. */
  ghost predicate PetCollarNodes(nodes: IdGraph)
  {
    Closed(nodes) && 0 in nodes && 2 in nodes &&
    nodes[0].mapping == "pets:id" && nodes[0].data == IdData("123", false) &&
    nodes[0].children == map["collar:id" := {2}] &&
    nodes[2].mapping == "collar:id" && nodes[2].data == IdData("45", false)
  }

  /** GetMatchingIdSubset over those constraints on a model with pet 0 and its one collar 2. */
  lemma PetCollarMatches(cg: Graph<()>, nodes: IdGraph, state: State)
    requires PetConstraints(cg) && PetWithCollar(nodes, state)
    ensures Queries.MatchingSubset(cg, nodes, state, [0, 1]) == [PetCollarBinding()]
  {
    var b := PetCollarBinding();
    PetCollect(cg, nodes, state);
    ProductOne(b);
    assert Queries.Merged([[b]]) == [b] by {
      MergeOne(b);
      assert [[b]][1..] == [];
    }
  }

  /** The foreach over the two constraints gathers one list: the expected binding. */
  lemma PetCollect(cg: Graph<()>, nodes: IdGraph, state: State)
    requires PetConstraints(cg) && PetWithCollar(nodes, state)
    ensures Queries.Collect(cg, nodes, state, [0, 1], []) == Some([[PetCollarBinding()]])
  {
    var b := PetCollarBinding();
    PetFirstStep(cg, nodes, state);
    Queries.CollectUnfold(cg, nodes, state, [0, 1], []);
    assert [0, 1][1..] == [1];
    PetSecondStep(cg, nodes, state);
    Queries.CollectUnfold(cg, nodes, state, [1], [[b]]);
    assert [1][1..] == [];
  }

  /** The pets:id constraint contributes the list of its combinations. */
  lemma PetFirstStep(cg: Graph<()>, nodes: IdGraph, state: State)
    requires PetConstraints(cg) && PetWithCollar(nodes, state)
    ensures Queries.CollectStep(cg, nodes, state, 0, []) == Some([[PetCollarBinding()]])
  {
    var b := PetCollarBinding();
    assert cg[0].mapping == "pets:id" && "pets:id" in state;
    var ids := state["pets:id"];
    assert ids == {0};
    PetCombos(cg, nodes);
    assert Queries.Combos(cg, 0, nodes, ids, {}) == [b];
    assert !Queries.Bound([], "pets:id");
    assert [] + [[b]] == [[b]];
  }

  /** The collar:id constraint is skipped: the first list already binds its mapping. */
  lemma PetSecondStep(cg: Graph<()>, nodes: IdGraph, state: State)
    requires PetConstraints(cg) && PetWithCollar(nodes, state)
    ensures Queries.CollectStep(cg, nodes, state, 1, [[PetCollarBinding()]]) == Some([[PetCollarBinding()]])
  {
    var b := PetCollarBinding();
    assert "collar:id" in [[b]][0][0];
    assert Queries.Bound([[b]], "collar:id");
  }

  /** The combinations of the pets:id constraint over pet 0: the expected binding alone. */
  lemma PetCombos(cg: Graph<()>, nodes: IdGraph)
    requires PetConstraints(cg) && PetCollarNodes(nodes)
    ensures Queries.Combos(cg, 0, nodes, {0}, {}) == [PetCollarBinding()]
  {
    SingleEnumerate(0);
    assert {"pets:id"} == {} + {cg[0].mapping};
    CombosOne(cg, 0, nodes, 0, {}, {"pets:id"});
    PetPerIds(cg, nodes);
  }

  /** The loop over the one pet id 0 yields the expected binding. */
  lemma PetPerIds(cg: Graph<()>, nodes: IdGraph)
    requires PetConstraints(cg) && PetCollarNodes(nodes)
    ensures forall x :: x in Queries.KidsOf(cg[0]) ==> x in cg
    ensures Queries.PerIds(cg, 0, nodes, [0], {"pets:id"}) == [PetCollarBinding()]
  {
    PetKids(cg);
    PetChildLists(cg, nodes);
    PerIdsOne(cg, 0, nodes, 0, {"pets:id"}, [[Queries.SelfBinding(nodes, 2)]]);
    PetMerged(nodes);
  }

  /** The pets:id constraint has the collar:id constraint as its one child. */
  lemma PetKids(cg: Graph<()>)
    requires PetConstraints(cg)
    ensures Queries.KidsOf(cg[0]) == [1]
  {
    SingleSort("collar:id");
    SingleEnumerate(1);
    assert cg[0].children.Keys == {"collar:id"};
  }

  /** Under pet 0, the collar:id constraint gives one list: collar 2's binding. */
  lemma PetChildLists(cg: Graph<()>, nodes: IdGraph)
    requires PetConstraints(cg) && PetCollarNodes(nodes)
    ensures Queries.ChildLists(cg, nodes, [1], 0, {"pets:id"}) == Some([[Queries.SelfBinding(nodes, 2)]])
  {
    var b2 := Queries.SelfBinding(nodes, 2);
    CollarCombos(cg, nodes);
    assert cg[1].mapping == "collar:id" && "collar:id" !in {"pets:id"};
    assert Queries.ChildList(cg, nodes, 1, 0, {"pets:id"}) == Some([b2]);
    ChildListsOne(cg, nodes, 1, 0, {"pets:id"}, [b2]);
  }

  /** Pet 0's binding merged behind collar 2's gives the expected binding. */
  lemma PetMerged(nodes: IdGraph)
    requires PetCollarNodes(nodes)
    ensures Queries.Merged(Queries.AppendEach(Products.Product([[Queries.SelfBinding(nodes, 2)]]), Queries.SelfBinding(nodes, 0))) == [PetCollarBinding()]
  {
    var b2 := Queries.SelfBinding(nodes, 2);
    var b0 := Queries.SelfBinding(nodes, 0);
    assert b2 == map["collar:id" := Bindings.Entry(Some("45"), false)];
    assert b0 == map["pets:id" := Bindings.Entry(Some("123"), false)];
    ProductOne(b2);
    MergeOne(b2);
    assert [b2, b0][..1] == [b2];
    assert b2 + b0 == PetCollarBinding();
    assert Bindings.MergeAll([b2, b0]) == Some(PetCollarBinding());
    assert [[b2, b0]][1..] == [];
  }

  /** The combinations of the collar:id constraint over collar 2: its own binding. */
  lemma CollarCombos(cg: Graph<()>, nodes: IdGraph)
    requires PetConstraints(cg) && PetCollarNodes(nodes)
    ensures Queries.Combos(cg, 1, nodes, {2}, {"pets:id"}) == [Queries.SelfBinding(nodes, 2)]
  {
    var b2 := Queries.SelfBinding(nodes, 2);
    SingleEnumerate(2);
    assert Queries.KidsOf(cg[1]) == [] by {
      assert cg[1].children.Keys == {};
    }
    assert {"pets:id", "collar:id"} == {"pets:id"} + {cg[1].mapping};
    CombosOne(cg, 1, nodes, 2, {"pets:id"}, {"pets:id", "collar:id"});
    assert Queries.ChildLists(cg, nodes, [], 2, {"pets:id", "collar:id"}) == Some([]);
    PerIdsOne(cg, 1, nodes, 2, {"pets:id", "collar:id"}, []);
    assert Products.Product<Bindings.Binding>([]) == [[]];
    assert Queries.Merged(Queries.AppendEach([[]], b2)) == [b2] by {
      MergeOne(b2);
      assert [] + [b2] == [b2];
    }
  }

  /** Combos of a required constraint over one id is the loop over that id. */
  lemma CombosOne<D>(cg: Graph<D>, c: NodeId, nodes: IdGraph, id: NodeId, a: set<string>, a2: set<string>)
    requires Closed(cg) && c in cg && Closed(nodes) && id in nodes && cg[c].isRequired
    requires Orders.Enumerate({id}) == [id] && a2 == a + {cg[c].mapping}
    ensures forall x :: x in Queries.KidsOf(cg[c]) ==> x in cg
    ensures Queries.Combos(cg, c, nodes, {id}, a) == Queries.PerIds(cg, c, nodes, [id], a2)
  {
    Queries.KidsIn(cg, c);
  }

  /** The loop over one id: the merges of the products of its child lists with its own binding. */
  lemma PerIdsOne<D>(cg: Graph<D>, c: NodeId, nodes: IdGraph, id: NodeId, a: set<string>, lists: seq<seq<Bindings.Binding>>)
    requires Closed(cg) && c in cg && Closed(nodes) && id in nodes
    requires forall x :: x in Queries.KidsOf(cg[c]) ==> x in cg
    requires Queries.ChildLists(cg, nodes, Queries.KidsOf(cg[c]), id, a) == Some(lists)
    ensures Queries.PerIds(cg, c, nodes, [id], a) ==
      Queries.Merged(Queries.AppendEach(Products.Product(lists), Queries.SelfBinding(nodes, id)))
  {
    assert [id][1..] == [];
    var here := Queries.Merged(Queries.AppendEach(Products.Product(lists), Queries.SelfBinding(nodes, id)));
    assert here + [] == here;
  }

  /** One child constraint not analyzed yet gives the one list of its ChildList. */
  lemma ChildListsOne<D>(cg: Graph<D>, nodes: IdGraph, k: NodeId, id: NodeId, a: set<string>, l: seq<Bindings.Binding>)
    requires Closed(cg) && Closed(nodes) && id in nodes && k in cg && cg[k].mapping !in a
    requires Queries.ChildList(cg, nodes, k, id, a) == Some(l)
    ensures Queries.ChildLists(cg, nodes, [k], id, a) == Some([l])
  {
    assert [k][1..] == [];
    assert [l] + [] == [l];
  }

  /** The product of one one-element list is that list. */
  lemma ProductOne<T>(x: T)
    ensures Products.Product([[x]]) == [[x]]
  {
    assert [[x]][1..] == [];
    assert Products.Product<T>([]) == [[]];
    assert [x] + [] == [x];
    assert Products.Cons(x, [[]]) == [[x]] + Products.Cons(x, []);
    assert Products.Prepend([x], [[]]) == Products.Cons(x, [[]]) + Products.Prepend([], [[]]);
  }

  /** Merging one binding gives it back. */
  lemma MergeOne(b: Bindings.Binding)
    ensures Bindings.MergeAll([b]) == Some(b)
  {
    assert [b][..0] == [];
    assert map[] + b == b;
  }

  /** A one-element set enumerates as itself. */
  lemma SingleEnumerate(n: nat)
    ensures Orders.Enumerate({n}) == [n]
  {
    var r := Orders.Enumerate({n});
    assert |r| == 1 && n in r;
  }

  /** A one-element set of strings sorts as itself. */
  lemma SingleSort(k: string)
    ensures Orders.SortStrings({k}) == [k]
  {
    var r := Orders.SortStrings({k});
    assert |r| == 1 && k in r;
  }

  /** The first Add of the scenario lists pet 0, a fresh node without relations. */
  lemma FirstPetAdded(p: (string, string))
    ensures var r1 := AddSpec(map[], map[], 0, [p]);
      r1 == Outcome(map[0 := Fresh(p)], map[p.0 := {0}], None) &&
      Resolve(r1.nodes, r1.state, [p]) == Success(Some(0))
  {
    FreshUnmatched(map[], map[], 0, p);
    AddUnmatched(map[], map[], 0, [p]);
    assert WithChain(map[], [p], 0, 1) == map[0 := Fresh(p)];
    assert Joined(map[], [p], 0, 0, 1) == map[p.0 := {0}];
  }

  /** Pet 0 is the one instance of pets:id with the value 123, and it has no children yet. */
  lemma FirstPetResolves(nodes: IdGraph, state: State)
    requires nodes == map[0 := Fresh(("pets:id", "123"))] && state == map["pets:id" := {0}]
    ensures Wf(nodes, state) && (forall n :: n in nodes ==> n < 1) && DistinctMappings(PetCollar("123"))
    ensures Resolve(nodes, state, [PetCollar("123")[0]]) == Success(Some(0))
    ensures PetCollar("123")[1].0 !in nodes[0].children
  {
    assert PetCollar("123")[0] == ("pets:id", "123");
    assert WithValue(nodes, state["pets:id"], "123") == {0};
    ResolveSingle(nodes, state, ("pets:id", "123"), 0);
  }

  /** The collar of the second Add hangs only under the fresh pet node 1, and collar:id lists nothing yet. */
  lemma CollarUnmatched(nodes: IdGraph, state: State)
    requires nodes == map[0 := Fresh(("pets:id", "123"))] && state == map["pets:id" := {0}] && Wf(nodes, state)
    ensures Wf(WithChain(nodes, PetCollar("123"), 1, 2), state)
    ensures Unmatched(WithChain(nodes, PetCollar("123"), 1, 2), PetCollar("123"), state, 1, 1, 2)
  {
    var path := PetCollar("123");
    var w := WithChain(nodes, path, 1, 2);
    WithChainPending(nodes, state, path, 1);
    ChainDescends(w, path, 1, 2, 2);
    assert path[1].0 !in state;
    assert UnmatchedAt(w, path, state, 1, 1);
  }

  /**
   * Add([p, p]) on an empty model: the child node 1 joins the state first; then its
   * parent, node 0, matches node 1 (same mapping and value, and 0 has no parent to
   * compare), so 0's child, which is node 1 itself, is moved under node 1. Node 1
   * ends up as its own child, [p] resolves to it, and the DeleteChildren of
   * Delete([p]) as written recurses along that edge without end.
   */
  lemma RepeatedPairLoops(p: (string, string))
    ensures var r := AddSpec(map[], map[], 0, [p, p]);
      r.error.None? && r.state == map[p.0 := {1}] &&
      1 in r.nodes && 1 in AllChildren(r.nodes[1]) &&
      Resolve(r.nodes, r.state, [p]) == Success(Some(1)) &&
      forall depth: nat :: !DeleteChildrenReturns(r.nodes, 1, depth)
  {
    var w, s1 := WithChain(map[], [p, p], 0, 2), map[p.0 := {1}];
    RepeatedPairStart(p, w, s1);
    var g2 := RepeatedPairMerge(p, w, s1);
    assert WithValue(g2, s1[p.0], p.1) == {1};
    ResolveSingle(g2, s1, p, 1);
    forall depth: nat
      ensures !DeleteChildrenReturns(g2, 1, depth)
    {
      SelfChildNeverReturns(g2, 1, depth);
    }
  }

  /** The first iteration of Add([p, p]): node 1 matches nothing and joins the state. */
  lemma RepeatedPairStart(p: (string, string), w: IdGraph, s1: State)
    requires w == WithChain(map[], [p, p], 0, 2) && s1 == map[p.0 := {1}]
    ensures Ready(w, [p, p], s1, 0, 0)
    ensures AddSpec(map[], map[], 0, [p, p]) == AddLoop(w, [p, p], s1, 0, Some(0))
  {
    var path := [p, p];
    AddSpecStart(map[], map[], 0, path, Some(1));
    ChainDescends(w, path, 0, 1, 1);
    UnmatchedStep(w, path, map[], 0, 1);
    UnmatchedStepLoop(w, path, map[], 0, 1);
    assert Join1(map[], path, 0, 1) == s1;
  }

  /** The second iteration of Add([p, p]): node 0 is merged into node 1, which adopts itself. */
  lemma RepeatedPairMerge(p: (string, string), w: IdGraph, s1: State) returns (g2: IdGraph)
    requires w == WithChain(map[], [p, p], 0, 2) && s1 == map[p.0 := {1}]
    requires Ready(w, [p, p], s1, 0, 0)
    ensures AddLoop(w, [p, p], s1, 0, Some(0)) == Outcome(g2, s1, None)
    ensures Wf(g2, s1) && 1 in g2 && 1 in AllChildren(g2[1]) && g2[1].data.value == p.1
  {
    var path := [p, p];
    WithChainShape(map[], path, 0, 2);
    assert w[0] == ChainNode(path, 0, 2, 0) && w[1] == ChainNode(path, 0, 2, 1);
    AddStepKeeps(w, path, s1, 0, 0);
    assert HasSameValueAndParent(w, 0, 1);
    MatchingOne(w, s1[p.0], 0, 1);
    assert SingleOrDefault(Matching(w, s1[p.0], 0)) == Success(Some(1));
    FirstChildOfSingle(w[0], p.0, 1);
    var g1 := RemoveParent(w, 1, p.0);
    g2 := LinkChild(g1.value, 1, 1);
    LinkChildEffect(g1.value, 1, 1);
    assert MergeChild(w, 0, 1) == Success(g2);
    assert FirstParent(w[0]) == None;
    assert MergeParent(g2, 0, 1, None) == Success(g2);
    AddStepMerged(w, s1, 0, 1, g2);
  }

  /** A single candidate with the same value and parent is the one match. */
  lemma MatchingOne(g: IdGraph, ids: set<NodeId>, a: NodeId, b: NodeId)
    requires Closed(g) && Descends(g, a) && b in g && ids == {b}
    requires HasSameValueAndParent(g, a, b)
    ensures Matching(g, ids, a) == {b}
  {
    assert b in Matching(g, ids, a);
  }
}
