/**
 * The copy constructor of TestModel (ObST.Tester/Domain/TestModel.cs): every IdModel
 * listed in the state is copied and its relations are re-pointed, by id, at the
 * copies. In the arena a copy keeps the node ids, so the copy of the arena is the
 * part of it that the state lists.
 */
module ModelCopies {
  import opened Wrappers
  import opened Links
  import opened TestModels
  import opened Lookups
  import Orders

  /** model._state.Values.SelectMany(ids => ids): the ids the copy starts from. */
  function Listed(state: State): (r: set<NodeId>)
    ensures forall n :: n in r <==> exists m :: m in state && n in state[m]
  {
    set m, n | m in state && n in state[m] :: n
  }

  /** Every listed id is a node of a well-formed arena. */
  lemma ListedIn(nodes: IdGraph, state: State)
    requires Wf(nodes, state)
    ensures Listed(state) <= nodes.Keys
  {
    forall n | n in Listed(state) ensures n in nodes
    {
      var m :| m in state && n in state[m];
    }
  }

  /** One of n's relations is not among the listed ids: ids.Single finds no copy for it. */
  predicate Leaves(nodes: IdGraph, listed: set<NodeId>, n: NodeId)
    requires n in nodes
  {
    (exists k, x :: k in nodes[n].children && x in nodes[n].children[k] && x !in listed) ||
    (exists k :: k in nodes[n].parents && nodes[n].parents[k] !in listed)
  }

  /** The mappings with at least one instance: the copy creates an entry per copied id. */
  function NonEmpty(state: State): (r: State)
    ensures forall m :: m in r <==> m in state && state[m] != {}
    ensures forall m :: m in r ==> r[m] == state[m]
  {
    map m | m in state && state[m] != {} :: state[m]
  }

  /**
   * new TestModel(model): InvalidOperationException when a listed IdModel has a
   * relation outside the listed ones, else the listed part of the arena and the
   * non-empty entries of the state.
   */
  function CopyOf(nodes: IdGraph, state: State): Result<(IdGraph, State)>
    requires Wf(nodes, state)
  {
    var listed := Listed(state);
    if exists n :: n in listed && Leaves(nodes, listed, n) then Failure(InvalidOperation)
    else Success((ListedPart(nodes, state), NonEmpty(state)))
  }

  /** The listed ids with their models. */
  function ListedPart(nodes: IdGraph, state: State): IdGraph
    requires Wf(nodes, state)
  {
    map n | n in Listed(state) :: nodes[n]
  }

  /** list.Add(id) into _state[id.Mapping] for the first i ids of ns in turn, creating the entry the first time. */
  function Filed(nodes: IdGraph, ns: seq<NodeId>, i: nat): State
    requires i <= |ns| && forall n :: n in ns ==> n in nodes
  {
    if i == 0 then map[]
    else
      var p := Filed(nodes, ns, i - 1);
      var m := nodes[ns[i - 1]].mapping;
      p[m := (if m in p then p[m] else {}) + {ns[i - 1]}]
  }

  /** copy.Nodes.Add(id, ...) for the first i ids of ns in turn. */
  function Taken(nodes: IdGraph, ns: seq<NodeId>, i: nat): IdGraph
    requires i <= |ns| && forall n :: n in ns ==> n in nodes
  {
    if i == 0 then map[] else Taken(nodes, ns, i - 1)[ns[i - 1] := nodes[ns[i - 1]]]
  }

  /** The first i ids are filed under their mappings, and nothing else is. */
  lemma {:induction false} FiledShape(nodes: IdGraph, ns: seq<NodeId>, i: nat)
    requires i <= |ns| && forall n :: n in ns ==> n in nodes
    ensures forall m :: m in Filed(nodes, ns, i) <==> exists j :: 0 <= j < i && nodes[ns[j]].mapping == m
    ensures forall m :: m in Filed(nodes, ns, i) ==>
      Filed(nodes, ns, i)[m] == set j | 0 <= j < i && nodes[ns[j]].mapping == m :: ns[j]
  {
    if i > 0 {
      FiledShape(nodes, ns, i - 1);
    }
  }

  /** The first i ids are copied unchanged, and nothing else is. */
  lemma {:induction false} TakenShape(nodes: IdGraph, ns: seq<NodeId>, i: nat)
    requires i <= |ns| && forall n :: n in ns ==> n in nodes
    ensures forall n :: n in Taken(nodes, ns, i) <==> exists j :: 0 <= j < i && ns[j] == n
    ensures forall n :: n in Taken(nodes, ns, i) ==> Taken(nodes, ns, i)[n] == nodes[n]
  {
    if i > 0 {
      TakenShape(nodes, ns, i - 1);
    }
  }

  /** Copying and filing every listed id in turn, none of which leaves the listed ones, is the copy. */
  lemma CopyAll(nodes: IdGraph, state: State, ns: seq<NodeId>)
    requires Wf(nodes, state) && forall n :: n in ns <==> n in Listed(state)
    requires forall n :: n in ns ==> n in nodes
    requires forall j :: 0 <= j < |ns| ==> !Leaves(nodes, Listed(state), ns[j])
    ensures CopyOf(nodes, state) == Success((Taken(nodes, ns, |ns|), Filed(nodes, ns, |ns|)))
  {
    var listed := Listed(state);
    FiledListed(nodes, state, ns);
    TakenListed(nodes, state, ns);
    forall n | n in Listed(state) ensures n in nodes && !Leaves(nodes, Listed(state), n)
    {
      assert n in ns;
      var j :| 0 <= j < |ns| && ns[j] == n;
    }
    CopyOfNoneLeaves(nodes, state);
  }

  /** When no listed id leaves the listed ones, the copy is the listed part and the non-empty entries. */
  lemma CopyOfNoneLeaves(nodes: IdGraph, state: State)
    requires Wf(nodes, state)
    requires forall n :: n in Listed(state) ==> n in nodes && !Leaves(nodes, Listed(state), n)
    ensures CopyOf(nodes, state) == Success((ListedPart(nodes, state), NonEmpty(state)))
  {
  }

  /** Copying every listed id in turn gives the listed part of the arena. */
  lemma TakenListed(nodes: IdGraph, state: State, ns: seq<NodeId>)
    requires Wf(nodes, state) && forall n :: n in ns <==> n in Listed(state)
    requires forall n :: n in ns ==> n in nodes
    ensures Taken(nodes, ns, |ns|) == ListedPart(nodes, state)
  {
    var t := Taken(nodes, ns, |ns|);
    var l := ListedPart(nodes, state);
    TakenShape(nodes, ns, |ns|);
    forall n | n in Listed(state) ensures n in t
    {
      assert n in ns;
      var j :| 0 <= j < |ns| && ns[j] == n;
    }
    forall n | n in t ensures n in Listed(state)
    {
      var j :| 0 <= j < |ns| && ns[j] == n;
      assert n in ns;
    }
    assert t.Keys == l.Keys;
    assert forall n :: n in t ==> t[n] == nodes[n] == l[n];
  }

  /** Filing every listed id in turn gives back the non-empty entries of a well-formed state. */
  lemma FiledListed(nodes: IdGraph, state: State, ns: seq<NodeId>)
    requires Wf(nodes, state) && forall n :: n in ns <==> n in Listed(state)
    requires forall n :: n in ns ==> n in nodes
    ensures Filed(nodes, ns, |ns|) == NonEmpty(state)
  {
    var r := Filed(nodes, ns, |ns|);
    var ne := NonEmpty(state);
    forall m | m in ne ensures m in r && r[m] == ne[m]
    {
      FiledEntry(nodes, state, ns, m);
    }
    forall m | m in r ensures m in ne
    {
      FiledKey(nodes, state, ns, m);
    }
    assert r.Keys == ne.Keys;
  }

  /** Only mappings with a listed id are filed. */
  lemma FiledKey(nodes: IdGraph, state: State, ns: seq<NodeId>, m: string)
    requires Wf(nodes, state) && forall n :: n in ns <==> n in Listed(state)
    requires forall n :: n in ns ==> n in nodes
    requires m in Filed(nodes, ns, |ns|)
    ensures m in state && state[m] != {}
  {
    FiledShape(nodes, ns, |ns|);
    var j :| 0 <= j < |ns| && nodes[ns[j]].mapping == m;
    assert ns[j] in ns;
    assert ns[j] in Listed(state);
    var m' :| m' in state && ns[j] in state[m'];
  }

  /** One non-empty entry of the state is filed again with the same ids. */
  lemma FiledEntry(nodes: IdGraph, state: State, ns: seq<NodeId>, m: string)
    requires Wf(nodes, state) && forall n :: n in ns <==> n in Listed(state)
    requires forall n :: n in ns ==> n in nodes
    requires m in state && state[m] != {}
    ensures m in Filed(nodes, ns, |ns|) && Filed(nodes, ns, |ns|)[m] == state[m]
  {
    var r := Filed(nodes, ns, |ns|);
    FiledShape(nodes, ns, |ns|);
    var x :| x in state[m];
    assert x in Listed(state);
    assert x in ns;
    var j :| 0 <= j < |ns| && ns[j] == x;
    forall y | y in state[m] ensures y in r[m]
    {
      assert y in Listed(state);
      assert y in ns;
      var k :| 0 <= k < |ns| && ns[k] == y;
    }
    forall y | y in r[m] ensures y in state[m]
    {
      var k :| 0 <= k < |ns| && nodes[ns[k]].mapping == m && ns[k] == y;
      assert y in ns;
      assert y in Listed(state);
      var m' :| m' in state && y in state[m'];
    }
  }

  // ---------------------------------------------------------------------------------
  // Properties

  /** A copy is again a model whose invariants hold. */
  lemma CopyWf(nodes: IdGraph, state: State, nextId: nat)
    requires Inv(nodes, state, nextId) && Keyed(nodes) && CopyOf(nodes, state).Success?
    ensures var c := CopyOf(nodes, state).value;
      Inv(c.0, c.1, nextId) && Keyed(c.0)
  {
    var c := CopyOf(nodes, state).value;
    CopyClosed(nodes, state);
    assert forall n :: n in c.0 ==> n in nodes;
  }

  /** The copy answers every lookup step as the original does, from a listed model on. */
  lemma StepSame(nodes: IdGraph, state: State, last: Option<NodeId>, ck: string, k: string, v: string)
    requires Wf(nodes, state) && CopyOf(nodes, state).Success?
    requires last.Some? ==> last.value in Listed(state)
    ensures var c := CopyOf(nodes, state).value;
      Wf(c.0, c.1) && (last.Some? ==> last.value in c.0) &&
      Step(c.0, c.1, last, ck, k, v) == Step(nodes, state, last, ck, k, v)
  {
    var listed := Listed(state);
    var c := CopyOf(nodes, state).value;
    CopyClosed(nodes, state);
    if last.Some? {
      var n := last.value;
      assert !Leaves(nodes, listed, n);
      if ck in nodes[n].children {
        assert nodes[n].children[ck] <= listed;
        WithValueSame(nodes, c.0, nodes[n].children[ck], v);
      }
    } else if k in state {
      assert state[k] <= listed;
      WithValueSame(nodes, c.0, state[k], v);
    }
  }

  /** The ids with value v among ids that two arenas hold alike. */
  lemma WithValueSame(g: IdGraph, h: IdGraph, ids: set<NodeId>, v: string)
    requires forall i :: i in ids ==> i in g && i in h && h[i] == g[i]
    ensures WithValue(h, ids, v) == WithValue(g, ids, v)
    ensures ids == {} ==> WithValue(g, ids, v) == {}
  {
  }

  /** The copy is closed and its state well formed. */
  lemma CopyClosed(nodes: IdGraph, state: State)
    requires Wf(nodes, state) && CopyOf(nodes, state).Success?
    ensures var c := CopyOf(nodes, state).value; Wf(c.0, c.1) && c.0.Keys == Listed(state)
  {
    var listed := Listed(state);
    var c := CopyOf(nodes, state).value;
    forall n | n in c.0
      ensures (forall m :: m in c.0[n].parents ==> c.0[n].parents[m] in c.0) &&
              (forall m :: m in c.0[n].children ==> c.0[n].children[m] <= c.0.Keys)
    {
      assert !Leaves(nodes, listed, n);
    }
    forall m | m in c.1 ensures c.1[m] <= c.0.Keys
    {
      forall n | n in c.1[m] ensures n in listed
      {
      }
    }
  }

  /** The copy resolves every path to the same IdModel. */
  lemma {:induction false} WalkSame(nodes: IdGraph, state: State, path: seq<(string, string)>, last: Option<NodeId>, target: Option<string>)
    requires Wf(nodes, state) && CopyOf(nodes, state).Success?
    requires last.Some? ==> last.value in Listed(state)
    ensures var c := CopyOf(nodes, state).value;
      Wf(c.0, c.1) && (last.Some? ==> last.value in c.0) &&
      Walk(c.0, c.1, path, last, target) == Walk(nodes, state, path, last, target)
    decreases |path|
  {
    var c := CopyOf(nodes, state).value;
    CopyClosed(nodes, state);
    if |path| > 0 {
      var k := path[0].0;
      var ck := if target.Some? then target.value else k;
      StepSame(nodes, state, last, ck, k, path[0].1);
      var s := Step(nodes, state, last, ck, k, path[0].1);
      if s.Success? && s.value.Some? {
        WalkSame(nodes, state, path[1..], s.value, target);
      }
    }
  }

  /**
   * The copy keeps every mapping, value and deleted flag: GetKeys, and so Get and
   * GetDeleted, give the same answer on it for every path and key.
   */
  lemma CopyKeys(nodes: IdGraph, state: State, path: seq<(string, string)>, key: string)
    requires Wf(nodes, state) && CopyOf(nodes, state).Success?
    ensures var c := CopyOf(nodes, state).value;
      Wf(c.0, c.1) && Keys(c.0, c.1, path, key) == Keys(nodes, state, path, key)
  {
    var listed := Listed(state);
    var c := CopyOf(nodes, state).value;
    CopyClosed(nodes, state);
    if |path| == 0 {
      if key in state {
        assert state[key] <= listed;
        PairsSame(nodes, c.0, Orders.Enumerate(state[key]));
      }
    } else {
      WalkSame(nodes, state, path, None, None);
      var w := Walk(nodes, state, path, None, None);
      if w.Success? && w.value.Some? {
        var n := w.value.value;
        if key in nodes[n].children {
          assert !Leaves(nodes, listed, n);
          assert nodes[n].children[key] <= listed;
          PairsSame(nodes, c.0, Orders.Enumerate(nodes[n].children[key]));
        }
      }
    }
  }

  /** The pairs of ids that two arenas hold alike. */
  lemma PairsSame(g: IdGraph, h: IdGraph, ids: seq<NodeId>)
    requires forall i :: i in ids ==> i in g && i in h && h[i] == g[i]
    ensures Pairs(h, ids) == Pairs(g, ids)
  {
  }
}
