/**
 * The identity model of the tester (ObST.Tester/Domain/TestModel.cs): every id the
 * system under test has handed out, as IdModel nodes linked parent to child, and
 * the state, which lists the instances of each mapping. The IdModel objects live in
 * an arena (Links.Graph); a Guid becomes a node id drawn from a counter.
 */
module TestModels {
  import opened Wrappers
  import opened Links
  import Orders

  /** The fields IdModel adds to PropertyConstraint: the id value and the soft-delete flag. */
  datatype IdData = IdData(value: string, isDeleted: bool)

  type IdGraph = Graph<IdData>
  type State = map<string, set<NodeId>>

  /** The arena and the state as one value, plus the exception an operation raised, if any. */
  datatype Outcome = Outcome(nodes: IdGraph, state: State, error: Option<Exception>)

  /** Edges stay in the arena and the state lists nodes of the right mapping. */
  ghost predicate Wf(nodes: IdGraph, state: State)
  {
    Closed(nodes) &&
    (forall m :: m in state ==> state[m] <= nodes.Keys) &&
    (forall m, n :: m in state && n in state[m] ==> nodes[n].mapping == m)
  }

  /** Wf, and every id is below the counter, so the next Guid is fresh. */
  ghost predicate Inv(nodes: IdGraph, state: State, nextId: nat)
  {
    Wf(nodes, state) && forall n :: n in nodes ==> n < nextId
  }

  /**
   * Parents.FirstOrDefault().Value. A dictionary enumerates in insertion order; the
   * model takes the least key, which agrees wherever the node has at most one
   * parent, as every node whose first parent the code asks for has.
   */
  function FirstParent(n: Node<IdData>): (r: Option<NodeId>)
    ensures r.None? <==> n.parents == map[]
    ensures r.Some? ==> r.value in n.parents.Values
  {
    if n.parents == map[] then None
    else
      var k := Orders.StrMin(n.parents.Keys);
      Some(n.parents[k])
  }

  lemma FirstParentOfSingle(n: Node<IdData>, k: string, p: NodeId)
    requires n.parents == map[k := p]
    ensures FirstParent(n) == Some(p)
  {
    assert n.parents.Keys == {k};
  }

  /** Following first parents from a only ever goes to smaller ids, so the walk ends. */
  ghost predicate Descends(g: IdGraph, a: NodeId)
    decreases a
  {
    a in g &&
    match FirstParent(g[a])
    case None => true
    case Some(p) => p < a && Descends(g, p)
  }

  /**
   * IdModel.HasSameValueAndParent: same value and mapping, and along the first
   * parent of a, the other node either has no parent of that mapping or one that
   * again has the same value and parent.
   */
  function HasSameValueAndParent(g: IdGraph, a: NodeId, b: NodeId): bool
    requires Closed(g) && Descends(g, a) && b in g
    decreases a
  {
    if g[a].data.value != g[b].data.value || g[a].mapping != g[b].mapping then false
    else
      match FirstParent(g[a])
      case None => true
      case Some(p) =>
        var pm := g[p].mapping;
        if pm !in g[b].parents then true
        else HasSameValueAndParent(g, p, g[b].parents[pm])
  }

  /** The nodes among ids that HasSameValueAndParent accepts for a. */
  function Matching(g: IdGraph, ids: set<NodeId>, a: NodeId): (r: set<NodeId>)
    requires Closed(g) && Descends(g, a)
    ensures r <= ids && r <= g.Keys
    ensures forall b :: b in r <==> b in ids && b in g && HasSameValueAndParent(g, a, b)
  {
    set b | b in ids && b in g && HasSameValueAndParent(g, a, b)
  }

  /** Enumerable.SingleOrDefault: nothing for no element, the element for one, InvalidOperationException for more. */
  function SingleOrDefault(s: set<NodeId>): (r: Result<Option<NodeId>>)
    ensures r.Failure? <==> |s| > 1
    ensures r.Failure? ==> r.error == InvalidOperation
    ensures r.Success? && r.value.None? <==> s == {}
    ensures r.Success? && r.value.Some? ==> s == {r.value.value}
  {
    if s == {} then Success(None)
    else
      var m := Orders.Min(s);
      if s == {m} then Success(Some(m))
      else
        assert s - {m} != {};
        assert |s| == |s - {m}| + 1;
        Failure(InvalidOperation)
  }

  /**
   * Children.First().Value.First(): the first child of the first child mapping, in
   * least-key and least-id order; an empty set under that key throws.
   */
  function FirstChild(n: Node<IdData>): (r: Result<NodeId>)
    requires n.children != map[]
    ensures r.Failure? ==> r.error == InvalidOperation
    ensures r.Success? ==> exists k :: k in n.children && r.value in n.children[k]
  {
    var k := Orders.StrMin(n.children.Keys);
    if n.children[k] == {} then Failure(InvalidOperation)
    else Success(Orders.Min(n.children[k]))
  }

  lemma FirstChildOfSingle(n: Node<IdData>, k: string, x: NodeId)
    requires n.children == map[k := {x}]
    ensures n.children != map[] && FirstChild(n) == Success(x)
  {
    assert n.children.Keys == {k};
  }

  // ---------------------------------------------------------------------------------
  // ToIdModel: the path becomes a fresh chain of nodes base, base + 1, ..., each the
  // only child of the one before.

  /** Node j of the chain for path, before any node after the t-th is linked. */
  function ChainNode(path: seq<(string, string)>, base: NodeId, t: nat, j: NodeId): Node<IdData>
    requires base <= j < base + t <= base + |path|
  {
    var i := j - base;
    Node(path[i].0, false,
      if i == 0 then map[] else map[path[i - 1].0 := j - 1],
      if i + 1 == t then map[] else map[path[i + 1].0 := {j + 1}],
      IdData(path[i].1, false))
  }

  /**
   * ToIdModel's arena after t pairs: g with a fresh node for each pair at the ids
   * base onwards, each linked as the child of the one before.
   */
  function WithChain(g: IdGraph, path: seq<(string, string)>, base: NodeId, t: nat): IdGraph
    requires t <= |path|
    decreases t
  {
    if t == 0 then g
    else
      var h: IdGraph := WithChain(g, path, base, t - 1)[base + t - 1 := Fresh(path[t - 1])];
      if t == 1 then h else LinkChild(h, base + t - 2, base + t - 1)
  }

  // ---------------------------------------------------------------------------------
  // Add: one iteration of the while loop, for the current node c of the chain.

  /** When c matched model: c's child (if any) is moved under model. */
  function MergeChild(g: IdGraph, c: NodeId, model: NodeId): (r: Result<IdGraph>)
    requires c in g && model in g && Closed(g)
    ensures r.Success? ==> r.value.Keys == g.Keys && Closed(r.value)
    ensures r.Success? ==> forall n :: n in g ==> r.value[n].mapping == g[n].mapping && r.value[n].data == g[n].data
  {
    if g[c].children == map[] then Success(g)
    else
      var child := FirstChild(g[c]);
      if child.Failure? then Failure(child.error)
      else
        FirstChildIn(g, c);
        var g1 := RemoveParent(g, child.value, g[c].mapping);
        if g1.Failure? then g1
        else
          LinkChildKeeps(g1.value, model, child.value);
          Success(LinkChild(g1.value, model, child.value))
  }

  /** When c matched model: c leaves its parent (if any), which adopts model instead. */
  function MergeParent(g: IdGraph, c: NodeId, model: NodeId, parent: Option<NodeId>): (r: Result<IdGraph>)
    requires c in g && model in g && Closed(g)
    requires parent.Some? ==> parent.value in g
    ensures r.Success? ==> r.value.Keys == g.Keys && Closed(r.value)
    ensures r.Success? ==> forall n :: n in g ==> r.value[n].mapping == g[n].mapping && r.value[n].data == g[n].data
  {
    if parent.None? then Success(g)
    else
      var g1 := RemoveParent(g, c, g[parent.value].mapping);
      if g1.Failure? then g1
      else
        LinkChildKeeps(g1.value, parent.value, model);
        Success(LinkChild(g1.value, parent.value, model))
  }

  /** The first child of a node is a node of the arena. */
  lemma FirstChildIn(g: IdGraph, c: NodeId)
    requires c in g && Closed(g) && g[c].children != map[] && FirstChild(g[c]).Success?
    ensures FirstChild(g[c]).value in g
  {
    var k :| k in g[c].children && FirstChild(g[c]).value in g[c].children[k];
  }

  /**
   * The body of the while loop of Add for newId = c: c is looked up among the
   * instances of its mapping (creating the entry when there is none); without a
   * match it joins the state, with one it is merged into the match.
   */
  function AddStep(nodes: IdGraph, state: State, c: NodeId): (r: Outcome)
    requires c in nodes && Closed(nodes) && Descends(nodes, c)
  {
    var m := nodes[c].mapping;
    var found := if m in state then SingleOrDefault(Matching(nodes, state[m], c)) else Success(None);
    if found.Failure? then Outcome(nodes, state, Some(found.error))
    else
      var state1 := if m in state then state else state[m := {}];
      var parent := FirstParent(nodes[c]);
      if found.value.None? then Outcome(nodes, state1[m := state1[m] + {c}], None)
      else
        var model := found.value.value;
        assert model in nodes;
        var g1 := MergeChild(nodes, c, model);
        if g1.Failure? then Outcome(nodes, state1, Some(g1.error))
        else
          var g2 := MergeParent(g1.value, c, model, parent);
          if g2.Failure? then Outcome(g1.value, state1, Some(g2.error))
          else Outcome(g2.value, state1, None)
  }

  // ---------------------------------------------------------------------------------
  // The loop invariant of Add: the nodes base .. cur of the chain have not been
  // processed yet.

  /** base .. cur are in the arena, carry the pairs of path and are linked to their predecessors as ToIdModel left them. */
  ghost predicate ChainLinked(nodes: IdGraph, path: seq<(string, string)>, base: NodeId, cur: NodeId)
  {
    base <= cur < base + |path| &&
    forall j {:trigger ChainAt(nodes, path, base, j)} :: base <= j <= cur ==> ChainAt(nodes, path, base, j)
  }

  /** Node j of the chain carries the pair path[j - base] and has its predecessor as its one parent. */
  ghost predicate ChainAt(nodes: IdGraph, path: seq<(string, string)>, base: NodeId, j: NodeId)
  {
    base <= j < base + |path| &&
    j in nodes && nodes[j].mapping == path[j - base].0 && nodes[j].data.value == path[j - base].1 &&
    nodes[j].parents == (if j == base then map[] else map[path[j - base - 1].0 := j - 1])
  }

  /** Node j of the chain, already processed by ToIdModel, has its successor as its one child. */
  ghost predicate ChainNext(nodes: IdGraph, path: seq<(string, string)>, base: NodeId, j: NodeId)
  {
    base <= j && j + 1 < base + |path| && j in nodes &&
    nodes[j].children == map[path[j - base + 1].0 := {j + 1}]
  }

  /** The node cur has no child yet, or the one node x the previous iteration left in the state. */
  ghost predicate CurrentChild(nodes: IdGraph, base: NodeId, cur: NodeId, x: NodeId)
    requires cur in nodes
  {
    x in nodes && (x < base || x > cur) &&
    nodes[cur].children == map[nodes[x].mapping := {x}] &&
    nodes[cur].mapping in nodes[x].parents && nodes[x].parents[nodes[cur].mapping] == cur
  }

  ghost predicate Pending(nodes: IdGraph, path: seq<(string, string)>, state: State, base: NodeId, cur: NodeId)
  {
    ChainLinked(nodes, path, base, cur) &&
    (forall j {:trigger ChainNext(nodes, path, base, j)} :: base <= j < cur ==> ChainNext(nodes, path, base, j)) &&
    cur in nodes && (nodes[cur].children == map[] || exists x :: CurrentChild(nodes, base, cur, x)) &&
    (forall m, n :: m in state && n in state[m] ==> n < base || n > cur)
  }

  lemma {:induction false} ChainDescends(nodes: IdGraph, path: seq<(string, string)>, base: NodeId, cur: NodeId, j: NodeId)
    requires ChainLinked(nodes, path, base, cur) && base <= j <= cur
    ensures Descends(nodes, j)
    decreases j
  {
    assert ChainAt(nodes, path, base, j);
    if j > base {
      FirstParentOfSingle(nodes[j], path[j - base - 1].0, j - 1);
      ChainDescends(nodes, path, base, cur, j - 1);
    }
  }

  /** Merging cur into model moves its child x under model: only x, cur and model change. */
  lemma MergeChildEffect(nodes: IdGraph, base: NodeId, cur: NodeId, model: NodeId, x: NodeId)
    requires Closed(nodes) && cur in nodes && model in nodes && model != cur && base <= cur
    requires CurrentChild(nodes, base, cur, x)
    requires nodes[model].mapping == nodes[cur].mapping
    ensures var r := MergeChild(nodes, cur, model);
      r.Success? &&
      (forall n :: n in nodes && n != x && n != cur && n != model ==> r.value[n] == nodes[n]) &&
      r.value[cur].parents == nodes[cur].parents &&
      x in ChildrenUnder(r.value[model], nodes[x].mapping) &&
      nodes[cur].mapping in r.value[x].parents && r.value[x].parents[nodes[cur].mapping] == model
  {
    FirstChildOfSingle(nodes[cur], nodes[x].mapping, x);
    var h := RemoveParent(nodes, x, nodes[cur].mapping);
    assert h.Success?;
    assert h.value[cur].parents == nodes[cur].parents;
    assert MergeChild(nodes, cur, model) == Success(LinkChild(h.value, model, x));
    LinkChildEffect(h.value, model, x);
    LinkChildFrame(h.value, model, x);
  }

  /** Merging cur into model hands cur's parent p over to model: only cur, p and model change. */
  lemma MergeParentEffect(g: IdGraph, cur: NodeId, model: NodeId, p: NodeId)
    requires Closed(g) && cur in g && model in g && p in g && model != cur && p != cur && p != model
    requires g[cur].parents == map[g[p].mapping := p]
    requires g[p].children == map[g[cur].mapping := {cur}]
    requires g[model].mapping == g[cur].mapping
    ensures var r := MergeParent(g, cur, model, Some(p));
      r.Success? &&
      (forall n :: n in g && n != cur && n != p && n != model ==> r.value[n] == g[n]) &&
      r.value[p].parents == g[p].parents &&
      r.value[p].children == map[g[model].mapping := {model}] &&
      g[p].mapping in r.value[model].parents && r.value[model].parents[g[p].mapping] == p &&
      (forall m :: m != g[p].mapping && m in g[model].parents ==> m in r.value[model].parents && r.value[model].parents[m] == g[model].parents[m])
  {
    CurLeavesParent(g, cur, p);
    var h := RemoveParent(g, cur, g[p].mapping).value;
    ModelAdopted(h, p, model, g[cur].mapping);
  }

  /** p, left with no child under mapping mc, adopts model as its one child. */
  lemma ModelAdopted(h: IdGraph, p: NodeId, model: NodeId, mc: string)
    requires p in h && model in h && p != model
    requires h[p].children == map[mc := {}] && h[model].mapping == mc
    ensures var r := LinkChild(h, p, model);
      r.Keys == h.Keys &&
      (forall n :: n in h && n != p && n != model ==> r[n] == h[n]) &&
      r[p].parents == h[p].parents &&
      r[p].children == map[mc := {model}] &&
      r[model].parents == h[model].parents[h[p].mapping := p] &&
      r[model].mapping == mc
  {
    var r := LinkChild(h, p, model);
    assert ChildrenUnder(h[p], mc) + {model} == {model};
    assert r[p].children == map[mc := {model}];
  }

  /** cur leaves its one parent p, whose one child set empties. */
  lemma CurLeavesParent(g: IdGraph, cur: NodeId, p: NodeId)
    requires Closed(g) && cur in g && p in g && p != cur
    requires g[cur].parents == map[g[p].mapping := p]
    requires g[p].children == map[g[cur].mapping := {cur}]
    ensures var h := RemoveParent(g, cur, g[p].mapping);
      h.Success? && h.value.Keys == g.Keys &&
      (forall n :: n in g && n != cur && n != p ==> h.value[n] == g[n]) &&
      h.value[p].parents == g[p].parents &&
      h.value[p].children == map[g[cur].mapping := {}]
  {
    assert {cur} - {cur} == {};
  }

  /** The instances for the pair (k, v): nodes listed under k whose value is v. */
  ghost predicate HasInstance(o: Outcome, pair: (string, string))
  {
    pair.0 in o.state && exists n :: n in o.state[pair.0] && n in o.nodes && o.nodes[n].data.value == pair.1
  }

  /** What one iteration of Add keeps: the invariants, every node's mapping and data, and every instance listed so far. */
  ghost predicate StepKeeps(nodes: IdGraph, state: State, o: Outcome)
  {
    Wf(o.nodes, o.state) && o.nodes.Keys == nodes.Keys &&
    (forall n :: n in nodes ==> o.nodes[n].mapping == nodes[n].mapping && o.nodes[n].data == nodes[n].data) &&
    (forall m :: m in state ==> m in o.state && state[m] <= o.state[m])
  }

  /** Without a match, c joins the instances of its mapping and the arena is unchanged. */
  lemma AddedKeeps(nodes: IdGraph, path: seq<(string, string)>, state: State, base: NodeId, cur: NodeId)
    requires Wf(nodes, state) && Pending(nodes, path, state, base, cur)
    ensures var m := nodes[cur].mapping;
      var s' := state[m := (if m in state then state[m] else {}) + {cur}];
      StepKeeps(nodes, state, Outcome(nodes, s', None))
  {
  }

  /** ... and the parent of c becomes the current node, with c as its one child. */
  lemma AddedPending(nodes: IdGraph, path: seq<(string, string)>, state: State, base: NodeId, cur: NodeId)
    requires Wf(nodes, state) && Pending(nodes, path, state, base, cur) && cur > base
    ensures FirstParent(nodes[cur]) == Some(cur - 1)
    ensures var m := nodes[cur].mapping;
      Pending(nodes, path, state[m := (if m in state then state[m] else {}) + {cur}], base, cur - 1)
  {
    assert ChainAt(nodes, path, base, cur - 1) && ChainAt(nodes, path, base, cur) && ChainNext(nodes, path, base, cur - 1);
    FirstParentOfSingle(nodes[cur], path[cur - base - 1].0, cur - 1);
    assert CurrentChild(nodes, base, cur - 1, cur);
  }

  /** With the single match model, c's child and parent move over to model. */
  lemma MergedSucceeds(nodes: IdGraph, path: seq<(string, string)>, state: State, base: NodeId, cur: NodeId, model: NodeId)
    requires Wf(nodes, state) && Pending(nodes, path, state, base, cur)
    requires nodes[cur].mapping in state && model in state[nodes[cur].mapping]
    requires FirstParent(nodes[cur]) == (if cur == base then None else Some(cur - 1))
    ensures var g1 := MergeChild(nodes, cur, model);
      g1.Success? && var g2 := MergeParent(g1.value, cur, model, FirstParent(nodes[cur]));
      g2.Success? && StepKeeps(nodes, state, Outcome(g2.value, state, None))
  {
    var g1 := MergedChildFrame(nodes, path, state, base, cur, model);
    if cur > base {
      assert ChainAt(nodes, path, base, cur - 1) && ChainAt(nodes, path, base, cur) && ChainNext(nodes, path, base, cur - 1);
      assert g1[cur - 1] == nodes[cur - 1];
      MergeParentEffect(g1, cur, model, cur - 1);
    }
  }

  /** MergeChild succeeds and changes only cur, model and nodes outside base .. cur. */
  lemma MergedChildFrame(nodes: IdGraph, path: seq<(string, string)>, state: State, base: NodeId, cur: NodeId, model: NodeId) returns (g1: IdGraph)
    requires Wf(nodes, state) && Pending(nodes, path, state, base, cur)
    requires nodes[cur].mapping in state && model in state[nodes[cur].mapping]
    ensures model != cur && (model < base || model > cur)
    ensures MergeChild(nodes, cur, model) == Success(g1)
    ensures forall n :: base <= n < cur ==> n in nodes && n in g1 && g1[n] == nodes[n]
    ensures g1[cur].parents == nodes[cur].parents
  {
    if nodes[cur].children == map[] {
      g1 := nodes;
    } else {
      var x :| CurrentChild(nodes, base, cur, x);
      MergeChildEffect(nodes, base, cur, model, x);
      g1 := MergeChild(nodes, cur, model).value;
    }
    forall n | base <= n < cur
      ensures n in nodes && n in g1 && g1[n] == nodes[n]
    {
      assert ChainAt(nodes, path, base, n);
    }
  }

  /** After the merge, the parent of c is the current node, with model as its one child. */
  lemma MergedPending(nodes: IdGraph, path: seq<(string, string)>, state: State, base: NodeId, cur: NodeId, model: NodeId)
    requires Wf(nodes, state) && Pending(nodes, path, state, base, cur) && cur > base
    requires nodes[cur].mapping in state && model in state[nodes[cur].mapping]
    requires FirstParent(nodes[cur]) == Some(cur - 1)
    ensures var g1 := MergeChild(nodes, cur, model);
      g1.Success? && var g2 := MergeParent(g1.value, cur, model, Some(cur - 1));
      g2.Success? && Pending(g2.value, path, state, base, cur - 1)
  {
    var g1 := MergedChildFrame(nodes, path, state, base, cur, model);
    assert ChainAt(nodes, path, base, cur - 1) && ChainAt(nodes, path, base, cur) && ChainNext(nodes, path, base, cur - 1);
    assert g1[cur - 1] == nodes[cur - 1];
    MergeParentEffect(g1, cur, model, cur - 1);
    var g2 := MergeParent(g1, cur, model, Some(cur - 1)).value;
    assert CurrentChild(g2, base, cur - 1, model);
    PendingAfterMerge(nodes, g2, path, state, base, cur, model);
  }

  /** The chain below cur is untouched by the merge, and cur's parent now has model as its child. */
  lemma PendingAfterMerge(nodes: IdGraph, g2: IdGraph, path: seq<(string, string)>, state: State, base: NodeId, cur: NodeId, model: NodeId)
    requires Pending(nodes, path, state, base, cur) && cur > base
    requires forall j :: base <= j < cur - 1 ==> j in nodes && j in g2 && g2[j] == nodes[j]
    requires cur - 1 in nodes && cur - 1 in g2 && g2[cur - 1].parents == nodes[cur - 1].parents
    requires g2[cur - 1].mapping == nodes[cur - 1].mapping && g2[cur - 1].data == nodes[cur - 1].data
    requires CurrentChild(g2, base, cur - 1, model)
    ensures Pending(g2, path, state, base, cur - 1)
  {
    forall j | base <= j <= cur - 1
      ensures ChainAt(g2, path, base, j)
    {
      assert ChainAt(nodes, path, base, j);
    }
    forall j | base <= j < cur - 1
      ensures ChainNext(g2, path, base, j)
    {
      assert ChainNext(nodes, path, base, j);
    }
  }

  /** Without a match, AddStep adds c to the instances of its mapping. */
  lemma AddStepNoMatch(nodes: IdGraph, state: State, c: NodeId)
    requires c in nodes && Closed(nodes) && Descends(nodes, c)
    requires var m := nodes[c].mapping; m in state ==> SingleOrDefault(Matching(nodes, state[m], c)) == Success(None)
    ensures var m := nodes[c].mapping;
      AddStep(nodes, state, c) == Outcome(nodes, state[m := (if m in state then state[m] else {}) + {c}], None)
  {
  }

  /** With the one match model, AddStep merges c into model. */
  lemma AddStepMerged(nodes: IdGraph, state: State, c: NodeId, model: NodeId, g2: IdGraph)
    requires c in nodes && Closed(nodes) && Descends(nodes, c) && model in nodes
    requires var m := nodes[c].mapping; m in state && SingleOrDefault(Matching(nodes, state[m], c)) == Success(Some(model))
    requires var g1 := MergeChild(nodes, c, model);
      g1.Success? && FirstParent(nodes[c]).Some? ==> FirstParent(nodes[c]).value in nodes
    requires var g1 := MergeChild(nodes, c, model);
      g1.Success? && MergeParent(g1.value, c, model, FirstParent(nodes[c])) == Success(g2)
    ensures AddStep(nodes, state, c) == Outcome(g2, state, None)
  {
  }

  /**
   * One iteration of Add keeps the invariants; its only possible error is the one of
   * SingleOrDefault, which leaves everything as it was; otherwise c's pair has an instance
   * and the loop can go on with c's parent.
   */
  lemma AddStepKeeps(nodes: IdGraph, path: seq<(string, string)>, state: State, base: NodeId, cur: NodeId)
    requires Wf(nodes, state) && Pending(nodes, path, state, base, cur)
    ensures Descends(nodes, cur)
    ensures FirstParent(nodes[cur]).None? <==> cur == base
    ensures FirstParent(nodes[cur]).Some? ==> FirstParent(nodes[cur]).value == cur - 1
    ensures StepOutcome(nodes, path, state, base, cur, AddStep(nodes, state, cur))
  {
    ChainParent(nodes, path, state, base, cur);
    var m := nodes[cur].mapping;
    var found := if m in state then SingleOrDefault(Matching(nodes, state[m], cur)) else Success(None);
    if found.Failure? {
      AddStepFails(nodes, path, state, base, cur);
    } else if found.value.None? {
      AddStepFreshKeeps(nodes, path, state, base, cur);
    } else {
      AddStepMergeKeeps(nodes, path, state, base, cur, found.value.value);
    }
  }

  /** The node being added descends through the chain, and its first parent is its predecessor. */
  lemma ChainParent(nodes: IdGraph, path: seq<(string, string)>, state: State, base: NodeId, cur: NodeId)
    requires Pending(nodes, path, state, base, cur)
    ensures Descends(nodes, cur)
    ensures FirstParent(nodes[cur]).None? <==> cur == base
    ensures FirstParent(nodes[cur]).Some? ==> FirstParent(nodes[cur]).value == cur - 1
  {
    ChainDescends(nodes, path, base, cur, cur);
    assert ChainAt(nodes, path, base, cur);
    if cur > base {
      FirstParentOfSingle(nodes[cur], path[cur - base - 1].0, cur - 1);
    }
  }

  /** SingleOrDefault throwing leaves everything as it was. */
  lemma AddStepFails(nodes: IdGraph, path: seq<(string, string)>, state: State, base: NodeId, cur: NodeId)
    requires Wf(nodes, state) && Pending(nodes, path, state, base, cur) && Descends(nodes, cur)
    requires var m := nodes[cur].mapping;
      m in state && SingleOrDefault(Matching(nodes, state[m], cur)).Failure?
    ensures StepOutcome(nodes, path, state, base, cur, AddStep(nodes, state, cur))
  {
    assert AddStep(nodes, state, cur) == Outcome(nodes, state, Some(InvalidOperation));
  }

  /** Without an exception, the loop goes on at cur's first parent with the chain still pending. */
  lemma AddStepNext(nodes: IdGraph, path: seq<(string, string)>, state: State, base: NodeId, cur: NodeId)
    requires Wf(nodes, state) && Pending(nodes, path, state, base, cur)
    ensures Descends(nodes, cur)
    ensures AddStep(nodes, state, cur).error.None? && FirstParent(nodes[cur]).Some? ==>
      Pending(AddStep(nodes, state, cur).nodes, path, AddStep(nodes, state, cur).state, base, FirstParent(nodes[cur]).value)
  {
    AddStepKeeps(nodes, path, state, base, cur);
    var o := AddStep(nodes, state, cur);
    if o.error.None? && FirstParent(nodes[cur]).Some? {
      StepPending(nodes, path, state, base, cur, o);
    }
  }

  lemma StepPending(nodes: IdGraph, path: seq<(string, string)>, state: State, base: NodeId, cur: NodeId, o: Outcome)
    requires Wf(nodes, state) && Pending(nodes, path, state, base, cur)
    requires StepOutcome(nodes, path, state, base, cur, o) && o.error.None? && cur > base
    ensures Pending(o.nodes, path, o.state, base, cur - 1)
  {
  }

  /** What one step of Add leaves: the invariant, the error case, and the pending chain above cur. */
  ghost predicate StepOutcome(nodes: IdGraph, path: seq<(string, string)>, state: State, base: NodeId, cur: NodeId, o: Outcome)
    requires Wf(nodes, state) && Pending(nodes, path, state, base, cur)
  {
    ChainDescends(nodes, path, base, cur, cur);
    StepKeeps(nodes, state, o) &&
    (o.error.Some? ==> o.error == Some(InvalidOperation) && o.nodes == nodes && o.state == state) &&
    (o.error.None? ==> HasInstance(o, path[cur - base])) &&
    (o.error.None? && cur > base ==> Pending(o.nodes, path, o.state, base, cur - 1))
  }

  /** The step where no instance matches: cur joins the instances of its mapping. */
  lemma AddStepFreshKeeps(nodes: IdGraph, path: seq<(string, string)>, state: State, base: NodeId, cur: NodeId)
    requires Wf(nodes, state) && Pending(nodes, path, state, base, cur) && Descends(nodes, cur)
    requires var m := nodes[cur].mapping;
      (if m in state then SingleOrDefault(Matching(nodes, state[m], cur)) else Success(None)) == Success(None)
    ensures StepOutcome(nodes, path, state, base, cur, AddStep(nodes, state, cur))
  {
    var m := nodes[cur].mapping;
    var o := Outcome(nodes, state[m := (if m in state then state[m] else {}) + {cur}], None);
    AddStepNoMatch(nodes, state, cur);
    AddedKeeps(nodes, path, state, base, cur);
    AddedInstance(nodes, path, state, base, cur);
    if cur > base {
      AddedPending(nodes, path, state, base, cur);
    }
    assert StepOutcome(nodes, path, state, base, cur, o);
  }

  /** Without a match, c itself becomes the instance of its pair. */
  lemma AddedInstance(nodes: IdGraph, path: seq<(string, string)>, state: State, base: NodeId, cur: NodeId)
    requires Pending(nodes, path, state, base, cur)
    ensures var m := nodes[cur].mapping;
      HasInstance(Outcome(nodes, state[m := (if m in state then state[m] else {}) + {cur}], None), path[cur - base])
  {
    assert ChainAt(nodes, path, base, cur);
    var m := nodes[cur].mapping;
    var o := Outcome(nodes, state[m := (if m in state then state[m] else {}) + {cur}], None);
    assert cur in o.state[m] && o.nodes[cur].data.value == path[cur - base].1;
  }

  /** The step where one instance matches: cur is merged into it. */
  lemma AddStepMergeKeeps(nodes: IdGraph, path: seq<(string, string)>, state: State, base: NodeId, cur: NodeId, model: NodeId)
    requires Wf(nodes, state) && Pending(nodes, path, state, base, cur) && Descends(nodes, cur)
    requires var m := nodes[cur].mapping;
      (if m in state then SingleOrDefault(Matching(nodes, state[m], cur)) else Success(None)) == Success(Some(model))
    ensures StepOutcome(nodes, path, state, base, cur, AddStep(nodes, state, cur))
  {
    ChainParent(nodes, path, state, base, cur);
    var m := nodes[cur].mapping;
    assert model in Matching(nodes, state[m], cur);
    MergedSucceeds(nodes, path, state, base, cur, model);
    var g1 := MergeChild(nodes, cur, model).value;
    var g2 := MergeParent(g1, cur, model, FirstParent(nodes[cur])).value;
    AddStepMerged(nodes, state, cur, model, g2);
    MergedInstance(nodes, path, state, base, cur, model, g2);
    if cur > base {
      MergedPending(nodes, path, state, base, cur, model);
    }
    assert StepOutcome(nodes, path, state, base, cur, Outcome(g2, state, None));
  }

  /** With a match, the match is the instance of c's pair. */
  lemma MergedInstance(nodes: IdGraph, path: seq<(string, string)>, state: State, base: NodeId, cur: NodeId, model: NodeId, g2: IdGraph)
    requires Wf(nodes, state) && Pending(nodes, path, state, base, cur) && Descends(nodes, cur)
    requires nodes[cur].mapping in state && model in Matching(nodes, state[nodes[cur].mapping], cur)
    requires StepKeeps(nodes, state, Outcome(g2, state, None))
    ensures HasInstance(Outcome(g2, state, None), path[cur - base])
  {
    assert ChainAt(nodes, path, base, cur);
    assert nodes[model].data.value == nodes[cur].data.value;
    assert model in state[nodes[cur].mapping] && g2[model].data.value == nodes[cur].data.value;
  }

  // ---------------------------------------------------------------------------------
  // ToIdModel's chain, one node at a time.

  /** The fresh IdModel for the pair (key, value): no relations, not deleted. */
  function Fresh(pair: (string, string)): Node<IdData>
  {
    Node(pair.0, false, map[], map[], IdData(pair.1, false))
  }

  /**
   * The chain ToIdModel builds: the old nodes are untouched, and node j of the chain
   * carries the pair path[j - base], has its predecessor as its one parent and its
   * successor as its one child.
   */
  lemma WithChainShape(g: IdGraph, path: seq<(string, string)>, base: NodeId, t: nat)
    requires t <= |path| && forall n :: n in g ==> n < base
    ensures forall j :: j in WithChain(g, path, base, t) <==> j in g || base <= j < base + t
    ensures forall n :: n in g ==> n in WithChain(g, path, base, t) && WithChain(g, path, base, t)[n] == g[n]
    ensures forall j :: base <= j < base + t ==> j in WithChain(g, path, base, t) && WithChain(g, path, base, t)[j] == ChainNode(path, base, t, j)
  {
    WithChainKeys(g, path, base, t);
    WithChainKeepsOld(g, path, base, t);
    forall j | base <= j < base + t
      ensures j in WithChain(g, path, base, t) && WithChain(g, path, base, t)[j] == ChainNode(path, base, t, j)
    {
      WithChainAt(g, path, base, t, j);
    }
  }

  /** The chain adds exactly the ids base .. base + t - 1. */
  lemma {:induction false} WithChainKeys(g: IdGraph, path: seq<(string, string)>, base: NodeId, t: nat)
    requires t <= |path|
    ensures forall j :: j in WithChain(g, path, base, t) <==> j in g || base <= j < base + t
    decreases t
  {
    if t > 0 {
      WithChainKeys(g, path, base, t - 1);
      if t > 1 {
        LinkChildEffect(WithChain(g, path, base, t - 1)[base + t - 1 := Fresh(path[t - 1])], base + t - 2, base + t - 1);
      }
    }
  }

  /** One more pair for ToIdModel's loop, stated on its own variables. */
  lemma ChainStep(g: IdGraph, path: seq<(string, string)>, base: NodeId, i: nat, prev: IdGraph, id: NodeId, last: Option<NodeId>)
    requires i < |path| && prev == WithChain(g, path, base, i) && id == base + i
    requires i == 0 <==> last.None?
    requires last.Some? ==> last.value == id - 1
    ensures last.None? ==> WithChain(g, path, base, i + 1) == prev[id := Fresh(path[i])]
    ensures last.Some? ==> last.value in prev && WithChain(g, path, base, i + 1) == LinkChild(prev[id := Fresh(path[i])], last.value, id)
  {
    WithChainKeys(g, path, base, i);
  }

  /** Chain node j, by induction on the length of the chain. */
  lemma {:induction false} WithChainAt(g: IdGraph, path: seq<(string, string)>, base: NodeId, t: nat, j: NodeId)
    requires t <= |path| && base <= j < base + t
    ensures j in WithChain(g, path, base, t) && WithChain(g, path, base, t)[j] == ChainNode(path, base, t, j)
    decreases t
  {
    if t > 1 {
      if j < base + t - 2 {
        WithChainAt(g, path, base, t - 1, j);
        EarlierStep(g, path, base, t, j);
      } else if j == base + t - 2 {
        WithChainAt(g, path, base, t - 1, j);
        ParentStep(g, path, base, t);
      } else {
        WithChainAt(g, path, base, t - 1, j - 1);
        LastStep(g, path, base, t);
      }
    } else {
      FirstStep(g, path, base);
    }
  }

  /** The first node of the chain is a fresh node with no relations. */
  lemma FirstStep(g: IdGraph, path: seq<(string, string)>, base: NodeId)
    requires 0 < |path|
    ensures base in WithChain(g, path, base, 1) && WithChain(g, path, base, 1)[base] == ChainNode(path, base, 1, base)
  {
    assert WithChain(g, path, base, 0) == g;
    assert ChainNode(path, base, 1, base) == Fresh(path[0]);
  }

  /** A node before the old last one is left alone by the next link. */
  lemma EarlierStep(g: IdGraph, path: seq<(string, string)>, base: NodeId, t: nat, j: NodeId)
    requires 1 < t <= |path| && base <= j < base + t - 2
    requires j in WithChain(g, path, base, t - 1) && WithChain(g, path, base, t - 1)[j] == ChainNode(path, base, t - 1, j)
    ensures j in WithChain(g, path, base, t) && WithChain(g, path, base, t)[j] == ChainNode(path, base, t, j)
  {
    var w := WithChain(g, path, base, t - 1);
    var h: IdGraph := w[base + t - 1 := Fresh(path[t - 1])];
    assert j in h && h[j] == w[j];
  }

  /** The old last node gains the new node as its one child. */
  lemma ParentStep(g: IdGraph, path: seq<(string, string)>, base: NodeId, t: nat)
    requires 1 < t <= |path|
    requires var p := base + t - 2;
      p in WithChain(g, path, base, t - 1) && WithChain(g, path, base, t - 1)[p] == ChainNode(path, base, t - 1, p)
    ensures var p := base + t - 2;
      p in WithChain(g, path, base, t) && WithChain(g, path, base, t)[p] == ChainNode(path, base, t, p)
  {
    var p, c := base + t - 2, base + t - 1;
    var w := WithChain(g, path, base, t - 1);
    var h: IdGraph := w[c := Fresh(path[t - 1])];
    assert h[p] == w[p];
    var none: set<NodeId> := {};
    assert ChildrenUnder(h[p], path[t - 1].0) == none;
    assert none + {c} == {c};
    assert LinkChild(h, p, c)[p].children == map[][path[t - 1].0 := {c}];
  }

  /** The new node has the old last node as its one parent. */
  lemma LastStep(g: IdGraph, path: seq<(string, string)>, base: NodeId, t: nat)
    requires 1 < t <= |path|
    requires var p := base + t - 2;
      p in WithChain(g, path, base, t - 1) && WithChain(g, path, base, t - 1)[p] == ChainNode(path, base, t - 1, p)
    ensures var c := base + t - 1;
      c in WithChain(g, path, base, t) && WithChain(g, path, base, t)[c] == ChainNode(path, base, t, c)
  {
    var p, c := base + t - 2, base + t - 1;
    var w := WithChain(g, path, base, t - 1);
    var h: IdGraph := w[c := Fresh(path[t - 1])];
    assert h[p] == w[p];
    assert LinkChild(h, p, c)[c].parents == map[][path[t - 2].0 := p];
  }

  /** The chain leaves the nodes that were there before alone. */
  lemma {:induction false} WithChainKeepsOld(g: IdGraph, path: seq<(string, string)>, base: NodeId, t: nat)
    requires t <= |path| && forall n :: n in g ==> n < base
    ensures forall n :: n in g ==> n in WithChain(g, path, base, t) && WithChain(g, path, base, t)[n] == g[n]
    decreases t
  {
    if t > 1 {
      WithChainKeepsOld(g, path, base, t - 1);
      LinkChildFrame(WithChain(g, path, base, t - 1)[base + t - 1 := Fresh(path[t - 1])], base + t - 2, base + t - 1);
    } else if t == 1 {
      WithChainKeepsOld(g, path, base, t - 1);
    }
  }

  /** The chain keeps the arena closed and the state well formed. */
  lemma WithChainWf(g: IdGraph, state: State, path: seq<(string, string)>, base: NodeId, t: nat)
    requires Wf(g, state) && t <= |path| && forall n :: n in g ==> n < base
    ensures Wf(WithChain(g, path, base, t), state)
  {
    var w := WithChain(g, path, base, t);
    WithChainShape(g, path, base, t);
    forall n | n in w
      ensures (forall m :: m in w[n].parents ==> w[n].parents[m] in w) &&
              (forall m :: m in w[n].children ==> w[n].children[m] <= w.Keys)
    {
      if !(base <= n < base + t) {
        assert w[n] == g[n];
      }
    }
  }

  /** The complete chain is where the loop of Add starts: nothing processed yet. */
  lemma WithChainPending(g: IdGraph, state: State, path: seq<(string, string)>, base: NodeId)
    requires Wf(g, state) && |path| > 0 && forall n :: n in g ==> n < base
    ensures Wf(WithChain(g, path, base, |path|), state)
    ensures Pending(WithChain(g, path, base, |path|), path, state, base, base + |path| - 1)
  {
    var w := WithChain(g, path, base, |path|);
    WithChainWf(g, state, path, base, |path|);
    WithChainShape(g, path, base, |path|);
    forall j | base <= j <= base + |path| - 1
      ensures ChainAt(w, path, base, j)
    {
    }
    forall j | base <= j < base + |path| - 1
      ensures ChainNext(w, path, base, j)
    {
    }
  }

  // ---------------------------------------------------------------------------------
  // Add files every edge under the mapping of the node at its other end.

  /** A fresh node with a new id has no edges, and no edge names it. */
  lemma FreshKeyed(g: IdGraph, c: NodeId, pair: (string, string))
    requires Closed(g) && Keyed(g) && c !in g
    ensures Keyed(g[c := Fresh(pair)]) && Closed(g[c := Fresh(pair)])
  {
    var h := g[c := Fresh(pair)];
    forall n, k, x | n in h && k in h[n].children && x in h[n].children[k] && x in h
      ensures h[x].mapping == k
    {
      assert n in g && x in g;
    }
    forall n, k | n in h && k in h[n].parents && h[n].parents[k] in h
      ensures h[h[n].parents[k]].mapping == k
    {
      assert n in g && h[n].parents[k] in g;
    }
    forall n | n in h
      ensures (forall m :: m in h[n].parents ==> h[n].parents[m] in h) &&
              (forall m :: m in h[n].children ==> h[n].children[m] <= h.Keys)
    {
      if n != c {
        assert h[n] == g[n];
      }
    }
  }

  /** ToIdModel's chain files every edge under the mapping of its far end, and stays inside the arena. */
  lemma WithChainKeyed(g: IdGraph, path: seq<(string, string)>, base: NodeId, t: nat)
    requires t <= |path| && Closed(g) && Keyed(g) && forall n :: n in g ==> n < base
    ensures Keyed(WithChain(g, path, base, t)) && Closed(WithChain(g, path, base, t))
  {
    WithChainShape(g, path, base, t);
    var w := WithChain(g, path, base, t);
    ChainChildrenKeyed(g, path, base, t, w);
    ChainParentsKeyed(g, path, base, t, w);
    ChainClosed(g, path, base, t, w);
  }

  /** The facts of WithChainShape, for an arena w built by the chain. */
  ghost predicate ChainShaped(g: IdGraph, path: seq<(string, string)>, base: NodeId, t: nat, w: IdGraph)
    requires t <= |path|
  {
    (forall j :: j in w <==> j in g || base <= j < base + t) &&
    (forall n :: n in g ==> n in w && w[n] == g[n]) &&
    (forall j :: base <= j < base + t ==> j in w && w[j] == ChainNode(path, base, t, j))
  }

  lemma ChainChildrenKeyed(g: IdGraph, path: seq<(string, string)>, base: NodeId, t: nat, w: IdGraph)
    requires t <= |path| && Closed(g) && Keyed(g) && (forall n :: n in g ==> n < base) && ChainShaped(g, path, base, t, w)
    ensures forall n, k, x :: n in w && k in w[n].children && x in w[n].children[k] && x in w ==> w[x].mapping == k
  {
    forall n, k, x | n in w && k in w[n].children && x in w[n].children[k] && x in w
      ensures w[x].mapping == k
    {
      if n in g {
        assert x in g && w[x] == g[x];
      } else {
        assert w[n] == ChainNode(path, base, t, n);
      }
    }
  }

  lemma ChainParentsKeyed(g: IdGraph, path: seq<(string, string)>, base: NodeId, t: nat, w: IdGraph)
    requires t <= |path| && Closed(g) && Keyed(g) && (forall n :: n in g ==> n < base) && ChainShaped(g, path, base, t, w)
    ensures forall n, k :: n in w && k in w[n].parents && w[n].parents[k] in w ==> w[w[n].parents[k]].mapping == k
  {
    forall n, k | n in w && k in w[n].parents && w[n].parents[k] in w
      ensures w[w[n].parents[k]].mapping == k
    {
      if n in g {
        assert w[n].parents[k] in g;
      } else {
        assert w[n] == ChainNode(path, base, t, n);
      }
    }
  }

  lemma ChainClosed(g: IdGraph, path: seq<(string, string)>, base: NodeId, t: nat, w: IdGraph)
    requires t <= |path| && Closed(g) && (forall n :: n in g ==> n < base) && ChainShaped(g, path, base, t, w)
    ensures Closed(w)
  {
    forall n | n in w
      ensures (forall m :: m in w[n].parents ==> w[n].parents[m] in w) &&
              (forall m :: m in w[n].children ==> w[n].children[m] <= w.Keys)
    {
      ChainNodeClosed(g, path, base, t, w, n);
    }
  }

  lemma ChainNodeClosed(g: IdGraph, path: seq<(string, string)>, base: NodeId, t: nat, w: IdGraph, n: NodeId)
    requires t <= |path| && Closed(g) && (forall n :: n in g ==> n < base) && ChainShaped(g, path, base, t, w)
    requires n in w
    ensures forall m :: m in w[n].parents ==> w[n].parents[m] in w
    ensures forall m :: m in w[n].children ==> w[n].children[m] <= w.Keys
  {
    if n in g {
      assert w[n] == g[n];
      assert g.Keys <= w.Keys;
    } else {
      assert w[n] == ChainNode(path, base, t, n);
    }
  }

  /** One iteration of Add: MergeChild and MergeParent unlink with RemoveParent and relink with LinkChild. */
  lemma AddStepKeyed(nodes: IdGraph, state: State, c: NodeId)
    requires c in nodes && Closed(nodes) && Descends(nodes, c) && Keyed(nodes)
    ensures Keyed(AddStep(nodes, state, c).nodes)
  {
    var m := nodes[c].mapping;
    var found := if m in state then SingleOrDefault(Matching(nodes, state[m], c)) else Success(None);
    AddStepNodes(nodes, state, c);
    if found.Success? && found.value.Some? {
      MergeKeyed(nodes, c, found.value.value);
    }
  }

  /** AddStep leaves the arena alone, or leaves it as one of the two halves of the merge left it. */
  lemma AddStepNodes(nodes: IdGraph, state: State, c: NodeId)
    requires c in nodes && Closed(nodes) && Descends(nodes, c)
    ensures var m := nodes[c].mapping;
      var found := if m in state then SingleOrDefault(Matching(nodes, state[m], c)) else Success(None);
      var r := AddStep(nodes, state, c).nodes;
      r == nodes ||
      (found.Success? && found.value.Some? && found.value.value in nodes &&
       MergeChild(nodes, c, found.value.value).Success? &&
       (r == MergeChild(nodes, c, found.value.value).value ||
        MergeParent(MergeChild(nodes, c, found.value.value).value, c, found.value.value, FirstParent(nodes[c])) == Success(r)))
  {
  }

  /** Both halves of a merge keep every edge filed under the mapping of its far end. */
  lemma MergeKeyed(g: IdGraph, c: NodeId, model: NodeId)
    requires c in g && model in g && Closed(g) && Keyed(g)
    ensures MergeChild(g, c, model).Success? ==> Keyed(MergeChild(g, c, model).value)
    ensures MergeChild(g, c, model).Success? && MergeParent(MergeChild(g, c, model).value, c, model, FirstParent(g[c])).Success? ==>
      Keyed(MergeParent(MergeChild(g, c, model).value, c, model, FirstParent(g[c])).value)
  {
    MergeChildKeyed(g, c, model);
    var g1 := MergeChild(g, c, model);
    var parent := FirstParent(g[c]);
    if g1.Success? && parent.Some? {
      MergeParentKeyed(g1.value, c, model, parent.value);
    }
  }

  lemma MergeChildKeyed(g: IdGraph, c: NodeId, model: NodeId)
    requires c in g && model in g && Closed(g) && Keyed(g)
    ensures MergeChild(g, c, model).Success? ==> Keyed(MergeChild(g, c, model).value)
  {
    if g[c].children != map[] {
      var child := FirstChild(g[c]);
      if child.Success? {
        var k :| k in g[c].children && child.value in g[c].children[k];
        var g1 := RemoveParent(g, child.value, g[c].mapping);
        if g1.Success? {
          RemoveParentKeyed(g, child.value, g[c].mapping);
          LinkChildKeyed(g1.value, model, child.value);
        }
      }
    }
  }

  lemma MergeParentKeyed(g: IdGraph, c: NodeId, model: NodeId, p: NodeId)
    requires c in g && model in g && p in g && Closed(g) && Keyed(g)
    ensures MergeParent(g, c, model, Some(p)).Success? ==> Keyed(MergeParent(g, c, model, Some(p)).value)
  {
    var g1 := RemoveParent(g, c, g[p].mapping);
    if g1.Success? {
      RemoveParentKeyed(g, c, g[p].mapping);
      LinkChildKeyed(g1.value, p, model);
    }
  }

  // ---------------------------------------------------------------------------------
  // Add as a whole.

  /**
   * The while loop of Add from the current IdModel newId on: each iteration is
   * AddStep and moves on to the node's first parent, until there is none.
   */
  function AddLoop(nodes: IdGraph, path: seq<(string, string)>, state: State, base: NodeId, newId: Option<NodeId>): Outcome
    requires Wf(nodes, state)
    requires newId.Some? ==> Pending(nodes, path, state, base, newId.value)
    decreases if newId.Some? then newId.value + 1 else 0
  {
    if newId.None? then Outcome(nodes, state, None)
    else
      var c := newId.value;
      AddStepKeeps(nodes, path, state, base, c);
      var o := AddStep(nodes, state, c);
      if o.error.Some? then o
      else AddLoop(o.nodes, path, o.state, base, FirstParent(nodes[c]))
  }

  /**
   * The loop keeps the invariants and the ids, mappings and values of all nodes and
   * every instance; its only exception is SingleOrDefault's; once it ran through,
   * every pair of the path up to newId has an instance.
   */
  lemma {:induction false} AddLoopAdded(nodes: IdGraph, path: seq<(string, string)>, state: State, base: NodeId, newId: Option<NodeId>)
    requires Wf(nodes, state)
    requires newId.Some? ==> Pending(nodes, path, state, base, newId.value)
    ensures AddedFrom(nodes, path, state, base, newId, AddLoop(nodes, path, state, base, newId))
    decreases if newId.Some? then newId.value + 1 else 0
  {
    if newId.Some? {
      var c := newId.value;
      AddStepKeeps(nodes, path, state, base, c);
      var o := AddStep(nodes, state, c);
      if o.error.None? {
        var next := FirstParent(nodes[c]);
        AddLoopAdded(o.nodes, path, o.state, base, next);
        AddLoopStep(nodes, path, state, base, c, o, next, AddLoop(o.nodes, path, o.state, base, next));
      }
    }
  }

  /** What AddLoop promises when started at newId. */
  ghost predicate AddedFrom(nodes: IdGraph, path: seq<(string, string)>, state: State, base: NodeId, newId: Option<NodeId>, r: Outcome)
  {
    StepKeeps(nodes, state, r) &&
    (r.error.Some? ==> r.error == Some(InvalidOperation)) &&
    (r.error.None? && newId.Some? ==> forall i :: 0 <= i <= newId.value - base && i < |path| ==> HasInstance(r, path[i]))
  }

  /** One iteration at c followed by the rest of the loop from next keeps what AddLoop promises. */
  lemma AddLoopStep(nodes: IdGraph, path: seq<(string, string)>, state: State, base: NodeId, c: NodeId, o: Outcome, next: Option<NodeId>, r: Outcome)
    requires base <= c < base + |path|
    requires next.None? ==> c == base
    requires next.Some? ==> next.value == c - 1
    requires StepKeeps(nodes, state, o) && o.error.None? && HasInstance(o, path[c - base])
    requires AddedFrom(o.nodes, path, o.state, base, next, r)
    ensures AddedFrom(nodes, path, state, base, Some(c), r)
  {
    StepKeepsTrans(nodes, state, o, r);
    if r.error.None? {
      if next.None? {
        InstanceKept(o, r, path[0]);
      } else {
        InstancesKept(o, r, path, c - base);
      }
    }
  }

  /**
   * Add(values) on an arena whose ids are all below base, the id of the first fresh
   * node: the invariants hold after it (also when it throws), every earlier node keeps
   * its mapping and value and every earlier instance stays listed, the only exception
   * is InvalidOperationException, and without one every pair of values has an instance.
   */
  function AddSpec(nodes: IdGraph, state: State, base: NodeId, values: seq<(string, string)>): (r: Outcome)
    requires Wf(nodes, state) && forall n :: n in nodes ==> n < base
    ensures Inv(r.nodes, r.state, base + |values|)
    ensures forall n :: n in nodes ==> n in r.nodes && r.nodes[n].mapping == nodes[n].mapping && r.nodes[n].data == nodes[n].data
    ensures forall m :: m in state ==> m in r.state && state[m] <= r.state[m]
    ensures r.error.Some? ==> r.error == Some(InvalidOperation)
    ensures r.error.None? ==> forall i :: 0 <= i < |values| ==> HasInstance(r, values[i])
  {
    if |values| == 0 then Outcome(nodes, state, None)
    else
      WithChainPending(nodes, state, values, base);
      WithChainShape(nodes, values, base, |values|);
      var w := WithChain(nodes, values, base, |values|);
      var r := AddLoop(w, values, state, base, Some(base + |values| - 1));
      AddLoopAdded(w, values, state, base, Some(base + |values| - 1));
      assert forall n :: n in nodes ==> n in w && w[n] == nodes[n];
      r
  }

  /** Add's loop before its first iteration, at the chain's last node first: the chain is pending from there on. */
  lemma AddSpecStart(nodes: IdGraph, state: State, base: NodeId, values: seq<(string, string)>, first: Option<NodeId>)
    requires Wf(nodes, state) && |values| > 0 && forall n :: n in nodes ==> n < base
    requires first == Some(base + |values| - 1)
    ensures var w := WithChain(nodes, values, base, |values|);
      Wf(w, state) && Pending(w, values, state, base, first.value) &&
      AddSpec(nodes, state, base, values) == AddLoop(w, values, state, base, first)
  {
    WithChainPending(nodes, state, values, base);
  }

  /** StepKeeps is transitive. */
  lemma StepKeepsTrans(nodes: IdGraph, state: State, o: Outcome, r: Outcome)
    requires StepKeeps(nodes, state, o) && StepKeeps(o.nodes, o.state, r)
    ensures StepKeeps(nodes, state, r)
  {
  }

  /** The instances for the first k pairs of path, and the one for path[k] kept from o. */
  lemma InstancesKept(o: Outcome, r: Outcome, path: seq<(string, string)>, k: nat)
    requires k < |path| && StepKeeps(o.nodes, o.state, r) && HasInstance(o, path[k])
    requires forall i :: 0 <= i < k ==> HasInstance(r, path[i])
    ensures forall i :: 0 <= i <= k ==> HasInstance(r, path[i])
  {
    InstanceKept(o, r, path[k]);
  }

  /** What StepKeeps keeps includes every instance. */
  lemma InstanceKept(o: Outcome, r: Outcome, pair: (string, string))
    requires StepKeeps(o.nodes, o.state, r) && HasInstance(o, pair)
    ensures HasInstance(r, pair)
  {
  }
}
