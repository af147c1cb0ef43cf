/**
 * The link primitives shared by the identity graph and the constraint graph
 * (ObST.Tester/Core/Models/PropertyConstraint.cs). Objects become records in an
 * arena: a map from a node id to the node, where edges name node ids. A node has
 * one parent per parent mapping and a set of children per child mapping.
 */
module Links {
  import opened Wrappers
  import Orders

  type NodeId = nat

  datatype Node<D> = Node(
    mapping: string,
    isRequired: bool,
    parents: map<string, NodeId>,
    children: map<string, set<NodeId>>,
    data: D)

  type Graph<D> = map<NodeId, Node<D>>

  /** The children of n under mapping m; none when n has no entry for m. */
  function ChildrenUnder<D>(n: Node<D>, m: string): set<NodeId>
  {
    if m in n.children then n.children[m] else {}
  }

  /** All children of n, whatever their mapping (Children.SelectMany(c => c.Value)). */
  function AllChildren<D>(n: Node<D>): set<NodeId>
  {
    set m, c | m in n.children && c in n.children[m] :: c
  }

  /** In a closed arena, all children of a node are in it. */
  lemma ChildrenIn<D>(g: Graph<D>, x: NodeId)
    requires Closed(g) && x in g
    ensures AllChildren(g[x]) <= g.Keys
  {
    forall c | c in AllChildren(g[x]) ensures c in g
    {
      var m :| m in g[x].children && c in g[x].children[m];
    }
  }

  /** No edge names a node outside the arena (object references never dangle). */
  predicate Closed<D>(g: Graph<D>)
  {
    forall n {:trigger g[n]} :: n in g ==>
      (forall m :: m in g[n].parents ==> g[n].parents[m] in g) &&
      (forall m :: m in g[n].children ==> g[n].children[m] <= g.Keys)
  }

  /** Children are filed under their own mapping, and so are parents. */
  predicate Keyed<D>(g: Graph<D>)
  {
    (forall n, k, x :: n in g && k in g[n].children && x in g[n].children[k] && x in g ==> g[x].mapping == k) &&
    (forall n, k :: n in g && k in g[n].parents && g[n].parents[k] in g ==> g[g[n].parents[k]].mapping == k)
  }

  /**
   * p.LinkChild(c): c joins p's children under c's mapping and p becomes c's parent
   * under p's mapping, replacing any earlier parent under that mapping.
   */
  function LinkChild<D>(g: Graph<D>, p: NodeId, c: NodeId): Graph<D>
    requires p in g && c in g
  {
    var cm := g[c].mapping;
    var pn := g[p];
    var g1 := g[p := pn.(children := pn.children[cm := ChildrenUnder(pn, cm) + {c}])];
    var cn := g1[c];
    g1[c := cn.(parents := cn.parents[pn.mapping := p])]
  }

  /** What LinkChild does to the two ends of the new edge. */
  lemma LinkChildEffect<D>(g: Graph<D>, p: NodeId, c: NodeId)
    requires p in g && c in g
    ensures var r := LinkChild(g, p, c);
      r.Keys == g.Keys &&
      g[c].mapping in r[p].children && c in r[p].children[g[c].mapping] &&
      g[p].mapping in r[c].parents && r[c].parents[g[p].mapping] == p &&
      (p != c ==> r[p].parents == g[p].parents && r[c].children == g[c].children) &&
      r[p].children == g[p].children[g[c].mapping := ChildrenUnder(g[p], g[c].mapping) + {c}] &&
      r[c].parents == g[c].parents[g[p].mapping := p]
  {
  }

  /** Nothing but the edges of p and c changes. */
  lemma LinkChildFrame<D>(g: Graph<D>, p: NodeId, c: NodeId)
    requires p in g && c in g
    ensures var r := LinkChild(g, p, c);
      (forall n :: n in g && n != p && n != c ==> r[n] == g[n]) &&
      (forall n :: n in g ==> r[n].mapping == g[n].mapping && r[n].isRequired == g[n].isRequired && r[n].data == g[n].data)
  {
  }

  /** Linking keeps the ids, the closure and what each node is. */
  lemma LinkChildKeeps<D>(g: Graph<D>, p: NodeId, c: NodeId)
    requires p in g && c in g && Closed(g)
    ensures LinkChild(g, p, c).Keys == g.Keys && Closed(LinkChild(g, p, c))
    ensures forall n :: n in g ==> LinkChild(g, p, c)[n].mapping == g[n].mapping && LinkChild(g, p, c)[n].data == g[n].data
  {
    LinkChildClosed(g, p, c);
    LinkChildFrame(g, p, c);
    LinkChildEffect(g, p, c);
  }

  /** Linking two nodes of the arena keeps every edge inside the arena. */
  lemma LinkChildClosed<D>(g: Graph<D>, p: NodeId, c: NodeId)
    requires p in g && c in g && Closed(g)
    ensures Closed(LinkChild(g, p, c))
  {
    var r := LinkChild(g, p, c);
    forall n | n in r
      ensures (forall m :: m in r[n].parents ==> r[n].parents[m] in r) &&
              (forall m :: m in r[n].children ==> r[n].children[m] <= r.Keys)
    {
      assert n in g;
    }
  }

  /** LinkChild files both ends of the new edge under the other end's mapping. */
  lemma LinkChildKeyed<D>(g: Graph<D>, p: NodeId, c: NodeId)
    requires p in g && c in g && Keyed(g)
    ensures Keyed(LinkChild(g, p, c))
  {
    var r := LinkChild(g, p, c);
    LinkChildEffect(g, p, c);
    LinkChildFrame(g, p, c);
    forall n, k, x | n in r && k in r[n].children && x in r[n].children[k] && x in r
      ensures r[x].mapping == k
    {
      if n != p || k != g[c].mapping || x != c {
        assert k in g[n].children && x in g[n].children[k];
      }
    }
    forall n, k | n in r && k in r[n].parents && r[n].parents[k] in r
      ensures r[r[n].parents[k]].mapping == k
    {
      if n != c || k != g[p].mapping {
        assert k in g[n].parents && r[n].parents[k] == g[n].parents[k];
      }
    }
  }

  /** Linking the same child twice leaves both sides as the first link left them. */
  lemma LinkChildIdempotent<D>(g: Graph<D>, p: NodeId, c: NodeId)
    requires p in g && c in g
    ensures LinkChild(LinkChild(g, p, c), p, c) == LinkChild(g, p, c)
  {
    var r := LinkChild(g, p, c);
    var r2 := LinkChild(r, p, c);
    assert r2[p] == r[p];
    assert r2[c] == r[c];
    assert forall n :: n in r ==> r2[n] == r[n];
  }

  /**
   * One parent per mapping: linking c under a second parent with the same mapping
   * replaces the parent entry, while the first parent keeps its child edge.
   */
  lemma RelinkOverwritesParent<D>(g: Graph<D>, p1: NodeId, p2: NodeId, c: NodeId)
    requires p1 in g && p2 in g && c in g
    requires p1 != c && p2 != c && p1 != p2
    requires g[p1].mapping == g[p2].mapping
    ensures var r := LinkChild(LinkChild(g, p1, c), p2, c);
      r[c].parents[g[p1].mapping] == p2 &&
      c in r[p1].children[g[c].mapping] &&
      c in r[p2].children[g[c].mapping]
  {
  }

  /**
   * n.RemoveParent(m): drops n from its parent's children and the parent entry.
   * The indexers throw KeyNotFoundException when n has no parent under m, or
   * when that parent has no children entry for n's mapping; nothing changes then.
   */
  function RemoveParent<D>(g: Graph<D>, n: NodeId, m: string): (r: Result<Graph<D>>)
    requires n in g && Closed(g)
    ensures r.Failure? <==> m !in g[n].parents || g[n].mapping !in g[g[n].parents[m]].children
    ensures r.Failure? ==> r.error == KeyNotFound
    ensures r.Success? ==>
      var p := g[n].parents[m];
      var h := r.value;
      h.Keys == g.Keys && Closed(h) &&
      m !in h[n].parents &&
      g[n].mapping in h[p].children && n !in h[p].children[g[n].mapping] &&
      (forall x :: x in g && x != p && x != n ==> h[x] == g[x]) &&
      (forall x :: x in g ==> h[x].mapping == g[x].mapping && h[x].data == g[x].data && h[x].isRequired == g[x].isRequired) &&
      (p != n ==> h[n].parents == g[n].parents - {m} && h[n].children == g[n].children) &&
      (p != n ==>
        h[p].parents == g[p].parents &&
        h[p].children == g[p].children[g[n].mapping := g[p].children[g[n].mapping] - {n}])
  {
    if m !in g[n].parents then Failure(KeyNotFound)
    else
      var p := g[n].parents[m];
      var pn := g[p];
      var nm := g[n].mapping;
      if nm !in pn.children then Failure(KeyNotFound)
      else
        Success(WithoutParent(WithoutChild(g, p, nm, n), n, m))
  }

  /** The parent's side of RemoveParent: n leaves p's children filed under nm. */
  function WithoutChild<D>(g: Graph<D>, p: NodeId, nm: string, n: NodeId): (h: Graph<D>)
    requires p in g && nm in g[p].children && Closed(g)
    ensures h.Keys == g.Keys && Closed(h)
    ensures h[p] == g[p].(children := g[p].children[nm := g[p].children[nm] - {n}])
    ensures forall x :: x in g && x != p ==> h[x] == g[x]
  {
    g[p := g[p].(children := g[p].children[nm := g[p].children[nm] - {n}])]
  }

  /** The child's side of RemoveParent: n forgets its parent under m. */
  function WithoutParent<D>(g: Graph<D>, n: NodeId, m: string): (h: Graph<D>)
    requires n in g && Closed(g)
    ensures h.Keys == g.Keys && Closed(h)
    ensures h[n] == g[n].(parents := g[n].parents - {m})
    ensures forall x :: x in g && x != n ==> h[x] == g[x]
  {
    g[n := g[n].(parents := g[n].parents - {m})]
  }

  /** Removing an edge keeps the remaining ones filed under their mappings. */
  lemma RemoveParentKeyed<D>(g: Graph<D>, n: NodeId, m: string)
    requires n in g && Closed(g) && Keyed(g) && RemoveParent(g, n, m).Success?
    ensures Keyed(RemoveParent(g, n, m).value)
  {
    var p := g[n].parents[m];
    WithoutChildKeyed(g, p, g[n].mapping, n);
    WithoutParentKeyed(WithoutChild(g, p, g[n].mapping, n), n, m);
  }

  lemma WithoutChildKeyed<D>(g: Graph<D>, p: NodeId, nm: string, n: NodeId)
    requires p in g && nm in g[p].children && Closed(g) && Keyed(g)
    ensures Keyed(WithoutChild(g, p, nm, n))
  {
    var r := WithoutChild(g, p, nm, n);
    forall x, k, y | x in r && k in r[x].children && y in r[x].children[k] && y in r
      ensures r[y].mapping == k
    {
      assert k in g[x].children && y in g[x].children[k];
    }
  }

  lemma WithoutParentKeyed<D>(g: Graph<D>, n: NodeId, m: string)
    requires n in g && Closed(g) && Keyed(g)
    ensures Keyed(WithoutParent(g, n, m))
  {
    var r := WithoutParent(g, n, m);
    forall x, k | x in r && k in r[x].parents && r[x].parents[k] in r
      ensures r[r[x].parents[k]].mapping == k
    {
      assert k in g[x].parents && r[x].parents[k] == g[x].parents[k];
    }
  }

  /** Removing the parent a link has just added restores both nodes, when p already had a child set for c's mapping. */
  lemma RemoveParentUndoesLink<D>(g: Graph<D>, p: NodeId, c: NodeId)
    requires p in g && c in g && p != c && Closed(g)
    requires g[p].mapping !in g[c].parents
    requires g[c].mapping in g[p].children && c !in g[p].children[g[c].mapping]
    ensures RemoveParent(LinkChild(g, p, c), c, g[p].mapping) == Success(g)
  {
    LinkChildClosed(g, p, c);
    LinkChildFrame(g, p, c);
    var l := LinkChild(g, p, c);
    var h := RemoveParent(l, c, g[p].mapping).value;
    UndoneEnds(g, p, c);
    forall x | x in g ensures h[x] == g[x] {
      if x != p && x != c {
        assert h[x] == l[x];
      }
    }
    SameGraph(h, g);
  }

  /** Two arenas with the same ids and the same node under each are equal. */
  lemma SameGraph<D>(g: Graph<D>, h: Graph<D>)
    requires g.Keys == h.Keys && forall x :: x in g ==> g[x] == h[x]
    ensures g == h
  {
  }

  /** The two ends of the undone link, one at a time. */
  lemma UndoneEnds<D>(g: Graph<D>, p: NodeId, c: NodeId)
    requires p in g && c in g && p != c && Closed(g)
    requires g[p].mapping !in g[c].parents
    requires g[c].mapping in g[p].children && c !in g[p].children[g[c].mapping]
    requires Closed(LinkChild(g, p, c))
    ensures var h := RemoveParent(LinkChild(g, p, c), c, g[p].mapping);
      h.Success? && h.value[p] == g[p] && h.value[c] == g[c]
  {
    UndoneParent(g, p, c);
    var h := RemoveParent(LinkChild(g, p, c), c, g[p].mapping).value;
    assert h[c].parents == g[c].parents;
  }

  /** The parent end: p's child set for c's mapping loses c again. */
  lemma UndoneParent<D>(g: Graph<D>, p: NodeId, c: NodeId)
    requires p in g && c in g && p != c && Closed(g)
    requires g[p].mapping !in g[c].parents
    requires g[c].mapping in g[p].children && c !in g[p].children[g[c].mapping]
    requires Closed(LinkChild(g, p, c))
    ensures var h := RemoveParent(LinkChild(g, p, c), c, g[p].mapping);
      h.Success? && h.value[p] == g[p]
  {
    var h := RemoveParent(LinkChild(g, p, c), c, g[p].mapping).value;
    assert h[p].children == g[p].children;
  }

  /** The sequential removals of a list of (node, parent mapping) pairs; the first exception ends it. */
  function RemoveParents<D>(g: Graph<D>, removals: seq<(NodeId, string)>): (r: Result<Graph<D>>)
    requires Closed(g)
    requires forall i :: 0 <= i < |removals| ==> removals[i].0 in g
    ensures r.Success? ==> r.value.Keys == g.Keys && Closed(r.value)
    decreases |removals|
  {
    if removals == [] then Success(g)
    else
      match RemoveParent(g, removals[0].0, removals[0].1)
      case Failure(e) => Failure(e)
      case Success(h) => RemoveParents(h, removals[1..])
  }

  /** The (child, parentKey) pairs of the children loop, in enumeration order. */
  function ChildPairs<D>(n: Node<D>, keys: seq<string>, parentKey: Option<string>): seq<(NodeId, string)>
    requires forall k :: k in keys ==> k in n.children
  {
    if keys == [] then []
    else
      var k := keys[0];
      ChildPairsOf(Orders.Enumerate(n.children[k]), k, parentKey) + ChildPairs(n, keys[1..], parentKey)
  }

  function ChildPairsOf(cs: seq<NodeId>, k: string, parentKey: Option<string>): seq<(NodeId, string)>
  {
    if cs == [] then [] else [(cs[0], if parentKey.Some? then parentKey.value else k)] + ChildPairsOf(cs[1..], k, parentKey)
  }

  lemma ChildPairsIn<D>(g: Graph<D>, n: NodeId, keys: seq<string>, parentKey: Option<string>)
    requires n in g && Closed(g)
    requires forall k :: k in keys ==> k in g[n].children
    ensures forall i :: 0 <= i < |ChildPairs(g[n], keys, parentKey)| ==> ChildPairs(g[n], keys, parentKey)[i].0 in g
  {
    if keys != [] {
      ChildPairsOfIn(Orders.Enumerate(g[n].children[keys[0]]), keys[0], parentKey, g.Keys);
      ChildPairsIn(g, n, keys[1..], parentKey);
    }
  }

  lemma ChildPairsOfIn(cs: seq<NodeId>, k: string, parentKey: Option<string>, ids: set<NodeId>)
    requires forall c :: c in cs ==> c in ids
    ensures forall i :: 0 <= i < |ChildPairsOf(cs, k, parentKey)| ==> ChildPairsOf(cs, k, parentKey)[i].0 in ids
  {
    if cs != [] {
      ChildPairsOfIn(cs[1..], k, parentKey, ids);
    }
  }

  function ParentPairs(n: NodeId, keys: seq<string>): (rs: seq<(NodeId, string)>)
    ensures forall i :: 0 <= i < |rs| ==> rs[i].0 == n
  {
    if keys == [] then [] else [(n, keys[0])] + ParentPairs(n, keys[1..])
  }

  /**
   * The removals RemoveAllRelations performs: first its own parents, then each child
   * with the mapping parentKey, or the child's own key when parentKey is None.
   */
  function Removals<D>(g: Graph<D>, n: NodeId, parentKey: Option<string>): (rs: seq<(NodeId, string)>)
    requires n in g && Closed(g)
    ensures forall i :: 0 <= i < |rs| ==> rs[i].0 in g
  {
    var parentRemovals := ParentPairs(n, Orders.SortStrings(g[n].parents.Keys));
    var keys := Orders.SortStrings(g[n].children.Keys);
    ChildPairsIn(g, n, keys, parentKey);
    parentRemovals + ChildPairs(g[n], keys, parentKey)
  }

  /** RemoveAllRelations as written: each child is asked to drop its parent under the CHILD's own mapping. */
  function RemoveAllRelationsAsWritten<D>(g: Graph<D>, n: NodeId): (r: Result<Graph<D>>)
    requires n in g && Closed(g)
    ensures r.Success? ==> r.value.Keys == g.Keys
  {
    RemoveParents(g, Removals(g, n, None))
  }

  /** RemoveAllRelations as intended: each child drops its parent under n's mapping. */
  function RemoveAllRelations<D>(g: Graph<D>, n: NodeId): (r: Result<Graph<D>>)
    requires n in g && Closed(g)
    ensures r.Success? ==> r.value.Keys == g.Keys
  {
    RemoveParents(g, Removals(g, n, Some(g[n].mapping)))
  }

  /** A parent "pets" 0 with one child "collar" 1. */
  function PetWithCollar(): Graph<()>
  {
    map[0 := Node("pets", false, map[], map["collar" := {1}], ()),
        1 := Node("collar", false, map["pets" := 0], map[], ())]
  }

  lemma PetWithCollarPairs()
    ensures Orders.SortStrings(PetWithCollar()[0].parents.Keys) == []
    ensures Orders.SortStrings(PetWithCollar()[0].children.Keys) == ["collar"]
    ensures Orders.Enumerate({1}) == [1]
  {
    var ks := Orders.SortStrings(PetWithCollar()[0].children.Keys);
    assert PetWithCollar()[0].children.Keys == {"collar"};
    assert |ks| == 1 && ks[0] in {"collar"};
    var es := Orders.Enumerate({1});
    assert |es| == 1 && es[0] in {1};
  }

  /** As written, removing the relations of a parent with one child throws KeyNotFoundException. */
  lemma RemoveAllRelationsAsWrittenFails()
    ensures Closed(PetWithCollar())
    ensures RemoveAllRelationsAsWritten(PetWithCollar(), 0) == Failure(KeyNotFound)
  {
    PetRemovals(None);
    assert RemoveParent(PetWithCollar(), 1, "collar") == Failure(KeyNotFound);
  }

  /** The removals for the pets node: its one child, under the given key or the child's mapping. */
  lemma PetRemovals(parentKey: Option<string>)
    ensures Closed(PetWithCollar())
    ensures Removals(PetWithCollar(), 0, parentKey) == [(1, if parentKey.Some? then parentKey.value else "collar")]
  {
    PetWithCollarPairs();
    var g := PetWithCollar();
    var k := if parentKey.Some? then parentKey.value else "collar";
    assert ChildPairsOf([1], "collar", parentKey) == [(1, k)];
    assert ChildPairs(g[0], ["collar"], parentKey) == [(1, k)] by {
      assert ["collar"][1..] == [];
    }
  }

  function PetAndCollarDetached(): Graph<()>
  {
    map[0 := Node("pets", false, map[], map["collar" := {}], ()),
        1 := Node("collar", false, map[], map[], ())]
  }

  lemma DetachCollar()
    ensures Closed(PetWithCollar())
    ensures RemoveParent(PetWithCollar(), 1, "pets") == Success(PetAndCollarDetached())
  {
    DetachedPets();
    DetachedCollar();
    SameGraph(RemoveParent(PetWithCollar(), 1, "pets").value, PetAndCollarDetached());
  }

  lemma DetachedPets()
    ensures Closed(PetWithCollar())
    ensures RemoveParent(PetWithCollar(), 1, "pets").Success?
    ensures RemoveParent(PetWithCollar(), 1, "pets").value[0] == PetAndCollarDetached()[0]
  {
    EmptiedCollar();
  }

  lemma EmptiedCollar()
    ensures map["collar" := {1}]["collar" := {1} - {1}] == map["collar" := {}]
  {
    assert {1} - {1} == {};
  }

  lemma DetachedCollar()
    ensures Closed(PetWithCollar())
    ensures RemoveParent(PetWithCollar(), 1, "pets").Success?
    ensures RemoveParent(PetWithCollar(), 1, "pets").value.Keys == {0, 1}
    ensures RemoveParent(PetWithCollar(), 1, "pets").value[1] == PetAndCollarDetached()[1]
  {
    assert map["pets" := 0] - {"pets"} == map[];
  }

  /** As intended, the same call detaches the child on both sides. */
  lemma RemoveAllRelationsDetachesChild()
    ensures RemoveAllRelations(PetWithCollar(), 0) == Success(PetAndCollarDetached())
  {
    var g := PetWithCollar();
    PetRemovals(Some("pets"));
    assert RemoveAllRelations(g, 0) == RemoveParents(g, [(1, "pets")]);
    RemoveParentsOne(g, 1, "pets");
    DetachCollar();
  }

  /** A single removal is one RemoveParent. */
  lemma RemoveParentsOne<D>(g: Graph<D>, n: NodeId, m: string)
    requires n in g && Closed(g)
    ensures RemoveParents(g, [(n, m)]) == RemoveParent(g, n, m)
  {
    var r := RemoveParent(g, n, m);
    if r.Success? {
      assert [(n, m)][1..] == [];
      assert RemoveParents(r.value, []) == r;
    }
  }

  /** The position of the first constraint with mapping k. */
  function IndexOfMapping<D>(g: Graph<D>, cs: seq<NodeId>, k: string): (r: Option<nat>)
    requires forall i :: 0 <= i < |cs| ==> cs[i] in g
    ensures r.Some? ==> r.value < |cs| && g[cs[r.value]].mapping == k
    ensures r.None? ==> forall i :: 0 <= i < |cs| ==> g[cs[i]].mapping != k
  {
    if cs == [] then None
    else if g[cs[0]].mapping == k then Some(0)
    else
      var r := IndexOfMapping(g, cs[1..], k);
      if r.Some? then Some(r.value + 1) else None
  }

  predicate DistinctMappings<D>(g: Graph<D>, cs: seq<NodeId>)
    requires forall i :: 0 <= i < |cs| ==> cs[i] in g
  {
    forall i, j :: 0 <= i < j < |cs| ==> g[cs[i]].mapping != g[cs[j]].mapping
  }

  /** Every parent mapping of every constraint is the mapping of some constraint of the list. */
  predicate ParentsListed<D>(g: Graph<D>, cs: seq<NodeId>)
    requires forall i :: 0 <= i < |cs| ==> cs[i] in g
  {
    forall i, k :: 0 <= i < |cs| && k in g[cs[i]].parents ==> IndexOfMapping(g, cs, k).Some?
  }

  /**
   * The copies, ids 0 to |cs| - 1, after the parent edges E have been linked: a pair
   * (i, k) in E means the copy of constraint i has the copy of the constraint with
   * mapping k as its parent.
   */
  ghost predicate CopyLinked<D>(g: Graph<D>, cs: seq<NodeId>, copy: Graph<()>, E: set<(nat, string)>)
    requires forall i :: 0 <= i < |cs| ==> cs[i] in g
  {
    (forall x: NodeId :: x in copy <==> x < |cs|) &&
    (forall x {:trigger NodeLinked(g, cs, copy, E, x)} :: x in copy ==> NodeLinked(g, cs, copy, E, x))
  }

  /** The copy x carries the mapping of constraint x, its parents are its edges in E, and its children mirror the edges into it. */
  ghost predicate NodeLinked<D>(g: Graph<D>, cs: seq<NodeId>, copy: Graph<()>, E: set<(nat, string)>, x: NodeId)
    requires forall i :: 0 <= i < |cs| ==> cs[i] in g
    requires x in copy
  {
    x < |cs| && copy[x].mapping == g[cs[x]].mapping && !copy[x].isRequired &&
    (forall k :: k in copy[x].parents <==> (x, k) in E) &&
    (forall k :: k in copy[x].parents ==> IndexOfMapping(g, cs, k) == Some(copy[x].parents[k])) &&
    (forall m, c :: c in ChildrenUnder(copy[x], m) <==> c in copy && (c, copy[x].mapping) in E && copy[c].mapping == m)
  }

  lemma LinkCopy<D>(g: Graph<D>, cs: seq<NodeId>, copy: Graph<()>, E: set<(nat, string)>, i: nat, k: string, j: nat)
    requires forall i :: 0 <= i < |cs| ==> cs[i] in g
    requires DistinctMappings(g, cs) && CopyLinked(g, cs, copy, E)
    requires i < |cs| && IndexOfMapping(g, cs, k) == Some(j)
    ensures CopyLinked(g, cs, LinkChild(copy, j, i), E + {(i, k)})
  {
    var r := LinkChild(copy, j, i);
    var E' := E + {(i, k)};
    assert r.Keys == copy.Keys;
    assert NodeLinked(g, cs, copy, E, j);
    assert NodeLinked(g, cs, copy, E, i);
    forall x | x in r ensures NodeLinked(g, cs, r, E', x) {
      assert NodeLinked(g, cs, copy, E, x);
      forall k' ensures (k' in r[x].parents <==> (x, k') in E') &&
        (k' in r[x].parents ==> IndexOfMapping(g, cs, k') == Some(r[x].parents[k'])) {
        LinkCopyParents(g, cs, copy, E, i, k, j, x, k');
      }
      forall m, c ensures c in ChildrenUnder(r[x], m) <==> c in r && (c, r[x].mapping) in E' && r[c].mapping == m {
        LinkCopyChildren(copy, E, i, k, j, x, m, c);
      }
    }
  }

  lemma LinkCopyParents<D>(g: Graph<D>, cs: seq<NodeId>, copy: Graph<()>, E: set<(nat, string)>, i: nat, k: string, j: nat, x: nat, k': string)
    requires forall i :: 0 <= i < |cs| ==> cs[i] in g
    requires i in copy && j in copy && x in copy
    requires NodeLinked(g, cs, copy, E, x) && NodeLinked(g, cs, copy, E, j)
    requires IndexOfMapping(g, cs, k) == Some(j)
    ensures var r := LinkChild(copy, j, i);
      (k' in r[x].parents <==> (x, k') in E + {(i, k)}) &&
      (k' in r[x].parents ==> IndexOfMapping(g, cs, k') == Some(r[x].parents[k']))
  {
    var r := LinkChild(copy, j, i);
    if x == i {
      assert r[x].parents == copy[x].parents[copy[j].mapping := j];
    } else if x != j {
      assert r[x] == copy[x];
    } else {
      assert r[x].parents == copy[x].parents;
    }
  }

  lemma LinkCopyChildren(copy: Graph<()>, E: set<(nat, string)>, i: nat, k: string, j: nat, j': nat, m: string, c: nat)
    requires i in copy && j in copy && j' in copy
    requires copy[j].mapping == k
    requires j' != j ==> copy[j'].mapping != k
    requires c in ChildrenUnder(copy[j'], m) <==> c in copy && (c, copy[j'].mapping) in E && copy[c].mapping == m
    ensures var r := LinkChild(copy, j, i);
      c in ChildrenUnder(r[j'], m) <==> c in r && (c, r[j'].mapping) in E + {(i, k)} && r[c].mapping == m
  {
    var r := LinkChild(copy, j, i);
    if j' == j {
      assert r[j].children == copy[j].children[copy[i].mapping := ChildrenUnder(copy[j], copy[i].mapping) + {i}];
    } else if j' != i {
      assert r[j'] == copy[j'];
    } else {
      assert r[j'].children == copy[j'].children;
    }
  }

  /**
   * BareConstraint.CreateCopy: one fresh constraint per input, in order, linked as
   * the inputs are. ToDictionary throws ArgumentException on a repeated mapping, and
   * the lookup of a parent mapping that no input carries throws KeyNotFoundException.
   * The copies live in a new arena, so they share no node with the input; IsRequired
   * is not copied and stays false.
   */
  method CreateCopy<D>(g: Graph<D>, cs: seq<NodeId>) returns (r: Result<(Graph<()>, seq<NodeId>)>)
    requires forall i :: 0 <= i < |cs| ==> cs[i] in g
    ensures r.Failure? <==> !DistinctMappings(g, cs) || !ParentsListed(g, cs)
    ensures r.Success? ==> r.value.1 == Indices(|cs|) && CopiesInput(g, cs, r.value.0)
  {
    if !DistinctMappings(g, cs) {
      return Failure(Argument);
    }
    UnlinkedLinked(g, cs);
    var linked := LinkEach(g, cs, Unlinked(g, cs));
    if linked.None? {
      return Failure(KeyNotFound);
    }
    return Success(linked.value);
  }

  /** The outer loop of CreateCopy: each copy in turn is linked under its parents' copies and listed. */
  method LinkEach<D>(g: Graph<D>, cs: seq<NodeId>, copy0: Graph<()>) returns (r: Option<(Graph<()>, seq<NodeId>)>)
    requires forall i :: 0 <= i < |cs| ==> cs[i] in g
    requires DistinctMappings(g, cs) && CopyLinked(g, cs, copy0, {})
    ensures r.None? <==> !ParentsListed(g, cs)
    ensures r.Some? ==> r.value.1 == Indices(|cs|) && CopiesInput(g, cs, r.value.0)
  {
    var copy := copy0;
    ghost var E: set<(nat, string)> := {};
    var res: seq<NodeId> := [];
    for i := 0 to |cs|
      invariant CopyLinked(g, cs, copy, E)
      invariant E == AllEdges(g, cs, i)
      invariant ListedUpTo(g, cs, i)
      invariant res == Indices(i)
    {
      var linked := LinkParentsOf(g, cs, copy, E, i);
      if linked.None? {
        return None;
      }
      ListedStep(g, cs, i);
      copy, E := linked.value, E + EdgesOf(i, g[cs[i]].parents.Keys);
      res := res + [i];
    }
    CopyLinkedAll(g, cs, copy, E);
    return Some((copy, res));
  }

  /** Every parent mapping of the first n constraints is carried by some constraint. */
  predicate ListedUpTo<D>(g: Graph<D>, cs: seq<NodeId>, n: nat)
    requires forall i :: 0 <= i < |cs| ==> cs[i] in g
    requires n <= |cs|
  {
    forall i, k :: 0 <= i < n && k in g[cs[i]].parents ==> IndexOfMapping(g, cs, k).Some?
  }

  lemma ListedStep<D>(g: Graph<D>, cs: seq<NodeId>, n: nat)
    requires forall i :: 0 <= i < |cs| ==> cs[i] in g
    requires n < |cs| && ListedUpTo(g, cs, n)
    requires !exists k :: k in g[cs[n]].parents && IndexOfMapping(g, cs, k).None?
    ensures ListedUpTo(g, cs, n + 1)
  {
  }

  /** The ids of the first n copies, in order: the copy of constraint x is node x. */
  function Indices(n: nat): (r: seq<NodeId>)
    ensures |r| == n && forall x :: 0 <= x < n ==> r[x] == x
  {
    if n == 0 then [] else Indices(n - 1) + [n - 1]
  }

  /** The copies before any link: one parentless, childless node per constraint. */
  function Unlinked<D>(g: Graph<D>, cs: seq<NodeId>): (copy: Graph<()>)
    requires forall i :: 0 <= i < |cs| ==> cs[i] in g
  {
    map i | 0 <= i < |cs| :: Node(g[cs[i]].mapping, false, map[], map[], ())
  }

  /** The unlinked copies are linked as no edge at all says. */
  lemma UnlinkedLinked<D>(g: Graph<D>, cs: seq<NodeId>)
    requires forall i :: 0 <= i < |cs| ==> cs[i] in g
    ensures CopyLinked(g, cs, Unlinked(g, cs), {})
  {
    var copy := Unlinked(g, cs);
    forall x | x in copy ensures x < |cs| { }
    assert forall x :: 0 <= x < |cs| ==> x in copy;
    forall x | x in copy ensures NodeLinked(g, cs, copy, {}, x) { }
  }

  /** The parent edges of the copy of constraint i, one per parent mapping in ks. */
  function EdgesOf(i: nat, ks: set<string>): (r: set<(nat, string)>)
    ensures forall k :: (i, k) in r <==> k in ks
    ensures forall e :: e in r ==> e.0 == i
  {
    set k | k in ks :: (i, k)
  }

  /** The parent edges of the copies of the first n constraints. */
  function AllEdges<D>(g: Graph<D>, cs: seq<NodeId>, n: nat): (r: set<(nat, string)>)
    requires forall i :: 0 <= i < |cs| ==> cs[i] in g
    requires n <= |cs|
    ensures forall e :: e in r <==> e.0 < n && e.1 in g[cs[e.0]].parents
  {
    if n == 0 then {} else AllEdges(g, cs, n - 1) + EdgesOf(n - 1, g[cs[n - 1]].parents.Keys)
  }

  /** The inner loop of CreateCopy: the copy of constraint i is linked under the copy of each of its parents. */
  method LinkParentsOf<D>(g: Graph<D>, cs: seq<NodeId>, copy: Graph<()>, ghost E: set<(nat, string)>, i: nat)
    returns (r: Option<Graph<()>>)
    requires forall i :: 0 <= i < |cs| ==> cs[i] in g
    requires DistinctMappings(g, cs) && CopyLinked(g, cs, copy, E) && i < |cs|
    ensures r.None? <==> exists k :: k in g[cs[i]].parents && IndexOfMapping(g, cs, k).None?
    ensures r.Some? ==> CopyLinked(g, cs, r.value, E + EdgesOf(i, g[cs[i]].parents.Keys))
  {
    var acc := copy;
    var todo := g[cs[i]].parents.Keys;
    ghost var done: set<string> := {};
    assert E + EdgesOf(i, done) == E;
    while todo != {}
      invariant todo + done == g[cs[i]].parents.Keys && todo !! done
      invariant CopyLinked(g, cs, acc, E + EdgesOf(i, done))
      invariant forall k :: k in done ==> IndexOfMapping(g, cs, k).Some?
      decreases todo
    {
      var k :| k in todo;
      var j := IndexOfMapping(g, cs, k);
      if j.None? {
        return None;
      }
      LinkCopy(g, cs, acc, E + EdgesOf(i, done), i, k, j.value);
      assert E + EdgesOf(i, done) + {(i, k)} == E + EdgesOf(i, done + {k});
      acc := LinkChild(acc, j.value, i);
      todo, done := todo - {k}, done + {k};
    }
    return Some(acc);
  }

  /** copy is a copy of the constraints cs: same mappings, the same parent edges between copies, and no others. */
  ghost predicate CopiesInput<D>(g: Graph<D>, cs: seq<NodeId>, copy: Graph<()>)
    requires forall i :: 0 <= i < |cs| ==> cs[i] in g
  {
    (forall x: NodeId :: x in copy <==> x < |cs|) &&
    (forall x :: x in copy ==> copy[x].mapping == g[cs[x]].mapping && !copy[x].isRequired) &&
    (forall x, k :: x in copy ==> (k in copy[x].parents <==> k in g[cs[x]].parents)) &&
    (forall x, k :: x in copy && k in copy[x].parents ==> IndexOfMapping(g, cs, k) == Some(copy[x].parents[k])) &&
    (forall j, m, c :: j in copy ==>
      (c in ChildrenUnder(copy[j], m) <==> c in copy && copy[j].mapping in g[cs[c]].parents && copy[c].mapping == m))
  }

  lemma CopyLinkedAll<D>(g: Graph<D>, cs: seq<NodeId>, copy: Graph<()>, E: set<(nat, string)>)
    requires forall i :: 0 <= i < |cs| ==> cs[i] in g
    requires CopyLinked(g, cs, copy, E)
    requires E == AllEdges(g, cs, |cs|)
    ensures CopiesInput(g, cs, copy)
  {
    forall x | x in copy
      ensures copy[x].mapping == g[cs[x]].mapping && !copy[x].isRequired
      ensures forall k :: k in copy[x].parents <==> k in g[cs[x]].parents
      ensures forall k :: k in copy[x].parents ==> IndexOfMapping(g, cs, k) == Some(copy[x].parents[k])
      ensures forall m, c :: c in ChildrenUnder(copy[x], m) <==> c in copy && copy[x].mapping in g[cs[c]].parents && copy[c].mapping == m
    {
      assert NodeLinked(g, cs, copy, E, x);
      forall m: string, c: NodeId
        ensures c in ChildrenUnder(copy[x], m) <==> c in copy && copy[x].mapping in g[cs[c]].parents && copy[c].mapping == m
      {
        if c in copy {
          assert (c, copy[x].mapping) in E <==> copy[x].mapping in g[cs[c]].parents;
        }
      }
    }
  }
}
