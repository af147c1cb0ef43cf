/**
 * The queries of TestModel (ObST.Tester/Domain/TestModel.cs) that bind a constraint
 * forest to the ids the model knows: GetAllIdCombinations and GetMatchingIdSubset as
 * functions over the constraint graph and the id arena.
 */
module Queries {
  import opened Wrappers
  import opened Links
  import Orders
  import opened TestModels
  import opened Products
  import opened Bindings

  /** The mappings of the nodes of a constraint graph. */
  function Mappings<D>(cg: Graph<D>): set<string>
  {
    set n | n in cg :: cg[n].mapping
  }

  /** Children.SelectMany(c => c.Value): key by key in ordinal order, each set by id. */
  function KidsOf<D>(n: Node<D>): seq<NodeId>
  {
    Flatten(n.children, Orders.SortStrings(n.children.Keys))
  }

  function Flatten(ch: map<string, set<NodeId>>, keys: seq<string>): (r: seq<NodeId>)
    requires forall k :: k in keys ==> k in ch
    ensures forall x :: x in r <==> exists k :: k in keys && x in ch[k]
  {
    if |keys| == 0 then [] else Orders.Enumerate(ch[keys[0]]) + Flatten(ch, keys[1..])
  }

  lemma KidsIn<D>(g: Graph<D>, c: NodeId)
    requires Closed(g) && c in g
    ensures forall x :: x in KidsOf(g[c]) ==> x in g
  {
    forall x | x in KidsOf(g[c]) ensures x in g
    {
      var k :| k in g[c].children && x in g[c].children[k];
    }
  }

  /** Removing a fresh mapping from the ones not yet analyzed leaves fewer. */
  lemma CardShrinks(ms: set<string>, analyzed: set<string>, m: string)
    requires m in ms && m !in analyzed
    ensures |ms - (analyzed + {m})| < |ms - analyzed|
  {
    var rest := ms - (analyzed + {m});
    assert ms - analyzed == rest + {m};
  }

  /** (id.Value, id.IsDeleted). */
  function EntryOf(n: Node<IdData>): Entry
  {
    Entry(Some(n.data.value), n.data.isDeleted)
  }

  /** The binding of id itself: its mapping to its value and deleted flag. */
  function SelfBinding(nodes: IdGraph, id: NodeId): Binding
    requires id in nodes
  {
    map[nodes[id].mapping := EntryOf(nodes[id])]
  }

  /** p.Append(self) for each combination p. */
  function AppendEach(ps: seq<seq<Binding>>, self: Binding): (r: seq<seq<Binding>>)
    ensures |r| == |ps| && forall i :: 0 <= i < |ps| ==> r[i] == ps[i] + [self]
  {
    if |ps| == 0 then [] else [ps[0] + [self]] + AppendEach(ps[1..], self)
  }

  /** The merge of each combination that TryMergeDictionaries accepts, in order. */
  function Merged(ps: seq<seq<Binding>>): seq<Binding>
  {
    if |ps| == 0 then []
    else
      var m := MergeAll(ps[0]);
      (if m.Some? then [m.value] else []) + Merged(ps[1..])
  }

  /** Merged over a suffix takes the merge of its first combination, if any, in front. */
  lemma MergedFront(ps: seq<seq<Binding>>, i: nat)
    requires i < |ps|
    ensures MergeAll(ps[i]).Some? ==> Merged(ps[i..]) == [MergeAll(ps[i]).value] + Merged(ps[i + 1..])
    ensures MergeAll(ps[i]).None? ==> Merged(ps[i..]) == Merged(ps[i + 1..])
  {
    assert ps[i..][1..] == ps[i + 1..];
  }

  /** Every constraint among kids is optional. */
  predicate AllOptional<D>(cg: Graph<D>, c: NodeId)
    requires c in cg
  {
    forall ch :: ch in AllChildren(cg[c]) && ch in cg ==> !cg[ch].isRequired
  }

  /**
   * GetAllIdCombinations(constraint, ids, analyzed): for each id, each way of binding
   * the children constraints not yet analyzed below it, merged with the id itself;
   * then the null binding when the constraint and all its children are optional.
   */
  function Combos<D>(cg: Graph<D>, c: NodeId, nodes: IdGraph, ids: set<NodeId>, analyzed: set<string>): seq<Binding>
    requires Closed(cg) && c in cg && Closed(nodes) && ids <= nodes.Keys
    decreases |Mappings(cg) - (analyzed + {cg[c].mapping})|, 2, 0
  {
    KidsIn(cg, c);
    PerIds(cg, c, nodes, Orders.Enumerate(ids), analyzed + {cg[c].mapping}) +
    (if !cg[c].isRequired && AllOptional(cg, c) then [NullBinding(cg[c].mapping)] else [])
  }

  /** The foreach over the ids, with analyzed already holding the constraint's mapping. */
  function PerIds<D>(cg: Graph<D>, c: NodeId, nodes: IdGraph, idSeq: seq<NodeId>, a: set<string>): seq<Binding>
    requires Closed(cg) && c in cg && Closed(nodes) && forall id :: id in idSeq ==> id in nodes
    requires forall x :: x in KidsOf(cg[c]) ==> x in cg
    decreases |Mappings(cg) - a|, 1, |idSeq|
  {
    if |idSeq| == 0 then []
    else
      var id := idSeq[0];
      var here :=
        match ChildLists(cg, nodes, KidsOf(cg[c]), id, a)
        case None => []
        case Some(lists) => Merged(AppendEach(Product(lists), SelfBinding(nodes, id)));
      here + PerIds(cg, c, nodes, idSeq[1..], a)
  }

  /**
   * The inner foreach over the children constraints of one id: None when a required
   * child has no instance under the id (didNotMatch), else one list per child whose
   * mapping is not analyzed yet.
   */
  function ChildLists<D>(cg: Graph<D>, nodes: IdGraph, kids: seq<NodeId>, id: NodeId, a: set<string>): Option<seq<seq<Binding>>>
    requires Closed(cg) && Closed(nodes) && id in nodes && forall x :: x in kids ==> x in cg
    decreases |Mappings(cg) - a|, 0, |kids|
  {
    if |kids| == 0 then Some([])
    else if cg[kids[0]].mapping in a then ChildLists(cg, nodes, kids[1..], id, a)
    else
      match ChildList(cg, nodes, kids[0], id, a)
      case None => None
      case Some(mine) =>
        match ChildLists(cg, nodes, kids[1..], id, a)
        case None => None
        case Some(rest) => Some([mine] + rest)
  }

  /**
   * The list for one child constraint ch of the id: the null binding when the id has
   * no child of ch's mapping and ch is optional, None when ch is required, else the
   * combinations of ch over those children.
   */
  function ChildList<D>(cg: Graph<D>, nodes: IdGraph, ch: NodeId, id: NodeId, a: set<string>): Option<seq<Binding>>
    requires Closed(cg) && Closed(nodes) && id in nodes && ch in cg && cg[ch].mapping !in a
    decreases |Mappings(cg) - a|, 0, 0
  {
    var m := cg[ch].mapping;
    if m !in nodes[id].children then
      if cg[ch].isRequired then None else Some([NullBinding(m)])
    else
      assert m in Mappings(cg);
      CardShrinks(Mappings(cg), a, m);
      Some(Combos(cg, ch, nodes, nodes[id].children[m], a))
  }

  /** k is bound by one of the bindings of dicts (the Any(... ContainsKey) test). */
  predicate Bound(dicts: seq<seq<Binding>>, m: string)
  {
    exists i, j :: 0 <= i < |dicts| && 0 <= j < |dicts[i]| && m in dicts[i][j]
  }

  /**
   * The foreach of GetMatchingIdSubset: one list of bindings per constraint whose
   * mapping no earlier list binds; None where the code returns an empty list.
   */
  function Collect<D>(cg: Graph<D>, nodes: IdGraph, state: State, cs: seq<NodeId>, dicts: seq<seq<Binding>>): Option<seq<seq<Binding>>>
    requires Closed(cg) && Wf(nodes, state) && forall c :: c in cs ==> c in cg
  {
    if |cs| == 0 then Some(dicts)
    else
      var c := cs[0];
      var m := cg[c].mapping;
      if Bound(dicts, m) then Collect(cg, nodes, state, cs[1..], dicts)
      else if m !in state then
        if cg[c].isRequired then None
        else Collect(cg, nodes, state, cs[1..], dicts + [[NullBinding(m)]])
      else
        var cRes := Combos(cg, c, nodes, state[m], {});
        if |cRes| == 0 then None
        else Collect(cg, nodes, state, cs[1..], dicts + [cRes])
  }

  /** GetMatchingIdSubset(constraints): the merge of every combination of the lists that merges. */
  function MatchingSubset<D>(cg: Graph<D>, nodes: IdGraph, state: State, cs: seq<NodeId>): seq<Binding>
    requires Closed(cg) && Wf(nodes, state) && forall c :: c in cs ==> c in cg
  {
    match Collect(cg, nodes, state, cs, [])
    case None => []
    case Some(dicts) => Merged(Product(dicts))
  }

  // ---------------------------------------------------------------------------------
  // Properties

  /** Merged keeps exactly the merges that succeed. */
  lemma {:induction false} MergedMembers(ps: seq<seq<Binding>>)
    ensures forall b :: b in Merged(ps) <==> exists p :: p in ps && MergeAll(p) == Some(b)
    decreases |ps|
  {
    if |ps| > 0 {
      MergedMembers(ps[1..]);
      forall b | b in Merged(ps) ensures exists p :: p in ps && MergeAll(p) == Some(b)
      {
        if b !in Merged(ps[1..]) {
          assert MergeAll(ps[0]) == Some(b);
        } else {
          var p :| p in ps[1..] && MergeAll(p) == Some(b);
          assert p in ps;
        }
      }
      forall b | (exists p :: p in ps && MergeAll(p) == Some(b)) ensures b in Merged(ps)
      {
        var p :| p in ps && MergeAll(p) == Some(b);
        if p != ps[0] {
          assert p in ps[1..];
        }
      }
    }
  }

  /**
   * Every binding GetMatchingIdSubset returns is the merge of one binding from each
   * list Collect gathered, and these agree on every mapping, which the result binds
   * to the pair they give it.
   */
  lemma MatchingAgrees<D>(cg: Graph<D>, nodes: IdGraph, state: State, cs: seq<NodeId>, b: Binding)
    requires Closed(cg) && Wf(nodes, state) && forall c :: c in cs ==> c in cg
    requires b in MatchingSubset(cg, nodes, state, cs)
    ensures Collect(cg, nodes, state, cs, []).Some?
    ensures var dicts := Collect(cg, nodes, state, cs, []).value;
      exists p :: p in Product(dicts) && Agree(p) &&
        forall i, k :: 0 <= i < |p| && k in p[i] ==> k in b && b[k] == p[i][k]
  {
    var dicts := Collect(cg, nodes, state, cs, []).value;
    MergedMembers(Product(dicts));
    var p :| p in Product(dicts) && MergeAll(p) == Some(b);
    MergeAllAgree(p);
  }

  /**
   * A single constraint whose mapping has no instance: nothing when it is required,
   * the one null binding when it is optional.
   */
  lemma AbsentConstraint<D>(cg: Graph<D>, nodes: IdGraph, state: State, c: NodeId)
    requires Closed(cg) && Wf(nodes, state) && c in cg && cg[c].mapping !in state
    ensures cg[c].isRequired ==> MatchingSubset(cg, nodes, state, [c]) == []
    ensures !cg[c].isRequired ==> MatchingSubset(cg, nodes, state, [c]) == [NullBinding(cg[c].mapping)]
  {
    var nb := NullBinding(cg[c].mapping);
    assert !Bound([], cg[c].mapping);
    if !cg[c].isRequired {
      assert [c][1..] == [] && [] + [[nb]] == [[nb]];
      assert Collect(cg, nodes, state, [c], []) == Some([[nb]]);
      assert Product([[nb]][1..]) == [[]];
      assert [nb] + [] == [nb];
      assert Cons(nb, [[]])[0] == [nb];
      assert Cons(nb, [[]]) == [[nb]];
      assert Product([[nb]]) == Prepend([nb], [[]]) == [[nb]];
      assert [nb][..0] == [];
      assert MergeAll([nb]) == Some(map[] + nb);
      assert map[] + nb == nb;
      assert Merged([[nb]]) == [nb] + Merged([]);
    }
  }

  /** A required constraint with no id combination leaves GetMatchingIdSubset empty. */
  lemma UnmatchedConstraint<D>(cg: Graph<D>, nodes: IdGraph, state: State, c: NodeId)
    requires Closed(cg) && Wf(nodes, state) && c in cg && cg[c].mapping in state
    requires Combos(cg, c, nodes, state[cg[c].mapping], {}) == []
    ensures MatchingSubset(cg, nodes, state, [c]) == []
  {
    assert !Bound([], cg[c].mapping);
  }

  /** One pass of the foreach of GetMatchingIdSubset on constraint c: the lists after it, or None where it returns. */
  function CollectStep<D>(cg: Graph<D>, nodes: IdGraph, state: State, c: NodeId, dicts: seq<seq<Binding>>): Option<seq<seq<Binding>>>
    requires Closed(cg) && Wf(nodes, state) && c in cg
  {
    var m := cg[c].mapping;
    if Bound(dicts, m) then Some(dicts)
    else if m !in state then
      if cg[c].isRequired then None else Some(dicts + [[NullBinding(m)]])
    else
      var cRes := Combos(cg, c, nodes, state[m], {});
      if |cRes| == 0 then None else Some(dicts + [cRes])
  }

  lemma CollectUnfold<D>(cg: Graph<D>, nodes: IdGraph, state: State, cs: seq<NodeId>, dicts: seq<seq<Binding>>)
    requires Closed(cg) && Wf(nodes, state) && (forall c :: c in cs ==> c in cg) && |cs| > 0
    ensures Collect(cg, nodes, state, cs, dicts) ==
      match CollectStep(cg, nodes, state, cs[0], dicts)
      case None => None
      case Some(d) => Collect(cg, nodes, state, cs[1..], d)
  {
  }

  /** The foreach over cs run in two halves: cs[..i] from dicts, then cs[i..] from what the first half gathered. */
  lemma {:induction false} CollectSplit<D>(cg: Graph<D>, nodes: IdGraph, state: State, cs: seq<NodeId>, dicts: seq<seq<Binding>>, i: nat)
    requires Closed(cg) && Wf(nodes, state) && (forall c :: c in cs ==> c in cg) && i <= |cs|
    ensures Collect(cg, nodes, state, cs, dicts) ==
      match Collect(cg, nodes, state, cs[..i], dicts)
      case None => None
      case Some(d) => Collect(cg, nodes, state, cs[i..], d)
    decreases i
  {
    if i == 0 {
      assert cs[..0] == [] && cs[0..] == cs;
    } else {
      assert cs[..i][0] == cs[0] && cs[..i][1..] == cs[1..][..i - 1] && cs[1..][i - 1..] == cs[i..];
      CollectUnfold(cg, nodes, state, cs, dicts);
      CollectUnfold(cg, nodes, state, cs[..i], dicts);
      var step := CollectStep(cg, nodes, state, cs[0], dicts);
      if step.Some? {
        CollectSplit(cg, nodes, state, cs[1..], step.value, i - 1);
      }
    }
  }

  /** The foreach only appends: the lists gathered so far stay in front. */
  lemma {:induction false} CollectExtends<D>(cg: Graph<D>, nodes: IdGraph, state: State, cs: seq<NodeId>, dicts: seq<seq<Binding>>)
    requires Closed(cg) && Wf(nodes, state) && forall c :: c in cs ==> c in cg
    ensures Collect(cg, nodes, state, cs, dicts).Some? ==>
      |dicts| <= |Collect(cg, nodes, state, cs, dicts).value| &&
      Collect(cg, nodes, state, cs, dicts).value[..|dicts|] == dicts
    decreases |cs|
  {
    if |cs| > 0 {
      var c := cs[0];
      var m := cg[c].mapping;
      if Bound(dicts, m) {
        CollectExtends(cg, nodes, state, cs[1..], dicts);
      } else if m !in state {
        if !cg[c].isRequired {
          var d1 := dicts + [[NullBinding(m)]];
          CollectExtends(cg, nodes, state, cs[1..], d1);
          if Collect(cg, nodes, state, cs, dicts).Some? {
            assert Collect(cg, nodes, state, cs, dicts).value[..|dicts|] == d1[..|dicts|];
          }
        }
      } else {
        var cRes := Combos(cg, c, nodes, state[m], {});
        if |cRes| != 0 {
          var d1 := dicts + [cRes];
          CollectExtends(cg, nodes, state, cs[1..], d1);
          if Collect(cg, nodes, state, cs, dicts).Some? {
            assert Collect(cg, nodes, state, cs, dicts).value[..|dicts|] == d1[..|dicts|];
          }
        }
      }
    }
  }

  /**
   * A required constraint at any position i of the list whose mapping has no instance
   * empties GetMatchingIdSubset, unless a list gathered before it already binds its
   * mapping, in which case the loop skips it.
   */
  lemma RequiredAbsent<D>(cg: Graph<D>, nodes: IdGraph, state: State, cs: seq<NodeId>, i: nat)
    requires Closed(cg) && Wf(nodes, state) && (forall c :: c in cs ==> c in cg) && i < |cs|
    requires cg[cs[i]].isRequired && cg[cs[i]].mapping !in state
    ensures (Collect(cg, nodes, state, cs[..i], []).None? ||
             !Bound(Collect(cg, nodes, state, cs[..i], []).value, cg[cs[i]].mapping)) ==>
      MatchingSubset(cg, nodes, state, cs) == []
  {
    CollectSplit(cg, nodes, state, cs, [], i);
  }

  /**
   * A required constraint at any position whose combinations are all missing empties
   * GetMatchingIdSubset, under the same proviso.
   */
  lemma RequiredUnmatched<D>(cg: Graph<D>, nodes: IdGraph, state: State, cs: seq<NodeId>, i: nat)
    requires Closed(cg) && Wf(nodes, state) && (forall c :: c in cs ==> c in cg) && i < |cs|
    requires cg[cs[i]].mapping in state && Combos(cg, cs[i], nodes, state[cg[cs[i]].mapping], {}) == []
    ensures (Collect(cg, nodes, state, cs[..i], []).None? ||
             !Bound(Collect(cg, nodes, state, cs[..i], []).value, cg[cs[i]].mapping)) ==>
      MatchingSubset(cg, nodes, state, cs) == []
  {
    CollectSplit(cg, nodes, state, cs, [], i);
  }

  /**
   * An optional constraint at any position whose mapping has no instance: every binding
   * GetMatchingIdSubset returns binds that mapping to null, not deleted (unless a list
   * gathered before it already binds the mapping).
   */
  lemma OptionalAbsent<D>(cg: Graph<D>, nodes: IdGraph, state: State, cs: seq<NodeId>, i: nat, b: Binding)
    requires Closed(cg) && Wf(nodes, state) && (forall c :: c in cs ==> c in cg) && i < |cs|
    requires !cg[cs[i]].isRequired && cg[cs[i]].mapping !in state
    requires Collect(cg, nodes, state, cs[..i], []).Some? && !Bound(Collect(cg, nodes, state, cs[..i], []).value, cg[cs[i]].mapping)
    requires b in MatchingSubset(cg, nodes, state, cs)
    ensures cg[cs[i]].mapping in b && b[cg[cs[i]].mapping] == Entry(None, false)
  {
    var m := cg[cs[i]].mapping;
    var d := Collect(cg, nodes, state, cs[..i], []).value;
    var d1 := d + [[NullBinding(m)]];
    CollectSplit(cg, nodes, state, cs, [], i);
    assert cs[i..][0] == cs[i] && cs[i..][1..] == cs[i + 1..];
    CollectUnfold(cg, nodes, state, cs[i..], d);
    assert CollectStep(cg, nodes, state, cs[i], d) == Some(d1);
    CollectExtends(cg, nodes, state, cs[i + 1..], d1);
    var dicts := Collect(cg, nodes, state, cs, []).value;
    assert dicts[|d|] == d1[|d|] == [NullBinding(m)] by {
      assert dicts[..|d1|] == d1;
    }
    MergedMembers(Product(dicts));
    var p :| p in Product(dicts) && MergeAll(p) == Some(b);
    MergeAllAgree(p);
    ProductShape(dicts);
    assert p[|d|] == NullBinding(m);
    assert m in p[|d|];
  }

  /**
   * What a binding of GetAllIdCombinations for constraint c says about c: it binds c's
   * mapping, to null only when c is optional and otherwise to the pair of one of the
   * ids; and it binds no mapping analyzed above c.
   */
  ghost predicate SelfBound<D>(cg: Graph<D>, c: NodeId, nodes: IdGraph, ids: set<NodeId>, analyzed: set<string>, b: Binding)
    requires c in cg
  {
    var m := cg[c].mapping;
    m in b && (forall k :: k in b ==> k !in analyzed) &&
    (b[m].value.None? ==> !cg[c].isRequired) &&
    (b[m].value.Some? ==> exists id :: id in ids && id in nodes && b[m] == EntryOf(nodes[id]))
  }

  lemma CombosSound<D>(cg: Graph<D>, c: NodeId, nodes: IdGraph, ids: set<NodeId>, analyzed: set<string>)
    requires Closed(cg) && c in cg && Closed(nodes) && Keyed(nodes) && ids <= nodes.Keys
    requires forall id :: id in ids ==> nodes[id].mapping == cg[c].mapping
    requires cg[c].mapping !in analyzed
    ensures forall b :: b in Combos(cg, c, nodes, ids, analyzed) ==> SelfBound(cg, c, nodes, ids, analyzed, b)
    decreases |Mappings(cg) - (analyzed + {cg[c].mapping})|, 2, 0
  {
    var m := cg[c].mapping;
    var a := analyzed + {m};
    KidsIn(cg, c);
    PerIdsSound(cg, c, nodes, Orders.Enumerate(ids), a);
    var own := PerIds(cg, c, nodes, Orders.Enumerate(ids), a);
    var tail := if !cg[c].isRequired && AllOptional(cg, c) then [NullBinding(m)] else [];
    assert Combos(cg, c, nodes, ids, analyzed) == own + tail;
    forall b | b in own + tail ensures SelfBound(cg, c, nodes, ids, analyzed, b)
    {
      if b in own {
        assert InstanceBound(cg, c, nodes, Orders.Enumerate(ids), a, b);
        var id :| id in Orders.Enumerate(ids) && b[m] == EntryOf(nodes[id]);
        assert id in ids;
      } else {
        assert b in tail;
      }
    }
  }

  /** The bindings of the lists bind no mapping of a. */
  ghost predicate Outside(lists: seq<seq<Binding>>, a: set<string>)
  {
    forall i, j, k :: 0 <= i < |lists| && 0 <= j < |lists[i]| && k in lists[i][j] ==> k !in a
  }

  /** What PerIds says about the bindings of c's instances. */
  ghost predicate InstanceBound<D>(cg: Graph<D>, c: NodeId, nodes: IdGraph, idSeq: seq<NodeId>, a: set<string>, b: Binding)
    requires c in cg && forall id :: id in idSeq ==> id in nodes
  {
    var m := cg[c].mapping;
    m in b && (forall k :: k in b ==> k == m || k !in a) &&
    exists id :: id in idSeq && b[m] == EntryOf(nodes[id])
  }

  lemma PerIdsSound<D>(cg: Graph<D>, c: NodeId, nodes: IdGraph, idSeq: seq<NodeId>, a: set<string>)
    requires Closed(cg) && c in cg && Closed(nodes) && Keyed(nodes) && forall id :: id in idSeq ==> id in nodes
    requires forall x :: x in KidsOf(cg[c]) ==> x in cg
    requires forall id :: id in idSeq ==> nodes[id].mapping == cg[c].mapping
    requires cg[c].mapping in a
    ensures forall b :: b in PerIds(cg, c, nodes, idSeq, a) ==> InstanceBound(cg, c, nodes, idSeq, a, b)
    decreases |Mappings(cg) - a|, 1, |idSeq|
  {
    if |idSeq| > 0 {
      var id := idSeq[0];
      PerIdsSound(cg, c, nodes, idSeq[1..], a);
      var cl := ChildLists(cg, nodes, KidsOf(cg[c]), id, a);
      if cl.Some? {
        ChildListsSound(cg, nodes, KidsOf(cg[c]), id, a);
        PerIdSound(cg, c, nodes, id, cl.value, a);
      }
      forall b | b in PerIds(cg, c, nodes, idSeq, a) ensures InstanceBound(cg, c, nodes, idSeq, a, b)
      {
        if b in PerIds(cg, c, nodes, idSeq[1..], a) {
          var id' :| id' in idSeq[1..] && b[cg[c].mapping] == EntryOf(nodes[id']);
          assert id' in idSeq;
        }
      }
    }
  }

  /** The bindings for one id: its own pair under c's mapping, the children's elsewhere. */
  lemma PerIdSound<D>(cg: Graph<D>, c: NodeId, nodes: IdGraph, id: NodeId, lists: seq<seq<Binding>>, a: set<string>)
    requires c in cg && id in nodes && nodes[id].mapping == cg[c].mapping && cg[c].mapping in a
    requires Outside(lists, a)
    ensures forall b :: b in Merged(AppendEach(Product(lists), SelfBinding(nodes, id))) ==>
      InstanceBound(cg, c, nodes, [id], a, b)
  {
    var m := cg[c].mapping;
    var self := SelfBinding(nodes, id);
    var ps := AppendEach(Product(lists), self);
    forall b | b in Merged(ps) ensures InstanceBound(cg, c, nodes, [id], a, b)
    {
      var i := MergedWitness(ps, b);
      ProductRows(lists, i);
      var p := Product(lists)[i];
      forall j, k | 0 <= j < |p| && k in p[j] ensures k !in a
      {
        ProductMember(lists, i, j);
      }
      MergeWithSelf(p, self, b, m, a);
      assert id in [id];
    }
  }

  /** The combination that a merged binding comes from. */
  lemma {:induction false} MergedWitness(ps: seq<seq<Binding>>, b: Binding) returns (i: nat)
    requires b in Merged(ps)
    ensures i < |ps| && MergeAll(ps[i]) == Some(b)
    decreases |ps|
  {
    var m := MergeAll(ps[0]);
    if m.Some? && b == m.value {
      i := 0;
    } else {
      var j := MergedWitness(ps[1..], b);
      i := j + 1;
    }
  }

  /** Merging a combination free of a with a one-mapping binding for m keeps that binding. */
  lemma MergeWithSelf(p: seq<Binding>, self: Binding, b: Binding, m: string, a: set<string>)
    requires forall j, k :: 0 <= j < |p| && k in p[j] ==> k !in a
    requires m in a && self.Keys == {m} && MergeAll(p + [self]) == Some(b)
    ensures m in b && b[m] == self[m] && forall k :: k in b ==> k == m || k !in a
  {
    var q := p + [self];
    assert q[..|q| - 1] == p;
    var acc := MergeAll(p).value;
    assert b == acc + self;
    MergeAllKeys(p);
    forall k | k in b ensures k == m || k !in a
    {
      if k != m {
        assert k in acc;
        var j :| 0 <= j < |p| && k in p[j];
      }
    }
  }

  /** The lists of ChildLists bind no mapping analyzed above them. */
  lemma ChildListsSound<D>(cg: Graph<D>, nodes: IdGraph, kids: seq<NodeId>, id: NodeId, a: set<string>)
    requires Closed(cg) && Closed(nodes) && Keyed(nodes) && id in nodes && forall x :: x in kids ==> x in cg
    ensures ChildLists(cg, nodes, kids, id, a).Some? ==> Outside(ChildLists(cg, nodes, kids, id, a).value, a)
    decreases |Mappings(cg) - a|, 0, |kids|
  {
    if |kids| > 0 {
      ChildListsSound(cg, nodes, kids[1..], id, a);
      if cg[kids[0]].mapping !in a {
        ChildListSound(cg, nodes, kids[0], id, a);
        var mine, rest := ChildList(cg, nodes, kids[0], id, a), ChildLists(cg, nodes, kids[1..], id, a);
        if mine.Some? && rest.Some? {
          var lists := [mine.value] + rest.value;
          forall i, j, k | 0 <= i < |lists| && 0 <= j < |lists[i]| && k in lists[i][j] ensures k !in a
          {
            if i > 0 {
              assert lists[i] == rest.value[i - 1];
            }
          }
        }
      }
    }
  }

  lemma ChildListSound<D>(cg: Graph<D>, nodes: IdGraph, ch: NodeId, id: NodeId, a: set<string>)
    requires Closed(cg) && Closed(nodes) && Keyed(nodes) && id in nodes && ch in cg && cg[ch].mapping !in a
    ensures ChildList(cg, nodes, ch, id, a).Some? ==>
      forall j, k :: 0 <= j < |ChildList(cg, nodes, ch, id, a).value| && k in ChildList(cg, nodes, ch, id, a).value[j] ==> k !in a
    decreases |Mappings(cg) - a|, 0, 0
  {
    var m := cg[ch].mapping;
    if m in nodes[id].children {
      assert m in Mappings(cg);
      CardShrinks(Mappings(cg), a, m);
      var ids := nodes[id].children[m];
      assert forall x :: x in ids ==> nodes[x].mapping == m;
      CombosSound(cg, ch, nodes, ids, a);
      var mine := Combos(cg, ch, nodes, ids, a);
      forall j, k | 0 <= j < |mine| && k in mine[j] ensures k !in a
      {
        assert SelfBound(cg, ch, nodes, ids, a, mine[j]);
      }
    }
  }
}
