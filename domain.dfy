/**
 * The TestModel object (ObST.Tester/Domain/TestModel.cs) as a class: its IdModel
 * objects live in the arena field nodes, _state is the field state, and nextId
 * hands out the ids that stand for the Guids of new IdModels. Each method is proved
 * against the functions of module TestModels.
 */
module Domain {
  import opened Wrappers
  import opened Links
  import opened TestModels
  import opened Arith
  import opened Products
  import opened Bindings
  import opened Queries
  import opened Lookups
  import opened ModelCopies

  /**
   * TestModel.ToIdModel: one fresh IdModel per pair, with the ids from nextId on,
   * each linked as the child of the one before; the last one is returned.
   */
  method ToIdModel(nodes: IdGraph, nextId: NodeId, values: seq<(string, string)>) returns (arena: IdGraph, last: Option<NodeId>)
    ensures arena == WithChain(nodes, values, nextId, |values|)
    ensures |values| == 0 ==> last.None?
    ensures |values| > 0 ==> last == Some(nextId + |values| - 1)
  {
    arena, last := nodes, None;
    for i := 0 to |values|
      invariant arena == WithChain(nodes, values, nextId, i)
      invariant i == 0 <==> last.None?
      invariant last.Some? ==> last.value == nextId + i - 1
    {
      var id := nextId + i;
      ChainStep(nodes, values, nextId, i, arena, id, last);
      arena := arena[id := Fresh(values[i])];
      if last.Some? {
        arena := LinkChild(arena, last.value, id);
      }
      last := Some(id);
    }
  }

  /**
   * TestModel.TryMergeDictionaries: copy every entry of every dictionary into one,
   * stopping with false at an entry whose mapping already has a different pair.
   */
  method TryMergeDictionaries(dicts: seq<Binding>) returns (ok: bool, res: Binding)
    ensures ok <==> MergeAll(dicts).Some?
    ensures ok ==> MergeAll(dicts) == Some(res)
  {
    res := map[];
    for i := 0 to |dicts|
      invariant MergeAll(dicts[..i]) == Some(res)
    {
      var d := dicts[i];
      ghost var acc := res;
      var keys := d.Keys;
      while keys != {}
        invariant keys <= d.Keys
        invariant res.Keys == acc.Keys + (d.Keys - keys)
        invariant forall k :: k in acc ==> res[k] == acc[k]
        invariant forall k :: k in d.Keys - keys ==> res[k] == d[k]
        decreases keys
      {
        var k :| k in keys;
        if k in res {
          if res[k] != d[k] {
            MergeFailsAt(dicts, i, acc, k);
            return false, res;
          }
        } else {
          res := res[k := d[k]];
        }
        keys := keys - {k};
      }
      MergeStep(dicts, i, acc, res);
    }
    assert dicts[..|dicts|] == dicts;
    ok := true;
  }

  /** The last foreach of GetMatchingIdSubset: the merge of each combination that merges. */
  method MergeEach(ps: seq<seq<Binding>>) returns (r: seq<Binding>)
    ensures r == Merged(ps)
  {
    r := [];
    assert ps[0..] == ps;
    for i := 0 to |ps|
      invariant r + Merged(ps[i..]) == Merged(ps)
    {
      var ok, d := TryMergeDictionaries(ps[i]);
      MergedFront(ps, i);
      if ok {
        r := r + [d];
      }
    }
    assert ps[|ps|..] == [];
  }

  /**
   * TestModel.CartesianProduct: combination i takes from each list the element at
   * its digit of i, the digit's weight being the count of the lists after it.
   */
  method CartesianProduct<T>(list: seq<seq<T>>) returns (res: seq<seq<T>>)
    ensures res == Product(list)
  {
    var count := Count(list);
    ProductRows(list, 0);
    res := [];
    for i := 0 to count
      invariant res == Product(list)[..i]
    {
      var tmp := Combination(list, count, i);
      assert Product(list)[..i + 1] == Product(list)[..i] + [Product(list)[i]];
      res := res + [tmp];
    }
  }

  /** The body of the loop of CartesianProduct: combination i, list by list. */
  method Combination<T>(list: seq<seq<T>>, count: nat, i: nat) returns (tmp: seq<T>)
    requires count == Count(list) && i < count
    ensures |Product(list)| == count && tmp == Product(list)[i]
  {
    ProductRows(list, i);
    tmp := [];
    var j := 1;
    for k := 0 to |list|
      invariant j == Count(list[..k])
      invariant tmp == Product(list)[i][..k]
    {
      TimesIsMul(j, |list[k]|, j * |list[k]|);
      j := j * |list[k]|;
      CartesianStep(list, i, k, j);
      tmp := tmp + [list[k][i / (count / j) % |list[k]|]];
    }
  }

  /**
   * The foreach over the path in Delete and GetKeys (as intended): each segment is
   * looked up under the model of the one before, or among the instances of its
   * mapping for the first; an unmatched segment ends it without a model.
   */
  method ResolvePath(nodes: IdGraph, state: State, path: seq<(string, string)>) returns (r: Result<Option<NodeId>>)
    requires Wf(nodes, state)
    ensures r == Resolve(nodes, state, path)
  {
    var last: Option<NodeId> := None;
    assert path[0..] == path;
    for i := 0 to |path|
      invariant last.Some? ==> last.value in nodes
      invariant Resolve(nodes, state, path) == Walk(nodes, state, path[i..], last, None)
    {
      var k, v := path[i].0, path[i].1;
      assert path[i..][1..] == path[i + 1..];
      var model := Step(nodes, state, last, k, k, v);
      if model.Failure? {
        return Failure(model.error);
      }
      if model.value.None? {
        return Success(None);
      }
      last := model.value;
    }
    assert path[|path|..] == [];
    r := Success(last);
  }

  /**
   * IsDeleted = true on t and DeleteChildren: every IdModel reachable from t over
   * child edges is marked, each one once.
   */
  method MarkDeleted(g: IdGraph, t: NodeId) returns (h: IdGraph, marked: set<NodeId>)
    requires Closed(g) && t in g
    ensures Cascade(g, t, marked) && h == Marked(g, marked)
  {
    h, marked := g, {};
    var work := {t};
    while work != {}
      invariant work <= g.Keys && marked <= g.Keys && work !! marked
      invariant t in marked + work
      invariant forall x, c :: x in marked && x in g && c in AllChildren(g[x]) ==> c in marked + work
      invariant forall u :: u <= g.Keys && t in u && Downward(g, u) ==> marked + work <= u
      invariant h == Marked(g, marked)
      decreases g.Keys - marked
    {
      var x :| x in work;
      ChildrenIn(g, x);
      MarkOne(g, marked, x, h);
      CascadeStep(g, t, marked, work, x);
      h := h[x := h[x].(data := h[x].data.(isDeleted := true))];
      marked := marked + {x};
      work := (work - {x}) + (AllChildren(g[x]) - marked);
    }
  }

  /**
   * The foreach of new TestModel(model) over the listed ids: each relation must
   * lead to a listed id (ids.Single throws otherwise); the copy is filed under its
   * mapping.
   */
  method CopyNodes(nodes: IdGraph, state: State) returns (r: Result<(IdGraph, State)>)
    requires Wf(nodes, state)
    ensures r == CopyOf(nodes, state)
  {
    var listed := Listed(state);
    var ids := Orders.Enumerate(listed);
    ListedIn(nodes, state);
    var escaping := FindLeaving(nodes, listed, ids);
    if escaping.Some? {
      return Failure(InvalidOperation);
    }
    var copy, st := CopyListed(nodes, ids);
    CopyAll(nodes, state, ids);
    r := Success((copy, st));
  }

  /** The first listed id one of whose relations is not listed, if any. */
  method FindLeaving(nodes: IdGraph, listed: set<NodeId>, ids: seq<NodeId>) returns (r: Option<nat>)
    requires forall n :: n in ids ==> n in nodes
    ensures r.Some? ==> r.value < |ids| && Leaves(nodes, listed, ids[r.value])
    ensures r.None? ==> forall j :: 0 <= j < |ids| ==> !Leaves(nodes, listed, ids[j])
  {
    for i := 0 to |ids|
      invariant forall j :: 0 <= j < i ==> !Leaves(nodes, listed, ids[j])
    {
      if Leaves(nodes, listed, ids[i]) {
        return Some(i);
      }
    }
    return None;
  }

  /** Copies each of ids into the new arena and files it under its mapping, in turn. */
  method CopyListed(nodes: IdGraph, ids: seq<NodeId>) returns (copy: IdGraph, st: State)
    requires forall n :: n in ids ==> n in nodes
    ensures copy == Taken(nodes, ids, |ids|) && st == Filed(nodes, ids, |ids|)
  {
    copy, st := map[], map[];
    for i := 0 to |ids|
      invariant copy == Taken(nodes, ids, i) && st == Filed(nodes, ids, i)
    {
      var id := ids[i];
      copy := copy[id := nodes[id]];
      var m := nodes[id].mapping;
      st := st[m := (if m in st then st[m] else {}) + {id}];
    }
  }

  class TestModel {
    var nodes: IdGraph
    var state: State
    var nextId: nat

    ghost predicate Valid()
      reads this
    {
      Inv(nodes, state, nextId) && Keyed(nodes)
    }

    /** new TestModel(): no ids. */
    constructor()
      ensures Valid() && nodes == map[] && state == map[]
    {
      nodes, state, nextId := map[], map[], 0;
    }

    /**
     * Add(values): the path becomes a chain of fresh IdModels, which is then merged
     * into the model bottom-up, as AddSpec describes; an exception ends it with
     * what was changed up to there.
     */
    method Add(values: seq<(string, string)>) returns (error: Option<Exception>)
      requires Valid()
      modifies this
      ensures Valid()
      ensures Outcome(nodes, state, error) == AddSpec(old(nodes), old(state), old(nextId), values)
      ensures nextId == old(nextId) + |values|
    {
      var arena, newId := ToIdModel(nodes, nextId, values);
      WithChainKeyed(nodes, values, nextId, |values|);
      nodes, nextId := arena, nextId + |values|;
      if |values| > 0 {
        AddSpecStart(old(nodes), old(state), old(nextId), values, newId);
      }
      error := None;
      while newId.Some?
        invariant nextId == old(nextId) + |values| && error.None?
        invariant Wf(nodes, state) && Keyed(nodes)
        invariant newId.Some? ==> Pending(nodes, values, state, old(nextId), newId.value)
        invariant AddSpec(old(nodes), old(state), old(nextId), values) == AddLoop(nodes, values, state, old(nextId), newId)
        decreases if newId.Some? then newId.value + 1 else 0
      {
        var c := newId.value;
        AddStepKeeps(nodes, values, state, old(nextId), c);
        AddStepNext(nodes, values, state, old(nextId), c);
        AddStepKeyed(nodes, state, c);
        error, newId := Merge(c);
        if error.Some? {
          return;
        }
      }
    }

    /**
     * One iteration of the while loop of Add for the current IdModel c: c joins
     * the instances of its mapping, or is merged into the one instance that has
     * the same value and parent; the result is c's parent, the next IdModel.
     */
    method Merge(c: NodeId) returns (error: Option<Exception>, parent: Option<NodeId>)
      requires c in nodes && Closed(nodes) && Descends(nodes, c)
      modifies this
      ensures Outcome(nodes, state, error) == AddStep(old(nodes), old(state), c)
      ensures error.None? ==> parent == FirstParent(old(nodes)[c])
      ensures nextId == old(nextId)
    {
      var m := nodes[c].mapping;
      var model: Option<NodeId> := None;
      if m !in state {
        state := state[m := {}];
      } else {
        var found := SingleOrDefault(Matching(nodes, state[m], c));
        if found.Failure? {
          error, parent := Some(found.error), None;
          return;
        }
        model := found.value;
      }
      parent := FirstParent(nodes[c]);
      error := None;
      if model.None? {
        state := state[m := state[m] + {c}];
        return;
      }
      var g1 := MergeChild(nodes, c, model.value);
      if g1.Failure? {
        error := Some(g1.error);
        return;
      }
      nodes := g1.value;
      var g2 := MergeParent(nodes, c, model.value, parent);
      if g2.Failure? {
        error := Some(g2.error);
        return;
      }
      nodes := g2.value;
    }

    /**
     * GetMatchingIdSubset(constraints): gather one list of bindings per constraint
     * (returning nothing where Collect fails), then keep the merge of each
     * combination of the lists that merges.
     */
    method GetMatchingIdSubset<D>(cg: Graph<D>, cs: seq<NodeId>) returns (r: seq<Binding>)
      requires Valid() && Closed(cg) && forall c :: c in cs ==> c in cg
      ensures r == MatchingSubset(cg, nodes, state, cs)
    {
      var dicts: seq<seq<Binding>> := [];
      assert cs[0..] == cs;
      for i := 0 to |cs|
        invariant Collect(cg, nodes, state, cs[i..], dicts) == Collect(cg, nodes, state, cs, [])
      {
        var c := cs[i];
        var m := cg[c].mapping;
        assert cs[i..][1..] == cs[i + 1..];
        if Bound(dicts, m) {
          continue;
        }
        if m !in state {
          if cg[c].isRequired {
            return [];
          }
          dicts := dicts + [[NullBinding(m)]];
          continue;
        }
        var cRes := Combos(cg, c, nodes, state[m], {});
        if |cRes| == 0 {
          return cRes;
        }
        dicts := dicts + [cRes];
      }
      assert cs[|cs|..] == [];
      var permutations := CartesianProduct(dicts);
      r := MergeEach(permutations);
    }

    /**
     * Delete(values): when the path resolves to an IdModel, it and all its
     * descendants are marked deleted; when a segment is unmatched nothing changes;
     * an exception of the lookup leaves everything as it was.
     */
    method Delete(values: seq<(string, string)>) returns (error: Option<Exception>)
      requires Valid()
      modifies this
      ensures Valid() && state == old(state) && nextId == old(nextId)
      ensures var r := Resolve(old(nodes), old(state), values);
        (r.Failure? ==> error == Some(r.error) && nodes == old(nodes)) &&
        (r.Success? && r.value.None? ==> error.None? && nodes == old(nodes)) &&
        (r.Success? && r.value.Some? ==> error.None? && exists s :: Cascade(old(nodes), r.value.value, s) && nodes == Marked(old(nodes), s))
    {
      var r := ResolvePath(nodes, state, values);
      if r.Failure? {
        return Some(r.error);
      }
      error := None;
      if r.value.None? {
        return;
      }
      var h, marked := MarkDeleted(nodes, r.value.value);
      MarkedKeeps(nodes, state, marked);
      nodes := h;
    }

    /** GetKeys(path, key), with every segment under its own mapping. */
    method GetKeys(path: seq<(string, string)>, key: string) returns (r: Result<seq<(string, bool)>>)
      requires Valid()
      ensures r == Keys(nodes, state, path, key)
    {
      var last := ResolvePath(nodes, state, path);
      if last.Failure? {
        return Failure(last.error);
      }
      if last.value.None? {
        if |path| > 0 {
          return Success([]);
        }
        if key in state {
          return Success(Pairs(nodes, Orders.Enumerate(state[key])));
        }
        return Success([]);
      }
      var n := nodes[last.value.value];
      if key !in n.children {
        return Failure(KeyNotFound);
      }
      r := Success(Pairs(nodes, Orders.Enumerate(n.children[key])));
    }

    /** Get(path, key, includeDeleted): the values GetKeys finds, deleted ones only on request. */
    method Get(path: seq<(string, string)>, key: string, includeDeleted: bool) returns (r: Result<seq<string>>)
      requires Valid()
      ensures r == Lookups.Get(nodes, state, path, key, includeDeleted)
    {
      var keys := GetKeys(path, key);
      if keys.Failure? {
        return Failure(keys.error);
      }
      if includeDeleted {
        r := Success(AllValues(keys.value));
      } else {
        r := Success(Select(keys.value, false));
      }
    }

    /** GetDeleted(path, key): the values of the deleted ids GetKeys finds. */
    method GetDeleted(path: seq<(string, string)>, key: string) returns (r: Result<seq<string>>)
      requires Valid()
      ensures r == Lookups.GetDeleted(nodes, state, path, key)
    {
      var keys := GetKeys(path, key);
      if keys.Failure? {
        return Failure(keys.error);
      }
      r := Success(Select(keys.value, true));
    }

    /**
     * new TestModel(this): a fresh model over a copy of the listed part of the arena,
     * or the InvalidOperationException of ids.Single.
     */
    method Copy() returns (r: Result<TestModel>)
      requires Valid()
      ensures r.Failure? <==> CopyOf(nodes, state).Failure?
      ensures r.Failure? ==> r.error == InvalidOperation
      ensures r.Success? ==>
        fresh(r.value) && r.value.Valid() && r.value.nextId == nextId &&
        CopyOf(nodes, state) == Success((r.value.nodes, r.value.state))
    {
      var c := CopyNodes(nodes, state);
      if c.Failure? {
        return Failure(c.error);
      }
      CopyWf(nodes, state, nextId);
      var model := new TestModel();
      model.nodes, model.state, model.nextId := c.value.0, c.value.1, nextId;
      r := Success(model);
    }
  }

  /** The copy shares nothing with the model: deleting on the copy leaves the model as it was. */
  method CopyIsIndependent(model: TestModel, values: seq<(string, string)>)
    requires model.Valid()
    ensures model.nodes == old(model.nodes) && model.state == old(model.state)
  {
    var c := model.Copy();
    if c.Success? {
      var _ := c.value.Delete(values);
    }
  }
}
