/**
 * The path lookups of TestModel (ObST.Tester/Domain/TestModel.cs): the loop that
 * resolves a path of (mapping, value) pairs to one IdModel, shared by Delete and
 * GetKeys; GetKeys, Get and GetDeleted over its result; and the cascade of Delete.
 */
module Lookups {
  import opened Wrappers
  import opened Links
  import Orders
  import opened TestModels

  /** The ids among ids whose value is v (the predicate of SingleOrDefault). */
  function WithValue(nodes: IdGraph, ids: set<NodeId>, v: string): (r: set<NodeId>)
    requires ids <= nodes.Keys
    ensures r <= ids
  {
    set i | i in ids && nodes[i].data.value == v
  }

  /** The candidates for segment (k, _): the children under k of the previous model, else the instances of k. */
  function Under(nodes: IdGraph, state: State, last: Option<NodeId>, k: string): set<NodeId>
    requires last.Some? ==> last.value in nodes
  {
    if last.None? then (if k in state then state[k] else {})
    else ChildrenUnder(nodes[last.value], k)
  }

  /**
   * One segment (k, v) of the path loop. With a previous model, its children under
   * childKey (the Children indexer throws KeyNotFoundException without an entry);
   * without one, the instances of k, none when the state has no entry. The one id
   * with value v; InvalidOperationException for several.
   */
  function Step(nodes: IdGraph, state: State, last: Option<NodeId>, childKey: string, k: string, v: string): (r: Result<Option<NodeId>>)
    requires Wf(nodes, state) && (last.Some? ==> last.value in nodes)
    ensures r.Success? && r.value.Some? ==> r.value.value in nodes
  {
    if last.Some? then
      var n := nodes[last.value];
      if childKey !in n.children then Failure(KeyNotFound)
      else SingleOrDefault(WithValue(nodes, n.children[childKey], v))
    else if k in state then SingleOrDefault(WithValue(nodes, state[k], v))
    else Success(None)
  }

  /**
   * The foreach over the path from the model last on. With target None each
   * segment (k, v) looks among the children under k, as Delete does; with
   * Some(key) among the children under key, as GetKeys does. Success(None) when a
   * segment has no match (the early return), else the model of the last segment.
   */
  function Walk(nodes: IdGraph, state: State, path: seq<(string, string)>, last: Option<NodeId>, target: Option<string>): (r: Result<Option<NodeId>>)
    requires Wf(nodes, state) && (last.Some? ==> last.value in nodes)
    ensures r.Success? && r.value.Some? ==> r.value.value in nodes
    decreases |path|
  {
    if |path| == 0 then Success(last)
    else
      var k := path[0].0;
      match Step(nodes, state, last, if target.Some? then target.value else k, k, path[0].1)
      case Failure(e) => Failure(e)
      case Success(None) => Success(None)
      case Success(Some(id)) => Walk(nodes, state, path[1..], Some(id), target)
  }

  /** The path resolved segment by segment, each under its own mapping. */
  function Resolve(nodes: IdGraph, state: State, path: seq<(string, string)>): Result<Option<NodeId>>
    requires Wf(nodes, state)
  {
    Walk(nodes, state, path, None, None)
  }

  /** Select(i => (i.Value, i.IsDeleted)) over ids in enumeration order. */
  function Pairs(nodes: IdGraph, ids: seq<NodeId>): (r: seq<(string, bool)>)
    requires forall i :: i in ids ==> i in nodes
    ensures |r| == |ids|
    ensures forall j :: 0 <= j < |ids| ==> r[j] == (nodes[ids[j]].data.value, nodes[ids[j]].data.isDeleted)
  {
    if |ids| == 0 then [] else [(nodes[ids[0]].data.value, nodes[ids[0]].data.isDeleted)] + Pairs(nodes, ids[1..])
  }

  /**
   * GetKeys(path, key) over the path loop for target: with an empty path every
   * instance of key; with a segment unmatched nothing; else the children under key
   * of the last model, whose Children indexer throws without an entry.
   */
  function KeysFrom(nodes: IdGraph, state: State, path: seq<(string, string)>, key: string, target: Option<string>): Result<seq<(string, bool)>>
    requires Wf(nodes, state)
  {
    if |path| == 0 then Success(if key in state then Pairs(nodes, Orders.Enumerate(state[key])) else [])
    else
      match Walk(nodes, state, path, None, target)
      case Failure(e) => Failure(e)
      case Success(None) => Success([])
      case Success(Some(n)) =>
        if key !in nodes[n].children then Failure(KeyNotFound)
        else Success(Pairs(nodes, Orders.Enumerate(nodes[n].children[key])))
  }

  /** GetKeys as written: every model after the first indexes its children by the target key. */
  function KeysAsWritten(nodes: IdGraph, state: State, path: seq<(string, string)>, key: string): Result<seq<(string, bool)>>
    requires Wf(nodes, state)
  {
    KeysFrom(nodes, state, path, key, Some(key))
  }

  /** GetKeys as intended: every segment indexes the children by its own mapping, as Delete does. */
  function Keys(nodes: IdGraph, state: State, path: seq<(string, string)>, key: string): Result<seq<(string, bool)>>
    requires Wf(nodes, state)
  {
    KeysFrom(nodes, state, path, key, None)
  }

  /** The values of the pairs, in order. */
  function AllValues(ks: seq<(string, bool)>): (r: seq<string>)
    ensures |r| == |ks|
  {
    if |ks| == 0 then [] else [ks[0].0] + AllValues(ks[1..])
  }

  /** The values of the pairs whose deleted flag is deleted, in order. */
  function Select(ks: seq<(string, bool)>, deleted: bool): (r: seq<string>)
    ensures |r| <= |ks|
  {
    if |ks| == 0 then []
    else (if ks[0].1 == deleted then [ks[0].0] else []) + Select(ks[1..], deleted)
  }

  /** Get(path, key, includeDeleted): every value, or only those of ids not deleted. */
  function Get(nodes: IdGraph, state: State, path: seq<(string, string)>, key: string, includeDeleted: bool): Result<seq<string>>
    requires Wf(nodes, state)
  {
    match Keys(nodes, state, path, key)
    case Failure(e) => Failure(e)
    case Success(ks) => Success(if includeDeleted then AllValues(ks) else Select(ks, false))
  }

  /** GetDeleted(path, key): the values of the deleted ids. */
  function GetDeleted(nodes: IdGraph, state: State, path: seq<(string, string)>, key: string): Result<seq<string>>
    requires Wf(nodes, state)
  {
    match Keys(nodes, state, path, key)
    case Failure(e) => Failure(e)
    case Success(ks) => Success(Select(ks, true))
  }

  // ---------------------------------------------------------------------------------
  // Delete: the cascade of IsDeleted over the descendants.

  /** Every child of a node of s is in s. */
  ghost predicate Downward(g: IdGraph, s: set<NodeId>)
  {
    forall x, c :: x in s && x in g && c in AllChildren(g[x]) ==> c in s
  }

  /**
   * s is what IsDeleted = true followed by DeleteChildren marks from t: the least set
   * of the arena that holds t and every child of its members.
   */
  ghost predicate Cascade(g: IdGraph, t: NodeId, s: set<NodeId>)
  {
    t in s && s <= g.Keys && Downward(g, s) &&
    forall u :: u <= g.Keys && t in u && Downward(g, u) ==> s <= u
  }

  /** The arena with every IdModel of s marked deleted. */
  function Marked(g: IdGraph, s: set<NodeId>): IdGraph
  {
    map n | n in g :: if n in s then g[n].(data := g[n].data.(isDeleted := true)) else g[n]
  }

  // ---------------------------------------------------------------------------------
  // Properties

  /** The segments of the path, each an instance of the mapping of the segment under the one before. */
  ghost predicate Along(nodes: IdGraph, state: State, path: seq<(string, string)>, last: Option<NodeId>, ns: seq<NodeId>)
    requires last.Some? ==> last.value in nodes
    decreases |path|
  {
    |ns| == |path| &&
    (|path| > 0 ==>
      ns[0] in nodes && ns[0] in Under(nodes, state, last, path[0].0) && nodes[ns[0]].data.value == path[0].1 &&
      Along(nodes, state, path[1..], Some(ns[0]), ns[1..]))
  }

  /**
   * Resolving an id path: it gives the model at the end of the one chain of ids that
   * carries the path, and no model when there is no such chain.
   */
  lemma ResolveSound(nodes: IdGraph, state: State, path: seq<(string, string)>)
    requires Wf(nodes, state) && |path| > 0
    ensures var r := Resolve(nodes, state, path);
      (r.Success? && r.value.None? ==> forall ns :: !Along(nodes, state, path, None, ns)) &&
      (r.Success? && r.value.Some? ==> exists ns :: Along(nodes, state, path, None, ns) && ns[|ns| - 1] == r.value.value) &&
      (r.Success? && r.value.Some? ==> forall ns, ms :: Along(nodes, state, path, None, ns) && Along(nodes, state, path, None, ms) ==> ns == ms)
  {
    var r := Resolve(nodes, state, path);
    forall ns | Along(nodes, state, path, None, ns)
      ensures r != Success(None)
    {
      AlongFinds(nodes, state, path, None, ns);
    }
    if r.Success? && r.value.Some? {
      var ns := WalkFound(nodes, state, path, None);
      WalkUnique(nodes, state, path, None);
    }
  }

  /** A chain that carries the path keeps the walk from ending without a match. */
  lemma {:induction false} AlongFinds(nodes: IdGraph, state: State, path: seq<(string, string)>, last: Option<NodeId>, ns: seq<NodeId>)
    requires Wf(nodes, state) && (last.Some? ==> last.value in nodes) && |path| > 0
    requires Along(nodes, state, path, last, ns)
    ensures Walk(nodes, state, path, last, None) != Success(None)
    decreases |path|
  {
    var k, v := path[0].0, path[0].1;
    UnderIn(nodes, state, last, k);
    assert ns[0] in WithValue(nodes, Under(nodes, state, last, k), v);
    var s := Step(nodes, state, last, k, k, v);
    if s.Success? {
      StepMatches(nodes, state, last, k, v);
      if |path| > 1 {
        AlongFinds(nodes, state, path[1..], Some(ns[0]), ns[1..]);
      }
    }
  }

  /** The model found ends a chain that carries the path. */
  lemma {:induction false} WalkFound(nodes: IdGraph, state: State, path: seq<(string, string)>, last: Option<NodeId>) returns (ns: seq<NodeId>)
    requires Wf(nodes, state) && (last.Some? ==> last.value in nodes) && |path| > 0
    requires Walk(nodes, state, path, last, None).Success? && Walk(nodes, state, path, last, None).value.Some?
    ensures Along(nodes, state, path, last, ns) && ns[|ns| - 1] == Walk(nodes, state, path, last, None).value.value
    decreases |path|
  {
    var k, v := path[0].0, path[0].1;
    StepMatches(nodes, state, last, k, v);
    var id := Step(nodes, state, last, k, k, v).value.value;
    assert id in WithValue(nodes, Under(nodes, state, last, k), v);
    if |path| == 1 {
      ns := [id];
    } else {
      var rest := WalkFound(nodes, state, path[1..], Some(id));
      ns := [id] + rest;
      assert ns[1..] == rest;
    }
  }

  /** A walk that succeeds leaves at most one chain for the path. */
  lemma {:induction false} WalkUnique(nodes: IdGraph, state: State, path: seq<(string, string)>, last: Option<NodeId>)
    requires Wf(nodes, state) && (last.Some? ==> last.value in nodes) && |path| > 0
    requires Walk(nodes, state, path, last, None).Success? && Walk(nodes, state, path, last, None).value.Some?
    ensures forall ns, ms :: Along(nodes, state, path, last, ns) && Along(nodes, state, path, last, ms) ==> ns == ms
    decreases |path|
  {
    var k, v := path[0].0, path[0].1;
    StepMatches(nodes, state, last, k, v);
    var id := Step(nodes, state, last, k, k, v).value.value;
    var cands := Under(nodes, state, last, k);
    if |path| > 1 {
      WalkUnique(nodes, state, path[1..], Some(id));
    }
    forall ns, ms | Along(nodes, state, path, last, ns) && Along(nodes, state, path, last, ms)
      ensures ns == ms
    {
      assert ns[0] in WithValue(nodes, cands, v) && ms[0] in WithValue(nodes, cands, v);
      if |path| > 1 {
        assert Along(nodes, state, path[1..], Some(id), ns[1..]) && Along(nodes, state, path[1..], Some(id), ms[1..]);
      }
      assert ns == [ns[0]] + ns[1..] && ms == [ms[0]] + ms[1..];
    }
  }

  /** A successful step finds its id among the candidates with value v, and no other. */
  lemma StepMatches(nodes: IdGraph, state: State, last: Option<NodeId>, k: string, v: string)
    requires Wf(nodes, state) && (last.Some? ==> last.value in nodes)
    requires Step(nodes, state, last, k, k, v).Success?
    ensures Under(nodes, state, last, k) <= nodes.Keys
    ensures var r := Step(nodes, state, last, k, k, v).value;
      (r.None? ==> WithValue(nodes, Under(nodes, state, last, k), v) == {}) &&
      (r.Some? ==> WithValue(nodes, Under(nodes, state, last, k), v) == {r.value})
  {
  }

  /** The candidates of a segment are in the arena. */
  lemma UnderIn(nodes: IdGraph, state: State, last: Option<NodeId>, k: string)
    requires Wf(nodes, state) && (last.Some? ==> last.value in nodes)
    ensures Under(nodes, state, last, k) <= nodes.Keys
  {
  }

  /** The values Select keeps: those of the ids with the given deleted flag. */
  lemma {:induction false} SelectPairs(nodes: IdGraph, ids: seq<NodeId>, deleted: bool)
    requires forall i :: i in ids ==> i in nodes
    ensures forall v :: v in Select(Pairs(nodes, ids), deleted) <==>
      exists i :: i in ids && nodes[i].data.value == v && nodes[i].data.isDeleted == deleted
    decreases |ids|
  {
    if |ids| > 0 {
      SelectPairs(nodes, ids[1..], deleted);
      assert Pairs(nodes, ids)[1..] == Pairs(nodes, ids[1..]);
      forall v | exists i :: i in ids && nodes[i].data.value == v && nodes[i].data.isDeleted == deleted
        ensures v in Select(Pairs(nodes, ids), deleted)
      {
        var i :| i in ids && nodes[i].data.value == v && nodes[i].data.isDeleted == deleted;
        if i != ids[0] {
          assert i in ids[1..];
        }
      }
    }
  }

  /** AllValues keeps the value of every id. */
  lemma {:induction false} AllPairs(nodes: IdGraph, ids: seq<NodeId>)
    requires forall i :: i in ids ==> i in nodes
    ensures forall v :: v in AllValues(Pairs(nodes, ids)) <==> exists i :: i in ids && nodes[i].data.value == v
    decreases |ids|
  {
    if |ids| > 0 {
      AllPairs(nodes, ids[1..]);
      assert Pairs(nodes, ids)[1..] == Pairs(nodes, ids[1..]);
      forall v | exists i :: i in ids && nodes[i].data.value == v
        ensures v in AllValues(Pairs(nodes, ids))
      {
        var i :| i in ids && nodes[i].data.value == v;
        if i != ids[0] {
          assert i in ids[1..];
        }
      }
    }
  }

  /** Every value is either kept by Get without deleted ids or by GetDeleted, as often as it occurs. */
  lemma {:induction false} SelectPartition(ks: seq<(string, bool)>)
    ensures multiset(AllValues(ks)) == multiset(Select(ks, false)) + multiset(Select(ks, true))
    decreases |ks|
  {
    if |ks| > 0 {
      SelectPartition(ks[1..]);
    }
  }

  /**
   * Get with deleted ids is the sum of Get without them and GetDeleted; the three
   * fail together, with the exception of GetKeys.
   */
  lemma GetPartition(nodes: IdGraph, state: State, path: seq<(string, string)>, key: string)
    requires Wf(nodes, state)
    ensures Get(nodes, state, path, key, true).Success? <==> Get(nodes, state, path, key, false).Success?
    ensures Get(nodes, state, path, key, true).Success? <==> GetDeleted(nodes, state, path, key).Success?
    ensures Get(nodes, state, path, key, true).Success? ==>
      multiset(Get(nodes, state, path, key, true).value) ==
      multiset(Get(nodes, state, path, key, false).value) + multiset(GetDeleted(nodes, state, path, key).value)
  {
    var ks := Keys(nodes, state, path, key);
    if ks.Success? {
      SelectPartition(ks.value);
    }
  }

  /** With an empty path, Get gives the values of all instances of key, deleted ones only on request. */
  lemma GetEmptyPath(nodes: IdGraph, state: State, key: string, includeDeleted: bool)
    requires Wf(nodes, state)
    ensures Get(nodes, state, [], key, includeDeleted).Success?
    ensures forall v :: v in Get(nodes, state, [], key, includeDeleted).value <==>
      key in state && exists i :: i in state[key] && nodes[i].data.value == v && (includeDeleted || !nodes[i].data.isDeleted)
  {
    if key in state {
      var ids := Orders.Enumerate(state[key]);
      if includeDeleted {
        AllPairs(nodes, ids);
      } else {
        SelectPairs(nodes, ids, false);
      }
    }
  }

  /**
   * With a path that a chain ns of ids carries, Get gives the values of the children
   * under key of the last id of ns; deleted ones only on request.
   */
  lemma GetAlong(nodes: IdGraph, state: State, path: seq<(string, string)>, key: string, includeDeleted: bool, ns: seq<NodeId>)
    requires Wf(nodes, state) && |path| > 0 && Along(nodes, state, path, None, ns)
    requires Get(nodes, state, path, key, includeDeleted).Success?
    ensures ns[|ns| - 1] in nodes
    ensures forall v :: v in Get(nodes, state, path, key, includeDeleted).value <==>
      exists i :: i in ChildrenUnder(nodes[ns[|ns| - 1]], key) && i in nodes &&
        nodes[i].data.value == v && (includeDeleted || !nodes[i].data.isDeleted)
  {
    ResolveSound(nodes, state, path);
    var n := Resolve(nodes, state, path).value.value;
    var ms :| Along(nodes, state, path, None, ms) && ms[|ms| - 1] == n;
    assert ns == ms;
    var g := nodes[n];
    var ids := Orders.Enumerate(g.children[key]);
    assert forall i :: i in ids ==> i in nodes;
    if includeDeleted {
      AllPairs(nodes, ids);
    } else {
      SelectPairs(nodes, ids, false);
    }
  }

  /** GetDeleted along a chain: the values of the deleted children under key of its last id. */
  lemma GetDeletedAlong(nodes: IdGraph, state: State, path: seq<(string, string)>, key: string, ns: seq<NodeId>)
    requires Wf(nodes, state) && |path| > 0 && Along(nodes, state, path, None, ns)
    requires GetDeleted(nodes, state, path, key).Success?
    ensures ns[|ns| - 1] in nodes
    ensures forall v :: v in GetDeleted(nodes, state, path, key).value <==>
      exists i :: i in ChildrenUnder(nodes[ns[|ns| - 1]], key) && i in nodes && nodes[i].data.value == v && nodes[i].data.isDeleted
  {
    ResolveSound(nodes, state, path);
    var n := Resolve(nodes, state, path).value.value;
    var ms :| Along(nodes, state, path, None, ms) && ms[|ms| - 1] == n;
    assert ns == ms;
    var ids := Orders.Enumerate(nodes[n].children[key]);
    assert forall i :: i in ids ==> i in nodes;
    SelectPairs(nodes, ids, true);
  }

  /** A house with a room with a window: ids 0, 1 and 2, each linked to the next. */
  function HouseRoomWindow(): IdGraph
  {
    map[
      0 := Node("house:id", false, map[], map["room:id" := {1}], IdData("45", false)),
      1 := Node("room:id", false, map["house:id" := 0], map["window:id" := {2}], IdData("6", false)),
      2 := Node("window:id", false, map["room:id" := 1], map[], IdData("5", false))]
  }

  function HouseRoomWindowState(): State
  {
    map["house:id" := {0}, "room:id" := {1}, "window:id" := {2}]
  }

  /**
   * GetKeys([(house, 45), (room, 6)], window) as written looks for the room among
   * the house's children under the window mapping, and throws; as intended it
   * finds the window 5.
   */
  lemma KeysAsWrittenFails()
    ensures Wf(HouseRoomWindow(), HouseRoomWindowState()) && Keyed(HouseRoomWindow())
    ensures KeysAsWritten(HouseRoomWindow(), HouseRoomWindowState(), [("house:id", "45"), ("room:id", "6")], "window:id") == Failure(KeyNotFound)
    ensures Keys(HouseRoomWindow(), HouseRoomWindowState(), [("house:id", "45"), ("room:id", "6")], "window:id") == Success([("5", false)])
  {
    var g, st := HouseRoomWindow(), HouseRoomWindowState();
    var path := [("house:id", "45"), ("room:id", "6")];
    HouseRoomWindowWf();
    HouseFound(g, st);
    assert path[1..] == [("room:id", "6")] && path[1..][1..] == [];
    assert "window:id" !in g[0].children;
    assert Walk(g, st, path[1..], Some(0), Some("window:id")) == Failure(KeyNotFound);
    RoomFound(g, st);
    assert Walk(g, st, path[1..][1..], Some(1), None) == Success(Some(1));
    assert Walk(g, st, path, None, None) == Success(Some(1));
    var ids := Orders.Enumerate({2});
    assert ids[0] in {2};
    assert ids == [2];
    assert g[1].children["window:id"] == {2};
    assert Pairs(g, ids) == [(g[2].data.value, g[2].data.isDeleted)];
  }

  lemma HouseRoomWindowWf()
    ensures Wf(HouseRoomWindow(), HouseRoomWindowState()) && Keyed(HouseRoomWindow())
  {
    var g, st := HouseRoomWindow(), HouseRoomWindowState();
    HouseRoomWindowClosed();
    forall m | m in st
      ensures st[m] <= g.Keys && forall n :: n in st[m] ==> g[n].mapping == m
    {
      HouseRoomWindowEntry(m);
    }
  }

  /** The instances of each mapping of HouseRoomWindowState. */
  lemma HouseRoomWindowEntry(m: string)
    requires m in HouseRoomWindowState()
    ensures var g, st := HouseRoomWindow(), HouseRoomWindowState();
      (st[m] == {0} && g[0].mapping == m) || (st[m] == {1} && g[1].mapping == m) || (st[m] == {2} && g[2].mapping == m)
  {
  }

  lemma HouseRoomWindowClosed()
    ensures Closed(HouseRoomWindow()) && Keyed(HouseRoomWindow())
  {
    var g := HouseRoomWindow();
    assert g.Keys == {0, 1, 2};
    forall n | n in g
      ensures (forall m :: m in g[n].parents ==> g[n].parents[m] in g) &&
              (forall m :: m in g[n].children ==> g[n].children[m] <= g.Keys)
    {
      HouseRoomWindowNode(n);
    }
    forall n, k, x | n in g && k in g[n].children && x in g[n].children[k] && x in g
      ensures g[x].mapping == k
    {
      HouseRoomWindowNode(n);
    }
    forall n, k | n in g && k in g[n].parents && g[n].parents[k] in g
      ensures g[g[n].parents[k]].mapping == k
    {
      HouseRoomWindowNode(n);
    }
  }

  /** The edges of each node of HouseRoomWindow. */
  lemma HouseRoomWindowNode(n: NodeId)
    requires n in HouseRoomWindow()
    ensures var g := HouseRoomWindow();
      (n == 0 && g[0].parents == map[] && g[0].children == map["room:id" := {1}] && g[1].mapping == "room:id") ||
      (n == 1 && g[1].parents == map["house:id" := 0] && g[1].children == map["window:id" := {2}] && g[0].mapping == "house:id" && g[2].mapping == "window:id") ||
      (n == 2 && g[2].parents == map["room:id" := 1] && g[2].children == map[] && g[1].mapping == "room:id")
  {
  }

  /** The first segment finds the house among the instances of its mapping. */
  lemma HouseFound(g: IdGraph, st: State)
    requires g == HouseRoomWindow() && st == HouseRoomWindowState() && Wf(g, st)
    ensures forall ck :: Step(g, st, None, ck, "house:id", "45") == Success(Some(0))
  {
    assert WithValue(g, {0}, "45") == {0};
  }

  /** The second segment, under its own mapping, finds the room among the house's children. */
  lemma RoomFound(g: IdGraph, st: State)
    requires g == HouseRoomWindow() && st == HouseRoomWindowState() && Wf(g, st)
    ensures Step(g, st, Some(0), "room:id", "room:id", "6") == Success(Some(1))
  {
    assert g[0].children["room:id"] == {1};
    assert WithValue(g, {1}, "6") == {1};
  }

  /** The cascade from t is one set, whatever order the recursion takes. */
  lemma CascadeUnique(g: IdGraph, t: NodeId, s1: set<NodeId>, s2: set<NodeId>)
    requires Cascade(g, t, s1) && Cascade(g, t, s2)
    ensures s1 == s2
  {
    assert s1 <= s2 && s2 <= s1;
  }

  /**
   * DeleteChildren as written, which keeps no record of the nodes it has visited:
   * the recursion from t returns within depth nested calls, that is, every chain of
   * child edges from t is shorter than depth.
   */
  ghost predicate DeleteChildrenReturns(g: IdGraph, t: NodeId, depth: nat)
    decreases depth
  {
    t in g && depth > 0 &&
    forall c :: c in AllChildren(g[t]) ==> DeleteChildrenReturns(g, c, depth - 1)
  }

  /** On a node that is its own child, DeleteChildren as written never returns, however deep the stack. */
  lemma {:induction false} SelfChildNeverReturns(g: IdGraph, t: NodeId, depth: nat)
    requires t in g && t in AllChildren(g[t])
    ensures !DeleteChildrenReturns(g, t, depth)
  {
    if depth > 0 {
      SelfChildNeverReturns(g, t, depth - 1);
    }
  }

  /** A room under a pet and a house, ids 0, 1 and 2. */
  function PetHouseRoom(): IdGraph
  {
    map[
      0 := Node("pets:id", false, map[], map["room:id" := {2}], IdData("123", false)),
      1 := Node("house:id", false, map[], map["room:id" := {2}], IdData("45", false)),
      2 := Node("room:id", false, map["pets:id" := 0, "house:id" := 1], map[], IdData("6", false))]
  }

  /**
   * Deleting the pet marks the pet and the room it shares with the house, and
   * leaves the house as it was.
   */
  lemma DeleteOneParent(s: set<NodeId>)
    requires Cascade(PetHouseRoom(), 0, s)
    ensures s == {0, 2}
    ensures var h := Marked(PetHouseRoom(), s);
      h[0].data.isDeleted && h[2].data.isDeleted && h[1] == PetHouseRoom()[1]
  {
    var g := PetHouseRoom();
    assert "room:id" in g[0].children && 2 in g[0].children["room:id"];
    assert 2 in AllChildren(g[0]);
    assert g[2].children == map[];
    assert Downward(g, {0, 2}) by {
      forall x, c | x in {0, 2} && x in g && c in AllChildren(g[x]) ensures c in {0, 2}
      {
        var m :| m in g[x].children && c in g[x].children[m];
      }
    }
    assert 2 in s;
  }

  /** Marking changes only deleted flags: the invariants of the arena stay. */
  lemma MarkedKeeps(g: IdGraph, state: State, s: set<NodeId>)
    requires Wf(g, state) && Keyed(g)
    ensures Marked(g, s).Keys == g.Keys && Wf(Marked(g, s), state) && Keyed(Marked(g, s))
    ensures forall n :: n in g ==>
      Marked(g, s)[n].mapping == g[n].mapping && Marked(g, s)[n].parents == g[n].parents &&
      Marked(g, s)[n].children == g[n].children && Marked(g, s)[n].data.value == g[n].data.value
  {
  }

  /** Marking one more IdModel x. */
  lemma MarkOne(g: IdGraph, marked: set<NodeId>, x: NodeId, h: IdGraph)
    requires h == Marked(g, marked) && x in g && x !in marked
    ensures x in h && h[x := h[x].(data := h[x].data.(isDeleted := true))] == Marked(g, marked + {x})
  {
    var h' := h[x := h[x].(data := h[x].data.(isDeleted := true))];
    assert forall n :: n in g ==> h'[n] == Marked(g, marked + {x})[n];
  }

  /** Every set that holds t and is closed under children holds x's children once it holds x. */
  lemma CascadeStep(g: IdGraph, t: NodeId, marked: set<NodeId>, work: set<NodeId>, x: NodeId)
    requires x in work && x in g
    requires forall u :: u <= g.Keys && t in u && Downward(g, u) ==> marked + work <= u
    ensures forall u :: u <= g.Keys && t in u && Downward(g, u) ==>
      (marked + {x}) + ((work - {x}) + (AllChildren(g[x]) - (marked + {x}))) <= u
  {
  }
}
