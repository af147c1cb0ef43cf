/**
 * The three oracles (ObST.Tester/Domain/Operation/OnExistingResourceOperation.cs,
 * OnUnknownResourceOperation.cs and OnDeletedResourceOperation.cs): the generator
 * options each derives from the identity model, and the status code each expects.
 * An option is modelled by its entries; the loops that fill it are the loops of
 * the source.
 */
module Oracles {
  import opened Wrappers
  import opened Links
  import opened TestModels
  import B = Bindings
  import Queries
  import opened Values
  import opened GeneratorOptions
  import opened CoreModels
  import opened FastFail
  import Orders
  import Text
  import Domain

  datatype OracleKind = OnExisting | OnUnknown | OnDeleted

  // ---------------------------------------------------------------------------------
  // Option entries

  /** LINQ Except: the elements of xs that are not in ys, each once, in order of first appearance. */
  function Except(xs: seq<NodeId>, ys: seq<NodeId>): (r: seq<NodeId>)
    ensures forall x :: x in r <==> x in xs && x !in ys
    ensures forall i, j :: 0 <= i < j < |r| ==> r[i] != r[j]
  {
    ExceptSeen(xs, ys, {})
  }

  function ExceptSeen(xs: seq<NodeId>, ys: seq<NodeId>, seen: set<NodeId>): (r: seq<NodeId>)
    ensures forall x :: x in r <==> x in xs && x !in ys && x !in seen
    ensures forall i, j :: 0 <= i < j < |r| ==> r[i] != r[j]
  {
    if xs == [] then []
    else if xs[0] in ys || xs[0] in seen then ExceptSeen(xs[1..], ys, seen)
    else [xs[0]] + ExceptSeen(xs[1..], ys, seen + {xs[0]})
  }

  /** The mode of a parameter that is not a need: RequireUnknown for a self-reference, else Random. */
  function DefaultMode(t: ParameterType): GeneratorMode
  {
    if HasFlag(t, SelfReference) then RequireUnknown else Random
  }

  /** The baseOpt.Add calls for the parameters xs. */
  function BaseAdds(g: ParamGraph, xs: seq<NodeId>): (r: Entries)
    requires forall x :: x in xs ==> x in g
    ensures |r| == |xs|
    ensures forall i :: 0 <= i < |xs| ==> r[i] == (g[xs[i]].mapping, (DefaultMode(g[xs[i]].data.parameterType), None))
  {
    if xs == [] then [] else [(g[xs[0]].mapping, (DefaultMode(g[xs[0]].data.parameterType), None))] + BaseAdds(g, xs[1..])
  }

  /** The option.Add calls of the unknown oracle: RequireUnknown for a need, Random otherwise. */
  function UnknownAdds(g: ParamGraph, ups: seq<NodeId>, needs: seq<NodeId>): (r: Entries)
    requires forall x :: x in ups ==> x in g
    ensures |r| == |ups|
    ensures forall i :: 0 <= i < |ups| ==>
      r[i] == (g[ups[i]].mapping, (if ups[i] in needs then RequireUnknown else Random, None))
  {
    if ups == [] then []
    else [(g[ups[0]].mapping, (if ups[0] in needs then RequireUnknown else Random, None))] + UnknownAdds(g, ups[1..], needs)
  }

  /** The value of a binding as a constant; a null binding gives a null constant. */
  function Constant(e: B.Entry): Option<Value>
  {
    if e.value.Some? then Some(Str(e.value.value)) else None
  }

  /** The option.AddConstant calls for a binding, one per mapping in the binding's key order. */
  function ConstantAdds(b: B.Binding): Entries
  {
    ConstantsOf(b, Orders.SortStrings(b.Keys))
  }

  function ConstantsOf(b: B.Binding, ks: seq<string>): (r: Entries)
    requires forall k :: k in ks ==> k in b
    ensures |r| == |ks|
    ensures forall i :: 0 <= i < |ks| ==> r[i] == (ks[i], (UseConstant, Constant(b[ks[i]])))
  {
    if ks == [] then [] else [(ks[0], (UseConstant, Constant(b[ks[0]])))] + ConstantsOf(b, ks[1..])
  }

  // ---------------------------------------------------------------------------------
  // Which subsets an oracle keeps

  /** The existing oracle's Where: no id of the subset is deleted. */
  predicate NoneDeleted(b: B.Binding)
  {
    forall k :: k in b ==> !b[k].deleted
  }

  /** The deleted oracle's Where: some deleted id is bound to a need in the resource identifier. */
  predicate DeletedIdentifier(g: ParamGraph, needs: seq<NodeId>, b: B.Binding)
    requires forall x :: x in needs ==> x in g
  {
    exists k, n :: k in b && b[k].deleted && n in needs && g[n].data.isInResourceIdentifier && g[n].mapping == k
  }

  predicate Keep(kind: OracleKind, g: ParamGraph, needs: seq<NodeId>, b: B.Binding)
    requires forall x :: x in needs ==> x in g
  {
    match kind
    case OnExisting => NoneDeleted(b)
    case OnDeleted => DeletedIdentifier(g, needs, b)
    case OnUnknown => true
  }

  /** The subsets an oracle keeps, in order. */
  function Kept(kind: OracleKind, g: ParamGraph, needs: seq<NodeId>, bs: seq<B.Binding>): (r: seq<B.Binding>)
    requires forall x :: x in needs ==> x in g
    ensures forall b :: b in r <==> b in bs && Keep(kind, g, needs, b)
  {
    if bs == [] then []
    else
      var rest := Kept(kind, g, needs, bs[..|bs| - 1]);
      assert bs == bs[..|bs| - 1] + [bs[|bs| - 1]];
      if Keep(kind, g, needs, bs[|bs| - 1]) then rest + [bs[|bs| - 1]] else rest
  }

  /** The Select: a copy of the base option with the constants of each subset added. */
  function Tries(base: Entries, bs: seq<B.Binding>): (r: seq<Result<Entries>>)
    ensures |r| == |bs|
  {
    seq(|bs|, j requires 0 <= j < |bs| => AddAll(base, ConstantAdds(bs[j])))
  }

  /** The ToList: every value, in order, unless one of them threw; the first exception ends it. */
  function Collect<T>(rs: seq<Result<T>>): Result<seq<T>>
  {
    if rs == [] then Success([])
    else
      match Collect(rs[..|rs| - 1])
      case Failure(e) => Failure(e)
      case Success(os) =>
        match rs[|rs| - 1]
        case Failure(e) => Failure(e)
        case Success(o) => Success(os + [o])
  }

  /**
   * The Select and ToList: a copy of the base option with the constants of each
   * kept subset added; the first ArgumentException ends it.
   */
  function OptionsOf(base: Entries, bs: seq<B.Binding>): Result<seq<Entries>>
  {
    Collect(Tries(base, bs))
  }

  /**
   * GetGeneratorOptions(model) of each oracle, given the subsets
   * GetMatchingIdSubset(needs) returns.
   */
  function Options(kind: OracleKind, op: SutOperation, subsets: seq<B.Binding>): Result<seq<Entries>>
    requires op.Valid()
  {
    var g := op.params;
    var needs := op.GetNeeds();
    match kind
    case OnUnknown =>
      if needs == [] then Success([])
      else
        (match AddAll([], UnknownAdds(g, op.uniqueParameters, needs))
         case Failure(e) => Failure(e)
         case Success(o) => Success([o]))
    case _ =>
      match AddAll([], BaseAdds(g, Except(op.uniqueParameters, needs)))
      case Failure(e) => Failure(e)
      case Success(base) =>
        if needs == [] then (if kind == OnExisting then Success([base]) else Success([]))
        else OptionsOf(base, Kept(kind, g, needs, subsets))
  }

  /** The options an oracle offers for a model. */
  function OptionsSpec(kind: OracleKind, op: SutOperation, nodes: IdGraph, state: State): Result<seq<Entries>>
    requires op.Valid() && Wf(nodes, state)
  {
    NeedsIn(op);
    Options(kind, op, if op.GetNeeds() == [] then [] else Queries.MatchingSubset(op.params, nodes, state, op.GetNeeds()))
  }

  lemma NeedsIn(op: SutOperation)
    requires op.Valid()
    ensures forall x :: x in op.GetNeeds() ==> x in op.params
    ensures forall x :: x in op.uniqueParameters ==> x in op.params
  {
  }

  // ---------------------------------------------------------------------------------
  // The loops

  /** A foreach of Add or AddConstant calls over a fresh or copied option. */
  method Fill(es: Entries, adds: Entries) returns (r: Result<Entries>)
    ensures r == AddAll(es, adds)
  {
    var cur := es;
    for i := 0 to |adds|
      invariant AddAll(cur, adds[i..]) == AddAll(es, adds)
    {
      assert adds[i..][1..] == adds[i + 1..];
      var next := AddEntry(cur, adds[i].0, adds[i].1);
      if next.Failure? {
        return Failure(next.error);
      }
      cur := next.value;
    }
    assert adds[|adds|..] == [];
    r := Success(cur);
  }

  /** The Where, Select and ToList over the subsets GetMatchingIdSubset returned. */
  method FillEach(kind: OracleKind, g: ParamGraph, needs: seq<NodeId>, base: Entries, subsets: seq<B.Binding>)
    returns (r: Result<seq<Entries>>)
    requires forall x :: x in needs ==> x in g
    ensures r == OptionsOf(base, Kept(kind, g, needs, subsets))
  {
    var os: seq<Entries> := [];
    for i := 0 to |subsets|
      invariant OptionsOf(base, Kept(kind, g, needs, subsets[..i])) == Success(os)
    {
      var b := subsets[i];
      KeptStep(kind, g, needs, subsets, i);
      if !Keep(kind, g, needs, b) {
        continue;
      }
      var o := Fill(base, ConstantAdds(b));
      OptionsOfStep(base, Kept(kind, g, needs, subsets[..i]), b);
      if o.Failure? {
        KeptPrefixFails(kind, g, needs, base, subsets, i + 1, o.error);
        return Failure(o.error);
      }
      os := os + [o.value];
    }
    assert subsets[..|subsets|] == subsets;
    r := Success(os);
  }

  lemma KeptStep(kind: OracleKind, g: ParamGraph, needs: seq<NodeId>, bs: seq<B.Binding>, i: nat)
    requires forall x :: x in needs ==> x in g
    requires i < |bs|
    ensures Keep(kind, g, needs, bs[i]) ==> Kept(kind, g, needs, bs[..i + 1]) == Kept(kind, g, needs, bs[..i]) + [bs[i]]
    ensures !Keep(kind, g, needs, bs[i]) ==> Kept(kind, g, needs, bs[..i + 1]) == Kept(kind, g, needs, bs[..i])
  {
    assert bs[..i + 1][..i] == bs[..i];
  }

  lemma OptionsOfStep(base: Entries, ks: seq<B.Binding>, b: B.Binding)
    ensures OptionsOf(base, ks).Success? && AddAll(base, ConstantAdds(b)).Success? ==>
      OptionsOf(base, ks + [b]) == Success(OptionsOf(base, ks).value + [AddAll(base, ConstantAdds(b)).value])
    ensures OptionsOf(base, ks).Success? && AddAll(base, ConstantAdds(b)).Failure? ==>
      OptionsOf(base, ks + [b]) == Failure(AddAll(base, ConstantAdds(b)).error)
    ensures OptionsOf(base, ks).Failure? ==> OptionsOf(base, ks + [b]) == OptionsOf(base, ks)
  {
    assert (ks + [b])[..|ks|] == ks;
    var ts := Tries(base, ks + [b]);
    assert ts[..|ts| - 1] == Tries(base, ks);
  }

  /** The values of a ToList are the values of its elements, when none threw. */
  lemma {:induction false} CollectEach<T>(rs: seq<Result<T>>)
    ensures Collect(rs).Success? <==> forall j :: 0 <= j < |rs| ==> rs[j].Success?
    ensures Collect(rs).Success? ==> (|Collect(rs).value| == |rs| &&
      forall j :: 0 <= j < |rs| ==> Collect(rs).value[j] == rs[j].value)
  {
    if rs != [] {
      var init := rs[..|rs| - 1];
      CollectEach(init);
      assert forall j :: 0 <= j < |init| ==> init[j] == rs[j];
    }
  }

  /** Once the options of a prefix fail, those of the whole list fail with the same exception. */
  lemma {:induction false} KeptPrefixFails(kind: OracleKind, g: ParamGraph, needs: seq<NodeId>, base: Entries,
                                           bs: seq<B.Binding>, n: nat, e: Exception)
    requires forall x :: x in needs ==> x in g
    requires n <= |bs| && OptionsOf(base, Kept(kind, g, needs, bs[..n])) == Failure(e)
    ensures OptionsOf(base, Kept(kind, g, needs, bs)) == Failure(e)
    decreases |bs| - n
  {
    if n == |bs| {
      assert bs[..n] == bs;
    } else {
      var p := bs[..n + 1];
      assert p[..|p| - 1] == bs[..n];
      var kp := Kept(kind, g, needs, p);
      if kp != Kept(kind, g, needs, bs[..n]) {
        assert kp == Kept(kind, g, needs, bs[..n]) + [bs[n]];
        OptionsOfStep(base, Kept(kind, g, needs, bs[..n]), bs[n]);
      }
      KeptPrefixFails(kind, g, needs, base, bs, n + 1, e);
    }
  }

  /**
   * GetGeneratorOptions(model): the base option from the parameters that are not
   * needs, then one option per kept subset of GetMatchingIdSubset(needs); the
   * unknown oracle makes its single option from all unique parameters.
   */
  method GetGeneratorOptions(kind: OracleKind, op: SutOperation, model: Domain.TestModel) returns (r: Result<seq<Entries>>)
    requires op.Valid() && model.Valid()
    ensures r == OptionsSpec(kind, op, model.nodes, model.state)
  {
    NeedsIn(op);
    var g := op.params;
    var needs := op.GetNeeds();
    if kind == OnUnknown {
      if needs == [] {
        return Success([]);
      }
      var o := Fill([], UnknownAdds(g, op.uniqueParameters, needs));
      if o.Failure? {
        return Failure(o.error);
      }
      return Success([o.value]);
    }
    var base := Fill([], BaseAdds(g, Except(op.uniqueParameters, needs)));
    if base.Failure? {
      return Failure(base.error);
    }
    if needs == [] {
      return if kind == OnExisting then Success([base.value]) else Success([]);
    }
    var subsets := model.GetMatchingIdSubset(g, needs);
    r := FillEach(kind, g, needs, base.value, subsets);
  }

  // ---------------------------------------------------------------------------------
  // Properties of the options

  /** Appending entries with new, distinct keys keeps the keys distinct. */
  lemma DistinctAppend(es: Entries, adds: Entries)
    requires DistinctKeys(es) && DistinctKeys(adds) && Keys(es) !! Keys(adds)
    ensures DistinctKeys(es + adds)
  {
    var all := es + adds;
    forall i, j | 0 <= i < j < |all| ensures all[i].0 != all[j].0
    {
      if j >= |es| && i < |es| {
        assert all[i] == es[i] && all[j] == adds[j - |es|];
        assert all[i].0 in Keys(es) && all[j].0 in Keys(adds);
      } else if i >= |es| {
        assert all[i] == adds[i - |es|] && all[j] == adds[j - |es|];
      }
    }
  }

  /** Adding entries to an option with distinct keys: every old entry and every added one is found. */
  lemma AppendedOption(base: Entries, adds: Entries)
    requires DistinctKeys(base) && AddAll(base, adds).Success?
    ensures AddAll(base, adds).value == base + adds && DistinctKeys(base + adds)
    ensures forall i :: 0 <= i < |adds| ==> Lookup(base + adds, adds[i].0) == Some(adds[i].1)
    ensures forall i :: 0 <= i < |base| ==> Lookup(base + adds, base[i].0) == Some(base[i].1)
  {
    AddAllAppends(base, adds);
    var o := base + adds;
    DistinctAppend(base, adds);
    forall i | 0 <= i < |adds| ensures Lookup(o, adds[i].0) == Some(adds[i].1)
    {
      assert o[|base| + i] == adds[i];
      LookupAt(o, |base| + i);
    }
    forall i | 0 <= i < |base| ensures Lookup(o, base[i].0) == Some(base[i].1)
    {
      assert o[i] == base[i];
      LookupAt(o, i);
    }
  }

  /** Where AddConstant puts the mapping k of a binding. */
  lemma ConstantAddsAt(b: B.Binding, k: string) returns (i: nat)
    requires k in b
    ensures i < |ConstantAdds(b)| && ConstantAdds(b)[i] == (k, (UseConstant, Constant(b[k])))
  {
    var ks := Orders.SortStrings(b.Keys);
    i :| 0 <= i < |ks| && ks[i] == k;
  }

  /**
   * A copy of an option with the constants of a binding added binds each mapping of
   * the binding with UseConstant to its value, and keeps every entry of the copy.
   */
  /** Every mapping of the binding is bound with UseConstant to its value. */
  predicate BindsConstants(o: Entries, b: B.Binding)
  {
    forall k :: k in b ==> Lookup(o, k) == Some((UseConstant, Constant(b[k])))
  }

  /** Every parameter of xs is bound by its mapping to its default mode, with no constant. */
  predicate BindsDefaults(o: Entries, params: ParamGraph, xs: seq<NodeId>)
    requires forall x :: x in xs ==> x in params
  {
    forall i :: 0 <= i < |xs| ==>
      Lookup(o, params[xs[i]].mapping) == Some((DefaultMode(params[xs[i]].data.parameterType), None))
  }

  lemma ConstantOption(base: Entries, b: B.Binding, o: Entries)
    requires DistinctKeys(base) && AddAll(base, ConstantAdds(b)) == Success(o)
    ensures DistinctKeys(o)
    ensures forall k :: k in b ==> Lookup(o, k) == Some((UseConstant, Constant(b[k])))
    ensures forall i :: 0 <= i < |base| ==> Lookup(o, base[i].0) == Some(base[i].1)
  {
    var adds := ConstantAdds(b);
    assert o == base + adds && DistinctKeys(base + adds) &&
      (forall i :: 0 <= i < |adds| ==> Lookup(o, adds[i].0) == Some(adds[i].1)) by {
      AppendedOption(base, adds);
    }
    forall k | k in b ensures Lookup(o, k) == Some((UseConstant, Constant(b[k])))
    {
      var i := ConstantAddsAt(b, k);
    }
    AppendedOption(base, adds);
  }

  /** The options of a list of subsets, when none threw, are the copies with each subset's constants, in order. */
  lemma OptionAt(base: Entries, bs: seq<B.Binding>, j: nat)
    requires OptionsOf(base, bs).Success? && j < |bs|
    ensures |OptionsOf(base, bs).value| == |bs|
    ensures AddAll(base, ConstantAdds(bs[j])).Success?
    ensures OptionsOf(base, bs).value[j] == AddAll(base, ConstantAdds(bs[j])).value
  {
    CollectEach(Tries(base, bs));
    assert Tries(base, bs)[j] == AddAll(base, ConstantAdds(bs[j]));
  }

  /** One subset whose constants clash with the base option makes the whole call throw. */
  lemma OptionFails(base: Entries, bs: seq<B.Binding>, j: nat)
    requires j < |bs| && AddAll(base, ConstantAdds(bs[j])).Failure?
    ensures OptionsOf(base, bs).Failure?
  {
    CollectEach(Tries(base, bs));
    assert Tries(base, bs)[j] == AddAll(base, ConstantAdds(bs[j]));
  }

  /** Building an option from no entries fails exactly when two of the adds share a key. */
  lemma FreshOption(adds: Entries)
    ensures AddAll([], adds).Success? <==> DistinctKeys(adds)
    ensures AddAll([], adds).Success? ==> AddAll([], adds).value == adds
    ensures AddAll([], adds).Failure? ==> AddAll([], adds).error == Argument
  {
    AddAllAppends([], adds);
    assert [] + adds == adds;
  }

  /**
   * The base option of the existing and deleted oracles holds the parameters that
   * are not needs. It fails with ArgumentException exactly when two of them share a
   * mapping.
   */
  lemma BaseClash(op: SutOperation)
    requires op.Valid()
    ensures var xs := Except(op.uniqueParameters, op.GetNeeds());
      AddAll([], BaseAdds(op.params, xs)).Failure? <==>
        exists i, j :: 0 <= i < j < |xs| && op.params[xs[i]].mapping == op.params[xs[j]].mapping
    ensures var base := AddAll([], BaseAdds(op.params, Except(op.uniqueParameters, op.GetNeeds())));
      base.Failure? ==> base.error == Argument
  {
    NeedsIn(op);
    var xs := Except(op.uniqueParameters, op.GetNeeds());
    var adds := BaseAdds(op.params, xs);
    FreshOption(adds);
    assert forall i :: 0 <= i < |xs| ==> adds[i].0 == op.params[xs[i]].mapping;
  }

  /** When it succeeds, the base option gives each of them its default mode with a null constant. */
  lemma BaseOption(op: SutOperation)
    requires op.Valid()
    ensures var xs := Except(op.uniqueParameters, op.GetNeeds());
      var base := AddAll([], BaseAdds(op.params, xs));
      base.Success? ==> (|base.value| == |xs| &&
        forall i :: 0 <= i < |xs| ==>
          Lookup(base.value, op.params[xs[i]].mapping) == Some((DefaultMode(op.params[xs[i]].data.parameterType), None)))
  {
    NeedsIn(op);
    var xs := Except(op.uniqueParameters, op.GetNeeds());
    var adds := BaseAdds(op.params, xs);
    FreshOption(adds);
    if DistinctKeys(adds) {
      forall i | 0 <= i < |xs|
        ensures Lookup(adds, op.params[xs[i]].mapping) == Some((DefaultMode(op.params[xs[i]].data.parameterType), None))
      {
        LookupAt(adds, i);
      }
    }
  }

  /** With no needs the existing oracle offers exactly the base option, whatever the model. */
  lemma ExistingWithoutNeeds(op: SutOperation, subsets: seq<B.Binding>)
    requires op.Valid() && op.GetNeeds() == []
    ensures var r := Options(OnExisting, op, subsets);
      r.Success? ==> r.value == [AddAll([], BaseAdds(op.params, Except(op.uniqueParameters, []))).value]
    ensures var r := Options(OnExisting, op, subsets);
      r.Success? ==> forall i :: 0 <= i < |op.uniqueParameters| ==>
        Lookup(r.value[0], op.params[op.uniqueParameters[i]].mapping) ==
          Some((DefaultMode(op.params[op.uniqueParameters[i]].data.parameterType), None))
  {
    NeedsIn(op);
    BaseOption(op);
    var ups := op.uniqueParameters;
    var xs := Except(ups, []);
    forall i | 0 <= i < |ups| ensures exists j :: 0 <= j < |xs| && xs[j] == ups[i]
    {
      assert ups[i] in xs;
    }
  }

  /** With no needs the deleted and unknown oracles offer no option. */
  lemma NoNeedsNoOptions(kind: OracleKind, op: SutOperation, subsets: seq<B.Binding>)
    requires op.Valid() && op.GetNeeds() == [] && kind != OnExisting
    ensures Options(kind, op, subsets).Success? ==> Options(kind, op, subsets).value == []
    ensures kind == OnUnknown ==> Options(kind, op, subsets) == Success([])
  {
  }

  /**
   * Otherwise the unknown oracle offers one option, whatever the model: one entry per
   * unique parameter, RequireUnknown for a need and Random for the rest.
   */
  lemma UnknownSingleOption(op: SutOperation, subsets: seq<B.Binding>, other: seq<B.Binding>)
    requires op.Valid() && op.GetNeeds() != []
    ensures Options(OnUnknown, op, subsets) == Options(OnUnknown, op, other)
    ensures var r := Options(OnUnknown, op, subsets);
      r.Success? ==> (|r.value| == 1 && |r.value[0]| == |op.uniqueParameters| &&
        forall i :: 0 <= i < |op.uniqueParameters| ==>
          Lookup(r.value[0], op.params[op.uniqueParameters[i]].mapping) ==
            Some((if op.uniqueParameters[i] in op.GetNeeds() then RequireUnknown else Random, None)))
  {
    NeedsIn(op);
    var adds := UnknownAdds(op.params, op.uniqueParameters, op.GetNeeds());
    FreshOption(adds);
    if DistinctKeys(adds) {
      forall i | 0 <= i < |op.uniqueParameters|
        ensures Lookup(adds, op.params[op.uniqueParameters[i]].mapping) ==
          Some((if op.uniqueParameters[i] in op.GetNeeds() then RequireUnknown else Random, None))
      {
        LookupAt(adds, i);
      }
    }
  }

  /**
   * With needs, the existing and deleted oracles offer one option per subset they
   * keep, in order: the base option with that subset's constants added. Each binds
   * every mapping of its subset with UseConstant to the subset's value and keeps
   * the defaults of the base option, so a subset's pairs are never crossed with
   * another's. The existing oracle keeps the subsets without a deleted id, the
   * deleted oracle those with a deleted id of a need in the resource identifier.
   */
  lemma KeptOption(kind: OracleKind, op: SutOperation, subsets: seq<B.Binding>, j: nat)
    requires op.Valid() && op.GetNeeds() != [] && kind != OnUnknown
    requires Options(kind, op, subsets).Success? && j < |Options(kind, op, subsets).value|
    ensures var kept := Kept(kind, op.params, op.GetNeeds(), subsets);
      |Options(kind, op, subsets).value| == |kept| && kept[j] in subsets && Keep(kind, op.params, op.GetNeeds(), kept[j])
    ensures var o := Options(kind, op, subsets).value[j];
      var kept := Kept(kind, op.params, op.GetNeeds(), subsets);
      var xs := Except(op.uniqueParameters, op.GetNeeds());
      BindsConstants(o, kept[j]) && BindsDefaults(o, op.params, xs)
  {
    NeedsIn(op);
    var xs := Except(op.uniqueParameters, op.GetNeeds());
    var adds := BaseAdds(op.params, xs);
    var kept := Kept(kind, op.params, op.GetNeeds(), subsets);
    KeptOptionAdds(kind, op, subsets, j);
    var o := Options(kind, op, subsets).value[j];
    ConstantOption(adds, kept[j], o);
    assert BindsConstants(o, kept[j]);
    forall i | 0 <= i < |xs|
      ensures Lookup(o, op.params[xs[i]].mapping) == Some((DefaultMode(op.params[xs[i]].data.parameterType), None))
    {
      assert adds[i] == (op.params[xs[i]].mapping, (DefaultMode(op.params[xs[i]].data.parameterType), None));
    }
  }

  /** Option j of the kept subsets is the base option with subset j's constants added. */
  lemma KeptOptionAdds(kind: OracleKind, op: SutOperation, subsets: seq<B.Binding>, j: nat)
    requires op.Valid() && op.GetNeeds() != [] && kind != OnUnknown
    requires Options(kind, op, subsets).Success? && j < |Options(kind, op, subsets).value|
    ensures var kept := Kept(kind, op.params, op.GetNeeds(), subsets);
      var adds := BaseAdds(op.params, Except(op.uniqueParameters, op.GetNeeds()));
      DistinctKeys(adds) && |Options(kind, op, subsets).value| == |kept| && kept[j] in subsets &&
      Keep(kind, op.params, op.GetNeeds(), kept[j]) &&
      AddAll(adds, ConstantAdds(kept[j])) == Success(Options(kind, op, subsets).value[j])
  {
    NeedsIn(op);
    var adds := BaseAdds(op.params, Except(op.uniqueParameters, op.GetNeeds()));
    var kept := Kept(kind, op.params, op.GetNeeds(), subsets);
    var r := Options(kind, op, subsets);
    assert DistinctKeys(adds) && r == OptionsOf(adds, kept) by {
      FreshOption(adds);
    }
    assert |r.value| == |kept| by {
      CollectEach(Tries(adds, kept));
    }
    OptionAt(adds, kept, j);
    assert kept[j] in kept;
  }

  /** Every subset the oracle keeps has its option, as long as none threw. */
  lemma KeptComplete(kind: OracleKind, op: SutOperation, subsets: seq<B.Binding>, b: B.Binding)
    requires op.Valid() && op.GetNeeds() != [] && kind != OnUnknown
    requires Options(kind, op, subsets).Success? && b in subsets && Keep(kind, op.params, op.GetNeeds(), b)
    ensures |Options(kind, op, subsets).value| == |Kept(kind, op.params, op.GetNeeds(), subsets)|
    ensures exists j :: (0 <= j < |Kept(kind, op.params, op.GetNeeds(), subsets)| &&
      Kept(kind, op.params, op.GetNeeds(), subsets)[j] == b)
  {
    NeedsIn(op);
    var kept := Kept(kind, op.params, op.GetNeeds(), subsets);
    var adds := BaseAdds(op.params, Except(op.uniqueParameters, op.GetNeeds()));
    FreshOption(adds);
    assert Options(kind, op, subsets) == OptionsOf(adds, kept);
    var j :| 0 <= j < |kept| && kept[j] == b;
    OptionAt(adds, kept, j);
  }

  /** An empty model and a single required need: the existing oracle offers no option. */
  lemma RequiredNeedUnknown(op: SutOperation, nodes: IdGraph, state: State, c: NodeId)
    requires op.Valid() && Wf(nodes, state) && op.GetNeeds() == [c] && c in op.params
    requires op.params[c].isRequired && op.params[c].mapping !in state
    ensures OptionsSpec(OnExisting, op, nodes, state).Success? ==> OptionsSpec(OnExisting, op, nodes, state).value == []
  {
    NeedsIn(op);
    Queries.AbsentConstraint(op.params, nodes, state, c);
  }

  /**
   * A required need at any position whose mapping has no instance: the existing oracle
   * offers no option, unless a need before it already bound that mapping.
   */
  lemma RequiredNeedAbsent(op: SutOperation, nodes: IdGraph, state: State, i: nat)
    requires op.Valid() && Wf(nodes, state) && i < |op.GetNeeds()|
    requires forall x :: x in op.GetNeeds() ==> x in op.params
    requires op.params[op.GetNeeds()[i]].isRequired && op.params[op.GetNeeds()[i]].mapping !in state
    ensures var needs := op.GetNeeds();
      var before := Queries.Collect(op.params, nodes, state, needs[..i], []);
      (before.None? || !Queries.Bound(before.value, op.params[needs[i]].mapping)) &&
      OptionsSpec(OnExisting, op, nodes, state).Success? ==>
        OptionsSpec(OnExisting, op, nodes, state).value == []
  {
    NeedsIn(op);
    Queries.RequiredAbsent(op.params, nodes, state, op.GetNeeds(), i);
  }

  // ---------------------------------------------------------------------------------
  // CheckResult

  /** HttpResponseMessage.IsSuccessStatusCode. */
  predicate IsSuccessStatus(status: int)
  {
    200 <= status <= 299
  }

  /** Whether 400 and 422 are not excused: NoBadRequestWhenValidDataIsProvided set, or another status. */
  predicate BadRequestCounts(status: int, strict: bool)
  {
    strict || (status != 400 && status != 422)
  }

  function StatusLabel(status: int): string
  {
    "Actual StatusCode: " + Text.IntToString(status)
  }

  /** The verdict of CheckResult; strict is NoBadRequestWhenValidDataIsProvided. */
  function CheckVerdict(kind: OracleKind, operationType: OperationType, status: int, strict: bool): FastFailProperty
  {
    match kind
    case OnExisting =>
      if operationType == Get then
        Label(Label(FastFailWhen(IsSuccessStatus(status), BadRequestCounts(status, strict)),
          "Expected success status code on existing resource"), StatusLabel(status))
      else ToFastFailProperty(true)
    case OnUnknown =>
      Label(Label(FastFailWhen(status == 404, BadRequestCounts(status, strict)),
        "Expected 404 on unknown resource"), StatusLabel(status))
    case OnDeleted =>
      Label(Label(FastFailWhen(status == 404 || status == 410, BadRequestCounts(status, strict)),
        "Expected 404 or 410 on deleted resource"), StatusLabel(status))
  }

  /**
   * A GET on an existing resource passes on a success status, or on 400 or 422 when
   * those are excused; any other verb always passes.
   */
  lemma ExistingVerdict(operationType: OperationType, status: int, strict: bool)
    ensures CheckVerdict(OnExisting, operationType, status, strict).isSuccess <==>
      operationType != Get || IsSuccessStatus(status) || (!strict && (status == 400 || status == 422))
    ensures Consistent(CheckVerdict(OnExisting, operationType, status, strict))
  {
  }

  /** An unknown resource must give 404; 400 and 422 pass only when excused. */
  lemma UnknownVerdict(operationType: OperationType, status: int, strict: bool)
    ensures CheckVerdict(OnUnknown, operationType, status, strict).isSuccess <==>
      status == 404 || (!strict && (status == 400 || status == 422))
    ensures Consistent(CheckVerdict(OnUnknown, operationType, status, strict))
  {
  }

  /** A deleted resource must give 404 or 410; 400 and 422 pass only when excused. */
  lemma DeletedVerdict(operationType: OperationType, status: int, strict: bool)
    ensures CheckVerdict(OnDeleted, operationType, status, strict).isSuccess <==>
      status == 404 || status == 410 || (!strict && (status == 400 || status == 422))
    ensures Consistent(CheckVerdict(OnDeleted, operationType, status, strict))
  {
  }
}
