/**
 * Merging of path-level and operation-level OpenAPI parameters
 * (ObST.Analyzer/Domain/AnalyzerUtil.cs).
 */
module AnalyzerUtil {
  import opened Wrappers

  datatype ParameterLocation = Query | Header | Path | Cookie

  /** An OpenAPI parameter; it is identified by its name and location. */
  datatype Parameter = Parameter(name: string, location: ParameterLocation, required: bool, description: string)

  predicate Overrides(op: Parameter, pp: Parameter)
  {
    op.name == pp.name && op.location == pp.location
  }

  predicate OverriddenBy(pp: Parameter, ops: seq<Parameter>)
  {
    exists op :: op in ops && Overrides(op, pp)
  }

  /** The path parameters that no operation parameter overrides, in order. */
  function NotOverridden(pps: seq<Parameter>, ops: seq<Parameter>): (r: seq<Parameter>)
    ensures forall p :: p in r <==> p in pps && !OverriddenBy(p, ops)
    ensures |r| <= |pps|
  {
    if pps == [] then []
    else
      var rest := NotOverridden(pps[1..], ops);
      if OverriddenBy(pps[0], ops) then rest else [pps[0]] + rest
  }

  /** A null list of path parameters is treated as empty. */
  function Merge(pathParameters: Option<seq<Parameter>>, operationParameters: seq<Parameter>): (r: seq<Parameter>)
    ensures pathParameters.None? ==> r == operationParameters
    ensures |r| >= |operationParameters|
    ensures r[|r| - |operationParameters|..] == operationParameters
    ensures forall p :: p in r[..|r| - |operationParameters|] <==>
      pathParameters.Some? && p in pathParameters.value && !OverriddenBy(p, operationParameters)
  {
    var pps := if pathParameters.Some? then pathParameters.value else [];
    NotOverridden(pps, operationParameters) + operationParameters
  }

  /** The kept prefix is a sub-list of the path parameters: the order is preserved. */
  predicate SubList<T(==)>(xs: seq<T>, ys: seq<T>)
  {
    if xs == [] then true
    else if ys == [] then false
    else if xs[0] == ys[0] then SubList(xs[1..], ys[1..])
    else SubList(xs, ys[1..])
  }

  lemma {:induction false} NotOverriddenIsSubList(pps: seq<Parameter>, ops: seq<Parameter>)
    ensures SubList(NotOverridden(pps, ops), pps)
  {
    if pps != [] {
      NotOverriddenIsSubList(pps[1..], ops);
      var rest := NotOverridden(pps[1..], ops);
      if !OverriddenBy(pps[0], ops) {
        assert NotOverridden(pps, ops) == [pps[0]] + rest;
        assert ([pps[0]] + rest)[1..] == rest;
      } else {
        SubListDropHead(rest, pps);
      }
    }
  }

  lemma {:induction false} SubListDropHead<T>(xs: seq<T>, ys: seq<T>)
    requires ys != [] && SubList(xs, ys[1..])
    ensures SubList(xs, ys)
  {
    if xs != [] && xs[0] == ys[0] {
      SubListTail(xs, ys[1..]);
    }
  }

  lemma {:induction false} SubListTail<T>(xs: seq<T>, ys: seq<T>)
    requires xs != [] && SubList(xs, ys)
    ensures SubList(xs[1..], ys)
  {
    if ys != [] && xs[0] != ys[0] {
      SubListTail(xs, ys[1..]);
      SubListDropHead(xs[1..], ys);
    } else if ys != [] && xs[1..] != [] && xs[0] == ys[0] {
      SubListDropHead(xs[1..], ys);
    }
  }

  /**
   * A path parameter survives the merge iff no operation parameter has the same
   * name and location; the survivors keep their relative order, and the operation
   * parameters follow, complete and in order.
   */
  lemma MergeKeepsOrder(pps: seq<Parameter>, ops: seq<Parameter>)
    ensures var r := Merge(Some(pps), ops);
      SubList(r[..|r| - |ops|], pps) && r[|r| - |ops|..] == ops
  {
    var r := Merge(Some(pps), ops);
    assert r[..|r| - |ops|] == NotOverridden(pps, ops);
    NotOverriddenIsSubList(pps, ops);
  }
}
