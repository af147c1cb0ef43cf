/**
 * The tester's operation models (ObST.Tester/Core/Models): unique parameters with
 * their ParameterType flags and their display form, and the compiled operation
 * whose needs are the parameters that refer to an existing resource.
 */
module CoreModels {
  import opened Wrappers
  import opened Links
  import opened Schemas
  import AnalyzerUtil
  import Orders
  import Text

  /** ParameterType, a flag enum whose members nest bit by bit. */
  type ParameterType = bv4

  const ResourceRepresentation: ParameterType := 0
  const Reference: ParameterType := 1
  const SelfReference: ParameterType := 3
  const SelfReferenceCreate: ParameterType := 7
  const SelfReferenceUpsert: ParameterType := 15

  /** Enum.HasFlag. */
  predicate HasFlag(t: ParameterType, f: ParameterType)
  {
    t & f == f
  }

  /** Upsert carries Create, Create carries SelfReference, SelfReference carries Reference. */
  lemma FlagsNest()
    ensures HasFlag(SelfReferenceUpsert, SelfReferenceCreate)
    ensures HasFlag(SelfReferenceCreate, SelfReference)
    ensures HasFlag(SelfReference, Reference)
    ensures forall t: ParameterType :: HasFlag(t, SelfReferenceCreate) ==> HasFlag(t, SelfReference)
    ensures forall t: ParameterType :: HasFlag(t, SelfReference) ==> HasFlag(t, Reference)
    ensures !HasFlag(SelfReferenceCreate, SelfReferenceUpsert) && !HasFlag(Reference, SelfReference)
  {
  }

  /**
   * `ParameterType |= SelfReferenceCreate` on a body self-reference gives exactly
   * SelfReferenceCreate, and on an Upsert leaves Upsert.
   */
  lemma OrCreate(t: ParameterType)
    requires HasFlag(t, SelfReference)
    ensures t == SelfReference || t == SelfReferenceCreate ==> t | SelfReferenceCreate == SelfReferenceCreate
    ensures t == SelfReferenceUpsert ==> t | SelfReferenceCreate == SelfReferenceUpsert
    ensures HasFlag(t | SelfReferenceCreate, SelfReferenceCreate)
  {
  }

  /** What a UniqueParameter holds besides its PropertyConstraint links. */
  datatype ParamData = ParamData(
    isInResourceIdentifier: bool,
    schema: JsonSchema,
    parameterType: ParameterType,
    otherRelations: seq<NodeId>)

  type ParamGraph = Graph<ParamData>

  /** Every other relation names a parameter of the arena. */
  predicate RelationsClosed(g: ParamGraph)
  {
    forall n, i :: n in g && 0 <= i < |g[n].data.otherRelations| ==> g[n].data.otherRelations[i] in g
  }

  /** The marker ToString puts after the mapping. */
  function Origin(isRequired: bool, t: ParameterType): string
  {
    if !isRequired then ""
    else if t == SelfReferenceCreate then "*"
    else if t == SelfReferenceUpsert then "^"
    else "!"
  }

  /**
   * No marker for an optional parameter; for a required one "*" exactly for Create,
   * "^" exactly for Upsert and "!" for every other type.
   */
  lemma OriginMarker(isRequired: bool, t: ParameterType)
    ensures Origin(isRequired, t) == "" <==> !isRequired
    ensures isRequired ==> (Origin(isRequired, t) == "*" <==> t == SelfReferenceCreate)
    ensures isRequired ==> (Origin(isRequired, t) == "^" <==> t == SelfReferenceUpsert)
    ensures isRequired ==> (Origin(isRequired, t) == "!" <==> t != SelfReferenceCreate && t != SelfReferenceUpsert)
  {
  }

  /** The mappings of some parameters, in order. */
  function Mappings(g: ParamGraph, ns: seq<NodeId>): (r: seq<string>)
    requires forall i :: 0 <= i < |ns| ==> ns[i] in g
    ensures |r| == |ns| && forall i :: 0 <= i < |ns| ==> r[i] == g[ns[i]].mapping
  {
    if ns == [] then [] else [g[ns[0]].mapping] + Mappings(g, ns[1..])
  }

  /**
   * UniqueParameter.ToString. A root shows its mapping, its marker and its other
   * relations; a child shows its parents' renderings before its own. A cycle of
   * parents would recurse without end in the source; here the rendering then runs
   * out of fuel and is None.
   */
  function Render(g: ParamGraph, n: NodeId, fuel: nat): Option<string>
    requires RelationsClosed(g) && n in g
    decreases fuel, 0
  {
    if |g[n].parents| == 0 then Some(RootText(g, n))
    else if fuel == 0 then None
    else
      match RenderAll(g, g[n].parents, g[n].parents.Keys, fuel - 1)
      case None => None
      case Some(parts) => Some(ChildText(g[n], parts))
  }

  /** Mapping, marker and "~[" other relations "]" when there are any. */
  function RootText(g: ParamGraph, n: NodeId): string
    requires RelationsClosed(g) && n in g
  {
    var p := g[n];
    var rel := p.data.otherRelations;
    p.mapping + Origin(p.isRequired, p.data.parameterType) +
      (if |rel| > 0 then "~[" + Text.Join(", ", Mappings(g, rel)) + "]" else "")
  }

  /** "(" the parents' renderings ")>" mapping and marker. */
  function ChildText(p: Node<ParamData>, parts: seq<string>): string
  {
    "(" + Text.Join(";", parts) + ")>" + p.mapping + Origin(p.isRequired, p.data.parameterType)
  }

  /**
   * The renderings of the parents under the mappings ks, least mapping first: the
   * order Parents.Values is taken in. None if a parent is missing (in a closed arena
   * none is).
   */
  function RenderAll(g: ParamGraph, ps: map<string, NodeId>, ks: set<string>, fuel: nat): (r: Option<seq<string>>)
    requires RelationsClosed(g)
    decreases fuel, 1, |ks|
  {
    if ks == {} then Some([])
    else
      var k := Orders.StrMin(ks);
      if k !in ps || ps[k] !in g then None
      else
        var head := Render(g, ps[k], fuel);
        var rest := RenderAll(g, ps, ks - {k}, fuel);
        if head.Some? && rest.Some? then Some([head.value] + rest.value) else None
  }

  /**
   * The shape of a rendering: a root's starts with its mapping and marker, a
   * child's is parenthesised and ends with ")>", its mapping and its marker.
   */
  lemma RenderShape(g: ParamGraph, n: NodeId, fuel: nat)
    requires RelationsClosed(g) && n in g
    requires Render(g, n, fuel).Some?
    ensures var own := g[n].mapping + Origin(g[n].isRequired, g[n].data.parameterType);
      if |g[n].parents| == 0 then Text.StartsWith(Render(g, n, fuel).value, own)
      else Render(g, n, fuel).value[0] == '(' && Text.EndsWith(Render(g, n, fuel).value, ")>" + own)
  {
    var own := g[n].mapping + Origin(g[n].isRequired, g[n].data.parameterType);
    var s := Render(g, n, fuel).value;
    if |g[n].parents| != 0 {
      var parts := RenderAll(g, g[n].parents, g[n].parents.Keys, fuel - 1).value;
      var inner := "(" + Text.Join(";", parts);
      assert s == ChildText(g[n], parts) == inner + (")>" + own);
      assert s[|s| - |")>" + own|..] == ")>" + own;
    } else {
      assert s == RootText(g, n);
    }
  }

  /** More fuel never changes a rendering that already completed. */
  lemma {:induction false} RenderFuel(g: ParamGraph, n: NodeId, fuel: nat)
    requires RelationsClosed(g) && n in g
    requires Render(g, n, fuel).Some?
    ensures Render(g, n, fuel + 1) == Render(g, n, fuel)
    decreases fuel, 0
  {
    if |g[n].parents| != 0 {
      RenderAllFuel(g, g[n].parents, g[n].parents.Keys, fuel - 1);
    }
  }

  lemma {:induction false} RenderAllFuel(g: ParamGraph, ps: map<string, NodeId>, ks: set<string>, fuel: nat)
    requires RelationsClosed(g)
    requires RenderAll(g, ps, ks, fuel).Some?
    ensures RenderAll(g, ps, ks, fuel + 1) == RenderAll(g, ps, ks, fuel)
    decreases fuel, 1, |ks|
  {
    if ks != {} {
      var k := Orders.StrMin(ks);
      RenderFuel(g, ps[k], fuel);
      RenderAllFuel(g, ps, ks - {k}, fuel);
    }
  }

  /** The parents under a single mapping render as that parent alone. */
  lemma RenderOneParent(g: ParamGraph, ps: map<string, NodeId>, k: string, fuel: nat)
    requires RelationsClosed(g) && k in ps && ps[k] in g && Render(g, ps[k], fuel).Some?
    ensures RenderAll(g, ps, {k}, fuel) == Some([Render(g, ps[k], fuel).value])
  {
    assert Orders.StrMin({k}) == k;
    assert {k} - {k} == {};
    var r := Render(g, ps[k], fuel).value;
    assert [r] + [] == [r];
  }

  /** A required self-reference "a" with an optional child "b": the child renders as "(a!)>b". */
  lemma RenderChildOfRoot(schema: JsonSchema)
    ensures var g := map[
        0 := Node("a", true, map[], map["b" := {1}], ParamData(true, schema, SelfReference, [])),
        1 := Node("b", false, map["a" := 0], map[], ParamData(false, schema, ResourceRepresentation, []))];
      RelationsClosed(g) && Render(g, 1, 1) == Some("(a!)>b") && Render(g, 0, 0) == Some("a!")
  {
    var g := map[
        0 := Node("a", true, map[], map["b" := {1}], ParamData(true, schema, SelfReference, [])),
        1 := Node("b", false, map["a" := 0], map[], ParamData(false, schema, ResourceRepresentation, []))];
    assert Origin(true, SelfReference) == "!";
    assert RootText(g, 0) == "a!";
    assert Render(g, 0, 0) == Some("a!");
    RenderOneParent(g, g[1].parents, "a", 0);
    assert Text.Join(";", ["a!"]) == "a!";
    assert ChildText(g[1], ["a!"]) == "(a!)>b";
  }

  /** A parameter that refers to an existing resource: exactly Reference or SelfReference. */
  predicate IsNeed(t: ParameterType)
  {
    t == Reference || t == SelfReference
  }

  /** SutOperation.GetNeeds: the unique parameters whose type makes them a need, in order. */
  function Needs(g: ParamGraph, ups: seq<NodeId>): (r: seq<NodeId>)
    requires forall i :: 0 <= i < |ups| ==> ups[i] in g
    ensures forall x :: x in r <==> x in ups && IsNeed(g[x].data.parameterType)
  {
    if ups == [] then []
    else if IsNeed(g[ups[0]].data.parameterType) then [ups[0]] + Needs(g, ups[1..])
    else Needs(g, ups[1..])
  }

  /** a is b with some elements left out, the rest in their order. */
  predicate SubList<T(==)>(a: seq<T>, b: seq<T>)
  {
    if a == [] then true
    else if b == [] then false
    else if a[0] == b[0] then SubList(a[1..], b[1..])
    else SubList(a, b[1..])
  }

  lemma {:induction false} SubListSelf<T>(a: seq<T>)
    ensures SubList(a, a)
  {
    if a != [] {
      SubListSelf(a[1..]);
    }
  }

  /** The needs are a sub-list of the unique parameters: their order is kept. */
  lemma {:induction false} NeedsSubList(g: ParamGraph, ups: seq<NodeId>)
    requires forall i :: 0 <= i < |ups| ==> ups[i] in g
    ensures SubList(Needs(g, ups), ups)
  {
    if ups != [] {
      NeedsSubList(g, ups[1..]);
      if !IsNeed(g[ups[0]].data.parameterType) {
        var r := Needs(g, ups[1..]);
        if r != [] {
          assert r[0] in r;
          assert r[0] != ups[0];
        }
      }
    }
  }

  /** A list of needs alone is its own GetNeeds. */
  lemma {:induction false} NeedsAll(g: ParamGraph, ups: seq<NodeId>)
    requires forall i :: 0 <= i < |ups| ==> ups[i] in g
    requires forall i :: 0 <= i < |ups| ==> IsNeed(g[ups[i]].data.parameterType)
    ensures Needs(g, ups) == ups
  {
    if ups != [] {
      NeedsAll(g, ups[1..]);
    }
  }

  /** Representation, Create and Upsert parameters are never needs. */
  lemma NotNeeds(g: ParamGraph, ups: seq<NodeId>, x: NodeId)
    requires forall i :: 0 <= i < |ups| ==> ups[i] in g
    requires x in g
    requires g[x].data.parameterType in {ResourceRepresentation, SelfReferenceCreate, SelfReferenceUpsert}
    ensures x !in Needs(g, ups)
  {
  }

  datatype OperationType = Get | Put | Post | Delete | Options | Head | Patch | Trace

  datatype SutParameter = SutParameter(
    name: string,
    mapping: string,
    location: AnalyzerUtil.ParameterLocation,
    schema: JsonSchema,
    required: bool)

  datatype SutRequestBody = SutRequestBody(content: map<string, JsonSchema>, required: bool)

  datatype SutResponse = SutResponse(contentType: Option<string>, schema: Option<JsonSchema>)

  /** An identity; the security scheme's secrets and tokens are not modelled. */
  datatype SutIdentity = SutIdentity(id: string, securitySchemeName: string, scopes: seq<string>)

  const NullIdentity := SutIdentity("NULL_IDENTITY", "NULL_IDENTITY", [])

  /**
   * A compiled operation. Its unique parameters are nodes of the arena params,
   * which holds their parent links.
   */
  datatype SutOperation = SutOperation(
    operationId: string,
    operationType: OperationType,
    path: string,
    parameters: seq<SutParameter>,
    params: ParamGraph,
    uniqueParameters: seq<NodeId>,
    requestBody: Option<SutRequestBody>,
    responses: map<string, SutResponse>,
    doesCreate: bool,
    validIdentities: set<SutIdentity>)
  {
    predicate Valid()
    {
      Closed(params) && RelationsClosed(params) &&
      forall i :: 0 <= i < |uniqueParameters| ==> uniqueParameters[i] in params
    }

    function GetNeeds(): seq<NodeId>
      requires Valid()
    {
      Needs(params, uniqueParameters)
    }
  }
}
