/**
 * The mapping and flag logic of ToSutParameters
 * (ObST.Tester/Domain/Util/TestConfigurationExtention.cs): every configured
 * parameter is resolved to its mapping, its parent chain "a<b<c" is merged with
 * the chains seen before for the same mapping, and the unique parameter of the
 * mapping gains the Required, resource-identifier and Upsert flags. At the end
 * the merged chains become parent links.
 */
module ParameterCompiler {
  import opened Wrappers
  import opened CoreModels
  import opened AnalyzerUtil
  import PathsAnalyzer
  import IdMappings

  /** The settings of a ParameterConfiguration the compilation reads: Required and Schema.Nullable. */
  datatype ConfiguredParameter = ConfiguredParameter(required: Option<bool>, nullable: Option<bool>)

  /** ParameterConfigurations: the path parameters in order, the others by name in insertion order. */
  datatype ParameterConfigurations = ParameterConfigurations(
    path: Option<seq<ConfiguredParameter>>,
    query: Option<seq<(string, ConfiguredParameter)>>,
    header: Option<seq<(string, ConfiguredParameter)>>,
    cookie: Option<seq<(string, ConfiguredParameter)>>)

  /** ParameterMappingConfiguration: the mapping of each query, header and cookie parameter; a mapping may be null. */
  datatype MappingConfiguration = MappingConfiguration(
    query: Option<map<string, Option<string>>>,
    header: Option<map<string, Option<string>>>,
    cookie: Option<map<string, Option<string>>>)

  /** One entry of allParameters; a path parameter has no name (here ""). */
  datatype Declared = Declared(parameter: ConfiguredParameter, name: string, location: ParameterLocation)

  /** What ToSutParameters is compiling against. */
  datatype Target = Target(
    pathMappings: seq<string>,
    mappings: MappingConfiguration,
    operationType: OperationType,
    doesCreate: bool)

  /** A compiled SutParameter, without its schema. */
  datatype CompiledParameter = CompiledParameter(name: Option<string>, mapping: string, location: ParameterLocation, required: bool)

  /** The flags of a UniqueParameter that ToSutParameters sets. */
  datatype UniqueFlags = UniqueFlags(isRequired: bool, isInResourceIdentifier: bool, parameterType: ParameterType)

  /**
   * The local state of the loop: the path parameter counter, the compiled
   * parameters, the unique parameters by mapping (with their insertion order) and
   * the parent chains to add (with theirs).
   */
  datatype State = State(
    pathParamCount: nat,
    parameters: seq<CompiledParameter>,
    unique: map<string, UniqueFlags>,
    order: seq<string>,
    chains: map<string, seq<string>>,
    chainOrder: seq<string>)

  /** The result: the parameters, the unique parameters and the parent links (parent, child). */
  datatype Compiled = Compiled(
    parameters: seq<CompiledParameter>,
    unique: map<string, UniqueFlags>,
    order: seq<string>,
    links: seq<(string, string)>)

  // ---------------------------------------------------------------------------------
  // allParameters

  function PathDeclared(ps: seq<ConfiguredParameter>): (r: seq<Declared>)
    ensures |r| == |ps|
    ensures forall i :: 0 <= i < |ps| ==> r[i] == Declared(ps[i], "", Path)
  {
    if ps == [] then [] else [Declared(ps[0], "", Path)] + PathDeclared(ps[1..])
  }

  function NamedDeclared(ps: seq<(string, ConfiguredParameter)>, location: ParameterLocation): (r: seq<Declared>)
    ensures |r| == |ps|
    ensures forall i :: 0 <= i < |ps| ==> r[i] == Declared(ps[i].1, ps[i].0, location)
  {
    if ps == [] then [] else [Declared(ps[0].1, ps[0].0, location)] + NamedDeclared(ps[1..], location)
  }

  function OrEmpty<T>(o: Option<seq<T>>): seq<T>
  {
    if o.Some? then o.value else []
  }

  /** The path parameters, then the query, header and cookie parameters; a missing group is empty. */
  function AllParameters(c: ParameterConfigurations): seq<Declared>
  {
    PathDeclared(OrEmpty(c.path)) + NamedDeclared(OrEmpty(c.query), Query) +
    NamedDeclared(OrEmpty(c.header), Header) + NamedDeclared(OrEmpty(c.cookie), Cookie)
  }

  /** The path parameters come first, in their declared order. */
  lemma PathParametersFirst(c: ParameterConfigurations, i: nat)
    requires i < |OrEmpty(c.path)|
    ensures i < |AllParameters(c)| && AllParameters(c)[i] == Declared(OrEmpty(c.path)[i], "", Path)
  {
  }

  // ---------------------------------------------------------------------------------
  // One parameter

  /**
   * The mapping indexer: a missing dictionary is a NullReferenceException, a missing
   * name a KeyNotFoundException and a null mapping an ArgumentException.
   */
  function MappingOf(m: Option<map<string, Option<string>>>, name: string): Result<string>
  {
    if m.None? then Failure(NullReference)
    else if name !in m.value then Failure(KeyNotFound)
    else if m.value[name].None? then Failure(Argument)
    else Success(m.value[name].value)
  }

  /**
   * The location switch. The path mappings are taken in order; running out of them
   * is the list indexer's ArgumentOutOfRangeException, an ArgumentException.
   */
  function Resolve(d: Declared, t: Target, pathParamCount: nat): Result<string>
  {
    match d.location
    case Path => if pathParamCount < |t.pathMappings| then Success(t.pathMappings[pathParamCount]) else Failure(Argument)
    case Query => MappingOf(t.mappings.query, d.name)
    case Header => MappingOf(t.mappings.header, d.name)
    case Cookie => MappingOf(t.mappings.cookie, d.name)
  }

  /** The last element of mapping.Split('<'): the mapping without its parents. */
  function Own(full: string): string
  {
    var parents := PathsAnalyzer.Split(full, '<');
    parents[|parents| - 1]
  }

  /** s[^i], the i-th element from the end. */
  function Back(s: seq<string>, i: nat): string
    requires 1 <= i <= |s|
  {
    s[|s| - i]
  }

  /** parents[^i] == match[^i] for i = 1..n. */
  predicate SameParents(parents: seq<string>, existing: seq<string>, n: nat)
    requires n <= |parents| && n <= |existing|
  {
    forall i :: 1 <= i <= n ==> Back(parents, i) == Back(existing, i)
  }

  /** The comparison loops of the parent-chain merge. */
  method CheckParents(parents: seq<string>, existing: seq<string>, n: nat) returns (same: bool)
    requires n <= |parents| && n <= |existing|
    ensures same == SameParents(parents, existing, n)
  {
    for i := 1 to n + 1
      invariant forall j :: 1 <= j < i ==> Back(parents, j) == Back(existing, j)
    {
      if parents[|parents| - i] != existing[|existing| - i] {
        assert Back(parents, i) != Back(existing, i);
        return false;
      }
    }
    return true;
  }

  /**
   * A new chain for a mapping that already has one: the shorter must agree with
   * the end of the longer, else ArgumentException; the longer one is kept (on a
   * tie the new one).
   */
  function MergeChain(existing: seq<string>, parents: seq<string>): Result<seq<string>>
  {
    if |existing| > |parents| then
      (if SameParents(parents, existing, |parents|) then Success(existing) else Failure(Argument))
    else if SameParents(parents, existing, |existing|) then Success(parents)
    else Failure(Argument)
  }

  /** The chains to add after a parameter with the given chain of parents. */
  function Chains(chains: map<string, seq<string>>, chainOrder: seq<string>, mapping: string, parents: seq<string>): Result<(map<string, seq<string>>, seq<string>)>
  {
    if |parents| <= 1 then Success((chains, chainOrder))
    else if mapping !in chains then Success((chains[mapping := parents], chainOrder + [mapping]))
    else
      match MergeChain(chains[mapping], parents)
      case Failure(e) => Failure(e)
      case Success(c) => Success((chains[mapping := c], chainOrder))
  }

  /** A new UniqueParameter: optional, not in the identifier, a Reference exactly for an id mapping. */
  function NewUnique(mapping: string): UniqueFlags
  {
    UniqueFlags(false, false, if IdMappings.IsIdMapping(mapping) then Reference else ResourceRepresentation)
  }

  /**
   * Whether the mapping is the one a creating PUT creates: the last path
   * parameter's. The chain of that parameter is split off before comparing (see
   * UpsertTargetAsWritten).
   */
  predicate UpsertTarget(t: Target, mapping: string)
  {
    t.operationType == Put && t.doesCreate && |t.pathMappings| > 0 &&
    Own(t.pathMappings[|t.pathMappings| - 1]) == mapping
  }

  /** The comparison as the source writes it: LastOrDefault() == mapping, with the chain still on. */
  predicate UpsertTargetAsWritten(t: Target, mapping: string)
  {
    t.operationType == Put && t.doesCreate && |t.pathMappings| > 0 &&
    t.pathMappings[|t.pathMappings| - 1] == mapping
  }

  /**
   * On a nested path the last path mapping carries its parents, so the comparison
   * as written never matches and the created parameter does not get Upsert.
   */
  lemma NestedPutMissesUpsert()
    ensures var t := Target(["Author:@id", "Author:@id<Book:@id"], MappingConfiguration(None, None, None), Put, true);
      !UpsertTargetAsWritten(t, "Book:@id") && UpsertTarget(t, "Book:@id")
  {
    OwnAfterLast("Author:@id", "Book:@id");
    assert "Author:@id" + "<" + "Book:@id" == "Author:@id<Book:@id";
  }

  /** The own mapping of "parents<own" is own. */
  lemma OwnAfterLast(parents: string, own: string)
    requires '<' !in own
    ensures Own(parents + "<" + own) == own
  {
    var s := parents + "<" + own;
    assert s[|parents| + 1..] == own;
    SplitPlain(own, '<');
    SplitAt(s, |parents|, own, '<');
  }

  /** A string without the separator splits into itself. */
  lemma {:induction false} SplitPlain(s: string, sep: char)
    requires sep !in s
    ensures PathsAnalyzer.Split(s, sep) == [s]
  {
    if |s| > 0 {
      assert sep !in s[1..] by {
        forall c | c in s[1..] ensures c != sep {
          var k :| 0 <= k < |s[1..]| && s[1..][k] == c;
          assert s[k + 1] == c;
        }
      }
      SplitPlain(s[1..], sep);
      assert [s[0]] + s[1..] == s;
    }
  }

  /** Splitting at a separator gives at least two pieces, the last that of the rest. */
  lemma {:induction false} SplitAt(s: string, k: nat, rest: string, sep: char)
    requires k < |s| && s[k] == sep && rest == s[k + 1..]
    ensures var p := PathsAnalyzer.Split(s, sep); var q := PathsAnalyzer.Split(rest, sep);
      |p| >= 2 && p[|p| - 1] == q[|q| - 1]
    decreases k
  {
    if k > 0 {
      assert s[1..][k - 1] == sep && s[1..][k..] == rest;
      SplitAt(s[1..], k - 1, rest, sep);
    } else {
      assert s[1..] == rest;
    }
  }

  /** The flags after one parameter of the given location was compiled under the mapping. */
  function Flags(f: UniqueFlags, d: Declared, mapping: string, t: Target): UniqueFlags
  {
    var f1 := if d.location.Path? || (d.parameter.required == Some(true) && d.parameter.nullable != Some(true))
      then f.(isRequired := true) else f;
    var f2 := if d.location.Path? || d.location.Query? then f1.(isInResourceIdentifier := true) else f1;
    if UpsertTarget(t, mapping) then f2.(parameterType := f2.parameterType | SelfReferenceUpsert) else f2
  }

  function NameOf(d: Declared): Option<string>
  {
    if d.location.Path? then None else Some(d.name)
  }

  /** One iteration of the foreach over allParameters. */
  function Step(s: State, d: Declared, t: Target): Result<State>
  {
    match Resolve(d, t, s.pathParamCount)
    case Failure(e) => Failure(e)
    case Success(full) =>
      var parents := PathsAnalyzer.Split(full, '<');
      var mapping := parents[|parents| - 1];
      match Chains(s.chains, s.chainOrder, mapping, parents)
      case Failure(e) => Failure(e)
      case Success((chains, chainOrder)) =>
        var prior := if mapping in s.unique then s.unique[mapping] else NewUnique(mapping);
        Success(State(
          if d.location.Path? then s.pathParamCount + 1 else s.pathParamCount,
          s.parameters + [CompiledParameter(NameOf(d), mapping, d.location, d.location.Path? || d.parameter.required == Some(true))],
          s.unique[mapping := Flags(prior, d, mapping, t)],
          if mapping in s.unique then s.order else s.order + [mapping],
          chains, chainOrder))
  }

  /** The loop over the first |ds| parameters. */
  function Run(s: State, ds: seq<Declared>, t: Target): Result<State>
    decreases |ds|
  {
    if ds == [] then Success(s)
    else
      match Run(s, ds[..|ds| - 1], t)
      case Failure(e) => Failure(e)
      case Success(s') => Step(s', ds[|ds| - 1], t)
  }

  // ---------------------------------------------------------------------------------
  // The whole compilation

  /** A body self-reference of a POST gains Create (`|= SelfReferenceCreate`). */
  function Created(f: UniqueFlags, operationType: OperationType): UniqueFlags
  {
    if operationType == Post && HasFlag(f.parameterType, SelfReference)
    then f.(parameterType := f.parameterType | SelfReferenceCreate)
    else f
  }

  function WithCreates(body: map<string, UniqueFlags>, operationType: OperationType): map<string, UniqueFlags>
  {
    map k | k in body :: Created(body[k], operationType)
  }

  /** The links of one chain, parent first, for the first n pairs; a member that is no unique parameter throws. */
  function ChainLinks(e: seq<string>, unique: map<string, UniqueFlags>, n: nat): Result<seq<(string, string)>>
    requires n < |e| || n == 0
  {
    if n == 0 then Success([])
    else
      match ChainLinks(e, unique, n - 1)
      case Failure(err) => Failure(err)
      case Success(ls) =>
        if e[n - 1] in unique && e[n] in unique then Success(ls + [(e[n - 1], e[n])]) else Failure(Argument)
  }

  function AllLinks(e: seq<string>, unique: map<string, UniqueFlags>): Result<seq<(string, string)>>
  {
    ChainLinks(e, unique, if |e| > 0 then |e| - 1 else 0)
  }

  /** The foreach over parentsToAdd.Values, for the first chains named in keys. */
  function Links(keys: seq<string>, chains: map<string, seq<string>>, unique: map<string, UniqueFlags>): Result<seq<(string, string)>>
    decreases |keys|
  {
    if keys == [] then Success([])
    else
      match Links(keys[..|keys| - 1], chains, unique)
      case Failure(err) => Failure(err)
      case Success(ls) =>
        var k := keys[|keys| - 1];
        match AllLinks(if k in chains then chains[k] else [], unique)
        case Failure(err) => Failure(err)
        case Success(more) => Success(ls + more)
  }

  function Initial(body: map<string, UniqueFlags>, bodyOrder: seq<string>, operationType: OperationType): State
  {
    State(0, [], WithCreates(body, operationType), bodyOrder, map[], [])
  }

  /** ToSutParameters for the configured parameters and the unique parameters of the body. */
  function Compile(c: ParameterConfigurations, body: map<string, UniqueFlags>, bodyOrder: seq<string>, t: Target): Result<Compiled>
  {
    match Run(Initial(body, bodyOrder, t.operationType), AllParameters(c), t)
    case Failure(e) => Failure(e)
    case Success(s) =>
      match Links(s.chainOrder, s.chains, s.unique)
      case Failure(e) => Failure(e)
      case Success(links) => Success(Compiled(s.parameters, s.unique, s.order, links))
  }

  lemma RunNext(s: State, ds: seq<Declared>, i: nat, t: Target)
    requires i < |ds|
    ensures Run(s, ds[..i + 1], t) == match Run(s, ds[..i], t)
      case Failure(e) => Failure(e)
      case Success(s') => Step(s', ds[i], t)
  {
    assert ds[..i + 1][..i] == ds[..i];
  }

  /** A failure stops the loop: the rest of the parameters is not looked at. */
  lemma {:induction false} RunStops(s: State, ds: seq<Declared>, n: nat, t: Target)
    requires n <= |ds| && Run(s, ds[..n], t).Failure?
    ensures Run(s, ds, t) == Run(s, ds[..n], t)
    decreases |ds| - n
  {
    if n < |ds| {
      RunNext(s, ds, n, t);
      RunStops(s, ds, n + 1, t);
    } else {
      assert ds[..n] == ds;
    }
  }

  lemma LinksNext(keys: seq<string>, j: nat, chains: map<string, seq<string>>, unique: map<string, UniqueFlags>)
    requires j < |keys|
    ensures Links(keys[..j + 1], chains, unique) == match Links(keys[..j], chains, unique)
      case Failure(err) => Failure(err)
      case Success(ls) =>
        match AllLinks(if keys[j] in chains then chains[keys[j]] else [], unique)
        case Failure(err) => Failure(err)
        case Success(more) => Success(ls + more)
  {
    assert keys[..j + 1][..j] == keys[..j];
  }

  lemma {:induction false} LinksStops(keys: seq<string>, j: nat, chains: map<string, seq<string>>, unique: map<string, UniqueFlags>)
    requires j <= |keys| && Links(keys[..j], chains, unique).Failure?
    ensures Links(keys, chains, unique) == Links(keys[..j], chains, unique)
    decreases |keys| - j
  {
    if j < |keys| {
      LinksNext(keys, j, chains, unique);
      LinksStops(keys, j + 1, chains, unique);
    } else {
      assert keys[..j] == keys;
    }
  }

  lemma {:induction false} ChainStops(e: seq<string>, unique: map<string, UniqueFlags>, i: nat, n: nat)
    requires i <= n && (n < |e| || n == 0) && ChainLinks(e, unique, i).Failure?
    ensures ChainLinks(e, unique, n) == ChainLinks(e, unique, i)
    decreases n - i
  {
    if i < n {
      ChainStops(e, unique, i, n - 1);
    }
  }

  /** ToSutParameters, without the schemas and the final ordering of the unique parameters. */
  method ToSutParameters(c: ParameterConfigurations, body: map<string, UniqueFlags>, bodyOrder: seq<string>, t: Target) returns (r: Result<Compiled>)
    ensures r == Compile(c, body, bodyOrder, t)
  {
    var compiled := CompileAll(Initial(body, bodyOrder, t.operationType), AllParameters(c), t);
    if compiled.Failure? {
      return Failure(compiled.error);
    }
    var s := compiled.value;
    var links := LinkParents(s.chainOrder, s.chains, s.unique);
    if links.Failure? {
      return Failure(links.error);
    }
    r := Success(Compiled(s.parameters, s.unique, s.order, links.value));
  }

  /** The foreach over allParameters. */
  method CompileAll(init: State, all: seq<Declared>, t: Target) returns (r: Result<State>)
    ensures r == Run(init, all, t)
  {
    var pathParamCount := init.pathParamCount;
    var resParams := init.parameters;
    var unique := init.unique;
    var order := init.order;
    var chains := init.chains;
    var chainOrder := init.chainOrder;
    assert all[..0] == [];
    for i := 0 to |all|
      invariant Run(init, all[..i], t) == Success(State(pathParamCount, resParams, unique, order, chains, chainOrder))
    {
      RunNext(init, all, i, t);
      var next := CompileParameter(State(pathParamCount, resParams, unique, order, chains, chainOrder), all[i], t);
      if next.Failure? {
        RunStops(init, all, i + 1, t);
        return Failure(next.error);
      }
      pathParamCount, resParams, unique := next.value.pathParamCount, next.value.parameters, next.value.unique;
      order, chains, chainOrder := next.value.order, next.value.chains, next.value.chainOrder;
    }
    assert all[..|all|] == all;
    r := Success(State(pathParamCount, resParams, unique, order, chains, chainOrder));
  }

  /** The body of the foreach for one parameter. */
  method CompileParameter(s: State, d: Declared, t: Target) returns (r: Result<State>)
    ensures r == Step(s, d, t)
  {
    var pathParamCount := s.pathParamCount;
    var resolved := Resolve(d, t, pathParamCount);
    if resolved.Failure? {
      return Failure(resolved.error);
    }
    if d.location.Path? {
      pathParamCount := pathParamCount + 1;
    }
    var parents := PathsAnalyzer.Split(resolved.value, '<');
    var mapping := parents[|parents| - 1];
    var merged := MergeParents(s.chains, s.chainOrder, mapping, parents);
    if merged.Failure? {
      return Failure(merged.error);
    }
    var resParams := s.parameters + [CompiledParameter(NameOf(d), mapping, d.location, d.location.Path? || d.parameter.required == Some(true))];
    var unique, order := UpdateUnique(s.unique, s.order, d, mapping, t);
    r := Success(State(pathParamCount, resParams, unique, order, merged.value.0, merged.value.1));
  }

  /** The unique parameter of the mapping, created if need be, with its flags set. */
  method UpdateUnique(unique: map<string, UniqueFlags>, order: seq<string>, d: Declared, mapping: string, t: Target)
    returns (unique': map<string, UniqueFlags>, order': seq<string>)
    ensures unique' == unique[mapping := Flags(if mapping in unique then unique[mapping] else NewUnique(mapping), d, mapping, t)]
    ensures order' == if mapping in unique then order else order + [mapping]
  {
    var flags: UniqueFlags;
    order' := order;
    if mapping in unique {
      flags := unique[mapping];
    } else {
      flags := NewUnique(mapping);
      order' := order + [mapping];
    }
    if d.location.Path? || (d.parameter.required == Some(true) && d.parameter.nullable != Some(true)) {
      flags := flags.(isRequired := true);
    }
    if d.location.Path? || d.location.Query? {
      flags := flags.(isInResourceIdentifier := true);
    }
    if UpsertTarget(t, mapping) {
      flags := flags.(parameterType := flags.parameterType | SelfReferenceUpsert);
    }
    unique' := unique[mapping := flags];
  }

  /** The parent-chain bookkeeping of one parameter. */
  method MergeParents(chains: map<string, seq<string>>, chainOrder: seq<string>, mapping: string, parents: seq<string>)
    returns (r: Result<(map<string, seq<string>>, seq<string>)>)
    ensures r == Chains(chains, chainOrder, mapping, parents)
  {
    if |parents| <= 1 {
      return Success((chains, chainOrder));
    }
    if mapping !in chains {
      return Success((chains[mapping := parents], chainOrder + [mapping]));
    }
    var existing := chains[mapping];
    if |existing| > |parents| {
      var same := CheckParents(parents, existing, |parents|);
      if !same {
        return Failure(Argument);
      }
      assert chains[mapping := existing] == chains;
      return Success((chains, chainOrder));
    }
    var same := CheckParents(parents, existing, |existing|);
    if !same {
      return Failure(Argument);
    }
    return Success((chains[mapping := parents], chainOrder));
  }

  /** The foreach over parentsToAdd.Values, linking each chain member to the next. */
  method LinkParents(chainOrder: seq<string>, chains: map<string, seq<string>>, unique: map<string, UniqueFlags>)
    returns (r: Result<seq<(string, string)>>)
    ensures r == Links(chainOrder, chains, unique)
  {
    var links: seq<(string, string)> := [];
    assert chainOrder[..0] == [];
    for j := 0 to |chainOrder|
      invariant Links(chainOrder[..j], chains, unique) == Success(links)
    {
      LinksNext(chainOrder, j, chains, unique);
      var e := if chainOrder[j] in chains then chains[chainOrder[j]] else [];
      var n := if |e| > 0 then |e| - 1 else 0;
      var before := links;
      for i := 0 to n
        invariant ChainLinks(e, unique, i).Success? && links == before + ChainLinks(e, unique, i).value
      {
        if e[i] !in unique || e[i + 1] !in unique {
          ChainStops(e, unique, i + 1, n);
          LinksStops(chainOrder, j + 1, chains, unique);
          return Failure(Argument);
        }
        links := links + [(e[i], e[i + 1])];
      }
    }
    assert chainOrder[..|chainOrder|] == chainOrder;
    r := Success(links);
  }

  // ---------------------------------------------------------------------------------
  // Properties

  /** a is the end of b. */
  predicate IsSuffix(a: seq<string>, b: seq<string>)
  {
    |a| <= |b| && b[|b| - |a|..] == a
  }

  lemma SameParentsSuffix(a: seq<string>, b: seq<string>)
    requires |a| <= |b|
    ensures SameParents(a, b, |a|) <==> IsSuffix(a, b)
    ensures SameParents(b, a, |a|) <==> IsSuffix(a, b)
  {
    if SameParents(a, b, |a|) {
      forall k | 0 <= k < |a| ensures b[|b| - |a|..][k] == a[k] {
        assert Back(a, |a| - k) == Back(b, |a| - k);
      }
    }
    if IsSuffix(a, b) {
      forall i | 1 <= i <= |a| ensures Back(a, i) == Back(b, i) {
        assert b[|b| - |a|..][|a| - i] == a[|a| - i];
      }
    }
  }

  /**
   * Two chains for one mapping merge iff the shorter is the end of the longer; the
   * longer is kept, and a disagreement is an ArgumentException.
   */
  lemma MergeChainSuffix(existing: seq<string>, parents: seq<string>)
    ensures MergeChain(existing, parents).Success? <==> IsSuffix(parents, existing) || IsSuffix(existing, parents)
    ensures MergeChain(existing, parents).Success? ==>
      MergeChain(existing, parents).value == if |existing| > |parents| then existing else parents
    ensures MergeChain(existing, parents).Failure? ==> MergeChain(existing, parents).error == Argument
  {
    if |existing| > |parents| {
      SameParentsSuffix(parents, existing);
    } else {
      SameParentsSuffix(existing, parents);
    }
  }

  /** The flags b has at least those of a. */
  predicate Within(a: UniqueFlags, b: UniqueFlags)
  {
    (a.isRequired ==> b.isRequired) && (a.isInResourceIdentifier ==> b.isInResourceIdentifier) &&
    HasFlag(b.parameterType, a.parameterType)
  }

  /** Flags are only ever set, and compiled parameters only ever appended. */
  predicate Grows(a: State, b: State)
  {
    (forall m :: m in a.unique ==> m in b.unique && Within(a.unique[m], b.unique[m])) &&
    a.parameters <= b.parameters
  }

  lemma GrowsTrans(a: State, b: State, c: State)
    requires Grows(a, b) && Grows(b, c)
    ensures Grows(a, c)
  {
    forall m | m in a.unique ensures m in c.unique && Within(a.unique[m], c.unique[m]) {
      var x, y, z := a.unique[m].parameterType, b.unique[m].parameterType, c.unique[m].parameterType;
      assert y & x == x && z & y == y;
      assert z & x == (z & y) & x;
    }
  }

  lemma FlagsGrow(f: UniqueFlags, d: Declared, mapping: string, t: Target)
    ensures Within(f, Flags(f, d, mapping, t))
  {
  }

  /** What one step does for the parameter it compiles. */
  lemma StepFlags(s: State, d: Declared, t: Target)
    requires Step(s, d, t).Success?
    ensures var s' := Step(s, d, t).value;
      |s'.parameters| == |s.parameters| + 1 &&
      var p := s'.parameters[|s.parameters|];
      p.location == d.location && p.name == NameOf(d) && p.required == (d.location.Path? || d.parameter.required == Some(true)) &&
      p.mapping in s'.unique &&
      (d.location.Path? ==> s'.unique[p.mapping].isRequired && s'.unique[p.mapping].isInResourceIdentifier) &&
      (d.location.Query? ==> s'.unique[p.mapping].isInResourceIdentifier) &&
      (d.parameter.required == Some(true) && d.parameter.nullable != Some(true) ==> s'.unique[p.mapping].isRequired) &&
      (UpsertTarget(t, p.mapping) ==> HasFlag(s'.unique[p.mapping].parameterType, SelfReferenceUpsert))
  {
  }

  lemma StepGrows(s: State, d: Declared, t: Target)
    requires Step(s, d, t).Success?
    ensures Grows(s, Step(s, d, t).value)
  {
    var full := Resolve(d, t, s.pathParamCount).value;
    var mapping := Own(full);
    var prior := if mapping in s.unique then s.unique[mapping] else NewUnique(mapping);
    FlagsGrow(prior, d, mapping, t);
  }

  /** A whole loop only grows the state and appends one parameter per declared one. */
  lemma {:induction false} RunGrows(s: State, ds: seq<Declared>, t: Target)
    requires Run(s, ds, t).Success?
    ensures Grows(s, Run(s, ds, t).value)
    ensures |Run(s, ds, t).value.parameters| == |s.parameters| + |ds|
    decreases |ds|
  {
    if ds != [] {
      var prev := Run(s, ds[..|ds| - 1], t).value;
      RunGrows(s, ds[..|ds| - 1], t);
      StepGrows(prev, ds[|ds| - 1], t);
      StepFlags(prev, ds[|ds| - 1], t);
      GrowsTrans(s, prev, Run(s, ds, t).value);
    }
  }

  /** Each prefix of a successful loop succeeded, and the rest only grew its state. */
  lemma PrefixGrows(s: State, ds: seq<Declared>, n: nat, t: Target)
    requires n <= |ds| && Run(s, ds, t).Success?
    ensures Run(s, ds[..n], t).Success?
    ensures Grows(Run(s, ds[..n], t).value, Run(s, ds, t).value)
  {
    if Run(s, ds[..n], t).Failure? {
      RunStops(s, ds, n, t);
    }
    RunAfter(s, ds, n, t);
  }

  /** The loop over ds continues from where the loop over a prefix ended. */
  lemma {:induction false} RunAfter(s: State, ds: seq<Declared>, n: nat, t: Target)
    requires n <= |ds| && Run(s, ds[..n], t).Success? && Run(s, ds, t).Success?
    ensures Grows(Run(s, ds[..n], t).value, Run(s, ds, t).value)
    decreases |ds| - n
  {
    if n == |ds| {
      assert ds[..n] == ds;
    } else {
      RunNext(s, ds, n, t);
      var mid := Run(s, ds[..n], t).value;
      if Run(s, ds[..n + 1], t).Failure? {
        RunStops(s, ds, n + 1, t);
      }
      StepGrows(mid, ds[n], t);
      RunAfter(s, ds, n + 1, t);
      GrowsTrans(mid, Run(s, ds[..n + 1], t).value, Run(s, ds, t).value);
    }
  }

  /** The facts about the i-th compiled parameter of a successful compilation. */
  lemma ParameterFlags(c: ParameterConfigurations, body: map<string, UniqueFlags>, bodyOrder: seq<string>, t: Target, i: nat)
    requires Compile(c, body, bodyOrder, t).Success? && i < |AllParameters(c)|
    ensures var r := Compile(c, body, bodyOrder, t).value; var d := AllParameters(c)[i];
      i < |r.parameters| &&
      var p := r.parameters[i];
      p.location == d.location && p.name == NameOf(d) && p.required == (d.location.Path? || d.parameter.required == Some(true)) &&
      p.mapping in r.unique &&
      (d.location.Path? ==> r.unique[p.mapping].isRequired && r.unique[p.mapping].isInResourceIdentifier) &&
      (d.location.Query? ==> r.unique[p.mapping].isInResourceIdentifier) &&
      (d.parameter.required == Some(true) && d.parameter.nullable != Some(true) ==> r.unique[p.mapping].isRequired) &&
      (UpsertTarget(t, p.mapping) ==> HasFlag(r.unique[p.mapping].parameterType, SelfReferenceUpsert))
  {
    var init := Initial(body, bodyOrder, t.operationType);
    var all := AllParameters(c);
    var fin := Run(init, all, t).value;
    PrefixGrows(init, all, i, t);
    PrefixGrows(init, all, i + 1, t);
    var s0 := Run(init, all[..i], t).value;
    RunGrows(init, all[..i], t);
    RunNext(init, all, i, t);
    StepFlags(s0, all[i], t);
    var s1 := Step(s0, all[i], t).value;
    assert Grows(s1, fin);
    var m := s1.parameters[i].mapping;
    assert fin.parameters[i] == s1.parameters[i];
    var x, z := s1.unique[m].parameterType, fin.unique[m].parameterType;
    assert HasFlag(x, SelfReferenceUpsert) ==> z & SelfReferenceUpsert == (z & x) & SelfReferenceUpsert;
  }

  /** Over path parameters alone the counter advances once per parameter. */
  lemma {:induction false} RunCountsPaths(s: State, ds: seq<Declared>, t: Target)
    requires Run(s, ds, t).Success?
    requires forall j :: 0 <= j < |ds| ==> ds[j].location.Path?
    ensures Run(s, ds, t).value.pathParamCount == s.pathParamCount + |ds|
    decreases |ds|
  {
    if ds != [] {
      RunCountsPaths(s, ds[..|ds| - 1], t);
    }
  }

  /**
   * The i-th path parameter takes the i-th path mapping, without its parents;
   * fewer path mappings than path parameters fail the compilation.
   */
  lemma PathMappings(c: ParameterConfigurations, body: map<string, UniqueFlags>, bodyOrder: seq<string>, t: Target, i: nat)
    requires Compile(c, body, bodyOrder, t).Success? && i < |OrEmpty(c.path)|
    ensures i < |t.pathMappings| && i < |Compile(c, body, bodyOrder, t).value.parameters|
    ensures Compile(c, body, bodyOrder, t).value.parameters[i].mapping == Own(t.pathMappings[i])
  {
    var init := Initial(body, bodyOrder, t.operationType);
    var all := AllParameters(c);
    var fin := Run(init, all, t).value;
    PathParametersFirst(c, i);
    PrefixGrows(init, all, i, t);
    var s0 := Run(init, all[..i], t).value;
    assert s0.pathParamCount == i && |s0.parameters| == i by {
      RunGrows(init, all[..i], t);
      forall j | 0 <= j < i ensures all[..i][j].location.Path? {
        PathParametersFirst(c, j);
      }
      RunCountsPaths(init, all[..i], t);
    }
    PrefixGrows(init, all, i + 1, t);
    RunNext(init, all, i, t);
    StepPath(s0, all[i], t);
    var s1 := Step(s0, all[i], t).value;
    assert fin.parameters[i] == s1.parameters[i] by {
      StepFlags(s0, all[i], t);
      assert Grows(s1, fin);
    }
  }

  /** A path parameter takes the next path mapping. */
  lemma StepPath(s: State, d: Declared, t: Target)
    requires Step(s, d, t).Success? && d.location.Path?
    ensures s.pathParamCount < |t.pathMappings| && |Step(s, d, t).value.parameters| > |s.parameters|
    ensures Step(s, d, t).value.parameters[|s.parameters|].mapping == Own(t.pathMappings[s.pathParamCount])
  {
  }

  /** Fewer path mappings than path parameters: the compilation fails. */
  lemma TooFewPathMappings(c: ParameterConfigurations, body: map<string, UniqueFlags>, bodyOrder: seq<string>, t: Target)
    requires |OrEmpty(c.path)| > |t.pathMappings|
    ensures Compile(c, body, bodyOrder, t).Failure?
  {
    if Compile(c, body, bodyOrder, t).Success? {
      PathMappings(c, body, bodyOrder, t, |t.pathMappings|);
    }
  }

  /** For a creating PUT the last path parameter's unique parameter is an Upsert. */
  lemma UpsertOnLastPathParameter(c: ParameterConfigurations, body: map<string, UniqueFlags>, bodyOrder: seq<string>, t: Target)
    requires Compile(c, body, bodyOrder, t).Success?
    requires t.operationType == Put && t.doesCreate
    requires |OrEmpty(c.path)| > 0 && |OrEmpty(c.path)| == |t.pathMappings|
    ensures var r := Compile(c, body, bodyOrder, t).value; var i := |t.pathMappings| - 1;
      i < |r.parameters| && r.parameters[i].mapping in r.unique &&
      HasFlag(r.unique[r.parameters[i].mapping].parameterType, SelfReferenceUpsert)
  {
    var i := |t.pathMappings| - 1;
    PathMappings(c, body, bodyOrder, t, i);
    PathParametersFirst(c, i);
    ParameterFlags(c, body, bodyOrder, t, i);
  }

  /**
   * A body self-reference of a POST ends up with Create; every flag of a body
   * parameter is kept.
   */
  lemma BodyFlagsKept(c: ParameterConfigurations, body: map<string, UniqueFlags>, bodyOrder: seq<string>, t: Target, k: string)
    requires Compile(c, body, bodyOrder, t).Success? && k in body
    ensures var r := Compile(c, body, bodyOrder, t).value;
      k in r.unique && Within(body[k], r.unique[k]) &&
      (t.operationType == Post && HasFlag(body[k].parameterType, SelfReference) ==>
        HasFlag(r.unique[k].parameterType, SelfReferenceCreate))
  {
    var init := Initial(body, bodyOrder, t.operationType);
    var all := AllParameters(c);
    RunGrows(init, all, t);
    var fin := Run(init, all, t).value;
    var x, y, z := body[k].parameterType, init.unique[k].parameterType, fin.unique[k].parameterType;
    assert y & x == x;
    assert z & y == y;
    assert z & x == (z & y) & x;
    if t.operationType == Post && HasFlag(x, SelfReference) {
      assert y == x | SelfReferenceCreate;
      assert z & SelfReferenceCreate == (z & y) & SelfReferenceCreate;
    }
  }

  /**
   * The first n links of a chain pair each member with the next, parent first;
   * they exist iff all those members are unique parameters.
   */
  lemma {:induction false} ChainLinksShape(e: seq<string>, unique: map<string, UniqueFlags>, n: nat)
    requires n < |e| || n == 0
    ensures ChainLinks(e, unique, n).Success? <==> n == 0 || forall i :: 0 <= i <= n ==> e[i] in unique
    ensures ChainLinks(e, unique, n).Success? ==> |ChainLinks(e, unique, n).value| == n
    ensures ChainLinks(e, unique, n).Success? ==>
      forall i :: 0 <= i < n ==> ChainLinks(e, unique, n).value[i] == (e[i], e[i + 1])
    ensures ChainLinks(e, unique, n).Failure? ==> ChainLinks(e, unique, n).error == Argument
  {
    if n > 0 {
      ChainLinksShape(e, unique, n - 1);
    }
  }

  /** Every link joins two unique parameters. */
  lemma {:induction false} LinksJoinUniques(keys: seq<string>, chains: map<string, seq<string>>, unique: map<string, UniqueFlags>)
    requires Links(keys, chains, unique).Success?
    ensures forall l :: l in Links(keys, chains, unique).value ==> l.0 in unique && l.1 in unique
    decreases |keys|
  {
    if keys != [] {
      LinksJoinUniques(keys[..|keys| - 1], chains, unique);
      var k := keys[|keys| - 1];
      var e := if k in chains then chains[k] else [];
      var n := if |e| > 0 then |e| - 1 else 0;
      ChainLinksShape(e, unique, n);
      var ls := Links(keys[..|keys| - 1], chains, unique).value;
      var more := AllLinks(e, unique).value;
      forall l: (string, string) | l in ls + more ensures l.0 in unique && l.1 in unique {
        if l !in ls {
          var i :| 0 <= i < |more| && more[i] == l;
          assert e[i] in unique && e[i + 1] in unique;
        }
      }
    }
  }
}

