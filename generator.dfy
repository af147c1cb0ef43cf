/**
 * The rules of TestParameterGenerator (ObST.Tester/Domain/TestParameterGenerator.cs).
 * An FsCheck generator is modelled by the set of values it can produce: Gen.Constant
 * is a singleton, Gen.Elements the listed values, Gen.Choose a range, Where a
 * filter, and Gen.Frequency the union of the alternatives whose weight is positive;
 * a generator is a Gen term and Outcomes is that set.
 * Where the source samples once and then mutates an object, the sample is a
 * parameter (a chosen value, which optional parameters are included) and the
 * mutation is a method proved against a function of that choice.
 */
module Generator {
  import opened Wrappers
  import opened Values
  import opened Schemas
  import opened Links
  import opened CoreModels
  import opened GeneratorOptions
  import AnalyzerUtil
  import Text
  import Orders
  import TestModels
  import Lookups
  import Domain
  import OperationValues

  /** TestGeneratorConfig: the weights, out of 100, of the alternatives it configures. */
  datatype GeneratorConfig = GeneratorConfig(
    ignoreOptionalPropertiesFrequency: int,
    nullValueForNullableFrequency: int,
    useKnownIdFrequency: int,
    useInvalidOrNullIdentityFrequency: int)

  // ---------------------------------------------------------------------------------
  // ConvertType

  predicate AllDigits(s: string)
  {
    forall i :: 0 <= i < |s| ==> Text.IsDigit(s[i])
  }

  /** long.Parse with NumberStyles.Integer: an optional sign, then decimal digits. */
  function ParseLong(s: string): Result<int>
  {
    var signed := |s| > 0 && (s[0] == '-' || s[0] == '+');
    var digits := if signed then s[1..] else s;
    if |digits| == 0 || !AllDigits(digits) then Failure(Format)
    else
      var d: int := Text.ParseDigits(digits);
      var n := if signed && s[0] == '-' then -d else d;
      if -0x8000_0000_0000_0000 <= n <= 0x7FFF_FFFF_FFFF_FFFF then Success(n) else Failure(Overflow)
  }

  /** Convert.ToBoolean of a string (bool.Parse): "true" or "false" in any case. */
  function ParseBool(s: string): Result<bool>
  {
    if Text.ToLower(s) == "true" then Success(true)
    else if Text.ToLower(s) == "false" then Success(false)
    else Failure(Format)
  }

  /**
   * ConvertType: an id string becomes a long, stays a string or becomes a bool
   * as the schema type (without its Null flag) says; other types throw, and a
   * value that is not a string passes through.
   */
  function ConvertType(value: Option<Value>, kind: JsonObjectType): Result<Option<Value>>
  {
    if value.Some? && value.value.Str? then
      var s := value.value.s;
      var t := kind & !NullType;
      if t == IntegerType then
        match ParseLong(s)
        case Failure(e) => Failure(e)
        case Success(n) => Success(Some(Long(n)))
      else if t == StringType then Success(value)
      else if t == BooleanType then
        match ParseBool(s)
        case Failure(e) => Failure(e)
        case Success(b) => Success(Some(Bool(b)))
      else Failure(NotImplemented)
    else Success(value)
  }

  /** Nulls and values that are not strings are returned unchanged, whatever the type. */
  lemma ConvertKeepsNonStrings(value: Option<Value>, kind: JsonObjectType)
    requires value.None? || !value.value.Str?
    ensures ConvertType(value, kind) == Success(value)
  {
  }

  /** The rendering of a 64-bit integer converts back to that integer. */
  lemma ConvertIntegerText(n: int, kind: JsonObjectType)
    requires -0x8000_0000_0000_0000 <= n <= 0x7FFF_FFFF_FFFF_FFFF
    requires kind & !NullType == IntegerType
    ensures ConvertType(Some(Str(Text.IntToString(n))), kind) == Success(Some(Long(n)))
  {
    ParseLongText(n);
  }

  /** long.Parse reads back what int.ToString wrote. */
  lemma ParseLongText(n: int)
    requires -0x8000_0000_0000_0000 <= n <= 0x7FFF_FFFF_FFFF_FFFF
    ensures ParseLong(Text.IntToString(n)) == Success(n)
  {
    var s := Text.IntToString(n);
    if n < 0 {
      var digits := Text.NatToString(-n);
      assert s == "-" + digits;
      assert s[1..] == digits;
      assert AllDigits(digits);
      Text.ParseNatToString(-n);
      assert Text.ParseDigits(digits) == -n;
    } else {
      var digits := Text.NatToString(n);
      assert s == digits;
      assert Text.IsDigit(s[0]);
      assert AllDigits(digits);
      Text.ParseNatToString(n);
    }
  }

  /** The rendering of a boolean converts back to it; text that is neither fails with Format. */
  lemma ConvertBooleanText(b: bool, s: string, kind: JsonObjectType)
    requires kind & !NullType == BooleanType
    ensures ConvertType(Some(Str(ToText(Some(Bool(b))))), kind) == Success(Some(Bool(b)))
    ensures Text.ToLower(s) != "true" && Text.ToLower(s) != "false" ==> ConvertType(Some(Str(s)), kind) == Failure(Format)
  {
    BoolTextLower();
  }

  lemma BoolTextLower()
    ensures Text.ToLower("True") == "true" && Text.ToLower("False") == "false"
  {
    assert Text.ToLower("True") == "true";
    assert Text.ToLower("False") == "false";
  }

  /** Text that does not end in a digit is not a number. */
  lemma ParseLongNonDigit(s: string)
    requires s == [] || !Text.IsDigit(s[|s| - 1])
    ensures ParseLong(s) == Failure(Format)
  {
    var signed := |s| > 0 && (s[0] == '-' || s[0] == '+');
    var digits := if signed then s[1..] else s;
    if |digits| > 0 {
      assert digits[|digits| - 1] == s[|s| - 1];
    }
  }

  /** A string stays itself for a string schema; a non-number fails for an integer schema. */
  lemma ConvertStringText(s: string, kind: JsonObjectType)
    ensures kind & !NullType == StringType ==> ConvertType(Some(Str(s)), kind) == Success(Some(Str(s)))
    ensures kind & !NullType == IntegerType && (s == [] || !Text.IsDigit(s[|s| - 1])) ==>
      ConvertType(Some(Str(s)), kind) == Failure(Format)
  {
    if kind & !NullType == IntegerType && (s == [] || !Text.IsDigit(s[|s| - 1])) {
      ParseLongNonDigit(s);
    }
  }

  // ---------------------------------------------------------------------------------
  // GetRandomValueGenerator

  const SimpleChars := "abcdefghijklmnopqrstuvwxyzABCDEFGHIJKLMNOPQRSTUVWXYZ0123456789"

  /** The generators GetGenerator composes, as terms. */
  datatype Gen =
    | Constant(value: Option<Value>)          // Gen.Constant
    | Elements(values: seq<Value>)            // Gen.Elements of values
    | KnownElements(known: seq<string>)       // Gen.Elements of known ids, which are strings
    | Choose(lo: int, hi: int)                // Gen.Choose of ints
    | DateText                                // a DateTime rendered by a format string
    | SimpleText(maxLength: nat)              // a string of simple characters
    | Where(source: Gen, known: seq<string>)  // the RequireUnknown filter
    | Frequency(w1: int, g1: Gen, w2: int, g2: Gen)

  /** A string of simple characters no longer than the bound. */
  predicate SimpleString(s: string, maxLength: nat)
  {
    |s| <= maxLength && forall i :: 0 <= i < |s| ==> s[i] in SimpleChars
  }

  /**
   * The filter as intended: the value, rendered as an id, is not a known id
   * (null passes, as no id equals null).
   */
  predicate Unknown(v: Option<Value>, known: seq<string>)
  {
    v.None? || ToText(v) !in known
  }

  /**
   * RequireUnknown's filter as written: knownValues.All(k => !k.Equals(o)).
   * A known id is a string and string.Equals(object) is false for any boxed
   * number, so only string values are ever excluded.
   */
  predicate UnknownAsWritten(v: Option<Value>, known: seq<string>)
  {
    forall k :: k in known ==> v != Some(Str(k))
  }

  /** What a generator can produce; Gen.Frequency yields the alternatives whose weight is positive. */
  ghost function Outcomes(g: Gen): iset<Option<Value>>
  {
    match g
    case Constant(v) => iset{v}
    case Elements(vs) => iset v | v in vs :: Some(v)
    case KnownElements(known) => iset k | k in known :: Some(Str(k))
    case Choose(lo, hi) => iset i | lo <= i <= hi :: Some(Int(i))
    case DateText => iset s: string | true :: Some(Str(s))
    case SimpleText(n) => iset s: string | SimpleString(s, n) :: Some(Str(s))
    case Where(source, known) => iset v | v in Outcomes(source) && Unknown(v, known)
    case Frequency(w1, g1, w2, g2) => (if w1 > 0 then Outcomes(g1) else iset{}) + (if w2 > 0 then Outcomes(g2) else iset{})
  }

  /**
   * GetRandomValueGenerator: an enumeration's members; both booleans; the int16
   * or int32 range for an integer (int64 uses the int32 range); a rendered
   * date or time, or a string of up to 1000 simple characters, for a string.
   * Other types and integer formats throw.
   */
  function RandomGen(schema: JsonSchema): Result<Gen>
  {
    if |schema.enumeration| > 0 then Success(Elements(schema.enumeration))
    else
      var t := schema.BaseType();
      if t == BooleanType then Success(Elements([Bool(false), Bool(true)]))
      else if t == IntegerType then
        if schema.format == Some("int16") then Success(Choose(-0x8000, 0x7FFF))
        else if schema.format in {None, Some("int32"), Some("int64")} then Success(Choose(-0x8000_0000, 0x7FFF_FFFF))
        else Failure(NotImplemented)
      else if t == StringType then
        if schema.format in {Some("date-time"), Some("date"), Some("time")} then Success(DateText)
        else Success(SimpleText(1000))
      else Failure(NotImplemented)
  }

  /**
   * Random values are never null; an enumeration yields exactly its members;
   * an int64 id is drawn from the int32 range.
   */
  lemma RandomValues(schema: JsonSchema)
    requires RandomGen(schema).Success?
    ensures None !in Outcomes(RandomGen(schema).value)
    ensures |schema.enumeration| > 0 ==> forall v :: v in Outcomes(RandomGen(schema).value) <==> v.Some? && v.value in schema.enumeration
    ensures |schema.enumeration| == 0 && schema.BaseType() == IntegerType && schema.format == Some("int64") ==>
      Some(Int(0x7FFF_FFFF)) in Outcomes(RandomGen(schema).value) && Some(Int(0x8000_0000)) !in Outcomes(RandomGen(schema).value)
  {
  }

  // ---------------------------------------------------------------------------------
  // Ancestors

  /** Parents.FirstOrDefault(): the parent under the least mapping. */
  function FirstParent(g: ParamGraph, n: NodeId): (p: NodeId)
    requires Closed(g) && n in g && |g[n].parents| > 0
    ensures p in g
  {
    assert Orders.StrMin(g[n].parents.Keys) in g[n].parents;
    g[n].parents[Orders.StrMin(g[n].parents.Keys)]
  }

  /**
   * The first-parent chain above n, outermost first; none when it is longer
   * than fuel (on a cycle of first parents the source loops for ever).
   */
  function Ancestry(g: ParamGraph, n: NodeId, fuel: nat): (r: Option<seq<NodeId>>)
    requires Closed(g) && n in g
    ensures r.Some? ==> forall i :: 0 <= i < |r.value| ==> r.value[i] in g
    decreases fuel
  {
    if |g[n].parents| == 0 then Some([])
    else if fuel == 0 then None
    else
      var p := FirstParent(g, n);
      match Ancestry(g, p, fuel - 1)
      case None => None
      case Some(a) => Some(a + [p])
  }

  /** Each ancestor's mapping with the text of the value already chosen for it. */
  function OtherIds(g: ParamGraph, chain: seq<NodeId>, otherValues: map<string, Option<Value>>): Result<seq<(string, string)>>
    requires forall i :: 0 <= i < |chain| ==> chain[i] in g
  {
    if chain == [] then Success([])
    else
      var m := g[chain[0]].mapping;
      if m !in otherValues then Failure(KeyNotFound)
      else
        match OtherIds(g, chain[1..], otherValues)
        case Failure(e) => Failure(e)
        case Success(rest) => Success([(m, ToText(otherValues[m]))] + rest)
  }

  /**
   * The chain is outermost first: it starts at a root, each node is the first
   * parent of the next, and the last is n's own first parent.
   */
  lemma {:induction false} AncestryShape(g: ParamGraph, n: NodeId, fuel: nat)
    requires Closed(g) && n in g && Ancestry(g, n, fuel).Some?
    ensures var a := Ancestry(g, n, fuel).value;
      (a == [] <==> |g[n].parents| == 0) &&
      (forall i :: 0 <= i < |a| ==> a[i] in g) &&
      (a != [] ==> |g[a[0]].parents| == 0 && a[|a| - 1] == FirstParent(g, n)) &&
      (forall i :: 1 <= i < |a| ==> |g[a[i]].parents| > 0 && FirstParent(g, a[i]) == a[i - 1])
    decreases fuel
  {
    if |g[n].parents| > 0 {
      var p := FirstParent(g, n);
      assert Orders.StrMin(g[n].parents.Keys) in g[n].parents;
      AncestryShape(g, p, fuel - 1);
      var b := Ancestry(g, p, fuel - 1).value;
      var a := b + [p];
      assert Ancestry(g, n, fuel).value == a;
      if b != [] {
        assert a[0] == b[0];
        assert a[|b| - 1] == b[|b| - 1] == FirstParent(g, p);
      }
    }
  }

  /** The pairs follow the chain: the i-th is the i-th ancestor's mapping and its value's text. */
  lemma {:induction false} OtherIdsPairs(g: ParamGraph, chain: seq<NodeId>, otherValues: map<string, Option<Value>>)
    requires forall i :: 0 <= i < |chain| ==> chain[i] in g
    ensures OtherIds(g, chain, otherValues).Success? <==> forall i :: 0 <= i < |chain| ==> g[chain[i]].mapping in otherValues
    ensures OtherIds(g, chain, otherValues).Success? ==>
      |OtherIds(g, chain, otherValues).value| == |chain| &&
      forall i :: 0 <= i < |chain| ==>
        OtherIds(g, chain, otherValues).value[i] == (g[chain[i]].mapping, ToText(otherValues[g[chain[i]].mapping]))
  {
    if chain != [] {
      OtherIdsPairs(g, chain[1..], otherValues);
      assert forall i :: 1 <= i < |chain| ==> chain[i] == chain[1..][i - 1];
    }
  }

  /** OtherIds of a chain with one more node in front. */
  lemma OtherIdsCons(g: ParamGraph, p: NodeId, tail: seq<NodeId>, otherValues: map<string, Option<Value>>)
    requires p in g && forall i :: 0 <= i < |tail| ==> tail[i] in g
    ensures OtherIds(g, [p] + tail, otherValues) ==
      if g[p].mapping !in otherValues then Failure(KeyNotFound)
      else match OtherIds(g, tail, otherValues)
        case Failure(e) => Failure(e)
        case Success(rest) => Success([(g[p].mapping, ToText(otherValues[g[p].mapping]))] + rest)
  {
    assert ([p] + tail)[1..] == tail;
  }

  /** A missing value anywhere in a chain makes it fail with KeyNotFound. */
  lemma {:induction false} OtherIdsMissing(g: ParamGraph, front: seq<NodeId>, tail: seq<NodeId>, otherValues: map<string, Option<Value>>)
    requires forall i :: 0 <= i < |front| ==> front[i] in g
    requires forall i :: 0 <= i < |tail| ==> tail[i] in g
    requires OtherIds(g, tail, otherValues).Failure?
    ensures OtherIds(g, front + tail, otherValues) == Failure(KeyNotFound)
  {
    OtherIdsPairs(g, tail, otherValues);
    var i :| 0 <= i < |tail| && g[tail[i]].mapping !in otherValues;
    OtherIdsPairs(g, front + tail, otherValues);
    assert (front + tail)[|front| + i] == tail[i];
    if OtherIds(g, front + tail, otherValues).Success? {
      assert false;
    }
    OtherIdsFailure(g, front + tail, otherValues);
  }

  /** OtherIds only ever fails with KeyNotFound. */
  lemma {:induction false} OtherIdsFailure(g: ParamGraph, chain: seq<NodeId>, otherValues: map<string, Option<Value>>)
    requires forall i :: 0 <= i < |chain| ==> chain[i] in g
    ensures OtherIds(g, chain, otherValues).Failure? ==> OtherIds(g, chain, otherValues).error == KeyNotFound
  {
    if chain != [] {
      OtherIdsFailure(g, chain[1..], otherValues);
    }
  }

  /** One climb of the loop in Ancestors: the invariant carries over to the first parent. */
  lemma AncestorsStep(g: ParamGraph, n: NodeId, p: NodeId, fuel: nat, tail: seq<NodeId>,
                      otherIds: seq<(string, string)>, otherValues: map<string, Option<Value>>)
    requires Closed(g) && n in g && p in g && |g[p].parents| > 0
    requires Ancestry(g, n, |g|).Some? && Ancestry(g, p, fuel).Some?
    requires forall i :: 0 <= i < |tail| ==> tail[i] in g
    requires Ancestry(g, n, |g|).value == Ancestry(g, p, fuel).value + tail
    requires OtherIds(g, tail, otherValues) == Success(otherIds)
    ensures fuel > 0 && Ancestry(g, FirstParent(g, p), fuel - 1).Some?
    ensures Ancestry(g, n, |g|).value == Ancestry(g, FirstParent(g, p), fuel - 1).value + ([FirstParent(g, p)] + tail)
    ensures g[FirstParent(g, p)].mapping !in otherValues ==>
      OtherIds(g, Ancestry(g, n, |g|).value, otherValues) == Failure(KeyNotFound)
    ensures g[FirstParent(g, p)].mapping in otherValues ==>
      OtherIds(g, [FirstParent(g, p)] + tail, otherValues) ==
      Success([(g[FirstParent(g, p)].mapping, ToText(otherValues[g[FirstParent(g, p)].mapping]))] + otherIds)
  {
    assert Orders.StrMin(g[p].parents.Keys) in g[p].parents;
    var q := FirstParent(g, p);
    var front := Ancestry(g, q, fuel - 1).value;
    assert Ancestry(g, p, fuel).value == front + [q];
    assert Ancestry(g, n, |g|).value == front + ([q] + tail);
    OtherIdsCons(g, q, tail, otherValues);
    if g[q].mapping !in otherValues {
      OtherIdsMissing(g, front, [q] + tail, otherValues);
    }
  }

  /**
   * The while loop of GetGenerator: climb the first parents and prepend each
   * one's mapping and the text of its chosen value.
   */
  method Ancestors(g: ParamGraph, n: NodeId, otherValues: map<string, Option<Value>>) returns (r: Result<seq<(string, string)>>)
    requires Closed(g) && n in g && Ancestry(g, n, |g|).Some?
    ensures r == OtherIds(g, Ancestry(g, n, |g|).value, otherValues)
  {
    var otherIds: seq<(string, string)> := [];
    ghost var tail: seq<NodeId> := [];
    ghost var fuel: nat := |g|;
    var p := n;
    while |g[p].parents| > 0
      invariant p in g && Ancestry(g, p, fuel).Some?
      invariant forall i :: 0 <= i < |tail| ==> tail[i] in g
      invariant Ancestry(g, n, |g|).value == Ancestry(g, p, fuel).value + tail
      invariant OtherIds(g, tail, otherValues) == Success(otherIds)
      decreases fuel
    {
      AncestorsStep(g, n, p, fuel, tail, otherIds, otherValues);
      var q := FirstParent(g, p);
      var m := g[q].mapping;
      if m !in otherValues {
        return Failure(KeyNotFound);
      }
      otherIds := [(m, ToText(otherValues[m]))] + otherIds;
      tail := [q] + tail;
      p, fuel := q, fuel - 1;
    }
    assert Ancestry(g, n, |g|).value == tail;
    r := Success(otherIds);
  }

  // ---------------------------------------------------------------------------------
  // GetGenerator

  /** The generator of a mode before the nullable alternative is added. */
  function ModeGen(mode: GeneratorMode, constant: Option<Value>, random: Gen, known: seq<string>, config: GeneratorConfig): Gen
  {
    match mode
    case Random =>
      if |known| > 0 then
        Frequency(100 - config.useKnownIdFrequency, random, config.useKnownIdFrequency, KnownElements(known))
      else random
    case RequireUnknown => Where(random, known)
    case UseConstant => Constant(constant)
  }

  /** The nullable alternative: null with the configured weight. */
  function WithNull(nullable: bool, g: Gen, config: GeneratorConfig): Gen
  {
    if nullable then Frequency(100 - config.nullValueForNullableFrequency, g, config.nullValueForNullableFrequency, Constant(None))
    else g
  }

  /**
   * GetGenerator: the ancestor ids, then the mode's generator (the random
   * generator and the model's known ids, deleted ones included, for Random and
   * RequireUnknown), then null for a nullable schema.
   */
  function GeneratorSpec(nodes: TestModels.IdGraph, state: TestModels.State, g: ParamGraph, otherValues: map<string, Option<Value>>,
                         mode: GeneratorMode, constant: Option<Value>, n: NodeId, config: GeneratorConfig): Result<Gen>
    requires TestModels.Wf(nodes, state) && Closed(g) && n in g && Ancestry(g, n, |g|).Some?
  {
    var schema := g[n].data.schema;
    match OtherIds(g, Ancestry(g, n, |g|).value, otherValues)
    case Failure(e) => Failure(e)
    case Success(ids) =>
      if mode == UseConstant then Success(WithNull(schema.Nullable(), Constant(constant), config))
      else
        match RandomGen(schema)
        case Failure(e) => Failure(e)
        case Success(random) =>
          match Lookups.Get(nodes, state, ids, schema.title, true)
          case Failure(e) => Failure(e)
          case Success(known) => Success(WithNull(schema.Nullable(), ModeGen(mode, constant, random, known, config), config))
  }

  /** The known ids under the parameter's ancestors, as GetGenerator asks the model for them. */
  function KnownIds(nodes: TestModels.IdGraph, state: TestModels.State, g: ParamGraph, otherValues: map<string, Option<Value>>, n: NodeId): Result<seq<string>>
    requires TestModels.Wf(nodes, state) && Closed(g) && n in g && Ancestry(g, n, |g|).Some?
  {
    match OtherIds(g, Ancestry(g, n, |g|).value, otherValues)
    case Failure(e) => Failure(e)
    case Success(ids) => Lookups.Get(nodes, state, ids, g[n].data.schema.title, true)
  }

  /** GetGenerator, on the identity model object. */
  method GetGenerator(model: Domain.TestModel, g: ParamGraph, otherValues: map<string, Option<Value>>,
                      mode: GeneratorMode, constant: Option<Value>, n: NodeId, config: GeneratorConfig)
    returns (r: Result<Gen>)
    requires model.Valid() && Closed(g) && n in g && Ancestry(g, n, |g|).Some?
    ensures r == GeneratorSpec(model.nodes, model.state, g, otherValues, mode, constant, n, config)
  {
    var otherIds := Ancestors(g, n, otherValues);
    if otherIds.Failure? {
      return Failure(otherIds.error);
    }
    var schema := g[n].data.schema;
    var generator: Gen;
    if mode == UseConstant {
      generator := Constant(constant);
    } else {
      var random := RandomGen(schema);
      if random.Failure? {
        return Failure(random.error);
      }
      var known := model.Get(otherIds.value, schema.title, true);
      if known.Failure? {
        return Failure(known.error);
      }
      generator := ModeGen(mode, constant, random.value, known.value, config);
    }
    if schema.Nullable() {
      generator := Frequency(100 - config.nullValueForNullableFrequency, generator, config.nullValueForNullableFrequency, Constant(None));
    }
    r := Success(generator);
  }

  /**
   * UseConstant can produce only the constant, and null when the schema is
   * nullable; with the default weights exactly the constant. It fails only
   * when an ancestor has no value yet.
   */
  lemma UseConstantOnly(nodes: TestModels.IdGraph, state: TestModels.State, g: ParamGraph, otherValues: map<string, Option<Value>>,
                        constant: Option<Value>, n: NodeId, config: GeneratorConfig)
    requires TestModels.Wf(nodes, state) && Closed(g) && n in g && Ancestry(g, n, |g|).Some?
    ensures GeneratorSpec(nodes, state, g, otherValues, UseConstant, constant, n, config).Success? <==>
      OtherIds(g, Ancestry(g, n, |g|).value, otherValues).Success?
    ensures GeneratorSpec(nodes, state, g, otherValues, UseConstant, constant, n, config).Success? ==>
      forall v :: v in Outcomes(GeneratorSpec(nodes, state, g, otherValues, UseConstant, constant, n, config).value) ==>
        v == constant || (v.None? && g[n].data.schema.Nullable())
    ensures (GeneratorSpec(nodes, state, g, otherValues, UseConstant, constant, n, config).Success? &&
             (!g[n].data.schema.Nullable() || config.nullValueForNullableFrequency <= 0)) ==>
      Outcomes(GeneratorSpec(nodes, state, g, otherValues, UseConstant, constant, n, config).value) == iset{constant}
  {
  }

  /** Filtering, with or without the nullable alternative, leaves no value that renders as a known id. */
  lemma FilteredAvoidsKnown(random: Gen, known: seq<string>, nullable: bool, config: GeneratorConfig)
    ensures forall v :: v in Outcomes(WithNull(nullable, Where(random, known), config)) && v.Some? ==> ToText(v) !in known
  {
  }

  /** With a positive weight, Random offers each known id, with or without the nullable alternative. */
  lemma KnownOffered(random: Gen, known: seq<string>, k: string, constant: Option<Value>, nullable: bool, config: GeneratorConfig)
    requires k in known && config.useKnownIdFrequency > 0 && config.nullValueForNullableFrequency < 100
    ensures Some(Str(k)) in Outcomes(WithNull(nullable, ModeGen(Random, constant, random, known, config), config))
  {
    assert Some(Str(k)) in Outcomes(KnownElements(known));
  }

  /** RequireUnknown never produces a value whose rendering is an id the model knows under the same ancestors. */
  lemma RequireUnknownAvoidsKnown(nodes: TestModels.IdGraph, state: TestModels.State, g: ParamGraph, otherValues: map<string, Option<Value>>,
                                  constant: Option<Value>, n: NodeId, config: GeneratorConfig)
    requires TestModels.Wf(nodes, state) && Closed(g) && n in g && Ancestry(g, n, |g|).Some?
    requires GeneratorSpec(nodes, state, g, otherValues, RequireUnknown, constant, n, config).Success?
    ensures KnownIds(nodes, state, g, otherValues, n).Success?
    ensures forall v :: v in Outcomes(GeneratorSpec(nodes, state, g, otherValues, RequireUnknown, constant, n, config).value) && v.Some? ==>
      ToText(v) !in KnownIds(nodes, state, g, otherValues, n).value
  {
    var schema := g[n].data.schema;
    var ids := OtherIds(g, Ancestry(g, n, |g|).value, otherValues).value;
    var random := RandomGen(schema).value;
    var known := Lookups.Get(nodes, state, ids, schema.title, true).value;
    assert GeneratorSpec(nodes, state, g, otherValues, RequireUnknown, constant, n, config).value ==
      WithNull(schema.Nullable(), Where(random, known), config);
    FilteredAvoidsKnown(random, known, schema.Nullable(), config);
  }

  /** Random offers every known id when the known-id weight is positive. */
  lemma RandomOffersKnown(nodes: TestModels.IdGraph, state: TestModels.State, g: ParamGraph, otherValues: map<string, Option<Value>>,
                          constant: Option<Value>, n: NodeId, config: GeneratorConfig, k: string)
    requires TestModels.Wf(nodes, state) && Closed(g) && n in g && Ancestry(g, n, |g|).Some?
    requires GeneratorSpec(nodes, state, g, otherValues, Random, constant, n, config).Success?
    requires config.useKnownIdFrequency > 0 && config.nullValueForNullableFrequency < 100
    ensures KnownIds(nodes, state, g, otherValues, n).Success?
    ensures k in KnownIds(nodes, state, g, otherValues, n).value ==>
      Some(Str(k)) in Outcomes(GeneratorSpec(nodes, state, g, otherValues, Random, constant, n, config).value)
  {
    var schema := g[n].data.schema;
    var ids := OtherIds(g, Ancestry(g, n, |g|).value, otherValues).value;
    var random := RandomGen(schema).value;
    var known := Lookups.Get(nodes, state, ids, schema.title, true).value;
    if k in known {
      assert GeneratorSpec(nodes, state, g, otherValues, Random, constant, n, config).value ==
        WithNull(schema.Nullable(), ModeGen(Random, constant, random, known, config), config);
      KnownOffered(random, known, k, constant, schema.Nullable(), config);
    }
  }

  /** As written, RequireUnknown may produce a number that is a known id: 5 passes the filter when "5" is known. */
  lemma KnownNumberPassesAsWritten()
    ensures UnknownAsWritten(Some(Int(5)), ["5"])
    ensures Some(Int(5)) in Outcomes(Choose(-0x8000_0000, 0x7FFF_FFFF))
    ensures !Unknown(Some(Int(5)), ["5"])
  {
    assert Text.IntToString(5) == "5";
  }

  /** For string values the intended filter and the written one agree. */
  lemma UnknownAgreesOnStrings(s: string, known: seq<string>)
    ensures Unknown(Some(Str(s)), known) <==> UnknownAsWritten(Some(Str(s)), known)
  {
  }

  // ---------------------------------------------------------------------------------
  // Identity choice

  /**
   * The identities GenUniqueParameters can choose: when the operation has valid
   * identities, one of them or, with the configured weight, one of the others;
   * otherwise any identity.
   */
  function IdentityOutcomes(valid: set<SutIdentity>, identities: seq<SutIdentity>, config: GeneratorConfig): set<SutIdentity>
  {
    if |valid| > 0 then
      var invalid := set i | i in identities && i !in valid;
      if |invalid| > 0 then
        (if 100 - config.useInvalidOrNullIdentityFrequency > 0 then valid else {}) +
        (if config.useInvalidOrNullIdentityFrequency > 0 then invalid else {})
      else valid
    else set i | i in identities
  }

  /**
   * The SutOperationValues of a chosen identity: the unique values, the option
   * and the identity, with IdentityHasAllPermissions set when the identity is
   * one of the operation's valid identities.
   */
  method NewOperationValues(op: SutOperation, identities: seq<SutIdentity>, config: GeneratorConfig,
                            values: map<string, Option<Value>>, option: Entries, identity: SutIdentity)
    returns (r: OperationValues.SutOperationValues)
    requires identity in IdentityOutcomes(op.validIdentities, identities, config)
    ensures fresh(r)
    ensures r.identity == identity && r.usedGeneratorOptions == option
    ensures r.identityHasAllPermissions <==> identity in op.validIdentities
    ensures r.uniqueParameters == OperationValues.Unused(values)
  {
    r := new OperationValues.SutOperationValues(values, option, identity, identity in op.validIdentities);
  }

  /**
   * With valid identities, only those are chosen unless the weight of the others
   * is positive, and then (if its own weight is too) every identity can be.
   */
  lemma IdentityChoice(valid: set<SutIdentity>, identities: seq<SutIdentity>, config: GeneratorConfig, i: SutIdentity)
    requires |valid| > 0
    ensures config.useInvalidOrNullIdentityFrequency <= 0 ==> (i in IdentityOutcomes(valid, identities, config) <==> i in valid)
    ensures 0 < config.useInvalidOrNullIdentityFrequency < 100 ==>
      (i in IdentityOutcomes(valid, identities, config) <==> i in valid || i in identities)
  {
    var invalid := set j | j in identities && j !in valid;
    if i in identities && i !in valid {
      assert i in invalid;
    }
  }

  /** Without valid identities every listed identity can be chosen. */
  lemma NoValidIdentities(identities: seq<SutIdentity>, config: GeneratorConfig, i: SutIdentity)
    ensures i in IdentityOutcomes({}, identities, config) <==> i in identities
  {
  }

  // ---------------------------------------------------------------------------------
  // GenParams

  /** ParameterLocation.ToString(), the location UseParameter records. */
  function LocationName(l: AnalyzerUtil.ParameterLocation): string
  {
    match l
    case Query => "Query"
    case Header => "Header"
    case Path => "Path"
    case Cookie => "Cookie"
  }

  /** The parts of a SutOperationValues that GenParams fills. */
  datatype Request = Request(
    uniqueParameters: map<string, OperationValues.Used>,
    query: map<string, string>,
    header: map<string, string>,
    path: seq<string>,
    cookie: map<string, string>)

  function Snap(v: OperationValues.SutOperationValues): Request
    reads v
  {
    Request(v.uniqueParameters, v.query, v.header, v.path, v.cookie)
  }

  /** A parameter whose schema ApplyValues reads as one value (not an object or array). */
  predicate Scalar(p: SutParameter)
  {
    !p.schema.IsObject() && !p.schema.IsArray()
  }

  /**
   * The text an included parameter contributes: its unique value, converted to
   * the schema type and rendered; none for a null value of a non-nullable
   * schema. A mapping without a value throws.
   */
  function Rendered(stored: map<string, OperationValues.Used>, p: SutParameter): Result<Option<string>>
  {
    if p.schema.title !in stored then Failure(KeyNotFound)
    else
      match ConvertType(stored[p.schema.title].value, p.schema.kind)
      case Failure(e) => Failure(e)
      case Success(v) => if v.None? && !p.schema.Nullable() then Success(None) else Success(Some(ToText(v)))
  }

  /** UseParameter's record of the use. */
  function Use(q: Request, p: SutParameter): Request
    requires p.schema.title in q.uniqueParameters
  {
    var u := q.uniqueParameters[p.schema.title];
    q.(uniqueParameters := q.uniqueParameters[p.schema.title := OperationValues.Used(u.value, u.usedIn + [LocationName(p.location)])])
  }

  /** The switch on the location: Add under the name (a duplicate name throws), or append to the path. */
  function Place(q: Request, p: SutParameter, s: string): Result<Request>
  {
    match p.location
    case Query => if p.name in q.query then Failure(Argument) else Success(q.(query := q.query[p.name := s]))
    case Header => if p.name in q.header then Failure(Argument) else Success(q.(header := q.header[p.name := s]))
    case Cookie => if p.name in q.cookie then Failure(Argument) else Success(q.(cookie := q.cookie[p.name := s]))
    case Path => Success(q.(path := q.path + [s]))
  }

  /** One parameter of GenParams, included or left out. */
  function Step(q: Request, p: SutParameter, included: bool): Result<Request>
  {
    if !included then Success(q)
    else
      match Rendered(q.uniqueParameters, p)
      case Failure(e) => Failure(e)
      case Success(None) => Success(Use(q, p))
      case Success(Some(s)) => Place(Use(q, p), p, s)
  }

  /** GenParams over the parameters in declared order, with chosen inclusions. */
  function GenAll(q: Request, ps: seq<SutParameter>, chosen: seq<bool>): Result<Request>
    requires |chosen| == |ps|
    decreases |ps|
  {
    if ps == [] then Success(q)
    else
      match Step(q, ps[0], chosen[0])
      case Failure(e) => Failure(e)
      case Success(q1) => GenAll(q1, ps[1..], chosen[1..])
  }

  /** The inclusions Gen.Frequency can pick: required parameters always, optional ones as the weights allow. */
  predicate PossibleInclusion(ps: seq<SutParameter>, chosen: seq<bool>, config: GeneratorConfig)
  {
    |chosen| == |ps| &&
    forall i :: 0 <= i < |ps| ==>
      (ps[i].required ==> chosen[i]) &&
      (!ps[i].required && chosen[i] ==> 100 - config.ignoreOptionalPropertiesFrequency > 0) &&
      (!chosen[i] ==> config.ignoreOptionalPropertiesFrequency > 0)
  }

  /** With the default weight of 0 for ignoring, every parameter is included. */
  lemma DefaultIncludesAll(ps: seq<SutParameter>, chosen: seq<bool>, config: GeneratorConfig)
    requires PossibleInclusion(ps, chosen, config) && config.ignoreOptionalPropertiesFrequency <= 0
    ensures forall i :: 0 <= i < |ps| ==> chosen[i]
  {
  }

  /**
   * GenParams, for one sample: each included parameter takes its unique
   * value through UseParameter and lands in the query, header or cookie under
   * its name, or at the end of the path.
   */
  method GenParams(values: OperationValues.SutOperationValues, ps: seq<SutParameter>, chosen: seq<bool>, config: GeneratorConfig)
    returns (error: Option<Exception>)
    requires PossibleInclusion(ps, chosen, config)
    requires forall i :: 0 <= i < |ps| ==> Scalar(ps[i])
    modifies values
    ensures var r := GenAll(old(Snap(values)), ps, chosen);
      (r.Success? ==> error.None? && Snap(values) == r.value) &&
      (r.Failure? ==> error == Some(r.error))
  {
    for k := 0 to |ps|
      invariant GenAll(old(Snap(values)), ps, chosen) == GenAll(Snap(values), ps[k..], chosen[k..])
    {
      assert ps[k..][0] == ps[k] && ps[k..][1..] == ps[k + 1..];
      assert chosen[k..][0] == chosen[k] && chosen[k..][1..] == chosen[k + 1..];
      if !chosen[k] {
        continue;
      }
      var p := ps[k];
      var used := values.GetUsedParameter(p.schema.title);
      if used.Failure? {
        return Some(used.error);
      }
      var value := values.UseParameter(p.schema.title, LocationName(p.location));
      var converted := ConvertType(value.value, p.schema.kind);
      if converted.Failure? {
        return Some(converted.error);
      }
      if converted.value.None? && !p.schema.Nullable() {
        continue;
      }
      var s := ToText(converted.value);
      match p.location
      case Query =>
        if p.name in values.query {
          return Some(Argument);
        }
        values.query := values.query[p.name := s];
      case Header =>
        if p.name in values.header {
          return Some(Argument);
        }
        values.header := values.header[p.name := s];
      case Cookie =>
        if p.name in values.cookie {
          return Some(Argument);
        }
        values.cookie := values.cookie[p.name := s];
      case Path =>
        values.path := values.path + [s];
    }
    assert ps[|ps|..] == [] && chosen[|chosen|..] == [];
    error := None;
  }

  /** The text of each included parameter located in the path, in declared order. */
  function PathTexts(stored: map<string, OperationValues.Used>, ps: seq<SutParameter>, chosen: seq<bool>): seq<string>
    requires |chosen| == |ps|
    decreases |ps|
  {
    if ps == [] then [] else OwnPath(stored, ps[0], chosen[0]) + PathTexts(stored, ps[1..], chosen[1..])
  }

  /** The text one parameter adds to the path: its rendering, when it is included, in the path and not null. */
  function OwnPath(stored: map<string, OperationValues.Used>, p: SutParameter, included: bool): seq<string>
  {
    var own := if included && p.location == AnalyzerUtil.Path then Rendered(stored, p) else Success(None);
    if own.Success? && own.value.Some? then [own.value.value] else []
  }

  /** One step appends the parameter's own path text. */
  lemma StepPath(q: Request, p: SutParameter, included: bool)
    requires Step(q, p, included).Success?
    ensures Step(q, p, included).value.path == q.path + OwnPath(q.uniqueParameters, p, included)
  {
  }

  /** Steps only append to usedIn: the stored values stay as they were. */
  lemma StepKeepsValues(q: Request, p: SutParameter, included: bool)
    requires Step(q, p, included).Success?
    ensures var r := Step(q, p, included).value;
      r.uniqueParameters.Keys == q.uniqueParameters.Keys &&
      forall m :: m in q.uniqueParameters ==> r.uniqueParameters[m].value == q.uniqueParameters[m].value
  {
    if included {
      var rendered := Rendered(q.uniqueParameters, p);
      var u := Use(q, p);
      assert u.uniqueParameters.Keys == q.uniqueParameters.Keys;
      if rendered.value.Some? {
        PlaceKeeps(u, p, rendered.value.value);
      }
    }
  }

  /** Placing a text leaves the unique values and their uses alone. */
  lemma PlaceKeeps(q: Request, p: SutParameter, s: string)
    requires Place(q, p, s).Success?
    ensures Place(q, p, s).value.uniqueParameters == q.uniqueParameters
  {
  }

  /** Rendering depends on the stored values only, not on usedIn. */
  lemma RenderedByValue(a: map<string, OperationValues.Used>, b: map<string, OperationValues.Used>, p: SutParameter)
    requires a.Keys == b.Keys && forall m :: m in a ==> a[m].value == b[m].value
    ensures Rendered(a, p) == Rendered(b, p)
  {
  }

  lemma {:induction false} PathTextsByValue(a: map<string, OperationValues.Used>, b: map<string, OperationValues.Used>,
                                            ps: seq<SutParameter>, chosen: seq<bool>)
    requires |chosen| == |ps|
    requires a.Keys == b.Keys && forall m :: m in a ==> a[m].value == b[m].value
    ensures PathTexts(a, ps, chosen) == PathTexts(b, ps, chosen)
    decreases |ps|
  {
    if ps != [] {
      RenderedByValue(a, b, ps[0]);
      PathTextsByValue(a, b, ps[1..], chosen[1..]);
    }
  }

  /** Path values are appended in the declared order of the included path parameters. */
  lemma {:induction false} PathInDeclaredOrder(q: Request, ps: seq<SutParameter>, chosen: seq<bool>)
    requires |chosen| == |ps|
    requires GenAll(q, ps, chosen).Success?
    ensures GenAll(q, ps, chosen).value.path == q.path + PathTexts(q.uniqueParameters, ps, chosen)
    decreases |ps|
  {
    if ps != [] {
      var q1 := Step(q, ps[0], chosen[0]).value;
      StepKeepsValues(q, ps[0], chosen[0]);
      PathInDeclaredOrder(q1, ps[1..], chosen[1..]);
      PathTextsByValue(q1.uniqueParameters, q.uniqueParameters, ps[1..], chosen[1..]);
      StepPath(q, ps[0], chosen[0]);
      assert GenAll(q, ps, chosen) == GenAll(q1, ps[1..], chosen[1..]);
      var own := OwnPath(q.uniqueParameters, ps[0], chosen[0]);
      var rest := PathTexts(q.uniqueParameters, ps[1..], chosen[1..]);
      assert PathTexts(q.uniqueParameters, ps, chosen) == own + rest;
      assert (q.path + own) + rest == q.path + (own + rest);
    }
  }

  /** The query, header and cookie only grow: an entry once added keeps its text. */
  lemma {:induction false} NamedValuesKept(q: Request, ps: seq<SutParameter>, chosen: seq<bool>)
    requires |chosen| == |ps|
    requires GenAll(q, ps, chosen).Success?
    ensures var r := GenAll(q, ps, chosen).value;
      (forall k :: k in q.query ==> k in r.query && r.query[k] == q.query[k]) &&
      (forall k :: k in q.header ==> k in r.header && r.header[k] == q.header[k]) &&
      (forall k :: k in q.cookie ==> k in r.cookie && r.cookie[k] == q.cookie[k])
    decreases |ps|
  {
    if ps != [] {
      var q1 := Step(q, ps[0], chosen[0]).value;
      StepNamedKept(q, ps[0], chosen[0]);
      NamedValuesKept(q1, ps[1..], chosen[1..]);
      assert GenAll(q, ps, chosen) == GenAll(q1, ps[1..], chosen[1..]);
      var r := GenAll(q, ps, chosen).value;
      assert NamedKept(q1, r);
    }
  }

  /** Every named query, header and cookie value of q is still in r, unchanged. */
  predicate NamedKept(q: Request, r: Request)
  {
    (forall k :: k in q.query ==> k in r.query && r.query[k] == q.query[k]) &&
    (forall k :: k in q.header ==> k in r.header && r.header[k] == q.header[k]) &&
    (forall k :: k in q.cookie ==> k in r.cookie && r.cookie[k] == q.cookie[k])
  }

  /** One step only adds names, since Add refuses a name already there. */
  lemma StepNamedKept(q: Request, p: SutParameter, included: bool)
    requires Step(q, p, included).Success?
    ensures NamedKept(q, Step(q, p, included).value)
  {
    if included && Rendered(q.uniqueParameters, p).value.Some? {
      var u := Use(q, p);
      assert u.query == q.query && u.header == q.header && u.cookie == q.cookie;
    }
  }

  /**
   * A query parameter that is included and has a value is in the query under
   * its name, with its value's text.
   */
  lemma {:induction false} QueryKeyedByName(q: Request, ps: seq<SutParameter>, chosen: seq<bool>, i: nat)
    requires |chosen| == |ps| && i < |ps|
    requires GenAll(q, ps, chosen).Success?
    requires chosen[i] && ps[i].location == AnalyzerUtil.Query
    requires ps[i].schema.title in q.uniqueParameters
    requires Rendered(q.uniqueParameters, ps[i]) == Success(Some(ToText(q.uniqueParameters[ps[i].schema.title].value)))
    ensures ps[i].name in GenAll(q, ps, chosen).value.query
    ensures GenAll(q, ps, chosen).value.query[ps[i].name] == ToText(q.uniqueParameters[ps[i].schema.title].value)
    decreases |ps|
  {
    var q1 := Step(q, ps[0], chosen[0]).value;
    StepKeepsValues(q, ps[0], chosen[0]);
    if i == 0 {
      NamedValuesKept(q1, ps[1..], chosen[1..]);
    } else {
      RenderedByValue(q.uniqueParameters, q1.uniqueParameters, ps[i]);
      assert ps[1..][i - 1] == ps[i] && chosen[1..][i - 1] == chosen[i];
      QueryKeyedByName(q1, ps[1..], chosen[1..], i - 1);
    }
  }

  /** A null value for a non-nullable parameter contributes nothing; for a nullable one it is the empty text. */
  lemma NullValues(stored: map<string, OperationValues.Used>, p: SutParameter)
    requires p.schema.title in stored && stored[p.schema.title].value.None?
    ensures !p.schema.Nullable() ==> Rendered(stored, p) == Success(None)
    ensures p.schema.Nullable() ==> Rendered(stored, p) == Success(Some(""))
  {
  }

  /** A left-out parameter changes nothing, not even the record of uses. */
  lemma LeftOutUntouched(q: Request, ps: seq<SutParameter>, chosen: seq<bool>)
    requires |chosen| == |ps| && forall i :: 0 <= i < |ps| ==> !chosen[i]
    ensures GenAll(q, ps, chosen) == Success(q)
    decreases |ps|
  {
    if ps != [] {
      LeftOutUntouched(q, ps[1..], chosen[1..]);
    }
  }
}
