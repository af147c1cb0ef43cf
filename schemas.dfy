/**
 * The part of an NJsonSchema JsonSchema the tester reads: the title (which carries
 * the parameter mapping), the type flags, properties, the array item and the
 * generation hints.
 */
module Schemas {
  import opened Wrappers
  import opened Values

  /** JsonObjectType, a flag enum. */
  type JsonObjectType = bv8

  const NoType: JsonObjectType := 0
  const ArrayType: JsonObjectType := 1
  const BooleanType: JsonObjectType := 2
  const IntegerType: JsonObjectType := 4
  const NullType: JsonObjectType := 8
  const NumberType: JsonObjectType := 16
  const ObjectType: JsonObjectType := 32
  const StringType: JsonObjectType := 64

  datatype JsonSchema = JsonSchema(
    title: string,
    kind: JsonObjectType,
    properties: seq<(string, JsonSchema)>,
    requiredProperties: set<string>,
    item: Option<JsonSchema>,
    allowAdditionalProperties: bool,
    enumeration: seq<Value>,
    format: Option<string>)
  {
    /** Type.HasFlag(JsonObjectType.Null). */
    predicate Nullable() { kind & NullType == NullType }
    predicate IsObject() { kind & ObjectType == ObjectType }
    predicate IsArray() { kind & ArrayType == ArrayType }
    /** The type without its Null flag (Type & ~JsonObjectType.Null). */
    function BaseType(): JsonObjectType { kind & !NullType }
  }

  /** Properties.ContainsKey / the indexer: the first property of that name. */
  function Property(ps: seq<(string, JsonSchema)>, k: string): (r: Option<JsonSchema>)
    ensures r.Some? <==> exists i :: 0 <= i < |ps| && ps[i].0 == k
    ensures r.Some? ==> (k, r.value) in ps
  {
    if ps == [] then None
    else if ps[0].0 == k then Some(ps[0].1)
    else Property(ps[1..], k)
  }
}
