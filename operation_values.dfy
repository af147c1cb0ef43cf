/**
 * The values of one generated request (ObST.Tester/Core/Models/SutOperationValues.cs):
 * the chosen value of every unique parameter together with the places it was
 * used in, and the path, query, header and cookie values the request is sent with.
 */
module OperationValues {
  import opened Wrappers
  import opened Values
  import opened CoreModels
  import GeneratorOptions

  /** A unique parameter's value and the locations it was used in, in order. */
  datatype Used = Used(value: Option<Value>, usedIn: seq<string>)

  /** The dictionary the constructor builds: every value with an empty usedIn list. */
  function Unused(values: map<string, Option<Value>>): (r: map<string, Used>)
    ensures r.Keys == values.Keys
    ensures forall k :: k in r ==> r[k] == Used(values[k], [])
  {
    map k | k in values :: Used(values[k], [])
  }

  class SutOperationValues {
    var uniqueParameters: map<string, Used>
    var query: map<string, string>
    var header: map<string, string>
    var path: seq<string>
    var cookie: map<string, string>
    const usedGeneratorOptions: GeneratorOptions.Entries
    const identity: SutIdentity
    const identityHasAllPermissions: bool

    /** A fresh instance: every parameter unused, and no request values yet. */
    constructor(values: map<string, Option<Value>>, generatorOptions: GeneratorOptions.Entries, identity: SutIdentity, identityHasAllPermissions: bool)
      ensures uniqueParameters == Unused(values)
      ensures path == [] && query == map[] && header == map[] && cookie == map[]
      ensures usedGeneratorOptions == generatorOptions
      ensures this.identity == identity && this.identityHasAllPermissions == identityHasAllPermissions
    {
      usedGeneratorOptions := generatorOptions;
      uniqueParameters := Unused(values);
      path := [];
      query := map[];
      header := map[];
      cookie := map[];
      this.identity := identity;
      this.identityHasAllPermissions := identityHasAllPermissions;
    }

    /**
     * UseParameter(mapping, location): the stored value, with the location
     * appended to that mapping's usedIn; KeyNotFound for an unknown mapping.
     */
    method UseParameter(mapping: string, location: string) returns (r: Result<Option<Value>>)
      modifies this
      ensures mapping in old(uniqueParameters) ==>
        r == Success(old(uniqueParameters)[mapping].value) &&
        uniqueParameters == old(uniqueParameters)[mapping := Used(old(uniqueParameters)[mapping].value, old(uniqueParameters)[mapping].usedIn + [location])]
      ensures mapping !in old(uniqueParameters) ==> r == Failure(KeyNotFound) && uniqueParameters == old(uniqueParameters)
      ensures query == old(query) && header == old(header) && path == old(path) && cookie == old(cookie)
    {
      if mapping !in uniqueParameters {
        return Failure(KeyNotFound);
      }
      var used := uniqueParameters[mapping];
      uniqueParameters := uniqueParameters[mapping := Used(used.value, used.usedIn + [location])];
      r := Success(used.value);
    }

    /** GetUsedParameter(mapping): the entry as it stands; KeyNotFound for an unknown mapping. */
    method GetUsedParameter(mapping: string) returns (r: Result<Used>)
      ensures mapping in uniqueParameters <==> r.Success?
      ensures r.Success? ==> r.value == uniqueParameters[mapping]
      ensures r.Failure? ==> r.error == KeyNotFound
    {
      if mapping !in uniqueParameters {
        return Failure(KeyNotFound);
      }
      r := Success(uniqueParameters[mapping]);
    }
  }

  /** Using a parameter twice records both locations in order and keeps its value. */
  method UseTwice(values: SutOperationValues, mapping: string, first: string, second: string)
    returns (a: Result<Option<Value>>, b: Result<Option<Value>>)
    requires mapping in values.uniqueParameters
    modifies values
    ensures a == b == Success(old(values.uniqueParameters)[mapping].value)
    ensures values.uniqueParameters.Keys == old(values.uniqueParameters).Keys
    ensures values.uniqueParameters[mapping].usedIn == old(values.uniqueParameters)[mapping].usedIn + [first, second]
    ensures forall k :: k in old(values.uniqueParameters) && k != mapping ==> values.uniqueParameters[k] == old(values.uniqueParameters)[k]
  {
    a := values.UseParameter(mapping, first);
    b := values.UseParameter(mapping, second);
    assert old(values.uniqueParameters)[mapping].usedIn + [first] + [second] == old(values.uniqueParameters)[mapping].usedIn + [first, second];
  }
}
