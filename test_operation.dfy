/**
 * The base check of every test operation (ObST.Tester/Domain/Operation/TestOperation.cs):
 * the default properties a response must have, the permission check, and the
 * oracle's own CheckResult, which for an existing resource also records in the
 * identity model what the response revealed. The HTTP exchange is a parameter:
 * a RunActualResult holds what RunActual read from the response.
 */
module Operations {
  import opened Wrappers
  import opened FastFail
  import opened CoreModels
  import opened Oracles
  import opened GeneratorOptions
  import opened Schemas
  import Text
  import AnalyzerUtil
  import Domain
  import ModelCopies
  import Lookups
  import IdSearch
  import TestConfigurations
  import OperationValues

  /** TestPropertyConfig. */
  datatype PropertyConfig = PropertyConfig(responseDocumentation: bool, noBadRequestWhenValidDataIsProvided: bool)

  /** The part of TestSetupConfiguration the check reads. */
  datatype SetupConfig = SetupConfig(properties: Option<PropertyConfig>)

  /** _config.Setup?.Properties?.NoBadRequestWhenValidDataIsProvided == true. */
  predicate NoBadRequest(setup: Option<SetupConfig>)
  {
    setup.Some? && setup.value.properties.Some? && setup.value.properties.value.noBadRequestWhenValidDataIsProvided
  }

  /** _config.Setup?.Properties?.ResponseDocumentation == true. */
  predicate ResponseDocumentation(setup: Option<SetupConfig>)
  {
    setup.Some? && setup.value.properties.Some? && setup.value.properties.value.responseDocumentation
  }

  /**
   * What RunActual read: the status code and its enum name, the Location
   * header's absolute path, the body as text and as parsed JSON, whether it
   * matched the documented schema, and the documentation found for the status.
   */
  datatype RunActualResult = RunActualResult(
    status: int,
    statusName: string,
    location: Option<string>,
    body: string,
    bodyObject: Option<IdSearch.Json>,
    bodyMatchesSchema: bool,
    documentation: Option<SutResponse>,
    documentedSchema: Option<JsonSchema>)

  /**
   * RunActual, given what the connector returned: the documentation for the
   * status; the body is parsed against its schema only when the documented
   * content type is the response's media type and the body is not empty, and
   * parse stands for ParseBody's verdict and parsed object.
   */
  function RunActual(responses: map<string, SutResponse>, status: int, statusName: string, location: Option<string>,
                     body: string, mediaType: Option<string>, contentLength: int, parse: (bool, Option<IdSearch.Json>)): (r: RunActualResult)
    ensures FromRun(r)
  {
    var documentation := GetResponseDoc(responses, status);
    var parsed := documentation.Some? && documentation.value.schema.Some? && documentation.value.contentType.Some? &&
      documentation.value.contentType == mediaType && contentLength > 0;
    var bodyMatchesSchema := parsed && parse.0;
    RunActualResult(status, statusName, location, body, if parsed then parse.1 else None, bodyMatchesSchema, documentation,
      if bodyMatchesSchema then documentation.value.schema else None)
  }

  /** The body only counts as matching when the documented content type came back with a non-empty body. */
  lemma MatchNeedsDocumentedContent(responses: map<string, SutResponse>, status: int, statusName: string, location: Option<string>,
                                    body: string, mediaType: Option<string>, contentLength: int, parse: (bool, Option<IdSearch.Json>))
    ensures var r := RunActual(responses, status, statusName, location, body, mediaType, contentLength, parse);
      r.bodyMatchesSchema <==>
        (r.documentation.Some? && r.documentation.value.schema.Some? &&
         r.documentation.value.contentType.Some? && r.documentation.value.contentType == mediaType && contentLength > 0 && parse.0)
  {
  }

  /** RunActual sets DocumentedSchema to the documentation's schema exactly when the body matched it. */
  predicate FromRun(res: RunActualResult)
  {
    (res.bodyMatchesSchema ==> res.documentation.Some? && res.documentation.value.schema.Some?) &&
    res.documentedSchema == (if res.bodyMatchesSchema then res.documentation.value.schema else None)
  }

  // ---------------------------------------------------------------------------------
  // GetResponseDoc

  /** (int)statusCode / 100 in C#: the quotient truncated toward zero. */
  function StatusClass(status: int): int
  {
    if status >= 0 then status / 100 else -((-status) / 100)
  }

  /** GetResponseDoc: the response documented for the exact code, else for its "NXX" class. */
  function GetResponseDoc(responses: map<string, SutResponse>, status: int): Option<SutResponse>
  {
    var code := Text.IntToString(status);
    if code in responses then Some(responses[code])
    else
      var cls := Text.IntToString(StatusClass(status)) + "XX";
      if cls in responses then Some(responses[cls]) else None
  }

  /** The class key of a three-digit status is its first digit followed by "XX". */
  lemma ClassKey(status: int)
    requires 100 <= status <= 999
    ensures Text.IntToString(StatusClass(status)) + "XX" == [Text.IntToString(status)[0]] + "XX"
  {
    var q := status / 10;
    assert Text.NatToString(status) == Text.NatToString(q) + [Text.DigitChar(status % 10)];
    assert Text.NatToString(q) == Text.NatToString(q / 10) + [Text.DigitChar(q % 10)];
    assert q / 10 == status / 100;
  }

  /**
   * The exact code wins; without it a documented class answers; without
   * either there is no documentation.
   */
  lemma ResponseDocLookup(responses: map<string, SutResponse>, status: int)
    requires 100 <= status <= 999
    ensures Text.IntToString(status) in responses ==> GetResponseDoc(responses, status) == Some(responses[Text.IntToString(status)])
    ensures Text.IntToString(status) !in responses ==>
      GetResponseDoc(responses, status) ==
        (var cls := [Text.IntToString(status)[0]] + "XX"; if cls in responses then Some(responses[cls]) else None)
  {
    ClassKey(status);
  }

  /** A 404 documented only as "4XX" finds that documentation. */
  lemma NotFoundByClass(doc: SutResponse)
    ensures GetResponseDoc(map["4XX" := doc], 404) == Some(doc)
  {
    assert Text.NatToString(40) == Text.NatToString(4) + "0";
    assert Text.IntToString(404) == "404";
    assert "404" != "4XX" by { assert "404"[1] != "4XX"[1]; }
    assert StatusClass(404) == 4;
    assert Text.IntToString(4) + "XX" == "4XX";
  }

  // ---------------------------------------------------------------------------------
  // CheckWithFastFail

  /** The default properties, as CheckWithFastFail combines them before asking the oracle. */
  function BaseProperty(res: RunActualResult, setup: Option<SetupConfig>): FastFailProperty
  {
    var noServerError := FastFailLabel(res.status < 500, "Server Error");
    var notDocumentedStatusCode := FastFailLabel(res.documentation.Some?, "StatusCode is not documented");
    var badRequestWithValidParameters := FastFailLabel(res.status != 400 && res.status != 422,
      "BadRequest/UnprocessableEntity with valid parameter values");
    var notDocumentedHeader := Label(FastFailWhen(true, res.documentation.Some?), "Headers do not match documentation");
    var notDocumentedBodySchema := Label(Label(FastFailWhen(res.bodyMatchesSchema, res.documentedSchema.Some?),
      "Body does not match documented schema"), "Actual Body: " + res.body);
    var p0 := noServerError;
    var p1 := if NoBadRequest(setup) then AndF(p0, badRequestWithValidParameters) else p0;
    var p2 := if ResponseDocumentation(setup) then AndF(p1, notDocumentedStatusCode) else p1;
    var p3 := Label(p2, "Actual StatusCode: " + res.statusName);
    if ResponseDocumentation(setup) then AndF(AndF(p3, notDocumentedHeader), notDocumentedBodySchema) else p3
  }

  /** The property required of an identity without all permissions. */
  function PermissionProperty(res: RunActualResult): FastFailProperty
  {
    Label(FastFailLabel(res.status == 403 || res.status == 404,
      "Expected Forbidden or NotFound when sending request with missing permissions"),
      "Actual StatusCode: " + res.statusName)
  }

  /** The verdict of CheckWithFastFail. */
  function CheckSpec(kind: OracleKind, op: SutOperation, setup: Option<SetupConfig>, permitted: bool, res: RunActualResult): FastFailProperty
  {
    AndF(BaseProperty(res, setup),
      if permitted then CheckVerdict(kind, op.operationType, res.status, NoBadRequest(setup)) else PermissionProperty(res))
  }

  /**
   * The default properties hold exactly when there is no server error, 400 and
   * 422 are excused unless NoBadRequestWhenValidDataIsProvided is set, and, when
   * ResponseDocumentation is set, the status is documented. The header check
   * always passes and the body check cannot fail on a result RunActual made.
   */
  lemma BasePropertyHolds(res: RunActualResult, setup: Option<SetupConfig>)
    requires FromRun(res)
    ensures BaseProperty(res, setup).isSuccess <==>
      res.status < 500 &&
      (NoBadRequest(setup) ==> res.status != 400 && res.status != 422) &&
      (ResponseDocumentation(setup) ==> res.documentation.Some?)
    ensures Consistent(BaseProperty(res, setup))
  {
  }

  /** A status of 500 or more fails the step, whatever the configuration and the oracle. */
  lemma ServerErrorFails(kind: OracleKind, op: SutOperation, setup: Option<SetupConfig>, permitted: bool, res: RunActualResult)
    requires res.status >= 500
    ensures !CheckSpec(kind, op, setup, permitted, res).isSuccess
  {
  }

  /**
   * An identity without all permissions passes exactly on 403 or 404 when the
   * default properties hold; the oracle is not asked.
   */
  lemma UnpermittedNeedsForbiddenOrNotFound(kind: OracleKind, op: SutOperation, setup: Option<SetupConfig>, res: RunActualResult)
    ensures CheckSpec(kind, op, setup, false, res).isSuccess <==>
      BaseProperty(res, setup).isSuccess && (res.status == 403 || res.status == 404)
  {
  }

  /** A permitted identity passes exactly when the default properties and the oracle's verdict hold. */
  lemma PermittedAsksOracle(kind: OracleKind, op: SutOperation, setup: Option<SetupConfig>, res: RunActualResult)
    ensures CheckSpec(kind, op, setup, true, res).isSuccess <==>
      BaseProperty(res, setup).isSuccess && CheckVerdict(kind, op.operationType, res.status, NoBadRequest(setup)).isSuccess
    ensures Consistent(CheckSpec(kind, op, setup, true, res))
  {
    match kind
    case OnExisting => ExistingVerdict(op.operationType, res.status, NoBadRequest(setup));
    case OnUnknown => UnknownVerdict(op.operationType, res.status, NoBadRequest(setup));
    case OnDeleted => DeletedVerdict(op.operationType, res.status, NoBadRequest(setup));
  }

  /**
   * Without NoBadRequestWhenValidDataIsProvided a 400 never fails the default
   * properties; with it, it always does.
   */
  lemma BadRequestOnlyWhenStrict(res: RunActualResult, setup: Option<SetupConfig>)
    requires FromRun(res) && res.status == 400
    ensures NoBadRequest(setup) ==> !BaseProperty(res, setup).isSuccess
    ensures !NoBadRequest(setup) && !ResponseDocumentation(setup) ==> BaseProperty(res, setup).isSuccess
  {
  }

  // ---------------------------------------------------------------------------------
  // GetPathValues

  /** The path parameters of the operation, in declared order. */
  function PathParameters(ps: seq<SutParameter>): (r: seq<SutParameter>)
    ensures forall i :: 0 <= i < |r| ==> r[i].location == AnalyzerUtil.Path && r[i] in ps
    ensures |r| <= |ps|
  {
    if ps == [] then []
    else (if ps[0].location == AnalyzerUtil.Path then [ps[0]] else []) + PathParameters(ps[1..])
  }

  /** GetPathValues: the i-th path parameter's mapping with values.Path[i]; too few values throw. */
  function GetPathValues(ps: seq<SutParameter>, path: seq<string>): (r: Result<seq<(string, string)>>)
  {
    var pathParams := PathParameters(ps);
    if |path| < |pathParams| then Failure(IndexOutOfRange)
    else Success(seq(|pathParams|, i requires 0 <= i < |pathParams| => (pathParams[i].mapping, path[i])))
  }

  /** The pairs are the path parameters' mappings zipped with the path values. */
  lemma PathValuesZip(ps: seq<SutParameter>, path: seq<string>)
    ensures GetPathValues(ps, path).Success? <==> |path| >= |PathParameters(ps)|
    ensures GetPathValues(ps, path).Success? ==>
      |GetPathValues(ps, path).value| == |PathParameters(ps)| &&
      forall i :: 0 <= i < |PathParameters(ps)| ==>
        GetPathValues(ps, path).value[i] == (PathParameters(ps)[i].mapping, path[i])
  {
  }

  /** Parameters in other locations do not take up path values. */
  lemma {:induction false} OtherLocationsSkipped(ps: seq<SutParameter>, q: SutParameter)
    requires q.location != AnalyzerUtil.Path
    ensures PathParameters(ps + [q]) == PathParameters(ps)
  {
    if ps != [] {
      assert (ps + [q])[1..] == ps[1..] + [q];
      OtherLocationsSkipped(ps[1..], q);
    } else {
      assert [q][1..] == [];
    }
  }

  // ---------------------------------------------------------------------------------
  // Pre

  /**
   * Pre: no option, or a previous option among none of the current ones (by
   * Equals), makes the operation inapplicable; FsCheck's own Pre holds then.
   */
  function PreSpec(options: Result<seq<Entries>>, used: Option<Entries>): Result<bool>
  {
    if options.Failure? then Failure(options.error)
    else if options.value == [] then Success(false)
    else if used.Some? && !(exists i :: 0 <= i < |options.value| && SameOption(options.value[i], used.value)) then Success(false)
    else Success(true)
  }

  /** Pre holds exactly when there are options and a previous option is among them. */
  lemma PreIff(options: seq<Entries>, used: Option<Entries>)
    ensures PreSpec(Success(options), used) == Success(true) <==>
      options != [] && (used.Some? ==> exists o :: o in options && SameOption(o, used.value))
  {
    if used.Some? && (exists o :: o in options && SameOption(o, used.value)) {
      var o :| o in options && SameOption(o, used.value);
      var i :| 0 <= i < |options| && options[i] == o;
    }
  }

  /** The previous option is found again when the current one lists the same entries in another order. */
  lemma PreIgnoresEntryOrder(options: seq<Entries>, used: Entries, i: nat)
    requires i < |options| && DistinctKeys(options[i]) && DistinctKeys(used)
    requires forall e :: e in options[i] <==> e in used
    ensures PreSpec(Success(options), Some(used)) == Success(true)
  {
    SameOptionReordered(options[i], used);
  }

  // ---------------------------------------------------------------------------------
  // What CheckResult records

  /**
   * model.Delete(values) from snapshot before to snapshot after: the state and the
   * next id stay; a path that does not resolve throws; a path that resolves to an id
   * marks that id and everything below it deleted.
   */
  ghost predicate Deleted(before: IdSearch.ModelState, values: seq<(string, string)>, after: IdSearch.ModelState)
    requires IdSearch.Ok(before)
  {
    var r := Lookups.Resolve(before.nodes, before.state, values);
    after.state == before.state && after.nextId == before.nextId &&
    (r.Failure? ==> after.error == Some(r.error) && after.nodes == before.nodes) &&
    (r.Success? && r.value.None? ==> after.error.None? && after.nodes == before.nodes) &&
    (r.Success? && r.value.Some? ==>
       after.error.None? &&
       exists s :: Lookups.Cascade(before.nodes, r.value.value, s) && after.nodes == Lookups.Marked(before.nodes, s))
  }

  /**
   * The part of CheckResult after the Location: a DELETE of an item deletes the id
   * its path values name, any other body that matched its schema is searched for
   * ids under those path values, and otherwise nothing happens; too few path
   * values throw before the model is touched.
   */
  ghost predicate BodyRecorded(op: SutOperation, path: seq<string>, res: RunActualResult, before: IdSearch.ModelState, after: IdSearch.ModelState)
    requires IdSearch.Ok(before)
  {
    var pathValues := GetPathValues(op.parameters, path);
    if op.operationType == Delete && Text.EndsWith(op.path, "{?}") then
      if pathValues.Failure? then after == before.(error := Some(pathValues.error))
      else Deleted(before, pathValues.value, after)
    else if res.bodyMatchesSchema && res.bodyObject.Some? then
      if pathValues.Failure? then after == before.(error := Some(pathValues.error))
      else after == IdSearch.Replay(before, IdSearch.Walk(res.bodyObject.value, res.documentedSchema, pathValues.value))
    else after == before
  }

  /**
   * The whole of what CheckResult of the existing-resource oracle records: nothing on
   * a failure status; for a 201 with a Location, the ids of the Location's path are
   * added first (a path that does not resolve, or an Add that throws, ends it there);
   * then the part after the Location.
   */
  ghost predicate Recorded(op: SutOperation, paths: Option<TestConfigurations.PathEntries>, path: seq<string>,
                           res: RunActualResult, before: IdSearch.ModelState, after: IdSearch.ModelState)
    requires IdSearch.Ok(before)
  {
    if !IsSuccessStatus(res.status) then after == before
    else if res.status == 201 && res.location.Some? then
      match TestConfigurations.IdsOfPath(paths, res.location.value, false)
      case Failure(e) => after == before.(error := Some(e))
      case Success(ids) =>
        var mid := IdSearch.AddOne(before, ids);
        if mid.error.Some? then after == mid else BodyRecorded(op, path, res, mid, after)
    else BodyRecorded(op, path, res, before, after)
  }

  // ---------------------------------------------------------------------------------
  // The operation object

  /** A TestOperation: the operation it tests, its oracle, and the values set for the next run. */
  class TestOperation {
    const operation: SutOperation
    const kind: OracleKind
    const setup: Option<SetupConfig>
    const paths: Option<TestConfigurations.PathEntries>
    var values: OperationValues.SutOperationValues?

    constructor(operation: SutOperation, kind: OracleKind, setup: Option<SetupConfig>, paths: Option<TestConfigurations.PathEntries>)
      ensures this.operation == operation && this.kind == kind && this.setup == setup && this.paths == paths
      ensures values == null
    {
      this.operation := operation;
      this.kind := kind;
      this.setup := setup;
      this.paths := paths;
      values := null;
    }

    /** SetParameters(values). */
    method SetParameters(values: OperationValues.SutOperationValues)
      modifies this
      ensures this.values == values
    {
      this.values := values;
    }

    /** Run: a fresh copy of the model, which the operation then works on. */
    method Run(model: Domain.TestModel) returns (r: Result<Domain.TestModel>)
      requires model.Valid()
      ensures r.Success? ==> fresh(r.value) && r.value.Valid() && r.value.nextId == model.nextId
      ensures r.Success? <==> ModelCopies.CopyOf(model.nodes, model.state).Success?
      ensures r.Success? ==> ModelCopies.CopyOf(model.nodes, model.state) == Success((r.value.nodes, r.value.state))
    {
      r := model.Copy();
    }

    /** Pre(model): the oracle's options for the model, and the previously used one among them. */
    method Pre(model: Domain.TestModel) returns (r: Result<bool>)
      requires operation.Valid() && model.Valid()
      ensures r == PreSpec(OptionsSpec(kind, operation, model.nodes, model.state),
        if values == null then None else Some(values.usedGeneratorOptions))
    {
      var options := GetGeneratorOptions(kind, operation, model);
      if options.Failure? {
        return Failure(options.error);
      }
      if |options.value| == 0 {
        return Success(false);
      }
      if values != null && !(exists i :: 0 <= i < |options.value| && SameOption(options.value[i], values.usedGeneratorOptions)) {
        return Success(false);
      }
      r := Success(true);
    }

    /**
     * CheckResult of the existing-resource oracle, the part that changes the
     * model: on a success status, a 201's Location is mined for ids; then a
     * DELETE of an item deletes it, and any other body that matched its schema
     * is searched for ids.
     */
    method RecordExisting(model: Domain.TestModel, res: RunActualResult) returns (error: Option<Exception>)
      requires model.Valid() && values != null
      modifies model
      ensures model.Valid()
      ensures Recorded(operation, paths, old(values.path), res, old(IdSearch.Snapshot(model)), IdSearch.Snapshot(model).(error := error))
    {
      if !IsSuccessStatus(res.status) {
        return None;
      }
      if res.status == 201 && res.location.Some? {
        error := IdSearch.ExtractIdsFromUri(model, paths, res.location.value);
        if error.Some? {
          return;
        }
      }
      error := RecordBody(model, res);
    }

    /** The DELETE or the search for ids that follows the Location. */
    method RecordBody(model: Domain.TestModel, res: RunActualResult) returns (error: Option<Exception>)
      requires model.Valid() && values != null
      modifies model
      ensures model.Valid()
      ensures BodyRecorded(operation, old(values.path), res, old(IdSearch.Snapshot(model)), IdSearch.Snapshot(model).(error := error))
    {
      var pathValues := GetPathValues(operation.parameters, values.path);
      if operation.operationType == Delete && Text.EndsWith(operation.path, "{?}") {
        if pathValues.Failure? {
          return Some(pathValues.error);
        }
        error := model.Delete(pathValues.value);
      } else if res.bodyMatchesSchema && res.bodyObject.Some? {
        if pathValues.Failure? {
          return Some(pathValues.error);
        }
        error := IdSearch.SearchForIds(model, res.bodyObject.value, res.documentedSchema, pathValues.value);
      } else {
        error := None;
      }
    }

    /**
     * CheckWithFastFail(actual, model), given what RunActual read: the
     * default properties, and then either the oracle's CheckResult or, for an
     * identity without all permissions, the expectation of 403 or 404.
     */
    method CheckWithFastFail(model: Domain.TestModel, res: RunActualResult) returns (r: Result<FastFailProperty>)
      requires model.Valid() && values != null
      modifies model
      ensures model.Valid()
      ensures r.Success? ==> r.value == CheckSpec(kind, operation, setup, old(values.identityHasAllPermissions), res)
      ensures !old(values.identityHasAllPermissions) || kind != OnExisting ==> r.Success? && unchanged(model)
      ensures old(values.identityHasAllPermissions) && kind == OnExisting ==>
        Recorded(operation, paths, old(values.path), res, old(IdSearch.Snapshot(model)),
          IdSearch.Snapshot(model).(error := if r.Failure? then Some(r.error) else None))
    {
      var permitted := values.identityHasAllPermissions;
      var property := CheckSpec(kind, operation, setup, permitted, res);
      if permitted && kind == OnExisting {
        var error := RecordExisting(model, res);
        if error.Some? {
          return Failure(error.value);
        }
        return Success(property);
      }
      r := Success(property);
    }
  }

  /** The security scheme of an identity: its type, and where an API key goes. */
  datatype SecuritySchemeType = ApiKey | Http | OAuth2 | OpenIdConnect

  datatype SecurityScheme = SecurityScheme(schemeType: SecuritySchemeType, name: Option<string>, location: Option<string>)

  /**
   * GetIdentityAndApplyToParameters, given the token the identity connector
   * fetched: an API key goes into the query, header or cookie it names, an
   * OpenID Connect token into the Authorization header; other schemes and
   * locations throw.
   */
  method ApplyIdentity(values: OperationValues.SutOperationValues, scheme: SecurityScheme, token: string) returns (error: Option<Exception>)
    modifies values
    ensures values.uniqueParameters == old(values.uniqueParameters) && values.path == old(values.path)
    ensures scheme.schemeType == OpenIdConnect ==>
      error.None? && values.header == old(values.header)["Authorization" := "Bearer " + token] &&
      values.query == old(values.query) && values.cookie == old(values.cookie)
    ensures scheme.schemeType == ApiKey && scheme.location == Some("Header") && scheme.name.Some? ==>
      error.None? && values.header == old(values.header)[scheme.name.value := token] &&
      values.query == old(values.query) && values.cookie == old(values.cookie)
    ensures scheme.schemeType == ApiKey && scheme.location == Some("Query") && scheme.name.Some? ==>
      error.None? && values.query == old(values.query)[scheme.name.value := token] &&
      values.header == old(values.header) && values.cookie == old(values.cookie)
    ensures scheme.schemeType == ApiKey && scheme.location == Some("Cookie") && scheme.name.Some? ==>
      error.None? && values.cookie == old(values.cookie)[scheme.name.value := token] &&
      values.query == old(values.query) && values.header == old(values.header)
    ensures scheme.schemeType == ApiKey && scheme.location in {Some("Header"), Some("Query"), Some("Cookie")} && scheme.name.None? ==>
      error == Some(Argument)
    ensures scheme.schemeType == ApiKey && scheme.location !in {Some("Header"), Some("Query"), Some("Cookie")} ==>
      error == Some(InvalidOperation)
    ensures scheme.schemeType in {Http, OAuth2} ==> error == Some(NotSupported)
    ensures error.Some? ==> values.query == old(values.query) && values.header == old(values.header) && values.cookie == old(values.cookie)
  {
    match scheme.schemeType
    case ApiKey =>
      if scheme.location == Some("Query") {
        if scheme.name.None? {
          return Some(Argument);
        }
        values.query := values.query[scheme.name.value := token];
      } else if scheme.location == Some("Header") {
        if scheme.name.None? {
          return Some(Argument);
        }
        values.header := values.header[scheme.name.value := token];
      } else if scheme.location == Some("Cookie") {
        if scheme.name.None? {
          return Some(Argument);
        }
        values.cookie := values.cookie[scheme.name.value := token];
      } else {
        return Some(InvalidOperation);
      }
      error := None;
    case OpenIdConnect =>
      values.header := values.header["Authorization" := "Bearer " + token];
      error := None;
    case _ =>
      error := Some(NotSupported);
  }
}
