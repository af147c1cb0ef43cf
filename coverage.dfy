/**
 * Status-code coverage (ObST.Tester/Domain/CoverageTracker.cs): the tracker records,
 * per operation id, the set of status codes seen; the report compares them with the
 * documented codes of every configured operation.
 */
module Coverage {
  import opened Wrappers
  import Text

  /** An operation of the configuration: its id and the keys of its documented responses. */
  datatype OperationConfig = OperationConfig(operationId: Option<string>, responses: Option<set<string>>)

  datatype CoverageResult = CoverageResult(operationId: string, all: set<string>, covered: set<string>, notDocumented: set<string>)

  class CoverageTracker {
    var coverage: map<string, set<string>>

    constructor ()
      ensures coverage == map[]
    {
      coverage := map[];
    }

    /** The codes seen so far for an operation id; none if it never ran. */
    function Seen(operationId: string): set<string>
      reads this
    {
      if operationId in coverage then coverage[operationId] else {}
    }

    /** AddTrackingAsync: the status code, as decimal text, joins the operation's set. */
    method AddTracking(statusCode: nat, operationId: string)
      modifies this
      ensures coverage.Keys == old(coverage.Keys) + {operationId}
      ensures Seen(operationId) == old(Seen(operationId)) + {Text.NatToString(statusCode)}
      ensures forall o :: o in coverage && o != operationId ==> coverage[o] == old(coverage[o])
    {
      var code := Text.NatToString(statusCode);
      if operationId in coverage {
        coverage := coverage[operationId := coverage[operationId] + {code}];
      } else {
        coverage := coverage[operationId := {code}];
      }
    }

    /** The report entry of one configured operation; None when it is skipped. */
    function ResultOf(o: OperationConfig): (r: Option<CoverageResult>)
      reads this
      ensures r.None? <==> o.responses.None? || o.operationId.None?
      ensures r.Some? ==>
        r.value.operationId == o.operationId.value &&
        r.value.all == o.responses.value &&
        r.value.covered == o.responses.value * Seen(o.operationId.value) &&
        r.value.notDocumented == Seen(o.operationId.value) - o.responses.value
    {
      if o.responses.None? || o.operationId.None? then None
      else
        var id := o.operationId.value;
        var all := o.responses.value;
        if id !in coverage then Some(CoverageResult(id, all, {}, {}))
        else Some(CoverageResult(id, all, all * coverage[id], coverage[id] - all))
    }

    /** CalculateCoverage: one entry per configured operation that has an id and responses, in order. */
    function CalculateCoverage(operations: seq<OperationConfig>): (r: seq<CoverageResult>)
      reads this
      ensures |r| <= |operations|
      ensures forall c :: c in r ==> c.covered <= c.all && c.covered !! c.notDocumented
    {
      if operations == [] then []
      else
        var head := ResultOf(operations[0]);
        (if head.Some? then [head.value] else []) + CalculateCoverage(operations[1..])
    }

    /** An operation that never ran has empty covered and undocumented sets. */
    lemma NeverRun(o: OperationConfig)
      requires o.responses.Some? && o.operationId.Some? && o.operationId.value !in coverage
      ensures ResultOf(o) == Some(CoverageResult(o.operationId.value, o.responses.value, {}, {}))
    {
    }

    /** Covered and undocumented codes partition the codes seen. */
    lemma {:induction false} CoveragePartitionsSeen(operations: seq<OperationConfig>)
      ensures forall c :: c in CalculateCoverage(operations) ==>
        c.covered + c.notDocumented == Seen(c.operationId) && c.covered !! c.notDocumented
    {
      if operations != [] {
        CoveragePartitionsSeen(operations[1..]);
      }
    }
  }
}
