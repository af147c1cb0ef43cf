/**
 * Which identities may call an operation, from the operation's security
 * requirements (TestConfigurationExtention.FilterValidIdentities). A requirement
 * is a dictionary from a security scheme name to the scopes it needs, kept here
 * as its entries in dictionary order; the operation takes a list of them, any one
 * of which suffices.
 */
module IdentityFilter {
  import opened Wrappers
  import opened CoreModels

  type Requirement = seq<(string, seq<string>)>

  /** The identity belongs to the scheme and holds every scope the scheme entry needs. */
  predicate Satisfies(i: SutIdentity, entry: (string, seq<string>))
  {
    i.securitySchemeName == entry.0 && forall s :: s in entry.1 ==> s in i.scopes
  }

  /** The identities of ids that are not the null identity and satisfy the entry. */
  function Matching(entry: (string, seq<string>), ids: seq<SutIdentity>): set<SutIdentity>
  {
    set i | i in ids && i != NullIdentity && Satisfies(i, entry)
  }

  function AllOf(ids: seq<SutIdentity>): set<SutIdentity>
  {
    set i | i in ids
  }

  /**
   * The foreach over the requirements, with res as gathered so far: an empty
   * requirement ends it with every identity, a compound one throws, a single-entry
   * one adds its matching identities.
   */
  function Scan(rs: seq<Requirement>, ids: seq<SutIdentity>, res: set<SutIdentity>): Result<set<SutIdentity>>
  {
    if rs == [] then Success(res)
    else if rs[0] == [] then Success(AllOf(ids))
    else if |rs[0]| != 1 then Failure(NotSupported)
    else Scan(rs[1..], ids, res + Matching(rs[0][0], ids))
  }

  /** FilterValidIdentities: no requirement list, or an empty one, admits everybody. */
  function ValidIdentities(requirements: Option<seq<Requirement>>, ids: seq<SutIdentity>): Result<set<SutIdentity>>
  {
    if requirements.None? || requirements.value == [] then Success(AllOf(ids))
    else Scan(requirements.value, ids, {})
  }

  /** The imperative filter, as the source writes it. */
  method FilterValidIdentities(requirements: Option<seq<Requirement>>, ids: seq<SutIdentity>)
    returns (r: Result<set<SutIdentity>>)
    ensures r == ValidIdentities(requirements, ids)
  {
    if requirements.None? || |requirements.value| == 0 {
      return Success(AllOf(ids));
    }
    var rs := requirements.value;
    var res: set<SutIdentity> := {};
    for k := 0 to |rs|
      invariant ValidIdentities(requirements, ids) == Scan(rs[k..], ids, res)
    {
      var req := rs[k];
      assert rs[k..][0] == req && rs[k..][1..] == rs[k + 1..];
      if |req| == 0 {
        return Success(AllOf(ids));
      }
      if |req| != 1 {
        return Failure(NotSupported);
      }
      var entry := req[0];
      var found := res;
      for j := 0 to |ids|
        invariant found == res + Matching(entry, ids[..j])
      {
        var i := ids[j];
        assert ids[..j + 1] == ids[..j] + [i];
        if i == NullIdentity {
          continue;
        }
        if i.securitySchemeName == entry.0 && forall s :: s in entry.1 ==> s in i.scopes {
          found := found + {i};
        }
      }
      assert ids[..|ids|] == ids;
      res := found;
    }
    assert rs[|rs|..] == [];
    r := Success(res);
  }

  /** Without requirements every identity, the null one included, may call. */
  lemma NoRequirementsAdmitAll(requirements: Option<seq<Requirement>>, ids: seq<SutIdentity>)
    requires requirements.None? || requirements.value == []
    ensures ValidIdentities(requirements, ids) == Success(set i | i in ids)
  {
  }

  /** All requirements before k are single-entry ones. */
  predicate SingleBefore(rs: seq<Requirement>, k: int)
    requires 0 <= k <= |rs|
  {
    forall j :: 0 <= j < k ==> |rs[j]| == 1
  }

  /** The first requirement that is not single-entry decides: empty admits everybody. */
  lemma {:induction false} EmptyRequirementAdmitsAll(rs: seq<Requirement>, ids: seq<SutIdentity>, res: set<SutIdentity>, k: nat)
    requires k < |rs| && SingleBefore(rs, k) && rs[k] == []
    ensures Scan(rs, ids, res) == Success(set i | i in ids)
    decreases k
  {
    if k > 0 {
      assert |rs[0]| == 1;
      assert SingleBefore(rs[1..], k - 1) by {
        forall j | 0 <= j < k - 1 ensures |rs[1..][j]| == 1 { assert rs[1..][j] == rs[j + 1]; }
      }
      EmptyRequirementAdmitsAll(rs[1..], ids, res + Matching(rs[0][0], ids), k - 1);
    }
  }

  /** ... and a compound one throws NotSupported. */
  lemma {:induction false} CompoundRequirementThrows(rs: seq<Requirement>, ids: seq<SutIdentity>, res: set<SutIdentity>, k: nat)
    requires k < |rs| && SingleBefore(rs, k) && |rs[k]| > 1
    ensures Scan(rs, ids, res) == Failure(NotSupported)
    decreases k
  {
    if k > 0 {
      assert |rs[0]| == 1;
      assert SingleBefore(rs[1..], k - 1) by {
        forall j | 0 <= j < k - 1 ensures |rs[1..][j]| == 1 { assert rs[1..][j] == rs[j + 1]; }
      }
      CompoundRequirementThrows(rs[1..], ids, res + Matching(rs[0][0], ids), k - 1);
    }
  }

  /**
   * When every requirement has exactly one entry, the result holds exactly the
   * non-null identities that satisfy some requirement's entry, beside res.
   */
  lemma {:induction false} SingleRequirements(rs: seq<Requirement>, ids: seq<SutIdentity>, res: set<SutIdentity>)
    requires SingleBefore(rs, |rs|)
    ensures Scan(rs, ids, res).Success?
    ensures forall i :: i in Scan(rs, ids, res).value <==>
      i in res || (i in ids && i != NullIdentity && exists k :: 0 <= k < |rs| && Satisfies(i, rs[k][0]))
  {
    if rs != [] {
      assert |rs[0]| == 1;
      assert SingleBefore(rs[1..], |rs| - 1) by {
        forall j | 0 <= j < |rs| - 1 ensures |rs[1..][j]| == 1 { assert rs[1..][j] == rs[j + 1]; }
      }
      var more := res + Matching(rs[0][0], ids);
      SingleRequirements(rs[1..], ids, more);
      forall i ensures i in Scan(rs, ids, res).value <==>
        i in res || (i in ids && i != NullIdentity && exists k :: 0 <= k < |rs| && Satisfies(i, rs[k][0]))
      {
        if i in ids && i != NullIdentity && i !in res {
          if exists k :: 0 <= k < |rs| && Satisfies(i, rs[k][0]) {
            var k :| 0 <= k < |rs| && Satisfies(i, rs[k][0]);
            if k > 0 {
              assert rs[1..][k - 1] == rs[k];
            }
          }
          if exists k :: 0 <= k < |rs[1..]| && Satisfies(i, rs[1..][k][0]) {
            var k :| 0 <= k < |rs[1..]| && Satisfies(i, rs[1..][k][0]);
            assert rs[1..][k] == rs[k + 1];
          }
        }
      }
    }
  }

  /**
   * With requirements given, all single-entry, the valid identities are exactly
   * the non-null identities satisfying one of them; the null identity never is.
   */
  lemma SatisfyingIdentities(rs: seq<Requirement>, ids: seq<SutIdentity>)
    requires rs != [] && SingleBefore(rs, |rs|)
    ensures ValidIdentities(Some(rs), ids).Success?
    ensures forall i :: i in ValidIdentities(Some(rs), ids).value <==>
      i in ids && i != NullIdentity && exists k :: 0 <= k < |rs| && Satisfies(i, rs[k][0])
    ensures NullIdentity !in ValidIdentities(Some(rs), ids).value
  {
    SingleRequirements(rs, ids, {});
  }

  /** Whatever the outcome, only listed identities are admitted. */
  lemma {:induction false} ValidAreListed(rs: seq<Requirement>, ids: seq<SutIdentity>, res: set<SutIdentity>)
    requires res <= AllOf(ids)
    ensures Scan(rs, ids, res).Success? ==> Scan(rs, ids, res).value <= set i | i in ids
  {
    if rs != [] && rs[0] != [] && |rs[0]| == 1 {
      ValidAreListed(rs[1..], ids, res + Matching(rs[0][0], ids));
    }
  }
}
