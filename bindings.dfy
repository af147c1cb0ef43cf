/**
 * The id bindings that TestModel.GetMatchingIdSubset hands out: dictionaries from a
 * mapping to a (value, deleted) pair, and TryMergeDictionaries as a fold that fails
 * on the first mapping bound to two different pairs.
 */
module Bindings {
  import opened Wrappers

  /** (string? value, bool deleted); value None is the null binding of an absent optional id. */
  datatype Entry = Entry(value: Option<string>, deleted: bool)

  type Binding = map<string, Entry>

  /** The binding of an optional mapping that has no instance. */
  function NullBinding(m: string): Binding
  {
    map[m := Entry(None, false)]
  }

  /** Two bindings give no mapping two different pairs. */
  predicate Compatible(a: Binding, b: Binding)
  {
    forall k :: k in a && k in b ==> a[k] == b[k]
  }

  /** The reference definition: merge ds left to right, failing on a conflict. */
  function MergeAll(ds: seq<Binding>): Option<Binding>
  {
    if |ds| == 0 then Some(map[])
    else
      match MergeAll(ds[..|ds| - 1])
      case None => None
      case Some(acc) =>
        var d := ds[|ds| - 1];
        if Compatible(acc, d) then Some(acc + d) else None
  }

  /** No two of ds give a mapping two different pairs. */
  predicate Agree(ds: seq<Binding>)
  {
    forall i, j :: 0 <= i < |ds| && 0 <= j < |ds| ==> Compatible(ds[i], ds[j])
  }

  /** k is bound by one of ds. */
  predicate BoundBy(ds: seq<Binding>, k: string)
  {
    exists i :: 0 <= i < |ds| && k in ds[i]
  }

  /**
   * The merge succeeds exactly when the bindings agree, and then binds each mapping
   * that one of them binds, to the pair they give it.
   */
  lemma {:induction false} MergeAllAgree(ds: seq<Binding>)
    ensures MergeAll(ds).Some? <==> Agree(ds)
    ensures MergeAll(ds).Some? ==>
      (forall k :: k in MergeAll(ds).value <==> BoundBy(ds, k)) &&
      (forall i, k :: 0 <= i < |ds| && k in ds[i] ==> MergeAll(ds).value[k] == ds[i][k])
    decreases |ds|
  {
    if |ds| > 0 {
      var init, d := ds[..|ds| - 1], ds[|ds| - 1];
      MergeAllAgree(init);
      assert forall i :: 0 <= i < |init| ==> init[i] == ds[i];
      if MergeAll(init).Some? {
        var acc := MergeAll(init).value;
        if Compatible(acc, d) {
          assert Agree(ds) by {
            forall i, j | 0 <= i < |ds| && 0 <= j < |ds| ensures Compatible(ds[i], ds[j])
            {
              if i < |init| && j == |init| {
                assert forall k :: k in ds[i] ==> k in acc && acc[k] == ds[i][k];
              } else if i == |init| && j < |init| {
                assert forall k :: k in ds[j] ==> k in acc && acc[k] == ds[j][k];
              }
            }
          }
          forall k ensures k in acc + d <==> BoundBy(ds, k)
          {
            if k in acc {
              var i :| 0 <= i < |init| && k in init[i];
              assert k in ds[i];
            }
            if BoundBy(ds, k) {
              var i :| 0 <= i < |ds| && k in ds[i];
              if i < |init| {
                assert BoundBy(init, k);
              }
            }
          }
        } else {
          var k :| k in acc && k in d && acc[k] != d[k];
          var i :| 0 <= i < |init| && k in init[i];
          assert !Compatible(ds[i], ds[|ds| - 1]);
        }
      } else {
        assert !Agree(ds) by {
          var i, j :| 0 <= i < |init| && 0 <= j < |init| && !Compatible(init[i], init[j]);
          assert !Compatible(ds[i], ds[j]);
        }
      }
    }
  }

  /** A merge binds only what one of ds binds. */
  lemma {:induction false} MergeAllKeys(ds: seq<Binding>)
    ensures MergeAll(ds).Some? ==> forall k :: k in MergeAll(ds).value ==> BoundBy(ds, k)
    decreases |ds|
  {
    if |ds| > 0 && MergeAll(ds).Some? {
      var init := ds[..|ds| - 1];
      MergeAllKeys(init);
      forall k | k in MergeAll(ds).value ensures BoundBy(ds, k)
      {
        if k !in ds[|ds| - 1] {
          var i :| 0 <= i < |init| && k in init[i];
          assert ds[i] == init[i];
        }
      }
    }
  }

  /** A merge that fails on a prefix fails on the whole sequence. */
  lemma {:induction false} MergeAllPrefixFails(ds: seq<Binding>, n: nat)
    requires n <= |ds| && MergeAll(ds[..n]).None?
    ensures MergeAll(ds).None?
    decreases |ds| - n
  {
    if n < |ds| {
      assert ds[..n + 1][..n] == ds[..n];
      MergeAllPrefixFails(ds, n + 1);
    } else {
      assert ds[..n] == ds;
    }
  }

  /** A prefix merge that meets a different pair for one of its mappings dooms the whole fold. */
  lemma MergeFailsAt(dicts: seq<Binding>, i: nat, acc: Binding, k: string)
    requires i < |dicts| && MergeAll(dicts[..i]) == Some(acc)
    requires k in acc && k in dicts[i] && acc[k] != dicts[i][k]
    ensures MergeAll(dicts).None?
  {
    assert dicts[..i + 1][..i] == dicts[..i];
    MergeAllPrefixFails(dicts, i + 1);
  }

  /** One more dictionary copied entry by entry into the prefix merge. */
  lemma MergeStep(dicts: seq<Binding>, i: nat, acc: Binding, res: Binding)
    requires i < |dicts| && MergeAll(dicts[..i]) == Some(acc)
    requires res.Keys == acc.Keys + dicts[i].Keys
    requires forall k :: k in acc ==> res[k] == acc[k]
    requires forall k :: k in dicts[i] ==> res[k] == dicts[i][k]
    ensures MergeAll(dicts[..i + 1]) == Some(res)
  {
    assert dicts[..i + 1][..i] == dicts[..i];
    assert res == acc + dicts[i];
  }
}
