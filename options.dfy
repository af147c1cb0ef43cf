/**
 * TestParameterGeneratorOption (ObST.Tester/Core/Models/TestParameterGeneratorOption.cs):
 * a dictionary from a parameter mapping to how its value is to be generated. The
 * dictionary is modelled as its entries in insertion order, which is the order a
 * .NET Dictionary enumerates when nothing is removed, so that order independence
 * of Equals and GetHashCode is something to prove.
 */
module GeneratorOptions {
  import opened Wrappers
  import opened Values
  import Orders

  /** Random includes unknown, known and deleted values. */
  datatype GeneratorMode = Random | RequireUnknown | UseConstant

  /** (mode, constant); a null constant is None. */
  type Entry = (GeneratorMode, Option<Value>)

  type Entries = seq<(string, Entry)>

  predicate DistinctKeys(es: Entries)
  {
    forall i, j :: 0 <= i < j < |es| ==> es[i].0 != es[j].0
  }

  function Keys(es: Entries): (r: set<string>)
    ensures forall k :: k in r <==> exists i :: 0 <= i < |es| && es[i].0 == k
  {
    if es == [] then {} else Keys(es[..|es| - 1]) + {es[|es| - 1].0}
  }

  /** TryGetValue: the entry of key k, if any. */
  function Lookup(es: Entries, k: string): (r: Option<Entry>)
    ensures r.Some? <==> k in Keys(es)
  {
    if es == [] then None
    else if es[|es| - 1].0 == k then Some(es[|es| - 1].1)
    else Lookup(es[..|es| - 1], k)
  }

  /** With distinct keys, the entry at position i is what a lookup of its key finds. */
  lemma {:induction false} LookupAt(es: Entries, i: nat)
    requires DistinctKeys(es) && i < |es|
    ensures Lookup(es, es[i].0) == Some(es[i].1)
  {
    if i < |es| - 1 {
      assert es[..|es| - 1][i] == es[i];
      LookupAt(es[..|es| - 1], i);
    }
  }

  /** Distinct keys: there are as many keys as entries. */
  lemma {:induction false} KeysCount(es: Entries)
    requires DistinctKeys(es)
    ensures |Keys(es)| == |es|
  {
    if es != [] {
      var init := es[..|es| - 1];
      KeysCount(init);
      forall i | 0 <= i < |init| ensures init[i].0 != es[|es| - 1].0
      {
        assert init[i] == es[i];
      }
    }
  }

  /**
   * The Dictionary.Add under every Add of the option: an ArgumentException when the
   * key is present, otherwise the entry is appended.
   */
  function AddEntry(es: Entries, k: string, e: Entry): (r: Result<Entries>)
    ensures r.Failure? <==> k in Keys(es)
    ensures r.Failure? ==> r.error == Argument
    ensures r.Success? ==> Lookup(r.value, k) == Some(e)
    ensures r.Success? ==> forall x :: x != k ==> Lookup(r.value, x) == Lookup(es, x)
    ensures r.Success? && DistinctKeys(es) ==> DistinctKeys(r.value)
  {
    if Lookup(es, k).Some? then Failure(Argument)
    else
      var r := es + [(k, e)];
      assert r[..|r| - 1] == es;
      Success(r)
  }

  /** A run of Adds, stopping at the first ArgumentException. */
  function AddAll(es: Entries, adds: Entries): Result<Entries>
    decreases |adds|
  {
    if adds == [] then Success(es)
    else
      match AddEntry(es, adds[0].0, adds[0].1)
      case Failure(e) => Failure(e)
      case Success(next) => AddAll(next, adds[1..])
  }

  /**
   * A run of Adds succeeds exactly when its keys are new and distinct, and then
   * appends the entries in order; otherwise it throws ArgumentException.
   */
  lemma AddAllAppends(es: Entries, adds: Entries)
    ensures AddAll(es, adds).Success? <==> DistinctKeys(adds) && Keys(es) !! Keys(adds)
    ensures AddAll(es, adds).Success? ==> AddAll(es, adds).value == es + adds
    ensures AddAll(es, adds).Failure? ==> AddAll(es, adds).error == Argument
  {
    AddAllSucceeds(es, adds);
    AddAllValue(es, adds);
  }

  lemma {:induction false} AddAllSucceeds(es: Entries, adds: Entries)
    ensures AddAll(es, adds).Success? <==> DistinctKeys(adds) && Keys(es) !! Keys(adds)
    ensures AddAll(es, adds).Failure? ==> AddAll(es, adds).error == Argument
    decreases |adds|
  {
    if adds != [] {
      var k := adds[0].0;
      KeysCons(adds);
      DistinctCons(adds);
      if k !in Keys(es) {
        var next := es + [(k, adds[0].1)];
        assert next[..|next| - 1] == es;
        AddAllSucceeds(next, adds[1..]);
      }
    }
  }

  lemma {:induction false} AddAllValue(es: Entries, adds: Entries)
    ensures AddAll(es, adds).Success? ==> AddAll(es, adds).value == es + adds
    decreases |adds|
  {
    if adds != [] && adds[0].0 !in Keys(es) {
      var next := es + [(adds[0].0, adds[0].1)];
      AddAllValue(next, adds[1..]);
      assert next + adds[1..] == es + adds;
    }
  }

  lemma KeysCons(es: Entries)
    requires es != []
    ensures Keys(es) == {es[0].0} + Keys(es[1..])
  {
    forall k ensures k in Keys(es) <==> k in {es[0].0} + Keys(es[1..])
    {
      if k in Keys(es) && k != es[0].0 {
        var i :| 0 <= i < |es| && es[i].0 == k;
        assert es[1..][i - 1] == es[i];
      }
      if k in Keys(es[1..]) {
        var i :| 0 <= i < |es[1..]| && es[1..][i].0 == k;
        assert es[i + 1] == es[1..][i];
      }
    }
  }

  lemma DistinctCons(es: Entries)
    requires es != []
    ensures DistinctKeys(es) <==> es[0].0 !in Keys(es[1..]) && DistinctKeys(es[1..])
  {
    if DistinctKeys(es) {
      forall i | 0 <= i < |es[1..]| ensures es[1..][i].0 != es[0].0
      {
        assert es[1..][i] == es[i + 1];
      }
      forall i, j | 0 <= i < j < |es[1..]| ensures es[1..][i].0 != es[1..][j].0
      {
        assert es[1..][i] == es[i + 1] && es[1..][j] == es[j + 1];
      }
    }
    if es[0].0 !in Keys(es[1..]) && DistinctKeys(es[1..]) {
      forall i, j | 0 <= i < j < |es| ensures es[i].0 != es[j].0
      {
        assert es[j] == es[1..][j - 1];
        if i > 0 {
          assert es[i] == es[1..][i - 1];
        }
      }
    }
  }

  /** Equals(TestParameterGeneratorOption): as many entries, and each found in the other. */
  predicate SameOption(a: Entries, b: Entries)
  {
    |a| == |b| && forall i :: 0 <= i < |a| ==> Lookup(b, a[i].0) == Some(a[i].1)
  }

  /** Two options are Equal exactly when they hold the same entries, whatever their order. */
  lemma SameOptionIff(a: Entries, b: Entries)
    requires DistinctKeys(a) && DistinctKeys(b)
    ensures SameOption(a, b) <==> SameLookups(a, b)
  {
    if SameOption(a, b) {
      SameOptionLookups(a, b);
    }
    if SameLookups(a, b) {
      LookupsSameOption(a, b);
    }
  }

  /** Every key finds the same entry in both, or none in both. */
  ghost predicate SameLookups(a: Entries, b: Entries)
  {
    forall k :: Lookup(a, k) == Lookup(b, k)
  }

  lemma SameOptionLookups(a: Entries, b: Entries)
    requires DistinctKeys(a) && DistinctKeys(b) && SameOption(a, b)
    ensures forall k :: Lookup(a, k) == Lookup(b, k)
  {
    KeysCount(a);
    KeysCount(b);
    forall k | k in Keys(a) ensures k in Keys(b)
    {
      var i :| 0 <= i < |a| && a[i].0 == k;
    }
    SubsetSameSize(Keys(a), Keys(b));
    forall k | k in Keys(a) ensures Lookup(a, k) == Lookup(b, k)
    {
      var i :| 0 <= i < |a| && a[i].0 == k;
      LookupAt(a, i);
    }
  }

  lemma LookupsSameOption(a: Entries, b: Entries)
    requires DistinctKeys(a) && DistinctKeys(b)
    requires forall k :: Lookup(a, k) == Lookup(b, k)
    ensures SameOption(a, b)
  {
    KeysCount(a);
    KeysCount(b);
    assert Keys(a) == Keys(b) by {
      forall k ensures k in Keys(a) <==> k in Keys(b)
      {
        assert Lookup(a, k) == Lookup(b, k);
      }
    }
    forall i | 0 <= i < |a| ensures Lookup(b, a[i].0) == Some(a[i].1)
    {
      LookupAt(a, i);
      assert Lookup(a, a[i].0) == Lookup(b, a[i].0);
    }
  }

  lemma SubsetSameSize(s: set<string>, t: set<string>)
    requires s <= t && |s| == |t|
    ensures s == t
  {
    assert |t - s| == |t| - |s|;
  }

  /** Equality does not depend on insertion order: the same entries in any order are Equal. */
  lemma SameOptionReordered(a: Entries, b: Entries)
    requires DistinctKeys(a) && DistinctKeys(b)
    requires forall e :: e in a <==> e in b
    ensures SameOption(a, b)
  {
    forall k | k in Keys(b) ensures k in Keys(a)
    {
      var j :| 0 <= j < |b| && b[j].0 == k;
      assert b[j] in a;
    }
    forall k | k in Keys(a) ensures Lookup(a, k) == Lookup(b, k)
    {
      var i :| 0 <= i < |a| && a[i].0 == k;
      assert a[i] in b;
      var j :| 0 <= j < |b| && b[j] == a[i];
      LookupAt(a, i);
      LookupAt(b, j);
    }
    LookupsSameOption(a, b);
  }

  /** A key, mode or constant that differs makes two options unequal. */
  lemma SameOptionDiffers(a: Entries, b: Entries, k: string)
    requires DistinctKeys(a) && DistinctKeys(b)
    requires Lookup(a, k) != Lookup(b, k)
    ensures !SameOption(a, b)
  {
    SameOptionIff(a, b);
  }

  /** The entries ordered by key, as OrderBy(e => e.Key) enumerates them. */
  function ByKey(es: Entries): Entries
  {
    Ordered(es, Orders.SortStrings(Keys(es)))
  }

  /** The entry of each of ks in turn. */
  function Ordered(es: Entries, ks: seq<string>): (r: Entries)
    requires forall k :: k in ks ==> k in Keys(es)
    ensures |r| == |ks|
    ensures forall i :: 0 <= i < |r| ==> r[i].0 == ks[i] && Lookup(es, ks[i]) == Some(r[i].1)
  {
    if ks == [] then [] else [(ks[0], Lookup(es, ks[0]).value)] + Ordered(es, ks[1..])
  }

  /**
   * GetHashCode: HashCode.Combine folded over the entries by key. HashCode is seeded
   * per process, so its two forms are parameters: start stands for HashCode.Combine(0)
   * and combine for the four-argument HashCode.Combine.
   */
  function Hash(es: Entries, start: int, combine: (int, string, GeneratorMode, Option<Value>) -> int): int
  {
    Fold(ByKey(es), start, combine)
  }

  function Fold(es: Entries, h: int, combine: (int, string, GeneratorMode, Option<Value>) -> int): int
  {
    if es == [] then h else Fold(es[1..], combine(h, es[0].0, es[0].1.0, es[0].1.1), combine)
  }

  /** Options with the same entries list them alike once ordered by key. */
  lemma {:induction false} OrderedSame(a: Entries, b: Entries, ks: seq<string>)
    requires forall k :: Lookup(a, k) == Lookup(b, k)
    requires forall k :: k in ks ==> k in Keys(a) && k in Keys(b)
    ensures Ordered(a, ks) == Ordered(b, ks)
  {
    if ks != [] {
      OrderedSame(a, b, ks[1..]);
      assert Lookup(a, ks[0]) == Lookup(b, ks[0]);
    }
  }

  /** Equal options hash equally, for every seed of HashCode: the hash is order independent. */
  lemma EqualHash(a: Entries, b: Entries, start: int, combine: (int, string, GeneratorMode, Option<Value>) -> int)
    requires DistinctKeys(a) && DistinctKeys(b) && SameOption(a, b)
    ensures Hash(a, start, combine) == Hash(b, start, combine)
  {
    SameOptionLookups(a, b);
    assert Keys(a) == Keys(b) by {
      forall k ensures k in Keys(a) <==> k in Keys(b)
      {
        assert Lookup(a, k) == Lookup(b, k);
      }
    }
    OrderedSame(a, b, Orders.SortStrings(Keys(a)));
  }

  /** A TestParameterGeneratorOption object: the dictionary it inherits from is its entries. */
  class GeneratorOption {
    var entries: Entries

    ghost predicate Valid()
      reads this
    {
      DistinctKeys(entries)
    }

    constructor()
      ensures Valid() && entries == []
    {
      entries := [];
    }

    /** new TestParameterGeneratorOption(dictionary): a copy of its entries. */
    constructor FromEntries(es: Entries)
      requires DistinctKeys(es)
      ensures Valid() && entries == es
    {
      entries := es;
    }

    /** Add(mapping, mode): the mode with a null constant; ArgumentException if present. */
    method Add(mapping: string, mode: GeneratorMode) returns (error: Option<Exception>)
      requires Valid()
      modifies this
      ensures Valid()
      ensures AddEntry(old(entries), mapping, (mode, None)).Success? ==>
        error.None? && entries == AddEntry(old(entries), mapping, (mode, None)).value
      ensures AddEntry(old(entries), mapping, (mode, None)).Failure? ==>
        error == Some(Argument) && entries == old(entries)
    {
      var r := AddEntry(entries, mapping, (mode, None));
      if r.Failure? {
        return Some(r.error);
      }
      entries, error := r.value, None;
    }

    /** AddConstant(mapping, constant): UseConstant with that value; ArgumentException if present. */
    method AddConstant(mapping: string, constant: Option<Value>) returns (error: Option<Exception>)
      requires Valid()
      modifies this
      ensures Valid()
      ensures AddEntry(old(entries), mapping, (UseConstant, constant)).Success? ==>
        error.None? && entries == AddEntry(old(entries), mapping, (UseConstant, constant)).value
      ensures AddEntry(old(entries), mapping, (UseConstant, constant)).Failure? ==>
        error == Some(Argument) && entries == old(entries)
    {
      var r := AddEntry(entries, mapping, (UseConstant, constant));
      if r.Failure? {
        return Some(r.error);
      }
      entries, error := r.value, None;
    }

    /** Equals(TestParameterGeneratorOption other). */
    predicate Equals(other: GeneratorOption)
      reads this, other
    {
      SameOption(entries, other.entries)
    }

    /** Equals(object): the cast hands over to the Equals Dictionary inherits, reference identity. */
    predicate EqualsObject(obj: GeneratorOption?)
      reads this
    {
      obj == this
    }
  }

  /** Two options built alike are Equal, yet Equals(object) tells them apart. */
  method EqualsObjectIsIdentity() returns (a: GeneratorOption, b: GeneratorOption)
    ensures a.Equals(b) && b.Equals(a) && !a.EqualsObject(b)
  {
    a := new GeneratorOption.FromEntries([("id", (UseConstant, Some(Str("1"))))]);
    b := new GeneratorOption.FromEntries([("id", (UseConstant, Some(Str("1"))))]);
  }
}
