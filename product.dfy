/**
 * The cartesian product of TestModel.CartesianProduct (ObST.Tester/Domain/TestModel.cs):
 * all ways of picking one element from each list, the first list varying slowest.
 */
module Products {
  import opened Arith

  /** list.Aggregate(1, (i, next) => i * next.Count): the number of combinations. */
  function Count<T>(list: seq<seq<T>>): nat
  {
    if |list| == 0 then 1 else Mul(Count(list[..|list| - 1]), |list[|list| - 1]|)
  }

  /** a prepended to each of ps. */
  function Cons<T>(a: T, ps: seq<seq<T>>): (r: seq<seq<T>>)
    ensures |r| == |ps| && forall m :: 0 <= m < |ps| ==> r[m] == [a] + ps[m]
  {
    if |ps| == 0 then [] else [[a] + ps[0]] + Cons(a, ps[1..])
  }

  /** Each element of xs, in order, prepended to each of ps. */
  function Prepend<T>(xs: seq<T>, ps: seq<seq<T>>): seq<seq<T>>
  {
    if |xs| == 0 then [] else Cons(xs[0], ps) + Prepend(xs[1..], ps)
  }

  /** The reference definition of the product: the first list varies slowest. */
  function Product<T>(list: seq<seq<T>>): seq<seq<T>>
  {
    if |list| == 0 then [[]] else Prepend(list[0], Product(list[1..]))
  }

  lemma {:induction false} PrependLength<T>(xs: seq<T>, ps: seq<seq<T>>)
    ensures |Prepend(xs, ps)| == Mul(|xs|, |ps|)
    decreases |xs|
  {
    if |xs| > 0 {
      PrependLength(xs[1..], ps);
    }
  }

  /** Combination a * |ps| + b is element a of xs in front of combination b of ps. */
  lemma {:induction false} PrependAt<T>(xs: seq<T>, ps: seq<seq<T>>, a: nat, b: nat)
    requires a < |xs| && b < |ps|
    ensures Mul(a, |ps|) + b < |Prepend(xs, ps)|
    ensures Prepend(xs, ps)[Mul(a, |ps|) + b] == [xs[a]] + ps[b]
    decreases a
  {
    if a == 0 {
      PrependFront(xs, ps, b);
    } else {
      var j := Mul(a - 1, |ps|) + b;
      PrependAt(xs[1..], ps, a - 1, b);
      PrependBehind(xs, ps, j);
      assert Mul(a, |ps|) + b == |ps| + j;
      assert xs[1..][a - 1] == xs[a];
    }
  }

  lemma PrependFront<T>(xs: seq<T>, ps: seq<seq<T>>, b: nat)
    requires 0 < |xs| && b < |ps|
    ensures b < |Prepend(xs, ps)| && Prepend(xs, ps)[b] == [xs[0]] + ps[b]
  {
    assert Prepend(xs, ps) == Cons(xs[0], ps) + Prepend(xs[1..], ps);
  }

  lemma PrependBehind<T>(xs: seq<T>, ps: seq<seq<T>>, j: nat)
    requires 0 < |xs| && j < |Prepend(xs[1..], ps)|
    ensures |ps| + j < |Prepend(xs, ps)| && Prepend(xs, ps)[|ps| + j] == Prepend(xs[1..], ps)[j]
  {
    assert Prepend(xs, ps) == Cons(xs[0], ps) + Prepend(xs[1..], ps);
  }

  lemma {:induction false} CountSplit<T>(list: seq<seq<T>>, k: nat)
    requires k <= |list|
    ensures Count(list) == Mul(Count(list[..k]), Count(list[k..]))
    decreases |list|
  {
    if k == |list| {
      assert list[..k] == list;
      assert Count(list[k..]) == 1;
      MulComm(Count(list), 1);
    } else {
      var init := list[..|list| - 1];
      var n := |list[|list| - 1]|;
      CountSplit(init, k);
      assert init[..k] == list[..k];
      var tail := list[k..];
      assert tail[..|tail| - 1] == init[k..];
      assert Count(tail) == Mul(Count(init[k..]), n);
      MulAssoc(Count(list[..k]), Count(init[k..]), n);
    }
  }

  lemma CountCons<T>(list: seq<seq<T>>)
    requires |list| > 0
    ensures Count(list) == Mul(|list[0]|, Count(list[1..]))
  {
    CountSplit(list, 1);
    assert list[..1][..0] == [];
    MulOne(|list[0]|);
    assert Count(list[..1]) == |list[0]|;
  }

  lemma {:induction false} PrependMembers<T>(xs: seq<T>, ps: seq<seq<T>>)
    ensures forall p :: p in Prepend(xs, ps) ==> |p| > 0 && p[0] in xs && p[1..] in ps
    decreases |xs|
  {
    if |xs| > 0 {
      PrependMembers(xs[1..], ps);
      forall p | p in Prepend(xs, ps) ensures |p| > 0 && p[0] in xs && p[1..] in ps
      {
        if p in Cons(xs[0], ps) {
          var m :| 0 <= m < |ps| && Cons(xs[0], ps)[m] == p;
          assert p[1..] == ps[m];
        }
      }
    }
  }

  /** There are Count(list) combinations. */
  lemma {:induction false} ProductCount<T>(list: seq<seq<T>>)
    ensures |Product(list)| == Count(list)
    decreases |list|
  {
    if |list| > 0 {
      ProductCount(list[1..]);
      CountCons(list);
      PrependLength(list[0], Product(list[1..]));
    }
  }

  /** Every combination picks one element of each list. */
  lemma {:induction false} ProductShape<T>(list: seq<seq<T>>)
    ensures forall p :: p in Product(list) ==> |p| == |list| && forall k :: 0 <= k < |list| ==> p[k] in list[k]
    decreases |list|
  {
    if |list| > 0 {
      var rest := Product(list[1..]);
      ProductShape(list[1..]);
      PrependMembers(list[0], rest);
      forall p | p in Product(list) ensures |p| == |list| && forall k :: 0 <= k < |list| ==> p[k] in list[k]
      {
        forall k | 0 <= k < |list| ensures p[k] in list[k]
        {
          if k > 0 {
            assert p[k] == p[1..][k - 1];
          }
        }
      }
    }
  }

  /** The number of combinations, and the length of combination i when there is one. */
  lemma ProductRows<T>(list: seq<seq<T>>, i: nat)
    ensures |Product(list)| == Count(list)
    ensures i < Count(list) ==> |Product(list)[i]| == |list|
  {
    ProductCount(list);
    ProductShape(list);
    if i < Count(list) {
      assert Product(list)[i] in Product(list);
    }
  }

  /** Combination i picks its j-th element from list j. */
  lemma ProductMember<T>(list: seq<seq<T>>, i: nat, j: nat)
    requires i < |Product(list)| && j < |list|
    ensures j < |Product(list)[i]| && Product(list)[i][j] in list[j]
  {
    ProductShape(list);
    assert Product(list)[i] in Product(list);
  }

  /**
   * The i-th combination takes from list k the element at the k-th mixed-radix digit of i,
   * where the weight of digit k is the number of combinations of the lists after k.
   */
  lemma {:induction false} ProductIndex<T>(list: seq<seq<T>>, i: nat, k: nat)
    requires i < Count(list) && k < |list|
    ensures |list[k]| > 0 && Count(list[k + 1..]) > 0
    ensures |Product(list)| == Count(list) && |Product(list)[i]| == |list|
    ensures Product(list)[i][k] == list[k][(i / Count(list[k + 1..])) % |list[k]|]
    decreases |list|
  {
    var rest := list[1..];
    var s := Count(rest);
    var q, r := ProductAt(list, i);
    if k == 0 {
      ModSmall(q, |list[0]|);
      assert rest == list[k + 1..];
    } else {
      ProductIndex(rest, r, k - 1);
      assert rest[k..] == list[k + 1..];
      CountAround(rest, k);
      DigitOfRemainder(i, s, Count(rest[..k - 1]), |list[k]|, Count(rest[k..]));
    }
  }

  /** The first list picks the slowest digit q of i, the rest of the lists its remainder r. */
  lemma ProductAt<T>(list: seq<seq<T>>, i: nat) returns (q: nat, r: nat)
    requires |list| > 0 && i < Count(list)
    ensures Count(list[1..]) > 0 && q == i / Count(list[1..]) && r == i % Count(list[1..])
    ensures q < |list[0]| && r < |Product(list[1..])|
    ensures |Product(list)| == Count(list) && |Product(list)[i]| == |list|
    ensures Product(list)[i] == [list[0][q]] + Product(list[1..])[r]
  {
    ProductRows(list, i);
    var rest := list[1..];
    CountCons(list);
    ProductRows(rest, 0);
    q, r := Digits(i, |list[0]|, Count(rest));
    PrependAt(list[0], Product(rest), q, r);
  }

  /** The count of the lists up to k - 1, list k - 1, and the lists from k on. */
  lemma CountAround<T>(rest: seq<seq<T>>, k: nat)
    requires 0 < k <= |rest|
    ensures Count(rest) == Mul(Mul(Count(rest[..k - 1]), |rest[k - 1]|), Count(rest[k..]))
  {
    CountSplit(rest, k);
    assert rest[..k][..k - 1] == rest[..k - 1];
  }

  /**
   * Step k of the index formula: j, the product of the sizes up to k, divides the
   * count into the weight Count(list[k+1..]) of list k, and the digit picks the
   * element of combination i.
   */
  lemma CartesianStep<T>(list: seq<seq<T>>, i: nat, k: nat, j: nat)
    requires i < Count(list) && k < |list|
    requires j == Mul(Count(list[..k]), |list[k]|)
    ensures j == Count(list[..k + 1]) && j > 0
    ensures Count(list) / j == Count(list[k + 1..]) && Count(list[k + 1..]) > 0
    ensures |Product(list)| == Count(list) && |Product(list)[i]| == |list|
    ensures |list[k]| > 0 && list[k][(i / Count(list[k + 1..])) % |list[k]|] == Product(list)[i][k]
  {
    assert list[..k + 1][..k] == list[..k];
    CountSplit(list, k + 1);
    ProductIndex(list, i, k);
    var t := Count(list[k + 1..]);
    if j == 0 {
      assert false;
    }
    MulComm(j, t);
    ModSmall(0, 1);
    DivModUnique(Count(list), j, t, 0);
  }
}
