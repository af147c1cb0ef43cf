/**
 * Resource classes of the analyzer (ObST.Analyzer/Core/Models/ResourceClass.cs):
 * a named class, or a collection whose element class is its Subordinate.
 */
module ResourceClasses {
  import opened Wrappers

  datatype ResourceClass = ResourceClass(subordinate: Option<ResourceClass>, name: Option<string>)

  /** The number of nested subordinates. */
  function Depth(c: ResourceClass): nat
  {
    match c.subordinate
    case None => 0
    case Some(s) => 1 + Depth(s)
  }

  /** The class at the bottom of the subordinate chain. */
  function Innermost(c: ResourceClass): (r: ResourceClass)
    ensures r.subordinate.None?
  {
    match c.subordinate
    case None => c
    case Some(s) => Innermost(s)
  }

  /** Equals(ResourceClass): equal names and recursively equal subordinates, null only equal to null. */
  predicate Equal(a: ResourceClass, b: ResourceClass)
  {
    a.name == b.name &&
    match (a.subordinate, b.subordinate)
    case (None, None) => true
    case (Some(x), Some(y)) => Equal(x, y)
    case _ => false
  }

  /** Equals agrees with structural equality, in both directions. */
  lemma {:induction false} EqualIffSame(a: ResourceClass, b: ResourceClass)
    ensures Equal(a, b) <==> a == b
  {
    match (a.subordinate, b.subordinate)
    case (Some(x), Some(y)) =>
      EqualIffSame(x, y);
    case _ =>
  }

  /** A class with a subordinate never equals a class without one. */
  lemma SubordinateMatters(a: ResourceClass, b: ResourceClass)
    requires a.subordinate.Some? && b.subordinate.None?
    ensures !Equal(a, b) && !Equal(b, a)
  {
  }

  /**
   * GetHashCode combines the hash of the name with the hash of the subordinate.
   * The string hash and the combiner are runtime functions of .NET and are
   * parameters here.
   */
  function Hash(c: ResourceClass, strHash: Option<string> -> int, combine: (int, int) -> int): int
  {
    match c.subordinate
    case None => combine(strHash(c.name), 0)
    case Some(s) => combine(strHash(c.name), Hash(s, strHash, combine))
  }

  /** Equal resource classes hash equally, whatever the string hash and combiner. */
  lemma EqualImpliesSameHash(a: ResourceClass, b: ResourceClass, strHash: Option<string> -> int, combine: (int, int) -> int)
    requires Equal(a, b)
    ensures Hash(a, strHash, combine) == Hash(b, strHash, combine)
  {
    EqualIffSame(a, b);
  }

  function Repeat(ch: char, n: nat): (s: string)
    ensures |s| == n
    ensures forall i :: 0 <= i < n ==> s[i] == ch
  {
    if n == 0 then "" else [ch] + Repeat(ch, n - 1)
  }

  /** C#'s interpolation of a possibly null string: null becomes "". */
  function NameText(n: Option<string>): string
  {
    match n
    case None => ""
    case Some(s) => s
  }

  /** The private ToString(partial) overload. */
  function ToStringWith(c: ResourceClass, partial: string): string
  {
    match c.subordinate
    case None => NameText(c.name) + partial
    case Some(s) => ToStringWith(s, "[" + partial + "]")
  }

  /** The public ToString. */
  function ToString(c: ResourceClass): string
  {
    match c.subordinate
    case None => if c.name.Some? then c.name.value else "Missing Name!"
    case Some(s) => ToStringWith(s, "[]")
  }

  lemma {:induction false} ToStringWithNests(c: ResourceClass, partial: string)
    ensures ToStringWith(c, partial)
         == NameText(Innermost(c).name) + Repeat('[', Depth(c)) + partial + Repeat(']', Depth(c))
  {
    match c.subordinate
    case None =>
    case Some(s) =>
      ToStringWithNests(s, "[" + partial + "]");
      assert Repeat('[', Depth(s)) + ("[" + partial + "]") + Repeat(']', Depth(s))
          == Repeat('[', Depth(c)) + partial + Repeat(']', Depth(c)) by {
        RepeatSnoc('[', Depth(s));
        assert Repeat(']', Depth(c)) == "]" + Repeat(']', Depth(s));
      }
  }

  lemma RepeatSnoc(ch: char, n: nat)
    ensures Repeat(ch, n + 1) == Repeat(ch, n) + [ch]
  {
  }

  /**
   * ToString is the name, or "Missing Name!" when it is null, for a class without
   * subordinate; otherwise the innermost name followed by one pair of brackets per
   * level of nesting, e.g. "Pet[[]]" for a list of lists of Pet.
   */
  lemma ToStringShape(c: ResourceClass)
    ensures c.subordinate.None? && c.name.Some? ==> ToString(c) == c.name.value
    ensures c.subordinate.None? && c.name.None? ==> ToString(c) == "Missing Name!"
    ensures c.subordinate.Some? ==>
      ToString(c) == NameText(Innermost(c).name) + Repeat('[', Depth(c)) + Repeat(']', Depth(c))
  {
    if c.subordinate.Some? {
      var s := c.subordinate.value;
      ToStringWithNests(s, "[]");
      RepeatSnoc('[', Depth(s));
      assert Repeat(']', Depth(c)) == "]" + Repeat(']', Depth(s));
      assert Repeat('[', Depth(s)) + "[]" + Repeat(']', Depth(s))
          == Repeat('[', Depth(c)) + Repeat(']', Depth(c));
    }
  }
}
