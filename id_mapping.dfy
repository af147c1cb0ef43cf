/**
 * Id mappings: a mapping name that denotes the identifier of a resource class
 * carries the suffix ":@id" (ObST.Core/Util/IdMappingExtention.cs).
 */
module IdMappings {
  import opened Text

  const IdSuffix: string := ":@id"

  /** The id mapping of the resource class named r. */
  function AddIdMapping(r: string): (m: string)
    ensures |m| == |r| + |IdSuffix|
    ensures m[..|r|] == r
    ensures m[|r|..] == IdSuffix
  {
    r + IdSuffix
  }

  /** Whether the mapping s names an identifier. */
  predicate IsIdMapping(s: string)
  {
    EndsWith(s, IdSuffix)
  }

  /** Every id mapping is recognised as one. */
  lemma AddIdMappingIsIdMapping(r: string)
    ensures IsIdMapping(AddIdMapping(r))
  {
  }

  /** An id mapping is exactly a resource name followed by the suffix. */
  lemma IsIdMappingIffAdded(s: string)
    ensures IsIdMapping(s) <==> exists r :: AddIdMapping(r) == s
  {
    if IsIdMapping(s) {
      var r := s[..|s| - |IdSuffix|];
      assert AddIdMapping(r) == s;
    }
  }

  /** The suffix can be stripped again: AddIdMapping is injective. */
  lemma AddIdMappingInjective(r1: string, r2: string)
    requires AddIdMapping(r1) == AddIdMapping(r2)
    ensures r1 == r2
  {
    assert |r1| == |r2|;
    assert r1 == AddIdMapping(r1)[..|r1|];
  }
}
