/**
 * Path-template parsing of the analyzer (ObST.Analyzer/Domain/PathsAnalyzer.cs):
 * "/pets/{petId}/toys" has one parameter petId, the clean path "/pets/{?}/toys",
 * and the parameter's partial path "/pets/{?}".
 */
module PathsAnalyzer {
  import opened Wrappers

  /** string.Split(sep): the pieces between separators, empty pieces included. */
  function Split(s: string, sep: char): (pieces: seq<string>)
    ensures |pieces| >= 1
    ensures forall i :: 0 <= i < |pieces| ==> sep !in pieces[i]
  {
    if |s| == 0 then [""]
    else
      var rest := Split(s[1..], sep);
      if s[0] == sep then [""] + rest
      else [[s[0]] + rest[0]] + rest[1..]
  }

  function Join(pieces: seq<string>, sep: char): string
    requires |pieces| >= 1
  {
    if |pieces| == 1 then pieces[0] else pieces[0] + [sep] + Join(pieces[1..], sep)
  }

  /** Split is undone by joining with the same separator. */
  lemma {:induction false} JoinSplit(s: string, sep: char)
    ensures Join(Split(s, sep), sep) == s
  {
    if |s| > 0 {
      JoinSplit(s[1..], sep);
      var rest := Split(s[1..], sep);
      if s[0] == sep {
        assert ([""] + rest)[1..] == rest;
      } else {
        var pieces := [[s[0]] + rest[0]] + rest[1..];
        if |rest| == 1 {
          assert Join(pieces, sep) == [s[0]] + rest[0];
        } else {
          assert pieces[1..] == rest[1..];
          assert Join(rest, sep) == rest[0] + [sep] + Join(rest[1..], sep);
        }
      }
    }
  }

  /** The pieces that are not empty (StringSplitOptions.RemoveEmptyEntries). */
  function NonEmpty(pieces: seq<string>): (r: seq<string>)
    ensures forall i :: 0 <= i < |r| ==> |r[i]| > 0 && r[i] in pieces
    ensures forall p :: p in pieces && p != "" ==> p in r
  {
    if pieces == [] then []
    else if pieces[0] == "" then NonEmpty(pieces[1..])
    else [pieces[0]] + NonEmpty(pieces[1..])
  }

  function Segments(path: string): (segs: seq<string>)
    ensures forall i :: 0 <= i < |segs| ==> |segs[i]| > 0 && '/' !in segs[i]
  {
    NonEmpty(Split(path, '/'))
  }

  predicate IsParameter(segment: string)
  {
    |segment| > 0 && segment[0] == '{'
  }

  /** A parameter segment that is not closed by '}'. */
  predicate Malformed(segment: string)
  {
    IsParameter(segment) && segment[|segment| - 1] != '}'
  }

  /** The segment as it appears in the clean path. */
  function CleanSegment(segment: string): string
  {
    if IsParameter(segment) then "{?}" else segment
  }

  /** The clean path of a list of segments: each is prefixed by '/'. */
  function CleanPath(segs: seq<string>): string
  {
    if segs == [] then "" else CleanPath(segs[..|segs| - 1]) + "/" + CleanSegment(segs[|segs| - 1])
  }

  datatype PathParameter = PathParameter(name: string, partialPath: string)

  /** The name of a well-formed parameter segment: the text between the braces. */
  function ParameterName(segment: string): string
    requires IsParameter(segment) && !Malformed(segment)
  {
    segment[1..|segment| - 1]
  }

  /** The parameters of a list of well-formed segments, with their partial paths. */
  function Parameters(segs: seq<string>): seq<PathParameter>
    requires forall i :: 0 <= i < |segs| ==> !Malformed(segs[i])
  {
    if segs == [] then []
    else
      var last := segs[|segs| - 1];
      Parameters(segs[..|segs| - 1]) +
        if IsParameter(last) then [PathParameter(ParameterName(last), CleanPath(segs))] else []
  }

  datatype Analysis = Analysis(parameters: seq<PathParameter>, lastIsParameter: bool, cleanPath: string)

  /**
   * GetPathParameters: fails with an ArgumentException iff some non-empty segment
   * starts with '{' without ending with '}'.
   */
  method GetPathParameters(path: string) returns (r: Result<Analysis>)
    ensures var segs := Segments(path);
      r.Failure? <==> exists i :: 0 <= i < |segs| && Malformed(segs[i])
    ensures r.Failure? ==> r.error == Argument
    ensures r.Success? ==>
      var segs := Segments(path);
      r.value.cleanPath == CleanPath(segs) &&
      r.value.parameters == Parameters(segs) &&
      (r.value.lastIsParameter <==> segs != [] && IsParameter(segs[|segs| - 1]))
  {
    r := AnalyzeSegments(Segments(path));
  }

  /** The loop of GetPathParameters over the non-empty segments. */
  method AnalyzeSegments(segs: seq<string>) returns (r: Result<Analysis>)
    requires forall i :: 0 <= i < |segs| ==> |segs[i]| > 0
    ensures r.Failure? <==> exists i :: 0 <= i < |segs| && Malformed(segs[i])
    ensures r.Failure? ==> r.error == Argument
    ensures r.Success? ==>
      r.value.cleanPath == CleanPath(segs) &&
      r.value.parameters == Parameters(segs) &&
      (r.value.lastIsParameter <==> segs != [] && IsParameter(segs[|segs| - 1]))
  {
    var parameters: seq<PathParameter> := [];
    var lastIsParameter := false;
    var partialPath := "";
    for i := 0 to |segs|
      invariant forall j :: 0 <= j < i ==> !Malformed(segs[j])
      invariant partialPath == CleanPath(segs[..i])
      invariant parameters == Parameters(segs[..i])
      invariant lastIsParameter <==> i > 0 && IsParameter(segs[i - 1])
    {
      var segment := segs[i];
      ghost var next := segs[..i + 1];
      assert next[..i] == segs[..i] && next[i] == segment;
      partialPath := partialPath + "/";
      if segment[0] == '{' {
        if segment[|segment| - 1] != '}' {
          assert Malformed(segs[i]);
          return Failure(Argument);
        }
        partialPath := partialPath + "{?}";
        assert partialPath == CleanPath(next);
        parameters := parameters + [PathParameter(segment[1..|segment| - 1], partialPath)];
        lastIsParameter := true;
      } else {
        partialPath := partialPath + segment;
        lastIsParameter := false;
      }
    }
    assert segs[..|segs|] == segs;
    return Success(Analysis(parameters, lastIsParameter, partialPath));
  }

  function ParameterSegments(segs: seq<string>): seq<string>
  {
    if segs == [] then []
    else ParameterSegments(segs[..|segs| - 1]) + if IsParameter(segs[|segs| - 1]) then [segs[|segs| - 1]] else []
  }

  /**
   * One parameter per parameter segment, in order: re-wrapping each name in braces
   * gives back the segment, and each partial path ends in "/{?}" and is a prefix of
   * the clean path.
   */
  lemma {:induction false} ParametersMatchSegments(segs: seq<string>)
    requires forall i :: 0 <= i < |segs| ==> !Malformed(segs[i])
    ensures var ps := Parameters(segs); var ss := ParameterSegments(segs);
      |ps| == |ss| &&
      forall j :: 0 <= j < |ps| ==>
        "{" + ps[j].name + "}" == ss[j] &&
        |ps[j].partialPath| >= 4 &&
        ps[j].partialPath[|ps[j].partialPath| - 4..] == "/{?}" &&
        ps[j].partialPath <= CleanPath(segs)
  {
    if segs != [] {
      var init := segs[..|segs| - 1];
      var last := segs[|segs| - 1];
      ParametersMatchSegments(init);
      var ps := Parameters(segs);
      var ss := ParameterSegments(segs);
      assert CleanPath(init) <= CleanPath(segs);
      if IsParameter(last) {
        var n := ParameterName(last);
        assert "{" + n + "}" == last;
        assert CleanPath(segs) == CleanPath(init) + "/" + "{?}";
      }
    }
  }

  /** Literal segments are kept unchanged: a clean literal path is its own clean path. */
  lemma {:induction false} LiteralPathIsClean(segs: seq<string>)
    requires forall i :: 0 <= i < |segs| ==> !IsParameter(segs[i])
    ensures CleanPath(segs) == JoinPrefixed(segs)
  {
    if segs != [] {
      LiteralPathIsClean(segs[..|segs| - 1]);
      JoinPrefixedSnoc(segs[..|segs| - 1], segs[|segs| - 1]);
      assert segs[..|segs| - 1] + [segs[|segs| - 1]] == segs;
    }
  }

  /** "/s1/s2/.../sn". */
  function JoinPrefixed(segs: seq<string>): string
  {
    if segs == [] then "" else "/" + segs[0] + JoinPrefixed(segs[1..])
  }

  lemma {:induction false} JoinPrefixedSnoc(segs: seq<string>, s: string)
    ensures JoinPrefixed(segs + [s]) == JoinPrefixed(segs) + "/" + s
  {
    if segs != [] {
      assert (segs + [s])[1..] == segs[1..] + [s];
      JoinPrefixedSnoc(segs[1..], s);
    }
  }
}
