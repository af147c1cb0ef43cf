/**
 * The ids of a concrete path (TestConfigurationExtention.GetIdsOfPath in
 * ObST.Tester/Domain/Util/TestConfigurationExtention.cs): the path is split into
 * segments, each segment either names a literal entry of the analyzed paths or is
 * captured by the placeholder entry, and every captured segment becomes the value
 * of that placeholder's id.
 */
module TestConfigurations {
  import opened Wrappers
  import opened Text
  import PathsAnalyzer

  // ---------------------------------------------------------------------------------
  // GetIdsOfPath

  /**
   * A value of a PathConfigurations dictionary: a nested dictionary, a string
   * (the "$type" entries) or null. The dictionary's entries are in insertion order.
   */
  datatype PathValue = Null | Text(text: string) | Paths(entries: seq<(string, PathValue)>)

  type PathEntries = seq<(string, PathValue)>

  /** GetValueOrDefault(s): the value under the key s, or null. */
  function Exact(es: PathEntries, s: string): PathValue
  {
    if es == [] then Null else if es[0].0 == s then es[0].1 else Exact(es[1..], s)
  }

  /** FirstOrDefault(p => p.Key.ToLowerInvariant() == s.ToLowerInvariant()).Value. */
  function Folded(es: PathEntries, s: string): PathValue
  {
    if es == [] then Null else if ToLower(es[0].0) == ToLower(s) then es[0].1 else Folded(es[1..], s)
  }

  /** FirstOrDefault(p => p.Key.StartsWith("{")): the first placeholder entry. */
  function Placeholder(es: PathEntries): Option<(string, PathValue)>
  {
    if es == [] then None else if StartsWith(es[0].0, "{") then Some(es[0]) else Placeholder(es[1..])
  }

  /**
   * The lookups find the first entry whose key is the segment, equals it up to
   * case, or starts with '{'.
   */
  lemma {:induction false} LookupsFind(es: PathEntries, s: string)
    ensures Exact(es, s) != Null ==> exists i :: 0 <= i < |es| && es[i] == (s, Exact(es, s))
    ensures (forall i :: 0 <= i < |es| ==> es[i].0 != s) ==> Exact(es, s) == Null
    ensures Folded(es, s) != Null ==> exists i :: 0 <= i < |es| && ToLower(es[i].0) == ToLower(s) && es[i].1 == Folded(es, s)
    ensures (forall i :: 0 <= i < |es| ==> ToLower(es[i].0) != ToLower(s)) ==> Folded(es, s) == Null
    ensures Placeholder(es).Some? ==> Placeholder(es).value in es && StartsWith(Placeholder(es).value.0, "{")
    ensures Placeholder(es).None? ==> forall i :: 0 <= i < |es| ==> !StartsWith(es[i].0, "{")
  {
    if es != [] {
      LookupsFind(es[1..], s);
      assert forall i :: 1 <= i < |es| ==> es[i] == es[1..][i - 1];
    }
  }

  /** A result with some captures in front. */
  function Prepend(ids: seq<(string, string)>, r: Result<seq<(string, string)>>): Result<seq<(string, string)>>
  {
    if r.Failure? then r else Success(ids + r.value)
  }

  lemma PrependNothing(r: Result<seq<(string, string)>>)
    ensures Prepend([], r) == r
  {
    if r.Success? {
      assert [] + r.value == r.value;
    }
  }

  lemma PrependTwice(a: seq<(string, string)>, b: seq<(string, string)>, r: Result<seq<(string, string)>>)
    ensures Prepend(a, Prepend(b, r)) == Prepend(a + b, r)
  {
    if r.Success? {
      assert a + (b + r.value) == (a + b) + r.value;
    }
  }

  /**
   * One segment of the foreach: the dictionary it leads to and the capture it
   * makes, if any. A placeholder "{k}" captures (k, s); a key "{" too short for
   * key[1..^1] throws ArgumentOutOfRangeException, an ArgumentException.
   */
  function Step(es: PathEntries, s: string, caseInsensitive: bool): Result<(Option<(string, string)>, PathEntries)>
  {
    var m := if caseInsensitive then Folded(es, s) else Exact(es, s);
    if m != Null then
      (if m.Paths? then Success((None, m.entries)) else Failure(InvalidCast))
    else
      match Placeholder(es)
      case None => Failure(Argument)
      case Some((key, v)) =>
        if v == Null || |key| < 2 then Failure(Argument)
        else if v.Text? then Failure(InvalidCast)
        else Success((Some((key[1..|key| - 1], s)), v.entries))
  }

  /** The ids of the segments segs, starting in the dictionary es. */
  function IdsFrom(es: PathEntries, segs: seq<string>, caseInsensitive: bool): Result<seq<(string, string)>>
    decreases segs
  {
    if segs == [] then Success([])
    else
      match Step(es, segs[0], caseInsensitive)
      case Failure(e) => Failure(e)
      case Success((capture, next)) =>
        Prepend(if capture.Some? then [capture.value] else [], IdsFrom(next, segs[1..], caseInsensitive))
  }

  /** GetIdsOfPath(path, caseInsensitive) for the configuration's Paths. */
  function IdsOfPath(paths: Option<PathEntries>, path: string, caseInsensitive: bool): Result<seq<(string, string)>>
  {
    if paths.None? then Success([]) else IdsFrom(paths.value, PathsAnalyzer.Segments(path), caseInsensitive)
  }

  /** The captures of one step, as a sequence. */
  function Captured(capture: Option<(string, string)>): seq<(string, string)>
  {
    if capture.Some? then [capture.value] else []
  }

  /** IdsFrom after one successful step. */
  lemma IdsFromStep(es: PathEntries, segs: seq<string>, caseInsensitive: bool, capture: Option<(string, string)>, next: PathEntries)
    requires segs != [] && Step(es, segs[0], caseInsensitive) == Success((capture, next))
    ensures IdsFrom(es, segs, caseInsensitive) == Prepend(Captured(capture), IdsFrom(next, segs[1..], caseInsensitive))
  {
  }

  method GetIdsOfPath(paths: Option<PathEntries>, path: string, caseInsensitive: bool) returns (r: Result<seq<(string, string)>>)
    ensures r == IdsOfPath(paths, path, caseInsensitive)
  {
    var res: seq<(string, string)> := [];
    if paths.None? {
      return Success(res);
    }
    var currentPath := paths.value;
    var segments := PathsAnalyzer.Segments(path);
    assert segments[0..] == segments;
    PrependNothing(IdsFrom(currentPath, segments, caseInsensitive));
    for i := 0 to |segments|
      invariant IdsOfPath(paths, path, caseInsensitive) == Prepend(res, IdsFrom(currentPath, segments[i..], caseInsensitive))
    {
      var s := segments[i];
      assert segments[i..][0] == s && segments[i..][1..] == segments[i + 1..];
      var step := Step(currentPath, s, caseInsensitive);
      if step.Failure? {
        assert IdsFrom(currentPath, segments[i..], caseInsensitive) == Failure(step.error);
        return Failure(step.error);
      }
      var (capture, next) := step.value;
      IdsFromStep(currentPath, segments[i..], caseInsensitive, capture, next);
      PrependTwice(res, Captured(capture), IdsFrom(next, segments[i + 1..], caseInsensitive));
      res := res + Captured(capture);
      currentPath := next;
    }
    assert segments[|segments|..] == [] && res + [] == res;
    r := Success(res);
  }

  /** With no Paths configured every path has no ids. */
  lemma NoPathsNoIds(path: string, caseInsensitive: bool)
    ensures IdsOfPath(None, path, caseInsensitive) == Success([])
  {
  }

  /** A literal key that matches the segment wins over a placeholder and captures nothing. */
  lemma LiteralWins(es: PathEntries, s: string, rest: seq<string>, next: PathEntries)
    requires Exact(es, s) == Paths(next)
    ensures IdsFrom(es, [s] + rest, false) == IdsFrom(next, rest, false)
  {
    assert ([s] + rest)[1..] == rest;
    PrependNothing(IdsFrom(next, rest, false));
  }

  /** Otherwise a placeholder "{k}" captures (k, s) and leads on. */
  lemma PlaceholderCaptures(es: PathEntries, s: string, rest: seq<string>, key: string, next: PathEntries)
    requires Exact(es, s) == Null && Placeholder(es) == Some((key, Paths(next))) && |key| >= 2
    ensures IdsFrom(es, [s] + rest, false) == Prepend([(key[1..|key| - 1], s)], IdsFrom(next, rest, false))
  {
    assert ([s] + rest)[1..] == rest;
  }

  /** A segment that matches no key and finds no placeholder throws ArgumentException. */
  lemma UnmatchedSegmentThrows(es: PathEntries, s: string, rest: seq<string>, caseInsensitive: bool)
    requires (if caseInsensitive then Folded(es, s) else Exact(es, s)) == Null && Placeholder(es).None?
    ensures IdsFrom(es, [s] + rest, caseInsensitive) == Failure(Argument)
  {
  }

  /**
   * Case-insensitively a key that differs from the segment only in case matches;
   * case-sensitively it does not.
   */
  lemma CaseFolding(es: PathEntries, key: string, s: string, v: PathValue)
    requires es == [(key, v)] && ToLower(key) == ToLower(s)
    ensures Folded(es, s) == v
    ensures key != s ==> Exact(es, s) == Null
  {
  }

  /** Every captured value is one of the path's segments, and there is at most one capture per segment. */
  lemma {:induction false} CapturesAreSegments(es: PathEntries, segs: seq<string>, caseInsensitive: bool)
    ensures var r := IdsFrom(es, segs, caseInsensitive);
      r.Success? ==> |r.value| <= |segs| && forall i :: 0 <= i < |r.value| ==> r.value[i].1 in segs
    decreases segs
  {
    if segs != [] {
      var st := Step(es, segs[0], caseInsensitive);
      if st.Success? {
        CapturesAreSegments(st.value.1, segs[1..], caseInsensitive);
        var rest := IdsFrom(st.value.1, segs[1..], caseInsensitive);
        if rest.Success? {
          var pre: seq<(string, string)> := if st.value.0.Some? then [st.value.0.value] else [];
          assert st.value.0.Some? ==> st.value.0.value.1 == segs[0];
          forall i | 0 <= i < |pre + rest.value| ensures (pre + rest.value)[i].1 in segs
          {
            if i >= |pre| {
              assert (pre + rest.value)[i] == rest.value[i - |pre|];
              assert rest.value[i - |pre|].1 in segs[1..];
            }
          }
        }
      }
    }
  }

  /** The paths of the configuration in the GetIdsOfPath tests: api/players/{Player:@id}. */
  function Players(): PathEntries
  {
    [("api", Paths(Api()))]
  }

  function Api(): PathEntries
  {
    [("players", Paths(PlayerList()))]
  }

  function PlayerList(): PathEntries
  {
    [("$type", Text("Player[]")), ("{Player:@id}", Paths(Player()))]
  }

  function Player(): PathEntries
  {
    [("$type", Text("Player"))]
  }

  lemma ApiStep(ci: bool)
    ensures Step(Players(), "api", ci) == Success((None, Api()))
  {
  }

  lemma PlayersStep(ci: bool)
    ensures Step(Api(), "players", ci) == Success((None, PlayerList()))
  {
  }

  lemma MixedCaseStep()
    ensures Step(Api(), "PlaYERS", false) == Failure(Argument)
    ensures Step(Api(), "PlaYERS", true) == Success((None, PlayerList()))
  {
    assert Exact(Api(), "PlaYERS") == Null;
    assert "players"[0] == 'p';
    assert Placeholder(Api()) == None;
    assert ToLower("PlaYERS") == "players";
  }

  lemma IdStep(ci: bool)
    ensures Step(PlayerList(), "some_id", ci) == Success((Some(("Player:@id", "some_id")), Player()))
  {
    NoLiteralId();
    PlayerPlaceholder();
    StepCaptures(PlayerList(), "some_id", ci, "{Player:@id}", Player());
  }

  lemma PlayerPlaceholder()
    ensures Placeholder(PlayerList()) == Some(("{Player:@id}", Paths(Player())))
    ensures "{Player:@id}"[1..11] == "Player:@id"
  {
    assert "$type"[0] == '$';
  }

  /** A segment that matches no key is captured by the placeholder. */
  lemma StepCaptures(es: PathEntries, s: string, ci: bool, key: string, next: PathEntries)
    requires Exact(es, s) == Null && Folded(es, s) == Null
    requires Placeholder(es) == Some((key, Paths(next))) && |key| >= 2
    ensures Step(es, s, ci) == Success((Some((key[1..|key| - 1], s)), next))
  {
  }

  /** No key of the player list is "some_id", in any case: the lengths differ. */
  lemma NoLiteralId()
    ensures Exact(PlayerList(), "some_id") == Null && Folded(PlayerList(), "some_id") == Null
  {
    LengthsDiffer(PlayerList(), "some_id");
  }

  /** A segment whose length no key has matches no key. */
  lemma LengthsDiffer(es: PathEntries, s: string)
    requires forall i :: 0 <= i < |es| ==> |es[i].0| != |s|
    ensures Exact(es, s) == Null && Folded(es, s) == Null
  {
    LookupsFind(es, s);
  }

  /** The segments after the first. */
  lemma Tails(a: string, b: string, c: string)
    ensures [a, b, c][1..] == [b, c] && [b, c][1..] == [c] && [c][1..] == []
  {
  }

  lemma UnknownPath()
    ensures IdsFrom(Players(), ["nothing"], false) == Failure(Argument)
  {
    assert Exact(Players(), "nothing") == Null;
    assert "api"[0] == 'a';
    assert Placeholder(Players()) == None;
  }

  lemma PathWithoutIds()
    ensures IdsFrom(Players(), ["api"], false) == Success([])
  {
    ApiStep(false);
    assert ["api"][1..] == [];
    PrependNothing(Success([]));
  }

  lemma SingleId(ci: bool)
    ensures IdsFrom(Players(), ["api", "players", "some_id"], ci) == Success([("Player:@id", "some_id")])
  {
    PlayersStep(ci);
    IdStep(ci);
    ThreeLevels(ci, "players");
  }

  lemma UnmatchingCase()
    ensures IdsFrom(Players(), ["api", "PlaYERS", "some_id"], false) == Failure(Argument)
  {
    ApiStep(false);
    MixedCaseStep();
    Tails("api", "PlaYERS", "some_id");
  }

  lemma IgnoredCase()
    ensures IdsFrom(Players(), ["api", "PlaYERS", "some_id"], true) == Success([("Player:@id", "some_id")])
  {
    MixedCaseStep();
    IdStep(true);
    ThreeLevels(true, "PlaYERS");
  }

  /** The walk down api/.../some_id once the second segment leads to the player list. */
  lemma ThreeLevels(ci: bool, second: string)
    requires Step(Api(), second, ci) == Success((None, PlayerList()))
    requires Step(PlayerList(), "some_id", ci) == Success((Some(("Player:@id", "some_id")), Player()))
    ensures IdsFrom(Players(), ["api", second, "some_id"], ci) == Success([("Player:@id", "some_id")])
  {
    ApiStep(ci);
    Tails("api", second, "some_id");
    var id := ("Player:@id", "some_id");
    assert IdsFrom(Player(), [], ci) == Success([]);
    IdsFromStep(PlayerList(), ["some_id"], ci, Some(id), Player());
    assert [id] + [] == [id];
    IdsFromStep(Api(), [second, "some_id"], ci, None, PlayerList());
    PrependNothing(Success([id]));
    IdsFromStep(Players(), ["api", second, "some_id"], ci, None, Api());
  }
}
