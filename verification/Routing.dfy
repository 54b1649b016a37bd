/** Choosing a location for a path (src/handler.rs). */
module Routing {
  import opened Text
  import opened Settings

  /** max_by_key over the matching locations: of several longest ones, the last. Matching
      paths are prefixes of one path, so comparing characters or bytes is the same. */
  function Best(path: string, ls: seq<Location>): Option<Location> {
    if ls == [] then None
    else
      var best, l := Best(path, ls[..|ls| - 1]), ls[|ls| - 1];
      if StartsWith(path, l.path) && (best.None? || |l.path| >= |best.value.path|) then Some(l) else best
  }

  function MatchLocation(path: string, config: ServerConfig): Option<Location> { Best(path, config.locations) }

  /** The location at k matches, none that matches is longer, and none behind it is as long. */
  predicate IsBest(path: string, ls: seq<Location>, k: nat) {
    && k < |ls| && StartsWith(path, ls[k].path)
    && (forall i :: 0 <= i < |ls| && StartsWith(path, ls[i].path) ==> |ls[i].path| <= |ls[k].path|)
    && (forall i :: k < i < |ls| && StartsWith(path, ls[i].path) ==> |ls[i].path| < |ls[k].path|)
  }

  lemma {:induction false} BestExactly(path: string, ls: seq<Location>) returns (k: nat)
    ensures Best(path, ls).None? <==> forall i :: 0 <= i < |ls| ==> !StartsWith(path, ls[i].path)
    ensures Best(path, ls).Some? ==> IsBest(path, ls, k) && Best(path, ls).value == ls[k]
    decreases |ls|
  {
    k := 0;
    if ls != [] {
      var front, l := ls[..|ls| - 1], ls[|ls| - 1];
      k := BestExactly(path, front);
      assert forall i :: 0 <= i < |front| ==> front[i] == ls[i];
      if StartsWith(path, l.path) && (Best(path, front).None? || |l.path| >= |Best(path, front).value.path|) {
        k := |ls| - 1;
      }
    }
  }

  /** The position is unique, so IsBest says which location is chosen. */
  lemma BestUnique(path: string, ls: seq<Location>, k: nat)
    requires IsBest(path, ls, k)
    ensures Best(path, ls) == Some(ls[k])
  {
    var j := BestExactly(path, ls);
    assert StartsWith(path, ls[k].path);
    assert j == k;
  }

  predicate DistinctPaths(ls: seq<Location>) { forall i, j :: 0 <= i < j < |ls| ==> ls[i].path != ls[j].path }

  /** With distinct paths the order of the location blocks does not matter. */
  lemma BestOrderFree(path: string, ls: seq<Location>, ms: seq<Location>)
    requires DistinctPaths(ls) && multiset(ms) == multiset(ls)
    ensures Best(path, ms) == Best(path, ls)
  {
    var k := BestExactly(path, ls);
    var j := BestExactly(path, ms);
    assert forall l :: l in ms <==> l in multiset(ms);
    assert forall l :: l in ls <==> l in multiset(ls);
    if Best(path, ms).Some? { assert ms[j] in ls; }
    if Best(path, ls).Some? {
      assert ls[k] in ms;
      assert Best(path, ms).Some?;
      assert |ms[j].path| == |ls[k].path|;
      assert ms[j].path == path[..|ls[k].path|] == ls[k].path;
    }
  }

  /** The same for the locations of a server block, which are all looked at. */
  lemma MatchExactly(path: string, config: ServerConfig, k: nat)
    ensures IsBest(path, config.locations, k) ==> MatchLocation(path, config) == Some(config.locations[k])
    ensures MatchLocation(path, config).None? <==>
            forall i :: 0 <= i < |config.locations| ==> !StartsWith(path, config.locations[i].path)
    ensures MatchLocation(path, config).Some? ==>
              exists j: nat :: IsBest(path, config.locations, j) && MatchLocation(path, config) == Some(config.locations[j])
  {
    var j := BestExactly(path, config.locations);
    if IsBest(path, config.locations, k) { BestUnique(path, config.locations, k); }
  }

  lemma MatchOrderFree(path: string, config: ServerConfig, other: ServerConfig)
    requires DistinctPaths(config.locations) && multiset(other.locations) == multiset(config.locations)
    ensures MatchLocation(path, other) == MatchLocation(path, config)
  {
    BestOrderFree(path, config.locations, other.locations);
  }

  // ---- The path below the location -----------------------------------------

  predicate IsSlash(c: char) { c == '/' }

  /** strip_location_prefix. */
  function StripPrefix(path: string, prefix: string): string {
    TrimStart(if StartsWith(path, prefix) then path[|prefix|..] else path, IsSlash)
  }

  /** For the chosen location, the path is the location's path, slashes, and the rest,
      which starts with no slash. */
  lemma StripExactly(path: string, config: ServerConfig) returns (slashes: string)
    requires MatchLocation(path, config).Some?
    ensures var l, rest := MatchLocation(path, config).value.path, StripPrefix(path, MatchLocation(path, config).value.path);
            && path == l + slashes + rest && All(slashes, IsSlash) && (rest != "" ==> rest[0] != '/')
  {
    var k := BestExactly(path, config.locations);
    var l := MatchLocation(path, config).value.path;
    var below := path[|l|..];
    var n := Leading(below, IsSlash);
    slashes := below[..n];
    assert path[..|l|] == l;
    ThreeParts(path, |l|, n);
  }
}
