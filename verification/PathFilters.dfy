/**
 Include and veto filters over the paths of one event, within one shared work budget. A partial set of
 paths can prove an include or a veto, but not that a veto is absent.
 */
module PathFilters {
  import opened Text
  import opened Globs

  const MAX_PATH_FILTER_WORK: nat := 1_000_000

  datatype FilterField = Paths | PathsIgnore

  datatype FilterReason = Unavailable | Incomplete | Invalid | KnownEmpty | NoMatch | IgnoredPath | LimitExceeded

  datatype FilterResult = Passes | Fails(field: FilterField, reason: FilterReason)

  /** The path facts of an event: entries that are not text have no path. */
  datatype PathFacts = PathFacts(paths: Option<seq<Option<string>>>, complete: bool)

  function CharBytes(c: char): nat {
    var code := c as int;
    if code < 0x80 then 1 else if code < 0x800 then 2 else if code < 0x1_0000 then 3 else 4
  }

  function ByteLength(s: string): nat {
    if s == [] then 0 else CharBytes(s[0]) + ByteLength(s[1..])
  }

  function Cost(glob: string, path: string): nat {
    ByteLength(glob) * ByteLength(path)
  }

  // ----- what matching costs and finds

  /** Work for one path against every pattern. */
  function PathCost(globs: seq<string>, path: string): nat {
    if globs == [] then 0 else Cost(globs[0], path) + PathCost(globs[1..], path)
  }

  function AllCost(globs: seq<string>, paths: seq<string>): nat {
    if paths == [] then 0 else PathCost(globs, paths[0]) + AllCost(globs, paths[1..])
  }

  predicate AnyGlob(globs: seq<string>, path: string) {
    exists g :: g in globs && PathMatches(g, path)
  }

  predicate AnyMatch(globs: seq<string>, paths: seq<string>) {
    exists p :: p in paths && AnyGlob(globs, p)
  }

  /** The outcome of a search: found or not with the work left, or the work ran out. */
  datatype Search = Found(workLeft: nat) | NotFound(workLeft: nat) | OutOfWork

  function SearchPath(globs: seq<string>, path: string, work: nat): Search {
    if globs == [] then NotFound(work)
    else if Cost(globs[0], path) > work then OutOfWork
    else if PathMatches(globs[0], path) then Found(work - Cost(globs[0], path))
    else SearchPath(globs[1..], path, work - Cost(globs[0], path))
  }

  function SearchPaths(globs: seq<string>, paths: seq<string>, work: nat): Search {
    if paths == [] then NotFound(work)
    else
      var s := SearchPath(globs, paths[0], work);
      if s.NotFound? then SearchPaths(globs, paths[1..], s.workLeft) else s
  }

  /** Work for one path against the patterns up to the first that matches it. */
  function PathWork(globs: seq<string>, path: string): nat {
    if globs == [] then 0
    else Cost(globs[0], path) + if PathMatches(globs[0], path) then 0 else PathWork(globs[1..], path)
  }

  /** Work for the pairs of a path and a pattern up to the first that match; all the work without a match. */
  function MatchWork(globs: seq<string>, paths: seq<string>): nat {
    if paths == [] then 0
    else PathWork(globs, paths[0]) + if AnyGlob(globs, paths[0]) then 0 else MatchWork(globs, paths[1..])
  }

  /** What a search that needs `needed` work answers. */
  function Answer(needed: nat, matches: bool, work: nat): Search {
    if needed > work then OutOfWork else if matches then Found(work - needed) else NotFound(work - needed)
  }

  lemma {:induction false} SearchPathMeans(globs: seq<string>, path: string, work: nat)
    ensures SearchPath(globs, path, work) == Answer(PathWork(globs, path), AnyGlob(globs, path), work)
    ensures PathWork(globs, path) <= PathCost(globs, path)
    ensures !AnyGlob(globs, path) ==> PathWork(globs, path) == PathCost(globs, path)
  {
    if globs != [] {
      assert globs == [globs[0]] + globs[1..];
      if PathMatches(globs[0], path) {
        assert AnyGlob(globs, path);
      } else {
        assert AnyGlob(globs, path) == AnyGlob(globs[1..], path);
        var left := if Cost(globs[0], path) <= work then work - Cost(globs[0], path) else 0;
        SearchPathMeans(globs[1..], path, left);
      }
    }
  }

  lemma {:induction false} AnyMatchFirst(globs: seq<string>, paths: seq<string>)
    requires paths != []
    ensures AnyMatch(globs, paths) <==> AnyGlob(globs, paths[0]) || AnyMatch(globs, paths[1..])
  {
    assert paths == [paths[0]] + paths[1..];
  }

  /** A search finds a match exactly when there is one and the work up to the first is in the budget, and
      misses exactly when there is none and all the work is; what it leaves is what it did not need. */
  lemma {:induction false} SearchMeans(globs: seq<string>, paths: seq<string>, work: nat)
    ensures SearchPaths(globs, paths, work) == Answer(MatchWork(globs, paths), AnyMatch(globs, paths), work)
    ensures MatchWork(globs, paths) <= AllCost(globs, paths)
    ensures !AnyMatch(globs, paths) ==> MatchWork(globs, paths) == AllCost(globs, paths)
    decreases |paths|
  {
    if paths != [] {
      AnyMatchFirst(globs, paths);
      SearchPathMeans(globs, paths[0], work);
      var needed := PathWork(globs, paths[0]);
      SearchMeans(globs, paths[1..], if needed <= work then work - needed else 0);
    }
  }

  /** More paths add their matches, and their work only when there was no match before. */
  lemma {:induction false} MorePathsMatch(globs: seq<string>, paths: seq<string>, more: seq<string>)
    ensures AnyMatch(globs, paths + more) <==> AnyMatch(globs, paths) || AnyMatch(globs, more)
    ensures AnyMatch(globs, paths) ==> MatchWork(globs, paths + more) == MatchWork(globs, paths)
    decreases |paths|
  {
    if paths == [] {
      assert paths + more == more;
    } else {
      var all := paths + more;
      assert all[0] == paths[0] && all[1..] == paths[1..] + more;
      AnyMatchFirst(globs, paths);
      AnyMatchFirst(globs, all);
      MorePathsMatch(globs, paths[1..], more);
    }
  }

  // ----- the filters

  predicate KnownPaths(facts: PathFacts) {
    facts.paths.Some? && forall i | 0 <= i < |facts.paths.value| :: facts.paths.value[i].Some? && RepositoryPath(facts.paths.value[i].value)
  }

  function PathsOf(facts: PathFacts): (paths: seq<string>)
    requires KnownPaths(facts)
    ensures |paths| == |facts.paths.value|
  {
    seq(|facts.paths.value|, i requires 0 <= i < |facts.paths.value| => facts.paths.value[i].value)
  }

  function VetoResult(ignores: Option<seq<string>>, paths: seq<string>, complete: bool): (FilterResult, nat) {
    if ignores.None? then (Passes, MAX_PATH_FILTER_WORK)
    else
      match SearchPaths(ignores.value, paths, MAX_PATH_FILTER_WORK)
      case OutOfWork => (Fails(PathsIgnore, LimitExceeded), 0)
      case Found(_) => (Fails(PathsIgnore, IgnoredPath), 0)
      case NotFound(left) => if complete then (Passes, left) else (Fails(PathsIgnore, Incomplete), 0)
  }

  function IncludeResult(includes: Option<seq<string>>, paths: seq<string>, complete: bool, work: nat): FilterResult {
    if includes.None? then Passes
    else
      match SearchPaths(includes.value, paths, work)
      case OutOfWork => Fails(Paths, LimitExceeded)
      case Found(_) => Passes
      case NotFound(_) => Fails(Paths, if !complete then Incomplete else if paths == [] then KnownEmpty else NoMatch)
  }

  function Evaluate(includes: Option<seq<string>>, ignores: Option<seq<string>>, facts: PathFacts): FilterResult {
    var field := if ignores.Some? then PathsIgnore else Paths;
    if includes.None? && ignores.None? then Passes
    else if facts.paths.None? then Fails(field, Unavailable)
    else if !KnownPaths(facts) then Fails(field, Invalid)
    else
      var veto := VetoResult(ignores, PathsOf(facts), facts.complete);
      if veto.0.Fails? then veto.0 else IncludeResult(includes, PathsOf(facts), facts.complete, veto.1)
  }

  /** What an accepted event has proved about its paths. */
  predicate Proved(includes: Option<seq<string>>, ignores: Option<seq<string>>, facts: PathFacts) {
    (includes.None? && ignores.None?)
    || (KnownPaths(facts)
        && (ignores.Some? ==> facts.complete && !AnyMatch(ignores.value, PathsOf(facts)))
        && (includes.Some? ==> AnyMatch(includes.value, PathsOf(facts))))
  }

  /** All the work that the filters could need. */
  function TotalCost(includes: Option<seq<string>>, ignores: Option<seq<string>>, paths: seq<string>): nat {
    (if ignores.Some? then AllCost(ignores.value, paths) else 0) + if includes.Some? then AllCost(includes.value, paths) else 0
  }

  /** The work that both searches need, each up to its first match. */
  function NeededWork(includes: Option<seq<string>>, ignores: Option<seq<string>>, paths: seq<string>): nat {
    (if ignores.Some? then MatchWork(ignores.value, paths) else 0) + if includes.Some? then MatchWork(includes.value, paths) else 0
  }

  /** The filters pass exactly what is proved within the shared budget; a limit is reported only when the
      searches need more, so never when all pairs of a pattern and a path fit. */
  lemma {:induction false} PassesExactlyProved(includes: Option<seq<string>>, ignores: Option<seq<string>>, facts: PathFacts)
    ensures Evaluate(includes, ignores, facts).Passes? <==>
      Proved(includes, ignores, facts)
      && (KnownPaths(facts) ==> NeededWork(includes, ignores, PathsOf(facts)) <= MAX_PATH_FILTER_WORK)
    ensures Evaluate(includes, ignores, facts).Fails? && Evaluate(includes, ignores, facts).reason == LimitExceeded ==>
      KnownPaths(facts) && NeededWork(includes, ignores, PathsOf(facts)) > MAX_PATH_FILTER_WORK
    ensures KnownPaths(facts) ==> NeededWork(includes, ignores, PathsOf(facts)) <= TotalCost(includes, ignores, PathsOf(facts))
  {
    if KnownPaths(facts) {
      var paths := PathsOf(facts);
      if ignores.Some? { SearchMeans(ignores.value, paths, MAX_PATH_FILTER_WORK); }
      if includes.Some? { SearchMeans(includes.value, paths, VetoResult(ignores, paths, facts.complete).1); }
    }
  }

  /** The facts with further paths. */
  function Extended(facts: PathFacts, more: seq<string>, complete: bool): PathFacts
    requires facts.paths.Some?
  {
    PathFacts(Some(facts.paths.value + seq(|more|, i requires 0 <= i < |more| => Some(more[i]))), complete)
  }

  lemma {:induction false} ExtendedPaths(facts: PathFacts, more: seq<string>, complete: bool)
    requires KnownPaths(facts) && forall p | p in more :: RepositoryPath(p)
    ensures KnownPaths(Extended(facts, more, complete))
    ensures PathsOf(Extended(facts, more, complete)) == PathsOf(facts) + more
  {
    var longer := Extended(facts, more, complete).paths.value;
    assert forall i | |facts.paths.value| <= i < |longer| :: longer[i] == Some(more[i - |facts.paths.value|]);
  }

  /** When valid paths are added to an accepted event, the acceptance stays exactly when a veto filter
      still has a complete set without an ignored path and the searches stay within the budget: all work
      of the veto search, and the work of the include search up to the match it had before. */
  lemma {:induction false} MorePathsKeepAcceptance(
      includes: Option<seq<string>>, ignores: Option<seq<string>>, facts: PathFacts, more: seq<string>, complete: bool)
    requires Evaluate(includes, ignores, facts).Passes? && (includes.Some? || ignores.Some?)
    requires forall p | p in more :: RepositoryPath(p)
    ensures KnownPaths(facts)
    ensures Evaluate(includes, ignores, Extended(facts, more, complete)).Passes? <==>
      (ignores.Some? ==>
         complete && !AnyMatch(ignores.value, more)
         && AllCost(ignores.value, PathsOf(facts) + more)
            + (if includes.Some? then MatchWork(includes.value, PathsOf(facts)) else 0) <= MAX_PATH_FILTER_WORK)
  {
    PassesExactlyProved(includes, ignores, facts);
    ExtendedPaths(facts, more, complete);
    PassesExactlyProved(includes, ignores, Extended(facts, more, complete));
    var paths := PathsOf(facts);
    if ignores.Some? {
      MorePathsMatch(ignores.value, paths, more);
      SearchMeans(ignores.value, paths + more, 0);
    }
    if includes.Some? { MorePathsMatch(includes.value, paths, more); }
  }

  /** An include-only acceptance is kept when more valid paths are recorded, whatever their number. */
  lemma {:induction false} MorePathsKeepInclusion(includes: seq<string>, facts: PathFacts, more: seq<string>, complete: bool)
    requires Evaluate(Some(includes), None, facts).Passes? && forall p | p in more :: RepositoryPath(p)
    ensures Evaluate(Some(includes), None, Extended(facts, more, complete)).Passes?
  {
    MorePathsKeepAcceptance(Some(includes), None, facts, more, complete);
  }

  /** A veto does not survive more paths: a path that an ignore pattern matches takes acceptance away. */
  lemma {:induction false} MorePathsCanVeto(ignores: seq<string>, facts: PathFacts, path: string)
    requires Evaluate(None, Some(ignores), facts).Passes? && RepositoryPath(path) && AnyGlob(ignores, path)
    ensures Evaluate(None, Some(ignores), Extended(facts, [path], facts.complete)).Fails?
  {
    assert path in [path] && AnyMatch(ignores, [path]);
    MorePathsKeepAcceptance(None, Some(ignores), facts, [path], facts.complete);
  }

  // ----- the loops

  method AnyPathMatches(globs: seq<string>, paths: seq<string>, work: nat) returns (r: Search)
    ensures r == SearchPaths(globs, paths, work)
  {
    var workLeft := work;
    var i := 0;
    assert paths[0..] == paths;
    while i < |paths|
      invariant i <= |paths| && SearchPaths(globs, paths, work) == SearchPaths(globs, paths[i..], workLeft)
    {
      var path := paths[i];
      assert paths[i..][0] == path && paths[i..][1..] == paths[i + 1..];
      ghost var before := workLeft;
      var j := 0;
      assert globs[0..] == globs;
      while j < |globs|
        invariant j <= |globs| && SearchPath(globs, path, before) == SearchPath(globs[j..], path, workLeft)
      {
        assert globs[j..][0] == globs[j] && globs[j..][1..] == globs[j + 1..];
        var cost := Cost(globs[j], path);
        if cost > workLeft {
          return OutOfWork;
        }
        workLeft := workLeft - cost;
        var matches := MatchPath(globs[j], path);
        if matches {
          return Found(workLeft);
        }
        j := j + 1;
      }
      i := i + 1;
    }
    r := NotFound(workLeft);
  }

  method EvaluatePathFilters(includes: Option<seq<string>>, ignores: Option<seq<string>>, facts: PathFacts) returns (r: FilterResult)
    ensures r == Evaluate(includes, ignores, facts)
  {
    if includes.None? && ignores.None? {
      return Passes;
    }
    var field := if ignores.Some? then PathsIgnore else Paths;
    if facts.paths.None? {
      return Fails(field, Unavailable);
    }
    if !KnownPaths(facts) {
      return Fails(field, Invalid);
    }
    var paths := PathsOf(facts);
    var workLeft := MAX_PATH_FILTER_WORK;
    if ignores.Some? {
      var s := AnyPathMatches(ignores.value, paths, workLeft);
      match s {
        case OutOfWork => return Fails(PathsIgnore, LimitExceeded);
        case Found(_) => return Fails(PathsIgnore, IgnoredPath);
        case NotFound(left) =>
          if !facts.complete {
            return Fails(PathsIgnore, Incomplete);
          }
          workLeft := left;
      }
    }
    if includes.Some? {
      var s := AnyPathMatches(includes.value, paths, workLeft);
      match s {
        case OutOfWork => return Fails(Paths, LimitExceeded);
        case Found(_) =>
        case NotFound(_) =>
          return Fails(Paths, if !facts.complete then Incomplete else if paths == [] then KnownEmpty else NoMatch);
      }
    }
    r := Passes;
  }
}
