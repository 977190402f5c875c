/** What the wildcards of a glob stand for, in the characters of its text, and what path filters answer. */
module GlobMeaning {
  import opened Text
  import opened Globs
  import opened PathFilters

  // ----- one segment

  /** A star stands for any run of characters, a question mark for one character, and any other character for
      itself. */
  lemma {:induction false} SegmentExactly(pattern: string, value: string)
    ensures SegmentMatches(pattern, value) <==>
      if pattern == "" then value == ""
      else if pattern[0] == '*' then exists k :: 0 <= k <= |value| && SegmentMatches(pattern[1..], value[k..])
      else value != "" && (pattern[0] == '?' || pattern[0] == value[0]) && SegmentMatches(pattern[1..], value[1..])
  {
    if pattern != "" && pattern[0] == '*' { RunIsAnyRun(pattern, value, AnyChars(), OneChar()); }
  }

  /** A pattern without wildcards matches itself only. */
  lemma {:induction false} PlainSegment(pattern: string, value: string)
    requires '*' !in pattern && '?' !in pattern
    ensures SegmentMatches(pattern, value) <==> value == pattern
    decreases |pattern|
  {
    SegmentExactly(pattern, value);
    if pattern != "" && value != "" {
      PlainSegment(pattern[1..], value[1..]);
      assert pattern == [pattern[0]] + pattern[1..] && value == [value[0]] + value[1..];
    }
  }

  // ----- paths

  /** The parts with one separator between every two. */
  function Joined(parts: seq<string>): string {
    if parts == [] then "" else if |parts| == 1 then parts[0] else parts[0] + "/" + Joined(parts[1..])
  }

  /** The segments are the parts of the text between its separators. */
  lemma {:induction false} SegmentsExactly(s: string)
    ensures Joined(Segments(s)) == s && forall part | part in Segments(s) :: '/' !in part
    decreases |s|
  {
    var n := SlashAt(s);
    if n == |s| {
      assert s[..n] == s;
    } else {
      SegmentsExactly(s[n + 1..]);
      JoinedFirst(s[..n], Segments(s[n + 1..]));
      SplitAt(s, n);
      assert Segments(s) == [s[..n]] + Segments(s[n + 1..]);
    }
  }

  lemma {:induction false} JoinedFirst(part: string, parts: seq<string>)
    requires parts != []
    ensures Joined([part] + parts) == part + "/" + Joined(parts)
  {
    assert ([part] + parts)[1..] == parts;
  }

  lemma {:induction false} SplitAt(s: string, n: nat)
    requires n < |s| && s[n] == '/'
    ensures s == s[..n] + "/" + s[n + 1..]
  {}

  /** A pair of stars as a whole segment stands for any run of segments, and any other segment of the glob for
      one segment. */
  ghost predicate PartsMatch(globs: seq<string>, parts: seq<string>)
    decreases |globs|
  {
    if globs == [] then parts == []
    else if globs[0] == "**" then exists k :: 0 <= k <= |parts| && PartsMatch(globs[1..], parts[k..])
    else parts != [] && SegmentMatches(globs[0], parts[0]) && PartsMatch(globs[1..], parts[1..])
  }

  lemma {:induction false} PartsExactly(globs: seq<string>, parts: seq<string>)
    ensures Match(globs, parts, AnySegments(), OneSegment()) <==> PartsMatch(globs, parts)
    decreases |globs|
  {
    if globs != [] {
      if globs[0] == "**" {
        RunIsAnyRun(globs, parts, AnySegments(), OneSegment());
        forall k | 0 <= k <= |parts|
          ensures Match(globs[1..], parts[k..], AnySegments(), OneSegment()) <==> PartsMatch(globs[1..], parts[k..])
        {
          PartsExactly(globs[1..], parts[k..]);
        }
      } else if parts != [] {
        PartsExactly(globs[1..], parts[1..]);
      }
    }
  }

  /** A path below the repository: no empty, current or parent segment, no backslash, no zero character, and no
      drive letter. */
  predicate Relative(path: string, parts: seq<string>) {
    (forall c | c in path :: c != '\\' && c != '\0')
    && !(|path| >= 2 && path[0] as int < 0x80 && path[1] == ':')
    && forall part | part in parts :: part !in ["", ".", ".."]
  }

  /** A glob matches exactly the relative paths whose segments its own segments stand for. */
  lemma {:induction false} PathsExactly(glob: string, path: string)
    ensures PathMatches(glob, path) <==> Relative(path, Segments(path)) && PartsMatch(Segments(glob), Segments(path))
  {
    PartsExactly(Segments(glob), Segments(path));
    if path == "" { assert Segments(path)[0] == "" && "" in Segments(path); }
  }

  // ----- work

  function Encoded(s: string): seq<int> {
    if s == "" then [] else Utf8(s[0]) + Encoded(s[1..])
  }

  lemma {:induction false} BytesExactly(s: string)
    ensures ByteLength(s) == |Encoded(s)|
  {
    if s != "" { BytesExactly(s[1..]); }
  }

  /** Bytes of all the texts. */
  function BytesOf(texts: seq<string>): nat {
    if texts == [] then 0 else |Encoded(texts[0])| + BytesOf(texts[1..])
  }

  lemma {:induction false} PathCostExactly(globs: seq<string>, path: string)
    ensures PathCost(globs, path) == BytesOf(globs) * |Encoded(path)|
  {
    BytesExactly(path);
    if globs != [] {
      BytesExactly(globs[0]);
      PathCostExactly(globs[1..], path);
      Distributes(|Encoded(globs[0])|, BytesOf(globs[1..]), |Encoded(path)|);
    }
  }

  lemma {:induction false} Distributes(x: nat, y: nat, n: nat)
    ensures (x + y) * n == x * n + y * n && n * (x + y) == n * x + n * y && x * n == n * x
  {}

  /** A search without a match costs the bytes of the patterns times the bytes of the paths. */
  lemma {:induction false} AllCostExactly(globs: seq<string>, paths: seq<string>)
    ensures AllCost(globs, paths) == BytesOf(globs) * BytesOf(paths)
    ensures !AnyMatch(globs, paths) ==> MatchWork(globs, paths) == BytesOf(globs) * BytesOf(paths)
    decreases |paths|
  {
    SearchMeans(globs, paths, 0);
    if paths != [] {
      PathCostExactly(globs, paths[0]);
      AllCostExactly(globs, paths[1..]);
      Distributes(|Encoded(paths[0])|, BytesOf(paths[1..]), BytesOf(globs));
    }
  }

  // ----- answers

  /** The first reason that keeps an event out, in this order. */
  lemma {:induction false} AnswersExactly(includes: Option<seq<string>>, ignores: Option<seq<string>>, facts: PathFacts)
    ensures var r := Evaluate(includes, ignores, facts);
      if includes == None && ignores == None then r == Passes
      else if facts.paths == None then r == Fails(if ignores == None then Paths else PathsIgnore, Unavailable)
      else if !KnownPaths(facts) then r == Fails(if ignores == None then Paths else PathsIgnore, Invalid)
      else
        var paths := PathsOf(facts);
        var spent := if ignores == None then 0 else MatchWork(ignores.value, paths);
        if ignores != None && spent > 1_000_000 then r == Fails(PathsIgnore, LimitExceeded)
        else if ignores != None && AnyMatch(ignores.value, paths) then r == Fails(PathsIgnore, IgnoredPath)
        else if ignores != None && !facts.complete then r == Fails(PathsIgnore, Incomplete)
        else if includes == None then r == Passes
        else if spent + MatchWork(includes.value, paths) > 1_000_000 then r == Fails(Paths, LimitExceeded)
        else if AnyMatch(includes.value, paths) then r == Passes
        else if !facts.complete then r == Fails(Paths, Incomplete)
        else r == Fails(Paths, if paths == [] then KnownEmpty else NoMatch)
  {
    if KnownPaths(facts) {
      var paths := PathsOf(facts);
      if ignores.Some? { SearchMeans(ignores.value, paths, MAX_PATH_FILTER_WORK); }
      if includes.Some? { SearchMeans(includes.value, paths, VetoResult(ignores, paths, facts.complete).1); }
    }
  }
}
