/**
 Wildcard matching. The relation is defined by what each wildcard stands for; the in-place
 reachability row decides it, on characters inside a segment and on segments inside a path.
 */
module Globs {
  // ----- the relation

  /** A pattern of run wildcards and single items: `any` tells the run wildcards, and `one` whether a
      single item of the pattern accepts a value. */
  predicate Match<P, V>(pattern: seq<P>, value: seq<V>, any: P -> bool, one: (P, V) -> bool)
    decreases |pattern|, |value|
  {
    if pattern == [] then value == []
    else if any(pattern[0]) then
      Match(pattern[1..], value, any, one) || (value != [] && Match(pattern, value[1..], any, one))
    else value != [] && one(pattern[0], value[0]) && Match(pattern[1..], value[1..], any, one)
  }

  /** A run wildcard stands for any run, including the empty one. */
  lemma {:induction false} RunIsAnyRun<P, V>(pattern: seq<P>, value: seq<V>, any: P -> bool, one: (P, V) -> bool)
    requires pattern != [] && any(pattern[0])
    ensures Match(pattern, value, any, one) <==> exists k :: 0 <= k <= |value| && Match(pattern[1..], value[k..], any, one)
    decreases |value|
  {
    assert value[0..] == value;
    if value != [] {
      RunIsAnyRun(pattern, value[1..], any, one);
      assert forall k | 0 <= k < |value| :: value[1..][k..] == value[k + 1..];
      if k :| 0 <= k <= |value| && Match(pattern[1..], value[k..], any, one) {
        if k > 0 { assert value[1..][k - 1..] == value[k..]; }
      }
    }
  }

  /** Whether some split of the value matches the two parts of a pattern. */
  ghost predicate Splits<P, V>(front: seq<P>, back: seq<P>, value: seq<V>, any: P -> bool, one: (P, V) -> bool) {
    exists k :: 0 <= k <= |value| && Match(front, value[..k], any, one) && Match(back, value[k..], any, one)
  }

  lemma {:induction false} SplitShifts<P, V>(front: seq<P>, more: seq<P>, back: seq<P>, value: seq<V>, any: P -> bool, one: (P, V) -> bool)
    requires value != [] && Splits(front, back, value[1..], any, one)
    requires forall w: seq<V> | Match(front, w, any, one) :: Match(more, [value[0]] + w, any, one)
    ensures Splits(more, back, value, any, one)
  {
    var k :| 0 <= k <= |value[1..]| && Match(front, value[1..][..k], any, one) && Match(back, value[1..][k..], any, one);
    assert value[..k + 1] == [value[0]] + value[1..][..k] && value[k + 1..] == value[1..][k..];
  }

  lemma {:induction false} JoinedMatchSplits<P, V>(front: seq<P>, back: seq<P>, value: seq<V>, any: P -> bool, one: (P, V) -> bool)
    requires Match(front + back, value, any, one)
    ensures Splits(front, back, value, any, one)
    decreases |front|, |value|
  {
    var pattern := front + back;
    if front == [] {
      assert pattern == back && value[..0] == [] && value[0..] == value;
    } else {
      assert pattern[0] == front[0] && pattern[1..] == front[1..] + back;
      if any(front[0]) {
        if Match(pattern[1..], value, any, one) {
          JoinedMatchSplits(front[1..], back, value, any, one);
          var k :| 0 <= k <= |value| && Match(front[1..], value[..k], any, one) && Match(back, value[k..], any, one);
          assert Match(front, value[..k], any, one);
        } else {
          JoinedMatchSplits(front, back, value[1..], any, one);
          forall w: seq<V> | Match(front, w, any, one) ensures Match(front, [value[0]] + w, any, one) {
            assert ([value[0]] + w)[1..] == w;
          }
          SplitShifts(front, front, back, value, any, one);
        }
      } else {
        JoinedMatchSplits(front[1..], back, value[1..], any, one);
        forall w: seq<V> | Match(front[1..], w, any, one) ensures Match(front, [value[0]] + w, any, one) {
          assert ([value[0]] + w)[1..] == w && ([value[0]] + w)[0] == value[0];
        }
        SplitShifts(front[1..], front, back, value, any, one);
      }
    }
  }

  lemma {:induction false} SplitMatchJoins<P, V>(front: seq<P>, back: seq<P>, value: seq<V>, k: nat, any: P -> bool, one: (P, V) -> bool)
    requires k <= |value| && Match(front, value[..k], any, one) && Match(back, value[k..], any, one)
    ensures Match(front + back, value, any, one)
    decreases |front|, |value|
  {
    var pattern := front + back;
    if front == [] {
      assert pattern == back && value[k..] == value;
    } else {
      assert pattern[0] == front[0] && pattern[1..] == front[1..] + back;
      if any(front[0]) && Match(front[1..], value[..k], any, one) {
        SplitMatchJoins(front[1..], back, value, k, any, one);
      } else {
        assert k > 0 && value[..k][1..] == value[1..][..k - 1] && value[k..] == value[1..][k - 1..];
        SplitMatchJoins(if any(front[0]) then front else front[1..], back, value[1..], k - 1, any, one);
      }
    }
  }

  /** A pattern with one more item at its end, by what that item takes from the end of the value. */
  lemma {:induction false} LastItem<P, V>(pattern: seq<P>, p: P, value: seq<V>, any: P -> bool, one: (P, V) -> bool)
    ensures any(p) ==>
      (Match(pattern + [p], value, any, one)
       <==> Match(pattern, value, any, one) || (value != [] && Match(pattern + [p], value[..|value| - 1], any, one)))
    ensures !any(p) ==>
      (Match(pattern + [p], value, any, one)
       <==> value != [] && one(p, value[|value| - 1]) && Match(pattern, value[..|value| - 1], any, one))
  {
    if any(p) {
      RunAtEnd(pattern, p, value, any, one);
      if value != [] { RunAtEnd(pattern, p, value[..|value| - 1], any, one); }
      LastRun(pattern, value, any, one);
    } else {
      LastSingle(pattern, p, value, any, one);
    }
  }

  lemma {:induction false} RunMatchesAll<P, V>(p: P, value: seq<V>, any: P -> bool, one: (P, V) -> bool)
    requires any(p)
    ensures Match([p], value, any, one)
    decreases |value|
  {
    assert [p][1..] == [];
    if value != [] { RunMatchesAll(p, value[1..], any, one); }
  }

  /** The pattern matches some prefix of the value. */
  ghost predicate SomePrefix<P, V>(pattern: seq<P>, value: seq<V>, any: P -> bool, one: (P, V) -> bool) {
    exists k :: 0 <= k <= |value| && Match(pattern, value[..k], any, one)
  }

  /** A run wildcard at the end leaves some prefix to the rest of the pattern. */
  lemma {:induction false} RunAtEnd<P, V>(pattern: seq<P>, p: P, value: seq<V>, any: P -> bool, one: (P, V) -> bool)
    requires any(p)
    ensures Match(pattern + [p], value, any, one) <==> SomePrefix(pattern, value, any, one)
  {
    if Match(pattern + [p], value, any, one) {
      JoinedMatchSplits(pattern, [p], value, any, one);
    }
    if SomePrefix(pattern, value, any, one) {
      var k :| 0 <= k <= |value| && Match(pattern, value[..k], any, one);
      RunMatchesAll(p, value[k..], any, one);
      SplitMatchJoins(pattern, [p], value, k, any, one);
    }
  }

  lemma {:induction false} LastRun<P, V>(pattern: seq<P>, value: seq<V>, any: P -> bool, one: (P, V) -> bool)
    ensures SomePrefix(pattern, value, any, one)
       <==> Match(pattern, value, any, one) || (value != [] && SomePrefix(pattern, value[..|value| - 1], any, one))
  {
    assert value[..|value|] == value;
    if value != [] {
      var front := value[..|value| - 1];
      assert forall k | 0 <= k <= |front| :: front[..k] == value[..k];
      if SomePrefix(pattern, front, any, one) {
        var k :| 0 <= k <= |front| && Match(pattern, front[..k], any, one);
        assert front[..k] == value[..k];
      }
      if SomePrefix(pattern, value, any, one) {
        var k :| 0 <= k <= |value| && Match(pattern, value[..k], any, one);
        if k < |value| { assert front[..k] == value[..k]; }
      }
    }
  }

  lemma {:induction false} LastSingle<P, V>(pattern: seq<P>, p: P, value: seq<V>, any: P -> bool, one: (P, V) -> bool)
    requires !any(p)
    ensures Match(pattern + [p], value, any, one)
       <==> value != [] && one(p, value[|value| - 1]) && Match(pattern, value[..|value| - 1], any, one)
  {
    assert [p][1..] == [];
    if Match(pattern + [p], value, any, one) {
      JoinedMatchSplits(pattern, [p], value, any, one);
      var k :| 0 <= k <= |value| && Match(pattern, value[..k], any, one) && Match([p], value[k..], any, one);
      var w := value[k..];
      assert Match([p][1..], w[1..], any, one);
      assert w[1..] == [] && |w| == 1;
      assert value[k..][0] == value[|value| - 1] && k == |value| - 1;
    }
    if value != [] && one(p, value[|value| - 1]) && Match(pattern, value[..|value| - 1], any, one) {
      var last := value[|value| - 1..];
      assert last[0] == value[|value| - 1] && last[1..] == [];
      assert Match([p], last, any, one);
      SplitMatchJoins(pattern, [p], value, |value| - 1, any, one);
    }
  }

  // ----- the reachability row

  /** The row says, for every prefix of the value, whether the pattern matches it. */
  predicate Row<P, V>(row: seq<bool>, pattern: seq<P>, value: seq<V>, any: P -> bool, one: (P, V) -> bool) {
    |row| == |value| + 1 && forall j | 0 <= j < |row| :: row[j] == Match(pattern, value[..j], any, one)
  }

  lemma {:induction false} FirstRow<P, V>(row: seq<bool>, value: seq<V>, any: P -> bool, one: (P, V) -> bool)
    requires |row| == |value| + 1 && row[0] && forall j | 1 <= j < |row| :: !row[j]
    ensures Row(row, [], value, any, one)
  {}

  /** The row after a run wildcard: everything after the first reachable place. */
  lemma {:induction false} RunRow<P, V>(before: seq<bool>, after: seq<bool>, pattern: seq<P>, p: P, value: seq<V>, any: P -> bool, one: (P, V) -> bool)
    requires Row(before, pattern, value, any, one) && any(p) && |after| == |before|
    requires Extended(before, after)
    ensures Row(after, pattern + [p], value, any, one)
  {
    var j := 0;
    while j < |after|
      invariant j <= |after| && forall i | 0 <= i < j :: after[i] == Match(pattern + [p], value[..i], any, one)
    {
      LastItem(pattern, p, value[..j], any, one);
      assert before[j] == Match(pattern, value[..j], any, one);
      if j > 0 { assert value[..j][..j - 1] == value[..j - 1]; }
      j := j + 1;
    }
  }

  /** The row after a single item: one place further, where the item accepts the value. */
  lemma {:induction false} SingleRow<P, V>(before: seq<bool>, after: seq<bool>, pattern: seq<P>, p: P, value: seq<V>, any: P -> bool, one: (P, V) -> bool)
    requires Row(before, pattern, value, any, one) && !any(p) && |after| == |before|
    requires !after[0] && forall j | 1 <= j < |after| :: after[j] == (before[j - 1] && one(p, value[j - 1]))
    ensures Row(after, pattern + [p], value, any, one)
  {
    forall j | 0 <= j < |after| ensures after[j] == Match(pattern + [p], value[..j], any, one) {
      LastItem(pattern, p, value[..j], any, one);
      if j > 0 { assert value[..j][..j - 1] == value[..j - 1]; }
    }
  }

  // ----- segments

  function AnyChars(): char -> bool {
    c => c == '*'
  }

  function OneChar(): (char, char) -> bool {
    (p, v) => p == '?' || p == v
  }

  /** `*` is any run of characters, `?` one, and any other character itself. */
  predicate SegmentMatches(pattern: string, value: string) {
    Match(pattern, value, AnyChars(), OneChar())
  }

  /** The row with every place after a reachable one added. */
  predicate Extended(before: seq<bool>, after: seq<bool>) {
    |after| == |before| > 0 && after[0] == before[0]
    && forall j {:trigger before[j]} | 1 <= j < |after| :: after[j] == (before[j] || after[j - 1])
  }

  lemma {:induction false} ExtendedStep(before: seq<bool>, after: seq<bool>, b: bool, a: bool)
    requires Extended(before, after) && a == (b || after[|after| - 1])
    ensures Extended(before + [b], after + [a])
  {
    var x, y := before + [b], after + [a];
    forall j {:trigger x[j]} | 1 <= j < |y| ensures y[j] == (x[j] || y[j - 1]) {
      assert j < |after| ==> x[j] == before[j] && y[j] == after[j];
      assert y[j - 1] == after[j - 1];
    }
  }

  /** Adds every place after a reachable one. */
  method ExtendRuns(reachable: array<bool>)
    requires reachable.Length > 0
    modifies reachable
    ensures Extended(old(reachable[..]), reachable[..])
  {
    ghost var before := reachable[..];
    var index: nat := 1;
    while index < reachable.Length
      invariant 1 <= index <= reachable.Length
      invariant Extended(before[..index], reachable[..index])
      invariant forall j | index <= j < reachable.Length :: reachable[j] == before[j]
    {
      ghost var done := reachable[..index];
      assert done[index - 1] == reachable[index - 1];
      var reached := reachable[index] || reachable[index - 1];
      ExtendedStep(before[..index], done, before[index], reached);
      reachable[index] := reached;
      assert reachable[..index + 1] == done + [reached];
      assert before[..index + 1] == before[..index] + [before[index]];
      index := index + 1;
    }
    assert before[..index] == before && reachable[..index] == reachable[..];
  }

  /** Moves every reachable place over one character that the token accepts. */
  method AdvanceChars(reachable: array<bool>, token: char, value: string)
    requires reachable.Length == |value| + 1
    modifies reachable
    ensures !reachable[0]
    ensures forall j: nat | 1 <= j < reachable.Length ::
      reachable[j] == (old(reachable[..])[j - 1] && (token == '?' || token == value[j - 1]))
  {
    ghost var before := reachable[..];
    var index: nat := |value|;
    while index > 0
      invariant index <= |value|
      invariant forall j: nat | j <= index :: reachable[j] == before[j]
      invariant forall j: nat | index < j <= |value| :: reachable[j] == (before[j - 1] && (token == '?' || token == value[j - 1]))
    {
      reachable[index] := reachable[index - 1] && (token == '?' || token == value[index - 1]);
      index := index - 1;
    }
    reachable[0] := false;
  }

  /** One row in place: from the back for a single character, from the front for a run. */
  method MatchSegment(pattern: string, value: string) returns (r: bool)
    ensures r == SegmentMatches(pattern, value)
  {
    var reachable := new bool[|value| + 1](i => i == 0);
    FirstRow(reachable[..], value, AnyChars(), OneChar());
    var k := 0;
    while k < |pattern|
      invariant k <= |pattern| && Row(reachable[..], pattern[..k], value, AnyChars(), OneChar())
    {
      TakeToken(reachable, pattern[..k], pattern[k], value);
      assert pattern[..k + 1] == pattern[..k] + [pattern[k]];
      k := k + 1;
    }
    assert pattern[..k] == pattern && value[..|value|] == value;
    r := reachable[|value|];
  }

  /** Updates the row for one more token of the pattern. */
  method TakeToken(reachable: array<bool>, ghost done: string, token: char, value: string)
    requires Row(reachable[..], done, value, AnyChars(), OneChar())
    modifies reachable
    ensures Row(reachable[..], done + [token], value, AnyChars(), OneChar())
  {
    ghost var before := reachable[..];
    if token == '*' {
      ExtendRuns(reachable);
      RunRow(before, reachable[..], done, token, value, AnyChars(), OneChar());
    } else {
      AdvanceChars(reachable, token, value);
      SingleRow(before, reachable[..], done, token, value, AnyChars(), OneChar());
    }
  }

  // ----- paths

  function SlashAt(s: string): (n: nat)
    ensures n <= |s| && (n < |s| ==> s[n] == '/') && forall j | 0 <= j < n :: s[j] != '/'
  {
    if s == [] || s[0] == '/' then 0 else 1 + SlashAt(s[1..])
  }

  /** The parts between separators; a text without separators is one part. */
  function Segments(s: string): (parts: seq<string>)
    ensures parts != []
  {
    var n := SlashAt(s);
    [s[..n]] + if n == |s| then [] else Segments(s[n + 1..])
  }

  /** A normalized path relative to the repository. */
  predicate RepositoryPath(value: string) {
    value != "" && '\\' !in value && '\0' !in value
    && !(|value| > 1 && value[0] as int < 128 && value[1] == ':')
    && forall part | part in Segments(value) :: part != "" && part != "." && part != ".."
  }

  function AnySegments(): string -> bool {
    s => s == "**"
  }

  function OneSegment(): (string, string) -> bool {
    (p, v) => SegmentMatches(p, v)
  }

  /** `**` is any run of segments, and any other segment pattern one segment. */
  predicate PathMatches(glob: string, path: string) {
    RepositoryPath(path) && Match(Segments(glob), Segments(path), AnySegments(), OneSegment())
  }

  method MatchPath(glob: string, path: string) returns (r: bool)
    ensures r == PathMatches(glob, path)
  {
    if !RepositoryPath(path) {
      return false;
    }
    r := MatchParts(Segments(glob), Segments(path));
  }

  method MatchParts(patterns: seq<string>, segments: seq<string>) returns (r: bool)
    ensures r == Match(patterns, segments, AnySegments(), OneSegment())
  {
    var reachable := new bool[|segments| + 1](i => i == 0);
    FirstRow(reachable[..], segments, AnySegments(), OneSegment());
    var k := 0;
    while k < |patterns|
      invariant k <= |patterns| && Row(reachable[..], patterns[..k], segments, AnySegments(), OneSegment())
    {
      TakePattern(reachable, patterns[..k], patterns[k], segments);
      assert patterns[..k + 1] == patterns[..k] + [patterns[k]];
      k := k + 1;
    }
    assert patterns[..k] == patterns && segments[..|segments|] == segments;
    r := reachable[|segments|];
  }

  /** Updates the row for one more segment of the glob. */
  method TakePattern(reachable: array<bool>, ghost done: seq<string>, pattern: string, segments: seq<string>)
    requires Row(reachable[..], done, segments, AnySegments(), OneSegment())
    modifies reachable
    ensures Row(reachable[..], done + [pattern], segments, AnySegments(), OneSegment())
  {
    ghost var before := reachable[..];
    if pattern == "**" {
      ExtendRuns(reachable);
      RunRow(before, reachable[..], done, pattern, segments, AnySegments(), OneSegment());
    } else {
      AdvanceSegments(reachable, pattern, segments);
      SingleRow(before, reachable[..], done, pattern, segments, AnySegments(), OneSegment());
    }
  }

  /** Moves every reachable place over one segment that the pattern matches. */
  method AdvanceSegments(reachable: array<bool>, pattern: string, segments: seq<string>)
    requires reachable.Length == |segments| + 1
    modifies reachable
    ensures !reachable[0]
    ensures forall j: nat | 1 <= j < reachable.Length ::
      reachable[j] == (old(reachable[..])[j - 1] && SegmentMatches(pattern, segments[j - 1]))
  {
    ghost var before := reachable[..];
    var index: nat := |segments|;
    while index > 0
      invariant index <= |segments|
      invariant forall j: nat | j <= index :: reachable[j] == before[j]
      invariant forall j: nat | index < j <= |segments| :: reachable[j] == (before[j - 1] && SegmentMatches(pattern, segments[j - 1]))
    {
      var reached := reachable[index - 1];
      if reached {
        reached := MatchSegment(pattern, segments[index - 1]);
      }
      reachable[index] := reached;
      index := index - 1;
    }
    reachable[0] := false;
  }
}
