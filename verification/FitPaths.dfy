/** Authored input paths: dot fields and `[*]` traversals, their text, and overlap. */
module FitPaths {
  import opened Text

  const MAX_FIT_PATH_BYTES: nat := 2048

  datatype Segment = Field(name: string) | Each

  predicate Lower(c: char) { 'a' <= c <= 'z' }

  predicate Upper(c: char) { 'A' <= c <= 'Z' }

  /** An input name: the first field of a path. */
  predicate InputName(name: string) {
    Word(name) && Lower(name[0]) && forall i | 0 <= i < |name| :: !Upper(name[i])
  }

  predicate WordFields(segments: seq<Segment>) {
    forall i | 0 <= i < |segments| :: segments[i].Field? ==> Word(segments[i].name)
  }

  predicate WellFormed(segments: seq<Segment>) {
    segments != [] && segments[0].Field? && InputName(segments[0].name) && WordFields(segments)
  }

  /** The text of the segments after the first. */
  function TailText(segments: seq<Segment>): string {
    if segments == [] then ""
    else (match segments[0] case Field(name) => "." + name case Each => "[*]") + TailText(segments[1..])
  }

  function PathText(segments: seq<Segment>): string
    requires segments != [] && segments[0].Field?
  {
    segments[0].name + TailText(segments[1..])
  }

  // ----- the grammar

  /** How many word characters start the text. */
  function WordLength(s: string): (n: nat)
    ensures n <= |s| && (n < |s| ==> !WordChar(s[n])) && forall i | 0 <= i < n :: WordChar(s[i])
  {
    if s == [] || !WordChar(s[0]) then 0 else 1 + WordLength(s[1..])
  }

  /** The length of the field name that starts the text; zero if there is none. */
  function FieldLength(s: string): (n: nat)
    ensures n <= |s| && (n > 0 ==> Word(s[..n]))
  {
    if s == [] || !WordStart(s[0]) then 0 else WordLength(s)
  }

  function Join(done: seq<Segment>, rest: Option<seq<Segment>>): Option<seq<Segment>> {
    if rest.None? then None else Some(done + rest.value)
  }

  function ParseTail(s: string): Option<seq<Segment>>
    decreases |s|
  {
    if s == [] then Some([])
    else if "[*]" <= s then Join([Each], ParseTail(s[3..]))
    else if s[0] != '.' || FieldLength(s[1..]) == 0 then None
    else
      var n := FieldLength(s[1..]);
      Join([Field(s[1..n + 1])], ParseTail(s[n + 1..]))
  }

  function ParsePath(s: string): Option<seq<Segment>> {
    var n := FieldLength(s);
    if |s| > MAX_FIT_PATH_BYTES || n == 0 || !InputName(s[..n]) then None
    else Join([Field(s[..n])], ParseTail(s[n..]))
  }

  lemma {:induction false} TailIsWords(s: string)
    ensures ParseTail(s).Some? ==> TailText(ParseTail(s).value) == s && WordFields(ParseTail(s).value)
    decreases |s|
  {
    if s != [] && ParseTail(s).Some? {
      if "[*]" <= s {
        TailIsWords(s[3..]);
        assert s == "[*]" + s[3..];
        assert ParseTail(s).value[1..] == ParseTail(s[3..]).value;
      } else {
        var n := FieldLength(s[1..]);
        TailIsWords(s[n + 1..]);
        FieldJoins(s, n);
        assert ParseTail(s).value[1..] == ParseTail(s[n + 1..]).value;
      }
    }
  }

  lemma {:induction false} FieldJoins(s: string, n: nat)
    requires n + 1 <= |s| && s[0] == '.'
    ensures s[1..n + 1] == s[1..][..n] && s == ("." + s[1..][..n]) + s[n + 1..]
  {}

  /** A word ends where a tail begins. */
  lemma {:induction false} WordStops(name: string, rest: string)
    requires (forall i | 0 <= i < |name| :: WordChar(name[i])) && (rest == [] || !WordChar(rest[0]))
    ensures WordLength(name + rest) == |name|
  {
    if name == [] {
      assert name + rest == rest;
    } else {
      assert (name + rest)[1..] == name[1..] + rest;
      WordStops(name[1..], rest);
    }
  }

  lemma {:induction false} FieldStarts(name: string, rest: string)
    requires Word(name) && (rest == [] || !WordChar(rest[0]))
    ensures var s := "." + name + rest;
      FieldLength(s[1..]) == |name| && s[1..|name| + 1] == name && s[|name| + 1..] == rest
  {
    var s := "." + name + rest;
    WordStops(name, rest);
    assert s[1..] == name + rest;
  }

  lemma {:induction false} TailStarts(segments: seq<Segment>)
    ensures TailText(segments) == [] || !WordChar(TailText(segments)[0])
  {}

  lemma {:induction false} TailParses(segments: seq<Segment>)
    requires WordFields(segments)
    ensures ParseTail(TailText(segments)) == Some(segments)
  {
    if segments != [] {
      var rest := TailText(segments[1..]);
      TailParses(segments[1..]);
      assert segments == [segments[0]] + segments[1..];
      if segments[0].Each? {
        assert ("[*]" + rest)[3..] == rest;
      } else {
        TailStarts(segments[1..]);
        FieldStarts(segments[0].name, rest);
        assert ("." + segments[0].name + rest)[0] == '.';
        assert !("[*]" <= "." + segments[0].name + rest);
      }
    }
  }

  /** The parser accepts exactly the texts of well-formed paths within the length limit, and returns
      the path that the text spells. */
  lemma {:induction false} ParsesExactlyPaths(s: string, segments: seq<Segment>)
    ensures ParsePath(s) == Some(segments)
       <==> WellFormed(segments) && s == PathText(segments) && |s| <= MAX_FIT_PATH_BYTES
  {
    if ParsePath(s) == Some(segments) {
      var n := FieldLength(s);
      TailIsWords(s[n..]);
      assert segments[1..] == ParseTail(s[n..]).value;
      assert s == s[..n] + s[n..];
    }
    if WellFormed(segments) && s == PathText(segments) && |s| <= MAX_FIT_PATH_BYTES {
      var name := segments[0].name;
      TailParses(segments[1..]);
      WordStops(name, TailText(segments[1..]));
      assert s[..|name|] == name && s[|name|..] == TailText(segments[1..]);
      assert segments == [Field(name)] + segments[1..];
    }
  }

  /** What the loop knows at the start of a field. */
  ghost predicate AtField(path: string, segments: seq<Segment>, cursor: nat) {
    cursor <= |path|
    && if segments == [] then cursor == 0
       else 0 < cursor && path[cursor - 1] == '.' && ParsePath(path) == Join(segments, ParseTail(path[cursor - 1..]))
  }

  /** What the loop knows after the fields up to a position. */
  ghost predicate AfterField(path: string, segments: seq<Segment>, cursor: nat) {
    cursor <= |path| && segments != [] && ParsePath(path) == Join(segments, ParseTail(path[cursor..]))
  }

  /** Scans one field name. */
  method ReadField(path: string, start: nat) returns (cursor: nat)
    requires start <= |path|
    ensures cursor == start + FieldLength(path[start..])
  {
    cursor := start;
    if cursor == |path| || !WordStart(path[cursor]) {
      return;
    }
    cursor := cursor + 1;
    assert path[start..] == [path[start]] + path[cursor..];
    while cursor < |path| && WordChar(path[cursor])
      invariant start < cursor <= |path|
      invariant cursor + WordLength(path[cursor..]) == start + WordLength(path[start..])
    {
      assert path[cursor..][1..] == path[cursor + 1..];
      cursor := cursor + 1;
    }
  }

  /** Takes the traversals that follow a field. */
  method ReadTraversals(path: string, done: seq<Segment>, start: nat) returns (segments: seq<Segment>, cursor: nat)
    requires start <= |path|
    ensures start <= cursor <= |path| && done <= segments && !("[*]" <= path[cursor..])
    ensures Join(segments, ParseTail(path[cursor..])) == Join(done, ParseTail(path[start..]))
  {
    segments, cursor := done, start;
    ghost var expected := Join(done, ParseTail(path[start..]));
    while "[*]" <= path[cursor..]
      invariant start <= cursor <= |path| && done <= segments
      invariant Join(segments, ParseTail(path[cursor..])) == expected
      decreases |path| - cursor
    {
      EachTaken(path, segments, cursor);
      segments := segments + [Each];
      cursor := cursor + 3;
    }
  }

  /** Takes one field and the traversals after it. */
  method ReadSegments(path: string, done: seq<Segment>, start: nat) returns (ok: bool, segments: seq<Segment>, cursor: nat)
    requires |path| <= MAX_FIT_PATH_BYTES && AtField(path, done, start)
    ensures !ok ==> ParsePath(path) == None
    ensures ok ==> start < cursor <= |path| && segments != [] && !("[*]" <= path[cursor..])
    ensures ok ==> AfterField(path, segments, cursor)
  {
    ok, segments, cursor := true, done, start;
    cursor := ReadField(path, start);
    if cursor == start || (done == [] && !InputName(path[start..cursor])) {
      NoField(path, done, start);
      ok := false;
      return;
    }
    FieldTaken(path, done, start, cursor);
    segments, cursor := ReadTraversals(path, done + [Field(path[start..cursor])], cursor);
  }

  /** The cursor loop over the path. */
  method ParseFitPath(path: string) returns (r: Option<seq<Segment>>)
    ensures r == ParsePath(path)
  {
    if |path| > MAX_FIT_PATH_BYTES {
      return None;
    }
    r := ReadFields(path);
  }

  method ReadFields(path: string) returns (r: Option<seq<Segment>>)
    requires |path| <= MAX_FIT_PATH_BYTES
    ensures r == ParsePath(path)
  {
    var cursor: nat := 0;
    var segments: seq<Segment> := [];
    while true
      invariant AtField(path, segments, cursor)
      decreases |path| - cursor
    {
      var turn: Turn;
      turn, segments, cursor := ReadTurn(path, segments, cursor);
      if turn.Malformed? {
        return None;
      }
      if turn.Ended? {
        return Some(segments);
      }
    }
  }

  /** Whether another field follows, the path ends, or it is no path. */
  datatype Turn = Following | Ended | Malformed

  /** One turn of the loop: a field with its traversals, and the separator after it. */
  method ReadTurn(path: string, done: seq<Segment>, start: nat) returns (turn: Turn, segments: seq<Segment>, cursor: nat)
    requires |path| <= MAX_FIT_PATH_BYTES && AtField(path, done, start)
    ensures turn.Malformed? ==> ParsePath(path) == None
    ensures turn.Ended? ==> ParsePath(path) == Some(segments)
    ensures turn.Following? ==> start < cursor && AtField(path, segments, cursor)
  {
    var ok: bool;
    ok, segments, cursor := ReadSegments(path, done, start);
    if !ok {
      return Malformed, segments, cursor;
    }
    turn, cursor := ReadSeparator(path, segments, cursor);
  }

  /** After a field comes a separator, or the path ends. */
  method ReadSeparator(path: string, segments: seq<Segment>, start: nat) returns (turn: Turn, cursor: nat)
    requires AfterField(path, segments, start) && !("[*]" <= path[start..])
    ensures turn.Malformed? ==> ParsePath(path) == None
    ensures turn.Ended? ==> ParsePath(path) == Some(segments)
    ensures turn.Following? ==> cursor == start + 1 && AtField(path, segments, cursor)
  {
    if start < |path| && path[start] == '.' {
      NextField(path, segments, start);
      return Following, start + 1;
    }
    PathEnds(path, segments, start);
    turn, cursor := if start == |path| then Ended else Malformed, start;
  }

  lemma {:induction false} NextField(path: string, segments: seq<Segment>, cursor: nat)
    requires AfterField(path, segments, cursor) && cursor < |path| && path[cursor] == '.'
    ensures AtField(path, segments, cursor + 1)
  {}

  lemma {:induction false} PathEnds(path: string, segments: seq<Segment>, cursor: nat)
    requires cursor <= |path| && !("[*]" <= path[cursor..])
    requires cursor < |path| ==> path[cursor] != '.'
    ensures Join(segments, ParseTail(path[cursor..])) == if cursor == |path| then Some(segments) else None
  {
    if cursor == |path| {
      assert path[cursor..] == [] && segments + [] == segments;
    }
  }

  lemma {:induction false} NoField(path: string, segments: seq<Segment>, start: nat)
    requires |path| <= MAX_FIT_PATH_BYTES && AtField(path, segments, start)
    requires var n := FieldLength(path[start..]); n == 0 || (segments == [] && !InputName(path[start..start + n]))
    ensures ParsePath(path) == None
  {
    if segments == [] {
      assert path[0..] == path && path[0..0 + FieldLength(path)] == path[..FieldLength(path)];
    } else {
      assert path[start - 1..][1..] == path[start..];
      assert !("[*]" <= path[start - 1..]);
    }
  }

  lemma {:induction false} JoinJoin(done: seq<Segment>, s: Segment, rest: Option<seq<Segment>>)
    ensures Join(done, Join([s], rest)) == Join(done + [s], rest)
  {
    if rest.Some? { assert done + ([s] + rest.value) == (done + [s]) + rest.value; }
  }

  lemma {:induction false} TailAfterField(s: string, n: nat)
    requires s != [] && s[0] == '.' && n > 0 && n == FieldLength(s[1..])
    ensures n < |s| && ParseTail(s) == Join([Field(s[1..n + 1])], ParseTail(s[n + 1..]))
  {}

  lemma {:induction false} FieldTaken(path: string, segments: seq<Segment>, start: nat, cursor: nat)
    requires |path| <= MAX_FIT_PATH_BYTES && start < cursor <= |path| && cursor - start == FieldLength(path[start..])
    requires segments == [] ==> start == 0 && InputName(path[..cursor])
    requires segments != [] ==>
      0 < start && path[start - 1] == '.' && ParsePath(path) == Join(segments, ParseTail(path[start - 1..]))
    ensures ParsePath(path) == Join(segments + [Field(path[start..cursor])], ParseTail(path[cursor..]))
  {
    var name := path[start..cursor];
    if segments == [] {
      FirstFieldTaken(path, cursor);
    } else {
      Suffixes(path, start, cursor);
      TailAfterField(path[start - 1..], cursor - start);
      JoinJoin(segments, Field(name), ParseTail(path[cursor..]));
    }
  }

  lemma {:induction false} Suffixes(path: string, start: nat, cursor: nat)
    requires 0 < start < cursor <= |path|
    ensures var s := path[start - 1..];
      s != [] && s[0] == path[start - 1] && s[1..] == path[start..]
      && s[1..cursor - start + 1] == path[start..cursor] && s[cursor - start + 1..] == path[cursor..]
  {}

  lemma {:induction false} FirstFieldTaken(path: string, cursor: nat)
    requires |path| <= MAX_FIT_PATH_BYTES && 0 < cursor <= |path| && cursor == FieldLength(path[0..]) && InputName(path[..cursor])
    ensures ParsePath(path) == Join([] + [Field(path[0..cursor])], ParseTail(path[cursor..]))
  {
    assert path[0..] == path && path[0..cursor] == path[..cursor];
    assert [] + [Field(path[..cursor])] == [Field(path[..cursor])];
  }

  lemma {:induction false} TailAfterEach(s: string)
    requires "[*]" <= s
    ensures |s| >= 3 && ParseTail(s) == Join([Each], ParseTail(s[3..]))
  {}

  lemma {:induction false} EachTaken(path: string, segments: seq<Segment>, cursor: nat)
    requires cursor <= |path| && "[*]" <= path[cursor..]
    ensures cursor + 3 <= |path|
    ensures Join(segments, ParseTail(path[cursor..])) == Join(segments + [Each], ParseTail(path[cursor + 3..]))
  {
    TailAfterEach(path[cursor..]);
    assert path[cursor..][3..] == path[cursor + 3..];
    JoinJoin(segments, Each, ParseTail(path[cursor + 3..]));
  }

  // ----- overlap

  /** Compares segment by segment for as long as both paths last. */
  function PathsOverlap(left: seq<Segment>, right: seq<Segment>): (r: bool)
    ensures r <==> left <= right || right <= left
  {
    if left == [] || right == [] then true
    else
      assert left == [left[0]] + left[1..] && right == [right[0]] + right[1..];
      left[0] == right[0] && PathsOverlap(left[1..], right[1..])
  }
}
