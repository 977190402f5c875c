/**
 The fitting run: admission, expansion of the rules, and the round-robin loop that edits the input in
 place until the validator accepts it or nothing can shrink any more.
 */
module Fitting {
  import opened Text
  import opened Json
  import opened FitPaths
  import opened FitReduction
  import opened FitTargets
  import opened FitSchedule

  const MAX_FIT_RULES: nat := 128
  const MAX_FIT_PATH_SEGMENTS: nat := 64
  const MAX_FIT_INPUT_BYTES: nat := 8 * 1024 * 1024
  const MAX_FIT_INPUT_NODES: nat := 16384
  const MAX_FIT_INPUT_DEPTH: nat := 64

  datatype Outcome = Fitted(input: Json, report: Report) | NotFitted(code: FailureCode, reported: Option<Report>)

  // ----- admission

  function Nodes(v: Json): nat {
    match v
    case Array(items) => 1 + ItemNodes(items)
    case Object(members) => 1 + MemberNodes(members)
    case _ => 1
  }

  function ItemNodes(items: seq<Json>): nat {
    if items == [] then 0 else Nodes(items[0]) + ItemNodes(items[1..])
  }

  function MemberNodes(members: seq<Member>): nat {
    if members == [] then 0 else Nodes(members[0].value) + MemberNodes(members[1..])
  }

  predicate DepthWithin(v: Json, limit: nat)
    decreases v
  {
    match v
    case Array(items) => items != [] ==> limit > 0 && forall x | x in items :: DepthWithin(x, limit - 1)
    case Object(members) => members != [] ==> limit > 0 && forall m | m in members :: DepthWithin(m.value, limit - 1)
    case _ => true
  }

  predicate Admitted(v: Json) {
    DepthWithin(v, MAX_FIT_INPUT_DEPTH) && Nodes(v) <= MAX_FIT_INPUT_NODES && EncodedLength(v) <= MAX_FIT_INPUT_BYTES
  }

  /** The bytes of an authored path, counted from its segments. */
  function PathBytes(segments: seq<Segment>): nat {
    var bytes := SegmentBytes(segments);
    if bytes == 0 then 0 else bytes - 1
  }

  function SegmentBytes(segments: seq<Segment>): nat {
    if segments == [] then 0
    else (match segments[0] case Field(name) => |name| + 1 case Each => 3) + SegmentBytes(segments[1..])
  }

  lemma {:induction false} TailBytes(segments: seq<Segment>)
    ensures |TailText(segments)| == SegmentBytes(segments)
  {
    if segments != [] { TailBytes(segments[1..]); }
  }

  /** The count from the segments is the length of the path's text. */
  lemma {:induction false} PathBytesIsTextLength(segments: seq<Segment>)
    requires segments != [] && segments[0].Field?
    ensures PathBytes(segments) == |PathText(segments)|
  {
    TailBytes(segments[1..]);
  }

  predicate RuleFits(rule: Rule) {
    |rule.segments| <= MAX_FIT_PATH_SEGMENTS && PathBytes(rule.segments) <= MAX_FIT_PATH_BYTES
  }

  function TotalVisits(v: Json, rules: seq<Rule>): nat {
    if rules == [] then 0 else TotalVisits(v, rules[..|rules| - 1]) + Visits(v, rules[|rules| - 1].segments)
  }

  function TotalFound(v: Json, rules: seq<Rule>): nat {
    if rules == [] then 0 else TotalFound(v, rules[..|rules| - 1]) + |Find(v, rules[|rules| - 1].segments, [])|
  }

  /** Whether the rules pass their limits, do not overlap, and suit the input. */
  predicate Expandable(v: Json, rules: seq<Rule>) {
    |rules| <= MAX_FIT_RULES && (forall i | 0 <= i < |rules| :: RuleFits(rules[i]))
    && DisjointRules(rules) && CompatibleRules(v, rules)
    && TotalVisits(v, rules) <= MAX_FIT_TRAVERSAL_NODES && TotalFound(v, rules) <= MAX_FIT_TARGETS
  }

  /** The first `i` rules pass. */
  predicate Checked(v: Json, rules: seq<Rule>, i: nat)
    requires i <= |rules|
  {
    (forall j | 0 <= j < i :: RuleFits(rules[j]) && Compatible(v, rules[j].segments, rules[j].strategy))
    && forall j, l | 0 <= j < l < i :: !PathsOverlap(rules[j].segments, rules[l].segments)
  }

  lemma {:induction false} TotalsGrow(v: Json, rules: seq<Rule>, i: nat)
    requires i <= |rules|
    ensures TotalVisits(v, rules[..i]) <= TotalVisits(v, rules) && TotalFound(v, rules[..i]) <= TotalFound(v, rules)
    decreases |rules|
  {
    if i == |rules| {
      assert rules[..i] == rules;
    } else {
      assert rules[..|rules| - 1][..i] == rules[..i];
      TotalsGrow(v, rules[..|rules| - 1], i);
    }
  }

  /** What the totals and the targets of the first rules gain with one rule more. */
  lemma {:induction false} NextRule(v: Json, rules: seq<Rule>, i: nat)
    requires i < |rules|
    ensures var visits, found := Visits(v, rules[i].segments), Find(v, rules[i].segments, []);
      TotalVisits(v, rules[..i + 1]) == TotalVisits(v, rules[..i]) + visits <= TotalVisits(v, rules)
      && TotalFound(v, rules[..i + 1]) == TotalFound(v, rules[..i]) + |found| <= TotalFound(v, rules)
      && TargetsOf(AllPlaced(v, rules[..i + 1])) == TargetsOf(AllPlaced(v, rules[..i])) + TargetsOf(PlacedFrom(found, rules[i].strategy))
  {
    assert rules[..i + 1][..i] == rules[..i];
    TotalsGrow(v, rules, i + 1);
    TargetsJoin(AllPlaced(v, rules[..i]), PlacedFrom(Find(v, rules[i].segments, []), rules[i].strategy));
  }

  /** Whether the checks before the first request pass. */
  predicate Startable(v: Json, spent: nat, rules: seq<Rule>) {
    Admitted(v) && spent <= MAX_WORK_BYTES && Expandable(v, rules)
  }

  // ----- the end of a run

  predicate AllExhausted(s: State) {
    forall j | 0 <= j < |s.targets| :: s.targets[j].exhausted
  }

  function ReasonFor(v: Json, rules: seq<Rule>, report: Report): NoFitReason {
    if rules == [] then NoRules
    else if TotalFound(v, rules) == 0 then NoMatchingTargets
    else if report == [] then TargetsAtMinimum
    else ReductionsExhausted
  }

  /** The result is the state after some turns of the schedule: the first that was not over budget, or
      one in which every target is exhausted. */
  predicate EndsAt(r: Outcome, v: Json, rules: seq<Rule>, start: State, validate: Validator, round: nat, k: nat) {
    k <= |start.targets|
    && (k == 0 ==> round == 0)
    && (k > 0 ==> At(start, round, k - 1, validate).status.Fitting?)
    && var s := At(start, round, k, validate);
       if s.status.Accepted? then r == Fitted(s.input, s.report)
       else if s.status.Stopped? then r == NotFitted(s.status.code, s.status.reported)
       else s.status.Fitting? && AllExhausted(s) && r == NotFitted(NoFit(ReasonFor(v, rules, s.report)), Some(s.report))
  }

  /** The accumulated targets, and the counts of visited values and matched places. */
  datatype Tally = Tally(targets: seq<Target>, visited: nat, matched: nat)

  function Plus(before: Tally, found: seq<Found>, strategy: Strategy, visits: nat): Tally {
    Tally(before.targets + TargetsOf(PlacedFrom(found, strategy)), before.visited + visits, before.matched + |found|)
  }

  /** An expansion adds everything found within the limits, or fails for a reason that holds. */
  predicate Expands(e: Option<FailureCode>, compatible: bool, visits: nat, found: seq<Found>, strategy: Strategy, before: Tally, after: Tally) {
    if e.None? then
      compatible && after == Plus(before, found, strategy, visits) && after.visited <= MAX_FIT_TRAVERSAL_NODES
      && (before.matched <= MAX_FIT_TARGETS ==> after.matched <= MAX_FIT_TARGETS)
    else if e.value == InvalidFit then !compatible
    else
      e.value == ResourceLimit
      && (before.visited + visits > MAX_FIT_TRAVERSAL_NODES || before.matched + |found| > MAX_FIT_TARGETS)
  }

  /** What the expansion of the items before `i` has reached and counted. */
  ghost predicate ItemsDone(v: Json, i: nat, segments: seq<Segment>, at: Location, done: seq<Found>, strategy: Strategy, visits: nat)
    requires v.Array? && i <= |v.items| && segments != [] && segments[0].Each?
  {
    Find(v, segments, at) == done + FindItems(v.items, i, segments, at)
    && visits + ItemVisits(v.items, i, segments) == ItemVisits(v.items, 0, segments)
    && forall j | 0 <= j < i :: Compatible(v.items[j], segments[1..], strategy)
  }

  lemma {:induction false} OneFound(f: Found, strategy: Strategy)
    ensures var count := CountOf(f.value, strategy);
      TargetsOf(PlacedFrom([f], strategy))
      == if count > MinimumOf(strategy) then [NewTarget(f.site, strategy, count)] else []
  {
    assert [f][1..] == [];
    assert PlacedFrom([], strategy) == [];
  }

  lemma {:induction false} NextItemDone(v: Json, i: nat, segments: seq<Segment>, at: Location, done: seq<Found>, strategy: Strategy, visits: nat)
    requires v.Array? && i < |v.items| && segments != [] && segments[0].Each?
    requires ItemsDone(v, i, segments, at, done, strategy, visits)
    ensures var more := visits + Visits(v.items[i], segments[1..]);
      var found := done + Find(v.items[i], segments[1..], at + [Item(i)]);
      more <= ItemVisits(v.items, 0, segments) && |found| <= |Find(v, segments, at)|
      && (Compatible(v.items[i], segments[1..], strategy) ==> ItemsDone(v, i + 1, segments, at, found, strategy, more))
      && (Compatible(v, segments, strategy) ==> Compatible(v.items[i], segments[1..], strategy))
  {
    var found := Find(v.items[i], segments[1..], at + [Item(i)]);
    assert FindItems(v.items, i, segments, at) == found + FindItems(v.items, i + 1, segments, at);
    assert done + (found + FindItems(v.items, i + 1, segments, at)) == (done + found) + FindItems(v.items, i + 1, segments, at);
  }

  lemma {:induction false} PlusPlus(before: Tally, a: seq<Found>, b: seq<Found>, strategy: Strategy, m: nat, n: nat)
    ensures Plus(Plus(before, a, strategy, m), b, strategy, n) == Plus(before, a + b, strategy, m + n)
  {
    PlacedJoin(a, b, strategy);
    var x, y := TargetsOf(PlacedFrom(a, strategy)), TargetsOf(PlacedFrom(b, strategy));
    assert (before.targets + x) + y == before.targets + (x + y);
  }

  lemma {:induction false} ItemExpands(v: Json, i: nat, segments: seq<Segment>, at: Location, done: seq<Found>, strategy: Strategy,
                                       visits: nat, e: Option<FailureCode>, before: Tally, after: Tally)
    requires v.Array? && i < |v.items| && segments != [] && segments[0].Each?
    requires ItemsDone(v, i, segments, at, done, strategy, visits)
    requires var item := v.items[i];
      Expands(e, Compatible(item, segments[1..], strategy), Visits(item, segments[1..]), Find(item, segments[1..], at + [Item(i)]),
              strategy, Plus(before, done, strategy, visits), after)
    ensures var more := visits + Visits(v.items[i], segments[1..]);
      var found := done + Find(v.items[i], segments[1..], at + [Item(i)]);
      if e.None? then ItemsDone(v, i + 1, segments, at, found, strategy, more) && after == Plus(before, found, strategy, more)
      else Expands(e, Compatible(v, segments, strategy), ItemVisits(v.items, 0, segments), Find(v, segments, at), strategy, before, after)
  {
    NextItemDone(v, i, segments, at, done, strategy, visits);
    PlusPlus(before, done, Find(v.items[i], segments[1..], at + [Item(i)]), strategy, visits, Visits(v.items[i], segments[1..]));
  }

  lemma {:induction false} NothingExpanded(v: Json, segments: seq<Segment>, at: Location, strategy: Strategy, before: Tally)
    requires v.Array? && segments != [] && segments[0].Each?
    ensures ItemsDone(v, 0, segments, at, [], strategy, 0) && before == Plus(before, [], strategy, 0)
  {
    assert [] + FindItems(v.items, 0, segments, at) == Find(v, segments, at);
    assert before.targets + TargetsOf([]) == before.targets;
  }

  lemma {:induction false} AllItemsExpanded(v: Json, segments: seq<Segment>, at: Location, done: seq<Found>, strategy: Strategy,
                                            visits: nat, before: Tally, after: Tally)
    requires v.Array? && segments != [] && segments[0].Each? && ItemsDone(v, |v.items|, segments, at, done, strategy, visits)
    requires after == Plus(before, done, strategy, visits) && after.visited <= MAX_FIT_TRAVERSAL_NODES
    requires before.matched <= MAX_FIT_TARGETS ==> after.matched <= MAX_FIT_TARGETS
    ensures Expands(None, Compatible(v, segments, strategy), ItemVisits(v.items, 0, segments), Find(v, segments, at), strategy, before, after)
  {
    assert Find(v, segments, at) == done + [] == done;
  }

  ghost predicate Completes(r: Outcome, v: Json, rules: seq<Rule>, start: State, validate: Validator) {
    exists round, k :: EndsAt(r, v, rules, start, validate, round, k)
  }

  /** The first state: the expanded targets, judged once. */
  function StartOf(v: Json, spent: nat, rules: seq<Rule>, validate: Validator): State {
    Begin(v, TargetsOf(AllPlaced(v, rules)), spent, validate)
  }

  class Fitter {
    var input: Json
    var targets: seq<Target>
    var visited: nat
    var matched: nat
    var report: Report
    var work: nat
    var turns: nat
    ghost var judged: nat

    constructor (input: Json, work: nat)
      ensures this.input == input && this.work == work
      ensures targets == [] && visited == 0 && matched == 0 && report == [] && turns == 0
    {
      this.input, this.work := input, work;
      targets, visited, matched, report, turns, judged := [], 0, 0, [], 0, 0;
    }

    ghost function View(status: Status): State
      reads this
    {
      State(input, targets, report, work, judged, turns, status)
    }

    ghost function Counted(): Tally
      reads this
    {
      Tally(targets, visited, matched)
    }

    /** Adds the targets of one rule below a value; counts visited values and matched places. */
    method Expand(v: Json, segments: seq<Segment>, pointer: string, path: string, strategy: Strategy, ghost at: Location)
      returns (e: Option<FailureCode>)
      requires pointer == PointerText(at) && path == DisplayText(at)
      modifies this`targets, this`visited, this`matched
      ensures Expands(e, Compatible(v, segments, strategy), Visits(v, segments), Find(v, segments, at), strategy, old(Counted()), Counted())
      decreases |segments|, 2
    {
      visited := visited + 1;
      if visited > MAX_FIT_TRAVERSAL_NODES {
        return Some(ResourceLimit);
      }
      if segments == [] {
        e := AddTarget(v, pointer, path, strategy, at);
        return;
      }
      match segments[0] {
        case Field(name) =>
          if !v.Object? {
            return Some(InvalidFit);
          }
          e := ExpandField(v, name, segments, pointer, path, strategy, at);
        case Each =>
          if !v.Array? {
            return Some(InvalidFit);
          }
          e := ExpandItems(v, segments, pointer, path, strategy, at);
      }
    }

    method ExpandField(v: Json, name: string, segments: seq<Segment>, pointer: string, path: string, strategy: Strategy, ghost at: Location)
      returns (e: Option<FailureCode>)
      requires v.Object? && segments != [] && segments[0] == Field(name) && visited <= MAX_FIT_TRAVERSAL_NODES
      requires pointer == PointerText(at) && path == DisplayText(at)
      modifies this`targets, this`visited, this`matched
      ensures Expands(e, Compatible(v, segments, strategy), Visits(v, segments) - 1, Find(v, segments, at), strategy,
                      old(Counted()), Counted())
      decreases |segments|, 1
    {
      var child := Child(v, Key(name));
      if child.Some? {
        PointerAppend(at, Key(name));
        assert (at + [Key(name)])[..|at|] == at;
        e := Expand(child.value, segments[1..], pointer + ("/" + Escape(name)),
                    if path == "" then name else path + "." + name, strategy, at + [Key(name)]);
      } else {
        e := None;
        assert targets == targets + TargetsOf(PlacedFrom([], strategy));
      }
    }

    method AddTarget(v: Json, pointer: string, path: string, strategy: Strategy, ghost at: Location) returns (e: Option<FailureCode>)
      requires pointer == PointerText(at) && path == DisplayText(at) && visited <= MAX_FIT_TRAVERSAL_NODES
      modifies this`targets, this`matched
      ensures Expands(e, HasType(v, strategy), 0, [Found(at, v)], strategy, old(Counted()), Counted())
    {
      if !HasType(v, strategy) {
        return Some(InvalidFit);
      }
      matched := matched + 1;
      if matched > MAX_FIT_TARGETS {
        return Some(ResourceLimit);
      }
      var count := CountOf(v, strategy);
      OneFound(Found(at, v), strategy);
      if count > MinimumOf(strategy) {
        targets := targets + [Target(pointer, path, strategy, count, count, None, false)];
      } else {
        assert targets == targets + [];
      }
      e := None;
    }

    method ExpandItem(v: Json, i: nat, segments: seq<Segment>, pointer: string, path: string, strategy: Strategy, ghost at: Location)
      returns (e: Option<FailureCode>)
      requires v.Array? && i < |v.items| && segments != []
      requires pointer == PointerText(at) && path == DisplayText(at)
      modifies this`targets, this`visited, this`matched
      ensures var item := v.items[i];
        Expands(e, Compatible(item, segments[1..], strategy), Visits(item, segments[1..]), Find(item, segments[1..], at + [Item(i)]),
                strategy, old(Counted()), Counted())
      decreases |segments|, 0, 0
    {
      PointerAppend(at, Item(i));
      assert (at + [Item(i)])[..|at|] == at;
      NumeralHasNoEscapes(i);
      e := Expand(v.items[i], segments[1..], pointer + ("/" + Numeral(i)), path + "[" + Numeral(i) + "]", strategy, at + [Item(i)]);
    }

    /** The traversal of an array. */
    method ExpandItems(v: Json, segments: seq<Segment>, pointer: string, path: string, strategy: Strategy, ghost at: Location)
      returns (e: Option<FailureCode>)
      requires v.Array? && segments != [] && segments[0].Each?
      requires pointer == PointerText(at) && path == DisplayText(at) && visited <= MAX_FIT_TRAVERSAL_NODES
      modifies this`targets, this`visited, this`matched
      ensures Expands(e, Compatible(v, segments, strategy), ItemVisits(v.items, 0, segments), Find(v, segments, at), strategy,
                      old(Counted()), Counted())
      decreases |segments|, 1
    {
      var i := 0;
      ghost var before := Counted();
      ghost var visits: nat := 0;
      ghost var done: seq<Found> := [];
      NothingExpanded(v, segments, at, strategy, before);
      while i < |v.items|
        invariant i <= |v.items| && visited <= MAX_FIT_TRAVERSAL_NODES
        invariant ItemsDone(v, i, segments, at, done, strategy, visits) && Counted() == Plus(before, done, strategy, visits)
        invariant before.matched <= MAX_FIT_TARGETS ==> matched <= MAX_FIT_TARGETS
      {
        e, done, visits := ExpandNext(v, i, segments, pointer, path, strategy, at, done, visits, before);
        if e.Some? {
          return;
        }
        i := i + 1;
      }
      AllItemsExpanded(v, segments, at, done, strategy, visits, before, Counted());
      e := None;
    }

    /** Item `i` after the items before it. */
    method ExpandNext(v: Json, i: nat, segments: seq<Segment>, pointer: string, path: string, strategy: Strategy, ghost at: Location,
                      ghost done: seq<Found>, ghost visits: nat, ghost before: Tally)
      returns (e: Option<FailureCode>, ghost found: seq<Found>, ghost nodes: nat)
      requires v.Array? && i < |v.items| && segments != [] && segments[0].Each?
      requires pointer == PointerText(at) && path == DisplayText(at)
      requires ItemsDone(v, i, segments, at, done, strategy, visits) && Counted() == Plus(before, done, strategy, visits)
      requires before.matched <= MAX_FIT_TARGETS ==> matched <= MAX_FIT_TARGETS
      modifies this`targets, this`visited, this`matched
      ensures e.None? ==>
        ItemsDone(v, i + 1, segments, at, found, strategy, nodes) && Counted() == Plus(before, found, strategy, nodes)
        && visited <= MAX_FIT_TRAVERSAL_NODES && (before.matched <= MAX_FIT_TARGETS ==> matched <= MAX_FIT_TARGETS)
      ensures e.Some? ==>
        Expands(e, Compatible(v, segments, strategy), ItemVisits(v.items, 0, segments), Find(v, segments, at), strategy, before, Counted())
      decreases |segments|, 0, 1
    {
      e := ExpandItem(v, i, segments, pointer, path, strategy, at);
      ItemExpands(v, i, segments, at, done, strategy, visits, e, before, Counted());
      found := done + Find(v.items[i], segments[1..], at + [Item(i)]);
      nodes := visits + Visits(v.items[i], segments[1..]);
    }

    /** Checks the limits of the rules and their overlap, and expands them in order. */
    method Prepare(rules: seq<Rule>) returns (e: Option<FailureCode>)
      requires targets == [] && visited == 0 && matched == 0
      modifies this`targets, this`visited, this`matched
      ensures e.None? <==> Expandable(input, rules)
      ensures e.None? ==> targets == TargetsOf(AllPlaced(input, rules)) && matched == TotalFound(input, rules)
      ensures e.Some? ==> e.value == InvalidFit || e.value == ResourceLimit
    {
      if |rules| > MAX_FIT_RULES {
        return Some(ResourceLimit);
      }
      var i := 0;
      assert rules[..0] == [];
      while i < |rules|
        invariant i <= |rules| && matched <= MAX_FIT_TARGETS && visited <= MAX_FIT_TRAVERSAL_NODES
        invariant Checked(input, rules, i)
        invariant visited == TotalVisits(input, rules[..i]) && matched == TotalFound(input, rules[..i])
        invariant targets == TargetsOf(AllPlaced(input, rules[..i]))
      {
        e := PrepareRule(rules, i);
        if e.Some? {
          return;
        }
        i := i + 1;
      }
      assert rules[..i] == rules;
      e := None;
    }

    /** Compares a rule with the rules before it. */
    static method OverlapsEarlier(rules: seq<Rule>, i: nat) returns (overlaps: bool)
      requires i < |rules|
      ensures overlaps ==> !DisjointRules(rules)
      ensures !overlaps ==> forall j | 0 <= j < i :: !PathsOverlap(rules[j].segments, rules[i].segments)
    {
      var j := 0;
      while j < i
        invariant j <= i && forall l | 0 <= l < j :: !PathsOverlap(rules[l].segments, rules[i].segments)
      {
        if PathsOverlap(rules[j].segments, rules[i].segments) {
          return true;
        }
        j := j + 1;
      }
      overlaps := false;
    }

    /** Checks one rule against the rules before it, and expands it. */
    method PrepareRule(rules: seq<Rule>, i: nat) returns (e: Option<FailureCode>)
      requires i < |rules| && matched <= MAX_FIT_TARGETS && visited <= MAX_FIT_TRAVERSAL_NODES && Checked(input, rules, i)
      requires visited == TotalVisits(input, rules[..i]) && matched == TotalFound(input, rules[..i])
      requires targets == TargetsOf(AllPlaced(input, rules[..i]))
      modifies this`targets, this`visited, this`matched
      ensures e.None? ==> matched <= MAX_FIT_TARGETS && visited <= MAX_FIT_TRAVERSAL_NODES && Checked(input, rules, i + 1)
      ensures e.None? ==> visited == TotalVisits(input, rules[..i + 1]) && matched == TotalFound(input, rules[..i + 1])
      ensures e.None? ==> targets == TargetsOf(AllPlaced(input, rules[..i + 1]))
      ensures e.Some? ==> !Expandable(input, rules) && (e.value == InvalidFit || e.value == ResourceLimit)
    {
      var rule := rules[i];
      if |rule.segments| > MAX_FIT_PATH_SEGMENTS || PathBytes(rule.segments) > MAX_FIT_PATH_BYTES {
        assert !RuleFits(rules[i]);
        return Some(ResourceLimit);
      }
      var overlaps := OverlapsEarlier(rules, i);
      if overlaps {
        return Some(InvalidFit);
      }
      NextRule(input, rules, i);
      e := Expand(input, rule.segments, "", "", rule.strategy, []);
      if e.Some? {
        assert !Compatible(input, rules[i].segments, rules[i].strategy) ==> !CompatibleRules(input, rules);
        return;
      }
    }

    /** Shortens the value of one target in place; reports whether it changed. */
    method Reduce(k: nat) returns (changed: bool)
      requires k < |targets| && PieceAt(input, targets[k]).Some? && Ready(PieceAt(input, targets[k]).value)
      modifies this`input, this`targets
      ensures var p := PieceAt(old(input), old(targets)[k]).value;
        var next := FitReduction.Reduce(p);
        changed == Progressed(p, next) && targets == old(targets)[k := next.target]
        && input == if changed then WithPiece(old(input), old(targets)[k], next) else old(input)
    {
      var t := targets[k];
      var loc := Resolve(input, Tokens(t.pointer)).value;
      var value := Follow(input, loc).value;
      ghost var p := Piece(value, t);
      var next: Piece;
      match t.strategy {
        case Recent => changed, next := ReduceArray(value, t);
        case Truncate => changed, next := ReduceString(value, t);
      }
      assert next == FitReduction.Reduce(p);
      if changed {
        input := Put(input, loc, next.value);
      }
      targets := targets[k := next.target];
    }

    /** Drops the oldest record, if more than one is left. */
    static method ReduceArray(value: Json, t: Target) returns (changed: bool, next: Piece)
      requires t.strategy.Recent? && Ready(Piece(value, t))
      ensures next == ReduceRecent(Piece(value, t)) && changed == Progressed(Piece(value, t), next)
    {
      if |value.items| <= 1 {
        return false, Piece(value, t.(exhausted := true));
      }
      var items := value.items[1..];
      return true, Piece(Array(items), t.(retainedCount := t.retainedCount - 1, exhausted := |items| == 1));
    }

    /** Cuts the middle of the original text around one marker, if that helps. */
    static method ReduceString(value: Json, t: Target) returns (changed: bool, next: Piece)
      requires t.strategy.Truncate? && Ready(Piece(value, t))
      ensures next == ReduceText(Piece(value, t)) && changed == Progressed(Piece(value, t), next)
    {
      if t.retainedCount <= MINIMUM_TEXT_BYTES {
        return false, Piece(value, t.(exhausted := true));
      }
      changed, next := CutText(value, t, if t.originalText.Some? then t.originalText.value else value.text);
    }

    static method CutText(value: Json, t: Target, original: Bytes) returns (changed: bool, next: Piece)
      requires t.strategy.Truncate? && Ready(Piece(value, t)) && t.retainedCount > MINIMUM_TEXT_BYTES
      requires original == OriginalText(Piece(value, t))
      ensures next == ReduceText(Piece(value, t))
      ensures changed == Progressed(Piece(value, t), next)
    {
      var keep := NextKeep(t.retainedCount);
      var head, tail, useful := Decide(t, original, keep);
      var saved := t.(originalText := Some(original));
      if useful {
        saved := saved.(retainedCount := head + |original| - tail, exhausted := keep == MINIMUM_TEXT_BYTES);
        next := Piece(String(Marked(original, head, tail)), saved);
      } else {
        next := Piece(value, saved.(exhausted := true));
      }
      changed := useful;
    }

    /** Where the next cut falls, and whether it drops enough. */
    static method Decide(t: Target, original: Bytes, keep: nat) returns (head: nat, tail: nat, useful: bool)
      requires keep <= |original| && t.retainedCount <= |original|
      ensures head == HeadEnd(original, keep) && tail == TailStart(original, keep) && useful == CutHelps(t, original, keep)
    {
      head, tail := CutPoints(original, keep);
      useful := head + |original| - tail < t.retainedCount;
      if useful && t.retainedCount == t.originalCount {
        useful := 2 + BytesCost(original[head..tail]) > 2 + BytesCost(OMISSION_MARKER);
      }
    }

    /** Moves both cuts to character boundaries, outwards. */
    static method CutPoints(original: Bytes, keep: nat) returns (head: nat, tail: nat)
      requires keep <= |original|
      ensures head == HeadEnd(original, keep) && tail == TailStart(original, keep)
    {
      head := (keep + 1) / 2;
      while !IsBoundary(original, head)
        invariant head <= |original| && NextBoundary(original, head) == HeadEnd(original, keep)
        decreases |original| - head
      {
        head := head + 1;
      }
      tail := |original| - keep / 2;
      while !IsBoundary(original, tail)
        invariant tail <= |original| && PreviousBoundary(original, tail) == TailStart(original, keep)
        decreases tail
      {
        tail := tail - 1;
      }
    }

    /** Asks the validator about the current input and report. */
    method Judge(validate: Validator) returns (status: Status)
      modifies this`work, this`judged
      ensures View(status) == FitSchedule.Judge(old(View(Fitting)), validate)
    {
      var r := validate(input, report, work);
      judged := work;
      work := r.1;
      match r.0 {
        case Accepts => status := Accepted;
        case OverBudget => status := Fitting;
        case Refuses(code) => status := Stopped(code, Some(report));
      }
    }

    /** One target's turn. */
    method TakeTurn(k: nat, validate: Validator) returns (status: Status, changed: bool)
      requires k < |targets| && PieceAt(input, targets[k]).Some? && Ready(PieceAt(input, targets[k]).value)
      modifies this`input, this`targets, this`report, this`work, this`judged, this`turns
      ensures View(status) == Visit(old(View(Fitting)), k, validate)
      ensures changed ==> targets[k].retainedCount < old(targets[k].retainedCount) || !status.Fitting?
      ensures !changed && status.Fitting? ==> targets[k].retainedCount >= old(targets[k].retainedCount)
    {
      if targets[k].exhausted {
        return Fitting, false;
      }
      turns := turns + 1;
      if turns > MAX_FIT_TURNS {
        return Stopped(ResourceLimit, Some(report)), false;
      }
      VisitTakes(old(View(Fitting)), k, validate);
      assert View(Fitting) == old(View(Fitting)).(turns := turns);
      status, changed := Shorten(k, validate);
    }

    /** Reduces the target, and has a shorter input charged, reported and judged. */
    method Shorten(k: nat, validate: Validator) returns (status: Status, changed: bool)
      requires k < |targets| && PieceAt(input, targets[k]).Some? && Ready(PieceAt(input, targets[k]).value)
      modifies this`input, this`targets, this`report, this`work, this`judged
      ensures var s := old(View(Fitting));
        var p := PieceAt(s.input, s.targets[k]).value;
        var next := FitReduction.Reduce(p);
        changed == Progressed(p, next) && p.target == s.targets[k] && targets == s.targets[k := next.target]
        && View(status) == Accounted(s, k, next.target, WithPiece(s.input, s.targets[k], next), changed, validate)
    {
      changed := Reduce(k);
      ghost var s := old(View(Fitting));
      assert View(Fitting) == s.(targets := targets, input := input);
      if !changed {
        return Fitting, false;
      }
      status := Account(k, validate);
    }

    /** Charges, reports and judges an input that a turn made smaller. */
    method Account(k: nat, validate: Validator) returns (status: Status)
      requires k < |targets|
      modifies this`report, this`work, this`judged
      ensures View(status) == Charged(old(View(Fitting)), k, validate)
    {
      work := work + EncodedLength(input);
      if work > MAX_WORK_BYTES {
        return Stopped(ResourceLimit, None);
      }
      RecordOmission(k);
      status := Judge(validate);
    }

    /** Replaces the target's saved omission, or adds it. */
    method RecordOmission(k: nat)
      requires k < |targets|
      modifies this`report
      ensures report == Record(old(report), OmissionOf(targets[k]))
    {
      var omission := OmissionOf(targets[k]);
      var i := 0;
      while i < |report| && report[i].path != omission.path
        invariant i <= |report| && forall j | 0 <= j < i :: report[j].path != omission.path
      {
        i := i + 1;
      }
      RecordAt(report, omission, i);
      if i < |report| {
        report := report[i := omission];
      } else {
        report := report + [omission];
      }
    }

    /** Fits the input. */
    method Fit(rules: seq<Rule>, validate: Validator) returns (r: Outcome)
      requires WordRules(rules)
      requires targets == [] && visited == 0 && matched == 0 && report == [] && turns == 0
      modifies this
      ensures Startable(old(input), old(work) + EncodedLength(old(input)), rules) ==>
        Completes(r, old(input), rules, StartOf(old(input), old(work) + EncodedLength(old(input)), rules, validate), validate)
      ensures !Startable(old(input), old(work) + EncodedLength(old(input)), rules) ==>
        r == NotFitted(InvalidFit, None) || r == NotFitted(ResourceLimit, None)
    {
      ghost var v, spent := input, work + EncodedLength(input);
      var e := Start(rules);
      if e.Some? {
        return NotFitted(e.value, None);
      }
      r := RunFrom(v, spent, rules, validate);
    }

    /** The run after the start. */
    method RunFrom(ghost v: Json, ghost spent: nat, rules: seq<Rule>, validate: Validator) returns (r: Outcome)
      requires WordRules(rules) && Expandable(v, rules) && input == v && work == spent
      requires targets == TargetsOf(AllPlaced(v, rules)) && matched == TotalFound(v, rules) && report == [] && turns == 0
      modifies this
      ensures Completes(r, v, rules, StartOf(v, spent, rules, validate), validate)
    {
      r := Run(rules, validate);
    }

    /** Admits the input, charges its measurement, and expands the rules. */
    method Start(rules: seq<Rule>) returns (e: Option<FailureCode>)
      requires targets == [] && visited == 0 && matched == 0
      modifies this`targets, this`visited, this`matched, this`work
      ensures e.None? <==> Startable(input, old(work) + EncodedLength(input), rules)
      ensures e.None? ==>
        work == old(work) + EncodedLength(input) && targets == TargetsOf(AllPlaced(input, rules)) && matched == TotalFound(input, rules)
      ensures e.Some? ==> e.value == InvalidFit || e.value == ResourceLimit
    {
      if !Admitted(input) {
        return Some(ResourceLimit);
      }
      work := work + EncodedLength(input);
      if work > MAX_WORK_BYTES {
        return Some(ResourceLimit);
      }
      e := Prepare(rules);
    }

    /** Asks the validator, and then takes rounds of turns until the outcome is decided. */
    method Run(rules: seq<Rule>, validate: Validator) returns (r: Outcome)
      requires WordRules(rules) && Expandable(input, rules)
      requires targets == TargetsOf(AllPlaced(input, rules)) && matched == TotalFound(input, rules) && report == [] && turns == 0
      modifies this
      ensures Completes(r, old(input), rules, StartOf(old(input), old(work), rules, validate), validate)
    {
      ghost var v, placed := input, AllPlaced(input, rules);
      TargetsAreApart(v, rules);
      ghost var start := Begin(v, TargetsOf(placed), work, validate);
      judged := work;
      var status := Judge(validate);
      assert View(status) == start == At(start, 0, 0, validate);
      if !status.Fitting? {
        assert EndsAt(Finished(status), v, rules, start, validate, 0, 0);
        return Finished(status);
      }
      r := Rounds(v, rules, placed, start, validate);
    }

    /** Rounds of turns until the outcome is decided or a round changes nothing. */
    method Rounds(ghost v: Json, rules: seq<Rule>, ghost placed: seq<Placed>, ghost start: State, validate: Validator)
      returns (r: Outcome)
      requires AllOk(v, placed) && AllApart(placed) && |targets| == |placed| && matched == TotalFound(v, rules)
      requires exists spent :: start == Begin(v, TargetsOf(placed), spent, validate)
      requires View(Fitting) == At(start, 0, 0, validate)
      modifies this`input, this`targets, this`report, this`work, this`judged, this`turns
      ensures Completes(r, v, rules, start, validate)
    {
      ghost var round := 0;
      while true
        invariant |targets| == |placed| && matched == TotalFound(v, rules)
        invariant View(Fitting) == At(start, round, 0, validate)
        decreases RetainedSum(targets)
      {
        var status, changed := Round(v, rules, placed, start, validate, round);
        if !status.Fitting? {
          return Finished(status);
        }
        if !changed {
          r := GiveUp(v, rules, start, validate, round);
          return;
        }
        round := round + 1;
      }
    }

    /** The outcome when a whole round changed nothing. */
    method GiveUp(ghost v: Json, rules: seq<Rule>, ghost start: State, validate: Validator, ghost round: nat) returns (r: Outcome)
      requires |start.targets| == |targets| && matched == TotalFound(v, rules) && AllExhausted(View(Fitting))
      requires View(Fitting) == At(start, round, |targets|, validate)
      requires |targets| > 0 ==> At(start, round, |targets| - 1, validate).status.Fitting?
      ensures Completes(r, v, rules, start, validate)
    {
      var reason :=
        if |rules| == 0 then NoRules else if matched == 0 then NoMatchingTargets
        else if report == [] then TargetsAtMinimum else ReductionsExhausted;
      r := NotFitted(NoFit(reason), Some(report));
      if |targets| == 0 {
        EmptyRounds(start, validate, round);
        EmptyRounds(start, validate, 0);
      }
      assert EndsAt(r, v, rules, start, validate, if |targets| == 0 then 0 else round, |targets|);
    }

    /** The result for a decided state. */
    function Finished(status: Status): Outcome
      requires status.Accepted? || status.Stopped?
      reads this
    {
      if status.Accepted? then Fitted(input, report) else NotFitted(status.code, status.reported)
    }

    /** One round: a turn for every target that is not exhausted. */
    method Round(ghost v: Json, rules: seq<Rule>, ghost placed: seq<Placed>, ghost start: State, validate: Validator, ghost round: nat)
      returns (status: Status, changed: bool)
      requires AllOk(v, placed) && AllApart(placed) && |targets| == |placed|
      requires exists spent :: start == Begin(v, TargetsOf(placed), spent, validate)
      requires View(Fitting) == At(start, round, 0, validate)
      modifies this`input, this`targets, this`report, this`work, this`judged, this`turns
      ensures |targets| == |placed|
      ensures !status.Panicked?
      ensures !status.Fitting? ==> Completes(Finished(status), v, rules, start, validate)
      ensures status.Fitting? ==> View(status) == At(start, round, |placed|, validate) == At(start, round + 1, 0, validate)
      ensures status.Fitting? && changed ==> RetainedSum(targets) < RetainedSum(old(targets))
      ensures status.Fitting? && !changed ==> AllExhausted(View(status))
      ensures status.Fitting? && |placed| > 0 ==> At(start, round, |placed| - 1, validate).status.Fitting?
    {
      status, changed := Fitting, false;
      var k := 0;
      while k < |targets|
        invariant k <= |targets| == |placed| && status.Fitting?
        invariant View(status) == At(start, round, k, validate)
        invariant k > 0 ==> At(start, round, k - 1, validate).status.Fitting?
        invariant if changed then RetainedSum(targets) < RetainedSum(old(targets)) else RetainedSum(targets) == RetainedSum(old(targets))
        invariant !changed ==> forall j | 0 <= j < k :: targets[j].exhausted
      {
        var shrank: bool;
        status, shrank := TurnInRound(v, placed, start, validate, round, k);
        if !status.Fitting? {
          assert EndsAt(Finished(status), v, rules, start, validate, round, k + 1);
          return;
        }
        changed := changed || shrank;
        k := k + 1;
      }
    }

    method TurnInRound(ghost v: Json, ghost placed: seq<Placed>, ghost start: State, validate: Validator, ghost round: nat, k: nat)
      returns (status: Status, shrank: bool)
      requires AllOk(v, placed) && AllApart(placed) && k < |targets| == |placed|
      requires exists spent :: start == Begin(v, TargetsOf(placed), spent, validate)
      requires View(Fitting) == At(start, round, k, validate)
      modifies this`input, this`targets, this`report, this`work, this`judged, this`turns
      ensures View(status) == At(start, round, k + 1, validate) && !status.Panicked?
      ensures |targets| == |placed| && forall j | 0 <= j < |targets| && j != k :: targets[j] == old(targets)[j]
      ensures status.Fitting? ==>
        if shrank then RetainedSum(targets) < RetainedSum(old(targets))
        else RetainedSum(targets) == RetainedSum(old(targets)) && targets[k].exhausted
    {
      ghost var spent :| start == Begin(v, TargetsOf(placed), spent, validate);
      ghost var s := View(Fitting);
      TargetsAreIndependent(v, placed, spent, validate, round, k);
      PieceIsTracked(v, placed, s, round, k);
      VisitTakesTurn(v, placed, s, round, k, validate);
      status, shrank := TakeTurn(k, validate);
      TargetsAreIndependent(v, placed, spent, validate, round, k + 1);
      if status.Fitting? { VisitShrinks(v, placed, s, round, k, validate); }
    }
  }

  /** Without targets every round is empty. */
  lemma {:induction false} EmptyRounds(start: State, validate: Validator, round: nat)
    ensures |start.targets| == 0 ==> At(start, round, 0, validate) == start
  {
    if round > 0 { EmptyRounds(start, validate, round - 1); }
  }

  lemma {:induction false} NumeralHasNoEscapes(n: nat)
    ensures Escape(Numeral(n)) == Numeral(n)
  {
    NumeralDigits(n);
    NothingToReplace(Numeral(n), '~', "~0");
    NothingToReplace(Numeral(n), '/', "~1");
  }

  lemma {:induction false} NothingToReplace(s: string, c: char, with: string)
    requires c !in s
    ensures ReplaceChar(s, c, with) == s
  {
    if s != [] { NothingToReplace(s[1..], c, with); }
  }

  lemma {:induction false} TargetsJoin(a: seq<Placed>, b: seq<Placed>)
    ensures TargetsOf(a + b) == TargetsOf(a) + TargetsOf(b)
  {}

  lemma {:induction false} PlacedFromJoin(a: seq<Found>, b: seq<Found>, strategy: Strategy)
    ensures PlacedFrom(a + b, strategy) == PlacedFrom(a, strategy) + PlacedFrom(b, strategy)
    decreases |a|
  {
    if a == [] {
      assert a + b == b;
      assert PlacedFrom(a, strategy) == [];
    } else {
      assert (a + b)[0] == a[0] && (a + b)[1..] == a[1..] + b;
      PlacedFromJoin(a[1..], b, strategy);
      var count := CountOf(a[0].value, strategy);
      var first := if count > MinimumOf(strategy)
        then [Placed(a[0].site, Piece(a[0].value, NewTarget(a[0].site, strategy, count)))] else [];
      assert first + (PlacedFrom(a[1..], strategy) + PlacedFrom(b, strategy))
          == (first + PlacedFrom(a[1..], strategy)) + PlacedFrom(b, strategy);
    }
  }

  lemma {:induction false} PlacedJoin(a: seq<Found>, b: seq<Found>, strategy: Strategy)
    ensures TargetsOf(PlacedFrom(a + b, strategy)) == TargetsOf(PlacedFrom(a, strategy)) + TargetsOf(PlacedFrom(b, strategy))
  {
    PlacedFromJoin(a, b, strategy);
    TargetsJoin(PlacedFrom(a, strategy), PlacedFrom(b, strategy));
  }

  /** The saved omission with the same path is replaced where it is. */
  lemma {:induction false} RecordAt(report: Report, o: Omission, i: nat)
    requires i <= |report| && (forall j | 0 <= j < i :: report[j].path != o.path)
    requires i < |report| ==> report[i].path == o.path
    ensures Record(report, o) == if i == |report| then report + [o] else report[i := o]
  {
    if report != [] {
      if i > 0 {
        RecordAt(report[1..], o, i - 1);
        assert [report[0]] + (report[1..] + [o]) == report + [o];
      } else {
        assert [o] + report[1..] == report[0 := o];
      }
    }
  }
}
