/**
 What the fit rules reach, which places become targets, what a turn costs, and why a run gives up, stated
 over the places of the input and not by the traversal.
 */
module FitMeaning {
  import opened Text
  import opened Json
  import opened FitPaths
  import opened FitReduction
  import opened FitTargets
  import opened FitSchedule
  import opened Fitting

  // ----- reached places

  lemma {:induction false} FindCompletes(v: Json, segments: seq<Segment>, at: Location, loc: Location)
    requires Matches(loc, segments) && Follow(v, loc).Some?
    ensures Found(at + loc, Follow(v, loc).value) in Find(v, segments, at)
    decreases |segments|, 1, 0
  {
    if segments == [] {
      assert at + loc == at;
      assert Find(v, segments, at)[0] == Found(at, v);
    } else {
      var s, rest := loc[0], loc[1..];
      assert at + loc == at + [s] + rest;
      forall i | 0 <= i < |rest| ensures if segments[1..][i].Field? then rest[i] == Key(segments[1..][i].name) else rest[i].Item? {
        assert rest[i] == loc[i + 1] && segments[1..][i] == segments[i + 1];
      }
      if segments[0].Field? {
        FindCompletes(Child(v, s).value, segments[1..], at + [s], rest);
      } else {
        FindItemsCompletes(v, 0, segments, at, loc);
      }
    }
  }

  lemma {:induction false} FindItemsCompletes(v: Json, i: nat, segments: seq<Segment>, at: Location, loc: Location)
    requires v.Array? && segments != [] && segments[0].Each? && Matches(loc, segments) && Follow(v, loc).Some?
    requires i <= loc[0].index < |v.items|
    requires Matches(loc[1..], segments[1..])
    ensures Found(at + loc, Follow(v, loc).value) in FindItems(v.items, i, segments, at)
    decreases |segments|, 0, |v.items| - i
  {
    var s, rest := loc[0], loc[1..];
    if i == s.index {
      assert at + loc == at + [s] + rest;
      FindCompletes(v.items[i], segments[1..], at + [Item(i)], rest);
    } else {
      FindItemsCompletes(v, i + 1, segments, at, loc);
    }
  }

  /** A rule reaches exactly the places whose steps its segments name, each once, with their values. */
  lemma {:induction false} ReachesExactly(v: Json, segments: seq<Segment>, f: Found)
    ensures f in Find(v, segments, []) <==> Matches(f.site, segments) && Follow(v, f.site) == Some(f.value)
    ensures forall j, k | 0 <= j < k < |Find(v, segments, [])| :: Find(v, segments, [])[j].site != Find(v, segments, [])[k].site
  {
    if f in Find(v, segments, []) {
      var k :| 0 <= k < |Find(v, segments, [])| && Find(v, segments, [])[k] == f;
      FindReaches(v, segments, [], k);
      assert f.site[0..] == f.site;
    }
    if Matches(f.site, segments) && Follow(v, f.site).Some? {
      FindCompletes(v, segments, [], f.site);
      assert [] + f.site == f.site;
    }
    forall j, k | 0 <= j < k < |Find(v, segments, [])| ensures Find(v, segments, [])[j].site != Find(v, segments, [])[k].site {
      FindDistinct(v, segments, [], j, k);
    }
  }

  /** The first place comes earlier in the text of the input. */
  predicate Earlier(a: Location, b: Location) {
    exists i :: 0 <= i < |a| && i < |b| && a[..i] == b[..i] && a[i].Item? && b[i].Item? && a[i].index < b[i].index
  }

  lemma {:induction false} EarlierBelow(a: Location, b: Location, s: Step)
    requires Earlier(a, b)
    ensures Earlier([s] + a, [s] + b)
  {
    var i :| 0 <= i < |a| && i < |b| && a[..i] == b[..i] && a[i].Item? && b[i].Item? && a[i].index < b[i].index;
    var x, y := [s] + a, [s] + b;
    assert x[..i + 1] == [s] + a[..i] && y[..i + 1] == [s] + b[..i];
    assert x[i + 1] == a[i] && y[i + 1] == b[i];
  }

  /** A place below `at`. */
  function Below(f: Found, at: Location): Location {
    if |at| <= |f.site| then f.site[|at|..] else []
  }

  lemma {:induction false} BelowStep(f: Found, at: Location, s: Step, v: Json, segments: seq<Segment>)
    requires Reached(f, v, segments, at + [s])
    ensures Below(f, at) == [s] + Below(f, at + [s])
  {
    assert f.site[..|at| + 1] == at + [s];
    assert f.site[|at|] == s;
    assert f.site[|at|..] == [f.site[|at|]] + f.site[|at| + 1..];
  }

  lemma {:induction false} FindOrdered(v: Json, segments: seq<Segment>, at: Location, j: nat, k: nat)
    requires j < k < |Find(v, segments, at)|
    ensures Earlier(Below(Find(v, segments, at)[j], at), Below(Find(v, segments, at)[k], at))
    decreases |segments|, 1, 0
  {
    if segments[0].Field? {
      var s := Key(segments[0].name);
      ChildOrdered(Child(v, s).value, s, segments, at, j, k);
    } else {
      FindItemsOrdered(v, 0, segments, at, j, k);
    }
  }

  lemma {:induction false} ChildOrdered(child: Json, s: Step, segments: seq<Segment>, at: Location, j: nat, k: nat)
    requires segments != [] && j < k < |Find(child, segments[1..], at + [s])|
    ensures var found := Find(child, segments[1..], at + [s]); Earlier(Below(found[j], at), Below(found[k], at))
    decreases |segments|, 0, 0
  {
    var found := Find(child, segments[1..], at + [s]);
    FindOrdered(child, segments[1..], at + [s], j, k);
    FindReaches(child, segments[1..], at + [s], j);
    FindReaches(child, segments[1..], at + [s], k);
    BelowStep(found[j], at, s, child, segments[1..]);
    BelowStep(found[k], at, s, child, segments[1..]);
    EarlierBelow(Below(found[j], at + [s]), Below(found[k], at + [s]), s);
  }

  lemma {:induction false} FindItemsOrdered(v: Json, i: nat, segments: seq<Segment>, at: Location, j: nat, k: nat)
    requires v.Array? && i <= |v.items| && segments != [] && segments[0].Each? && j < k < |FindItems(v.items, i, segments, at)|
    ensures var found := FindItems(v.items, i, segments, at);
      Earlier(Below(found[j], at), Below(found[k], at))
    decreases |segments|, 0, 1 + |v.items| - i
  {
    var first := Find(v.items[i], segments[1..], at + [Item(i)]);
    if k < |first| {
      ChildOrdered(v.items[i], Item(i), segments, at, j, k);
    } else if j < |first| {
      ItemBeforeRest(v, i, segments, at, j, k - |first|);
    } else {
      FindItemsOrdered(v, i + 1, segments, at, j - |first|, k - |first|);
    }
  }

  lemma {:induction false} ItemBeforeRest(v: Json, i: nat, segments: seq<Segment>, at: Location, j: nat, k: nat)
    requires v.Array? && i < |v.items| && segments != [] && segments[0].Each?
    requires j < |Find(v.items[i], segments[1..], at + [Item(i)])| && k < |FindItems(v.items, i + 1, segments, at)|
    ensures Earlier(Below(Find(v.items[i], segments[1..], at + [Item(i)])[j], at), Below(FindItems(v.items, i + 1, segments, at)[k], at))
  {
    var first := Find(v.items[i], segments[1..], at + [Item(i)]);
    FindReaches(v.items[i], segments[1..], at + [Item(i)], j);
    BelowStep(first[j], at, Item(i), v.items[i], segments[1..]);
    FindItemsReaches(v, i + 1, segments, at, k);
    LaterItem(Below(first[j], at), Below(FindItems(v.items, i + 1, segments, at)[k], at));
  }

  lemma {:induction false} LaterItem(a: Location, b: Location)
    requires a != [] && b != [] && a[0].Item? && b[0].Item? && a[0].index < b[0].index
    ensures Earlier(a, b)
  {
    assert a[..0] == b[..0];
  }

  /** Places are reached in the order of the input. */
  lemma {:induction false} ReachedInOrder(v: Json, segments: seq<Segment>, j: nat, k: nat)
    requires j < k < |Find(v, segments, [])|
    ensures Earlier(Find(v, segments, [])[j].site, Find(v, segments, [])[k].site)
  {
    FindOrdered(v, segments, [], j, k);
    assert forall f: Found :: Below(f, []) == f.site by {
      forall f: Found ensures Below(f, []) == f.site { assert f.site[0..] == f.site; }
    }
  }

  // ----- compatible values

  /** The value has the type that the next segment needs, or the strategy at the end. */
  predicate TypeFits(v: Json, segments: seq<Segment>, i: nat, strategy: Strategy)
    requires i <= |segments|
  {
    if i == |segments| then (if strategy == Recent then v.Array? else v.String?)
    else if segments[i].Field? then v.Object? else v.Array?
  }

  /** A place on the way to those that a rule reaches. */
  ghost predicate OnTheWay(v: Json, segments: seq<Segment>, loc: Location) {
    |loc| <= |segments| && Matches(loc, segments[..|loc|]) && Follow(v, loc).Some?
  }

  /** If the place is on the way, its value has the type that is needed there. */
  ghost predicate WayFits(v: Json, segments: seq<Segment>, strategy: Strategy, loc: Location) {
    OnTheWay(v, segments, loc) ==> TypeFits(Follow(v, loc).value, segments, |loc|, strategy)
  }

  predicate StepFor(segment: Segment, s: Step) {
    if segment.Field? then s == Key(segment.name) else s.Item?
  }

  lemma {:induction false} WayBelow(v: Json, segments: seq<Segment>, strategy: Strategy, s: Step, loc: Location)
    requires segments != [] && Child(v, s).Some? && StepFor(segments[0], s)
    ensures WayFits(v, segments, strategy, [s] + loc) <==> WayFits(Child(v, s).value, segments[1..], strategy, loc)
  {
    var all := [s] + loc;
    assert all[1..] == loc;
    if |loc| < |segments| {
      assert segments[..|all|][1..] == segments[1..][..|loc|];
      forall i | 0 <= i < |loc| ensures all[i + 1] == loc[i] && segments[i + 1] == segments[1..][i] {}
    }
  }

  /** A rule suits the input exactly if every place on its way has the type that is needed there. */
  lemma {:induction false} CompatibleExactly(v: Json, segments: seq<Segment>, strategy: Strategy)
    ensures Compatible(v, segments, strategy) <==> forall loc: Location :: WayFits(v, segments, strategy, loc)
    decreases |segments|
  {
    assert OnTheWay(v, segments, []) && Follow(v, []) == Some(v);
    assert WayFits(v, segments, strategy, []) <==> TypeFits(v, segments, 0, strategy);
    if segments != [] && TypeFits(v, segments, 0, strategy) {
      forall s: Step | Child(v, s).Some? && StepFor(segments[0], s)
        ensures Compatible(Child(v, s).value, segments[1..], strategy) <==> forall loc: Location :: WayFits(v, segments, strategy, [s] + loc)
      {
        ChildCompatible(v, segments, strategy, s);
      }
      WaysSplit(v, segments, strategy);
      ChildrenCompatible(v, segments, strategy);
    }
  }

  lemma {:induction false} ChildCompatible(v: Json, segments: seq<Segment>, strategy: Strategy, s: Step)
    requires segments != [] && Child(v, s).Some? && StepFor(segments[0], s)
    ensures Compatible(Child(v, s).value, segments[1..], strategy) <==> forall loc: Location :: WayFits(v, segments, strategy, [s] + loc)
    decreases |segments|, 0
  {
    CompatibleExactly(Child(v, s).value, segments[1..], strategy);
    forall loc: Location
      ensures WayFits(v, segments, strategy, [s] + loc) <==> WayFits(Child(v, s).value, segments[1..], strategy, loc)
    {
      WayBelow(v, segments, strategy, s, loc);
    }
  }

  /** A rule suits a value exactly if its rest suits every child that it steps to. */
  lemma {:induction false} ChildrenCompatible(v: Json, segments: seq<Segment>, strategy: Strategy)
    requires segments != [] && TypeFits(v, segments, 0, strategy)
    ensures Compatible(v, segments, strategy)
       <==> forall s: Step | Child(v, s).Some? && StepFor(segments[0], s) :: Compatible(Child(v, s).value, segments[1..], strategy)
  {
    if !segments[0].Field? {
      forall i | 0 <= i < |v.items| ensures Child(v, Item(i)) == Some(v.items[i]) {}
    }
  }

  /** Every place on the way but the first is below a child. */
  lemma {:induction false} WaysSplit(v: Json, segments: seq<Segment>, strategy: Strategy)
    requires segments != []
    ensures forall loc: Location | loc != [] && !WayFits(v, segments, strategy, loc) ::
      loc == [loc[0]] + loc[1..] && Child(v, loc[0]).Some? && StepFor(segments[0], loc[0])
  {}

  // ----- visited values

  /** The places on the way to those that a rule reaches, counted by their number of steps up to `n`. */
  function WayCount(v: Json, segments: seq<Segment>, n: nat): nat
    requires n <= |segments|
  {
    |Find(v, segments[..n], [])| + if n == 0 then 0 else WayCount(v, segments, n - 1)
  }

  /** The number of reached places does not depend on where the value is. */
  lemma {:induction false} FindCount(v: Json, segments: seq<Segment>, a: Location, b: Location)
    ensures |Find(v, segments, a)| == |Find(v, segments, b)|
    decreases |segments|, 1, 0
  {
    if segments != [] {
      if segments[0].Field? {
        var s := Key(segments[0].name);
        if Child(v, s).Some? { FindCount(Child(v, s).value, segments[1..], a + [s], b + [s]); }
      } else if v.Array? {
        FindItemsCount(v.items, 0, segments, a, b);
      }
    }
  }

  lemma {:induction false} FindItemsCount(items: seq<Json>, i: nat, segments: seq<Segment>, a: Location, b: Location)
    requires segments != [] && i <= |items|
    ensures |FindItems(items, i, segments, a)| == |FindItems(items, i, segments, b)|
    decreases |segments|, 0, |items| - i
  {
    if i < |items| {
      FindCount(items[i], segments[1..], a + [Item(i)], b + [Item(i)]);
      FindItemsCount(items, i + 1, segments, a, b);
    }
  }

  /** Counts below the items from `i` on. */
  function ItemsWayCount(items: seq<Json>, i: nat, segments: seq<Segment>, n: nat): nat
    requires segments != [] && i <= |items| && 0 < n <= |segments|
    decreases n
  {
    |FindItems(items, i, segments[..n], [])| + if n == 1 then 0 else ItemsWayCount(items, i, segments, n - 1)
  }

  lemma {:induction false} ItemsWaySplits(items: seq<Json>, i: nat, segments: seq<Segment>, n: nat)
    requires segments != [] && i < |items| && 0 < n <= |segments|
    ensures ItemsWayCount(items, i, segments, n) == WayCount(items[i], segments[1..], n - 1) + ItemsWayCount(items, i + 1, segments, n)
    decreases n
  {
    assert segments[..n][1..] == segments[1..][..n - 1];
    FindCount(items[i], segments[1..][..n - 1], [] + [Item(i)], []);
    if n > 1 { ItemsWaySplits(items, i, segments, n - 1); }
  }

  lemma {:induction false} NoItemsOnTheWay(items: seq<Json>, segments: seq<Segment>, n: nat)
    requires segments != [] && 0 < n <= |segments|
    ensures ItemsWayCount(items, |items|, segments, n) == 0
    decreases n
  {
    if n > 1 { NoItemsOnTheWay(items, segments, n - 1); }
  }

  lemma {:induction false} FieldWay(v: Json, segments: seq<Segment>, n: nat)
    requires segments != [] && segments[0].Field? && 0 < n <= |segments|
    ensures WayCount(v, segments, n)
         == 1 + if Child(v, Key(segments[0].name)).Some? then WayCount(Child(v, Key(segments[0].name)).value, segments[1..], n - 1) else 0
    decreases n
  {
    var s := Key(segments[0].name);
    assert segments[..n][1..] == segments[1..][..n - 1];
    assert segments[..0] == [] && |Find(v, [], [])| == 1;
    if Child(v, s).Some? { FindCount(Child(v, s).value, segments[1..][..n - 1], [] + [s], []); }
    if n > 1 { FieldWay(v, segments, n - 1); }
  }

  lemma {:induction false} EachWay(v: Json, segments: seq<Segment>, n: nat)
    requires segments != [] && segments[0].Each? && 0 < n <= |segments|
    ensures WayCount(v, segments, n) == 1 + if v.Array? then ItemsWayCount(v.items, 0, segments, n) else 0
    decreases n
  {
    assert segments[..0] == [] && |Find(v, [], [])| == 1;
    if n > 1 { EachWay(v, segments, n - 1); }
  }

  /** The traversal visits every place on its way once. */
  lemma {:induction false} VisitsExactly(v: Json, segments: seq<Segment>)
    ensures Visits(v, segments) == WayCount(v, segments, |segments|)
    decreases |segments|, 1, 0
  {
    assert segments[..|segments|] == segments;
    if segments != [] {
      if segments[0].Field? {
        FieldWay(v, segments, |segments|);
        if Child(v, Key(segments[0].name)).Some? { VisitsExactly(Child(v, Key(segments[0].name)).value, segments[1..]); }
      } else {
        EachWay(v, segments, |segments|);
        if v.Array? { ItemVisitsExactly(v.items, 0, segments); }
      }
    }
  }

  lemma {:induction false} ItemVisitsExactly(items: seq<Json>, i: nat, segments: seq<Segment>)
    requires segments != [] && i <= |items|
    ensures ItemVisits(items, i, segments) == ItemsWayCount(items, i, segments, |segments|)
    decreases |segments|, 0, |items| - i
  {
    if i == |items| {
      NoItemsOnTheWay(items, segments, |segments|);
    } else {
      ItemsWaySplits(items, i, segments, |segments|);
      VisitsExactly(items[i], segments[1..]);
      ItemVisitsExactly(items, i + 1, segments);
    }
  }

  // ----- targets

  /** The value can shrink: more than one record, or more than 256 bytes. */
  predicate CanShrink(v: Json, strategy: Strategy) {
    match strategy
    case Recent => v.Array? && |v.items| > 1
    case Truncate => v.String? && |v.text| > 256
  }

  lemma {:induction false} PlacedExactly(found: seq<Found>, strategy: Strategy, loc: Location)
    ensures (exists p :: p in PlacedFrom(found, strategy) && p.site == loc)
       <==> exists f :: f in found && f.site == loc && CanShrink(f.value, strategy)
  {
    if found != [] {
      PlacedExactly(found[1..], strategy, loc);
      assert found == [found[0]] + found[1..];
      var own, rest := OwnPlaced(found[0], strategy), PlacedFrom(found[1..], strategy);
      assert forall p :: p in own + rest <==> p in own || p in rest;
      assert (exists p :: p in own && p.site == loc) <==> found[0].site == loc && CanShrink(found[0].value, strategy) by {
        if found[0].site == loc && CanShrink(found[0].value, strategy) { assert own[0] in own && own[0].site == loc; }
      }
    }
  }

  /** The place is reached by this rule, and its value can shrink. */
  predicate Selects(rule: Rule, v: Json, loc: Location) {
    Matches(loc, rule.segments) && Follow(v, loc).Some? && CanShrink(Follow(v, loc).value, rule.strategy)
  }

  lemma {:induction false} RuleSelects(v: Json, rule: Rule, loc: Location)
    ensures (exists p :: p in PlacedFrom(Find(v, rule.segments, []), rule.strategy) && p.site == loc) <==> Selects(rule, v, loc)
  {
    PlacedExactly(Find(v, rule.segments, []), rule.strategy, loc);
    forall f: Found | f.site == loc
      ensures f in Find(v, rule.segments, []) <==> Matches(loc, rule.segments) && Follow(v, loc) == Some(f.value)
    {
      ReachesExactly(v, rule.segments, f);
    }
    if Selects(rule, v, loc) { assert Found(loc, Follow(v, loc).value) in Find(v, rule.segments, []); }
  }

  /** The targets are exactly the reached places whose values can shrink. */
  lemma {:induction false} TargetsExactly(v: Json, rules: seq<Rule>, loc: Location)
    ensures (exists p :: p in AllPlaced(v, rules) && p.site == loc) <==> exists r :: r in rules && Selects(r, v, loc)
    decreases |rules|
  {
    if rules != [] {
      var front, last := rules[..|rules| - 1], rules[|rules| - 1];
      var a, b := AllPlaced(v, front), PlacedFrom(Find(v, last.segments, []), last.strategy);
      TargetsExactly(v, front, loc);
      RuleSelects(v, last, loc);
      assert rules == front + [last];
      assert forall p :: p in a + b <==> p in a || p in b;
    }
  }

  // ----- giving up

  /** Some rule reaches some place. */
  ghost predicate SomeReached(v: Json, rules: seq<Rule>) {
    exists r, loc :: r in rules && Matches(loc, r.segments) && Follow(v, loc).Some?
  }

  lemma {:induction false} FoundExactly(v: Json, rules: seq<Rule>)
    ensures TotalFound(v, rules) > 0 <==> SomeReached(v, rules)
    decreases |rules|
  {
    if rules != [] {
      var front, last := rules[..|rules| - 1], rules[|rules| - 1];
      var found := Find(v, last.segments, []);
      assert rules == front + [last];
      FoundExactly(v, front);
      if found != [] {
        ReachesExactly(v, last.segments, found[0]);
        assert last in rules && Matches(found[0].site, last.segments);
      }
      if SomeReached(v, rules) {
        var r, loc :| r in rules && Matches(loc, r.segments) && Follow(v, loc).Some?;
        if r == last {
          ReachesExactly(v, last.segments, Found(loc, Follow(v, loc).value));
        } else {
          assert r in front;
        }
      }
    }
  }

  /** Why a run gives up: there are no rules, no rule reaches anything, nothing that is reached can shrink, or
      everything has shrunk as far as it can. */
  lemma {:induction false} ReasonExactly(v: Json, rules: seq<Rule>, report: Report)
    ensures ReasonFor(v, rules, report)
         == if |rules| == 0 then NoRules else if !SomeReached(v, rules) then NoMatchingTargets
            else if |report| == 0 then TargetsAtMinimum else ReductionsExhausted
  {
    FoundExactly(v, rules);
  }

  // ----- what a turn costs

  /** The outcome of a judgement. */
  predicate Judged(t: State, verdict: Verdict) {
    match verdict
    case Accepts => t.status == Accepted
    case OverBudget => t.status == Status.Fitting
    case Refuses(code) => t.status == Stopped(code, Some(t.report))
  }

  /** The run starts with one judgement of the whole input, before any turn. */
  lemma {:induction false} StartExactly(input: Json, targets: seq<Target>, work: nat, validate: Validator)
    ensures var t := Begin(input, targets, work, validate);
      t.input == input && t.targets == targets && t.report == [] && t.turns == 0 && t.judged == work
      && t.work == validate(input, [], work).1 && Judged(t, validate(input, [], work).0)
  {}

  /** The state after a turn that made the input shorter: its length is charged before it is judged. */
  predicate Shortened(s: State, t: State, k: nat, input: Json, target: Target, validate: Validator)
    requires k < |s.targets|
  {
    var work := s.work + EncodedLength(input);
    t.input == input && t.targets == s.targets[k := target] && t.turns == s.turns + 1
    && if work > 67_108_864 then t.work == work && t.report == s.report && t.status == Stopped(ResourceLimit, None)
       else
         t.judged == work && t.report == Record(s.report, Omission(target.path, target.strategy, target.originalCount, target.retainedCount))
         && t.work == validate(input, t.report, work).1 && Judged(t, validate(input, t.report, work).0)
  }

  /** One turn of the schedule: an exhausted target has none; the turn limit stops the run; without progress
      only the target changes; otherwise its value is replaced and the whole input is charged and judged. */
  lemma {:induction false} TurnExactly(v: Json, placed: seq<Placed>, s: State, round: nat, k: nat, validate: Validator)
    requires AllOk(v, placed) && AllApart(placed) && TracksAll(s, placed, round, k) && k < |placed| && s.status.Fitting?
    ensures Follow(s.input, placed[k].site).Some?
    ensures var p, q := After(placed[k].start, round), After(placed[k].start, round + 1);
      var t := Visit(s, k, validate);
      if p.target.exhausted then t == s
      else if s.turns >= 4096 then t == s.(turns := s.turns + 1, status := Stopped(ResourceLimit, Some(s.report)))
      else if q.target.retainedCount >= p.target.retainedCount then t == s.(targets := s.targets[k := q.target], turns := s.turns + 1)
      else Shortened(s, t, k, Put(s.input, placed[k].site, q.value), q.target, validate)
  {
    assert Tracked(s, k, placed[k], TurnsOf(k, round, k));
    PieceIsTracked(v, placed, s, round, k);
    var p := PieceAt(s.input, s.targets[k]).value;
    if !p.target.exhausted && s.turns < 4096 {
      VisitTakes(s, k, validate);
    }
  }

  // ----- admission

  /** No object has two members with one name. */
  predicate Unique(v: Json) {
    match v
    case Array(items) => forall x | x in items :: Unique(x)
    case Object(members) =>
      (forall i, j | 0 <= i < j < |members| :: members[i].name != members[j].name) && forall m | m in members :: Unique(m.value)
    case _ => true
  }

  lemma {:induction false} OwnIndex(members: seq<Member>, i: nat)
    requires i < |members| && forall i, j | 0 <= i < j < |members| :: members[i].name != members[j].name
    ensures MemberIndex(members, members[i].name) == i
  {
    if i > 0 {
      assert members[0].name != members[i].name && members[1..][i - 1] == members[i];
      OwnIndex(members[1..], i - 1);
    }
  }

  lemma {:induction false} DepthBounds(v: Json, limit: nat, loc: Location)
    requires DepthWithin(v, limit) && Follow(v, loc).Some?
    ensures |loc| <= limit
    decreases |loc|
  {
    if loc != [] {
      match loc[0] {
        case Key(name) => assert v.members[MemberIndex(v.members, name)] in v.members;
        case Item(i) => assert v.items[i] in v.items;
      }
      DepthBounds(Child(v, loc[0]).value, limit - 1, loc[1..]);
    }
  }

  lemma {:induction false} DeepPlace(v: Json, limit: nat) returns (loc: Location)
    requires Unique(v) && !DepthWithin(v, limit)
    ensures Follow(v, loc).Some? && |loc| > limit
    decreases v
  {
    var s: Step;
    if v.Array? {
      if limit == 0 {
        s := Item(0);
        loc := [s];
        assert loc[1..] == [];
        return;
      }
      var i :| 0 <= i < |v.items| && !DepthWithin(v.items[i], limit - 1);
      s := Item(i);
    } else {
      if limit == 0 {
        s := Key(v.members[0].name);
        loc := [s];
        assert loc[1..] == [];
        return;
      }
      var i :| 0 <= i < |v.members| && !DepthWithin(v.members[i].value, limit - 1);
      assert v.members[i] in v.members && v.members[i] < v;
      OwnIndex(v.members, i);
      s := Key(v.members[i].name);
    }
    var rest := DeepPlace(Child(v, s).value, limit - 1);
    loc := [s] + rest;
    assert loc[1..] == rest;
  }

  /** A value is at most this deep exactly if no place in it is more steps away. */
  lemma {:induction false} DepthExactly(v: Json, limit: nat)
    requires Unique(v)
    ensures DepthWithin(v, limit) <==> forall loc: Location | Follow(v, loc).Some? :: |loc| <= limit
  {
    if DepthWithin(v, limit) {
      forall loc: Location | Follow(v, loc).Some? ensures |loc| <= limit { DepthBounds(v, limit, loc); }
    } else {
      var loc := DeepPlace(v, limit);
    }
  }

  /** All places of a value. */
  function Places(v: Json): seq<Location>
    decreases v, 1
  {
    match v
    case Array(items) => [[]] + ItemPlaces(items, 0)
    case Object(members) => [[]] + MemberPlaces(members)
    case _ => [[]]
  }

  function Under(s: Step, places: seq<Location>): (under: seq<Location>)
    ensures |under| == |places|
  {
    seq(|places|, i requires 0 <= i < |places| => [s] + places[i])
  }

  function ItemPlaces(items: seq<Json>, first: nat): seq<Location>
    decreases items, 0
  {
    if items == [] then [] else Under(Item(first), Places(items[0])) + ItemPlaces(items[1..], first + 1)
  }

  function MemberPlaces(members: seq<Member>): seq<Location>
    decreases members, 0
  {
    if members == [] then []
    else
      assert members[0].value < members[0];
      Under(Key(members[0].name), Places(members[0].value)) + MemberPlaces(members[1..])
  }

  /** The counted nodes are the places. */
  lemma {:induction false} NodesExactly(v: Json)
    ensures Nodes(v) == |Places(v)|
    decreases v, 1
  {
    match v
    case Array(items) => ItemNodesExactly(items, 0);
    case Object(members) => MemberNodesExactly(members);
    case _ =>
  }

  lemma {:induction false} ItemNodesExactly(items: seq<Json>, first: nat)
    ensures ItemNodes(items) == |ItemPlaces(items, first)|
    decreases items, 0
  {
    if items != [] {
      NodesExactly(items[0]);
      ItemNodesExactly(items[1..], first + 1);
    }
  }

  lemma {:induction false} MemberNodesExactly(members: seq<Member>)
    ensures MemberNodes(members) == |MemberPlaces(members)|
    decreases members, 0
  {
    if members != [] {
      assert members[0].value < members[0];
      NodesExactly(members[0].value);
      MemberNodesExactly(members[1..]);
    }
  }

  lemma {:induction false} UnderHas(s: Step, places: seq<Location>, loc: Location)
    ensures loc in Under(s, places) <==> loc != [] && loc[0] == s && loc[1..] in places
  {
    if loc != [] && loc[0] == s && loc[1..] in places {
      var i :| 0 <= i < |places| && places[i] == loc[1..];
      assert loc == [s] + loc[1..] && Under(s, places)[i] == loc;
    }
    if loc in Under(s, places) {
      var i :| 0 <= i < |places| && Under(s, places)[i] == loc;
      assert loc[1..] == places[i];
    }
  }

  /** They are exactly the places at which the value has something. */
  lemma {:induction false} PlacesExist(v: Json, loc: Location)
    requires Unique(v)
    ensures loc in Places(v) <==> Follow(v, loc).Some?
    decreases v, 1
  {
    match v
    case Array(items) =>
      ItemPlacesExist(v, 0, loc);
      assert items[0..] == items;
    case Object(members) =>
      MemberPlacesExist(v, 0, loc);
      assert members[0..] == members;
    case _ =>
  }

  lemma {:induction false} ItemPlacesExist(v: Json, first: nat, loc: Location)
    requires v.Array? && Unique(v) && first <= |v.items|
    ensures loc in ItemPlaces(v.items[first..], first)
       <==> loc != [] && loc[0].Item? && loc[0].index >= first && Follow(v, loc).Some?
    decreases v, 0, |v.items| - first
  {
    var rest := v.items[first..];
    if rest != [] {
      assert rest[0] == v.items[first] && v.items[first] in v.items && rest[1..] == v.items[first + 1..];
      UnderHas(Item(first), Places(rest[0]), loc);
      if loc != [] { PlacesExist(v.items[first], loc[1..]); }
      ItemPlacesExist(v, first + 1, loc);
    }
  }

  lemma {:induction false} MemberPlacesExist(v: Json, first: nat, loc: Location)
    requires v.Object? && Unique(v) && first <= |v.members|
    ensures loc in MemberPlaces(v.members[first..])
       <==> loc != [] && loc[0].Key? && MemberIndex(v.members, loc[0].name) >= first && Follow(v, loc).Some?
    decreases v, 0, |v.members| - first
  {
    var rest := v.members[first..];
    if rest != [] {
      assert rest[0] == v.members[first] && v.members[first] in v.members && rest[1..] == v.members[first + 1..];
      OwnIndex(v.members, first);
      UnderHas(Key(rest[0].name), Places(rest[0].value), loc);
      if loc != [] {
        assert v.members[first].value < v.members[first];
        PlacesExist(v.members[first].value, loc[1..]);
      }
      MemberPlacesExist(v, first + 1, loc);
    }
  }
}
