/**
 Expansion of fit rules into concrete targets. With rules that do not overlap, no target lies inside
 another, each exists in the input with the right type, and no two have the same displayed path.
 */
module FitTargets {
  import opened Text
  import opened Json
  import opened FitPaths
  import opened FitReduction

  const MAX_FIT_TARGETS: nat := 4096
  const MAX_FIT_TRAVERSAL_NODES: nat := 32768

  datatype Rule = Rule(path: string, segments: seq<Segment>, strategy: Strategy)

  /** A place that a rule reaches, with the value there. */
  datatype Found = Found(site: Location, value: Json)

  /** A target at its place, before any reduction. */
  datatype Placed = Placed(site: Location, start: Piece)

  // ----- what a rule reaches

  /** The reached places, in traversal order; `at` is the place of `v`. */
  function Find(v: Json, segments: seq<Segment>, at: Location): seq<Found>
    decreases |segments|, 1, 0
  {
    if segments == [] then [Found(at, v)]
    else
      match segments[0]
      case Field(name) =>
        var s := Key(name);
        if Child(v, s).Some? then Find(Child(v, s).value, segments[1..], at + [s]) else []
      case Each => if v.Array? then FindItems(v.items, 0, segments, at) else []
  }

  function FindItems(items: seq<Json>, i: nat, segments: seq<Segment>, at: Location): seq<Found>
    requires segments != [] && i <= |items|
    decreases |segments|, 0, |items| - i
  {
    if i == |items| then []
    else Find(items[i], segments[1..], at + [Item(i)]) + FindItems(items, i + 1, segments, at)
  }

  /** Every reached value has the type that its segment or strategy needs. */
  predicate Compatible(v: Json, segments: seq<Segment>, strategy: Strategy)
    decreases |segments|
  {
    if segments == [] then HasType(v, strategy)
    else
      match segments[0]
      case Field(name) =>
        v.Object? && (Child(v, Key(name)).Some? ==> Compatible(Child(v, Key(name)).value, segments[1..], strategy))
      case Each => v.Array? && forall i | 0 <= i < |v.items| :: Compatible(v.items[i], segments[1..], strategy)
  }

  /** Values that the traversal visits. */
  function Visits(v: Json, segments: seq<Segment>): (n: nat)
    ensures n >= 1
    decreases |segments|, 1, 0
  {
    if segments == [] then 1
    else
      match segments[0]
      case Field(name) => if Child(v, Key(name)).Some? then 1 + Visits(Child(v, Key(name)).value, segments[1..]) else 1
      case Each => if v.Array? then 1 + ItemVisits(v.items, 0, segments) else 1
  }

  function ItemVisits(items: seq<Json>, i: nat, segments: seq<Segment>): nat
    requires segments != [] && i <= |items|
    decreases |segments|, 0, |items| - i
  {
    if i == |items| then 0 else Visits(items[i], segments[1..]) + ItemVisits(items, i + 1, segments)
  }

  /** The path in reports: names joined by dots, and bracketed positions. */
  function DisplayText(loc: Location): string {
    if loc == [] then ""
    else
      var front := DisplayText(loc[..|loc| - 1]);
      match loc[|loc| - 1]
      case Key(name) => if front == "" then name else front + "." + name
      case Item(i) => front + "[" + Numeral(i) + "]"
  }

  function NewTarget(site: Location, strategy: Strategy, count: nat): Target {
    Target(PointerText(site), DisplayText(site), strategy, count, count, None, false)
  }

  /** The targets among reached places: those above the minimum. */
  function PlacedFrom(found: seq<Found>, strategy: Strategy): seq<Placed> {
    if found == [] then [] else OwnPlaced(found[0], strategy) + PlacedFrom(found[1..], strategy)
  }

  function OwnPlaced(f: Found, strategy: Strategy): seq<Placed> {
    var count := CountOf(f.value, strategy);
    if count > MinimumOf(strategy) then [Placed(f.site, Piece(f.value, NewTarget(f.site, strategy, count)))] else []
  }

  function TargetsOf(placed: seq<Placed>): seq<Target> {
    seq(|placed|, i requires 0 <= i < |placed| => placed[i].start.target)
  }

  /** The targets of all rules, in rule order. */
  function AllPlaced(v: Json, rules: seq<Rule>): seq<Placed> {
    if rules == [] then []
    else
      AllPlaced(v, rules[..|rules| - 1])
      + PlacedFrom(Find(v, rules[|rules| - 1].segments, []), rules[|rules| - 1].strategy)
  }

  predicate DisjointRules(rules: seq<Rule>) {
    forall i, j | 0 <= i < j < |rules| :: !PathsOverlap(rules[i].segments, rules[j].segments)
  }

  predicate CompatibleRules(v: Json, rules: seq<Rule>) {
    forall i | 0 <= i < |rules| :: Compatible(v, rules[i].segments, rules[i].strategy)
  }

  /** What the authored-path grammar guarantees of a rule. */
  predicate WordRules(rules: seq<Rule>) {
    forall i | 0 <= i < |rules| :: WordFields(rules[i].segments)
  }

  // ----- reached places

  /** The steps take these segments. */
  predicate Matches(loc: Location, segments: seq<Segment>) {
    |loc| == |segments|
    && forall i | 0 <= i < |loc| :: if segments[i].Field? then loc[i] == Key(segments[i].name) else loc[i].Item?
  }

  /** One reached place, relative to the value at `at`. */
  predicate Reached(f: Found, v: Json, segments: seq<Segment>, at: Location) {
    |f.site| == |at| + |segments| && at <= f.site && Matches(f.site[|at|..], segments)
    && Follow(v, f.site[|at|..]) == Some(f.value)
  }

  lemma {:induction false} ReachedThrough(f: Found, v: Json, s: Step, segments: seq<Segment>, at: Location)
    requires segments != [] && Child(v, s).Some? && Reached(f, Child(v, s).value, segments[1..], at + [s])
    requires if segments[0].Field? then s == Key(segments[0].name) else s.Item?
    ensures Reached(f, v, segments, at) && f.site[|at|] == s
  {
    var tail := f.site[|at|..];
    assert f.site[|at|] == (at + [s])[|at|] == s;
    assert at <= at + [s];
    assert tail[1..] == f.site[|at| + 1..];
    assert tail[0] == s;
    forall i | 0 <= i < |tail|
      ensures if segments[i].Field? then tail[i] == Key(segments[i].name) else tail[i].Item?
    {
      if i > 0 { assert tail[i] == tail[1..][i - 1] && segments[i] == segments[1..][i - 1]; }
    }
  }

  lemma {:induction false} FindReaches(v: Json, segments: seq<Segment>, at: Location, k: nat)
    requires k < |Find(v, segments, at)|
    ensures Reached(Find(v, segments, at)[k], v, segments, at)
    decreases |segments|, 1, 0
  {
    if segments == [] {
      assert at[|at|..] == [];
    } else if segments[0].Field? {
      var s := Key(segments[0].name);
      FindReaches(Child(v, s).value, segments[1..], at + [s], k);
      ReachedThrough(Find(v, segments, at)[k], v, s, segments, at);
    } else {
      FindItemsReaches(v, 0, segments, at, k);
    }
  }

  lemma {:induction false} FindItemsReaches(v: Json, i: nat, segments: seq<Segment>, at: Location, k: nat)
    requires v.Array? && i <= |v.items| && segments != [] && segments[0].Each? && k < |FindItems(v.items, i, segments, at)|
    ensures var f := FindItems(v.items, i, segments, at)[k];
      Reached(f, v, segments, at) && f.site[|at|].Item? && f.site[|at|].index >= i
    decreases |segments|, 0, |v.items| - i
  {
    var first := Find(v.items[i], segments[1..], at + [Item(i)]);
    if k < |first| {
      FindReaches(v.items[i], segments[1..], at + [Item(i)], k);
      ReachedThrough(first[k], v, Item(i), segments, at);
    } else {
      FindItemsReaches(v, i + 1, segments, at, k - |first|);
    }
  }

  /** A rule reaches no place twice. */
  lemma {:induction false} FindDistinct(v: Json, segments: seq<Segment>, at: Location, j: nat, k: nat)
    requires j < k < |Find(v, segments, at)|
    ensures Find(v, segments, at)[j].site != Find(v, segments, at)[k].site
    decreases |segments|, 1, 0
  {
    if segments[0].Field? {
      var s := Key(segments[0].name);
      FindDistinct(Child(v, s).value, segments[1..], at + [s], j, k);
    } else {
      FindItemsDistinct(v, 0, segments, at, j, k);
    }
  }

  lemma {:induction false} FindItemsDistinct(v: Json, i: nat, segments: seq<Segment>, at: Location, j: nat, k: nat)
    requires v.Array? && i <= |v.items| && segments != [] && segments[0].Each?
    requires j < k < |FindItems(v.items, i, segments, at)|
    ensures FindItems(v.items, i, segments, at)[j].site != FindItems(v.items, i, segments, at)[k].site
    decreases |segments|, 0, |v.items| - i
  {
    var first := Find(v.items[i], segments[1..], at + [Item(i)]);
    if k < |first| {
      FindDistinct(v.items[i], segments[1..], at + [Item(i)], j, k);
    } else if j >= |first| {
      FindItemsDistinct(v, i + 1, segments, at, j - |first|, k - |first|);
    } else {
      FindReaches(v.items[i], segments[1..], at + [Item(i)], j);
      ReachedThrough(first[j], v, Item(i), segments, at);
      FindItemsReaches(v, i + 1, segments, at, k - |first|);
    }
  }

  lemma {:induction false} FindHasType(v: Json, segments: seq<Segment>, at: Location, strategy: Strategy, k: nat)
    requires Compatible(v, segments, strategy) && k < |Find(v, segments, at)|
    ensures HasType(Find(v, segments, at)[k].value, strategy)
    decreases |segments|, 1, 0
  {
    if segments != [] {
      if segments[0].Field? {
        var s := Key(segments[0].name);
        FindHasType(Child(v, s).value, segments[1..], at + [s], strategy, k);
      } else {
        FindItemsHaveType(v, 0, segments, at, strategy, k);
      }
    }
  }

  lemma {:induction false} FindItemsHaveType(v: Json, i: nat, segments: seq<Segment>, at: Location, strategy: Strategy, k: nat)
    requires segments != [] && segments[0].Each? && Compatible(v, segments, strategy)
    requires i <= |v.items| && k < |FindItems(v.items, i, segments, at)|
    ensures HasType(FindItems(v.items, i, segments, at)[k].value, strategy)
    decreases |segments|, 0, |v.items| - i
  {
    var first := Find(v.items[i], segments[1..], at + [Item(i)]);
    if k < |first| {
      FindHasType(v.items[i], segments[1..], at + [Item(i)], strategy, k);
    } else {
      FindItemsHaveType(v, i + 1, segments, at, strategy, k - |first|);
    }
  }

  // ----- targets are apart

  lemma {:induction false} PrefixPlaces(a: Location, b: Location, left: seq<Segment>, right: seq<Segment>)
    requires Matches(a, left) && Matches(b, right) && a <= b
    ensures left <= right
  {
    forall i | 0 <= i < |a| ensures left[i] == right[i] { assert a[i] == b[i]; }
  }

  /** Places of two rules that do not overlap are not inside each other. */
  lemma {:induction false} DisjointRulesApart(a: Location, b: Location, left: seq<Segment>, right: seq<Segment>)
    requires Matches(a, left) && Matches(b, right) && !PathsOverlap(left, right)
    ensures Apart(a, b)
  {
    if a <= b { PrefixPlaces(a, b, left, right); }
    if b <= a { PrefixPlaces(b, a, right, left); }
  }

  /** Apart places that both exist have reference tokens of which neither is a prefix of the other. */
  lemma {:induction false} ApartPointers(v: Json, a: Location, b: Location)
    requires Follow(v, a).Some? && Follow(v, b).Some? && TokensOf(a) <= TokensOf(b)
    ensures a <= b
    decreases |a|
  {
    if a != [] {
      assert TokensOf(a)[0] == TokensOf(b)[0];
      if a[0].Item? && b[0].Item? { NumeralInjective(a[0].index, b[0].index); }
      assert a[0] == b[0];
      assert TokensOf(a) == [TokenOf(a[0])] + TokensOf(a[1..]) && TokensOf(b) == [TokenOf(b[0])] + TokensOf(b[1..]);
      assert TokensOf(a)[1..] <= TokensOf(b)[1..];
      ApartPointers(Child(v, a[0]).value, a[1..], b[1..]);
      assert a == [a[0]] + a[1..] && b == [b[0]] + b[1..];
    }
  }

  predicate WordKeys(loc: Location) {
    forall i | 0 <= i < |loc| :: loc[i].Key? ==> Word(loc[i].name)
  }

  /** What is true of each target of an accepted expansion. */
  predicate PlacedOk(v: Json, p: Placed) {
    Follow(v, p.site) == Some(p.start.value) && Fresh(p.start) && WordKeys(p.site)
    && p.start.target.pointer == PointerText(p.site) && p.start.target.path == DisplayText(p.site)
  }

  predicate AllApart(placed: seq<Placed>) {
    forall j, k | 0 <= j < k < |placed| :: Apart(placed[j].site, placed[k].site)
  }

  predicate AllOk(v: Json, placed: seq<Placed>) {
    forall k | 0 <= k < |placed| :: PlacedOk(v, placed[k])
  }

  /** Every target came from a reached place; two targets came from two places, in order. */
  lemma {:induction false} PlacedOrigin(found: seq<Found>, strategy: Strategy, k: nat) returns (i: nat)
    requires k < |PlacedFrom(found, strategy)|
    ensures i < |found|
    ensures var p := PlacedFrom(found, strategy)[k];
      p == Placed(found[i].site, Piece(found[i].value, NewTarget(found[i].site, strategy, CountOf(found[i].value, strategy))))
      && CountOf(found[i].value, strategy) > MinimumOf(strategy)
  {
    var kept := |OwnPlaced(found[0], strategy)|;
    JoinedAt(OwnPlaced(found[0], strategy), PlacedFrom(found[1..], strategy), k);
    if k < kept {
      i := 0;
    } else {
      i := PlacedOrigin(found[1..], strategy, k - kept);
      i := i + 1;
    }
  }

  predicate DistinctSites(found: seq<Found>) {
    forall j, k | 0 <= j < k < |found| :: found[j].site != found[k].site
  }

  lemma {:induction false} DistinctTail(found: seq<Found>, i: nat)
    requires DistinctSites(found) && found != []
    ensures DistinctSites(found[1..])
    ensures i < |found[1..]| ==> found[1..][i].site != found[0].site
  {
    forall a, b | 0 <= a < b < |found[1..]| ensures found[1..][a].site != found[1..][b].site {
      assert found[1..][a] == found[a + 1] && found[1..][b] == found[b + 1];
    }
    if i < |found[1..]| { assert found[1..][i] == found[i + 1]; }
  }

  lemma {:induction false} PlacedHead(found: seq<Found>, strategy: Strategy, k: nat)
    requires found != [] && k < |PlacedFrom(found, strategy)|
    ensures var kept := if CountOf(found[0].value, strategy) > MinimumOf(strategy) then 1 else 0;
      if k < kept then PlacedFrom(found, strategy)[k].site == found[0].site
      else k - kept < |PlacedFrom(found[1..], strategy)| && PlacedFrom(found, strategy)[k] == PlacedFrom(found[1..], strategy)[k - kept]
  {
    OwnSite(found[0], strategy);
    JoinedAt(OwnPlaced(found[0], strategy), PlacedFrom(found[1..], strategy), k);
  }

  lemma {:induction false} OwnSite(f: Found, strategy: Strategy)
    ensures |OwnPlaced(f, strategy)| == if CountOf(f.value, strategy) > MinimumOf(strategy) then 1 else 0
    ensures OwnPlaced(f, strategy) != [] ==> OwnPlaced(f, strategy)[0].site == f.site
  {}

  lemma {:induction false} JoinedAt(own: seq<Placed>, rest: seq<Placed>, k: nat)
    requires k < |own| + |rest|
    ensures (own + rest)[k] == if k < |own| then own[k] else rest[k - |own|]
  {}

  lemma {:induction false} PlacedDistinct(found: seq<Found>, strategy: Strategy, j: nat, k: nat)
    requires DistinctSites(found) && j < k < |PlacedFrom(found, strategy)|
    ensures PlacedFrom(found, strategy)[j].site != PlacedFrom(found, strategy)[k].site
  {
    var kept := if CountOf(found[0].value, strategy) > MinimumOf(strategy) then 1 else 0;
    PlacedHead(found, strategy, j);
    PlacedHead(found, strategy, k);
    if j < kept {
      var i := PlacedOrigin(found[1..], strategy, k - kept);
      DistinctTail(found, i);
      assert PlacedFrom(found, strategy)[k].site == found[1..][i].site;
    } else {
      DistinctTail(found, 0);
      PlacedDistinct(found[1..], strategy, j - kept, k - kept);
    }
  }

  /** The targets of one rule. */
  lemma {:induction false} RuleTargets(v: Json, rule: Rule, k: nat)
    requires Compatible(v, rule.segments, rule.strategy) && WordFields(rule.segments)
    requires k < |PlacedFrom(Find(v, rule.segments, []), rule.strategy)|
    ensures var p := PlacedFrom(Find(v, rule.segments, []), rule.strategy)[k];
      PlacedOk(v, p) && Matches(p.site, rule.segments)
  {
    var found := Find(v, rule.segments, []);
    var i := PlacedOrigin(found, rule.strategy, k);
    FindReaches(v, rule.segments, [], i);
    FindHasType(v, rule.segments, [], rule.strategy, i);
    assert found[i].site[0..] == found[i].site;
    assert WordKeys(found[i].site);
  }

  lemma {:induction false} RuleTargetsApart(v: Json, rule: Rule)
    requires Compatible(v, rule.segments, rule.strategy) && WordFields(rule.segments)
    ensures AllApart(PlacedFrom(Find(v, rule.segments, []), rule.strategy))
  {
    var found := Find(v, rule.segments, []);
    var placed := PlacedFrom(found, rule.strategy);
    forall j, k | 0 <= j < k < |found| ensures found[j].site != found[k].site { FindDistinct(v, rule.segments, [], j, k); }
    forall j, k | 0 <= j < k < |placed| ensures Apart(placed[j].site, placed[k].site) {
      PlacedDistinct(found, rule.strategy, j, k);
      RuleTargets(v, rule, j);
      RuleTargets(v, rule, k);
      SameLengthApart(placed[j].site, placed[k].site);
    }
  }

  lemma {:induction false} EqualPrefix(a: Location, b: Location)
    requires |a| == |b|
    ensures a <= b ==> a == b
  {
    assert b[..|b|] == b;
  }

  lemma {:induction false} SameLengthApart(a: Location, b: Location)
    requires |a| == |b| && a != b
    ensures Apart(a, b)
  {
    EqualPrefix(a, b);
    EqualPrefix(b, a);
  }

  /** Each target of all rules comes from one of them. */
  predicate FromRules(placed: seq<Placed>, rules: seq<Rule>) {
    forall k | 0 <= k < |placed| :: FromRule(placed[k].site, rules)
  }

  /** With compatible rules that do not overlap, every target exists with its type, and no target is
      inside another. */
  lemma {:induction false} TargetsAreApart(v: Json, rules: seq<Rule>)
    requires CompatibleRules(v, rules) && DisjointRules(rules) && WordRules(rules)
    ensures AllOk(v, AllPlaced(v, rules)) && AllApart(AllPlaced(v, rules)) && FromRules(AllPlaced(v, rules), rules)
  {
    if rules != [] {
      var front, last := rules[..|rules| - 1], rules[|rules| - 1];
      TargetsAreApart(v, front);
      RuleTargetsApart(v, last);
      var before, placed := AllPlaced(v, front), PlacedFrom(Find(v, last.segments, []), last.strategy);
      forall k | 0 <= k < |placed|
        ensures PlacedOk(v, placed[k]) && Matches(placed[k].site, last.segments)
      {
        RuleTargets(v, last, k);
      }
      LastRuleApart(before, placed, rules);
      JoinApart(v, before, placed);
      JoinFromRules(before, placed, rules);
    }
  }

  lemma {:induction false} LastRuleApart(before: seq<Placed>, placed: seq<Placed>, rules: seq<Rule>)
    requires rules != [] && DisjointRules(rules) && FromRules(before, rules[..|rules| - 1])
    requires forall k | 0 <= k < |placed| :: Matches(placed[k].site, rules[|rules| - 1].segments)
    ensures forall j, k | 0 <= j < |before| && 0 <= k < |placed| :: Apart(before[j].site, placed[k].site)
  {
    var front, last := rules[..|rules| - 1], rules[|rules| - 1];
    forall j, k | 0 <= j < |before| && 0 <= k < |placed| ensures Apart(before[j].site, placed[k].site) {
      assert FromRule(before[j].site, front);
      var r :| 0 <= r < |front| && Matches(before[j].site, front[r].segments);
      assert front[r] == rules[r];
      DisjointRulesApart(before[j].site, placed[k].site, rules[r].segments, last.segments);
    }
  }

  lemma {:induction false} JoinApart(v: Json, before: seq<Placed>, placed: seq<Placed>)
    requires AllOk(v, before) && AllApart(before) && AllApart(placed)
    requires forall k | 0 <= k < |placed| :: PlacedOk(v, placed[k])
    requires forall j, k | 0 <= j < |before| && 0 <= k < |placed| :: Apart(before[j].site, placed[k].site)
    ensures AllOk(v, before + placed) && AllApart(before + placed)
  {
    var all := before + placed;
    forall j, k | 0 <= j < k < |all| ensures Apart(all[j].site, all[k].site) {
      if j < |before| <= k { assert all[k] == placed[k - |before|]; }
      if |before| <= j { assert all[j] == placed[j - |before|] && all[k] == placed[k - |before|]; }
    }
  }

  predicate FromRule(site: Location, rules: seq<Rule>) {
    exists r :: 0 <= r < |rules| && Matches(site, rules[r].segments)
  }

  lemma {:induction false} JoinFromRules(before: seq<Placed>, placed: seq<Placed>, rules: seq<Rule>)
    requires rules != [] && FromRules(before, rules[..|rules| - 1])
    requires forall k | 0 <= k < |placed| :: Matches(placed[k].site, rules[|rules| - 1].segments)
    ensures FromRules(before + placed, rules)
  {
    var all := before + placed;
    forall k | 0 <= k < |all| ensures FromRule(all[k].site, rules) {
      if k < |before| {
        assert all[k] == before[k] && FromRule(before[k].site, rules[..|rules| - 1]);
        var r :| 0 <= r < |rules| - 1 && Matches(before[k].site, rules[..|rules| - 1][r].segments);
        assert rules[..|rules| - 1][r] == rules[r];
      } else {
        assert all[k] == placed[k - |before|];
        assert Matches(all[k].site, rules[|rules| - 1].segments);
      }
    }
  }

  // ----- displayed paths

  lemma {:induction false} SplitAtLast(a: string, c: char, b: string, x: string, y: string)
    requires c !in b && c !in y && a + [c] + b == x + [c] + y
    ensures a == x && b == y
  {
    var whole := a + [c] + b;
    assert whole[|a|] == c;
    assert whole == x + [c] + y;
    assert whole[|x|] == c;
    assert forall i | |a| < i < |whole| :: whole[i] == b[i - |a| - 1];
    assert forall i | |x| < i < |whole| :: whole[i] == y[i - |x| - 1];
    assert a == whole[..|a|] && b == whole[|a| + 1..];
    assert x == whole[..|x|] && y == whole[|x| + 1..];
  }

  /** Text after the last step of a path. */
  lemma {:induction false} LastPart(loc: Location)
    requires loc != [] && WordKeys(loc)
    ensures DisplayText(loc) != ""
    ensures DisplayText(loc)[|DisplayText(loc)| - 1] == ']' <==> loc[|loc| - 1].Item?
  {
    var last := loc[|loc| - 1];
    if last.Key? { assert Word(last.name); assert WordChar(last.name[|last.name| - 1]); }
  }

  /** The displayed path determines the place. */
  lemma {:induction false} DisplayInjective(a: Location, b: Location)
    requires WordKeys(a) && WordKeys(b) && DisplayText(a) == DisplayText(b)
    ensures a == b
    decreases |a|
  {
    if a != [] { LastPart(a); }
    if b != [] { LastPart(b); }
    if a != [] && b != [] {
      var frontA, frontB := a[..|a| - 1], b[..|b| - 1];
      SameLastPart(a, b);
      DisplayInjective(frontA, frontB);
      assert a == frontA + [a[|a| - 1]] && b == frontB + [b[|b| - 1]];
    }
  }

  lemma {:induction false} SameLastPart(a: Location, b: Location)
    requires a != [] && b != [] && WordKeys(a) && WordKeys(b) && DisplayText(a) == DisplayText(b)
    requires a[|a| - 1].Item? <==> b[|b| - 1].Item?
    ensures a[|a| - 1] == b[|b| - 1] && DisplayText(a[..|a| - 1]) == DisplayText(b[..|b| - 1])
  {
    var lastA, lastB := a[|a| - 1], b[|b| - 1];
    var frontA, frontB := DisplayText(a[..|a| - 1]), DisplayText(b[..|b| - 1]);
    if lastA.Item? {
      SameItem(frontA, lastA.index, frontB, lastB.index);
    } else {
      SameKey(frontA, lastA.name, frontB, lastB.name);
    }
  }

  lemma {:induction false} SameItem(a: string, i: nat, b: string, j: nat)
    requires a + "[" + Numeral(i) + "]" == b + "[" + Numeral(j) + "]"
    ensures a == b && i == j
  {
    NumeralDigits(i);
    NumeralDigits(j);
    var whole := a + "[" + Numeral(i) + "]";
    assert whole[..|whole| - 1] == a + "[" + Numeral(i);
    assert whole[..|whole| - 1] == b + "[" + Numeral(j);
    SplitAtLast(a, '[', Numeral(i), b, Numeral(j));
    NumeralInjective(i, j);
  }

  lemma {:induction false} SameKey(a: string, m: string, b: string, n: string)
    requires Word(m) && Word(n)
    requires (if a == "" then m else a + "." + m) == (if b == "" then n else b + "." + n)
    ensures a == b && m == n
  {
    assert '.' !in m && '.' !in n;
    assert (a + "." + m)[|a|] == '.' && (b + "." + n)[|b|] == '.';
    if a != "" && b != "" { SplitAtLast(a, '.', m, b, n); }
  }

  /** Two targets have different displayed paths. */
  lemma {:induction false} TargetPathsDiffer(v: Json, placed: seq<Placed>, j: nat, k: nat)
    requires AllOk(v, placed) && AllApart(placed) && j < k < |placed|
    ensures placed[j].start.target.path != placed[k].start.target.path
  {
    assert PlacedOk(v, placed[j]) && PlacedOk(v, placed[k]);
    assert Apart(placed[j].site, placed[k].site);
    if DisplayText(placed[j].site) == DisplayText(placed[k].site) { DisplayInjective(placed[j].site, placed[k].site); }
  }
}
