/**
 The round-robin schedule of reductions: every target that can still shrink has one turn a round, and
 the validator judges the whole input after each change. The states of the schedule are given by the
 complete rounds and the turns of the round in progress.
 */
module FitSchedule {
  import opened Text
  import opened Json
  import opened FitReduction
  import opened FitTargets

  const MAX_FIT_TURNS: nat := 4096
  const MAX_WORK_BYTES: nat := 64 * 1024 * 1024

  datatype Omission = Omission(path: string, strategy: Strategy, originalCount: nat, retainedCount: nat)

  type Report = seq<Omission>

  datatype NoFitReason = NoRules | NoMatchingTargets | TargetsAtMinimum | ReductionsExhausted

  datatype FailureCode = InvalidFit | ResourceLimit | ProviderUnavailable | InvalidRequest | NoFit(reason: NoFitReason)

  datatype Verdict = Accepts | OverBudget | Refuses(code: FailureCode)

  /** Judges an input and its report against the work spent so far; also charges work. */
  type Validator = (Json, Report, nat) -> (Verdict, nat)

  datatype Status = Fitting | Accepted | Stopped(code: FailureCode, reported: Option<Report>) | Panicked

  /** `judged` is the work at the latest judgement. */
  datatype State = State(input: Json, targets: seq<Target>, report: Report, work: nat, judged: nat, turns: nat, status: Status)

  function OmissionOf(t: Target): Omission {
    Omission(t.path, t.strategy, t.originalCount, t.retainedCount)
  }

  /** Replaces the omission with the same path, or adds one. */
  function Record(report: Report, o: Omission): Report {
    if report == [] then [o]
    else if report[0].path == o.path then [o] + report[1..]
    else [report[0]] + Record(report[1..], o)
  }

  function Judge(s: State, validate: Validator): State {
    var r := validate(s.input, s.report, s.work);
    var status :=
      match r.0
      case Accepts => Accepted
      case OverBudget => Fitting
      case Refuses(code) => Stopped(code, Some(s.report));
    s.(work := r.1, judged := s.work, status := status)
  }

  function Begin(input: Json, targets: seq<Target>, work: nat, validate: Validator): State {
    Judge(State(input, targets, [], work, work, 0, Fitting), validate)
  }

  /** The place of a target and its value, if the pointer resolves. */
  function PieceAt(input: Json, t: Target): Option<Piece> {
    var loc := Resolve(input, Tokens(t.pointer));
    if loc.None? || Follow(input, loc.value).None? then None else Some(Piece(Follow(input, loc.value).value, t))
  }

  /** The input with a target's value replaced. */
  function WithPiece(input: Json, t: Target, next: Piece): Json
    requires PieceAt(input, t).Some?
  {
    ResolvedExists(input, Tokens(t.pointer));
    Put(input, Resolve(input, Tokens(t.pointer)).value, next.value)
  }

  /** The state after a target shrank, before it is judged. */
  function Shrunk(s: State, k: nat, next: Piece): State
    requires k < |s.targets| && PieceAt(s.input, s.targets[k]).Some?
  {
    var input := WithPiece(s.input, s.targets[k], next);
    s.(input := input, targets := s.targets[k := next.target], report := Record(s.report, OmissionOf(next.target)),
       work := s.work + EncodedLength(input), turns := s.turns + 1)
  }

  /** One target's turn. */
  function Visit(s: State, k: nat, validate: Validator): State
    requires k < |s.targets|
  {
    if s.targets[k].exhausted then s
    else if s.turns + 1 > MAX_FIT_TURNS then s.(turns := s.turns + 1, status := Stopped(ResourceLimit, Some(s.report)))
    else if PieceAt(s.input, s.targets[k]).None? || !Ready(PieceAt(s.input, s.targets[k]).value) then s.(status := Panicked)
    else
      var p := PieceAt(s.input, s.targets[k]).value;
      var next := Reduce(p);
      if !Progressed(p, next) then s.(targets := s.targets[k := next.target], turns := s.turns + 1)
      else
        var shrunk := Shrunk(s, k, next);
        if shrunk.work > MAX_WORK_BYTES then shrunk.(report := s.report, status := Stopped(ResourceLimit, None))
        else Judge(shrunk, validate)
  }

  /** The state after a shorter input was charged, reported and judged. */
  function Charged(s: State, k: nat, validate: Validator): State
    requires k < |s.targets|
  {
    var charged := s.(work := s.work + EncodedLength(s.input));
    if charged.work > MAX_WORK_BYTES then charged.(status := Stopped(ResourceLimit, None))
    else Judge(charged.(report := Record(s.report, OmissionOf(s.targets[k]))), validate)
  }

  /** The state after a turn gave the target and, with progress, the input. */
  function Accounted(s: State, k: nat, target: Target, input: Json, progressed: bool, validate: Validator): State
    requires k < |s.targets|
  {
    var turned := s.(targets := s.targets[k := target]);
    if progressed then Charged(turned.(input := input), k, validate) else turned
  }

  /** A visit that takes a turn: without progress only the target changes; otherwise the shorter input is
      charged, reported and judged. */
  lemma {:induction false} VisitTakes(s: State, k: nat, validate: Validator)
    requires k < |s.targets| && !s.targets[k].exhausted && s.turns + 1 <= MAX_FIT_TURNS
    requires PieceAt(s.input, s.targets[k]).Some? && Ready(PieceAt(s.input, s.targets[k]).value)
    ensures var p := PieceAt(s.input, s.targets[k]).value;
      var next := Reduce(p);
      Visit(s, k, validate)
      == Accounted(s.(turns := s.turns + 1), k, next.target, WithPiece(s.input, s.targets[k], next), Progressed(p, next), validate)
  {}

  /** The state after complete rounds and some turns of the next; it stays once it is decided. */
  function At(start: State, round: nat, k: nat, validate: Validator): (s: State)
    requires k <= |start.targets|
    ensures |s.targets| == |start.targets|
    decreases round, k
  {
    if k > 0 then
      var s := At(start, round, k - 1, validate);
      if s.status.Fitting? then Visit(s, k - 1, validate) else s
    else if round > 0 then At(start, round - 1, |start.targets|, validate)
    else start
  }

  // ----- what every state keeps

  /** Turns that a target has had. */
  function TurnsOf(j: nat, round: nat, k: nat): nat {
    round + if j < k then 1 else 0
  }

  /** The changed targets, in expansion order. */
  function Changed(targets: seq<Target>): Report {
    if targets == [] then []
    else
      Changed(targets[..|targets| - 1])
      + if targets[|targets| - 1].retainedCount < targets[|targets| - 1].originalCount
        then [OmissionOf(targets[|targets| - 1])] else []
  }

  /** A target and the value at its place are what its own turns made of them. */
  predicate Tracked(s: State, j: nat, p: Placed, turns: nat)
    requires j < |s.targets|
  {
    s.targets[j] == After(p.start, turns).target && Follow(s.input, p.site) == Some(After(p.start, turns).value)
  }

  predicate TracksAll(s: State, placed: seq<Placed>, round: nat, k: nat) {
    |s.targets| == |placed| && forall j | 0 <= j < |placed| :: Tracked(s, j, placed[j], TurnsOf(j, round, k))
  }

  predicate DistinctPaths(targets: seq<Target>) {
    forall i, j | 0 <= i < j < |targets| :: targets[i].path != targets[j].path
  }

  predicate Live(s: State) {
    s.status.Fitting? || s.status.Accepted?
  }

  /** The latest judgement is about the current input and report. */
  predicate JudgedNow(s: State, validate: Validator) {
    var verdict := validate(s.input, s.report, s.judged).0;
    (s.status.Fitting? ==> verdict.OverBudget?) && (s.status.Accepted? ==> verdict.Accepts?)
  }

  lemma {:induction false} PieceIsTracked(v: Json, placed: seq<Placed>, s: State, round: nat, k: nat)
    requires AllOk(v, placed) && TracksAll(s, placed, round, k) && k < |placed|
    ensures Resolve(s.input, Tokens(s.targets[k].pointer)) == Some(placed[k].site)
    ensures PieceAt(s.input, s.targets[k]) == Some(After(placed[k].start, round))
    ensures Reduced(placed[k].start, After(placed[k].start, round)) && Ready(After(placed[k].start, round))
  {
    var p := placed[k];
    assert PlacedOk(v, p) && Tracked(s, k, p, round);
    AfterIsReduced(p.start, round);
    ReducedIsReady(p.start, After(p.start, round));
    PointerResolves(s.input, p.site);
  }

  /** What a turn of a target does to the state: nothing if the target is exhausted or the turns are
      used up, a mark if it cannot shrink, and otherwise a shorter value and its record. */
  predicate TurnTaken(s: State, k: nat, site: Location, p: Piece, next: Piece, after: State)
    requires k < |s.targets|
  {
    if p.target.exhausted then after == s && next == p
    else if s.turns + 1 > MAX_FIT_TURNS then after == s.(turns := after.turns, status := Stopped(ResourceLimit, Some(s.report)))
    else if Progressed(p, next) then
      Follow(s.input, site).Some? && after.input == Put(s.input, site, next.value)
      && after.targets == s.targets[k := next.target] && !after.status.Panicked?
      && (Live(after) ==> after.report == Record(s.report, OmissionOf(next.target)))
    else after == s.(targets := s.targets[k := next.target], turns := after.turns)
  }

  lemma {:induction false} VisitTakesTurn(v: Json, placed: seq<Placed>, s: State, round: nat, k: nat, validate: Validator)
    requires AllOk(v, placed) && TracksAll(s, placed, round, k) && k < |placed| && s.status.Fitting?
    ensures TurnTaken(s, k, placed[k].site, After(placed[k].start, round), After(placed[k].start, round + 1), Visit(s, k, validate))
  {
    PieceIsTracked(v, placed, s, round, k);
    assert Tracked(s, k, placed[k], round);
    var p, next := After(placed[k].start, round), After(placed[k].start, round + 1);
    assert next == Turn(p);
    PieceVisit(s, k, placed[k].site, p, validate);
  }

  lemma {:induction false} PieceVisit(s: State, k: nat, site: Location, p: Piece, validate: Validator)
    requires k < |s.targets| && s.status.Fitting? && Ready(p) && s.targets[k] == p.target
    requires Resolve(s.input, Tokens(s.targets[k].pointer)) == Some(site) && Follow(s.input, site) == Some(p.value)
    ensures TurnTaken(s, k, site, p, Turn(p), Visit(s, k, validate))
  {
    assert PieceAt(s.input, s.targets[k]) == Some(p);
    if !p.target.exhausted {
      var next := Reduce(p);
      assert Turn(p) == next;
      if s.turns + 1 <= MAX_FIT_TURNS && Progressed(p, next) {
        ShrunkIs(s, k, site, next);
        assert Visit(s, k, validate).targets == Shrunk(s, k, next).targets;
      }
    }
  }

  lemma {:induction false} ShrunkIs(s: State, k: nat, site: Location, next: Piece)
    requires k < |s.targets| && PieceAt(s.input, s.targets[k]).Some?
    requires Resolve(s.input, Tokens(s.targets[k].pointer)) == Some(site) && Follow(s.input, site).Some?
    ensures var after := Shrunk(s, k, next);
      after.input == Put(s.input, site, next.value) && after.targets == s.targets[k := next.target]
      && after.report == Record(s.report, OmissionOf(next.target))
  {}

  /** A turn changes its own target and place only. */
  lemma {:induction false} MovedTracks(v: Json, placed: seq<Placed>, s: State, round: nat, k: nat, next: Piece, after: State)
    requires AllOk(v, placed) && AllApart(placed) && TracksAll(s, placed, round, k) && k < |placed|
    requires next == After(placed[k].start, round + 1) && Follow(s.input, placed[k].site).Some?
    requires after.input == Put(s.input, placed[k].site, next.value) && after.targets == s.targets[k := next.target]
    ensures TracksAll(after, placed, round, k + 1)
  {
    FollowPut(s.input, placed[k].site, next.value);
    forall j | 0 <= j < |placed| ensures Tracked(after, j, placed[j], TurnsOf(j, round, k + 1)) {
      OthersTracked(v, placed, s, round, k, next, after, j);
    }
  }

  lemma {:induction false} OthersTracked(v: Json, placed: seq<Placed>, s: State, round: nat, k: nat, next: Piece, after: State, j: nat)
    requires AllApart(placed) && TracksAll(s, placed, round, k) && k < |placed| && j < |placed|
    requires next == After(placed[k].start, round + 1) && Follow(s.input, placed[k].site).Some?
    requires after.input == Put(s.input, placed[k].site, next.value) && after.targets == s.targets[k := next.target]
    requires Follow(after.input, placed[k].site) == Some(next.value)
    ensures Tracked(after, j, placed[j], TurnsOf(j, round, k + 1))
  {
    assert Tracked(s, j, placed[j], TurnsOf(j, round, k));
    if j != k {
      assert TurnsOf(j, round, k) == TurnsOf(j, round, k + 1);
      assert j < k ==> Apart(placed[j].site, placed[k].site);
      assert k < j ==> Apart(placed[k].site, placed[j].site);
      PutElsewhere(s.input, placed[k].site, next.value, placed[j].site);
    }
  }

  lemma {:induction false} UnmovedTracks(placed: seq<Placed>, s: State, round: nat, k: nat, p: Piece, next: Piece, after: State)
    requires TracksAll(s, placed, round, k) && k < |placed|
    requires p == After(placed[k].start, round) && next == After(placed[k].start, round + 1) && next.value == p.value
    requires after.input == s.input && after.targets == s.targets[k := next.target]
    ensures TracksAll(after, placed, round, k + 1)
  {
    forall j | 0 <= j < |placed| ensures Tracked(after, j, placed[j], TurnsOf(j, round, k + 1)) {
      UnmovedTracked(placed, s, round, k, p, next, after, j);
    }
  }

  lemma {:induction false} UnmovedTracked(placed: seq<Placed>, s: State, round: nat, k: nat, p: Piece, next: Piece, after: State, j: nat)
    requires TracksAll(s, placed, round, k) && k < |placed| && j < |placed|
    requires p == After(placed[k].start, round) && next == After(placed[k].start, round + 1) && next.value == p.value
    requires after.input == s.input && after.targets == s.targets[k := next.target]
    ensures Tracked(after, j, placed[j], TurnsOf(j, round, k + 1))
  {
    assert Tracked(s, j, placed[j], TurnsOf(j, round, k));
    if j == k {
      assert TurnsOf(j, round, k + 1) == round + 1;
    } else {
      assert TurnsOf(j, round, k) == TurnsOf(j, round, k + 1);
    }
  }

  lemma {:induction false} TakenTracks(v: Json, placed: seq<Placed>, s: State, round: nat, k: nat, p: Piece, next: Piece, after: State)
    requires AllOk(v, placed) && AllApart(placed) && TracksAll(s, placed, round, k) && k < |placed| && s.status.Fitting?
    requires p == After(placed[k].start, round) && next == After(placed[k].start, round + 1)
    requires Progressed(p, next) || next.value == p.value
    requires TurnTaken(s, k, placed[k].site, p, next, after)
    ensures !after.status.Panicked?
    ensures Live(after) ==> TracksAll(after, placed, round, k + 1)
  {
    assert Tracked(s, k, placed[k], round);
    if p.target.exhausted {
      assert s.targets[k := p.target] == s.targets;
      UnmovedTracks(placed, s, round, k, p, next, after);
    } else if s.turns + 1 <= MAX_FIT_TURNS {
      if Progressed(p, next) {
        MovedTracks(v, placed, s, round, k, next, after);
      } else {
        UnmovedTracks(placed, s, round, k, p, next, after);
      }
    }
  }

  lemma {:induction false} NextTurn(v: Json, placed: seq<Placed>, round: nat, k: nat)
    requires AllOk(v, placed) && k < |placed|
    ensures var p, next := After(placed[k].start, round), After(placed[k].start, round + 1);
      if Progressed(p, next) then EncodedLength(next.value) < EncodedLength(p.value)
      else next.value == p.value && next.target.exhausted && OmissionOf(next.target) == OmissionOf(p.target)
  {
    assert PlacedOk(v, placed[k]);
    AfterIsReduced(placed[k].start, round);
    AfterIsReduced(placed[k].start, round + 1);
    TurnKeeps(placed[k].start, After(placed[k].start, round));
    assert After(placed[k].start, round + 1) == Turn(After(placed[k].start, round));
  }

  /** A turn of a tracked state finds its target, and the state is tracked afterwards. */
  lemma {:induction false} VisitTracks(v: Json, placed: seq<Placed>, s: State, round: nat, k: nat, validate: Validator)
    requires AllOk(v, placed) && AllApart(placed) && TracksAll(s, placed, round, k) && k < |placed| && s.status.Fitting?
    ensures !Visit(s, k, validate).status.Panicked?
    ensures Live(Visit(s, k, validate)) ==> TracksAll(Visit(s, k, validate), placed, round, k + 1)
  {
    VisitTakesTurn(v, placed, s, round, k, validate);
    NextTurn(v, placed, round, k);
    TakenTracks(v, placed, s, round, k, After(placed[k].start, round), After(placed[k].start, round + 1), Visit(s, k, validate));
  }

  lemma {:induction false} BeginTracks(v: Json, placed: seq<Placed>, work: nat, validate: Validator)
    requires AllOk(v, placed)
    ensures TracksAll(Begin(v, TargetsOf(placed), work, validate), placed, 0, 0)
  {
    var s := Begin(v, TargetsOf(placed), work, validate);
    forall j | 0 <= j < |placed| ensures Tracked(s, j, placed[j], TurnsOf(j, 0, 0)) {
      assert PlacedOk(v, placed[j]);
    }
  }

  /** A whole round more is the same as starting the next one. */
  lemma {:induction false} RoundTracks(s: State, placed: seq<Placed>, round: nat)
    requires TracksAll(s, placed, round, |placed|)
    ensures TracksAll(s, placed, round + 1, 0)
  {
    forall j | 0 <= j < |placed| ensures Tracked(s, j, placed[j], TurnsOf(j, round + 1, 0)) {
      assert Tracked(s, j, placed[j], TurnsOf(j, round, |placed|));
    }
  }

  lemma {:induction false} NextTracks(v: Json, placed: seq<Placed>, start: State, round: nat, k: nat, validate: Validator)
    requires AllOk(v, placed) && AllApart(placed) && k < |placed| == |start.targets|
    requires var s := At(start, round, k, validate);
      !s.status.Panicked? && (s.status.Fitting? ==> TracksAll(s, placed, round, k))
    ensures var s := At(start, round, k + 1, validate);
      !s.status.Panicked? && (s.status.Fitting? ==> TracksAll(s, placed, round, k + 1))
  {
    var s := At(start, round, k, validate);
    assert At(start, round, k + 1, validate) == if s.status.Fitting? then Visit(s, k, validate) else s;
    if s.status.Fitting? { VisitTracks(v, placed, s, round, k, validate); }
  }

  /** The lookup never fails, whatever the validator answers; and as long as the fitting is not
      stopped, every target and its value are what that target's own turns make of them. */
  lemma {:induction false} TargetsAreIndependent(v: Json, placed: seq<Placed>, work: nat, validate: Validator, round: nat, k: nat)
    requires AllOk(v, placed) && AllApart(placed) && k <= |placed|
    ensures var s := At(Begin(v, TargetsOf(placed), work, validate), round, k, validate);
      !s.status.Panicked?
      && (s.status.Fitting? ==> TracksAll(s, placed, round, k))
    decreases round, k
  {
    var start := Begin(v, TargetsOf(placed), work, validate);
    if k > 0 {
      TargetsAreIndependent(v, placed, work, validate, round, k - 1);
      NextTracks(v, placed, start, round, k - 1, validate);
    } else if round > 0 {
      TargetsAreIndependent(v, placed, work, validate, round - 1, |placed|);
      if At(start, round, 0, validate).status.Fitting? {
        RoundTracks(At(start, round, 0, validate), placed, round - 1);
      }
    } else {
      BeginTracks(v, placed, work, validate);
    }
  }

  // ----- the report

  lemma {:induction false} ChangedPaths(targets: seq<Target>, i: nat) returns (j: nat)
    requires i < |Changed(targets)|
    ensures j < |targets| && Changed(targets)[i] == OmissionOf(targets[j]) && targets[j].retainedCount < targets[j].originalCount
  {
    var front := targets[..|targets| - 1];
    if i < |Changed(front)| {
      j := ChangedPaths(front, i);
    } else {
      j := |targets| - 1;
    }
  }

  lemma {:induction false} RecordAppends(report: Report, o: Omission)
    requires forall i | 0 <= i < |report| :: report[i].path != o.path
    ensures Record(report, o) == report + [o]
  {
    if report != [] {
      RecordAppends(report[1..], o);
      assert [report[0]] + (report[1..] + [o]) == report + [o];
    }
  }

  lemma {:induction false} RecordThrough(report: Report, last: Omission, o: Omission)
    requires last.path != o.path && exists i :: 0 <= i < |report| && report[i].path == o.path
    ensures Record(report + [last], o) == Record(report, o) + [last]
  {
    assert (report + [last])[0] == report[0] && (report + [last])[1..] == report[1..] + [last];
    if report[0].path != o.path {
      var i :| 0 <= i < |report| && report[i].path == o.path;
      assert report[1..][i - 1].path == o.path;
      RecordThrough(report[1..], last, o);
      assert [report[0]] + (Record(report[1..], o) + [last]) == ([report[0]] + Record(report[1..], o)) + [last];
    } else {
      assert [o] + (report[1..] + [last]) == ([o] + report[1..]) + [last];
    }
  }

  lemma {:induction false} RecordReplacesLast(report: Report, last: Omission, o: Omission)
    requires last.path == o.path && forall i | 0 <= i < |report| :: report[i].path != o.path
    ensures Record(report + [last], o) == report + [o]
  {
    assert (report + [last])[1..] == if report == [] then [] else report[1..] + [last];
    if report != [] {
      assert (report + [last])[0] == report[0];
      RecordReplacesLast(report[1..], last, o);
      assert [report[0]] + (report[1..] + [o]) == report + [o];
    } else {
      assert [o] + [] == [o];
    }
  }

  /** A changed target is in the list. */
  lemma {:induction false} ChangedHolds(targets: seq<Target>, k: nat) returns (i: nat)
    requires k < |targets| && targets[k].retainedCount < targets[k].originalCount
    ensures i < |Changed(targets)| && Changed(targets)[i] == OmissionOf(targets[k])
  {
    var front := targets[..|targets| - 1];
    if k == |front| {
      i := |Changed(front)|;
    } else {
      i := ChangedHolds(front, k);
    }
  }

  predicate NoneChangedAfter(targets: seq<Target>, k: nat) {
    forall j | k < j < |targets| :: targets[j].retainedCount == targets[j].originalCount
  }

  /** Recording a changed target keeps the report the list of changed targets: it replaces the
      target's own entry, or is the target's first change while no later target has changed. */
  lemma {:induction false} RecordKeepsOrder(targets: seq<Target>, k: nat, t: Target)
    requires k < |targets| && DistinctPaths(targets) && t.path == targets[k].path && t.retainedCount < t.originalCount
    requires targets[k].retainedCount < targets[k].originalCount || NoneChangedAfter(targets, k)
    ensures Record(Changed(targets), OmissionOf(t)) == Changed(targets[k := t])
    decreases |targets|
  {
    var n := |targets| - 1;
    var front, last := targets[..n], targets[n];
    var o := OmissionOf(t);
    if k == n {
      forall i | 0 <= i < |Changed(front)| ensures Changed(front)[i].path != o.path {
        var j := ChangedPaths(front, i);
      }
      assert targets[k := t][..n] == front;
      if last.retainedCount < last.originalCount {
        RecordReplacesLast(Changed(front), OmissionOf(last), o);
      } else {
        assert Changed(targets) == Changed(front);
        RecordAppends(Changed(front), o);
      }
    } else {
      RecordKeepsOrder(front, k, t);
      assert targets[k := t][..n] == front[k := t];
      if last.retainedCount < last.originalCount {
        var i := ChangedHolds(front, k);
        RecordThrough(Changed(front), OmissionOf(last), o);
      } else {
        assert Changed(targets) == Changed(front);
        assert Changed(targets[k := t]) == Changed(front[k := t]);
      }
    }
  }

  lemma {:induction false} TrackedPathsDiffer(v: Json, placed: seq<Placed>, s: State, round: nat, k: nat)
    requires AllOk(v, placed) && AllApart(placed) && TracksAll(s, placed, round, k)
    ensures DistinctPaths(s.targets)
  {
    forall i, j | 0 <= i < j < |s.targets| ensures s.targets[i].path != s.targets[j].path {
      TargetPathsDiffer(v, placed, i, j);
      assert Tracked(s, i, placed[i], TurnsOf(i, round, k)) && Tracked(s, j, placed[j], TurnsOf(j, round, k));
      assert PlacedOk(v, placed[i]) && PlacedOk(v, placed[j]);
      AfterIsReduced(placed[i].start, TurnsOf(i, round, k));
      AfterIsReduced(placed[j].start, TurnsOf(j, round, k));
    }
  }

  /** A target that can still shrink has changed before, or no later target has had a turn. */
  lemma {:induction false} InOrder(v: Json, placed: seq<Placed>, s: State, round: nat, k: nat)
    requires AllOk(v, placed) && TracksAll(s, placed, round, k) && k < |placed| && !s.targets[k].exhausted
    ensures s.targets[k].retainedCount < s.targets[k].originalCount || NoneChangedAfter(s.targets, k)
  {
    assert PlacedOk(v, placed[k]) && Tracked(s, k, placed[k], round);
    AfterIsReduced(placed[k].start, round);
    if round >= 1 {
      FirstTurnDecides(placed[k].start, round);
    } else {
      forall j | k < j < |s.targets| ensures s.targets[j].retainedCount == s.targets[j].originalCount {
        assert PlacedOk(v, placed[j]) && Tracked(s, j, placed[j], TurnsOf(j, 0, k));
        assert After(placed[j].start, 0) == placed[j].start;
      }
    }
  }

  lemma {:induction false} TakenReports(v: Json, placed: seq<Placed>, s: State, round: nat, k: nat, p: Piece, next: Piece, after: State)
    requires AllOk(v, placed) && AllApart(placed) && TracksAll(s, placed, round, k) && k < |placed| && s.targets[k] == p.target
    requires p == After(placed[k].start, round) && next == After(placed[k].start, round + 1)
    requires Progressed(p, next) || OmissionOf(next.target) == OmissionOf(p.target)
    requires next.target.path == p.target.path && next.target.originalCount == p.target.originalCount >= p.target.retainedCount
    requires s.status.Fitting? && s.report == Changed(s.targets) && TurnTaken(s, k, placed[k].site, p, next, after) && Live(after)
    ensures after.report == Changed(after.targets)
  {
    if !p.target.exhausted {
      TrackedPathsDiffer(v, placed, s, round, k);
      InOrder(v, placed, s, round, k);
      if Progressed(p, next) {
        RecordKeepsOrder(s.targets, k, next.target);
      } else {
        SameCountsSameReport(s.targets, k, next.target);
      }
    }
  }

  lemma {:induction false} VisitReports(v: Json, placed: seq<Placed>, s: State, round: nat, k: nat, validate: Validator)
    requires AllOk(v, placed) && AllApart(placed) && TracksAll(s, placed, round, k) && k < |placed|
    requires s.status.Fitting? && s.report == Changed(s.targets) && Live(Visit(s, k, validate))
    ensures Visit(s, k, validate).report == Changed(Visit(s, k, validate).targets)
  {
    assert PlacedOk(v, placed[k]) && Tracked(s, k, placed[k], round);
    AfterIsReduced(placed[k].start, round);
    AfterIsReduced(placed[k].start, round + 1);
    VisitTakesTurn(v, placed, s, round, k, validate);
    NextTurn(v, placed, round, k);
    TakenReports(v, placed, s, round, k, After(placed[k].start, round), After(placed[k].start, round + 1), Visit(s, k, validate));
  }

  lemma {:induction false} SameCountsSameReport(targets: seq<Target>, k: nat, t: Target)
    requires k < |targets| && OmissionOf(t) == OmissionOf(targets[k])
    ensures Changed(targets[k := t]) == Changed(targets)
    decreases |targets|
  {
    var n := |targets| - 1;
    if k == n {
      assert targets[k := t][..n] == targets[..n];
    } else {
      SameCountsSameReport(targets[..n], k, t);
      assert targets[k := t][..n] == targets[..n][k := t];
    }
  }

  lemma {:induction false} NothingChangedYet(targets: seq<Target>)
    requires forall j | 0 <= j < |targets| :: targets[j].retainedCount == targets[j].originalCount
    ensures Changed(targets) == []
  {
    if targets != [] { NothingChangedYet(targets[..|targets| - 1]); }
  }

  /** The report lists exactly the changed targets, once each, in expansion order, with true counts. */
  lemma {:induction false} ReportIsExact(v: Json, placed: seq<Placed>, work: nat, validate: Validator, round: nat, k: nat)
    requires AllOk(v, placed) && AllApart(placed) && k <= |placed|
    ensures var s := At(Begin(v, TargetsOf(placed), work, validate), round, k, validate);
      Live(s) ==> s.report == Changed(s.targets)
    decreases round, k
  {
    var start := Begin(v, TargetsOf(placed), work, validate);
    if k > 0 {
      ReportIsExact(v, placed, work, validate, round, k - 1);
      TargetsAreIndependent(v, placed, work, validate, round, k - 1);
      var s := At(start, round, k - 1, validate);
      if s.status.Fitting? && Live(Visit(s, k - 1, validate)) { VisitReports(v, placed, s, round, k - 1, validate); }
    } else if round > 0 {
      ReportIsExact(v, placed, work, validate, round - 1, |placed|);
    } else {
      forall j | 0 <= j < |placed| ensures start.targets[j].retainedCount == start.targets[j].originalCount {
        assert PlacedOk(v, placed[j]);
      }
      NothingChangedYet(start.targets);
    }
  }

  // ----- what the turns leave alone, and what they shorten

  /** No target is at or above the place. */
  predicate OutsideTargets(placed: seq<Placed>, loc: Location) {
    forall j | 0 <= j < |placed| :: !(placed[j].site <= loc)
  }

  /** No target is at, above or inside the place. */
  predicate ClearOfTargets(placed: seq<Placed>, loc: Location) {
    forall j | 0 <= j < |placed| :: Apart(placed[j].site, loc)
  }

  /** The place exists in both or in neither, with the same scalar, positions or names; and with the
      same value when no target is inside it. */
  predicate Preserved(before: Json, after: Json, placed: seq<Placed>, loc: Location) {
    var x, y := Follow(before, loc), Follow(after, loc);
    (x.Some? <==> y.Some?) && (x.Some? ==> SameShape(x.value, y.value)) && (ClearOfTargets(placed, loc) ==> x == y)
  }

  lemma {:induction false} PutPreserves(v: Json, placed: seq<Placed>, input: Json, site: Location, x: Json, loc: Location)
    requires Follow(input, site).Some? && !(site <= loc) && Preserved(v, input, placed, loc)
    requires ClearOfTargets(placed, loc) ==> Apart(site, loc)
    ensures Preserved(v, Put(input, site, x), placed, loc)
  {
    PutElsewhere(input, site, x, loc);
    if Follow(v, loc).Some? {
      SameShapeTransitive(Follow(v, loc).value, Follow(input, loc).value, Follow(Put(input, site, x), loc).value);
    }
  }

  lemma {:induction false} TakenPreserves(v: Json, placed: seq<Placed>, s: State, k: nat, p: Piece, next: Piece, after: State, loc: Location)
    requires k < |placed| == |s.targets| && TurnTaken(s, k, placed[k].site, p, next, after)
    requires OutsideTargets(placed, loc) && Preserved(v, s.input, placed, loc)
    ensures Preserved(v, after.input, placed, loc)
  {
    if after.input != s.input { PutPreserves(v, placed, s.input, placed[k].site, next.value, loc); }
  }

  /** A value that is not at or inside a target keeps its existence and shape, and its whole contents
      when no target is inside it. */
  lemma {:induction false} UnselectedValuesStay(v: Json, placed: seq<Placed>, work: nat, validate: Validator, round: nat, k: nat, loc: Location)
    requires AllOk(v, placed) && AllApart(placed) && k <= |placed| && OutsideTargets(placed, loc)
    ensures Preserved(v, At(Begin(v, TargetsOf(placed), work, validate), round, k, validate).input, placed, loc)
    decreases round, k
  {
    var start := Begin(v, TargetsOf(placed), work, validate);
    if k > 0 {
      UnselectedValuesStay(v, placed, work, validate, round, k - 1, loc);
      TargetsAreIndependent(v, placed, work, validate, round, k - 1);
      var s := At(start, round, k - 1, validate);
      if s.status.Fitting? {
        VisitTakesTurn(v, placed, s, round, k - 1, validate);
        TakenPreserves(v, placed, s, k - 1, After(placed[k - 1].start, round), After(placed[k - 1].start, round + 1),
                       Visit(s, k - 1, validate), loc);
      }
    } else if round > 0 {
      UnselectedValuesStay(v, placed, work, validate, round - 1, |placed|, loc);
    } else if Follow(v, loc).Some? {
      SameShapeReflexive(Follow(v, loc).value);
    }
  }

  function RetainedSum(targets: seq<Target>): nat {
    if targets == [] then 0 else RetainedSum(targets[..|targets| - 1]) + targets[|targets| - 1].retainedCount
  }

  lemma {:induction false} RetainedSumUpdate(targets: seq<Target>, k: nat, t: Target)
    requires k < |targets|
    ensures RetainedSum(targets[k := t]) + targets[k].retainedCount == RetainedSum(targets) + t.retainedCount
    decreases |targets|
  {
    var n := |targets| - 1;
    if k == n {
      assert targets[k := t][..n] == targets[..n];
    } else {
      assert targets[k := t][..n] == targets[..n][k := t];
      RetainedSumUpdate(targets[..n], k, t);
    }
  }

  lemma {:induction false} TakenShrinks(s: State, k: nat, site: Location, p: Piece, next: Piece, after: State)
    requires k < |s.targets| && TurnTaken(s, k, site, p, next, after) && Live(after) && s.targets[k] == p.target
    requires Follow(s.input, site) == Some(p.value)
    requires if Progressed(p, next) then EncodedLength(next.value) < EncodedLength(p.value)
             else next.target.exhausted && OmissionOf(next.target) == OmissionOf(p.target)
    ensures Shrinks(s, k, after)
  {
    RetainedSumUpdate(s.targets, k, next.target);
    PutLength(s.input, site, next.value);
  }

  /** A turn shortens the encoded input and lowers the sum of retained counts, or it changes no value
      and leaves its target exhausted. */
  predicate Shrinks(s: State, k: nat, after: State)
    requires k < |s.targets| == |after.targets|
  {
    if after.targets[k].retainedCount < s.targets[k].retainedCount
    then EncodedLength(after.input) < EncodedLength(s.input) && RetainedSum(after.targets) < RetainedSum(s.targets)
    else after.input == s.input && after.report == s.report && after.targets[k].exhausted
         && RetainedSum(after.targets) == RetainedSum(s.targets)
  }

  lemma {:induction false} VisitShrinks(v: Json, placed: seq<Placed>, s: State, round: nat, k: nat, validate: Validator)
    requires AllOk(v, placed) && TracksAll(s, placed, round, k) && k < |placed| && s.status.Fitting?
    requires Live(Visit(s, k, validate))
    ensures Shrinks(s, k, Visit(s, k, validate))
  {
    assert Tracked(s, k, placed[k], round);
    VisitTakesTurn(v, placed, s, round, k, validate);
    NextTurn(v, placed, round, k);
    TakenShrinks(s, k, placed[k].site, After(placed[k].start, round), After(placed[k].start, round + 1), Visit(s, k, validate));
  }

  // ----- judgements

  /** In every state the latest judgement is about the current input and report: fitting goes on only
      over budget, and ends in acceptance only when the validator accepts that very state. */
  lemma {:induction false} JudgementIsCurrent(input: Json, targets: seq<Target>, work: nat, validate: Validator, round: nat, k: nat)
    requires k <= |targets|
    ensures JudgedNow(At(Begin(input, targets, work, validate), round, k, validate), validate)
    decreases round, k
  {
    var start := Begin(input, targets, work, validate);
    if k > 0 {
      JudgementIsCurrent(input, targets, work, validate, round, k - 1);
      var s := At(start, round, k - 1, validate);
      if s.status.Fitting? { VisitIsJudged(s, k - 1, validate); }
    } else if round > 0 {
      JudgementIsCurrent(input, targets, work, validate, round - 1, |targets|);
    }
  }

  lemma {:induction false} VisitIsJudged(s: State, k: nat, validate: Validator)
    requires k < |s.targets| && s.status.Fitting? && JudgedNow(s, validate)
    ensures JudgedNow(Visit(s, k, validate), validate)
  {}

  /** Before a fitting state every state was fitting, that is, over budget: acceptance is the first
      along the schedule. */
  lemma {:induction false} EarlierStatesFitting(start: State, validate: Validator, round: nat, k: nat, earlier: nat, j: nat)
    requires k <= |start.targets| && j <= |start.targets|
    requires earlier < round || (earlier == round && j <= k)
    requires At(start, round, k, validate).status.Fitting?
    ensures At(start, earlier, j, validate).status.Fitting?
    decreases round, k
  {
    if earlier == round && j == k {
    } else if k > 0 {
      EarlierStatesFitting(start, validate, round, k - 1, earlier, j);
    } else {
      EarlierStatesFitting(start, validate, round - 1, |start.targets|, earlier, j);
    }
  }

  /** Once every target is exhausted, nothing changes any more. */
  lemma {:induction false} ExhaustedIsFinal(start: State, validate: Validator, round: nat, k: nat, more: nat)
    requires k <= |start.targets| && more >= round
    requires var s := At(start, round, 0, validate); forall j | 0 <= j < |s.targets| :: s.targets[j].exhausted
    ensures At(start, more, k, validate) == At(start, round, 0, validate)
    decreases more, k
  {
    if k > 0 {
      ExhaustedIsFinal(start, validate, round, k - 1, more);
    } else if more > round {
      ExhaustedIsFinal(start, validate, round, |start.targets|, more - 1);
    }
  }
}
