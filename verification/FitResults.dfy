/** What a caller may rely on when the fitting run returns an input. */
module FitResults {
  import opened Text
  import opened Json
  import opened FitReduction
  import opened FitTargets
  import opened FitSchedule
  import opened Fitting

  /** The last turn of an accepted run left every target tracked. */
  lemma {:induction false} AcceptedIsTracked(v: Json, placed: seq<Placed>, work: nat, validate: Validator, round: nat, k: nat)
    requires AllOk(v, placed) && AllApart(placed) && k <= |placed|
    requires var start := Begin(v, TargetsOf(placed), work, validate);
      (k == 0 ==> round == 0) && (k > 0 ==> At(start, round, k - 1, validate).status.Fitting?)
      && At(start, round, k, validate).status.Accepted?
    ensures TracksAll(At(Begin(v, TargetsOf(placed), work, validate), round, k, validate), placed, round, k)
  {
    var start := Begin(v, TargetsOf(placed), work, validate);
    if k == 0 {
      BeginTracks(v, placed, work, validate);
    } else {
      TargetsAreIndependent(v, placed, work, validate, round, k - 1);
      VisitTracks(v, placed, At(start, round, k - 1, validate), round, k - 1, validate);
    }
  }

  /** A target as it is after its turns, with its value in the result. */
  predicate IsReducedTo(result: Json, p: Placed, turns: nat) {
    Follow(result, p.site) == Some(After(p.start, turns).value)
  }

  /** The targets after the given numbers of turns. */
  function TargetsAfter(placed: seq<Placed>, turns: seq<nat>): seq<Target>
    requires |turns| == |placed|
  {
    seq(|placed|, j requires 0 <= j < |placed| => After(placed[j].start, turns[j]).target)
  }

  /** Two targets differ by at most one turn, earlier targets first. */
  predicate EqualTurns(turns: seq<nat>) {
    forall i, j | 0 <= i < j < |turns| :: turns[j] <= turns[i] <= turns[j] + 1
  }

  /** A returned input is one that the validator accepts. Every target in it is what equal turns make of
      it, the report lists exactly the changed targets, and all other values are preserved. */
  lemma {:induction false} FittedInput(r: Outcome, v: Json, rules: seq<Rule>, work: nat, validate: Validator)
      returns (turns: seq<nat>, spent: nat)
    requires WordRules(rules) && Expandable(v, rules) && r.Fitted?
    requires Completes(r, v, rules, Begin(v, TargetsOf(AllPlaced(v, rules)), work, validate), validate)
    ensures validate(r.input, r.report, spent).0 == Accepts
    ensures |turns| == |AllPlaced(v, rules)| && EqualTurns(turns)
    ensures forall j | 0 <= j < |turns| :: IsReducedTo(r.input, AllPlaced(v, rules)[j], turns[j])
    ensures r.report == Changed(TargetsAfter(AllPlaced(v, rules), turns))
    ensures forall loc: Location | OutsideTargets(AllPlaced(v, rules), loc) ::
      Preserved(v, r.input, AllPlaced(v, rules), loc)
  {
    var placed := AllPlaced(v, rules);
    var start := Begin(v, TargetsOf(placed), work, validate);
    TargetsAreApart(v, rules);
    var round, k :| EndsAt(r, v, rules, start, validate, round, k);
    turns, spent := AcceptedInput(r, v, placed, work, validate, round, k);
  }

  lemma {:induction false} AcceptedInput(r: Outcome, v: Json, placed: seq<Placed>, work: nat, validate: Validator, round: nat, k: nat)
      returns (turns: seq<nat>, spent: nat)
    requires AllOk(v, placed) && AllApart(placed) && k <= |placed|
    requires var start := Begin(v, TargetsOf(placed), work, validate);
      (k == 0 ==> round == 0) && (k > 0 ==> At(start, round, k - 1, validate).status.Fitting?)
      && At(start, round, k, validate).status.Accepted?
      && r == Fitted(At(start, round, k, validate).input, At(start, round, k, validate).report)
    ensures validate(r.input, r.report, spent).0 == Accepts
    ensures |turns| == |placed| && EqualTurns(turns)
    ensures forall j | 0 <= j < |turns| :: IsReducedTo(r.input, placed[j], turns[j])
    ensures r.report == Changed(TargetsAfter(placed, turns))
    ensures forall loc: Location | OutsideTargets(placed, loc) :: Preserved(v, r.input, placed, loc)
  {
    var s := At(Begin(v, TargetsOf(placed), work, validate), round, k, validate);
    AcceptedIsTracked(v, placed, work, validate, round, k);
    JudgementIsCurrent(v, TargetsOf(placed), work, validate, round, k);
    ReportIsExact(v, placed, work, validate, round, k);
    spent := s.judged;
    turns := seq(|placed|, j requires 0 <= j < |placed| => TurnsOf(j, round, k));
    TrackedTurns(s, placed, round, k, turns);
    forall loc: Location | OutsideTargets(placed, loc) ensures Preserved(v, r.input, placed, loc) {
      UnselectedValuesStay(v, placed, work, validate, round, k, loc);
    }
  }

  lemma {:induction false} TrackedTurns(s: State, placed: seq<Placed>, round: nat, k: nat, turns: seq<nat>)
    requires TracksAll(s, placed, round, k) && |turns| == |placed|
    requires forall j | 0 <= j < |placed| :: turns[j] == TurnsOf(j, round, k)
    ensures s.targets == TargetsAfter(placed, turns)
    ensures forall j | 0 <= j < |placed| :: IsReducedTo(s.input, placed[j], turns[j])
  {
    forall j | 0 <= j < |placed|
      ensures IsReducedTo(s.input, placed[j], turns[j]) && s.targets[j] == TargetsAfter(placed, turns)[j]
    {
      assert Tracked(s, j, placed[j], TurnsOf(j, round, k));
    }
  }

  /** Every state that the run passed before was over budget. */
  lemma {:induction false} FirstAccepted(r: Outcome, v: Json, rules: seq<Rule>, work: nat, validate: Validator, earlier: nat, j: nat)
      returns (round: nat, k: nat)
    requires r.Fitted? && j <= |AllPlaced(v, rules)|
    requires Completes(r, v, rules, Begin(v, TargetsOf(AllPlaced(v, rules)), work, validate), validate)
    ensures var start := Begin(v, TargetsOf(AllPlaced(v, rules)), work, validate);
      EndsAt(r, v, rules, start, validate, round, k)
      && (earlier < round || (earlier == round && j < k) ==>
            var s := At(start, earlier, j, validate); validate(s.input, s.report, s.judged).0 == OverBudget)
  {
    var placed := AllPlaced(v, rules);
    var start := Begin(v, TargetsOf(placed), work, validate);
    round, k :| EndsAt(r, v, rules, start, validate, round, k);
    if earlier < round || (earlier == round && j < k) {
      EarlierStatesFitting(start, validate, round, k - 1, earlier, j);
      JudgementIsCurrent(v, TargetsOf(placed), work, validate, earlier, j);
    }
  }
}
