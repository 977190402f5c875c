/**
 Properties that relate a state of the event selector to the whole run that led to it: one
 candidate per identity, no return to a window, revisions and tombstones, and agreement with a
 ledger that is computed from the published changes alone.
 */
module SelectionHistory {
  import opened Text
  import opened KeyOrder
  import opened Selection
  import opened SelectionRuns

  predicate Terminal(s: State, k: Key) {
    k in s.seen && s.seen[k].terminalSeen
  }

  lemma {:induction false} RunSplits(a: Activation, s: State, first: seq<Change>, second: seq<Change>)
    ensures Run(a, s, first + second) == Run(a, Run(a, s, first), second)
    decreases |first|
  {
    if first == [] {
      assert first + second == second;
    } else {
      assert (first + second)[1..] == first[1..] + second;
      RunSplits(a, Step(a, s, first[0]).0, first[1..], second);
    }
  }

  // ----- one step

  lemma {:induction false} StepKeepsTerminal(a: Activation, s: State, c: Change, k: Key)
    requires Terminal(s, k)
    ensures Terminal(Step(a, s, c).0, k)
  {
    if c.Publish? { PublishKeepsTerminal(a, s, c.id, c.revision, c.observation, k); }
  }

  /** The publication is a correction of an identity that is already terminal. */
  predicate Corrects(a: Activation, s: State, id: string, revision: nat, o: Observation) {
    var k := Key(o.branch, id);
    AcceptsUpdate(s, o.branch, id, revision, o.version) && (o.kind.Other? || !IsHistorical(a, o))
    && Terminal(s, k) && a.family.Messages?
  }

  lemma {:induction false} CorrectionCase(a: Activation, s: State, id: string, revision: nat, o: Observation)
    requires Corrects(a, s, id, revision, o)
    ensures Key(o.branch, id) in s.seen && Key(o.branch, id) in Record(s, id, revision, o).seen
    ensures ApplyPublished(a, s, id, revision, o) == ApplyCorrection(a, Record(s, id, revision, o), id, s.seen[Key(o.branch, id)], o)
  {}

  lemma {:induction false} CorrectionKeepsRecord(a: Activation, s: State, id: string, previous: Seen, o: Observation, k: Key)
    requires k in s.seen && Key(o.branch, id) in s.seen && a.family.Messages?
    ensures var t := ApplyCorrection(a, s, id, previous, o).0;
      k in t.seen && t.seen[k].revision == s.seen[k].revision && t.seen[k].terminalSeen == s.seen[k].terminalSeen
  {}

  lemma {:induction false} PublishKeepsTerminal(a: Activation, s: State, id: string, revision: nat, o: Observation, k: Key)
    requires Terminal(s, k)
    ensures Terminal(ApplyPublished(a, s, id, revision, o).0, k)
  {
    var recorded := Record(s, id, revision, o);
    if Corrects(a, s, id, revision, o) {
      CorrectionCase(a, s, id, revision, o);
      CorrectionKeepsRecord(a, recorded, id, s.seen[Key(o.branch, id)], o, k);
    } else {
      TriggerKeepsRecord(a, s, id, revision, o, k);
    }
  }

  lemma {:induction false} TriggerKeepsRecord(a: Activation, s: State, id: string, revision: nat, o: Observation, k: Key)
    requires k in s.seen && !Corrects(a, s, id, revision, o)
    ensures var t := ApplyPublished(a, s, id, revision, o).0;
      k in t.seen && t.seen[k].revision >= s.seen[k].revision && (s.seen[k].terminalSeen ==> t.seen[k].terminalSeen)
  {
    ApplyRecords(a, Record(s, id, revision, o), o, k);
  }

  /** A candidate comes only from the change that makes its identity terminal. */
  lemma {:induction false} ChosenMakesTerminal(a: Activation, s: State, c: Change)
    requires Step(a, s, c).1.Chosen?
    ensures c.Publish? && Step(a, s, c).1.candidate.branch == c.OnBranch()
    ensures !Terminal(s, Key(c.OnBranch(), c.id)) && Terminal(Step(a, s, c).0, Key(c.OnBranch(), c.id))
  {
  }

  /** A change adds at most its own identity to a window, and only while that is not terminal. */
  lemma {:induction false} WindowGrowth(a: Activation, s: State, c: Change, b: Branch, id: string)
    requires c.WellFormed() && InWindow(Step(a, s, c).0, b, id) && !InWindow(s, b, id)
    ensures c.Names(Key(b, id)) && !Terminal(s, Key(b, id))
  {
    var t := Step(a, s, c).0;
    if b != c.OnBranch() {
      StepKeepsOtherBranches(a, s, c, b);
      assert false;
    } else if c.Publish? {
      PublishGrowth(a, s, c.id, c.revision, c.observation, id);
    } else if c.Remove? {
      WithoutSpec(Results(s, b), c.id);
    }
  }

  lemma {:induction false} PublishGrowth(a: Activation, s: State, id: string, revision: nat, o: Observation, other: string)
    requires Publish(id, revision, o).WellFormed()
    requires InWindow(ApplyPublished(a, s, id, revision, o).0, o.branch, other) && !InWindow(s, o.branch, other)
    ensures other == id && !Terminal(s, Key(o.branch, id))
  {
    var b := o.branch;
    var k := Key(b, id);
    var t := ApplyPublished(a, s, id, revision, o).0;
    if (k !in s.seen && b in s.branches && s.branches[b].identityLimitReached)
       || !AcceptsUpdate(s, b, id, revision, o.version)
       || (k !in s.seen && |BranchKeys(s.seen, b)| >= MAX_SEEN_RESULTS_PER_BRANCH) {
      assert false;
    } else {
      var recorded := Record(s, id, revision, o);
      assert Results(recorded, b) == Results(s, b);
      if !o.kind.Other? && IsHistorical(a, o) {
        DiscardShrinks(recorded, b, id, other);
        assert false;
      } else if !Terminal(s, k) {
        if !o.kind.Other? { ApplyGrowth(a, recorded, o, other); }
      } else if !a.family.Messages? {
        assert false;
      } else {
        CorrectionShrinks(a, recorded, id, s.seen[k], o, other);
        assert false;
      }
    }
  }

  lemma {:induction false} DiscardShrinks(s: State, b: Branch, id: string, other: string)
    requires InWindow(Discard(s, b, id), b, other)
    ensures InWindow(s, b, other)
  {
    WithoutSpec(Results(s, b), id);
    var now := Results(Discard(s, b, id), b);
    var i :| 0 <= i < |now| && now[i].message.id == other;
    assert now[i] in now;
  }

  ghost predicate IsTail(tail: seq<SelectedMessage>, whole: seq<SelectedMessage>) {
    |tail| <= |whole| && forall i | 0 <= i < |tail| :: tail[i] == whole[|whole| - |tail| + i]
  }

  lemma {:induction false} PushTail(a: Activation, s: State, o: Observation)
    requires o.kind.HasMessage()
    ensures IsTail(Results(Push(a, s, o), o.branch), Added(s, o))
  {
    var added := Added(s, o);
    var excess := if |added| > a.Size() then |added| - a.Size() else 0;
    assert Results(Push(a, s, o), o.branch) == added[excess..];
  }

  /** A new trigger leaves its window alone or appends to it and drops the oldest entries. */
  lemma {:induction false} ApplyWindow(a: Activation, s: State, o: Observation)
    ensures var now := Results(Apply(a, s, o).0, o.branch);
      now == Results(s, o.branch) || (o.kind.HasMessage() && IsTail(now, Added(s, o)))
  {
    var cleared := WithDiagnostic(s, o.branch, None);
    var t := Apply(a, s, o).0;
    if o.kind.HasMessage() {
      PushTail(a, cleared, o);
      assert Added(cleared, o) == Added(s, o);
      assert t == s || t == cleared || t == Push(a, cleared, o)
             || (EventFilters(a, o).Reject? && t == WithDiagnostic(s, o.branch, Some(EventFilters(a, o).diagnostic)));
    }
  }

  lemma {:induction false} ApplyGrowth(a: Activation, s: State, o: Observation, other: string)
    requires InWindow(Apply(a, s, o).0, o.branch, other) && !InWindow(s, o.branch, other)
    ensures o.kind.HasMessage() && other == o.kind.message.id
  {
    ApplyWindow(a, s, o);
    var now := Results(Apply(a, s, o).0, o.branch);
    TailGrowth(Results(s, o.branch), now, Added(s, o), other);
  }

  lemma {:induction false} TailGrowth(before: seq<SelectedMessage>, now: seq<SelectedMessage>, added: seq<SelectedMessage>, other: string)
    requires |added| == |before| + 1 && added[..|before|] == before && IsTail(now, added)
    requires HasId(now, other) && !HasId(before, other)
    ensures added[|before|].message.id == other
  {
    var i :| 0 <= i < |now| && now[i].message.id == other;
    var j := |added| - |now| + i;
    assert now[i] == added[j];
    assert forall n | 0 <= n < |before| :: before[n] == added[..|before|][n] == added[n];
  }

  lemma {:induction false} CorrectionShrinks(a: Activation, s: State, id: string, previous: Seen, o: Observation, other: string)
    requires Key(o.branch, id) in s.seen && a.family.Messages?
    requires o.kind.HasMessage() ==> o.kind.message.id == id
    requires InWindow(ApplyCorrection(a, s, id, previous, o).0, o.branch, other)
    ensures InWindow(s, o.branch, other)
  {
    var b := o.branch;
    var now := Results(ApplyCorrection(a, s, id, previous, o).0, b);
    CorrectedResults(a, s, id, previous, o);
    var i :| 0 <= i < |now| && now[i].message.id == other;
    assert now[i] in now;
    WithoutSpec(Results(s, b), id);
    if o.kind.HasMessage() { ReplaceIds(Results(s, b), o, id); }
  }

  /** The four windows that a correction can leave. */
  lemma {:induction false} CorrectedResults(a: Activation, s: State, id: string, previous: Seen, o: Observation)
    requires Key(o.branch, id) in s.seen && a.family.Messages?
    ensures var before, now := Results(s, o.branch), Results(ApplyCorrection(a, s, id, previous, o).0, o.branch);
      now == before || now == Without(before, id) || now == [] || (o.kind.HasMessage() && now == Replace(before, o, id))
  {}

  lemma {:induction false} ReplaceIds(results: seq<SelectedMessage>, o: Observation, id: string)
    requires o.kind.HasMessage() && o.kind.message.id == id
    ensures |Replace(results, o, id)| == |results|
    ensures forall i | 0 <= i < |results| :: Replace(results, o, id)[i].message.id == results[i].message.id
  {
    if results != [] && results[0].message.id != id {
      ReplaceIds(results[1..], o, id);
    }
  }

  /** What a new trigger does to the other records: it can only retire what it evicts. */
  lemma {:induction false} ApplyRecords(a: Activation, s: State, o: Observation, k: Key)
    requires k in s.seen
    ensures var t := Apply(a, s, o).0;
      k in t.seen
      && (t.seen[k] == s.seen[k]
          || (t.seen[k] == s.seen[k].(membership := Retired) && k.major == o.branch
              && ((o.kind.HasMessage() && k.minor == o.kind.message.id) || InWindow(s, o.branch, k.minor))))
  {
    if o.kind.HasMessage() { PushRecords(a, s, WithDiagnostic(s, o.branch, None), o, k); }
  }

  lemma {:induction false} PushRecords(a: Activation, s: State, cleared: State, o: Observation, k: Key)
    requires o.kind.HasMessage() && k in s.seen && cleared.seen == s.seen && Results(cleared, o.branch) == Results(s, o.branch)
    ensures var t := Push(a, cleared, o);
      k in t.seen
      && (t.seen[k] == s.seen[k]
          || (t.seen[k] == s.seen[k].(membership := Retired) && k.major == o.branch
              && (k.minor == o.kind.message.id || InWindow(s, o.branch, k.minor))))
  {
    var before, added := Results(s, o.branch), Added(cleared, o);
    var excess := if |added| > a.Size() then |added| - a.Size() else 0;
    if k.minor in Ids(added[..excess]) {
      var r :| r in added[..excess] && r.message.id == k.minor;
      var i :| 0 <= i < |added| && added[i] == r;
      assert i < |before| ==> before[i] == r;
    }
  }

  lemma {:induction false} StepKeepsRevision(a: Activation, s: State, c: Change, k: Key)
    requires k in s.seen
    ensures k in Step(a, s, c).0.seen && s.seen[k].revision <= Step(a, s, c).0.seen[k].revision
  {
    if c.Publish? { PublishKeepsRevision(a, s, c.id, c.revision, c.observation, k); }
  }

  lemma {:induction false} PublishKeepsRevision(a: Activation, s: State, id: string, revision: nat, o: Observation, k: Key)
    requires k in s.seen
    ensures var t := ApplyPublished(a, s, id, revision, o).0; k in t.seen && s.seen[k].revision <= t.seen[k].revision
  {
    if Corrects(a, s, id, revision, o) {
      CorrectionCase(a, s, id, revision, o);
      CorrectionKeepsRecord(a, Record(s, id, revision, o), id, s.seen[Key(o.branch, id)], o, k);
    } else {
      TriggerKeepsRecord(a, s, id, revision, o, k);
    }
  }

  /** A tombstone is not touched by a reset, by a restore, or by any change of its identity
      whose revision is not above its own. */
  lemma {:induction false} TombstoneStep(a: Activation, s: State, c: Change, k: Key)
    requires Inv(a, s) && c.WellFormed()
    requires k in s.seen && s.seen[k].membership.Removed?
    requires c.Names(k) ==> c.revision <= s.seen[k].revision
    ensures k in Step(a, s, c).0.seen && Step(a, s, c).0.seen[k] == s.seen[k]
    ensures c.Names(k) ==> Step(a, s, c) == (s, Updated)
  {
    if c.Publish? && !c.Names(k) {
      if k.major != c.OnBranch() {
        StepKeepsOtherBranches(a, s, c, k.major);
      } else {
        var recorded := Record(s, c.id, c.revision, c.observation);
        ApplyRecords(a, recorded, c.observation, k);
        assert BranchOk(a, s, k.major, {});
        NotSelectedNotInWindow(a, s, k.major, k.minor);
        assert Results(recorded, k.major) == Results(s, k.major);
      }
    }
  }

  /** The candidate holds the whole window of its branch in `t`: between the authored minimum
      and the window size, ending with its trigger, each message with the version in its record. */
  ghost predicate FreshIn(a: Activation, t: State, o: Observation, chosen: Candidate) {
    var window := Results(t, o.branch);
    chosen.branch == o.branch && chosen.trigger == o.position && o.kind.HasMessage()
    && a.Config().minimum <= |chosen.messages| == |window| <= a.Size()
    && (forall i | 0 <= i < |window| :: chosen.messages[i] == window[i].message)
    && |window| > 0 && chosen.messages[|window| - 1] == o.kind.message
    && (forall r | r in window :: MessageVersion(r.message.id, r.version) in chosen.dependencies)
    && (forall id, version | MessageVersion(id, version) in chosen.dependencies ::
          InWindow(t, o.branch, id)
          && Key(o.branch, id) in t.seen && t.seen[Key(o.branch, id)].version == version)
  }

  lemma {:induction false} CandidateIsFresh(a: Activation, s: State, id: string, revision: nat, o: Observation)
    requires a.Valid() && Inv(a, s) && Publish(id, revision, o).WellFormed()
    requires o.kind.HasMessage() && ApplyPublished(a, s, id, revision, o).1.Chosen?
    requires forall id, version :: MessageVersion(id, version) !in o.dependencies
    ensures FreshIn(a, ApplyPublished(a, s, id, revision, o).0, o, ApplyPublished(a, s, id, revision, o).1.candidate)
  {
    PublishChosen(a, s, id, revision, o);
    assert BranchOk(a, s, o.branch, {});
    PublishOk(a, s, id, revision, o);
    FrozenIsFresh(a, ApplyPublished(a, s, id, revision, o).0, o);
  }

  lemma {:induction false} FrozenIsFresh(a: Activation, t: State, o: Observation)
    requires BranchOk(a, t, o.branch, {}) && o.kind.HasMessage()
    requires a.Valid() && a.Config().minimum <= |Results(t, o.branch)|
    requires Results(t, o.branch)[|Results(t, o.branch)| - 1].message == o.kind.message
    requires forall id, version :: MessageVersion(id, version) !in o.dependencies
    ensures FreshIn(a, t, o, Freeze(o, Results(t, o.branch)))
  {
    var window := Results(t, o.branch);
    var chosen := Freeze(o, window);
    forall id, version | MessageVersion(id, version) in chosen.dependencies
      ensures InWindow(t, o.branch, id)
              && Key(o.branch, id) in t.seen && t.seen[Key(o.branch, id)].version == version
    {
      assert MessageVersion(id, version) in WindowDependencies(window);
      WindowVersion(window, id, version);
      var i :| 0 <= i < |window| && window[i].message.id == id && window[i].version == version;
      assert EntryOk(t, o.branch, window[i]);
    }
  }

  lemma {:induction false} WindowVersion(window: seq<SelectedMessage>, id: string, version: Version)
    requires MessageVersion(id, version) in WindowDependencies(window)
    ensures exists i :: 0 <= i < |window| && window[i].message.id == id && window[i].version == version
  {
    var r :| r in window && r.message.id == id && r.version == version;
    var i :| 0 <= i < |window| && window[i] == r;
    assert window[i].message.id == id && window[i].version == version;
  }

  lemma {:induction false} PublishChosen(a: Activation, s: State, id: string, revision: nat, o: Observation)
    requires a.Valid() && o.kind.HasMessage() && ApplyPublished(a, s, id, revision, o).1.Chosen?
    ensures var (t, outcome) := ApplyPublished(a, s, id, revision, o);
      var window := Results(t, o.branch);
      outcome.candidate == Freeze(o, window) && a.Config().minimum <= |window|
      && window[|window| - 1] == SelectedMessage(o.version, o.nativeOrder, o.kind.message, o.complete)
  {
    var recorded := Record(s, id, revision, o);
    PublishApplies(a, s, id, revision, o);
    ChosenShape(a, recorded, o);
  }

  /** A candidate that a publication gives is the one that the trigger gives. */
  lemma {:induction false} PublishApplies(a: Activation, s: State, id: string, revision: nat, o: Observation)
    requires ApplyPublished(a, s, id, revision, o).1.Chosen?
    ensures var applied := Apply(a, Record(s, id, revision, o), o);
      ApplyPublished(a, s, id, revision, o).1 == applied.1
      && Results(ApplyPublished(a, s, id, revision, o).0, o.branch) == Results(applied.0, o.branch)
  {}

  lemma {:induction false} ChosenShape(a: Activation, s: State, o: Observation)
    requires a.Valid() && o.kind.HasMessage() && Apply(a, s, o).1.Chosen?
    ensures var (t, outcome) := Apply(a, s, o);
      var window := Results(t, o.branch);
      outcome.candidate == Freeze(o, window) && a.Config().minimum <= |window|
      && window[|window| - 1] == SelectedMessage(o.version, o.nativeOrder, o.kind.message, o.complete)
  {
    var cleared := WithDiagnostic(s, o.branch, None);
    PushTail(a, cleared, o);
  }

  // ----- runs

  lemma {:induction false} RunThrough(a: Activation, s: State, changes: seq<Change>, i: nat, j: nat)
    requires i < j <= |changes|
    ensures Run(a, s, changes[..j])
         == Run(a, Step(a, Run(a, s, changes[..i]), changes[i]).0, changes[i + 1..j])
  {
    assert changes[..j] == changes[..i] + changes[i..j];
    RunSplits(a, s, changes[..i], changes[i..j]);
    assert changes[i..j][0] == changes[i] && changes[i..j][1..] == changes[i + 1..j];
  }

  /** Two candidates of one run never have the same branch and identity. */
  lemma {:induction false} OneCandidatePerIdentity(a: Activation, s: State, changes: seq<Change>, i: nat, j: nat)
    requires i < j < |changes|
    requires Step(a, Run(a, s, changes[..i]), changes[i]).1.Chosen?
    requires Step(a, Run(a, s, changes[..j]), changes[j]).1.Chosen?
    ensures changes[i].Publish? && changes[j].Publish?
    ensures Key(changes[i].OnBranch(), changes[i].id) != Key(changes[j].OnBranch(), changes[j].id)
  {
    ChosenMakesTerminal(a, Run(a, s, changes[..i]), changes[i]);
    ChosenMakesTerminal(a, Run(a, s, changes[..j]), changes[j]);
    RunThrough(a, s, changes, i, j);
    RunKeepsTerminal(a, Step(a, Run(a, s, changes[..i]), changes[i]).0, changes[i + 1..j],
                     Key(changes[i].OnBranch(), changes[i].id));
  }

  lemma {:induction false} RunKeepsTerminal(a: Activation, s: State, changes: seq<Change>, k: Key)
    requires Terminal(s, k)
    ensures Terminal(Run(a, s, changes), k)
    decreases |changes|
  {
    if changes != [] {
      StepKeepsTerminal(a, s, changes[0], k);
      RunKeepsTerminal(a, Step(a, s, changes[0]).0, changes[1..], k);
    }
  }

  /** A terminal identity outside its window stays outside, whatever follows. */
  lemma {:induction false} NeverReenters(a: Activation, s: State, changes: seq<Change>, k: Key)
    requires WellFormed(changes)
    requires Terminal(s, k) && !InWindow(s, k.major, k.minor)
    ensures !InWindow(Run(a, s, changes), k.major, k.minor)
    decreases |changes|
  {
    if changes != [] {
      StepKeepsTerminal(a, s, changes[0], k);
      var t := Step(a, s, changes[0]).0;
      if InWindow(t, k.major, k.minor) { WindowGrowth(a, s, changes[0], k.major, k.minor); }
      NeverReenters(a, t, changes[1..], k);
    }
  }

  lemma {:induction false} RevisionsNeverDecrease(a: Activation, s: State, changes: seq<Change>, k: Key)
    requires k in s.seen
    ensures k in Run(a, s, changes).seen && s.seen[k].revision <= Run(a, s, changes).seen[k].revision
    decreases |changes|
  {
    if changes != [] {
      StepKeepsRevision(a, s, changes[0], k);
      RevisionsNeverDecrease(a, Step(a, s, changes[0]).0, changes[1..], k);
    }
  }

  /** A tombstone survives every run in which no change of its identity has a higher revision. */
  lemma {:induction false} TombstoneAbsorbs(a: Activation, s: State, changes: seq<Change>, k: Key)
    requires a.Valid() && Inv(a, s) && WellFormed(changes)
    requires k in s.seen && s.seen[k].membership.Removed?
    requires forall c | c in changes && c.Names(k) :: c.revision <= s.seen[k].revision
    ensures k in Run(a, s, changes).seen && Run(a, s, changes).seen[k] == s.seen[k]
    decreases |changes|
  {
    if changes != [] {
      TombstoneStep(a, s, changes[0], k);
      StepOk(a, s, changes[0]);
      TombstoneAbsorbs(a, Step(a, s, changes[0]).0, changes[1..], k);
    }
  }

  // ----- one branch depends on its own changes only

  function OnlyBranch(changes: seq<Change>, b: Branch): seq<Change> {
    if changes == [] then []
    else (if changes[0].OnBranch() == b then [changes[0]] else []) + OnlyBranch(changes[1..], b)
  }

  lemma {:induction false} StepIsLocal(a: Activation, s: State, t: State, c: Change)
    requires SameBranch(s, t, c.OnBranch())
    ensures SameBranch(Step(a, s, c).0, Step(a, t, c).0, c.OnBranch())
    ensures Step(a, s, c).1 == Step(a, t, c).1
  {
    SameBranchKeys(s, t, c.OnBranch());
    if c.Publish? {
      PublishIsLocal(a, s, t, c.id, c.revision, c.observation);
    }
  }

  lemma {:induction false} PublishIsLocal(a: Activation, s: State, t: State, id: string, revision: nat, o: Observation)
    requires SameBranch(s, t, o.branch)
    ensures SameBranch(ApplyPublished(a, s, id, revision, o).0, ApplyPublished(a, t, id, revision, o).0, o.branch)
    ensures ApplyPublished(a, s, id, revision, o).1 == ApplyPublished(a, t, id, revision, o).1
  {
    SameBranchKeys(s, t, o.branch);
    var k := Key(o.branch, id);
    assert k in s.seen <==> k in t.seen;
    assert AcceptsUpdate(s, o.branch, id, revision, o.version) == AcceptsUpdate(t, o.branch, id, revision, o.version);
    var rs, rt := Record(s, id, revision, o), Record(t, id, revision, o);
    assert SameBranch(rs, rt, o.branch);
    if Corrects(a, s, id, revision, o) {
      CorrectionCase(a, s, id, revision, o);
      CorrectionCase(a, t, id, revision, o);
      CorrectionIsLocal(a, rs, rt, id, s.seen[k], o);
    } else {
      TriggerIsLocal(a, s, t, id, revision, o);
    }
  }

  /** The publication is the first terminal value of an identity that may be selected. */
  predicate Triggers(a: Activation, s: State, id: string, revision: nat, o: Observation) {
    var k := Key(o.branch, id);
    AcceptsUpdate(s, o.branch, id, revision, o.version) && !o.kind.Other? && !IsHistorical(a, o) && !Terminal(s, k)
    && (k !in s.seen ==>
          !(o.branch in s.branches && s.branches[o.branch].identityLimitReached)
          && |BranchKeys(s.seen, o.branch)| < MAX_SEEN_RESULTS_PER_BRANCH)
  }

  lemma {:induction false} TriggerCase(a: Activation, s: State, id: string, revision: nat, o: Observation)
    requires Triggers(a, s, id, revision, o)
    ensures var applied := Apply(a, Record(s, id, revision, o), o);
      var k := Key(o.branch, id);
      k in applied.0.seen
      && ApplyPublished(a, s, id, revision, o)
         == (SetMembership(applied.0, k, if applied.1.Chosen? || applied.1.Updated? then Selected else Excluded), applied.1)
  {
    ApplyKeepsKeys(a, Record(s, id, revision, o), o);
  }

  lemma {:induction false} TriggerIsLocal(a: Activation, s: State, t: State, id: string, revision: nat, o: Observation)
    requires SameBranch(s, t, o.branch) && BranchKeys(s.seen, o.branch) == BranchKeys(t.seen, o.branch)
    requires !Corrects(a, s, id, revision, o)
    requires AcceptsUpdate(s, o.branch, id, revision, o.version) == AcceptsUpdate(t, o.branch, id, revision, o.version)
    ensures SameBranch(ApplyPublished(a, s, id, revision, o).0, ApplyPublished(a, t, id, revision, o).0, o.branch)
    ensures ApplyPublished(a, s, id, revision, o).1 == ApplyPublished(a, t, id, revision, o).1
  {
    assert Key(o.branch, id) in s.seen <==> Key(o.branch, id) in t.seen;
    if Triggers(a, s, id, revision, o) {
      var rs, rt := Record(s, id, revision, o), Record(t, id, revision, o);
      assert SameBranch(rs, rt, o.branch);
      ApplyIsLocal(a, rs, rt, o);
      TriggerCase(a, s, id, revision, o);
      TriggerCase(a, t, id, revision, o);
    } else {
      OtherwiseIsLocal(a, s, t, id, revision, o);
    }
  }

  lemma {:induction false} OtherwiseIsLocal(a: Activation, s: State, t: State, id: string, revision: nat, o: Observation)
    requires SameBranch(s, t, o.branch) && BranchKeys(s.seen, o.branch) == BranchKeys(t.seen, o.branch)
    requires !Corrects(a, s, id, revision, o) && !Triggers(a, s, id, revision, o)
    requires AcceptsUpdate(s, o.branch, id, revision, o.version) == AcceptsUpdate(t, o.branch, id, revision, o.version)
    ensures SameBranch(ApplyPublished(a, s, id, revision, o).0, ApplyPublished(a, t, id, revision, o).0, o.branch)
    ensures ApplyPublished(a, s, id, revision, o).1 == ApplyPublished(a, t, id, revision, o).1
  {
    assert Key(o.branch, id) in s.seen <==> Key(o.branch, id) in t.seen;
    OtherwiseIs(a, s, id, revision, o);
    OtherwiseIs(a, t, id, revision, o);
  }

  /** Every other publication is ignored, marks the identity limit, or only changes the record and the
      window entry of its own identity. */
  lemma {:induction false} OtherwiseIs(a: Activation, s: State, id: string, revision: nat, o: Observation)
    requires !Corrects(a, s, id, revision, o) && !Triggers(a, s, id, revision, o)
    ensures var k := Key(o.branch, id);
      var recorded := Record(s, id, revision, o);
      ApplyPublished(a, s, id, revision, o)
      == if (k !in s.seen && o.branch in s.branches && s.branches[o.branch].identityLimitReached)
            || !AcceptsUpdate(s, o.branch, id, revision, o.version) then (s, Updated)
         else if k !in s.seen && |BranchKeys(s.seen, o.branch)| >= MAX_SEEN_RESULTS_PER_BRANCH then
           (MarkIdentityLimit(s, o.branch), Updated)
         else if !o.kind.Other? && IsHistorical(a, o) then
           (SetMembership(Discard(recorded, o.branch, id), k, Historical), Updated)
         else if Terminal(s, k) then (SetMembership(recorded, k, Retired), Updated)
         else (recorded, Updated)
  {}

  lemma {:induction false} CorrectionIsLocal(a: Activation, s: State, t: State, id: string, previous: Seen, o: Observation)
    requires SameBranch(s, t, o.branch) && a.family.Messages?
    requires Key(o.branch, id) in s.seen && Key(o.branch, id) in t.seen
    ensures SameBranch(ApplyCorrection(a, s, id, previous, o).0, ApplyCorrection(a, t, id, previous, o).0, o.branch)
    ensures ApplyCorrection(a, s, id, previous, o).1 == ApplyCorrection(a, t, id, previous, o).1
  {
    var b, k := o.branch, Key(o.branch, id);
    var verdict := EventFilters(a, o);
    var diagnostic := if verdict.Reject? then Some(verdict.diagnostic) else None;
    var ns, nt := WithDiagnostic(s, b, diagnostic), WithDiagnostic(t, b, diagnostic);
    assert SameBranch(ns, nt, b);
    if previous.membership.Historical? || previous.membership.Retired? || previous.membership.Removed? {
    } else if !(verdict.Match? && o.contextIsObject
                && a.condition(o, Entry(s.branches, b).coverageComplete) == Matched) {
      ExclusionIsLocal(ns, nt, b, id);
    } else if previous.membership.Unknown? && !InWindow(s, b, id) {
      GapIsLocal(ns, nt, b, id);
    } else if previous.nativeOrder != o.nativeOrder || !InWindow(s, b, id) {
      RetirementIsLocal(ns, nt, b, id);
    } else {
      ReplacementIsLocal(ns, nt, o, id);
    }
  }

  lemma {:induction false} ExclusionIsLocal(s: State, t: State, b: Branch, id: string)
    requires SameBranch(s, t, b) && Key(b, id) in s.seen && Key(b, id) in t.seen
    ensures SameBranch(SetMembership(Discard(s, b, id), Key(b, id), Excluded), SetMembership(Discard(t, b, id), Key(b, id), Excluded), b)
  {}

  lemma {:induction false} GapIsLocal(s: State, t: State, b: Branch, id: string)
    requires SameBranch(s, t, b) && Key(b, id) in s.seen && Key(b, id) in t.seen
    ensures SameBranch(MarkCoverageGap(SetMembership(s, Key(b, id), Retired), b), MarkCoverageGap(SetMembership(t, Key(b, id), Retired), b), b)
  {}

  lemma {:induction false} RetirementIsLocal(s: State, t: State, b: Branch, id: string)
    requires SameBranch(s, t, b) && Key(b, id) in s.seen && Key(b, id) in t.seen
    ensures SameBranch(SetMembership(WithCoverage(RetireWindow(s, b), b, false), Key(b, id), Retired),
                       SetMembership(WithCoverage(RetireWindow(t, b), b, false), Key(b, id), Retired), b)
  {
    assert SameBranch(RetireWindow(s, b), RetireWindow(t, b), b);
  }

  lemma {:induction false} ReplacementIsLocal(s: State, t: State, o: Observation, id: string)
    requires SameBranch(s, t, o.branch) && Key(o.branch, id) in s.seen && Key(o.branch, id) in t.seen && o.kind.HasMessage()
    ensures var b := o.branch;
      SameBranch(SetMembership(WithResults(s, b, Replace(Results(s, b), o, id)), Key(b, id), Selected),
                 SetMembership(WithResults(t, b, Replace(Results(t, b), o, id)), Key(b, id), Selected), b)
  {}

  lemma {:induction false} PushIsLocal(a: Activation, s: State, t: State, o: Observation)
    requires SameBranch(s, t, o.branch) && o.kind.HasMessage()
    ensures SameBranch(Push(a, s, o), Push(a, t, o), o.branch)
  {
  }

  lemma {:induction false} ApplyIsLocal(a: Activation, s: State, t: State, o: Observation)
    requires SameBranch(s, t, o.branch)
    ensures SameBranch(Apply(a, s, o).0, Apply(a, t, o).0, o.branch)
    ensures Apply(a, s, o).1 == Apply(a, t, o).1
  {
    var cs, ct := WithDiagnostic(s, o.branch, None), WithDiagnostic(t, o.branch, None);
    assert SameBranch(cs, ct, o.branch);
    if o.kind.HasMessage() {
      PushIsLocal(a, cs, ct, o);
      assert Results(Push(a, cs, o), o.branch) == Results(Push(a, ct, o), o.branch);
    }
  }

  /** After any run a branch is as if only its own changes had been applied. */
  lemma {:induction false} BranchesAreIndependent(a: Activation, s: State, t: State, changes: seq<Change>, b: Branch)
    requires SameBranch(s, t, b)
    ensures SameBranch(Run(a, s, changes), Run(a, t, OnlyBranch(changes, b)), b)
    decreases |changes|
  {
    if changes != [] {
      var c := changes[0];
      if c.OnBranch() == b {
        StepIsLocal(a, s, t, c);
        BranchesAreIndependent(a, Step(a, s, c).0, Step(a, t, c).0, changes[1..], b);
        assert OnlyBranch(changes, b)[1..] == OnlyBranch(changes[1..], b);
      } else {
        StepKeepsOtherBranches(a, s, c, b);
        assert SameBranch(Step(a, s, c).0, t, b);
        assert OnlyBranch(changes, b) == OnlyBranch(changes[1..], b);
        BranchesAreIndependent(a, Step(a, s, c).0, t, changes[1..], b);
      }
    }
  }
}
