/**
 Application of one page of source events: every event goes through the selector, and a candidate
 of the page is dropped when a later event of the same page invalidates it.
 */
module SourcePages {
  import opened Text
  import opened KeyOrder
  import opened Selection
  import opened SelectionRuns
  import opened SelectionHistory
  import opened SelectionLedger

  datatype Event =
    | Ignored(cursor: nat)
    | Observed(cursor: nat, evidence: Option<Version>, id: string, revision: nat, draft: Observation)
    | Removal(cursor: nat, id: string, revision: nat, branch: Branch)
    | CoverageGap(cursor: nat, branch: Branch)
    | UnsafeUpdate(cursor: nat, branch: Branch)
    | SegmentReset(cursor: nat, branch: Branch)
    | CoverageRestored(cursor: nat, branch: Branch)
  {
    /** The source adapter publishes a message under its own identity and never lists a message
        among the context dependencies. */
    predicate WellFormed() {
      Observed? ==>
        (draft.kind.HasMessage() ==> draft.kind.message.id == id)
        && forall d | d in draft.dependencies :: !d.MessageVersion?
    }
  }

  datatype Page = Page(events: seq<Event>, next: nat)

  /** Durable progress of one activation. */
  datatype Progress = Progress(publication: nat, position: nat, selection: State)

  datatype Invalidation =
    | Upsert(branch: Branch, id: string, version: Version, evidence: Option<Version>)
    | NativeUpsert(branch: Branch, id: string, version: Version)
    | RemovalOf(branch: Branch, id: string)
    | WholeBranch(branch: Branch)

  datatype Committed = Committed(cursor: nat, id: string, revision: nat, observation: Observation, windowInvalidated: bool)

  datatype Proposal = Proposal(candidate: Candidate, id: string)

  /** What one event does: the next selector state and position, and what it adds to the page. */
  datatype Effect = Effect(
    position: nat,
    selection: State,
    proposal: Option<Proposal>,
    invalidations: seq<Invalidation>,
    committed: Option<Committed>)

  function ObserveEvent(a: Activation, position: nat, s: State, e: Event): Effect
    requires e.Observed?
  {
    var b := e.draft.branch;
    if !AcceptsUpdate(s, b, e.id, e.revision, e.draft.version) then
      Effect(position, s, None,
             if e.evidence.Some? && IsNormalizedDuplicate(s, b, e.id, e.revision, e.draft.version)
             then [NativeUpsert(b, e.id, e.evidence.value)] else [],
             None)
    else
      var o := e.draft.(position := position + 1);
      var (t, outcome) := ApplyPublished(a, s, e.id, e.revision, o);
      Effect(position + 1, t,
             if outcome.Chosen? then Some(Proposal(outcome.candidate, e.id)) else None,
             [Upsert(b, e.id, o.version, e.evidence)]
               + if outcome.WindowInvalidated? then [WholeBranch(b)] else [],
             Some(Committed(e.cursor, e.id, e.revision, o, outcome.WindowInvalidated?)))
  }

  function ApplyEvent(a: Activation, position: nat, s: State, e: Event): Effect {
    match e
    case Ignored(_) => Effect(position, s, None, [], None)
    case Observed(_, _, _, _, _) => ObserveEvent(a, position, s, e)
    case Removal(_, id, revision, b) =>
      var (t, changed) := RemoveResult(s, b, id, revision);
      Effect(position, t, None, if changed then [RemovalOf(b, id)] else [], None)
    case CoverageGap(_, b) => Effect(position, MarkCoverageGap(s, b), None, [], None)
    case UnsafeUpdate(_, b) => Effect(position, Selection.ResetSegment(s, b), None, [WholeBranch(b)], None)
    case SegmentReset(_, b) => Effect(position, Selection.ResetSegment(s, b), None, [WholeBranch(b)], None)
    case CoverageRestored(_, b) => Effect(position, RestoreCoverage(s, b), None, [], None)
  }

  /** The effects of a list of events, in order. */
  function Effects(a: Activation, position: nat, s: State, events: seq<Event>): (effects: seq<Effect>)
    ensures |effects| == |events|
    decreases |events|
  {
    if events == [] then []
    else
      var first := ApplyEvent(a, position, s, events[0]);
      [first] + Effects(a, first.position, first.selection, events[1..])
  }

  function EndPosition(position: nat, effects: seq<Effect>): nat {
    if effects == [] then position else effects[|effects| - 1].position
  }

  function EndSelection(s: State, effects: seq<Effect>): State {
    if effects == [] then s else effects[|effects| - 1].selection
  }

  // ----- invalidation of candidates

  /** Whether a later change makes one dependency of a candidate stale. A candidate's own source
      evidence is compared with the projection version, any other with the native version. */
  predicate MakesStale(change: Invalidation, d: Dependency, candidateId: string) {
    match change
    case Upsert(_, id, version, evidence) =>
      (d.MessageVersion? && d.id == id && d.version != version)
      || (d.SourceEvidence? && d.id == id
          && if id == candidateId then d.version != version
             else evidence.Some? && d.version != evidence.value)
    case NativeUpsert(_, id, version) =>
      d.SourceEvidence? && d.id == id && id != candidateId && d.version != version
    case RemovalOf(_, id) => (d.MessageVersion? || d.SourceEvidence?) && d.id == id
    case WholeBranch(_) => false
  }

  predicate Hits(change: Invalidation, p: Proposal) {
    change.branch == p.candidate.branch
    && (change.WholeBranch? || exists d | d in p.candidate.dependencies :: MakesStale(change, d, p.id))
  }

  predicate HitBy(p: Proposal, later: seq<Effect>) {
    exists j :: 0 <= j < |later| && exists change | change in later[j].invalidations :: Hits(change, p)
  }

  /** The proposals of a page that no later event of the page invalidates. */
  function Survivors(effects: seq<Effect>): seq<Proposal> {
    if effects == [] then []
    else
      (if effects[0].proposal.Some? && !HitBy(effects[0].proposal.value, effects[1..])
       then [effects[0].proposal.value] else [])
      + Survivors(effects[1..])
  }

  function CommittedOf(effects: seq<Effect>): seq<Committed> {
    if effects == [] then []
    else (if effects[0].committed.Some? then [effects[0].committed.value] else []) + CommittedOf(effects[1..])
  }

  // ----- pages

  predicate CursorsAdvance(previous: nat, events: seq<Event>)
    decreases |events|
  {
    events == [] || (events[0].cursor > previous && CursorsAdvance(events[0].cursor, events[1..]))
  }

  function LastCursor(previous: nat, events: seq<Event>): nat {
    if events == [] then previous else events[|events| - 1].cursor
  }

  predicate ValidPage(p: Progress, page: Page) {
    CursorsAdvance(p.publication, page.events)
    && page.next >= LastCursor(p.publication, page.events)
    && (page.events != [] ==> page.next == LastCursor(p.publication, page.events))
  }

  function PageEffects(a: Activation, p: Progress, page: Page): seq<Effect> {
    Effects(a, p.position, p.selection, page.events)
  }

  function ApplyPage(a: Activation, p: Progress, page: Page): Progress {
    var effects := PageEffects(a, p, page);
    Progress(page.next, EndPosition(p.position, effects), EndSelection(p.selection, effects))
  }

  // ----- pages compose

  lemma {:induction false} EffectsSplit(a: Activation, position: nat, s: State, first: seq<Event>, second: seq<Event>)
    ensures var before := Effects(a, position, s, first);
      Effects(a, position, s, first + second)
      == before + Effects(a, EndPosition(position, before), EndSelection(s, before), second)
    decreases |first|
  {
    if first == [] {
      assert first + second == second;
    } else {
      var effect := ApplyEvent(a, position, s, first[0]);
      assert (first + second)[1..] == first[1..] + second;
      EffectsSplit(a, effect.position, effect.selection, first[1..], second);
    }
  }

  /** The proposals of `kept` that no effect of `later` invalidates. */
  function Unhit(kept: seq<Proposal>, later: seq<Effect>): seq<Proposal> {
    if kept == [] then []
    else (if HitBy(kept[0], later) then [] else [kept[0]]) + Unhit(kept[1..], later)
  }

  lemma {:induction false} HitBySplit(p: Proposal, first: seq<Effect>, second: seq<Effect>)
    ensures HitBy(p, first + second) <==> HitBy(p, first) || HitBy(p, second)
  {
    var both := first + second;
    if HitBy(p, first) {
      var j :| 0 <= j < |first| && exists change | change in first[j].invalidations :: Hits(change, p);
      assert both[j] == first[j];
    }
    if HitBy(p, second) {
      var j :| 0 <= j < |second| && exists change | change in second[j].invalidations :: Hits(change, p);
      assert both[|first| + j] == second[j];
    }
  }

  /** The proposal of an effect, if no later effect invalidates it. */
  function Kept(effect: Effect, later: seq<Effect>): seq<Proposal> {
    if effect.proposal.Some? && !HitBy(effect.proposal.value, later) then [effect.proposal.value] else []
  }

  lemma {:induction false} KeptSplit(effect: Effect, first: seq<Effect>, second: seq<Effect>)
    ensures Kept(effect, first + second) == Unhit(Kept(effect, first), second)
  {
    if effect.proposal.Some? { HitBySplit(effect.proposal.value, first, second); }
    assert Unhit([], second) == [];
  }

  lemma {:induction false} SurvivorsFrom(effects: seq<Effect>, head: Effect, tail: seq<Effect>)
    requires effects != [] && effects[0] == head && effects[1..] == tail
    ensures Survivors(effects) == Kept(head, tail) + Survivors(tail)
  {}

  lemma {:induction false} SurvivorsSplit(first: seq<Effect>, second: seq<Effect>)
    ensures Survivors(first + second) == Unhit(Survivors(first), second) + Survivors(second)
    decreases |first|
  {
    if first == [] {
      assert first + second == second;
    } else {
      var head, tail := first[0], first[1..];
      SurvivorsSplit(tail, second);
      HeadSplit(head, tail, second);
      SurvivorsFrom(first, head, tail);
      SurvivorsFrom(first + second, head, tail + second);
    }
  }

  lemma {:induction false} HeadSplit(head: Effect, tail: seq<Effect>, second: seq<Effect>)
    requires Survivors(tail + second) == Unhit(Survivors(tail), second) + Survivors(second)
    ensures Kept(head, tail + second) + Survivors(tail + second)
         == Unhit(Kept(head, tail) + Survivors(tail), second) + Survivors(second)
  {
    KeptSplit(head, tail, second);
    UnhitSplit(Kept(head, tail), Survivors(tail), second);
  }

  lemma {:induction false} UnhitSplit(first: seq<Proposal>, second: seq<Proposal>, later: seq<Effect>)
    ensures Unhit(first + second, later) == Unhit(first, later) + Unhit(second, later)
    decreases |first|
  {
    if first == [] {
      assert first + second == second;
    } else {
      assert (first + second)[1..] == first[1..] + second;
      UnhitSplit(first[1..], second, later);
    }
  }

  /** Applying a list of events as one page or as two gives the same progress, and the one-page
      candidates are those of the two pages minus what the second page invalidates in the first. */
  lemma {:induction false} PageBoundaryIsInvisible(a: Activation, p: Progress, first: seq<Event>, second: seq<Event>, middle: nat, next: nat)
    ensures var half := ApplyPage(a, p, Page(first, middle));
      ApplyPage(a, p, Page(first + second, next)) == ApplyPage(a, half, Page(second, next))
      && Survivors(PageEffects(a, p, Page(first + second, next)))
         == Unhit(Survivors(PageEffects(a, p, Page(first, middle))), PageEffects(a, half, Page(second, next)))
            + Survivors(PageEffects(a, half, Page(second, next)))
  {
    EffectsSplit(a, p.position, p.selection, first, second);
    var half := ApplyPage(a, p, Page(first, middle));
    SurvivorsSplit(PageEffects(a, p, Page(first, middle)), PageEffects(a, half, Page(second, next)));
  }

  lemma {:induction false} CursorsSplit(previous: nat, first: seq<Event>, second: seq<Event>)
    ensures CursorsAdvance(previous, first + second)
        <==> CursorsAdvance(previous, first) && CursorsAdvance(LastCursor(previous, first), second)
    decreases |first|
  {
    if first == [] {
      assert first + second == second;
    } else {
      assert (first + second)[1..] == first[1..] + second;
      CursorsSplit(first[0].cursor, first[1..], second);
    }
  }

  /** A page is accepted exactly when its two halves are accepted one after the other. */
  lemma {:induction false} PageValidityComposes(a: Activation, p: Progress, first: seq<Event>, second: seq<Event>)
    requires second != []
    ensures var middle := LastCursor(p.publication, first);
      var next := LastCursor(middle, second);
      ValidPage(p, Page(first + second, next))
      <==> ValidPage(p, Page(first, middle))
           && ValidPage(ApplyPage(a, p, Page(first, middle)), Page(second, next))
  {
    CursorsSplit(p.publication, first, second);
  }

  /** The page of the first event alone. */
  function FirstPage(events: seq<Event>): Page
    requires events != []
  {
    Page(events[..1], events[0].cursor)
  }

  function SinglePages(a: Activation, p: Progress, events: seq<Event>): Progress
    decreases |events|
  {
    if events == [] then p else SinglePages(a, ApplyPage(a, p, FirstPage(events)), events[1..])
  }

  /** The effects of all the single pages, in order. */
  function SingleEffects(a: Activation, p: Progress, events: seq<Event>): seq<Effect>
    decreases |events|
  {
    if events == [] then []
    else PageEffects(a, p, FirstPage(events)) + SingleEffects(a, ApplyPage(a, p, FirstPage(events)), events[1..])
  }

  /** The candidates of the single pages, without those that a later page invalidates. */
  function SingleSurvivors(a: Activation, p: Progress, events: seq<Event>): seq<Proposal>
    decreases |events|
  {
    if events == [] then []
    else
      var next := ApplyPage(a, p, FirstPage(events));
      Unhit(Survivors(PageEffects(a, p, FirstPage(events))), SingleEffects(a, next, events[1..]))
      + SingleSurvivors(a, next, events[1..])
  }

  /** It does not matter how events are grouped, in one page or in one page per event: the progress is
      the same, and the candidates of the one page are exactly the candidates of the single pages that
      no later event invalidates. */
  lemma {:induction false} OnePageEqualsSinglePages(a: Activation, p: Progress, events: seq<Event>)
    ensures SinglePages(a, p, events) == ApplyPage(a, p, Page(events, LastCursor(p.publication, events)))
    ensures SingleEffects(a, p, events) == Effects(a, p.position, p.selection, events)
    ensures SingleSurvivors(a, p, events) == Survivors(Effects(a, p.position, p.selection, events))
    decreases |events|
  {
    if events != [] {
      var half := ApplyPage(a, p, FirstPage(events));
      OnePageEqualsSinglePages(a, half, events[1..]);
      assert events == events[..1] + events[1..];
      EffectsSplit(a, p.position, p.selection, events[..1], events[1..]);
      PageBoundaryIsInvisible(a, p, events[..1], events[1..], events[0].cursor, LastCursor(p.publication, events));
    }
  }

  // ----- positions

  /** Accepted observations, and nothing else, take consecutive positions. */
  lemma {:induction false} PositionsAreConsecutive(a: Activation, position: nat, s: State, events: seq<Event>)
    ensures var effects := Effects(a, position, s, events);
      var committed := CommittedOf(effects);
      EndPosition(position, effects) == position + |committed|
      && forall i | 0 <= i < |committed| :: committed[i].observation.position == position + 1 + i
    decreases |events|
  {
    if events != [] {
      var first := ApplyEvent(a, position, s, events[0]);
      var rest := Effects(a, first.position, first.selection, events[1..]);
      PositionsAreConsecutive(a, first.position, first.selection, events[1..]);
      CommittedFirst(a, position, s, events[0], CommittedOf(rest));
      CommittedFrom(first, rest);
    }
  }

  lemma {:induction false} CommittedFrom(first: Effect, rest: seq<Effect>)
    ensures CommittedOf([first] + rest) == OwnCommitted(first) + CommittedOf(rest)
    ensures EndPosition(first.position, rest) == EndPosition(first.position, [first] + rest)
  {
    assert ([first] + rest)[1..] == rest;
  }

  function OwnCommitted(effect: Effect): seq<Committed> {
    if effect.committed.Some? then [effect.committed.value] else []
  }

  lemma {:induction false} CommittedFirst(a: Activation, position: nat, s: State, e: Event, rest: seq<Committed>)
    requires var next := ApplyEvent(a, position, s, e).position;
      forall i | 0 <= i < |rest| :: rest[i].observation.position == next + 1 + i
    ensures var committed := OwnCommitted(ApplyEvent(a, position, s, e)) + rest;
      ApplyEvent(a, position, s, e).position + |rest| == position + |committed|
      && forall i | 0 <= i < |committed| :: committed[i].observation.position == position + 1 + i
  {}

  // ----- surviving candidates are fresh

  ghost predicate WellFormedEvents(events: seq<Event>) {
    forall e | e in events :: e.WellFormed()
  }

  /** Every window message of the candidate still has the version it was chosen with. */
  ghost predicate FreshAgainst(s: State, c: Candidate) {
    forall id, version | MessageVersion(id, version) in c.dependencies ::
      var k := Key(c.branch, id);
      k in s.seen && s.seen[k].version == version && !s.seen[k].membership.Removed?
  }

  lemma {:induction false} EventKeepsInvariant(a: Activation, position: nat, s: State, e: Event)
    requires a.Valid() && Inv(a, s) && e.WellFormed()
    ensures Inv(a, ApplyEvent(a, position, s, e).selection)
  {
    match e
    case Ignored(_) =>
    case Observed(_, _, id, revision, draft) =>
      StepOk(a, s, Publish(id, revision, draft.(position := position + 1)));
    case Removal(_, id, revision, b) => StepOk(a, s, Remove(b, id, revision));
    case CoverageGap(_, b) => StepOk(a, s, Gap(b));
    case UnsafeUpdate(_, b) => StepOk(a, s, Reset(b));
    case SegmentReset(_, b) => StepOk(a, s, Reset(b));
    case CoverageRestored(_, b) => StepOk(a, s, Restore(b));
  }

  /** A proposal is fresh in the state that its own event leaves. */
  lemma {:induction false} ProposalIsFresh(a: Activation, position: nat, s: State, e: Event)
    requires a.Valid() && Inv(a, s) && e.WellFormed()
    requires ApplyEvent(a, position, s, e).proposal.Some?
    ensures FreshAgainst(ApplyEvent(a, position, s, e).selection, ApplyEvent(a, position, s, e).proposal.value.candidate)
  {
    var o := e.draft.(position := position + 1);
    var c := Publish(e.id, e.revision, o);
    var (t, outcome) := ApplyPublished(a, s, e.id, e.revision, o);
    StepOk(a, s, c);
    assert BranchOk(a, t, o.branch, {});
    if o.kind.HasMessage() {
      CandidateIsFresh(a, s, e.id, e.revision, o);
      forall id, version | MessageVersion(id, version) in outcome.candidate.dependencies
        ensures !t.seen[Key(o.branch, id)].membership.Removed?
      {
        InWindowIsSelected(a, t, o.branch, id);
      }
    } else {
      PlainCandidate(a, s, e.id, e.revision, o);
    }
  }

  lemma {:induction false} InWindowIsSelected(a: Activation, s: State, b: Branch, id: string)
    requires BranchOk(a, s, b, {}) && InWindow(s, b, id)
    ensures Key(b, id) in s.seen && s.seen[Key(b, id)].membership.Selected?
  {
    var i :| 0 <= i < |Results(s, b)| && Results(s, b)[i].message.id == id;
    assert EntryOk(s, b, Results(s, b)[i]);
  }

  lemma {:induction false} PlainCandidate(a: Activation, s: State, id: string, revision: nat, o: Observation)
    requires !o.kind.HasMessage() && ApplyPublished(a, s, id, revision, o).1.Chosen?
    ensures ApplyPublished(a, s, id, revision, o).1.candidate == Candidate(o.branch, o.position, [], o.dependencies)
  {
  }

  /** An event that does not hit a fresh proposal leaves it fresh. */
  lemma {:induction false} UnhitStaysFresh(a: Activation, position: nat, s: State, e: Event, p: Proposal)
    requires a.Valid() && Inv(a, s) && e.WellFormed() && FreshAgainst(s, p.candidate)
    requires !HitBy(p, [ApplyEvent(a, position, s, e)])
    ensures FreshAgainst(ApplyEvent(a, position, s, e).selection, p.candidate)
  {
    var effect := ApplyEvent(a, position, s, e);
    assert forall change | change in [effect][0].invalidations :: !Hits(change, p);
    forall id, version | MessageVersion(id, version) in p.candidate.dependencies
      ensures var k := Key(p.candidate.branch, id);
        k in effect.selection.seen && effect.selection.seen[k].version == version
        && !effect.selection.seen[k].membership.Removed?
    {
      var d := MessageVersion(id, version);
      var k := Key(p.candidate.branch, id);
      if e.Observed? {
        ObserveKeepsVersion(a, position, s, e, p, d);
      } else if e.Removal? {
        var change := RemovalOf(e.branch, e.id);
        if change in effect.invalidations && k == Key(e.branch, e.id) {
          assert MakesStale(change, d, p.id);
          assert Hits(change, p);
          assert false;
        }
      }
    }
  }

  lemma {:induction false} ObserveKeepsVersion(a: Activation, position: nat, s: State, e: Event, p: Proposal, d: Dependency)
    requires a.Valid() && Inv(a, s) && e.WellFormed() && e.Observed?
    requires d.MessageVersion? && d in p.candidate.dependencies
    requires var k := Key(p.candidate.branch, d.id);
      k in s.seen && s.seen[k].version == d.version && !s.seen[k].membership.Removed?
    requires forall change | change in ObserveEvent(a, position, s, e).invalidations :: !Hits(change, p)
    ensures var k := Key(p.candidate.branch, d.id);
      var t := ObserveEvent(a, position, s, e).selection;
      k in t.seen && t.seen[k].version == d.version && !t.seen[k].membership.Removed?
  {
    var k := Key(p.candidate.branch, d.id);
    var o := e.draft.(position := position + 1);
    if AcceptsUpdate(s, o.branch, e.id, e.revision, o.version) {
      if k.major != o.branch {
        StepKeepsOtherBranches(a, s, Publish(e.id, e.revision, o), k.major);
      } else if Recorded(s, e.id, e.revision, o) {
        PublishRecords(a, s, e.id, e.revision, o, k);
        if k.minor == e.id {
          var change := Upsert(o.branch, e.id, o.version, e.evidence);
          assert change in ObserveEvent(a, position, s, e).invalidations;
          assert !MakesStale(change, d, p.id);
        }
      } else {
        NotRecorded(a, s, e.id, e.revision, o);
      }
    }
  }

  /** A proposal that no event of the rest of the page hits is fresh at the end of the page. */
  lemma {:induction false} StaysFresh(a: Activation, position: nat, s: State, events: seq<Event>, p: Proposal)
    requires a.Valid() && Inv(a, s) && WellFormedEvents(events) && FreshAgainst(s, p.candidate)
    requires !HitBy(p, Effects(a, position, s, events))
    ensures FreshAgainst(EndSelection(s, Effects(a, position, s, events)), p.candidate)
    decreases |events|
  {
    if events != [] {
      var first := ApplyEvent(a, position, s, events[0]);
      var rest := Effects(a, first.position, first.selection, events[1..]);
      HitBySplit(p, [first], rest);
      UnhitStaysFresh(a, position, s, events[0], p);
      EventKeepsInvariant(a, position, s, events[0]);
      StaysFresh(a, first.position, first.selection, events[1..], p);
    }
  }

  /** Every candidate that a page keeps is fresh against the selector at the end of the page. */
  lemma {:induction false} SurvivorsAreFresh(a: Activation, position: nat, s: State, events: seq<Event>, p: Proposal)
    requires a.Valid() && Inv(a, s) && WellFormedEvents(events)
    requires p in Survivors(Effects(a, position, s, events))
    ensures FreshAgainst(EndSelection(s, Effects(a, position, s, events)), p.candidate)
    decreases |events|
  {
    var first := ApplyEvent(a, position, s, events[0]);
    var rest := Effects(a, first.position, first.selection, events[1..]);
    EventKeepsInvariant(a, position, s, events[0]);
    if first.proposal == Some(p) && !HitBy(p, rest) {
      ProposalIsFresh(a, position, s, events[0]);
      StaysFresh(a, first.position, first.selection, events[1..], p);
    } else {
      SurvivorsAreFresh(a, first.position, first.selection, events[1..], p);
    }
  }

  /** Whether an event makes the whole window of `b` unusable for earlier candidates. */
  predicate Disturbs(e: Event, effect: Effect, b: Branch) {
    ((e.UnsafeUpdate? || e.SegmentReset?) && e.branch == b)
    || (effect.committed.Some? && effect.committed.value.windowInvalidated
        && effect.committed.value.observation.branch == b)
  }

  lemma {:induction false} DisturbanceIsListed(a: Activation, position: nat, s: State, events: seq<Event>, j: nat, b: Branch)
    requires j < |events| && Disturbs(events[j], Effects(a, position, s, events)[j], b)
    ensures WholeBranch(b) in Effects(a, position, s, events)[j].invalidations
    decreases |events|
  {
    var first := ApplyEvent(a, position, s, events[0]);
    if j > 0 {
      DisturbanceIsListed(a, first.position, first.selection, events[1..], j - 1, b);
    }
  }

  /** At this event the candidate is proposed, and no later event disturbs its branch. */
  predicate ProposedUndisturbed(events: seq<Event>, effects: seq<Effect>, i: nat, p: Proposal)
    requires |effects| == |events|
  {
    i < |effects| && effects[i].proposal == Some(p)
    && forall j | i < j < |effects| :: !Disturbs(events[j], effects[j], p.candidate.branch)
  }

  lemma {:induction false} ProposedLater(events: seq<Event>, effects: seq<Effect>, i: nat, p: Proposal)
    requires |effects| == |events| && events != [] && ProposedUndisturbed(events[1..], effects[1..], i, p)
    ensures ProposedUndisturbed(events, effects, i + 1, p)
  {
    forall j | i + 1 < j < |effects| ensures !Disturbs(events[j], effects[j], p.candidate.branch) {
      assert effects[j] == effects[1..][j - 1] && events[j] == events[1..][j - 1];
    }
  }

  lemma {:induction false} ProposedFirst(a: Activation, position: nat, s: State, events: seq<Event>, p: Proposal)
    requires events != []
    requires var first := ApplyEvent(a, position, s, events[0]);
      first.proposal == Some(p) && !HitBy(p, Effects(a, first.position, first.selection, events[1..]))
    ensures ProposedUndisturbed(events, Effects(a, position, s, events), 0, p)
  {
    var first := ApplyEvent(a, position, s, events[0]);
    var effects := Effects(a, position, s, events);
    forall j | 0 < j < |effects| ensures !Disturbs(events[j], effects[j], p.candidate.branch) {
      KeptIsUndisturbed(a, first.position, first.selection, events[1..], p, j - 1);
    }
  }

  /** After the event of a kept candidate, no event of its branch resets the segment, is unsafe,
      or makes the window uncertain. */
  lemma {:induction false} SurvivorsAreUndisturbed(a: Activation, position: nat, s: State, events: seq<Event>, p: Proposal)
    requires p in Survivors(Effects(a, position, s, events))
    ensures exists i :: ProposedUndisturbed(events, Effects(a, position, s, events), i, p)
    decreases |events|
  {
    var first := ApplyEvent(a, position, s, events[0]);
    var rest := Effects(a, first.position, first.selection, events[1..]);
    var effects := Effects(a, position, s, events);
    SurvivorsFrom(effects, first, rest);
    if p in Kept(first, rest) {
      ProposedFirst(a, position, s, events, p);
    } else {
      SurvivorsAreUndisturbed(a, first.position, first.selection, events[1..], p);
      var i :| ProposedUndisturbed(events[1..], rest, i, p);
      assert effects[1..] == rest;
      ProposedLater(events, effects, i, p);
    }
  }

  lemma {:induction false} KeptIsUndisturbed(a: Activation, position: nat, s: State, events: seq<Event>, p: Proposal, j: nat)
    requires j < |events| && !HitBy(p, Effects(a, position, s, events))
    ensures !Disturbs(events[j], Effects(a, position, s, events)[j], p.candidate.branch)
  {
    var b := p.candidate.branch;
    assert Hits(WholeBranch(b), p);
    if Disturbs(events[j], Effects(a, position, s, events)[j], b) {
      DisturbanceIsListed(a, position, s, events, j, b);
    }
  }
}
