/**
 What a page does to the selector and which candidates it keeps, stated over its events and the
 selector states between them and not by the list of invalidations that the page collects.
 */
module PageSurvival {
  import opened Text
  import opened KeyOrder
  import opened Selection
  import opened SelectionRuns
  import opened SelectionHistory
  import opened SelectionTriggers
  import opened SourcePages

  /** The publication is news of its identity. */
  predicate IsNews(s: State, e: Event)
    requires e.Observed?
  {
    var k := Key(e.draft.branch, e.id);
    k in s.seen ==>
      s.seen[k].revision < e.revision
      || (s.seen[k].revision == e.revision && s.seen[k].version != e.draft.version && s.seen[k].membership != Removed)
  }

  /** The publication repeats the record of its identity. */
  predicate IsRepeat(s: State, e: Event)
    requires e.Observed?
  {
    var k := Key(e.draft.branch, e.id);
    k in s.seen && s.seen[k].revision == e.revision && s.seen[k].version == e.draft.version && s.seen[k].membership != Removed
  }

  /** The removal says something new about its identity. */
  predicate IsRemoval(s: State, e: Event)
    requires e.Removal?
  {
    var k := Key(e.branch, e.id);
    k in s.seen ==> s.seen[k].revision < e.revision || (s.seen[k].revision == e.revision && s.seen[k].membership != Removed)
  }

  ghost predicate HasOtherMessage(p: Proposal, id: string, version: Version) {
    exists v :: MessageVersion(id, v) in p.candidate.dependencies && v != version
  }

  ghost predicate HasOtherEvidence(p: Proposal, id: string, version: Version) {
    exists v :: SourceEvidence(id, v) in p.candidate.dependencies && v != version
  }

  ghost predicate DependsOn(p: Proposal, id: string) {
    exists v :: MessageVersion(id, v) in p.candidate.dependencies || SourceEvidence(id, v) in p.candidate.dependencies
  }

  /** The event, coming after the proposal in the state `s`, makes the candidate unusable. */
  ghost predicate Spoils(a: Activation, position: nat, s: State, e: Event, p: Proposal) {
    var b := p.candidate.branch;
    match e
    case Ignored(_) => false
    case CoverageGap(_, _) => false
    case CoverageRestored(_, _) => false
    case UnsafeUpdate(_, branch) => branch == b
    case SegmentReset(_, branch) => branch == b
    case Removal(_, id, _, branch) => branch == b && IsRemoval(s, e) && DependsOn(p, id)
    case Observed(_, evidence, id, revision, draft) =>
      draft.branch == b
      && if IsNews(s, e) then
           HasOtherMessage(p, id, draft.version)
           || (if id == p.id then HasOtherEvidence(p, id, draft.version)
               else evidence.Some? && HasOtherEvidence(p, id, evidence.value))
           || (Accepted(s, id, revision, draft) && Terminal(s, Key(b, id))
               && Unsettles(a, s, Key(b, id), draft.(position := position + 1)))
         else IsRepeat(s, e) && id != p.id && evidence.Some? && HasOtherEvidence(p, id, evidence.value)
  }

  lemma {:induction false} HitsExactly(a: Activation, position: nat, s: State, e: Event, p: Proposal)
    requires a.Valid() && Inv(a, s) && e.WellFormed()
    ensures (exists change | change in ApplyEvent(a, position, s, e).invalidations :: Hits(change, p))
       <==> Spoils(a, position, s, e, p)
  {
    var effect := ApplyEvent(a, position, s, e);
    match e
    case Ignored(_) =>
    case CoverageGap(_, _) =>
    case CoverageRestored(_, _) =>
    case UnsafeUpdate(_, b) => assert effect.invalidations == [WholeBranch(b)] && WholeBranch(b) in effect.invalidations;
    case SegmentReset(_, b) => assert effect.invalidations == [WholeBranch(b)] && WholeBranch(b) in effect.invalidations;
    case Removal(_, _, _, _) => RemovalHits(a, position, s, e, p);
    case Observed(_, _, _, _, _) => ObservationHits(a, position, s, e, p);
  }

  lemma {:induction false} RemovalHits(a: Activation, position: nat, s: State, e: Event, p: Proposal)
    requires e.Removal?
    ensures (exists change | change in ApplyEvent(a, position, s, e).invalidations :: Hits(change, p))
       <==> Spoils(a, position, s, e, p)
  {
    var effect := ApplyEvent(a, position, s, e);
    var change := RemovalOf(e.branch, e.id);
    if DependsOn(p, e.id) {
      var v :| MessageVersion(e.id, v) in p.candidate.dependencies || SourceEvidence(e.id, v) in p.candidate.dependencies;
      assert MakesStale(change, MessageVersion(e.id, v), p.id) && MakesStale(change, SourceEvidence(e.id, v), p.id);
    }
    assert Hits(change, p) <==> e.branch == p.candidate.branch && DependsOn(p, e.id);
    if IsRemoval(s, e) {
      assert effect.invalidations == [change] && change in effect.invalidations;
    } else {
      assert effect.invalidations == [];
    }
  }

  lemma {:induction false} UpsertHits(p: Proposal, b: Branch, id: string, version: Version, evidence: Option<Version>)
    ensures Hits(Upsert(b, id, version, evidence), p)
       <==> b == p.candidate.branch
            && (HasOtherMessage(p, id, version)
                || if id == p.id then HasOtherEvidence(p, id, version)
                   else evidence.Some? && HasOtherEvidence(p, id, evidence.value))
  {
    var change := Upsert(b, id, version, evidence);
    var other := if id == p.id then Some(version) else evidence;
    if HasOtherMessage(p, id, version) {
      var v :| MessageVersion(id, v) in p.candidate.dependencies && v != version;
      assert MakesStale(change, MessageVersion(id, v), p.id);
    }
    if other.Some? && HasOtherEvidence(p, id, other.value) {
      var v :| SourceEvidence(id, v) in p.candidate.dependencies && v != other.value;
      assert MakesStale(change, SourceEvidence(id, v), p.id);
    }
  }

  lemma {:induction false} NativeHits(p: Proposal, b: Branch, id: string, version: Version)
    ensures Hits(NativeUpsert(b, id, version), p)
       <==> b == p.candidate.branch && id != p.id && HasOtherEvidence(p, id, version)
  {
    if HasOtherEvidence(p, id, version) {
      var v :| SourceEvidence(id, v) in p.candidate.dependencies && v != version;
      assert id != p.id ==> MakesStale(NativeUpsert(b, id, version), SourceEvidence(id, v), p.id);
    }
  }

  lemma {:induction false} Uncertain(a: Activation, s: State, id: string, revision: nat, o: Observation)
    requires a.Valid() && Inv(a, s)
    ensures ApplyPublished(a, s, id, revision, o).1.WindowInvalidated?
       <==> Accepted(s, id, revision, o) && Terminal(s, Key(o.branch, id)) && Unsettles(a, s, Key(o.branch, id), o)
  {
    assert BranchOk(a, s, o.branch, {});
    if !Accepted(s, id, revision, o) {
      NotAcceptedExactly(a, s, id, revision, o);
    } else if Terminal(s, Key(o.branch, id)) {
      CorrectsExactly(a, s, id, revision, o);
    } else {
      TriggersExactly(a, s, id, revision, o);
    }
  }

  lemma {:induction false} ObservationHits(a: Activation, position: nat, s: State, e: Event, p: Proposal)
    requires a.Valid() && Inv(a, s) && e.Observed?
    ensures (exists change | change in ApplyEvent(a, position, s, e).invalidations :: Hits(change, p))
       <==> Spoils(a, position, s, e, p)
  {
    var b, o := e.draft.branch, e.draft.(position := position + 1);
    var invalidations := ApplyEvent(a, position, s, e).invalidations;
    if IsNews(s, e) {
      Uncertain(a, s, e.id, e.revision, o);
      UpsertHits(p, b, e.id, e.draft.version, e.evidence);
      var upsert := Upsert(b, e.id, e.draft.version, e.evidence);
      assert invalidations[0] == upsert;
      assert Hits(WholeBranch(b), p) <==> b == p.candidate.branch;
      if ApplyPublished(a, s, e.id, e.revision, o).1.WindowInvalidated? {
        assert invalidations == [upsert, WholeBranch(b)];
        assert invalidations[1] == WholeBranch(b);
      } else {
        assert invalidations == [upsert];
      }
    } else if IsRepeat(s, e) && e.evidence.Some? {
      NativeHits(p, b, e.id, e.evidence.value);
      assert invalidations == [NativeUpsert(b, e.id, e.evidence.value)];
      assert invalidations[0] in invalidations;
    } else {
      assert invalidations == [];
    }
  }

  // ----- whole pages

  /** The selector state before event `j`, and the position that it leaves. */
  function Before(a: Activation, position: nat, s: State, events: seq<Event>, j: nat): (nat, State)
    requires j <= |events|
    decreases j
  {
    if j == 0 then (position, s)
    else
      var before := Before(a, position, s, events, j - 1);
      var effect := ApplyEvent(a, before.0, before.1, events[j - 1]);
      (effect.position, effect.selection)
  }

  function EffectOf(a: Activation, position: nat, s: State, events: seq<Event>, j: nat): Effect
    requires j < |events|
  {
    var before := Before(a, position, s, events, j);
    ApplyEvent(a, before.0, before.1, events[j])
  }

  /** No event after the first `i` spoils the proposal. */
  ghost predicate Spared(a: Activation, position: nat, s: State, events: seq<Event>, i: nat, p: Proposal) {
    forall j | i <= j < |events| ::
      var before := Before(a, position, s, events, j);
      !Spoils(a, before.0, before.1, events[j], p)
  }

  /** The proposals of the events from `i` on that no event after them spoils. */
  ghost function SparedFrom(a: Activation, position: nat, s: State, events: seq<Event>, i: nat): seq<Proposal>
    requires i <= |events|
    decreases |events| - i
  {
    if i == |events| then []
    else
      var proposal := EffectOf(a, position, s, events, i).proposal;
      (if proposal.Some? && Spared(a, position, s, events, i + 1, proposal.value) then [proposal.value] else [])
      + SparedFrom(a, position, s, events, i + 1)
  }

  lemma {:induction false} BeforeKeepsInvariant(a: Activation, position: nat, s: State, events: seq<Event>, j: nat)
    requires a.Valid() && Inv(a, s) && WellFormedEvents(events) && j <= |events|
    ensures Inv(a, Before(a, position, s, events, j).1)
    decreases j
  {
    if j > 0 {
      var before := Before(a, position, s, events, j - 1);
      BeforeKeepsInvariant(a, position, s, events, j - 1);
      assert events[j - 1].WellFormed();
      EventKeepsInvariant(a, before.0, before.1, events[j - 1]);
    }
  }

  /** The effects of the events from `i` on start with the effect of event `i`. */
  function EffectsFrom(a: Activation, position: nat, s: State, events: seq<Event>, i: nat): seq<Effect>
    requires i <= |events|
  {
    var before := Before(a, position, s, events, i);
    Effects(a, before.0, before.1, events[i..])
  }

  lemma {:induction false} EffectsNext(a: Activation, position: nat, s: State, events: seq<Event>, i: nat)
    requires i < |events|
    ensures EffectsFrom(a, position, s, events, i) == [EffectOf(a, position, s, events, i)] + EffectsFrom(a, position, s, events, i + 1)
  {
    assert events[i..][0] == events[i] && events[i..][1..] == events[i + 1..];
  }

  lemma {:induction false} HitByExactly(a: Activation, position: nat, s: State, events: seq<Event>, i: nat, p: Proposal)
    requires a.Valid() && Inv(a, s) && WellFormedEvents(events) && i <= |events|
    ensures HitBy(p, EffectsFrom(a, position, s, events, i)) <==> !Spared(a, position, s, events, i, p)
    decreases |events| - i
  {
    if i < |events| {
      var before := Before(a, position, s, events, i);
      var effect, rest := EffectOf(a, position, s, events, i), EffectsFrom(a, position, s, events, i + 1);
      EffectsNext(a, position, s, events, i);
      HitByExactly(a, position, s, events, i + 1, p);
      HitBySplit(p, [effect], rest);
      BeforeKeepsInvariant(a, position, s, events, i);
      assert events[i].WellFormed();
      HitsExactly(a, before.0, before.1, events[i], p);
      assert [effect][0] == effect;
    }
  }

  /** A page keeps, in order, exactly the proposals that no later event of the page spoils. */
  lemma {:induction false} SurvivesExactly(a: Activation, position: nat, s: State, events: seq<Event>, i: nat)
    requires a.Valid() && Inv(a, s) && WellFormedEvents(events) && i <= |events|
    ensures Survivors(EffectsFrom(a, position, s, events, i)) == SparedFrom(a, position, s, events, i)
    decreases |events| - i
  {
    if i == |events| {
      assert events[i..] == [] && EffectsFrom(a, position, s, events, i) == [];
    } else {
      SurvivesExactly(a, position, s, events, i + 1);
      KeptExactly(a, position, s, events, i);
      SurvivorsNext(a, position, s, events, i);
    }
  }

  lemma {:induction false} SurvivorsNext(a: Activation, position: nat, s: State, events: seq<Event>, i: nat)
    requires i < |events|
    ensures var effect, rest := EffectOf(a, position, s, events, i), EffectsFrom(a, position, s, events, i + 1);
      Survivors(EffectsFrom(a, position, s, events, i)) == Kept(effect, rest) + Survivors(rest)
  {
    var effect, rest := EffectOf(a, position, s, events, i), EffectsFrom(a, position, s, events, i + 1);
    EffectsNext(a, position, s, events, i);
    SurvivorsJoin(EffectsFrom(a, position, s, events, i), effect, rest, Survivors(rest));
  }

  lemma {:induction false} SurvivorsJoin(effects: seq<Effect>, head: Effect, tail: seq<Effect>, kept: seq<Proposal>)
    requires effects == [head] + tail && Survivors(tail) == kept
    ensures Survivors(effects) == Kept(head, tail) + kept
  {
    SurvivorsFrom(effects, head, tail);
  }

  lemma {:induction false} KeptExactly(a: Activation, position: nat, s: State, events: seq<Event>, i: nat)
    requires a.Valid() && Inv(a, s) && WellFormedEvents(events) && i < |events|
    ensures Kept(EffectOf(a, position, s, events, i), EffectsFrom(a, position, s, events, i + 1)) + SparedFrom(a, position, s, events, i + 1)
         == SparedFrom(a, position, s, events, i)
  {
    var proposal := EffectOf(a, position, s, events, i).proposal;
    if proposal.Some? { HitByExactly(a, position, s, events, i + 1, proposal.value); }
  }

  lemma {:induction false} PageKeepsExactly(a: Activation, position: nat, s: State, events: seq<Event>)
    requires a.Valid() && Inv(a, s) && WellFormedEvents(events)
    ensures Survivors(Effects(a, position, s, events)) == SparedFrom(a, position, s, events, 0)
  {
    SurvivesExactly(a, position, s, events, 0);
    assert events[0..] == events;
  }

  /** The event concerns nothing that the candidate depends on, and does not disturb its branch. */
  ghost predicate Unrelated(a: Activation, s: State, e: Event, p: Proposal) {
    match e
    case UnsafeUpdate(_, branch) => branch != p.candidate.branch
    case SegmentReset(_, branch) => branch != p.candidate.branch
    case Removal(_, id, _, _) => !DependsOn(p, id)
    case Observed(_, _, id, _, draft) => !DependsOn(p, id) && (Terminal(s, Key(draft.branch, id)) ==> draft.branch != p.candidate.branch)
    case _ => true
  }

  /** Later events that name none of its dependencies leave a candidate in the page: new messages of the
      same branch are no reason to drop it. */
  lemma {:induction false} UnrelatedEventsSpare(a: Activation, position: nat, s: State, events: seq<Event>, i: nat, p: Proposal)
    requires i <= |events|
    requires forall j | i <= j < |events| :: Unrelated(a, Before(a, position, s, events, j).1, events[j], p)
    ensures Spared(a, position, s, events, i, p)
  {
    forall j | i <= j < |events|
      ensures var before := Before(a, position, s, events, j); !Spoils(a, before.0, before.1, events[j], p)
    {
      assert Unrelated(a, Before(a, position, s, events, j).1, events[j], p);
    }
  }

  // ----- the selector after a page

  /** The change that an event is for the selector: an observation takes the next position if it is news. */
  function ChangeOf(position: nat, s: State, e: Event): Option<Change> {
    match e
    case Ignored(_) => None
    case Observed(_, _, id, revision, draft) =>
      if IsNews(s, e) then Some(Publish(id, revision, draft.(position := position + 1))) else None
    case Removal(_, id, revision, b) => Some(Remove(b, id, revision))
    case CoverageGap(_, b) => Some(Gap(b))
    case UnsafeUpdate(_, b) => Some(Reset(b))
    case SegmentReset(_, b) => Some(Reset(b))
    case CoverageRestored(_, b) => Some(Restore(b))
  }

  /** What a change of the selector adds to the page. */
  predicate Reports(a: Activation, s: State, e: Event, c: Change, effect: Effect) {
    var outcome := Step(a, s, c).1;
    effect.proposal == (if outcome.Chosen? && e.Observed? then Some(Proposal(outcome.candidate, e.id)) else None)
    && effect.committed == (if c.Publish? then Some(Committed(e.cursor, c.id, c.revision, c.observation, outcome.WindowInvalidated?)) else None)
  }

  lemma {:induction false} EventIsChange(a: Activation, position: nat, s: State, e: Event)
    ensures var effect := ApplyEvent(a, position, s, e);
      match ChangeOf(position, s, e)
      case None => effect.position == position && effect.selection == s && effect.proposal == None && effect.committed == None
      case Some(c) =>
        effect.selection == Step(a, s, c).0 && Reports(a, s, e, c, effect)
        && effect.position == if c.Publish? then position + 1 else position
  {}

  function ChangesOf(a: Activation, position: nat, s: State, events: seq<Event>): seq<Change>
    decreases |events|
  {
    if events == [] then []
    else
      var c := ChangeOf(position, s, events[0]);
      if c.None? then ChangesOf(a, position, s, events[1..])
      else [c.value] + ChangesOf(a, if c.value.Publish? then position + 1 else position, Step(a, s, c.value).0, events[1..])
  }

  /** The selector after a page is that of the run of its changes, and the committed observations are
      those of its publications. */
  lemma {:induction false} PageIsRun(a: Activation, position: nat, s: State, events: seq<Event>)
    ensures EndSelection(s, Effects(a, position, s, events)) == Run(a, s, ChangesOf(a, position, s, events))
    ensures Published(ChangesOf(a, position, s, events)) == ObservationsOf(CommittedOf(Effects(a, position, s, events)))
    decreases |events|
  {
    if events != [] {
      var first := ApplyEvent(a, position, s, events[0]);
      var rest := Effects(a, first.position, first.selection, events[1..]);
      EventIsChange(a, position, s, events[0]);
      PageIsRun(a, first.position, first.selection, events[1..]);
      CommittedFrom(first, rest);
      EndsWith(s, first, rest);
      match ChangeOf(position, s, events[0])
      case None =>
        assert [] + CommittedOf(rest) == CommittedOf(rest);
      case Some(c) =>
        var later := ChangesOf(a, first.position, first.selection, events[1..]);
        assert ([c] + later)[1..] == later;
        ObservationsJoin(OwnCommitted(first), CommittedOf(rest));
        if !c.Publish? { assert [] + CommittedOf(rest) == CommittedOf(rest); }
    }
  }

  lemma {:induction false} EndsWith(s: State, first: Effect, rest: seq<Effect>)
    ensures EndSelection(s, [first] + rest) == EndSelection(first.selection, rest)
  {}

  function Published(changes: seq<Change>): seq<Observation> {
    if changes == [] then []
    else (if changes[0].Publish? then [changes[0].observation] else []) + Published(changes[1..])
  }

  function ObservationsOf(committed: seq<Committed>): seq<Observation> {
    if committed == [] then [] else [committed[0].observation] + ObservationsOf(committed[1..])
  }

  lemma {:induction false} ObservationsJoin(first: seq<Committed>, second: seq<Committed>)
    requires |first| <= 1
    ensures ObservationsOf(first + second) == ObservationsOf(first) + ObservationsOf(second)
  {
    if first == [] {
      assert first + second == second;
    } else {
      assert (first + second)[1..] == second && first[1..] == [];
    }
  }

  // ----- valid pages

  lemma {:induction false} CursorsExactly(previous: nat, events: seq<Event>)
    ensures CursorsAdvance(previous, events) <==>
      (forall i | 0 <= i < |events| :: previous < events[i].cursor)
      && (forall i, j | 0 <= i < j < |events| :: events[i].cursor < events[j].cursor)
    decreases |events|
  {
    if events != [] {
      var rest := events[1..];
      CursorsExactly(events[0].cursor, rest);
      assert forall i | 0 < i < |events| :: events[i] == rest[i - 1];
      assert forall i | 0 <= i < |rest| :: rest[i] == events[i + 1];
      if CursorsAdvance(previous, events) {
        forall i, j | 0 <= i < j < |events| ensures events[i].cursor < events[j].cursor {
          assert events[j] == rest[j - 1];
          if i > 0 { assert events[i] == rest[i - 1]; }
        }
      }
    }
  }

  /** A page is valid exactly if its cursors are new and increase, and it ends at its last event; an empty page
      does not go back. */
  lemma {:induction false} ValidExactly(p: Progress, page: Page)
    ensures ValidPage(p, page) <==>
      (forall i | 0 <= i < |page.events| :: p.publication < page.events[i].cursor)
      && (forall i, j | 0 <= i < j < |page.events| :: page.events[i].cursor < page.events[j].cursor)
      && (if page.events == [] then p.publication <= page.next else page.next == page.events[|page.events| - 1].cursor)
  {
    CursorsExactly(p.publication, page.events);
  }
}
