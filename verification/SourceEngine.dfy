/** Page application as the engine performs it, proved against module SourcePages. */
module SourceEngine {
  import opened Text
  import opened KeyOrder
  import opened Selection
  import opened SourcePages
  import opened Selector

  datatype BatchOutcome =
    | Invalid
    | Rejected
    | Applied(observations: nat, candidates: seq<Candidate>)

  datatype Placed = Placed(proposal: Proposal, index: nat)
  datatype Change = Change(index: nat, invalidation: Invalidation)

  /** The selectors of one activation: `durable` is what the store holds, `cached` what the
      engine keeps in memory after a commit. */
  class PageEngine {
    const activation: Activation
    var durable: Progress
    var cached: Option<Progress>

    constructor (activation: Activation, durable: Progress)
      ensures Valid() && this.activation == activation && this.durable == durable
    {
      this.activation, this.durable, cached := activation, durable, None;
    }

    /** The copy in memory is never ahead of the store. */
    predicate Valid()
      reads this
    {
      cached.Some? ==> cached.value == durable
    }

    /** Checks that cursors advance and that the page ends at its last event. */
    method ValidateSourcePage(progress: Progress, page: Page) returns (valid: bool)
      ensures valid == ValidPage(progress, page)
    {
      var previous := progress.publication;
      for i := 0 to |page.events|
        invariant previous == LastCursor(progress.publication, page.events[..i])
        invariant CursorsAdvance(progress.publication, page.events[..i])
      {
        CursorsSplit(progress.publication, page.events[..i], page.events[i..i + 1]);
        assert page.events[..i] + page.events[i..i + 1] == page.events[..i + 1];
        if page.events[i].cursor <= previous {
          CursorsSplit(progress.publication, page.events[..i + 1], page.events[i + 1..]);
          assert page.events == page.events[..i + 1] + page.events[i + 1..];
          return false;
        }
        previous := page.events[i].cursor;
      }
      assert page.events[..|page.events|] == page.events;
      return !(page.next < previous || (page.events != [] && page.next != previous));
    }

    /** Applies and commits one page. State changes only when the store accepts the page. */
    method ApplySourcePage(page: Page, storeAccepts: bool) returns (outcome: BatchOutcome)
      requires Valid()
      modifies this
      ensures Valid()
      ensures !ValidPage(old(durable), page) ==> outcome == Invalid && durable == old(durable)
      ensures ValidPage(old(durable), page) && !storeAccepts ==> outcome == Rejected && durable == old(durable)
      ensures ValidPage(old(durable), page) && storeAccepts ==>
        var effects := PageEffects(activation, old(durable), page);
        durable == ApplyPage(activation, old(durable), page)
        && outcome == Applied(|CommittedOf(effects)|, CandidatesOf(Survivors(effects)))
    {
      if cached.None? { cached := Some(durable); }
      var progress := cached.value;
      var valid := ValidateSourcePage(progress, page);
      if !valid { return Invalid; }
      var next, committed, placed, changes := FoldEvents(progress, page);
      var candidates := Retain(placed, changes);
      assert [] + PageEffects(activation, progress, page) == PageEffects(activation, progress, page);
      RetainedAreSurvivors(PageEffects(activation, progress, page), [], 0, changes);
      if !storeAccepts {
        cached := None;
        return Rejected;
      }
      durable := next;
      cached := Some(next);
      return Applied(|committed|, candidates);
    }

    /** Folds the events through a working copy of the selector. */
    method FoldEvents(progress: Progress, page: Page)
      returns (next: Progress, committed: seq<Committed>, placed: seq<Placed>, changes: seq<Change>)
      ensures next == ApplyPage(activation, progress, page)
      ensures var effects := PageEffects(activation, progress, page);
        committed == CommittedOf(effects) && placed == PlacedOf(effects, 0) && changes == ChangesOf(effects, 0)
    {
      var selection := new SelectionState.Of(progress.selection);
      var position := progress.position;
      committed, placed, changes := [], [], [];
      ghost var effects: seq<Effect> := [];
      var i := 0;
      while i < |page.events|
        invariant i <= |page.events|
        invariant fresh(selection)
        invariant effects == Effects(activation, progress.position, progress.selection, page.events[..i])
        invariant position == EndPosition(progress.position, effects)
        invariant selection.View() == EndSelection(progress.selection, effects)
        invariant committed == CommittedOf(effects)
        invariant placed == PlacedOf(effects, 0)
        invariant changes == ChangesOf(effects, 0)
      {
        ghost var effect := ApplyEvent(activation, position, selection.View(), page.events[i]);
        FoldOneMore(activation, progress, page.events, i, page.events[i], effect);
        AppendEffect(effects, effect);
        var newPosition, newPlaced, newChanges, newCommitted := FoldOne(selection, position, i, page.events[i]);
        position := newPosition;
        placed, changes, committed := placed + newPlaced, changes + newChanges, committed + newCommitted;
        effects := effects + [effect];
        i := i + 1;
      }
      assert page.events[..i] == page.events;
      var s := selection.Checkpoint();
      next := Progress(page.next, position, s);
    }

    /** The part of the fold that looks at one event. */
    method FoldOne(selection: SelectionState, position: nat, i: nat, event: Event)
      returns (newPosition: nat, placed: seq<Placed>, changes: seq<Change>, committed: seq<Committed>)
      modifies selection
      ensures var effect := ApplyEvent(activation, position, old(selection.View()), event);
        newPosition == effect.position && selection.View() == effect.selection
        && placed == PlacedOf([effect], i) && changes == ChangesOf([effect], i) && committed == CommittedOf([effect])
    {
      SingleEffect(ApplyEvent(activation, position, selection.View(), event), i);
      newPosition, placed, changes, committed := position, [], [], [];
      match event
      case Ignored(_) =>
      case Observed(cursor, evidence, id, revision, draft) =>
        var snapshot := selection.Checkpoint();
        if !AcceptsUpdate(snapshot, draft.branch, id, revision, draft.version) {
          if evidence.Some? && IsNormalizedDuplicate(snapshot, draft.branch, id, revision, draft.version) {
            changes := [Change(i, NativeUpsert(draft.branch, id, evidence.value))];
          }
        } else {
          newPosition := position + 1;
          var o := draft.(position := newPosition);
          changes := [Change(i, Upsert(draft.branch, id, o.version, evidence))];
          var outcome := selection.ApplyPublished(activation, id, revision, o);
          if outcome.Chosen? {
            placed := [Placed(Proposal(outcome.candidate, id), i)];
          } else if outcome.WindowInvalidated? {
            changes := changes + [Change(i, WholeBranch(draft.branch))];
          }
          committed := [Committed(cursor, id, revision, o, outcome.WindowInvalidated?)];
        }
      case Removal(_, id, revision, b) =>
        var changed := selection.RemoveResult(b, id, revision);
        if changed { changes := [Change(i, RemovalOf(b, id))]; }
      case CoverageGap(_, b) => selection.MarkGap(b);
      case UnsafeUpdate(_, b) =>
        changes := [Change(i, WholeBranch(b))];
        selection.Reset(b);
      case SegmentReset(_, b) =>
        changes := [Change(i, WholeBranch(b))];
        selection.Reset(b);
      case CoverageRestored(_, b) => selection.Restore(b);
    }

    /** Keeps the candidates that no change after their own event hits. */
    method Retain(placed: seq<Placed>, changes: seq<Change>) returns (candidates: seq<Candidate>)
      ensures candidates == Retained(placed, changes)
    {
      candidates := [];
      for i := 0 to |placed|
        invariant candidates + Retained(placed[i..], changes) == Retained(placed, changes)
      {
        assert placed[i..][1..] == placed[i + 1..];
        var hit := false;
        for j := 0 to |changes|
          invariant hit == exists n :: 0 <= n < j && changes[n].index > placed[i].index
                                       && Hits(changes[n].invalidation, placed[i].proposal)
        {
          if changes[j].index > placed[i].index && Hits(changes[j].invalidation, placed[i].proposal) { hit := true; }
        }
        if !hit { candidates := candidates + [placed[i].proposal.candidate]; }
      }
    }
  }

  lemma {:induction false} FoldOneMore(a: Activation, progress: Progress, events: seq<Event>, i: nat, event: Event, effect: Effect)
    requires i < |events| && event == events[i]
    requires var before := Effects(a, progress.position, progress.selection, events[..i]);
      effect == ApplyEvent(a, EndPosition(progress.position, before), EndSelection(progress.selection, before), event)
    ensures Effects(a, progress.position, progress.selection, events[..i + 1])
         == Effects(a, progress.position, progress.selection, events[..i]) + [effect]
  {
    assert events[..i + 1] == events[..i] + [event];
    EffectsSplit(a, progress.position, progress.selection, events[..i], [event]);
    assert [event][1..] == [];
  }

  function CandidatesOf(proposals: seq<Proposal>): seq<Candidate> {
    seq(|proposals|, i requires 0 <= i < |proposals| => proposals[i].candidate)
  }

  /** The proposals of `effects` with their page positions, counted from `start`. */
  function PlacedOf(effects: seq<Effect>, start: nat): seq<Placed> {
    if effects == [] then []
    else (if effects[0].proposal.Some? then [Placed(effects[0].proposal.value, start)] else [])
         + PlacedOf(effects[1..], start + 1)
  }

  function At(index: nat, invalidations: seq<Invalidation>): seq<Change> {
    seq(|invalidations|, i requires 0 <= i < |invalidations| => Change(index, invalidations[i]))
  }

  function ChangesOf(effects: seq<Effect>, start: nat): seq<Change> {
    if effects == [] then [] else At(start, effects[0].invalidations) + ChangesOf(effects[1..], start + 1)
  }

  predicate HitLater(p: Placed, changes: seq<Change>) {
    exists n :: 0 <= n < |changes| && changes[n].index > p.index && Hits(changes[n].invalidation, p.proposal)
  }

  function Retained(placed: seq<Placed>, changes: seq<Change>): seq<Candidate> {
    if placed == [] then []
    else (if HitLater(placed[0], changes) then [] else [placed[0].proposal.candidate]) + Retained(placed[1..], changes)
  }

  lemma {:induction false} PlacedFrom(effects: seq<Effect>, head: Effect, tail: seq<Effect>, start: nat)
    requires effects != [] && effects[0] == head && effects[1..] == tail
    ensures PlacedOf(effects, start)
         == (if head.proposal.Some? then [Placed(head.proposal.value, start)] else []) + PlacedOf(tail, start + 1)
  {}

  lemma {:induction false} PlacedSplit(first: seq<Effect>, second: seq<Effect>, start: nat)
    ensures PlacedOf(first + second, start) == PlacedOf(first, start) + PlacedOf(second, start + |first|)
    decreases |first|
  {
    if first == [] {
      assert first + second == second;
    } else {
      PlacedSplit(first[1..], second, start + 1);
      PlacedFrom(first, first[0], first[1..], start);
      PlacedFrom(first + second, first[0], first[1..] + second, start);
    }
  }

  lemma {:induction false} ChangesSplit(first: seq<Effect>, second: seq<Effect>, start: nat)
    ensures ChangesOf(first + second, start) == ChangesOf(first, start) + ChangesOf(second, start + |first|)
    decreases |first|
  {
    if first == [] {
      assert first + second == second;
    } else {
      assert (first + second)[1..] == first[1..] + second;
      ChangesSplit(first[1..], second, start + 1);
    }
  }

  lemma {:induction false} CommittedSplit(first: seq<Effect>, second: seq<Effect>)
    ensures CommittedOf(first + second) == CommittedOf(first) + CommittedOf(second)
    decreases |first|
  {
    if first == [] {
      assert first + second == second;
    } else {
      assert (first + second)[1..] == first[1..] + second;
      CommittedSplit(first[1..], second);
    }
  }

  lemma {:induction false} AppendEffect(effects: seq<Effect>, effect: Effect)
    ensures PlacedOf(effects + [effect], 0) == PlacedOf(effects, 0) + PlacedOf([effect], |effects|)
    ensures ChangesOf(effects + [effect], 0) == ChangesOf(effects, 0) + ChangesOf([effect], |effects|)
    ensures CommittedOf(effects + [effect]) == CommittedOf(effects) + CommittedOf([effect])
    ensures PlacedOf([effect], |effects|)
         == if effect.proposal.Some? then [Placed(effect.proposal.value, |effects|)] else []
    ensures ChangesOf([effect], |effects|) == At(|effects|, effect.invalidations)
    ensures CommittedOf([effect]) == if effect.committed.Some? then [effect.committed.value] else []
  {
    PlacedSplit(effects, [effect], 0);
    ChangesSplit(effects, [effect], 0);
    CommittedSplit(effects, [effect]);
    SingleEffect(effect, |effects|);
  }

  lemma {:induction false} SingleEffect(effect: Effect, start: nat)
    ensures PlacedOf([effect], start) == if effect.proposal.Some? then [Placed(effect.proposal.value, start)] else []
    ensures ChangesOf([effect], start) == At(start, effect.invalidations)
    ensures CommittedOf([effect]) == if effect.committed.Some? then [effect.committed.value] else []
  {
    assert [effect][1..] == [];
  }

  lemma {:induction false} ChangeOrigin(effects: seq<Effect>, start: nat, n: nat)
    requires n < |ChangesOf(effects, start)|
    ensures var c := ChangesOf(effects, start)[n];
      start <= c.index < start + |effects| && c.invalidation in effects[c.index - start].invalidations
    decreases |effects|
  {
    var head := At(start, effects[0].invalidations);
    if n >= |head| {
      ChangeOrigin(effects[1..], start + 1, n - |head|);
    }
  }

  lemma {:induction false} ChangeListed(effects: seq<Effect>, start: nat, j: nat, change: Invalidation)
    requires j < |effects| && change in effects[j].invalidations
    ensures exists n :: 0 <= n < |ChangesOf(effects, start)|
              && ChangesOf(effects, start)[n] == Change(start + j, change)
    decreases |effects|
  {
    var head := At(start, effects[0].invalidations);
    if j == 0 {
      var i :| 0 <= i < |effects[0].invalidations| && effects[0].invalidations[i] == change;
      assert ChangesOf(effects, start)[i] == Change(start, change);
    } else {
      ChangeListed(effects[1..], start + 1, j - 1, change);
      var n :| 0 <= n < |ChangesOf(effects[1..], start + 1)|
               && ChangesOf(effects[1..], start + 1)[n] == Change(start + j, change);
      assert ChangesOf(effects, start)[|head| + n] == Change(start + j, change);
    }
  }

  /** The indexed test of the engine is the test against the later effects. */
  lemma {:induction false} HitLaterIsHitBy(before: seq<Effect>, effects: seq<Effect>)
    requires effects != [] && effects[0].proposal.Some?
    ensures HitLater(Placed(effects[0].proposal.value, |before|), ChangesOf(before + effects, 0))
        <==> HitBy(effects[0].proposal.value, effects[1..])
  {
    var all := before + effects;
    var p := effects[0].proposal.value;
    var changes := ChangesOf(all, 0);
    if HitLater(Placed(p, |before|), changes) {
      var n :| 0 <= n < |changes| && changes[n].index > |before| && Hits(changes[n].invalidation, p);
      ChangeOrigin(all, 0, n);
      assert all[changes[n].index] == effects[1..][changes[n].index - |before| - 1];
    }
    if HitBy(p, effects[1..]) {
      var j :| 0 <= j < |effects[1..]| && exists change | change in effects[1..][j].invalidations :: Hits(change, p);
      var change :| change in effects[1..][j].invalidations && Hits(change, p);
      assert all[|before| + 1 + j] == effects[1..][j];
      ChangeListed(all, 0, |before| + 1 + j, change);
    }
  }

  lemma {:induction false} RetainedAreSurvivors(effects: seq<Effect>, before: seq<Effect>, start: nat, changes: seq<Change>)
    requires start == |before| && changes == ChangesOf(before + effects, 0)
    ensures Retained(PlacedOf(effects, start), changes) == CandidatesOf(Survivors(effects))
    decreases |effects|
  {
    if effects != [] {
      assert before + effects == (before + [effects[0]]) + effects[1..];
      RetainedAreSurvivors(effects[1..], before + [effects[0]], start + 1, changes);
      var p := effects[0].proposal;
      var rest := PlacedOf(effects[1..], start + 1);
      var kept := if p.Some? && !HitBy(p.value, effects[1..]) then [p.value] else [];
      assert Survivors(effects) == kept + Survivors(effects[1..]);
      assert CandidatesOf(Survivors(effects)) == CandidatesOf(kept) + CandidatesOf(Survivors(effects[1..]));
      if p.Some? {
        HitLaterIsHitBy(before, effects);
        RetainedHead(Placed(p.value, start), rest, changes);
        assert PlacedOf(effects, start) == [Placed(p.value, start)] + rest;
        assert CandidatesOf(kept) == if kept == [] then [] else [p.value.candidate];
      } else {
        assert PlacedOf(effects, start) == rest;
        assert CandidatesOf(kept) == [];
      }
    }
  }

  lemma {:induction false} RetainedHead(p: Placed, rest: seq<Placed>, changes: seq<Change>)
    ensures Retained([p] + rest, changes)
         == (if HitLater(p, changes) then [] else [p.proposal.candidate]) + Retained(rest, changes)
  {
    assert ([p] + rest)[1..] == rest;
  }
}
