/**
 The event selector agrees with a ledger computed from the published changes alone: for each
 identity, the publication or removal with the newest revision. The ledger has no windows, no
 memberships and no activation.
 */
module SelectionLedger {
  import opened KeyOrder
  import opened Selection
  import opened SelectionRuns
  import opened SelectionHistory

  datatype Ledger =
    | Nothing
    | Published(revision: nat, observation: Observation)
    | Gone(revision: nat)

  /** The newest fact about `k` after one more change. At an equal revision a changed payload
      replaces a publication, and a removal replaces a publication but not a removal. */
  function Note(l: Ledger, c: Change, k: Key): Ledger {
    if !c.Names(k) then l
    else if c.Publish? then
      if l.Nothing? || c.revision > l.revision
         || (c.revision == l.revision && l.Published? && c.observation.version != l.observation.version)
      then Published(c.revision, c.observation) else l
    else
      if l.Nothing? || c.revision > l.revision || (c.revision == l.revision && l.Published?)
      then Gone(c.revision) else l
  }

  function LedgerOf(changes: seq<Change>, k: Key): Ledger {
    if changes == [] then Nothing
    else Note(LedgerOf(changes[..|changes| - 1], k), changes[|changes| - 1], k)
  }

  /** The window entry that a publication gives. */
  function EntryOf(o: Observation): SelectedMessage
    requires o.kind.HasMessage()
  {
    SelectedMessage(o.version, o.nativeOrder, o.kind.message, o.complete)
  }

  /** The record and the window entry of `k` show the ledger's fact; an identity without a record
      has no fact, or its branch tracks as many identities as it may. */
  ghost predicate Agrees(s: State, k: Key, l: Ledger) {
    if k in s.seen then
      !l.Nothing?
      && s.seen[k].revision == l.revision
      && (l.Gone? <==> s.seen[k].membership.Removed?)
      && (l.Published? ==> s.seen[k].version == l.observation.version
                           && s.seen[k].nativeOrder == l.observation.nativeOrder)
      && (forall r | r in Results(s, k.major) && r.message.id == k.minor ::
            l.Published? && l.observation.kind.HasMessage() && r == EntryOf(l.observation))
    else l.Nothing? || |BranchKeys(s.seen, k.major)| >= MAX_SEEN_RESULTS_PER_BRANCH
  }

  ghost predicate LimitOk(s: State, b: Branch) {
    Entry(s.branches, b).identityLimitReached ==> |BranchKeys(s.seen, b)| >= MAX_SEEN_RESULTS_PER_BRANCH
  }

  ghost predicate Refines(s: State, changes: seq<Change>) {
    (forall k :: Agrees(s, k, LedgerOf(changes, k))) && (forall b :: LimitOk(s, b))
  }

  // ----- what a change does to records and to window entries

  /** Whether a publication is recorded. */
  predicate Recorded(s: State, id: string, revision: nat, o: Observation) {
    AcceptsUpdate(s, o.branch, id, revision, o.version)
    && (Key(o.branch, id) in s.seen
        || (!Entry(s.branches, o.branch).identityLimitReached
            && |BranchKeys(s.seen, o.branch)| < MAX_SEEN_RESULTS_PER_BRANCH))
  }

  lemma {:induction false} NotRecorded(a: Activation, s: State, id: string, revision: nat, o: Observation)
    requires !Recorded(s, id, revision, o)
    ensures var t := ApplyPublished(a, s, id, revision, o).0;
      t.seen == s.seen && (forall b :: Results(t, b) == Results(s, b))
  {
  }

  /** A change that retires a record keeps everything else in it. */
  predicate KeptOrRetired(before: Seen, after: Seen) {
    after == before || (!before.membership.Removed? && after == before.(membership := Retired))
  }

  lemma {:induction false} PublishRecords(a: Activation, s: State, id: string, revision: nat, o: Observation, k: Key)
    requires a.Valid() && Inv(a, s) && Publish(id, revision, o).WellFormed() && Recorded(s, id, revision, o)
    requires k.major == o.branch
    ensures var t := ApplyPublished(a, s, id, revision, o).0;
      if k.minor == id then
        k in t.seen && t.seen[k].revision == revision && t.seen[k].version == o.version
        && t.seen[k].nativeOrder == o.nativeOrder && !t.seen[k].membership.Removed?
      else
        (k in t.seen <==> k in s.seen) && (k in s.seen ==> KeptOrRetired(s.seen[k], t.seen[k]))
  {
    var b := o.branch;
    var recorded := Record(s, id, revision, o);
    assert BranchOk(a, s, b, {});
    if k.minor != id && k in s.seen && s.seen[k].membership.Removed? {
      NotSelectedNotInWindow(a, s, b, k.minor);
    }
    assert Results(recorded, b) == Results(s, b);
    if !o.kind.Other? && IsHistorical(a, o) {
    } else if !Terminal(s, Key(b, id)) {
      if !o.kind.Other? {
        ApplyKeepsKeys(a, recorded, o);
        if k in recorded.seen { ApplyRecords(a, recorded, o, k); }
      }
    } else if a.family.Messages? {
      if k in recorded.seen { CorrectionRecords(a, recorded, id, s.seen[Key(b, id)], o, k); }
      CorrectionKeepsKeys(a, recorded, id, s.seen[Key(b, id)], o);
    }
  }

  lemma {:induction false} CorrectionKeepsKeys(a: Activation, s: State, id: string, previous: Seen, o: Observation)
    requires Key(o.branch, id) in s.seen && a.family.Messages?
    ensures ApplyCorrection(a, s, id, previous, o).0.seen.Keys == s.seen.Keys
  {
  }

  lemma {:induction false} CorrectionRecords(a: Activation, s: State, id: string, previous: Seen, o: Observation, k: Key)
    requires Key(o.branch, id) in s.seen && a.family.Messages? && k in s.seen
    requires !s.seen[Key(o.branch, id)].membership.Removed?
    ensures var t := ApplyCorrection(a, s, id, previous, o).0;
      k in t.seen
      && if k == Key(o.branch, id)
         then t.seen[k] == s.seen[k].(membership := t.seen[k].membership) && !t.seen[k].membership.Removed?
         else KeptOrRetired(s.seen[k], t.seen[k])
  {
  }

  lemma {:induction false} PublishEntries(a: Activation, s: State, id: string, revision: nat, o: Observation, r: SelectedMessage)
    requires a.Valid() && Inv(a, s) && Publish(id, revision, o).WellFormed() && Recorded(s, id, revision, o)
    requires r in Results(ApplyPublished(a, s, id, revision, o).0, o.branch)
    ensures r in Results(s, o.branch) || (o.kind.HasMessage() && r == EntryOf(o))
    ensures r.message.id == id ==> o.kind.HasMessage() && r == EntryOf(o)
  {
    var b, k := o.branch, Key(o.branch, id);
    assert BranchOk(a, s, b, {});
    var recorded := Record(s, id, revision, o);
    var before := Results(s, b);
    assert Results(recorded, b) == before;
    WithoutSpec(before, id);
    if !o.kind.Other? && IsHistorical(a, o) {
    } else if !Terminal(s, k) {
      NotSelectedRecord(a, s, k);
      NotSelectedNotInWindow(a, s, b, id);
      if !o.kind.Other? {
        ApplyEntries(a, recorded, o, r);
      }
    } else if !a.family.Messages? {
    } else {
      CorrectionEntries(a, recorded, id, s.seen[k], o, r);
      assert k in s.seen && RecordOk(a, s, k);
      forall x | x in before && x.message.id == id
        ensures EntryOk(s, b, x)
      {
      }
      if !s.seen[k].membership.Selected? { NotSelectedNotInWindow(a, s, b, id); }
    }
  }

  lemma {:induction false} NotSelectedRecord(a: Activation, s: State, k: Key)
    requires Inv(a, s) && !Terminal(s, k)
    ensures k in s.seen ==> !s.seen[k].membership.Selected?
  {
    assert BranchOk(a, s, k.major, {});
    if k in s.seen { assert RecordOk(a, s, k); }
  }

  lemma {:induction false} ApplyEntries(a: Activation, s: State, o: Observation, r: SelectedMessage)
    requires r in Results(Apply(a, s, o).0, o.branch)
    ensures r in Results(s, o.branch) || (o.kind.HasMessage() && r == EntryOf(o))
  {
    ApplyWindow(a, s, o);
  }

  lemma {:induction false} CorrectionEntries(a: Activation, s: State, id: string, previous: Seen, o: Observation, r: SelectedMessage)
    requires a.family.Messages? && Key(o.branch, id) in s.seen
    requires o.kind.HasMessage() ==> o.kind.message.id == id
    requires Distinct(Results(s, o.branch))
    requires r in Results(ApplyCorrection(a, s, id, previous, o).0, o.branch)
    requires forall x | x in Results(s, o.branch) && x.message.id == id ::
               previous.membership.Selected? && x.nativeOrder == previous.nativeOrder
    ensures r in Results(s, o.branch) || (o.kind.HasMessage() && r == EntryOf(o))
    ensures r.message.id == id ==> o.kind.HasMessage() && r == EntryOf(o)
  {
    var before := Results(s, o.branch);
    var now := Results(ApplyCorrection(a, s, id, previous, o).0, o.branch);
    WithoutSpec(before, id);
    if previous.membership.Historical? || previous.membership.Retired? || previous.membership.Removed? {
      assert now == before;
    } else if o.kind.HasMessage() && now == Replace(before, o, id) {
      ReplaceSpec(before, o, id);
      var i :| 0 <= i < |now| && now[i] == r;
      assert before[i] in before;
    } else {
      assert now == Without(before, id) || now == []
             || (!HasId(before, id) && now == before);
      assert !HasId(before, id) ==> forall i | 0 <= i < |before| :: before[i].message.id != id;
    }
  }

  // ----- the ledger over steps and runs

  lemma {:induction false} NoteAgreesWithAccepts(s: State, l: Ledger, id: string, revision: nat, o: Observation)
    requires Key(o.branch, id) in s.seen && Agrees(s, Key(o.branch, id), l)
    ensures Note(l, Publish(id, revision, o), Key(o.branch, id))
         == if AcceptsUpdate(s, o.branch, id, revision, o.version) then Published(revision, o) else l
  {
  }

  lemma {:induction false} PublishRefines(a: Activation, s: State, c: Change, k: Key, l: Ledger)
    requires a.Valid() && Inv(a, s) && c.WellFormed() && c.Publish? && k.major == c.OnBranch()
    requires Agrees(s, k, l) && LimitOk(s, k.major)
    ensures Agrees(Step(a, s, c).0, k, Note(l, c, k))
  {
    var o, id := c.observation, c.id;
    var b := o.branch;
    var t := Step(a, s, c).0;
    if !Recorded(s, id, c.revision, o) {
      NotRecorded(a, s, id, c.revision, o);
      assert BranchKeys(t.seen, b) == BranchKeys(s.seen, b);
      if k in s.seen && c.Names(k) { NoteAgreesWithAccepts(s, l, id, c.revision, o); }
    } else {
      PublishRecords(a, s, id, c.revision, o, k);
      PublishGrows(a, s, id, c.revision, o);
      if k.minor == id && k in s.seen { NoteAgreesWithAccepts(s, l, id, c.revision, o); }
      forall r | r in Results(t, b) && r.message.id == k.minor
        ensures Note(l, c, k).Published? && Note(l, c, k).observation.kind.HasMessage()
                && r == EntryOf(Note(l, c, k).observation)
      {
        PublishEntries(a, s, id, c.revision, o, r);
        if k.minor != id {
          assert r in Results(s, b) && BranchOk(a, s, b, {}) && EntryOk(s, b, r);
        }
      }
    }
  }

  lemma {:induction false} PublishGrows(a: Activation, s: State, id: string, revision: nat, o: Observation)
    requires a.Valid() && Inv(a, s) && Publish(id, revision, o).WellFormed() && Recorded(s, id, revision, o)
    ensures BranchKeys(s.seen, o.branch) <= BranchKeys(ApplyPublished(a, s, id, revision, o).0.seen, o.branch)
    ensures |BranchKeys(s.seen, o.branch)| <= |BranchKeys(ApplyPublished(a, s, id, revision, o).0.seen, o.branch)|
  {
    var before, now := BranchKeys(s.seen, o.branch), BranchKeys(ApplyPublished(a, s, id, revision, o).0.seen, o.branch);
    forall k | k in before
      ensures k in now
    {
      PublishRecords(a, s, id, revision, o, k);
    }
    SubsetSize(before, now);
  }

  lemma {:induction false} RemoveRefines(a: Activation, s: State, c: Change, k: Key, l: Ledger)
    requires Inv(a, s) && c.Remove? && k.major == c.branch
    requires Agrees(s, k, l)
    ensures Agrees(Step(a, s, c).0, k, Note(l, c, k))
  {
    var b, id := c.branch, c.id;
    var t := Step(a, s, c).0;
    WithoutSpec(Results(s, b), id);
    assert Results(t, b) == Results(s, b) || Results(t, b) == Without(Results(s, b), id);
    assert BranchKeys(s.seen, b) <= BranchKeys(t.seen, b);
    SubsetSize(BranchKeys(s.seen, b), BranchKeys(t.seen, b));
  }

  lemma {:induction false} RetireRefines(s: State, t: State, b: Branch, k: Key, l: Ledger)
    requires k.major == b && Agrees(s, k, l)
    requires t.seen == RetireWindow(s, b).seen && Results(t, b) == []
    ensures Agrees(t, k, l)
  {
    assert BranchKeys(t.seen, b) == BranchKeys(s.seen, b);
  }

  lemma {:induction false} StepRefines(a: Activation, s: State, c: Change, k: Key, l: Ledger)
    requires a.Valid() && Inv(a, s) && c.WellFormed()
    requires Agrees(s, k, l) && LimitOk(s, k.major)
    ensures Agrees(Step(a, s, c).0, k, Note(l, c, k))
  {
    var t := Step(a, s, c).0;
    if k.major != c.OnBranch() {
      StepKeepsOtherBranches(a, s, c, k.major);
      SameBranchKeys(s, t, k.major);
    } else {
      match c
      case Publish(_, _, _) => PublishRefines(a, s, c, k, l);
      case Remove(_, _, _) => RemoveRefines(a, s, c, k, l);
      case Gap(_) => assert Results(t, k.major) == Results(s, k.major);
      case Reset(_) => RetireRefines(s, t, c.branch, k, l);
      case Restore(_) => RetireRefines(s, t, c.branch, k, l);
    }
  }

  lemma {:induction false} StepLimitOk(a: Activation, s: State, c: Change, b: Branch)
    requires a.Valid() && Inv(a, s) && c.WellFormed() && LimitOk(s, b)
    ensures LimitOk(Step(a, s, c).0, b)
  {
    var t := Step(a, s, c).0;
    if b != c.OnBranch() {
      StepKeepsOtherBranches(a, s, c, b);
      SameBranchKeys(s, t, b);
    } else {
      match c
      case Publish(id, revision, o) =>
        if Recorded(s, id, revision, o) {
          PublishGrows(a, s, id, revision, o);
          LimitFlagKept(a, s, id, revision, o);
        } else {
          NotRecorded(a, s, id, revision, o);
        }
      case Remove(_, _, _) =>
        assert BranchKeys(s.seen, b) <= BranchKeys(t.seen, b);
        SubsetSize(BranchKeys(s.seen, b), BranchKeys(t.seen, b));
      case _ =>
        assert BranchKeys(t.seen, b) == BranchKeys(s.seen, b);
    }
  }

  lemma {:induction false} LimitFlagKept(a: Activation, s: State, id: string, revision: nat, o: Observation)
    requires Recorded(s, id, revision, o)
    ensures Entry(ApplyPublished(a, s, id, revision, o).0.branches, o.branch).identityLimitReached
         == Entry(s.branches, o.branch).identityLimitReached
  {
    var recorded := Record(s, id, revision, o);
    assert Entry(Apply(a, recorded, o).0.branches, o.branch).identityLimitReached
        == Entry(s.branches, o.branch).identityLimitReached;
  }

  /** After any run from the empty state, records and windows show the newest published facts. */
  lemma {:induction false} RunRefinesLedger(a: Activation, changes: seq<Change>)
    requires a.Valid() && WellFormed(changes)
    ensures Refines(Run(a, EMPTY, changes), changes)
    decreases |changes|
  {
    if changes == [] {
      assert forall k :: Agrees(EMPTY, k, LedgerOf([], k));
    } else {
      var prefix, c := changes[..|changes| - 1], changes[|changes| - 1];
      var s := Run(a, EMPTY, prefix);
      RunRefinesLedger(a, prefix);
      EmptyOk(a);
      RunOk(a, EMPTY, prefix);
      assert changes == prefix + [c];
      RunSplits(a, EMPTY, prefix, [c]);
      assert Run(a, s, [c]) == Step(a, s, c).0;
      forall k
        ensures Agrees(Step(a, s, c).0, k, LedgerOf(changes, k))
      {
        StepRefines(a, s, c, k, LedgerOf(prefix, k));
      }
      forall b
        ensures LimitOk(Step(a, s, c).0, b)
      {
        StepLimitOk(a, s, c, b);
      }
    }
  }
}
