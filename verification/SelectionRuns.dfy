/** What the event selector keeps over every run of published changes. */
module SelectionRuns {
  import opened Text
  import opened KeyOrder
  import opened Selection

  datatype Change =
    | Publish(id: string, revision: nat, observation: Observation)
    | Remove(branch: Branch, id: string, revision: nat)
    | Gap(branch: Branch)
    | Reset(branch: Branch)
    | Restore(branch: Branch)
  {
    function OnBranch(): Branch {
      if Publish? then observation.branch else branch
    }

    predicate Names(k: Key) {
      (Publish? || Remove?) && k == Key(OnBranch(), id)
    }

    /** The source adapter publishes a message under its own identity. */
    predicate WellFormed() {
      Publish? && observation.kind.HasMessage() ==> observation.kind.message.id == id
    }
  }

  function Step(a: Activation, s: State, c: Change): (State, Outcome) {
    match c
    case Publish(id, revision, o) => ApplyPublished(a, s, id, revision, o)
    case Remove(b, id, revision) => (RemoveResult(s, b, id, revision).0, Updated)
    case Gap(b) => (MarkCoverageGap(s, b), Updated)
    case Reset(b) => (ResetSegment(s, b), Updated)
    case Restore(b) => (RestoreCoverage(s, b), Updated)
  }

  function Run(a: Activation, s: State, changes: seq<Change>): State
    decreases |changes|
  {
    if changes == [] then s else Run(a, Step(a, s, changes[0]).0, changes[1..])
  }

  ghost predicate WellFormed(changes: seq<Change>) {
    forall c | c in changes :: c.WellFormed()
  }

  // ----- the invariant

  predicate EntryOk(s: State, b: Branch, r: SelectedMessage) {
    var k := Key(b, r.message.id);
    k in s.seen && s.seen[k].terminalSeen && s.seen[k].membership.Selected?
    && s.seen[k].version == r.version && s.seen[k].nativeOrder == r.nativeOrder
  }

  predicate Distinct(results: seq<SelectedMessage>) {
    forall i, j | 0 <= i < j < |results| :: results[i].message.id != results[j].message.id
  }

  /** A record is terminal exactly when its membership is known, and a selected message is in
      the window. */
  predicate RecordOk(a: Activation, s: State, k: Key) {
    k in s.seen ==>
      (s.seen[k].terminalSeen <==> !s.seen[k].membership.Unknown?)
      && (a.family.Messages? && s.seen[k].membership.Selected? ==> InWindow(s, k.major, k.minor))
  }

  /** The conditions on one branch; the identities of `skip` may be in the middle of a change. */
  ghost predicate BranchOk(a: Activation, s: State, b: Branch, skip: set<string>) {
    |Results(s, b)| <= a.Size()
    && Distinct(Results(s, b))
    && (!a.family.Messages? ==> Results(s, b) == [])
    && (forall r | r in Results(s, b) && r.message.id !in skip :: EntryOk(s, b, r))
    && (forall k | k in s.seen && k.major == b && k.minor !in skip :: RecordOk(a, s, k))
    && |BranchKeys(s.seen, b)| <= MAX_SEEN_RESULTS_PER_BRANCH
  }

  ghost predicate Inv(a: Activation, s: State) {
    forall b :: BranchOk(a, s, b, {})
  }

  // ----- branches do not affect each other

  /** Both states hold the same window and the same records for `b`. */
  ghost predicate SameBranch(s: State, t: State, b: Branch) {
    (b in s.branches <==> b in t.branches)
    && Entry(s.branches, b) == Entry(t.branches, b)
    && (forall k: Key | k.major == b :: k in s.seen <==> k in t.seen)
    && (forall k | k in s.seen && k.major == b :: s.seen[k] == t.seen[k])
  }

  lemma {:induction false} SameBranchKeys(s: State, t: State, b: Branch)
    requires SameBranch(s, t, b)
    ensures BranchKeys(s.seen, b) == BranchKeys(t.seen, b)
  {
  }

  lemma {:induction false} SameBranchOk(a: Activation, s: State, t: State, b: Branch)
    requires SameBranch(s, t, b) && BranchOk(a, s, b, {})
    ensures BranchOk(a, t, b, {})
  {
    SameBranchKeys(s, t, b);
    forall r | r in Results(t, b)
      ensures EntryOk(t, b, r)
    {
      assert EntryOk(s, b, r);
    }
    forall k | k in t.seen && k.major == b
      ensures RecordOk(a, t, k)
    {
      assert RecordOk(a, s, k) && Results(s, b) == Results(t, b);
    }
  }

  /** A change on one branch leaves every other branch as it was. */
  lemma {:induction false} StepKeepsOtherBranches(a: Activation, s: State, c: Change, b: Branch)
    requires b != c.OnBranch()
    ensures SameBranch(s, Step(a, s, c).0, b)
  {
    if c.Publish? {
      PublishKeepsOtherBranches(a, s, c.id, c.revision, c.observation, b);
    }
  }

  lemma {:induction false} PublishKeepsOtherBranches(a: Activation, s: State, id: string, revision: nat, o: Observation, b: Branch)
    requires b != o.branch
    ensures SameBranch(s, ApplyPublished(a, s, id, revision, o).0, b)
  {
    PublishKeepsEntry(a, s, id, revision, o, b);
    forall k: Key | k.major == b
      ensures k in s.seen <==> k in ApplyPublished(a, s, id, revision, o).0.seen
      ensures k in s.seen ==> s.seen[k] == ApplyPublished(a, s, id, revision, o).0.seen[k]
    {
      PublishKeepsKey(a, s, id, revision, o, k);
    }
  }

  lemma {:induction false} PublishKeepsEntry(a: Activation, s: State, id: string, revision: nat, o: Observation, b: Branch)
    requires b != o.branch
    ensures KeepsEntry(s, ApplyPublished(a, s, id, revision, o).0, b)
  {
    var recorded := Record(s, id, revision, o);
    ApplyKeepsEntry(a, recorded, o, b);
    if Key(o.branch, id) in s.seen && a.family.Messages? {
      CorrectionKeepsEntry(a, recorded, id, s.seen[Key(o.branch, id)], o, b);
    }
  }

  predicate KeepsEntry(s: State, t: State, b: Branch) {
    (b in s.branches <==> b in t.branches) && Entry(s.branches, b) == Entry(t.branches, b)
  }

  lemma {:induction false} ApplyKeepsEntry(a: Activation, s: State, o: Observation, b: Branch)
    requires b != o.branch
    ensures KeepsEntry(s, Apply(a, s, o).0, b)
  {}

  lemma {:induction false} CorrectionKeepsEntry(a: Activation, s: State, id: string, previous: Seen, o: Observation, b: Branch)
    requires b != o.branch && Key(o.branch, id) in s.seen && a.family.Messages?
    ensures KeepsEntry(s, ApplyCorrection(a, s, id, previous, o).0, b)
  {}

  lemma {:induction false} PublishKeepsKey(a: Activation, s: State, id: string, revision: nat, o: Observation, k: Key)
    requires k.major != o.branch
    ensures KeepsKey(s, ApplyPublished(a, s, id, revision, o).0, k)
  {
    var recorded := Record(s, id, revision, o);
    ApplyKeepsKey(a, recorded, o, k);
    if Key(o.branch, id) in s.seen && a.family.Messages? {
      CorrectionKeepsKey(a, recorded, id, s.seen[Key(o.branch, id)], o, k);
    }
  }

  predicate KeepsKey(s: State, t: State, k: Key) {
    (k in s.seen <==> k in t.seen) && (k in s.seen ==> s.seen[k] == t.seen[k])
  }

  lemma {:induction false} ApplyKeepsKey(a: Activation, s: State, o: Observation, k: Key)
    requires k.major != o.branch
    ensures KeepsKey(s, Apply(a, s, o).0, k)
  {}

  lemma {:induction false} CorrectionKeepsKey(a: Activation, s: State, id: string, previous: Seen, o: Observation, k: Key)
    requires k.major != o.branch && Key(o.branch, id) in s.seen && a.family.Messages?
    ensures KeepsKey(s, ApplyCorrection(a, s, id, previous, o).0, k)
  {}

  // ----- every change keeps the conditions on its branch

  lemma {:induction false} WithoutSpec(results: seq<SelectedMessage>, id: string)
    ensures forall r :: r in Without(results, id) <==> r in results && r.message.id != id
    ensures |Without(results, id)| <= |results|
    ensures Distinct(results) ==> Distinct(Without(results, id))
  {
    if results != [] {
      WithoutSpec(results[1..], id);
      var rest := Without(results[1..], id);
      if Distinct(results) {
        assert Distinct(results[1..]);
        assert forall j | 0 <= j < |rest| :: rest[j] in results[1..];
      }
    }
  }

  lemma {:induction false} RecordStarts(a: Activation, s: State, id: string, revision: nat, o: Observation)
    requires BranchOk(a, s, o.branch, {})
    requires Key(o.branch, id) in s.seen || |BranchKeys(s.seen, o.branch)| < MAX_SEEN_RESULTS_PER_BRANCH
    ensures BranchOk(a, Record(s, id, revision, o), o.branch, {id})
  {
    var t := Record(s, id, revision, o);
    var k := Key(o.branch, id);
    assert BranchKeys(t.seen, o.branch) == BranchKeys(s.seen, o.branch) + {k};
    assert k in s.seen ==> k in BranchKeys(s.seen, o.branch);
    forall r | r in Results(t, o.branch) && r.message.id != id
      ensures EntryOk(t, o.branch, r)
    {
      assert EntryOk(s, o.branch, r);
    }
    forall x | x in t.seen && x.major == o.branch && x.minor != id
      ensures RecordOk(a, t, x)
    {
      assert RecordOk(a, s, x);
    }
  }

  /** An identity that leaves the window may take any membership that is known and not selected. */
  lemma {:induction false} LeavesWindow(a: Activation, s: State, b: Branch, id: string, membership: Membership)
    requires BranchOk(a, s, b, {id})
    requires Key(b, id) in s.seen && s.seen[Key(b, id)].terminalSeen
    requires !membership.Unknown? && !membership.Selected?
    ensures BranchOk(a, SetMembership(Discard(s, b, id), Key(b, id), membership), b, {})
  {
    var t := SetMembership(Discard(s, b, id), Key(b, id), membership);
    WithoutSpec(Results(s, b), id);
    assert Results(t, b) == Without(Results(s, b), id);
    assert BranchKeys(t.seen, b) == BranchKeys(s.seen, b);
    forall r | r in Results(t, b)
      ensures EntryOk(t, b, r)
    {
      assert EntryOk(s, b, r);
    }
    forall x | x in t.seen && x.major == b
      ensures RecordOk(a, t, x)
    {
      if x.minor != id {
        assert RecordOk(a, s, x);
        if InWindow(s, b, x.minor) { StaysInWindow(Results(s, b), id, x.minor); }
      }
    }
  }

  lemma {:induction false} StaysInWindow(results: seq<SelectedMessage>, id: string, other: string)
    requires id != other
    requires HasId(results, other)
    ensures HasId(Without(results, id), other)
  {
    var i :| 0 <= i < |results| && results[i].message.id == other;
    WithoutSpec(results, id);
    assert results[i] in Without(results, id);
  }

  /** Emptying a window retires every selected identity of the branch. */
  lemma {:induction false} RetireWindowOk(a: Activation, s: State, b: Branch, skip: set<string>)
    requires BranchOk(a, s, b, skip)
    ensures BranchOk(a, RetireWindow(s, b), b, skip)
    ensures Results(RetireWindow(s, b), b) == []
  {
    var t := RetireWindow(s, b);
    assert BranchKeys(t.seen, b) == BranchKeys(s.seen, b);
    forall x | x in t.seen && x.major == b && x.minor !in skip
      ensures RecordOk(a, t, x)
    {
      assert RecordOk(a, s, x);
    }
  }

  lemma {:induction false} CoverageOk(a: Activation, s: State, t: State, b: Branch, skip: set<string>)
    requires BranchOk(a, s, b, skip)
    requires t.seen == s.seen && Results(t, b) == Results(s, b)
    ensures BranchOk(a, t, b, skip)
  {
    forall r | r in Results(t, b) && r.message.id !in skip
      ensures EntryOk(t, b, r)
    {
      assert EntryOk(s, b, r);
    }
    forall x | x in t.seen && x.major == b && x.minor !in skip
      ensures RecordOk(a, t, x)
    {
      assert RecordOk(a, s, x) && Results(s, b) == Results(t, b);
    }
  }

  /** Completes a change on `id` that leaves its record terminal and outside an empty window. */
  lemma {:induction false} RetireOne(a: Activation, s: State, b: Branch, id: string, membership: Membership)
    requires BranchOk(a, s, b, {id})
    requires forall r | r in Results(s, b) :: r.message.id != id
    requires Key(b, id) in s.seen && s.seen[Key(b, id)].terminalSeen
    requires !membership.Unknown? && (membership.Selected? ==> !a.family.Messages?)
    ensures BranchOk(a, SetMembership(s, Key(b, id), membership), b, {})
  {
    var t := SetMembership(s, Key(b, id), membership);
    assert BranchKeys(t.seen, b) == BranchKeys(s.seen, b);
    forall r | r in Results(t, b)
      ensures EntryOk(t, b, r)
    {
      assert EntryOk(s, b, r);
    }
    forall x | x in t.seen && x.major == b
      ensures RecordOk(a, t, x)
    {
      if x.minor != id {
        assert RecordOk(a, s, x) && Results(s, b) == Results(t, b);
      }
    }
  }

  function Added(s: State, o: Observation): seq<SelectedMessage>
    requires o.kind.HasMessage()
  {
    Results(s, o.branch) + [SelectedMessage(o.version, o.nativeOrder, o.kind.message, o.complete)]
  }

  /** A push into a window that is within its size drops at most the oldest entry. */
  lemma {:induction false} PushShape(a: Activation, s: State, o: Observation) returns (excess: nat, dropped: set<string>)
    requires a.Valid() && o.kind.HasMessage() && |Results(s, o.branch)| <= a.Size()
    ensures excess == (if |Results(s, o.branch)| == a.Size() then 1 else 0)
    ensures dropped == if excess == 0 then {} else {Added(s, o)[0].message.id}
    ensures Results(Push(a, s, o), o.branch) == Added(s, o)[excess..]
    ensures Push(a, s, o).seen == RetireIds(s.seen, o.branch, dropped)
  {
    var added := Added(s, o);
    excess := if |added| > a.Size() then |added| - a.Size() else 0;
    dropped := Ids(added[..excess]);
    if excess == 1 {
      assert added[..1] == [added[0]];
      assert added[0] in added[..1];
    }
  }

  ghost predicate NewSelection(s: State, o: Observation) {
    o.kind.HasMessage()
    && (forall r | r in Results(s, o.branch) :: r.message.id != o.kind.message.id)
    && (var k := Key(o.branch, o.kind.message.id);
        k in s.seen && s.seen[k].terminalSeen && s.seen[k].version == o.version
        && s.seen[k].nativeOrder == o.nativeOrder)
  }

  /** A push of a new identity, once its record is selected. */
  lemma {:induction false} PushOk(a: Activation, s: State, o: Observation)
    requires a.Valid() && a.family.Messages? && NewSelection(s, o)
    requires BranchOk(a, s, o.branch, {o.kind.message.id})
    ensures BranchOk(a, SetMembership(Push(a, s, o), Key(o.branch, o.kind.message.id), Selected), o.branch, {})
  {
    var b, id := o.branch, o.kind.message.id;
    var before, added := Results(s, b), Added(s, o);
    var excess, dropped := PushShape(a, s, o);
    var t := SetMembership(Push(a, s, o), Key(b, id), Selected);
    assert Results(t, b) == added[excess..];
    assert BranchKeys(t.seen, b) == BranchKeys(s.seen, b);
    assert Distinct(added);
    forall r | r in Results(t, b)
      ensures EntryOk(t, b, r)
    {
      PushedEntryOk(a, s, o, r);
    }
    forall x | x in t.seen && x.major == b
      ensures RecordOk(a, t, x)
    {
      PushedRecordOk(a, s, o, x);
    }
  }

  lemma {:induction false} PushedEntryOk(a: Activation, s: State, o: Observation, r: SelectedMessage)
    requires a.Valid() && a.family.Messages? && NewSelection(s, o)
    requires BranchOk(a, s, o.branch, {o.kind.message.id})
    requires r in Results(Push(a, s, o), o.branch)
    ensures EntryOk(SetMembership(Push(a, s, o), Key(o.branch, o.kind.message.id), Selected), o.branch, r)
  {
    var excess, dropped := PushShape(a, s, o);
    var added := Added(s, o);
    var i :| excess <= i < |added| && added[i] == r;
    if i < |added| - 1 { OlderEntryOk(a, s, o, i); } else { NewEntryOk(a, s, o); }
  }

  /** An entry that was in the window and stays. */
  lemma {:induction false} OlderEntryOk(a: Activation, s: State, o: Observation, i: nat)
    requires a.Valid() && a.family.Messages? && NewSelection(s, o)
    requires BranchOk(a, s, o.branch, {o.kind.message.id})
    requires i < |Added(s, o)| - 1 && |Added(s, o)| - i <= |Results(Push(a, s, o), o.branch)|
    ensures EntryOk(SetMembership(Push(a, s, o), Key(o.branch, o.kind.message.id), Selected), o.branch, Added(s, o)[i])
  {
    var excess, dropped := PushShape(a, s, o);
    var before := Results(s, o.branch);
    var r := Added(s, o)[i];
    assert r == before[i] && r in before && EntryOk(s, o.branch, r);
    if excess == 1 { assert before[0].message.id != before[i].message.id; }
    assert r.message.id !in dropped;
    assert Push(a, s, o).seen[Key(o.branch, r.message.id)] == s.seen[Key(o.branch, r.message.id)];
  }

  /** The entry that the push appends. */
  lemma {:induction false} NewEntryOk(a: Activation, s: State, o: Observation)
    requires a.Valid() && a.family.Messages? && NewSelection(s, o)
    requires BranchOk(a, s, o.branch, {o.kind.message.id})
    ensures EntryOk(SetMembership(Push(a, s, o), Key(o.branch, o.kind.message.id), Selected), o.branch, Added(s, o)[|Added(s, o)| - 1])
  {
    var excess, dropped := PushShape(a, s, o);
    var before := Results(s, o.branch);
    if excess == 1 { assert Added(s, o)[0] == before[0] && before[0] in before; }
    assert o.kind.message.id !in dropped;
  }

  lemma {:induction false} PushedRecordOk(a: Activation, s: State, o: Observation, x: Key)
    requires a.Valid() && a.family.Messages? && NewSelection(s, o)
    requires BranchOk(a, s, o.branch, {o.kind.message.id})
    requires x in s.seen && x.major == o.branch
    ensures RecordOk(a, SetMembership(Push(a, s, o), Key(o.branch, o.kind.message.id), Selected), x)
  {
    var excess, dropped := PushShape(a, s, o);
    var t := SetMembership(Push(a, s, o), Key(o.branch, o.kind.message.id), Selected);
    var now := Results(t, o.branch);
    assert now == Added(s, o)[excess..];
    if x.minor == o.kind.message.id {
      assert now[|now| - 1].message.id == x.minor;
    } else {
      assert RecordOk(a, s, x);
      if x.minor !in dropped && InWindow(s, o.branch, x.minor) { OutlastsPush(s, o, x.minor, excess, dropped, now); }
    }
  }

  /** What is not dropped stays in the window. */
  lemma {:induction false} OutlastsPush(s: State, o: Observation, id: string, excess: nat, dropped: set<string>, now: seq<SelectedMessage>)
    requires o.kind.HasMessage() && excess <= |Added(s, o)| && excess <= 1 && now == Added(s, o)[excess..]
    requires dropped == if excess == 0 then {} else {Added(s, o)[0].message.id}
    requires id !in dropped && InWindow(s, o.branch, id)
    ensures exists i :: 0 <= i < |now| && now[i].message.id == id
  {
    var before := Results(s, o.branch);
    var i :| 0 <= i < |before| && before[i].message.id == id;
    assert now[i - excess] == before[i];
  }

  lemma {:induction false} ReplaceSpec(results: seq<SelectedMessage>, o: Observation, id: string)
    requires o.kind.HasMessage() && Distinct(results) && o.kind.message.id == id
    ensures var t := Replace(results, o, id);
      |t| == |results|
      && forall i | 0 <= i < |results| ::
           if results[i].message.id == id
           then t[i] == results[i].(version := o.version, message := o.kind.message, complete := o.complete)
           else t[i] == results[i]
  {
    if results != [] && results[0].message.id != id {
      ReplaceSpec(results[1..], o, id);
    }
  }

  lemma {:induction false} CorrectInPlace(a: Activation, s: State, id: string, o: Observation)
    requires BranchOk(a, s, o.branch, {id})
    requires InWindow(s, o.branch, id) && o.kind.HasMessage() && o.kind.message.id == id
    requires Key(o.branch, id) in s.seen && s.seen[Key(o.branch, id)].terminalSeen
    requires s.seen[Key(o.branch, id)].version == o.version
    requires forall r | r in Results(s, o.branch) && r.message.id == id ::
               r.nativeOrder == s.seen[Key(o.branch, id)].nativeOrder
    ensures var t := WithResults(s, o.branch, Replace(Results(s, o.branch), o, id));
      BranchOk(a, SetMembership(t, Key(o.branch, id), Selected), o.branch, {})
  {
    var b := o.branch;
    var before := Results(s, b);
    ReplaceSpec(before, o, id);
    var t := SetMembership(WithResults(s, b, Replace(before, o, id)), Key(b, id), Selected);
    var now := Results(t, b);
    assert now == Replace(before, o, id);
    assert forall i | 0 <= i < |now| :: now[i].message.id == before[i].message.id;
    assert BranchKeys(t.seen, b) == BranchKeys(s.seen, b);
    forall r | r in now
      ensures EntryOk(t, b, r)
    {
      var i :| 0 <= i < |now| && now[i] == r;
      assert before[i] in before;
      if before[i].message.id != id { assert EntryOk(s, b, before[i]); }
    }
    forall x | x in t.seen && x.major == b
      ensures RecordOk(a, t, x)
    {
      if x.minor != id { assert RecordOk(a, s, x); }
      if InWindow(s, b, x.minor) {
        var i :| 0 <= i < |before| && before[i].message.id == x.minor;
        assert now[i].message.id == x.minor;
      }
    }
  }

  // ----- the invariant over steps and runs

  lemma {:induction false} ApplyOk(a: Activation, s: State, id: string, revision: nat, o: Observation)
    requires a.Valid() && Publish(id, revision, o).WellFormed()
    requires BranchOk(a, s, o.branch, {id})
    requires !o.kind.Other? && !IsHistorical(a, o)
    requires forall r | r in Results(s, o.branch) :: r.message.id != id
    requires Key(o.branch, id) in s.seen && s.seen[Key(o.branch, id)].terminalSeen
    requires s.seen[Key(o.branch, id)].version == o.version && s.seen[Key(o.branch, id)].nativeOrder == o.nativeOrder
    ensures var (t, outcome) := Apply(a, s, o);
      Key(o.branch, id) in t.seen
      && BranchOk(a, SetMembership(t, Key(o.branch, id),
                    if outcome.Chosen? || outcome.Updated? then Selected else Excluded), o.branch, {})
  {
    var (t, outcome) := Apply(a, s, o);
    var cleared := WithDiagnostic(s, o.branch, None);
    if (outcome.Chosen? || outcome.Updated?) && o.kind.HasMessage() {
      CoverageOk(a, s, cleared, o.branch, {id});
      PushOk(a, cleared, o);
    } else {
      CoverageOk(a, s, t, o.branch, {id});
      RetireOne(a, t, o.branch, id, if outcome.Chosen? || outcome.Updated? then Selected else Excluded);
    }
  }

  lemma {:induction false} CorrectionOk(a: Activation, s: State, id: string, previous: Seen, o: Observation)
    requires a.family.Messages?
    requires o.kind.HasMessage() ==> o.kind.message.id == id
    requires BranchOk(a, s, o.branch, {id})
    requires Key(o.branch, id) in s.seen && s.seen[Key(o.branch, id)].terminalSeen
    requires s.seen[Key(o.branch, id)].version == o.version && s.seen[Key(o.branch, id)].nativeOrder == o.nativeOrder
    requires s.seen[Key(o.branch, id)].membership == if previous.membership.Removed? then Retired else previous.membership
    requires !previous.membership.Unknown?
    requires previous.membership.Selected? <==> InWindow(s, o.branch, id)
    requires forall r | r in Results(s, o.branch) && r.message.id == id :: r.nativeOrder == previous.nativeOrder
    ensures BranchOk(a, ApplyCorrection(a, s, id, previous, o).0, o.branch, {})
  {
    var b := o.branch;
    var k := Key(b, id);
    var verdict := EventFilters(a, o);
    var noted := WithDiagnostic(s, b, if verdict.Reject? then Some(verdict.diagnostic) else None);
    CoverageOk(a, s, noted, b, {id});
    if previous.membership.Historical? || previous.membership.Retired? || previous.membership.Removed? {
      assert forall i | 0 <= i < |Results(s, b)| :: Results(s, b)[i].message.id != id;
      RetireOne(a, s, b, id, s.seen[k].membership);
      assert SetMembership(s, k, s.seen[k].membership) == s;
    } else if !(verdict.Match? && o.contextIsObject
                && a.condition(o, Entry(s.branches, b).coverageComplete) == Matched) {
      LeavesWindow(a, noted, b, id, Excluded);
    } else if previous.nativeOrder != o.nativeOrder || !InWindow(s, b, id) {
      RetireWindowOk(a, noted, b, {id});
      var emptied := WithCoverage(RetireWindow(noted, b), b, false);
      CoverageOk(a, RetireWindow(noted, b), emptied, b, {id});
      RetireOne(a, emptied, b, id, Retired);
    } else {
      assert Results(noted, b) == Results(s, b);
      CorrectInPlace(a, noted, id, o);
    }
  }

  /** No window entry names an identity that is not recorded as selected. */
  lemma {:induction false} NotSelectedNotInWindow(a: Activation, s: State, b: Branch, id: string)
    requires BranchOk(a, s, b, {})
    requires Key(b, id) in s.seen ==> !s.seen[Key(b, id)].membership.Selected?
    ensures forall r | r in Results(s, b) :: r.message.id != id
  {
    forall r | r in Results(s, b)
      ensures r.message.id != id
    {
      assert EntryOk(s, b, r);
    }
  }

  lemma {:induction false} PublishOk(a: Activation, s: State, id: string, revision: nat, o: Observation)
    requires a.Valid() && Publish(id, revision, o).WellFormed()
    requires BranchOk(a, s, o.branch, {})
    ensures BranchOk(a, ApplyPublished(a, s, id, revision, o).0, o.branch, {})
  {
    var b := o.branch;
    var k := Key(b, id);
    if (k !in s.seen && b in s.branches && s.branches[b].identityLimitReached)
       || !AcceptsUpdate(s, b, id, revision, o.version) {
    } else if k !in s.seen && |BranchKeys(s.seen, b)| >= MAX_SEEN_RESULTS_PER_BRANCH {
      CoverageOk(a, s, MarkIdentityLimit(s, b), b, {});
    } else {
      var recorded := Record(s, id, revision, o);
      RecordStarts(a, s, id, revision, o);
      if k in s.seen { assert RecordOk(a, s, k); }
      assert Results(recorded, b) == Results(s, b);
      if !o.kind.Other? && IsHistorical(a, o) {
        LeavesWindow(a, recorded, b, id, Historical);
      } else if k !in s.seen || !s.seen[k].terminalSeen {
        NotSelectedNotInWindow(a, s, b, id);
        if o.kind.Other? {
          NonTerminalOk(a, s, id, revision, o);
        } else {
          ApplyOk(a, recorded, id, revision, o);
        }
      } else if !a.family.Messages? {
        RetireOne(a, recorded, b, id, Retired);
      } else {
        forall r | r in Results(s, b) && r.message.id == id
          ensures r.nativeOrder == s.seen[k].nativeOrder && s.seen[k].membership.Selected?
        {
          assert EntryOk(s, b, r);
        }
        CorrectionOk(a, recorded, id, s.seen[k], o);
      }
    }
  }

  lemma {:induction false} NonTerminalOk(a: Activation, s: State, id: string, revision: nat, o: Observation)
    requires BranchOk(a, s, o.branch, {}) && BranchOk(a, Record(s, id, revision, o), o.branch, {id})
    requires o.kind.Other?
    requires Key(o.branch, id) in s.seen ==> !s.seen[Key(o.branch, id)].terminalSeen
    requires forall r | r in Results(s, o.branch) :: r.message.id != id
    ensures BranchOk(a, Record(s, id, revision, o), o.branch, {})
  {
    var k := Key(o.branch, id);
    if k in s.seen { assert RecordOk(a, s, k); }
    assert RecordOk(a, Record(s, id, revision, o), k);
  }

  lemma {:induction false} StepOk(a: Activation, s: State, c: Change)
    requires a.Valid() && c.WellFormed() && Inv(a, s)
    ensures Inv(a, Step(a, s, c).0)
  {
    var t := Step(a, s, c).0;
    forall b
      ensures BranchOk(a, t, b, {})
    {
      assert BranchOk(a, s, b, {});
      if b != c.OnBranch() {
        StepKeepsOtherBranches(a, s, c, b);
        SameBranchOk(a, s, t, b);
      } else {
        match c
        case Publish(id, revision, o) => PublishOk(a, s, id, revision, o);
        case Remove(_, id, revision) => RemoveOk(a, s, b, id, revision);
        case Gap(_) => CoverageOk(a, s, t, b, {});
        case Reset(_) =>
          RetireWindowOk(a, s, b, {});
          CoverageOk(a, RetireWindow(s, b), t, b, {});
        case Restore(_) =>
          RetireWindowOk(a, s, b, {});
          CoverageOk(a, RetireWindow(s, b), t, b, {});
      }
    }
  }

  lemma {:induction false} RemoveOk(a: Activation, s: State, b: Branch, id: string, revision: nat)
    requires BranchOk(a, s, b, {})
    ensures BranchOk(a, RemoveResult(s, b, id, revision).0, b, {})
  {
    var k := Key(b, id);
    var t := RemoveResult(s, b, id, revision).0;
    if k in s.seen && (revision < s.seen[k].revision
                       || (revision == s.seen[k].revision && s.seen[k].membership.Removed?)) {
    } else if k !in s.seen && |BranchKeys(s.seen, b)| >= MAX_SEEN_RESULTS_PER_BRANCH {
      NotSelectedNotInWindow(a, s, b, id);
      WithoutOther(Results(s, b), id);
      CoverageOk(a, s, t, b, {});
    } else {
      RemovedOk(a, s, b, id, t.seen[k]);
    }
  }

  /** A tombstone, and the entry out of the window. */
  lemma {:induction false} RemovedOk(a: Activation, s: State, b: Branch, id: string, tombstone: Seen)
    requires BranchOk(a, s, b, {}) && tombstone.membership.Removed? && tombstone.terminalSeen
    requires Key(b, id) in s.seen || |BranchKeys(s.seen, b)| < MAX_SEEN_RESULTS_PER_BRANCH
    ensures BranchOk(a, Discard(s.(seen := s.seen[Key(b, id) := tombstone]), b, id), b, {})
  {
    var marked := s.(seen := s.seen[Key(b, id) := tombstone]);
    MarkedOk(a, s, b, id, tombstone);
    LeavesWindow(a, marked, b, id, Removed);
    assert SetMembership(Discard(marked, b, id), Key(b, id), Removed) == Discard(marked, b, id);
  }

  lemma {:induction false} MarkedOk(a: Activation, s: State, b: Branch, id: string, tombstone: Seen)
    requires BranchOk(a, s, b, {})
    requires Key(b, id) in s.seen || |BranchKeys(s.seen, b)| < MAX_SEEN_RESULTS_PER_BRANCH
    ensures BranchOk(a, s.(seen := s.seen[Key(b, id) := tombstone]), b, {id})
  {
    var k := Key(b, id);
    var marked := s.(seen := s.seen[k := tombstone]);
    assert BranchKeys(marked.seen, b) == BranchKeys(s.seen, b) + {k};
    assert k in s.seen ==> k in BranchKeys(s.seen, b);
    forall r | r in Results(marked, b) && r.message.id != id
      ensures EntryOk(marked, b, r)
    {
      assert EntryOk(s, b, r);
    }
    forall x | x in marked.seen && x.major == b && x.minor != id
      ensures RecordOk(a, marked, x)
    {
      assert RecordOk(a, s, x) && Results(s, b) == Results(marked, b);
    }
  }

  lemma {:induction false} WithoutOther(results: seq<SelectedMessage>, id: string)
    requires forall r | r in results :: r.message.id != id
    ensures Without(results, id) == results
  {
    if results != [] { WithoutOther(results[1..], id); }
  }

  /** Every state that a run from the empty state reaches meets the invariant. */
  lemma {:induction false} RunOk(a: Activation, s: State, changes: seq<Change>)
    requires a.Valid() && WellFormed(changes) && Inv(a, s)
    ensures Inv(a, Run(a, s, changes))
    decreases |changes|
  {
    if changes != [] {
      StepOk(a, s, changes[0]);
      RunOk(a, Step(a, s, changes[0]).0, changes[1..]);
    }
  }

  lemma {:induction false} EmptyOk(a: Activation)
    ensures Inv(a, EMPTY)
  {
    assert forall b :: BranchKeys(EMPTY.seen, b) == {};
  }
}
