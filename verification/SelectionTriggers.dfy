/**
 What a change does, stated by guards on the state before it and not by the selector's own steps:
 when a publication triggers, what a correction does, what becomes of the window, the records, and
 the coverage of the branch.
 */
module SelectionTriggers {
  import opened Text
  import opened KeyOrder
  import opened Selection
  import opened SelectionRuns
  import opened SelectionHistory

  // ----- guards

  /** The publication is news of a tracked identity, or the branch may track one more. */
  predicate Accepted(s: State, id: string, revision: nat, o: Observation) {
    var k := Key(o.branch, id);
    if k in s.seen then
      s.seen[k].revision < revision
      || (s.seen[k].revision == revision && s.seen[k].version != o.version && s.seen[k].membership != Removed)
    else
      |BranchKeys(s.seen, o.branch)| < 4096
      && !(o.branch in s.branches && s.branches[o.branch].identityLimitReached)
  }

  /** The observation belongs to the time before the activation started. */
  predicate BeforeStart(a: Activation, o: Observation) {
    o.position <= a.bootstrapPosition
    || match o.kind
       case ToolResult(_) => o.firstTerminal.Some? && o.firstTerminal.value <= a.bootstrapPublication
       case _ => !(o.firstEligible.Some? && o.firstEligible.value > a.bootstrapPublication)
  }

  predicate InFamily(a: Activation, o: Observation) {
    match o.kind
    case UserMessage(_) => a.family == Messages
    case AssistantMessage(_) => a.family == Messages
    case ToolCall(_) => a.family == Messages
    case ToolResult(_) => a.family == Messages
    case TurnEnd => a.family == ResponseCycle
    case SessionStart => a.family == Session
    case SessionIdle => a.family == Session
    case Other => false
  }

  /** Whether the branch's membership is known to be complete; an unknown branch's is. */
  predicate Covered(s: State, b: Branch) {
    b in s.branches ==> s.branches[b].coverageComplete
  }

  predicate LimitReached(s: State, b: Branch) {
    b in s.branches && s.branches[b].identityLimitReached
  }

  function DiagnosticOf(s: State, b: Branch): Option<string> {
    if b in s.branches then s.branches[b].lastFilterDiagnostic else None
  }

  predicate FieldsPass(a: Activation, o: Observation) {
    InFamily(a, o) && a.fields(o) == Match
  }

  /** Every selection rule but the minimum passes. */
  predicate Qualifies(a: Activation, s: State, o: Observation) {
    FieldsPass(a, o) && o.contextIsObject && a.condition(o, Covered(s, o.branch)) == Matched
  }

  predicate Live(a: Activation, o: Observation) {
    o.kind != Other && !BeforeStart(a, o)
  }

  // ----- parts of the state after a change

  function Least(x: nat, y: nat): nat {
    if x <= y then x else y
  }

  /** The window takes an entry at its end and keeps the newest `size`. */
  predicate Rolled(before: seq<SelectedMessage>, now: seq<SelectedMessage>, entry: SelectedMessage, size: nat) {
    |now| == Least(size, |before| + 1)
    && now == (before + [entry])[|before| + 1 - |now|..]
  }

  /** The window loses the entry of one identity, if it has one, and nothing else. */
  predicate Lost(before: seq<SelectedMessage>, now: seq<SelectedMessage>, id: string) {
    if HasId(before, id) then
      exists i :: 0 <= i < |before| && before[i].message.id == id && now == before[..i] + before[i + 1..]
    else now == before
  }

  predicate Rewritten(before: seq<SelectedMessage>, now: seq<SelectedMessage>, entry: SelectedMessage) {
    exists i :: 0 <= i < |before| && before[i].message.id == entry.message.id && now == before[i := entry]
  }

  /** The records of the branch's other identities: one that left the window is retired. */
  ghost predicate OthersKept(s: State, t: State, b: Branch, id: string) {
    forall x: Key | x.major == b && x.minor != id ::
      (x in t.seen <==> x in s.seen)
      && (x in s.seen ==>
          t.seen[x] == if InWindow(s, b, x.minor) && !InWindow(t, b, x.minor)
                       then s.seen[x].(membership := Retired) else s.seen[x])
  }

  /** The records of the branch's other identities after the whole window is given up: every terminal
      one is barred from the windows to come. */
  ghost predicate OthersRetired(s: State, t: State, b: Branch, id: Option<string>) {
    forall x: Key | x.major == b && id != Some(x.minor) ::
      (x in t.seen <==> x in s.seen)
      && (x in s.seen ==>
          t.seen[x] == if s.seen[x].terminalSeen && s.seen[x].membership != Historical && s.seen[x].membership != Removed
                       then s.seen[x].(membership := Retired) else s.seen[x])
  }

  predicate FlagsKept(s: State, t: State, b: Branch) {
    (Covered(t, b) <==> Covered(s, b)) && (LimitReached(t, b) <==> LimitReached(s, b))
  }

  // ----- publications that are not accepted

  /** A publication that is no news changes nothing; an identity that is one too many closes its
      branch for new identities and makes its coverage incomplete. */
  lemma {:induction false} NotAcceptedExactly(a: Activation, s: State, id: string, revision: nat, o: Observation)
    requires !Accepted(s, id, revision, o)
    ensures var (t, outcome) := Step(a, s, Publish(id, revision, o));
      var b := o.branch;
      outcome == Updated && t.seen == s.seen && Results(t, b) == Results(s, b) && DiagnosticOf(t, b) == DiagnosticOf(s, b)
      && if Key(b, id) in s.seen || LimitReached(s, b) then t == s else LimitReached(t, b) && !Covered(t, b)
  {
  }

  // ----- the first terminal observation of an identity

  /** When a publication makes a candidate, and what every other one comes to. */
  lemma {:induction false} TriggersExactly(a: Activation, s: State, id: string, revision: nat, o: Observation)
    requires a.Valid() && Accepted(s, id, revision, o) && !Terminal(s, Key(o.branch, id))
    requires |Results(s, o.branch)| <= a.Size()
    ensures var outcome := Step(a, s, Publish(id, revision, o)).1;
      (outcome.Chosen? <==>
         Live(a, o) && Qualifies(a, s, o)
         && (o.kind.HasMessage() ==> |Results(s, o.branch)| + 1 >= a.Config().minimum))
      && (outcome == Filtered <==> Live(a, o) && (InFamily(a, o) ==> a.fields(o) == NoMatch))
      && (outcome.FilterRejected? <==> Live(a, o) && InFamily(a, o) && a.fields(o).Reject?)
      && (outcome.FilterRejected? ==> a.fields(o) == Reject(outcome.diagnostic))
      && (outcome == Incomplete <==> Live(a, o) && FieldsPass(a, o) && !o.contextIsObject)
      && (outcome.ConditionFiltered? <==> Live(a, o) && FieldsPass(a, o) && o.contextIsObject && !Qualifies(a, s, o))
      && (outcome.ConditionFiltered? ==> a.condition(o, Covered(s, o.branch)) == outcome.condition)
      && !outcome.WindowInvalidated?
  {
  }

  /** The filter diagnostic that a trigger leaves. */
  function Noted(a: Activation, o: Observation, before: Option<string>): Option<string> {
    if !InFamily(a, o) then before
    else match a.fields(o)
      case Match => None
      case Reject(diagnostic) => Some(diagnostic)
      case NoMatch => before
  }

  lemma {:induction false} AppliedWithoutWindow(a: Activation, s: State, o: Observation)
    requires Live(a, o) && !(Qualifies(a, s, o) && o.kind.HasMessage())
    ensures var (t, outcome) := Apply(a, s, o);
      t.seen == s.seen && Results(t, o.branch) == Results(s, o.branch) && FlagsKept(s, t, o.branch)
      && DiagnosticOf(t, o.branch) == Noted(a, o, DiagnosticOf(s, o.branch))
      && (outcome.Chosen? || outcome.Updated? <==> Qualifies(a, s, o))
  {}

  lemma {:induction false} AppliedToWindow(a: Activation, s: State, o: Observation)
    requires Live(a, o) && Qualifies(a, s, o) && o.kind.HasMessage()
    ensures var (t, outcome) := Apply(a, s, o);
      t == Push(a, WithDiagnostic(s, o.branch, None), o) && (outcome.Chosen? || outcome.Updated?)
  {}

  /** The window and the flags after a push. */
  lemma {:induction false} PushRolls(a: Activation, s: State, o: Observation)
    requires a.Valid() && o.kind.HasMessage() && |Results(s, o.branch)| <= a.Size()
    ensures var t := Push(a, s, o);
      FlagsKept(s, t, o.branch) && DiagnosticOf(t, o.branch) == DiagnosticOf(s, o.branch)
      && Rolled(Results(s, o.branch), Results(t, o.branch),
                SelectedMessage(o.version, o.nativeOrder, o.kind.message, o.complete), a.Config().size)
  {
    var excess, dropped := PushShape(a, s, o);
    PushFlags(a, s, o);
    assert Added(s, o)[excess..] == Added(s, o)[|Added(s, o)| - Least(a.Size(), |Added(s, o)|)..];
  }

  lemma {:induction false} PushFlags(a: Activation, s: State, o: Observation)
    requires o.kind.HasMessage()
    ensures var t := Push(a, s, o); FlagsKept(s, t, o.branch) && DiagnosticOf(t, o.branch) == DiagnosticOf(s, o.branch)
  {}

  /** One record of the branch: retired if its entry left the window and it is not the identity itself. */
  predicate Carried(s: State, t: State, b: Branch, id: string, x: Key) {
    (x in t.seen <==> x in s.seen)
    && (x in s.seen ==>
        t.seen[x] == if x.minor != id && InWindow(s, b, x.minor) && !InWindow(t, b, x.minor)
                     then s.seen[x].(membership := Retired) else s.seen[x])
  }

  /** The records after a push: only the identity that left the window is retired. */
  lemma {:induction false} PushRetires(a: Activation, s: State, o: Observation, x: Key)
    requires a.Valid() && o.kind.HasMessage() && x.major == o.branch
    requires |Results(s, o.branch)| <= a.Size() && Distinct(Results(s, o.branch)) && !InWindow(s, o.branch, o.kind.message.id)
    ensures Carried(s, Push(a, s, o), o.branch, o.kind.message.id, x)
  {
    var before, now := Results(s, o.branch), Results(Push(a, s, o), o.branch);
    var excess, dropped := PushShape(a, s, o);
    if x.minor == o.kind.message.id {
      assert excess == 1 ==> before[0].message.id != x.minor;
    } else {
      EvictedExactly(before, now, Added(s, o)[|before|], excess, x.minor);
    }
  }

  /** After a roll, an older identity has left exactly if its entry was the first and had to go. */
  lemma {:induction false} EvictedExactly(before: seq<SelectedMessage>, now: seq<SelectedMessage>, entry: SelectedMessage, excess: nat, id: string)
    requires Distinct(before) && entry.message.id != id && excess <= 1 && (excess == 1 ==> before != [])
    requires now == (before + [entry])[excess..]
    ensures excess == 1 && before[0].message.id == id <==> HasId(before, id) && !HasId(now, id)
  {
    forall i | excess <= i < |before| ensures now[i - excess] == before[i] {}
    if HasId(now, id) {
      var i :| 0 <= i < |now| && now[i].message.id == id;
      assert now[i] == (before + [entry])[i + excess];
    }
  }

  /** What a publication leaves of its branch while its identity has no terminal observation. */
  ghost predicate Triggered(a: Activation, s: State, t: State, id: string, revision: nat, o: Observation) {
    var b := o.branch;
    Key(b, id) in t.seen
    && t.seen[Key(b, id)] == Seen(o.kind != Other, revision, o.version, o.nativeOrder,
         if o.kind == Other then Unknown else if BeforeStart(a, o) then Historical
         else if Qualifies(a, s, o) then Selected else Excluded)
    && OthersKept(s, t, b, id) && FlagsKept(s, t, b)
    && DiagnosticOf(t, b) == (if Live(a, o) then Noted(a, o, DiagnosticOf(s, b)) else DiagnosticOf(s, b))
    && if Live(a, o) && Qualifies(a, s, o) && o.kind.HasMessage()
       then Rolled(Results(s, b), Results(t, b), SelectedMessage(o.version, o.nativeOrder, o.kind.message, o.complete), a.Config().size)
       else Results(t, b) == Results(s, b)
  }

  lemma {:induction false} TriggerStateExactly(a: Activation, s: State, id: string, revision: nat, o: Observation)
    requires a.Valid() && Inv(a, s) && Publish(id, revision, o).WellFormed()
    requires Accepted(s, id, revision, o) && !Terminal(s, Key(o.branch, id))
    ensures Triggered(a, s, Step(a, s, Publish(id, revision, o)).0, id, revision, o)
  {
    assert BranchOk(a, s, o.branch, {});
    assert RecordOk(a, s, Key(o.branch, id));
    NotSelectedNotInWindow(a, s, o.branch, id);
    if Live(a, o) && Qualifies(a, s, o) && o.kind.HasMessage() {
      LiveRolls(a, s, id, revision, o);
    } else if Live(a, o) {
      LiveKeeps(a, s, id, revision, o);
    } else {
      NotLive(a, s, id, revision, o);
    }
  }

  lemma {:induction false} LiveRolls(a: Activation, s: State, id: string, revision: nat, o: Observation)
    requires a.Valid() && Publish(id, revision, o).WellFormed() && Accepted(s, id, revision, o) && !Terminal(s, Key(o.branch, id))
    requires |Results(s, o.branch)| <= a.Size() && Distinct(Results(s, o.branch)) && !InWindow(s, o.branch, id)
    requires Live(a, o) && Qualifies(a, s, o) && o.kind.HasMessage()
    ensures Triggered(a, s, Step(a, s, Publish(id, revision, o)).0, id, revision, o)
  {
    var recorded := Record(s, id, revision, o);
    var cleared := WithDiagnostic(recorded, o.branch, None);
    TriggerCase(a, s, id, revision, o);
    AppliedToWindow(a, recorded, o);
    PushRolls(a, cleared, o);
    forall x: Key | x.major == o.branch ensures Carried(cleared, Push(a, cleared, o), o.branch, id, x) { PushRetires(a, cleared, o, x); }
    RolledState(a, s, id, revision, o, cleared, Push(a, cleared, o));
  }

  lemma {:induction false} RolledState(a: Activation, s: State, id: string, revision: nat, o: Observation, cleared: State, pushed: State)
    requires Live(a, o) && Qualifies(a, s, o) && o.kind.HasMessage()
    requires Results(cleared, o.branch) == Results(s, o.branch) && FlagsKept(s, cleared, o.branch) && DiagnosticOf(cleared, o.branch) == None
    requires Key(o.branch, id) in cleared.seen && cleared.seen == s.seen[Key(o.branch, id) := cleared.seen[Key(o.branch, id)]]
    requires FlagsKept(cleared, pushed, o.branch) && DiagnosticOf(pushed, o.branch) == None
    requires Rolled(Results(s, o.branch), Results(pushed, o.branch),
                    SelectedMessage(o.version, o.nativeOrder, o.kind.message, o.complete), a.Config().size)
    requires forall x: Key | x.major == o.branch :: Carried(cleared, pushed, o.branch, id, x)
    requires cleared.seen[Key(o.branch, id)].(membership := Selected) == Seen(true, revision, o.version, o.nativeOrder, Selected)
    ensures Key(o.branch, id) in pushed.seen && Triggered(a, s, SetMembership(pushed, Key(o.branch, id), Selected), id, revision, o)
  {
    var b, t := o.branch, SetMembership(pushed, Key(o.branch, id), Selected);
    assert Carried(cleared, pushed, b, id, Key(b, id));
    forall x: Key | x.major == b && x.minor != id
      ensures Carried(s, t, b, id, x)
    {
      assert Carried(cleared, pushed, b, id, x);
    }
  }

  lemma {:induction false} LiveKeeps(a: Activation, s: State, id: string, revision: nat, o: Observation)
    requires Accepted(s, id, revision, o) && !Terminal(s, Key(o.branch, id))
    requires Live(a, o) && !(Qualifies(a, s, o) && o.kind.HasMessage())
    ensures Triggered(a, s, Step(a, s, Publish(id, revision, o)).0, id, revision, o)
  {
    TriggerCase(a, s, id, revision, o);
    AppliedWithoutWindow(a, Record(s, id, revision, o), o);
  }

  lemma {:induction false} NotLive(a: Activation, s: State, id: string, revision: nat, o: Observation)
    requires !Live(a, o) && Accepted(s, id, revision, o) && !Terminal(s, Key(o.branch, id)) && !InWindow(s, o.branch, id)
    requires Key(o.branch, id) in s.seen ==> s.seen[Key(o.branch, id)].membership.Unknown?
    ensures Triggered(a, s, Step(a, s, Publish(id, revision, o)).0, id, revision, o)
  {
    WithoutAbsent(Results(s, o.branch), id);
  }

  lemma {:induction false} WithoutAbsent(results: seq<SelectedMessage>, id: string)
    requires !HasId(results, id)
    ensures Without(results, id) == results
  {
    if results != [] {
      assert results[0].message.id != id;
      assert forall i | 0 <= i < |results| - 1 :: results[1..][i] == results[i + 1];
      WithoutAbsent(results[1..], id);
    }
  }

  /** The candidate of a publication freezes the window as it now is, or nothing but its context. */
  lemma {:induction false} CandidateExactly(a: Activation, s: State, id: string, revision: nat, o: Observation)
    requires Step(a, s, Publish(id, revision, o)).1.Chosen?
    ensures var (t, outcome) := Step(a, s, Publish(id, revision, o));
      var c := outcome.candidate;
      c.branch == o.branch && c.trigger == o.position
      && (if o.kind.HasMessage() then
            |c.messages| == |Results(t, o.branch)|
            && (forall i | 0 <= i < |c.messages| :: c.messages[i] == Results(t, o.branch)[i].message)
            && (forall d :: d in c.dependencies <==>
                  d in o.dependencies || d == MembershipThrough(o.position)
                  || exists r | r in Results(t, o.branch) :: d == MessageVersion(r.message.id, r.version))
          else c.messages == [] && c.dependencies == o.dependencies)
  {
    FreezeExactly(o, Results(Step(a, s, Publish(id, revision, o)).0, o.branch));
  }

  lemma {:induction false} FreezeExactly(o: Observation, window: seq<SelectedMessage>)
    ensures var c := Freeze(o, window);
      c.branch == o.branch && c.trigger == o.position && |c.messages| == |window|
      && (forall i | 0 <= i < |window| :: c.messages[i] == window[i].message)
      && (forall d :: d in c.dependencies <==>
            d in o.dependencies || d == MembershipThrough(o.position)
            || exists r | r in window :: d == MessageVersion(r.message.id, r.version))
  {}

  // ----- later observations of a terminal identity

  /** A correction of this identity can still change its window. */
  predicate Correctable(a: Activation, s: State, k: Key, o: Observation) {
    (o.kind == Other || !BeforeStart(a, o)) && a.family == Messages
    && k in s.seen && (s.seen[k].membership == Excluded || s.seen[k].membership == Selected)
  }

  /** A correction makes its window uncertain: it qualifies an identity that was excluded, or moves a
      selected one to another place of the native order. */
  predicate Unsettles(a: Activation, s: State, k: Key, o: Observation) {
    Correctable(a, s, k, o) && Qualifies(a, s, o)
    && (s.seen[k].membership == Excluded || s.seen[k].nativeOrder != o.nativeOrder)
  }

  lemma {:induction false} CorrectsExactly(a: Activation, s: State, id: string, revision: nat, o: Observation)
    requires a.Valid() && Inv(a, s) && Accepted(s, id, revision, o) && Terminal(s, Key(o.branch, id))
    ensures var outcome := Step(a, s, Publish(id, revision, o)).1;
      var k := Key(o.branch, id);
      outcome == if Unsettles(a, s, k, o) then WindowInvalidated
                 else if Correctable(a, s, k, o) && CorrectionNote(a, o).Some? then FilterRejected(CorrectionNote(a, o).value)
                 else Updated
  {
    TerminalPlace(a, s, o.branch, id);
  }

  /** A terminal identity is in the window exactly if it is selected. */
  lemma {:induction false} TerminalPlace(a: Activation, s: State, b: Branch, id: string)
    requires Inv(a, s) && Terminal(s, Key(b, id))
    ensures !s.seen[Key(b, id)].membership.Unknown?
    ensures a.family.Messages? ==> (s.seen[Key(b, id)].membership.Selected? <==> InWindow(s, b, id))
    ensures forall r | r in Results(s, b) && r.message.id == id :: r.nativeOrder == s.seen[Key(b, id)].nativeOrder
  {
    assert BranchOk(a, s, b, {}) && RecordOk(a, s, Key(b, id));
    forall r | r in Results(s, b) && r.message.id == id
      ensures r.nativeOrder == s.seen[Key(b, id)].nativeOrder && s.seen[Key(b, id)].membership.Selected?
    {
      assert EntryOk(s, b, r);
    }
    if InWindow(s, b, id) {
      var i :| 0 <= i < |Results(s, b)| && Results(s, b)[i].message.id == id;
      assert Results(s, b)[i] in Results(s, b);
    }
  }

  lemma {:induction false} WithoutAt(results: seq<SelectedMessage>, i: nat)
    requires Distinct(results) && i < |results|
    ensures Without(results, results[i].message.id) == results[..i] + results[i + 1..]
    decreases i
  {
    var id, rest := results[i].message.id, results[1..];
    if i == 0 {
      assert !HasId(rest, id);
      WithoutAbsent(rest, id);
      assert results[..0] + rest == rest;
    } else {
      assert rest[i - 1] == results[i] && results[0].message.id != id;
      WithoutAt(rest, i - 1);
      assert results[..i] + results[i + 1..] == [results[0]] + (rest[..i - 1] + rest[i..]);
    }
  }

  lemma {:induction false} LostExactly(results: seq<SelectedMessage>, id: string)
    requires Distinct(results)
    ensures Lost(results, Without(results, id), id)
  {
    if HasId(results, id) {
      var i :| 0 <= i < |results| && results[i].message.id == id;
      WithoutAt(results, i);
    } else {
      WithoutAbsent(results, id);
    }
  }

  lemma {:induction false} RewrittenExactly(results: seq<SelectedMessage>, o: Observation)
    requires o.kind.HasMessage() && HasId(results, o.kind.message.id)
    requires forall r | r in results && r.message.id == o.kind.message.id :: r.nativeOrder == o.nativeOrder
    ensures Rewritten(results, Replace(results, o, o.kind.message.id),
                      SelectedMessage(o.version, o.nativeOrder, o.kind.message, o.complete))
  {
    var id := o.kind.message.id;
    var entry := SelectedMessage(o.version, o.nativeOrder, o.kind.message, o.complete);
    if results[0].message.id == id {
      assert [entry] + results[1..] == results[0 := entry];
    } else {
      var i :| 0 < i < |results| && results[i].message.id == id;
      assert results[1..][i - 1] == results[i];
      RewrittenExactly(results[1..], o);
      var j :| 0 <= j < |results| - 1 && results[1..][j].message.id == id
               && Replace(results[1..], o, id) == results[1..][j := entry];
      assert [results[0]] + results[1..][j := entry] == results[j + 1 := entry];
      assert results[j + 1].message.id == id;
    }
  }

  /** The membership that a correction leaves. */
  function Settled(a: Activation, s: State, k: Key, o: Observation): Membership
    requires k in s.seen
  {
    if o.kind != Other && BeforeStart(a, o) then Historical
    else if a.family != Messages || s.seen[k].membership == Removed then Retired
    else if !Correctable(a, s, k, o) then s.seen[k].membership
    else if !Qualifies(a, s, o) then Excluded
    else if Unsettles(a, s, k, o) then Retired
    else Selected
  }

  lemma {:induction false} CorrectionRecordExactly(a: Activation, s: State, id: string, revision: nat, o: Observation)
    requires a.Valid() && Inv(a, s) && Accepted(s, id, revision, o) && Terminal(s, Key(o.branch, id))
    ensures var t := Step(a, s, Publish(id, revision, o)).0;
      var k := Key(o.branch, id);
      k in t.seen && t.seen[k] == Seen(true, revision, o.version, o.nativeOrder, Settled(a, s, k, o))
  {
    TerminalPlace(a, s, o.branch, id);
  }

  lemma {:induction false} OthersStay(before: seq<SelectedMessage>, now: seq<SelectedMessage>, id: string, other: string)
    requires other != id
    requires now == before || Lost(before, now, id) || exists entry: SelectedMessage :: entry.message.id == id && Rewritten(before, now, entry)
    ensures HasId(now, other) <==> HasId(before, other)
  {
    if now != before && Lost(before, now, id) {
      var i :| 0 <= i < |before| && before[i].message.id == id && now == before[..i] + before[i + 1..];
      if HasId(before, other) {
        var j :| 0 <= j < |before| && before[j].message.id == other;
        assert now[if j < i then j else j - 1] == before[j];
      }
    } else if now != before {
      var entry: SelectedMessage :| entry.message.id == id && Rewritten(before, now, entry);
      var i :| 0 <= i < |before| && before[i].message.id == id && now == before[i := entry];
      if HasId(before, other) {
        var j :| 0 <= j < |before| && before[j].message.id == other;
        assert now[j] == before[j];
      }
    }
  }


  /** The record of one identity may have changed, and the diagnostic; nothing else of the branch has. */
  ghost predicate Noting(s: State, t: State, b: Branch, id: string) {
    Key(b, id) in t.seen && Results(t, b) == Results(s, b) && FlagsKept(s, t, b)
    && forall x: Key | x.major == b && x.minor != id :: (x in t.seen <==> x in s.seen) && (x in s.seen ==> t.seen[x] == s.seen[x])
  }

  lemma {:induction false} LosesOnly(s: State, noted: State, b: Branch, id: string, membership: Membership)
    requires Noting(s, noted, b, id) && Distinct(Results(s, b))
    ensures var t := SetMembership(Discard(noted, b, id), Key(b, id), membership);
      Lost(Results(s, b), Results(t, b), id) && OthersKept(s, t, b, id) && FlagsKept(s, t, b)
      && DiagnosticOf(t, b) == DiagnosticOf(noted, b)
  {
    var before := Results(s, b);
    var t := SetMembership(Discard(noted, b, id), Key(b, id), membership);
    LostExactly(before, id);
    if b !in noted.branches { assert before == []; }
    assert Results(t, b) == Without(before, id);
    forall x | x != id ensures HasId(before, x) <==> HasId(Results(t, b), x) { OthersStay(before, Results(t, b), id, x); }
  }

  lemma {:induction false} RewritesOnly(s: State, noted: State, o: Observation)
    requires o.kind.HasMessage() && Noting(s, noted, o.branch, o.kind.message.id) && InWindow(s, o.branch, o.kind.message.id)
    requires forall r | r in Results(s, o.branch) && r.message.id == o.kind.message.id :: r.nativeOrder == o.nativeOrder
    ensures var b, id := o.branch, o.kind.message.id;
      var t := SetMembership(WithResults(noted, b, Replace(Results(noted, b), o, id)), Key(b, id), Selected);
      Rewritten(Results(s, b), Results(t, b), SelectedMessage(o.version, o.nativeOrder, o.kind.message, o.complete))
      && OthersKept(s, t, b, id) && FlagsKept(s, t, b) && DiagnosticOf(t, b) == DiagnosticOf(noted, b)
  {
    var b, id := o.branch, o.kind.message.id;
    var before, now := Results(s, b), Replace(Results(noted, b), o, id);
    RewrittenExactly(before, o);
    forall x | x != id ensures HasId(before, x) <==> HasId(now, x) { OthersStay(before, now, id, x); }
  }

  lemma {:induction false} RetiresAll(s: State, noted: State, b: Branch, id: string)
    requires Noting(s, noted, b, id)
    ensures var t := SetMembership(WithCoverage(RetireWindow(noted, b), b, false), Key(b, id), Retired);
      Results(t, b) == [] && OthersRetired(s, t, b, Some(id)) && !Covered(t, b)
      && (LimitReached(t, b) <==> LimitReached(s, b)) && DiagnosticOf(t, b) == DiagnosticOf(noted, b)
  {}

  /** The diagnostic that a correction leaves. */
  function CorrectionNote(a: Activation, o: Observation): Option<string> {
    if InFamily(a, o) && a.fields(o).Reject? then Some(a.fields(o).diagnostic) else None
  }

  /** What a correction that can change its window makes of the state with the new record. */
  lemma {:induction false} CorrectionShape(a: Activation, s: State, id: string, revision: nat, o: Observation)
    requires Inv(a, s) && Publish(id, revision, o).WellFormed() && Accepted(s, id, revision, o)
    requires Terminal(s, Key(o.branch, id)) && Correctable(a, s, Key(o.branch, id), o)
    ensures var b, k := o.branch, Key(o.branch, id);
      var noted := WithDiagnostic(Record(s, id, revision, o), b, CorrectionNote(a, o));
      Noting(s, noted, b, id) && DiagnosticOf(noted, b) == CorrectionNote(a, o)
      && (Qualifies(a, s, o) ==> o.kind.HasMessage())
      && Step(a, s, Publish(id, revision, o)).0
         == if !Qualifies(a, s, o) then SetMembership(Discard(noted, b, id), k, Excluded)
            else if Unsettles(a, s, k, o) then SetMembership(WithCoverage(RetireWindow(noted, b), b, false), k, Retired)
            else SetMembership(WithResults(noted, b, Replace(Results(noted, b), o, id)), k, Selected)
  {
    TerminalPlace(a, s, o.branch, id);
  }

  /** Any other publication about a terminal identity is historical or leaves the window alone. */
  lemma {:induction false} NoCorrection(a: Activation, s: State, id: string, revision: nat, o: Observation)
    requires Inv(a, s) && Accepted(s, id, revision, o)
    requires Terminal(s, Key(o.branch, id)) && !Correctable(a, s, Key(o.branch, id), o)
    ensures var b, k := o.branch, Key(o.branch, id);
      var recorded := Record(s, id, revision, o);
      Noting(s, recorded, b, id) && DiagnosticOf(recorded, b) == DiagnosticOf(s, b)
      && Step(a, s, Publish(id, revision, o)).0
         == SetMembership(if Settled(a, s, k, o) == Historical && o.kind != Other && BeforeStart(a, o) then Discard(recorded, b, id) else recorded,
                          k, Settled(a, s, k, o))
  {
    TerminalPlace(a, s, o.branch, id);
  }

  /** What a publication about a terminal identity leaves of its branch. */
  lemma {:induction false} CorrectionStateExactly(a: Activation, s: State, id: string, revision: nat, o: Observation)
    requires a.Valid() && Inv(a, s) && Publish(id, revision, o).WellFormed()
    requires Accepted(s, id, revision, o) && Terminal(s, Key(o.branch, id))
    ensures var t := Step(a, s, Publish(id, revision, o)).0;
      var b, k := o.branch, Key(o.branch, id);
      var before, now := Results(s, b), Results(t, b);
      if Unsettles(a, s, k, o) then
        now == [] && OthersRetired(s, t, b, Some(id)) && !Covered(t, b) && (LimitReached(t, b) <==> LimitReached(s, b))
        && DiagnosticOf(t, b) == None
      else
        OthersKept(s, t, b, id) && FlagsKept(s, t, b)
        && (match Settled(a, s, k, o)
            case Selected => o.kind.HasMessage()
              && Rewritten(before, now, SelectedMessage(o.version, o.nativeOrder, o.kind.message, o.complete))
            case Excluded => Lost(before, now, id)
            case Historical => Lost(before, now, id)
            case _ => now == before)
        && DiagnosticOf(t, b) == if Correctable(a, s, k, o) then CorrectionNote(a, o) else DiagnosticOf(s, b)
  {
    var b, k := o.branch, Key(o.branch, id);
    TerminalPlace(a, s, b, id);
    assert BranchOk(a, s, b, {});
    if Correctable(a, s, k, o) {
      CorrectionShape(a, s, id, revision, o);
      var noted := WithDiagnostic(Record(s, id, revision, o), b, CorrectionNote(a, o));
      if !Qualifies(a, s, o) {
        LosesOnly(s, noted, b, id, Excluded);
      } else if Unsettles(a, s, k, o) {
        RetiresAll(s, noted, b, id);
      } else {
        RewritesOnly(s, noted, o);
      }
    } else {
      NoCorrection(a, s, id, revision, o);
      LosesOnly(s, Record(s, id, revision, o), b, id, Historical);
      LostExactly(Results(s, b), id);
    }
  }

  // ----- removals and coverage

  lemma {:induction false} RemovesExactly(a: Activation, s: State, b: Branch, id: string, revision: nat)
    requires Inv(a, s)
    ensures var t := Step(a, s, Remove(b, id, revision)).0;
      var k := Key(b, id);
      if k in s.seen && (revision < s.seen[k].revision || (revision == s.seen[k].revision && s.seen[k].membership == Removed)) then t == s
      else if k !in s.seen && |BranchKeys(s.seen, b)| >= 4096 then
        t.seen == s.seen && Results(t, b) == Results(s, b) && LimitReached(t, b) && !Covered(t, b)
      else
        k in t.seen && t.seen[k].terminalSeen && t.seen[k].revision == revision && t.seen[k].membership == Removed
        && t.seen[k].version == "removed:" + Numeral(revision)
        && (k in s.seen ==> t.seen[k].nativeOrder == s.seen[k].nativeOrder)
        && OthersKept(s, t, b, id) && FlagsKept(s, t, b) && Lost(Results(s, b), Results(t, b), id)
  {
    var t := Step(a, s, Remove(b, id, revision)).0;
    assert BranchOk(a, s, b, {});
    LostExactly(Results(s, b), id);
    forall x | x != id ensures Lost(Results(s, b), Results(t, b), id) ==> (InWindow(t, b, x) <==> InWindow(s, b, x)) {
      if Lost(Results(s, b), Results(t, b), id) { OthersStay(Results(s, b), Results(t, b), id, x); }
    }
  }

  /** A gap and a reset make the coverage incomplete, and only a restoration completes it. */
  lemma {:induction false} CoverageExactly(a: Activation, s: State, b: Branch)
    ensures var gap, reset, restored := Step(a, s, Gap(b)).0, Step(a, s, Reset(b)).0, Step(a, s, Restore(b)).0;
      !Covered(gap, b) && gap.seen == s.seen && Results(gap, b) == Results(s, b)
      && !Covered(reset, b) && Results(reset, b) == [] && OthersRetired(s, reset, b, None)
      && Covered(restored, b) && Results(restored, b) == [] && OthersRetired(s, restored, b, None)
      && forall t | t in {gap, reset, restored} :: (LimitReached(t, b) <==> LimitReached(s, b)) && DiagnosticOf(t, b) == DiagnosticOf(s, b)
  {}

  // ----- whole runs

  /** The change leaves the coverage of `b` incomplete. */
  predicate MakesGap(a: Activation, s: State, c: Change, b: Branch) {
    c.OnBranch() == b
    && match c
       case Gap(_) => true
       case Reset(_) => true
       case Restore(_) => false
       case Remove(_, id, _) => Key(b, id) !in s.seen && |BranchKeys(s.seen, b)| >= 4096
       case Publish(id, revision, o) =>
         if Key(b, id) !in s.seen then !LimitReached(s, b) && |BranchKeys(s.seen, b)| >= 4096
         else Accepted(s, id, revision, o) && Terminal(s, Key(b, id)) && Unsettles(a, s, Key(b, id), o)
  }

  lemma {:induction false} CoverageStep(a: Activation, s: State, c: Change, b: Branch)
    requires a.Valid() && Inv(a, s) && c.WellFormed()
    ensures Covered(Step(a, s, c).0, b) <==> c == Restore(b) || (Covered(s, b) && !MakesGap(a, s, c, b))
  {
    if c.OnBranch() != b {
      StepKeepsOtherBranches(a, s, c, b);
    } else {
      match c
      case Publish(id, revision, o) =>
        assert BranchOk(a, s, b, {});
        if !Accepted(s, id, revision, o) {
          NotAcceptedExactly(a, s, id, revision, o);
        } else if Terminal(s, Key(b, id)) {
          CorrectionStateExactly(a, s, id, revision, o);
        } else {
          TriggerStateExactly(a, s, id, revision, o);
        }
      case Remove(_, id, revision) => RemovesExactly(a, s, b, id, revision);
      case _ => CoverageExactly(a, s, b);
    }
  }

  /** The coverage that a condition reads is complete exactly if nothing made a gap since the start or
      since the last restoration. */
  lemma {:induction false} CoverageOfRun(a: Activation, changes: seq<Change>, b: Branch)
    requires a.Valid() && WellFormed(changes)
    ensures Covered(Run(a, EMPTY, changes), b)
       <==> forall i | 0 <= i < |changes| && MakesGap(a, Run(a, EMPTY, changes[..i]), changes[i], b) ::
              Restore(b) in changes[i + 1..]
    decreases |changes|
  {
    if changes != [] {
      var n := |changes| - 1;
      var prefix, c := changes[..n], changes[n];
      var s := Run(a, EMPTY, prefix);
      CoverageOfRun(a, prefix, b);
      EmptyOk(a);
      RunOk(a, EMPTY, prefix);
      assert changes == prefix + [c];
      RunSplits(a, EMPTY, prefix, [c]);
      assert Run(a, s, [c]) == Step(a, s, c).0;
      CoverageStep(a, s, c, b);
      forall i | 0 <= i < n
        ensures changes[..i] == prefix[..i] && changes[i] == prefix[i]
        ensures Restore(b) in changes[i + 1..] <==> Restore(b) in prefix[i + 1..] || c == Restore(b)
      {
        assert changes[i + 1..] == prefix[i + 1..] + [c];
      }
      assert changes[n + 1..] == [];
    }
  }

  /** Distinct messages of one branch, each of which passes every rule but the minimum. */
  ghost predicate Qualifying(a: Activation, changes: seq<Change>, b: Branch) {
    (forall i | 0 <= i < |changes| ::
       changes[i].Publish? && changes[i].WellFormed() && changes[i].OnBranch() == b
       && changes[i].observation.kind.HasMessage() && Live(a, changes[i].observation)
       && Qualifies(a, EMPTY, changes[i].observation))
    && forall i, j | 0 <= i < j < |changes| :: changes[i].id != changes[j].id
  }

  function EntryFor(c: Change): SelectedMessage
    requires c.Publish? && c.observation.kind.HasMessage()
  {
    SelectedMessage(c.observation.version, c.observation.nativeOrder, c.observation.kind.message, c.observation.complete)
  }

  /** The window is the entries of the newest changes, at most `size` of them. */
  ghost predicate ShowsNewest(a: Activation, changes: seq<Change>, b: Branch, window: seq<SelectedMessage>, size: nat)
    requires Qualifying(a, changes, b)
  {
    |window| == Least(size, |changes|)
    && forall i | 0 <= i < |window| :: window[i] == EntryFor(changes[|changes| - |window| + i])
  }

  /** The state after these changes: only their identities are tracked, and the window is as said. */
  ghost predicate Tracks(a: Activation, changes: seq<Change>, b: Branch, s: State)
    requires Qualifying(a, changes, b)
  {
    Inv(a, s) && Covered(s, b) && !LimitReached(s, b) && |BranchKeys(s.seen, b)| <= |changes|
    && (forall k: Key | k in s.seen && k.major == b :: exists i :: 0 <= i < |changes| && changes[i].id == k.minor)
    && ShowsNewest(a, changes, b, Results(s, b), a.Config().size)
  }

  lemma {:induction false} NewestRolls(a: Activation, changes: seq<Change>, c: Change, b: Branch, before: seq<SelectedMessage>, now: seq<SelectedMessage>, size: nat)
    requires Qualifying(a, changes, b) && Qualifying(a, changes + [c], b)
    requires ShowsNewest(a, changes, b, before, size) && Rolled(before, now, EntryFor((changes + [c])[|changes|]), size)
    ensures ShowsNewest(a, changes + [c], b, now, size)
  {}

  /** The next change is of an identity that is not tracked yet, and it qualifies. */
  lemma {:induction false} NextQualifies(a: Activation, changes: seq<Change>, c: Change, b: Branch, s: State)
    requires |changes| < 4096 && Qualifying(a, changes, b) && Qualifying(a, changes + [c], b) && Tracks(a, changes, b, s)
    ensures c.Publish? && c.WellFormed() && c.observation.branch == b && c.observation.kind.HasMessage()
    ensures Key(b, c.id) !in s.seen && Accepted(s, c.id, c.revision, c.observation)
    ensures Live(a, c.observation) && Qualifies(a, s, c.observation)
  {
    var n, all := |changes|, changes + [c];
    assert all[n] == c;
    assert Key(b, c.id) !in s.seen by {
      forall i | 0 <= i < n ensures changes[i].id != c.id { assert all[i] == changes[i]; }
    }
  }

  lemma {:induction false} KeysListed(changes: seq<Change>, c: Change, s: State, t: State, b: Branch)
    requires c.Publish? && OthersKept(s, t, b, c.id)
    requires forall i | 0 <= i < |changes| :: changes[i].Publish?
    requires forall k: Key | k in s.seen && k.major == b :: exists i :: 0 <= i < |changes| && changes[i].id == k.minor
    ensures var all := changes + [c];
      forall k: Key | k in t.seen && k.major == b :: exists i :: 0 <= i < |all| && all[i].id == k.minor
  {
    var all := changes + [c];
    forall x: Key | x in t.seen && x.major == b ensures exists i :: 0 <= i < |all| && all[i].id == x.minor {
      if x.minor == c.id {
        assert all[|changes|].id == x.minor;
      } else {
        var i :| 0 <= i < |changes| && changes[i].id == x.minor;
        assert all[i].id == x.minor;
      }
    }
  }

  lemma {:induction false} QualifyingStep(a: Activation, changes: seq<Change>, c: Change, b: Branch, s: State)
    requires a.Valid() && |changes| < 4096 && Qualifying(a, changes, b) && Qualifying(a, changes + [c], b)
    requires Tracks(a, changes, b, s)
    ensures Tracks(a, changes + [c], b, Step(a, s, c).0)
  {
    var t := Step(a, s, c).0;
    NextQualifies(a, changes, c, b, s);
    TriggerStateExactly(a, s, c.id, c.revision, c.observation);
    StepOk(a, s, c);
    NewestRolls(a, changes, c, b, Results(s, b), Results(t, b), a.Config().size);
    KeysGrow(s, t, b, c.id);
    KeysListed(changes, c, s, t, b);
  }

  lemma {:induction false} QualifyingTriggers(a: Activation, changes: seq<Change>, c: Change, b: Branch, s: State)
    requires a.Valid() && |changes| < 4096 && Qualifying(a, changes, b) && Qualifying(a, changes + [c], b)
    requires Tracks(a, changes, b, s)
    ensures Step(a, s, c).1.Chosen? <==> |changes| + 1 >= a.Config().minimum
  {
    NextQualifies(a, changes, c, b, s);
    assert BranchOk(a, s, b, {});
    TriggersExactly(a, s, c.id, c.revision, c.observation);
  }

  lemma {:induction false} KeysGrow(s: State, t: State, b: Branch, id: string)
    requires OthersKept(s, t, b, id) && Key(b, id) !in s.seen && Key(b, id) in t.seen
    ensures |BranchKeys(t.seen, b)| == |BranchKeys(s.seen, b)| + 1
  {
    assert BranchKeys(t.seen, b) == BranchKeys(s.seen, b) + {Key(b, id)};
  }

  lemma {:induction false} QualifyingPrefix(a: Activation, changes: seq<Change>, b: Branch)
    requires changes != [] && Qualifying(a, changes, b)
    ensures Qualifying(a, changes[..|changes| - 1], b)
  {}

  /** After distinct qualifying messages the window holds the newest of them, at most as many as its size. */
  lemma {:induction false} RollingWindow(a: Activation, changes: seq<Change>, b: Branch)
    requires a.Valid() && |changes| <= 4096 && Qualifying(a, changes, b)
    ensures Tracks(a, changes, b, Run(a, EMPTY, changes))
    decreases |changes|
  {
    if changes == [] {
      EmptyOk(a);
    } else {
      var prefix, c := changes[..|changes| - 1], changes[|changes| - 1];
      assert changes == prefix + [c];
      QualifyingPrefix(a, changes, b);
      RollingWindow(a, prefix, b);
      QualifyingStep(a, prefix, c, b, Run(a, EMPTY, prefix));
      LastStep(a, changes);
    }
  }

  lemma {:induction false} LastStep(a: Activation, changes: seq<Change>)
    requires changes != []
    ensures var prefix, c := changes[..|changes| - 1], changes[|changes| - 1];
      Run(a, EMPTY, changes) == Step(a, Run(a, EMPTY, prefix), c).0
  {
    var prefix, c := changes[..|changes| - 1], changes[|changes| - 1];
    assert changes == prefix + [c];
    RunSplits(a, EMPTY, prefix, [c]);
    var s := Run(a, EMPTY, prefix);
    assert Run(a, s, [c]) == Run(a, Step(a, s, c).0, []);
  }

  lemma {:induction false} NewestMessages(a: Activation, changes: seq<Change>, b: Branch, window: seq<SelectedMessage>, messages: seq<Message>)
    requires Qualifying(a, changes, b) && ShowsNewest(a, changes, b, window, a.Config().size)
    requires |messages| == |window| && forall i | 0 <= i < |window| :: messages[i] == window[i].message
    ensures |messages| == Least(a.Config().size, |changes|)
    ensures forall i | 0 <= i < |messages| :: messages[i] == changes[|changes| - |messages| + i].observation.kind.message
  {}

  /** The last of them gives a candidate exactly if there are as many as the minimum: the newest messages,
      at most as many as the window holds. */
  lemma {:induction false} RollingCandidates(a: Activation, changes: seq<Change>, b: Branch)
    requires a.Valid() && 0 < |changes| <= 4096 && Qualifying(a, changes, b)
    ensures var outcome := Step(a, Run(a, EMPTY, changes[..|changes| - 1]), changes[|changes| - 1]).1;
      (outcome.Chosen? <==> |changes| >= a.Config().minimum)
      && (outcome.Chosen? ==>
            var messages := outcome.candidate.messages;
            |messages| == Least(a.Config().size, |changes|)
            && forall i | 0 <= i < |messages| :: messages[i] == changes[|changes| - |messages| + i].observation.kind.message)
  {
    var prefix, c := changes[..|changes| - 1], changes[|changes| - 1];
    var s := Run(a, EMPTY, prefix);
    assert changes == prefix + [c];
    RollingWindow(a, prefix, b);
    QualifyingTriggers(a, prefix, c, b, s);
    if Step(a, s, c).1.Chosen? { RollingMessages(a, changes, b); }
  }

  lemma {:induction false} RollingMessages(a: Activation, changes: seq<Change>, b: Branch)
    requires a.Valid() && 0 < |changes| <= 4096 && Qualifying(a, changes, b)
    requires Step(a, Run(a, EMPTY, changes[..|changes| - 1]), changes[|changes| - 1]).1.Chosen?
    ensures var messages := Step(a, Run(a, EMPTY, changes[..|changes| - 1]), changes[|changes| - 1]).1.candidate.messages;
      |messages| == Least(a.Config().size, |changes|)
      && forall i | 0 <= i < |messages| :: messages[i] == changes[|changes| - |messages| + i].observation.kind.message
  {
    var s, c := Run(a, EMPTY, changes[..|changes| - 1]), changes[|changes| - 1];
    RollingWindow(a, changes, b);
    LastStep(a, changes);
    CandidateExactly(a, s, c.id, c.revision, c.observation);
    NewestMessages(a, changes, b, Results(Step(a, s, c).0, b), Step(a, s, c).1.candidate.messages);
  }
}
