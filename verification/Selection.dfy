/**
 The event selector: what one published change does to the rolling windows and to the table
 of seen identities. State is a value here; module Selector holds the methods that update it
 in place and module SelectionRuns the properties of whole runs.
 */
module Selection {
  import opened Text
  import opened KeyOrder

  const MAX_WINDOW_MESSAGES: nat := 40
  const MAX_SEEN_RESULTS_PER_BRANCH: nat := 4096

  type Branch = string
  type Version = string
  type NativeOrder = string

  /** `value` stands for the normalized JSON text of the message. */
  datatype Message = Message(id: string, value: string)

  datatype Dependency =
    | MessageVersion(id: string, version: Version)
    | MembershipThrough(position: nat)
    | ContextVersion(id: string, version: Version)
    | SourceEvidence(id: string, version: Version)
    | SessionActivity(epoch: string, revision: nat)

  datatype Kind =
    | UserMessage(message: Message)
    | AssistantMessage(message: Message)
    | ToolCall(message: Message)
    | ToolResult(message: Message)
    | TurnEnd
    | SessionStart
    | SessionIdle
    | Other
  {
    predicate HasMessage() {
      UserMessage? || AssistantMessage? || ToolCall? || ToolResult?
    }
  }

  datatype Observation = Observation(
    position: nat,
    branch: Branch,
    nativeOrder: NativeOrder,
    firstTerminal: Option<nat>,
    firstEligible: Option<nat>,
    version: Version,
    kind: Kind,
    contextIsObject: bool,
    dependencies: set<Dependency>,
    complete: bool)

  datatype Family = Messages | ResponseCycle | Session
  datatype Window = Window(size: nat, minimum: nat)
  datatype Verdict = Match | NoMatch | Reject(diagnostic: string)
  datatype Condition = Matched | ConditionFalse | Unavailable

  /** One compiled check with its start boundary. The authored field filters and the trigger
      condition are parameters; the condition may read whether coverage is complete. */
  datatype Activation = Activation(
    family: Family,
    window: Option<Window>,
    bootstrapPosition: nat,
    bootstrapPublication: nat,
    fields: Observation -> Verdict,
    condition: (Observation, bool) -> Condition)
  {
    function Config(): Window {
      if window.Some? then window.value else Window(1, 1)
    }

    function Size(): nat {
      if Config().size < MAX_WINDOW_MESSAGES then Config().size else MAX_WINDOW_MESSAGES
    }

    /** The bounds that the compiler enforces on an authored window. */
    predicate Valid() {
      1 <= Config().minimum <= Config().size <= MAX_WINDOW_MESSAGES
    }
  }

  datatype Membership = Unknown | Historical | Excluded | Selected | Retired | Removed

  datatype Seen = Seen(
    terminalSeen: bool,
    revision: nat,
    version: Version,
    nativeOrder: NativeOrder,
    membership: Membership)

  datatype SelectedMessage = SelectedMessage(
    version: Version, nativeOrder: NativeOrder, message: Message, complete: bool)

  datatype BranchSelection = BranchSelection(
    results: seq<SelectedMessage>,
    coverageComplete: bool,
    identityLimitReached: bool,
    lastFilterDiagnostic: Option<string>)

  const NEW_BRANCH := BranchSelection([], true, false, None)

  datatype State = State(branches: map<Branch, BranchSelection>, seen: map<Key, Seen>)

  const EMPTY := State(map[], map[])

  datatype Candidate = Candidate(
    branch: Branch, trigger: nat, messages: seq<Message>, dependencies: set<Dependency>)

  datatype Outcome =
    | Updated
    | Filtered
    | FilterRejected(diagnostic: string)
    | ConditionFiltered(condition: Condition)
    | Incomplete
    | WindowInvalidated
    | Chosen(candidate: Candidate)

  // ----- parts of the state

  function Entry(branches: map<Branch, BranchSelection>, b: Branch): BranchSelection {
    if b in branches then branches[b] else NEW_BRANCH
  }

  function Results(s: State, b: Branch): seq<SelectedMessage> {
    Entry(s.branches, b).results
  }

  predicate HasId(results: seq<SelectedMessage>, id: string) {
    exists i :: 0 <= i < |results| && results[i].message.id == id
  }

  /** Whether `id` is in the window of `b`. */
  predicate InWindow(s: State, b: Branch, id: string) {
    HasId(Results(s, b), id)
  }

  function BranchKeys(seen: map<Key, Seen>, b: Branch): set<Key> {
    set k | k in seen && k.major == b
  }

  // ----- single updates

  function WithDiagnostic(s: State, b: Branch, diagnostic: Option<string>): State {
    s.(branches := s.branches[b := Entry(s.branches, b).(lastFilterDiagnostic := diagnostic)])
  }

  function WithResults(s: State, b: Branch, results: seq<SelectedMessage>): State {
    s.(branches := s.branches[b := Entry(s.branches, b).(results := results)])
  }

  function WithCoverage(s: State, b: Branch, complete: bool): State {
    s.(branches := s.branches[b := Entry(s.branches, b).(coverageComplete := complete)])
  }

  function MarkIdentityLimit(s: State, b: Branch): State {
    s.(branches := s.branches[b := Entry(s.branches, b).(identityLimitReached := true, coverageComplete := false)])
  }

  function SetMembership(s: State, k: Key, membership: Membership): State
    requires k in s.seen
  {
    s.(seen := s.seen[k := s.seen[k].(membership := membership)])
  }

  function Without(results: seq<SelectedMessage>, id: string): seq<SelectedMessage> {
    if results == [] then []
    else (if results[0].message.id == id then [] else [results[0]]) + Without(results[1..], id)
  }

  function Discard(s: State, b: Branch, id: string): State {
    if b in s.branches then WithResults(s, b, Without(s.branches[b].results, id)) else s
  }

  function RetireIds(seen: map<Key, Seen>, b: Branch, ids: set<string>): map<Key, Seen> {
    map k | k in seen ::
      if k.major == b && k.minor in ids then seen[k].(membership := Retired) else seen[k]
  }

  function RetiredRecord(seen: Seen): Seen {
    if seen.terminalSeen && !seen.membership.Historical? && !seen.membership.Removed?
    then seen.(membership := Retired)
    else seen
  }

  /** Empties the window of `b` and bars every terminal identity of `b` from a later window. */
  function RetireWindow(s: State, b: Branch): State {
    State(
      if b in s.branches then s.branches[b := s.branches[b].(results := [])] else s.branches,
      map k | k in s.seen :: if k.major == b then RetiredRecord(s.seen[k]) else s.seen[k])
  }

  function MarkCoverageGap(s: State, b: Branch): State {
    WithCoverage(s, b, false)
  }

  function ResetSegment(s: State, b: Branch): State {
    MarkCoverageGap(RetireWindow(s, b), b)
  }

  function RestoreCoverage(s: State, b: Branch): State {
    WithCoverage(RetireWindow(s, b), b, true)
  }

  // ----- decisions

  predicate IsHistorical(a: Activation, o: Observation) {
    o.position <= a.bootstrapPosition
    || if o.kind.ToolResult?
       then o.firstTerminal.Some? && o.firstTerminal.value <= a.bootstrapPublication
       else o.firstEligible.None? || o.firstEligible.value <= a.bootstrapPublication
  }

  function EventFilters(a: Activation, o: Observation): Verdict {
    if (a.family.Messages? && o.kind.HasMessage())
       || (a.family.ResponseCycle? && o.kind.TurnEnd?)
       || (a.family.Session? && (o.kind.SessionStart? || o.kind.SessionIdle?))
    then a.fields(o)
    else NoMatch
  }

  predicate AcceptsUpdate(s: State, b: Branch, id: string, revision: nat, version: Version) {
    var k := Key(b, id);
    k in s.seen ==>
      revision > s.seen[k].revision
      || (revision == s.seen[k].revision && !s.seen[k].membership.Removed? && version != s.seen[k].version)
  }

  predicate IsNormalizedDuplicate(s: State, b: Branch, id: string, revision: nat, version: Version) {
    var k := Key(b, id);
    k in s.seen && revision == s.seen[k].revision
    && !s.seen[k].membership.Removed? && version == s.seen[k].version
  }

  // ----- whole operations

  function Ids(results: seq<SelectedMessage>): set<string> {
    set r | r in results :: r.message.id
  }

  /** Appends the message of `o` to its window and retires what no longer fits. */
  function Push(a: Activation, s: State, o: Observation): State
    requires o.kind.HasMessage()
  {
    var added := Results(s, o.branch) + [SelectedMessage(o.version, o.nativeOrder, o.kind.message, o.complete)];
    var excess := if |added| > a.Size() then |added| - a.Size() else 0;
    State(
      s.branches[o.branch := Entry(s.branches, o.branch).(results := added[excess..])],
      RetireIds(s.seen, o.branch, Ids(added[..excess])))
  }

  function WindowDependencies(results: seq<SelectedMessage>): set<Dependency> {
    set r | r in results :: MessageVersion(r.message.id, r.version)
  }

  function MessagesOf(results: seq<SelectedMessage>): seq<Message> {
    seq(|results|, i requires 0 <= i < |results| => results[i].message)
  }

  function Freeze(o: Observation, results: seq<SelectedMessage>): Candidate {
    Candidate(o.branch, o.position, MessagesOf(results),
              WindowDependencies(results) + o.dependencies + {MembershipThrough(o.position)})
  }

  /** Applies one terminal observation as a new trigger. */
  function Apply(a: Activation, s: State, o: Observation): (State, Outcome) {
    if o.kind.Other? || IsHistorical(a, o) then (s, Updated)
    else match EventFilters(a, o)
      case Reject(diagnostic) => (WithDiagnostic(s, o.branch, Some(diagnostic)), FilterRejected(diagnostic))
      case NoMatch => (s, Filtered)
      case Match =>
        var cleared := WithDiagnostic(s, o.branch, None);
        var condition := a.condition(o, cleared.branches[o.branch].coverageComplete);
        if !o.contextIsObject then (cleared, Incomplete)
        else if condition != Matched then (cleared, ConditionFiltered(condition))
        else if !o.kind.HasMessage() then
          (cleared, Chosen(Candidate(o.branch, o.position, [], o.dependencies)))
        else
          var pushed := Push(a, cleared, o);
          if |Results(pushed, o.branch)| < a.Config().minimum then (pushed, Updated)
          else (pushed, Chosen(Freeze(o, Results(pushed, o.branch))))
  }

  /** Replaces the window entry of an identity by its corrected value. */
  function Replace(results: seq<SelectedMessage>, o: Observation, id: string): seq<SelectedMessage>
    requires o.kind.HasMessage()
  {
    if results == [] then []
    else if results[0].message.id == id then
      [results[0].(version := o.version, message := o.kind.message, complete := o.complete)] + results[1..]
    else [results[0]] + Replace(results[1..], o, id)
  }

  /** Applies a later revision of an identity whose first terminal value was already seen. */
  function ApplyCorrection(a: Activation, s: State, id: string, previous: Seen, o: Observation): (State, Outcome)
    requires Key(o.branch, id) in s.seen && a.family.Messages?
  {
    var k := Key(o.branch, id);
    if previous.membership.Historical? || previous.membership.Retired? || previous.membership.Removed? then
      (s, Updated)
    else
      var selected := InWindow(s, o.branch, id);
      var coverage := Entry(s.branches, o.branch).coverageComplete;
      var verdict := EventFilters(a, o);
      var noted := WithDiagnostic(s, o.branch, if verdict.Reject? then Some(verdict.diagnostic) else None);
      var matches := verdict.Match? && o.contextIsObject && a.condition(o, coverage) == Matched;
      if !matches then
        (SetMembership(Discard(noted, o.branch, id), k, Excluded),
         if verdict.Reject? then FilterRejected(verdict.diagnostic) else Updated)
      else if previous.membership.Unknown? && !selected then
        (MarkCoverageGap(SetMembership(noted, k, Retired), o.branch), WindowInvalidated)
      else if previous.nativeOrder != o.nativeOrder || !selected then
        (SetMembership(WithCoverage(RetireWindow(noted, o.branch), o.branch, false), k, Retired), WindowInvalidated)
      else
        (SetMembership(WithResults(noted, o.branch, Replace(Results(noted, o.branch), o, id)), k, Selected), Updated)
  }

  /** Records the newest revision of an identity. A removed identity comes back as retired. */
  function Record(s: State, id: string, revision: nat, o: Observation): State {
    var k := Key(o.branch, id);
    var terminal := !o.kind.Other?;
    s.(seen := s.seen[k := Seen(
      terminal || (k in s.seen && s.seen[k].terminalSeen),
      revision, o.version, o.nativeOrder,
      if k !in s.seen then Unknown
      else if s.seen[k].membership.Removed? then Retired
      else s.seen[k].membership)])
  }

  /** Applies one published observation. */
  function ApplyPublished(a: Activation, s: State, id: string, revision: nat, o: Observation): (State, Outcome) {
    var k := Key(o.branch, id);
    if k !in s.seen && o.branch in s.branches && s.branches[o.branch].identityLimitReached then (s, Updated)
    else if !AcceptsUpdate(s, o.branch, id, revision, o.version) then (s, Updated)
    else if k !in s.seen && |BranchKeys(s.seen, o.branch)| >= MAX_SEEN_RESULTS_PER_BRANCH then
      (MarkIdentityLimit(s, o.branch), Updated)
    else
      var recorded := Record(s, id, revision, o);
      if !o.kind.Other? && IsHistorical(a, o) then
        (SetMembership(Discard(recorded, o.branch, id), k, Historical), Updated)
      else if k !in s.seen || !s.seen[k].terminalSeen then
        if o.kind.Other? then (recorded, Updated)
        else
          var (applied, outcome) := Apply(a, recorded, o);
          ApplyKeepsKeys(a, recorded, o);
          (SetMembership(applied, k, if outcome.Chosen? || outcome.Updated? then Selected else Excluded), outcome)
      else if !a.family.Messages? then (SetMembership(recorded, k, Retired), Updated)
      else ApplyCorrection(a, recorded, id, s.seen[k], o)
  }

  lemma {:induction false} ApplyKeepsKeys(a: Activation, s: State, o: Observation)
    ensures Apply(a, s, o).0.seen.Keys == s.seen.Keys
  {
  }

  /** Applies one removal; the flag says whether the source state changed. */
  function RemoveResult(s: State, b: Branch, id: string, revision: nat): (State, bool) {
    var k := Key(b, id);
    if k in s.seen && (revision < s.seen[k].revision
                       || (revision == s.seen[k].revision && s.seen[k].membership.Removed?)) then (s, false)
    else if k !in s.seen && |BranchKeys(s.seen, b)| >= MAX_SEEN_RESULTS_PER_BRANCH then
      (Discard(MarkIdentityLimit(s, b), b, id), true)
    else
      var order := if k in s.seen then s.seen[k].nativeOrder else "";
      var tombstone := Seen(true, revision, "removed:" + Numeral(revision), order, Removed);
      (Discard(s.(seen := s.seen[k := tombstone]), b, id), true)
  }
}
