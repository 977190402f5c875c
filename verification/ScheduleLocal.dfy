/**
 A local start, whatever the store answers, is a run of scheduler actions: the start, a forgotten release
 if there was one, one action for the candidate, and the end of its guard unless the task runs.
 */
module ScheduleLocal {
  import opened Text
  import opened KeyOrder
  import opened Schedule
  import opened ScheduleRuns
  import opened Scheduler
  import F = ScheduleFairness

  /** Whether the candidate is queued again, or gave way to a newer one of its window. */
  predicate StillQueued(s: State, k: Key, p: Pending) {
    p.trigger in QueueOf(s, k) || (p.windowed && HasNew(QueueOf(s, k)))
  }

  /** The system after a local start: only a running task keeps a guard. */
  function SystemAfter(x: System, g: nat, k: Key, t: State, outcome: StartOutcome): System
    requires QueueOf(x.sched, k) != map[]
  {
    System(t, if outcome.Running? then x.guards[g := Guard(k, Some(Take(x.sched, k).1))] else x.guards)
  }

  // ----- the actions of a start

  function PreDispatchActions(g: nat, token: string, release: Reply): seq<Action> {
    match release
    case Current => [DoRestore(g, false), DoFinish(g)]
    case Stale => [DoFinish(g)]
    case Failed => [DoRestoreWithRelease(g, false, token), DoFinish(g)]
  }

  /** The actions after the store granted the claim. */
  function ClaimedActions(g: nat, token: string, now: nat, cooldown: nat, policy: Policy, r: Replies): seq<Action> {
    var cleared := [DoSettle(g), DoFinish(g)];
    var returned := PreDispatchActions(g, token, r.finalRelease);
    if !r.runtimeIsCurrent then
      match r.claimRelease
      case Current => [DoRestore(g, false), DoFinish(g)]
      case Stale => cleared
      case Failed => returned
    else if !r.conditionHolds then (if r.rejection.Failed? then returned else cleared)
    else
      match r.start
      case Current => [DoMarkStarted(g, now, if policy.SequentialReplay? then 0 else cooldown, policy)]
      case Stale => cleared
      case Failed => returned
  }

  /** The actions after an earlier claim is given back. */
  function ReleasedActions(g: nat, now: nat, cooldown: nat, policy: Policy, r: Replies): seq<Action> {
    match r.claim
    case NotDue(retryAt) => [DoDefer(g, retryAt), DoFinish(g)]
    case ClaimStale => [DoSettle(g), DoFinish(g)]
    case ClaimFailed => [DoRestore(g, false), DoFinish(g)]
    case Claimed(token) => ClaimedActions(g, token, now, cooldown, policy, r)
  }

  /** The actions after the candidate is taken. */
  function TakenActions(s: State, k: Key, g: nat, now: nat, cooldown: nat, policy: Policy, r: Replies): seq<Action> {
    if k !in s.releases then ReleasedActions(g, now, cooldown, policy, r)
    else if r.earlierRelease.Failed? then [DoRestore(g, false), DoFinish(g)]
    else [DoForgetRelease(k)] + ReleasedActions(g, now, cooldown, policy, r)
  }

  /** All actions of a local start that picks `k`. */
  function LocalActions(s: State, k: Key, g: nat, activation: string, now: nat, ready: set<string>, cooldown: nat,
                        policy: Policy, r: Replies): seq<Action>
  {
    [DoStart(g, k, activation, now, ready, policy)] + TakenActions(s, k, g, now, cooldown, policy, r)
  }

  // ----- the actions are a run

  ghost predicate RunsTo(windows: set<string>, x: System, actions: seq<Action>, y: System) {
    IsRun(windows, x, actions) && After(windows, x, actions) == y
  }

  lemma {:induction false} RunsOne(windows: set<string>, x: System, a: Action, rest: seq<Action>, y: System)
    requires Enabled(windows, x, a) && RunsTo(windows, Next(windows, x, a), rest, y)
    ensures RunsTo(windows, x, [a] + rest, y)
  {
    assert ([a] + rest)[0] == a && ([a] + rest)[1..] == rest;
  }

  lemma {:induction false} RunsLast(windows: set<string>, x: System, a: Action)
    requires Enabled(windows, x, a)
    ensures RunsTo(windows, x, [a], Next(windows, x, a))
  {
    RunsOne(windows, x, a, [], Next(windows, x, a));
    assert [a] + [] == [a];
  }

  /** The end of a start from the system `y` in which guard `g` holds the candidate. */
  function EndOf(y: System, g: nat, t: State, running: bool): System {
    System(t, if running then y.guards else y.guards - {g})
  }

  /** An action that gives the candidate back, or lets it go, and the end of the guard. */
  lemma {:induction false} RunsAndFinishes(windows: set<string>, y: System, g: nat, a: Action, t: State)
    requires g in y.guards && Enabled(windows, y, a) && Next(windows, y, a) == Release(y.(sched := t), g)
    ensures RunsTo(windows, y, [a, DoFinish(g)], EndOf(y, g, Finish(t, y.guards[g].key), false))
  {
    var z := Next(windows, y, a);
    assert z.guards - {g} == y.guards - {g};
    RunsLast(windows, z, DoFinish(g));
    RunsOne(windows, y, a, [DoFinish(g)], Next(windows, z, DoFinish(g)));
    assert [a] + [DoFinish(g)] == [a, DoFinish(g)];
  }

  lemma {:induction false} ReturnRuns(windows: set<string>, y: System, g: nat)
    requires Holds(y, g)
    ensures RunsTo(windows, y, [DoRestore(g, false), DoFinish(g)],
                   EndOf(y, g, Finish(Restore(y.sched, y.guards[g].key, y.guards[g].held.value), y.guards[g].key), false))
  {
    var p := y.guards[g].held.value;
    assert p.(resumed := p.resumed || false) == p;
    RunsAndFinishes(windows, y, g, DoRestore(g, false), Restore(y.sched, y.guards[g].key, p));
  }

  lemma {:induction false} ClearRuns(windows: set<string>, y: System, g: nat)
    requires g in y.guards
    ensures RunsTo(windows, y, [DoSettle(g), DoFinish(g)],
                   EndOf(y, g, Finish(ClearTicketIfIdle(y.sched, y.guards[g].key), y.guards[g].key), false))
  {
    RunsAndFinishes(windows, y, g, DoSettle(g), ClearTicketIfIdle(y.sched, y.guards[g].key));
  }

  lemma {:induction false} PreDispatchRuns(windows: set<string>, y: System, g: nat, token: string, release: Reply)
    requires Holds(y, g)
    ensures RunsTo(windows, y, PreDispatchActions(g, token, release),
                   EndOf(y, g, Finish(PreDispatchState(y.sched, y.guards[g].key, y.guards[g].held.value, token, release), y.guards[g].key), false))
  {
    var k, p := y.guards[g].key, y.guards[g].held.value;
    match release
    case Current => ReturnRuns(windows, y, g);
    case Stale => RunsLast(windows, y, DoFinish(g));
    case Failed =>
      assert p.(resumed := p.resumed || false) == p;
      RunsAndFinishes(windows, y, g, DoRestoreWithRelease(g, false, token), RestoreWithRelease(y.sched, k, p, token));
  }

  lemma {:induction false} ClaimedRuns(windows: set<string>, y: System, g: nat, token: string, now: nat, cooldown: nat, policy: Policy, r: Replies)
    requires Holds(y, g)
    ensures var (t, outcome) := ClaimedStart(y.sched, y.guards[g].key, y.guards[g].held.value, token, now, cooldown, policy, r);
      RunsTo(windows, y, ClaimedActions(g, token, now, cooldown, policy, r), EndOf(y, g, t, outcome.Running?))
  {
    ReturnRuns(windows, y, g);
    ClearRuns(windows, y, g);
    PreDispatchRuns(windows, y, g, token, r.finalRelease);
    RunsLast(windows, y, DoMarkStarted(g, now, if policy.SequentialReplay? then 0 else cooldown, policy));
  }

  lemma {:induction false} ReleasedRuns(windows: set<string>, y: System, g: nat, now: nat, cooldown: nat, policy: Policy, r: Replies)
    requires Holds(y, g)
    ensures var (t, outcome) := ReleasedStart(y.sched, y.guards[g].key, y.guards[g].held.value, now, cooldown, policy, r);
      RunsTo(windows, y, ReleasedActions(g, now, cooldown, policy, r), EndOf(y, g, t, outcome.Running?))
  {
    match r.claim
    case NotDue(retryAt) =>
      RunsAndFinishes(windows, y, g, DoDefer(g, retryAt), Defer(y.sched, y.guards[g].key, y.guards[g].held.value, retryAt));
    case ClaimStale => ClearRuns(windows, y, g);
    case ClaimFailed => ReturnRuns(windows, y, g);
    case Claimed(token) => ClaimedRuns(windows, y, g, token, now, cooldown, policy, r);
  }

  lemma {:induction false} TakenRuns(windows: set<string>, y: System, g: nat, now: nat, cooldown: nat, policy: Policy, r: Replies)
    requires Holds(y, g)
    ensures var k := y.guards[g].key;
      var (t, outcome) := TakenStart(y.sched, k, y.guards[g].held.value, now, cooldown, policy, r);
      RunsTo(windows, y, TakenActions(y.sched, k, g, now, cooldown, policy, r), EndOf(y, g, t, outcome.Running?))
  {
    var k := y.guards[g].key;
    if k !in y.sched.releases {
      assert ForgetRelease(y.sched, k) == y.sched by { assert y.sched.releases - {k} == y.sched.releases; }
      ReleasedRuns(windows, y, g, now, cooldown, policy, r);
    } else if r.earlierRelease.Failed? {
      ReturnRuns(windows, y, g);
    } else {
      var z := y.(sched := ForgetRelease(y.sched, k));
      var (t, outcome) := ReleasedStart(z.sched, k, y.guards[g].held.value, now, cooldown, policy, r);
      ReleasedRuns(windows, z, g, now, cooldown, policy, r);
      RunsOne(windows, y, DoForgetRelease(k), ReleasedActions(g, now, cooldown, policy, r), EndOf(z, g, t, outcome.Running?));
    }
  }

  /** A local start of the picked key is a run of scheduler actions, so everything that holds of all
      interleavings holds with local starts in them. */
  lemma {:induction false} LocalStartIsRun(windows: set<string>, x: System, g: nat, k: Key, activation: string, now: nat,
                          ready: set<string>, cooldown: nat, policy: Policy, r: Replies)
    requires g !in x.guards && x.sched.active < MAX_IN_FLIGHT_EVALUATIONS
    requires Picks(x.sched, activation, now, ready, policy, k)
    ensures var (t, outcome) := LocalStart(x.sched, k, now, cooldown, policy, r);
      var actions := LocalActions(x.sched, k, g, activation, now, ready, cooldown, policy, r);
      IsRun(windows, x, actions) && After(windows, x, actions) == SystemAfter(x, g, k, t, outcome)
  {
    var (taken, p) := Take(x.sched, k);
    var y := System(taken, x.guards[g := Guard(k, Some(p))]);
    var (t, outcome) := TakenStart(taken, k, p, now, cooldown, policy, r);
    TakenRuns(windows, y, g, now, cooldown, policy, r);
    assert y.guards - {g} == x.guards;
    RunsOne(windows, x, DoStart(g, k, activation, now, ready, policy), TakenActions(x.sched, k, g, now, cooldown, policy, r),
            EndOf(y, g, t, outcome.Running?));
  }

  /** A start keeps the invariant. Unless the task runs, it gives back its key and its slot. */
  lemma {:induction false} LocalStartSettles(windows: set<string>, x: System, g: nat, k: Key, now: nat, cooldown: nat,
                          policy: Policy, r: Replies)
    requires Inv(windows, x) && g !in x.guards && x.sched.active < MAX_IN_FLIGHT_EVALUATIONS
    requires QueueOf(x.sched, k) != map[] && k !in x.sched.inFlight
    ensures var (t, outcome) := LocalStart(x.sched, k, now, cooldown, policy, r);
      Inv(windows, SystemAfter(x, g, k, t, outcome))
      && t.active == x.sched.active + (if outcome.Running? then 1 else 0)
      && t.inFlight == (if outcome.Running? then x.sched.inFlight + {k} else x.sched.inFlight)
  {
    var (taken, p) := Take(x.sched, k);
    var y := System(taken, x.guards[g := Guard(k, Some(p))]);
    StartStep(windows, x, g, k);
    TakenSettles(windows, y, g, now, cooldown, policy, r);
    StartedBack(windows, x, y, g, k, TakenStart(taken, k, p, now, cooldown, policy, r).0,
                TakenStart(taken, k, p, now, cooldown, policy, r).1);
  }

  lemma {:induction false} StartedBack(windows: set<string>, x: System, y: System, g: nat, k: Key, t: State, outcome: StartOutcome)
    requires g !in x.guards && QueueOf(x.sched, k) != map[] && k !in x.sched.inFlight
    requires y.guards == x.guards[g := Guard(k, Some(Take(x.sched, k).1))]
    requires y.sched.active == x.sched.active + 1 && y.sched.inFlight == x.sched.inFlight + {k}
    requires Inv(windows, EndOf(y, g, t, outcome.Running?)) && t.active + (if outcome.Running? then 0 else 1) == y.sched.active
    requires t.inFlight == if outcome.Running? then y.sched.inFlight else y.sched.inFlight - {k}
    ensures Inv(windows, SystemAfter(x, g, k, t, outcome))
    ensures t.active == x.sched.active + (if outcome.Running? then 1 else 0)
    ensures t.inFlight == if outcome.Running? then x.sched.inFlight + {k} else x.sched.inFlight
  {
    assert y.guards - {g} == x.guards;
    assert y.sched.inFlight - {k} == x.sched.inFlight;
  }

  lemma {:induction false} TakenSettles(windows: set<string>, y: System, g: nat, now: nat, cooldown: nat, policy: Policy, r: Replies)
    requires Inv(windows, y) && Holds(y, g)
    ensures var k := y.guards[g].key;
      var (t, outcome) := TakenStart(y.sched, k, y.guards[g].held.value, now, cooldown, policy, r);
      Inv(windows, EndOf(y, g, t, outcome.Running?))
      && t.active + (if outcome.Running? then 0 else 1) == y.sched.active
      && t.inFlight == if outcome.Running? then y.sched.inFlight else y.sched.inFlight - {k}
  {
    var k := y.guards[g].key;
    TakenRuns(windows, y, g, now, cooldown, policy, r);
    EveryInterleavingIsBounded(windows, y, TakenActions(y.sched, k, g, now, cooldown, policy, r));
    GuardCounted(windows, y, g);
    TakenGivesBack(y.sched, k, y.guards[g].held.value, now, cooldown, policy, r);
  }

  lemma {:induction false} TakenGivesBack(s: State, k: Key, p: Pending, now: nat, cooldown: nat, policy: Policy, r: Replies)
    requires s.active > 0
    ensures var (t, outcome) := TakenStart(s, k, p, now, cooldown, policy, r);
      t.active + (if outcome.Running? then 0 else 1) == s.active
      && t.inFlight == if outcome.Running? then s.inFlight else s.inFlight - {k}
  {
    if !(k in s.releases && r.earlierRelease.Failed?) {
      ReleasedGivesBack(ForgetRelease(s, k), k, p, now, cooldown, policy, r);
    }
  }

  lemma {:induction false} ReleasedGivesBack(s: State, k: Key, p: Pending, now: nat, cooldown: nat, policy: Policy, r: Replies)
    requires s.active > 0
    ensures var (t, outcome) := ReleasedStart(s, k, p, now, cooldown, policy, r);
      t.active + (if outcome.Running? then 0 else 1) == s.active
      && t.inFlight == if outcome.Running? then s.inFlight else s.inFlight - {k}
  {
    if r.claim.Claimed? { ClaimedGivesBack(s, k, p, r.claim.token, now, cooldown, policy, r); }
  }

  lemma {:induction false} ClaimedGivesBack(
      s: State, k: Key, p: Pending, token: string, now: nat, cooldown: nat, policy: Policy, r: Replies)
    requires s.active > 0
    ensures var (t, outcome) := ClaimedStart(s, k, p, token, now, cooldown, policy, r);
      t.active + (if outcome.Running? then 0 else 1) == s.active
      && t.inFlight == if outcome.Running? then s.inFlight else s.inFlight - {k}
  {}

  // ----- a start is one atomic move

  function PreDispatchEnding(token: string, release: Reply): F.Ending {
    match release
    case Current => F.PutBack(false)
    case Stale => F.LetGo
    case Failed => F.PutBackWithClaim(false, token)
  }

  /** How a start ends after the store granted the claim; none if it dispatches. */
  function ClaimedEnding(token: string, r: Replies): Option<F.Ending> {
    var returned := PreDispatchEnding(token, r.finalRelease);
    if !r.runtimeIsCurrent then
      Some(match r.claimRelease case Current => F.PutBack(false) case Stale => F.SettledEarly case Failed => returned)
    else if !r.conditionHolds then Some(if r.rejection.Failed? then returned else F.SettledEarly)
    else
      match r.start
      case Current => None
      case Stale => Some(F.SettledEarly)
      case Failed => Some(returned)
  }

  function ReleasedEnding(r: Replies): Option<F.Ending> {
    match r.claim
    case NotDue(retryAt) => Some(F.PutOff(retryAt))
    case ClaimStale => Some(F.SettledEarly)
    case ClaimFailed => Some(F.PutBack(false))
    case Claimed(token) => ClaimedEnding(token, r)
  }

  /** The moves of a local start: a forgotten claim, if there was one, and the start itself. */
  function LocalMoves(s: State, k: Key, activation: string, now: nat, ready: set<string>, cooldown: nat, r: Replies): seq<F.Move> {
    if k in s.releases && r.earlierRelease.Failed? then [F.Attempt(k, activation, now, ready, F.PutBack(false))]
    else
      [F.ForgetClaim(k), LastMove(k, activation, now, ready, cooldown, r)]
  }

  lemma {:induction false} ReleasedEnds(s: State, k: Key, p: Pending, now: nat, cooldown: nat, r: Replies)
    ensures var (t, outcome) := ReleasedStart(s, k, p, now, cooldown, Live, r);
      (outcome.Running? <==> ReleasedEnding(r).None?)
      && t == if outcome.Running? then MarkStarted(s, k, now, cooldown, Live) else F.Ended(s, k, p, ReleasedEnding(r).value)
  {
    assert p.(resumed := p.resumed || false) == p;
  }

  /** Every live local start is made of the moves that the starvation bound is about, and it dispatches
      exactly when its task runs. */
  lemma {:induction false} LocalStartIsMoves(s: State, k: Key, activation: string, now: nat, ready: set<string>, cooldown: nat, r: Replies)
    requires s.active < MAX_IN_FLIGHT_EVALUATIONS && Picks(s, activation, now, ready, Live, k)
    ensures var moves := LocalMoves(s, k, activation, now, ready, cooldown, r);
      var (t, outcome) := LocalStart(s, k, now, cooldown, Live, r);
      F.MovesAllowed(s, moves) && F.MovedAll(s, moves) == t && F.Dispatches(moves) == if outcome.Running? then 1 else 0
  {
    var (taken, p) := Take(s, k);
    if k in s.releases && r.earlierRelease.Failed? {
      assert p.(resumed := p.resumed || false) == p;
      OneMove(s, F.Attempt(k, activation, now, ready, F.PutBack(false)));
    } else {
      ForgottenClaim(s, k, activation, now, ready);
      ReleasedEnds(ForgetRelease(taken, k), k, p, now, cooldown, r);
      TwoMoves(s, F.ForgetClaim(k), LastMove(k, activation, now, ready, cooldown, r));
    }
  }

  function LastMove(k: Key, activation: string, now: nat, ready: set<string>, cooldown: nat, r: Replies): F.Move {
    if ReleasedEnding(r).None? then F.Dispatch(k, activation, now, ready, cooldown)
    else F.Attempt(k, activation, now, ready, ReleasedEnding(r).value)
  }

  /** A remembered claim plays no part in the choice, and taking the candidate keeps it. */
  lemma {:induction false} ForgottenClaim(s: State, k: Key, activation: string, now: nat, ready: set<string>)
    requires Picks(s, activation, now, ready, Live, k)
    ensures Picks(ForgetRelease(s, k), activation, now, ready, Live, k)
    ensures Take(ForgetRelease(s, k), k) == (ForgetRelease(Take(s, k).0, k), Take(s, k).1)
  {
    var t := ForgetRelease(s, k);
    assert forall j :: QueueOf(t, j) == QueueOf(s, j);
  }

  lemma {:induction false} TwoMoves(s: State, first: F.Move, second: F.Move)
    requires F.CanMove(s, first) && F.CanMove(F.Moved(s, first), second)
    ensures F.MovesAllowed(s, [first, second]) && F.MovedAll(s, [first, second]) == F.Moved(F.Moved(s, first), second)
    ensures F.Dispatches([first, second]) == F.Dispatches([first]) + F.Dispatches([second])
    ensures F.Dispatches([second]) == if second.Dispatch? then 1 else 0
    ensures F.Dispatches([first]) == if first.Dispatch? then 1 else 0
  {
    OneMove(F.Moved(s, first), second);
    assert [first, second][1..] == [second] && [first][1..] == [];
  }

  lemma {:induction false} OneMove(s: State, m: F.Move)
    requires F.CanMove(s, m)
    ensures F.MovesAllowed(s, [m]) && F.MovedAll(s, [m]) == F.Moved(s, m) && F.Dispatches([m]) == if m.Dispatch? then 1 else 0
  {
    assert [m][1..] == [];
  }

  // ----- put off is not lost

  lemma {:induction false} PutBackQueues(s: State, k: Key, p: Pending)
    ensures StillQueued(Restore(s, k, p), k, p)
    ensures StillQueued(Finish(Restore(s, k, p), k), k, p)
  {
    var t := Restore(s, k, p);
    assert QueueOf(Finish(t, k), k) == QueueOf(t, k);
  }

  /** A candidate that was taken and then put off is not lost: unless the store says the claim is
      stale, every start that neither runs nor settles leaves it queued or superseded. */
  lemma {:induction false} PutOffCandidateStaysQueued(s: State, k: Key, now: nat, cooldown: nat, policy: Policy, r: Replies)
    requires QueueOf(s, k) != map[]
    requires !r.finalRelease.Stale?
    ensures var (t, outcome) := LocalStart(s, k, now, cooldown, policy, r);
      outcome.NothingDue? || outcome.StartFailed? ==> StillQueued(t, k, Take(s, k).1)
  {
    var (taken, p) := Take(s, k);
    PutBackQueues(taken, k, p);
    ReleasedStaysQueued(ForgetRelease(taken, k), k, p, now, cooldown, policy, r);
  }

  lemma {:induction false} ReleasedStaysQueued(s: State, k: Key, p: Pending, now: nat, cooldown: nat, policy: Policy, r: Replies)
    requires !r.finalRelease.Stale?
    ensures var (t, outcome) := ReleasedStart(s, k, p, now, cooldown, policy, r);
      outcome.NothingDue? || outcome.StartFailed? ==> StillQueued(t, k, p)
  {
    PutBackQueues(s, k, p);
    match r.claim
    case NotDue(retryAt) => PutBackQueues(s.(cooldownUntil := s.cooldownUntil[k := retryAt]), k, p);
    case ClaimStale =>
    case ClaimFailed =>
    case Claimed(token) => PutBackQueues(s.(releases := s.releases[k := token]), k, p);
  }
}
