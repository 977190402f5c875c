/** The scheduler with its state updated in place, one method for each section under the lock. */
module Scheduler {
  import opened Text
  import opened KeyOrder
  import opened Schedule
  import opened ScheduleRuns

  datatype Reply = Current | Stale | Failed
  datatype Claim = Claimed(token: string) | NotDue(retryAt: nat) | ClaimStale | ClaimFailed

  /** The answers of the store and of the evaluator while one local candidate starts. */
  datatype Replies = Replies(
    earlierRelease: Reply,
    claim: Claim,
    runtimeIsCurrent: bool,
    claimRelease: Reply,
    finalRelease: Reply,
    conditionHolds: bool,
    rejection: Reply,
    start: Reply)

  datatype StartOutcome =
    | NothingDue
    | StartStale
    | StartFailed
    /** The task has its result already; its guard is finished. */
    | Settled
    /** The task runs and keeps its guard. */
    | Running

  class SchedulerState {
    var pending: map<Key, Queue>
    var inFlight: set<Key>
    var cooldownUntil: map<Key, nat>
    var tickets: map<Key, nat>
    var nextTicket: nat
    var active: nat
    var recent: nat
    var releases: map<Key, string>

    constructor ()
      ensures View() == IDLE
    {
      pending, inFlight, cooldownUntil, tickets := map[], {}, map[], map[];
      nextTicket, active, recent, releases := 0, 0, 0, map[];
    }

    ghost function View(): State
      reads this
    {
      State(pending, inFlight, cooldownUntil, tickets, nextTicket, active, recent, releases)
    }

    /** Adds up the lengths of all queues. */
    method PendingCount() returns (count: nat)
      ensures count == |Slots(pending)|
    {
      count := 0;
      var keys := pending.Keys;
      ghost var seen: map<Key, Queue> := map[];
      assert Slots(map[]) == {};
      while keys != {}
        invariant keys <= pending.Keys
        invariant seen == map k | k in pending && k !in keys :: pending[k]
        invariant count == |Slots(seen)|
        decreases keys
      {
        var k :| k in keys;
        AddQueueSlots(seen, k, pending[k]);
        seen := seen[k := pending[k]];
        count := count + |pending[k]|;
        keys := keys - {k};
      }
      assert seen == pending;
    }

    /** Drops every queued candidate that the store reports as terminal. */
    method PruneTerminal(terminal: set<string>)
      modifies this
      ensures View() == Prune(old(View()), terminal)
    {
      var keys := pending.Keys;
      var kept: map<Key, Queue> := map[];
      var emptied: set<Key> := {};
      while keys != {}
        invariant keys <= pending.Keys
        invariant View() == old(View())
        invariant emptied == Emptied(pending, pending.Keys - keys, terminal)
        invariant kept == KeptQueues(pending, pending.Keys - keys, terminal)
        decreases keys
      {
        var k :| k in keys;
        var queue := Surviving(pending[k], terminal);
        KeepOne(pending, pending.Keys - keys, k, terminal);
        assert pending.Keys - (keys - {k}) == (pending.Keys - keys) + {k};
        if queue == map[] {
          emptied := emptied + {k};
        } else {
          kept := kept[k := queue];
        }
        keys := keys - {k};
      }
      assert emptied == set k | k in pending && Surviving(pending[k], terminal) == map[];
      assert kept == map k | k in pending && k !in emptied :: Surviving(pending[k], terminal);
      pending := kept;
      tickets := tickets - emptied;
    }

    /** Admits a candidate; a full scheduler is pruned first, and a full one afterwards overflows. */
    method Enqueue(p: Pending, terminal: set<string>) returns (outcome: EnqueueOutcome)
      modifies this
      ensures var full := |Slots(old(pending))| >= MAX_PENDING_CANDIDATES;
        (View(), outcome) == Schedule.Enqueue(if full then Prune(old(View()), terminal) else old(View()), p)
    {
      var count := PendingCount();
      if count >= MAX_PENDING_CANDIDATES {
        PruneTerminal(terminal);
      }
      ghost var s := View();
      var queue := if p.key in pending then pending[p.key] else map[];
      if p.trigger in queue {
        pending := pending[p.key := queue[p.trigger := queue[p.trigger].(resumed := queue[p.trigger].resumed || p.resumed)]];
        return Queued;
      }
      var swaps := !p.resumed && p.windowed && p.key in pending && HasNew(queue);
      var needsTicket := queue == map[];
      count := PendingCount();
      if !swaps && count >= MAX_PENDING_CANDIDATES { return Overflow; }
      if swaps {
        var last := Last(queue);
        if !queue[last].resumed && last > p.trigger { return Coalesced; }
        queue := OnlyResumed(queue);
      }
      pending := pending[p.key := queue[p.trigger := p]];
      if needsTicket {
        tickets := tickets[p.key := nextTicket];
        nextTicket := nextTicket + 1;
      }
      return if swaps then Coalesced else Queued;
    }

    method ResetBranches(activation: string, branches: set<string>)
      modifies this
      ensures View() == Schedule.ResetBranches(old(View()), activation, branches)
    {
      pending := map k | k in pending && (k.major != activation || k.minor !in branches) :: pending[k];
    }

    method RevokeActivations(revoked: set<string>)
      modifies this
      ensures View() == Schedule.RevokeActivations(old(View()), revoked)
    {
      pending := map k | k in pending && k.major !in revoked :: pending[k];
      cooldownUntil := map k | k in cooldownUntil && k.major !in revoked :: cooldownUntil[k];
      releases := map k | k in releases && k.major !in revoked :: releases[k];
    }

    /** Ranks the due keys: a scan in any order that keeps the best one so far. The ranking has no ties. */
    method PickDue(activation: string, now: nat, ready: set<string>, policy: Policy) returns (best: Option<Key>)
      requires forall k | k in pending :: pending[k] != map[]
      ensures best.Some? ==> Picks(View(), activation, now, ready, policy, best.value)
      ensures best.None? ==> forall k | k in pending :: !Due(View(), activation, now, ready, policy, k)
    {
      ghost var s := View();
      var snapshot := State(pending, inFlight, cooldownUntil, tickets, nextTicket, active, recent, releases);
      best := None;
      var keys := pending.Keys;
      ghost var passed: set<Key> := {};
      while keys != {}
        invariant passed + keys == pending.Keys
        invariant best.Some? ==> best.value in passed && Due(s, activation, now, ready, policy, best.value)
        invariant best.Some? ==> forall k | k in passed && k != best.value && Due(s, activation, now, ready, policy, k) ::
                    Better(s, policy, best.value, k)
        invariant best.None? ==> forall k | k in passed :: !Due(s, activation, now, ready, policy, k)
        decreases keys
      {
        var k :| k in keys;
        if Due(snapshot, activation, now, ready, policy, k) {
          if best.None? {
            best := Some(k);
          } else if Better(snapshot, policy, k, best.value) {
            BetterThanAll(s, policy, k, best.value, activation, now, ready, passed);
            best := Some(k);
          } else if k != best.value {
            BetterIsTotal(s, policy, k, best.value);
          }
        }
        passed := passed + {k};
        keys := keys - {k};
      }
    }

    /** Reserves the chosen key and takes its oldest candidate. */
    method TakeFirst(k: Key) returns (p: Pending)
      requires QueueOf(View(), k) != map[]
      modifies this
      ensures (View(), p) == Take(old(View()), k)
    {
      var first := First(pending[k]);
      p := pending[k][first];
      var rest := map position | position in pending[k] && position != first :: pending[k][position];
      if rest == map[] {
        pending := pending - {k};
      } else {
        pending := pending[k := rest];
      }
      inFlight := inFlight + {k};
      active := active + 1;
    }

    method RestorePending(k: Key, p: Pending)
      modifies this
      ensures View() == Restore(old(View()), k, p)
    {
      var queue := if k in pending then pending[k] else map[];
      if !p.resumed && p.windowed && HasNew(queue) { return; }
      if p.trigger !in queue {
        pending := pending[k := queue[p.trigger := p]];
      }
    }

    method DeferCandidate(k: Key, p: Pending, retryAt: nat)
      modifies this
      ensures View() == Defer(old(View()), k, p, retryAt)
    {
      cooldownUntil := cooldownUntil[k := retryAt];
      RestorePending(k, p);
    }

    method ClearTicket(k: Key)
      modifies this
      ensures View() == ClearTicketIfIdle(old(View()), k)
    {
      if k !in pending || pending[k] == map[] {
        tickets := tickets - {k};
      }
    }

    method MarkStartedKey(k: Key, now: nat, cooldown: nat, policy: Policy)
      modifies this
      ensures View() == MarkStarted(old(View()), k, now, cooldown, policy)
    {
      if k in pending && pending[k] != map[] {
        tickets := tickets[k := nextTicket];
        nextTicket := nextTicket + 1;
      } else {
        tickets := tickets - {k};
      }
      if policy.Live? {
        recent := if recent >= 3 then 0 else recent + 1;
      }
      cooldownUntil := cooldownUntil[k := now + cooldown];
    }

    method FinishGuard(k: Key)
      modifies this
      ensures View() == Finish(old(View()), k)
    {
      inFlight := inFlight - {k};
      if active > 0 { active := active - 1; }
    }

    method AbandonGuard()
      modifies this
      ensures View() == Abandon(old(View()))
    {
      if active > 0 { active := active - 1; }
    }

    /** Gives a claim back before dispatch. A failed release is remembered for the next start. */
    method RestorePreDispatch(k: Key, p: Pending, token: string, release: Reply)
      modifies this
      ensures View() == Finish(PreDispatchState(old(View()), k, p, token, release), k)
    {
      if release.Current? {
        RestorePending(k, p);
      } else if release.Failed? {
        releases := releases[k := token];
        RestorePending(k, p);
      }
      FinishGuard(k);
    }

    /** Starts one due candidate of a local check. */
    method StartLocal(activation: string, now: nat, ready: set<string>, policy: Policy, cooldown: nat, r: Replies)
      returns (outcome: StartOutcome, taken: Option<Key>)
      requires forall k | k in pending :: pending[k] != map[]
      modifies this
      ensures taken.None? ==> outcome == NothingDue && View() == old(View())
      ensures taken.Some? ==>
        old(active) < MAX_IN_FLIGHT_EVALUATIONS
        && Picks(old(View()), activation, now, ready, policy, taken.value)
        && (View(), outcome) == LocalStart(old(View()), taken.value, now, cooldown, policy, r)
    {
      if active >= MAX_IN_FLIGHT_EVALUATIONS { return NothingDue, None; }
      taken := PickDue(activation, now, ready, policy);
      if taken.None? { return NothingDue, None; }
      var k := taken.value;
      var p := TakeFirst(k);
      outcome := StartTaken(k, p, now, cooldown, policy, r);
    }

    /** The part of a local start after its candidate is taken: an earlier claim goes back first. */
    method StartTaken(k: Key, p: Pending, now: nat, cooldown: nat, policy: Policy, r: Replies) returns (outcome: StartOutcome)
      modifies this
      ensures (View(), outcome) == TakenStart(old(View()), k, p, now, cooldown, policy, r)
    {
      if k in releases {
        if !r.earlierRelease.Current? && !r.earlierRelease.Stale? {
          RestorePending(k, p);
          FinishGuard(k);
          return StartFailed;
        }
        releases := releases - {k};
      } else {
        assert releases - {k} == releases;
      }
      outcome := StartReleased(k, p, now, cooldown, policy, r);
    }

    /** The part of a local start that asks the store for a claim. */
    method StartReleased(k: Key, p: Pending, now: nat, cooldown: nat, policy: Policy, r: Replies) returns (outcome: StartOutcome)
      modifies this
      ensures (View(), outcome) == ReleasedStart(old(View()), k, p, now, cooldown, policy, r)
    {
      match r.claim
      case NotDue(retryAt) =>
        DeferCandidate(k, p, retryAt);
        FinishGuard(k);
        return NothingDue;
      case ClaimStale =>
        ClearTicket(k);
        FinishGuard(k);
        return StartStale;
      case ClaimFailed =>
        RestorePending(k, p);
        FinishGuard(k);
        return StartFailed;
      case Claimed(token) =>
        outcome := StartClaimed(k, p, token, now, cooldown, policy, r);
    }

    /** The part of a local start after the store granted the claim. */
    method StartClaimed(k: Key, p: Pending, token: string, now: nat, cooldown: nat, policy: Policy, r: Replies)
      returns (outcome: StartOutcome)
      modifies this
      ensures (View(), outcome) == ClaimedStart(old(View()), k, p, token, now, cooldown, policy, r)
    {
      if !r.runtimeIsCurrent {
        match r.claimRelease
        case Current =>
          RestorePending(k, p);
          FinishGuard(k);
          return NothingDue;
        case Stale =>
          ClearTicket(k);
          FinishGuard(k);
          return StartStale;
        case Failed =>
          RestorePreDispatch(k, p, token, r.finalRelease);
          return StartFailed;
      }
      if !r.conditionHolds {
        if r.rejection.Failed? {
          RestorePreDispatch(k, p, token, r.finalRelease);
          return StartFailed;
        }
        ClearTicket(k);
        FinishGuard(k);
        return Settled;
      }
      match r.start
      case Current =>
        MarkStartedKey(k, now, if policy.SequentialReplay? then 0 else cooldown, policy);
        return Running;
      case Stale =>
        ClearTicket(k);
        FinishGuard(k);
        return StartStale;
      case Failed =>
        RestorePreDispatch(k, p, token, r.finalRelease);
        return StartFailed;
    }
  }

  function PreDispatchState(s: State, k: Key, p: Pending, token: string, release: Reply): State {
    match release
    case Current => Restore(s, k, p)
    case Stale => s
    case Failed => RestoreWithRelease(s, k, p, token)
  }

  function ClaimedStart(s: State, k: Key, p: Pending, token: string, now: nat, cooldown: nat, policy: Policy, r: Replies)
    : (State, StartOutcome)
  {
    var cleared := Finish(ClearTicketIfIdle(s, k), k);
    var returned := Finish(PreDispatchState(s, k, p, token, r.finalRelease), k);
    if !r.runtimeIsCurrent then
      match r.claimRelease
      case Current => (Finish(Restore(s, k, p), k), NothingDue)
      case Stale => (cleared, StartStale)
      case Failed => (returned, StartFailed)
    else if !r.conditionHolds then
      if r.rejection.Failed? then (returned, StartFailed) else (cleared, Settled)
    else
      match r.start
      case Current => (MarkStarted(s, k, now, if policy.SequentialReplay? then 0 else cooldown, policy), Running)
      case Stale => (cleared, StartStale)
      case Failed => (returned, StartFailed)
  }

  /** The whole start of a local candidate of `k` as a function of the state and the replies. */
  function LocalStart(s: State, k: Key, now: nat, cooldown: nat, policy: Policy, r: Replies): (State, StartOutcome)
    requires QueueOf(s, k) != map[]
  {
    TakenStart(Take(s, k).0, k, Take(s, k).1, now, cooldown, policy, r)
  }

  /** The start after its candidate is taken. */
  function TakenStart(s: State, k: Key, p: Pending, now: nat, cooldown: nat, policy: Policy, r: Replies): (State, StartOutcome) {
    if k in s.releases && r.earlierRelease.Failed? then (Finish(Restore(s, k, p), k), StartFailed)
    else ReleasedStart(ForgetRelease(s, k), k, p, now, cooldown, policy, r)
  }

  /** The start after an earlier claim is given back. */
  function ReleasedStart(s: State, k: Key, p: Pending, now: nat, cooldown: nat, policy: Policy, r: Replies): (State, StartOutcome) {
    match r.claim
    case NotDue(retryAt) => (Finish(Defer(s, k, p, retryAt), k), NothingDue)
    case ClaimStale => (Finish(ClearTicketIfIdle(s, k), k), StartStale)
    case ClaimFailed => (Finish(Restore(s, k, p), k), StartFailed)
    case Claimed(token) => ClaimedStart(s, k, p, token, now, cooldown, policy, r)
  }

  predicate Better(s: State, policy: Policy, a: Key, b: Key)
    requires QueueOf(s, a) != map[] && QueueOf(s, b) != map[]
  {
    if policy.SequentialReplay? then PositionBefore(s, a, b)
    else if s.recent >= 3 then TicketBefore(s, a, b)
    else PositionBefore(s, b, a)
  }

  lemma {:induction false} BetterIsTotal(s: State, policy: Policy, a: Key, b: Key)
    requires QueueOf(s, a) != map[] && QueueOf(s, b) != map[] && a != b
    ensures Better(s, policy, a, b) || Better(s, policy, b, a)
  {
    LessTrichotomy(a, b);
  }

  lemma {:induction false} BetterIsTransitive(s: State, policy: Policy, a: Key, b: Key, c: Key)
    requires QueueOf(s, a) != map[] && QueueOf(s, b) != map[] && QueueOf(s, c) != map[]
    requires Better(s, policy, a, b) && Better(s, policy, b, c)
    ensures Better(s, policy, a, c)
  {
    if Less(a, b) && Less(b, c) { LessTransitive(a, b, c); }
    if Less(c, b) && Less(b, a) { LessTransitive(c, b, a); }
  }

  lemma {:induction false} BetterThanAll(s: State, policy: Policy, a: Key, b: Key, activation: string, now: nat, ready: set<string>, passed: set<Key>)
    requires Due(s, activation, now, ready, policy, a) && Due(s, activation, now, ready, policy, b)
    requires Better(s, policy, a, b)
    requires forall k | k in passed && k != b && Due(s, activation, now, ready, policy, k) :: Better(s, policy, b, k)
    ensures forall k | k in passed && Due(s, activation, now, ready, policy, k) :: Better(s, policy, a, k)
  {
    forall k | k in passed && Due(s, activation, now, ready, policy, k)
      ensures Better(s, policy, a, k)
    {
      if k != b { BetterIsTransitive(s, policy, a, b, k); }
    }
  }

  function Emptied(pending: map<Key, Queue>, keys: set<Key>, terminal: set<string>): set<Key> {
    set k | k in pending && k in keys && Surviving(pending[k], terminal) == map[]
  }

  function KeptQueues(pending: map<Key, Queue>, keys: set<Key>, terminal: set<string>): map<Key, Queue> {
    map k | k in pending && k in keys && Surviving(pending[k], terminal) != map[] :: Surviving(pending[k], terminal)
  }

  lemma {:induction false} KeepOne(pending: map<Key, Queue>, keys: set<Key>, k: Key, terminal: set<string>)
    requires k in pending && k !in keys
    ensures var queue := Surviving(pending[k], terminal);
      Emptied(pending, keys + {k}, terminal)
        == (if queue == map[] then Emptied(pending, keys, terminal) + {k} else Emptied(pending, keys, terminal))
      && KeptQueues(pending, keys + {k}, terminal)
        == (if queue == map[] then KeptQueues(pending, keys, terminal) else KeptQueues(pending, keys, terminal)[k := queue])
  {
  }

  function Paired(positions: set<nat>, k: Key): set<(Key, nat)> {
    set p | p in positions :: (k, p)
  }

  lemma {:induction false} AddQueueSlots(pending: map<Key, Queue>, k: Key, q: Queue)
    requires k !in pending
    ensures |Slots(pending[k := q])| == |Slots(pending)| + |q|
  {
    PairCount(q.Keys, k);
    assert Slots(pending[k := q]) == Slots(pending) + Paired(q.Keys, k) by {
      forall slot: (Key, nat)
        ensures slot in Slots(pending[k := q]) <==> slot in Slots(pending) || slot in Paired(q.Keys, k)
      {
        SetSlots(pending, k, q, slot);
      }
    }
    assert Slots(pending) !! Paired(q.Keys, k);
  }

  lemma {:induction false} PairCount(positions: set<nat>, k: Key)
    ensures |Paired(positions, k)| == |positions|
    decreases positions
  {
    if positions != {} {
      var x :| x in positions;
      PairCount(positions - {x}, k);
      assert Paired(positions, k) == Paired(positions - {x}, k) + {(k, x)};
    }
  }
}
