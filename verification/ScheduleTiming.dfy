/**
 When a key may be dispatched, over whole runs: the last cooldown or deferral of a key holds until it
 has passed, and nothing else keeps a queued key from the dispatch.
 */
module ScheduleTiming {
  import opened Text
  import opened KeyOrder
  import opened Schedule
  import opened ScheduleRuns
  import opened ScheduleQueues

  // ----- the wait of a key

  /** What an action makes of the time that `k` waits for: a dispatch sets a cooldown, a deferral a time
      to try again, and a revocation forgets both. */
  function WaitAfter(x: System, a: Action, k: Key, wait: Option<nat>): Option<nat> {
    match a
    case DoMarkStarted(g, now, cooldown, _) => if g in x.guards && x.guards[g].key == k then Some(now + cooldown) else wait
    case DoDefer(g, retryAt) => if g in x.guards && x.guards[g].key == k then Some(retryAt) else wait
    case DoRevoke(revoked) => if k.major in revoked then None else wait
    case _ => wait
  }

  ghost function WaitOver(windows: set<string>, x: System, actions: seq<Action>, k: Key, wait: Option<nat>): Option<nat>
    requires IsRun(windows, x, actions)
    decreases |actions|
  {
    if actions == [] then wait
    else WaitOver(windows, Next(windows, x, actions[0]), actions[1..], k, WaitAfter(x, actions[0], k, wait))
  }

  function Recorded(s: State, k: Key): Option<nat> {
    if k in s.cooldownUntil then Some(s.cooldownUntil[k]) else None
  }

  lemma {:induction false} RecordedStep(windows: set<string>, x: System, a: Action, k: Key)
    requires Enabled(windows, x, a)
    ensures Recorded(Next(windows, x, a).sched, k) == WaitAfter(x, a, k, Recorded(x.sched, k))
  {}

  /** The recorded time is the last one set. */
  lemma {:induction false} WaitIsLastSet(windows: set<string>, x: System, actions: seq<Action>, k: Key)
    requires IsRun(windows, x, actions)
    ensures Recorded(After(windows, x, actions).sched, k) == WaitOver(windows, x, actions, k, Recorded(x.sched, k))
    decreases |actions|
  {
    if actions != [] {
      RecordedStep(windows, x, actions[0], k);
      WaitIsLastSet(windows, Next(windows, x, actions[0]), actions[1..], k);
    }
  }

  // ----- the claim that a key still holds

  /** What an action makes of the claim that `k` has to give back before its next one. */
  function ClaimAfter(x: System, a: Action, k: Key, claim: Option<string>): Option<string> {
    match a
    case DoRestoreWithRelease(g, _, token) => if g in x.guards && x.guards[g].key == k then Some(token) else claim
    case DoForgetRelease(key) => if key == k then None else claim
    case DoRevoke(revoked) => if k.major in revoked then None else claim
    case _ => claim
  }

  ghost function ClaimOver(windows: set<string>, x: System, actions: seq<Action>, k: Key, claim: Option<string>): Option<string>
    requires IsRun(windows, x, actions)
    decreases |actions|
  {
    if actions == [] then claim
    else ClaimOver(windows, Next(windows, x, actions[0]), actions[1..], k, ClaimAfter(x, actions[0], k, claim))
  }

  function Remembered(s: State, k: Key): Option<string> {
    if k in s.releases then Some(s.releases[k]) else None
  }

  lemma {:induction false} RememberedStep(windows: set<string>, x: System, a: Action, k: Key)
    requires Enabled(windows, x, a)
    ensures Remembered(Next(windows, x, a).sched, k) == ClaimAfter(x, a, k, Remembered(x.sched, k))
  {}

  /** The remembered claim is the last one that could not be given back, until it is or its activation is revoked. */
  lemma {:induction false} ClaimIsLastKept(windows: set<string>, x: System, actions: seq<Action>, k: Key)
    requires IsRun(windows, x, actions)
    ensures Remembered(After(windows, x, actions).sched, k) == ClaimOver(windows, x, actions, k, Remembered(x.sched, k))
    decreases |actions|
  {
    if actions != [] {
      RememberedStep(windows, x, actions[0], k);
      ClaimIsLastKept(windows, Next(windows, x, actions[0]), actions[1..], k);
    }
  }

  // ----- the service ticket of a key

  /** What an action makes of the ticket of `k`: it gets the next one when its queue stops being empty, and when
      it is dispatched with more in its queue; it loses it when its queue is found empty. */
  predicate TicketStep(x: System, a: Action, k: Key, before: Option<nat>, after: Option<nat>) {
    var q := QueueOf(x.sched, k);
    match a
    case DoEnqueue(p) => after == if p.key == k && q == map[] && Takes(x.sched, p) then Some(x.sched.nextTicket) else before
    case DoMarkStarted(g, _, _, _) =>
      after == if g in x.guards && x.guards[g].key == k then (if q == map[] then None else Some(x.sched.nextTicket)) else before
    case DoSettle(g) => after == if g in x.guards && x.guards[g].key == k && q == map[] then None else before
    case DoPrune(terminal) => after == if k in x.sched.pending && forall n | n in q :: q[n].id in terminal then None else before
    case _ => after == before
  }

  function TicketOf(s: State, k: Key): Option<nat> {
    if k in s.tickets then Some(s.tickets[k]) else None
  }

  /** Tickets are given out in the order of the requests for service. */
  lemma {:induction false} TicketsExactly(windows: set<string>, x: System, a: Action, k: Key)
    requires Enabled(windows, x, a)
    ensures TicketStep(x, a, k, TicketOf(x.sched, k), TicketOf(Next(windows, x, a).sched, k))
    ensures var next := Next(windows, x, a).sched.nextTicket;
      x.sched.nextTicket <= next
      && (forall j: Key, n: nat ::
            TicketOf(Next(windows, x, a).sched, j) == Some(n) && TicketOf(x.sched, j) != Some(n) ==> n + 1 == next)
  {
    if a.DoEnqueue? {
      EnqueueTickets(x.sched, a.p);
    } else if a.DoPrune? {
      forall j: Key { PruneTickets(x.sched, a.terminal, j); }
    }
  }

  lemma {:induction false} EnqueueTickets(s: State, p: Pending)
    ensures var t := Enqueue(s, p).0;
      if QueueOf(s, p.key) == map[] && Takes(s, p)
      then t.tickets == s.tickets[p.key := s.nextTicket] && t.nextTicket == s.nextTicket + 1
      else t.tickets == s.tickets && t.nextTicket == s.nextTicket
  {
    CompetesExactly(s, p);
  }

  lemma {:induction false} PruneTickets(s: State, terminal: set<string>, k: Key)
    ensures TicketOf(Prune(s, terminal), k)
         == if k in s.pending && forall n | n in QueueOf(s, k) :: QueueOf(s, k)[n].id in terminal then None else TicketOf(s, k)
  {
    var q := QueueOf(s, k);
    if n :| n in q && q[n].id !in terminal {
      assert n in Surviving(q, terminal);
    } else {
      assert Surviving(q, terminal) == map[];
    }
    assert k in Prune(s, terminal).tickets <==> k in s.tickets && !(k in s.pending && Surviving(q, terminal) == map[]);
  }

  // ----- dispatches wait

  /** The oldest queued candidate of `k` was started before. */
  predicate OldestResumed(s: State, k: Key) {
    k in s.pending
    && exists p :: p in s.pending[k] && s.pending[k][p].resumed && forall r | r in s.pending[k] :: p <= r
  }

  /** A live dispatch comes when the wait of its key is over, or resumes its oldest candidate. */
  lemma {:induction false} DispatchesWait(windows: set<string>, x: System, actions: seq<Action>, g: nat, k: Key, activation: string, now: nat, ready: set<string>)
    requires IsRun(windows, x, actions)
    requires Enabled(windows, After(windows, x, actions), DoStart(g, k, activation, now, ready, Live))
    ensures var wait := WaitOver(windows, x, actions, k, Recorded(x.sched, k));
      OldestResumed(After(windows, x, actions).sched, k) || wait == None || now >= wait.value
  {
    WaitIsLastSet(windows, x, actions, k);
    var s := After(windows, x, actions).sched;
    if s.pending[k][First(s.pending[k])].resumed {
      assert OldestResumed(s, k);
    }
  }

  /** The action sets a new wait for `k`, or forgets it. */
  predicate Rearms(x: System, a: Action, k: Key) {
    ((a.DoMarkStarted? || a.DoDefer?) && a.guard in x.guards && x.guards[a.guard].key == k)
    || (a.DoRevoke? && k.major in a.revoked)
  }

  ghost predicate NeverRearms(windows: set<string>, x: System, actions: seq<Action>, k: Key)
    requires IsRun(windows, x, actions)
    decreases |actions|
  {
    actions == []
    || (!Rearms(x, actions[0], k) && NeverRearms(windows, Next(windows, x, actions[0]), actions[1..], k))
  }

  lemma {:induction false} WaitStays(windows: set<string>, x: System, actions: seq<Action>, k: Key, wait: Option<nat>)
    requires IsRun(windows, x, actions) && NeverRearms(windows, x, actions, k)
    ensures WaitOver(windows, x, actions, k, wait) == wait
    decreases |actions|
  {
    if actions != [] {
      WaitStays(windows, Next(windows, x, actions[0]), actions[1..], k, wait);
    }
  }

  /** After a dispatch of `k` at `now`, no run dispatches it again before its cooldown is over, unless it
      resumes its oldest candidate, or `k` is started, deferred or revoked in between. */
  lemma {:induction false} CooldownHolds(
      windows: set<string>, x: System, g: nat, now: nat, cooldown: nat, policy: Policy,
      actions: seq<Action>, h: nat, activation: string, later: nat, ready: set<string>)
    requires g in x.guards
    requires var y := Next(windows, x, DoMarkStarted(g, now, cooldown, policy));
      var k := x.guards[g].key;
      IsRun(windows, y, actions) && NeverRearms(windows, y, actions, k)
      && Enabled(windows, After(windows, y, actions), DoStart(h, k, activation, later, ready, Live))
      && !OldestResumed(After(windows, y, actions).sched, k)
    ensures later >= now + cooldown
  {
    var y := Next(windows, x, DoMarkStarted(g, now, cooldown, policy));
    var k := x.guards[g].key;
    RecordedStep(windows, x, DoMarkStarted(g, now, cooldown, policy), k);
    DispatchesWait(windows, y, actions, h, k, activation, later, ready);
    WaitStays(windows, y, actions, k, Recorded(y.sched, k));
  }

  /** The same for a deferral, up to the time at which the store wants it tried again. */
  lemma {:induction false} DeferralHolds(
      windows: set<string>, x: System, g: nat, retryAt: nat,
      actions: seq<Action>, h: nat, activation: string, later: nat, ready: set<string>)
    requires Holds(x, g)
    requires var y := Next(windows, x, DoDefer(g, retryAt));
      var k := x.guards[g].key;
      IsRun(windows, y, actions) && NeverRearms(windows, y, actions, k)
      && Enabled(windows, After(windows, y, actions), DoStart(h, k, activation, later, ready, Live))
      && !OldestResumed(After(windows, y, actions).sched, k)
    ensures later >= retryAt
  {
    var y := Next(windows, x, DoDefer(g, retryAt));
    var k := x.guards[g].key;
    RecordedStep(windows, x, DoDefer(g, retryAt), k);
    DispatchesWait(windows, y, actions, h, k, activation, later, ready);
    WaitStays(windows, y, actions, k, Recorded(y.sched, k));
  }

  // ----- nothing else keeps a key waiting

  /** A queued candidate of the activation and of a ready branch, with no start of its key in flight, whose
      wait is over, or which is resumed, or is replayed. */
  predicate Eligible(s: State, k: Key, wait: Option<nat>, activation: string, now: nat, ready: set<string>, policy: Policy) {
    k in s.pending && s.pending[k] != map[] && k !in s.inFlight && k.major == activation && k.minor in ready
    && (policy == SequentialReplay || OldestResumed(s, k) || (wait.Some? ==> wait.value <= now))
  }

  lemma {:induction false} EligibleIsDue(s: State, k: Key, activation: string, now: nat, ready: set<string>, policy: Policy)
    ensures Due(s, activation, now, ready, policy, k) <==> Eligible(s, k, Recorded(s, k), activation, now, ready, policy)
  {
    if k in s.pending && s.pending[k] != map[] {
      var first := First(s.pending[k]);
      if s.pending[k][first].resumed { assert OldestResumed(s, k); }
      if OldestResumed(s, k) {
        var p :| p in s.pending[k] && s.pending[k][p].resumed && forall r | r in s.pending[k] :: p <= r;
        assert p == first;
      }
    }
  }

  /** The order in which a dispatch prefers due keys. */
  ghost predicate Preferred(s: State, policy: Policy, k: Key, other: Key)
    requires QueueOf(s, k) != map[] && QueueOf(s, other) != map[]
  {
    if policy.SequentialReplay? then PositionBefore(s, k, other)
    else if s.recent >= 3 then TicketBefore(s, k, other)
    else PositionBefore(s, other, k)
  }

  lemma {:induction false} PreferenceIsTotal(s: State, policy: Policy, a: Key, b: Key)
    requires QueueOf(s, a) != map[] && QueueOf(s, b) != map[] && a != b
    ensures Preferred(s, policy, a, b) || Preferred(s, policy, b, a)
  {
    LessTrichotomy(a, b);
  }

  lemma {:induction false} PreferenceIsTransitive(s: State, policy: Policy, a: Key, b: Key, c: Key)
    requires QueueOf(s, a) != map[] && QueueOf(s, b) != map[] && QueueOf(s, c) != map[]
    requires Preferred(s, policy, a, b) && Preferred(s, policy, b, c)
    ensures Preferred(s, policy, a, c)
  {
    if Less(a, b) && Less(b, c) { LessTransitive(a, b, c); }
    if Less(c, b) && Less(b, a) { LessTransitive(c, b, a); }
  }

  lemma {:induction false} PreferredExists(s: State, policy: Policy, keys: set<Key>)
    requires keys != {} && forall k | k in keys :: QueueOf(s, k) != map[]
    ensures exists k :: k in keys && forall other | other in keys && other != k :: Preferred(s, policy, k, other)
    decreases |keys|
  {
    var x :| x in keys;
    var rest := keys - {x};
    if rest == {} {
      assert keys == {x};
    } else {
      PreferredExists(s, policy, rest);
      var y :| y in rest && forall other | other in rest && other != y :: Preferred(s, policy, y, other);
      PreferenceIsTotal(s, policy, x, y);
      if Preferred(s, policy, x, y) {
        forall other | other in keys && other != x ensures Preferred(s, policy, x, other) {
          if other != y { PreferenceIsTransitive(s, policy, x, y, other); }
        }
      } else {
        forall other | other in keys && other != y ensures Preferred(s, policy, y, other) {}
      }
    }
  }

  /** If some key is eligible and a slot is free, a start can happen. */
  lemma {:induction false} EligibleKeysStart(
      windows: set<string>, x: System, actions: seq<Action>, g: nat, k: Key, activation: string, now: nat, ready: set<string>, policy: Policy)
    requires IsRun(windows, x, actions)
    requires var y := After(windows, x, actions);
      y.sched.active < 4 && g !in y.guards
      && Eligible(y.sched, k, WaitOver(windows, x, actions, k, Recorded(x.sched, k)), activation, now, ready, policy)
    ensures exists other :: Enabled(windows, After(windows, x, actions), DoStart(g, other, activation, now, ready, policy))
  {
    var y := After(windows, x, actions);
    var s := y.sched;
    WaitIsLastSet(windows, x, actions, k);
    EligibleIsDue(s, k, activation, now, ready, policy);
    var due := set other | other in s.pending && Due(s, activation, now, ready, policy, other);
    assert k in due;
    PreferredExists(s, policy, due);
    var best :| best in due && forall other | other in due && other != best :: Preferred(s, policy, best, other);
    forall other | other in s.pending && other != best && Due(s, activation, now, ready, policy, other)
      ensures Preferred(s, policy, best, other)
    {
      assert other in due;
    }
    assert Picks(s, activation, now, ready, policy, best);
    assert Enabled(windows, y, DoStart(g, best, activation, now, ready, policy));
  }

  // ----- the order of dispatches

  /** Every queued position of `k` is at most some queued position of `other`. */
  predicate NotNewer(s: State, k: Key, other: Key) {
    k in s.pending && other in s.pending
    && forall p | p in s.pending[k] :: exists r :: r in s.pending[other] && p <= r
  }

  /** Among the first three of four live dispatches the newest candidate goes first, in a replay the one whose
      newest candidate is oldest; equal positions go by activation and branch, the later one first if live. */
  lemma {:induction false} NewestGoesFirst(windows: set<string>, x: System, g: nat, k: Key, activation: string, now: nat, ready: set<string>, policy: Policy, other: Key)
    requires Enabled(windows, x, DoStart(g, k, activation, now, ready, policy))
    requires other != k && Eligible(x.sched, other, Recorded(x.sched, other), activation, now, ready, policy)
    requires policy == Live ==> x.sched.recent < 3
    ensures if policy == Live
            then NotNewer(x.sched, other, k) && (NotNewer(x.sched, k, other) ==> StringLess(other.minor, k.minor))
            else NotNewer(x.sched, k, other) && (NotNewer(x.sched, other, k) ==> StringLess(k.minor, other.minor))
  {
    var s := x.sched;
    EligibleIsDue(s, other, activation, now, ready, policy);
    if policy == Live {
      NewestPositions(s, other, k);
    } else {
      NewestPositions(s, k, other);
    }
    StringLessTrichotomy(k.major, k.major);
  }

  lemma {:induction false} NewestPositions(s: State, a: Key, b: Key)
    requires QueueOf(s, a) != map[] && QueueOf(s, b) != map[] && PositionBefore(s, a, b)
    ensures NotNewer(s, a, b)
    ensures NotNewer(s, b, a) ==> Less(a, b)
  {
    var pa, pb := Last(s.pending[a]), Last(s.pending[b]);
    assert pb in s.pending[b];
  }

  /** Live dispatches so far. */
  function LiveStarts(actions: seq<Action>): nat {
    if actions == [] then 0
    else (if actions[0].DoMarkStarted? && actions[0].policy == Live then 1 else 0) + LiveStarts(actions[1..])
  }

  lemma {:induction false} CountStep(windows: set<string>, x: System, a: Action)
    requires Enabled(windows, x, a) && x.sched.recent < 4
    ensures Next(windows, x, a).sched.recent
         == if a.DoMarkStarted? && a.policy == Live then (x.sched.recent + 1) % 4 else x.sched.recent
  {}

  /** The engine counts its live dispatches in fours. */
  lemma {:induction false} DispatchesCountInFours(windows: set<string>, x: System, actions: seq<Action>)
    requires IsRun(windows, x, actions) && x.sched.recent < 4
    ensures After(windows, x, actions).sched.recent == (x.sched.recent + LiveStarts(actions)) % 4
    decreases |actions|
  {
    if actions != [] {
      CountStep(windows, x, actions[0]);
      DispatchesCountInFours(windows, Next(windows, x, actions[0]), actions[1..]);
    }
  }

  /** Every fourth live dispatch takes the key with the smallest service ticket, or one without a ticket. */
  lemma {:induction false} EveryFourthByTicket(windows: set<string>, actions: seq<Action>, g: nat, k: Key, activation: string, now: nat, ready: set<string>, other: Key)
    requires IsRun(windows, System(IDLE, map[]), actions) && LiveStarts(actions) % 4 == 3
    requires var x := After(windows, System(IDLE, map[]), actions);
      Enabled(windows, x, DoStart(g, k, activation, now, ready, Live))
      && other != k && Eligible(x.sched, other, Recorded(x.sched, other), activation, now, ready, Live)
    ensures var tickets := After(windows, System(IDLE, map[]), actions).sched.tickets;
      if other in tickets then k in tickets ==> tickets[k] <= tickets[other] else k !in tickets
  {
    var x := After(windows, System(IDLE, map[]), actions);
    DispatchesCountInFours(windows, System(IDLE, map[]), actions);
    EligibleIsDue(x.sched, other, activation, now, ready, Live);
  }
}
