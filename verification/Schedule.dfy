/**
 The bounded candidate scheduler, one pure step for each section of the engine that runs under
 the scheduler lock. Module Scheduler performs the same steps in place.
 */
module Schedule {
  import opened KeyOrder

  const MAX_PENDING_CANDIDATES: nat := 128
  const MAX_IN_FLIGHT_EVALUATIONS: nat := 4

  /** A schedule key is an activation (`major`) and a branch (`minor`). */
  datatype Pending = Pending(key: Key, trigger: nat, id: string, windowed: bool, resumed: bool)

  type Queue = map<nat, Pending>

  datatype State = State(
    pending: map<Key, Queue>,
    inFlight: set<Key>,
    cooldownUntil: map<Key, nat>,
    tickets: map<Key, nat>,
    nextTicket: nat,
    active: nat,
    recent: nat,
    releases: map<Key, string>)

  const IDLE := State(map[], {}, map[], map[], 0, 0, 0, map[])

  datatype Policy = Live | SequentialReplay
  datatype EnqueueOutcome = Queued | Coalesced | Overflow

  // ----- queues

  predicate IsFirst(p: nat, positions: set<nat>) {
    p in positions && forall other | other in positions :: p <= other
  }

  predicate IsLast(p: nat, positions: set<nat>) {
    p in positions && forall other | other in positions :: other <= p
  }

  lemma {:induction false} FirstExists(positions: set<nat>)
    requires positions != {}
    ensures exists p :: IsFirst(p, positions)
    decreases positions
  {
    var x :| x in positions;
    var rest := positions - {x};
    assert positions == rest + {x};
    if rest == {} {
      assert IsFirst(x, positions);
    } else {
      FirstExists(rest);
      var y :| IsFirst(y, rest);
      assert IsFirst(if x <= y then x else y, positions);
    }
  }

  lemma {:induction false} LastExists(positions: set<nat>)
    requires positions != {}
    ensures exists p :: IsLast(p, positions)
    decreases positions
  {
    var x :| x in positions;
    var rest := positions - {x};
    assert positions == rest + {x};
    if rest == {} {
      assert IsLast(x, positions);
    } else {
      LastExists(rest);
      var y :| IsLast(y, rest);
      assert IsLast(if x <= y then y else x, positions);
    }
  }

  /** The oldest queued position. */
  function First(q: Queue): (p: nat)
    requires q != map[]
    ensures p in q && forall other | other in q :: p <= other
  {
    assert q.Keys != {};
    FirstExists(q.Keys);
    var p :| IsFirst(p, q.Keys);
    p
  }

  /** The newest queued position. */
  function Last(q: Queue): (p: nat)
    requires q != map[]
    ensures p in q && forall other | other in q :: other <= p
  {
    assert q.Keys != {};
    LastExists(q.Keys);
    var p :| IsLast(p, q.Keys);
    p
  }

  predicate HasNew(q: Queue) {
    exists p :: p in q && !q[p].resumed
  }

  function OnlyResumed(q: Queue): Queue {
    map p | p in q && q[p].resumed :: q[p]
  }

  function QueueOf(s: State, k: Key): Queue {
    if k in s.pending then s.pending[k] else map[]
  }

  /** Every queued candidate, named by its key and its position. */
  function Slots(pending: map<Key, Queue>): set<(Key, nat)> {
    set k, p | k in pending && p in pending[k] :: (k, p)
  }

  // ----- admission

  /** Whether a candidate takes the place of the queued ones that were never started. */
  predicate Replaces(s: State, p: Pending) {
    !p.resumed && p.windowed && p.key in s.pending && HasNew(s.pending[p.key])
  }

  function Enqueue(s: State, p: Pending): (State, EnqueueOutcome) {
    var queue := QueueOf(s, p.key);
    if p.trigger in queue then
      (s.(pending := s.pending[p.key := queue[p.trigger := queue[p.trigger].(resumed := queue[p.trigger].resumed || p.resumed)]]),
       Queued)
    else if !Replaces(s, p) && |Slots(s.pending)| >= MAX_PENDING_CANDIDATES then (s, Overflow)
    else if Replaces(s, p) && !queue[Last(queue)].resumed && Last(queue) > p.trigger then (s, Coalesced)
    else
      var kept := if Replaces(s, p) then OnlyResumed(queue) else queue;
      var queued := s.(pending := s.pending[p.key := kept[p.trigger := p]]);
      (if queue == map[] then
         queued.(tickets := s.tickets[p.key := s.nextTicket], nextTicket := s.nextTicket + 1)
       else queued,
       if Replaces(s, p) then Coalesced else Queued)
  }

  function Surviving(q: Queue, terminal: set<string>): Queue {
    map p | p in q && q[p].id !in terminal :: q[p]
  }

  /** Drops the candidates that the store reported as terminal, and the queues this empties. */
  function Prune(s: State, terminal: set<string>): State {
    var emptied := set k | k in s.pending && Surviving(s.pending[k], terminal) == map[];
    s.(pending := map k | k in s.pending && k !in emptied :: Surviving(s.pending[k], terminal),
       tickets := s.tickets - emptied)
  }

  function ResetBranches(s: State, activation: string, branches: set<string>): State {
    s.(pending := map k | k in s.pending && (k.major != activation || k.minor !in branches) :: s.pending[k])
  }

  /** Drops the work of the `revoked` activations. */
  function RevokeActivations(s: State, revoked: set<string>): State {
    s.(pending := map k | k in s.pending && k.major !in revoked :: s.pending[k],
       cooldownUntil := map k | k in s.cooldownUntil && k.major !in revoked :: s.cooldownUntil[k],
       releases := map k | k in s.releases && k.major !in revoked :: s.releases[k])
  }

  // ----- dispatch

  predicate Due(s: State, activation: string, now: nat, ready: set<string>, policy: Policy, k: Key) {
    k in s.pending && s.pending[k] != map[]
    && k.major == activation && k.minor in ready && k !in s.inFlight
    && (policy.SequentialReplay?
        || s.pending[k][First(s.pending[k])].resumed
        || (k in s.cooldownUntil ==> now >= s.cooldownUntil[k]))
  }

  /** Compares service tickets; a key without a ticket comes first. */
  predicate TicketBefore(s: State, a: Key, b: Key) {
    if a !in s.tickets then b in s.tickets || Less(a, b)
    else b in s.tickets && (s.tickets[a] < s.tickets[b] || (s.tickets[a] == s.tickets[b] && Less(a, b)))
  }

  /** Compares the newest queued positions, then the keys. */
  predicate PositionBefore(s: State, a: Key, b: Key)
    requires QueueOf(s, a) != map[] && QueueOf(s, b) != map[]
  {
    var pa, pb := Last(QueueOf(s, a)), Last(QueueOf(s, b));
    pa < pb || (pa == pb && Less(a, b))
  }

  /** The key that the next dispatch takes among the due ones: in replay the oldest, otherwise the
      newest, except that every fourth live dispatch takes the smallest service ticket. */
  ghost predicate Picks(s: State, activation: string, now: nat, ready: set<string>, policy: Policy, k: Key) {
    Due(s, activation, now, ready, policy, k)
    && forall other | other in s.pending && other != k && Due(s, activation, now, ready, policy, other) ::
         if policy.SequentialReplay? then PositionBefore(s, k, other)
         else if s.recent >= 3 then TicketBefore(s, k, other)
         else PositionBefore(s, other, k)
  }

  /** Takes the oldest candidate of `k` and reserves the key. */
  function Take(s: State, k: Key): (State, Pending)
    requires QueueOf(s, k) != map[]
  {
    var first := First(s.pending[k]);
    var rest := map p | p in s.pending[k] && p != first :: s.pending[k][p];
    (s.(pending := if rest == map[] then s.pending - {k} else s.pending[k := rest],
        inFlight := s.inFlight + {k},
        active := s.active + 1),
     s.pending[k][first])
  }

  // ----- settlement

  function Restore(s: State, k: Key, p: Pending): State {
    var queue := QueueOf(s, k);
    if !p.resumed && p.windowed && HasNew(queue) then s
    else if p.trigger in queue then s
    else s.(pending := s.pending[k := queue[p.trigger := p]])
  }

  function Defer(s: State, k: Key, p: Pending, retryAt: nat): State {
    Restore(s.(cooldownUntil := s.cooldownUntil[k := retryAt]), k, p)
  }

  function RestoreWithRelease(s: State, k: Key, p: Pending, claim: string): State {
    Restore(s.(releases := s.releases[k := claim]), k, p)
  }

  /** The store confirmed an earlier release of a claim. */
  function ForgetRelease(s: State, k: Key): State {
    s.(releases := s.releases - {k})
  }

  function ClearTicketIfIdle(s: State, k: Key): State {
    if QueueOf(s, k) == map[] then s.(tickets := s.tickets - {k}) else s
  }

  function MarkStarted(s: State, k: Key, now: nat, cooldown: nat, policy: Policy): State {
    var ticketed :=
      if QueueOf(s, k) != map[]
      then s.(tickets := s.tickets[k := s.nextTicket], nextTicket := s.nextTicket + 1)
      else s.(tickets := s.tickets - {k});
    ticketed.(
      recent := if policy.Live? then (if s.recent >= 3 then 0 else s.recent + 1) else s.recent,
      cooldownUntil := s.cooldownUntil[k := now + cooldown])
  }

  /** A finished guard gives back its key and its slot. */
  function Finish(s: State, k: Key): State {
    s.(inFlight := s.inFlight - {k}, active := if s.active == 0 then 0 else s.active - 1)
  }

  /** A guard dropped without an outcome gives back its slot but keeps its key reserved. */
  function Abandon(s: State): State {
    s.(active := if s.active == 0 then 0 else s.active - 1)
  }
}
