/**
 What is in a queue after any action, candidate by candidate: which stay, which leave and where to,
 and which enter.
 */
module ScheduleQueues {
  import opened Text
  import opened KeyOrder
  import opened Schedule
  import opened ScheduleRuns

  /** The candidate belongs to a rolling window and meets a queued one that was never started. */
  predicate Competes(q: Queue, p: Pending) {
    p.windowed && !p.resumed && exists n :: n in q && !q[n].resumed
  }

  /** The newest queued candidate was never started and is newer than this one. */
  predicate TooLate(q: Queue, p: Pending) {
    exists n :: n in q && !q[n].resumed && n > p.trigger && forall r | r in q :: r <= n
  }

  /** The queue takes the new candidate. */
  predicate Takes(s: State, p: Pending) {
    var q := QueueOf(s, p.key);
    p.trigger !in q
    && if Competes(q, p) then !TooLate(q, p) else |Slots(s.pending)| < 128
  }

  predicate IsOldest(q: Queue, n: nat) {
    n in q && forall r | r in q :: n <= r
  }

  /** The queued candidate at position `n` of `k` leaves the queue. */
  predicate Leaves(s: State, a: Action, k: Key, n: nat)
    requires n in QueueOf(s, k)
  {
    var q := QueueOf(s, k);
    match a
    case DoEnqueue(p) => p.key == k && Competes(q, p) && Takes(s, p) && !q[n].resumed
    case DoPrune(terminal) => q[n].id in terminal
    case DoReset(activation, branches) => k.major == activation && k.minor in branches
    case DoRevoke(revoked) => k.major in revoked
    case DoStart(_, key, _, _, _, _) => key == k && IsOldest(q, n)
    case _ => false
  }

  /** The candidate that the action gives to the queue of its key, if it finds a place. */
  function Offered(x: System, a: Action): Option<Pending> {
    match a
    case DoEnqueue(p) => if Takes(x.sched, p) then Some(p) else None
    case DoRestore(g, resumed) => if Holds(x, g) then Returned(x, g, resumed) else None
    case DoDefer(g, _) => if Holds(x, g) then Returned(x, g, false) else None
    case DoRestoreWithRelease(g, resumed, _) => if Holds(x, g) then Returned(x, g, resumed) else None
    case _ => None
  }

  /** A candidate that a guard gives back, unless its position or its window is taken. */
  function Returned(x: System, g: nat, resumed: bool): Option<Pending>
    requires Holds(x, g)
  {
    var held := x.guards[g].held.value;
    var p := held.(resumed := held.resumed || resumed);
    var q := QueueOf(x.sched, x.guards[g].key);
    if p.trigger in q || Competes(q, p) then None else Some(p)
  }

  predicate Owned(x: System) {
    forall g | g in x.guards && x.guards[g].held.Some? :: x.guards[g].held.value.key == x.guards[g].key
  }

  /** The candidate at a position of a queue; a repeated admission can only mark it as resumed. */
  function Kept(a: Action, k: Key, n: nat, p: Pending): Pending {
    if a.DoEnqueue? && a.p.key == k && a.p.trigger == n then p.(resumed := p.resumed || a.p.resumed) else p
  }

  lemma {:induction false} EnqueueExactly(s: State, p: Pending, k: Key, n: nat)
    ensures var q, r := QueueOf(s, k), QueueOf(Enqueue(s, p).0, k);
      (n in r <==> (n in q && !Leaves(s, DoEnqueue(p), k, n)) || (k == p.key && n == p.trigger && Takes(s, p)))
      && (n in r && n in q ==> r[n] == Kept(DoEnqueue(p), k, n, q[n]))
      && (n in r && n !in q ==> r[n] == p)
  {
    CompetesExactly(s, p);
  }

  lemma {:induction false} CompetesExactly(s: State, p: Pending)
    ensures var q := QueueOf(s, p.key);
      (Replaces(s, p) <==> Competes(q, p))
      && (Competes(q, p) ==> (TooLate(q, p) <==> !q[Last(q)].resumed && Last(q) > p.trigger))
  {
    var q := QueueOf(s, p.key);
    if Competes(q, p) && TooLate(q, p) {
      var n :| n in q && !q[n].resumed && n > p.trigger && forall r | r in q :: r <= n;
      assert n == Last(q);
    }
  }

  /** How an admission is answered. */
  lemma {:induction false} AdmissionExactly(s: State, p: Pending)
    ensures var q := QueueOf(s, p.key);
      Enqueue(s, p).1 == if p.trigger in q then Queued
                         else if Competes(q, p) then Coalesced
                         else if |Slots(s.pending)| < 128 then Queued
                         else Overflow
  {
    CompetesExactly(s, p);
  }

  lemma {:induction false} ReturnExactly(s: State, key: Key, p: Pending, k: Key, n: nat)
    ensures var q, r := QueueOf(s, k), QueueOf(Restore(s, key, p), k);
      (n in r <==> n in q || (k == key && n == p.trigger && !Competes(q, p)))
      && (n in q ==> r[n] == q[n]) && (n in r && n !in q ==> r[n] == p)
  {}

  lemma {:induction false} TakeExactly(s: State, key: Key, k: Key, n: nat)
    requires QueueOf(s, key) != map[]
    ensures var q, r := QueueOf(s, k), QueueOf(Take(s, key).0, k);
      (n in r <==> n in q && !(k == key && IsOldest(q, n))) && (n in r ==> r[n] == q[n])
  {
    var first := First(s.pending[key]);
    var rest := map p | p in s.pending[key] && p != first :: s.pending[key][p];
    if k == key && n in s.pending[key] && n != first { assert n in rest; }
  }

  lemma {:induction false} PruneExactly(s: State, terminal: set<string>, k: Key, n: nat)
    ensures var q, r := QueueOf(s, k), QueueOf(Prune(s, terminal), k);
      (n in r <==> n in q && q[n].id !in terminal) && (n in r ==> r[n] == q[n])
  {
    if k in s.pending && n in s.pending[k] && s.pending[k][n].id !in terminal {
      assert n in Surviving(s.pending[k], terminal);
    }
  }

  /** After any action, a queue holds exactly the candidates that were in it and did not leave, and the one
      that the action offers it. */
  lemma {:induction false} QueuesExactly(windows: set<string>, x: System, a: Action, k: Key, n: nat)
    requires Enabled(windows, x, a) && Owned(x)
    ensures var q, r := QueueOf(x.sched, k), QueueOf(Next(windows, x, a).sched, k);
      (n in r <==> (n in q && !Leaves(x.sched, a, k, n))
                   || (Offered(x, a).Some? && Offered(x, a).value.key == k && Offered(x, a).value.trigger == n))
      && (n in r && n in q ==> r[n] == Kept(a, k, n, q[n]))
      && (n in r && n !in q ==> Offered(x, a) == Some(r[n]))
  {
    match a
    case DoEnqueue(p) => EnqueueExactly(x.sched, p, k, n);
    case DoPrune(terminal) => PruneExactly(x.sched, terminal, k, n);
    case DoStart(_, key, _, _, _, _) => TakeExactly(x.sched, key, k, n);
    case DoRestore(g, resumed) =>
      var held := x.guards[g].held.value;
      ReturnExactly(x.sched, x.guards[g].key, held.(resumed := held.resumed || resumed), k, n);
    case DoDefer(g, retryAt) =>
      var key := x.guards[g].key;
      ReturnExactly(x.sched.(cooldownUntil := x.sched.cooldownUntil[key := retryAt]), key, x.guards[g].held.value, k, n);
    case DoRestoreWithRelease(g, resumed, claim) =>
      var key, held := x.guards[g].key, x.guards[g].held.value;
      ReturnExactly(x.sched.(releases := x.sched.releases[key := claim]), key, held.(resumed := held.resumed || resumed), k, n);
    case _ =>
  }

  /** A start takes the oldest candidate of its key, and its guard holds it. */
  lemma {:induction false} StartHoldsOldest(windows: set<string>, x: System, a: Action)
    requires a.DoStart? && Enabled(windows, x, a)
    ensures var guards := Next(windows, x, a).guards;
      exists n :: IsOldest(x.sched.pending[a.key], n)
        && guards == x.guards[a.guard := Guard(a.key, Some(x.sched.pending[a.key][n]))]
  {
    assert IsOldest(x.sched.pending[a.key], First(x.sched.pending[a.key]));
  }
}
