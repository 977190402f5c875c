/** What the scheduler keeps under every interleaving of its steps. */
module ScheduleRuns {
  import opened Text
  import opened KeyOrder
  import opened Schedule

  /** A guard that is neither finished nor dropped, and the candidate its owner still holds. */
  datatype Guard = Guard(key: Key, held: Option<Pending>)

  /** The scheduler with its live guards. */
  datatype System = System(sched: State, guards: map<nat, Guard>)

  datatype Action =
    | DoEnqueue(p: Pending)
    | DoPrune(terminal: set<string>)
    | DoReset(activation: string, branches: set<string>)
    | DoRevoke(revoked: set<string>)
    | DoForgetRelease(key: Key)
    | DoStart(guard: nat, key: Key, activation: string, now: nat, ready: set<string>, policy: Policy)
    | DoRestore(guard: nat, resumed: bool)
    | DoDefer(guard: nat, retryAt: nat)
    | DoRestoreWithRelease(guard: nat, resumed: bool, claim: string)
    | DoSettle(guard: nat)
    | DoMarkStarted(guard: nat, now: nat, cooldown: nat, policy: Policy)
    | DoFinish(guard: nat)
    | DoAbandon(guard: nat)

  predicate Holds(x: System, g: nat) {
    g in x.guards && x.guards[g].held.Some?
  }

  /** Whether an action can happen. `windows` names the activations with a rolling window; a
      candidate carries the setting of its own activation. */
  ghost predicate Enabled(windows: set<string>, x: System, a: Action) {
    match a
    case DoEnqueue(p) => p.windowed <==> p.key.major in windows
    case DoPrune(_) => true
    case DoReset(_, _) => true
    case DoRevoke(_) => true
    case DoForgetRelease(_) => true
    case DoStart(g, k, activation, now, ready, policy) =>
      g !in x.guards && x.sched.active < MAX_IN_FLIGHT_EVALUATIONS
      && Picks(x.sched, activation, now, ready, policy, k)
    case DoRestore(g, _) => Holds(x, g)
    case DoDefer(g, _) => Holds(x, g)
    case DoRestoreWithRelease(g, _, _) => Holds(x, g)
    case DoSettle(g) => g in x.guards
    case DoMarkStarted(g, _, _, _) => g in x.guards
    case DoFinish(g) => g in x.guards
    case DoAbandon(g) => g in x.guards
  }

  function Release(x: System, g: nat): System
    requires g in x.guards
  {
    x.(guards := x.guards[g := x.guards[g].(held := None)])
  }

  ghost function Next(windows: set<string>, x: System, a: Action): System
    requires Enabled(windows, x, a)
  {
    match a
    case DoEnqueue(p) => x.(sched := Enqueue(x.sched, p).0)
    case DoPrune(terminal) => x.(sched := Prune(x.sched, terminal))
    case DoReset(activation, branches) => x.(sched := ResetBranches(x.sched, activation, branches))
    case DoRevoke(revoked) => x.(sched := RevokeActivations(x.sched, revoked))
    case DoForgetRelease(k) => x.(sched := ForgetRelease(x.sched, k))
    case DoStart(g, k, _, _, _, _) =>
      System(Take(x.sched, k).0, x.guards[g := Guard(k, Some(Take(x.sched, k).1))])
    case DoRestore(g, resumed) =>
      var p := x.guards[g].held.value;
      Release(x.(sched := Restore(x.sched, x.guards[g].key, p.(resumed := p.resumed || resumed))), g)
    case DoDefer(g, retryAt) =>
      Release(x.(sched := Defer(x.sched, x.guards[g].key, x.guards[g].held.value, retryAt)), g)
    case DoRestoreWithRelease(g, resumed, claim) =>
      var p := x.guards[g].held.value;
      Release(x.(sched := RestoreWithRelease(x.sched, x.guards[g].key, p.(resumed := p.resumed || resumed), claim)), g)
    case DoSettle(g) => Release(x.(sched := ClearTicketIfIdle(x.sched, x.guards[g].key)), g)
    case DoMarkStarted(g, now, cooldown, policy) =>
      x.(sched := MarkStarted(x.sched, x.guards[g].key, now, cooldown, policy))
    case DoFinish(g) => System(Finish(x.sched, x.guards[g].key), x.guards - {g})
    case DoAbandon(g) => System(Abandon(x.sched), x.guards - {g})
  }

  // ----- the invariant

  function Held(x: System): set<nat> {
    set g | g in x.guards && x.guards[g].held.Some?
  }

  /** A queue is not empty, holds each candidate under its own key and position, and with a rolling
      window holds at most one candidate that was never started. */
  ghost predicate QueueOk(windows: set<string>, k: Key, q: Queue) {
    q != map[]
    && (forall p | p in q :: q[p].key == k && q[p].trigger == p && (q[p].windowed <==> k.major in windows))
    && (k.major in windows ==> forall p, r | p in q && r in q && !q[p].resumed && !q[r].resumed :: p == r)
  }

  ghost predicate AllQueuesOk(windows: set<string>, pending: map<Key, Queue>) {
    forall k | k in pending :: QueueOk(windows, k, pending[k])
  }

  ghost predicate QueuesOk(windows: set<string>, s: State) {
    AllQueuesOk(windows, s.pending)
  }

  ghost predicate KeysReserved(guards: map<nat, Guard>, inFlight: set<Key>) {
    forall g | g in guards :: guards[g].key in inFlight
  }

  ghost predicate KeysDistinct(guards: map<nat, Guard>) {
    forall g, h | g in guards && h in guards && g != h :: guards[g].key != guards[h].key
  }

  ghost predicate HoldsOwn(windows: set<string>, guard: Guard) {
    guard.held.Some? ==>
      guard.held.value.key == guard.key && (guard.held.value.windowed <==> guard.key.major in windows)
  }

  ghost predicate GuardsOk(windows: set<string>, x: System) {
    x.sched.active == |x.guards| <= MAX_IN_FLIGHT_EVALUATIONS
    && KeysReserved(x.guards, x.sched.inFlight)
    && KeysDistinct(x.guards)
    && forall g | g in x.guards :: HoldsOwn(windows, x.guards[g])
  }

  /** Candidates in memory: the queued ones and the ones that guards hold. */
  ghost function InMemory(x: System): nat {
    |Slots(x.sched.pending)| + |Held(x)|
  }

  ghost predicate MemoryOk(x: System) {
    InMemory(x) <= MAX_PENDING_CANDIDATES + MAX_IN_FLIGHT_EVALUATIONS
  }

  ghost predicate Inv(windows: set<string>, x: System) {
    QueuesOk(windows, x.sched) && GuardsOk(windows, x) && MemoryOk(x)
  }

  // ----- queues

  /** The conditions on a queue that may be empty. */
  ghost predicate EntriesOk(windows: set<string>, k: Key, q: Queue) {
    (forall p | p in q :: q[p].key == k && q[p].trigger == p && (q[p].windowed <==> k.major in windows))
    && (k.major in windows ==> forall p, r | p in q && r in q && !q[p].resumed && !q[r].resumed :: p == r)
  }

  lemma {:induction false} QueueOfOk(windows: set<string>, s: State, k: Key)
    requires QueuesOk(windows, s)
    ensures EntriesOk(windows, k, QueueOf(s, k))
  {
    if k in s.pending { assert QueueOk(windows, k, s.pending[k]); }
  }

  lemma {:induction false} AddEntry(windows: set<string>, k: Key, q: Queue, p: Pending)
    requires EntriesOk(windows, k, q) && p.trigger !in q
    requires p.key == k && (p.windowed <==> k.major in windows)
    requires !p.resumed && p.windowed ==> !HasNew(q)
    ensures QueueOk(windows, k, q[p.trigger := p])
  {
    assert p.trigger in q[p.trigger := p];
  }

  lemma {:induction false} SetQueue(windows: set<string>, pending: map<Key, Queue>, k: Key, q: Queue)
    requires AllQueuesOk(windows, pending) && QueueOk(windows, k, q)
    ensures AllQueuesOk(windows, pending[k := q])
  {
    var updated := pending[k := q];
    forall x | x in updated
      ensures QueueOk(windows, x, updated[x])
    {
      if x != k { assert QueueOk(windows, x, pending[x]); }
    }
  }

  lemma {:induction false} EnqueueQueues(windows: set<string>, s: State, p: Pending)
    requires QueuesOk(windows, s) && (p.windowed <==> p.key.major in windows)
    ensures QueuesOk(windows, Enqueue(s, p).0)
  {
    var queue := QueueOf(s, p.key);
    QueueOfOk(windows, s, p.key);
    if p.trigger in queue {
      var marked := queue[p.trigger := queue[p.trigger].(resumed := queue[p.trigger].resumed || p.resumed)];
      assert p.trigger in marked;
      SetQueue(windows, s.pending, p.key, marked);
    } else if Enqueue(s, p).0 != s {
      AdmittedQueues(windows, s, p);
    }
  }

  lemma {:induction false} AdmittedQueues(windows: set<string>, s: State, p: Pending)
    requires QueuesOk(windows, s) && (p.windowed <==> p.key.major in windows) && p.trigger !in QueueOf(s, p.key)
    ensures var kept := if Replaces(s, p) then OnlyResumed(QueueOf(s, p.key)) else QueueOf(s, p.key);
      AllQueuesOk(windows, s.pending[p.key := kept[p.trigger := p]])
  {
    var kept := if Replaces(s, p) then OnlyResumed(QueueOf(s, p.key)) else QueueOf(s, p.key);
    QueueOfOk(windows, s, p.key);
    AddEntry(windows, p.key, kept, p);
    SetQueue(windows, s.pending, p.key, kept[p.trigger := p]);
  }

  lemma {:induction false} RestoreQueues(windows: set<string>, s: State, k: Key, p: Pending)
    requires QueuesOk(windows, s) && p.key == k && (p.windowed <==> k.major in windows)
    ensures QueuesOk(windows, Restore(s, k, p))
  {
    var queue := QueueOf(s, k);
    QueueOfOk(windows, s, k);
    if !(!p.resumed && p.windowed && HasNew(queue)) && p.trigger !in queue {
      AddEntry(windows, k, queue, p);
      SetQueue(windows, s.pending, k, queue[p.trigger := p]);
    }
  }

  lemma {:induction false} TakeQueues(windows: set<string>, s: State, k: Key)
    requires QueuesOk(windows, s) && QueueOf(s, k) != map[]
    ensures QueuesOk(windows, Take(s, k).0)
    ensures Take(s, k).1.key == k && (Take(s, k).1.windowed <==> k.major in windows)
  {
    assert QueueOk(windows, k, s.pending[k]);
    var first := First(s.pending[k]);
    var rest := map p | p in s.pending[k] && p != first :: s.pending[k][p];
    if rest != map[] { SetQueue(windows, s.pending, k, rest); }
  }

  lemma {:induction false} PruneQueues(windows: set<string>, s: State, terminal: set<string>)
    requires QueuesOk(windows, s)
    ensures QueuesOk(windows, Prune(s, terminal))
  {
    var t := Prune(s, terminal);
    forall k | k in t.pending
      ensures QueueOk(windows, k, t.pending[k])
    {
      assert QueueOk(windows, k, s.pending[k]);
    }
  }

  // ----- counting

  lemma {:induction false} SetSlots(pending: map<Key, Queue>, k: Key, q: Queue, slot: (Key, nat))
    ensures slot in Slots(pending[k := q]) <==> if slot.0 == k then slot.1 in q else slot in Slots(pending)
  {
  }

  lemma {:induction false} AddSlot(pending: map<Key, Queue>, k: Key, q: Queue, position: nat, p: Pending)
    requires q == (if k in pending then pending[k] else map[]) && position !in q
    ensures |Slots(pending[k := q[position := p]])| == |Slots(pending)| + 1
  {
    var after := Slots(pending[k := q[position := p]]);
    forall slot: (Key, nat)
      ensures slot in after <==> slot in Slots(pending) || slot == (k, position)
    {
      SetSlots(pending, k, q[position := p], slot);
    }
    assert after == Slots(pending) + {(k, position)};
  }

  lemma {:induction false} SwapSlot(pending: map<Key, Queue>, k: Key, q: Queue, removed: nat, added: nat)
    requires k in pending && removed in pending[k] && removed !in q
    requires q.Keys <= pending[k].Keys + {added}
    ensures |Slots(pending[k := q])| <= |Slots(pending)|
  {
    var before, after := Slots(pending), Slots(pending[k := q]);
    var bound := (before - {(k, removed)}) + {(k, added)};
    forall slot: (Key, nat) | slot in after
      ensures slot in bound
    {
      SetSlots(pending, k, q, slot);
    }
    assert (k, removed) in before;
    SubsetSize(after, bound);
  }

  lemma {:induction false} SameSlots(pending: map<Key, Queue>, k: Key, q: Queue)
    requires k in pending && q.Keys == pending[k].Keys
    ensures Slots(pending[k := q]) == Slots(pending)
  {
    forall slot: (Key, nat)
      ensures slot in Slots(pending[k := q]) <==> slot in Slots(pending)
    {
      SetSlots(pending, k, q, slot);
    }
  }

  /** Admission adds a slot only below the bound. */
  lemma {:induction false} EnqueueSlots(s: State, p: Pending)
    ensures |Slots(Enqueue(s, p).0.pending)| <= |Slots(s.pending)|
         || (|Slots(s.pending)| < MAX_PENDING_CANDIDATES
             && |Slots(Enqueue(s, p).0.pending)| == |Slots(s.pending)| + 1)
  {
    var queue := QueueOf(s, p.key);
    if p.trigger in queue {
      SameSlots(s.pending, p.key, queue[p.trigger := queue[p.trigger].(resumed := queue[p.trigger].resumed || p.resumed)]);
    } else if Enqueue(s, p).0 != s {
      if Replaces(s, p) {
        var r :| r in queue && !queue[r].resumed;
        SwapSlot(s.pending, p.key, OnlyResumed(queue)[p.trigger := p], r, p.trigger);
      } else {
        AddSlot(s.pending, p.key, queue, p.trigger, p);
      }
    }
  }

  lemma {:induction false} RestoreSlots(s: State, k: Key, p: Pending)
    ensures |Slots(Restore(s, k, p).pending)| <= |Slots(s.pending)| + 1
  {
    if Restore(s, k, p) != s {
      AddSlot(s.pending, k, QueueOf(s, k), p.trigger, p);
    }
  }

  lemma {:induction false} TakeSlots(s: State, k: Key)
    requires QueueOf(s, k) != map[]
    ensures |Slots(Take(s, k).0.pending)| + 1 == |Slots(s.pending)|
  {
    var first := First(s.pending[k]);
    var rest := map p | p in s.pending[k] && p != first :: s.pending[k][p];
    var after := Slots(Take(s, k).0.pending);
    forall slot: (Key, nat)
      ensures slot in after <==> slot in Slots(s.pending) && slot != (k, first)
    {
      if rest == map[] {
        if slot.0 == k && slot.1 in s.pending[k] && slot.1 != first { assert slot.1 in rest; }
      } else {
        SetSlots(s.pending, k, rest, slot);
      }
    }
    assert (k, first) in Slots(s.pending);
    assert after == Slots(s.pending) - {(k, first)};
  }

  lemma {:induction false} DropSlots(before: map<Key, Queue>, after: map<Key, Queue>)
    requires forall k | k in after :: k in before && after[k].Keys <= before[k].Keys
    ensures |Slots(after)| <= |Slots(before)|
  {
    assert Slots(after) <= Slots(before);
    SubsetSize(Slots(after), Slots(before));
  }

  // ----- steps

  /** A step that changes queues only, and adds a slot only below the bound. */
  lemma {:induction false} QueueStep(windows: set<string>, x: System, t: State)
    requires Inv(windows, x) && QueuesOk(windows, t)
    requires t.active == x.sched.active && t.inFlight == x.sched.inFlight
    requires |Slots(t.pending)| <= |Slots(x.sched.pending)| || |Slots(t.pending)| <= MAX_PENDING_CANDIDATES
    ensures Inv(windows, x.(sched := t)) && Held(x.(sched := t)) == Held(x)
  {
    SubsetSize(Held(x), x.guards.Keys);
    assert Held(x.(sched := t)) == Held(x);
  }

  lemma {:induction false} ReleaseGuards(windows: set<string>, x: System, g: nat)
    requires GuardsOk(windows, x) && g in x.guards
    ensures GuardsOk(windows, Release(x, g)) && Held(Release(x, g)) == Held(x) - {g}
    ensures |Held(Release(x, g))| + (if Holds(x, g) then 1 else 0) == |Held(x)|
  {
    var y := Release(x, g);
    assert y.guards.Keys == x.guards.Keys;
    assert Held(y) == Held(x) - {g};
    assert Holds(x, g) <==> g in Held(x);
    forall h, i | h in y.guards && i in y.guards && h != i
      ensures y.guards[h].key != y.guards[i].key
    {
      assert x.guards[h].key != x.guards[i].key;
    }
  }

  /** A step in which a guard gives its candidate back, or lets it go. */
  lemma {:induction false} ReleaseStep(windows: set<string>, x: System, t: State, g: nat)
    requires Inv(windows, x) && g in x.guards
    requires QueuesOk(windows, t) && t.active == x.sched.active && t.inFlight == x.sched.inFlight
    requires |Slots(t.pending)| <= |Slots(x.sched.pending)| + if Holds(x, g) then 1 else 0
    ensures Inv(windows, Release(x.(sched := t), g))
    ensures Held(Release(x.(sched := t), g)) == Held(x) - {g}
    ensures InMemory(Release(x.(sched := t), g)) <= InMemory(x)
  {
    ReleaseGuards(windows, x, g);
    var y := Release(x.(sched := t), g);
    assert y.guards == Release(x, g).guards && Held(y) == Held(Release(x, g));
  }

  lemma {:induction false} RestoreStep(windows: set<string>, x: System, s: State, g: nat, p: Pending)
    requires Inv(windows, x) && Holds(x, g)
    requires p.key == x.guards[g].key && (p.windowed <==> p.key.major in windows)
    requires s.pending == x.sched.pending && s.active == x.sched.active && s.inFlight == x.sched.inFlight
    ensures var y := Release(x.(sched := Restore(s, x.guards[g].key, p)), g);
      Inv(windows, y) && InMemory(y) <= InMemory(x)
  {
    RestoreQueues(windows, s, x.guards[g].key, p);
    RestoreSlots(s, x.guards[g].key, p);
    ReleaseStep(windows, x, Restore(s, x.guards[g].key, p), g);
  }

  lemma {:induction false} StartGuards(windows: set<string>, x: System, g: nat, k: Key, p: Pending, t: State)
    requires GuardsOk(windows, x) && g !in x.guards && k !in x.sched.inFlight
    requires p.key == k && (p.windowed <==> k.major in windows)
    requires t.active == x.sched.active + 1 <= MAX_IN_FLIGHT_EVALUATIONS && t.inFlight == x.sched.inFlight + {k}
    ensures var y := System(t, x.guards[g := Guard(k, Some(p))]);
      GuardsOk(windows, y) && |Held(y)| == |Held(x)| + 1
  {
    var y := System(t, x.guards[g := Guard(k, Some(p))]);
    assert y.guards.Keys == x.guards.Keys + {g};
    assert Held(y) == Held(x) + {g};
    StartKeys(x.guards, x.sched.inFlight, g, k, p);
  }

  lemma {:induction false} StartKeys(guards: map<nat, Guard>, inFlight: set<Key>, g: nat, k: Key, p: Pending)
    requires KeysReserved(guards, inFlight) && KeysDistinct(guards) && g !in guards && k !in inFlight
    ensures var more := guards[g := Guard(k, Some(p))];
      KeysReserved(more, inFlight + {k}) && KeysDistinct(more)
  {
    var more := guards[g := Guard(k, Some(p))];
    forall h, i | h in more && i in more && h != i ensures more[h].key != more[i].key {
      if h != g && i != g { assert guards[h].key != guards[i].key; }
    }
  }

  lemma {:induction false} StartStep(windows: set<string>, x: System, g: nat, k: Key)
    requires Inv(windows, x) && g !in x.guards && x.sched.active < MAX_IN_FLIGHT_EVALUATIONS
    requires QueueOf(x.sched, k) != map[] && k !in x.sched.inFlight
    ensures var y := System(Take(x.sched, k).0, x.guards[g := Guard(k, Some(Take(x.sched, k).1))]);
      Inv(windows, y) && InMemory(y) <= InMemory(x)
  {
    TakeQueues(windows, x.sched, k);
    TakeSlots(x.sched, k);
    StartGuards(windows, x, g, k, Take(x.sched, k).1, Take(x.sched, k).0);
  }

  lemma {:induction false} RemoveStep(windows: set<string>, x: System, t: State, g: nat)
    requires Inv(windows, x) && g in x.guards
    requires t.pending == x.sched.pending && t.active + 1 == x.sched.active
    requires x.sched.inFlight - {x.guards[g].key} <= t.inFlight
    ensures Inv(windows, System(t, x.guards - {g})) && Held(System(t, x.guards - {g})) <= Held(x)
  {
    var y := System(t, x.guards - {g});
    assert y.guards.Keys == x.guards.Keys - {g};
    assert Held(y) <= Held(x);
    SubsetSize(Held(y), Held(x));
  }

  lemma {:induction false} GuardCounted(windows: set<string>, x: System, g: nat)
    requires Inv(windows, x) && g in x.guards
    ensures x.sched.active > 0
  {
    assert g in x.guards.Keys;
  }

  /** What an action may do to the number of candidates in memory: only an admission below the
      queue bound makes them more numerous. */
  ghost predicate MemoryStep(x: System, a: Action, y: System) {
    InMemory(y) <= InMemory(x)
    || (a.DoEnqueue? && Held(y) == Held(x) && |Slots(y.sched.pending)| <= MAX_PENDING_CANDIDATES)
  }

  /** Every enabled action keeps the invariant. */
  lemma {:induction false} NextOk(windows: set<string>, x: System, a: Action)
    requires Inv(windows, x) && Enabled(windows, x, a)
    ensures Inv(windows, Next(windows, x, a)) && MemoryStep(x, a, Next(windows, x, a))
  {
    if a.DoEnqueue? {
      EnqueueOk(windows, x, a.p);
    } else if a.DoPrune? || a.DoReset? || a.DoRevoke? || a.DoForgetRelease? {
      ShrinkOk(windows, x, a);
    } else if a.DoStart? {
      StartStep(windows, x, a.guard, a.key);
    } else if a.DoRestore? || a.DoDefer? || a.DoRestoreWithRelease? {
      GiveBackOk(windows, x, a);
    } else {
      GuardStepOk(windows, x, a);
    }
  }

  lemma {:induction false} EnqueueOk(windows: set<string>, x: System, p: Pending)
    requires Inv(windows, x) && (p.windowed <==> p.key.major in windows)
    ensures var y := x.(sched := Enqueue(x.sched, p).0);
      Inv(windows, y) && MemoryStep(x, DoEnqueue(p), y)
  {
    EnqueueQueues(windows, x.sched, p);
    EnqueueSlots(x.sched, p);
    QueueStep(windows, x, Enqueue(x.sched, p).0);
  }

  lemma {:induction false} ShrinkOk(windows: set<string>, x: System, a: Action)
    requires Inv(windows, x) && Enabled(windows, x, a)
    requires a.DoPrune? || a.DoReset? || a.DoRevoke? || a.DoForgetRelease?
    ensures Inv(windows, Next(windows, x, a)) && InMemory(Next(windows, x, a)) <= InMemory(x)
  {
    var t := Next(windows, x, a).sched;
    if a.DoPrune? { PruneQueues(windows, x.sched, a.terminal); }
    DropSlots(x.sched.pending, t.pending);
    QueueStep(windows, x, t);
  }

  lemma {:induction false} GiveBackOk(windows: set<string>, x: System, a: Action)
    requires Inv(windows, x) && Enabled(windows, x, a)
    requires a.DoRestore? || a.DoDefer? || a.DoRestoreWithRelease?
    ensures Inv(windows, Next(windows, x, a)) && InMemory(Next(windows, x, a)) <= InMemory(x)
  {
    var g := a.guard;
    var k, p := x.guards[g].key, x.guards[g].held.value;
    if a.DoDefer? {
      RestoreStep(windows, x, x.sched.(cooldownUntil := x.sched.cooldownUntil[k := a.retryAt]), g, p);
    } else if a.DoRestore? {
      RestoreStep(windows, x, x.sched, g, p.(resumed := p.resumed || a.resumed));
    } else {
      RestoreStep(windows, x, x.sched.(releases := x.sched.releases[k := a.claim]), g,
                  p.(resumed := p.resumed || a.resumed));
    }
  }

  lemma {:induction false} GuardStepOk(windows: set<string>, x: System, a: Action)
    requires Inv(windows, x) && Enabled(windows, x, a)
    requires a.DoSettle? || a.DoMarkStarted? || a.DoFinish? || a.DoAbandon?
    ensures Inv(windows, Next(windows, x, a)) && InMemory(Next(windows, x, a)) <= InMemory(x)
  {
    var g := a.guard;
    var t := Next(windows, x, a).sched;
    if a.DoSettle? {
      ReleaseStep(windows, x, t, g);
    } else if a.DoMarkStarted? {
      QueueStep(windows, x, t);
    } else {
      GuardCounted(windows, x, g);
      RemoveStep(windows, x, t, g);
      SubsetSize(Held(Next(windows, x, a)), Held(x));
    }
  }

  // ----- runs

  ghost predicate IsRun(windows: set<string>, x: System, actions: seq<Action>)
    decreases |actions|
  {
    actions == []
    || (Enabled(windows, x, actions[0]) && IsRun(windows, Next(windows, x, actions[0]), actions[1..]))
  }

  ghost function After(windows: set<string>, x: System, actions: seq<Action>): System
    requires IsRun(windows, x, actions)
    decreases |actions|
  {
    if actions == [] then x else After(windows, Next(windows, x, actions[0]), actions[1..])
  }

  /** Under every interleaving: slots, guards, queues and memory stay within their bounds. */
  lemma {:induction false} EveryInterleavingIsBounded(windows: set<string>, x: System, actions: seq<Action>)
    requires Inv(windows, x) && IsRun(windows, x, actions)
    ensures Inv(windows, After(windows, x, actions))
    decreases |actions|
  {
    if actions != [] {
      NextOk(windows, x, actions[0]);
      EveryInterleavingIsBounded(windows, Next(windows, x, actions[0]), actions[1..]);
    }
  }

  lemma {:induction false} IdleOk(windows: set<string>)
    ensures Inv(windows, System(IDLE, map[]))
  {
    assert Slots(IDLE.pending) == {};
    assert Held(System(IDLE, map[])) == {};
  }

  /** So every state that the idle scheduler reaches is bounded. */
  lemma {:induction false} IdleRunsAreBounded(windows: set<string>, actions: seq<Action>)
    requires IsRun(windows, System(IDLE, map[]), actions)
    ensures Inv(windows, After(windows, System(IDLE, map[]), actions))
    ensures InMemory(After(windows, System(IDLE, map[]), actions)) <= MAX_PENDING_CANDIDATES + MAX_IN_FLIGHT_EVALUATIONS
  {
    IdleOk(windows);
    EveryInterleavingIsBounded(windows, System(IDLE, map[]), actions);
  }

  ghost predicate StartsKey(a: Action, k: Key) {
    a.DoStart? && a.key == k
  }

  ghost predicate ReleasesGuard(a: Action, g: nat) {
    (a.DoFinish? || a.DoAbandon?) && a.guard == g
  }

  /** Single flight: while a guard lives, no run starts its key again. */
  lemma {:induction false} SingleFlight(windows: set<string>, x: System, actions: seq<Action>, g: nat)
    requires Inv(windows, x) && IsRun(windows, x, actions) && g in x.guards
    requires forall a | a in actions :: !ReleasesGuard(a, g)
    ensures forall a | a in actions :: !StartsKey(a, x.guards[g].key)
    ensures g in After(windows, x, actions).guards
            && After(windows, x, actions).guards[g].key == x.guards[g].key
    decreases |actions|
  {
    if actions != [] {
      NextOk(windows, x, actions[0]);
      assert !ReleasesGuard(actions[0], g);
      SingleFlight(windows, Next(windows, x, actions[0]), actions[1..], g);
    }
  }

  ghost predicate Stranded(x: System, k: Key) {
    k in x.sched.inFlight && forall g | g in x.guards :: x.guards[g].key != k
  }

  /** A key whose guard was dropped without an outcome is never dispatched again. */
  lemma {:induction false} StrandedStays(windows: set<string>, x: System, actions: seq<Action>, k: Key)
    requires Inv(windows, x) && IsRun(windows, x, actions) && Stranded(x, k)
    ensures Stranded(After(windows, x, actions), k)
    ensures forall a | a in actions :: !StartsKey(a, k)
    decreases |actions|
  {
    if actions != [] {
      NextOk(windows, x, actions[0]);
      StrandedStep(windows, x, actions[0], k);
      StrandedStays(windows, Next(windows, x, actions[0]), actions[1..], k);
    }
  }

  lemma {:induction false} StrandedStep(windows: set<string>, x: System, a: Action, k: Key)
    requires Inv(windows, x) && Enabled(windows, x, a) && Stranded(x, k)
    ensures Stranded(Next(windows, x, a), k) && !StartsKey(a, k)
  {
    if a.DoStart? {
      assert a.key != k;
    }
  }

  lemma {:induction false} AbandonStrands(windows: set<string>, x: System, g: nat)
    requires Inv(windows, x) && g in x.guards
    ensures Stranded(Next(windows, x, DoAbandon(g)), x.guards[g].key)
  {
  }

  ghost predicate QuietEnqueues(windows: set<string>, x: System, actions: seq<Action>)
    requires IsRun(windows, x, actions)
    decreases |actions|
  {
    actions == []
    || ((actions[0].DoEnqueue? ==> Held(x) == {})
        && QuietEnqueues(windows, Next(windows, x, actions[0]), actions[1..]))
  }

  /** When starts are atomic, so that no candidate is held during an admission, queued and held
      candidates together never exceed the queue bound. */
  lemma {:induction false} AtomicStartsStayWithinQueueBound(windows: set<string>, x: System, actions: seq<Action>)
    requires Inv(windows, x) && IsRun(windows, x, actions) && QuietEnqueues(windows, x, actions)
    requires InMemory(x) <= MAX_PENDING_CANDIDATES
    ensures InMemory(After(windows, x, actions)) <= MAX_PENDING_CANDIDATES
    decreases |actions|
  {
    if actions != [] {
      NextOk(windows, x, actions[0]);
      AtomicStartsStayWithinQueueBound(windows, Next(windows, x, actions[0]), actions[1..]);
    }
  }
}
