/**
 No starvation in live policy: when every start is atomic and only one activation dispatches, a key
 that stays due is dispatched within four dispatches for each key whose ticket is smaller, plus four.
 */
module ScheduleFairness {
  import opened Text
  import opened KeyOrder
  import opened Schedule
  import opened ScheduleRuns

  /** How a start ends that dispatches nothing. */
  datatype Ending =
    | PutBack(resumed: bool)
    | PutOff(retryAt: nat)
    | PutBackWithClaim(resumed: bool, claim: string)
    | LetGo
    | SettledEarly
    /** The guard is dropped without an outcome. */
    | Stranding

  /** `Attempt` is a start that ends without a dispatch. */
  datatype Move =
    | Admit(p: Pending)
    | PruneTerminal(terminal: set<string>)
    | ResetSome(activation: string, branches: set<string>)
    | Revoke(revoked: set<string>)
    | ForgetClaim(key: Key)
    | Attempt(key: Key, activation: string, now: nat, ready: set<string>, ending: Ending)
    | Dispatch(key: Key, activation: string, now: nat, ready: set<string>, cooldown: nat)
    | Complete(key: Key)

  ghost predicate CanMove(s: State, m: Move) {
    m.Dispatch? || m.Attempt? ==>
      s.active < MAX_IN_FLIGHT_EVALUATIONS && Picks(s, m.activation, m.now, m.ready, Live, m.key)
  }

  /** The state after a start of `k` that took `p` ends. */
  function Ended(s: State, k: Key, p: Pending, ending: Ending): State {
    match ending
    case PutBack(resumed) => Finish(Restore(s, k, p.(resumed := p.resumed || resumed)), k)
    case PutOff(retryAt) => Finish(Defer(s, k, p, retryAt), k)
    case PutBackWithClaim(resumed, claim) => Finish(RestoreWithRelease(s, k, p.(resumed := p.resumed || resumed), claim), k)
    case LetGo => Finish(s, k)
    case SettledEarly => Finish(ClearTicketIfIdle(s, k), k)
    case Stranding => Abandon(s)
  }

  ghost function Moved(s: State, m: Move): State
    requires CanMove(s, m)
  {
    match m
    case Admit(p) => Enqueue(s, p).0
    case PruneTerminal(terminal) => Prune(s, terminal)
    case ResetSome(activation, branches) => ResetBranches(s, activation, branches)
    case Revoke(revoked) => RevokeActivations(s, revoked)
    case ForgetClaim(k) => ForgetRelease(s, k)
    case Attempt(k, _, _, _, ending) => Ended(Take(s, k).0, k, Take(s, k).1, ending)
    case Dispatch(k, _, now, _, cooldown) => MarkStarted(Take(s, k).0, k, now, cooldown, Live)
    case Complete(k) => Finish(s, k)
  }

  /** Every queued key has a ticket of its own, below the next one. */
  ghost predicate Ticketed(s: State) {
    (forall k | k in s.pending :: k in s.tickets && s.pending[k] != map[])
    && (forall k | k in s.tickets :: s.tickets[k] < s.nextTicket)
    && (forall j, k | j in s.tickets && k in s.tickets && j != k :: s.tickets[j] != s.tickets[k])
    && s.recent <= 3
  }

  lemma {:induction false} MoveKeepsTickets(s: State, m: Move)
    requires Ticketed(s) && CanMove(s, m)
    ensures Ticketed(Moved(s, m))
  {
    match m
    case Admit(p) => AdmitKeepsTickets(s, p);
    case PruneTerminal(terminal) => PruneKeepsTickets(s, terminal);
    case ResetSome(activation, branches) => ResetKeepsTickets(s, activation, branches);
    case Revoke(revoked) => RevokeKeepsTickets(s, revoked);
    case ForgetClaim(_) =>
    case Attempt(k, _, _, _, ending) => AttemptKeepsService(s, k, ending);
    case Dispatch(k, _, now, _, cooldown) => DispatchKeepsTickets(s, k, now, cooldown);
    case Complete(_) =>
  }

  lemma {:induction false} PruneKeepsTickets(s: State, terminal: set<string>)
    requires Ticketed(s)
    ensures Ticketed(Prune(s, terminal))
  {}

  lemma {:induction false} ResetKeepsTickets(s: State, activation: string, branches: set<string>)
    requires Ticketed(s)
    ensures Ticketed(ResetBranches(s, activation, branches))
  {}

  lemma {:induction false} RevokeKeepsTickets(s: State, revoked: set<string>)
    requires Ticketed(s)
    ensures Ticketed(RevokeActivations(s, revoked))
  {}

  lemma {:induction false} AdmitKeepsTickets(s: State, p: Pending)
    requires Ticketed(s)
    ensures Ticketed(Enqueue(s, p).0)
  {
    var t := Enqueue(s, p).0;
    if t != s {
      AdmittedQueue(s, p);
      assert t.tickets == s.tickets || t.tickets == s.tickets[p.key := s.nextTicket];
    }
  }

  /** An admission changes one queue, which is not empty then. */
  lemma {:induction false} AdmittedQueue(s: State, p: Pending)
    ensures var t := Enqueue(s, p).0;
      t == s || (p.key in t.pending && t.pending[p.key] != map[] && t.pending == s.pending[p.key := t.pending[p.key]])
  {
    var t := Enqueue(s, p).0;
    assert t == s || p.trigger in t.pending[p.key];
  }

  lemma {:induction false} DispatchKeepsTickets(s: State, k: Key, now: nat, cooldown: nat)
    requires Ticketed(s) && k in s.pending && s.pending[k] != map[]
    ensures Ticketed(MarkStarted(Take(s, k).0, k, now, cooldown, Live))
  {
    TakeKeepsService(s, k);
    ServedKeepsTickets(Take(s, k).0, k, now, cooldown);
  }

  lemma {:induction false} ServedKeepsTickets(s: State, k: Key, now: nat, cooldown: nat)
    requires Ticketed(s)
    ensures Ticketed(MarkStarted(s, k, now, cooldown, Live))
  {
    var t := MarkStarted(s, k, now, cooldown, Live);
    assert t.tickets == s.tickets - {k} || t.tickets == s.tickets[k := s.nextTicket];
  }

  /** What the end of a start of `k` leaves of tickets and queues. */
  ghost predicate KeepsService(s: State, t: State, k: Key) {
    Ticketed(t) && t.recent == s.recent && t.pending.Keys <= s.pending.Keys + {k}
    && (forall j | j in t.tickets :: j in s.tickets && t.tickets[j] == s.tickets[j])
  }

  lemma {:induction false} RestoreKeepsService(s: State, k: Key, p: Pending)
    requires Ticketed(s) && k in s.tickets
    ensures KeepsService(s, Restore(s, k, p), k)
  {
    assert p.trigger in QueueOf(s, k)[p.trigger := p];
  }

  lemma {:induction false} EndKeepsService(s: State, k: Key, p: Pending, ending: Ending)
    requires Ticketed(s) && k in s.tickets
    ensures KeepsService(s, Ended(s, k, p, ending), k)
  {
    match ending
    case PutBack(resumed) => RestoreKeepsService(s, k, p.(resumed := p.resumed || resumed));
    case PutOff(retryAt) => RestoreKeepsService(s.(cooldownUntil := s.cooldownUntil[k := retryAt]), k, p);
    case PutBackWithClaim(resumed, claim) =>
      RestoreKeepsService(s.(releases := s.releases[k := claim]), k, p.(resumed := p.resumed || resumed));
    case LetGo =>
    case SettledEarly =>
    case Stranding =>
  }

  lemma {:induction false} TakeKeepsService(s: State, k: Key)
    requires Ticketed(s) && k in s.pending && s.pending[k] != map[]
    ensures KeepsService(s, Take(s, k).0, k) && Take(s, k).0.tickets == s.tickets && k in s.tickets
  {
    var taken := Take(s, k).0;
    assert forall j | j in taken.pending :: taken.pending[j] != map[];
  }

  /** A start that dispatches nothing keeps the tickets of the keys that stay queued. */
  lemma {:induction false} AttemptKeepsService(s: State, k: Key, ending: Ending)
    requires Ticketed(s) && k in s.pending && s.pending[k] != map[]
    ensures KeepsService(s, Ended(Take(s, k).0, k, Take(s, k).1, ending), k)
  {
    TakeKeepsService(s, k);
    EndKeepsService(Take(s, k).0, k, Take(s, k).1, ending);
  }

  /** The queued keys of the same activation whose ticket is smaller. */
  ghost function Ahead(s: State, k: Key): set<Key> {
    set j | j in s.pending && j != k && j.major == k.major
            && k in s.tickets && j in s.tickets && s.tickets[j] < s.tickets[k]
  }

  /** How many more dispatches can pass over `k`. */
  ghost function Patience(s: State, k: Key): nat
    requires s.recent <= 3
  {
    4 * |Ahead(s, k)| + (3 - s.recent)
  }

  /** A move other than a dispatch puts no key ahead of `k`. */
  lemma {:induction false} QuietMove(s: State, m: Move, k: Key)
    requires Ticketed(s) && CanMove(s, m) && !m.Dispatch?
    requires k in s.pending && k in Moved(s, m).pending
    ensures Ahead(Moved(s, m), k) <= Ahead(s, k) && Moved(s, m).recent == s.recent
  {
    if m.Admit? {
      AdmitAhead(s, m.p, k);
    } else if m.Attempt? {
      AttemptAhead(s, m, k);
    } else {
      TicketsShrink(s, m, k);
    }
  }

  lemma {:induction false} AdmitAhead(s: State, p: Pending, k: Key)
    requires Ticketed(s) && k in s.pending
    ensures Ahead(Enqueue(s, p).0, k) <= Ahead(s, k) && Enqueue(s, p).0.recent == s.recent
  {
    var t := Enqueue(s, p).0;
    if t != s {
      AdmittedQueue(s, p);
      assert s.pending[k] != map[];
      assert t.tickets == s.tickets || (p.key !in s.pending && t.tickets == s.tickets[p.key := s.nextTicket]);
      assert s.tickets[k] < s.nextTicket;
    }
  }

  lemma {:induction false} TicketsShrink(s: State, m: Move, k: Key)
    requires CanMove(s, m) && !m.Dispatch? && !m.Attempt? && !m.Admit?
    ensures Ahead(Moved(s, m), k) <= Ahead(s, k) && Moved(s, m).recent == s.recent
  {}

  lemma {:induction false} AttemptAhead(s: State, m: Move, k: Key)
    requires Ticketed(s) && CanMove(s, m) && m.Attempt? && k in s.pending && k in Moved(s, m).pending
    ensures Ahead(Moved(s, m), k) <= Ahead(s, k) && Moved(s, m).recent == s.recent
  {
    AttemptKeepsService(s, m.key, m.ending);
    AheadShrinks(s, Moved(s, m), m.key, k);
  }

  lemma {:induction false} AheadShrinks(s: State, t: State, taken: Key, k: Key)
    requires KeepsService(s, t, taken) && taken in s.pending
    ensures Ahead(t, k) <= Ahead(s, k)
  {
    assert s.pending.Keys + {taken} == s.pending.Keys;
  }

  /** A dispatch that passes over a due key makes its patience smaller. */
  lemma {:induction false} PassedOver(s: State, m: Move, k: Key)
    requires Ticketed(s) && CanMove(s, m) && m.Dispatch? && m.key != k
    requires m.activation == k.major && Due(s, m.activation, m.now, m.ready, Live, k)
    ensures k in Moved(s, m).pending && Moved(s, m).recent <= 3
    ensures Patience(Moved(s, m), k) < Patience(s, k)
  {
    var t := Moved(s, m);
    assert k in s.pending && s.pending[k] != map[];
    assert m.key in s.pending;
    DispatchAhead(s, m, k);
    if s.recent >= 3 {
      assert TicketBefore(s, m.key, k);
      assert m.key in Ahead(s, k);
      SubsetSize(Ahead(t, k), Ahead(s, k) - {m.key});
    } else {
      SubsetSize(Ahead(t, k), Ahead(s, k));
    }
  }

  lemma {:induction false} DispatchAhead(s: State, m: Move, k: Key)
    requires Ticketed(s) && CanMove(s, m) && m.Dispatch? && m.key != k && k in s.pending
    ensures Ahead(Moved(s, m), k) <= Ahead(s, k) - {m.key}
    ensures k in Moved(s, m).pending && Moved(s, m).recent == if s.recent >= 3 then 0 else s.recent + 1
  {
    var taken := Take(s, m.key).0;
    assert m.key in s.pending && s.pending[m.key] != map[];
    assert k in taken.pending && taken.pending.Keys <= s.pending.Keys;
    ServedGoesBehind(s, taken, m.key, k, m.now, m.cooldown);
  }

  /** The served key loses its ticket, or gets the last one; the others keep theirs. */
  lemma {:induction false} ServedGoesBehind(s: State, taken: State, served: Key, k: Key, now: nat, cooldown: nat)
    requires served != k && k in s.tickets && s.tickets[k] < s.nextTicket && taken.pending.Keys <= s.pending.Keys
    requires taken.tickets == s.tickets && taken.nextTicket == s.nextTicket && taken.recent == s.recent
    ensures var t := MarkStarted(taken, served, now, cooldown, Live);
      Ahead(t, k) <= Ahead(s, k) - {served} && t.pending == taken.pending
      && t.recent == if s.recent >= 3 then 0 else s.recent + 1
  {
    var t := MarkStarted(taken, served, now, cooldown, Live);
    assert t.tickets == s.tickets - {served} || t.tickets == s.tickets[served := s.nextTicket];
    AheadWithoutServed(s, t, served, k);
  }

  lemma {:induction false} AheadWithoutServed(s: State, t: State, served: Key, k: Key)
    requires served != k && k in s.tickets && s.tickets[k] < s.nextTicket && t.pending.Keys <= s.pending.Keys
    requires t.tickets == s.tickets - {served} || t.tickets == s.tickets[served := s.nextTicket]
    ensures Ahead(t, k) <= Ahead(s, k) - {served}
  {
    assert k in t.tickets && t.tickets[k] == s.tickets[k];
  }

  /** A run in which `k` stays queued and is due, but never chosen, at every dispatch. */
  ghost predicate AlwaysPassedOver(s: State, moves: seq<Move>, k: Key)
    decreases |moves|
  {
    k in s.pending
    && (moves == []
        || (CanMove(s, moves[0])
            && (moves[0].Dispatch? ==>
                  moves[0].key != k && moves[0].activation == k.major
                  && Due(s, moves[0].activation, moves[0].now, moves[0].ready, Live, k))
            && AlwaysPassedOver(Moved(s, moves[0]), moves[1..], k)))
  }

  function Dispatches(moves: seq<Move>): nat {
    if moves == [] then 0 else (if moves[0].Dispatch? then 1 else 0) + Dispatches(moves[1..])
  }

  lemma {:induction false} PatienceRunsOut(s: State, moves: seq<Move>, k: Key)
    requires Ticketed(s) && AlwaysPassedOver(s, moves, k)
    ensures Dispatches(moves) <= Patience(s, k)
    decreases |moves|
  {
    if moves != [] {
      var t := Moved(s, moves[0]);
      MoveKeepsTickets(s, moves[0]);
      if moves[0].Dispatch? {
        PassedOver(s, moves[0], k);
      } else {
        assert k in t.pending;
        QuietMove(s, moves[0], k);
        SubsetSize(Ahead(t, k), Ahead(s, k));
      }
      PatienceRunsOut(t, moves[1..], k);
    }
  }

  /** With `m` smaller tickets ahead, a due key is passed over by fewer than `4 * (m + 1)`
      dispatches, so one of the first `4 * (m + 1)` takes it. */
  lemma {:induction false} NoStarvation(s: State, moves: seq<Move>, k: Key)
    requires Ticketed(s) && AlwaysPassedOver(s, moves, k)
    ensures Dispatches(moves) < 4 * (|Ahead(s, k)| + 1)
  {
    PatienceRunsOut(s, moves, k);
  }

  lemma {:induction false} RunKeepsTickets(s: State, moves: seq<Move>)
    requires Ticketed(s)
    requires MovesAllowed(s, moves)
    ensures Ticketed(MovedAll(s, moves))
    decreases |moves|
  {
    if moves != [] {
      MoveKeepsTickets(s, moves[0]);
      RunKeepsTickets(Moved(s, moves[0]), moves[1..]);
    }
  }

  ghost predicate MovesAllowed(s: State, moves: seq<Move>)
    decreases |moves|
  {
    moves == [] || (CanMove(s, moves[0]) && MovesAllowed(Moved(s, moves[0]), moves[1..]))
  }

  ghost function MovedAll(s: State, moves: seq<Move>): State
    requires MovesAllowed(s, moves)
    decreases |moves|
  {
    if moves == [] then s else MovedAll(Moved(s, moves[0]), moves[1..])
  }

  /** The due candidate of a dispatch is unique, so the engine has no choice. */
  lemma {:induction false} PickIsUnique(s: State, activation: string, now: nat, ready: set<string>, policy: Policy, a: Key, b: Key)
    requires Picks(s, activation, now, ready, policy, a) && Picks(s, activation, now, ready, policy, b)
    ensures a == b
  {
    LessTrichotomy(a, b);
  }
}
