/**
 The validator of saved decision attempts, and the retry protocol whose logs it recognises.
 Question contracts, answer payloads and the size measurement are parameters.
 */
module DecisionLog {
  import opened Text

  datatype Answer = Answer(decision: string, attempts: nat, payload: string)

  datatype Outcome =
    | DispatchIntent
    | SafeTransient
    | Unknown
    | Permanent
    | Answered(answer: Answer)

  datatype Attempt = Attempt(decision: string, number: nat)
  datatype Row = Row(attempt: Attempt, outcome: Outcome)

  /** The declared decisions in order, the check of an answer against its declaration, and the
      check that answers with their attempt total stay within the result limits. */
  datatype Contract = Contract(
    declarations: seq<string>,
    requirementsMatch: bool,
    answerMatches: (string, Answer) -> bool,
    fits: (seq<Answer>, nat) -> bool)

  datatype Terminal = UnresolvedIntent | UnknownDelivery | PermanentFailure | AttemptsExhausted

  datatype Progress =
    | Next(attempt: Attempt, unfinished: nat)
    | Complete(answers: seq<Answer>)
    | Stopped(terminal: Terminal)

  datatype Validated = Validated(attempts: nat, state: Progress)

  type Table = map<Attempt, Outcome>

  predicate IsIdentifier(name: string) {
    name != [] && 'a' <= name[0] <= 'z'
    && forall i | 0 < i < |name| :: 'a' <= name[i] <= 'z' || '0' <= name[i] <= '9' || name[i] == '_'
  }

  predicate Distinct(names: seq<string>) {
    forall i, j | 0 <= i < j < |names| :: names[i] != names[j]
  }

  predicate RequirementsOk(c: Contract) {
    (forall name | name in c.declarations :: IsIdentifier(name)) && Distinct(c.declarations) && c.requirementsMatch
  }

  predicate AnswerOk(c: Contract, decision: string, number: nat, answer: Answer) {
    answer.decision == decision && c.answerMatches(decision, answer) && answer.attempts == number
  }

  // ----- the validator

  predicate AttemptOk(c: Contract, attempt: Attempt) {
    IsIdentifier(attempt.decision) && 1 <= attempt.number <= 2 && attempt.decision in c.declarations
  }

  /** Every row names a declared attempt, and no attempt has two rows. */
  predicate RowsOk(c: Contract, rows: seq<Row>) {
    (forall i | 0 <= i < |rows| :: AttemptOk(c, rows[i].attempt))
    && forall i, j | 0 <= i < j < |rows| :: rows[i].attempt != rows[j].attempt
  }

  function TableOf(rows: seq<Row>): Table {
    if rows == [] then map[]
    else TableOf(rows[..|rows| - 1])[rows[|rows| - 1].attempt := rows[|rows| - 1].outcome]
  }

  predicate NoRows(t: Table, decision: string) {
    Attempt(decision, 1) !in t && Attempt(decision, 2) !in t
  }

  predicate NoRowsFrom(c: Contract, t: Table, i: nat) {
    forall j | i <= j < |c.declarations| :: NoRows(t, c.declarations[j])
  }

  /** What the rows of one decision say. */
  datatype Reading = Malformed | Unsent(number: nat) | Latest(number: nat, outcome: Outcome)

  function Read(t: Table, decision: string): Reading {
    var one, two := Attempt(decision, 1), Attempt(decision, 2);
    if one !in t then (if two in t then Malformed else Unsent(1))
    else if t[one].SafeTransient? then (if two in t then Latest(2, t[two]) else Unsent(2))
    else if two in t then Malformed
    else Latest(1, t[one])
  }

  function StopFor(outcome: Outcome): Terminal
    requires !outcome.Answered?
  {
    match outcome
    case DispatchIntent => UnresolvedIntent
    case Unknown => UnknownDelivery
    case Permanent => PermanentFailure
    case SafeTransient => AttemptsExhausted
  }

  /** Reads the declarations from `i` on; `answers` are those of the earlier ones. */
  function Scan(c: Contract, t: Table, i: nat, answers: seq<Answer>): Option<(seq<Answer>, Progress)>
    requires i <= |c.declarations|
    decreases |c.declarations| - i
  {
    if i == |c.declarations| then Some((answers, Complete(answers)))
    else
      var decision := c.declarations[i];
      match Read(t, decision)
      case Malformed => None
      case Unsent(number) =>
        if NoRowsFrom(c, t, i + 1)
        then Some((answers, Next(Attempt(decision, number), |c.declarations| - i))) else None
      case Latest(number, outcome) =>
        if outcome.Answered? then
          if AnswerOk(c, decision, number, outcome.answer) then Scan(c, t, i + 1, answers + [outcome.answer]) else None
        else if NoRowsFrom(c, t, i + 1) then Some((answers, Stopped(StopFor(outcome)))) else None
  }

  function TotalAttempts(answers: seq<Answer>): nat {
    if answers == [] then 0 else TotalAttempts(answers[..|answers| - 1]) + answers[|answers| - 1].attempts
  }

  function Validate(c: Contract, rows: seq<Row>): Option<Validated> {
    if !RequirementsOk(c) || !RowsOk(c, rows) then None
    else
      var scan := Scan(c, TableOf(rows), 0, []);
      if scan.None? || !c.fits(scan.value.0, |rows|) then None
      else if scan.value.1.Complete? && TotalAttempts(scan.value.0) != |rows| then None
      else Some(Validated(|rows|, scan.value.1))
  }

  // ----- the retry protocol

  datatype Phase = Ready | Sent | Halted(terminal: Terminal)

  /** One decision evaluation: the log so far, the current decision, and its next or sent attempt. */
  datatype Session = Session(log: seq<Row>, index: nat, number: nat, phase: Phase)

  const START := Session([], 0, 1, Ready)

  datatype Move = Send | Settle(outcome: Outcome)

  /** A send commits an intent first. A settled intent is replaced by its outcome: an answer moves on
      to the next decision, a first safe failure allows one more attempt, anything else halts. */
  function Play(c: Contract, s: Session, m: Move): Option<Session> {
    if s.index >= |c.declarations| then None
    else
      var decision := c.declarations[s.index];
      var attempt := Attempt(decision, s.number);
      match m
      case Send =>
        if s.phase.Ready? then Some(s.(log := s.log + [Row(attempt, DispatchIntent)], phase := Sent)) else None
      case Settle(outcome) =>
        if !s.phase.Sent? || s.log == [] then None
        else
          var log := s.log[..|s.log| - 1] + [Row(attempt, outcome)];
          match outcome
          case Answered(answer) =>
            if AnswerOk(c, decision, s.number, answer) then Some(Session(log, s.index + 1, 1, Ready)) else None
          case SafeTransient =>
            Some(if s.number == 1 then Session(log, s.index, 2, Ready)
                 else Session(log, s.index, s.number, Halted(AttemptsExhausted)))
          case Unknown => Some(Session(log, s.index, s.number, Halted(UnknownDelivery)))
          case Permanent => Some(Session(log, s.index, s.number, Halted(PermanentFailure)))
          case DispatchIntent => None
  }

  function PlayAll(c: Contract, s: Session, moves: seq<Move>): Option<Session>
    decreases |moves|
  {
    if moves == [] then Some(s)
    else
      var next := Play(c, s, moves[0]);
      if next.None? then None else PlayAll(c, next.value, moves[1..])
  }

  ghost predicate Reachable(c: Contract, s: Session) {
    exists moves :: PlayAll(c, START, moves) == Some(s)
  }

  /** What the evaluator may do next in a session. */
  function ProgressOf(c: Contract, s: Session): Progress {
    if s.index >= |c.declarations| then Complete(AnswersOf(s.log))
    else if s.phase.Ready? then Next(Attempt(c.declarations[s.index], s.number), |c.declarations| - s.index)
    else if s.phase.Sent? then Stopped(UnresolvedIntent)
    else Stopped(s.phase.terminal)
  }

  function AnswersOf(log: seq<Row>): seq<Answer> {
    if log == [] then []
    else AnswersOf(log[..|log| - 1])
         + if log[|log| - 1].outcome.Answered? then [log[|log| - 1].outcome.answer] else []
  }
}
