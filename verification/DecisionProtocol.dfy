/** The validator accepts exactly the logs that the retry protocol can produce. */
module DecisionProtocol {
  import opened Text
  import opened DecisionLog

  // ----- tables

  lemma {:induction false} TableOfSpec(c: Contract, rows: seq<Row>)
    requires RowsOk(c, rows)
    ensures forall i | 0 <= i < |rows| :: rows[i].attempt in TableOf(rows) && TableOf(rows)[rows[i].attempt] == rows[i].outcome
    ensures forall a | a in TableOf(rows) :: exists i :: 0 <= i < |rows| && rows[i].attempt == a
    ensures forall a | a in TableOf(rows) :: AttemptOk(c, a)
    decreases |rows|
  {
    if rows != [] {
      var front := rows[..|rows| - 1];
      TableOfSpec(c, front);
      forall a | a in TableOf(rows)
        ensures exists i :: 0 <= i < |rows| && rows[i].attempt == a
      {
        if a in TableOf(front) {
          var i :| 0 <= i < |front| && front[i].attempt == a;
          assert rows[i].attempt == a;
        } else {
          assert rows[|rows| - 1].attempt == a;
        }
      }
    }
  }

  lemma {:induction false} AppendRow(rows: seq<Row>, row: Row)
    ensures TableOf(rows + [row]) == TableOf(rows)[row.attempt := row.outcome]
  {
    assert (rows + [row])[..|rows|] == rows;
  }

  lemma {:induction false} ReplaceLastRow(rows: seq<Row>, outcome: Outcome)
    requires rows != []
    ensures var last := rows[|rows| - 1];
      TableOf(rows[..|rows| - 1] + [Row(last.attempt, outcome)]) == TableOf(rows)[last.attempt := outcome]
  {
    AppendRow(rows[..|rows| - 1], Row(rows[|rows| - 1].attempt, outcome));
  }

  lemma {:induction false} DistinctCounts(c: Contract, rows: seq<Row>, row: Row)
    requires RowsOk(c, rows)
    ensures multiset(rows)[row] == if row in rows then 1 else 0
    decreases |rows|
  {
    if rows != [] {
      var front := rows[..|rows| - 1];
      DistinctCounts(c, front, row);
      assert rows == front + [rows[|rows| - 1]];
      if row == rows[|rows| - 1] {
        assert row !in front;
      }
    }
  }

  /** Two logs with distinct attempts have the same rows exactly when they have the same table. */
  lemma {:induction false} SameTableSameRows(c: Contract, rows: seq<Row>, log: seq<Row>)
    requires RowsOk(c, rows) && RowsOk(c, log) && TableOf(rows) == TableOf(log)
    ensures multiset(rows) == multiset(log)
  {
    TableOfSpec(c, rows);
    TableOfSpec(c, log);
    forall row: Row
      ensures multiset(rows)[row] == multiset(log)[row]
    {
      DistinctCounts(c, rows, row);
      DistinctCounts(c, log, row);
      InTable(c, rows, row);
      InTable(c, log, row);
    }
  }

  lemma {:induction false} InTable(c: Contract, rows: seq<Row>, row: Row)
    requires RowsOk(c, rows)
    ensures row in rows <==> row.attempt in TableOf(rows) && TableOf(rows)[row.attempt] == row.outcome
  {
    TableOfSpec(c, rows);
    if row.attempt in TableOf(rows) && TableOf(rows)[row.attempt] == row.outcome {
      var i :| 0 <= i < |rows| && rows[i].attempt == row.attempt;
      assert rows[i] == row;
    }
  }

  lemma {:induction false} SameRowsSameTable(c: Contract, rows: seq<Row>, log: seq<Row>)
    requires RowsOk(c, log) && multiset(rows) == multiset(log)
    ensures RowsOk(c, rows) && TableOf(rows) == TableOf(log) && |rows| == |log|
  {
    assert |multiset(rows)| == |rows| && |multiset(log)| == |log|;
    forall row: Row
      ensures row in rows <==> row in log
    {
      assert row in rows <==> row in multiset(rows);
      assert row in log <==> row in multiset(log);
    }
    forall i | 0 <= i < |rows|
      ensures AttemptOk(c, rows[i].attempt)
    {
      assert rows[i] in log;
    }
    forall i, j | 0 <= i < j < |rows|
      ensures rows[i].attempt != rows[j].attempt
    {
      if rows[i].attempt == rows[j].attempt {
        assert rows[i] in log && rows[j] in log;
        InTable(c, log, rows[i]);
        InTable(c, log, rows[j]);
        assert rows[i] == rows[j];
        DistinctCounts(c, log, rows[i]);
        TwoOccurrences(rows, i, j);
      }
    }
    forall a | a in TableOf(rows) || a in TableOf(log)
      ensures a in TableOf(rows) && a in TableOf(log) && TableOf(rows)[a] == TableOf(log)[a]
    {
      TableOfSpec(c, rows);
      TableOfSpec(c, log);
      if a in TableOf(rows) {
        InTable(c, rows, Row(a, TableOf(rows)[a]));
        InTable(c, log, Row(a, TableOf(rows)[a]));
      } else {
        InTable(c, log, Row(a, TableOf(log)[a]));
        InTable(c, rows, Row(a, TableOf(log)[a]));
      }
    }
  }

  lemma {:induction false} TwoOccurrences(rows: seq<Row>, i: nat, j: nat)
    requires i < j < |rows| && rows[i] == rows[j]
    ensures multiset(rows)[rows[i]] >= 2
  {
    assert rows == rows[..i] + [rows[i]] + rows[i + 1..j] + [rows[j]] + rows[j + 1..];
  }

  // ----- sessions

  predicate BlockAnswered(c: Contract, t: Table, decision: string) {
    var r := Read(t, decision);
    r.Latest? && r.outcome.Answered? && AnswerOk(c, decision, r.number, r.outcome.answer)
  }

  /** The answers of the first `i` declarations, in declared order. */
  function AnswersUpTo(c: Contract, t: Table, i: nat): seq<Answer>
    requires i <= |c.declarations|
    requires forall j | 0 <= j < i :: BlockAnswered(c, t, c.declarations[j])
  {
    if i == 0 then []
    else
      assert BlockAnswered(c, t, c.declarations[i - 1]);
      AnswersUpTo(c, t, i - 1) + [Read(t, c.declarations[i - 1]).outcome.answer]
  }

  ghost predicate CurrentOk(c: Contract, s: Session, t: Table)
    requires s.index < |c.declarations|
  {
    var decision := c.declarations[s.index];
    match s.phase
    case Ready => Read(t, decision) == Unsent(s.number)
    case Sent =>
      Read(t, decision) == Latest(s.number, DispatchIntent)
      && s.log != [] && s.log[|s.log| - 1] == Row(Attempt(decision, s.number), DispatchIntent)
    case Halted(terminal) =>
      var r := Read(t, decision);
      r.Latest? && r.number == s.number && !r.outcome.Answered? && StopFor(r.outcome) == terminal
      && terminal != UnresolvedIntent
  }

  ghost predicate SessionOk(c: Contract, s: Session) {
    var t := TableOf(s.log);
    s.index <= |c.declarations| && 1 <= s.number <= 2 && RowsOk(c, s.log)
    && (forall j | 0 <= j < s.index :: BlockAnswered(c, t, c.declarations[j]))
    && NoRowsFrom(c, t, s.index + 1)
    && (if s.index < |c.declarations| then CurrentOk(c, s, t) else s.phase.Ready? && s.number == 1)
    && AnswersOf(s.log) == AnswersUpTo(c, t, s.index)
    && |s.log| == TotalAttempts(AnswersOf(s.log)) + if s.phase.Ready? then s.number - 1 else s.number
  }

  lemma {:induction false} StartOk(c: Contract)
    requires RequirementsOk(c)
    ensures SessionOk(c, START)
  {
    assert TableOf(START.log) == map[];
    assert AnswersOf(START.log) == [];
  }

  lemma {:induction false} OtherReads(c: Contract, t: Table, attempt: Attempt, outcome: Outcome, decision: string)
    requires attempt.decision != decision
    ensures Read(t[attempt := outcome], decision) == Read(t, decision)
    ensures NoRows(t[attempt := outcome], decision) == NoRows(t, decision)
  {
  }

  lemma {:induction false} AnswersAgree(c: Contract, t: Table, u: Table, i: nat)
    requires i <= |c.declarations|
    requires forall j | 0 <= j < i :: BlockAnswered(c, t, c.declarations[j])
    requires forall j | 0 <= j < i :: Read(u, c.declarations[j]) == Read(t, c.declarations[j])
    ensures forall j | 0 <= j < i :: BlockAnswered(c, u, c.declarations[j])
    ensures AnswersUpTo(c, u, i) == AnswersUpTo(c, t, i)
  {
    assert forall j | 0 <= j < i :: BlockAnswered(c, u, c.declarations[j]) by {
      forall j | 0 <= j < i ensures BlockAnswered(c, u, c.declarations[j]) {
        assert BlockAnswered(c, t, c.declarations[j]);
      }
    }
    if i > 0 { AnswersAgree(c, t, u, i - 1); }
  }

  /** Writing one row of the current decision leaves every other decision as it was. */
  lemma {:induction false} CurrentWrite(c: Contract, s: Session, t: Table, u: Table, number: nat, outcome: Outcome)
    requires RequirementsOk(c) && SessionOk(c, s) && t == TableOf(s.log) && s.index < |c.declarations|
    requires u == t[Attempt(c.declarations[s.index], number) := outcome]
    ensures forall j | 0 <= j < s.index :: BlockAnswered(c, u, c.declarations[j])
    ensures AnswersUpTo(c, u, s.index) == AnswersUpTo(c, t, s.index)
    ensures NoRowsFrom(c, u, s.index + 1)
  {
    forall j | 0 <= j < |c.declarations| && j != s.index
      ensures Read(u, c.declarations[j]) == Read(t, c.declarations[j])
      ensures NoRows(u, c.declarations[j]) == NoRows(t, c.declarations[j])
    {
      assert c.declarations[j] != c.declarations[s.index];
      OtherReads(c, t, Attempt(c.declarations[s.index], number), outcome, c.declarations[j]);
    }
    AnswersAgree(c, t, u, s.index);
  }

  lemma {:induction false} AppendRowsOk(c: Contract, log: seq<Row>, row: Row)
    requires RowsOk(c, log) && AttemptOk(c, row.attempt) && row.attempt !in TableOf(log)
    ensures RowsOk(c, log + [row])
  {
    TableOfSpec(c, log);
  }

  lemma {:induction false} ReplaceRowsOk(c: Contract, log: seq<Row>, outcome: Outcome)
    requires RowsOk(c, log) && log != []
    ensures RowsOk(c, log[..|log| - 1] + [Row(log[|log| - 1].attempt, outcome)])
  {
  }

  /** A session whose log extends or corrects that of `s` in its current decision. */
  lemma {:induction false} Assemble(c: Contract, s: Session, n: Session, number: nat, outcome: Outcome)
    requires RequirementsOk(c) && SessionOk(c, s) && s.index < |c.declarations|
    requires n.index == s.index && 1 <= n.number <= 2
    requires TableOf(n.log) == TableOf(s.log)[Attempt(c.declarations[s.index], number) := outcome]
    requires RowsOk(c, n.log) && CurrentOk(c, n, TableOf(n.log))
    requires AnswersOf(n.log) == AnswersOf(s.log)
    requires |n.log| == TotalAttempts(AnswersOf(n.log)) + if n.phase.Ready? then n.number - 1 else n.number
    ensures SessionOk(c, n)
  {
    CurrentWrite(c, s, TableOf(s.log), TableOf(n.log), number, outcome);
  }

  lemma {:induction false} SendOk(c: Contract, s: Session)
    requires RequirementsOk(c) && SessionOk(c, s) && Play(c, s, Send).Some?
    ensures SessionOk(c, Play(c, s, Send).value)
  {
    var decision := c.declarations[s.index];
    var row := Row(Attempt(decision, s.number), DispatchIntent);
    var n := Play(c, s, Send).value;
    SendRows(c, s, decision, row);
    SendAnswers(s.log, row);
    Assemble(c, s, n, s.number, DispatchIntent);
  }

  lemma {:induction false} SendRows(c: Contract, s: Session, decision: string, row: Row)
    requires RequirementsOk(c) && RowsOk(c, s.log) && decision in c.declarations && 1 <= s.number <= 2
    requires row == Row(Attempt(decision, s.number), DispatchIntent) && Read(TableOf(s.log), decision) == Unsent(s.number)
    ensures RowsOk(c, s.log + [row]) && TableOf(s.log + [row]) == TableOf(s.log)[row.attempt := DispatchIntent]
    ensures Read(TableOf(s.log + [row]), decision) == Latest(s.number, DispatchIntent)
  {
    AppendRow(s.log, row);
    AppendRowsOk(c, s.log, row);
  }

  lemma {:induction false} SendAnswers(log: seq<Row>, row: Row)
    requires row.outcome.DispatchIntent?
    ensures AnswersOf(log + [row]) == AnswersOf(log)
  {
    assert (log + [row])[..|log|] == log;
  }

  lemma {:induction false} SettleOk(c: Contract, s: Session, outcome: Outcome)
    requires RequirementsOk(c) && SessionOk(c, s) && Play(c, s, Settle(outcome)).Some?
    ensures SessionOk(c, Play(c, s, Settle(outcome)).value)
  {
    var decision := c.declarations[s.index];
    var n := Play(c, s, Settle(outcome)).value;
    assert CurrentOk(c, s, TableOf(s.log));
    SettleRows(c, s, decision, outcome);
    SettledAnswers(c, s, n, outcome);
    if outcome.Answered? {
      AssembleAnswered(c, s, n, outcome.answer);
    } else {
      Assemble(c, s, n, s.number, outcome);
    }
  }

  lemma {:induction false} SettleRows(c: Contract, s: Session, decision: string, outcome: Outcome)
    requires RowsOk(c, s.log) && s.log != [] && s.log[|s.log| - 1] == Row(Attempt(decision, s.number), DispatchIntent)
    requires Read(TableOf(s.log), decision) == Latest(s.number, DispatchIntent)
    ensures var log := s.log[..|s.log| - 1] + [Row(Attempt(decision, s.number), outcome)];
      RowsOk(c, log) && TableOf(log) == TableOf(s.log)[Attempt(decision, s.number) := outcome]
      && Read(TableOf(log), decision) == if s.number == 1 && outcome.SafeTransient? then Unsent(2) else Latest(s.number, outcome)
  {
    ReplaceLastRow(s.log, outcome);
    ReplaceRowsOk(c, s.log, outcome);
  }

  lemma {:induction false} AssembleAnswered(c: Contract, s: Session, n: Session, answer: Answer)
    requires RequirementsOk(c) && SessionOk(c, s) && s.index < |c.declarations|
    requires n.index == s.index + 1 && n.phase.Ready? && n.number == 1
    requires TableOf(n.log) == TableOf(s.log)[Attempt(c.declarations[s.index], s.number) := Answered(answer)]
    requires RowsOk(c, n.log) && Read(TableOf(n.log), c.declarations[s.index]) == Latest(s.number, Answered(answer))
    requires AnswerOk(c, c.declarations[s.index], s.number, answer)
    requires AnswersOf(n.log) == AnswersOf(s.log) + [answer]
    requires |n.log| == TotalAttempts(AnswersOf(n.log))
    ensures SessionOk(c, n)
  {
    CurrentWrite(c, s, TableOf(s.log), TableOf(n.log), s.number, Answered(answer));
    SettledForward(c, s, n, TableOf(n.log), answer);
  }

  /** An accepted answer opens the next decision, which has no rows yet. */
  lemma {:induction false} SettledForward(c: Contract, s: Session, n: Session, u: Table, answer: Answer)
    requires RequirementsOk(c) && s.index < |c.declarations| && n.index == s.index + 1 && n.phase.Ready? && n.number == 1
    requires forall j | 0 <= j < s.index :: BlockAnswered(c, u, c.declarations[j])
    requires NoRowsFrom(c, u, s.index + 1)
    requires Read(u, c.declarations[s.index]) == Latest(s.number, Answered(answer))
    requires AnswerOk(c, c.declarations[s.index], s.number, answer)
    ensures forall j | 0 <= j < n.index :: BlockAnswered(c, u, c.declarations[j])
    ensures AnswersUpTo(c, u, n.index) == AnswersUpTo(c, u, s.index) + [answer]
    ensures NoRowsFrom(c, u, n.index + 1)
    ensures n.index < |c.declarations| ==> CurrentOk(c, n, u)
  {
    assert BlockAnswered(c, u, c.declarations[s.index]);
    if n.index < |c.declarations| { assert NoRows(u, c.declarations[n.index]); }
  }

  lemma {:induction false} SettledAnswers(c: Contract, s: Session, n: Session, outcome: Outcome)
    requires RequirementsOk(c) && SessionOk(c, s) && Play(c, s, Settle(outcome)) == Some(n)
    ensures AnswersOf(n.log) == AnswersOf(s.log) + if outcome.Answered? then [outcome.answer] else []
    ensures |n.log| == TotalAttempts(AnswersOf(n.log)) + if n.phase.Ready? then n.number - 1 else n.number
  {
    assert n.log[..|s.log| - 1] == s.log[..|s.log| - 1];
    var answers := AnswersOf(s.log);
    assert AnswersOf(s.log) == AnswersOf(s.log[..|s.log| - 1]);
    if outcome.Answered? {
      assert (answers + [outcome.answer])[..|answers|] == answers;
    }
  }

  lemma {:induction false} PlayedOk(c: Contract, s: Session, moves: seq<Move>)
    requires RequirementsOk(c) && SessionOk(c, s) && PlayAll(c, s, moves).Some?
    ensures SessionOk(c, PlayAll(c, s, moves).value)
    decreases |moves|
  {
    if moves != [] {
      if moves[0].Send? { SendOk(c, s); } else { SettleOk(c, s, moves[0].outcome); }
      PlayedOk(c, Play(c, s, moves[0]).value, moves[1..]);
    }
  }

  /** On the log of a session the scan reads the answers and the progress of that session. */
  lemma {:induction false} ScanReadsSession(c: Contract, s: Session, i: nat)
    requires RequirementsOk(c) && SessionOk(c, s) && i <= s.index
    ensures Scan(c, TableOf(s.log), i, AnswersUpTo(c, TableOf(s.log), i)) == Some((AnswersOf(s.log), ProgressOf(c, s)))
    decreases s.index - i
  {
    if i < s.index {
      ScanReadsSession(c, s, i + 1);
      ScanReadsBlock(c, TableOf(s.log), i, s.index);
    } else {
      ScanReadsEnd(c, s);
    }
  }

  lemma {:induction false} ScanReadsBlock(c: Contract, t: Table, i: nat, index: nat)
    requires i < index <= |c.declarations| && forall j | 0 <= j < index :: BlockAnswered(c, t, c.declarations[j])
    ensures Scan(c, t, i, AnswersUpTo(c, t, i)) == Scan(c, t, i + 1, AnswersUpTo(c, t, i + 1))
  {
    assert BlockAnswered(c, t, c.declarations[i]);
  }

  lemma {:induction false} ScanReadsEnd(c: Contract, s: Session)
    requires RequirementsOk(c) && SessionOk(c, s)
    ensures Scan(c, TableOf(s.log), s.index, AnswersUpTo(c, TableOf(s.log), s.index)) == Some((AnswersOf(s.log), ProgressOf(c, s)))
  {}

  // ----- every accepted log has a session

  lemma {:induction false} PlayAllSplits(c: Contract, s: Session, first: seq<Move>, second: seq<Move>)
    requires PlayAll(c, s, first).Some?
    ensures PlayAll(c, s, first + second) == PlayAll(c, PlayAll(c, s, first).value, second)
    decreases |first|
  {
    if first == [] {
      assert first + second == second;
    } else {
      assert (first + second)[1..] == first[1..] + second;
      PlayAllSplits(c, Play(c, s, first[0]).value, first[1..], second);
    }
  }

  lemma {:induction false} ReachNext(c: Contract, s: Session, m: Move)
    requires Reachable(c, s) && Play(c, s, m).Some?
    ensures Reachable(c, Play(c, s, m).value)
  {
    var moves :| PlayAll(c, START, moves) == Some(s);
    PlayAllSplits(c, START, moves, [m]);
    assert [m][1..] == [];
    assert PlayAll(c, START, moves + [m]) == Some(Play(c, s, m).value);
  }

  lemma {:induction false} ReachableOk(c: Contract, s: Session)
    requires RequirementsOk(c) && Reachable(c, s)
    ensures SessionOk(c, s)
  {
    var moves :| PlayAll(c, START, moves) == Some(s);
    StartOk(c);
    PlayedOk(c, START, moves);
  }

  /** The rows of the first `i` declarations. */
  function UpTo(c: Contract, t: Table, i: nat): Table
    requires i <= |c.declarations|
  {
    map a | a in t && a.decision in c.declarations[..i] :: t[a]
  }

  ghost predicate Declared(c: Contract, t: Table) {
    forall a | a in t :: a.decision in c.declarations && 1 <= a.number <= 2
  }

  /** One more declaration adds the rows that `Read` looks at. */
  lemma {:induction false} UpToNext(c: Contract, t: Table, i: nat)
    requires i < |c.declarations| && Declared(c, t)
    ensures forall a :: a in UpTo(c, t, i + 1)
              <==> a in UpTo(c, t, i) || (a in t && (a == Attempt(c.declarations[i], 1) || a == Attempt(c.declarations[i], 2)))
    ensures forall a | a in UpTo(c, t, i + 1) :: UpTo(c, t, i + 1)[a] == t[a]
  {
    assert c.declarations[..i + 1] == c.declarations[..i] + [c.declarations[i]];
    forall a | a in t && a.decision == c.declarations[i]
      ensures a == Attempt(c.declarations[i], 1) || a == Attempt(c.declarations[i], 2)
    {
      assert 1 <= a.number <= 2;
    }
  }

  lemma {:induction false} RestIsEmpty(c: Contract, t: Table, i: nat)
    requires i <= |c.declarations| && Declared(c, t) && NoRowsFrom(c, t, i)
    ensures UpTo(c, t, i) == t
  {
    forall a | a in t
      ensures a.decision in c.declarations[..i]
    {
      var j :| 0 <= j < |c.declarations| && c.declarations[j] == a.decision;
      assert !NoRows(t, c.declarations[j]);
      assert c.declarations[..i][j] == a.decision;
    }
  }

  /** A session at the start of decision `i`, with the rows of all earlier ones. */
  ghost predicate At(c: Contract, t: Table, s: Session, i: nat) {
    i <= |c.declarations| && Reachable(c, s) && s.index == i && s.number == 1 && s.phase.Ready?
    && TableOf(s.log) == UpTo(c, t, i)
  }

  /** Sends one attempt in a reachable session. */
  lemma {:induction false} Sending(c: Contract, s: Session) returns (sent: Session)
    requires Reachable(c, s) && s.index < |c.declarations| && s.phase.Ready?
    ensures Reachable(c, sent) && sent.index == s.index && sent.number == s.number && sent.phase.Sent?
    ensures sent.log != [] && sent.log[..|sent.log| - 1] == s.log
    ensures TableOf(sent.log) == TableOf(s.log)[Attempt(c.declarations[s.index], s.number) := DispatchIntent]
  {
    var row := Row(Attempt(c.declarations[s.index], s.number), DispatchIntent);
    sent := s.(log := s.log + [row], phase := Sent);
    assert Play(c, s, Send) == Some(sent);
    ReachNext(c, s, Send);
    AppendRow(s.log, row);
    assert sent.log[..|sent.log| - 1] == s.log;
  }

  /** Settles the attempt that was sent last; `before` is the log without it. */
  lemma {:induction false} Settling(c: Contract, sent: Session, before: seq<Row>, outcome: Outcome) returns (n: Session)
    requires Reachable(c, sent) && sent.index < |c.declarations| && sent.phase.Sent?
    requires sent.log != [] && sent.log[..|sent.log| - 1] == before && !outcome.DispatchIntent?
    requires outcome.Answered? ==> AnswerOk(c, c.declarations[sent.index], sent.number, outcome.answer)
    ensures Reachable(c, n)
    ensures TableOf(n.log) == TableOf(before)[Attempt(c.declarations[sent.index], sent.number) := outcome]
    ensures outcome.Answered? ==> n.index == sent.index + 1 && n.number == 1 && n.phase.Ready?
    ensures outcome.SafeTransient? && sent.number == 1 ==> n.index == sent.index && n.number == 2 && n.phase.Ready?
  {
    var row := Row(Attempt(c.declarations[sent.index], sent.number), outcome);
    assert Play(c, sent, Settle(outcome)).Some? && Play(c, sent, Settle(outcome)).value.log == before + [row];
    ReachNext(c, sent, Settle(outcome));
    n := Play(c, sent, Settle(outcome)).value;
    AppendRow(before, row);
  }

  /** Sends one attempt and settles it, in a reachable session. */
  lemma {:induction false} Attempted(c: Contract, s: Session, outcome: Outcome) returns (n: Session)
    requires Reachable(c, s) && s.index < |c.declarations| && s.phase.Ready?
    requires outcome.Answered? ==> AnswerOk(c, c.declarations[s.index], s.number, outcome.answer)
    ensures Reachable(c, n)
    ensures TableOf(n.log) == TableOf(s.log)[Attempt(c.declarations[s.index], s.number) := outcome]
    ensures outcome.DispatchIntent? ==> n.index == s.index
    ensures outcome.Answered? ==> n.index == s.index + 1 && n.number == 1 && n.phase.Ready?
    ensures outcome.SafeTransient? && s.number == 1 ==> n.index == s.index && n.number == 2 && n.phase.Ready?
  {
    n := Sending(c, s);
    if !outcome.DispatchIntent? { n := Settling(c, n, s.log, outcome); }
  }

  /** Plays the rows of decision `i` that `t` holds. */
  lemma {:induction false} RebuildOne(c: Contract, t: Table, s: Session, i: nat) returns (n: Session)
    requires RequirementsOk(c) && Declared(c, t) && At(c, t, s, i) && i < |c.declarations|
    requires !Read(t, c.declarations[i]).Malformed?
    requires var r := Read(t, c.declarations[i]);
      r.Latest? && r.outcome.Answered? ==> AnswerOk(c, c.declarations[i], r.number, r.outcome.answer)
    ensures Reachable(c, n) && TableOf(n.log) == UpTo(c, t, i + 1)
    ensures var r := Read(t, c.declarations[i]);
      r.Latest? && r.outcome.Answered? ==> n.index == i + 1 && n.number == 1 && n.phase.Ready?
  {
    var r := Read(t, c.declarations[i]);
    UpToWrites(c, t, i);
    n := s;
    if r.number == 2 {
      n := Attempted(c, n, SafeTransient);
    }
    if r.Latest? {
      n := Attempted(c, n, r.outcome);
    }
  }

  /** The rows of one declaration as the writes of its attempts. */
  lemma {:induction false} UpToWrites(c: Contract, t: Table, i: nat)
    requires RequirementsOk(c) && Declared(c, t) && i < |c.declarations|
    requires !Read(t, c.declarations[i]).Malformed?
    ensures var one, two := Attempt(c.declarations[i], 1), Attempt(c.declarations[i], 2);
      var r, before := Read(t, c.declarations[i]), UpTo(c, t, i);
      var first := if r.number == 2 then before[one := SafeTransient] else before;
      UpTo(c, t, i + 1)
      == if r.Unsent? then first else first[(if r.number == 2 then two else one) := r.outcome]
  {
    UpToNext(c, t, i);
    NotYet(c, t, i);
  }

  /** A log that the scan accepts from decision `i` on is the log of a reachable session. */
  lemma {:induction false} Rebuild(c: Contract, t: Table, s: Session, i: nat, answers: seq<Answer>) returns (n: Session)
    requires RequirementsOk(c) && Declared(c, t) && At(c, t, s, i)
    requires Scan(c, t, i, answers).Some?
    ensures Reachable(c, n) && TableOf(n.log) == t
    decreases |c.declarations| - i
  {
    if i == |c.declarations| {
      RestIsEmpty(c, t, i);
      n := s;
    } else {
      var r := Read(t, c.declarations[i]);
      n := RebuildOne(c, t, s, i);
      if r.Latest? && r.outcome.Answered? {
        n := Rebuild(c, t, n, i + 1, answers + [r.outcome.answer]);
      } else {
        RestIsEmpty(c, t, i + 1);
      }
    }
  }

  lemma {:induction false} NotYet(c: Contract, t: Table, i: nat)
    requires RequirementsOk(c) && i < |c.declarations|
    ensures NoRows(UpTo(c, t, i), c.declarations[i])
  {
    assert forall j | 0 <= j < i :: c.declarations[j] != c.declarations[i];
  }

  /** A session whose log holds the given rows, in the order the protocol wrote them. */
  ghost predicate Produces(c: Contract, s: Session, rows: seq<Row>) {
    Reachable(c, s) && multiset(rows) == multiset(s.log)
  }

  /** On the rows of a session, in any order, the validator answers with the session's progress, and
      its check of the attempt total cannot fail. */
  lemma {:induction false} ValidatesSession(c: Contract, rows: seq<Row>, s: Session)
    requires RequirementsOk(c) && Produces(c, s, rows)
    ensures Validate(c, rows)
         == if c.fits(AnswersOf(s.log), |rows|) then Some(Validated(|s.log|, ProgressOf(c, s))) else None
    ensures ProgressOf(c, s).Complete? ==> TotalAttempts(AnswersOf(s.log)) == |rows|
  {
    ReachableOk(c, s);
    SameRowsSameTable(c, rows, s.log);
    ScanReadsSession(c, s, 0);
  }

  /** The validator accepts a log, up to row order and within the size limit, exactly when the
      retry protocol can produce it. */
  lemma {:induction false} AcceptsExactlyProtocolLogs(c: Contract, rows: seq<Row>)
    requires RequirementsOk(c)
    ensures Validate(c, rows).Some?
        <==> exists s :: Produces(c, s, rows) && c.fits(AnswersOf(s.log), |rows|)
  {
    if Validate(c, rows).Some? {
      var t := TableOf(rows);
      TableOfSpec(c, rows);
      assert PlayAll(c, START, []) == Some(START);
      assert TableOf(START.log) == map[] == UpTo(c, t, 0);
      var s := Rebuild(c, t, START, 0, []);
      ReachableOk(c, s);
      SameTableSameRows(c, rows, s.log);
      ValidatesSession(c, rows, s);
      assert Produces(c, s, rows) && c.fits(AnswersOf(s.log), |rows|);
    }
    forall s | Produces(c, s, rows) && c.fits(AnswersOf(s.log), |rows|)
      ensures Validate(c, rows).Some?
    {
      ValidatesSession(c, rows, s);
    }
  }

  /** What an offered attempt rules out: any uncertain or final failure so far, an attempt that was
      already sent, a third attempt, and a second one without a first safe failure. */
  lemma {:induction false} NoResendAfterUncertainty(c: Contract, rows: seq<Row>)
    requires Validate(c, rows).Some? && Validate(c, rows).value.state.Next?
    ensures var offer := Validate(c, rows).value.state.attempt;
      1 <= offer.number <= 2
      && (forall row | row in rows :: row.attempt != offer && (row.outcome.Answered? || row.outcome.SafeTransient?))
      && (offer.number == 2 <==> Row(Attempt(offer.decision, 1), SafeTransient) in rows)
  {
    TableOfSpec(c, rows);
    NextMeansQuiet(c, TableOf(rows), 0, []);
    var offer := Validate(c, rows).value.state.attempt;
    forall row | row in rows
      ensures row.attempt != offer && (row.outcome.Answered? || row.outcome.SafeTransient?)
    {
      var j :| 0 <= j < |c.declarations| && c.declarations[j] == row.attempt.decision;
      InTable(c, rows, row);
    }
    InTable(c, rows, Row(Attempt(offer.decision, 1), SafeTransient));
  }

  lemma {:induction false} NextMeansQuiet(c: Contract, t: Table, i: nat, answers: seq<Answer>)
    requires i <= |c.declarations| && Declared(c, t)
    requires Scan(c, t, i, answers).Some? && Scan(c, t, i, answers).value.1.Next?
    ensures var offer := Scan(c, t, i, answers).value.1.attempt;
      offer !in t && 1 <= offer.number <= 2
      && (offer.number == 2 <==> Attempt(offer.decision, 1) in t && t[Attempt(offer.decision, 1)].SafeTransient?)
      && (forall j, n | i <= j < |c.declarations| && 1 <= n <= 2 && Attempt(c.declarations[j], n) in t ::
            t[Attempt(c.declarations[j], n)].Answered? || t[Attempt(c.declarations[j], n)].SafeTransient?)
    decreases |c.declarations| - i
  {
    var r := Read(t, c.declarations[i]);
    if r.Latest? {
      NextMeansQuiet(c, t, i + 1, answers + [r.outcome.answer]);
    } else {
      forall j, n | i < j < |c.declarations| && 1 <= n <= 2
        ensures Attempt(c.declarations[j], n) !in t
      {
        assert NoRows(t, c.declarations[j]);
      }
    }
  }

  // ----- what acceptance says of the contract

  const LETTERS := "abcdefghijklmnopqrstuvwxyz"

  /** A lower-case letter, then lower-case letters, digits and underscores. */
  predicate Named(name: string) {
    name != "" && name[0] in LETTERS && forall i | 1 <= i < |name| :: name[i] in LETTERS + DIGITS + "_"
  }

  lemma {:induction false} LettersExactly(c: char)
    ensures c in LETTERS <==> 'a' <= c <= 'z'
  {
    if 'a' <= c <= 'z' { assert LETTERS[c as int - 'a' as int] == c; }
  }

  lemma {:induction false} DigitsExactly(c: char)
    ensures c in DIGITS <==> '0' <= c <= '9'
  {
    if '0' <= c <= '9' { assert DIGITS[c as int - '0' as int] == c; }
  }

  lemma {:induction false} NamesExactly(name: string)
    ensures IsIdentifier(name) <==> Named(name)
  {
    forall i | 0 <= i < |name|
      ensures name[i] in LETTERS <==> 'a' <= name[i] <= 'z'
      ensures name[i] in LETTERS + DIGITS + "_" <==> 'a' <= name[i] <= 'z' || '0' <= name[i] <= '9' || name[i] == '_'
    {
      LettersExactly(name[i]);
      DigitsExactly(name[i]);
      assert name[i] in LETTERS + DIGITS + "_" <==> name[i] in LETTERS || name[i] in DIGITS || name[i] == '_';
    }
  }

  /** Nothing is accepted unless the declared names are distinct identifiers, the declarations match their
      requirements, and the answers with the number of attempts fit the limits. */
  lemma {:induction false} AcceptedContract(c: Contract, rows: seq<Row>)
    requires Validate(c, rows).Some?
    ensures c.requirementsMatch && (forall name | name in c.declarations :: Named(name))
    ensures forall i, j | 0 <= i < j < |c.declarations| :: c.declarations[i] != c.declarations[j]
    ensures Validate(c, rows).value.attempts == |rows|
    ensures exists answers ::
      c.fits(answers, |rows|) && (Validate(c, rows).value.state.Complete? ==> Validate(c, rows).value.state.answers == answers)
  {
    forall name | name in c.declarations ensures Named(name) { NamesExactly(name); }
    assert c.fits(Scan(c, TableOf(rows), 0, []).value.0, |rows|);
    ScanCompletes(c, TableOf(rows), 0, []);
  }

  lemma {:induction false} ScanCompletes(c: Contract, t: Table, i: nat, answers: seq<Answer>)
    requires i <= |c.declarations|
    ensures var scan := Scan(c, t, i, answers); scan.Some? && scan.value.1.Complete? ==> scan.value.1.answers == scan.value.0
    decreases |c.declarations| - i
  {
    if i < |c.declarations| {
      var r := Read(t, c.declarations[i]);
      if r.Latest? && r.outcome.Answered? { ScanCompletes(c, t, i + 1, answers + [r.outcome.answer]); }
    }
  }
}
