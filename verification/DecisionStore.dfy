/** The validator as it runs over saved rows, proved against module DecisionLog. */
module DecisionStore {
  import opened Text
  import opened DecisionLog
  import opened DecisionProtocol

  /** Collects the rows by attempt, reads them in declared order, then checks the totals. */
  method ValidateDecisionProgress(c: Contract, saved: seq<Row>) returns (result: Option<Validated>)
    ensures result == Validate(c, saved)
  {
    if !RequirementsOk(c) { return None; }
    var table := CollectRows(c, saved);
    if table.None? { return None; }
    var attempts := |table.value|;
    TableOfSpec(c, saved);
    var scan := TakeRows(c, table.value);
    if scan.None? { return None; }
    var (answers, state) := scan.value;
    if !c.fits(answers, attempts) { return None; }
    if state.Complete? {
      var total := 0;
      for i := 0 to |answers|
        invariant total == TotalAttempts(answers[..i])
      {
        assert answers[..i + 1][..i] == answers[..i];
        total := total + answers[i].attempts;
      }
      assert answers[..|answers|] == answers;
      if total != attempts { return None; }
    }
    return Some(Validated(attempts, state));
  }

  /** Stops at a row that names no declared attempt or repeats one. */
  method CollectRows(c: Contract, saved: seq<Row>) returns (table: Option<Table>)
    ensures table == if RowsOk(c, saved) then Some(TableOf(saved)) else None
    ensures table.Some? ==> |table.value| == |saved|
  {
    var rows: Table := map[];
    for i := 0 to |saved|
      invariant RowsOk(c, saved[..i])
      invariant rows == TableOf(saved[..i])
      invariant |rows| == i
    {
      var row := saved[i];
      TableOfSpec(c, saved[..i]);
      assert saved[..i + 1] == saved[..i] + [row];
      AppendRow(saved[..i], row);
      if !(IsIdentifier(row.attempt.decision) && 1 <= row.attempt.number <= 2)
         || row.attempt.decision !in c.declarations || row.attempt in rows {
        RejectedRow(c, saved, i);
        return None;
      }
      AppendRowsOk(c, saved[..i], row);
      rows := rows[row.attempt := row.outcome];
    }
    assert saved[..|saved|] == saved;
    return Some(rows);
  }

  /** Takes the rows out of the table in declared order; nothing may be left over. */
  method TakeRows(c: Contract, table: Table) returns (scan: Option<(seq<Answer>, Progress)>)
    requires RequirementsOk(c) && forall a | a in table :: AttemptOk(c, a)
    ensures scan == Scan(c, table, 0, [])
  {
    var rows := table;
    var answers: seq<Answer> := [];
    var state: Option<Progress> := None;
    for i := 0 to |c.declarations|
      invariant rows == Remaining(c, table, i)
      invariant Scan(c, table, 0, []) == Continued(c, table, i, answers, state)
    {
      var decision := c.declarations[i];
      var one, two := Attempt(decision, 1), Attempt(decision, 2);
      RemainingNext(c, table, i);
      var first := if one in rows then Some(rows[one]) else None;
      var second := if two in rows then Some(rows[two]) else None;
      rows := rows - {one, two};
      var accepted: bool;
      accepted, answers, state := TakeRow(c, table, i, first, second, answers, state);
      if !accepted { return None; }
    }
    NothingRemains(c, table);
    if rows != map[] { return None; }
    scan := Some((answers, if state.Some? then state.value else Complete(answers)));
  }

  /** What the scan from decision `i` on gives; after a stop only that no further rows exist matters. */
  function Continued(c: Contract, t: Table, i: nat, answers: seq<Answer>, state: Option<Progress>): Option<(seq<Answer>, Progress)>
    requires i <= |c.declarations|
  {
    match state
    case None => Scan(c, t, i, answers)
    case Some(stop) => if NoRowsFrom(c, t, i) then Some((answers, stop)) else None
  }

  /** Reads the rows of one decision. */
  method TakeRow(c: Contract, ghost table: Table, i: nat, first: Option<Outcome>, second: Option<Outcome>,
                 before: seq<Answer>, stop: Option<Progress>)
    returns (accepted: bool, answers: seq<Answer>, state: Option<Progress>)
    requires i < |c.declarations|
    requires first == RowOf(table, Attempt(c.declarations[i], 1)) && second == RowOf(table, Attempt(c.declarations[i], 2))
    ensures !accepted ==> Continued(c, table, i, before, stop) == None
    ensures accepted ==> Continued(c, table, i, before, stop) == Continued(c, table, i + 1, answers, state)
  {
    var decision := c.declarations[i];
    accepted, answers, state := true, before, stop;
    if stop.Some? {
      NoRowsSplit(c, table, i);
      accepted := first.None? && second.None?;
    } else if (first.None? && second.Some?) || (first.Some? && !first.value.SafeTransient? && second.Some?) {
      accepted := false;
    } else {
      var number := if first.Some? && first.value.SafeTransient? then 2 else 1;
      var outcome := if number == 2 then second else first;
      if outcome.None? {
        state := Some(Next(Attempt(decision, number), |c.declarations| - i));
      } else if outcome.value.Answered? {
        var answer := outcome.value.answer;
        if !(answer.decision == decision && c.answerMatches(decision, answer)) || answer.attempts != number {
          accepted := false;
        } else {
          answers := before + [answer];
        }
      } else {
        state := Some(Stopped(StopFor(outcome.value)));
      }
    }
  }

  function RowOf(t: Table, a: Attempt): Option<Outcome> {
    if a in t then Some(t[a]) else None
  }

  lemma {:induction false} NoRowsSplit(c: Contract, t: Table, i: nat)
    requires i < |c.declarations|
    ensures NoRowsFrom(c, t, i) <==> NoRows(t, c.declarations[i]) && NoRowsFrom(c, t, i + 1)
  {
  }

  lemma {:induction false} RejectedRow(c: Contract, saved: seq<Row>, i: nat)
    requires i < |saved| && RowsOk(c, saved[..i])
    requires !AttemptOk(c, saved[i].attempt) || saved[i].attempt in TableOf(saved[..i])
    ensures !RowsOk(c, saved)
  {
    TableOfSpec(c, saved[..i]);
    if saved[i].attempt in TableOf(saved[..i]) {
      var j :| 0 <= j < i && saved[..i][j].attempt == saved[i].attempt;
      assert saved[j].attempt == saved[i].attempt;
    }
  }

  /** The rows that are left after the first `i` declarations took theirs. */
  function Remaining(c: Contract, t: Table, i: nat): Table
    requires i <= |c.declarations|
  {
    map a | a in t && !(a.decision in c.declarations[..i] && 1 <= a.number <= 2) :: t[a]
  }

  lemma {:induction false} RemainingNext(c: Contract, t: Table, i: nat)
    requires RequirementsOk(c) && i < |c.declarations|
    ensures var one, two := Attempt(c.declarations[i], 1), Attempt(c.declarations[i], 2);
      var before := Remaining(c, t, i);
      (one in before <==> one in t) && (two in before <==> two in t)
      && (one in t ==> before[one] == t[one]) && (two in t ==> before[two] == t[two])
      && Remaining(c, t, i + 1) == before - {one, two}
  {
    assert c.declarations[..i + 1] == c.declarations[..i] + [c.declarations[i]];
    assert forall j | 0 <= j < i :: c.declarations[j] != c.declarations[i];
  }

  /** Every accepted row belongs to a declaration, so none is left over. */
  lemma {:induction false} NothingRemains(c: Contract, t: Table)
    requires forall a | a in t :: AttemptOk(c, a)
    ensures Remaining(c, t, |c.declarations|) == map[]
  {
    assert c.declarations[..|c.declarations|] == c.declarations;
  }
}
