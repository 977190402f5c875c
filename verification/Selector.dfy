/** The event selector with its state updated in place, proved against module Selection. */
module Selector {
  import opened Text
  import opened KeyOrder
  import opened Selection

  class SelectionState {
    var branches: map<Branch, BranchSelection>
    var seen: map<Key, Seen>

    constructor ()
      ensures View() == EMPTY
    {
      branches, seen := map[], map[];
    }

    /** A working copy of a checkpoint. */
    constructor Of(s: State)
      ensures View() == s
    {
      branches, seen := s.branches, s.seen;
    }

    ghost function View(): State
      reads this
    {
      State(branches, seen)
    }

    /** The checkpoint of this state. */
    method Checkpoint() returns (s: State)
      ensures s == View()
    {
      s := State(branches, seen);
    }

    /** Counts the tracked identities of a branch by a scan over one range of the ordered table. */
    method IdentityCount(b: Branch) returns (count: nat)
      ensures count == |BranchKeys(seen, b)|
    {
      var range := RangeFrom(seen, b);
      count := 0;
      while count < |range| && range[count].major == b
        invariant count <= |range|
        invariant forall j | 0 <= j < count :: range[j].major == b
      {
        count := count + 1;
      }
      ScanFindsBranch(seen, b, count);
    }

    method DiscardResult(b: Branch, id: string)
      modifies this
      ensures View() == Discard(old(View()), b, id)
    {
      if b in branches {
        var results := branches[b].results;
        var kept := [];
        for i := 0 to |results|
          invariant kept + Without(results[i..], id) == Without(results, id)
          invariant View() == old(View())
        {
          assert results[i..][1..] == results[i + 1..];
          if results[i].message.id != id { kept := kept + [results[i]]; }
        }
        assert kept == Without(results, id);
        branches := branches[b := branches[b].(results := kept)];
      }
    }

    method SetMembershipOf(k: Key, membership: Membership)
      requires k in seen
      modifies this
      ensures View() == SetMembership(old(View()), k, membership)
    {
      seen := seen[k := seen[k].(membership := membership)];
    }

    method MarkLimit(b: Branch)
      modifies this
      ensures View() == MarkIdentityLimit(old(View()), b)
    {
      branches := branches[b := Entry(branches, b).(identityLimitReached := true, coverageComplete := false)];
    }

    method MarkGap(b: Branch)
      modifies this
      ensures View() == MarkCoverageGap(old(View()), b)
    {
      branches := branches[b := Entry(branches, b).(coverageComplete := false)];
    }

    method Reset(b: Branch)
      modifies this
      ensures View() == ResetSegment(old(View()), b)
    {
      Retire(b);
      MarkGap(b);
    }

    method Restore(b: Branch)
      modifies this
      ensures View() == RestoreCoverage(old(View()), b)
    {
      Retire(b);
      branches := branches[b := Entry(branches, b).(coverageComplete := true)];
    }

    /** Empties a window, then retires its branch. */
    method Retire(b: Branch)
      modifies this
      ensures View() == RetireWindow(old(View()), b)
    {
      if b in branches {
        branches := branches[b := branches[b].(results := [])];
      }
      RetireKeys(b);
    }

    /** Walks the branch's range of the table and stops at the first key of another branch. */
    method RetireKeys(b: Branch)
      modifies this`seen
      ensures seen == RetireWindow(State(map[], old(seen)), b).seen
    {
      var range := RangeFrom(seen, b);
      var i := 0;
      while i < |range| && range[i].major == b
        invariant i <= |range|
        invariant forall j | 0 <= j < i :: range[j].major == b
        invariant seen == RetireListed(old(seen), range[..i])
      {
        var k := range[i];
        RangeIsListed(old(seen), b, i);
        RetireListedNext(old(seen), range, i);
        if seen[k].terminalSeen && !(seen[k].membership.Historical? || seen[k].membership.Removed?) {
          seen := seen[k := seen[k].(membership := Retired)];
        }
        i := i + 1;
      }
      ScanRetiresBranch(old(seen), b, i);
    }

    /** Applies one terminal observation as a new trigger. */
    method Apply(a: Activation, o: Observation) returns (outcome: Outcome)
      modifies this
      ensures (View(), outcome) == Selection.Apply(a, old(View()), o)
    {
      if o.kind.Other? || IsHistorical(a, o) { return Updated; }
      var verdict := EventFilters(a, o);
      if verdict.Reject? {
        branches := branches[o.branch := Entry(branches, o.branch).(lastFilterDiagnostic := Some(verdict.diagnostic))];
        return FilterRejected(verdict.diagnostic);
      }
      if verdict.NoMatch? { return Filtered; }
      branches := branches[o.branch := Entry(branches, o.branch).(lastFilterDiagnostic := None)];
      if !o.contextIsObject { return Incomplete; }
      var condition := a.condition(o, branches[o.branch].coverageComplete);
      if condition != Matched { return ConditionFiltered(condition); }
      if !o.kind.HasMessage() {
        return Chosen(Candidate(o.branch, o.position, [], o.dependencies));
      }
      ghost var cleared := View();
      PushMessage(a, o);
      var results := branches[o.branch].results;
      if |results| < a.Config().minimum { return Updated; }
      return Chosen(Freeze(o, results));
    }

    /** Appends to the window, then drops and retires the oldest entries one at a time. */
    method PushMessage(a: Activation, o: Observation)
      requires o.kind.HasMessage()
      modifies this
      ensures View() == Push(a, old(View()), o)
      ensures o.branch in branches
    {
      var b := o.branch;
      var results := Entry(branches, b).results
                   + [SelectedMessage(o.version, o.nativeOrder, o.kind.message, o.complete)];
      ghost var added := results;
      ghost var dropped := 0;
      while |results| > a.Size()
        invariant 0 <= dropped <= |added| && results == added[dropped..]
        invariant dropped > 0 ==> |results| >= a.Size()
        invariant branches == old(branches)
        invariant seen == RetireIds(old(seen), b, Ids(added[..dropped]))
      {
        var retired := Key(b, results[0].message.id);
        RetireNext(old(seen), b, added, dropped);
        if retired in seen {
          seen := seen[retired := seen[retired].(membership := Retired)];
        }
        results := results[1..];
        dropped := dropped + 1;
      }
      branches := branches[b := Entry(branches, b).(results := results)];
    }

    /** Applies one published observation without treating a correction as a new trigger. */
    method ApplyPublished(a: Activation, id: string, revision: nat, o: Observation) returns (outcome: Outcome)
      modifies this
      ensures (View(), outcome) == Selection.ApplyPublished(a, old(View()), id, revision, o)
    {
      var k := Key(o.branch, id);
      if k !in seen && o.branch in branches && branches[o.branch].identityLimitReached { return Updated; }
      if k in seen && !(revision > seen[k].revision
                        || (revision == seen[k].revision && !seen[k].membership.Removed? && o.version != seen[k].version)) {
        return Updated;
      }
      if k !in seen {
        var count := IdentityCount(o.branch);
        if count >= MAX_SEEN_RESULTS_PER_BRANCH {
          MarkLimit(o.branch);
          return Updated;
        }
      }
      var previous := if k in seen then Some(seen[k]) else None;
      var terminal := !o.kind.Other?;
      var membership := if previous.None? then Unknown
                        else if previous.value.membership.Removed? then Retired
                        else previous.value.membership;
      seen := seen[k := Seen(terminal || (previous.Some? && previous.value.terminalSeen),
                             revision, o.version, o.nativeOrder, membership)];
      assert View() == Record(old(View()), id, revision, o);
      if terminal && IsHistorical(a, o) {
        DiscardResult(o.branch, id);
        SetMembershipOf(k, Historical);
        return Updated;
      }
      if previous.None? || !previous.value.terminalSeen {
        if !terminal { return Updated; }
        ApplyKeepsKeys(a, View(), o);
        outcome := Apply(a, o);
        SetMembershipOf(k, if outcome.Chosen? || outcome.Updated? then Selected else Excluded);
        return;
      }
      if !a.family.Messages? {
        SetMembershipOf(k, Retired);
        return Updated;
      }
      outcome := ApplyCorrection(a, id, previous.value, o);
    }

    method ApplyCorrection(a: Activation, id: string, previous: Seen, o: Observation) returns (outcome: Outcome)
      requires Key(o.branch, id) in seen && a.family.Messages?
      modifies this
      ensures (View(), outcome) == Selection.ApplyCorrection(a, old(View()), id, previous, o)
    {
      var b, k := o.branch, Key(o.branch, id);
      if previous.membership.Historical? || previous.membership.Retired? || previous.membership.Removed? {
        return Updated;
      }
      var selected := InWindow(State(branches, seen), b, id);
      var coverage := Entry(branches, b).coverageComplete;
      var verdict := EventFilters(a, o);
      branches := branches[b := Entry(branches, b).(
        lastFilterDiagnostic := if verdict.Reject? then Some(verdict.diagnostic) else None)];
      var matches := verdict.Match? && o.contextIsObject && a.condition(o, coverage) == Matched;
      if !matches {
        DiscardResult(b, id);
        SetMembershipOf(k, Excluded);
        return if verdict.Reject? then FilterRejected(verdict.diagnostic) else Updated;
      }
      if previous.membership.Unknown? && !selected {
        SetMembershipOf(k, Retired);
        MarkGap(b);
        return WindowInvalidated;
      }
      if previous.nativeOrder != o.nativeOrder || !selected {
        Retire(b);
        branches := branches[b := Entry(branches, b).(coverageComplete := false)];
        SetMembershipOf(k, Retired);
        return WindowInvalidated;
      }
      ReplaceEntry(o, id);
      SetMembershipOf(k, Selected);
      return Updated;
    }

    /** Finds the first window entry of `id` and replaces its value in place. */
    method ReplaceEntry(o: Observation, id: string)
      requires o.kind.HasMessage() && o.branch in branches && HasId(branches[o.branch].results, id)
      modifies this
      ensures View() == WithResults(old(View()), o.branch, Replace(Results(old(View()), o.branch), o, id))
    {
      var results := branches[o.branch].results;
      var i := 0;
      while results[i].message.id != id
        invariant 0 <= i < |results|
        invariant HasId(results[i..], id)
        invariant forall n | 0 <= n < i :: results[n].message.id != id
        decreases |results| - i
      {
        var n :| 0 <= n < |results[i..]| && results[i..][n].message.id == id;
        assert results[i + 1..][n - 1].message.id == id;
        i := i + 1;
      }
      ReplaceAt(results, o, id, i);
      branches := branches[o.branch := branches[o.branch].(
        results := results[i := results[i].(version := o.version, message := o.kind.message, complete := o.complete)])];
    }

    /** Applies one removal and returns whether it changes the source state. */
    method RemoveResult(b: Branch, id: string, revision: nat) returns (changed: bool)
      modifies this
      ensures (View(), changed) == Selection.RemoveResult(old(View()), b, id, revision)
    {
      var k := Key(b, id);
      if k in seen && (revision < seen[k].revision
                       || (revision == seen[k].revision && seen[k].membership.Removed?)) {
        return false;
      }
      if k !in seen {
        var count := IdentityCount(b);
        if count >= MAX_SEEN_RESULTS_PER_BRANCH {
          MarkLimit(b);
          DiscardResult(b, id);
          return true;
        }
        seen := seen[k := Seen(true, revision, "removed:" + Numeral(revision), "", Removed)];
      }
      ghost var order := seen[k].nativeOrder;
      seen := seen[k := seen[k].(terminalSeen := true, revision := revision,
                                 version := "removed:" + Numeral(revision), membership := Removed)];
      assert seen == old(seen)[k := Seen(true, revision, "removed:" + Numeral(revision), order, Removed)];
      DiscardResult(b, id);
      return true;
    }
  }

  /** The keys that `range((b, "")..)` visits, in order. */
  function RangeFrom(seen: map<Key, Seen>, b: Branch): seq<Key> {
    var listing := Ascending(seen.Keys);
    listing[RangeStart(listing, Key(b, ""))..]
  }

  lemma {:induction false} RangeIsListed(seen: map<Key, Seen>, b: Branch, i: nat)
    requires i < |RangeFrom(seen, b)|
    ensures RangeFrom(seen, b)[i] in seen && RangeFrom(seen, b)[i] !in RangeFrom(seen, b)[..i]
  {
    var listing := Ascending(seen.Keys);
    var start := RangeStart(listing, Key(b, ""));
    AscendingLists(seen.Keys);
    RangeIsScannable(listing, b);
    assert listing[start + i] in listing;
  }

  /** A scan that stops at the first key of another branch has met exactly the keys of `b`. */
  lemma {:induction false} ScanFindsBranch(seen: map<Key, Seen>, b: Branch, end: nat)
    requires end <= |RangeFrom(seen, b)|
    requires forall j | 0 <= j < end :: RangeFrom(seen, b)[j].major == b
    requires end < |RangeFrom(seen, b)| ==> RangeFrom(seen, b)[end].major != b
    ensures forall k :: k in RangeFrom(seen, b)[..end] <==> k in seen && k.major == b
    ensures end == |BranchKeys(seen, b)|
  {
    var listing := Ascending(seen.Keys);
    var scanned := RangeFrom(seen, b)[..end];
    assert Scannable(listing, b, RangeStart(listing, Key(b, ""))) && forall k :: k in listing <==> k in seen by {
      AscendingLists(seen.Keys);
      RangeIsScannable(listing, b);
    }
    ScanListing(listing, b, RangeStart(listing, Key(b, "")), end);
    DistinctCount(scanned);
    assert Elements(scanned) == BranchKeys(seen, b);
  }

  lemma {:induction false} ScanListing(listing: seq<Key>, b: Branch, start: nat, end: nat)
    requires start <= |listing| && Scannable(listing, b, start)
    requires end <= |listing[start..]|
    requires forall j | 0 <= j < end :: listing[start..][j].major == b
    requires end < |listing[start..]| ==> listing[start..][end].major != b
    ensures forall k :: k in listing[start..][..end] <==> k in listing && k.major == b
    ensures forall i, j | 0 <= i < j < end :: listing[start..][..end][i] != listing[start..][..end][j]
  {
    var scanned := listing[start..][..end];
    forall k | k in listing && k.major == b
      ensures k in scanned
    {
      var j :| 0 <= j < |listing| && listing[j] == k;
      assert start + end < |listing| ==> listing[start + end] == listing[start..][end];
      assert scanned[j - start] == k;
    }
    forall k | k in scanned
      ensures k in listing && k.major == b
    {
      var j :| 0 <= j < end && scanned[j] == k;
      assert listing[start + j] == k;
    }
  }

  function RetireListed(seen: map<Key, Seen>, keys: seq<Key>): map<Key, Seen> {
    map k | k in seen :: if k in keys then RetiredRecord(seen[k]) else seen[k]
  }

  lemma {:induction false} RetireListedAll(seen: map<Key, Seen>, b: Branch, keys: seq<Key>)
    requires forall k :: k in keys <==> k in seen && k.major == b
    ensures RetireListed(seen, keys) == RetireWindow(State(map[], seen), b).seen
  {
  }

  lemma {:induction false} ScanRetiresBranch(seen: map<Key, Seen>, b: Branch, end: nat)
    requires end <= |RangeFrom(seen, b)|
    requires forall j | 0 <= j < end :: RangeFrom(seen, b)[j].major == b
    requires end < |RangeFrom(seen, b)| ==> RangeFrom(seen, b)[end].major != b
    ensures RetireListed(seen, RangeFrom(seen, b)[..end]) == RetireWindow(State(map[], seen), b).seen
  {
    ScanFindsBranch(seen, b, end);
    RetireListedAll(seen, b, RangeFrom(seen, b)[..end]);
  }

  lemma {:induction false} RetireListedNext(seen: map<Key, Seen>, range: seq<Key>, i: nat)
    requires i < |range| && range[i] in seen && range[i] !in range[..i]
    ensures var retired := RetireListed(seen, range[..i]);
      range[i] in retired && retired[range[i]] == seen[range[i]]
      && RetireListed(seen, range[..i + 1]) == retired[range[i] := RetiredRecord(seen[range[i]])]
  {
    assert range[..i + 1] == range[..i] + [range[i]];
  }

  lemma {:induction false} RetireNext(seen: map<Key, Seen>, b: Branch, added: seq<SelectedMessage>, n: nat)
    requires n < |added|
    ensures var k := Key(b, added[n].message.id);
      var before, after := RetireIds(seen, b, Ids(added[..n])), RetireIds(seen, b, Ids(added[..n + 1]));
      after == if k in before then before[k := before[k].(membership := Retired)] else before
  {
    assert added[..n + 1] == added[..n] + [added[n]];
    assert Ids(added[..n + 1]) == Ids(added[..n]) + {added[n].message.id};
  }

  lemma {:induction false} ReplaceAt(results: seq<SelectedMessage>, o: Observation, id: string, i: nat)
    requires o.kind.HasMessage() && i < |results| && results[i].message.id == id
    requires forall n | 0 <= n < i :: results[n].message.id != id
    ensures Replace(results, o, id)
         == results[i := results[i].(version := o.version, message := o.kind.message, complete := o.complete)]
  {
    if i > 0 {
      ReplaceAt(results[1..], o, id, i - 1);
    }
  }
}
