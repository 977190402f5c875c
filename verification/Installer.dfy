/** The installation with its files updated in place, proved against module Publication. */
module Installer {
  import opened Text
  import opened Publication

  /** How a sequence of writes went: `budget` writes were possible before it and `left` after it. */
  predicate Ran(d: Disk, p: Plan, budget: nat, e: Disk, left: nat, outcome: Outcome) {
    if budget < |p.disks| then
      outcome == Crashed && left == 0 && e == Last(d, p.disks[..budget])
    else
      outcome == p.end && left == budget - |p.disks| && e == Last(d, p.disks)
  }

  lemma {:induction false} RanThen(d: Disk, p: Plan, q: Plan, budget: nat, middle: Disk, between: nat, e: Disk, left: nat, outcome: Outcome)
    requires p.end == Done && Ran(d, p, budget, middle, between, Done) && Ran(middle, q, between, e, left, outcome)
    ensures Ran(d, Then(p, q), budget, e, left, outcome)
  {
    var both := p.disks + q.disks;
    if budget < |both| {
      assert both[..budget] == p.disks + q.disks[..between];
    }
  }

  class Installation {
    var receipt: Option<Receipt>
    var stable: Stable
    var versions: map<Digest, Digest>
    var terminal: Terminal
    /** How many more writes reach the disk. */
    var writesLeft: nat

    constructor (d: Disk, writesLeft: nat)
      ensures View() == d && this.writesLeft == writesLeft
    {
      receipt, stable, versions, terminal := d.receipt, d.stable, d.versions, d.terminal;
      this.writesLeft := writesLeft;
    }

    ghost function View(): Disk
      reads this
    {
      Disk(receipt, stable, versions, terminal)
    }

    method SaveReceipt(r: Receipt) returns (written: bool)
      modifies this
      ensures written == (old(writesLeft) > 0)
      ensures View() == if written then Save(old(View()), r) else old(View())
      ensures writesLeft == if written then old(writesLeft) - 1 else 0
    {
      if writesLeft == 0 { return false; }
      receipt, writesLeft := Some(r), writesLeft - 1;
      return true;
    }

    /** Links the stable entry to an artifact, unless the entry belongs to nobody the receipt names. */
    method Publish(m: Manifest, r: Receipt) returns (outcome: Outcome)
      modifies this
      ensures var p :=
          if !old(stable).Absent? && !Owned(old(stable), r) then Plan([], Refused)
          else if old(stable) == LinkTo(m.sha) then Plan([], Done)
          else Plan([old(View()).(stable := LinkTo(m.sha))], Done);
        Ran(old(View()), p, old(writesLeft), View(), writesLeft, outcome)
    {
      if !stable.Absent? && !Owned(stable, r) { return Refused; }
      if stable == LinkTo(m.sha) { return Done; }
      if writesLeft == 0 { return Crashed; }
      stable, writesLeft := LinkTo(m.sha), writesLeft - 1;
      return Done;
    }

    method Place(b: Bundle) returns (outcome: Outcome)
      modifies this
      ensures Ran(old(View()), PlaceArtifact(old(View()), b), old(writesLeft), View(), writesLeft, outcome)
    {
      var m := b.manifest;
      if b.content != m.sha { return Refused; }
      if m.sha in versions {
        return if versions[m.sha] == m.sha then Done else Refused;
      }
      if writesLeft == 0 { return Crashed; }
      versions, writesLeft := versions[m.sha := m.sha], writesLeft - 1;
      return Done;
    }

    /** Makes the bundle pending, switches the stable entry, then makes the bundle active. */
    method SwitchTo(m: Manifest) returns (outcome: Outcome)
      modifies this
      ensures Ran(old(View()), Switch(old(View()), m), old(writesLeft), View(), writesLeft, outcome)
    {
      var r := if receipt.Some? then receipt.value else NEW_RECEIPT;
      if !stable.Absent? && !Owned(stable, r) { return Refused; }
      var current := r.pending.None? && r.active == Some(m) && stable == LinkTo(m.sha);
      if current { return Done; }
      ghost var d, budget := View(), writesLeft;
      r := r.(pending := Some(m));
      var written := SaveReceipt(r);
      if !written { return Crashed; }
      ghost var saved := View();
      var published := Publish(m, r);
      if published != Done {
        assert published.Crashed? ==> Switch(d, m).disks[..1] == [saved];
        return published;
      }
      ghost var linked := View();
      if r.active.Some? && r.active.value.sha != m.sha {
        r := r.(previous := r.active);
      }
      r := r.(active := Some(m), pending := None);
      written := SaveReceipt(r);
      if !written {
        assert Switch(d, m).disks[..budget] == if stable == old(stable) then [saved] else [saved, linked];
        return Crashed;
      }
      return Done;
    }

    /** Removes the artifact that was previous before the run, once nothing names it. */
    method Clean(obsolete: Option<Manifest>, m: Manifest) returns (outcome: Outcome)
      modifies this
      ensures Ran(old(View()), CleanUp(old(View()), obsolete, m), old(writesLeft), View(), writesLeft, outcome)
    {
      var r := if receipt.Some? then receipt.value else NEW_RECEIPT;
      if obsolete.Some? && obsolete.value.sha != m.sha
         && (r.previous.None? || r.previous.value.sha != obsolete.value.sha) {
        var sha := obsolete.value.sha;
        if sha in versions {
          if versions[sha] != sha { return Refused; }
          if writesLeft == 0 { return Crashed; }
          versions, writesLeft := versions - {sha}, writesLeft - 1;
        }
      }
      return Done;
    }

    method RetireTerminalCommand() returns (outcome: Outcome)
      modifies this
      ensures Ran(old(View()), RetireTerminal(old(View())), old(writesLeft), View(), writesLeft, outcome)
    {
      var r := if receipt.Some? then receipt.value else NEW_RECEIPT;
      if !r.terminalSeen || r.terminalRemoved { return Done; }
      ghost var d, budget := View(), writesLeft;
      if terminal.OwnTerminal? {
        if writesLeft == 0 { return Crashed; }
        terminal, writesLeft := NoTerminal, writesLeft - 1;
      }
      ghost var cleared := View();
      var written := SaveReceipt(r.(terminalRemoved := true));
      if !written {
        assert RetireTerminal(d).disks[..budget] == if d.terminal.OwnTerminal? then [cleared] else [];
        return Crashed;
      }
      return Done;
    }

    /** One reconcile run; it stops where the disk stops taking writes. */
    method Reconcile(b: Bundle) returns (outcome: Outcome)
      modifies this
      ensures View() == DiskAfter(old(View()), b, old(writesLeft))
      ensures outcome == OutcomeAfter(old(View()), b, old(writesLeft))
    {
      ghost var d, budget := View(), writesLeft;
      var r := if receipt.Some? then receipt.value else NEW_RECEIPT;
      var obsolete := r.previous;
      ghost var whole := Publication.Reconcile(d, b);
      PlanBegins(d, b);
      outcome := Place(b);
      ghost var first := PlaceArtifact(d, b);
      if outcome != Done {
        StoppedIn(d, b, first, whole, budget, View(), writesLeft, outcome);
        return;
      }
      ghost var d1, left1 := View(), writesLeft;
      outcome := SwitchTo(b.manifest);
      ghost var second := Then(first, Switch(d1, b.manifest));
      RanThen(d, first, Switch(d1, b.manifest), budget, d1, left1, View(), writesLeft, outcome);
      if outcome != Done {
        StoppedIn(d, b, second, whole, budget, View(), writesLeft, outcome);
        return;
      }
      ghost var d2, left2 := View(), writesLeft;
      outcome := Clean(obsolete, b.manifest);
      ghost var third := Then(second, CleanUp(d2, obsolete, b.manifest));
      RanThen(d, second, CleanUp(d2, obsolete, b.manifest), budget, d2, left2, View(), writesLeft, outcome);
      if outcome != Done {
        StoppedIn(d, b, third, whole, budget, View(), writesLeft, outcome);
        return;
      }
      ghost var d3, left3 := View(), writesLeft;
      outcome := RetireTerminalCommand();
      RanThen(d, third, RetireTerminal(d3), budget, d3, left3, View(), writesLeft, outcome);
      RanWhole(d, b, whole, budget, View(), writesLeft, outcome);
    }
  }

  /** Each initial part of a run is a beginning of the whole run. */
  lemma {:induction false} PlanBegins(d: Disk, b: Bundle)
    ensures var whole := Publication.Reconcile(d, b);
      var first := PlaceArtifact(d, b);
      Begins(first, whole) && first.end != Crashed
      && (first.end == Done ==>
        var d1 := Last(d, first.disks);
        var second := Then(first, Switch(d1, b.manifest));
        Begins(second, whole) && second.end != Crashed
        && (second.end == Done ==>
          var d2 := Last(d1, Switch(d1, b.manifest).disks);
          var third := Then(second, CleanUp(d2, ReceiptOf(d).previous, b.manifest));
          Begins(third, whole) && third.end != Crashed
          && (third.end == Done ==>
            var d3 := Last(d2, CleanUp(d2, ReceiptOf(d).previous, b.manifest).disks);
            whole == Then(third, RetireTerminal(d3)))))
  {
  }

  lemma {:induction false} RanWhole(d: Disk, b: Bundle, whole: Plan, budget: nat, e: Disk, left: nat, outcome: Outcome)
    requires whole == Publication.Reconcile(d, b) && Ran(d, whole, budget, e, left, outcome)
    ensures e == DiskAfter(d, b, budget) && outcome == OutcomeAfter(d, b, budget)
  {
    assert whole.disks[..|whole.disks|] == whole.disks;
  }

  ghost predicate Begins(p: Plan, whole: Plan) {
    p.disks <= whole.disks && (p.end != Done ==> p == whole)
  }

  /** A run that stopped inside the first part of its plan stopped there in the whole plan. */
  lemma {:induction false} StoppedIn(d: Disk, b: Bundle, p: Plan, whole: Plan, budget: nat, e: Disk, left: nat, outcome: Outcome)
    requires whole == Publication.Reconcile(d, b) && Begins(p, whole)
    requires Ran(d, p, budget, e, left, outcome) && outcome != Done && p.end != Crashed
    ensures e == DiskAfter(d, b, budget) && outcome == OutcomeAfter(d, b, budget)
  {
    if budget < |p.disks| {
      assert whole.disks[..budget] == p.disks[..budget];
    } else {
      assert p.disks[..|p.disks|] == p.disks;
    }
  }
}
