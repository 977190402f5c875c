/**
 Publication of the bundled command-line runtime. A reconcile run is a list of atomic disk writes;
 it can stop after any of them. Module Installer performs the writes in place.
 */
module Publication {
  import opened Text

  /** A digest names the immutable artifact of its content. */
  type Digest = string

  datatype Manifest = Manifest(version: string, sha: Digest)

  datatype Receipt = Receipt(
    active: Option<Manifest>,
    pending: Option<Manifest>,
    previous: Option<Manifest>,
    terminalSeen: bool,
    terminalRemoved: bool)

  const NEW_RECEIPT := Receipt(None, None, None, false, false)

  /** The stable entry: absent, a link to an immutable artifact, or something else. */
  datatype Stable = Absent | LinkTo(sha: Digest) | Foreign

  /** The terminal command of earlier releases: absent, owned by the installation, or the user's. */
  datatype Terminal = NoTerminal | OwnTerminal | UserTerminal

  /** `versions` maps each immutable artifact to the digest of its present content. */
  datatype Disk = Disk(
    receipt: Option<Receipt>,
    stable: Stable,
    versions: map<Digest, Digest>,
    terminal: Terminal)

  /** The bundled payload: its manifest and the digest of its executable. */
  datatype Bundle = Bundle(manifest: Manifest, content: Digest)

  datatype Outcome = Done | Refused | Crashed

  function ReceiptOf(d: Disk): Receipt {
    if d.receipt.Some? then d.receipt.value else NEW_RECEIPT
  }

  predicate Matches(stable: Stable, m: Option<Manifest>) {
    m.Some? && stable == LinkTo(m.value.sha)
  }

  predicate Owned(stable: Stable, r: Receipt) {
    Matches(stable, r.active) || Matches(stable, r.pending) || Matches(stable, r.previous)
  }

  predicate Intact(d: Disk, sha: Digest) {
    sha in d.versions && d.versions[sha] == sha
  }

  /** The stable entry belongs to a manifest of the saved receipt, and the artifact of that
      manifest still has its content. */
  predicate Resolvable(d: Disk) {
    d.stable.LinkTo? && Owned(d.stable, ReceiptOf(d)) && Intact(d, d.stable.sha)
  }

  // ----- one run as a list of writes

  /** The disks after each write of a run, and how the run ends if it does not crash. */
  datatype Plan = Plan(disks: seq<Disk>, end: Outcome)

  function Last(d: Disk, disks: seq<Disk>): Disk {
    if disks == [] then d else disks[|disks| - 1]
  }

  function Then(p: Plan, q: Plan): Plan {
    Plan(p.disks + q.disks, q.end)
  }

  function Save(d: Disk, r: Receipt): Disk {
    d.(receipt := Some(r))
  }

  function Promoted(r: Receipt, m: Manifest): Receipt {
    r.(active := Some(m), pending := None,
       previous := if r.active.Some? && r.active.value.sha != m.sha then r.active else r.previous)
  }

  predicate IsCurrent(d: Disk, m: Manifest) {
    ReceiptOf(d).pending.None? && ReceiptOf(d).active == Some(m) && d.stable == LinkTo(m.sha)
  }

  /** Writes the artifact of the bundle unless it is there already. */
  function PlaceArtifact(d: Disk, b: Bundle): Plan {
    var m := b.manifest;
    if b.content != m.sha then Plan([], Refused)
    else if m.sha in d.versions then Plan([], if Intact(d, m.sha) then Done else Refused)
    else Plan([d.(versions := d.versions[m.sha := m.sha])], Done)
  }

  /** Saves the pending manifest, switches the stable entry, then saves the new active one. */
  function Switch(d: Disk, m: Manifest): Plan {
    var r := ReceiptOf(d);
    if !d.stable.Absent? && !Owned(d.stable, r) then Plan([], Refused)
    else if IsCurrent(d, m) then Plan([], Done)
    else
      var saved := Save(d, r.(pending := Some(m)));
      if !d.stable.Absent? && !Owned(d.stable, ReceiptOf(saved)) then Plan([saved], Refused)
      else
        var published := saved.(stable := LinkTo(m.sha));
        var finished := Save(published, Promoted(r, m));
        if d.stable == LinkTo(m.sha) then Plan([saved, finished], Done)
        else Plan([saved, published, finished], Done)
  }

  /** Removes the artifact of the manifest that was previous before the run. */
  function CleanUp(d: Disk, obsolete: Option<Manifest>, m: Manifest): Plan {
    if obsolete.None? || obsolete.value.sha == m.sha
       || (ReceiptOf(d).previous.Some? && ReceiptOf(d).previous.value.sha == obsolete.value.sha)
       || obsolete.value.sha !in d.versions
    then Plan([], Done)
    else if !Intact(d, obsolete.value.sha) then Plan([], Refused)
    else Plan([d.(versions := d.versions - {obsolete.value.sha})], Done)
  }

  function RetireTerminal(d: Disk): Plan {
    var r := ReceiptOf(d);
    if !r.terminalSeen || r.terminalRemoved then Plan([], Done)
    else
      var cleared := if d.terminal.OwnTerminal? then d.(terminal := NoTerminal) else d;
      Plan((if d.terminal.OwnTerminal? then [cleared] else []) + [Save(cleared, r.(terminalRemoved := true))], Done)
  }

  function Reconcile(d: Disk, b: Bundle): Plan {
    var placed := PlaceArtifact(d, b);
    if placed.end != Done then placed
    else
      var d1 := Last(d, placed.disks);
      var switched := Switch(d1, b.manifest);
      if switched.end != Done then Then(placed, switched)
      else
        var d2 := Last(d1, switched.disks);
        var cleaned := CleanUp(d2, ReceiptOf(d).previous, b.manifest);
        if cleaned.end != Done then Then(Then(placed, switched), cleaned)
        else Then(Then(Then(placed, switched), cleaned), RetireTerminal(Last(d2, cleaned.disks)))
  }

  /** The disk when the run stops after `writes` writes, or at its end. */
  function DiskAfter(d: Disk, b: Bundle, writes: nat): Disk {
    var disks := Reconcile(d, b).disks;
    Last(d, disks[..if writes < |disks| then writes else |disks|])
  }

  function OutcomeAfter(d: Disk, b: Bundle, writes: nat): Outcome {
    if writes < |Reconcile(d, b).disks| then Crashed else Reconcile(d, b).end
  }

  // ----- what every write of one run keeps

  /** The stable entry is the bundle's, or belongs to a manifest that stays in the receipt while the
      bundle is pending. */
  predicate Safe(d: Disk, m: Manifest) {
    d.stable == LinkTo(m.sha) || Matches(d.stable, ReceiptOf(d).active) || Matches(d.stable, ReceiptOf(d).previous)
  }

  predicate RefusedAtOnce(d: Disk, b: Bundle) {
    b.content != b.manifest.sha || (b.manifest.sha in d.versions && !Intact(d, b.manifest.sha))
  }

  ghost predicate AllResolvable(disks: seq<Disk>) {
    forall i | 0 <= i < |disks| :: Resolvable(disks[i])
  }

  lemma {:induction false} SwitchResolvable(d: Disk, m: Manifest)
    requires Intact(d, m.sha)
    requires d.stable.Absent? || (Resolvable(d) && Safe(d, m))
    ensures var p := Switch(d, m);
      p.end == Done
      && (d.stable.LinkTo? ==> AllResolvable(p.disks))
      && (forall i | 0 <= i < |p.disks| :: p.disks[i].stable.Absent? || Resolvable(p.disks[i]))
      && Resolvable(Last(d, p.disks)) && Last(d, p.disks).stable == LinkTo(m.sha)
      && ReceiptOf(Last(d, p.disks)).active == Some(m) && ReceiptOf(Last(d, p.disks)).pending.None?
      && Last(d, p.disks).versions == d.versions
  {
  }

  lemma {:induction false} CleanUpResolvable(d: Disk, obsolete: Option<Manifest>, m: Manifest)
    requires Resolvable(d) && d.stable == LinkTo(m.sha)
    ensures var p := CleanUp(d, obsolete, m);
      AllResolvable(p.disks) && Resolvable(Last(d, p.disks)) && Last(d, p.disks).stable == d.stable
      && Last(d, p.disks).receipt == d.receipt
  {
  }

  lemma {:induction false} RetireTerminalResolvable(d: Disk)
    requires Resolvable(d)
    ensures var p := RetireTerminal(d);
      AllResolvable(p.disks) && p.end == Done && Last(d, p.disks).stable == d.stable
      && ReceiptOf(Last(d, p.disks)).(terminalRemoved := true) == ReceiptOf(d).(terminalRemoved := true)
      && Last(d, p.disks).versions == d.versions
  {
  }

  lemma {:induction false} ThenAll(p: Plan, q: Plan)
    requires AllResolvable(p.disks) && AllResolvable(q.disks)
    ensures AllResolvable(Then(p, q).disks)
  {
  }

  /** A safe run from a resolvable disk leaves it resolvable after every write. */
  lemma {:induction false} SafeRunStaysResolvable(d: Disk, b: Bundle)
    requires Resolvable(d) && (Safe(d, b.manifest) || RefusedAtOnce(d, b))
    ensures AllResolvable(Reconcile(d, b).disks)
  {
    var m := b.manifest;
    var placed := PlaceArtifact(d, b);
    if placed.end == Done {
      var d1 := Last(d, placed.disks);
      SwitchResolvable(d1, m);
      var switched := Switch(d1, m);
      var d2 := Last(d1, switched.disks);
      CleanUpResolvable(d2, ReceiptOf(d).previous, m);
      var cleaned := CleanUp(d2, ReceiptOf(d).previous, m);
      ThenAll(placed, switched);
      ThenAll(Then(placed, switched), cleaned);
      if cleaned.end == Done {
        RetireTerminalResolvable(Last(d2, cleaned.disks));
        ThenAll(Then(Then(placed, switched), cleaned), RetireTerminal(Last(d2, cleaned.disks)));
      }
    }
  }

  /** An unsafe run loses the stable entry with the write that makes its bundle pending. */
  lemma {:induction false} UnsafeRunLosesEntry(d: Disk, b: Bundle)
    requires Resolvable(d) && !Safe(d, b.manifest) && !RefusedAtOnce(d, b)
    ensures var p := Reconcile(d, b);
      p.end == Refused && p.disks != [] && !Owned(Last(d, p.disks).stable, ReceiptOf(Last(d, p.disks)))
      && Last(d, p.disks).stable == d.stable
  {
  }

  /** A run from a resolvable disk keeps the entry resolvable at every crash point exactly when it
      is safe or refuses the bundle before its first write. */
  lemma {:induction false} ResolvableAtEveryCrashPoint(d: Disk, b: Bundle)
    requires Resolvable(d)
    ensures (forall writes: nat :: Resolvable(DiskAfter(d, b, writes)))
        <==> Safe(d, b.manifest) || RefusedAtOnce(d, b)
  {
    var disks := Reconcile(d, b).disks;
    if Safe(d, b.manifest) || RefusedAtOnce(d, b) {
      SafeRunStaysResolvable(d, b);
      forall writes: nat
        ensures Resolvable(DiskAfter(d, b, writes))
      {
        var n := if writes < |disks| then writes else |disks|;
        if n > 0 { assert disks[..n][n - 1] == disks[n - 1]; }
      }
    } else {
      UnsafeRunLosesEntry(d, b);
      assert disks[..|disks|] == disks;
      assert !Resolvable(DiskAfter(d, b, |disks|));
    }
  }

  // ----- how a run ends, and what it never removes

  lemma {:induction false} PlacedDisk(d: Disk, b: Bundle)
    requires PlaceArtifact(d, b).end == Done
    ensures var e := Last(d, PlaceArtifact(d, b).disks);
      e == d.(versions := d.versions[b.manifest.sha := b.manifest.sha])
  {
    if b.manifest.sha in d.versions { assert d.versions[b.manifest.sha := b.manifest.sha] == d.versions; }
  }

  lemma {:induction false} SwitchedDisk(d: Disk, m: Manifest)
    requires Switch(d, m).end == Done
    ensures var e := Last(d, Switch(d, m).disks);
      e.stable == LinkTo(m.sha) && e.versions == d.versions && e.terminal == d.terminal
      && ReceiptOf(e) == Promoted(ReceiptOf(d), m)
  {
  }

  lemma {:induction false} CleanedDisk(d: Disk, obsolete: Option<Manifest>, m: Manifest)
    requires CleanUp(d, obsolete, m).end == Done && m.sha in d.versions
    ensures var e := Last(d, CleanUp(d, obsolete, m).disks);
      e.stable == d.stable && e.receipt == d.receipt && e.terminal == d.terminal
      && (e.versions == d.versions
          || (obsolete.Some? && obsolete.value.sha != m.sha && e.versions == d.versions - {obsolete.value.sha}
              && (ReceiptOf(d).previous.Some? ==> ReceiptOf(d).previous.value.sha != obsolete.value.sha)))
  {
  }

  /** A run that completes, from any disk: the bundle is stable and active, nothing is pending, and
      the version that was active before is the retained one. */
  lemma {:induction false} CompletedRun(d: Disk, b: Bundle)
    requires Reconcile(d, b).end == Done
    ensures var e := Last(d, Reconcile(d, b).disks);
      var r, before := ReceiptOf(e), ReceiptOf(d);
      Resolvable(e) && e.stable == LinkTo(b.manifest.sha)
      && r.active == Some(b.manifest) && r.pending.None?
      && r.previous == Promoted(before, b.manifest).previous
      && (r.previous.Some? && Intact(d, r.previous.value.sha) ==> Intact(e, r.previous.value.sha))
  {
    var m := b.manifest;
    var placed := PlaceArtifact(d, b);
    var d1 := Last(d, placed.disks);
    PlacedDisk(d, b);
    var switched := Switch(d1, m);
    var d2 := Last(d1, switched.disks);
    SwitchedDisk(d1, m);
    var cleaned := CleanUp(d2, ReceiptOf(d).previous, m);
    var d3 := Last(d2, cleaned.disks);
    CleanedDisk(d2, ReceiptOf(d).previous, m);
    RetireTerminalResolvable(d3);
    var retired := RetireTerminal(d3);
    assert Last(d, Reconcile(d, b).disks) == Last(d3, retired.disks);
  }

  /** The artifacts that `before` held and that the receipt of `e` names as active or previous. */
  ghost predicate KeepsNamed(before: Disk, e: Disk) {
    forall m: Manifest | ReceiptOf(e).active == Some(m) || ReceiptOf(e).previous == Some(m) ::
      m.sha in before.versions ==> m.sha in e.versions
  }

  ghost predicate AllKeepNamed(before: Disk, disks: seq<Disk>) {
    forall i | 0 <= i < |disks| :: KeepsNamed(before, disks[i]) && (before.terminal.UserTerminal? ==> disks[i].terminal.UserTerminal?)
  }

  /** After every write of any run, safe or not: no artifact that the saved receipt names as active
      or previous is gone, and a terminal command of the user is untouched. */
  lemma {:induction false} NothingNamedIsRemoved(d: Disk, b: Bundle)
    ensures AllKeepNamed(d, Reconcile(d, b).disks)
  {
    var m := b.manifest;
    var placed := PlaceArtifact(d, b);
    if placed.end == Done {
      var d1 := Last(d, placed.disks);
      PlacedDisk(d, b);
      var switched := Switch(d1, m);
      SwitchKeepsNamed(d, d1, m);
      JoinKeepsNamed(d, placed.disks, switched.disks);
      if switched.end == Done {
        var d2 := Last(d1, switched.disks);
        SwitchedDisk(d1, m);
        var cleaned := CleanUp(d2, ReceiptOf(d).previous, m);
        CleanKeepsNamed(d, d2, m);
        JoinKeepsNamed(d, placed.disks + switched.disks, cleaned.disks);
        if cleaned.end == Done {
          var d3 := Last(d2, cleaned.disks);
          CleanedDisk(d2, ReceiptOf(d).previous, m);
          RetireKeepsNamed(d, d3);
          JoinKeepsNamed(d, placed.disks + switched.disks + cleaned.disks, RetireTerminal(d3).disks);
        }
      }
    }
  }

  lemma {:induction false} JoinKeepsNamed(before: Disk, first: seq<Disk>, second: seq<Disk>)
    requires AllKeepNamed(before, first) && AllKeepNamed(before, second)
    ensures AllKeepNamed(before, first + second)
  {}

  lemma {:induction false} SwitchKeepsNamed(before: Disk, d: Disk, m: Manifest)
    requires before.versions.Keys <= d.versions.Keys && d.terminal == before.terminal
    ensures AllKeepNamed(before, Switch(d, m).disks)
  {}

  lemma {:induction false} CleanKeepsNamed(before: Disk, d: Disk, m: Manifest)
    requires before.versions.Keys <= d.versions.Keys && d.terminal == before.terminal
    requires m.sha in d.versions && ReceiptOf(d).active == Some(m)
    ensures AllKeepNamed(before, CleanUp(d, ReceiptOf(before).previous, m).disks)
  {}

  lemma {:induction false} RetireKeepsNamed(before: Disk, d: Disk)
    requires KeepsNamed(before, d) && (before.terminal.UserTerminal? ==> d.terminal.UserTerminal?)
    ensures AllKeepNamed(before, RetireTerminal(d).disks)
  {
  }

  // ----- sequences of runs

  /** One run and the number of writes after which it stops. */
  datatype Run = Run(bundle: Bundle, writes: nat)

  function AfterRuns(d: Disk, runs: seq<Run>): Disk
    decreases |runs|
  {
    if runs == [] then d else AfterRuns(DiskAfter(d, runs[0].bundle, runs[0].writes), runs[1..])
  }

  /** The stable entry was switched to a pending bundle whose promotion was not saved. */
  predicate Interrupted(d: Disk) {
    d.stable.LinkTo? && !Matches(d.stable, ReceiptOf(d).active) && !Matches(d.stable, ReceiptOf(d).previous)
  }

  /** The retry rule: after such an interruption the same bundle comes next. */
  predicate RetriesInterrupted(d: Disk, runs: seq<Run>)
    decreases |runs|
  {
    runs == []
    || ((Interrupted(d) ==> LinkTo(runs[0].bundle.manifest.sha) == d.stable)
        && RetriesInterrupted(DiskAfter(d, runs[0].bundle, runs[0].writes), runs[1..]))
  }

  lemma {:induction false} DiskAfterIsListed(d: Disk, b: Bundle, writes: nat)
    ensures DiskAfter(d, b, writes) == d || DiskAfter(d, b, writes) in Reconcile(d, b).disks
  {
    var disks := Reconcile(d, b).disks;
    var n := if writes < |disks| then writes else |disks|;
    if n > 0 { assert disks[..n][n - 1] == disks[n - 1]; }
  }

  /** The first installation: an absent entry stays absent or becomes resolvable. */
  lemma {:induction false} FreshRunStaysUsable(d: Disk, b: Bundle)
    requires d.stable.Absent?
    ensures forall e | e in Reconcile(d, b).disks :: e.stable.Absent? || Resolvable(e)
  {
    var m := b.manifest;
    var placed := PlaceArtifact(d, b);
    if placed.end == Done {
      var d1 := Last(d, placed.disks);
      PlacedDisk(d, b);
      SwitchResolvable(d1, m);
      var switched := Switch(d1, m);
      var d2 := Last(d1, switched.disks);
      CleanUpResolvable(d2, ReceiptOf(d).previous, m);
      var cleaned := CleanUp(d2, ReceiptOf(d).previous, m);
      if cleaned.end == Done { RetireTerminalResolvable(Last(d2, cleaned.disks)); }
    }
  }

  /** Under the retry rule, no crash point of any sequence of runs leaves a broken stable entry. */
  lemma {:induction false} EveryCrashPointIsUsable(d: Disk, runs: seq<Run>)
    requires d.stable.Absent? || Resolvable(d)
    requires RetriesInterrupted(d, runs)
    ensures AfterRuns(d, runs).stable.Absent? || Resolvable(AfterRuns(d, runs))
    ensures Resolvable(d) ==> Resolvable(AfterRuns(d, runs))
    decreases |runs|
  {
    if runs != [] {
      var b, e := runs[0].bundle, DiskAfter(d, runs[0].bundle, runs[0].writes);
      DiskAfterIsListed(d, b, runs[0].writes);
      if d.stable.Absent? {
        FreshRunStaysUsable(d, b);
      } else {
        SafeRunStaysResolvable(d, b);
        assert e == d || Resolvable(e);
      }
      EveryCrashPointIsUsable(e, runs[1..]);
    }
  }

  ghost predicate OnlyOwnInterruption(disks: seq<Disk>, m: Manifest) {
    forall i | 0 <= i < |disks| && Interrupted(disks[i]) ::
      disks[i].stable == LinkTo(m.sha) && ReceiptOf(disks[i]).pending == Some(m)
  }

  lemma {:induction false} SwitchInterruption(d: Disk, m: Manifest)
    requires !Interrupted(d)
    ensures OnlyOwnInterruption(Switch(d, m).disks, m) && !Interrupted(Last(d, Switch(d, m).disks))
  {
  }

  lemma {:induction false} RunInterruption(d: Disk, b: Bundle)
    requires !Interrupted(d)
    ensures OnlyOwnInterruption(Reconcile(d, b).disks, b.manifest) && !Interrupted(Last(d, Reconcile(d, b).disks))
  {
    var m := b.manifest;
    var placed := PlaceArtifact(d, b);
    if placed.end == Done {
      var d1 := Last(d, placed.disks);
      PlacedDisk(d, b);
      SwitchInterruption(d1, m);
      var switched := Switch(d1, m);
      if switched.end == Done {
        var d2 := Last(d1, switched.disks);
        SwitchedDisk(d1, m);
        var later := LaterDisks(d2, ReceiptOf(d).previous, m);
        assert Reconcile(d, b).disks == placed.disks + switched.disks + later;
        LaterNotInterrupted(d2, ReceiptOf(d).previous, m);
        JoinInterruption(placed.disks, switched.disks, later, m);
        assert Last(d, Reconcile(d, b).disks) == Last(d2, later);
      }
    }
  }

  /** The disks of the clean-up and of the terminal entry's retirement. */
  function LaterDisks(d: Disk, obsolete: Option<Manifest>, m: Manifest): seq<Disk> {
    var cleaned := CleanUp(d, obsolete, m);
    if cleaned.end == Done then cleaned.disks + RetireTerminal(Last(d, cleaned.disks)).disks else cleaned.disks
  }

  lemma {:induction false} JoinInterruption(first: seq<Disk>, second: seq<Disk>, third: seq<Disk>, m: Manifest)
    requires OnlyOwnInterruption(first, m) && OnlyOwnInterruption(second, m) && OnlyOwnInterruption(third, m)
    ensures OnlyOwnInterruption(first + second + third, m)
  {
  }

  /** When the rule asks for anything: only after a crash between the switch and the save that
      follows it, and then it asks for the bundle of that very run. */
  lemma {:induction false} InterruptedOnlyByOwnBundle(d: Disk, b: Bundle, writes: nat)
    requires !Interrupted(d)
    ensures var e := DiskAfter(d, b, writes);
      Interrupted(e) ==>
        OutcomeAfter(d, b, writes) == Crashed && e.stable == LinkTo(b.manifest.sha)
        && ReceiptOf(e).pending == Some(b.manifest)
  {
    RunInterruption(d, b);
    var disks := Reconcile(d, b).disks;
    assert disks[..|disks|] == disks;
    if 0 < writes < |disks| { assert disks[..writes][writes - 1] == disks[writes - 1]; }
  }

  /** After the promotion is saved, neither clean-up nor the terminal step interrupts anything. */
  lemma {:induction false} LaterNotInterrupted(d: Disk, obsolete: Option<Manifest>, m: Manifest)
    requires d.stable == LinkTo(m.sha) && ReceiptOf(d).active == Some(m)
    ensures forall i | 0 <= i < |LaterDisks(d, obsolete, m)| :: !Interrupted(LaterDisks(d, obsolete, m)[i])
    ensures !Interrupted(Last(d, LaterDisks(d, obsolete, m)))
  {}

  /** Outside the rule the loss is permanent: once the receipt no longer names the stable entry, no
      sequence of runs with any bundles makes it resolvable again. */
  lemma {:induction false} LostEntryStaysLost(d: Disk, runs: seq<Run>)
    requires !d.stable.Absent? && !Owned(d.stable, ReceiptOf(d))
    ensures var e := AfterRuns(d, runs);
      e.stable == d.stable && e.receipt == d.receipt && !Resolvable(e)
    decreases |runs|
  {
    if runs != [] {
      LostStep(d, runs[0].bundle, runs[0].writes);
      LostEntryStaysLost(DiskAfter(d, runs[0].bundle, runs[0].writes), runs[1..]);
    }
  }

  lemma {:induction false} LostStep(d: Disk, b: Bundle, writes: nat)
    requires !d.stable.Absent? && !Owned(d.stable, ReceiptOf(d))
    ensures DiskAfter(d, b, writes).stable == d.stable && DiskAfter(d, b, writes).receipt == d.receipt
  {
    DiskAfterIsListed(d, b, writes);
  }

  /** A concrete loss: version two replaces version one and crashes just after the switch, then
      version three arrives instead of a retry. */
  lemma {:induction false} DifferentBundleAfterInterruption()
    ensures var one, two, three := Manifest("1", "a"), Manifest("2", "b"), Manifest("3", "c");
      var installed := Disk(Some(Receipt(Some(one), None, None, false, false)), LinkTo("a"), map["a" := "a"], NoTerminal);
      var interrupted := DiskAfter(installed, Bundle(two, "b"), 3);
      Resolvable(installed) && Resolvable(interrupted) && Interrupted(interrupted)
      && exists writes: nat :: !Resolvable(DiskAfter(interrupted, Bundle(three, "c"), writes))
  {
    var one, two, three := Manifest("1", "a"), Manifest("2", "b"), Manifest("3", "c");
    var installed := Disk(Some(Receipt(Some(one), None, None, false, false)), LinkTo("a"), map["a" := "a"], NoTerminal);
    var interrupted := DiskAfter(installed, Bundle(two, "b"), 3);
    InterruptedExample(installed, two);
    ResolvableAtEveryCrashPoint(interrupted, Bundle(three, "c"));
  }

  lemma {:induction false} InterruptedExample(installed: Disk, two: Manifest)
    requires two == Manifest("2", "b")
    requires installed == Disk(Some(Receipt(Some(Manifest("1", "a")), None, None, false, false)), LinkTo("a"), map["a" := "a"], NoTerminal)
    ensures var e := DiskAfter(installed, Bundle(two, "b"), 3);
      e.stable == LinkTo("b") && e.versions == map["a" := "a", "b" := "b"]
      && e.receipt == Some(Receipt(Some(Manifest("1", "a")), Some(two), None, false, false))
  {
    var placed := PlaceArtifact(installed, Bundle(two, "b"));
    var d1 := installed.(versions := map["a" := "a", "b" := "b"]);
    assert placed.disks == [d1];
    var switched := Switch(d1, two);
    assert |switched.disks| == 3;
    var disks := Reconcile(installed, Bundle(two, "b")).disks;
    assert disks[0] == d1 && disks[1] == switched.disks[0] && disks[2] == switched.disks[1] && |disks| >= 4;
    assert disks[..3][2] == disks[2];
  }
}
