/** How a publication run ends, and the whole disk that a completed run leaves. */
module PublicationEnds {
  import opened Text
  import opened Publication

  /** The version that stays for a fallback: the one active before, unless the bundle is that version. */
  function Retained(r: Receipt, m: Manifest): Option<Manifest> {
    if r.active.Some? && r.active.value.sha != m.sha then r.active else r.previous
  }

  /** The artifact that no receipt will name any more: the one retained before, if neither the bundle nor the
      newly retained version has its content. */
  predicate Obsolete(r: Receipt, m: Manifest, sha: Digest) {
    r.previous.Some? && r.previous.value.sha == sha && sha != m.sha
    && (Retained(r, m).Some? ==> Retained(r, m).value.sha != sha)
  }

  /** Another installation owns the stable entry, or a bundle other than this one was interrupted there. */
  predicate NotOurs(d: Disk, m: Manifest) {
    var r := ReceiptOf(d);
    !d.stable.Absent?
    && !(r.active.Some? && d.stable == LinkTo(r.active.value.sha))
    && !(r.previous.Some? && d.stable == LinkTo(r.previous.value.sha))
    && !(r.pending.Some? && r.pending.value.sha == m.sha && d.stable == LinkTo(m.sha))
  }

  predicate Damaged(d: Disk, sha: Digest) {
    sha in d.versions && d.versions[sha] != sha
  }

  /** Why a run is refused: the payload or its artifact is not what the manifest says, the stable entry is not
      ours, or the artifact to be removed is damaged. Every other run completes. */
  lemma {:induction false} EndsExactly(d: Disk, b: Bundle)
    ensures var r, m := ReceiptOf(d), b.manifest;
      Reconcile(d, b).end
      == if b.content != m.sha || Damaged(d, m.sha) || NotOurs(d, m)
            || (r.previous.Some? && Obsolete(r, m, r.previous.value.sha) && Damaged(d, r.previous.value.sha))
         then Refused else Done
  {
    var m := b.manifest;
    var placed := PlaceArtifact(d, b);
    if placed.end == Done {
      var d1 := Last(d, placed.disks);
      PlacedDisk(d, b);
      assert ReceiptOf(d1) == ReceiptOf(d) && d1.stable == d.stable;
      if Switch(d1, m).end == Done {
        SwitchedDisk(d1, m);
        assert ReceiptOf(Last(d1, Switch(d1, m).disks)).previous == Retained(ReceiptOf(d), m);
      }
    }
  }

  /** The disk after a completed run, in full. */
  lemma {:induction false} CompletedExactly(d: Disk, b: Bundle)
    requires Reconcile(d, b).end == Done
    ensures var e := Last(d, Reconcile(d, b).disks);
      var r, m := ReceiptOf(d), b.manifest;
      ReceiptOf(e) == Receipt(Some(m), None, Retained(r, m), r.terminalSeen, r.terminalSeen || r.terminalRemoved)
      && e.stable == LinkTo(m.sha)
      && e.terminal == (if d.terminal == OwnTerminal && r.terminalSeen && !r.terminalRemoved then NoTerminal else d.terminal)
      && (forall sha :: sha in e.versions <==> (sha in d.versions || sha == m.sha) && !Obsolete(r, m, sha))
      && (forall sha | sha in e.versions :: e.versions[sha] == if sha == m.sha then sha else d.versions[sha])
  {
    var m := b.manifest;
    var placed := PlaceArtifact(d, b);
    var d1 := Last(d, placed.disks);
    PlacedDisk(d, b);
    var switched := Switch(d1, m);
    var d2 := Last(d1, switched.disks);
    SwitchedDisk(d1, m);
    var cleaned := CleanUp(d2, ReceiptOf(d).previous, m);
    var d3 := Last(d2, cleaned.disks);
    CleanedExactly(d2, ReceiptOf(d).previous, m);
    RetiredExactly(d3);
    assert Last(d, Reconcile(d, b).disks) == Last(d3, RetireTerminal(d3).disks);
  }

  lemma {:induction false} CleanedExactly(d: Disk, obsolete: Option<Manifest>, m: Manifest)
    requires CleanUp(d, obsolete, m).end == Done
    ensures var e := Last(d, CleanUp(d, obsolete, m).disks);
      e == d.(versions := e.versions)
      && (forall sha :: sha in e.versions <==>
            sha in d.versions && !(obsolete.Some? && obsolete.value.sha == sha && sha != m.sha
                                   && (ReceiptOf(d).previous.Some? ==> ReceiptOf(d).previous.value.sha != sha)))
      && (forall sha | sha in e.versions :: e.versions[sha] == d.versions[sha])
  {}

  lemma {:induction false} RetiredExactly(d: Disk)
    ensures var e, r := Last(d, RetireTerminal(d).disks), ReceiptOf(d);
      e.stable == d.stable && e.versions == d.versions && RetireTerminal(d).end == Done
      && ReceiptOf(e) == r.(terminalRemoved := r.terminalSeen || r.terminalRemoved)
      && e.terminal == (if d.terminal == OwnTerminal && r.terminalSeen && !r.terminalRemoved then NoTerminal else d.terminal)
  {}

  /** The receipt does not record a command as removed while one of the installation is there, nor one that was
      never seen. */
  predicate Honest(seen: bool, e: Disk) {
    ReceiptOf(e).terminalRemoved ==> !e.terminal.OwnTerminal? && seen
  }

  ghost predicate AllHonest(seen: bool, disks: seq<Disk>) {
    forall i | 0 <= i < |disks| :: Honest(seen, disks[i])
  }

  lemma {:induction false} SwitchIsHonest(d: Disk, m: Manifest)
    requires !ReceiptOf(d).terminalRemoved
    ensures AllHonest(ReceiptOf(d).terminalSeen, Switch(d, m).disks)
  {}

  lemma {:induction false} LaterIsHonest(d: Disk, obsolete: Option<Manifest>, m: Manifest)
    requires !ReceiptOf(d).terminalRemoved
    ensures AllHonest(ReceiptOf(d).terminalSeen, LaterDisks(d, obsolete, m))
  {
    var cleaned := CleanUp(d, obsolete, m);
    assert ReceiptOf(Last(d, cleaned.disks)) == ReceiptOf(d);
    assert AllHonest(ReceiptOf(d).terminalSeen, cleaned.disks);
    assert AllHonest(ReceiptOf(d).terminalSeen, RetireTerminal(Last(d, cleaned.disks)).disks);
  }

  lemma {:induction false} RunIsHonest(d: Disk, b: Bundle)
    requires !ReceiptOf(d).terminalRemoved
    ensures AllHonest(ReceiptOf(d).terminalSeen, Reconcile(d, b).disks)
  {
    var m, seen := b.manifest, ReceiptOf(d).terminalSeen;
    var placed := PlaceArtifact(d, b);
    if placed.end == Done {
      var d1 := Last(d, placed.disks);
      PlacedDisk(d, b);
      var switched := Switch(d1, m);
      SwitchIsHonest(d1, m);
      if switched.end == Done {
        var d2 := Last(d1, switched.disks);
        SwitchedDisk(d1, m);
        var later := LaterDisks(d2, ReceiptOf(d).previous, m);
        LaterIsHonest(d2, ReceiptOf(d).previous, m);
        assert Reconcile(d, b).disks == placed.disks + switched.disks + later;
      }
    }
  }

  /** A command is recorded as removed only when it is gone: at every crash point of a run that records it, no
      command of the installation is left. */
  lemma {:induction false} RecordedAsRemovedIsGone(d: Disk, b: Bundle, writes: nat)
    requires !ReceiptOf(d).terminalRemoved
    ensures Honest(ReceiptOf(d).terminalSeen, DiskAfter(d, b, writes))
  {
    DiskAfterIsListed(d, b, writes);
    RunIsHonest(d, b);
  }
}
