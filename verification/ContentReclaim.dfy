/** That unreferenced blobs are reclaimed: the next pass orphans them, and a cleanup that nobody disturbs
    removes them once their grace period is over. */
module ContentReclaim {
  import opened Wrappers
  import opened ContentBlobs
  import opened ContentProtocol
  import opened ContentInvariant
  import opened ContentSafety
  import opened ContentCleanup

  // ----- orphans stay until they are swept -----

  /** History only grows. */
  lemma StepHistory(quota: nat, w: World, s: Step)
    requires Enabled(quota, w, s)
    ensures var w' := Apply(quota, w, s);
            w.stranded <= w'.stranded && w.lost <= w'.lost && w.touched <= w'.touched
  {
    hide Admit, ReconcileRows, MarkDeleted;
  }

  /** Nobody outside has touched the row's file, and no sweep or mistaken handler has removed it. */
  ghost predicate Undisturbed(w: World, b: nat)
    requires b < |w.rows|
  {
    StorageKey(w.rows[b].storageKey) !in w.touched && b !in w.stranded && b !in w.lost
  }

  /** Then the file of an active or orphaned row is there, and intact. */
  lemma FileThere(quota: nat, w: World, b: nat)
    requires Inv(quota, w) && b < |w.rows| && Undisturbed(w, b)
    requires w.rows[b].status == Active || w.rows[b].status == Orphaned
    ensures StorageKey(w.rows[b].storageKey) in w.files && Intact(w.rows[b], w.files)
  {
    hide OccupiedBytes, LockInv, ReferenceInv, ProcessInv, UniqueDigests, StrandedInv, Intact;
    assert Expected(w, w.rows[b].storageKey);
  }

  /** No step but its sweep, or one that loses its file, changes an orphan. */
  lemma OrphanStays(quota: nat, w: World, s: Step, b: nat)
    requires Inv(quota, w) && Enabled(quota, w, s) && b < |w.rows| && w.rows[b].status == Orphaned
    requires Undisturbed(w, b)
    ensures b < |Apply(quota, w, s).rows| && Apply(quota, w, s).rows[b] == w.rows[b]
  {
    if PassTime(s).Some? {
      FileThere(quota, w, b);
      ReconcileExact(w.rows, w.references.Values, w.files, PassTime(s).value, b);
      hide Inv, ReconcileRows, Undisturbed, Intact;
    } else {
      NotSwept(quota, w, s, b);
      hide Inv, Admit, Undisturbed;
    }
  }

  lemma NotSwept(quota: nat, w: World, s: Step, b: nat)
    requires Inv(quota, w) && Enabled(quota, w, s) && b < |w.rows| && Undisturbed(w, b)
    ensures s.CleanupCommit? ==> b !in w.processes[s.p].swept
  {
    hide OccupiedBytes, FileInv, ReferenceInv, RowInv, LockInv, OwnerInv, StrandedInv;
    if s.CleanupCommit? {
      assert ProcessOk(quota, w, s.p, w.processes[s.p]);
    }
  }

  /** The next pass orphans every active blob that nothing references. */
  lemma NextPassOrphans(quota: nat, w: World, s: Step, b: nat)
    requires Inv(quota, w) && Enabled(quota, w, s) && PassTime(s).Some?
    requires b < |w.rows| && w.rows[b].status == Active && b !in w.references.Values && Undisturbed(w, b)
    ensures var after := Apply(quota, w, s);
            b < |after.rows|
            && after.rows[b] == w.rows[b].(status := Orphaned, verifiedAt := PassTime(s)) && Undisturbed(after, b)
  {
    FileThere(quota, w, b);
    ReconcileExact(w.rows, w.references.Values, w.files, PassTime(s).value, b);
    hide Inv, ReconcileRows;
  }

  /** Over any run: an unreferenced active blob is orphaned by the pass of step i, and unless its file is lost
      it stays so, with that pass's time and without references. */
  lemma {:induction false} OrphanedSince(quota: nat, ws: seq<World>, steps: seq<Step>, i: nat, j: nat, b: nat)
    requires IsRun(quota, ws, steps) && i < |steps| && PassTime(steps[i]).Some? && i < j < |ws|
    requires b < |ws[i].rows| && ws[i].rows[b].status == Active && b !in ws[i].references.Values
    requires b < |ws[j].rows| && Undisturbed(ws[j], b)
    ensures ws[j].rows[b] == ws[i].rows[b].(status := Orphaned, verifiedAt := PassTime(steps[i]))
    ensures b !in ws[j].references.Values
    decreases j
  {
    hide Inv, Apply, Enabled;
    RunAdvances(quota, ws, steps, i, j - 1);
    RunAdvances(quota, ws, steps, j - 1, j);
    RunInv(quota, ws, steps, j - 1);
    RunInv(quota, ws, steps, j);
    StepHistory(quota, ws[j - 1], steps[j - 1]);
    assert Advances(ws[i].rows[b], ws[j - 1].rows[b]);
    assert Advances(ws[j - 1].rows[b], ws[j].rows[b]);
    assert Undisturbed(ws[j - 1], b);
    if i == j - 1 {
      NextPassOrphans(quota, ws[i], steps[i], b);
    } else {
      OrphanedSince(quota, ws, steps, i, j - 1, b);
      OrphanStays(quota, ws[j - 1], steps[j - 1], b);
    }
    Unreferenced(quota, ws[j], b);
  }

  lemma Unreferenced(quota: nat, w: World, b: nat)
    requires Inv(quota, w) && b < |w.rows| && w.rows[b].status == Orphaned
    ensures b !in w.references.Values
  {
    hide OccupiedBytes, FileInv, RowInv, ProcessInv, LockInv, OwnerInv;
  }

  // ----- and then they go -----

  /** The state after a cleanup that runs from begin to commit with nobody else at work. */
  ghost function Cleaned(quota: nat, w: World, p: nat, now: int, grace: int): World
    requires Enabled(quota, w, CleanupBegin(p, now, grace))
  {
    var begun := Apply(quota, w, CleanupBegin(p, now, grace));
    ApplyCleanupCommit(UnlinkAll(begun, p, |begun.rows|), p)
  }

  /** Such a cleanup deletes every undisturbed orphan whose time has come, and removes its file. */
  lemma CleanupReclaims(quota: nat, w: World, p: nat, now: int, grace: int, b: nat)
    requires Inv(quota, w) && Enabled(quota, w, CleanupBegin(p, now, grace))
    requires b < |w.rows| && w.rows[b].status == Orphaned && Undisturbed(w, b)
    requires w.rows[b].verifiedAt.Some? && w.rows[b].verifiedAt.value + grace <= now
    ensures var done := Cleaned(quota, w, p, now, grace);
            b < |done.rows| && done.rows[b] == w.rows[b].(status := Deleted, verifiedAt := Some(now))
            && StorageKey(w.rows[b].storageKey) in w.files && StorageKey(w.rows[b].storageKey) !in done.files
  {
    hide Inv, Enabled, UnlinkAll, ApplyCleanupCommit;
    KeysUnique(quota, w);
    FileThere(quota, w, b);
    Unreferenced(quota, w, b);
    CleanupRefines(quota, w, p, now, grace);
    hide Apply, ReconcileRows, SweepRows, SweepFiles, UniqueKeys;
    PassesReclaim(w.rows, w.references.Values, w.files, now, grace, b);
  }

  lemma PassesReclaim(rows: seq<Blob>, referenced: set<nat>, files: map<BlobName, File>, now: int, grace: int, b: nat)
    requires b < |rows| && rows[b].status == Orphaned && b !in referenced && Intact(rows[b], files)
    requires rows[b].verifiedAt.Some? && rows[b].verifiedAt.value + grace <= now
    ensures var reconciled := ReconcileRows(rows, referenced, files, now);
            && SweepRows(reconciled, referenced, files, now - grace, now)[b]
               == rows[b].(status := Deleted, verifiedAt := Some(now))
            && StorageKey(rows[b].storageKey)
               !in SweepFiles(reconciled, |reconciled|, referenced, files, now - grace)
  {
    var reconciled := ReconcileRows(rows, referenced, files, now);
    hide ReconcileRows, SweepRows, ReconcileRow, SweepRow, SweepFiles;
    ReconcileExact(rows, referenced, files, now, b);
    SweepExact(reconciled, referenced, files, now - grace, now, b);
    SweepFilesExact(reconciled, |reconciled|, referenced, files, now - grace);
    assert SweptName(StorageKey(rows[b].storageKey), reconciled, |reconciled|, referenced, files, now - grace);
  }

  lemma KeysUnique(quota: nat, w: World)
    requires Inv(quota, w)
    ensures UniqueKeys(w.rows)
  {
    hide OccupiedBytes, FileInv, ReferenceInv, ProcessInv, LockInv, OwnerInv, StrandedInv, UniqueDigests;
    KeysUniqueBelow(w, |w.rows|);
  }

  lemma {:induction false} KeysUniqueBelow(w: World, n: nat)
    requires n <= |w.rows|
    requires forall i :: 0 <= i < |w.rows| ==>
               w.rows[i].storageKey in w.owners && w.owners[w.rows[i].storageKey] == OfRow(i)
    ensures DistinctKeys(w.rows, n)
  {
    if n == 0 {
    } else {
      KeysUniqueBelow(w, n - 1);
      KnownNamesExact(w.rows, n - 1);
    }
  }

  /** Every unreferenced blob is reclaimed: orphaned by the pass of step i, and deleted, with its file, by any
      cleanup that runs undisturbed at least the grace period later, if its file was not lost before. */
  lemma Reclaimed(quota: nat, ws: seq<World>, steps: seq<Step>, i: nat, j: nat, b: nat, p: nat, now: int, grace: int)
    requires IsRun(quota, ws, steps) && i < |steps| && PassTime(steps[i]).Some? && i < j < |ws|
    requires b < |ws[i].rows| && ws[i].rows[b].status == Active && b !in ws[i].references.Values
    requires b < |ws[j].rows| && Undisturbed(ws[j], b)
    requires Enabled(quota, ws[j], CleanupBegin(p, now, grace)) && PassTime(steps[i]).value + grace <= now
    ensures var done := Cleaned(quota, ws[j], p, now, grace);
            b < |done.rows| && done.rows[b].status == Deleted && done.rows[b].verifiedAt == Some(now)
            && StorageKey(ws[i].rows[b].storageKey) !in done.files
  {
    OrphanedSince(quota, ws, steps, i, j, b);
    RunInv(quota, ws, steps, j);
    hide Inv, Enabled, Cleaned, IsRun;
    CleanupReclaims(quota, ws[j], p, now, grace, b);
  }
}
