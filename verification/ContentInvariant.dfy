/** Every step of the content store keeps its invariant, whatever the interleaving. */
module ContentInvariant {
  import opened Wrappers
  import opened ContentBlobs
  import opened ContentProtocol

  lemma InitialInv(quota: nat)
    ensures Inv(quota, EMPTY)
  {
  }

  // ----- steps that leave the rows alone -----

  lemma BeginKeeps(quota: nat, w: World, p: nat, data: Bytes, ref: Reference)
    requires Inv(quota, w) && Enabled(quota, w, Begin(p, data, ref))
    ensures Inv(quota, Apply(quota, w, Begin(p, data, ref)))
  {
    hide OccupiedBytes, Intact;
  }

  lemma AcquireKeeps(quota: nat, w: World, p: nat)
    requires Inv(quota, w) && Enabled(quota, w, Acquire(p))
    ensures Inv(quota, Apply(quota, w, Acquire(p)))
  {
    hide OccupiedBytes, Intact;
  }

  lemma EndKeeps(quota: nat, w: World, p: nat)
    requires Inv(quota, w) && p in w.processes && PendingKey(w.processes[p]).None?
    ensures Inv(quota, End(w, p))
  {
    hide OccupiedBytes, Intact;
  }

  /** A fresh file for a digest that no row has. */
  lemma InstallKeeps(quota: nat, w: World, p: nat, key: nat, mime: string, now: int)
    requires Inv(quota, w) && Enabled(quota, w, AdmitBytes(p, key, mime, now))
    requires AdmissionOf(quota, w, w.processes[p]).Install?
    ensures Inv(quota, ApplyAdmit(quota, w, p, key, mime, now))
  {
    InstallKeepsFiles(quota, w, p, key, mime, now);
    InstallKeepsProcesses(quota, w, p, key, mime, now);
    hide OccupiedBytes, FindDigest, ProcessInv, FileInv;
  }

  lemma InstallKeepsFiles(quota: nat, w: World, p: nat, key: nat, mime: string, now: int)
    requires Inv(quota, w) && Enabled(quota, w, AdmitBytes(p, key, mime, now))
    requires AdmissionOf(quota, w, w.processes[p]).Install?
    ensures FileInv(ApplyAdmit(quota, w, p, key, mime, now))
  {
    hide OccupiedBytes, FindDigest, ProcessInv, LockInv, ReferenceInv, StrandedInv;
  }

  lemma InstallKeepsProcesses(quota: nat, w: World, p: nat, key: nat, mime: string, now: int)
    requires Inv(quota, w) && Enabled(quota, w, AdmitBytes(p, key, mime, now))
    requires AdmissionOf(quota, w, w.processes[p]).Install?
    ensures ProcessInv(quota, ApplyAdmit(quota, w, p, key, mime, now))
  {
    hide OccupiedBytes, FileInv, ReferenceInv, StrandedInv, OwnerInv;
    assert forall i :: 0 <= i < |w.rows| ==> w.rows[i].sha256 != Sha256(w.processes[p].data);
    hide FindDigest;
  }

  lemma AdmitKeeps(quota: nat, w: World, p: nat, key: nat, mime: string, now: int)
    requires Inv(quota, w) && Enabled(quota, w, AdmitBytes(p, key, mime, now))
    ensures Inv(quota, Apply(quota, w, AdmitBytes(p, key, mime, now)))
  {
    match AdmissionOf(quota, w, w.processes[p])
    case Refuse(_) => EndKeeps(quota, w, p);
    case Reuse(_) => hide OccupiedBytes, Intact;
    case Install => InstallKeeps(quota, w, p, key, mime, now); hide Inv;
  }

  lemma RemovalKeeps(quota: nat, w: World, p: nat)
    requires Inv(quota, w) && p in w.processes && PendingKey(w.processes[p]).Some?
    ensures Inv(quota, ApplyRemoval(w, p))
  {
    assert ProcessOk(quota, w, p, w.processes[p]);
    RemovalKeepsFiles(quota, w, p);
    RemovalKeepsProcesses(quota, w, p);
    hide OccupiedBytes, FileInv, ProcessInv, Intact, UniqueDigests;
  }

  lemma RemovalKeepsFiles(quota: nat, w: World, p: nat)
    requires Inv(quota, w) && p in w.processes && PendingKey(w.processes[p]).Some?
    ensures FileInv(ApplyRemoval(w, p))
  {
    assert ProcessOk(quota, w, p, w.processes[p]);
    hide OccupiedBytes, LockInv, ReferenceInv, StrandedInv, UniqueDigests, ProcessInv;
  }

  lemma RemovalKeepsProcesses(quota: nat, w: World, p: nat)
    requires Inv(quota, w) && p in w.processes && PendingKey(w.processes[p]).Some?
    ensures ProcessInv(quota, ApplyRemoval(w, p))
  {
    assert ProcessOk(quota, w, p, w.processes[p]);
    hide OccupiedBytes, FileInv, ReferenceInv, StrandedInv, UniqueDigests;
  }

  lemma CrashKeeps(quota: nat, w: World, p: nat)
    requires Inv(quota, w) && p in w.processes
    ensures Inv(quota, ApplyCrash(w, p))
  {
    hide OccupiedBytes, Intact;
    if PendingKey(w.processes[p]).None? {
      EndKeeps(quota, w, p);
    }
  }

  lemma RollbackKeeps(quota: nat, w: World, p: nat)
    requires Inv(quota, w) && Enabled(quota, w, Rollback(p))
    ensures Inv(quota, ApplyRollback(w, p))
  {
    hide OccupiedBytes, Intact;
    if w.processes[p].row.None? {
      EndKeeps(quota, w, p);
    }
  }

  lemma UnlinkKeeps(quota: nat, w: World, p: nat, i: nat)
    requires Inv(quota, w) && Enabled(quota, w, Unlink(p, i))
    ensures Inv(quota, ApplyUnlink(w, p, i))
  {
    hide OccupiedBytes, FileInv, ProcessInv, Intact, UniqueDigests;
    UnlinkKeepsFiles(quota, w, p, i);
    UnlinkKeepsProcesses(quota, w, p, i);
  }

  lemma UnlinkKeepsProcesses(quota: nat, w: World, p: nat, i: nat)
    requires Inv(quota, w) && Enabled(quota, w, Unlink(p, i))
    ensures ProcessInv(quota, ApplyUnlink(w, p, i))
  {
    hide OccupiedBytes, FileInv, ReferenceInv, UniqueDigests;
  }

  lemma UnlinkKeepsFiles(quota: nat, w: World, p: nat, i: nat)
    requires Inv(quota, w) && Enabled(quota, w, Unlink(p, i))
    ensures FileInv(ApplyUnlink(w, p, i))
  {
    hide OccupiedBytes, LockInv, ReferenceInv, UniqueDigests;
  }

  lemma DereferenceKeeps(quota: nat, w: World, ref: Reference)
    requires Inv(quota, w)
    ensures Inv(quota, Apply(quota, w, Dereference(ref)))
  {
    hide OccupiedBytes, Intact;
  }

  lemma OutsideKeeps(quota: nat, w: World, name: BlobName, file: Option<File>)
    requires Inv(quota, w)
    ensures Inv(quota, ApplyOutside(w, name, file))
  {
    hide OccupiedBytes;
  }

  // ----- steps that change the rows -----

  lemma CommitKeepsFiles(quota: nat, w: World, p: nat)
    requires Inv(quota, w) && Enabled(quota, w, Commit(p))
    ensures FileInv(ApplyCommit(w, p))
  {
    hide OccupiedBytes, Intact, LockInv, ReferenceInv, UniqueDigests;
  }

  lemma CommitKeepsProcesses(quota: nat, w: World, p: nat)
    requires Inv(quota, w) && Enabled(quota, w, Commit(p))
    ensures ProcessInv(quota, ApplyCommit(w, p))
  {
    hide OccupiedBytes, Intact, FileInv, ReferenceInv, StrandedInv, UniqueDigests;
  }

  lemma CommitKeeps(quota: nat, w: World, p: nat)
    requires Inv(quota, w) && Enabled(quota, w, Commit(p))
    ensures Inv(quota, ApplyCommit(w, p))
  {
    CommitKeepsFiles(quota, w, p);
    CommitKeepsProcesses(quota, w, p);
    CommitKeepsRows(quota, w, p);
    CommitKeepsReferences(quota, w, p);
    CommitKeepsOwners(quota, w, p);
    hide OccupiedBytes, Intact, FileInv, ProcessInv, RowInv, QuotaInv, StrandedInv, OwnerInv, LockInv, ReferenceInv;
  }

  lemma CommitKeepsOwners(quota: nat, w: World, p: nat)
    requires Inv(quota, w) && Enabled(quota, w, Commit(p))
    ensures LockInv(ApplyCommit(w, p)) && OwnerInv(ApplyCommit(w, p))
  {
    assert ProcessOk(quota, w, p, w.processes[p]);
    hide OccupiedBytes, Intact, FileInv, UniqueDigests, StrandedInv, QuotaInv, ReferenceInv, ProcessInv;
  }

  lemma CommitKeepsReferences(quota: nat, w: World, p: nat)
    requires Inv(quota, w) && Enabled(quota, w, Commit(p))
    ensures ReferenceInv(ApplyCommit(w, p))
  {
    assert ProcessOk(quota, w, p, w.processes[p]);
    hide OccupiedBytes, Intact, FileInv, UniqueDigests, StrandedInv, QuotaInv, LockInv, OwnerInv, ProcessInv;
  }

  lemma CommitKeepsRows(quota: nat, w: World, p: nat)
    requires Inv(quota, w) && Enabled(quota, w, Commit(p))
    ensures RowInv(ApplyCommit(w, p)) && QuotaInv(quota, ApplyCommit(w, p)) && StrandedInv(ApplyCommit(w, p))
  {
    if w.processes[p].row.Some? {
      OccupiedAppend(w.rows, w.processes[p].row.value);
    }
    hide OccupiedBytes, Intact, FileInv, ReferenceInv;
  }

  lemma ReleaseFailKeeps(quota: nat, w: World, p: nat)
    requires Inv(quota, w) && Enabled(quota, w, ReleaseFail(p))
    ensures Inv(quota, ApplyReleaseFail(w, p))
  {
    CommitKeeps(quota, w, p);
    assert ProcessOk(quota, w, p, w.processes[p]);
    var committed := ApplyCommit(w, p);
    var key := w.processes[p].row.value.storageKey;
    assert p !in committed.processes && committed.owners[key] == OfRow(|w.rows|);
    hide ApplyCommit;
    MistakenKeeps(quota, committed, p, key, |w.rows|);
  }

  /** A process that holds the key of a committed row does not disturb anything yet. */
  lemma MistakenKeeps(quota: nat, w: World, p: nat, key: nat, blob: nat)
    requires Inv(quota, w) && p !in w.processes && key in w.owners && w.owners[key] == OfRow(blob)
    ensures Inv(quota, w.(processes := w.processes[p := Mistaken(key, blob)]))
  {
    hide OccupiedBytes, Intact, UniqueDigests;
  }

  lemma RemoveCommittedKeeps(quota: nat, w: World, p: nat)
    requires Inv(quota, w) && Enabled(quota, w, RemoveCommitted(p))
    ensures Inv(quota, ApplyRemoveCommitted(w, p))
  {
    assert ProcessOk(quota, w, p, w.processes[p]);
    RemoveCommittedKeepsFiles(quota, w, p);
    RemoveCommittedKeepsProcesses(quota, w, p);
    hide OccupiedBytes, FileInv, ProcessInv, Intact, UniqueDigests;
  }

  lemma RemoveCommittedKeepsProcesses(quota: nat, w: World, p: nat)
    requires Inv(quota, w) && Enabled(quota, w, RemoveCommitted(p))
    ensures ProcessInv(quota, ApplyRemoveCommitted(w, p))
  {
    assert ProcessOk(quota, w, p, w.processes[p]);
    hide OccupiedBytes, FileInv, ReferenceInv, StrandedInv, UniqueDigests;
  }

  lemma RemoveCommittedKeepsFiles(quota: nat, w: World, p: nat)
    requires Inv(quota, w) && Enabled(quota, w, RemoveCommitted(p))
    ensures FileInv(ApplyRemoveCommitted(w, p))
  {
    hide OccupiedBytes, LockInv, ReferenceInv, UniqueDigests;
    assert ProcessOk(quota, w, p, w.processes[p]);
    hide ProcessInv;
  }

  lemma ReconcileAdvances(rows: seq<Blob>, referenced: set<nat>, files: map<BlobName, File>, now: int)
    ensures TableAdvances(rows, ReconcileRows(rows, referenced, files, now))
  {
  }

  lemma OccupiedShrinks(before: seq<Blob>, after: seq<Blob>)
    requires |before| == |after| && TableAdvances(before, after)
    ensures OccupiedBytes(after) <= OccupiedBytes(before)
  {
    OccupiedConservation(before, after, |before|);
  }

  lemma ReconcileKeeps(quota: nat, w: World, now: int)
    requires Inv(quota, w) && w.lock.None?
    ensures Inv(quota, w.(rows := ReconcileRows(w.rows, w.references.Values, w.files, now)))
  {
    var rows := ReconcileRows(w.rows, w.references.Values, w.files, now);
    ReconcileAdvances(w.rows, w.references.Values, w.files, now);
    OccupiedShrinks(w.rows, rows);
    ReconcileKeepsFiles(quota, w, now);
    hide OccupiedBytes, FileInv;
    forall ref | ref in w.references ensures w.references[ref] in w.references.Values {}
  }

  lemma ReconcileKeepsFiles(quota: nat, w: World, now: int)
    requires Inv(quota, w) && w.lock.None?
    ensures FileInv(w.(rows := ReconcileRows(w.rows, w.references.Values, w.files, now)))
  {
    hide OccupiedBytes, ReferenceInv, StrandedInv, ProcessInv;
  }

  lemma CleanupBeginKeeps(quota: nat, w: World, p: nat, now: int, grace: int)
    requires Inv(quota, w) && Enabled(quota, w, CleanupBegin(p, now, grace))
    ensures Inv(quota, Apply(quota, w, CleanupBegin(p, now, grace)))
  {
    hide Inv, ReconcileRows;
    var v := w.(rows := ReconcileRows(w.rows, w.references.Values, w.files, now));
    ReconcileKeeps(quota, w, now);
    SweepBegins(quota, v, p, now, now - grace);
  }

  /** Taking the lock to sweep a table that nobody else is changing. */
  lemma SweepBegins(quota: nat, v: World, p: nat, now: int, cutoff: int)
    requires Inv(quota, v) && p !in v.processes && v.lock.None?
    ensures Inv(quota, v.(processes := v.processes[p := Sweeping(now, cutoff, v.references.Values, {})],
                          lock := Some(p)))
  {
    hide OccupiedBytes, Intact;
  }

  lemma CleanupCommitKeepsFiles(quota: nat, w: World, p: nat)
    requires Inv(quota, w) && Enabled(quota, w, CleanupCommit(p))
    ensures FileInv(ApplyCleanupCommit(w, p))
  {
    hide OccupiedBytes, LockInv, ReferenceInv, UniqueDigests;
    assert ProcessOk(quota, w, p, w.processes[p]);
    hide ProcessInv;
  }

  lemma CleanupCommitKeeps(quota: nat, w: World, p: nat)
    requires Inv(quota, w) && Enabled(quota, w, CleanupCommit(p))
    ensures Inv(quota, ApplyCleanupCommit(w, p))
  {
    CleanupCommitKeepsFiles(quota, w, p);
    CleanupCommitKeepsRows(quota, w, p);
    CleanupCommitKeepsProcesses(quota, w, p);
    CleanupCommitKeepsOwners(quota, w, p);
    hide OccupiedBytes, Intact, FileInv, RowInv, ReferenceInv, QuotaInv, StrandedInv, ProcessInv, LockInv, OwnerInv;
  }

  lemma CleanupCommitKeepsRows(quota: nat, w: World, p: nat)
    requires Inv(quota, w) && Enabled(quota, w, CleanupCommit(p))
    ensures var v := ApplyCleanupCommit(w, p);
            RowInv(v) && ReferenceInv(v) && QuotaInv(quota, v) && StrandedInv(v)
  {
    var q := w.processes[p];
    OccupiedShrinks(w.rows, MarkDeleted(w.rows, |w.rows|, q.swept, q.now));
    assert ProcessOk(quota, w, p, q);
    hide OccupiedBytes, Intact, FileInv, ProcessInv, LockInv, OwnerInv;
    forall ref | ref in w.references ensures w.references[ref] !in q.swept {
      assert w.references[ref] in w.references.Values;
    }
  }

  lemma CleanupCommitKeepsProcesses(quota: nat, w: World, p: nat)
    requires Inv(quota, w) && Enabled(quota, w, CleanupCommit(p))
    ensures ProcessInv(quota, ApplyCleanupCommit(w, p))
  {
    var q := w.processes[p];
    OccupiedShrinks(w.rows, MarkDeleted(w.rows, |w.rows|, q.swept, q.now));
    hide OccupiedBytes, Intact, FileInv, ReferenceInv, StrandedInv, UniqueDigests;
  }

  lemma CleanupCommitKeepsOwners(quota: nat, w: World, p: nat)
    requires Inv(quota, w) && Enabled(quota, w, CleanupCommit(p))
    ensures LockInv(ApplyCleanupCommit(w, p)) && OwnerInv(ApplyCleanupCommit(w, p))
  {
    hide OccupiedBytes, Intact, FileInv, ReferenceInv, StrandedInv, UniqueDigests, ProcessInv;
  }

  /** One step, of any process, the operating system or an outsider. */
  lemma StepKeepsInv(quota: nat, w: World, s: Step)
    requires Inv(quota, w) && Enabled(quota, w, s)
    ensures Inv(quota, Apply(quota, w, s))
  {
    hide Inv;
    match s
    case Begin(p, data, ref) => BeginKeeps(quota, w, p, data, ref);
    case Acquire(p) => AcquireKeeps(quota, w, p);
    case AdmitBytes(p, key, mime, now) => AdmitKeeps(quota, w, p, key, mime, now);
    case GiveUp(p) => EndKeeps(quota, w, p);
    case FlushFail(p) => RemovalKeeps(quota, w, p);
    case Commit(p) => CommitKeeps(quota, w, p);
    case Rollback(p) => RollbackKeeps(quota, w, p);
    case Compensate(p) => RemovalKeeps(quota, w, p);
    case ReleaseFail(p) => ReleaseFailKeeps(quota, w, p);
    case RemoveCommitted(p) => RemoveCommittedKeeps(quota, w, p);
    case Crash(p) => CrashKeeps(quota, w, p);
    case Reconcile(now) => ReconcileKeeps(quota, w, now);
    case CleanupBegin(p, now, grace) => CleanupBeginKeeps(quota, w, p, now, grace);
    case Unlink(p, i) => UnlinkKeeps(quota, w, p, i);
    case CleanupCommit(p) => CleanupCommitKeeps(quota, w, p);
    case Dereference(ref) => DereferenceKeeps(quota, w, ref);
    case Outside(name, file) => OutsideKeeps(quota, w, name, file);
  }
}
