/** What the content store guarantees over every run: garbage collection is safe, files and rows
    agree, statuses only move forward, orphans get their grace period, and the quota holds. */
module ContentSafety {
  import opened Wrappers
  import opened ContentBlobs
  import opened ContentProtocol
  import opened ContentInvariant

  ghost predicate IsRun(quota: nat, ws: seq<World>, steps: seq<Step>) {
    && |ws| == |steps| + 1
    && ws[0] == EMPTY
    && forall i :: 0 <= i < |steps| ==> Enabled(quota, ws[i], steps[i]) && ws[i + 1] == Apply(quota, ws[i], steps[i])
  }

  lemma {:induction false} RunInv(quota: nat, ws: seq<World>, steps: seq<Step>, j: nat)
    requires IsRun(quota, ws, steps) && j < |ws|
    ensures Inv(quota, ws[j])
  {
    hide Inv, Apply;
    if j == 0 {
      InitialInv(quota);
    } else {
      RunInv(quota, ws, steps, j - 1);
      StepKeepsInv(quota, ws[j - 1], steps[j - 1]);
    }
  }

  // ----- rows only move forward -----

  lemma StepAdvances(quota: nat, w: World, s: Step)
    requires Inv(quota, w) && Enabled(quota, w, s)
    ensures TableAdvances(w.rows, Apply(quota, w, s).rows)
  {
    hide OccupiedBytes, FileInv, LockInv, ReferenceInv, OwnerInv, RowInv;
    if s.CleanupCommit? {
      assert ProcessOk(quota, w, s.p, w.processes[s.p]);
    }
    hide ProcessInv;
  }

  /** Over any stretch of a run no row loses its identity, moves its status back, or has the time
      stamp of its orphaning changed while it stays orphaned. */
  lemma {:induction false} RunAdvances(quota: nat, ws: seq<World>, steps: seq<Step>, i: nat, j: nat)
    requires IsRun(quota, ws, steps) && i <= j < |ws|
    ensures TableAdvances(ws[i].rows, ws[j].rows)
    decreases j
  {
    hide Inv, Apply, Enabled;
    if i < j {
      RunAdvances(quota, ws, steps, i, j - 1);
      RunInv(quota, ws, steps, j - 1);
      StepAdvances(quota, ws[j - 1], steps[j - 1]);
      TableAdvancesTransitive(ws[i].rows, ws[j - 1].rows, ws[j].rows);
    }
  }

  // ----- garbage-collection safety -----

  /** A committed reference points at an active or missing blob in every state of every run, and
      there is at most one row per digest and per key. */
  lemma GarbageSafety(quota: nat, ws: seq<World>, steps: seq<Step>, j: nat, ref: Reference)
    requires IsRun(quota, ws, steps) && j < |ws| && ref in ws[j].references
    ensures ws[j].references[ref] < |ws[j].rows|
    ensures ws[j].rows[ws[j].references[ref]].status in {Active, Missing}
    ensures UniqueDigests(ws[j].rows)
    ensures forall a, b :: 0 <= a < b < |ws[j].rows| ==> ws[j].rows[a].storageKey != ws[j].rows[b].storageKey
  {
    RunInv(quota, ws, steps, j);
    hide FileInv, ProcessInv, QuotaInv;
  }

  /** Apart from outsiders, the file of a referenced blob changes in exactly one case: the operation that
      committed the row removes it after a failed release of the lock. */
  lemma ReferencedFileKept(quota: nat, w: World, s: Step, ref: Reference)
    requires Inv(quota, w) && Enabled(quota, w, s) && ref in w.references && !s.Outside?
    requires StorageKey(w.rows[w.references[ref]].storageKey) in w.files
    ensures var key := w.rows[w.references[ref]].storageKey;
            var name, after := StorageKey(key), Apply(quota, w, s).files;
            && (name !in after <==> s.RemoveCommitted? && w.processes[s.p].key == key && w.files[name].safe)
            && (name in after ==> after[name] == w.files[name])
  {
    hide OccupiedBytes, FileInv, StrandedInv, UniqueDigests;
    var b := w.references[ref];
    if s.Unlink? {
      assert b in w.references.Values;
      assert ProcessOk(quota, w, s.p, w.processes[s.p]);
    } else if (s.FlushFail? || s.Compensate?) {
      assert ProcessOk(quota, w, s.p, w.processes[s.p]);
    }
    hide ProcessInv;
  }

  /** One thumbnail whose release of the lock fails: its variant is committed as ready, its row is active,
      and its file is gone. */
  lemma CommittedFileRemovedExample(data: Bytes, quota: nat)
    requires 0 < |data| <= quota
    ensures var steps := [Begin(1, data, VariantOf(7)), Acquire(1), AdmitBytes(1, 3, "image/jpeg", 0), ReleaseFail(1),
                          RemoveCommitted(1)];
            exists ws: seq<World> ::
              IsRun(quota, ws, steps) && ws[5].references == map[VariantOf(7) := 0]
              && |ws[5].rows| == 1 && ws[5].rows[0].status == Active && ws[5].rows[0].sha256 == Sha256(data)
              && ws[5].files == map[]
  {
    var ref, row := VariantOf(7), Blob(3, Sha256(data), |data|, "image/jpeg", Active, Some(0));
    var w0 := EMPTY;
    var w1 := w0.(processes := map[1 := Staged(data, ref)]);
    var w2 := w1.(processes := map[1 := Holding(data, ref)], lock := Some(1));
    var w3 := w2.(processes := map[1 := Admitted(data, ref, 0, Some(row))],
                  files := map[StorageKey(3) := File(data, 0, true)], owners := map[3 := OfProcess(1)]);
    var w4 := w3.(processes := map[1 := Mistaken(3, 0)], rows := [row], references := map[ref := 0],
                  owners := map[3 := OfRow(0)], lock := None);
    var w5 := w4.(processes := map[], files := map[], lost := {0});
    hide OccupiedBytes, Admit, ReconcileRows, MarkDeleted, Leads, IsRun;
    Starts(quota, data, w1, w2);
    AdmitsFirst(quota, w2, data, w3);
    Finishes(quota, w3, data, w4, w5);
    FiveSteps(quota, [w0, w1, w2, w3, w4, w5],
              [Begin(1, data, ref), Acquire(1), AdmitBytes(1, 3, "image/jpeg", 0), ReleaseFail(1), RemoveCommitted(1)]);
  }

  ghost predicate Leads(quota: nat, w: World, s: Step, after: World) {
    Enabled(quota, w, s) && Apply(quota, w, s) == after
  }

  lemma Starts(quota: nat, data: Bytes, w1: World, w2: World)
    requires data != []
    requires w1 == EMPTY.(processes := map[1 := Staged(data, VariantOf(7))])
    requires w2 == w1.(processes := map[1 := Holding(data, VariantOf(7))], lock := Some(1))
    ensures Leads(quota, EMPTY, Begin(1, data, VariantOf(7)), w1) && Leads(quota, w1, Acquire(1), w2)
  {
    hide Admit, ReconcileRows, MarkDeleted;
  }

  lemma Finishes(quota: nat, w3: World, data: Bytes, w4: World, w5: World)
    requires w3.rows == [] && w3.references == map[] && w3.lost == {} && w3.lock == Some(1)
    requires w3.owners == map[3 := OfProcess(1)] && w3.files == map[StorageKey(3) := File(data, 0, true)]
    requires var row := Blob(3, Sha256(data), |data|, "image/jpeg", Active, Some(0));
             && w3.processes == map[1 := Admitted(data, VariantOf(7), 0, Some(row))]
             && w4 == w3.(processes := map[1 := Mistaken(3, 0)], rows := [row], references := map[VariantOf(7) := 0],
                          owners := map[3 := OfRow(0)], lock := None)
    requires w5 == w4.(processes := map[], files := map[], lost := {0})
    ensures Leads(quota, w3, ReleaseFail(1), w4) && Leads(quota, w4, RemoveCommitted(1), w5)
  {
    hide Admit, ReconcileRows, MarkDeleted;
    assert w3.rows + [w4.rows[0]] == w4.rows;
  }

  lemma AdmitsFirst(quota: nat, w: World, data: Bytes, after: World)
    requires 0 < |data| <= quota && w.rows == [] && w.owners == map[] && w.files == map[] && w.touched == {}
    requires w.processes == map[1 := Holding(data, VariantOf(7))]
    requires var row := Blob(3, Sha256(data), |data|, "image/jpeg", Active, Some(0));
             after == w.(processes := map[1 := Admitted(data, VariantOf(7), 0, Some(row))],
                         files := map[StorageKey(3) := File(data, 0, true)], owners := map[3 := OfProcess(1)])
    ensures Leads(quota, w, AdmitBytes(1, 3, "image/jpeg", 0), after)
  {
    assert AdmissionOf(quota, w, w.processes[1]) == Install;
    hide Admit;
  }

  lemma FiveSteps(quota: nat, ws: seq<World>, steps: seq<Step>)
    requires |ws| == 6 && |steps| == 5 && ws[0] == EMPTY
    requires Leads(quota, ws[0], steps[0], ws[1]) && Leads(quota, ws[1], steps[1], ws[2])
    requires Leads(quota, ws[2], steps[2], ws[3]) && Leads(quota, ws[3], steps[3], ws[4])
    requires Leads(quota, ws[4], steps[4], ws[5])
    ensures IsRun(quota, ws, steps)
  {
    hide Enabled, Apply;
  }

  // ----- files and rows -----

  ghost predicate InFlight(q: Process) {
    PendingKey(q).Some? || q.Sweeping?
  }

  /** The file of a row that the table says is still stored. */
  ghost predicate StoredName(rows: seq<Blob>, name: BlobName) {
    exists i :: 0 <= i < |rows| && Occupies(rows[i]) && name == StorageKey(rows[i].storageKey)
  }

  ghost predicate BeingSwept(w: World, i: nat) {
    && w.lock.Some? && w.lock.value in w.processes && w.processes[w.lock.value].Sweeping?
    && i in w.processes[w.lock.value].swept
  }

  /** Without crashes a stranded row is deleted, or its sweep is still running. */
  ghost predicate SweptOrDeleted(w: World) {
    forall i :: i in w.stranded ==> i < |w.rows| && (w.rows[i].status == Deleted || BeingSwept(w, i))
  }

  ghost predicate Unharmed(w: World) {
    && (forall k :: k in w.owners ==> w.owners[k] != Leaked)
    && w.touched == {} && w.lost == {} && (forall p :: p in w.processes ==> !w.processes[p].Mistaken?)
  }

  ghost predicate Orderly(w: World) {
    Unharmed(w) && SweptOrDeleted(w)
  }

  lemma StepUnharmed(quota: nat, w: World, s: Step)
    requires Enabled(quota, w, s) && Unharmed(w) && !s.Crash? && !s.Outside? && !s.ReleaseFail?
    ensures Unharmed(Apply(quota, w, s))
  {
    hide Admit, ReconcileRows;
  }

  lemma StepSweptOrDeleted(quota: nat, w: World, s: Step)
    requires Inv(quota, w) && Enabled(quota, w, s) && SweptOrDeleted(w) && !s.Crash?
    ensures SweptOrDeleted(Apply(quota, w, s))
  {
    hide OccupiedBytes, FileInv, ReferenceInv, RowInv, ProcessInv, UniqueDigests, Intact, Admit;
  }

  lemma StepOrderly(quota: nat, w: World, s: Step)
    requires Inv(quota, w) && Enabled(quota, w, s) && Orderly(w) && !s.Crash? && !s.Outside? && !s.ReleaseFail?
    ensures Orderly(Apply(quota, w, s))
  {
    StepSweptOrDeleted(quota, w, s);
    StepUnharmed(quota, w, s);
    hide Inv, Enabled, Apply, Unharmed, SweptOrDeleted;
  }

  lemma {:induction false} RunOrderly(quota: nat, ws: seq<World>, steps: seq<Step>, j: nat)
    requires IsRun(quota, ws, steps) && j < |ws|
    requires forall i :: 0 <= i < |steps| ==> !steps[i].Crash? && !steps[i].Outside? && !steps[i].ReleaseFail?
    ensures Orderly(ws[j])
  {
    hide Inv, Apply;
    if j == 0 {
    } else {
      RunOrderly(quota, ws, steps, j - 1);
      RunInv(quota, ws, steps, j - 1);
      StepOrderly(quota, ws[j - 1], steps[j - 1]);
    }
  }

  /** Without crashes, failed releases of the lock and outside changes, whenever no install, compensation
      or sweep is in flight the blob directory holds exactly the files of the active and orphaned rows, each intact. */
  lemma FileRowAgreement(quota: nat, ws: seq<World>, steps: seq<Step>, j: nat)
    requires IsRun(quota, ws, steps) && j < |ws|
    requires forall i :: 0 <= i < |steps| ==> !steps[i].Crash? && !steps[i].Outside? && !steps[i].ReleaseFail?
    requires forall p :: p in ws[j].processes ==> !InFlight(ws[j].processes[p])
    ensures forall name :: name in ws[j].files <==> StoredName(ws[j].rows, name)
    ensures forall i :: 0 <= i < |ws[j].rows| && Occupies(ws[j].rows[i]) ==> Intact(ws[j].rows[i], ws[j].files)
  {
    var w := ws[j];
    RunInv(quota, ws, steps, j);
    RunOrderly(quota, ws, steps, j);
    AgreementHere(quota, w);
  }

  lemma AgreementHere(quota: nat, w: World)
    requires Inv(quota, w) && Orderly(w)
    requires forall p :: p in w.processes ==> !InFlight(w.processes[p])
    ensures forall name :: name in w.files <==> StoredName(w.rows, name)
    ensures forall i :: 0 <= i < |w.rows| && Occupies(w.rows[i]) ==> Intact(w.rows[i], w.files)
  {
    hide OccupiedBytes, Intact, ProcessInv, LockInv, ReferenceInv;
    forall name | name in w.files ensures StoredName(w.rows, name) {
      assert name.StorageKey?;
      assert Expected(w, name.uuid);
    }
    forall i | 0 <= i < |w.rows| && Occupies(w.rows[i])
      ensures StorageKey(w.rows[i].storageKey) in w.files && Intact(w.rows[i], w.files)
    {
      assert Expected(w, w.rows[i].storageKey);
    }
  }

  /** In every state of every run, crashes, failed releases and outsiders included: apart from names changed
      from outside, a file lies in the blob directory exactly if it belongs to an active or orphaned row
      whose file no sweep and no mistaken handler removed, or to a process that still answers for it, or
      was leaked; and the files of rows are intact. */
  lemma FilesExact(quota: nat, ws: seq<World>, steps: seq<Step>, j: nat, k: nat)
    requires IsRun(quota, ws, steps) && j < |ws| && StorageKey(k) !in ws[j].touched
    ensures var w := ws[j];
            && (StorageKey(k) in w.files <==>
                  || (exists i :: 0 <= i < |w.rows| && w.rows[i].storageKey == k && Occupies(w.rows[i])
                                  && i !in w.stranded && i !in w.lost)
                  || (exists p :: p in w.processes && PendingKey(w.processes[p]) == Some(k))
                  || (k in w.owners && w.owners[k] == Leaked))
            && forall i :: 0 <= i < |w.rows| && w.rows[i].storageKey == k && StorageKey(k) in w.files ==>
                 Intact(w.rows[i], w.files)
  {
    var w := ws[j];
    RunInv(quota, ws, steps, j);
    hide OccupiedBytes, Intact, LockInv, ReferenceInv, UniqueDigests, IsRun;
    assert StorageKey(k) in w.files <==> Expected(w, k);
    if p :| p in w.processes && PendingKey(w.processes[p]) == Some(k) {
      assert ProcessOk(quota, w, p, w.processes[p]);
    }
  }

  /** Compensation removes exactly the file its own operation installed; no row ever had that key. */
  lemma RemovalExact(quota: nat, w: World, s: Step)
    requires Inv(quota, w) && Enabled(quota, w, s) && (s.FlushFail? || s.Compensate?)
    requires StorageKey(PendingKey(w.processes[s.p]).value) !in w.touched
    ensures Apply(quota, w, s).files == w.files - {StorageKey(PendingKey(w.processes[s.p]).value)}
    ensures StorageKey(PendingKey(w.processes[s.p]).value) in w.files
    ensures forall i :: 0 <= i < |w.rows| ==> w.rows[i].storageKey != PendingKey(w.processes[s.p]).value
    ensures Apply(quota, w, s).rows == w.rows && Apply(quota, w, s).references == w.references
  {
    hide OccupiedBytes, Intact, ReferenceInv, StrandedInv, UniqueDigests;
    assert ProcessOk(quota, w, s.p, w.processes[s.p]);
    assert Expected(w, PendingKey(w.processes[s.p]).value);
  }

  /** The removal after a failed release of the lock, in contrast, hits the file of a committed row. */
  lemma MistakenRemovalOwned(quota: nat, w: World, s: Step)
    requires Inv(quota, w) && Enabled(quota, w, s) && s.RemoveCommitted?
    requires StorageKey(w.processes[s.p].key) !in w.touched
    ensures var q, after := w.processes[s.p], Apply(quota, w, s);
            && q.blob < |w.rows| && w.rows[q.blob].storageKey == q.key
            && after.files == w.files - {StorageKey(q.key)}
            && after.rows == w.rows && after.references == w.references
  {
    hide OccupiedBytes, ReferenceInv, StrandedInv, UniqueDigests, LockInv;
    assert ProcessOk(quota, w, s.p, w.processes[s.p]);
    hide ProcessInv;
  }

  lemma LeakedIsUncertain(quota: nat, w: World, k: nat)
    requires Inv(quota, w) && k in w.owners && w.owners[k] == Leaked && StorageKey(k) in w.files
    ensures StorageKey(k) in UncertainBlobs(w.rows, w.files)
  {
    KnownNamesExact(w.rows, |w.rows|);
    hide OccupiedBytes, FileInv, ReferenceInv, StrandedInv, UniqueDigests, Intact, ProcessInv, LockInv, OwnerInv,
         KnownNames, SuspectNames;
  }

  /** A file left behind by a crash between rename and commit is reported by every later pass and
      removed by none of its steps. */
  lemma LeakedFileStays(quota: nat, w: World, s: Step, k: nat)
    requires Inv(quota, w) && Enabled(quota, w, s)
    requires k in w.owners && w.owners[k] == Leaked && StorageKey(k) in w.files
    requires !(s.Outside? && s.name == StorageKey(k))
    ensures StorageKey(k) in UncertainBlobs(w.rows, w.files)
    ensures var w' := Apply(quota, w, s);
            && k in w'.owners && w'.owners[k] == Leaked
            && StorageKey(k) in w'.files && w'.files[StorageKey(k)] == w.files[StorageKey(k)]
  {
    LeakedIsUncertain(quota, w, k);
    hide Inv, UncertainBlobs, Apply;
    LeakKept(quota, w, s, k);
  }

  lemma LeakKept(quota: nat, w: World, s: Step, k: nat)
    requires Inv(quota, w) && Enabled(quota, w, s)
    requires k in w.owners && w.owners[k] == Leaked && StorageKey(k) in w.files
    requires !(s.Outside? && s.name == StorageKey(k))
    ensures var w' := Apply(quota, w, s);
            && k in w'.owners && w'.owners[k] == Leaked
            && StorageKey(k) in w'.files && w'.files[StorageKey(k)] == w.files[StorageKey(k)]
  {
    hide OccupiedBytes, FileInv, ReferenceInv, StrandedInv, UniqueDigests, Intact, LockInv, QuotaInv, ReconcileRows,
         MarkDeleted, FindDigest;
    if s.FlushFail? || s.Compensate? || s.Commit? || s.ReleaseFail? || s.RemoveCommitted? || s.Crash? {
      assert ProcessOk(quota, w, s.p, w.processes[s.p]);
    }
    hide ProcessInv;
  }

  // ----- grace period -----

  function PassTime(s: Step): Option<int> {
    match s
    case Reconcile(now) => Some(now)
    case CleanupBegin(_, now, _) => Some(now)
    case _ => None
  }

  /** Pass number i, at time t, moved blob b from active to orphaned. */
  ghost predicate Orphans(ws: seq<World>, steps: seq<Step>, i: nat, b: nat, t: int)
    requires i < |steps| && |ws| == |steps| + 1
  {
    && PassTime(steps[i]) == Some(t)
    && b < |ws[i].rows| && ws[i].rows[b].status == Active
    && b < |ws[i + 1].rows| && ws[i + 1].rows[b].status == Orphaned && ws[i + 1].rows[b].verifiedAt == Some(t)
  }

  /** An orphaned row was orphaned by one pass and has not changed since. */
  lemma {:induction false} OrphanOrigin(quota: nat, ws: seq<World>, steps: seq<Step>, j: nat, b: nat)
      returns (i: nat, t: int)
    requires IsRun(quota, ws, steps) && j < |ws| && b < |ws[j].rows| && ws[j].rows[b].status == Orphaned
    ensures i < j && Orphans(ws, steps, i, b, t)
    ensures forall k :: i < k <= j ==> b < |ws[k].rows| && ws[k].rows[b] == ws[j].rows[b]
  {
    hide Inv;
    RunInv(quota, ws, steps, j - 1);
    OrphanStep(quota, ws[j - 1], steps[j - 1], b);
    if b < |ws[j - 1].rows| && ws[j - 1].rows[b] == ws[j].rows[b] {
      i, t := OrphanOrigin(quota, ws, steps, j - 1, b);
    } else {
      i, t := j - 1, PassTime(steps[j - 1]).value;
    }
  }

  lemma OrphanStep(quota: nat, w: World, s: Step, b: nat)
    requires Inv(quota, w) && Enabled(quota, w, s)
    requires b < |Apply(quota, w, s).rows| && Apply(quota, w, s).rows[b].status == Orphaned
    ensures b < |w.rows|
    ensures w.rows[b] == Apply(quota, w, s).rows[b]
            || (w.rows[b].status == Active && PassTime(s).Some? && Apply(quota, w, s).rows[b].verifiedAt == PassTime(s))
  {
    hide OccupiedBytes, FileInv, ReferenceInv, RowInv, LockInv, OwnerInv;
    if s.Commit? {
      assert ProcessOk(quota, w, s.p, w.processes[s.p]);
    }
    hide ProcessInv;
  }

  /** A blob is deleted only by the commit of a cleanup that began at step c.  The blob was orphaned
      by a pass at least that cleanup's grace period before the cleanup's own time, has been an orphan
      with a frozen time stamp ever since, and nothing references it. */
  lemma GracePeriod(quota: nat, ws: seq<World>, steps: seq<Step>, j: nat, b: nat) returns (i: nat, t: int, c: nat)
    requires IsRun(quota, ws, steps) && j < |steps|
    requires b < |ws[j].rows| && ws[j].rows[b].status != Deleted
    requires b < |ws[j + 1].rows| && ws[j + 1].rows[b].status == Deleted
    ensures i < j && Orphans(ws, steps, i, b, t)
    ensures c < j && steps[c].CleanupBegin? && steps[j] == CleanupCommit(steps[c].p)
    ensures t + steps[c].grace <= steps[c].now
    ensures ws[j + 1].rows[b].verifiedAt == Some(steps[c].now)
    ensures forall k :: i < k <= j ==>
              b < |ws[k].rows| && ws[k].rows[b].status == Orphaned && ws[k].rows[b].verifiedAt == Some(t)
    ensures b !in ws[j].references.Values
  {
    hide Inv, Apply;
    RunInv(quota, ws, steps, j);
    DeletionStep(quota, ws[j], steps[j], b);
    i, t := OrphanOrigin(quota, ws, steps, j, b);
    c := SweepCutoff(quota, ws, steps, j, steps[j].p);
  }

  lemma DeletionStep(quota: nat, w: World, s: Step, b: nat)
    requires Inv(quota, w) && Enabled(quota, w, s)
    requires b < |w.rows| && w.rows[b].status != Deleted
    requires b < |Apply(quota, w, s).rows| && Apply(quota, w, s).rows[b].status == Deleted
    ensures s.CleanupCommit? && w.processes[s.p].Sweeping? && b in w.processes[s.p].swept
    ensures Aged(w.rows[b], w.processes[s.p].cutoff) && b !in w.references.Values
    ensures Apply(quota, w, s).rows[b].verifiedAt == Some(w.processes[s.p].now)
  {
    hide OccupiedBytes, FileInv, ReferenceInv, RowInv, LockInv, OwnerInv;
    if s.CleanupCommit? {
      assert ProcessOk(quota, w, s.p, w.processes[s.p]);
    }
    hide ProcessInv;
  }

  /** The cutoff a sweep uses is its own start time minus the grace it was started with. */
  lemma {:induction false} SweepCutoff(quota: nat, ws: seq<World>, steps: seq<Step>, j: nat, p: nat) returns (c: nat)
    requires IsRun(quota, ws, steps) && j < |ws| && p in ws[j].processes && ws[j].processes[p].Sweeping?
    ensures c < j && steps[c].CleanupBegin? && steps[c].p == p
    ensures ws[j].processes[p].now == steps[c].now && ws[j].processes[p].cutoff == steps[c].now - steps[c].grace
  {
    hide Apply, Enabled;
    SweepStep(quota, ws[j - 1], steps[j - 1], p);
    if p in ws[j - 1].processes && ws[j - 1].processes[p].Sweeping? {
      c := SweepCutoff(quota, ws, steps, j - 1, p);
    } else {
      c := j - 1;
    }
  }

  lemma SweepStep(quota: nat, w: World, s: Step, p: nat)
    requires Enabled(quota, w, s)
    requires p in Apply(quota, w, s).processes && Apply(quota, w, s).processes[p].Sweeping?
    ensures var q := Apply(quota, w, s).processes[p];
            if p in w.processes && w.processes[p].Sweeping?
            then q.now == w.processes[p].now && q.cutoff == w.processes[p].cutoff
            else s.CleanupBegin? && s.p == p && q.now == s.now && q.cutoff == s.now - s.grace
  {
    hide Admit, ReconcileRows, MarkDeleted;
  }

  // ----- quota, and digests that are gone for good -----

  lemma RunQuota(quota: nat, ws: seq<World>, steps: seq<Step>, j: nat)
    requires IsRun(quota, ws, steps) && j < |ws|
    ensures OccupiedBytes(ws[j].rows) <= quota
  {
    RunInv(quota, ws, steps, j);
    hide OccupiedBytes;
  }

  /** Once a blob leaves the active state its bytes can never be admitted again: every later admission
      of the same digest is refused, also after the blob was deleted. */
  lemma LostDigestRefused(quota: nat, ws: seq<World>, steps: seq<Step>, i: nat, j: nat, b: nat, q: Process)
    requires IsRun(quota, ws, steps) && i <= j < |ws|
    requires b < |ws[i].rows| && ws[i].rows[b].status != Active
    requires q.Holding? && Sha256(q.data) == ws[i].rows[b].sha256
    ensures AdmissionOf(quota, ws[j], q) == Refuse(BlobUnavailable)
  {
    RunAdvances(quota, ws, steps, i, j);
    RunInv(quota, ws, steps, j);
    var rows := ws[j].rows;
    assert Advances(ws[i].rows[b], rows[b]);
    var found := FindDigest(rows, Sha256(q.data));
    assert rows[b].sha256 == Sha256(q.data);
    assert found.Some? && found.value == b;
  }

  /** Exactly the digests of which some blob has ever left the active state are refused in this way. */
  lemma LostDigestExactly(quota: nat, ws: seq<World>, steps: seq<Step>, j: nat, q: Process)
    requires IsRun(quota, ws, steps) && j < |ws| && q.Holding?
    ensures AdmissionOf(quota, ws[j], q) == Refuse(BlobUnavailable)
            <==> exists i, b :: 0 <= i <= j && 0 <= b < |ws[i].rows| && ws[i].rows[b].status != Active
                                && ws[i].rows[b].sha256 == Sha256(q.data)
  {
    hide IsRun;
    if AdmissionOf(quota, ws[j], q) == Refuse(BlobUnavailable) {
      var found := FindDigest(ws[j].rows, Sha256(q.data));
      assert found.Some? && ws[j].rows[found.value].status != Active;
    }
    if i, b :| 0 <= i <= j && 0 <= b < |ws[i].rows| && ws[i].rows[b].status != Active
               && ws[i].rows[b].sha256 == Sha256(q.data)
    {
      LostDigestRefused(quota, ws, steps, i, j, b, q);
    }
  }
}
