/** One cleanup call as a whole: its byte accounting, what it reports and yet removes, and that the
    in-place method does exactly what an undisturbed run of the step system does. */
module ContentCleanup {
  import opened Wrappers
  import opened ContentBlobs
  import opened ContentProtocol
  import opened ContentInvariant

  lemma SweepAdvances(rows: seq<Blob>, referenced: set<nat>, files: map<BlobName, File>, cutoff: int, now: int)
    ensures TableAdvances(rows, SweepRows(rows, referenced, files, cutoff, now))
  {
  }

  lemma {:induction false} NothingBecame(before: seq<Blob>, after: seq<Blob>, n: nat, s: BlobStatus)
    requires n <= |before| == |after|
    requires forall i :: 0 <= i < n ==> !Became(before[i], after[i], s)
    ensures BytesBecame(before, after, n, s) == 0
  {
    if n == 0 {
    } else {
      NothingBecame(before, after, n - 1, s);
    }
  }

  /** One cleanup lowers the quota sum by exactly the bytes it reports as reclaimed plus the sizes of
      the rows it newly marked missing. */
  lemma CleanupAccounting(rows: seq<Blob>, referenced: set<nat>, files: map<BlobName, File>, cutoff: int, now: int)
    ensures var reconciled := ReconcileRows(rows, referenced, files, now);
            var swept := SweepRows(reconciled, referenced, files, cutoff, now);
            OccupiedBytes(rows) - OccupiedBytes(swept)
            == BytesBecame(reconciled, swept, |rows|, Deleted) + BytesBecame(rows, reconciled, |rows|, Missing)
  {
    var reconciled := ReconcileRows(rows, referenced, files, now);
    var swept := SweepRows(reconciled, referenced, files, cutoff, now);
    hide ReconcileBelow, SweepBelow, BytesBecame, OccupiedBelow, Advances;
    ReconcileAdvances(rows, referenced, files, now);
    SweepAdvances(reconciled, referenced, files, cutoff, now);
    ReconcileDeletesNone(rows, referenced, files, now);
    SweepLosesNone(reconciled, referenced, files, cutoff, now);
    OccupiedConservation(rows, reconciled, |rows|);
    OccupiedConservation(reconciled, swept, |rows|);
  }

  lemma ReconcileDeletesNone(rows: seq<Blob>, referenced: set<nat>, files: map<BlobName, File>, now: int)
    ensures BytesBecame(rows, ReconcileRows(rows, referenced, files, now), |rows|, Deleted) == 0
  {
    hide BytesBecame, ReconcileBelow;
    NothingBecame(rows, ReconcileRows(rows, referenced, files, now), |rows|, Deleted);
  }

  lemma SweepLosesNone(rows: seq<Blob>, referenced: set<nat>, files: map<BlobName, File>, cutoff: int, now: int)
    ensures BytesBecame(rows, SweepRows(rows, referenced, files, cutoff, now), |rows|, Missing) == 0
  {
    hide BytesBecame, SweepBelow;
    NothingBecame(rows, SweepRows(rows, referenced, files, cutoff, now), |rows|, Missing);
  }

  // ----- reported as uncertain, and removed all the same -----

  /** A row whose file has the wrong length: the pass reports it and leaves the row alone, but
      `remove_installed` does not look at the length. */
  ghost predicate WrongLengthCandidate(rows: seq<Blob>, i: nat, referenced: set<nat>, files: map<BlobName, File>,
      cutoff: int)
    requires i < |rows|
  {
    var name := StorageKey(rows[i].storageKey);
    && Candidate(rows[i], i in referenced, cutoff)
    && name in files && files[name].safe && |files[name].data| != rows[i].sizeBytes
  }

  /** "Uncertain entries are reported and never removed" fails for exactly these files. */
  lemma ReportedYetRemoved(rows: seq<Blob>, referenced: set<nat>, files: map<BlobName, File>, cutoff: int, now: int,
      name: BlobName)
    requires UniqueKeys(rows)
    ensures var reconciled := ReconcileRows(rows, referenced, files, now);
            (name in UncertainBlobs(rows, files) && name in files
             && name !in SweepFiles(reconciled, |rows|, referenced, files, cutoff))
            <==> exists i :: 0 <= i < |rows| && name == StorageKey(rows[i].storageKey)
                             && WrongLengthCandidate(rows, i, referenced, files, cutoff)
  {
    var reconciled := ReconcileRows(rows, referenced, files, now);
    SweepFilesExact(reconciled, |rows|, referenced, files, cutoff);
    SuspectNamesExact(rows, files, |rows|);
    KnownNamesExact(rows, |rows|);
    hide SweepFiles, SuspectNames, KnownNames;
    if name in UncertainBlobs(rows, files) && name in files
        && SweptName(name, reconciled, |rows|, referenced, files, cutoff) {
      RemovedWasWrongLength(rows, referenced, files, cutoff, now, name);
    }
    if i :| 0 <= i < |rows| && name == StorageKey(rows[i].storageKey)
            && WrongLengthCandidate(rows, i, referenced, files, cutoff) {
      assert reconciled[i] == rows[i];
      assert SweptName(name, reconciled, |rows|, referenced, files, cutoff);
      assert SuspectRow(rows[i], files);
    }
  }

  lemma RemovedWasWrongLength(rows: seq<Blob>, referenced: set<nat>, files: map<BlobName, File>, cutoff: int,
      now: int, name: BlobName)
    requires UniqueKeys(rows) && name in files && name in UncertainBlobs(rows, files)
    requires SweptName(name, ReconcileRows(rows, referenced, files, now), |rows|, referenced, files, cutoff)
    ensures exists i :: 0 <= i < |rows| && name == StorageKey(rows[i].storageKey)
                        && WrongLengthCandidate(rows, i, referenced, files, cutoff)
  {
    var reconciled := ReconcileRows(rows, referenced, files, now);
    var k :| 0 <= k < |rows| && Candidate(reconciled[k], k in referenced, cutoff) && Removable(reconciled[k], files)
             && name == StorageKey(reconciled[k].storageKey);
    assert name == StorageKey(rows[k].storageKey);
    SuspectNamesExact(rows, files, |rows|);
    KnownNamesExact(rows, |rows|);
    hide SuspectNames, KnownNames, ReconcileBelow;
    var i :| 0 <= i < |rows| && SuspectRow(rows[i], files) && name == StorageKey(rows[i].storageKey);
    if i < k { DistinctKeysAt(rows, |rows|, i, k); }
    if k < i { DistinctKeysAt(rows, |rows|, k, i); }
    assert reconciled[i] == rows[i];
    assert WrongLengthCandidate(rows, i, referenced, files, cutoff);
  }

  /** A two-byte file under a one-byte row orphaned at time 0, cleaned at time 100 with grace 10. */
  lemma ReportedYetRemovedExample()
    ensures var rows := [Blob(1, Sha256([7]), 1, "image/png", Orphaned, Some(0))];
            var files := map[StorageKey(1) := File([7, 7], 0, true)];
            && StorageKey(1) in UncertainBlobs(rows, files)
            && StorageKey(1) !in SweepFiles(ReconcileRows(rows, {}, files, 100), 1, {}, files, 90)
  {
    var rows := [Blob(1, Sha256([7]), 1, "image/png", Orphaned, Some(0))];
    var files := map[StorageKey(1) := File([7, 7], 0, true)];
    assert WrongLengthCandidate(rows, 0, {}, files, 90);
    KnownNamesExact(rows, 0);
    assert UniqueKeys(rows);
    ReportedYetRemoved(rows, {}, files, 90, 100, StorageKey(1));
  }

  // ----- the method and the step system -----

  /** An undisturbed sweep: unlink, in row order, every removable candidate among the first n rows. */
  ghost function UnlinkAll(w: World, p: nat, n: nat): (r: World)
    requires p in w.processes && w.processes[p].Sweeping? && n <= |w.rows|
    ensures r.rows == w.rows && r.references == w.references && p in r.processes && r.processes[p].Sweeping?
    ensures r.processes[p].now == w.processes[p].now && r.processes[p].cutoff == w.processes[p].cutoff
    ensures r.processes[p].referenced == w.processes[p].referenced
  {
    if n == 0 then w
    else
      var v := UnlinkAll(w, p, n - 1);
      if Candidate(v.rows[n - 1], (n - 1) in v.processes[p].referenced, v.processes[p].cutoff)
         && Removable(v.rows[n - 1], v.files)
      then ApplyUnlink(v, p, n - 1) else v
  }

  /** Run by the steps, the sweep leaves the files that the in-place method promises. */
  lemma {:induction false} UnlinkAllFiles(w: World, p: nat, n: nat)
    requires p in w.processes && w.processes[p].Sweeping? && n <= |w.rows| && UniqueKeys(w.rows)
    ensures var q := w.processes[p];
            UnlinkAll(w, p, n).files == SweepFiles(w.rows, n, q.referenced, w.files, q.cutoff)
  {
    if n == 0 {
    } else {
      UnlinkAllFiles(w, p, n - 1);
      SweepFinds(w.rows, n - 1, w.processes[p].referenced, w.files, w.processes[p].cutoff);
      hide DistinctKeys, Candidate;
    }
  }

  lemma SweptStep(w: World, p: nat, n: nat)
    requires p in w.processes && w.processes[p].Sweeping? && 0 < n <= |w.rows| && UniqueKeys(w.rows)
    ensures var q, v := w.processes[p], UnlinkAll(w, p, n - 1);
            UnlinkAll(w, p, n).processes[p].swept
            == if Candidate(w.rows[n - 1], (n - 1) in q.referenced, q.cutoff) && Removable(w.rows[n - 1], w.files)
               then v.processes[p].swept + {n - 1} else v.processes[p].swept
  {
    hide Candidate, Removable, DistinctKeys, SweepFiles;
    var q := w.processes[p];
    UnlinkAllFiles(w, p, n - 1);
    SweepFinds(w.rows, n - 1, q.referenced, w.files, q.cutoff);
  }

  /** And it records exactly the rows whose file it removed. */
  lemma {:induction false} UnlinkAllSwept(w: World, p: nat, n: nat, i: nat)
    requires p in w.processes && w.processes[p].Sweeping? && w.processes[p].swept == {}
    requires n <= |w.rows| && UniqueKeys(w.rows)
    ensures var q := w.processes[p];
            i in UnlinkAll(w, p, n).processes[p].swept <==>
              i < n && Candidate(w.rows[i], i in q.referenced, q.cutoff) && Removable(w.rows[i], w.files)
  {
    assert UnlinkAll(w, p, 0) == w;
    hide UnlinkAll, SweepFiles, DistinctKeys, Candidate, Removable;
    if n == 0 {
    } else {
      UnlinkAllSwept(w, p, n - 1, i);
      hide UniqueKeys;
      SweptStep(w, p, n);
    }
  }

  /** Begin, sweep everything, commit: the step system ends in the state of one `Cleanup` call. */
  lemma CleanupRefines(quota: nat, w: World, p: nat, now: int, grace: int)
    requires Enabled(quota, w, CleanupBegin(p, now, grace)) && UniqueKeys(w.rows)
    ensures var begun := Apply(quota, w, CleanupBegin(p, now, grace));
            var done := ApplyCleanupCommit(UnlinkAll(begun, p, |begun.rows|), p);
            var reconciled := ReconcileRows(w.rows, w.references.Values, w.files, now);
            && done.rows == SweepRows(reconciled, w.references.Values, w.files, now - grace, now)
            && done.files == SweepFiles(reconciled, |reconciled|, w.references.Values, w.files, now - grace)
            && done.references == w.references
  {
    hide UnlinkAll, SweepFiles, ReconcileBelow, SweepBelow, MarkDeleted, DistinctKeys;
    var reconciled := ReconcileRows(w.rows, w.references.Values, w.files, now);
    ReconcileKeepsUniqueKeys(w.rows, w.references.Values, w.files, now);
    var sweeping := Sweeping(now, now - grace, w.references.Values, {});
    var begun := w.(rows := reconciled, processes := w.processes[p := sweeping], lock := Some(p));
    UnlinkAllFiles(begun, p, |reconciled|);
    forall i: nat
      ensures i in UnlinkAll(begun, p, |reconciled|).processes[p].swept <==>
                i < |reconciled| && Candidate(reconciled[i], i in w.references.Values, now - grace)
                && Removable(reconciled[i], w.files)
    {
      UnlinkAllSwept(begun, p, |reconciled|, i);
    }
    CommitIsSweepRows(UnlinkAll(begun, p, |reconciled|), p, reconciled, w.references.Values, w.files, now - grace, now);
  }

  lemma CommitIsSweepRows(v: World, p: nat, rows: seq<Blob>, referenced: set<nat>, files: map<BlobName, File>,
      cutoff: int, now: int)
    requires p in v.processes && v.processes[p].Sweeping? && v.rows == rows && v.processes[p].now == now
    requires forall i: nat :: i in v.processes[p].swept <==>
               i < |rows| && Candidate(rows[i], i in referenced, cutoff) && Removable(rows[i], files)
    ensures ApplyCleanupCommit(v, p).rows == SweepRows(rows, referenced, files, cutoff, now)
  {
  }

  // ----- an undisturbed upload -----

  /** Begin, wait for the lock, admit, commit: with the lock free and fresh names every step can be taken, and
      the end is that of the in-place upload: the reference leads to an active row with the bytes, which is new
      with a file of its own unless the bytes were there; or admission refuses and nothing changes. */
  lemma UploadRuns(quota: nat, w: World, p: nat, key: nat, data: Bytes, ref: Reference, mime: string, now: int)
    requires w.lock.None? && p !in w.processes && data != []
    requires key !in w.owners && StorageKey(key) !in w.files && StorageKey(key) !in w.touched
    ensures Enabled(quota, w, Begin(p, data, ref))
    ensures var begun := Apply(quota, w, Begin(p, data, ref));
            && Enabled(quota, begun, Acquire(p))
            && var held := Apply(quota, begun, Acquire(p));
               && Enabled(quota, held, AdmitBytes(p, key, mime, now))
               && var admitted := Apply(quota, held, AdmitBytes(p, key, mime, now));
                  match Admit(w.rows, w.files, Sha256(data), |data|, quota)
                  case Refuse(_) => admitted == w
                  case Reuse(i) =>
                    && Enabled(quota, admitted, Commit(p))
                    && Apply(quota, admitted, Commit(p)) == w.(references := w.references[ref := i])
                  case Install =>
                    && Enabled(quota, admitted, Commit(p))
                    && Apply(quota, admitted, Commit(p))
                       == w.(rows := w.rows + [Blob(key, Sha256(data), |data|, mime, Active, Some(now))],
                             files := w.files[StorageKey(key) := File(data, now, true)],
                             references := w.references[ref := |w.rows|], owners := w.owners[key := OfRow(|w.rows|)])
  {
    hide Admit, ReconcileRows, MarkDeleted, ApplyAdmit, ApplyCommit;
    var begun := Apply(quota, w, Begin(p, data, ref));
    var held := Apply(quota, begun, Acquire(p));
    assert held == w.(processes := w.processes[p := Holding(data, ref)], lock := Some(p));
    HeldUpload(quota, w, held, p, key, data, ref, mime, now);
  }

  lemma Forgotten(m: map<nat, Process>, p: nat, q: Process)
    requires p !in m
    ensures m[p := q] - {p} == m
  {
  }

  lemma HeldUpload(quota: nat, w: World, held: World, p: nat, key: nat, data: Bytes, ref: Reference, mime: string,
                   now: int)
    requires w.lock.None? && p !in w.processes
    requires held == w.(processes := w.processes[p := Holding(data, ref)], lock := Some(p))
    ensures var admitted := ApplyAdmit(quota, held, p, key, mime, now);
            match Admit(w.rows, w.files, Sha256(data), |data|, quota)
            case Refuse(_) => admitted == w
            case Reuse(i) =>
              && p in admitted.processes && admitted.processes[p].Admitted?
              && ApplyCommit(admitted, p) == w.(references := w.references[ref := i])
            case Install =>
              && p in admitted.processes && admitted.processes[p].Admitted?
              && ApplyCommit(admitted, p)
                 == w.(rows := w.rows + [Blob(key, Sha256(data), |data|, mime, Active, Some(now))],
                       files := w.files[StorageKey(key) := File(data, now, true)],
                       references := w.references[ref := |w.rows|], owners := w.owners[key := OfRow(|w.rows|)])
  {
    hide Admit;
    var row := Blob(key, Sha256(data), |data|, mime, Active, Some(now));
    match Admit(w.rows, w.files, Sha256(data), |data|, quota)
    case Refuse(_) => Forgotten(w.processes, p, Holding(data, ref));
    case Reuse(i) => Forgotten(w.processes, p, Admitted(data, ref, i, None));
    case Install => Forgotten(w.processes, p, Admitted(data, ref, |w.rows|, Some(row)));
  }
}
