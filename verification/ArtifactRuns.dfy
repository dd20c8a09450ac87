/** The artifact store over whole runs: its quota, its refusals, and which active rows can lose their files. */
module ArtifactRuns {
  import opened Wrappers
  import opened ContentBlobs
  import opened FileNames
  import opened ArtifactEviction
  import opened AutomationArtifacts

  /** The committed rows, the files and the jobs. */
  datatype Store = Store(rows: seq<Artifact>, files: Files, jobs: map<nat, JobStatus>)

  datatype Limits = Limits(maxSize: nat, quota: nat, retentionDays: nat, uploadRetentionDays: nat)

  /** A request answered early, one that got as far as its cleanup, a cleanup of its own, and changes of jobs
      and files by anyone else.  `kept` says whether, after a cleanup that stopped, the caller still commits
      the session: the job handler does when it records the failure, the upload handler does not. */
  datatype Event =
    | AnsweredEarly(q: Request, answer: Result<nat, ArtifactError>)
    | Admitted(q: Request, key: nat, now: int, faults: Faults, kept: bool, answer: Result<nat, ArtifactError>)
    | Cleaned(now: int, stops: Option<nat>, kept: bool)
    | JobsChanged(jobs: map<nat, JobStatus>)
    | FilesChanged(files: Files)

  function PolicyOf(s: Store, l: Limits, now: int, required: nat): Policy {
    Policy(now, required, s.jobs, l.quota, l.retentionDays, l.uploadRetentionDays)
  }

  /** What a stopped cleanup leaves once the session has ended. */
  function Stopped(s: Store, p: Policy, k: nat, kept: bool): Store
    requires k <= |OldestFirst(s.rows, |s.rows|)|
  {
    Store(if kept then StoppedRows(s.rows, s.files, k, p) else s.rows, EvictedUpTo(s.rows, s.files, k, p).files, s.jobs)
  }

  /** A uuid no file and no row carries. */
  predicate FreshKey(s: Store, key: nat) {
    key !in s.files && forall i :: 0 <= i < |s.rows| ==> s.rows[i].storageKey != key
  }

  /** The steps, as the contracts of `StoreBytes` and `CleanupLocked` state them. */
  ghost predicate Leads(s: Store, l: Limits, e: Event, after: Store) {
    match e
    case AnsweredEarly(q, answer) => after == s && EarlyAnswerOf(s.rows, s.files, l.maxSize, q) == Some(answer)
    case Admitted(q, key, now, f, kept, answer) => LeadsAdmitted(s, l, q, key, now, f, kept, answer, after)
    case Cleaned(now, stops, kept) =>
      var p := PolicyOf(s, l, now, 0);
      if Aborts(s.rows, stops) then after == Stopped(s, p, stops.value, kept)
      else after == Store(CleanupOf(s.rows, s.files, p).rows, CleanupOf(s.rows, s.files, p).files, s.jobs)
    case JobsChanged(jobs) => after == s.(jobs := jobs)
    case FilesChanged(files) => after == s.(files := files)
  }

  ghost predicate LeadsAdmitted(s: Store, l: Limits, q: Request, key: nat, now: int, f: Faults, kept: bool,
                                answer: Result<nat, ArtifactError>, after: Store)
  {
    var p := PolicyOf(s, l, now, |q.data|);
    && EarlyAnswerOf(s.rows, s.files, l.maxSize, q).None? && FreshKey(s, key) && answer == AnswerOf(p, f, s.rows)
    && if Aborts(s.rows, f.cleanupStops) then after == Stopped(s, p, f.cleanupStops.value, kept)
       else after.jobs == s.jobs && AdmissionOutcome(p, q, key, f, s.rows, s.files, after.rows, after.files)
  }

  ghost predicate IsRun(l: Limits, ss: seq<Store>, es: seq<Event>) {
    && |ss| == |es| + 1 && ss[0].rows == []
    && forall i :: 0 <= i < |es| ==> Leads(ss[i], l, es[i], ss[i + 1])
  }

  // ----- the quota -----

  lemma StepWithin(s: Store, l: Limits, e: Event, after: Store)
    requires Leads(s, l, e, after) && ActiveBytes(s.rows) <= l.quota
    ensures ActiveBytes(after.rows) <= l.quota
  {
    hide ActiveBytes, CleanupOf, ProtectedBytes, EvictedUpTo, StoppedRows, EarlyAnswerOf, OldestFirst, AnswerOf;
    match e
    case Admitted(q, key, now, f, kept, answer) =>
      CleanupShrinks(s.rows, s.files, PolicyOf(s, l, now, |q.data|));
      if Aborts(s.rows, f.cleanupStops) {
        EvictionShrinks(s.rows, s.files, f.cleanupStops.value, PolicyOf(s, l, now, |q.data|));
      }
    case Cleaned(now, stops, kept) =>
      CleanupShrinks(s.rows, s.files, PolicyOf(s, l, now, 0));
      if Aborts(s.rows, stops) {
        EvictionShrinks(s.rows, s.files, stops.value, PolicyOf(s, l, now, 0));
      }
    case _ =>
  }

  /** From an empty table on, over any requests, cleanups, faults, job changes and changes to the files, the
      active sum in the database never exceeds the quota. */
  lemma {:induction false} RunWithinQuota(l: Limits, ss: seq<Store>, es: seq<Event>, i: nat)
    requires IsRun(l, ss, es) && i <= |es|
    ensures ActiveBytes(ss[i].rows) <= l.quota
  {
    hide Leads;
    if i == 0 {
    } else {
      hide ActiveBytes;
      RunWithinQuota(l, ss, es, i - 1);
      assert Leads(ss[i - 1], l, es[i - 1], ss[i - 1 + 1]);
      StepWithin(ss[i - 1], l, es[i - 1], ss[i]);
    }
  }

  /** Over any run, a request that got as far as its cleanup is refused for space exactly when the cleanup and
      the query of the sum went through, the lock was released, and the live jobs' bytes and its own do not
      fit: nothing else is ever refused for space, and evictable bytes never cost a refusal. */
  lemma RunRefusalExact(l: Limits, ss: seq<Store>, es: seq<Event>, i: nat)
    requires IsRun(l, ss, es) && i < |es| && es[i].Admitted?
    ensures es[i].answer == Failure(ArtifactStorageFull)
            <==> !Aborts(ss[i].rows, es[i].faults.cleanupStops) && !es[i].faults.sumFails
                 && !es[i].faults.releaseFails
                 && ProtectedBytes(ss[i].rows, PolicyOf(ss[i], l, es[i].now, |es[i].q.data|)) + |es[i].q.data| > l.quota
  {
    assert Leads(ss[i], l, es[i], ss[i + 1]);
    hide AdmissionOutcome, Aborts, ProtectedBytes, EarlyAnswerOf, Stopped;
  }

  // ----- what a call leaves -----

  /** A call adds a row exactly when it commits one, whatever it answers.  The row lacks its file exactly when
      the refresh failed, and it is there although the caller was told of a failure exactly when the refresh
      or the release of the lock failed. */
  lemma WhatACallLeaves(s: Store, l: Limits, e: Event, after: Store)
    requires Leads(s, l, e, after) && e.Admitted?
    ensures var p, n := PolicyOf(s, l, e.now, |e.q.data|), |s.rows|;
            && (|after.rows| > n <==> Commits(p, e.faults, s.rows))
            && (|after.rows| > n ==> Matches(after.rows[n], e.q) || e.q.job.None?)
            && (|after.rows| > n && after.rows[n].storageKey !in after.files
                <==> Commits(p, e.faults, s.rows) && e.faults.refreshFails)
            && (|after.rows| > n && e.answer.Failure?
                <==> Commits(p, e.faults, s.rows) && (e.faults.refreshFails || e.faults.releaseFails))
            && (e.key in after.files <==> Commits(p, e.faults, s.rows) && !e.faults.refreshFails)
  {
    var p := PolicyOf(s, l, e.now, |e.q.data|);
    CleanupKeepsFresh(s.rows, s.files, p);
    if Aborts(s.rows, e.faults.cleanupStops) {
      FilesShrink(s.rows, s.files, OldestFirst(s.rows, |s.rows|), e.faults.cleanupStops.value, p);
    }
    hide CleanupOf, OldestFirst, EarlyAnswerOf, ActiveBytes, Fits, NormalizeFilename, Evict;
  }

  // ----- what the eviction does to a row and its file -----

  /** The loop changes nothing about a row but an active row's status, which it takes away. */
  lemma {:induction false} EvictRow(rows: seq<Artifact>, files: Files, ids: seq<nat>, k: nat, p: Policy, i: nat)
    requires k <= |ids| && InRange(rows, ids) && i < |rows|
    ensures var a := Evict(rows, files, ids, k, p).rows[i];
            && a == rows[i].(status := a.status) && (a.status == ActiveArtifact ==> a == rows[i])
            && (Protected(p, rows[i]) ==> a == rows[i])
  {
    if k == 0 {
    } else {
      EvictRow(rows, files, ids, k - 1, p, i);
    }
  }

  ghost predicate KeysDistinct(rows: seq<Artifact>) {
    forall i, j :: 0 <= i < j < |rows| ==> rows[i].storageKey != rows[j].storageKey
  }

  /** The file of a row is there and holds its bytes. */
  predicate Backed(a: Artifact, files: Files) {
    && a.storageKey in files && files[a.storageKey].safe && |files[a.storageKey].data| == a.sizeBytes
    && Sha256(files[a.storageKey].data) == a.sha256
  }

  ghost predicate AllBacked(rows: seq<Artifact>, files: Files) {
    forall i :: 0 <= i < |rows| && rows[i].status == ActiveArtifact ==> Backed(rows[i], files)
  }

  /** The loop removes the files of rows it expires and of no others. */
  lemma {:induction false} EvictBacked(rows: seq<Artifact>, files: Files, ids: seq<nat>, k: nat, p: Policy)
    requires k <= |ids| && InRange(rows, ids) && KeysDistinct(rows) && AllBacked(rows, files)
    ensures AllBacked(Evict(rows, files, ids, k, p).rows, Evict(rows, files, ids, k, p).files)
  {
    if k == 0 {
    } else {
      EvictBacked(rows, files, ids, k - 1, p);
      var e := Evict(rows, files, ids, k - 1, p);
      forall i | 0 <= i < |rows| ensures e.rows[i].storageKey == rows[i].storageKey {
        EvictRow(rows, files, ids, k - 1, p, i);
      }
      EvictOneBacked(e, ids[k - 1], p);
    }
  }

  lemma EvictOneBacked(e: Eviction, id: nat, p: Policy)
    requires id < |e.rows| && KeysDistinct(e.rows) && AllBacked(e.rows, e.files)
    ensures AllBacked(EvictOne(e, id, p).rows, EvictOne(e, id, p).files)
  {
    var r := EvictOne(e, id, p);
    forall i | 0 <= i < |r.rows| && r.rows[i].status == ActiveArtifact ensures Backed(r.rows[i], r.files) {
      assert Backed(e.rows[i], e.files);
      assert i != id ==> e.rows[i].storageKey != e.rows[id].storageKey;
    }
  }

  /** Some row that was active has no file. */
  ghost predicate SomeLost(rows: seq<Artifact>, files: Files) {
    exists i :: 0 <= i < |rows| && rows[i].status == ActiveArtifact && rows[i].storageKey !in files
  }

  lemma EvictOneLoss(e: Eviction, id: nat, p: Policy)
    requires id < |e.rows|
    ensures var r := EvictOne(e, id, p);
            && r.files.Keys <= e.files.Keys
            && if r.expired == e.expired then r.files == e.files
               else r.expired == e.expired + 1 && e.rows[id].storageKey !in r.files
  {
  }

  /** The counter of expired rows tells whether the loop has removed the file of a row that was active. */
  lemma {:induction false} EvictLoss(rows: seq<Artifact>, files: Files, ids: seq<nat>, k: nat, p: Policy)
    requires k <= |ids| && InRange(rows, ids)
    requires forall l :: 0 <= l < |ids| ==> rows[ids[l]].status == ActiveArtifact
    ensures var e := Evict(rows, files, ids, k, p);
            if e.expired == 0 then e.files == files else SomeLost(rows, e.files)
  {
    if k == 0 {
    } else {
      EvictLoss(rows, files, ids, k - 1, p);
      var e, id := Evict(rows, files, ids, k - 1, p), ids[k - 1];
      EvictRow(rows, files, ids, k - 1, p, id);
      EvictOneLoss(e, id, p);
      hide EvictOne;
      var r := Evict(rows, files, ids, k, p);
      if e.expired != 0 {
        var i :| 0 <= i < |rows| && rows[i].status == ActiveArtifact && rows[i].storageKey !in e.files;
        assert rows[i].storageKey !in r.files;
      } else if r.expired != 0 {
        assert rows[id].storageKey !in r.files;
      }
    }
  }

  /** What becomes of one row and its file.  A row that is not evicted keeps its file as it was; an evicted
      one was active, with no live job, and is failed exactly if its file is there and is unsafe or has
      another size. Then the file stays; otherwise it is gone. */
  lemma {:induction false} EvictOutcome(rows: seq<Artifact>, files: Files, ids: seq<nat>, k: nat, p: Policy, i: nat)
    requires k <= |ids| && InRange(rows, ids) && Ordered(rows, ids) && KeysDistinct(rows) && i < |rows|
    requires forall l :: 0 <= l < |ids| ==> rows[ids[l]].status == ActiveArtifact
    ensures Outcome(rows[i], Evict(rows, files, ids, k, p).rows[i], files, Evict(rows, files, ids, k, p).files, p.jobs)
  {
    if k == 0 {
    } else {
      var e, id := Evict(rows, files, ids, k - 1, p), ids[k - 1];
      EvictOutcome(rows, files, ids, k - 1, p, i);
      forall l | 0 <= l < k - 1 ensures ids[l] != id { assert Older(rows, ids[l], ids[k - 1]); }
      Unreached(rows, files, ids, k - 1, p, id);
      hide Evict, Ordered, IsExpired;
      assert id < i ==> rows[id].storageKey != rows[i].storageKey;
      assert i < id ==> rows[id].storageKey != rows[i].storageKey;
      hide KeysDistinct;
      OutcomeStep(rows, e, files, id, i, p);
    }
  }

  predicate SameFile(key: nat, files: Files, files': Files) {
    (key in files <==> key in files') && (key in files ==> files'[key] == files[key])
  }

  ghost predicate Outcome(a: Artifact, a': Artifact, files: Files, files': Files, jobs: map<nat, JobStatus>) {
    var key := a.storageKey;
    var bad := key in files && (!files[key].safe || |files[key].data| != a.sizeBytes);
    if a' == a then SameFile(key, files, files')
    else
      && a.status == ActiveArtifact && !JobIsActive(jobs, a.jobId)
      && a' == a.(status := if bad then Failed else Expired)
      && if bad then SameFile(key, files, files') else key !in files'
  }

  lemma OutcomeStep(rows: seq<Artifact>, e: Eviction, files: Files, id: nat, i: nat, p: Policy)
    requires |e.rows| == |rows| && id < |rows| && i < |rows|
    requires e.rows[id] == rows[id] && rows[id].status == ActiveArtifact
    requires id != i ==> rows[id].storageKey != rows[i].storageKey
    requires Outcome(rows[i], e.rows[i], files, e.files, p.jobs)
    ensures Outcome(rows[i], EvictOne(e, id, p).rows[i], files, EvictOne(e, id, p).files, p.jobs)
  {
    hide IsExpired, JobIsActive;
  }

  /** So a cleanup never removes a file that is unsafe or has another size than its row says. */
  lemma CleanupOutcome(rows: seq<Artifact>, files: Files, p: Policy, i: nat)
    requires KeysDistinct(rows) && i < |rows|
    ensures Outcome(rows[i], CleanupOf(rows, files, p).rows[i], files, CleanupOf(rows, files, p).files, p.jobs)
  {
    var ids := OldestFirst(rows, |rows|);
    OldestFirstExact(rows);
    hide OldestFirst, KeysDistinct;
    forall k, l | 0 <= k < l < |ids| ensures Older(rows, ids[k], ids[l]) {}
    EvictOutcome(rows, files, ids, |ids|, p, i);
  }

  // ----- active rows and their files -----

  ghost predicate Intact(s: Store) {
    KeysDistinct(s.rows) && AllBacked(s.rows, s.files)
  }

  /** A cleanup that stops after it has removed a file, and whose rows are not committed afterwards. */
  ghost predicate Bereaves(s: Store, p: Policy, k: nat, kept: bool)
    requires k <= |OldestFirst(s.rows, |s.rows|)|
  {
    && EvictedUpTo(s.rows, s.files, k, p).expired > 0
    && (!kept || k == |OldestFirst(s.rows, |s.rows|)|)
  }

  /** The steps that leave an active row without its bytes: a refresh that fails after the commit, a cleanup
      that stops and whose rows are lost, and whatever others do to the files. */
  ghost predicate Harms(s: Store, l: Limits, e: Event) {
    match e
    case Admitted(q, key, now, f, kept, answer) =>
      var p := PolicyOf(s, l, now, |q.data|);
      if Aborts(s.rows, f.cleanupStops) then Bereaves(s, p, f.cleanupStops.value, kept)
      else Commits(p, f, s.rows) && f.refreshFails
    case Cleaned(now, stops, kept) =>
      Aborts(s.rows, stops) && Bereaves(s, PolicyOf(s, l, now, 0), stops.value, kept)
    case FilesChanged(files) => !AllBacked(s.rows, files)
    case _ => false
  }

  lemma StoppedBacked(s: Store, p: Policy, k: nat, kept: bool)
    requires k <= |OldestFirst(s.rows, |s.rows|)| && Intact(s)
    ensures AllBacked(Stopped(s, p, k, kept).rows, Stopped(s, p, k, kept).files) <==> !Bereaves(s, p, k, kept)
  {
    var ids := OldestFirst(s.rows, |s.rows|);
    OldestFirstExact(s.rows);
    EvictLoss(s.rows, s.files, ids, k, p);
    EvictBacked(s.rows, s.files, ids, k, p);
    hide Evict, OldestFirst, Ordered, KeysDistinct;
    if Bereaves(s, p, k, kept) {
      var i :| 0 <= i < |s.rows| && s.rows[i].status == ActiveArtifact
               && s.rows[i].storageKey !in EvictedUpTo(s.rows, s.files, k, p).files;
      assert !Backed(s.rows[i], EvictedUpTo(s.rows, s.files, k, p).files);
    }
  }

  /** What every step keeps of a row: all but an active status, and that too while the row's job is live. */
  ghost predicate Kept(a: Artifact, a': Artifact, jobs: map<nat, JobStatus>) {
    && a' == a.(status := a'.status) && (a'.status == ActiveArtifact ==> a' == a)
    && (JobIsActive(jobs, a.jobId) ==> a' == a)
  }

  lemma EvictionKept(s: Store, p: Policy, k: nat, i: nat)
    requires k <= |OldestFirst(s.rows, |s.rows|)| && p.jobs == s.jobs && i < |s.rows|
    ensures Kept(s.rows[i], EvictedUpTo(s.rows, s.files, k, p).rows[i], s.jobs)
    ensures EvictedUpTo(s.rows, s.files, k, p).files.Keys <= s.files.Keys
  {
    var ids := OldestFirst(s.rows, |s.rows|);
    EvictRow(s.rows, s.files, ids, k, p, i);
    FilesShrink(s.rows, s.files, ids, k, p);
  }

  /** The rows a step leaves: those of before, and behind them at most the one a request has committed. */
  lemma StepKept(s: Store, l: Limits, e: Event, after: Store)
    requires Leads(s, l, e, after)
    ensures |s.rows| <= |after.rows| <= |s.rows| + 1
    ensures forall i :: 0 <= i < |s.rows| ==> Kept(s.rows[i], after.rows[i], s.jobs)
    ensures |after.rows| > |s.rows| ==>
              e.Admitted? && FreshKey(s, e.key)
              && Stored(after.rows[|s.rows|], e.q, e.key, PolicyOf(s, l, e.now, |e.q.data|))
              && EarlyAnswerOf(s.rows, s.files, l.maxSize, e.q).None?
  {
    hide Kept, EarlyAnswerOf, ActiveBytes, Fits, AnswerOf, Stored, FreshKey;
    match e
    case Admitted(q, key, now, f, _, _) =>
      AllKept(s, PolicyOf(s, l, now, |q.data|), f.cleanupStops);
    case Cleaned(now, stops, _) =>
      AllKept(s, PolicyOf(s, l, now, 0), stops);
    case _ =>
      SameKept(s);
  }

  lemma SameKept(s: Store)
    ensures forall i :: 0 <= i < |s.rows| ==> Kept(s.rows[i], s.rows[i], s.jobs)
  {
  }

  lemma AllKept(s: Store, p: Policy, stops: Option<nat>)
    requires p.jobs == s.jobs
    ensures forall i :: 0 <= i < |s.rows| ==> Kept(s.rows[i], s.rows[i], s.jobs)
    ensures forall i :: 0 <= i < |s.rows| ==> Kept(s.rows[i], CleanupOf(s.rows, s.files, p).rows[i], s.jobs)
    ensures Aborts(s.rows, stops) ==>
              |StoppedRows(s.rows, s.files, stops.value, p)| == |s.rows|
              && forall i :: 0 <= i < |s.rows| ==>
                   Kept(s.rows[i], StoppedRows(s.rows, s.files, stops.value, p)[i], s.jobs)
  {
    SameKept(s);
    var n := |OldestFirst(s.rows, |s.rows|)|;
    forall i | 0 <= i < |s.rows|
      ensures Kept(s.rows[i], CleanupOf(s.rows, s.files, p).rows[i], s.jobs)
    {
      EvictionKept(s, p, n, i);
    }
    hide Kept, OldestFirst, Evict;
    if Aborts(s.rows, stops) {
      forall i | 0 <= i < |s.rows|
        ensures Kept(s.rows[i], EvictedUpTo(s.rows, s.files, stops.value, p).rows[i], s.jobs)
      {
        EvictionKept(s, p, stops.value, i);
      }
    }
  }

  /** Storage keys stay distinct. */
  lemma StepDistinct(s: Store, l: Limits, e: Event, after: Store)
    requires Leads(s, l, e, after) && KeysDistinct(s.rows)
    ensures KeysDistinct(after.rows)
  {
    StepKept(s, l, e, after);
    hide Leads, EarlyAnswerOf, NormalizeFilename;
    forall i | 0 <= i < |s.rows| ensures after.rows[i].storageKey == s.rows[i].storageKey {
      assert Kept(s.rows[i], after.rows[i], s.jobs);
    }
    hide Kept;
    if |after.rows| > |s.rows| {
      KeysGrow(s.rows, after.rows, e.key);
    }
  }

  lemma KeysGrow(rows: seq<Artifact>, rows': seq<Artifact>, key: nat)
    requires KeysDistinct(rows) && |rows'| == |rows| + 1 && rows'[|rows|].storageKey == key
    requires forall i :: 0 <= i < |rows| ==> rows'[i].storageKey == rows[i].storageKey && rows[i].storageKey != key
    ensures KeysDistinct(rows')
  {
  }

  /** A step takes an active row's bytes exactly when it is one of the three kinds. */
  lemma StepIntactExactly(s: Store, l: Limits, e: Event, after: Store)
    requires Leads(s, l, e, after) && Intact(s)
    ensures Intact(after) <==> !Harms(s, l, e)
  {
    StepDistinct(s, l, e, after);
    hide KeysDistinct, AllBacked, EarlyAnswerOf, AnswerOf, Bereaves;
    match e
    case Admitted(q, key, now, f, kept, answer) =>
      var p := PolicyOf(s, l, now, |q.data|);
      if Aborts(s.rows, f.cleanupStops) {
        StoppedBacked(s, p, f.cleanupStops.value, kept);
      } else {
        AdmittedBacked(s, p, q, key, f, after);
      }
    case Cleaned(now, stops, kept) =>
      var p := PolicyOf(s, l, now, 0);
      if Aborts(s.rows, stops) {
        StoppedBacked(s, p, stops.value, kept);
      } else {
        OldestFirstExact(s.rows);
        EvictBacked(s.rows, s.files, OldestFirst(s.rows, |s.rows|), |OldestFirst(s.rows, |s.rows|)|, p);
      }
    case _ =>
  }

  lemma AdmittedBacked(s: Store, p: Policy, q: Request, key: nat, f: Faults, after: Store)
    requires Intact(s) && FreshKey(s, key) && !Aborts(s.rows, f.cleanupStops)
    requires AdmissionOutcome(p, q, key, f, s.rows, s.files, after.rows, after.files)
    ensures AllBacked(after.rows, after.files) <==> !(Commits(p, f, s.rows) && f.refreshFails)
  {
    var ids := OldestFirst(s.rows, |s.rows|);
    EvictBacked(s.rows, s.files, ids, |ids|, p);
    var e := CleanupOf(s.rows, s.files, p);
    forall i | 0 <= i < |s.rows| ensures e.rows[i].storageKey != key {
      EvictRow(s.rows, s.files, ids, |ids|, p, i);
    }
    hide Evict, OldestFirst, KeysDistinct, Fits, ActiveBytes, Aborts, CleanupOf, AllBacked, NormalizeFilename;
    if Commits(p, f, s.rows) {
      BackedGrow(e, key, after);
    }
  }

  lemma BackedGrow(e: Eviction, key: nat, after: Store)
    requires AllBacked(e.rows, e.files) && |after.rows| == |e.rows| + 1 && after.rows == e.rows + [after.rows[|e.rows|]]
    requires key !in e.files && forall i :: 0 <= i < |e.rows| ==> e.rows[i].storageKey != key
    requires after.rows[|e.rows|].storageKey == key && after.rows[|e.rows|].status == ActiveArtifact
    requires after.files == e.files
             || (key in after.files && after.files == e.files[key := after.files[key]]
                 && Backed(after.rows[|e.rows|], after.files))
    ensures AllBacked(after.rows, after.files) <==> after.files != e.files
  {
    var n := |e.rows|;
    if after.files == e.files {
      assert !Backed(after.rows[n], after.files);
    } else {
      forall i | 0 <= i < n && e.rows[i].status == ActiveArtifact ensures Backed(after.rows[i], after.files) {
        assert Backed(e.rows[i], e.files);
      }
    }
  }

  /** Over any run without such steps, every active row has its file with its bytes. */
  lemma {:induction false} RunIntact(l: Limits, ss: seq<Store>, es: seq<Event>, i: nat)
    requires IsRun(l, ss, es) && i <= |es|
    requires forall k :: 0 <= k < i ==> !Harms(ss[k], l, es[k])
    ensures Intact(ss[i])
  {
    hide Leads, Harms;
    if i == 0 {
    } else {
      hide KeysDistinct, AllBacked;
      RunIntact(l, ss, es, i - 1);
      assert Leads(ss[i - 1], l, es[i - 1], ss[i - 1 + 1]);
      StepIntactExactly(ss[i - 1], l, es[i - 1], ss[i]);
    }
  }

  // ----- a row left by a failed refresh -----

  /** The only row that holds a request's bytes for its job has no file. */
  ghost predicate Bereft(s: Store, q: Request, i: nat) {
    && i < |s.rows| && Matches(s.rows[i], q) && s.rows[i].storageKey !in s.files
    && forall j :: 0 <= j < |s.rows| && Matches(s.rows[j], q) ==> j == i
  }

  lemma BereftAnswer(s: Store, l: Limits, q: Request, i: nat)
    requires Bereft(s, q, i) && Acceptable(q, l.maxSize)
    ensures EarlyAnswerOf(s.rows, s.files, l.maxSize, q) == Some(Failure(ArtifactNotFound))
  {
    hide NormalizeFilename;
  }

  /** A failed refresh for a request with a job leaves such a row. */
  lemma RefreshFailureBereaves(s: Store, l: Limits, e: Event, after: Store)
    requires Leads(s, l, e, after) && e.Admitted? && e.q.job.Some?
    requires Commits(PolicyOf(s, l, e.now, |e.q.data|), e.faults, s.rows) && e.faults.refreshFails
    ensures Acceptable(e.q, l.maxSize) && Bereft(after, e.q, |s.rows|)
  {
    EarlyNoneExact(s.rows, s.files, l.maxSize, e.q);
    StepKept(s, l, e, after);
    WhatACallLeaves(s, l, e, after);
    hide Leads, EarlyAnswerOf, NormalizeFilename, Commits;
    forall j | 0 <= j < |s.rows| ensures !Matches(after.rows[j], e.q) {
      assert Kept(s.rows[j], after.rows[j], s.jobs) && !Matches(s.rows[j], e.q);
    }
  }

  /** While the job is live and nobody puts a file back under the row's key, the row stays bereft. */
  lemma BereftStep(s: Store, l: Limits, e: Event, after: Store, q: Request, i: nat)
    requires Leads(s, l, e, after) && Bereft(s, q, i) && JobIsActive(s.jobs, q.job)
    requires e.FilesChanged? ==> s.rows[i].storageKey !in e.files
    ensures Bereft(after, q, i) && after.rows[i] == s.rows[i]
  {
    hide NormalizeFilename, Kept, EarlyAnswerOf, Matches, Stored, JobIsActive, AdmissionOutcome, Stopped, AnswerOf,
         Aborts, CleanupOf;
    StepKept(s, l, e, after);
    StepFiles(s, l, e, after);
    hide Leads;
    if |after.rows| > |s.rows| {
      NoSecondMatch(s, l, e, after.rows[|s.rows|], q, i);
    }
    assert s.rows[i].storageKey !in after.files;
    hide Bereft;
    BereftKept(s, after, q, i);
  }

  lemma BereftKept(s: Store, after: Store, q: Request, i: nat)
    requires Bereft(s, q, i) && JobIsActive(s.jobs, q.job) && s.rows[i].storageKey !in after.files
    requires |s.rows| <= |after.rows| <= |s.rows| + 1
    requires forall j :: 0 <= j < |s.rows| ==> Kept(s.rows[j], after.rows[j], s.jobs)
    requires |after.rows| > |s.rows| ==> !Matches(after.rows[|s.rows|], q)
    ensures Bereft(after, q, i) && after.rows[i] == s.rows[i]
  {
    hide NormalizeFilename;
    assert Kept(s.rows[i], after.rows[i], s.jobs);
    forall j | 0 <= j < |s.rows| && j != i ensures !Matches(after.rows[j], q) {
      assert Kept(s.rows[j], after.rows[j], s.jobs) && !Matches(s.rows[j], q);
    }
  }

  /** A request that got past the early answer does not hold the bytes of a row. */
  lemma NoSecondMatch(s: Store, l: Limits, e: Event, a: Artifact, q: Request, i: nat)
    requires i < |s.rows| && Matches(s.rows[i], q)
    requires e.Admitted? && EarlyAnswerOf(s.rows, s.files, l.maxSize, e.q).None?
    requires Stored(a, e.q, e.key, PolicyOf(s, l, e.now, |e.q.data|))
    ensures !Matches(a, q)
  {
    EarlyNoneExact(s.rows, s.files, l.maxSize, e.q);
    hide EarlyAnswerOf, NormalizeFilename;
    assert !Matches(s.rows[i], e.q);
  }

  /** The only new file of a step that is not someone else's is the one of an admitted request. */
  lemma StepFiles(s: Store, l: Limits, e: Event, after: Store)
    requires Leads(s, l, e, after)
    ensures e.FilesChanged? ==> after.files == e.files
    ensures e.Admitted? ==> FreshKey(s, e.key)
    ensures !e.FilesChanged? ==> after.files.Keys <= s.files.Keys + if e.Admitted? then {e.key} else {}
  {
    hide EarlyAnswerOf, AnswerOf, Fits, ActiveBytes, Stored, FreshKey, OldestFirst, Evict;
    match e
    case Admitted(q, key, now, f, _, _) =>
      FilesFall(s, PolicyOf(s, l, now, |q.data|), f.cleanupStops);
    case Cleaned(now, stops, _) =>
      FilesFall(s, PolicyOf(s, l, now, 0), stops);
    case _ =>
  }

  lemma FilesFall(s: Store, p: Policy, stops: Option<nat>)
    ensures CleanupOf(s.rows, s.files, p).files.Keys <= s.files.Keys
    ensures Aborts(s.rows, stops) ==> EvictedUpTo(s.rows, s.files, stops.value, p).files.Keys <= s.files.Keys
  {
    CleanupKeepsFresh(s.rows, s.files, p);
    if Aborts(s.rows, stops) {
      FilesShrink(s.rows, s.files, OldestFirst(s.rows, |s.rows|), stops.value, p);
    }
  }

  /** From state j to state i the request's job is live, and nobody puts a file under a key. */
  ghost predicate Undisturbed(ss: seq<Store>, es: seq<Event>, j: nat, i: nat, q: Request, key: nat)
    requires j <= i <= |es| < |ss|
  {
    && (forall k :: j <= k < i ==> JobIsActive(ss[k].jobs, q.job))
    && forall k :: j <= k < i && es[k].FilesChanged? ==> key !in es[k].files
  }

  /** So over any continuation, while the job is live and nobody puts the file back, no cleanup takes the row
      away, and every repeat of the request is answered with `ArtifactNotFound`. */
  lemma {:induction false} RepeatsRefused(l: Limits, ss: seq<Store>, es: seq<Event>, j: nat, i: nat, q: Request,
                                          row: nat)
    requires IsRun(l, ss, es) && j <= i <= |es| && Bereft(ss[j], q, row) && Acceptable(q, l.maxSize)
    requires Undisturbed(ss, es, j, i, q, ss[j].rows[row].storageKey)
    ensures Bereft(ss[i], q, row) && ss[i].rows[row] == ss[j].rows[row]
    ensures EarlyAnswerOf(ss[i].rows, ss[i].files, l.maxSize, q) == Some(Failure(ArtifactNotFound))
    decreases i
  {
    hide Leads, Bereft, Acceptable, EarlyAnswerOf, JobIsActive;
    if i > j {
      RepeatsRefused(l, ss, es, j, i - 1, q, row);
      assert Leads(ss[i - 1], l, es[i - 1], ss[i - 1 + 1]);
      BereftStep(ss[i - 1], l, es[i - 1], ss[i], q, row);
    }
    BereftAnswer(ss[i], l, q, row);
  }

  // ----- a failed refresh, concretely -----

  const SCREENSHOT := Request([1], "screenshot", "a", "image/png", Some(0), None)

  const ROW := Artifact(Some(0), "screenshot", "a", 5, "image/png", 1, Sha256([1]), 0, Some(DAY), ActiveArtifact)

  const RUNNING := map[0 := Running]

  const LIMITS := Limits(10, 10, 1, 1)

  const REFRESH_FAILS := NO_FAULTS.(refreshFails := true)

  lemma FailedRefreshOutcome(p: Policy)
    requires p == PolicyOf(Store([], map[], RUNNING), LIMITS, 0, 1)
    ensures AdmissionOutcome(p, SCREENSHOT, 5, REFRESH_FAILS, [], map[], [ROW], map[])
    ensures AnswerOf(p, REFRESH_FAILS, []) == Failure(DatabaseFailure)
  {
    hide NormalizeFilename;
    ScreenshotName();
    assert CleanupOf([], map[], p) == Start([], map[]);
    hide CleanupOf;
    assert [ROW] == [] + [ROW];
    ActiveAppend([], ROW);
    assert Stored(ROW, SCREENSHOT, 5, p) && Commits(p, REFRESH_FAILS, []);
  }

  lemma ScreenshotName()
    ensures NormalizeFilename("a") == Some("a")
  {
    NormalizeIdentity("a");
    hide NormalizeFilename;
  }

  lemma ScreenshotFits()
    ensures Acceptable(SCREENSHOT, LIMITS.maxSize) && Matches(ROW, SCREENSHOT)
  {
    hide NormalizeFilename;
    ScreenshotName();
  }

  lemma ExampleAnswers()
    ensures EarlyAnswerOf([], map[], 10, SCREENSHOT).None?
    ensures EarlyAnswerOf([ROW], map[], 10, SCREENSHOT) == Some(Failure(ArtifactNotFound))
  {
    ScreenshotFits();
    hide Acceptable, Matches, EarlyAnswerOf, SCREENSHOT;
    NothingFound(map[], LIMITS, SCREENSHOT);
    OnlyRow(ROW, map[], LIMITS, SCREENSHOT);
  }

  lemma OnlyRow(a: Artifact, files: Files, l: Limits, q: Request)
    requires Acceptable(q, l.maxSize) && Matches(a, q) && a.storageKey !in files
    ensures EarlyAnswerOf([a], files, l.maxSize, q) == Some(Failure(ArtifactNotFound))
  {
    var s := Store([a], files, map[]);
    hide EarlyAnswerOf, Acceptable, Matches;
    assert Bereft(s, q, 0);
    BereftAnswer(s, l, q, 0);
  }

  lemma NothingFound(files: Files, l: Limits, q: Request)
    requires Acceptable(q, l.maxSize)
    ensures EarlyAnswerOf([], files, l.maxSize, q).None?
  {
    hide NormalizeFilename;
  }

  /** A running job stores a screenshot and is told of a failed refresh; from then on its repeats fail. */
  lemma FailedRefreshExample()
    ensures IsRun(LIMITS,
                  [Store([], map[], RUNNING), Store([ROW], map[], RUNNING), Store([ROW], map[], RUNNING)],
                  [Admitted(SCREENSHOT, 5, 0, REFRESH_FAILS, false, Failure(DatabaseFailure)),
                   AnsweredEarly(SCREENSHOT, Failure(ArtifactNotFound))])
  {
    var s, after := Store([], map[], RUNNING), Store([ROW], map[], RUNNING);
    FailedRefreshOutcome(PolicyOf(s, LIMITS, 0, 1));
    ExampleAnswers();
    hide AdmissionOutcome, AnswerOf, EarlyAnswerOf;
    assert Leads(s, LIMITS, Admitted(SCREENSHOT, 5, 0, REFRESH_FAILS, false, Failure(DatabaseFailure)), after);
    assert Leads(after, LIMITS, AnsweredEarly(SCREENSHOT, Failure(ArtifactNotFound)), after);
  }
}
