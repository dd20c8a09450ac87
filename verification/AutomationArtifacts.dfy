/** The artifact store in place: cleanup under the maintenance lock and the admission of new bytes. */
module AutomationArtifacts {
  import opened Wrappers
  import opened ContentBlobs
  import opened FileNames
  import opened ArtifactEviction

  datatype ArtifactError =
    | PolicyViolation | ArtifactNotFound | ArtifactStorageFull | DatabaseFailure | CleanupAborted | LockReleaseFailed

  /** What goes wrong in one call.  A cleanup can stop after some iterations of its loop, because removing a
      file raised a system error, or at its commit, when there is no further iteration.  A failing query of
      the active sum also stands for a cleanup whose commit took effect and still reported an error, and a
      failing refresh for such a commit of the new row. */
  datatype Faults = Faults(cleanupStops: Option<nat>, sumFails: bool, writeFails: bool, commitFails: bool,
                           refreshFails: bool, releaseFails: bool)

  const NO_FAULTS := Faults(None, false, false, false, false, false)

  datatype CleanupResult = CleanupResult(expired: nat, missing: nat, failed: nat, bytesReleased: nat, activeBytes: int)

  class ArtifactSession {
    var rows: seq<Artifact>
    var committedRows: seq<Artifact>
    var jobs: map<nat, JobStatus>

    ghost predicate Clean()
      reads this
    {
      rows == committedRows
    }

    method Commit()
      modifies this`committedRows
      ensures Clean()
    {
      committedRows := rows;
    }

    method Rollback()
      modifies this`rows
      ensures rows == committedRows
    {
      rows := committedRows;
    }
  }

  /** The bytes a caller hands in, and what it says about them. */
  datatype Request = Request(data: Bytes, kind: string, filename: string, mime: string, job: Option<nat>,
                             expiresAt: Option<int>)

  /** The first active row that already holds these bytes under this name for this job. */
  predicate SameArtifact(a: Artifact, job: nat, kind: string, name: string, size: nat, digest: Digest) {
    && a.status == ActiveArtifact && a.jobId == Some(job) && a.kind == kind
    && a.originalFilename == name && a.sizeBytes == size && a.sha256 == digest
  }

  class AutomationArtifactStore {
    const maxSizeBytes: nat
    const maxTotalBytes: nat
    const retentionDays: nat
    const uploadRetentionDays: nat
    var files: Files

    constructor (maxSizeBytes: nat, maxTotalBytes: nat, retentionDays: nat, uploadRetentionDays: nat)
      requires 0 < maxSizeBytes <= maxTotalBytes && 0 < retentionDays && 0 < uploadRetentionDays
      ensures this.maxSizeBytes == maxSizeBytes && this.maxTotalBytes == maxTotalBytes && files == map[]
      ensures this.retentionDays == retentionDays && this.uploadRetentionDays == uploadRetentionDays
    {
      this.maxSizeBytes, this.maxTotalBytes := maxSizeBytes, maxTotalBytes;
      this.retentionDays, this.uploadRetentionDays := retentionDays, uploadRetentionDays;
      files := map[];
    }

    function PolicyAt(session: ArtifactSession, now: int, required: nat): Policy
      reads session`jobs
    {
      Policy(now, required, session.jobs, maxTotalBytes, retentionDays, uploadRetentionDays)
    }

    method DeleteManagedFile(a: Artifact) returns (outcome: DeleteOutcome)
      modifies this`files
      ensures outcome == DeleteOutcomeOf(a, old(files))
      ensures files == if outcome == WasDeleted then old(files) - {a.storageKey} else old(files)
    {
      if a.storageKey !in files {
        return WasMissing;
      }
      var info := files[a.storageKey];
      if !info.safe || |info.data| != a.sizeBytes {
        return Violation;
      }
      files := files - {a.storageKey};
      return WasDeleted;
    }

    /** The body of the eviction loop.  `e` is the loop's abstract state. */
    method EvictArtifact(session: ArtifactSession, id: nat, activeBytes: int, policy: Policy, ghost e: Eviction)
      returns (outcome: Option<DeleteOutcome>)
      requires id < |session.rows|
      requires e.rows == session.rows && e.files == files && e.activeBytes == activeBytes
      modifies this`files, session`rows
      ensures var r := EvictOne(e, id, policy);
              var size := e.rows[id].sizeBytes;
              && session.rows == r.rows && files == r.files
              && r.activeBytes == activeBytes - (if outcome in {Some(WasMissing), Some(WasDeleted)} then size else 0)
              && r.failed == e.failed + (if outcome == Some(Violation) then 1 else 0)
              && r.missing == e.missing + (if outcome == Some(WasMissing) then 1 else 0)
              && r.expired == e.expired + (if outcome == Some(WasDeleted) then 1 else 0)
              && r.released == e.released + (if outcome == Some(WasDeleted) then size else 0)
    {
      var artifact := session.rows[id];
      var overQuota := activeBytes + policy.required > policy.quota;
      if JobIsActive(policy.jobs, artifact.jobId) {
        return None;
      }
      if !overQuota && !IsExpired(policy, artifact) {
        return None;
      }
      var deletion := DeleteManagedFile(artifact);
      if deletion == Violation {
        session.rows := session.rows[id := artifact.(status := Failed)];
      } else {
        session.rows := session.rows[id := artifact.(status := Expired)];
      }
      return Some(deletion);
    }

    /** The eviction loop and its commit.  When it stops early, the files removed so far are gone.  The rows
        are rolled back if the commit failed; if the loop stopped, the session holds them uncommitted. */
    method CleanupLocked(session: ArtifactSession, now: int, required: nat, stops: Option<nat>)
      returns (r: Option<CleanupResult>)
      requires session.Clean()
      modifies this`files, session`rows, session`committedRows
      ensures var p := PolicyAt(session, now, required);
              if Aborts(old(session.rows), stops) then
                && r == None && session.committedRows == old(session.committedRows)
                && session.rows == StoppedRows(old(session.rows), old(files), stops.value, p)
                && files == EvictedUpTo(old(session.rows), old(files), stops.value, p).files
              else
                var e := CleanupOf(old(session.rows), old(files), p);
                && session.Clean() && session.rows == e.rows && files == e.files
                && r == Some(CleanupResult(e.expired, e.missing, e.failed, e.released, e.activeBytes))
    {
      var policy := PolicyAt(session, now, required);
      var artifacts := OldestFirst(session.rows, |session.rows|);
      var activeBytes: int := ActiveBytes(session.rows);
      var expired, missing, failed, released := 0, 0, 0, 0;
      ghost var rows, stored := session.rows, files;
      ghost var e := Start(rows, stored);
      hide OldestFirst, EvictOne;
      var k := 0;
      while k < |artifacts|
        invariant k <= |artifacts| && InRange(rows, artifacts)
        invariant e == Evict(rows, stored, artifacts, k, policy)
        invariant session.rows == e.rows && files == e.files && activeBytes == e.activeBytes
        invariant expired == e.expired && missing == e.missing && failed == e.failed && released == e.released
        invariant stops.Some? ==> k <= stops.value
        invariant session.committedRows == old(session.committedRows)
      {
        if stops == Some(k) {
          return None;
        }
        var id := artifacts[k];
        var size := session.rows[id].sizeBytes;
        var outcome := EvictArtifact(session, id, activeBytes, policy, e);
        e := EvictOne(e, id, policy);
        k := k + 1;
        match outcome
        case None =>
        case Some(Violation) => failed := failed + 1;
        case Some(WasMissing) => activeBytes, missing := activeBytes - size, missing + 1;
        case Some(WasDeleted) => activeBytes, expired, released := activeBytes - size, expired + 1, released + size;
      }
      if stops == Some(k) {
        session.Rollback();
        return None;
      }
      session.Commit();
      r := Some(CleanupResult(expired, missing, failed, released, activeBytes));
    }

    /** What `store_bytes` answers before it looks at the quota: a rejected request, or the job's
        existing copy of the same bytes. */
    function EarlyAnswer(session: ArtifactSession, q: Request): Option<Result<nat, ArtifactError>>
      reads this`files, session`rows
    {
      EarlyAnswerOf(session.rows, files, maxSizeBytes, q)
    }

    /** Stores bytes under the quota.  `key` is a fresh uuid. */
    method StoreBytes(session: ArtifactSession, q: Request, key: nat, now: int, f: Faults)
      returns (r: Result<nat, ArtifactError>)
      requires session.Clean() && key !in files
      modifies this`files, session`rows, session`committedRows
      ensures if Aborts(old(session.rows), f.cleanupStops) then session.committedRows == old(session.committedRows)
              else session.Clean()
      ensures var early, p := old(EarlyAnswer(session, q)), PolicyAt(session, now, |q.data|);
              if early.Some? then r == early.value && session.rows == old(session.rows) && files == old(files)
              else
                && AdmissionOutcome(p, q, key, f, old(session.rows), old(files), session.rows, files)
                && r == AnswerOf(p, f, old(session.rows))
      ensures ActiveBytes(old(session.rows)) <= maxTotalBytes ==> ActiveBytes(session.rows) <= maxTotalBytes
    {
      hide AdmissionOutcome, ActiveBytes, EarlyAnswerOf, LockedAnswer, Aborts, NormalizeFilename;
      var answer := EarlyAnswer(session, q);
      if answer.Some? {
        return answer.value;
      }
      assert NormalizeFilename(q.filename).Some? by { EarlyNoneExact(session.rows, files, maxSizeBytes, q); }
      r := StoreLocked(session, q, key, now, f);
      if f.releaseFails {
        return Failure(LockReleaseFailed);
      }
    }

    /** The section under the maintenance lock. */
    method StoreLocked(session: ArtifactSession, q: Request, key: nat, now: int, f: Faults)
      returns (r: Result<nat, ArtifactError>)
      requires session.Clean() && key !in files && NormalizeFilename(q.filename).Some?
      modifies this`files, session`rows, session`committedRows
      ensures if Aborts(old(session.rows), f.cleanupStops) then session.committedRows == old(session.committedRows)
              else session.Clean()
      ensures var p := PolicyAt(session, now, |q.data|);
              && AdmissionOutcome(p, q, key, f, old(session.rows), old(files), session.rows, files)
              && r == LockedAnswer(p, f, old(session.rows))
      ensures ActiveBytes(old(session.rows)) <= maxTotalBytes ==> ActiveBytes(session.rows) <= maxTotalBytes
    {
      hide CleanupOf, ActiveBytes, ProtectedBytes, NormalizeFilename;
      ghost var policy := PolicyAt(session, now, |q.data|);
      RefusalExact(session.rows, files, policy);
      CleanupShrinks(session.rows, files, policy);
      if Aborts(session.rows, f.cleanupStops) {
        EvictionShrinks(session.rows, files, f.cleanupStops.value, policy);
      }
      CleanupKeepsFresh(session.rows, files, policy);
      var swept := CleanupLocked(session, now, |q.data|, f.cleanupStops);
      if swept.None? {
        return Failure(CleanupAborted);
      }
      if f.sumFails {
        return Failure(DatabaseFailure);
      }
      if ActiveBytes(session.rows) + |q.data| > maxTotalBytes {
        return Failure(ArtifactStorageFull);
      }
      if f.writeFails {
        return Failure(PolicyViolation);
      }
      files := files[key := File(q.data, now, true)];
      var days := if q.kind == "upload" then uploadRetentionDays else retentionDays;
      var deadline := if q.expiresAt.Some? then q.expiresAt.value else now + DAY * days;
      var artifact := Artifact(q.job, q.kind, NormalizeFilename(q.filename).value, key, q.mime, |q.data|,
                               Sha256(q.data), now, Some(deadline), ActiveArtifact);
      ActiveAppend(session.rows, artifact);
      session.rows := session.rows + [artifact];
      if f.commitFails {
        session.Rollback();
        files := files - {key};
        return Failure(DatabaseFailure);
      }
      session.Commit();
      if f.refreshFails {
        session.Rollback();
        files := files - {key};
        return Failure(DatabaseFailure);
      }
      return Success(|session.rows| - 1);
    }
  }

  /** Whether the loop over the active rows stops before it has committed. */
  predicate Aborts(rows: seq<Artifact>, stops: Option<nat>) {
    stops.Some? && stops.value <= |OldestFirst(rows, |rows|)|
  }

  /** The state after k iterations. */
  function EvictedUpTo(rows: seq<Artifact>, files: Files, k: nat, p: Policy): Eviction
    requires k <= |OldestFirst(rows, |rows|)|
  {
    Evict(rows, files, OldestFirst(rows, |rows|), k, p)
  }

  /** The rows of the session when the loop stops after k iterations, or its commit fails at the end. */
  function StoppedRows(rows: seq<Artifact>, files: Files, k: nat, p: Policy): seq<Artifact>
    requires k <= |OldestFirst(rows, |rows|)|
  {
    if k < |OldestFirst(rows, |rows|)| then EvictedUpTo(rows, files, k, p).rows else rows
  }

  /** The bytes of live jobs and the new bytes fit together. */
  predicate Fits(rows: seq<Artifact>, p: Policy) {
    ProtectedBytes(rows, p) + p.required <= p.quota
  }

  /** A call that gets as far as its commit, and whose commit takes effect. */
  predicate Commits(p: Policy, f: Faults, rows: seq<Artifact>) {
    !Aborts(rows, f.cleanupStops) && !f.sumFails && Fits(rows, p) && !f.writeFails && !f.commitFails
  }

  /** The answer of the section under the lock. */
  function LockedAnswer(p: Policy, f: Faults, rows: seq<Artifact>): Result<nat, ArtifactError> {
    if Aborts(rows, f.cleanupStops) then Failure(CleanupAborted)
    else if f.sumFails then Failure(DatabaseFailure)
    else if !Fits(rows, p) then Failure(ArtifactStorageFull)
    else if f.writeFails then Failure(PolicyViolation)
    else if f.commitFails || f.refreshFails then Failure(DatabaseFailure)
    else Success(|rows|)
  }

  /** The caller's answer: a failed release of the lock hides every other one. */
  function AnswerOf(p: Policy, f: Faults, rows: seq<Artifact>): Result<nat, ArtifactError> {
    if f.releaseFails then Failure(LockReleaseFailed) else LockedAnswer(p, f, rows)
  }

  /** What a call that got as far as its cleanup leaves.  An aborted cleanup leaves what it did so far, the
      rows uncommitted; a call that does not commit a row leaves the eviction; one that commits adds one row
      within the quota, and its file unless the refresh failed. */
  ghost predicate AdmissionOutcome(p: Policy, q: Request, key: nat, f: Faults, rows: seq<Artifact>, files: Files,
                                   rows': seq<Artifact>, files': Files)
  {
    var e := CleanupOf(rows, files, p);
    if Aborts(rows, f.cleanupStops) then
      && rows' == StoppedRows(rows, files, f.cleanupStops.value, p)
      && files' == EvictedUpTo(rows, files, f.cleanupStops.value, p).files
    else if !Commits(p, f, rows) then rows' == e.rows && files' == e.files
    else
      && |rows'| == |rows| + 1 && rows' == e.rows + [rows'[|rows|]]
      && Stored(rows'[|rows|], q, key, p) && ActiveBytes(rows') <= p.quota && key !in e.files
      && if f.refreshFails then files' == e.files
         else
           && key in files' && files' == e.files[key := files'[key]]
           && files'[key].data == q.data && files'[key].safe
  }

  /** `path_for`, over a store's files. */
  function PathIn(a: Artifact, files: Files, maxSizeBytes: nat): Option<ArtifactError> {
    if a.storageKey !in files then Some(ArtifactNotFound)
    else
      var info := files[a.storageKey];
      if !info.safe || |info.data| != a.sizeBytes || |info.data| > maxSizeBytes then Some(PolicyViolation) else None
  }

  function EarlyAnswerOf(rows: seq<Artifact>, files: Files, maxSizeBytes: nat, q: Request)
    : Option<Result<nat, ArtifactError>>
  {
    if |q.data| > maxSizeBytes then Some(Failure(PolicyViolation))
    else
      match NormalizeFilename(q.filename)
      case None => Some(Failure(PolicyViolation))
      case Some(name) =>
        if q.kind == "" || |q.kind| > 50 || q.mime == "" || |q.mime| > 255 then Some(Failure(PolicyViolation))
        else if q.job.None? then None
        else
          match FindSame(rows, |rows|, q.job.value, q.kind, name, |q.data|, Sha256(q.data))
          case None => None
          case Some(id) =>
            match PathIn(rows[id], files, maxSizeBytes)
            case Some(error) => Some(Failure(error))
            case None => Some(Success(id))
  }

  /** A row that holds the bytes of a request. */
  predicate Matches(a: Artifact, q: Request) {
    && q.job.Some? && NormalizeFilename(q.filename).Some?
    && SameArtifact(a, q.job.value, q.kind, NormalizeFilename(q.filename).value, |q.data|, Sha256(q.data))
  }

  /** What every request is checked for. */
  predicate Acceptable(q: Request, maxSizeBytes: nat) {
    |q.data| <= maxSizeBytes && NormalizeFilename(q.filename).Some? && 0 < |q.kind| <= 50 && 0 < |q.mime| <= 255
  }

  /** A request is answered early unless it is acceptable and no row holds its bytes. */
  lemma EarlyNoneExact(rows: seq<Artifact>, files: Files, maxSizeBytes: nat, q: Request)
    ensures EarlyAnswerOf(rows, files, maxSizeBytes, q).None?
            <==> Acceptable(q, maxSizeBytes) && forall i :: 0 <= i < |rows| ==> !Matches(rows[i], q)
  {
    hide NormalizeFilename;
  }

  /** It is answered with a row exactly if it is acceptable and that row is the first to hold its bytes, with
      its file in place. */
  lemma EarlySuccessExact(rows: seq<Artifact>, files: Files, maxSizeBytes: nat, q: Request, id: nat)
    ensures EarlyAnswerOf(rows, files, maxSizeBytes, q) == Some(Success(id)) <==>
              && Acceptable(q, maxSizeBytes)
              && id < |rows| && Matches(rows[id], q) && (forall i :: 0 <= i < id ==> !Matches(rows[i], q))
              && rows[id].storageKey in files && files[rows[id].storageKey].safe
              && |files[rows[id].storageKey].data| == |q.data|
  {
    hide NormalizeFilename;
    if q.job.Some? && NormalizeFilename(q.filename).Some? {
      var found := FindSame(rows, |rows|, q.job.value, q.kind, NormalizeFilename(q.filename).value, |q.data|,
                            Sha256(q.data));
      assert found.Some? ==> Matches(rows[found.value], q);
      assert forall i :: 0 <= i < |rows| && Matches(rows[i], q) ==> found.Some? && found.value <= i;
    }
  }

  /** What it takes to hold the bytes of a request. */
  lemma MatchesExact(a: Artifact, q: Request)
    ensures Matches(a, q) <==>
              && a.status == ActiveArtifact && q.job.Some? && a.jobId == q.job && a.kind == q.kind
              && NormalizeFilename(q.filename) == Some(a.originalFilename)
              && a.sizeBytes == |q.data| && a.sha256 == Sha256(q.data)
  {
    hide NormalizeFilename;
  }

  function FindSame(rows: seq<Artifact>, n: nat, job: nat, kind: string, name: string, size: nat, digest: Digest)
    : (r: Option<nat>)
    requires n <= |rows|
    ensures r.Some? ==> r.value < n && SameArtifact(rows[r.value], job, kind, name, size, digest)
    ensures r.None? <==> forall i :: 0 <= i < n ==> !SameArtifact(rows[i], job, kind, name, size, digest)
    ensures r.Some? ==> forall i :: 0 <= i < r.value ==> !SameArtifact(rows[i], job, kind, name, size, digest)
  {
    if n == 0 then None
    else
      match FindSame(rows, n - 1, job, kind, name, size, digest)
      case Some(i) => Some(i)
      case None => if SameArtifact(rows[n - 1], job, kind, name, size, digest) then Some(n - 1) else None
  }

  /** The row written for newly stored bytes. */
  predicate Stored(a: Artifact, q: Request, key: nat, p: Policy) {
    && a.status == ActiveArtifact && a.storageKey == key && a.jobId == q.job && a.kind == q.kind && a.mimeType == q.mime
    && a.sizeBytes == |q.data| && a.sha256 == Sha256(q.data) && a.createdAt == p.now
    && NormalizeFilename(q.filename) == Some(a.originalFilename)
    && a.expiresAt == Some(if q.expiresAt.Some? then q.expiresAt.value
                           else if q.kind == "upload" then p.now + 24 * 60 * 60 * p.uploadRetentionDays
                           else p.now + 24 * 60 * 60 * p.retentionDays)
  }

  /** Without a time of its own a stored artifact expires after the days of its kind, as configured when it was
      stored: at no earlier cleanup, and at every later one. */
  lemma StoredExpires(a: Artifact, q: Request, key: nat, p: Policy, later: Policy)
    requires Stored(a, q, key, p) && q.expiresAt.None?
    ensures IsExpired(later, a) <==>
              later.now - p.now >= DAY * (if q.kind == "upload" then p.uploadRetentionDays else p.retentionDays)
    ensures DAY == 86_400
  {
  }

  /** Cleanup keeps a fresh key fresh. */
  lemma CleanupKeepsFresh(rows: seq<Artifact>, files: Files, p: Policy)
    ensures CleanupOf(rows, files, p).files.Keys <= files.Keys
  {
    var ids := OldestFirst(rows, |rows|);
    FilesShrink(rows, files, ids, |ids|, p);
  }

  /** No stopped cleanup raises the database sum either. */
  lemma EvictionShrinks(rows: seq<Artifact>, files: Files, k: nat, p: Policy)
    requires k <= |OldestFirst(rows, |rows|)|
    ensures ActiveBytes(EvictedUpTo(rows, files, k, p).rows) <= ActiveBytes(rows)
    ensures ActiveBytes(StoppedRows(rows, files, k, p)) <= ActiveBytes(rows)
  {
    var ids := OldestFirst(rows, |rows|);
    OldestFirstExact(rows);
    Conservation(rows, files, ids, k, p);
    Nonnegative(rows, files, ids, k, p);
  }

  lemma {:induction false} FilesShrink(rows: seq<Artifact>, files: Files, ids: seq<nat>, k: nat, p: Policy)
    requires k <= |ids| && InRange(rows, ids)
    ensures Evict(rows, files, ids, k, p).files.Keys <= files.Keys
  {
    if k == 0 {
    } else {
      FilesShrink(rows, files, ids, k - 1, p);
    }
  }
}
