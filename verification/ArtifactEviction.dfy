/** Quota-driven eviction of automation artifacts: the loop of `_cleanup_locked` as a function of the
    rows, the files and the jobs, and what it guarantees. */
module ArtifactEviction {
  import opened Wrappers
  import opened ContentBlobs

  datatype CleanupStatus = ActiveArtifact | Expired | Failed

  datatype JobStatus = Pending | Retrying | Running | Cancelling | Finished

  /** A row of job_artifacts; its id is its position.  Times are in seconds. */
  datatype Artifact = Artifact(
    jobId: Option<nat>, kind: string, originalFilename: string, storageKey: nat, mimeType: string,
    sizeBytes: nat, sha256: Digest, createdAt: int, expiresAt: Option<int>, status: CleanupStatus)

  type Files = map<nat, File>

  /** What decides one eviction besides the rows: the clock, the bytes about to be stored, the jobs,
      the quota and the two retention periods. */
  datatype Policy = Policy(now: int, required: nat, jobs: map<nat, JobStatus>, quota: nat,
                           retentionDays: nat, uploadRetentionDays: nat)

  const DAY := 86400

  predicate JobIsActive(jobs: map<nat, JobStatus>, job: Option<nat>) {
    job.Some? && job.value in jobs && jobs[job.value] != Finished
  }

  predicate Protected(p: Policy, a: Artifact) {
    JobIsActive(p.jobs, a.jobId)
  }

  predicate IsExpired(p: Policy, a: Artifact) {
    var deadline := if a.expiresAt.Some? then a.expiresAt.value
                    else a.createdAt + DAY * (if a.kind == "upload" then p.uploadRetentionDays else p.retentionDays);
    deadline <= p.now
  }

  // ----- sums -----

  function ActiveSize(a: Artifact): nat {
    if a.status == ActiveArtifact then a.sizeBytes else 0
  }

  /** The active sum over the first n rows, as the database computes it. */
  function ActiveBelow(rows: seq<Artifact>, n: nat): nat
    requires n <= |rows|
  {
    if n == 0 then 0 else ActiveBelow(rows, n - 1) + ActiveSize(rows[n - 1])
  }

  function ActiveBytes(rows: seq<Artifact>): nat {
    ActiveBelow(rows, |rows|)
  }

  /** The part of the active sum that belongs to live jobs and cannot be evicted. */
  function ProtectedBelow(rows: seq<Artifact>, p: Policy, n: nat): nat
    requires n <= |rows|
  {
    if n == 0 then 0
    else ProtectedBelow(rows, p, n - 1) + if Protected(p, rows[n - 1]) then ActiveSize(rows[n - 1]) else 0
  }

  function ProtectedBytes(rows: seq<Artifact>, p: Policy): nat {
    ProtectedBelow(rows, p, |rows|)
  }

  // ----- oldest first -----

  predicate Older(rows: seq<Artifact>, i: nat, j: nat)
    requires i < |rows| && j < |rows|
  {
    rows[i].createdAt < rows[j].createdAt || (rows[i].createdAt == rows[j].createdAt && i < j)
  }

  ghost predicate InRange(rows: seq<Artifact>, ids: seq<nat>) {
    forall k :: 0 <= k < |ids| ==> ids[k] < |rows|
  }

  /** Inserts id into a list ordered by creation time and id. */
  function InsertOldest(rows: seq<Artifact>, ids: seq<nat>, id: nat): (r: seq<nat>)
    requires InRange(rows, ids) && id < |rows|
    ensures InRange(rows, r) && |r| == |ids| + 1
    ensures multiset(r) == multiset(ids) + multiset{id}
  {
    if ids == [] then [id]
    else if Older(rows, id, ids[0]) then [id] + ids
    else
      assert ids == [ids[0]] + ids[1..];
      [ids[0]] + InsertOldest(rows, ids[1..], id)
  }

  /** The ids among the first n rows that are active, oldest first: the order of the query. */
  function OldestFirst(rows: seq<Artifact>, n: nat): (r: seq<nat>)
    requires n <= |rows|
    ensures InRange(rows, r)
  {
    if n == 0 then []
    else if rows[n - 1].status == ActiveArtifact then InsertOldest(rows, OldestFirst(rows, n - 1), n - 1)
    else OldestFirst(rows, n - 1)
  }

  ghost predicate Ordered(rows: seq<Artifact>, ids: seq<nat>)
    requires InRange(rows, ids)
  {
    forall k, l :: 0 <= k < l < |ids| ==> Older(rows, ids[k], ids[l])
  }

  lemma {:induction false} InsertOrdered(rows: seq<Artifact>, ids: seq<nat>, id: nat)
    requires InRange(rows, ids) && id < |rows| && Ordered(rows, ids) && id !in ids
    ensures Ordered(rows, InsertOldest(rows, ids, id))
  {
    if ids != [] && !Older(rows, id, ids[0]) {
      var rest := ids[1..];
      InsertOrdered(rows, rest, id);
      var r := InsertOldest(rows, rest, id);
      forall l | 0 <= l < |r| ensures Older(rows, ids[0], r[l]) {
        assert r[l] in multiset(r);
        if r[l] != id {
          assert r[l] in multiset(rest);
          var k :| 0 <= k < |rest| && rest[k] == r[l];
          assert Older(rows, ids[0], ids[k + 1]);
        }
      }
    }
  }

  lemma {:induction false} OldestFirstMember(rows: seq<Artifact>, n: nat, id: nat)
    requires n <= |rows|
    ensures id in OldestFirst(rows, n) <==> id < n && rows[id].status == ActiveArtifact
  {
    if n == 0 {
    } else {
      OldestFirstMember(rows, n - 1, id);
      var ids, all := OldestFirst(rows, n - 1), OldestFirst(rows, n);
      assert (id in all <==> id in multiset(all)) && (id in ids <==> id in multiset(ids));
    }
  }

  lemma {:induction false} OldestFirstOrdered(rows: seq<Artifact>, n: nat)
    requires n <= |rows|
    ensures Ordered(rows, OldestFirst(rows, n))
  {
    if n == 0 {
    } else {
      hide Ordered, Older, InsertOldest;
      OldestFirstOrdered(rows, n - 1);
      if rows[n - 1].status == ActiveArtifact {
        assert OldestFirst(rows, n) == InsertOldest(rows, OldestFirst(rows, n - 1), n - 1);
        hide OldestFirst;
        OldestFirstMember(rows, n - 1, n - 1);
        InsertOrdered(rows, OldestFirst(rows, n - 1), n - 1);
      }
    }
  }

  /** The query's answer: exactly the active rows, each once, ordered by creation time and then id. */
  lemma OldestFirstExact(rows: seq<Artifact>)
    ensures Ordered(rows, OldestFirst(rows, |rows|))
    ensures forall id: nat :: id in OldestFirst(rows, |rows|) <==> id < |rows| && rows[id].status == ActiveArtifact
    ensures forall k :: 0 <= k < |OldestFirst(rows, |rows|)| ==>
              rows[OldestFirst(rows, |rows|)[k]].status == ActiveArtifact
    ensures var ids := OldestFirst(rows, |rows|);
            forall k, l :: 0 <= k < l < |ids| ==>
              rows[ids[k]].createdAt < rows[ids[l]].createdAt
              || (rows[ids[k]].createdAt == rows[ids[l]].createdAt && ids[k] < ids[l])
  {
    hide OldestFirst;
    OldestFirstOrdered(rows, |rows|);
    forall id: nat
      ensures id in OldestFirst(rows, |rows|) <==> id < |rows| && rows[id].status == ActiveArtifact
    {
      OldestFirstMember(rows, |rows|, id);
    }
  }

  // ----- the loop -----

  datatype DeleteOutcome = WasMissing | WasDeleted | Violation

  /** `_delete_managed_file`: an absent file is fine, an unsafe or resized one is a policy violation. */
  function DeleteOutcomeOf(a: Artifact, files: Files): DeleteOutcome {
    if a.storageKey !in files then WasMissing
    else if !files[a.storageKey].safe || |files[a.storageKey].data| != a.sizeBytes then Violation
    else WasDeleted
  }

  datatype Eviction = Eviction(rows: seq<Artifact>, files: Files, activeBytes: int,
                               expired: nat, missing: nat, failed: nat, released: nat, missingBytes: nat)

  /** One iteration.  `missingBytes` is not in the source; it completes the byte accounting. */
  function EvictOne(e: Eviction, id: nat, p: Policy): (r: Eviction)
    requires id < |e.rows|
    ensures |r.rows| == |e.rows|
    ensures forall i :: 0 <= i < |e.rows| && i != id ==> r.rows[i] == e.rows[i]
  {
    var a := e.rows[id];
    var overQuota := e.activeBytes + p.required > p.quota;
    if Protected(p, a) || (!overQuota && !IsExpired(p, a)) then e
    else
      match DeleteOutcomeOf(a, e.files)
      case Violation => e.(rows := e.rows[id := a.(status := Failed)], failed := e.failed + 1)
      case WasMissing =>
        e.(rows := e.rows[id := a.(status := Expired)], activeBytes := e.activeBytes - a.sizeBytes,
           missing := e.missing + 1, missingBytes := e.missingBytes + a.sizeBytes)
      case WasDeleted =>
        e.(rows := e.rows[id := a.(status := Expired)], activeBytes := e.activeBytes - a.sizeBytes,
           files := e.files - {a.storageKey}, expired := e.expired + 1, released := e.released + a.sizeBytes)
  }

  function Start(rows: seq<Artifact>, files: Files): Eviction {
    Eviction(rows, files, ActiveBytes(rows), 0, 0, 0, 0, 0)
  }

  /** The state of the loop before its k-th iteration. */
  function Evict(rows: seq<Artifact>, files: Files, ids: seq<nat>, k: nat, p: Policy): (r: Eviction)
    requires k <= |ids| && InRange(rows, ids)
    ensures |r.rows| == |rows|
  {
    if k == 0 then Start(rows, files) else EvictOne(Evict(rows, files, ids, k - 1, p), ids[k - 1], p)
  }

  function CleanupOf(rows: seq<Artifact>, files: Files, p: Policy): (r: Eviction)
    ensures |r.rows| == |rows|
  {
    var ids := OldestFirst(rows, |rows|);
    Evict(rows, files, ids, |ids|, p)
  }

  // ----- accounting -----

  /** The sizes of the rows that were active before and are failed now. */
  function FailedBelow(before: seq<Artifact>, after: seq<Artifact>, n: nat): nat
    requires n <= |before| == |after|
  {
    if n == 0 then 0
    else FailedBelow(before, after, n - 1)
         + if before[n - 1].status == ActiveArtifact && after[n - 1].status == Failed
           then before[n - 1].sizeBytes else 0
  }

  lemma {:induction false} UpdateSums(before: seq<Artifact>, rows: seq<Artifact>, id: nat, a: Artifact, n: nat)
    requires |before| == |rows| && id < |rows| && n <= |rows|
    requires before[id] == rows[id] && a.sizeBytes == rows[id].sizeBytes && rows[id].status == ActiveArtifact
    requires a.status != ActiveArtifact
    ensures ActiveBelow(rows[id := a], n) == ActiveBelow(rows, n) - if id < n then a.sizeBytes else 0
    ensures FailedBelow(before, rows[id := a], n)
            == FailedBelow(before, rows, n) + if id < n && a.status == Failed then a.sizeBytes else 0
  {
    if n == 0 {
    } else {
      UpdateSums(before, rows, id, a, n - 1);
    }
  }

  lemma {:induction false} NoneFailed(rows: seq<Artifact>, n: nat)
    requires n <= |rows|
    ensures FailedBelow(rows, rows, n) == 0
  {
    if n == 0 {
    } else {
      NoneFailed(rows, n - 1);
    }
  }

  /** Rows not yet reached are untouched. */
  lemma {:induction false} Unreached(rows: seq<Artifact>, files: Files, ids: seq<nat>, k: nat, p: Policy, i: nat)
    requires k <= |ids| && InRange(rows, ids) && i < |rows|
    requires forall l :: 0 <= l < k ==> ids[l] != i
    ensures Evict(rows, files, ids, k, p).rows[i] == rows[i]
  {
    if k == 0 {
    } else {
      Unreached(rows, files, ids, k - 1, p, i);
    }
  }

  /** Bytes are conserved: what the loop subtracted is what it released plus what was already gone,
      and its counter exceeds the database sum by exactly the sizes of the failed deletes. */
  lemma {:induction false} Conservation(rows: seq<Artifact>, files: Files, ids: seq<nat>, k: nat, p: Policy)
    requires k <= |ids| && InRange(rows, ids) && Ordered(rows, ids)
    requires forall l :: 0 <= l < |ids| ==> rows[ids[l]].status == ActiveArtifact
    ensures var e := Evict(rows, files, ids, k, p);
            && e.activeBytes + e.released + e.missingBytes == ActiveBytes(rows)
            && e.activeBytes == ActiveBytes(e.rows) + FailedBelow(rows, e.rows, |rows|)
  {
    if k == 0 {
      NoneFailed(rows, |rows|);
    } else {
      Conservation(rows, files, ids, k - 1, p);
      var id := ids[k - 1];
      forall l | 0 <= l < k - 1 ensures ids[l] != id { assert Older(rows, ids[l], ids[k - 1]); }
      Unreached(rows, files, ids, k - 1, p, id);
      ConservationStep(rows, Evict(rows, files, ids, k - 1, p), id, p);
      hide EvictOne, ActiveBelow, FailedBelow, Ordered;
    }
  }

  lemma ConservationStep(before: seq<Artifact>, e: Eviction, id: nat, p: Policy)
    requires |before| == |e.rows| && id < |before| && e.rows[id] == before[id] && before[id].status == ActiveArtifact
    requires e.activeBytes == ActiveBytes(e.rows) + FailedBelow(before, e.rows, |before|)
    ensures var r := EvictOne(e, id, p);
            && r.activeBytes == ActiveBytes(r.rows) + FailedBelow(before, r.rows, |before|)
            && r.activeBytes + r.released + r.missingBytes == e.activeBytes + e.released + e.missingBytes
  {
    UpdateSums(before, e.rows, id, e.rows[id].(status := Failed), |before|);
    UpdateSums(before, e.rows, id, e.rows[id].(status := Expired), |before|);
    hide ActiveBelow, FailedBelow;
  }

  // ----- who is evicted -----

  /** The counter never grows, so the quota pressure of a later iteration was already there before. */
  lemma {:induction false} PressureFades(rows: seq<Artifact>, files: Files, ids: seq<nat>, j: nat, k: nat, p: Policy)
    requires j <= k <= |ids| && InRange(rows, ids)
    ensures Evict(rows, files, ids, k, p).activeBytes <= Evict(rows, files, ids, j, p).activeBytes
    decreases k
  {
    if j < k { PressureFades(rows, files, ids, j, k - 1, p); }
  }

  /** Reached rows keep what their own iteration decided. */
  lemma {:induction false} Decided(rows: seq<Artifact>, files: Files, ids: seq<nat>, j: nat, k: nat, p: Policy)
    requires j < k <= |ids| && InRange(rows, ids) && Ordered(rows, ids)
    ensures Evict(rows, files, ids, k, p).rows[ids[j]] == Evict(rows, files, ids, j + 1, p).rows[ids[j]]
    decreases k
  {
    if j + 1 < k {
      Decided(rows, files, ids, j, k - 1, p);
      assert Older(rows, ids[j], ids[k - 1]);
    }
  }

  /** What happens to the j-th oldest artifact, told from its own iteration. */
  lemma Fate(rows: seq<Artifact>, files: Files, ids: seq<nat>, j: nat, p: Policy)
    requires j < |ids| && InRange(rows, ids) && Ordered(rows, ids)
    requires forall l :: 0 <= l < |ids| ==> rows[ids[l]].status == ActiveArtifact
    ensures var a := rows[ids[j]];
            var over := Evict(rows, files, ids, j, p).activeBytes + p.required > p.quota;
            Evict(rows, files, ids, |ids|, p).rows[ids[j]].status == ActiveArtifact
            <==> Protected(p, a) || (!over && !IsExpired(p, a))
    ensures Protected(p, rows[ids[j]]) ==> Evict(rows, files, ids, |ids|, p).rows[ids[j]] == rows[ids[j]]
  {
    Decided(rows, files, ids, j, |ids|, p);
    forall l | 0 <= l < j ensures ids[l] != ids[j] { assert Older(rows, ids[l], ids[j]); }
    Unreached(rows, files, ids, j, p, ids[j]);
  }

  /** Eviction under pressure is an oldest-first minimal prefix.  If an unexpired artifact lost its
      active status, then its job was not live, the loop total still exceeded the quota just before,
      and every older artifact without a live job had lost its active status too. */
  lemma EvictionIsPrefix(rows: seq<Artifact>, files: Files, p: Policy, i: nat, j: nat)
    requires var ids := OldestFirst(rows, |rows|);
             i < j < |ids| && CleanupOf(rows, files, p).rows[ids[j]].status != ActiveArtifact
             && !IsExpired(p, rows[ids[j]])
    ensures var ids := OldestFirst(rows, |rows|);
            && !Protected(p, rows[ids[j]])
            && Evict(rows, files, ids, j, p).activeBytes + p.required > p.quota
            && (!Protected(p, rows[ids[i]]) ==> CleanupOf(rows, files, p).rows[ids[i]].status != ActiveArtifact)
  {
    var ids := OldestFirst(rows, |rows|);
    OldestFirstExact(rows);
    Fate(rows, files, ids, j, p);
    Fate(rows, files, ids, i, p);
    PressureFades(rows, files, ids, i, j, p);
  }

  /** The same over the fields: when an unexpired artifact loses its active status, so does every active one
      that is older, by creation time and then id, unless its job is live. */
  lemma OldestGoFirst(rows: seq<Artifact>, files: Files, p: Policy, i: nat, j: nat)
    requires i < |rows| && j < |rows| && rows[i].status == ActiveArtifact && rows[j].status == ActiveArtifact
    requires rows[i].createdAt < rows[j].createdAt || (rows[i].createdAt == rows[j].createdAt && i < j)
    requires !IsExpired(p, rows[j]) && CleanupOf(rows, files, p).rows[j].status != ActiveArtifact
    ensures JobIsActive(p.jobs, rows[i].jobId) || CleanupOf(rows, files, p).rows[i].status != ActiveArtifact
  {
    var ids := OldestFirst(rows, |rows|);
    OldestFirstExact(rows);
    hide OldestFirst, CleanupOf, IsExpired;
    assert i in ids && j in ids;
    var k, l :| 0 <= k < |ids| && ids[k] == i && 0 <= l < |ids| && ids[l] == j;
    EvictionIsPrefix(rows, files, p, k, l);
  }

  /** A job is live while it is pending, retrying, running or being cancelled. */
  lemma LiveJobs(jobs: map<nat, JobStatus>, job: Option<nat>)
    ensures JobIsActive(jobs, job)
            <==> exists k :: k in jobs && job == Some(k) && jobs[k] in [Pending, Retrying, Running, Cancelling]
  {
    if job.Some? && job.value in jobs {
      assert jobs[job.value] in [Pending, Retrying, Running, Cancelling] <==> jobs[job.value] != Finished;
    }
  }

  /** An artifact expires at its own time, or a number of days after its creation that uploads have of
      their own. */
  lemma ExpiryExact(p: Policy, a: Artifact)
    ensures IsExpired(p, a) <==>
              || (a.expiresAt.Some? && p.now >= a.expiresAt.value)
              || (a.expiresAt.None? && a.kind == "upload"
                  && p.now - a.createdAt >= 24 * 60 * 60 * p.uploadRetentionDays)
              || (a.expiresAt.None? && a.kind != "upload" && p.now - a.createdAt >= 24 * 60 * 60 * p.retentionDays)
  {
  }

  // ----- the refusal is exact -----

  lemma {:induction false} SumsCompare(before: seq<Artifact>, after: seq<Artifact>, p: Policy, n: nat, only: bool)
    requires n <= |before| == |after|
    requires forall i :: 0 <= i < n && Protected(p, before[i]) ==> after[i] == before[i]
    requires only ==> forall i :: 0 <= i < n && !Protected(p, before[i]) ==> after[i].status != ActiveArtifact
    ensures ProtectedBelow(before, p, n) <= ActiveBelow(after, n)
    ensures only ==> ProtectedBelow(before, p, n) == ActiveBelow(after, n)
  {
    if n == 0 {
    } else {
      SumsCompare(before, after, p, n - 1, only);
    }
  }

  lemma ProtectedKept(rows: seq<Artifact>, files: Files, p: Policy, i: nat)
    requires i < |rows|
    ensures Protected(p, rows[i]) ==> CleanupOf(rows, files, p).rows[i] == rows[i]
    ensures rows[i].status != ActiveArtifact ==> CleanupOf(rows, files, p).rows[i] == rows[i]
    ensures var e := CleanupOf(rows, files, p);
            !Protected(p, rows[i]) && e.activeBytes + p.required > p.quota ==> e.rows[i].status != ActiveArtifact
  {
    var ids := OldestFirst(rows, |rows|);
    OldestFirstExact(rows);
    if i in ids {
      var j :| 0 <= j < |ids| && ids[j] == i;
      Fate(rows, files, ids, j, p);
      PressureFades(rows, files, ids, j, |ids|, p);
    } else {
      Unreached(rows, files, ids, |ids|, p, i);
    }
  }

  /** After the cleanup, the recomputed sum leaves no room exactly when the artifacts of live jobs
      alone leave none, however many deletes failed on the way. */
  lemma RefusalExact(rows: seq<Artifact>, files: Files, p: Policy)
    ensures ActiveBytes(CleanupOf(rows, files, p).rows) + p.required > p.quota
            <==> ProtectedBytes(rows, p) + p.required > p.quota
  {
    var ids := OldestFirst(rows, |rows|);
    OldestFirstExact(rows);
    Conservation(rows, files, ids, |ids|, p);
    var e := CleanupOf(rows, files, p);
    var only := e.activeBytes + p.required > p.quota;
    hide Evict, OldestFirst, Ordered;
    forall i | 0 <= i < |rows|
      ensures Protected(p, rows[i]) ==> e.rows[i] == rows[i]
      ensures only && !Protected(p, rows[i]) ==> e.rows[i].status != ActiveArtifact
    {
      ProtectedKept(rows, files, p, i);
    }
    SumsCompare(rows, e.rows, p, |rows|, only);
  }

  /** Cleanup never raises the database sum. */
  lemma CleanupShrinks(rows: seq<Artifact>, files: Files, p: Policy)
    ensures ActiveBytes(CleanupOf(rows, files, p).rows) <= ActiveBytes(rows)
  {
    var ids := OldestFirst(rows, |rows|);
    OldestFirstExact(rows);
    Conservation(rows, files, ids, |ids|, p);
    Nonnegative(rows, files, ids, |ids|, p);
  }

  lemma {:induction false} Nonnegative(rows: seq<Artifact>, files: Files, ids: seq<nat>, k: nat, p: Policy)
    requires k <= |ids| && InRange(rows, ids)
    ensures Evict(rows, files, ids, k, p).activeBytes <= ActiveBytes(rows)
  {
    if k == 0 {
    } else {
      Nonnegative(rows, files, ids, k - 1, p);
    }
  }

  lemma {:induction false} ActivePrefix(rows: seq<Artifact>, more: seq<Artifact>, n: nat)
    requires n <= |rows|
    ensures ActiveBelow(rows + more, n) == ActiveBelow(rows, n)
  {
    if n == 0 {
    } else {
      ActivePrefix(rows, more, n - 1);
    }
  }

  lemma ActiveAppend(rows: seq<Artifact>, a: Artifact)
    ensures ActiveBytes([]) == 0
    ensures ActiveBytes(rows + [a]) == ActiveBytes(rows) + if a.status == ActiveArtifact then a.sizeBytes else 0
  {
    ActivePrefix(rows, [a], |rows|);
  }

  /** Of these, the bytes of live jobs. */
  lemma ProtectedAppend(rows: seq<Artifact>, p: Policy, a: Artifact)
    ensures ProtectedBytes([], p) == 0
    ensures ProtectedBytes(rows + [a], p)
            == ProtectedBytes(rows, p)
               + if a.status == ActiveArtifact && JobIsActive(p.jobs, a.jobId) then a.sizeBytes else 0
  {
    ProtectedPrefix(rows, [a], p, |rows|);
  }

  lemma {:induction false} ProtectedPrefix(rows: seq<Artifact>, more: seq<Artifact>, p: Policy, n: nat)
    requires n <= |rows|
    ensures ProtectedBelow(rows + more, p, n) == ProtectedBelow(rows, p, n)
  {
    if n == 0 {
    } else {
      ProtectedPrefix(rows, more, p, n - 1);
    }
  }
}
