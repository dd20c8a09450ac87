/** Inspection and thumbnail jobs of content versions: enqueueing, the two reconciliation passes, and
    the fence that an executing inspection must pass. */
module ContentJobs {
  import opened Wrappers

  datatype JobStatus = Pending | Running | Cancelling | Succeeded | Failed | Retrying | Cancelled | Removed

  datatype JobKind = Inspection | Thumbnail

  /** A job's id is its position; a deleted job stays as Removed and nothing points at it.
      `retryable` is the nullable error_retryable column. */
  datatype Job = Job(kind: JobKind, version: nat, status: JobStatus, retryable: Option<bool>)

  datatype Processing = InProgress | Ready | Invalid

  datatype VariantStatus = NoVariant | VariantProcessing | VariantReady | VariantInvalid

  /** A version with its thumbnail variant and what a thumbnail needs to know of its asset. */
  datatype Version = Version(
    status: Processing, inspectionJob: Option<nat>, thumbnailJob: Option<nat>,
    variant: VariantStatus, visual: bool, assetDeleted: bool)

  datatype Table = Table(versions: seq<Version>, jobs: seq<Job>)

  predicate LiveStatus(s: JobStatus) {
    s == Pending || s == Running || s == Cancelling
  }

  predicate LiveJob(t: Table, job: Option<nat>) {
    job.Some? && job.value < |t.jobs| && LiveStatus(t.jobs[job.value].status)
  }

  /** A job that will not be replaced: still live, or failed for good. */
  predicate Viable(t: Table, job: Option<nat>) {
    && job.Some? && job.value < |t.jobs|
    && (LiveStatus(t.jobs[job.value].status)
        || (t.jobs[job.value].status == Failed && t.jobs[job.value].retryable != Some(true)))
  }

  predicate WantsThumbnail(v: Version) {
    v.status == Ready && v.visual && !v.assetDeleted && v.variant != VariantReady
  }

  // ----- on values -----

  function SetVersion(t: Table, v: nat, row: Version): Table
    requires v < |t.versions|
  {
    t.(versions := t.versions[v := row])
  }

  function EnqueueInspection(t: Table, v: nat): (Table, nat)
    requires v < |t.versions|
  {
    var row := t.versions[v];
    if LiveJob(t, row.inspectionJob) then (t, row.inspectionJob.value)
    else
      var id := |t.jobs|;
      (Table(t.versions[v := row.(inspectionJob := Some(id))], t.jobs + [Job(Inspection, v, Pending, None)]), id)
  }

  function EnqueueThumbnail(t: Table, v: nat): (Table, Option<nat>)
    requires v < |t.versions|
  {
    var row := t.versions[v];
    if !WantsThumbnail(row) then (t, None)
    else if LiveJob(t, row.thumbnailJob) then (t, row.thumbnailJob)
    else
      var id := |t.jobs|;
      (Table(t.versions[v := row.(thumbnailJob := Some(id), variant := VariantProcessing)],
             t.jobs + [Job(Thumbnail, v, Pending, None)]), Some(id))
  }

  function ReconcileInspection(t: Table, v: nat, busy: set<nat>): (Table, nat)
    requires v < |t.versions|
  {
    var row := t.versions[v];
    if v in busy || row.status != InProgress || Viable(t, row.inspectionJob) then (t, 0)
    else (EnqueueInspection(SetVersion(t, v, row.(inspectionJob := None)), v).0, 1)
  }

  function ReconcileThumbnail(t: Table, v: nat, busy: set<nat>): (Table, nat)
    requires v < |t.versions|
  {
    var row := t.versions[v];
    if v in busy || !WantsThumbnail(row) || Viable(t, row.thumbnailJob) then (t, 0)
    else (EnqueueThumbnail(SetVersion(t, v, row.(thumbnailJob := None)), v).0, 1)
  }

  /** The first n versions of a pass, and how many jobs it scheduled. */
  function InspectionPass(t: Table, n: nat, busy: set<nat>): (r: (Table, nat))
    requires n <= |t.versions|
    ensures |r.0.versions| == |t.versions|
  {
    if n == 0 then (t, 0)
    else
      var (before, scheduled) := InspectionPass(t, n - 1, busy);
      var (after, one) := ReconcileInspection(before, n - 1, busy);
      (after, scheduled + one)
  }

  function ThumbnailPass(t: Table, n: nat, busy: set<nat>): (r: (Table, nat))
    requires n <= |t.versions|
    ensures |r.0.versions| == |t.versions|
  {
    if n == 0 then (t, 0)
    else
      var (before, scheduled) := ThumbnailPass(t, n - 1, busy);
      var (after, one) := ReconcileThumbnail(before, n - 1, busy);
      (after, scheduled + one)
  }

  // ----- what one call does -----

  /** A job that may still run. */
  predicate Alive(t: Table, job: Option<nat>) {
    job.Some? && job.value < |t.jobs| && t.jobs[job.value].status in [Pending, Running, Cancelling]
  }

  /** A job that a reconciliation leaves alone: one that may still run, or has failed for good. */
  predicate LeftAlone(t: Table, job: Option<nat>) {
    && job.Some? && job.value < |t.jobs|
    && (t.jobs[job.value].status in [Pending, Running, Cancelling]
        || (t.jobs[job.value].status == Failed && t.jobs[job.value].retryable != Some(true)))
  }

  lemma StatusesExact(t: Table, job: Option<nat>)
    ensures LiveJob(t, job) <==> Alive(t, job)
    ensures Viable(t, job) <==> LeftAlone(t, job)
  {
  }

  /** An inspection reuses the version's job while that may still run, and otherwise adds one and points the
      version at it. */
  lemma InspectExact(t: Table, v: nat)
    requires v < |t.versions|
    ensures var row, (after, job) := t.versions[v], EnqueueInspection(t, v);
            if Alive(t, row.inspectionJob) then after == t && Some(job) == row.inspectionJob
            else
              && job == |t.jobs| && after.jobs == t.jobs + [Job(Inspection, v, Pending, None)]
              && after.versions == t.versions[v := row.(inspectionJob := Some(job))]
  {
    StatusesExact(t, t.versions[v].inspectionJob);
    hide LiveJob, Alive;
  }

  /** A ready version of a picture or a video has a thumbnail made unless it has one or its asset is deleted. */
  predicate Lacks(v: Version) {
    v.status == Ready && v.visual && !v.assetDeleted && v.variant in [NoVariant, VariantProcessing, VariantInvalid]
  }

  lemma ThumbnailExact(t: Table, v: nat)
    requires v < |t.versions|
    ensures WantsThumbnail(t.versions[v]) <==> Lacks(t.versions[v])
    ensures var row, (after, job) := t.versions[v], EnqueueThumbnail(t, v);
            if !Lacks(row) then after == t && job == None
            else if Alive(t, row.thumbnailJob) then after == t && job == row.thumbnailJob
            else
              && job == Some(|t.jobs|) && after.jobs == t.jobs + [Job(Thumbnail, v, Pending, None)]
              && after.versions == t.versions[v := row.(thumbnailJob := job, variant := VariantProcessing)]
  {
    StatusesExact(t, t.versions[v].thumbnailJob);
    hide LiveJob, Alive;
  }

  /** One step of each pass schedules a job exactly if the version needs one, nobody is at work on it, and its
      last one is neither alive nor failed for good; the new job replaces that one. */
  lemma ReconcileExact(t: Table, v: nat, busy: set<nat>)
    requires v < |t.versions|
    ensures var row, (after, n) := t.versions[v], ReconcileInspection(t, v, busy);
            if v !in busy && row.status == InProgress && !LeftAlone(t, row.inspectionJob)
            then n == 1 && after.jobs == t.jobs + [Job(Inspection, v, Pending, None)]
                 && after.versions == t.versions[v := row.(inspectionJob := Some(|t.jobs|))]
            else n == 0 && after == t
    ensures var row, (after, n) := t.versions[v], ReconcileThumbnail(t, v, busy);
            if v !in busy && Lacks(row) && !LeftAlone(t, row.thumbnailJob)
            then n == 1 && after.jobs == t.jobs + [Job(Thumbnail, v, Pending, None)]
                 && after.versions
                    == t.versions[v := row.(thumbnailJob := Some(|t.jobs|), variant := VariantProcessing)]
            else n == 0 && after == t
  {
    var row := t.versions[v];
    StatusesExact(t, row.inspectionJob);
    StatusesExact(t, row.thumbnailJob);
    ThumbnailExact(t, v);
    var cleared := SetVersion(t, v, row.(thumbnailJob := None));
    ThumbnailExact(cleared, v);
    assert Lacks(cleared.versions[v]) == Lacks(row);
    assert cleared.versions[v := row.(thumbnailJob := Some(|t.jobs|), variant := VariantProcessing)]
           == t.versions[v := row.(thumbnailJob := Some(|t.jobs|), variant := VariantProcessing)];
    hide LeftAlone, Viable, Lacks, WantsThumbnail, EnqueueThumbnail;
  }

  // ----- in place -----

  class Scheduler {
    var versions: seq<Version>
    var jobs: seq<Job>

    function Value(): Table
      reads this
    {
      Table(versions, jobs)
    }

    method Inspect(v: nat) returns (job: nat)
      requires v < |versions|
      modifies this
      ensures (Value(), job) == EnqueueInspection(old(Value()), v)
    {
      var existing := versions[v].inspectionJob;
      if existing.Some? && existing.value < |jobs| && LiveStatus(jobs[existing.value].status) {
        return existing.value;
      }
      jobs := jobs + [Job(Inspection, v, Pending, None)];
      versions := versions[v := versions[v].(inspectionJob := Some(|jobs| - 1))];
      return |jobs| - 1;
    }

    method MakeThumbnail(v: nat) returns (job: Option<nat>)
      requires v < |versions|
      modifies this
      ensures (Value(), job) == EnqueueThumbnail(old(Value()), v)
    {
      var row := versions[v];
      if row.status != Ready || !row.visual || row.assetDeleted || row.variant == VariantReady {
        return None;
      }
      if row.thumbnailJob.Some? && row.thumbnailJob.value < |jobs| && LiveStatus(jobs[row.thumbnailJob.value].status) {
        return row.thumbnailJob;
      }
      versions := versions[v := row.(variant := VariantProcessing)];
      jobs := jobs + [Job(Thumbnail, v, Pending, None)];
      versions := versions[v := versions[v].(thumbnailJob := Some(|jobs| - 1))];
      assert versions == old(versions)[v := row.(thumbnailJob := Some(|jobs| - 1), variant := VariantProcessing)];
      return Some(|jobs| - 1);
    }

    /** Reschedules processing versions that lack a viable inspection job; a busy version is skipped. */
    method ReconcileInspections(busy: set<nat>) returns (scheduled: nat)
      modifies this
      ensures (Value(), scheduled) == InspectionPass(old(Value()), |old(versions)|, busy)
    {
      ghost var start := Value();
      scheduled := 0;
      var v := 0;
      while v < |versions|
        invariant 0 <= v <= |versions| == |start.versions|
        invariant (Value(), scheduled) == InspectionPass(start, v, busy)
      {
        if v !in busy && versions[v].status == InProgress && !Viable(Value(), versions[v].inspectionJob) {
          versions := versions[v := versions[v].(inspectionJob := None)];
          var job := Inspect(v);
          scheduled := scheduled + 1;
        }
        v := v + 1;
      }
    }

    /** Schedules missing thumbnails of ready visual versions. */
    method ReconcileThumbnails(busy: set<nat>) returns (scheduled: nat)
      modifies this
      ensures (Value(), scheduled) == ThumbnailPass(old(Value()), |old(versions)|, busy)
    {
      ghost var start := Value();
      scheduled := 0;
      var v := 0;
      while v < |versions|
        invariant 0 <= v <= |versions| == |start.versions|
        invariant (Value(), scheduled) == ThumbnailPass(start, v, busy)
      {
        if v !in busy && WantsThumbnail(versions[v]) && !Viable(Value(), versions[v].thumbnailJob) {
          versions := versions[v := versions[v].(thumbnailJob := None)];
          var job := MakeThumbnail(v);
          scheduled := scheduled + 1;
        }
        v := v + 1;
      }
    }
  }

  // ----- a pass is a fixpoint -----

  predicate InspectionSettled(t: Table, v: nat)
    requires v < |t.versions|
  {
    t.versions[v].status == InProgress ==> Viable(t, t.versions[v].inspectionJob)
  }

  predicate ThumbnailSettled(t: Table, v: nat)
    requires v < |t.versions|
  {
    WantsThumbnail(t.versions[v]) ==> Viable(t, t.versions[v].thumbnailJob)
  }

  /** A pass only appends jobs, touches no version it has not reached, and settles the others. */
  lemma {:induction false} InspectionPassSettles(t: Table, n: nat, busy: set<nat>)
    requires n <= |t.versions|
    ensures var after := InspectionPass(t, n, busy).0;
            && t.jobs <= after.jobs
            && (forall v :: n <= v < |t.versions| ==> after.versions[v] == t.versions[v])
            && (forall v :: v in busy && 0 <= v < |t.versions| ==> after.versions[v] == t.versions[v])
            && (forall v :: 0 <= v < n && v !in busy ==> InspectionSettled(after, v))
  {
    if n == 0 {
    } else {
      InspectionPassSettles(t, n - 1, busy);
    }
  }

  lemma {:induction false} ThumbnailPassSettles(t: Table, n: nat, busy: set<nat>)
    requires n <= |t.versions|
    ensures var after := ThumbnailPass(t, n, busy).0;
            && t.jobs <= after.jobs
            && (forall v :: n <= v < |t.versions| ==> after.versions[v] == t.versions[v])
            && (forall v :: v in busy && 0 <= v < |t.versions| ==> after.versions[v] == t.versions[v])
            && (forall v :: 0 <= v < n && v !in busy ==> ThumbnailSettled(after, v))
  {
    if n == 0 {
    } else {
      ThumbnailPassSettles(t, n - 1, busy);
    }
  }

  lemma {:induction false} SettledPassIdle(t: Table, n: nat, busy: set<nat>)
    requires n <= |t.versions|
    ensures (forall v :: 0 <= v < n && v !in busy ==> InspectionSettled(t, v)) <==> InspectionPass(t, n, busy) == (t, 0)
    ensures (forall v :: 0 <= v < n && v !in busy ==> ThumbnailSettled(t, v)) <==> ThumbnailPass(t, n, busy) == (t, 0)
  {
    if n == 0 {
    } else {
      SettledPassIdle(t, n - 1, busy);
    }
  }

  /** After one pass with no lock busy every processing version has a live or finally failed job, and
      a second pass schedules nothing; likewise for thumbnails. */
  lemma ReconcileFixpoint(t: Table)
    ensures var after := InspectionPass(t, |t.versions|, {}).0;
            && (forall v :: 0 <= v < |t.versions| ==> InspectionSettled(after, v))
            && InspectionPass(after, |t.versions|, {}) == (after, 0)
    ensures var after := ThumbnailPass(t, |t.versions|, {}).0;
            && (forall v :: 0 <= v < |t.versions| ==> ThumbnailSettled(after, v))
            && ThumbnailPass(after, |t.versions|, {}) == (after, 0)
  {
    hide InspectionPass, ThumbnailPass, InspectionSettled, ThumbnailSettled;
    InspectionPassSettles(t, |t.versions|, {});
    SettledPassIdle(InspectionPass(t, |t.versions|, {}).0, |t.versions|, {});
    ThumbnailPassSettles(t, |t.versions|, {});
    SettledPassIdle(ThumbnailPass(t, |t.versions|, {}).0, |t.versions|, {});
  }

  // ----- runs: one live inspection per version, and the fence -----

  datatype Event =
    | Uploaded(visual: bool)
    | Reconciled(v: nat)
    | ThumbnailReconciled(v: nat)
    | JobMoved(job: nat, status: JobStatus, retryable: Option<bool>)
    | JobRevived(job: nat)
    | JobDeleted(job: nat)
    | VersionCompleted(v: nat, outcome: Processing)

  /** Moves leave a dead job dead; only a revival (`retry_failed_job`) brings a failed one back. */
  predicate Possible(t: Table, e: Event) {
    match e
    case Uploaded(_) => true
    case Reconciled(v) => v < |t.versions|
    case ThumbnailReconciled(v) => v < |t.versions|
    case JobMoved(j, s, _) => j < |t.jobs| && LiveStatus(t.jobs[j].status) && s != Removed
    case JobRevived(j) => j < |t.jobs| && t.jobs[j].status == Failed
    case JobDeleted(j) => j < |t.jobs|
    case VersionCompleted(v, s) => v < |t.versions| && t.versions[v].status == InProgress && s != InProgress
  }

  function Unlink(v: Version, j: nat): Version {
    v.(inspectionJob := if v.inspectionJob == Some(j) then None else v.inspectionJob,
       thumbnailJob := if v.thumbnailJob == Some(j) then None else v.thumbnailJob)
  }

  function Apply(t: Table, e: Event): Table
    requires Possible(t, e)
  {
    match e
    case Uploaded(visual) =>
      var row := Version(InProgress, None, None, NoVariant, visual, false);
      EnqueueInspection(t.(versions := t.versions + [row]), |t.versions|).0
    case Reconciled(v) => ReconcileInspection(t, v, {}).0
    case ThumbnailReconciled(v) => ReconcileThumbnail(t, v, {}).0
    case JobMoved(j, s, r) => t.(jobs := t.jobs[j := t.jobs[j].(status := s, retryable := r)])
    case JobRevived(j) => t.(jobs := t.jobs[j := t.jobs[j].(status := Pending, retryable := None)])
    case JobDeleted(j) =>
      var v := t.jobs[j].version;
      var dropped := t.(jobs := t.jobs[j := t.jobs[j].(status := Removed)]);
      if v < |t.versions| then SetVersion(dropped, v, Unlink(t.versions[v], j)) else dropped
    case VersionCompleted(v, s) => SetVersion(t, v, t.versions[v].(status := s))
  }

  ghost predicate IsRun(ts: seq<Table>, es: seq<Event>) {
    && |ts| == |es| + 1 && ts[0] == Table([], [])
    && forall i :: 0 <= i < |es| ==> Possible(ts[i], es[i]) && ts[i + 1] == Apply(ts[i], es[i])
  }

  /** Pointers lead to jobs of the pointing version and kind. */
  ghost predicate Linked(t: Table) {
    && (forall v :: 0 <= v < |t.versions| && t.versions[v].inspectionJob.Some? ==>
          var j := t.versions[v].inspectionJob.value;
          j < |t.jobs| && t.jobs[j].version == v && t.jobs[j].kind == Inspection)
    && (forall v :: 0 <= v < |t.versions| && t.versions[v].thumbnailJob.Some? ==>
          var j := t.versions[v].thumbnailJob.value;
          j < |t.jobs| && t.jobs[j].version == v && t.jobs[j].kind == Thumbnail)
    && (forall j :: 0 <= j < |t.jobs| ==> t.jobs[j].version < |t.versions|)
  }

  ghost predicate LiveInspection(t: Table, j: nat) {
    j < |t.jobs| && t.jobs[j].kind == Inspection && LiveStatus(t.jobs[j].status)
  }

  /** Every live inspection job is the one its version points at. */
  ghost predicate OnlyCurrentLive(t: Table) {
    forall j :: 0 <= j < |t.jobs| && LiveInspection(t, j) ==>
      t.jobs[j].version < |t.versions| && t.versions[t.jobs[j].version].inspectionJob == Some(j)
  }

  ghost predicate AtMostOneLive(t: Table) {
    forall i, j :: 0 <= i < j < |t.jobs| && LiveInspection(t, i) && LiveInspection(t, j) ==>
      t.jobs[i].version != t.jobs[j].version
  }

  /** What `execute` checks before it lets an inspection job run. */
  predicate Fence(t: Table, j: nat) {
    && j < |t.jobs| && t.jobs[j].kind == Inspection && t.jobs[j].version < |t.versions|
    && t.versions[t.jobs[j].version].inspectionJob == Some(j)
  }

  lemma InspectionLinked(t: Table, v: nat)
    requires Linked(t) && v < |t.versions|
    ensures Linked(ReconcileInspection(t, v, {}).0)
  {
  }

  lemma ThumbnailLinked(t: Table, v: nat)
    requires Linked(t) && v < |t.versions|
    ensures Linked(ReconcileThumbnail(t, v, {}).0)
  {
  }

  lemma StepLinked(t: Table, e: Event)
    requires Linked(t) && Possible(t, e)
    ensures Linked(Apply(t, e))
  {
    match e
    case Uploaded(visual) =>
    case Reconciled(v) => InspectionLinked(t, v); hide Linked;
    case ThumbnailReconciled(v) => ThumbnailLinked(t, v); hide Linked;
    case _ => hide EnqueueInspection, EnqueueThumbnail;
  }

  lemma StepOnlyCurrentLive(t: Table, e: Event)
    requires Linked(t) && OnlyCurrentLive(t) && Possible(t, e) && !e.JobRevived?
    ensures OnlyCurrentLive(Apply(t, e))
  {
  }

  lemma {:induction false} RunLinked(ts: seq<Table>, es: seq<Event>, i: nat)
    requires IsRun(ts, es) && i < |ts|
    ensures Linked(ts[i])
  {
    hide Linked, Apply, Possible;
    if i == 0 {
      EmptyLinked();
    } else {
      RunLinked(ts, es, i - 1);
      StepLinked(ts[i - 1], es[i - 1]);
    }
  }

  lemma EmptyLinked()
    ensures Linked(Table([], [])) && OnlyCurrentLive(Table([], []))
  {
  }

  /** As long as no terminal job is revived, a version never has two live inspection jobs. */
  lemma {:induction false} OneLiveInspection(ts: seq<Table>, es: seq<Event>, i: nat)
    requires IsRun(ts, es) && i < |ts|
    requires forall k :: 0 <= k < i ==> !es[k].JobRevived?
    ensures OnlyCurrentLive(ts[i]) && AtMostOneLive(ts[i])
  {
    if i == 0 {
      EmptyLinked();
    } else {
      OneLiveInspection(ts, es, i - 1);
      RunLinked(ts, es, i - 1);
      StepOnlyCurrentLive(ts[i - 1], es[i - 1]);
    }
  }

  /** A revival keeps that property exactly when the job's version has no live inspection job. */
  lemma RevivalExact(t: Table, j: nat)
    requires Linked(t) && OnlyCurrentLive(t) && Possible(t, JobRevived(j)) && t.jobs[j].kind == Inspection
    ensures AtMostOneLive(Apply(t, JobRevived(j))) <==> !LiveJob(t, t.versions[t.jobs[j].version].inspectionJob)
  {
    var r := Apply(t, JobRevived(j));
    var current := t.versions[t.jobs[j].version].inspectionJob;
    if LiveJob(t, current) {
      var k := current.value;
      assert LiveInspection(r, k) && LiveInspection(r, j) && r.jobs[k].version == r.jobs[j].version && k != j;
    } else {
      forall a, b | 0 <= a < b < |r.jobs| && LiveInspection(r, a) && LiveInspection(r, b)
        ensures r.jobs[a].version != r.jobs[b].version
      {
        assert a != j ==> LiveInspection(t, a);
        assert b != j ==> LiveInspection(t, b);
      }
    }
  }

  /** A failed job superseded by a reconciliation and then revived: two live jobs, one version. */
  lemma RevivalExample()
    ensures var start := Table([Version(InProgress, Some(0), None, NoVariant, true, false)],
                               [Job(Inspection, 0, Failed, Some(true))]);
            var superseded := Apply(start, Reconciled(0));
            Linked(start) && OnlyCurrentLive(start) && !AtMostOneLive(Apply(superseded, JobRevived(0)))
  {
    var start := Table([Version(InProgress, Some(0), None, NoVariant, true, false)],
                       [Job(Inspection, 0, Failed, Some(true))]);
    var r := Apply(Apply(start, Reconciled(0)), JobRevived(0));
    assert LiveInspection(r, 0) && LiveInspection(r, 1);
  }

  /** What the other events do: each changes one job or one version, and a deleted job is pointed at no more. */
  lemma EventExact(t: Table, e: Event)
    requires Linked(t) && Possible(t, e)
    ensures var after := Apply(t, e);
            match e
            case Uploaded(visual) =>
              && after.versions == t.versions + [Version(InProgress, Some(|t.jobs|), None, NoVariant, visual, false)]
              && after.jobs == t.jobs + [Job(Inspection, |t.versions|, Pending, None)]
            case JobMoved(j, s, r) =>
              after.versions == t.versions && after.jobs == t.jobs[j := t.jobs[j].(status := s, retryable := r)]
            case JobRevived(j) =>
              && after.versions == t.versions
              && after.jobs == t.jobs[j := t.jobs[j].(status := Pending, retryable := None)]
            case JobDeleted(j) =>
              && after.jobs == t.jobs[j := t.jobs[j].(status := Removed)] && |after.versions| == |t.versions|
              && forall v :: 0 <= v < |t.versions| ==>
                   var a, b := t.versions[v], after.versions[v];
                   && b == a.(inspectionJob := b.inspectionJob, thumbnailJob := b.thumbnailJob)
                   && b.inspectionJob == (if a.inspectionJob == Some(j) then None else a.inspectionJob)
                   && b.thumbnailJob == (if a.thumbnailJob == Some(j) then None else a.thumbnailJob)
            case VersionCompleted(v, s) =>
              after.jobs == t.jobs && after.versions == t.versions[v := t.versions[v].(status := s)]
            case _ => true
  {
    hide LiveStatus, WantsThumbnail, Viable;
  }

  lemma StepSuperseded(t: Table, e: Event, j: nat)
    requires Linked(t) && Possible(t, e) && j < |t.jobs| && !Fence(t, j)
    ensures j < |Apply(t, e).jobs| && !Fence(Apply(t, e), j)
  {
  }

  /** Once an inspection job is not the one its version points at, it never passes the fence again,
      not even after it is revived. */
  lemma {:induction false} SupersededForEver(ts: seq<Table>, es: seq<Event>, i: nat, k: nat, j: nat)
    requires IsRun(ts, es) && i <= k < |ts| && j < |ts[i].jobs| && !Fence(ts[i], j)
    ensures j < |ts[k].jobs| && !Fence(ts[k], j)
    decreases k
  {
    hide Linked, Apply, Possible, Fence;
    if i < k {
      SupersededForEver(ts, es, i, k - 1, j);
      RunLinked(ts, es, k - 1);
      StepSuperseded(ts[k - 1], es[k - 1], j);
    }
  }

  /** Two jobs never pass the fence for the same version at the same time. */
  lemma FenceExclusive(t: Table, i: nat, j: nat)
    requires Fence(t, i) && Fence(t, j) && t.jobs[i].version == t.jobs[j].version
    ensures i == j
  {
  }
}
