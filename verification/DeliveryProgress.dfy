/** How a delivery's status moves while jobs are claimed, cancelled, retried and taken over. */
module DeliveryProgress {
  import opened Wrappers
  import opened ContentDelivery

  /** A delivery, its job's claim, and the executions that have passed their checks and are at work.
      `cancelling` is the job's own state; an execution is known by the claim it started with. */
  datatype Progress = Progress(status: DeliveryStatus, claim: Option<nat>, cancelling: bool, working: set<nat>)

  /** How an execution's work on the device ends. */
  datatype Ending = Done | Fault(retryable: bool) | Stopped

  datatype JobState = JobPending | JobFailed | JobOther

  datatype Step =
    | Claimed(x: nat)
    | ClaimLost
    | CancelAsked
    | Started(x: nat)
    | Ended(x: nat, ending: Ending)
    | Vanished(x: nat)
    | MarkedCancelled
    | Synced(job: JobState)

  predicate Settled(s: DeliveryStatus) {
    s.Succeeded? || s.Cancelled?
  }

  // ----- one delivery, as a function -----

  function MarkCancelled(s: DeliveryStatus): DeliveryStatus {
    if Settled(s) then s else DeliveryStatus.Cancelled
  }

  function SyncFailed(s: DeliveryStatus, job: JobState): DeliveryStatus {
    if Settled(s) then s
    else
      match job
      case JobPending => Pending
      case JobFailed => DeliveryStatus.Failed
      case JobOther => s
  }

  function Start(s: DeliveryStatus): DeliveryStatus {
    if Settled(s) then s else Delivering
  }

  /** The end of an execution: only a finished transfer is checked against the claim once more; the
      failure handlers write their status over whatever is there. */
  function End(claimHeld: bool, ending: Ending): DeliveryStatus {
    match ending
    case Done => if claimHeld then DeliveryStatus.Succeeded else DeliveryStatus.Cancelled
    case Fault(retryable) => if retryable then Pending else DeliveryStatus.Failed
    case Stopped => DeliveryStatus.Cancelled
  }

  class DeliveryRecord {
    var status: DeliveryStatus

    constructor ()
      ensures status == Pending
    {
      status := Pending;
    }

    method MarkCancelledForJob()
      modifies this
      ensures status == MarkCancelled(old(status))
    {
      if status == DeliveryStatus.Succeeded || status == DeliveryStatus.Cancelled {
        return;
      }
      status := DeliveryStatus.Cancelled;
    }

    method SyncFailedJob(job: JobState)
      modifies this
      ensures status == SyncFailed(old(status), job)
    {
      if status == DeliveryStatus.Succeeded || status == DeliveryStatus.Cancelled {
        return;
      }
      if job == JobPending {
        status := Pending;
      } else if job == JobFailed {
        status := DeliveryStatus.Failed;
      }
    }

    /** The two halves of `execute` around the work on the device; `again` is what the second look at the
        claim finds. */
    method Execute(ending: Ending, again: bool)
      modifies this
      ensures status == if Settled(old(status)) then old(status) else End(again, ending)
    {
      if status == DeliveryStatus.Succeeded || status == DeliveryStatus.Cancelled {
        return;
      }
      status := Delivering;
      match ending
      case Done =>
        if again { status := DeliveryStatus.Succeeded; } else { status := DeliveryStatus.Cancelled; }
      case Fault(retryable) =>
        if retryable { status := Pending; } else { status := DeliveryStatus.Failed; }
      case Stopped =>
        status := DeliveryStatus.Cancelled;
    }
  }

  // ----- the steps -----

  predicate Possible(p: Progress, s: Step) {
    match s
    case Claimed(x) => x !in p.working
    case Started(x) => p.claim == Some(x) && x !in p.working
    case Ended(x, _) => x in p.working
    case Vanished(x) => x in p.working
    case _ => true
  }

  function Next(p: Progress, s: Step): Progress
    requires Possible(p, s)
  {
    match s
    case Claimed(x) => p.(claim := Some(x), cancelling := false)
    case ClaimLost => p.(claim := None)
    case CancelAsked => p.(cancelling := true)
    case Started(x) =>
      if Settled(p.status) || p.cancelling then p
      else p.(status := Start(p.status), working := p.working + {x})
    case Ended(x, ending) =>
      p.(status := End(p.claim == Some(x) && !p.cancelling, ending), working := p.working - {x})
    case Vanished(x) => p.(working := p.working - {x})
    case MarkedCancelled => p.(status := MarkCancelled(p.status))
    case Synced(job) => p.(status := SyncFailed(p.status, job))
  }

  /** The steps after which a delivery has each status. Only the end of an execution changes a settled one. */
  lemma StatusAfter(p: Progress, s: Step)
    requires Possible(p, s)
    ensures var after := Next(p, s).status;
            var open := !p.status.Succeeded? && !p.status.Cancelled?;
            var begins := s.Started? && open && !p.cancelling;
            && (after.Succeeded? <==>
                  || (s.Ended? && s.ending == Done && p.claim == Some(s.x) && !p.cancelling)
                  || (p.status.Succeeded? && !s.Ended?))
            && (after.Cancelled? <==>
                  || (s.Ended? && (s.ending == Stopped || (s.ending == Done && (p.claim != Some(s.x) || p.cancelling))))
                  || (s.MarkedCancelled? && open)
                  || (p.status.Cancelled? && !s.Ended?))
            && (after.Failed? <==>
                  || (s.Ended? && s.ending == Fault(false)) || (s == Synced(JobFailed) && open)
                  || (p.status.Failed? && !s.Ended? && !begins && !s.MarkedCancelled? && s != Synced(JobPending)))
            && (after.Pending? <==>
                  || (s.Ended? && s.ending == Fault(true)) || (s == Synced(JobPending) && open)
                  || (p.status.Pending? && !s.Ended? && !begins && !s.MarkedCancelled? && s != Synced(JobFailed)))
            && (after.Delivering? <==>
                  || begins
                  || (p.status.Delivering? && !s.Ended? && !s.MarkedCancelled? && s != Synced(JobFailed)
                      && s != Synced(JobPending)))
  {
  }

  /** What the steps do to the claim and to the executions at work. */
  lemma ClaimAfter(p: Progress, s: Step)
    requires Possible(p, s)
    ensures var after := Next(p, s);
            && after.claim == (if s.Claimed? then Some(s.x) else if s.ClaimLost? then None else p.claim)
            && (after.cancelling <==> s.CancelAsked? || (p.cancelling && !s.Claimed?))
            && forall x :: x in after.working <==>
                 || (s == Started(x) && !p.cancelling && !p.status.Succeeded? && !p.status.Cancelled?)
                 || (x in p.working && s != Vanished(x) && !(s.Ended? && s.x == x))
  {
  }

  ghost predicate Run(ps: seq<Progress>, steps: seq<Step>) {
    |ps| == |steps| + 1
    && forall k :: 0 <= k < |steps| ==> Possible(ps[k], steps[k]) && ps[k + 1] == Next(ps[k], steps[k])
  }

  /** Whether an execution ends as if it had seen the settled status: a finished transfer that still holds
      its claim after a success; a stopped one, or a finished one without its claim, after a cancellation. */
  predicate EndsAlike(p: Progress, x: nat, ending: Ending) {
    var held := p.claim == Some(x) && !p.cancelling;
    if p.status.Succeeded? then ending.Done? && held else ending.Stopped? || (ending.Done? && !held)
  }

  /** The only steps that change a settled status are the ends of executions that started before. */
  lemma SettledChanges(p: Progress, s: Step)
    requires Possible(p, s) && Settled(p.status)
    ensures Next(p, s).status != p.status <==> s.Ended? && !EndsAlike(p, s.x, s.ending)
    ensures Next(p, s).working <= p.working
  {
  }

  /** Whatever happens from here on, the status stays. */
  ghost predicate Final(p: Progress) {
    forall ps: seq<Progress>, steps: seq<Step>, k: nat ::
      Run(ps, steps) && ps[0] == p && k < |ps| ==> ps[k].status == p.status
  }

  /** A settled status is final exactly when no execution is at work. */
  lemma FinalExactly(p: Progress)
    requires Settled(p.status)
    ensures Final(p) <==> p.working == {}
  {
    if p.working == {} {
      forall ps: seq<Progress>, steps: seq<Step>, k: nat | Run(ps, steps) && ps[0] == p && k < |ps|
        ensures ps[k].status == p.status
      {
        SettledForEver(ps, steps, 0, k);
      }
    } else {
      var x :| x in p.working;
      var s := Ended(x, if p.status.Succeeded? then Stopped else Fault(false));
      var ps := [p, Next(p, s)];
      assert Run(ps, [s]);
      assert ps[1].status != p.status;
    }
  }

  /** With nobody at work, succeeded and cancelled are final. */
  lemma {:induction false} SettledForEver(ps: seq<Progress>, steps: seq<Step>, k: nat, l: nat)
    requires Run(ps, steps) && k <= l <= |steps| && Settled(ps[k].status) && ps[k].working == {}
    ensures ps[l].status == ps[k].status && ps[l].working == {}
  {
    if k < l {
      SettledForEver(ps, steps, k, l - 1);
      SettledChanges(ps[l - 1], steps[l - 1]);
    }
  }

  /** What the Runtime's lock and the claims are for, and enough for every success to be final: no execution
      starts while another one is at work. */
  ghost predicate OneAtATime(ps: seq<Progress>, steps: seq<Step>)
    requires |ps| == |steps| + 1
  {
    forall k :: 0 <= k < |steps| && steps[k].Started? ==> ps[k].working == {}
  }

  lemma {:induction false} AtMostOneWorks(ps: seq<Progress>, steps: seq<Step>, k: nat)
    requires Run(ps, steps) && OneAtATime(ps, steps) && k <= |steps| && ps[0].working == {}
    ensures |ps[k].working| <= 1
    ensures k > 0 && ps[k].status.Succeeded? && !ps[k - 1].status.Succeeded? ==> ps[k].working == {}
  {
    if k == 0 {
    } else {
      AtMostOneWorks(ps, steps, k - 1);
      var before, s := ps[k - 1], steps[k - 1];
      assert ps[k] == Next(before, s);
      if s.Ended? || s.Vanished? {
        assert |before.working - {s.x}| == |before.working| - 1;
      }
    }
  }

  /** Then a delivery that succeeded once has succeeded for ever: the second check of the claim and the
      early answer of `execute` are enough. */
  lemma {:induction false} SucceededForEver(ps: seq<Progress>, steps: seq<Step>, k: nat, l: nat)
    requires Run(ps, steps) && OneAtATime(ps, steps) && ps[0].working == {} && !ps[0].status.Succeeded?
    requires k <= l <= |steps| && ps[k].status.Succeeded?
    ensures ps[l].status.Succeeded?
  {
    var m := FirstSuccess(ps, steps, k);
    AtMostOneWorks(ps, steps, m);
    SettledForEver(ps, steps, m, l);
  }

  lemma FirstSuccess(ps: seq<Progress>, steps: seq<Step>, k: nat) returns (m: nat)
    requires Run(ps, steps) && k <= |steps| && ps[k].status.Succeeded? && !ps[0].status.Succeeded?
    ensures 0 < m <= k && ps[m].status.Succeeded? && !ps[m - 1].status.Succeeded?
  {
    m := k;
    while ps[m - 1].status.Succeeded?
      invariant 0 < m <= k && ps[m].status.Succeeded?
      decreases m
    {
      m := m - 1;
    }
  }

  /** Without that, an execution that lost its claim can overwrite another one's success: the handlers do
      not look at the claim or at the status before they write. */
  lemma StaleExecutionOverwrites(ending: Ending)
    ensures var steps := [Claimed(1), Started(1), Claimed(2), Started(2), Ended(2, Done), Ended(1, ending)];
            exists ps: seq<Progress> :: Run(ps, steps) && ps[0] == Progress(Pending, None, false, {})
                         && ps[5].status.Succeeded? && !ps[6].status.Succeeded?
  {
    var steps := [Claimed(1), Started(1), Claimed(2), Started(2), Ended(2, Done), Ended(1, ending)];
    var p0 := Progress(Pending, None, false, {});
    var p1 := Next(p0, steps[0]);
    var p2 := Next(p1, steps[1]);
    var p3 := Next(p2, steps[2]);
    var p4 := Next(p3, steps[3]);
    var p5 := Next(p4, steps[4]);
    var p6 := Next(p5, steps[5]);
    assert Run([p0, p1, p2, p3, p4, p5, p6], steps);
  }

  /** Cancellation is weaker still: one marked while an execution that lost its claim is at work is undone
      by its failure, even when executions never overlap. */
  lemma CancelledUndone(retryable: bool)
    ensures var steps := [Claimed(1), Started(1), ClaimLost, MarkedCancelled, Ended(1, Fault(retryable))];
            exists ps: seq<Progress> :: Run(ps, steps) && OneAtATime(ps, steps)
                && ps[0] == Progress(Pending, None, false, {})
                         && ps[4].status.Cancelled? && !ps[5].status.Cancelled?
  {
    var steps := [Claimed(1), Started(1), ClaimLost, MarkedCancelled, Ended(1, Fault(retryable))];
    var p0 := Progress(Pending, None, false, {});
    var p1 := Next(p0, steps[0]);
    var p2 := Next(p1, steps[1]);
    var p3 := Next(p2, steps[2]);
    var p4 := Next(p3, steps[3]);
    var p5 := Next(p4, steps[4]);
    assert Run([p0, p1, p2, p3, p4, p5], steps);
  }

  /** Along one run, a settled status stays exactly as long as every execution that ends meanwhile ends
      alike. */
  lemma {:induction false} SettledStays(ps: seq<Progress>, steps: seq<Step>, k: nat, l: nat)
    requires Run(ps, steps) && k <= l <= |steps| && Settled(ps[k].status)
    ensures (forall m :: k <= m <= l ==> ps[m].status == ps[k].status)
            <==> forall m {:trigger steps[m]} :: k <= m < l && steps[m].Ended? ==>
                   EndsAlike(ps[m].(status := ps[k].status), steps[m].x, steps[m].ending)
  {
    if k < l {
      SettledStays(ps, steps, k, l - 1);
      assert Possible(ps[l - 1], steps[l - 1]) && ps[l] == Next(ps[l - 1], steps[l - 1]);
      hide Run, EndsAlike, Next;
      if ps[l - 1].status == ps[k].status {
        SettledChanges(ps[l - 1], steps[l - 1]);
        assert ps[l - 1].(status := ps[k].status) == ps[l - 1];
      }
    }
  }

  /** For a cancellation: every execution that ends is stopped, or finishes without its claim. */
  lemma CancelledStays(ps: seq<Progress>, steps: seq<Step>, k: nat, l: nat)
    requires Run(ps, steps) && k <= l <= |steps| && ps[k].status.Cancelled?
    ensures (forall m :: k <= m <= l ==> ps[m].status.Cancelled?)
            <==> forall m {:trigger steps[m]} :: k <= m < l && steps[m].Ended? ==>
                   || steps[m].ending.Stopped?
                   || (steps[m].ending.Done? && (ps[m].claim != Some(steps[m].x) || ps[m].cancelling))
  {
    SettledStays(ps, steps, k, l);
    hide Run;
    assert (forall m :: k <= m <= l ==> ps[m].status.Cancelled?) <==> forall m :: k <= m <= l ==>
        ps[m].status == ps[k].status;
  }
}
