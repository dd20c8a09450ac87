/** Versions of one content asset: inspections complete in any order while the asset is replaced,
    archived, restored and deleted.  Each completion is one atomic step on the asset. */
module ContentVersions {
  import opened Wrappers

  datatype Processing = InProgress | Ready | Invalid

  datatype AssetStatus = AssetProcessing | AssetReady | AssetInvalid | AssetArchived | AssetDeleted

  datatype Version = Version(id: nat, number: nat, status: Processing)

  /** Versions are listed by version number. */
  datatype Asset = Asset(status: AssetStatus, current: Option<nat>, versions: seq<Version>)

  function FindVersion(versions: seq<Version>, n: nat, id: nat): (r: Option<nat>)
    requires n <= |versions|
    ensures r.Some? ==> r.value < n && versions[r.value].id == id
    ensures r.None? <==> forall i :: 0 <= i < n ==> versions[i].id != id
  {
    if n == 0 then None
    else
      match FindVersion(versions, n - 1, id)
      case Some(i) => Some(i)
      case None => if versions[n - 1].id == id then Some(n - 1) else None
  }

  function Find(a: Asset, id: nat): (r: Option<nat>)
    ensures r.Some? ==> r.value < |a.versions| && a.versions[r.value].id == id
  {
    FindVersion(a.versions, |a.versions|, id)
  }

  /** The version the current pointer names. */
  function CurrentVersion(a: Asset): Option<Version> {
    if a.current.None? then None
    else
      var i := Find(a, a.current.value);
      if i.None? then None else Some(a.versions[i.value])
  }

  predicate Live(s: AssetStatus) {
    s != AssetArchived && s != AssetDeleted
  }

  // ----- the operations, on values -----

  function MarkReady(a: Asset, i: nat): Asset
    requires i < |a.versions|
  {
    var v := a.versions[i];
    var current := CurrentVersion(a);
    a.(versions := a.versions[i := v.(status := Ready)],
       current := if current.None? || v.number > current.value.number then Some(v.id) else a.current,
       status := if Live(a.status) then AssetReady else a.status)
  }

  function MarkInvalid(a: Asset, i: nat): Asset
    requires i < |a.versions|
  {
    var marked := a.(versions := a.versions[i := a.versions[i].(status := Invalid)]);
    var current := CurrentVersion(marked);
    marked.(status := if !Live(a.status) then a.status
                      else if current.Some? && current.value.status == Ready then AssetReady else AssetInvalid)
  }

  /** `inspect` on one version: only a processing version changes. */
  function Complete(a: Asset, id: nat, valid: bool): Asset {
    match Find(a, id)
    case None => a
    case Some(i) =>
      if a.versions[i].status != InProgress then a
      else if valid then MarkReady(a, i) else MarkInvalid(a, i)
  }

  function MaxNumber(versions: seq<Version>, n: nat): (r: nat)
    requires n <= |versions|
    ensures forall i :: 0 <= i < n ==> versions[i].number <= r
  {
    if n == 0 then 0
    else
      var rest := MaxNumber(versions, n - 1);
      if versions[n - 1].number > rest then versions[n - 1].number else rest
  }

  function AddVersion(a: Asset, id: nat): Asset {
    a.(versions := a.versions + [Version(id, MaxNumber(a.versions, |a.versions|) + 1, InProgress)])
  }

  function Archive(a: Asset): Asset {
    if a.status == AssetDeleted then a else a.(status := AssetArchived)
  }

  function RestoredStatus(a: Asset): AssetStatus {
    var current := CurrentVersion(a);
    if current.Some? && current.value.status == Ready then AssetReady
    else if a.versions != [] && a.versions[|a.versions| - 1].status == Invalid then AssetInvalid
    else AssetProcessing
  }

  function Restore(a: Asset): Asset {
    if a.status == AssetArchived then a.(status := RestoredStatus(a)) else a
  }

  function Delete(a: Asset): Asset {
    a.(status := AssetDeleted)
  }

  // ----- the operations, in place -----

  datatype AssetError = ContentDeleted | ContentInUse

  class ContentAsset {
    var status: AssetStatus
    var currentVersionId: Option<nat>
    var versions: seq<Version>

    function Value(): Asset
      reads this
    {
      Asset(status, currentVersionId, versions)
    }

    method Inspected(id: nat, valid: bool)
      modifies this
      ensures Value() == Complete(old(Value()), id, valid)
    {
      var found := Find(Value(), id);
      if found.None? || versions[found.value].status != InProgress {
        return;
      }
      var i := found.value;
      var number := versions[i].number;
      if valid {
        var current := CurrentVersion(Value());
        versions := versions[i := versions[i].(status := Ready)];
        if current.None? || number > current.value.number {
          currentVersionId := Some(id);
        }
        if status != AssetArchived && status != AssetDeleted {
          status := AssetReady;
        }
      } else {
        versions := versions[i := versions[i].(status := Invalid)];
        var current := CurrentVersion(Value());
        if status != AssetArchived && status != AssetDeleted {
          status := if current.Some? && current.value.status == Ready then AssetReady else AssetInvalid;
        }
      }
    }

    method CreateReplacement(id: nat) returns (error: Option<AssetError>)
      modifies this
      ensures error == if old(status) == AssetDeleted then Some(ContentDeleted) else None
      ensures Value() == if error.None? then AddVersion(old(Value()), id) else old(Value())
    {
      if status == AssetDeleted {
        return Some(ContentDeleted);
      }
      var next := 0;
      var i := 0;
      while i < |versions|
        invariant 0 <= i <= |versions|
        invariant next == MaxNumber(versions, i)
      {
        if versions[i].number > next {
          next := versions[i].number;
        }
        i := i + 1;
      }
      versions := versions + [Version(id, next + 1, InProgress)];
      return None;
    }

    /** The `archived` argument of the metadata update. */
    method UpdateArchived(archived: Option<bool>) returns (error: Option<AssetError>)
      modifies this
      ensures error == if old(status) == AssetDeleted then Some(ContentDeleted) else None
      ensures Value() == match archived
                         case None => old(Value())
                         case Some(yes) => if yes then Archive(old(Value())) else Restore(old(Value()))
    {
      if status == AssetDeleted {
        return Some(ContentDeleted);
      }
      if archived == Some(true) && status != AssetArchived {
        status := AssetArchived;
      } else if archived == Some(false) && status == AssetArchived {
        status := RestoredStatus(Value());
      }
      return None;
    }

    method SoftDelete(activeDelivery: bool) returns (error: Option<AssetError>)
      modifies this
      ensures error == if old(status) != AssetDeleted && activeDelivery then Some(ContentInUse) else None
      ensures Value() == if error.None? then Delete(old(Value())) else old(Value())
    {
      if status == AssetDeleted {
        return None;
      }
      if activeDelivery {
        return Some(ContentInUse);
      }
      status := AssetDeleted;
      return None;
    }
  }

  // ----- runs -----

  /** A replacement whose asset was deleted after its check still adds its version. */
  datatype Event =
    | Completed(id: nat, valid: bool) | Replaced(id: nat) | ArchivedEvent | RestoredEvent | DeletedEvent

  function Step(a: Asset, e: Event): Asset {
    match e
    case Completed(id, valid) => Complete(a, id, valid)
    case Replaced(id) => if Find(a, id).Some? then a else AddVersion(a, id)
    case ArchivedEvent => Archive(a)
    case RestoredEvent => Restore(a)
    case DeletedEvent => Delete(a)
  }

  function Run(a: Asset, events: seq<Event>): Asset {
    if events == [] then a else Step(Run(a, events[..|events| - 1]), events[|events| - 1])
  }

  /** An uploaded asset. */
  function Uploaded(id: nat): Asset {
    Asset(AssetProcessing, None, [Version(id, 1, InProgress)])
  }

  // ----- the invariant -----

  ghost predicate HasReady(a: Asset) {
    exists i :: 0 <= i < |a.versions| && a.versions[i].status == Ready
  }

  /** `id` names the ready version with the largest number. */
  ghost predicate NewestReady(a: Asset, id: nat) {
    exists i :: 0 <= i < |a.versions| && a.versions[i].id == id && a.versions[i].status == Ready
      && forall j :: 0 <= j < |a.versions| && a.versions[j].status == Ready ==>
          a.versions[j].number <= a.versions[i].number
  }

  ghost predicate WellFormed(a: Asset) {
    && |a.versions| > 0
    && (forall i, j :: 0 <= i < j < |a.versions| ==>
          a.versions[i].number < a.versions[j].number && a.versions[i].id != a.versions[j].id)
    && (a.current.None? ==> !HasReady(a))
    && (a.current.Some? ==> NewestReady(a, a.current.value))
    && (Live(a.status) ==> (a.status == AssetReady <==> HasReady(a)))
    && (Live(a.status) && !HasReady(a) && a.versions[|a.versions| - 1].status == Invalid ==> a.status == AssetInvalid)
  }

  lemma FindUnique(a: Asset, i: nat)
    requires WellFormed(a) && i < |a.versions|
    ensures Find(a, a.versions[i].id) == Some(i)
  {
    var f := Find(a, a.versions[i].id);
    assert f.Some?;
  }

  /** In a well-formed asset the pointer's version is the newest ready one. */
  lemma CurrentIsNewest(a: Asset)
    requires WellFormed(a)
    ensures a.current.None? ==> CurrentVersion(a).None?
    ensures a.current.Some? ==>
              var v := CurrentVersion(a);
              v.Some? && v.value in a.versions && v.value.id == a.current.value && v.value.status == Ready
              && forall j :: 0 <= j < |a.versions| && a.versions[j].status == Ready ==>
                  a.versions[j].number <= v.value.number
  {
    if a.current.Some? {
      var i :| 0 <= i < |a.versions| && a.versions[i].id == a.current.value && a.versions[i].status == Ready
        && forall j :: 0 <= j < |a.versions| && a.versions[j].status == Ready ==>
            a.versions[j].number <= a.versions[i].number;
      FindUnique(a, i);
    }
  }

  lemma MarkReadyKeeps(a: Asset, i: nat)
    requires WellFormed(a) && i < |a.versions| && a.versions[i].status == InProgress
    ensures WellFormed(MarkReady(a, i))
  {
    var b := MarkReady(a, i);
    var v := a.versions[i];
    CurrentIsNewest(a);
    hide Find, FindVersion;
    assert b.versions[i].status == Ready;
    if b.current == Some(v.id) {
      assert NewestReady(b, v.id);
    } else {
      var c := CurrentVersion(a).value;
      var k :| 0 <= k < |a.versions| && a.versions[k] == c;
      assert b.versions[k] == c;
      assert NewestReady(b, a.current.value);
    }
  }

  lemma MarkInvalidKeeps(a: Asset, i: nat)
    requires WellFormed(a) && i < |a.versions| && a.versions[i].status == InProgress
    ensures WellFormed(MarkInvalid(a, i))
  {
    var b := MarkInvalid(a, i);
    CurrentIsNewest(a);
    if a.current.Some? {
      var c := CurrentVersion(a).value;
      var k :| 0 <= k < |a.versions| && a.versions[k] == c;
      assert b.versions[k] == c;
      assert NewestReady(b, a.current.value);
      var m := a.(versions := b.versions);
      var f := Find(m, a.current.value);
      assert f.Some? && f.value == k;
    } else {
      forall j | 0 <= j < |b.versions| ensures b.versions[j].status != Ready {
        assert a.versions[j].status != Ready;
      }
    }
  }

  lemma AddVersionKeeps(a: Asset, id: nat)
    requires WellFormed(a) && Find(a, id).None?
    ensures WellFormed(AddVersion(a, id))
  {
    var b := AddVersion(a, id);
    forall j | 0 <= j < |a.versions| ensures b.versions[j] == a.versions[j] {}
    if a.current.Some? {
      assert NewestReady(b, a.current.value);
    }
  }

  lemma RestoreKeeps(a: Asset)
    requires WellFormed(a)
    ensures WellFormed(Restore(a))
  {
    CurrentIsNewest(a);
  }

  lemma StepKeeps(a: Asset, e: Event)
    requires WellFormed(a)
    ensures WellFormed(Step(a, e))
  {
    hide WellFormed, MarkReady, MarkInvalid, AddVersion, RestoredStatus;
    match e
    case Completed(id, valid) =>
      var f := Find(a, id);
      if f.Some? && a.versions[f.value].status == InProgress {
        if valid { MarkReadyKeeps(a, f.value); } else { MarkInvalidKeeps(a, f.value); }
      }
    case Replaced(id) => if Find(a, id).None? { AddVersionKeeps(a, id); }
    case ArchivedEvent => StatusOnly(a, AssetArchived);
    case RestoredEvent => RestoreKeeps(a);
    case DeletedEvent => StatusOnly(a, AssetDeleted);
  }

  lemma StatusOnly(a: Asset, s: AssetStatus)
    requires WellFormed(a) && !Live(s)
    ensures WellFormed(a.(status := s))
  {
    if a.current.Some? { assert NewestReady(a.(status := s), a.current.value); }
  }

  /** After any events since the upload, in any order: the current pointer is null exactly when no
      version is ready and otherwise names the ready version with the largest number; and a listed
      asset is ready exactly when it has a ready version. */
  lemma {:induction false} CurrentIsNewestReady(id: nat, events: seq<Event>)
    ensures var a := Run(Uploaded(id), events);
            && WellFormed(a)
            && (a.current.None? <==> !HasReady(a))
            && (a.current.Some? ==> NewestReady(a, a.current.value))
            && (Live(a.status) ==> (a.status == AssetReady <==> HasReady(a)))
  {
    if events == [] {
    } else {
      CurrentIsNewestReady(id, events[..|events| - 1]);
      StepKeeps(Run(Uploaded(id), events[..|events| - 1]), events[|events| - 1]);
    }
  }

  // ----- what each event does -----

  /** One completed inspection of a version in progress: the version is ready exactly if the bytes are valid
      and invalid otherwise; no other version changes; a valid one becomes the current one unless a ready
      version has a larger number, and an asset that is listed becomes ready, or invalid if it has no ready
      version at all. */
  lemma CompletionExact(a: Asset, i: nat, valid: bool)
    requires WellFormed(a) && i < |a.versions| && a.versions[i].status == InProgress
    ensures var b := Complete(a, a.versions[i].id, valid);
            && b.versions == a.versions[i := a.versions[i].(status := if valid then Ready else Invalid)]
            && b.current == (if valid && (forall j :: 0 <= j < |a.versions| && a.versions[j].status == Ready ==>
                                            a.versions[j].number < a.versions[i].number)
                             then Some(a.versions[i].id) else a.current)
            && b.status == (if a.status == AssetArchived || a.status == AssetDeleted then a.status
                            else if valid || (exists j :: 0 <= j < |a.versions| && a.versions[j].status == Ready)
                            then AssetReady else AssetInvalid)
  {
    FindUnique(a, i);
    CurrentIsNewest(a);
    if !valid {
      FailedStatus(a, i);
    }
    hide FindVersion, Find;
  }

  lemma FailedStatus(a: Asset, i: nat)
    requires WellFormed(a) && i < |a.versions| && a.versions[i].status == InProgress
    ensures MarkInvalid(a, i).current == a.current
    ensures Live(a.status) ==> (MarkInvalid(a, i).status == AssetReady <==> HasReady(a))
  {
    var b := MarkInvalid(a, i);
    MarkInvalidKeeps(a, i);
    hide MarkInvalid;
    assert b.versions == a.versions[i := a.versions[i].(status := Invalid)] && b.current == a.current by {
      MarkInvalidRows(a, i);
    }
    if HasReady(a) {
      var j :| 0 <= j < |a.versions| && a.versions[j].status == Ready;
      assert b.versions[j].status == Ready;
    } else {
      forall j | 0 <= j < |b.versions| ensures b.versions[j].status != Ready {
        assert a.versions[j].status != Ready;
      }
    }
    assert Live(b.status) <==> Live(a.status) by { MarkInvalidRows(a, i); }
  }

  lemma MarkInvalidRows(a: Asset, i: nat)
    requires i < |a.versions|
    ensures var b := MarkInvalid(a, i);
            b.versions == a.versions[i := a.versions[i].(status := Invalid)] && b.current == a.current
            && (Live(b.status) <==> Live(a.status))
  {
    hide FindVersion;
  }

  /** Completions of versions that are not in progress, or not there, change nothing; a replacement adds one
      version in progress, with the number after the last; the other events change the status only. */
  lemma OthersExact(a: Asset, id: nat, valid: bool)
    requires WellFormed(a)
    ensures (forall i :: 0 <= i < |a.versions| && a.versions[i].id == id ==> a.versions[i].status != InProgress) ==>
              Step(a, Completed(id, valid)) == a
    ensures Step(a, Replaced(id))
            == if exists i :: 0 <= i < |a.versions| && a.versions[i].id == id then a
               else a.(versions := a.versions + [Version(id, a.versions[|a.versions| - 1].number + 1, InProgress)])
    ensures Step(a, ArchivedEvent) == if a.status == AssetDeleted then a else a.(status := AssetArchived)
    ensures Step(a, DeletedEvent) == a.(status := AssetDeleted)
    ensures a.status != AssetArchived ==> Step(a, RestoredEvent) == a
    ensures a.status == AssetArchived ==>
              Step(a, RestoredEvent)
              == a.(status := if exists i :: 0 <= i < |a.versions| && a.versions[i].status == Ready then AssetReady
                              else if a.versions[|a.versions| - 1].status == Invalid then AssetInvalid
                              else AssetProcessing)
  {
    CurrentIsNewest(a);
    LastIsMax(a, |a.versions|);
    hide MarkReady, MarkInvalid, MaxNumber;
  }

  lemma {:induction false} LastIsMax(a: Asset, n: nat)
    requires WellFormed(a) && 0 < n <= |a.versions|
    ensures MaxNumber(a.versions, n) == a.versions[n - 1].number
  {
    if n > 1 {
      LastIsMax(a, n - 1);
    }
  }

  /** Version numbers are consecutive, from one. */
  lemma {:induction false} NumbersConsecutive(id: nat, events: seq<Event>)
    ensures var vs := Run(Uploaded(id), events).versions;
            forall i :: 0 <= i < |vs| ==> vs[i].number == i + 1
  {
    if events == [] {
    } else {
      var before, last := events[..|events| - 1], events[|events| - 1];
      NumbersConsecutive(id, before);
      CurrentIsNewestReady(id, before);
      var a := Run(Uploaded(id), before);
      hide WellFormed, Step, Run;
      if last.Completed? {
        StepNumbers(a, last.id, last.valid);
      } else {
        OthersExact(a, if last.Replaced? then last.id else 0, false);
      }
      assert Run(Uploaded(id), events) == Step(a, last) by { RunLast(Uploaded(id), events); }
    }
  }

  lemma RunLast(a: Asset, events: seq<Event>)
    requires events != []
    ensures Run(a, events) == Step(Run(a, events[..|events| - 1]), events[|events| - 1])
  {
  }

  lemma StepNumbers(a: Asset, id: nat, valid: bool)
    ensures var b := Step(a, Completed(id, valid));
            |b.versions| == |a.versions|
            && forall i :: 0 <= i < |a.versions| ==>
                 b.versions[i].id == a.versions[i].id && b.versions[i].number == a.versions[i].number
  {
    hide CurrentVersion, FindVersion;
  }

  // ----- what becomes of each version over a run -----

  /** The event after which version v exists: the upload, or its first replacement. */
  ghost predicate Born(id: nat, events: seq<Event>, v: nat, born: nat) {
    if v == id then born == 0
    else
      && 0 < born <= |events| && events[born - 1] == Replaced(v)
      && forall k :: 0 <= k < born - 1 ==> events[k] != Replaced(v)
  }

  /** Event k is the first completion of version v since its birth. */
  ghost predicate Decides(events: seq<Event>, born: nat, v: nat, k: nat, valid: bool) {
    && born <= k < |events| && events[k] == Completed(v, valid)
    && forall m :: born <= m < k ==> !(events[m].Completed? && events[m].id == v)
  }

  /** A version exists exactly if it was uploaded or a replacement has named it. */
  lemma {:induction false} VersionsExact(id: nat, events: seq<Event>, v: nat)
    ensures var vs := Run(Uploaded(id), events).versions;
            (exists i :: 0 <= i < |vs| && vs[i].id == v) <==> v == id || Replaced(v) in events
  {
    if events == [] {
      assert Run(Uploaded(id), []).versions[0].id == id;
    } else {
      var before, last := events[..|events| - 1], events[|events| - 1];
      VersionsExact(id, before, v);
      CurrentIsNewestReady(id, before);
      RunLast(Uploaded(id), events);
      assert events == before + [last];
      hide Run, WellFormed;
      StepVersions(Run(Uploaded(id), before), last, v);
    }
  }

  lemma StepVersions(a: Asset, e: Event, v: nat)
    requires WellFormed(a)
    ensures var b := Step(a, e);
            (exists i :: 0 <= i < |b.versions| && b.versions[i].id == v)
            <==> (exists i :: 0 <= i < |a.versions| && a.versions[i].id == v) || e == Replaced(v)
  {
    var b := Step(a, e);
    if e.Completed? {
      StepNumbers(a, e.id, e.valid);
      assert forall i :: 0 <= i < |a.versions| ==> b.versions[i].id == a.versions[i].id;
    } else {
      OthersExact(a, if e.Replaced? then e.id else 0, false);
      hide Step, WellFormed;
      assert forall i :: 0 <= i < |a.versions| ==> b.versions[i].id == a.versions[i].id;
      if e.Replaced? && |b.versions| > |a.versions| {
        assert b.versions[|a.versions|].id == e.id;
      }
    }
  }

  /** What one event does to the status of one version. */
  lemma StepStatus(a: Asset, e: Event, i: nat)
    requires WellFormed(a) && i < |a.versions|
    ensures var b, v := Step(a, e), a.versions[i];
            i < |b.versions| && b.versions[i].id == v.id
            && b.versions[i].status == (if v.status == InProgress && e == Completed(v.id, true) then Ready
                                        else if v.status == InProgress && e == Completed(v.id, false) then Invalid
                                        else v.status)
  {
    FindUnique(a, i);
    if e.Completed? {
      var f := Find(a, e.id);
      if f.Some? && a.versions[f.value].status == InProgress {
        CompletionExact(a, f.value, e.valid);
      }
      hide MarkReady, MarkInvalid, WellFormed, FindVersion;
    } else {
      OthersExact(a, if e.Replaced? then e.id else 0, false);
      hide Step, WellFormed;
    }
  }

  lemma {:induction false} SomeDecides(events: seq<Event>, born: nat, v: nat, n: nat)
    requires born <= n <= |events|
    ensures (forall m :: born <= m < n ==> !(events[m].Completed? && events[m].id == v))
            || exists k: nat, valid :: k < n && Decides(events, born, v, k, valid)
  {
    if n > born {
      SomeDecides(events, born, v, n - 1);
      if events[n - 1].Completed? && events[n - 1].id == v
          && forall m :: born <= m < n - 1 ==> !(events[m].Completed? && events[m].id == v) {
        assert Decides(events, born, v, n - 1, events[n - 1].valid);
      }
    }
  }

  /** Since its birth a version is ready exactly if its first completion was valid, invalid exactly if that
      was not, and in progress while there is none; later completions change nothing. */
  ghost predicate Fated(a: Asset, events: seq<Event>, born: nat, v: nat) {
    forall i :: 0 <= i < |a.versions| && a.versions[i].id == v ==>
      && (a.versions[i].status == Ready <==> exists k :: Decides(events, born, v, k, true))
      && (a.versions[i].status == Invalid <==> exists k :: Decides(events, born, v, k, false))
  }

  lemma {:induction false} VersionFate(id: nat, events: seq<Event>, v: nat, born: nat)
    requires Born(id, events, v, born)
    ensures Fated(Run(Uploaded(id), events), events, born, v)
    ensures exists i :: 0 <= i < |Run(Uploaded(id), events).versions| && Run(Uploaded(id), events).versions[i].id == v
  {
    VersionsExact(id, events, v);
    if born == |events| {
      JustBorn(id, events, v, if events == [] then [] else events[..|events| - 1]);
    } else {
      var n := |events| - 1;
      VersionFate(id, events[..n], v, born);
      VersionsExact(id, events[..n], v);
      CurrentIsNewestReady(id, events[..n]);
      RunLast(Uploaded(id), events);
      hide Run, Fated, WellFormed;
      FateStep(Run(Uploaded(id), events[..n]), events, born, v);
    }
  }

  lemma JustBorn(id: nat, events: seq<Event>, v: nat, before: seq<Event>)
    requires Born(id, events, v, |events|)
    requires events != [] ==> before == events[..|events| - 1]
    ensures Fated(Run(Uploaded(id), events), events, |events|, v)
  {
    if events != [] {
      VersionsExact(id, before, v);
      CurrentIsNewestReady(id, before);
      RunLast(Uploaded(id), events);
      hide Born;
      OthersExact(Run(Uploaded(id), before), v, false);
      hide Run, WellFormed, Step;
    }
  }

  lemma FateStep(a: Asset, events: seq<Event>, born: nat, v: nat)
    requires events != [] && born < |events| && WellFormed(a) && Fated(a, events[..|events| - 1], born, v)
    requires exists i :: 0 <= i < |a.versions| && a.versions[i].id == v
    ensures Fated(Step(a, events[|events| - 1]), events, born, v)
  {
    var n := |events| - 1;
    var i :| 0 <= i < |a.versions| && a.versions[i].id == v;
    var b := Step(a, events[n]);
    StepStatus(a, events[n], i);
    StepKeeps(a, events[n]);
    hide Step;
    forall j | 0 <= j < |b.versions| && b.versions[j].id == v ensures j == i {}
    hide WellFormed;
    DecidesLater(events, born, v, true);
    DecidesLater(events, born, v, false);
    hide Decides;
  }

  /** One more event decides exactly if it is the first completion. */
  lemma DecidesLater(events: seq<Event>, born: nat, v: nat, valid: bool)
    requires born < |events|
    ensures var n := |events| - 1;
            (exists k :: Decides(events, born, v, k, valid)) <==>
              || (exists k :: Decides(events[..n], born, v, k, valid))
              || (events[n] == Completed(v, valid)
                  && !(exists k :: Decides(events[..n], born, v, k, true))
                  && !(exists k :: Decides(events[..n], born, v, k, false)))
  {
    var n := |events| - 1;
    var before := events[..n];
    SomeDecides(before, born, v, n);
    if k: nat :| Decides(events, born, v, k, valid) {
      if k < n {
        assert Decides(before, born, v, k, valid);
      } else {
        forall m: nat, w ensures !Decides(before, born, v, m, w) {
          if born <= m < n {
            assert before[m] == events[m];
          }
        }
      }
    }
    if k: nat :| Decides(before, born, v, k, valid) {
      assert Decides(events, born, v, k, valid);
    }
    if events[n] == Completed(v, valid) && !(exists k :: Decides(before, born, v, k, true))
        && !(exists k :: Decides(before, born, v, k, false)) {
      forall m | born <= m < n ensures !(events[m].Completed? && events[m].id == v) {
        assert before[m] == events[m];
      }
      assert Decides(events, born, v, n, valid);
    }
  }

  /** Deleted is for ever. */
  lemma {:induction false} DeletedAbsorbs(a: Asset, events: seq<Event>)
    requires a.status == AssetDeleted
    ensures Run(a, events).status == AssetDeleted
  {
    if events == [] {
    } else {
      DeletedAbsorbs(a, events[..|events| - 1]);
    }
  }

  /** A failed replacement leaves the ready asset and its pointer alone. */
  lemma FailedReplacementHarmless(a: Asset, id: nat)
    requires WellFormed(a) && HasReady(a)
    ensures Complete(a, id, false).status == a.status && Complete(a, id, false).current == a.current
  {
    var f := Find(a, id);
    if f.Some? && a.versions[f.value].status == InProgress {
      MarkInvalidKeeps(a, f.value);
      CurrentIsNewest(MarkInvalid(a, f.value));
      assert a.current.Some?;
    }
  }

  // ----- archiving is transparent to the ready flag, not to the whole status -----

  ghost predicate Background(events: seq<Event>) {
    forall i :: 0 <= i < |events| ==> events[i].Completed? || events[i].Replaced?
  }

  /** While archived, versions and pointer evolve as if the asset were listed. */
  lemma {:induction false} ArchivedRunsAlike(a: Asset, events: seq<Event>)
    requires Live(a.status) && Background(events)
    ensures var shown, hidden := Run(a, events), Run(Archive(a), events);
            && hidden.versions == shown.versions && hidden.current == shown.current
            && hidden.status == AssetArchived && Live(shown.status)
  {
    if events == [] {
    } else {
      var before, last := events[..|events| - 1], events[|events| - 1];
      hide Step, Archive;
      ArchivedRunsAlike(a, before);
      ArchivedStepAlike(Run(a, before), Run(Archive(a), before), last);
    }
  }

  lemma ArchivedStepAlike(shown: Asset, hidden: Asset, e: Event)
    requires hidden == shown.(status := AssetArchived) && Live(shown.status) && (e.Completed? || e.Replaced?)
    ensures Step(hidden, e) == Step(shown, e).(status := AssetArchived) && Live(Step(shown, e).status)
  {
    hide FindVersion, MaxNumber;
  }

  lemma {:induction false} RunKeeps(a: Asset, events: seq<Event>)
    requires WellFormed(a)
    ensures WellFormed(Run(a, events))
  {
    if events == [] {
    } else {
      RunKeeps(a, events[..|events| - 1]);
      StepKeeps(Run(a, events[..|events| - 1]), events[|events| - 1]);
    }
  }

  /** Archive, let any inspections and replacements happen, restore: everything but the status is as
      if the asset had never been archived, the ready flag is too, and the whole status is exactly
      when the listed asset would not be invalid with its newest version still in progress. */
  lemma ArchivingTransparent(a: Asset, events: seq<Event>)
    requires WellFormed(a) && Live(a.status) && Background(events)
    ensures var shown, back := Run(a, events), Restore(Run(Archive(a), events));
            && back.versions == shown.versions && back.current == shown.current
            && (back.status == AssetReady <==> shown.status == AssetReady)
            && (back.status == shown.status
                <==> !(|shown.versions| > 0 && shown.status == AssetInvalid
                       && shown.versions[|shown.versions| - 1].status == InProgress))
    ensures WellFormed(Run(a, events))
  {
    hide Run, WellFormed, RestoredStatus;
    ArchivedRunsAlike(a, events);
    RunKeeps(a, events);
    RestoredCompares(Run(a, events));
    SameRestored(Run(a, events), Run(Archive(a), events));
  }

  lemma SameRestored(a: Asset, b: Asset)
    requires a.versions == b.versions && a.current == b.current
    ensures RestoredStatus(a) == RestoredStatus(b)
  {
  }

  /** The status a restore would compute, beside the one the listed asset has. */
  lemma RestoredCompares(a: Asset)
    requires WellFormed(a) && Live(a.status)
    ensures RestoredStatus(a) == AssetReady <==> a.status == AssetReady
    ensures RestoredStatus(a) == a.status
            <==> !(|a.versions| > 0 && a.status == AssetInvalid && a.versions[|a.versions| - 1].status == InProgress)
  {
    CurrentIsNewest(a);
  }

  /** Upload, reject, replace: listed it reads invalid, archived and restored it reads processing. */
  lemma ArchivingNotTransparentExample()
    ensures var a := Uploaded(1);
            var events := [Completed(1, false), Replaced(2)];
            && Run(a, events).status == AssetInvalid
            && Restore(Run(Archive(a), events)).status == AssetProcessing
  {
    var a, events := Uploaded(1), [Completed(1, false), Replaced(2)];
    assert events[..1] == [Completed(1, false)] && events[..1][..0] == [];
    assert Run(a, []) == a && Run(Archive(a), []) == Archive(a);
    assert Run(a, events[..1]) == Complete(a, 1, false);
    assert Run(Archive(a), events[..1]) == Complete(Archive(a), 1, false);
  }
}
