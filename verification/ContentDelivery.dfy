/** Creating deliveries: repeats and idempotency keys resolve to one delivery, and every delivery has a
    path of its own on the device. */
module ContentDelivery {
  import opened Wrappers
  import opened FileNames
  import opened RemoteNames

  datatype DeliveryStatus = Pending | Delivering | Succeeded | Failed | Cancelled

  /** A delivery; its id is its place in the table plus one. */
  datatype Delivery = Delivery(version: nat, runtime: nat, key: Option<string>, importMedia: bool,
                               status: DeliveryStatus, createdAt: int, remoteFilename: string, remotePath: string)

  datatype VersionRow = VersionRow(id: nat, ready: bool, blobActive: bool, extension: string)

  datatype Asset = Asset(library: bool, deleted: bool, current: Option<nat>, versions: seq<VersionRow>)

  datatype DeliveryRequest = DeliveryRequest(asset: Option<Asset>, version: Option<nat>, runtime: nat,
                                             runtimeUsable: bool, filename: Option<string>, importMedia: bool,
                                             allowRepeat: bool, key: Option<string>, now: int)

  datatype DeliveryError =
    | NotFound | PurposeInvalid | AssetDeleted | NotReady | VersionNotFound | VersionNotReady | RuntimeNotFound
    | InvalidDelivery | Duplicate | FilenameInvalid | IntegrityError

  /** A delivery's id and whether this call created it. */
  type Answer = Result<(int, bool), DeliveryError>

  // ----- looking things up -----

  function FindVersion(versions: seq<VersionRow>, id: nat): (r: Option<VersionRow>)
    ensures r.Some? ==> r.value in versions && r.value.id == id
    ensures r.None? <==> forall v :: v in versions ==> v.id != id
  {
    if versions == [] then None
    else if versions[0].id == id then Some(versions[0])
    else FindVersion(versions[1..], id)
  }

  predicate KeyChar(c: char) {
    IsAsciiAlnum(c) || c == '.' || c == '_' || c == ':' || c == '-'
  }

  predicate ValidKey(key: string) {
    1 <= |key| <= 128 && IsAsciiAlnum(key[0]) && forall i :: 0 <= i < |key| ==> KeyChar(key[i])
  }

  predicate HasSlot(d: Delivery, version: nat, runtime: nat, key: string) {
    d.version == version && d.runtime == runtime && d.key == Some(key)
  }

  /** The first of the first n deliveries with a given version, runtime and key. */
  function FindSlot(rows: seq<Delivery>, n: nat, version: nat, runtime: nat, key: string): (r: Option<nat>)
    requires n <= |rows|
    ensures r.Some? ==> r.value < n && HasSlot(rows[r.value], version, runtime, key)
    ensures r.None? ==> forall i :: 0 <= i < n ==> !HasSlot(rows[i], version, runtime, key)
  {
    if n == 0 then None
    else
      match FindSlot(rows, n - 1, version, runtime, key)
      case Some(i) => Some(i)
      case None => if HasSlot(rows[n - 1], version, runtime, key) then Some(n - 1) else None
  }

  predicate Open(d: Delivery, version: nat, runtime: nat, importMedia: bool) {
    d.version == version && d.runtime == runtime && d.importMedia == importMedia
    && (d.status.Pending? || d.status.Delivering? || d.status.Succeeded?)
  }

  predicate Newer(rows: seq<Delivery>, i: nat, j: nat)
    requires i < |rows| && j < |rows|
  {
    rows[i].createdAt > rows[j].createdAt || (rows[i].createdAt == rows[j].createdAt && i > j)
  }

  /** The open delivery created last among the first n; equal times are decided by the id. */
  function NewestOpen(rows: seq<Delivery>, n: nat, version: nat, runtime: nat, importMedia: bool): (r: Option<nat>)
    requires n <= |rows|
    ensures r.Some? ==> r.value < n && Open(rows[r.value], version, runtime, importMedia)
                        && forall i :: 0 <= i < n && i != r.value && Open(rows[i], version, runtime, importMedia) ==>
                                         Newer(rows, r.value, i)
    ensures r.None? ==> forall i :: 0 <= i < n ==> !Open(rows[i], version, runtime, importMedia)
  {
    if n == 0 then None
    else
      var before := NewestOpen(rows, n - 1, version, runtime, importMedia);
      if Open(rows[n - 1], version, runtime, importMedia) && (before.None? || Newer(rows, n - 1, before.value))
      then Some(n - 1)
      else before
  }

  // ----- one call, as a function of the table -----

  function Resolve(q: DeliveryRequest): Result<VersionRow, DeliveryError> {
    if q.asset.None? then Failure(NotFound)
    else
      var asset := q.asset.value;
      var chosen := if q.version.Some? then q.version else asset.current;
      if !asset.library then Failure(PurposeInvalid)
      else if asset.deleted then Failure(AssetDeleted)
      else if chosen.None? then Failure(NotReady)
      else
        match FindVersion(asset.versions, chosen.value)
        case None => Failure(VersionNotFound)
        case Some(v) =>
          if !v.ready || !v.blobActive then Failure(VersionNotReady)
          else if !q.runtimeUsable then Failure(RuntimeNotFound)
          else if q.key.Some? && !ValidKey(q.key.value) then Failure(InvalidDelivery)
          else Success(v)
  }

  /** What the lookups over the first n deliveries say; None means that a new delivery is wanted. */
  function Existing(rows: seq<Delivery>, n: nat, v: nat, q: DeliveryRequest): Option<Answer>
    requires n <= |rows|
  {
    if q.key.Some? then
      match FindSlot(rows, n, v, q.runtime, q.key.value)
      case None => None
      case Some(i) => Some(if rows[i].importMedia != q.importMedia then Failure(Duplicate) else Success((i + 1, false)))
    else if !q.allowRepeat then
      match NewestOpen(rows, n, v, q.runtime, q.importMedia)
      case None => None
      case Some(i) => Some(Success((i + 1, false)))
    else None
  }

  function NewDelivery(v: nat, q: DeliveryRequest, filename: string): Delivery {
    Delivery(v, q.runtime, q.key, q.importMedia, Pending, q.now, filename, RemotePath(filename))
  }

  /** `create`. The lookups saw only the first `seen` deliveries; the ones after them were committed by
      other callers in the meantime, and the table's unique constraint is checked against all of them. It
      fires at the flush of the new row, before the handler that would answer with the existing one, so
      the loser of a race gets the bare error. The name is made only after the flush. */
  function Create(rows: seq<Delivery>, seen: nat, q: DeliveryRequest, beyond: set<char>): (seq<Delivery>, Answer)
    requires seen <= |rows|
  {
    match Resolve(q)
    case Failure(e) => (rows, Failure(e))
    case Success(v) =>
      match Existing(rows, seen, v.id, q)
      case Some(answer) => (rows, answer)
      case None =>
        if q.key.Some? && FindSlot(rows, |rows|, v.id, q.runtime, q.key.value).Some?
        then (rows, Failure(IntegrityError))
        else
          match RemoteFilename(|rows| + 1, q.filename, v.extension, beyond)
          case None => (rows, Failure(FilenameInvalid))
          case Some(filename) => (rows + [NewDelivery(v.id, q, filename)], Success((|rows| + 1, true)))
  }

  // ----- what a request resolves to -----

  /** A text of one to 128 letters, digits, dots, underscores, colons and hyphens that starts with one of the
      first two. */
  lemma KeyExact(key: string)
    ensures ValidKey(key) <==>
              && 1 <= |key| <= 128 && key[0] !in "._:-"
              && forall i :: 0 <= i < |key| ==>
                   'a' <= key[i] <= 'z' || 'A' <= key[i] <= 'Z' || '0' <= key[i] <= '9' || key[i] in "._:-"
  {
    if 1 <= |key| <= 128 {
      assert KeyChar(key[0]) <==> IsAsciiAlnum(key[0]) || key[0] in "._:-";
    }
  }

  /** The version a request means: the one it names, or else the asset's current one. */
  function Meant(q: DeliveryRequest): Option<nat>
    requires q.asset.Some?
  {
    match q.version
    case Some(id) => Some(id)
    case None => q.asset.value.current
  }

  /** Every answer of the checks, in their order. */
  lemma ResolveExact(q: DeliveryRequest)
    ensures Resolve(q) == Failure(NotFound) <==> q.asset.None?
    ensures q.asset.Some? ==>
              var a, r := q.asset.value, Resolve(q);
              && (!a.library <==> r == Failure(PurposeInvalid))
              && (a.library ==> (a.deleted <==> r == Failure(AssetDeleted)))
              && (a.library && !a.deleted ==> (Meant(q).None? <==> r == Failure(NotReady)))
              && (a.library && !a.deleted && Meant(q).Some? ==>
                    && ((forall v :: v in a.versions ==> v.id != Meant(q).value) <==> r == Failure(VersionNotFound))
                    && (r.Success? ==> r.value in a.versions && r.value.id == Meant(q).value))
    ensures forall v :: Resolve(q) == Success(v) ==>
              v.ready && v.blobActive && q.runtimeUsable && (q.key.Some? ==> ValidKey(q.key.value))
  {
    hide ValidKey, FindVersion;
  }

  /** With distinct version ids, what is left is decided by the version, the runtime and the key. */
  lemma ResolvedExact(q: DeliveryRequest, v: VersionRow)
    requires q.asset.Some? && q.asset.value.library && !q.asset.value.deleted && Meant(q) == Some(v.id)
    requires v in q.asset.value.versions
    requires forall w :: w in q.asset.value.versions && w.id == v.id ==> w == v
    ensures Resolve(q) == if !v.ready || !v.blobActive then Failure(VersionNotReady)
                          else if !q.runtimeUsable then Failure(RuntimeNotFound)
                          else if q.key.Some? && !ValidKey(q.key.value) then Failure(InvalidDelivery)
                          else Success(v)
  {
    hide ValidKey, FindVersion;
  }

  class ContentDeliveryService {
    var deliveries: seq<Delivery>

    constructor ()
      ensures deliveries == []
    {
      deliveries := [];
    }

    /** `create` with nobody else at work. */
    method CreateDelivery(q: DeliveryRequest, beyond: set<char>) returns (r: Answer)
      modifies this
      ensures (deliveries, r) == Create(old(deliveries), |old(deliveries)|, q, beyond)
    {
      hide Resolve, RemoteFilename, FindSlot, NewestOpen;
      var resolved := Resolve(q);
      if resolved.Failure? {
        return Failure(resolved.error);
      }
      var version := resolved.value;
      if q.key.Some? {
        var existing := FindSlot(deliveries, |deliveries|, version.id, q.runtime, q.key.value);
        if existing.Some? {
          if deliveries[existing.value].importMedia != q.importMedia {
            return Failure(Duplicate);
          }
          return Success((existing.value + 1, false));
        }
      }
      if !q.allowRepeat && q.key.None? {
        var existing := NewestOpen(deliveries, |deliveries|, version.id, q.runtime, q.importMedia);
        if existing.Some? {
          return Success((existing.value + 1, false));
        }
      }
      var filename := RemoteFilename(|deliveries| + 1, q.filename, version.extension, beyond);
      if filename.None? {
        return Failure(FilenameInvalid);
      }
      deliveries := deliveries + [NewDelivery(version.id, q, filename.value)];
      return Success((|deliveries|, true));
    }
  }

  // ----- at most one delivery per version, runtime and key -----

  ghost predicate SlotsUnique(rows: seq<Delivery>) {
    forall i, j :: 0 <= i < j < |rows| && rows[i].key.Some? ==>
      !HasSlot(rows[j], rows[i].version, rows[i].runtime, rows[i].key.value)
  }

  /** Every path was made from the delivery's own id. */
  ghost predicate Named(rows: seq<Delivery>, beyond: set<char>) {
    forall i :: 0 <= i < |rows| ==> OwnName(rows[i], i + 1, beyond)
  }

  ghost predicate OwnName(d: Delivery, id: nat, beyond: set<char>) {
    d.remotePath == RemotePath(d.remoteFilename)
    && exists requested, extension :: RemoteFilename(id, requested, extension, beyond) == Some(d.remoteFilename)
  }

  /** A delivery created by racing callers, and the status changes of any delivery in between. */
  datatype Event =
    | Created(seen: nat, request: DeliveryRequest)
    | StatusChanged(i: nat, status: DeliveryStatus)

  predicate Possible(rows: seq<Delivery>, e: Event) {
    match e
    case Created(seen, _) => seen <= |rows|
    case StatusChanged(i, _) => i < |rows|
  }

  function After(rows: seq<Delivery>, e: Event, beyond: set<char>): seq<Delivery>
    requires Possible(rows, e)
  {
    match e
    case Created(seen, q) => Create(rows, seen, q, beyond).0
    case StatusChanged(i, status) => rows[i := rows[i].(status := status)]
  }

  lemma CreateKeeps(rows: seq<Delivery>, seen: nat, q: DeliveryRequest, beyond: set<char>)
    requires seen <= |rows| && SlotsUnique(rows) && Named(rows, beyond)
    ensures var after := Create(rows, seen, q, beyond).0; SlotsUnique(after) && Named(after, beyond)
    ensures Create(rows, seen, q, beyond).0 == rows
            || (|Create(rows, seen, q, beyond).0| == |rows| + 1 && Create(rows, seen, q, beyond).0[..|rows|] == rows
                && Create(rows, seen, q, beyond).1 == Success((|rows| + 1, true)))
  {
    hide RemoteFilename, NewestOpen, FindSlot, ValidKey, FindVersion;
    var after := Create(rows, seen, q, beyond).0;
    if after != rows {
      assert OwnName(after[|rows|], |rows| + 1, beyond);
    }
  }

  ghost predicate Run(tables: seq<seq<Delivery>>, events: seq<Event>, beyond: set<char>) {
    |tables| == |events| + 1 && tables[0] == []
    && forall k :: 0 <= k < |events| ==>
         Possible(tables[k], events[k]) && tables[k + 1] == After(tables[k], events[k], beyond)
  }

  lemma {:induction false} RunKeeps(tables: seq<seq<Delivery>>, events: seq<Event>, beyond: set<char>, k: nat)
    requires Run(tables, events, beyond) && k <= |events|
    ensures SlotsUnique(tables[k]) && Named(tables[k], beyond)
  {
    if k == 0 {
    } else {
      RunKeeps(tables, events, beyond, k - 1);
      hide SlotsUnique, Named, Create;
      match events[k - 1]
      case Created(seen, q) => CreateKeeps(tables[k - 1], seen, q, beyond);
      case StatusChanged(i, status) => StatusKeeps(tables[k - 1], i, status, beyond);
    }
  }

  lemma StatusKeeps(rows: seq<Delivery>, i: nat, status: DeliveryStatus, beyond: set<char>)
    requires i < |rows| && SlotsUnique(rows) && Named(rows, beyond)
    ensures var after := rows[i := rows[i].(status := status)]; SlotsUnique(after) && Named(after, beyond)
  {
    hide RemoteFilename;
    var after := rows[i := rows[i].(status := status)];
    forall j | 0 <= j < |after| ensures OwnName(after[j], j + 1, beyond) {
      assert OwnName(rows[j], j + 1, beyond);
    }
    hide OwnName;
  }

  /** In every table of every run, with callers racing each other, two deliveries never have the same
      version, runtime and key, and never the same path. */
  lemma NoTwoAlike(tables: seq<seq<Delivery>>, events: seq<Event>, beyond: set<char>, k: nat, i: nat, j: nat)
    requires Run(tables, events, beyond) && k <= |events| && i < j < |tables[k]|
    ensures var a, b := tables[k][i], tables[k][j];
            && (a.key.Some? && a.key == b.key ==> a.version != b.version || a.runtime != b.runtime)
            && a.remotePath != b.remotePath && a.remoteFilename != b.remoteFilename
  {
    hide SlotsUnique, Named;
    RunKeeps(tables, events, beyond, k);
    NoTwoAlikeIn(tables[k], beyond, i, j);
  }

  lemma NoTwoAlikeIn(rows: seq<Delivery>, beyond: set<char>, i: nat, j: nat)
    requires SlotsUnique(rows) && Named(rows, beyond) && i < j < |rows|
    ensures var a, b := rows[i], rows[j];
            && (a.key.Some? && a.key == b.key ==> a.version != b.version || a.runtime != b.runtime)
            && a.remotePath != b.remotePath && a.remoteFilename != b.remoteFilename
  {
    hide OwnName, RemoteFilename;
    var a, b := rows[i], rows[j];
    assert OwnName(a, i + 1, beyond) && OwnName(b, j + 1, beyond);
    hide Named;
    OwnNamesDiffer(a, b, i + 1, j + 1, beyond);
  }

  lemma OwnNamesDiffer(a: Delivery, b: Delivery, i: nat, j: nat, beyond: set<char>)
    requires OwnName(a, i, beyond) && OwnName(b, j, beyond) && i != j
    ensures a.remotePath != b.remotePath && a.remoteFilename != b.remoteFilename
  {
    hide RemoteFilename;
    var ra, ea :| RemoteFilename(i, ra, ea, beyond) == Some(a.remoteFilename);
    var rb, eb :| RemoteFilename(j, rb, eb, beyond) == Some(b.remoteFilename);
    PathsDiffer(i, j, ra, rb, ea, eb, beyond);
  }

  /** A new delivery pins a ready version with active bytes of an undeleted library asset, the one asked
      for or else the current one, and a usable runtime. */
  lemma CreatedIsDeliverable(rows: seq<Delivery>, seen: nat, q: DeliveryRequest, beyond: set<char>)
    requires seen <= |rows|
    ensures var after := Create(rows, seen, q, beyond).0;
            after != rows ==>
              && q.asset.Some? && q.asset.value.library && !q.asset.value.deleted && q.runtimeUsable
              && |after| == |rows| + 1 && after[..|rows|] == rows
              && var d := after[|rows|];
                 && (if q.version.Some? then q.version else q.asset.value.current) == Some(d.version)
                 && (exists v :: v in q.asset.value.versions && v.id == d.version && v.ready && v.blobActive)
                 && d.runtime == q.runtime && d.key == q.key && d.importMedia == q.importMedia && d.status.Pending?
                 && (q.key.Some? ==> ValidKey(q.key.value))
  {
    hide RemoteFilename, NewestOpen, FindSlot, FindVersion, ValidKey;
    if Create(rows, seen, q, beyond).0 != rows {
      var v := Resolve(q).value;
      assert v in q.asset.value.versions && v.ready && v.blobActive;
    }
  }

  // ----- repeating a call -----

  /** With a key, every later call for the same resolved version and runtime gets the delivery of the
      first call, however many other calls and status changes lie between, unless it asks for a
      different import option: then it is refused. */
  lemma KeyedRepeat(rows: seq<Delivery>, q: DeliveryRequest, beyond: set<char>, i: nat)
    requires SlotsUnique(rows) && i < |rows| && Resolve(q).Success? && q.key.Some?
    requires HasSlot(rows[i], Resolve(q).value.id, q.runtime, q.key.value)
    ensures Create(rows, |rows|, q, beyond)
            == (rows, if rows[i].importMedia == q.importMedia then Success((i + 1, false)) else Failure(Duplicate))
  {
    hide RemoteFilename, NewestOpen;
    var v := Resolve(q).value.id;
    var found := FindSlot(rows, |rows|, v, q.runtime, q.key.value);
    assert found == Some(i) by {
      assert HasSlot(rows[i], v, q.runtime, q.key.value);
      assert found.Some? && HasSlot(rows[found.value], v, q.runtime, q.key.value);
      hide FindSlot;
    }
    hide FindSlot, Resolve;
  }

  /** Once created, a delivery keeps its place, version, runtime, key, option and path. */
  predicate SameDelivery(a: Delivery, b: Delivery) {
    b == a.(status := b.status)
  }

  lemma {:induction false} DeliveriesStay(tables: seq<seq<Delivery>>, events: seq<Event>, beyond: set<char>, k: nat,
      l: nat, i: nat)
    requires Run(tables, events, beyond) && k <= l <= |events| && i < |tables[k]|
    ensures i < |tables[l]| && SameDelivery(tables[k][i], tables[l][i])
  {
    hide SlotsUnique, Named, After;
    if k < l {
      DeliveriesStay(tables, events, beyond, k, l - 1, i);
      RunKeeps(tables, events, beyond, l - 1);
      assert Possible(tables[l - 1], events[l - 1]) && tables[l] == After(tables[l - 1], events[l - 1], beyond);
      hide Run;
      EventStays(tables[l - 1], events[l - 1], beyond, i);
    }
  }

  lemma EventStays(rows: seq<Delivery>, e: Event, beyond: set<char>, i: nat)
    requires Possible(rows, e) && i < |rows| && SlotsUnique(rows) && Named(rows, beyond)
    ensures i < |After(rows, e, beyond)| && SameDelivery(rows[i], After(rows, e, beyond)[i])
  {
    hide Create, SlotsUnique, Named;
    if e.Created? {
      CreateKeeps(rows, e.seen, e.request, beyond);
    }
  }

  /** The idempotency promise over whole runs: if call k created a delivery under a key, a later call l that
      resolves to the same version, runtime, key and option answers with that delivery and creates none. */
  lemma IdempotentOverRuns(tables: seq<seq<Delivery>>, events: seq<Event>, beyond: set<char>, k: nat, l: nat)
    requires Run(tables, events, beyond) && k < l < |events| && events[k].Created? && events[l].Created?
    requires events[l].seen == |tables[l]|
    requires var q, r := events[k].request, events[l].request;
             Resolve(q).Success? && Resolve(r).Success? && Resolve(q).value.id == Resolve(r).value.id
             && q.runtime == r.runtime && q.key.Some? && q.key == r.key && q.importMedia == r.importMedia
    requires Create(tables[k], events[k].seen, events[k].request, beyond).1.Success?
    ensures var answer := Create(tables[k], events[k].seen, events[k].request, beyond).1.value;
            Create(tables[l], |tables[l]|, events[l].request, beyond) == (tables[l], Success((answer.0, false)))
  {
    hide RemoteFilename, NewestOpen, FindVersion, ValidKey;
    var q := events[k].request;
    var id := Create(tables[k], events[k].seen, q, beyond).1.value.0;
    AnswerHasSlot(tables[k], events[k].seen, q, beyond);
    assert id > 0 && id - 1 < |tables[k + 1]|;
    hide Create, FindSlot, Resolve;
    DeliveriesStay(tables, events, beyond, k + 1, l, id - 1);
    RunKeeps(tables, events, beyond, l);
    KeyedRepeat(tables[l], events[l].request, beyond, id - 1);
  }

  /** The delivery a keyed call answers with has the key, version, runtime and option asked for. */
  lemma AnswerHasSlot(rows: seq<Delivery>, seen: nat, q: DeliveryRequest, beyond: set<char>)
    requires seen <= |rows| && q.key.Some? && Create(rows, seen, q, beyond).1.Success?
    ensures Resolve(q).Success?
    ensures var (after, answer) := Create(rows, seen, q, beyond);
            var id := answer.value.0;
            0 < id <= |after| && HasSlot(after[id - 1], Resolve(q).value.id, q.runtime, q.key.value)
            && after[id - 1].importMedia == q.importMedia
  {
    hide RemoteFilename, NewestOpen, FindSlot, Resolve;
  }

  /** A delivery of the same version to the same runtime with the same option that has neither failed nor
      been cancelled. */
  predicate Serves(d: Delivery, v: nat, q: DeliveryRequest) {
    && d.version == v && d.runtime == q.runtime && d.importMedia == q.importMedia
    && !d.status.Failed? && !d.status.Cancelled?
  }

  /** The one created last; equal times are decided by the id. */
  ghost predicate IsNewestOpen(rows: seq<Delivery>, i: nat, v: nat, q: DeliveryRequest) {
    && i < |rows| && Serves(rows[i], v, q)
    && forall j :: 0 <= j < |rows| && j != i && Serves(rows[j], v, q) ==>
         rows[j].createdAt < rows[i].createdAt || (rows[j].createdAt == rows[i].createdAt && j < i)
  }

  ghost predicate SomeOpen(rows: seq<Delivery>, v: nat, q: DeliveryRequest) {
    exists i :: 0 <= i < |rows| && Serves(rows[i], v, q)
  }

  /** The lookup finds the newest one, if there is one at all. */
  lemma NewestExact(rows: seq<Delivery>, v: nat, q: DeliveryRequest)
    ensures var r := NewestOpen(rows, |rows|, v, q.runtime, q.importMedia);
            if r.Some? then IsNewestOpen(rows, r.value, v, q) else !SomeOpen(rows, v, q)
  {
    forall i | 0 <= i < |rows| ensures Open(rows[i], v, q.runtime, q.importMedia) <==> Serves(rows[i], v, q) {}
    hide NewestOpen, Open, Serves;
  }

  /** Without a key a delivery is wanted exactly when none is open or a repeat is asked for. If it is
      wanted it is created as pending under its own name, or refused for a bad name; otherwise the newest
      open one is the answer. */
  lemma UnkeyedExact(rows: seq<Delivery>, q: DeliveryRequest, beyond: set<char>)
    requires Resolve(q).Success? && q.key.None?
    ensures var (after, answer) := Create(rows, |rows|, q, beyond);
            var v := Resolve(q).value;
            var wanted := q.allowRepeat || !SomeOpen(rows, v.id, q);
            var name := RemoteFilename(|rows| + 1, q.filename, v.extension, beyond);
            && (wanted && name.Some? ==>
                  && answer == Success((|rows| + 1, true)) && |after| == |rows| + 1 && after[..|rows|] == rows
                  && after[|rows|] == Delivery(v.id, q.runtime, None, q.importMedia, Pending, q.now, name.value,
                                               RemotePath(name.value)))
            && (wanted && name.None? ==> answer == Failure(FilenameInvalid) && after == rows)
            && (!wanted ==> after == rows && answer.Success? && !answer.value.1 && answer.value.0 > 0
                            && IsNewestOpen(rows, answer.value.0 - 1, v.id, q))
  {
    NewestExact(rows, Resolve(q).value.id, q);
    hide RemoteFilename, RemotePath, NewestOpen, FindSlot, Resolve, Open, Serves, Newer;
  }

  /** With a key, the delivery of the same version to the same runtime under that key is the answer, or the
      refusal if it has another option; if there is none, one is created, or refused for a bad name. */
  lemma KeyedExact(rows: seq<Delivery>, q: DeliveryRequest, beyond: set<char>)
    requires Resolve(q).Success? && q.key.Some?
    ensures var (after, answer) := Create(rows, |rows|, q, beyond);
            var v := Resolve(q).value;
            var name := RemoteFilename(|rows| + 1, q.filename, v.extension, beyond);
            if exists i :: 0 <= i < |rows| && KeyedAlike(rows[i], v.id, q) then
              && after == rows
              && exists i :: 0 <= i < |rows| && KeyedAlike(rows[i], v.id, q)
                             && answer == if rows[i].importMedia == q.importMedia then Success((i + 1, false))
                                          else Failure(Duplicate)
            else if name.None? then after == rows && answer == Failure(FilenameInvalid)
            else
              && answer == Success((|rows| + 1, true))
              && after == rows + [Delivery(v.id, q.runtime, q.key, q.importMedia, Pending, q.now, name.value,
                                           RemotePath(name.value))]
  {
    var v := Resolve(q).value.id;
    forall i | 0 <= i < |rows|
      ensures HasSlot(rows[i], v, q.runtime, q.key.value) <==> KeyedAlike(rows[i], v, q) {
    }
    hide RemoteFilename, RemotePath, NewestOpen, FindSlot, Resolve, HasSlot, KeyedAlike;
    var found := FindSlot(rows, |rows|, v, q.runtime, q.key.value);
    if found.Some? {
      assert KeyedAlike(rows[found.value], v, q);
    }
  }

  predicate KeyedAlike(d: Delivery, v: nat, q: DeliveryRequest) {
    d.version == v && d.runtime == q.runtime && d.key == q.key
  }

  lemma ResolvesAlike(q: DeliveryRequest, later: int)
    ensures Resolve(q.(now := later)) == Resolve(q)
  {
    hide FindVersion, ValidKey;
  }

  /** So the same request twice, with nothing in between, gives one delivery. */
  lemma UnkeyedTwice(rows: seq<Delivery>, q: DeliveryRequest, later: int, beyond: set<char>)
    requires Resolve(q).Success? && q.key.None? && !q.allowRepeat
    ensures var (after, answer) := Create(rows, |rows|, q, beyond);
            answer.Success? ==>
              Create(after, |after|, q.(now := later), beyond) == (after, Success((answer.value.0, false)))
  {
    hide Create, RemoteFilename, Resolve;
    var (after, answer) := Create(rows, |rows|, q, beyond);
    var again := q.(now := later);
    ResolvesAlike(q, later);
    UnkeyedExact(rows, q, beyond);
    UnkeyedExact(after, again, beyond);
    var v := Resolve(q).value.id;
    if answer.Success? {
      var i := answer.value.0 - 1;
      assert Serves(after[i], v, q);
      assert SomeOpen(after, v, again);
      var j := Create(after, |after|, again, beyond).1.value.0 - 1;
      assert i == j;
    }
  }

  /** With nobody else at work the unique constraint never decides: a call that gets past its own lookup
      and has a good name creates a delivery. */
  lemma ConstraintIdle(rows: seq<Delivery>, q: DeliveryRequest, beyond: set<char>)
    requires Resolve(q).Success? && Existing(rows, |rows|, Resolve(q).value.id, q).None?
    ensures Create(rows, |rows|, q, beyond).1.Success?
            <==> RemoteFilename(|rows| + 1, q.filename, Resolve(q).value.extension, beyond).Some?
  {
    hide RemoteFilename, NewestOpen, FindSlot, Resolve;
  }

  /** A lookup that misses a delivery committed meanwhile under the same key loses with the bare error. */
  lemma RaceLost(rows: seq<Delivery>, seen: nat, q: DeliveryRequest, beyond: set<char>)
    requires seen <= |rows| && Resolve(q).Success? && q.key.Some?
    ensures var v := Resolve(q).value.id;
            Create(rows, seen, q, beyond).1 == Failure(IntegrityError) <==>
              && (forall i :: 0 <= i < seen ==> !HasSlot(rows[i], v, q.runtime, q.key.value))
              && exists i :: seen <= i < |rows| && HasSlot(rows[i], v, q.runtime, q.key.value)
    ensures Create(rows, seen, q, beyond).1 == Failure(IntegrityError) ==> Create(rows, seen, q, beyond).0 == rows
  {
    hide RemoteFilename, NewestOpen, FindSlot, Resolve;
  }

  /** The idempotency promise, exactly, over whole runs: after call k answered with a delivery under a key,
      a later call with the same runtime, key and option that resolves successfully answers with that
      delivery if and only if it resolves to the same version. */
  lemma IdempotentExactly(tables: seq<seq<Delivery>>, events: seq<Event>, beyond: set<char>, k: nat, l: nat)
    requires Run(tables, events, beyond) && k < l < |events| && events[k].Created? && events[l].Created?
    requires events[l].seen == |tables[l]|
    requires var q, r := events[k].request, events[l].request;
             Resolve(q).Success? && Resolve(r).Success?
             && q.runtime == r.runtime && q.key.Some? && q.key == r.key && q.importMedia == r.importMedia
    requires Create(tables[k], events[k].seen, events[k].request, beyond).1.Success?
    ensures var first := Create(tables[k], events[k].seen, events[k].request, beyond).1;
            var again := Create(tables[l], |tables[l]|, events[l].request, beyond).1;
            (again.Success? && again.value.0 == first.value.0)
            <==> Resolve(events[k].request).value.id == Resolve(events[l].request).value.id
  {
    hide RemoteFilename, NewestOpen, FindVersion, ValidKey, FindSlot;
    var q, r := events[k].request, events[l].request;
    if Resolve(q).value.id == Resolve(r).value.id {
      IdempotentOverRuns(tables, events, beyond, k, l);
    } else {
      var first := Create(tables[k], events[k].seen, q, beyond).1.value.0;
      var again := Create(tables[l], |tables[l]|, r, beyond).1;
      AnswerHasSlot(tables[k], events[k].seen, q, beyond);
      assert first > 0 && first - 1 < |tables[k + 1]|;
      if again.Success? && again.value.0 == first {
        AnswerHasSlot(tables[l], |tables[l]|, r, beyond);
        assert tables[l + 1] == Create(tables[l], |tables[l]|, r, beyond).0;
        hide Create, Resolve;
        DeliveriesStay(tables, events, beyond, k + 1, l + 1, first - 1);
        assert false;
      }
    }
  }
}
