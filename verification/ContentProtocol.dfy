/** The content store as a step system: uploads, replacements, thumbnails, reconciliation and cleanup
    interleave around one maintenance lock, two resources (files and rows), crashes at any point and
    outside changes to the blob directory.  Reads made under the lock see the last committed state. */
module ContentProtocol {
  import opened Wrappers
  import opened ContentBlobs

  /** Where a running operation stands.
      - Staged: its bytes are in the staging directory and it waits for the lock.
      - Holding: it has the lock and has not admitted its bytes yet.
      - Admitted: it has the lock; its row (if it installed a file) and its reference are uncommitted.
      - Compensating: it rolled back and released the lock; the file it installed is still there.
      - Mistaken: a thumbnail that committed, but whose release of the lock failed: its error handler
        still holds the key of the installed file and is about to remove it.
      - Sweeping: a cleanup that committed its reconciliation and removes files one at a time. */
  datatype Process =
    | Staged(data: Bytes, ref: Reference)
    | Holding(data: Bytes, ref: Reference)
    | Admitted(data: Bytes, ref: Reference, blob: nat, row: Option<Blob>)
    | Compensating(key: nat)
    | Mistaken(key: nat, blob: nat)
    | Sweeping(now: int, cutoff: int, referenced: set<nat>, swept: set<nat>)

  /** Who answers for a storage key that was once generated. */
  datatype Owner = OfRow(blob: nat) | OfProcess(process: nat) | Leaked | Gone

  /** `owners`, `stranded`, `lost` and `touched` are history: the fate of each generated key, the rows
      whose file was removed by a sweep that has not committed, the rows whose file was removed by the
      operation that committed them, and the names changed from outside. */
  datatype World = World(
    rows: seq<Blob>, references: map<Reference, nat>, files: map<BlobName, File>,
    processes: map<nat, Process>, lock: Option<nat>,
    owners: map<nat, Owner>, stranded: set<nat>, lost: set<nat>, touched: set<BlobName>)

  /** A crash also stands for a failed sync of the blob directory after a rename: the operation gives up
      without knowing the key of the file it has just installed.  A commit also stands for one after which
      an upload, or a thumbnail that reused a row, still fails: its handler has no key and changes nothing. */
  datatype Step =
    | Begin(p: nat, data: Bytes, ref: Reference)
    | Acquire(p: nat)
    | AdmitBytes(p: nat, key: nat, mime: string, now: int)
    | GiveUp(p: nat)
    | FlushFail(p: nat)
    | Commit(p: nat)
    | Rollback(p: nat)
    | Compensate(p: nat)
    | ReleaseFail(p: nat)
    | RemoveCommitted(p: nat)
    | Crash(p: nat)
    | Reconcile(now: int)
    | CleanupBegin(p: nat, now: int, grace: int)
    | Unlink(p: nat, blob: nat)
    | CleanupCommit(p: nat)
    | Dereference(ref: Reference)
    | Outside(name: BlobName, file: Option<File>)

  const EMPTY := World([], map[], map[], map[], None, map[], {}, {}, {})

  predicate HoldsLock(q: Process) {
    q.Holding? || q.Admitted? || q.Sweeping?
  }

  /** The key of the file a process installed and still answers for. */
  function PendingKey(q: Process): Option<nat> {
    match q
    case Admitted(_, _, _, Some(row)) => Some(row.storageKey)
    case Compensating(key) => Some(key)
    case _ => None
  }

  // ----- enabledness and effect -----

  function AdmissionOf(quota: nat, w: World, q: Process): Admission
    requires q.Holding?
  {
    Admit(w.rows, w.files, Sha256(q.data), |q.data|, quota)
  }

  ghost predicate Enabled(quota: nat, w: World, s: Step) {
    match s
    case Begin(p, data, _) => p !in w.processes && data != []
    case Acquire(p) => p in w.processes && w.processes[p].Staged? && w.lock.None?
    case AdmitBytes(p, key, _, _) =>
      && p in w.processes && w.processes[p].Holding?
      && key !in w.owners && StorageKey(key) !in w.files && StorageKey(key) !in w.touched
    case GiveUp(p) => p in w.processes && (w.processes[p].Staged? || w.processes[p].Holding?)
    case FlushFail(p) => p in w.processes && w.processes[p].Admitted? && w.processes[p].row.Some?
    case Commit(p) => p in w.processes && w.processes[p].Admitted?
    case Rollback(p) => p in w.processes && w.processes[p].Admitted?
    case Compensate(p) => p in w.processes && w.processes[p].Compensating?
    case ReleaseFail(p) =>
      && p in w.processes && w.processes[p].Admitted? && w.processes[p].row.Some? && w.processes[p].ref.VariantOf?
    case RemoveCommitted(p) => p in w.processes && w.processes[p].Mistaken?
    case Crash(p) => p in w.processes
    case Reconcile(_) => w.lock.None?
    case CleanupBegin(p, _, _) => p !in w.processes && w.lock.None?
    case Unlink(p, i) =>
      && p in w.processes && w.processes[p].Sweeping? && i < |w.rows|
      && Candidate(w.rows[i], i in w.processes[p].referenced, w.processes[p].cutoff)
      && Removable(w.rows[i], w.files)
    case CleanupCommit(p) => p in w.processes && w.processes[p].Sweeping?
    case Dereference(_) => true
    case Outside(_, _) => true
  }

  /** A process ends; the operating system releases its lock. */
  function End(w: World, p: nat): World {
    w.(processes := w.processes - {p}, lock := if w.lock == Some(p) then None else w.lock)
  }

  /** `remove_installed`. */
  function RemoveFile(files: map<BlobName, File>, key: nat): map<BlobName, File> {
    var name := StorageKey(key);
    if name in files && !files[name].safe then files else files - {name}
  }

  function MarkDeleted(rows: seq<Blob>, n: nat, swept: set<nat>, now: int): (r: seq<Blob>)
    requires n <= |rows|
    ensures |r| == n
    ensures forall i {:trigger r[i]} :: 0 <= i < n ==>
              r[i] == if i in swept then rows[i].(status := Deleted, verifiedAt := Some(now)) else rows[i]
  {
    if n == 0 then []
    else MarkDeleted(rows, n - 1, swept, now)
         + [if (n - 1) in swept then rows[n - 1].(status := Deleted, verifiedAt := Some(now)) else rows[n - 1]]
  }

  function ApplyAdmit(quota: nat, w: World, p: nat, key: nat, mime: string, now: int): World
    requires p in w.processes && w.processes[p].Holding?
  {
    var q := w.processes[p];
    match AdmissionOf(quota, w, q)
    case Refuse(_) => End(w, p)
    case Reuse(i) => w.(processes := w.processes[p := Admitted(q.data, q.ref, i, None)])
    case Install =>
      var row := Blob(key, Sha256(q.data), |q.data|, mime, Active, Some(now));
      w.(files := w.files[StorageKey(key) := File(q.data, now, true)],
         processes := w.processes[p := Admitted(q.data, q.ref, |w.rows|, Some(row))],
         owners := w.owners[key := OfProcess(p)])
  }

  function ApplyCommit(w: World, p: nat): World
    requires p in w.processes && w.processes[p].Admitted?
  {
    var q := w.processes[p];
    var done := End(w, p).(references := w.references[q.ref := q.blob]);
    match q.row
    case None => done
    case Some(row) => done.(rows := w.rows + [row], owners := w.owners[row.storageKey := OfRow(|w.rows|)])
  }

  function ApplyRollback(w: World, p: nat): World
    requires p in w.processes && w.processes[p].Admitted?
  {
    match w.processes[p].row
    case None => End(w, p)
    case Some(row) =>
      End(w, p).(processes := w.processes[p := Compensating(row.storageKey)])
  }

  function ApplyRemoval(w: World, p: nat): World
    requires p in w.processes && PendingKey(w.processes[p]).Some?
  {
    var key := PendingKey(w.processes[p]).value;
    End(w, p).(files := RemoveFile(w.files, key), owners := w.owners[key := Gone])
  }

  /** The thumbnail's commit went through, the release of the lock did not. */
  function ApplyReleaseFail(w: World, p: nat): World
    requires p in w.processes && w.processes[p].Admitted? && w.processes[p].row.Some?
  {
    var committed := ApplyCommit(w, p);
    committed.(processes := committed.processes[p := Mistaken(w.processes[p].row.value.storageKey, |w.rows|)])
  }

  function ApplyRemoveCommitted(w: World, p: nat): World
    requires p in w.processes && w.processes[p].Mistaken?
  {
    End(w, p).(files := RemoveFile(w.files, w.processes[p].key), lost := w.lost + {w.processes[p].blob})
  }

  function ApplyCrash(w: World, p: nat): World
    requires p in w.processes
  {
    match PendingKey(w.processes[p])
    case None => End(w, p)
    case Some(key) => End(w, p).(owners := w.owners[key := Leaked])
  }

  function ApplyUnlink(w: World, p: nat, i: nat): World
    requires p in w.processes && w.processes[p].Sweeping? && i < |w.rows|
  {
    w.(files := RemoveFile(w.files, w.rows[i].storageKey),
       processes := w.processes[p := w.processes[p].(swept := w.processes[p].swept + {i})],
       stranded := w.stranded + {i})
  }

  function ApplyCleanupCommit(w: World, p: nat): World
    requires p in w.processes && w.processes[p].Sweeping?
  {
    var q := w.processes[p];
    End(w, p).(rows := MarkDeleted(w.rows, |w.rows|, q.swept, q.now))
  }

  function ApplyOutside(w: World, name: BlobName, file: Option<File>): World {
    w.(files := if file.None? then w.files - {name} else w.files[name := file.value],
       touched := w.touched + {name})
  }

  ghost function Apply(quota: nat, w: World, s: Step): World
    requires Enabled(quota, w, s)
  {
    match s
    case Begin(p, data, ref) => w.(processes := w.processes[p := Staged(data, ref)])
    case Acquire(p) =>
      w.(processes := w.processes[p := Holding(w.processes[p].data, w.processes[p].ref)], lock := Some(p))
    case AdmitBytes(p, key, mime, now) => ApplyAdmit(quota, w, p, key, mime, now)
    case GiveUp(p) => End(w, p)
    case FlushFail(p) => ApplyRemoval(w, p)
    case Commit(p) => ApplyCommit(w, p)
    case Rollback(p) => ApplyRollback(w, p)
    case Compensate(p) => ApplyRemoval(w, p)
    case ReleaseFail(p) => ApplyReleaseFail(w, p)
    case RemoveCommitted(p) => ApplyRemoveCommitted(w, p)
    case Crash(p) => ApplyCrash(w, p)
    case Reconcile(now) => w.(rows := ReconcileRows(w.rows, w.references.Values, w.files, now))
    case CleanupBegin(p, now, grace) =>
      w.(rows := ReconcileRows(w.rows, w.references.Values, w.files, now),
         processes := w.processes[p := Sweeping(now, now - grace, w.references.Values, {})],
         lock := Some(p))
    case Unlink(p, i) => ApplyUnlink(w, p, i)
    case CleanupCommit(p) => ApplyCleanupCommit(w, p)
    case Dereference(ref) => w.(references := w.references - {ref})
    case Outside(name, file) => ApplyOutside(w, name, file)
  }

  // ----- the invariant -----

  /** At most one process is inside the lock, and it is the one the lock names. */
  ghost predicate LockInv(w: World) {
    && (forall p :: p in w.processes && HoldsLock(w.processes[p]) ==> w.lock == Some(p))
    && (w.lock.Some? ==> w.lock.value in w.processes && HoldsLock(w.processes[w.lock.value]))
  }

  /** Each digest has at most one row, and each row owns its key (so keys are unique too). */
  ghost predicate RowInv(w: World) {
    && UniqueDigests(w.rows)
    && forall i :: 0 <= i < |w.rows| ==>
         w.rows[i].storageKey in w.owners && w.owners[w.rows[i].storageKey] == OfRow(i)
  }

  /** Garbage-collection safety: a committed reference never points at an orphaned or deleted blob. */
  ghost predicate ReferenceInv(w: World) {
    forall ref :: ref in w.references ==>
      && w.references[ref] < |w.rows|
      && (w.rows[w.references[ref]].status == Active || w.rows[w.references[ref]].status == Missing)
  }

  ghost predicate ProcessOk(quota: nat, w: World, p: nat, q: Process) {
    match q
    case Staged(data, _) => data != []
    case Holding(data, _) => data != []
    case Admitted(data, _, blob, None) =>
      blob < |w.rows| && w.rows[blob].status == Active && w.rows[blob].sha256 == Sha256(data)
    case Admitted(data, _, blob, Some(row)) =>
      && blob == |w.rows|
      && row == Blob(row.storageKey, Sha256(data), |data|, row.mime, Active, row.verifiedAt)
      && (forall i :: 0 <= i < |w.rows| ==> w.rows[i].sha256 != Sha256(data))
      && OccupiedBytes(w.rows) + |data| <= quota
      && OwnsPending(w, p, row.storageKey)
      && (StorageKey(row.storageKey) !in w.touched ==> FileOf(w, row))
    case Compensating(key) => OwnsPending(w, p, key)
    case Mistaken(key, blob) => key in w.owners && w.owners[key] == OfRow(blob)
    case Sweeping(_, cutoff, referenced, swept) =>
      && w.references.Values <= referenced
      && swept <= w.stranded
      && forall i :: i in swept ==> i < |w.rows| && Candidate(w.rows[i], i in referenced, cutoff)
  }

  /** A process answers for its file, and nobody but an outsider can have made it unsafe. */
  ghost predicate OwnsPending(w: World, p: nat, key: nat) {
    && key in w.owners && w.owners[key] == OfProcess(p)
    && (StorageKey(key) in w.files && StorageKey(key) !in w.touched ==> w.files[StorageKey(key)].safe)
  }

  ghost predicate ProcessInv(quota: nat, w: World) {
    forall p :: p in w.processes ==> ProcessOk(quota, w, p, w.processes[p])
  }

  /** Every key a process answers for belongs to a process that still runs. */
  ghost predicate OwnerInv(w: World) {
    forall k :: k in w.owners ==>
      match w.owners[k]
      case OfRow(i) => i < |w.rows| && w.rows[i].storageKey == k
      case OfProcess(p) => p in w.processes && PendingKey(w.processes[p]) == Some(k)
      case _ => true
  }

  /** The file of a row, intact. */
  ghost predicate FileOf(w: World, b: Blob) {
    Intact(b, w.files)
  }

  /** Whether the protocol accounts for a file under key `k`. */
  ghost predicate Expected(w: World, k: nat) {
    k in w.owners &&
    match w.owners[k]
    case OfRow(i) => i < |w.rows| && Occupies(w.rows[i]) && i !in w.stranded && i !in w.lost
    case OfProcess(_) => true
    case Leaked => true
    case Gone => false
  }

  /** File/row agreement on every name nobody touched from outside. */
  ghost predicate FileInv(w: World) {
    && (forall k :: StorageKey(k) !in w.touched ==> (StorageKey(k) in w.files <==> Expected(w, k)))
    && (forall n :: ForeignBlob(n) !in w.touched ==> ForeignBlob(n) !in w.files)
    && (forall i | 0 <= i < |w.rows| && StorageKey(w.rows[i].storageKey) !in w.touched ::
          StorageKey(w.rows[i].storageKey) in w.files ==> FileOf(w, w.rows[i]))
  }

  /** A row is stranded only while orphaned; afterwards it is missing or deleted. */
  ghost predicate StrandedInv(w: World) {
    && (forall i :: i in w.stranded ==> i < |w.rows| && w.rows[i].status != Active)
    && (forall i :: i in w.lost ==> i < |w.rows|)
  }

  ghost predicate QuotaInv(quota: nat, w: World) {
    OccupiedBytes(w.rows) <= quota
  }

  ghost predicate Inv(quota: nat, w: World) {
    && LockInv(w) && RowInv(w) && ReferenceInv(w) && ProcessInv(quota, w) && OwnerInv(w)
    && FileInv(w) && StrandedInv(w) && QuotaInv(quota, w)
  }
}
