/** The rows and files of the content store, and the per-row decisions of admission,
    reconciliation and cleanup.  The store's methods and the step system both use them. */
module ContentBlobs {
  import opened Wrappers

  newtype byte = x: int | 0 <= x < 256
  type Bytes = seq<byte>

  /** SHA-256 as an ideal (injective) digest. */
  datatype Digest = Sha256(preimage: Bytes)

  datatype BlobStatus = Active | Orphaned | Missing | Deleted

  /** A row of content_blobs.  A blob's id is its position in the table: rows are never removed. */
  datatype Blob = Blob(
    storageKey: nat, sha256: Digest, sizeBytes: nat, mime: string,
    status: BlobStatus, verifiedAt: Option<int>)

  /** `safe` stands for "a regular private file of the service's own user". */
  datatype File = File(data: Bytes, modifiedAt: int, safe: bool)

  /** A committed pointer at a blob: a version's blob_id, or a variant's when it is not null. */
  datatype Reference = VersionOf(version: nat) | VariantOf(variant: nat)

  datatype BlobName = StorageKey(uuid: nat) | ForeignBlob(name: string)
  datatype StagingName = Upload(uuid: nat) | ApkView(uuid: nat) | ForeignStaging(name: string)

  datatype StorageError =
    | InvalidUpload | UploadTooLarge | EmptyContent | IoError
    | BlobUnavailable | StorageFull | StorageUnavailable
    | BlobMissing | BlobInvalid | BlobUnsafe | ValidationError | DatabaseError
    | ResponseFailed | ReleaseFailed

  // ----- quota -----

  predicate Occupies(b: Blob) {
    b.status == Active || b.status == Orphaned
  }

  function Charge(b: Blob): nat {
    if Occupies(b) then b.sizeBytes else 0
  }

  /** The sum the admission check compares with the quota. */
  function OccupiedBytes(rows: seq<Blob>): nat {
    OccupiedBelow(rows, |rows|)
  }

  function OccupiedBelow(rows: seq<Blob>, n: nat): nat
    requires n <= |rows|
  {
    if n == 0 then 0 else OccupiedBelow(rows, n - 1) + Charge(rows[n - 1])
  }

  /** Only active and orphaned rows count, each with its size. */
  lemma OccupiedExact(rows: seq<Blob>, b: Blob)
    ensures OccupiedBytes([]) == 0
    ensures OccupiedBytes(rows + [b])
            == OccupiedBytes(rows) + (if b.status == Active || b.status == Orphaned then b.sizeBytes else 0)
  {
    OccupiedAppend(rows, b);
  }

  // ----- admission -----

  ghost predicate UniqueDigests(rows: seq<Blob>) {
    forall i, j :: 0 <= i < j < |rows| ==> rows[i].sha256 != rows[j].sha256
  }

  /** The unique constraint on storage_key, for the first `n` rows. */
  ghost predicate DistinctKeys(rows: seq<Blob>, n: nat)
    requires n <= |rows|
  {
    n == 0 || (DistinctKeys(rows, n - 1) && StorageKey(rows[n - 1].storageKey) !in KnownNames(rows, n - 1))
  }

  ghost predicate UniqueKeys(rows: seq<Blob>) {
    DistinctKeys(rows, |rows|)
  }

  lemma {:induction false} DistinctKeysAt(rows: seq<Blob>, n: nat, i: nat, j: nat)
    requires i < j < n <= |rows| && DistinctKeys(rows, n)
    ensures rows[i].storageKey != rows[j].storageKey
  {
    if j < n - 1 {
      DistinctKeysAt(rows, n - 1, i, j);
    } else {
      KnownNamesExact(rows, n - 1);
    }
  }

  function FindDigest(rows: seq<Blob>, d: Digest): (r: Option<nat>)
    ensures r.Some? ==> r.value < |rows| && rows[r.value].sha256 == d
    ensures r.None? <==> forall i :: 0 <= i < |rows| ==> rows[i].sha256 != d
  {
    if rows == [] then None
    else if rows[|rows| - 1].sha256 == d then Some(|rows| - 1)
    else FindDigest(rows[..|rows| - 1], d)
  }

  /** `path_for`: the file exists, is safe and has the recorded size. */
  function PathFor(b: Blob, files: map<BlobName, File>): Result<BlobName, StorageError> {
    var name := StorageKey(b.storageKey);
    if name !in files then Failure(BlobMissing)
    else if !files[name].safe then Failure(BlobUnsafe)
    else if |files[name].data| != b.sizeBytes then Failure(BlobInvalid)
    else Success(name)
  }

  /** What `verify_blob` promises: the managed bytes are exactly those the row describes. */
  predicate Intact(b: Blob, files: map<BlobName, File>) {
    var name := StorageKey(b.storageKey);
    name in files && files[name].safe &&
    |files[name].data| == b.sizeBytes && Sha256(files[name].data) == b.sha256
  }

  datatype Admission = Reuse(blob: nat) | Install | Refuse(error: StorageError)

  function Admit(rows: seq<Blob>, files: map<BlobName, File>, d: Digest, size: nat, quota: nat): Admission {
    match FindDigest(rows, d)
    case Some(i) =>
      if rows[i].status != Active then Refuse(BlobUnavailable)
      else (match PathFor(rows[i], files)
            case Failure(e) => Refuse(e)
            case Success(_) => Reuse(i))
    case None =>
      if OccupiedBytes(rows) + size > quota then Refuse(StorageFull) else Install
  }

  // ----- reconciliation -----

  function ReconcileRow(b: Blob, referenced: bool, files: map<BlobName, File>, now: int): Blob {
    var name := StorageKey(b.storageKey);
    if name !in files then
      if Occupies(b) then b.(status := Missing, verifiedAt := Some(now)) else b
    else if !files[name].safe || |files[name].data| != b.sizeBytes then b
    else if b.status == Active && !referenced then b.(status := Orphaned, verifiedAt := Some(now))
    else b
  }

  function ReconcileBelow(rows: seq<Blob>, n: nat, referenced: set<nat>, files: map<BlobName, File>,
      now: int)
    : (r: seq<Blob>)
    requires n <= |rows|
    ensures |r| == n
    ensures forall i {:trigger r[i]} :: 0 <= i < n ==> r[i] == ReconcileRow(rows[i], i in referenced, files, now)
  {
    if n == 0 then []
    else ReconcileBelow(rows, n - 1, referenced, files, now)
         + [ReconcileRow(rows[n - 1], (n - 1) in referenced, files, now)]
  }

  function ReconcileRows(rows: seq<Blob>, referenced: set<nat>, files: map<BlobName, File>, now: int): (r: seq<Blob>)
    ensures |r| == |rows|
  {
    ReconcileBelow(rows, |rows|, referenced, files, now)
  }

  /** What a pass does to row i: it is orphaned at this time exactly if it was active, nothing references it
      and its file is there, safe and of the right length; it goes missing exactly if it was active or
      orphaned and its file is absent; otherwise nothing about it changes. */
  lemma ReconcileExact(rows: seq<Blob>, referenced: set<nat>, files: map<BlobName, File>, now: int, i: nat)
    requires i < |rows|
    ensures var b, r := rows[i], ReconcileRows(rows, referenced, files, now)[i];
            var name := StorageKey(b.storageKey);
            && (r == b.(status := Orphaned, verifiedAt := Some(now)) && r != b <==>
                  && b.status == Active && i !in referenced
                  && name in files && files[name].safe && |files[name].data| == b.sizeBytes)
            && (r == b.(status := Missing, verifiedAt := Some(now)) && r != b <==>
                  (b.status == Active || b.status == Orphaned) && name !in files)
            && (r == b || (r != b && r.status in {Orphaned, Missing} && r.verifiedAt == Some(now)))
            && r == b.(status := r.status, verifiedAt := r.verifiedAt)
  {
  }

  predicate SuspectRow(b: Blob, files: map<BlobName, File>) {
    var name := StorageKey(b.storageKey);
    name in files && (!files[name].safe || |files[name].data| != b.sizeBytes)
  }

  function KnownNames(rows: seq<Blob>, n: nat): set<BlobName>
    requires n <= |rows|
  {
    if n == 0 then {} else KnownNames(rows, n - 1) + {StorageKey(rows[n - 1].storageKey)}
  }

  function SuspectNames(rows: seq<Blob>, files: map<BlobName, File>, n: nat): set<BlobName>
    requires n <= |rows|
  {
    if n == 0 then {}
    else SuspectNames(rows, files, n - 1)
         + if SuspectRow(rows[n - 1], files) then {StorageKey(rows[n - 1].storageKey)} else {}
  }

  /** Names in the blob directory that a pass reports instead of touching. */
  function UncertainBlobs(rows: seq<Blob>, files: map<BlobName, File>): set<BlobName> {
    SuspectNames(rows, files, |rows|) + (files.Keys - KnownNames(rows, |rows|))
  }

  predicate StaleStaging(name: StagingName, f: File, now: int, age: int) {
    !name.ForeignStaging? && f.safe && now - f.modifiedAt >= age
  }

  /** `after` is `before` without its stale entries. */
  ghost predicate StaleRemoved(before: map<StagingName, File>, after: map<StagingName, File>, now: int, age: int) {
    && (forall n :: n in after <==> n in before && !StaleStaging(n, before[n], now, age))
    && (forall n :: n in after ==> after[n] == before[n])
  }

  // ----- cleanup -----

  predicate Aged(b: Blob, cutoff: int) {
    b.status == Orphaned && b.verifiedAt.Some? && b.verifiedAt.value <= cutoff
  }

  /** Rows whose file a sweep will try to remove. */
  predicate Candidate(b: Blob, referenced: bool, cutoff: int) {
    Aged(b, cutoff) && !referenced
  }

  /** `remove_installed` succeeds on an absent file and on a safe one. */
  predicate Removable(b: Blob, files: map<BlobName, File>) {
    StorageKey(b.storageKey) in files ==> files[StorageKey(b.storageKey)].safe
  }

  function SweepRow(b: Blob, referenced: bool, files: map<BlobName, File>, cutoff: int, now: int): Blob {
    if Candidate(b, referenced, cutoff) && Removable(b, files)
    then b.(status := Deleted, verifiedAt := Some(now)) else b
  }

  function SweepBelow(rows: seq<Blob>, n: nat, referenced: set<nat>, files: map<BlobName, File>, cutoff: int,
      now: int)
    : (r: seq<Blob>)
    requires n <= |rows|
    ensures |r| == n
    ensures forall i {:trigger r[i]} :: 0 <= i < n ==> r[i] == SweepRow(rows[i], i in referenced, files, cutoff, now)
  {
    if n == 0 then []
    else SweepBelow(rows, n - 1, referenced, files, cutoff, now)
         + [SweepRow(rows[n - 1], (n - 1) in referenced, files, cutoff, now)]
  }

  function SweepRows(rows: seq<Blob>, referenced: set<nat>, files: map<BlobName, File>, cutoff: int,
      now: int)
    : (r: seq<Blob>)
    ensures |r| == |rows|
  {
    SweepBelow(rows, |rows|, referenced, files, cutoff, now)
  }

  /** What a sweep does to row i: it is deleted at this time exactly if it has been an orphan since the cutoff
      or longer, nothing references it, and its file is absent or safe; otherwise nothing changes. */
  lemma SweepExact(rows: seq<Blob>, referenced: set<nat>, files: map<BlobName, File>, cutoff: int, now: int, i: nat)
    requires i < |rows|
    ensures var b, r := rows[i], SweepRows(rows, referenced, files, cutoff, now)[i];
            var name := StorageKey(b.storageKey);
            if b.status == Orphaned && b.verifiedAt.Some? && b.verifiedAt.value <= cutoff && i !in referenced
               && (name in files ==> files[name].safe)
            then r == b.(status := Deleted, verifiedAt := Some(now)) else r == b
  {
  }

  /** The blob directory after a sweep has handled the first `n` rows. */
  function SweepFiles(rows: seq<Blob>, n: nat, referenced: set<nat>, files: map<BlobName, File>,
      cutoff: int)
    : map<BlobName, File>
    requires n <= |rows|
  {
    if n == 0 then files
    else
      var rest := SweepFiles(rows, n - 1, referenced, files, cutoff);
      if Candidate(rows[n - 1], (n - 1) in referenced, cutoff) && Removable(rows[n - 1], files)
      then rest - {StorageKey(rows[n - 1].storageKey)} else rest
  }

  ghost predicate SweptName(name: BlobName, rows: seq<Blob>, n: nat, referenced: set<nat>,
                            files: map<BlobName, File>, cutoff: int)
    requires n <= |rows|
  {
    exists i :: 0 <= i < n && Candidate(rows[i], i in referenced, cutoff) && Removable(rows[i], files)
                && name == StorageKey(rows[i].storageKey)
  }

  /** A sweep removes exactly the removable files of its candidates and changes no other file. */
  lemma {:induction false} SweepFilesExact(rows: seq<Blob>, n: nat, referenced: set<nat>, files: map<BlobName, File>,
      cutoff: int)
    requires n <= |rows|
    ensures var after := SweepFiles(rows, n, referenced, files, cutoff);
            && (forall name :: name in after <==> name in files && !SweptName(name, rows, n, referenced, files, cutoff))
            && (forall name :: name in after ==> after[name] == files[name])
  {
    if n == 0 {
    } else {
      SweepFilesExact(rows, n - 1, referenced, files, cutoff);
      var after := SweepFiles(rows, n, referenced, files, cutoff);
      forall name | name in files
        ensures name in after <==> !SweptName(name, rows, n, referenced, files, cutoff)
      {
        if SweptName(name, rows, n - 1, referenced, files, cutoff) {
          var i :| 0 <= i < n - 1 && Candidate(rows[i], i in referenced, cutoff) && Removable(rows[i], files)
                   && name == StorageKey(rows[i].storageKey);
          assert SweptName(name, rows, n, referenced, files, cutoff);
        }
      }
    }
  }

  /** Distinct keys: the sweep finds the file of row i as it was at the start. */
  lemma SweepFinds(rows: seq<Blob>, i: nat, referenced: set<nat>, files: map<BlobName, File>, cutoff: int)
    requires i < |rows| && UniqueKeys(rows)
    ensures Removable(rows[i], SweepFiles(rows, i, referenced, files, cutoff)) == Removable(rows[i], files)
  {
    SweepFilesExact(rows, i, referenced, files, cutoff);
    forall k | 0 <= k < i ensures rows[k].storageKey != rows[i].storageKey {
      DistinctKeysAt(rows, |rows|, k, i);
    }
  }

  lemma {:induction false} KnownNamesExact(rows: seq<Blob>, n: nat)
    requires n <= |rows|
    ensures forall name :: name in KnownNames(rows, n) <==>
              exists i :: 0 <= i < n && name == StorageKey(rows[i].storageKey)
  {
    if n == 0 {
    } else {
      KnownNamesExact(rows, n - 1);
    }
  }

  lemma {:induction false} ReconcileKeepsKeys(
    rows: seq<Blob>, referenced: set<nat>, files: map<BlobName, File>, now: int, n: nat)
    requires n <= |rows|
    ensures KnownNames(ReconcileRows(rows, referenced, files, now), n) == KnownNames(rows, n)
  {
    if n == 0 {
    } else {
      ReconcileKeepsKeys(rows, referenced, files, now, n - 1);
    }
  }

  lemma ReconcileKeepsUniqueKeys(rows: seq<Blob>, referenced: set<nat>, files: map<BlobName, File>, now: int)
    requires UniqueKeys(rows)
    ensures UniqueKeys(ReconcileRows(rows, referenced, files, now))
  {
    ReconcileKeepsDistinctKeys(rows, referenced, files, now, |rows|);
  }

  lemma {:induction false} ReconcileKeepsDistinctKeys(
    rows: seq<Blob>, referenced: set<nat>, files: map<BlobName, File>, now: int, n: nat)
    requires n <= |rows| && DistinctKeys(rows, n)
    ensures DistinctKeys(ReconcileRows(rows, referenced, files, now), n)
  {
    if n == 0 {
    } else {
      ReconcileKeepsDistinctKeys(rows, referenced, files, now, n - 1);
      ReconcileKeepsKeys(rows, referenced, files, now, n - 1);
    }
  }

  lemma {:induction false} SuspectNamesExact(rows: seq<Blob>, files: map<BlobName, File>, n: nat)
    requires n <= |rows|
    ensures forall name :: name in SuspectNames(rows, files, n) <==>
              exists i :: 0 <= i < n && SuspectRow(rows[i], files) && name == StorageKey(rows[i].storageKey)
  {
    if n == 0 {
    } else {
      SuspectNamesExact(rows, files, n - 1);
    }
  }

  /** A pass reports a file exactly if no row has its key, or one has and the file is unsafe or of another
      length. */
  lemma UncertainExact(rows: seq<Blob>, files: map<BlobName, File>, name: BlobName)
    ensures name in UncertainBlobs(rows, files) <==>
              && name in files
              && ((forall i :: 0 <= i < |rows| ==> name != StorageKey(rows[i].storageKey))
                  || (exists i :: 0 <= i < |rows| && name == StorageKey(rows[i].storageKey)
                                  && (!files[name].safe || |files[name].data| != rows[i].sizeBytes)))
  {
    SuspectNamesExact(rows, files, |rows|);
    KnownNamesExact(rows, |rows|);
    hide SuspectNames, KnownNames;
  }

  /** The staging files a pass removes: private ones under generated names, of at least the given age. */
  lemma StaleExact(before: map<StagingName, File>, after: map<StagingName, File>, now: int, age: int,
                   name: StagingName)
    requires StaleRemoved(before, after, now, age) && name in before
    ensures name !in after <==>
              (name.Upload? || name.ApkView?) && before[name].safe && before[name].modifiedAt + age <= now
    ensures name in after ==> after[name] == before[name]
  {
  }

  // ----- counting what changed between two versions of the table -----

  predicate Became(before: Blob, after: Blob, s: BlobStatus) {
    before.status != s && after.status == s
  }

  function CountBecame(before: seq<Blob>, after: seq<Blob>, n: nat, s: BlobStatus): nat
    requires n <= |before| == |after|
  {
    if n == 0 then 0
    else CountBecame(before, after, n - 1, s) + if Became(before[n - 1], after[n - 1], s) then 1 else 0
  }

  function BytesBecame(before: seq<Blob>, after: seq<Blob>, n: nat, s: BlobStatus): nat
    requires n <= |before| == |after|
  {
    if n == 0 then 0
    else BytesBecame(before, after, n - 1, s)
         + if Became(before[n - 1], after[n - 1], s) then before[n - 1].sizeBytes else 0
  }

  // ----- one-way status -----

  function Rank(s: BlobStatus): nat {
    match s case Active => 0 case Orphaned => 1 case Missing => 2 case Deleted => 2
  }

  /** What no pass may do to a row: change its bytes' identity, move its status back, or touch the
      time stamp of a row that stays orphaned.  Missing and deleted rows are final. */
  ghost predicate Advances(before: Blob, after: Blob) {
    && after.storageKey == before.storageKey
    && after.sha256 == before.sha256
    && after.sizeBytes == before.sizeBytes
    && Rank(before.status) <= Rank(after.status)
    && (Rank(before.status) == Rank(after.status) ==> after == before)
  }

  ghost predicate TableAdvances(before: seq<Blob>, after: seq<Blob>) {
    && |before| <= |after|
    && forall i :: 0 <= i < |before| ==> Advances(before[i], after[i])
  }

  lemma TableAdvancesTransitive(a: seq<Blob>, b: seq<Blob>, c: seq<Blob>)
    requires TableAdvances(a, b) && TableAdvances(b, c)
    ensures TableAdvances(a, c)
  {
    forall i | 0 <= i < |a| ensures Advances(a[i], c[i]) {
      assert Advances(a[i], b[i]) && Advances(b[i], c[i]);
    }
  }

  /** Byte accounting of one pass: what leaves the quota sum is exactly what became missing or deleted. */
  lemma {:induction false} OccupiedConservation(before: seq<Blob>, after: seq<Blob>, n: nat)
    requires n <= |before| == |after| && TableAdvances(before, after)
    ensures OccupiedBelow(before, n)
            == OccupiedBelow(after, n) + BytesBecame(before, after, n, Missing) + BytesBecame(before, after, n, Deleted)
  {
    if n == 0 {
    } else {
      assert Advances(before[n - 1], after[n - 1]);
      OccupiedConservation(before, after, n - 1);
    }
  }

  lemma {:induction false} OccupiedPrefix(rows: seq<Blob>, more: seq<Blob>, n: nat)
    requires n <= |rows|
    ensures OccupiedBelow(rows + more, n) == OccupiedBelow(rows, n)
  {
    if n == 0 {
    } else {
      OccupiedPrefix(rows, more, n - 1);
    }
  }

  lemma OccupiedAppend(rows: seq<Blob>, b: Blob)
    ensures OccupiedBytes(rows + [b]) == OccupiedBytes(rows) + Charge(b)
  {
    OccupiedPrefix(rows, [b], |rows|);
  }
}
