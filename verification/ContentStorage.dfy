/** The private blob store: staging, admission, verification, reconciliation and cleanup, in place
    over a blob directory, a staging directory and one database session. */
module ContentStorage {
  import opened Wrappers
  import opened ContentBlobs

  const CHUNK := 1024 * 1024

  /** One value returned by the upload stream's read. */
  datatype Chunk = Data(bytes: Bytes) | NotBytes

  datatype StagedContent = StagedContent(name: StagingName, sha256: Digest, sizeBytes: nat)

  datatype BlobMaterialization = BlobMaterialization(blob: nat, created: bool, installedKey: Option<nat>)

  datatype ReconciliationResult = ReconciliationResult(
    removedStagingFiles: nat, missingBlobs: nat, orphanedRows: nat,
    uncertainStaging: set<StagingName>, uncertainBlobs: set<BlobName>)

  datatype CleanupResult = CleanupResult(
    removedStagingFiles: nat, deletedOrphanBlobs: nat, bytesReclaimed: nat, missingBlobs: nat,
    uncertainStaging: set<StagingName>, uncertainBlobs: set<BlobName>)

  /** What goes wrong in one call: a write or sync of the staging file (`ioFails` allows any of them to fail),
      the rename into the blob directory, its sync, the flush of the new row, the write or commit of the
      reference, and whatever comes after the commit. */
  datatype Faults = Faults(ioFails: bool, renameFails: bool, syncFails: bool, flushFails: bool, writeFails: bool,
                           endFails: bool)

  /** The error of an install under the lock, if there is one. */
  function InstallError(a: Admission, f: Faults): Option<StorageError> {
    match a
    case Refuse(e) => Some(e)
    case Reuse(_) => if f.writeFails then Some(DatabaseError) else None
    case Install =>
      if f.renameFails || f.syncFails then Some(StorageUnavailable)
      else if f.flushFails || f.writeFails then Some(DatabaseError)
      else None
  }

  // ----- what an upload stream contains -----

  /** Reading stops at the first empty chunk. */
  predicate IsEnd(stream: seq<Chunk>) {
    stream == [] || stream[0] == Data([])
  }

  predicate AllBytes(stream: seq<Chunk>) {
    IsEnd(stream) || (stream[0].Data? && AllBytes(stream[1..]))
  }

  function Payload(stream: seq<Chunk>): Bytes {
    if IsEnd(stream) || stream[0].NotBytes? then [] else stream[0].bytes + Payload(stream[1..])
  }

  function Reconciled(rows: seq<Blob>, files: map<BlobName, File>, references: map<Reference, nat>,
      now: int)
    : (r: seq<Blob>)
    ensures |r| == |rows|
  {
    ReconcileRows(rows, references.Values, files, now)
  }

  /** One database session: the working rows and references, and the last committed ones. */
  class Session {
    var rows: seq<Blob>
    var references: map<Reference, nat>
    var committedRows: seq<Blob>
    var committedReferences: map<Reference, nat>

    ghost predicate Clean()
      reads this
    {
      rows == committedRows && references == committedReferences
    }

    method Commit()
      modifies this`committedRows, this`committedReferences
      ensures Clean()
    {
      committedRows, committedReferences := rows, references;
    }

    method Rollback()
      modifies this`rows, this`references
      ensures Clean()
      ensures rows == committedRows && references == committedReferences
    {
      rows, references := committedRows, committedReferences;
    }
  }

  class ContentStorageService {
    const maxUploadBytes: nat
    const maxTotalBytes: nat
    var blobs: map<BlobName, File>
    var staging: map<StagingName, File>

    constructor (maxUploadBytes: nat, maxTotalBytes: nat)
      requires 0 < maxUploadBytes <= maxTotalBytes
      ensures this.maxUploadBytes == maxUploadBytes && this.maxTotalBytes == maxTotalBytes
      ensures blobs == map[] && staging == map[]
    {
      this.maxUploadBytes, this.maxTotalBytes := maxUploadBytes, maxTotalBytes;
      blobs, staging := map[], map[];
    }

    /** Streams an upload into a new staging file.  Each write may take any positive part of what is left.
        Without input and output errors the answer is determined by the stream. */
    method StageStream(stream: seq<Chunk>, uuid: nat, now: int, ioFails: bool)
      returns (r: Result<StagedContent, StorageError>)
      requires Upload(uuid) !in staging
      modifies this`staging
      ensures r.Success? ==>
                && AllBytes(stream) && 0 < |Payload(stream)| <= maxUploadBytes
                && r.value == StagedContent(Upload(uuid), Sha256(Payload(stream)), |Payload(stream)|)
                && staging == old(staging)[Upload(uuid) := File(Payload(stream), now, true)]
      ensures r.Failure? ==> staging == old(staging)
      ensures r == Failure(IoError) ==> ioFails
      ensures !ioFails ==> (r.Success? <==> AllBytes(stream) && 0 < |Payload(stream)| <= maxUploadBytes)
      ensures r.Failure? && r.error != IoError ==>
                && (r.error == EmptyContent ==> AllBytes(stream) && Payload(stream) == [])
                && (r.error == InvalidUpload ==> !AllBytes(stream) && |Payload(stream)| <= maxUploadBytes)
                && (r.error == UploadTooLarge ==> |Payload(stream)| > maxUploadBytes)
                && r.error in {EmptyContent, InvalidUpload, UploadTooLarge}
    {
      var name := Upload(uuid);
      staging := staging[name := File([], now, true)];
      var size := 0;
      var digest := Sha256([]);
      var rest := stream;
      var error: Option<StorageError> := None;
      while error.None? && !IsEnd(rest)
        invariant name in staging && staging - {name} == old(staging)
        invariant error.None? ==>
                    && digest == Sha256(staging[name].data) && size == |staging[name].data|
                    && staging[name] == File(staging[name].data, now, true)
                    && Payload(stream) == staging[name].data + Payload(rest)
                    && size <= maxUploadBytes
                    && AllBytes(stream) == AllBytes(rest)
        invariant error == Some(UploadTooLarge) ==> |Payload(stream)| > maxUploadBytes
        invariant error == Some(InvalidUpload) ==> !AllBytes(stream) && |Payload(stream)| <= maxUploadBytes
        invariant error.Some? ==> error.value in {IoError, InvalidUpload, UploadTooLarge}
        invariant error == Some(IoError) ==> ioFails
        decreases |rest|, error.None?
      {
        var chunk := rest[0];
        if chunk.NotBytes? {
          error := Some(InvalidUpload);
          assert Payload(rest) == [];
        } else {
          size := size + |chunk.bytes|;
          if size > maxUploadBytes {
            error := Some(UploadTooLarge);
          } else {
            digest := Sha256(digest.preimage + chunk.bytes);
            error := WriteAll(name, chunk.bytes, ioFails);
            rest := rest[1..];
          }
        }
      }
      if error.None? && size == 0 {
        error := Some(EmptyContent);
      }
      if error.None? && ioFails {
        var syncFails: bool := *;
        error := if syncFails then Some(IoError) else None;
      }
      if error.Some? {
        staging := staging - {name};
        return Failure(error.value);
      }
      return Success(StagedContent(name, digest, size));
    }

    /** Appends `bytes` to a staging file through writes of arbitrary positive length. */
    method WriteAll(name: StagingName, bytes: Bytes, ioFails: bool) returns (error: Option<StorageError>)
      requires name in staging
      modifies this`staging
      ensures name in staging && staging - {name} == old(staging) - {name}
      ensures error.None? ==>
                staging == old(staging)[name := old(staging)[name].(data := old(staging)[name].data + bytes)]
      ensures error.Some? ==> error.value == IoError && ioFails
    {
      var view := bytes;
      while view != []
        invariant name in staging && staging == old(staging)[name := staging[name]]
        invariant staging[name] == old(staging)[name].(data := staging[name].data)
        invariant staging[name].data + view == old(staging)[name].data + bytes
        decreases |view|
      {
        var fails: bool := *;
        if fails && ioFails {
          return Some(IoError);
        }
        var written: nat :| 1 <= written <= |view|;
        staging := staging[name := staging[name].(data := staging[name].data + view[..written])];
        view := view[written..];
      }
      error := None;
      assert staging[name].data + view == staging[name].data;
    }

    /** Checks the managed bytes against the row by reading them in pieces of any positive length. */
    method VerifyBlob(b: Blob) returns (r: Result<BlobName, StorageError>)
      ensures var name := StorageKey(b.storageKey);
              r == if name !in blobs then Failure(BlobMissing)
                   else if !blobs[name].safe then Failure(BlobUnsafe)
                   else if |blobs[name].data| != b.sizeBytes || Sha256(blobs[name].data) != b.sha256
                   then Failure(BlobInvalid)
                   else Success(name)
    {
      var path := PathFor(b, blobs);
      if path.Failure? {
        return path;
      }
      var data := blobs[path.value].data;
      var digest := Sha256([]);
      var size := 0;
      while size < |data|
        invariant 0 <= size <= |data|
        invariant digest == Sha256(data[..size])
        decreases |data| - size
      {
        var got: nat :| 1 <= got <= CHUNK && size + got <= |data|;
        digest := Sha256(digest.preimage + data[size..size + got]);
        assert data[..size] + data[size..size + got] == data[..size + got];
        size := size + got;
      }
      assert data[..size] == data;
      if size != b.sizeBytes || digest != b.sha256 {
        return Failure(BlobInvalid);
      }
      return path;
    }

    method DiscardStaged(name: StagingName)
      modifies this`staging
      ensures staging == old(staging) - {name}
    {
      staging := staging - {name};
    }

    /** Removes a blob file; an absent one is not an error, an unsafe one is left alone. */
    method RemoveInstalled(key: nat) returns (ok: bool)
      modifies this`blobs
      ensures ok == (StorageKey(key) in old(blobs) ==> old(blobs)[StorageKey(key)].safe)
      ensures blobs == if ok then old(blobs) - {StorageKey(key)} else old(blobs)
    {
      if StorageKey(key) in blobs && !blobs[StorageKey(key)].safe {
        return false;
      }
      blobs := blobs - {StorageKey(key)};
      return true;
    }

    /** Reuses the row with the staged digest or installs one new file and row.  `key` and `now` are the fresh
        uuid and the clock. */
    method MaterializeBlob(session: Session, staged: StagedContent, mime: string, key: nat, now: int, f: Faults)
      returns (r: Result<BlobMaterialization, StorageError>)
      requires StorageKey(key) !in blobs
      requires staged.name in staging ==> staging[staged.name].safe
      modifies this`blobs, this`staging, session`rows
      ensures match Admit(old(session.rows), old(blobs), staged.sha256, staged.sizeBytes, maxTotalBytes)
              case Refuse(e) =>
                r == Failure(e) && blobs == old(blobs) && staging == old(staging) && session.rows == old(session.rows)
              case Reuse(i) =>
                && r == Success(BlobMaterialization(i, false, None))
                && blobs == old(blobs) && session.rows == old(session.rows)
                && staging == old(staging) - {staged.name}
              case Install =>
                if f.renameFails || staged.name !in old(staging) then
                  && r == Failure(StorageUnavailable) && blobs == old(blobs) && staging == old(staging)
                  && session.rows == old(session.rows)
                else if f.syncFails then
                  && r == Failure(StorageUnavailable) && session.rows == old(session.rows)
                  && blobs == old(blobs)[StorageKey(key) := old(staging)[staged.name]]
                  && staging == old(staging) - {staged.name}
                else if f.flushFails then
                  && r == Failure(DatabaseError) && session.rows == old(session.rows)
                  && blobs == old(blobs) && staging == old(staging) - {staged.name}
                else
                  && r == Success(BlobMaterialization(|old(session.rows)|, true, Some(key)))
                  && blobs == old(blobs)[StorageKey(key) := old(staging)[staged.name]]
                  && staging == old(staging) - {staged.name}
                  && session.rows == old(session.rows)
                       + [Blob(key, staged.sha256, staged.sizeBytes, mime, Active, Some(now))]
    {
      var existing := FindDigest(session.rows, staged.sha256);
      if existing.Some? {
        var row := session.rows[existing.value];
        if row.status != Active {
          return Failure(BlobUnavailable);
        }
        var path := PathFor(row, blobs);
        if path.Failure? {
          return Failure(path.error);
        }
        DiscardStaged(staged.name);
        return Success(BlobMaterialization(existing.value, false, None));
      }
      if OccupiedBytes(session.rows) + staged.sizeBytes > maxTotalBytes {
        return Failure(StorageFull);
      }
      if f.renameFails || staged.name !in staging {
        return Failure(StorageUnavailable);
      }
      blobs := blobs[StorageKey(key) := staging[staged.name]];
      staging := staging - {staged.name};
      if f.syncFails {
        return Failure(StorageUnavailable);
      }
      var blob := Blob(key, staged.sha256, staged.sizeBytes, mime, Active, Some(now));
      if f.flushFails {
        var ok := RemoveInstalled(key);
        return Failure(DatabaseError);
      }
      session.rows := session.rows + [blob];
      return Success(BlobMaterialization(|session.rows| - 1, true, Some(key)));
    }

    /** The reconciliation pass, run under the maintenance lock. */
    method ReconcileLocked(session: Session, current: int, stagingAge: int) returns (r: ReconciliationResult)
      modifies this`staging, session`rows, session`committedRows, session`committedReferences
      ensures StaleRemoved(old(staging), staging, current, stagingAge)
      ensures session.rows == Reconciled(old(session.rows), blobs, session.references, current)
      ensures session.Clean()
      ensures r.removedStagingFiles == |old(staging).Keys - staging.Keys|
      ensures r.missingBlobs == CountBecame(old(session.rows), session.rows, |old(session.rows)|, Missing)
      ensures r.orphanedRows == CountBecame(old(session.rows), session.rows, |old(session.rows)|, Orphaned)
      ensures r.uncertainStaging == staging.Keys
      ensures r.uncertainBlobs == UncertainBlobs(old(session.rows), blobs)
    {
      var removed, uncertain := ScanStaging(current, stagingAge);
      var missing, orphaned, suspects := ScanRows(session, session.references.Values, current);
      ghost var before := old(session.rows);
      ReconcileKeepsKeys(before, session.references.Values, blobs, current, |before|);
      var names := blobs.Keys - KnownNames(session.rows, |session.rows|);
      session.Commit();
      r := ReconciliationResult(removed, missing, orphaned, uncertain, suspects + names);
    }

    method ScanStaging(current: int, stagingAge: int) returns (removed: nat, uncertain: set<StagingName>)
      modifies this`staging
      ensures StaleRemoved(old(staging), staging, current, stagingAge)
      ensures removed == |old(staging).Keys - staging.Keys|
      ensures uncertain == staging.Keys
    {
      var todo := staging.Keys;
      removed, uncertain := 0, {};
      while todo != {}
        invariant todo <= staging.Keys <= old(staging).Keys
        invariant forall n :: n in old(staging) && n !in todo ==>
                    (n in staging <==> !StaleStaging(n, old(staging)[n], current, stagingAge))
        invariant forall n :: n in staging ==> staging[n] == old(staging)[n]
        invariant removed == |old(staging).Keys - staging.Keys|
        invariant uncertain == staging.Keys - todo
        decreases todo
      {
        var entry :| entry in todo;
        todo := todo - {entry};
        if StaleStaging(entry, staging[entry], current, stagingAge) {
          assert old(staging).Keys - (staging.Keys - {entry}) == (old(staging).Keys - staging.Keys) + {entry};
          staging := staging - {entry};
          removed := removed + 1;
        } else {
          uncertain := uncertain + {entry};
        }
      }
    }

    /** The loop body of the pass over the rows. */
    method ReconcileOne(session: Session, i: nat, referenced: set<nat>, current: int)
      returns (missing: bool, orphaned: bool, suspect: bool)
      requires i < |session.rows|
      modifies session`rows
      ensures var b := old(session.rows)[i];
              var after := ReconcileRow(b, i in referenced, blobs, current);
              && session.rows == old(session.rows)[i := after]
              && missing == Became(b, after, Missing) && orphaned == Became(b, after, Orphaned)
              && suspect == SuspectRow(b, blobs)
    {
      missing, orphaned, suspect := false, false, false;
      var b := session.rows[i];
      var name := StorageKey(b.storageKey);
      if name !in blobs {
        if b.status == Active || b.status == Orphaned {
          session.rows := session.rows[i := b.(status := Missing, verifiedAt := Some(current))];
          missing := true;
        }
      } else if !blobs[name].safe || |blobs[name].data| != b.sizeBytes {
        suspect := true;
      } else if b.status == Active && i !in referenced {
        session.rows := session.rows[i := b.(status := Orphaned, verifiedAt := Some(current))];
        orphaned := true;
      }
    }

    method ScanRows(session: Session, referenced: set<nat>, current: int)
        returns (missing: nat, orphaned: nat, suspects: set<BlobName>)
      modifies session`rows
      ensures session.rows == ReconcileRows(old(session.rows), referenced, blobs, current)
      ensures missing == CountBecame(old(session.rows), session.rows, |old(session.rows)|, Missing)
      ensures orphaned == CountBecame(old(session.rows), session.rows, |old(session.rows)|, Orphaned)
      ensures suspects == SuspectNames(old(session.rows), blobs, |old(session.rows)|)
    {
      ghost var rows := session.rows;
      missing, orphaned, suspects := 0, 0, {};
      ghost var all := ReconcileRows(rows, referenced, blobs, current);
      var i := 0;
      while i < |session.rows|
        invariant 0 <= i <= |rows| == |session.rows|
        invariant forall k :: 0 <= k < |rows| ==> session.rows[k] == if k < i then all[k] else rows[k]
        invariant missing == CountBecame(rows, all, i, Missing)
        invariant orphaned == CountBecame(rows, all, i, Orphaned)
        invariant suspects == SuspectNames(rows, blobs, i)
      {
        var key := session.rows[i].storageKey;
        var m, o, s := ReconcileOne(session, i, referenced, current);
        missing := missing + if m then 1 else 0;
        orphaned := orphaned + if o then 1 else 0;
        suspects := suspects + if s then {StorageKey(key)} else {};
        i := i + 1;
      }
      assert session.rows == all;
    }

    /** Reconciles, then removes the files of aged orphans.  `reconciled` is the table between the two. */
    method Cleanup(session: Session, current: int, stagingAge: int, orphanGrace: int)
      returns (r: CleanupResult, ghost reconciled: seq<Blob>)
      requires UniqueKeys(session.rows)
      modifies this, session`rows, session`committedRows, session`committedReferences
      ensures session.Clean() && session.references == old(session.references)
      ensures StaleRemoved(old(staging), staging, current, stagingAge)
      ensures reconciled == Reconciled(old(session.rows), old(blobs), session.references, current)
      ensures session.rows
              == SweepRows(reconciled, session.references.Values, old(blobs), current - orphanGrace, current)
      ensures blobs
              == SweepFiles(reconciled, |reconciled|, session.references.Values, old(blobs), current - orphanGrace)
      ensures r.deletedOrphanBlobs == CountBecame(reconciled, session.rows, |reconciled|, Deleted)
      ensures r.bytesReclaimed == BytesBecame(reconciled, session.rows, |reconciled|, Deleted)
      ensures r.missingBlobs == CountBecame(old(session.rows), reconciled, |reconciled|, Missing)
      ensures r.uncertainStaging == staging.Keys
      ensures r.uncertainBlobs == UncertainBlobs(old(session.rows), old(blobs))
    {
      hide SweepFiles, SweepRows, ReconcileBelow, CountBecame, BytesBecame, DistinctKeys, UncertainBlobs;
      var cutoff := current - orphanGrace;
      var reconciliation := ReconcileLocked(session, current, stagingAge);
      reconciled := session.rows;
      ReconcileKeepsUniqueKeys(old(session.rows), session.references.Values, blobs, current);
      var deleted, released := SweepOrphans(session, session.references.Values, cutoff, current);
      session.Commit();
      r := CleanupResult(reconciliation.removedStagingFiles, deleted, released,
                         reconciliation.missingBlobs,
                         reconciliation.uncertainStaging, reconciliation.uncertainBlobs);
    }

    /** The loop body of the sweep. */
    method SweepOne(session: Session, i: nat, referenced: set<nat>, cutoff: int, current: int) returns (deleted: bool)
      requires i < |session.rows|
      modifies this`blobs, session`rows
      ensures var b := old(session.rows)[i];
              && deleted == (Candidate(b, i in referenced, cutoff) && Removable(b, old(blobs)))
              && session.rows == old(session.rows)[i := SweepRow(b, i in referenced, old(blobs), cutoff, current)]
              && blobs == old(blobs) - if deleted then {StorageKey(b.storageKey)} else {}
    {
      deleted := false;
      var b := session.rows[i];
      if Aged(b, cutoff) && i !in referenced {
        deleted := RemoveInstalled(b.storageKey);
        if deleted {
          session.rows := session.rows[i := b.(status := Deleted, verifiedAt := Some(current))];
        }
      }
    }

    method SweepOrphans(session: Session, referenced: set<nat>, cutoff: int, current: int)
        returns (deleted: nat, released: nat)
      requires UniqueKeys(session.rows)
      modifies this`blobs, session`rows
      ensures session.rows == SweepRows(old(session.rows), referenced, old(blobs), cutoff, current)
      ensures blobs == SweepFiles(old(session.rows), |old(session.rows)|, referenced, old(blobs), cutoff)
      ensures deleted == CountBecame(old(session.rows), session.rows, |old(session.rows)|, Deleted)
      ensures released == BytesBecame(old(session.rows), session.rows, |old(session.rows)|, Deleted)
    {
      ghost var files := blobs;
      ghost var rows := session.rows;
      deleted, released := 0, 0;
      var i := 0;
      ghost var all := SweepRows(rows, referenced, files, cutoff, current);
      while i < |session.rows|
        invariant 0 <= i <= |rows| == |session.rows|
        invariant forall k :: 0 <= k < |rows| ==> session.rows[k] == if k < i then all[k] else rows[k]
        invariant blobs == SweepFiles(rows, i, referenced, files, cutoff)
        invariant deleted == CountBecame(rows, all, i, Deleted)
        invariant released == BytesBecame(rows, all, i, Deleted)
      {
        var size := session.rows[i].sizeBytes;
        SweepFinds(rows, i, referenced, files, cutoff);
        ghost var b := session.rows[i];
        assert b == rows[i];
        var swept := SweepOne(session, i, referenced, cutoff, current);
        assert swept == (Candidate(b, i in referenced, cutoff) && Removable(b, files)) == Became(b, all[i], Deleted);
        assert session.rows[i] == all[i];
        deleted := deleted + if swept then 1 else 0;
        released := released + if swept then size else 0;
        i := i + 1;
      }
      assert session.rows == all;
    }
  }
}
