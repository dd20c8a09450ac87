/** The two callers of the blob store that must leave nothing behind when they fail: an upload, and
    the install section of thumbnail generation.  Interleaving is the subject of ContentProtocol. */
module ContentUploads {
  import opened Wrappers
  import opened ContentBlobs
  import opened ContentStorage

  /** What a successful caller leaves: a committed reference to an active row for exactly these
      bytes, and at most one new row and file, which match each other. */
  twostate predicate Referred(storage: ContentStorageService, session: Session, ref: Reference, blob: nat,
      data: Bytes, key: nat)
    reads storage, session
  {
    && session.Clean()
    && session.references == old(session.references)[ref := blob]
    && blob < |session.rows|
    && session.rows[blob].sha256 == Sha256(data) && session.rows[blob].status == Active
    && if blob < |old(session.rows)|
       then session.rows == old(session.rows) && storage.blobs == old(storage.blobs)
       else
         && blob == |old(session.rows)|
         && session.rows == old(session.rows) + [session.rows[blob]]
         && session.rows[blob].storageKey == key
         && storage.blobs - {StorageKey(key)} == old(storage.blobs)
         && Intact(session.rows[blob], storage.blobs)
         && OccupiedBytes(session.rows) <= storage.maxTotalBytes
  }

  /** What a failed caller leaves: nothing, or, when syncing the directory after the rename failed, the
      one file it had installed, because the caller was never told the key of that file. */
  twostate predicate Untouched(storage: ContentStorageService, session: Session, key: nat, syncFails: bool)
    reads storage, session
  {
    && session.Clean()
    && session.rows == old(session.rows) && session.references == old(session.references)
    && storage.staging == old(storage.staging)
    && storage.blobs - {StorageKey(key)} == old(storage.blobs)
    && (StorageKey(key) in storage.blobs ==> syncFails)
  }

  /** What is left when an operation fails after its commit and its handler still removes the file it had
      installed: a committed reference to an active row, without the file if the row is new. */
  twostate predicate CommittedButRemoved(storage: ContentStorageService, session: Session, ref: Reference, blob: nat,
                                         data: Bytes, key: nat)
    reads storage, session
  {
    && session.Clean()
    && session.references == old(session.references)[ref := blob]
    && blob < |session.rows| && |old(session.rows)| <= |session.rows| <= |old(session.rows)| + 1
    && session.rows[..|old(session.rows)|] == old(session.rows)
    && session.rows[blob].sha256 == Sha256(data) && session.rows[blob].status == Active
    && storage.blobs == old(storage.blobs)
    && (StorageKey(session.rows[blob].storageKey) in storage.blobs <==> blob < |old(session.rows)|)
  }

  /** `create_upload` and `create_replacement`: stage, check hints, install under the lock, write the
      version, commit; on any error roll back and remove what was installed.  `rejected` is the
      outcome of the signature checks.  Releasing the lock or loading the response can still fail after the
      commit (`endFails`): then the caller sees a failure, and everything is committed. */
  method CreateUpload(storage: ContentStorageService, session: Session, stream: seq<Chunk>, version: nat,
                      rejected: bool, mime: string, uuid: nat, key: nat, now: int, f: Faults)
    returns (r: Result<nat, StorageError>)
    requires session.Clean()
    requires Upload(uuid) !in storage.staging && StorageKey(key) !in storage.blobs
    modifies storage, session
    ensures r.Success? ==> !rejected && AllBytes(stream) && 0 < |Payload(stream)| <= storage.maxUploadBytes
    ensures r.Success? ==>
              Referred(storage, session, VersionOf(version), r.value, Payload(stream), key) && !f.endFails
    ensures r == Failure(ResponseFailed) ==>
              && f.endFails && VersionOf(version) in session.references
              && Referred(storage, session, VersionOf(version), session.references[VersionOf(version)],
                  Payload(stream), key)
    ensures r.Success? || r == Failure(ResponseFailed) ==> storage.staging == old(storage.staging)
    ensures r.Failure? && r.error != ResponseFailed ==> Untouched(storage, session, key, f.syncFails)
    ensures !f.ioFails ==>
              && (|Payload(stream)| > storage.maxUploadBytes ==> r == Failure(UploadTooLarge))
              && (AllBytes(stream) && Payload(stream) == [] ==> r == Failure(EmptyContent))
              && (!AllBytes(stream) && |Payload(stream)| <= storage.maxUploadBytes ==> r == Failure(InvalidUpload))
              && (AllBytes(stream) && 0 < |Payload(stream)| <= storage.maxUploadBytes && rejected ==>
                    r == Failure(ValidationError))
    ensures !f.ioFails ==>
              (r.Success? || r == Failure(ResponseFailed) <==>
                 && AllBytes(stream) && 0 < |Payload(stream)| <= storage.maxUploadBytes && !rejected
                 && InstallError(Admit(old(session.rows), old(storage.blobs), Sha256(Payload(stream)),
                                       |Payload(stream)|, storage.maxTotalBytes), f) == None)
    ensures AllBytes(stream) && 0 < |Payload(stream)| <= storage.maxUploadBytes && !rejected && r.Failure?
            && r.error !in {IoError, ResponseFailed} ==>
              InstallError(Admit(old(session.rows), old(storage.blobs), Sha256(Payload(stream)), |Payload(stream)|,
                                 storage.maxTotalBytes), f) == Some(r.error)
  {
    hide OccupiedBytes, FindDigest;
    var staged := storage.StageStream(stream, uuid, now, f.ioFails);
    if staged.Failure? {
      return Failure(staged.error);
    }
    if rejected {
      storage.DiscardStaged(staged.value.name);
      return Failure(ValidationError);
    }
    var installed;
    r, installed := Install(storage, session, staged.value, VersionOf(version), mime, key, now, f);
    storage.DiscardStaged(staged.value.name);
    if r.Success? && f.endFails {
      session.Rollback();
      return Failure(ResponseFailed);
    }
  }

  /** The install section of `generate`: the variant row already exists, only its blob_id is set.  When
      the release of the lock fails after the commit (`endFails`), the handler still knows the key
      of the installed file and removes it. */
  method InstallThumbnail(storage: ContentStorageService, session: Session, payload: Bytes, variant: nat,
                          uuid: nat, key: nat, now: int, f: Faults)
    returns (r: Result<nat, StorageError>)
    requires session.Clean()
    requires Upload(uuid) !in storage.staging && StorageKey(key) !in storage.blobs
    modifies storage, session
    ensures r.Success? ==> Referred(storage, session, VariantOf(variant), r.value, payload, key) && !f.endFails
    ensures r == Failure(ReleaseFailed) ==>
              && f.endFails && VariantOf(variant) in session.references
              && CommittedButRemoved(storage, session, VariantOf(variant), session.references[VariantOf(variant)],
                  payload, key)
    ensures r.Success? || r == Failure(ReleaseFailed) ==> storage.staging == old(storage.staging)
    ensures r.Failure? && r.error != ReleaseFailed ==> Untouched(storage, session, key, f.syncFails)
    ensures !f.ioFails ==>
              (r.Success? || r == Failure(ReleaseFailed) <==>
                 && 0 < |payload| <= storage.maxUploadBytes
                 && InstallError(Admit(old(session.rows), old(storage.blobs), Sha256(payload), |payload|,
                                       storage.maxTotalBytes), f) == None)
  {
    hide OccupiedBytes, FindDigest;
    var stream := [Data(payload)];
    assert Payload(stream) == payload by {
      assert Payload(stream[1..]) == [];
      if payload != [] { assert payload + [] == payload; }
    }
    var staged := storage.StageStream(stream, uuid, now, f.ioFails);
    if staged.Failure? {
      return Failure(staged.error);
    }
    var installed;
    r, installed := Install(storage, session, staged.value, VariantOf(variant), "image/jpeg", key, now, f);
    if r.Failure? {
      storage.DiscardStaged(staged.value.name);
    } else if f.endFails {
      session.Rollback();
      if installed.Some? {
        var ok := storage.RemoveInstalled(installed.value);
      } else {
        storage.DiscardStaged(staged.value.name);
      }
      return Failure(ReleaseFailed);
    }
  }

  /** The section both callers share: admit, write the reference, commit; compensate after rollback.
      The database may refuse any write after the file is in place. */
  method Install(storage: ContentStorageService, session: Session, staged: StagedContent, ref: Reference,
                 mime: string, key: nat, now: int, f: Faults)
    returns (r: Result<nat, StorageError>, installed: Option<nat>)
    requires session.Clean()
    requires StorageKey(key) !in storage.blobs
    requires staged.name in storage.staging && storage.staging[staged.name].safe
    requires staged.sha256 == Sha256(storage.staging[staged.name].data)
    requires staged.sizeBytes == |storage.staging[staged.name].data|
    modifies storage, session
    ensures r.Success? ==> Referred(storage, session, ref, r.value, old(storage.staging)[staged.name].data, key)
    ensures r.Success? ==> storage.staging == old(storage.staging) - {staged.name}
    ensures r.Success? ==> installed == (if r.value < |old(session.rows)| then None else Some(key))
    ensures r.Success? ==> StorageKey(session.rows[r.value].storageKey) in storage.blobs
    ensures var error := InstallError(Admit(old(session.rows), old(storage.blobs), staged.sha256, staged.sizeBytes,
                                            storage.maxTotalBytes), f);
            if error.Some? then r == Failure(error.value) else r.Success?
    ensures r.Failure? ==> r.error != ResponseFailed && r.error != ReleaseFailed && r.error != IoError
    ensures r.Failure? ==>
              && session.Clean() && session.rows == old(session.rows)
              && session.references == old(session.references)
              && storage.blobs - {StorageKey(key)} == old(storage.blobs)
              && (StorageKey(key) in storage.blobs ==> f.syncFails)
    ensures storage.staging - {staged.name} == old(storage.staging) - {staged.name}
  {
    hide OccupiedBytes, FindDigest;
    ghost var rows := session.rows;
    var materialized := storage.MaterializeBlob(session, staged, mime, key, now, f);
    AdmitMeaning(rows, old(storage.blobs), staged.sha256, staged.sizeBytes, storage.maxTotalBytes);
    installed := None;
    if materialized.Failure? {
      session.Rollback();
      return Failure(materialized.error), None;
    }
    installed := materialized.value.installedKey;
    if f.writeFails {
      session.Rollback();
      if installed.Some? {
        var ok := storage.RemoveInstalled(installed.value);
      }
      return Failure(DatabaseError), None;
    }
    session.references := session.references[ref := materialized.value.blob];
    session.Commit();
    if installed.Some? {
      OccupiedAppend(rows, session.rows[|rows|]);
    }
    return Success(materialized.value.blob), installed;
  }

  /** The three admission answers, read back from the table. */
  lemma AdmitMeaning(rows: seq<Blob>, files: map<BlobName, File>, d: Digest, size: nat, quota: nat)
    ensures match Admit(rows, files, d, size, quota)
            case Reuse(i) =>
              && i < |rows| && rows[i].sha256 == d && rows[i].status == Active
              && var name := StorageKey(rows[i].storageKey);
                 name in files && files[name].safe && |files[name].data| == rows[i].sizeBytes
            case Install =>
              && (forall i :: 0 <= i < |rows| ==> rows[i].sha256 != d)
              && OccupiedBytes(rows) + size <= quota
            case Refuse(e) =>
              || (e == StorageFull && OccupiedBytes(rows) + size > quota && forall i :: 0 <= i < |rows| ==>
                  rows[i].sha256 != d)
              || exists i :: 0 <= i < |rows| && rows[i].sha256 == d
                             && var name := StorageKey(rows[i].storageKey);
                                if rows[i].status != Active then e == BlobUnavailable
                                else if name !in files then e == BlobMissing
                                else if !files[name].safe then e == BlobUnsafe
                                else e == BlobInvalid && |files[name].data| != rows[i].sizeBytes
  {
    var found := FindDigest(rows, d);
    if found.Some? {
      assert rows[found.value].sha256 == d;
    }
  }
}
