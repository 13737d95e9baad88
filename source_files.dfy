/**
 * `SourceFiles` (asset_server/src/source_files.rs): the known source files
 * with their timestamps, read under optimistic snapshots. A reader takes a
 * snapshot lock carrying the current global version; a file whose own
 * version is newer than the lock was changed after the snapshot and reads
 * as `VersionChanged`.
 */
module SourceFiles {
  import opened Wrappers
  import opened FileChange
  import opened AssetCompilation

  /** `u64::MAX + 1`: `fetch_add` on an `AtomicU64` wraps around. */
  const U64_MODULUS: nat := 0x1_0000_0000_0000_0000

  datatype SourceFileData = SourceFileData(timestamp: FileTimestamp, snapshotVersion: nat)

  /** `SnapshotLock`: the version a reader saw. */
  datatype SnapshotLock = SnapshotLock(version: nat)

  datatype SnapshotReadError = VersionChanged | NotFound

  class SourceFiles {
    var snapshotVersion: nat
    var files: map<SourceFileRef, SourceFileData>

    /** Every given file starts at version 0, and so does the global version. */
    constructor (filesMap: map<SourceFileRef, FileTimestamp>)
      ensures snapshotVersion == 0
      ensures files.Keys == filesMap.Keys
      ensures forall f | f in files :: files[f] == SourceFileData(filesMap[f], 0)
    {
      snapshotVersion := 0;
      files := map f | f in filesMap :: SourceFileData(filesMap[f], 0);
    }

    /** `take_snapshot`: the current version, then the version moves one on (wrapping at 2^64). */
    method TakeSnapshot() returns (lock: SnapshotLock)
      requires snapshotVersion < U64_MODULUS
      modifies this
      ensures lock.version == old(snapshotVersion)
      ensures snapshotVersion == (old(snapshotVersion) + 1) % U64_MODULUS
      ensures files == old(files)
    {
      lock := SnapshotLock(snapshotVersion);
      snapshotVersion := (snapshotVersion + 1) % U64_MODULUS;
    }

    /** `get`: the file's timestamp when the file is no newer than the lock. */
    function Get(lock: SnapshotLock, file: SourceFileRef): (r: Result<FileTimestamp, SnapshotReadError>)
      reads this
      ensures r == Err(NotFound) <==> file !in files
      ensures r.Ok? <==> file in files && files[file].snapshotVersion <= lock.version
      ensures r.Ok? ==> r.value == files[file].timestamp
    {
      if file !in files then Err(NotFound)
      else if files[file].snapshotVersion <= lock.version then Ok(files[file].timestamp)
      else Err(VersionChanged)
    }
  }

  /**
   * Files as `new` leaves them can be read under every lock, with the
   * timestamp they were given; unknown files are not found.
   */
  lemma FreshFilesReadUnderAnyLock(sf: SourceFiles, filesMap: map<SourceFileRef, FileTimestamp>,
                                   lock: SnapshotLock, file: SourceFileRef)
    requires sf.files.Keys == filesMap.Keys
    requires forall f | f in sf.files :: sf.files[f] == SourceFileData(filesMap[f], 0)
    ensures file in filesMap ==> sf.Get(lock, file) == Ok(filesMap[file])
    ensures file !in filesMap ==> sf.Get(lock, file) == Err(NotFound)
  {
  }

  /**
   * A later lock reads at least what an earlier one could: a file readable
   * under version `v` stays readable, with the same timestamp, under any
   * version `w >= v`.
   */
  lemma LaterLocksSeeMore(sf: SourceFiles, v: nat, w: nat, file: SourceFileRef)
    requires v <= w && sf.Get(SnapshotLock(v), file).Ok?
    ensures sf.Get(SnapshotLock(w), file) == sf.Get(SnapshotLock(v), file)
  {
  }
}
