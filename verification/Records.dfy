// The resume record on disk (crates/core/src/transfer/record.rs): one JSON file
// per collection hash, replaced atomically through a temporary file.
module Records {
  import opened Basics

  type Hash = string

  datatype Status = InProgress | Done

  datatype TransferRecord = TransferRecord(
    collectionHash: Hash,
    targetDir: string,
    bytesReceived: nat,
    status: Status,
    exported: seq<string>)

  function NewRecord(hash: Hash, targetDir: string): TransferRecord {
    TransferRecord(hash, targetDir, 0, InProgress, [])
  }

  predicate Matches(rec: TransferRecord, hash: Hash, targetDir: string) {
    rec.collectionHash == hash && rec.targetDir == targetDir
  }

  predicate SameButBytes(a: TransferRecord, b: TransferRecord) {
    b == a.(bytesReceived := b.bytesReceived)
  }

  predicate SameButExports(a: TransferRecord, b: TransferRecord) {
    b == a.(exported := b.exported)
  }

  /** What a file under `transfers/` holds: a parseable record, or anything else
      (a half-written temporary file, a corrupted one). */
  datatype FileContent = Garbage | Json(rec: TransferRecord)

  /** The record that a healthy `Load` finds. */
  function Loadable(files: map<Hash, FileContent>, hash: Hash, targetDir: string): Option<TransferRecord> {
    if hash in files && files[hash].Json? && Matches(files[hash].rec, hash, targetDir)
    then Some(files[hash].rec)
    else None
  }

  class RecordStore {
    const reliable: bool
    var files: map<Hash, FileContent>    // <hash>.json
    var temps: map<nat, FileContent>     // .<hash>.<pid>-<n>.tmp, by unique number
    var counter: nat

    constructor (reliable: bool, files: map<Hash, FileContent>, temps: map<nat, FileContent>)
      ensures this.reliable == reliable && this.files == files && this.temps == temps && counter == 0
    {
      this.reliable := reliable;
      this.files := files;
      this.temps := temps;
      counter := 0;
    }

    /** Best effort: an unreadable, corrupt or foreign record is no record. */
    method Load(hash: Hash, targetDir: string) returns (r: Option<TransferRecord>)
      ensures r.Some? ==> r.value.collectionHash == hash && r.value.targetDir == targetDir
      ensures r.Some? ==> hash in files && files[hash] == Json(r.value)
      ensures reliable && hash in files && files[hash].Json? && r.None? ==>
                files[hash].rec.collectionHash != hash || files[hash].rec.targetDir != targetDir
      ensures r.Some? ==> r == Loadable(files, hash, targetDir)
      ensures reliable ==> r == Loadable(files, hash, targetDir)
    {
      var io := Attempt(reliable);
      if !io.Performed? || hash !in files {
        return None;
      }
      match files[hash]
      case Garbage => r := None;
      case Json(rec) => r := if Matches(rec, hash, targetDir) then Some(rec) else None;
    }

    /** Replace the record atomically. Whatever goes wrong, and wherever the
        process dies, the record file holds the old content or the new one; only
        the temporary file of this very call can be left behind, and a stale one
        found in its place is cleared. */
    method Save(rec: TransferRecord) returns (io: Io)
      modifies this
      ensures counter >= old(counter)
      ensures io.Performed? ==> files == old(files)[rec.collectionHash := Json(rec)]
      ensures io.Performed? ==> temps == old(temps) - {old(counter)}
      ensures !io.Performed? ==> files == old(files)
      ensures !io.Performed? ==> temps - {old(counter)} == old(temps) - {old(counter)}
      ensures reliable ==> io.Performed?
    {
      io := Attempt(reliable);                 // create the directory
      if !io.Performed? { return; }
      var tmp := counter;
      counter := counter + 1;
      io := Attempt(reliable);                 // open, creating the file
      if !io.Performed? { return; }
      if tmp in temps {                        // it exists: a crashed run left it
        io := Attempt(reliable);               // clear the stale file
        if !io.Performed? { return; }
        temps := temps - {tmp};
        io := Attempt(reliable);               // open once more
        if !io.Performed? { return; }
      }
      temps := temps[tmp := Garbage];
      io := Attempt(reliable);                 // write
      if !io.Performed? { return; }
      temps := temps[tmp := Json(rec)];
      io := Attempt(reliable);                 // sync
      if !io.Performed? { return; }
      io := Attempt(reliable);                 // rename
      if !io.Performed? { return; }
      files := files[rec.collectionHash := temps[tmp]];
      temps := temps - {tmp};
    }

    method Delete(hash: Hash) returns (io: Io)
      modifies this`files
      ensures io.Performed? ==> files == old(files) - {hash}
      ensures !io.Performed? ==> files == old(files)
      ensures reliable ==> io.Performed?
    {
      io := Attempt(reliable);
      if io.Performed? {
        files := files - {hash};
      }
    }
  }
}
