/** The policy cache on disk: written to a temporary file, then renamed over the old one
    (internal/platform/authz/snapshot.go). */
module Snapshot {
  import opened Wrappers
  import opened GoTime
  import opened Policy

  type FileData = seq<bv8>

  type Files = map<string, FileData>

  datatype Snapshot = Snapshot(syncedAt: Time, policies: seq<Rule>)

  /** JSON encoding and decoding. Marshalling can fail (a year JSON cannot express). */
  datatype Codec = Codec(marshal: Snapshot -> Option<FileData>, unmarshal: FileData -> Option<Snapshot>)

  /** What the codec is assumed to do: decoding undoes encoding. */
  ghost predicate Faithful(codec: Codec) {
    forall s: Snapshot, b: FileData | codec.marshal(s) == Some(b) :: codec.unmarshal(b) == Some(s)
  }

  datatype AuthzError =
    | AddPolicyFailed
    | SaveFailed
    | SnapshotUnreadable
    | SnapshotMissingTime
    | FetchFailed
    | ProcessCrashed

  /** How one save goes: to the end, or stopped before or inside one of its steps. A stop
      is an error the step returns or, when crash is set, the end of the process. A write
      that stops has already put some prefix of the data in the temporary file. */
  datatype SaveFate =
    | Completes(crashAfter: bool)
    | StopsAtMkdir(crash: bool)
    | StopsAtMarshal(crash: bool)
    | StopsInWrite(written: nat, crash: bool)
    | StopsAtRename(crash: bool)

  function TempPath(path: string): string {
    path + ".tmp"
  }

  predicate Crashes(fate: SaveFate) {
    if fate.Completes? then fate.crashAfter else fate.crash
  }

  /** Whether the rename happens. */
  predicate SaveCompletes(path: string, data: Option<FileData>, fate: SaveFate) {
    path != "" && data.Some? && fate.Completes?
  }

  /** What the caller of a save is told. */
  function SaveOutcome(path: string, data: Option<FileData>, fate: SaveFate): Result<(), AuthzError> {
    if path == "" then Ok(())
    else if Crashes(fate) then Err(ProcessCrashed)
    else if SaveCompletes(path, data, fate) then Ok(())
    else Err(SaveFailed)
  }

  class Disk {
    var files: Files

    constructor (initial: Files)
      ensures files == initial
    {
      files := initial;
    }

    /** os.WriteFile: truncate, then write; it may stop part-way. */
    method WriteFile(path: string, data: FileData, written: nat)
      modifies this
      ensures files == old(files)[path := if written < |data| then data[..written] else data]
    {
      files := files[path := []];
      files := files[path := if written < |data| then data[..written] else data];
    }

    /** os.Rename: atomic. */
    method Rename(src: string, dst: string)
      requires src in files && src != dst
      modifies this
      ensures files == (old(files) - {src})[dst := old(files)[src]]
    {
      var data := files[src];
      files := (files - {src})[dst := data];
    }

    /** saveSnapshot */
    method SaveSnapshot(path: string, s: Snapshot, codec: Codec, fate: SaveFate) returns (r: Result<(), AuthzError>)
      modifies this
      ensures files == FilesAfterSave(old(files), path, codec.marshal(s), fate)
      ensures r == SaveOutcome(path, codec.marshal(s), fate)
    {
      if path == "" {
        return Ok(());
      }
      var stopped := if Crashes(fate) then ProcessCrashed else SaveFailed;
      if fate.StopsAtMkdir? {
        return Err(stopped);
      }
      var data := codec.marshal(s);
      if data.None? || fate.StopsAtMarshal? {
        return Err(stopped);
      }
      var tmp := TempPath(path);
      WriteFile(tmp, data.value, if fate.StopsInWrite? then fate.written else |data.value|);
      if fate.StopsInWrite? || fate.StopsAtRename? {
        return Err(stopped);
      }
      Rename(tmp, path);
      r := if fate.crashAfter then Err(ProcessCrashed) else Ok(());
    }

    /** loadSnapshot; a missing file is no snapshot and no error, any other failure to read is
        one. readFails says that the system cannot read the file, if it is there or not. */
    method LoadSnapshot(path: string, codec: Codec, readFails: bool) returns (r: Result<Option<Snapshot>, AuthzError>)
      ensures r == Loaded(files, path, codec, readFails)
    {
      if path == "" {
        return Ok(None);
      }
      if readFails {
        return Err(SnapshotUnreadable);
      }
      if path !in files {
        return Ok(None);
      }
      var s := codec.unmarshal(files[path]);
      if s.None? {
        return Err(SnapshotUnreadable);
      }
      if s.value.syncedAt == 0 {
        return Err(SnapshotMissingTime);
      }
      r := Ok(Some(s.value));
    }
  }

  function FilesAfterSave(files: Files, path: string, data: Option<FileData>, fate: SaveFate): Files {
    var tmp := TempPath(path);
    if path == "" || fate.StopsAtMkdir? || data.None? || fate.StopsAtMarshal? then files
    else if fate.StopsInWrite? && fate.written < |data.value| then files[tmp := data.value[..fate.written]]
    else if fate.StopsInWrite? || fate.StopsAtRename? then files[tmp := data.value]
    else (files - {tmp})[path := data.value]
  }

  function Loaded(files: Files, path: string, codec: Codec, readFails: bool): Result<Option<Snapshot>, AuthzError> {
    if path == "" then Ok(None)
    else if readFails then Err(SnapshotUnreadable)
    else if path !in files then Ok(None)
    else
      var s := codec.unmarshal(files[path]);
      if s.None? then Err(SnapshotUnreadable)
      else if s.value.syncedAt == 0 then Err(SnapshotMissingTime)
      else Ok(s)
  }

  /** Wherever a save stops, its path holds the whole old file or the whole new one, the
      new one exactly when the save completed; only the path and its temporary differ. */
  lemma SaveIsAllOrNothing(files: Files, path: string, data: Option<FileData>, fate: SaveFate)
    ensures var after := FilesAfterSave(files, path, data, fate);
            && (SaveCompletes(path, data, fate) ==> path in after && after[path] == data.value)
            && (!SaveCompletes(path, data, fate) ==>
                (path in after <==> path in files) && (path in files ==> after[path] == files[path]))
            && (forall q | q != path && q != TempPath(path) ::
                (q in after <==> q in files) && (q in files ==> after[q] == files[q]))
  {
    assert |TempPath(path)| == |path| + 4;
  }

  /** A save reports success exactly when persistence is off, or all its steps are done and the
      process lives on; every other end is an error or the end of the process. */
  lemma SaveReports(path: string, data: Option<FileData>, fate: SaveFate)
    ensures SaveOutcome(path, data, fate).Ok? <==> path == "" || (data.Some? && fate == Completes(false))
    ensures SaveOutcome(path, data, fate).Err? ==>
            SaveOutcome(path, data, fate).error == if Crashes(fate) then ProcessCrashed else SaveFailed
  {
  }

  /** What a load finds: nothing without a path or a file, otherwise the decoded file, unless it
      cannot be read or decoded or has no time. */
  lemma LoadsExactly(files: Files, path: string, codec: Codec, readFails: bool, s: Snapshot)
    ensures Loaded(files, path, codec, readFails) == Ok(None) <==> path == "" || (!readFails && path !in files)
    ensures Loaded(files, path, codec, readFails) == Ok(Some(s)) <==>
            path != "" && !readFails && path in files && codec.unmarshal(files[path]) == Some(s) && s.syncedAt != 0
    ensures Loaded(files, path, codec, readFails) == Err(SnapshotMissingTime) <==>
            path != "" && !readFails && path in files && codec.unmarshal(files[path]).Some?
            && codec.unmarshal(files[path]).value.syncedAt == 0
    ensures Loaded(files, path, codec, readFails) == Err(SnapshotUnreadable) <==>
            path != "" && (readFails || (path in files && codec.unmarshal(files[path]).None?))
  {
  }

  /** A save that runs to its end leaves the data under its path and no temporary file; one that
      does not leaves the path alone. */
  lemma SavesExactly(files: Files, path: string, data: Option<FileData>, fate: SaveFate)
    requires path != ""
    ensures var after := FilesAfterSave(files, path, data, fate);
            if data.Some? && fate.Completes? then path in after && after[path] == data.value && path + ".tmp" !in after
            else (path in after <==> path in files) && (path in files ==> after[path] == files[path])
  {
    assert |path + ".tmp"| == |path| + 4;
  }
}
