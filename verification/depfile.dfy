/**
 * Dependency files: a path, the fingerprint the client believes the file
 * has, and its bytes. The three historical copies of this code (the
 * `dependency` package, the root package and the `models` package) share
 * one behaviour for snapshots, fingerprint checks, refresh and patching,
 * which is modelled once here; their lookup and directory-scan rules differ
 * and are modelled one by one.
 */
module DependencyFiles {
  import opened Text
  import opened Errors
  import opened GitBlob
  import opened Host

  datatype DepFile = DepFile(path: string, sha: string, content: seq<byte>)

  /** The recorded fingerprint is that of the recorded bytes. */
  predicate Consistent(sha1: Hasher, df: DepFile) {
    df.sha == Fingerprint(sha1, df.content)
  }

  /** `GetFileSHA1`: the fingerprint of the file's current bytes. */
  function GetFileSHA1(sha1: Hasher, disk: FileSystem, path: string): (r: Result<string, Error>)
    ensures r.Ok? <==> path in disk
    ensures r.Err? ==> r.error == ReadFailed(path)
    ensures r.Ok? ==> |r.value| == 40 && r.value == Fingerprint(sha1, disk[path])
  {
    if path in disk then Ok(Fingerprint(sha1, disk[path])) else Err(ReadFailed(path))
  }

  /** `NewDependencyFile`: a snapshot of the file on disk, or nil when it cannot be read. */
  function NewDependencyFile(sha1: Hasher, disk: FileSystem, path: string): (r: Option<DepFile>)
    ensures r.None? <==> path !in disk
    ensures r.Some? ==> r.value.path == path && r.value.content == disk[path]
    ensures r.Some? ==> Consistent(sha1, r.value)
  {
    if path !in disk then None
    else Some(DepFile(path, GetFileSHA1(sha1, disk, path).value, disk[path]))
  }

  /** `CheckFileSHA1`: nil iff the file can be read and its fingerprint is the recorded one. */
  function CheckFileSHA1(sha1: Hasher, disk: FileSystem, df: DepFile): (r: Option<Error>)
    ensures r.None? <==> df.path in disk && Fingerprint(sha1, disk[df.path]) == df.sha
    ensures df.path !in disk ==> r == Some(ReadFailed(df.path))
    ensures df.path in disk && r.Some? ==>
      r == Some(SignatureMismatch(df.path, df.sha, Fingerprint(sha1, disk[df.path])))
  {
    match GetFileSHA1(sha1, disk, df.path)
    case Err(e) => Some(e)
    case Ok(sum) => if sum != df.sha then Some(SignatureMismatch(df.path, df.sha, sum)) else None
  }

  /** A snapshot passes the check for as long as the file keeps the bytes it had. */
  lemma CheckPassesWhileUnchanged(sha1: Hasher, disk: FileSystem, later: FileSystem, path: string)
    requires NewDependencyFile(sha1, disk, path).Some?
    requires path in later && later[path] == disk[path]
    ensures CheckFileSHA1(sha1, later, NewDependencyFile(sha1, disk, path).value).None?
  {
  }

  /**
   * A passing check on a consistent record means the disk holds the
   * recorded bytes, unless SHA-1 has a collision.
   */
  lemma PassingCheckMeansSameBytes(sha1: Hasher, disk: FileSystem, df: DepFile)
    requires Consistent(sha1, df)
    requires CheckFileSHA1(sha1, disk, df).None?
    ensures disk[df.path] == df.content
      || (BlobInput(disk[df.path]) != BlobInput(df.content)
          && sha1(BlobInput(disk[df.path])) == sha1(BlobInput(df.content)))
  {
    if disk[df.path] != df.content {
      SameFingerprintIsCollision(sha1, disk[df.path], df.content);
    }
  }

  /** The error a read of `path` gives, if any. */
  function ReadError(disk: FileSystem, path: string): (r: Option<Error>)
    ensures r.None? <==> path in disk
  {
    if path in disk then None else Some(ReadFailed(path))
  }

  /** What `UpdateSHA` leaves: the fingerprint of the file now, or the record untouched. */
  function ShaRefreshed(sha1: Hasher, disk: FileSystem, df: DepFile): (r: DepFile)
    ensures r.path == df.path && r.content == df.content
    ensures df.path in disk ==> r.sha == Fingerprint(sha1, disk[df.path])
    ensures df.path !in disk ==> r == df
  {
    if df.path in disk then df.(sha := GetFileSHA1(sha1, disk, df.path).value) else df
  }

  /** What `Update` leaves: the file's bytes and their fingerprint, or the record untouched. */
  function Refreshed(sha1: Hasher, disk: FileSystem, df: DepFile): (r: DepFile)
    ensures r.path == df.path
    ensures df.path in disk ==> r.content == disk[df.path] && Consistent(sha1, r)
    ensures df.path !in disk ==> r == df
  {
    if df.path in disk then ShaRefreshed(sha1, disk, df.(content := disk[df.path])) else df
  }

  /** Refreshing twice from the same disk is refreshing once. */
  lemma RefreshedIdempotent(sha1: Hasher, disk: FileSystem, df: DepFile)
    ensures Refreshed(sha1, disk, Refreshed(sha1, disk, df)) == Refreshed(sha1, disk, df)
  {
  }

  datatype Patched = Patched(w: World, file: DepFile, err: Option<Error>)

  /** The `patch` invocation for a file: the file as argument, the patch on stdin. */
  function PatchCommand(df: DepFile, patch: string): Command {
    Command(".", ["patch", df.path], patch)
  }

  /**
   * `Patch`: look `patch` up on $PATH, run it on the file with the patch on
   * its stdin, and refresh the record only if it exits with status zero.
   */
  function PatchSpec(p: Platform, w: World, df: DepFile, patch: string): (r: Patched)
    ensures "patch" !in p.onPath ==> r == Patched(w, df, Some(PatchNotFound))
    ensures "patch" in p.onPath ==> r.w.trace == w.trace + [PatchCommand(df, patch)]
    ensures r.err.Some? ==> r.file == df
    ensures r.err.None? ==> (df.path in r.w.disk && r.file.path == df.path
      && r.file.content == r.w.disk[df.path] && Consistent(p.sha1, r.file))
    ensures "patch" in p.onPath ==> r.w == Run(p, w, PatchCommand(df, patch)).w
    ensures "patch" in p.onPath ==> var result := p.respond(|w.trace|);
      (r.err.None? <==> (result.Exited? && result.code == 0 && df.path in r.w.disk))
      && (result.NotStarted? ==> r.err == Some(StartFailed("patch")))
      && (result.Exited? && result.code != 0 ==> r.err == Some(ExitStatus(result.code)))
      && (result.Exited? && result.code == 0 ==>
            r.file == Refreshed(p.sha1, r.w.disk, df) && r.err == ReadError(r.w.disk, df.path))
  {
    if "patch" !in p.onPath then Patched(w, df, Some(PatchNotFound))
    else
      var ran := Run(p, w, PatchCommand(df, patch));
      match ran.result
      case NotStarted => Patched(ran.w, df, Some(StartFailed("patch")))
      case Exited(code, _, _) =>
        if code != 0 then Patched(ran.w, df, Some(ExitStatus(code)))
        else Patched(ran.w, Refreshed(p.sha1, ran.w.disk, df), ReadError(ran.w.disk, df.path))
  }

  /**
   * A successful patch that changed the bytes of a consistent record changes
   * its fingerprint, unless SHA-1 has a collision.
   */
  lemma PatchChangesFingerprint(p: Platform, w: World, df: DepFile, patch: string)
    requires Consistent(p.sha1, df)
    requires PatchSpec(p, w, df, patch).err.None?
    requires PatchSpec(p, w, df, patch).file.content != df.content
    ensures var after := PatchSpec(p, w, df, patch).file;
      after.sha != df.sha
      || (BlobInput(after.content) != BlobInput(df.content)
          && p.sha1(BlobInput(after.content)) == p.sha1(BlobInput(df.content)))
  {
    var after := PatchSpec(p, w, df, patch).file;
    if after.sha == df.sha {
      SameFingerprintIsCollision(p.sha1, after.content, df.content);
    }
  }

  /** A dependency file the client holds by pointer and updates in place. */
  class DependencyFile {
    var path: string
    var sha: string
    var content: seq<byte>

    function Value(): DepFile
      reads this
    {
      DepFile(path, sha, content)
    }

    constructor (v: DepFile)
      ensures Value() == v
    {
      path, sha, content := v.path, v.sha, v.content;
    }

    /** `UpdateSHA`: recompute the fingerprint from disk; a read failure changes nothing. */
    method UpdateSHA(sha1: Hasher, disk: FileSystem) returns (err: Option<Error>)
      modifies this
      ensures Value() == ShaRefreshed(sha1, disk, old(Value()))
      ensures err == ReadError(disk, path)
    {
      var r := GetFileSHA1(sha1, disk, path);
      if r.Err? {
        return Some(r.error);
      }
      sha := r.value;
      return None;
    }

    /** `Update`: reload the bytes, then the fingerprint; a read failure changes nothing. */
    method Update(sha1: Hasher, disk: FileSystem) returns (err: Option<Error>)
      modifies this
      ensures Value() == Refreshed(sha1, disk, old(Value()))
      ensures err == ReadError(disk, path)
    {
      if path !in disk {
        return Some(ReadFailed(path));
      }
      content := disk[path];
      err := UpdateSHA(sha1, disk);
    }

    /** `Patch`: apply `patch` with the patch tool, then refresh from disk. */
    method Patch(m: Machine, patch: string) returns (err: Option<Error>)
      modifies this, m
      ensures Patched(m.State(), Value(), err) == PatchSpec(m.p, old(m.State()), old(Value()), patch)
    {
      if "patch" !in m.p.onPath {
        return Some(PatchNotFound);
      }
      var result := m.Exec(PatchCommand(Value(), patch));
      if result.NotStarted? {
        return Some(StartFailed("patch"));
      }
      if result.code != 0 {
        return Some(ExitStatus(result.code));
      }
      err := Update(m.p.sha1, m.disk);
    }
  }

  /**
   * `LookupDependencyFiles` of the `dependency` package. With paths, one
   * snapshot per path in order, stopping with "Unable to read file" at the
   * first unreadable one (the snapshots taken so far are returned with the
   * error). Without paths, the outcome of scanning the working directory,
   * which is an input here.
   */
  method LookupDependencyFiles(sha1: Hasher, disk: FileSystem, files: seq<string>,
                               scanned: Result<seq<DepFile>, Error>)
    returns (dfiles: seq<DepFile>, err: Option<Error>)
    ensures files == [] ==> scanned.Ok? ==> dfiles == scanned.value && err == None
    ensures files == [] ==> scanned.Err? ==> dfiles == [] && err == Some(scanned.error)
    ensures files != [] ==> (|dfiles| <= |files|
      && forall k :: 0 <= k < |dfiles| ==> NewDependencyFile(sha1, disk, files[k]) == Some(dfiles[k]))
    ensures files != [] ==> (err.None? <==> forall k :: 0 <= k < |files| ==> files[k] in disk)
    ensures files != [] && err.None? ==> |dfiles| == |files|
    ensures files != [] && err.Some? ==>
      |dfiles| < |files| && files[|dfiles|] !in disk && err == Some(UnableToRead(files[|dfiles|]))
  {
    if files == [] {
      if scanned.Err? {
        return [], Some(scanned.error);
      }
      return scanned.value, None;
    }
    dfiles := [];
    var i := 0;
    while i < |files|
      invariant 0 <= i <= |files| && |dfiles| == i
      invariant forall k :: 0 <= k < i ==> files[k] in disk
      invariant forall k :: 0 <= k < i ==> NewDependencyFile(sha1, disk, files[k]) == Some(dfiles[k])
    {
      var df := NewDependencyFile(sha1, disk, files[i]);
      if df.None? {
        return dfiles, Some(UnableToRead(files[i]));
      }
      dfiles := dfiles + [df.value];
      i := i + 1;
    }
    return dfiles, None;
  }

  /**
   * `LookupDependencyFiles` of the `models` package: one entry per path in
   * order, nil for an unreadable path, and never an error; without paths,
   * whatever the directory scan found (its error is only printed).
   */
  method LookupDependencyFilesNilTolerant(sha1: Hasher, disk: FileSystem, files: seq<string>,
                                          scanned: seq<Option<DepFile>>)
    returns (dfiles: seq<Option<DepFile>>)
    ensures files == [] ==> dfiles == scanned
    ensures files != [] ==> (|dfiles| == |files|
      && forall k :: 0 <= k < |files| ==> dfiles[k] == NewDependencyFile(sha1, disk, files[k]))
  {
    if files == [] {
      return scanned;
    }
    dfiles := [];
    for i := 0 to |files|
      invariant |dfiles| == i
      invariant forall k :: 0 <= k < i ==> dfiles[k] == NewDependencyFile(sha1, disk, files[k])
    {
      dfiles := dfiles + [NewDependencyFile(sha1, disk, files[i])];
    }
  }

  /** `ListDependencyFiles` of the root package refuses an empty slug before any request. */
  function ListSlugGuard(projectSlug: string): (r: Option<Error>)
    ensures r.Some? <==> projectSlug == ""
    ensures r.Some? ==> Message(r.value) == "[projectSlug] can't be empty"
  {
    if projectSlug == "" then Some(EmptyListSlug) else None
  }
}
