/**
 * The auto-update backends: per package type, an installer that applies
 * requirement patches to dependency files and reinstalls, and an updater
 * that runs the package manager's update command. Both record, by pointer,
 * the files as they were before the change (the "original" list, used to
 * roll the change back) and the files after it (the "updated" list,
 * reported on success).
 *
 * Each backend is a method over a `Machine` and two `FileList`s, proved
 * equal to a specification function over values; the properties are
 * stated and proved about those functions.
 */
module AutoUpdate {
  import opened Text
  import opened Errors
  import opened GitBlob
  import opened Host
  import opened DependencyFiles
  import opened Readings

  datatype RequirementUpdate = RequirementUpdate(file: DepFile, patch: string)

  datatype Package = Package(name: string, slug: string, packageType: string)

  datatype VersionUpdate = VersionUpdate(pkg: Package, oldVersion: string, targetVersion: string)

  /** How a backend ends: nil, an error, or a Go runtime panic. */
  datatype Outcome = Done | Failed(err: Error) | Panicked

  /** The machine, the original and updated lists, and the outcome. */
  datatype Step = Step(w: World, org: seq<DepFile>, upt: seq<DepFile>, out: Outcome)

  /** A `*[]DependencyFile` the backends append to. */
  class FileList {
    var files: seq<DepFile>

    constructor (files: seq<DepFile>)
      ensures this.files == files
    {
      this.files := files;
    }

    method Append(f: DepFile)
      modifies this
      ensures files == old(files) + [f]
    {
      files := files + [f];
    }
  }

  // ---------------------------------------------------------------------
  // Registries

  datatype Installer = RubygemsInstallerFunc
  datatype Updater = RubygemsUpdaterFunc

  const Installers: map<string, Installer> := map["Rubygem" := RubygemsInstallerFunc]
  const Updaters: map<string, Updater> := map["Rubygem" := RubygemsUpdaterFunc]

  /** `NewRequirementsInstaller`: the installer registered for a package type. */
  function NewRequirementsInstaller(packageType: string): (r: Result<Installer, Error>)
    ensures r.Ok? <==> packageType == "Rubygem"
    ensures r.Err? ==> (r.error == NoInstaller(packageType)
      && Message(r.error) == "Can't find installer for package type: " + packageType + "\n")
  {
    if packageType in Installers then Ok(Installers[packageType]) else Err(NoInstaller(packageType))
  }

  /** `NewUpdater` of the `autoupdate` package. */
  function NewUpdater(packageType: string): (r: Result<Updater, Error>)
    ensures r.Ok? <==> packageType == "Rubygem"
    ensures r.Err? ==> (r.error == NoUpdater(packageType)
      && Message(r.error) == "Can't find updater for package type: " + packageType + "\n")
  {
    if packageType in Updaters then Ok(Updaters[packageType]) else Err(NoUpdater(packageType))
  }

  /** `NewUpdater` of the root package: the nil function, and no error, for an unknown type. */
  function NewUpdaterLegacy(packageType: string): (r: Option<Updater>)
    ensures r.Some? <==> packageType == "Rubygem"
  {
    if packageType in Updaters then Some(Updaters[packageType]) else None
  }

  // ---------------------------------------------------------------------
  // PatchFile

  /**
   * `PatchFile`: check the file's fingerprint against the disk; refresh it
   * and record it as original; patch it; record it as updated.
   */
  function PatchFileSpec(p: Platform, w: World, org: seq<DepFile>, upt: seq<DepFile>,
                         ru: RequirementUpdate): (r: Step)
    ensures CheckFileSHA1(p.sha1, w.disk, ru.file).Some? ==>
      r == Step(w, org, upt, Failed(CheckFileSHA1(p.sha1, w.disk, ru.file).value))
    ensures CheckFileSHA1(p.sha1, w.disk, ru.file).None? ==>
      r.org == org + [DepFile(ru.file.path, ru.file.sha, w.disk[ru.file.path])]
    ensures r.out.Done? || r.out.Failed?
    ensures w.trace <= r.w.trace
    ensures !r.out.Done? ==> r.upt == upt
    ensures r.out.Done? ==> (|r.upt| == |upt| + 1 && r.upt[..|upt|] == upt
      && r.upt[|upt|].path == ru.file.path && ru.file.path in r.w.disk
      && r.upt[|upt|].content == r.w.disk[ru.file.path])
    ensures CheckFileSHA1(p.sha1, w.disk, ru.file).None? ==>
      var patched := PatchSpec(p, w, Refreshed(p.sha1, w.disk, ru.file), ru.patch);
      r.w == patched.w
      && (r.out.Done? <==> patched.err.None?)
      && (patched.err.Some? ==> r.out == Failed(patched.err.value))
      && (r.out.Done? ==> r.upt[|upt|] == patched.file)
    ensures CheckFileSHA1(p.sha1, w.disk, ru.file).None? && "patch" in p.onPath ==>
      r.w.trace == w.trace + [PatchCommand(Refreshed(p.sha1, w.disk, ru.file), ru.patch)]
  {
    var f := ru.file;
    match CheckFileSHA1(p.sha1, w.disk, f)
    case Some(e) => Step(w, org, upt, Failed(e))
    case None =>
      var f1 := Refreshed(p.sha1, w.disk, f);
      var patched := PatchSpec(p, w, f1, ru.patch);
      if patched.err.Some? then Step(patched.w, org + [f1], upt, Failed(patched.err.value))
      else Step(patched.w, org + [f1], upt + [patched.file], Done)
  }

  /** The updated entry a successful patch adds carries the fingerprint of the patched bytes. */
  lemma PatchFileSpecConsistent(p: Platform, w: World, org: seq<DepFile>, upt: seq<DepFile>,
                                ru: RequirementUpdate)
    ensures var r := PatchFileSpec(p, w, org, upt, ru);
      r.out.Done? ==> Consistent(p.sha1, r.upt[|upt|])
  {
  }

  method PatchFile(m: Machine, org: FileList, upt: FileList, ru: RequirementUpdate) returns (out: Outcome)
    requires org != upt
    modifies m, org, upt
    ensures Step(m.State(), org.files, upt.files, out)
      == PatchFileSpec(m.p, old(m.State()), old(org.files), old(upt.files), ru)
  {
    var f := new DependencyFile(ru.file);
    var check := CheckFileSHA1(m.p.sha1, m.disk, f.Value());
    if check.Some? {
      return Failed(check.value);
    }
    var _ := f.Update(m.p.sha1, m.disk);
    org.Append(f.Value());
    var err := f.Patch(m, ru.patch);
    if err.Some? {
      return Failed(err.value);
    }
    upt.Append(f.Value());
    return Done;
  }

  // ---------------------------------------------------------------------
  // Output classification

  /** What the installer makes of a failed `bundle install`'s stdout. */
  datatype Diagnosis = Retry(command: string) | Incompatible | Other

  /** A "Try running `X`" line wins over a "could not find compatible versions" line. */
  function Diagnose(out: seq<string>): (d: Diagnosis)
    ensures d.Retry? <==> exists i :: 0 <= i < |out| && IsTryRunning(out[i])
    ensures d.Retry? ==> FirstTryRunning(out) == Some(d.command)
    ensures d == Incompatible <==> !d.Retry? && AnyIncompatible(out)
  {
    match FirstTryRunning(out)
    case Some(x) => Retry(x)
    case None => if AnyIncompatible(out) then Incompatible else Other
  }

  /** The error Go's `exec` reports for a process that did not start or did not exit zero. */
  function ProcessError(program: string, result: ProcessResult): Error {
    match result
    case NotStarted => StartFailed(program)
    case Exited(code, _, _) => ExitStatus(code)
  }

  function Stdout(result: ProcessResult): seq<string> {
    if result.Exited? then result.stdout else []
  }

  predicate Succeeded(result: ProcessResult) {
    result.Exited? && result.code == 0
  }

  // ---------------------------------------------------------------------
  // RubygemsInstaller

  const BundleInstallCmd := "bundle install"

  /** GEMNASIUM_BUNDLE_INSTALL_CMD when set and non-empty, else "bundle install". */
  function InstallCommandLine(p: Platform): (c: string)
    ensures Getenv(p.env, "GEMNASIUM_BUNDLE_INSTALL_CMD") != "" ==> c == p.env["GEMNASIUM_BUNDLE_INSTALL_CMD"]
    ensures Getenv(p.env, "GEMNASIUM_BUNDLE_INSTALL_CMD") == "" ==> c == BundleInstallCmd
  {
    var v := Getenv(p.env, "GEMNASIUM_BUNDLE_INSTALL_CMD");
    if v != "" then v else BundleInstallCmd
  }

  /** Without the override the program is `bundle` with the single argument `install`. */
  lemma DefaultInstallArgv(p: Platform)
    requires Getenv(p.env, "GEMNASIUM_BUNDLE_INSTALL_CMD") == ""
    ensures Fields(InstallCommandLine(p)) == ["bundle", "install"]
  {
    assert Join(["bundle", "install"], " ") == BundleInstallCmd;
    FieldsOfJoin(["bundle", "install"]);
  }

  /**
   * As written, the working directory of `bundle install` is
   * `path.Dir("f.Path")`: the directory of a string literal, which is "."
   * whatever file was patched.
   */
  function InstallDirAsWritten(ru: RequirementUpdate): (d: string)
    ensures d == "."
  {
    PathDir("f.Path")
  }

  /** Corrected: the directory of the patched file. */
  function InstallDir(ru: RequirementUpdate): string {
    PathDir(ru.file.path)
  }

  /**
   * For a Gemfile in a sub-directory, the corrected directory is that
   * sub-directory, where the code as written runs in ".".
   */
  lemma InstallDirIsFileDirectory(ru: RequirementUpdate, dir: string, name: string)
    requires ru.file.path == dir + "/" + name && dir != [] && '/' !in name
    ensures InstallDir(ru) == dir
    ensures dir != "." ==> InstallDirAsWritten(ru) != InstallDir(ru)
  {
    PathDirOfJoin(dir, name);
  }

  /** The working directory of `bundle install` and of the retried command, as written or corrected. */
  function WorkDir(rd: Reading, ru: RequirementUpdate): (d: string)
    ensures rd == AsWritten ==> d == "."
    ensures rd == Corrected ==> d == InstallDir(ru)
  {
    match rd
    case AsWritten => InstallDirAsWritten(ru)
    case Corrected => InstallDir(ru)
  }

  /** After `bundle install` failed: retry the suggested command once, or classify. */
  function RecoverInstall(p: Platform, w: World, dir: string, program: string,
                          result: ProcessResult): (r: Ran)
    requires !Succeeded(result)
  {
    match Diagnose(Stdout(result))
    case Retry(x) =>
      var argv := Fields(x);
      if argv == [] then Ran(w, result)
      else Run(p, w, Command(dir, argv, ""))
    case Incompatible => Ran(w, result)
    case Other => Ran(w, result)
  }

  /** The outcome of the installer's handling of one failed `bundle install`. */
  function RecoverOutcome(program: string, result: ProcessResult, retried: ProcessResult): Outcome {
    match Diagnose(Stdout(result))
    case Retry(x) =>
      if Fields(x) == [] then Panicked
      else if Succeeded(retried) then Done
      else Failed(CantInstallRequirements)
    case Incompatible => Failed(CantInstallRequirements)
    case Other => Failed(ProcessError(program, result))
  }

  /**
   * The reinstall after a successful patch: run the install command in the
   * working directory (".", as written; the file's directory, corrected),
   * and on failure retry or classify. A command line
   * without a word panics (the code indexes its first word).
   */
  function Reinstall(p: Platform, rd: Reading, s: Step, ru: RequirementUpdate): (r: Step)
    ensures r.org == s.org && r.upt == s.upt
    ensures var argv := Fields(InstallCommandLine(p));
      argv != [] ==>
        |s.w.trace| < |r.w.trace| <= |s.w.trace| + 2
        && r.w.trace[..|s.w.trace| + 1] == s.w.trace + [Command(WorkDir(rd, ru), argv, "")]
    ensures Fields(InstallCommandLine(p)) == [] ==> r == s.(out := Panicked)
  {
    var argv := Fields(InstallCommandLine(p));
    if argv == [] then s.(out := Panicked)
    else
      var ran := Run(p, s.w, Command(WorkDir(rd, ru), argv, ""));
      if Succeeded(ran.result) then Step(ran.w, s.org, s.upt, Done)
      else
        var again := RecoverInstall(p, ran.w, WorkDir(rd, ru), argv[0], ran.result);
        Step(again.w, s.org, s.upt, RecoverOutcome(argv[0], ran.result, again.result))
  }

  /** One iteration of `RubygemsInstaller`'s loop: patch the file, then reinstall. */
  function InstallOne(p: Platform, rd: Reading, w: World, org: seq<DepFile>, upt: seq<DepFile>,
                      ru: RequirementUpdate): (r: Step)
    ensures var s := PatchFileSpec(p, w, org, upt, ru);
      r.org == s.org && r.upt == s.upt && (!s.out.Done? ==> r == s)
    ensures var s := PatchFileSpec(p, w, org, upt, ru);
      var argv := Fields(InstallCommandLine(p));
      s.out.Done? && argv != [] ==>
        |s.w.trace| < |r.w.trace| <= |s.w.trace| + 2
        && r.w.trace[..|s.w.trace| + 1] == s.w.trace + [Command(WorkDir(rd, ru), argv, "")]
    ensures var s := PatchFileSpec(p, w, org, upt, ru);
      s.out.Done? && Fields(InstallCommandLine(p)) == [] ==> r == s.(out := Panicked)
  {
    var s := PatchFileSpec(p, w, org, upt, ru);
    if !s.out.Done? then s else Reinstall(p, rd, s, ru)
  }

  /** One iteration of an installer loop: a requirement update applied to the machine and the two lists. */
  type StepFn = (World, seq<DepFile>, seq<DepFile>, RequirementUpdate) -> Step

  /** An installer loop: the requirement updates in order, stopping at the first that does not succeed. */
  function Chain(one: StepFn, w: World, org: seq<DepFile>, upt: seq<DepFile>,
                 reqs: seq<RequirementUpdate>): (r: Step)
    ensures reqs == [] ==> r == Step(w, org, upt, Done)
    decreases |reqs|
  {
    if reqs == [] then Step(w, org, upt, Done)
    else
      var s := one(w, org, upt, reqs[0]);
      if s.out.Done? then Chain(one, s.w, s.org, s.upt, reqs[1..]) else s
  }

  function InstallStep(p: Platform, rd: Reading): StepFn {
    (w: World, org: seq<DepFile>, upt: seq<DepFile>, ru: RequirementUpdate) => InstallOne(p, rd, w, org, upt, ru)
  }

  /** `RubygemsInstaller`: the requirement updates in order, stopping at the first failure. */
  function InstallSpec(p: Platform, rd: Reading, w: World, org: seq<DepFile>, upt: seq<DepFile>,
                       reqs: seq<RequirementUpdate>): Step
  {
    Chain(InstallStep(p, rd), w, org, upt, reqs)
  }

  /** The body of the installer loop: patch one file, then reinstall. */
  method InstallRequirement(m: Machine, rd: Reading, org: FileList, upt: FileList, ru: RequirementUpdate)
    returns (out: Outcome)
    requires org != upt
    modifies m, org, upt
    ensures Step(m.State(), org.files, upt.files, out)
      == InstallOne(m.p, rd, old(m.State()), old(org.files), old(upt.files), ru)
  {
    out := PatchFile(m, org, upt, ru);
    if !out.Done? {
      return;
    }
    out := RunInstall(m, rd, ru, org.files, upt.files);
  }

  /** One step of the installer loop: the i-th update, then the rest while it succeeds. */
  lemma InstallSpecStep(p: Platform, rd: Reading, w: World, org: seq<DepFile>, upt: seq<DepFile>,
                        reqs: seq<RequirementUpdate>, i: nat, s: Step)
    requires i < |reqs| && s == InstallOne(p, rd, w, org, upt, reqs[i])
    ensures InstallSpec(p, rd, w, org, upt, reqs[i..])
      == if s.out.Done? then InstallSpec(p, rd, s.w, s.org, s.upt, reqs[i + 1..]) else s
  {
    assert reqs[i..][0] == reqs[i] && reqs[i..][1..] == reqs[i + 1..];
  }

  method RubygemsInstaller(m: Machine, rd: Reading, org: FileList, upt: FileList, reqs: seq<RequirementUpdate>)
    returns (out: Outcome)
    requires org != upt
    modifies m, org, upt
    ensures Step(m.State(), org.files, upt.files, out)
      == InstallSpec(m.p, rd, old(m.State()), old(org.files), old(upt.files), reqs)
  {
    var i := 0;
    while i < |reqs|
      invariant 0 <= i <= |reqs|
      invariant InstallSpec(m.p, rd, old(m.State()), old(org.files), old(upt.files), reqs)
        == InstallSpec(m.p, rd, m.State(), org.files, upt.files, reqs[i..])
    {
      ghost var before := m.State();
      ghost var orgBefore, uptBefore := org.files, upt.files;
      out := InstallRequirement(m, rd, org, upt, reqs[i]);
      InstallSpecStep(m.p, rd, before, orgBefore, uptBefore, reqs, i, Step(m.State(), org.files, upt.files, out));
      if !out.Done? {
        return;
      }
      i := i + 1;
    }
    return Done;
  }

  /** The reinstall half of one loop iteration: `bundle install`, then the retry or the diagnosis. */
  method RunInstall(m: Machine, rd: Reading, ru: RequirementUpdate, ghost org: seq<DepFile>, ghost upt: seq<DepFile>)
    returns (out: Outcome)
    modifies m
    ensures Step(m.State(), org, upt, out) == Reinstall(m.p, rd, Step(old(m.State()), org, upt, Done), ru)
  {
    var argv := Fields(InstallCommandLine(m.p));
    if argv == [] {
      return Panicked;
    }
    var dir := WorkDir(rd, ru);
    var result := m.Exec(Command(dir, argv, ""));
    if Succeeded(result) {
      return Done;
    }
    match Diagnose(Stdout(result)) {
      case Retry(x) =>
        var retryArgv := Fields(x);
        if retryArgv == [] {
          return Panicked;
        }
        var retried := m.Exec(Command(dir, retryArgv, ""));
        out := if Succeeded(retried) then Done else Failed(CantInstallRequirements);
      case Incompatible =>
        out := Failed(CantInstallRequirements);
      case Other =>
        out := Failed(ProcessError(argv[0], result));
    }
  }

  /**
   * After a successful patch, `bundle install` runs once; on failure a
   * "Try running `X`" line makes X run exactly once more, and its result
   * decides; otherwise a compatible-versions line gives a fixed error, and
   * anything else the process error itself.
   */
  lemma InstallRetriesOnce(p: Platform, rd: Reading, w: World, org: seq<DepFile>, upt: seq<DepFile>,
                           ru: RequirementUpdate)
    requires PatchFileSpec(p, w, org, upt, ru).out.Done?
    requires Fields(InstallCommandLine(p)) != []
    ensures var s := PatchFileSpec(p, w, org, upt, ru);
      var argv := Fields(InstallCommandLine(p));
      var n := |s.w.trace|;
      var result := p.respond(n);
      var r := InstallOne(p, rd, w, org, upt, ru);
      (Succeeded(result) ==> r.out == Done && |r.w.trace| == n + 1)
      && (!Succeeded(result) && Diagnose(Stdout(result)).Retry? && Fields(Diagnose(Stdout(result)).command) != [] ==>
            |r.w.trace| == n + 2
            && r.w.trace[n + 1] == Command(WorkDir(rd, ru), Fields(Diagnose(Stdout(result)).command), "")
            && r.out == (if Succeeded(p.respond(n + 1)) then Done else Failed(CantInstallRequirements)))
      && (!Succeeded(result) && Diagnose(Stdout(result)).Retry? && Fields(Diagnose(Stdout(result)).command) == [] ==>
            |r.w.trace| == n + 1 && r.out == Panicked)
      && (!Succeeded(result) && Diagnose(Stdout(result)) == Incompatible ==>
            |r.w.trace| == n + 1 && r.out == Failed(CantInstallRequirements))
      && (!Succeeded(result) && Diagnose(Stdout(result)) == Other ==>
            |r.w.trace| == n + 1 && r.out == Failed(ProcessError(argv[0], result)))
  {
  }

  /**
   * Where the install command runs after a successful patch: in "." as
   * written whatever the file, and in the file's own directory corrected,
   * "web" for "web/Gemfile".
   */
  lemma InstallRunsInWorkDir(p: Platform, w: World, org: seq<DepFile>, upt: seq<DepFile>,
                             ru: RequirementUpdate, dir: string, name: string)
    requires PatchFileSpec(p, w, org, upt, ru).out.Done?
    requires Fields(InstallCommandLine(p)) != []
    requires ru.file.path == dir + "/" + name && dir != [] && '/' !in name
    ensures var n := |PatchFileSpec(p, w, org, upt, ru).w.trace|;
      InstallOne(p, AsWritten, w, org, upt, ru).w.trace[n] == Command(".", Fields(InstallCommandLine(p)), "")
      && InstallOne(p, Corrected, w, org, upt, ru).w.trace[n] == Command(dir, Fields(InstallCommandLine(p)), "")
  {
    InstallDirIsFileDirectory(ru, dir, name);
  }

  /**
   * What one iteration may do to the lists and the command log: append at
   * most one original entry, the requirement's file with the fingerprint
   * the server sent, and at most one updated entry, for the same path, and
   * only after the original one; on success exactly one of each; the log
   * only grows.
   */
  predicate ListsStep(s: Step, w: World, org: seq<DepFile>, upt: seq<DepFile>, ru: RequirementUpdate) {
    |org| <= |s.org| <= |org| + 1 && s.org[..|org|] == org
    && |upt| <= |s.upt| && |s.upt| - |upt| <= |s.org| - |org| && s.upt[..|upt|] == upt
    && (|s.org| > |org| ==> s.org[|org|].path == ru.file.path && s.org[|org|].sha == ru.file.sha)
    && (|s.upt| > |upt| ==> s.upt[|upt|].path == ru.file.path)
    && (s.out.Done? ==> |s.org| == |org| + 1 && |s.upt| == |upt| + 1)
    && w.trace <= s.w.trace
  }

  ghost predicate StepKeepsLists(one: StepFn) {
    forall w, org, upt, ru :: ListsStep(one(w, org, upt, ru), w, org, upt, ru)
  }

  /** Every updated entry a step adds carries the fingerprint of its bytes. */
  ghost predicate StepFingerprints(sha1: Hasher, one: StepFn) {
    forall w, org, upt, ru :: |one(w, org, upt, ru).upt| > |upt| ==> Consistent(sha1, one(w, org, upt, ru).upt[|upt|])
  }

  /** One iteration's effect on the two lists and the command log. */
  lemma InstallOneLists(p: Platform, rd: Reading, w: World, org: seq<DepFile>, upt: seq<DepFile>,
                        ru: RequirementUpdate)
    ensures ListsStep(InstallOne(p, rd, w, org, upt, ru), w, org, upt, ru)
  {
    var pf := PatchFileSpec(p, w, org, upt, ru);
    var s := InstallOne(p, rd, w, org, upt, ru);
    assert pf.w.trace <= s.w.trace by {
      if pf.out.Done? && Fields(InstallCommandLine(p)) != [] {
        assert s.w.trace[..|pf.w.trace|] == pf.w.trace;
      }
    }
  }

  /** The updated entry one iteration adds carries the fingerprint of its bytes. */
  lemma InstallOneConsistent(p: Platform, rd: Reading, w: World, org: seq<DepFile>, upt: seq<DepFile>,
                             ru: RequirementUpdate)
    ensures var s := InstallOne(p, rd, w, org, upt, ru);
      |s.upt| > |upt| ==> Consistent(p.sha1, s.upt[|upt|])
  {
    PatchFileSpecConsistent(p, w, org, upt, ru);
  }

  /**
   * Entries n, n+1, ... of `files` are the files of `reqs`, in order, with
   * the fingerprints the server sent.
   */
  predicate OriginalsFollow(n: nat, files: seq<DepFile>, reqs: seq<RequirementUpdate>) {
    n <= |files| <= n + |reqs|
    && forall k :: n <= k < |files| ==>
         files[k].path == reqs[k - n].file.path && files[k].sha == reqs[k - n].file.sha
  }

  lemma OriginalsFollowCons(n: nat, files: seq<DepFile>, reqs: seq<RequirementUpdate>)
    requires reqs != [] && n < |files|
    requires files[n].path == reqs[0].file.path && files[n].sha == reqs[0].file.sha
    requires OriginalsFollow(n + 1, files, reqs[1..])
    ensures OriginalsFollow(n, files, reqs)
  {
    forall k | n < k < |files|
      ensures files[k].path == reqs[k - n].file.path && files[k].sha == reqs[k - n].file.sha
    {
      assert reqs[k - n] == reqs[1..][k - (n + 1)];
    }
  }

  /** Entries n, n+1, ... of `files` are the files of `reqs`, in order. */
  predicate PathsFollow(n: nat, files: seq<DepFile>, reqs: seq<RequirementUpdate>) {
    n <= |files| <= n + |reqs|
    && forall k :: n <= k < |files| ==> files[k].path == reqs[k - n].file.path
  }

  lemma PathsFollowCons(n: nat, files: seq<DepFile>, reqs: seq<RequirementUpdate>)
    requires reqs != [] && n < |files| && files[n].path == reqs[0].file.path
    requires PathsFollow(n + 1, files, reqs[1..])
    ensures PathsFollow(n, files, reqs)
  {
    forall k | n < k < |files| ensures files[k].path == reqs[k - n].file.path {
      assert reqs[k - n] == reqs[1..][k - (n + 1)];
    }
  }

  lemma InstallStepKeepsLists(p: Platform, rd: Reading)
    ensures StepKeepsLists(InstallStep(p, rd))
  {
    forall w, org, upt, ru ensures ListsStep(InstallStep(p, rd)(w, org, upt, ru), w, org, upt, ru) {
      InstallOneLists(p, rd, w, org, upt, ru);
    }
  }

  lemma InstallStepFingerprints(p: Platform, rd: Reading)
    ensures StepFingerprints(p.sha1, InstallStep(p, rd))
  {
    forall w, org, upt, ru | |InstallStep(p, rd)(w, org, upt, ru).upt| > |upt|
      ensures Consistent(p.sha1, InstallStep(p, rd)(w, org, upt, ru).upt[|upt|])
    {
      InstallOneConsistent(p, rd, w, org, upt, ru);
    }
  }

  /** The facts `InstallSpecGrows` states, for any loop whose steps keep the lists. */
  lemma {:induction false} ChainGrows(one: StepFn, w: World, org: seq<DepFile>,
                                      upt: seq<DepFile>, reqs: seq<RequirementUpdate>)
    requires StepKeepsLists(one)
    ensures var r := Chain(one, w, org, upt, reqs);
      |org| <= |r.org| && r.org[..|org|] == org && |upt| <= |r.upt| && r.upt[..|upt|] == upt
      && |r.org| - |org| <= |reqs|
      && |r.upt| - |upt| <= |r.org| - |org| <= |r.upt| - |upt| + 1
      && (r.out.Done? ==> |r.org| - |org| == |reqs| && |r.upt| - |upt| == |reqs|)
      && w.trace <= r.w.trace
    decreases |reqs|
  {
    if reqs != [] {
      var s := one(w, org, upt, reqs[0]);
      assert ListsStep(s, w, org, upt, reqs[0]);
      if s.out.Done? {
        ChainGrows(one, s.w, s.org, s.upt, reqs[1..]);
        var r := Chain(one, s.w, s.org, s.upt, reqs[1..]);
        assert r.org[..|org|] == r.org[..|s.org|][..|org|];
        assert r.upt[..|upt|] == r.upt[..|s.upt|][..|upt|];
      }
    }
  }

  lemma {:induction false} ChainOriginals(one: StepFn, w: World, org: seq<DepFile>,
                                          upt: seq<DepFile>, reqs: seq<RequirementUpdate>)
    requires StepKeepsLists(one)
    ensures OriginalsFollow(|org|, Chain(one, w, org, upt, reqs).org, reqs)
    decreases |reqs|
  {
    ChainGrows(one, w, org, upt, reqs);
    if reqs != [] {
      var s := one(w, org, upt, reqs[0]);
      assert ListsStep(s, w, org, upt, reqs[0]);
      if s.out.Done? {
        ChainOriginals(one, s.w, s.org, s.upt, reqs[1..]);
        ChainGrows(one, s.w, s.org, s.upt, reqs[1..]);
        var r := Chain(one, s.w, s.org, s.upt, reqs[1..]);
        assert r.org[|org|] == r.org[..|s.org|][|org|] == s.org[|org|];
        OriginalsFollowCons(|org|, r.org, reqs);
      }
    }
  }

  lemma {:induction false} ChainUpdated(one: StepFn, w: World, org: seq<DepFile>,
                                        upt: seq<DepFile>, reqs: seq<RequirementUpdate>)
    requires StepKeepsLists(one)
    ensures PathsFollow(|upt|, Chain(one, w, org, upt, reqs).upt, reqs)
    decreases |reqs|
  {
    ChainGrows(one, w, org, upt, reqs);
    if reqs != [] {
      var s := one(w, org, upt, reqs[0]);
      assert ListsStep(s, w, org, upt, reqs[0]);
      if s.out.Done? {
        ChainUpdated(one, s.w, s.org, s.upt, reqs[1..]);
        ChainGrows(one, s.w, s.org, s.upt, reqs[1..]);
        var r := Chain(one, s.w, s.org, s.upt, reqs[1..]);
        assert r.upt[|upt|] == r.upt[..|s.upt|][|upt|] == s.upt[|upt|];
        PathsFollowCons(|upt|, r.upt, reqs);
      }
    }
  }

  lemma {:induction false} ChainUpdatedConsistent(sha1: Hasher, one: StepFn, w: World, org: seq<DepFile>,
                                                  upt: seq<DepFile>, reqs: seq<RequirementUpdate>)
    requires StepKeepsLists(one) && StepFingerprints(sha1, one)
    ensures var r := Chain(one, w, org, upt, reqs);
      forall k :: |upt| <= k < |r.upt| ==> Consistent(sha1, r.upt[k])
    decreases |reqs|
  {
    ChainGrows(one, w, org, upt, reqs);
    if reqs != [] {
      var s := one(w, org, upt, reqs[0]);
      assert ListsStep(s, w, org, upt, reqs[0]);
      if s.out.Done? {
        ChainUpdatedConsistent(sha1, one, s.w, s.org, s.upt, reqs[1..]);
        ChainGrows(one, s.w, s.org, s.upt, reqs[1..]);
        var r := Chain(one, s.w, s.org, s.upt, reqs[1..]);
        forall k | |upt| <= k < |r.upt|
          ensures Consistent(sha1, r.upt[k])
        {
          if k == |upt| {
            assert r.upt[k] == r.upt[..|s.upt|][k] == s.upt[|upt|];
          }
        }
      }
    }
  }

  /**
   * `RubygemsInstaller` only appends: both lists and the command log keep
   * what they held. At most one requirement gets an original entry and no
   * updated one (the one that failed), none is visited twice, and on
   * success every requirement has one entry in each list.
   */
  lemma InstallSpecGrows(p: Platform, rd: Reading, w: World, org: seq<DepFile>,
                         upt: seq<DepFile>, reqs: seq<RequirementUpdate>)
    ensures var r := InstallSpec(p, rd, w, org, upt, reqs);
      |org| <= |r.org| && r.org[..|org|] == org && |upt| <= |r.upt| && r.upt[..|upt|] == upt
      && |r.org| - |org| <= |reqs|
      && |r.upt| - |upt| <= |r.org| - |org| <= |r.upt| - |upt| + 1
      && (r.out.Done? ==> |r.org| - |org| == |reqs| && |r.upt| - |upt| == |reqs|)
      && w.trace <= r.w.trace
  {
    InstallStepKeepsLists(p, rd);
    ChainGrows(InstallStep(p, rd), w, org, upt, reqs);
  }

  /**
   * The k-th original entry the installer adds is the k-th requirement's
   * file, with the path and fingerprint the server sent: the bytes that
   * had that fingerprint before the patch, ready to be restored.
   */
  lemma InstallSpecOriginals(p: Platform, rd: Reading, w: World, org: seq<DepFile>,
                             upt: seq<DepFile>, reqs: seq<RequirementUpdate>)
    ensures OriginalsFollow(|org|, InstallSpec(p, rd, w, org, upt, reqs).org, reqs)
  {
    InstallStepKeepsLists(p, rd);
    ChainOriginals(InstallStep(p, rd), w, org, upt, reqs);
  }

  /**
   * The k-th updated entry the installer adds is the k-th requirement's
   * file, after patching.
   */
  lemma InstallSpecUpdated(p: Platform, rd: Reading, w: World, org: seq<DepFile>,
                           upt: seq<DepFile>, reqs: seq<RequirementUpdate>)
    ensures PathsFollow(|upt|, InstallSpec(p, rd, w, org, upt, reqs).upt, reqs)
  {
    InstallStepKeepsLists(p, rd);
    ChainUpdated(InstallStep(p, rd), w, org, upt, reqs);
  }

  /**
   * Every updated entry the installer adds carries the fingerprint of the
   * bytes it holds.
   */
  lemma InstallSpecUpdatedConsistent(p: Platform, rd: Reading, w: World, org: seq<DepFile>,
                                     upt: seq<DepFile>, reqs: seq<RequirementUpdate>)
    ensures var r := InstallSpec(p, rd, w, org, upt, reqs);
      |upt| <= |r.upt| <= |upt| + |reqs|
      && forall k :: |upt| <= k < |r.upt| ==> Consistent(p.sha1, r.upt[k])
  {
    InstallStepKeepsLists(p, rd);
    InstallStepFingerprints(p, rd);
    ChainGrows(InstallStep(p, rd), w, org, upt, reqs);
    ChainUpdatedConsistent(p.sha1, InstallStep(p, rd), w, org, upt, reqs);
  }

  // ---------------------------------------------------------------------
  // RubygemsUpdater

  const BundleUpdateCmd := "bundle update"

  /** GEMNASIUM_BUNDLE_UPDATE_CMD when set and non-empty, else "bundle update". */
  function UpdateCommandLine(p: Platform): (c: string)
    ensures Getenv(p.env, "GEMNASIUM_BUNDLE_UPDATE_CMD") != "" ==> c == p.env["GEMNASIUM_BUNDLE_UPDATE_CMD"]
    ensures Getenv(p.env, "GEMNASIUM_BUNDLE_UPDATE_CMD") == "" ==> c == BundleUpdateCmd
  {
    var v := Getenv(p.env, "GEMNASIUM_BUNDLE_UPDATE_CMD");
    if v != "" then v else BundleUpdateCmd
  }

  /** The packages' names, in the order of the updates. */
  function PackageNames(vus: seq<VersionUpdate>): (names: seq<string>)
    ensures |names| == |vus|
    ensures forall k :: 0 <= k < |vus| ==> names[k] == vus[k].pkg.name
  {
    if vus == [] then [] else [vus[0].pkg.name] + PackageNames(vus[1..])
  }

  /** The update command: the fields of the command line, then each package name in order. */
  function UpdateArgv(p: Platform, vus: seq<VersionUpdate>): (argv: seq<string>)
    ensures var base := Fields(UpdateCommandLine(p));
      |argv| == |base| + |vus| && argv[..|base|] == base
      && forall k :: 0 <= k < |vus| ==> argv[|base| + k] == vus[k].pkg.name
  {
    Fields(UpdateCommandLine(p)) + PackageNames(vus)
  }

  /** Without the override, `bundle update` followed by the package names. */
  lemma DefaultUpdateArgv(p: Platform, vus: seq<VersionUpdate>)
    requires Getenv(p.env, "GEMNASIUM_BUNDLE_UPDATE_CMD") == ""
    ensures UpdateArgv(p, vus) == ["bundle", "update"] + PackageNames(vus)
  {
    assert Join(["bundle", "update"], " ") == BundleUpdateCmd;
    FieldsOfJoin(["bundle", "update"]);
  }

  /** The update command: the command line's fields, then the package names. */
  method UpdateCommand(p: Platform, vus: seq<VersionUpdate>) returns (parts: seq<string>)
    ensures parts == UpdateArgv(p, vus)
  {
    parts := Fields(UpdateCommandLine(p));
    parts := AppendNames(parts, vus);
  }

  /** The loop that appends each package's name. */
  method AppendNames(base: seq<string>, vus: seq<VersionUpdate>) returns (parts: seq<string>)
    ensures parts == base + PackageNames(vus)
  {
    parts := base;
    for i := 0 to |vus|
      invariant parts == base + PackageNames(vus[..i])
    {
      assert vus[..i + 1] == vus[..i] + [vus[i]];
      PackageNamesAppend(vus[..i], vus[i]);
      parts := parts + [vus[i].pkg.name];
    }
    assert vus[..|vus|] == vus;
  }

  lemma PackageNamesAppend(vus: seq<VersionUpdate>, vu: VersionUpdate)
    ensures PackageNames(vus + [vu]) == PackageNames(vus) + [vu.pkg.name]
  {
  }

  /** The lock file every update snapshots. */
  const GemfileLock := "Gemfile.lock"

  /**
   * `RubygemsUpdater` (both copies): snapshot Gemfile.lock into the original
   * list, run the update command, and on success refresh the snapshot and
   * append it to the updated list.
   */
  function UpdaterSpec(p: Platform, w: World, org: seq<DepFile>, upt: seq<DepFile>,
                       vus: seq<VersionUpdate>): (r: Step)
    ensures GemfileLock !in w.disk ==> r == Step(w, org, upt, Panicked)
    ensures GemfileLock in w.disk ==> r.org == org + [NewDependencyFile(p.sha1, w.disk, GemfileLock).value]
    ensures !r.out.Done? ==> r.upt == upt
    ensures r.out.Done? ==> (|r.upt| == |upt| + 1 && r.upt[..|upt|] == upt
      && r.upt[|upt|].path == GemfileLock && Consistent(p.sha1, r.upt[|upt|]))
    ensures GemfileLock in w.disk && UpdateArgv(p, vus) != [] ==>
      r.w.trace == w.trace + [Command(".", UpdateArgv(p, vus), "")]
    ensures GemfileLock in w.disk && UpdateArgv(p, vus) != [] ==>
      r.w == Run(p, w, Command(".", UpdateArgv(p, vus), "")).w
    ensures r.out == Failed(CantUpdateVersions) <==> (GemfileLock in w.disk && UpdateArgv(p, vus) != []
      && !Succeeded(p.respond(|w.trace|)) && AnyIncompatible(Stdout(p.respond(|w.trace|))))
    ensures GemfileLock in w.disk && UpdateArgv(p, vus) == [] ==> r.out == Panicked && r.w == w
    ensures GemfileLock in w.disk && UpdateArgv(p, vus) != [] ==>
      var result := p.respond(|w.trace|);
      (r.out == Done <==> Succeeded(result))
      && (!Succeeded(result) && !AnyIncompatible(Stdout(result)) ==>
            r.out == Failed(ProcessError(UpdateArgv(p, vus)[0], result)))
    ensures r.out.Done? ==>
      r.upt[|upt|] == Refreshed(p.sha1, r.w.disk, NewDependencyFile(p.sha1, w.disk, GemfileLock).value)
  {
    match NewDependencyFile(p.sha1, w.disk, GemfileLock)
    case None => Step(w, org, upt, Panicked)
    case Some(lock) =>
      var argv := UpdateArgv(p, vus);
      if argv == [] then Step(w, org + [lock], upt, Panicked)
      else
        var ran := Run(p, w, Command(".", argv, ""));
        if !Succeeded(ran.result) then
          if AnyIncompatible(Stdout(ran.result)) then Step(ran.w, org + [lock], upt, Failed(CantUpdateVersions))
          else Step(ran.w, org + [lock], upt, Failed(ProcessError(argv[0], ran.result)))
        else
          Step(ran.w, org + [lock], upt + [Refreshed(p.sha1, ran.w.disk, lock)], Done)
  }

  method RubygemsUpdater(m: Machine, org: FileList, upt: FileList, vus: seq<VersionUpdate>)
    returns (out: Outcome)
    requires org != upt
    modifies m, org, upt
    ensures Step(m.State(), org.files, upt.files, out)
      == UpdaterSpec(m.p, old(m.State()), old(org.files), old(upt.files), vus)
  {
    var snapshot := NewDependencyFile(m.p.sha1, m.disk, GemfileLock);
    if snapshot.None? {
      return Panicked;
    }
    var lock := new DependencyFile(snapshot.value);
    org.Append(lock.Value());
    var parts := UpdateCommand(m.p, vus);
    if parts == [] {
      return Panicked;
    }
    var result := m.Exec(Command(".", parts, ""));
    if !Succeeded(result) {
      if AnyIncompatible(Stdout(result)) {
        return Failed(CantUpdateVersions);
      }
      return Failed(ProcessError(parts[0], result));
    }
    var _ := lock.Update(m.p.sha1, m.disk);
    upt.Append(lock.Value());
    return Done;
  }
  // ---------------------------------------------------------------------
  // Applying an update set (inferred)

  /**
   * A thin driver for one package type, inferred from the expectations of
   * the package's tests (the orchestrator is not part of this model): both
   * backends are looked up, the installer runs from empty lists, and when it
   * succeeds the updater continues with the same lists.
   */
  function ApplyUpdateSet(p: Platform, rd: Reading, w: World, packageType: string,
                          reqs: seq<RequirementUpdate>, vus: seq<VersionUpdate>): (r: Step)
    ensures packageType != "Rubygem" ==> r == Step(w, [], [], Failed(NoInstaller(packageType)))
  {
    match NewRequirementsInstaller(packageType)
    case Err(e) => Step(w, [], [], Failed(e))
    case Ok(_) =>
      match NewUpdater(packageType)
      case Err(e) => Step(w, [], [], Failed(e))
      case Ok(_) =>
        var s := InstallSpec(p, rd, w, [], [], reqs);
        if s.out.Done? then UpdaterSpec(p, s.w, s.org, s.upt, vus) else s
  }

  /** Once the update set succeeded, the updater ran on the installer's lists. */
  lemma ApplyUpdateSetDone(p: Platform, rd: Reading, w: World, packageType: string,
                           reqs: seq<RequirementUpdate>, vus: seq<VersionUpdate>)
    requires ApplyUpdateSet(p, rd, w, packageType, reqs, vus).out.Done?
    ensures packageType == "Rubygem"
    ensures var s := InstallSpec(p, rd, w, [], [], reqs);
      s.out.Done? && |s.org| == |s.upt| == |reqs|
      && ApplyUpdateSet(p, rd, w, packageType, reqs, vus) == UpdaterSpec(p, s.w, s.org, s.upt, vus)
  {
    InstallSpecGrows(p, rd, w, [], [], reqs);
  }

  /** The installer's entries stay in front when the updater appends Gemfile.lock. */
  lemma AppendedKeepsEntries(reqs: seq<RequirementUpdate>, before: seq<DepFile>, after: seq<DepFile>)
    requires PathsFollow(0, before, reqs) && |before| == |reqs|
    requires |after| == |before| + 1 && after[..|before|] == before && after[|before|].path == GemfileLock
    ensures |after| == |reqs| + 1 && after[|reqs|].path == GemfileLock
    ensures forall k :: 0 <= k < |reqs| ==> after[k].path == reqs[k].file.path
  {
    forall k | 0 <= k < |reqs| ensures after[k].path == reqs[k].file.path {
      assert after[k] == after[..|before|][k];
      assert before[k].path == reqs[k - 0].file.path;
    }
  }

  /** A successful updater appended exactly one entry, Gemfile.lock, to each list. */
  lemma UpdaterAppendsLock(p: Platform, w: World, org: seq<DepFile>, upt: seq<DepFile>,
                           vus: seq<VersionUpdate>)
    requires UpdaterSpec(p, w, org, upt, vus).out.Done?
    ensures var r := UpdaterSpec(p, w, org, upt, vus);
      |r.org| == |org| + 1 && r.org[..|org|] == org && r.org[|org|].path == GemfileLock
      && |r.upt| == |upt| + 1 && r.upt[..|upt|] == upt && r.upt[|upt|].path == GemfileLock
  {
    var r := UpdaterSpec(p, w, org, upt, vus);
    assert r.org[..|org|] == org;
  }

  /**
   * After a successful update set both lists hold the installer's files,
   * in the order of the requirement updates, and then Gemfile.lock.
   */
  lemma InstallerFilesBeforeUpdaterFiles(p: Platform, rd: Reading, w: World, packageType: string,
                                         reqs: seq<RequirementUpdate>, vus: seq<VersionUpdate>)
    requires ApplyUpdateSet(p, rd, w, packageType, reqs, vus).out.Done?
    ensures var r := ApplyUpdateSet(p, rd, w, packageType, reqs, vus);
      |r.org| == |r.upt| == |reqs| + 1
      && (forall k :: 0 <= k < |reqs| ==> r.org[k].path == reqs[k].file.path && r.upt[k].path == reqs[k].file.path)
      && r.org[|reqs|].path == GemfileLock && r.upt[|reqs|].path == GemfileLock
  {
    ApplyUpdateSetDone(p, rd, w, packageType, reqs, vus);
    var s := InstallSpec(p, rd, w, [], [], reqs);
    InstallSpecOriginals(p, rd, w, [], [], reqs);
    InstallSpecUpdated(p, rd, w, [], [], reqs);
    UpdaterAppendsLock(p, s.w, s.org, s.upt, vus);
    FilesThenLock(reqs, s, UpdaterSpec(p, s.w, s.org, s.upt, vus));
  }

  /** The shape `InstallerFilesBeforeUpdaterFiles` states, from the installer's and the updater's facts. */
  lemma FilesThenLock(reqs: seq<RequirementUpdate>, s: Step, r: Step)
    requires OriginalsFollow(0, s.org, reqs) && PathsFollow(0, s.upt, reqs)
    requires |s.org| == |s.upt| == |reqs|
    requires |r.org| == |s.org| + 1 && r.org[..|s.org|] == s.org && r.org[|s.org|].path == GemfileLock
    requires |r.upt| == |s.upt| + 1 && r.upt[..|s.upt|] == s.upt && r.upt[|s.upt|].path == GemfileLock
    ensures |r.org| == |r.upt| == |reqs| + 1
    ensures forall k :: 0 <= k < |reqs| ==> r.org[k].path == reqs[k].file.path && r.upt[k].path == reqs[k].file.path
    ensures r.org[|reqs|].path == GemfileLock && r.upt[|reqs|].path == GemfileLock
  {
    assert PathsFollow(0, s.org, reqs);
    AppendedKeepsEntries(reqs, s.org, r.org);
    AppendedKeepsEntries(reqs, s.upt, r.upt);
  }

  /**
   * After a successful update set the original entries of the installer's
   * files carry the fingerprints the server sent, so a restore puts back
   * the bytes the server knew.
   */
  lemma UpdateSetOriginals(p: Platform, rd: Reading, w: World, packageType: string,
                           reqs: seq<RequirementUpdate>, vus: seq<VersionUpdate>)
    requires ApplyUpdateSet(p, rd, w, packageType, reqs, vus).out.Done?
    ensures var r := ApplyUpdateSet(p, rd, w, packageType, reqs, vus);
      |reqs| < |r.org| && forall k :: 0 <= k < |reqs| ==> r.org[k].sha == reqs[k].file.sha
  {
    ApplyUpdateSetDone(p, rd, w, packageType, reqs, vus);
    var s := InstallSpec(p, rd, w, [], [], reqs);
    InstallSpecOriginals(p, rd, w, [], [], reqs);
    var r := UpdaterSpec(p, s.w, s.org, s.upt, vus);
    assert r.org[..|s.org|] == s.org;
    AppendedKeepsOriginals(reqs, s.org, r.org);
  }

  lemma AppendedKeepsOriginals(reqs: seq<RequirementUpdate>, before: seq<DepFile>, after: seq<DepFile>)
    requires OriginalsFollow(0, before, reqs) && |before| == |reqs|
    requires |after| == |before| + 1 && after[..|before|] == before
    ensures forall k :: 0 <= k < |reqs| ==> after[k].sha == reqs[k].file.sha
  {
    forall k | 0 <= k < |reqs| ensures after[k].sha == reqs[k].file.sha {
      assert after[k] == after[..|before|][k];
      assert before[k].sha == reqs[k - 0].file.sha;
    }
  }

  lemma AppendedKeepsConsistent(sha1: Hasher, before: seq<DepFile>, after: seq<DepFile>)
    requires forall k :: 0 <= k < |before| ==> Consistent(sha1, before[k])
    requires |after| == |before| + 1 && after[..|before|] == before && Consistent(sha1, after[|before|])
    ensures forall k :: 0 <= k < |after| ==> Consistent(sha1, after[k])
  {
    forall k | 0 <= k < |after| ensures Consistent(sha1, after[k]) {
      if k < |before| {
        assert after[k] == after[..|before|][k];
      }
    }
  }

  /** After a successful update set every updated entry carries the fingerprint of its contents. */
  lemma UpdateSetFingerprints(p: Platform, rd: Reading, w: World, packageType: string,
                              reqs: seq<RequirementUpdate>, vus: seq<VersionUpdate>)
    requires ApplyUpdateSet(p, rd, w, packageType, reqs, vus).out.Done?
    ensures var r := ApplyUpdateSet(p, rd, w, packageType, reqs, vus);
      forall k :: 0 <= k < |r.upt| ==> Consistent(p.sha1, r.upt[k])
  {
    ApplyUpdateSetDone(p, rd, w, packageType, reqs, vus);
    var s := InstallSpec(p, rd, w, [], [], reqs);
    InstallSpecUpdatedConsistent(p, rd, w, [], [], reqs);
    var r := UpdaterSpec(p, s.w, s.org, s.upt, vus);
    AppendedKeepsConsistent(p.sha1, s.upt, r.upt);
  }
}
