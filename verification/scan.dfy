/**
 * The local scan for dependency files. `filepath.Walk` visits every entry
 * under the starting directory and asks a visit function what to do; the
 * traversal itself is not modelled here, only each copy's visit function:
 * which entries are pruned, which are recorded, and which stop the walk.
 *
 * The library calls the visit functions make are inputs: `filepath.Rel`
 * (the entry's path relative to the root), `filepath.Match` (a `Matcher`),
 * `depfile.Find` (a boolean) and `regexp.MatchString` on user-supplied
 * patterns (a `RegexMatcher`).
 */
module Scans {
  import opened Text
  import opened Errors
  import opened GitBlob
  import opened Host
  import opened DependencyFiles
  import opened Readings

  /** What the walk passes to the visit function: path, base name, kind. */
  datatype Entry = Entry(path: string, name: string, isDir: bool)

  datatype Visit =
    | Continue                     // nothing recorded
    | Found(file: Option<DepFile>) // record this file (nil in the `models` copy when unreadable)
    | SkipDir                      // prune this directory, or the rest of a file's directory
    | Abort(err: Error)            // stop the walk with this error
    | Crash                        // nil pointer dereference

  /** `filepath.Match(filepath.Clean(pattern), name)`; None for a malformed pattern. */
  type Matcher = (string, string) -> Option<bool>

  /** `regexp.MatchString(pattern, s)`, false when the pattern does not compile. */
  type RegexMatcher = (string, string) -> bool

  // ---------------------------------------------------------------------
  // The supported-name rule of the root and `models` packages

  /**
   * The alternatives of SUPPORTED_DEPENDENCY_FILES. The pattern is anchored
   * only at `$`, and `.*\.gemspec` accepts anything ending in ".gemspec", so
   * a name matches iff it ends with one of these.
   */
  const SupportedSuffixes: seq<string> := ["Gemfile", "Gemfile.lock", ".gemspec", "package.json",
    "npm-shrinkwrap.json", "setup.py", "requirements.txt", "requires.txt", "composer.json",
    "composer.lock", "bower.json"]

  function EndsWithAny(name: string, suffixes: seq<string>): (b: bool)
    ensures b <==> exists i :: 0 <= i < |suffixes| && HasSuffix(name, suffixes[i])
  {
    if suffixes == [] then false
    else if HasSuffix(name, suffixes[0]) then true
    else
      var b := EndsWithAny(name, suffixes[1..]);
      assert forall i :: 1 <= i < |suffixes| ==> suffixes[i] == suffixes[1..][i - 1];
      b
  }

  predicate SupportedName(name: string) {
    EndsWithAny(name, SupportedSuffixes)
  }

  /** Anchored only at the end: any prefix before a supported name keeps it supported. */
  lemma SupportedUnderAnyPrefix(prefix: string, name: string)
    requires SupportedName(name)
    ensures SupportedName(prefix + name)
  {
    var i :| 0 <= i < |SupportedSuffixes| && HasSuffix(name, SupportedSuffixes[i]);
    var s := SupportedSuffixes[i];
    assert (prefix + name)[|prefix + name| - |s|..] == name[|name| - |s|..];
  }

  // ---------------------------------------------------------------------
  // `dependency` package: directory pruning by path component

  const ExcludedDirs: set<string> := {"node_modules", ".bundle", "vendor", ".git"}

  /**
   * As written: the components are taken with `filepath.SplitList`, which
   * splits at the list separator ':' and not at '/'.
   */
  predicate ExcludedAsWritten(rel: string) {
    var parts := SplitList(rel);
    exists i :: 0 <= i < |parts| && parts[i] in ExcludedDirs
  }

  /** Without ':' in it, the whole relative path is the only component as written. */
  lemma ExcludedAsWrittenWholePath(rel: string)
    requires rel != [] && ':' !in rel
    ensures ExcludedAsWritten(rel) <==> rel in ExcludedDirs
  {
    SplitOfPiece(rel, ':');
    var parts := SplitList(rel);
    assert parts == [rel];
    if rel in ExcludedDirs {
      assert parts[0] in ExcludedDirs;
    }
  }

  /**
   * An excluded directory below the top level, such as "web/node_modules",
   * is not pruned as written, while the corrected rule prunes it.
   */
  lemma ExcludedAsWrittenMissesNested(parent: string, dir: string)
    requires parent != [] && ':' !in parent && '/' !in parent
    requires dir in ExcludedDirs
    ensures !ExcludedAsWritten(parent + "/" + dir)
    ensures Excluded(parent + "/" + dir)
  {
    var rel := parent + "/" + dir;
    assert rel[|parent|] == '/';
    assert forall x :: x in ExcludedDirs ==> '/' !in x;
    assert ':' !in rel;
    ExcludedAsWrittenWholePath(rel);
    var elements := [parent, dir];
    assert Join(elements, "/") == rel;
    ExcludedIffSomeElement(elements);
    assert elements[1] in ExcludedDirs;
  }

  /** Corrected: the components of the relative path are its '/'-separated elements. */
  predicate Excluded(rel: string) {
    var parts := Split(rel, '/');
    exists i :: 0 <= i < |parts| && parts[i] in ExcludedDirs
  }

  /** A relative path is pruned iff one of its elements is an excluded directory name. */
  lemma ExcludedIffSomeElement(elements: seq<string>)
    requires |elements| >= 1
    requires forall i :: 0 <= i < |elements| ==> '/' !in elements[i]
    ensures Excluded(Join(elements, "/")) <==> exists i :: 0 <= i < |elements| && elements[i] in ExcludedDirs
  {
    SplitJoin(elements, '/');
  }

  /** The pruning rule of the `dependency` scan, as written (':'-separated) or corrected ('/'-separated). */
  predicate ExcludedBy(rd: Reading, rel: string) {
    match rd
    case AsWritten => ExcludedAsWritten(rel)
    case Corrected => Excluded(rel)
  }

  /** Visiting the ignore patterns in order: None when none matches. */
  function IgnoreVisit(matches: Matcher, ignored: seq<string>, name: string, rel: string): (r: Option<Visit>)
    ensures r.None? || r == Some(SkipDir) || r == Some(Abort(BadPattern))
    ensures r.None? <==> forall i :: 0 <= i < |ignored| ==> Clear(matches, ignored[i], name, rel)
    ensures r == Some(SkipDir) <==> exists i :: (0 <= i < |ignored| && Hit(matches, ignored[i], name, rel)
      && forall j :: 0 <= j < i ==> Clear(matches, ignored[j], name, rel))
  {
    if ignored == [] then None
    else
      var m1 := matches(ignored[0], name);
      if m1.None? then Some(Abort(BadPattern))
      else
        var m2 := matches(ignored[0], rel);
        if m2.None? then Some(Abort(BadPattern))
        else if m1.value || m2.value then Some(SkipDir)
        else
          var r := IgnoreVisit(matches, ignored[1..], name, rel);
          assert forall i :: 1 <= i < |ignored| ==> ignored[i] == ignored[1..][i - 1];
          if r == Some(SkipDir) then
            var i :| 0 <= i < |ignored[1..]| && Hit(matches, ignored[1..][i], name, rel)
              && forall j :: 0 <= j < i ==> Clear(matches, ignored[1..][j], name, rel);
            assert Hit(matches, ignored[i + 1], name, rel);
            r
          else
            r
  }

  /** The pattern matched neither the base name nor the relative path, and is well formed. */
  predicate Clear(matches: Matcher, pattern: string, name: string, rel: string) {
    matches(pattern, name) == Some(false) && matches(pattern, rel) == Some(false)
  }

  /** The pattern is well formed and matched the base name or the relative path. */
  predicate Hit(matches: Matcher, pattern: string, name: string, rel: string) {
    matches(pattern, name).Some? && matches(pattern, rel).Some?
    && (matches(pattern, name).value || matches(pattern, rel).value)
  }

  /**
   * The visit function of the `dependency` package. `rel` is the entry's
   * path relative to the scanned root and `isDepFile` says whether
   * `depfile.Find` recognises it. A recognised file is recorded under its
   * relative path; one that cannot be read is a nil file whose path the
   * code then dereferences. The excluded-directory test is the one `rd`
   * selects.
   */
  function ScanVisit(rd: Reading, sha1: Hasher, disk: FileSystem, matches: Matcher, ignored: seq<string>,
                     e: Entry, rel: string, isDepFile: bool): (v: Visit)
    ensures ExcludedBy(rd, rel) ==> v == SkipDir
    ensures !ExcludedBy(rd, rel) ==> (v == SkipDir <==> IgnoreVisit(matches, ignored, e.name, rel) == Some(SkipDir))
    ensures v.Found? ==> (!ExcludedBy(rd, rel) && isDepFile && v.file.Some? && v.file.value.path == rel
      && e.path in disk && v.file.value.content == disk[e.path] && Consistent(sha1, v.file.value))
    ensures (v.Found? || v == Crash) <==>
      (!ExcludedBy(rd, rel) && IgnoreVisit(matches, ignored, e.name, rel).None? && isDepFile)
    ensures v == Crash ==> e.path !in disk
    ensures !ExcludedBy(rd, rel) && IgnoreVisit(matches, ignored, e.name, rel).Some? ==>
      v == IgnoreVisit(matches, ignored, e.name, rel).value
    ensures v == Continue <==> (!ExcludedBy(rd, rel) && IgnoreVisit(matches, ignored, e.name, rel).None? && !isDepFile)
  {
    if ExcludedBy(rd, rel) then SkipDir
    else
      match IgnoreVisit(matches, ignored, e.name, rel)
      case Some(stop) => stop
      case None =>
        if !isDepFile then Continue
        else
          match NewDependencyFile(sha1, disk, e.path)
          case None => Crash
          case Some(df) => Found(Some(df.(path := rel)))
  }

  /**
   * A nested `node_modules` (or other excluded) directory that no ignore
   * pattern matches: the scan as written descends into it, the corrected
   * scan prunes it.
   */
  lemma ScanVisitNestedExcluded(sha1: Hasher, disk: FileSystem, matches: Matcher, ignored: seq<string>,
                                e: Entry, parent: string, dir: string)
    requires parent != [] && ':' !in parent && '/' !in parent && dir in ExcludedDirs
    requires IgnoreVisit(matches, ignored, e.name, parent + "/" + dir).None?
    ensures ScanVisit(AsWritten, sha1, disk, matches, ignored, e, parent + "/" + dir, false) == Continue
    ensures ScanVisit(Corrected, sha1, disk, matches, ignored, e, parent + "/" + dir, false) == SkipDir
  {
    ExcludedAsWrittenMissesNested(parent, dir);
  }

  // ---------------------------------------------------------------------
  // Root package

  /**
   * The visit function of the root package: prune `.git`, and record every
   * supported name under its base name with the placeholder fingerprint
   * "sha"; a supported name that cannot be read stops the walk.
   */
  function LegacyScanVisit(disk: FileSystem, e: Entry): (v: Visit)
    ensures v == SkipDir <==> e.isDir && e.name == ".git"
    ensures v.Found? <==> !(e.isDir && e.name == ".git") && SupportedName(e.name) && e.path in disk
    ensures v.Found? ==> v.file == Some(DepFile(e.name, "sha", disk[e.path]))
    ensures v.Abort? ==> v.err == ReadFailed(e.path)
    ensures v != Crash
  {
    if e.isDir && e.name == ".git" then SkipDir
    else if SupportedName(e.name) then
      if e.path in disk then Found(Some(DepFile(e.name, "sha", disk[e.path])))
      else Abort(ReadFailed(e.path))
    else Continue
  }

  // ---------------------------------------------------------------------
  // `models` package

  /**
   * As written: when ignored paths are configured, the pattern actually
   * used is the GEMNASIUM_IGNORED_PATHS variable, compiled as one regular
   * expression, whatever the configured paths are.
   */
  predicate ModelsIgnoredAsWritten(ignoredPaths: seq<string>, envPattern: string,
                                   regex: RegexMatcher, name: string) {
    |ignoredPaths| > 0 && regex(envPattern, name)
  }

  /**
   * With ignored paths only in the config file the variable is unset, so
   * the pattern is empty; the empty regular expression matches every name,
   * so every entry, the root included, is pruned.
   */
  lemma ModelsIgnoredAsWrittenPrunesEverything(ignoredPaths: seq<string>, regex: RegexMatcher, name: string)
    requires ignoredPaths != []
    requires forall s :: regex("", s)
    ensures ModelsIgnoredAsWritten(ignoredPaths, "", regex, name)
  {
    assert regex("", name);
  }

  /** Corrected: an entry is ignored when one of the configured patterns matches its name. */
  predicate ModelsIgnored(ignoredPaths: seq<string>, regex: RegexMatcher, name: string) {
    exists i :: 0 <= i < |ignoredPaths| && regex(ignoredPaths[i], name)
  }

  /** The ignore rule of the `models` scan, as written or corrected. */
  predicate ModelsIgnoredBy(rd: Reading, ignoredPaths: seq<string>, envPattern: string,
                            regex: RegexMatcher, name: string) {
    match rd
    case AsWritten => ModelsIgnoredAsWritten(ignoredPaths, envPattern, regex, name)
    case Corrected => ModelsIgnored(ignoredPaths, regex, name)
  }

  /**
   * The visit function of the `models` package: prune `.git` and ignored
   * names, and record a (possibly nil) snapshot of every supported name.
   * `envPattern` is the GEMNASIUM_IGNORED_PATHS variable.
   */
  function ModelsScanVisit(rd: Reading, sha1: Hasher, disk: FileSystem, ignoredPaths: seq<string>,
                           envPattern: string, regex: RegexMatcher, e: Entry): (v: Visit)
    ensures v == SkipDir <==>
      (e.isDir && e.name == ".git") || ModelsIgnoredBy(rd, ignoredPaths, envPattern, regex, e.name)
    ensures v.Found? <==> v != SkipDir && SupportedName(e.name)
    ensures v.Found? ==> v.file == NewDependencyFile(sha1, disk, e.path)
    ensures v == Continue || v == SkipDir || v.Found?
  {
    if e.isDir && e.name == ".git" then SkipDir
    else if ModelsIgnoredBy(rd, ignoredPaths, envPattern, regex, e.name) then SkipDir
    else if SupportedName(e.name) then Found(NewDependencyFile(sha1, disk, e.path))
    else Continue
  }

  /**
   * As written, configured ignored paths with the variable unset prune the
   * walk at its root: nothing is found, whatever the patterns say.
   */
  lemma ModelsScanAsWrittenPrunesRoot(sha1: Hasher, disk: FileSystem, ignoredPaths: seq<string>,
                                      regex: RegexMatcher, e: Entry)
    requires ignoredPaths != []
    requires forall s :: regex("", s)
    ensures ModelsScanVisit(AsWritten, sha1, disk, ignoredPaths, "", regex, e) == SkipDir
  {
    ModelsIgnoredAsWrittenPrunesEverything(ignoredPaths, regex, e.name);
  }

  /**
   * With the corrected rule the scan is never cut short merely because
   * ignored paths are configured: an entry no pattern matches is visited.
   */
  lemma ModelsScanVisitsUnmatched(sha1: Hasher, disk: FileSystem, ignoredPaths: seq<string>,
                                  envPattern: string, regex: RegexMatcher, e: Entry)
    requires !(e.isDir && e.name == ".git")
    requires forall i :: 0 <= i < |ignoredPaths| ==> !regex(ignoredPaths[i], e.name)
    ensures ModelsScanVisit(Corrected, sha1, disk, ignoredPaths, envPattern, regex, e) != SkipDir
  {
  }
}
