# gemnasium toolbelt: the auto-update backends, fingerprints and precedence rules in Dafny

This project models the core of the Gemnasium command-line client (the
`gemnasium` toolbelt, written in Go) and proves properties of that model.
Four groups of the client's logic are modelled:

1. **Auto-update backends.** These are the installer and updater registries
   and the Rubygem installer and updater. The installer patches each
   dependency file and runs `bundle install`, retrying once when bundler
   suggests a command. The updater snapshots `Gemfile.lock` and runs
   `bundle update` with the package names. Both append to an "original
   files" list (the rollback set) and an "updated files" list. A thin driver
   runs the installer, then the updater. It is inferred from the package's
   test, because the orchestrator is not part of this model.
2. **Dependency-file fingerprints.** A file's fingerprint is Git's blob id:
   SHA-1 over `"blob " ++ decimal(len) ++ NUL ++ content`, printed as
   lower-case hex. The model covers the check against disk, refresh in
   place, patch-then-refresh, lookup of explicit file lists, and the
   per-entry rules of the directory scans. The client has three copies of
   this code (`dependency/`, the root package and `models/`).
3. **The v2 → v1 API adapter.** This covers field conversions and their round
   trips, the basename sanitiser, grouping of the project listing by owner,
   the `desc` → `description` rename, and the choice of team on creation.
4. **Precedence rules.** These decide:
   - the project slug;
   - the project update body;
   - the listing's visibility filter and counts;
   - the API key (netrc, config, `--token`);
   - the config file against the environment;
   - revision and branch (environment, else git);
   - the status dots.

The files are:
- `reading.dfy`: `Reading`, the choice between the code as written and its corrected form.
- `errors.dfy`: `Option`, `Result` and the client's error messages.
- `text.dfy`: the parts of Go's `strings`, `strconv`, `path` and `filepath` that are used.
- `fingerprint.dfy`: the Git blob fingerprint.
- `host.dfy`: disk, environment, `$PATH`, subprocesses, and the `Machine` class.
- `depfile.dfy`: dependency files and the `DependencyFile` class.
- `scan.dfy`: the scan visit functions.
- `autoupdate.dfy`: the registries, backends and driver.
- `api.dfy`: the v1/v2 records and the adapter.
- `project.dfy`: the project commands.
- `config.dfy`: the settings and the `Settings` class.
- `auth.dfy`: credentials and login.
- `utils.dfy`: status dots, revision and branch.

Several things outside the Dafny program are inputs to the model:
- **Disk.** A `map<string, seq<byte>>`; a path that is absent cannot be read.
- **SHA-1.** A parameter `sha1`. Only the input it is applied to and the printing of its digest are modelled.
- **Subprocesses.** `patch`, `bundle`, `git` and the retried command are oracles: the i-th process started gets `respond(i)`, which says whether it started, its exit status, its stdout lines and the disk it left behind. Every started command is logged in a trace.
- **Server, netrc and `url.Parse`.** Their answers are parameters.

Where the code and its evident intent differ (see "## Findings"), the members
that model that code take a `Reading`: `AsWritten` computes what the code
does and `Corrected` what it evidently means to do. This applies to the
installer's working directory, the two scans' pruning rules and the
adapter's description rename. Lemmas state both behaviours and where they
differ.

The imperative Go code (the backends, the `DependencyFile` methods, `loadConfig`/`loadEnv`, `AttemptLogin`, the loops of `GetProject`, `ProjectList` and `ListProjects`) is modelled by methods. Each method is proved equal to a specification function, and the properties are lemmas about those functions.

## Model

| member | source | states |
|---|---|---|
| Host.Getenv | config/config.go:46 | an unset variable reads as the empty string, a set one as its value |
| Host.Run | autoupdate/installers.go:51-54 | starting a command appends it to the trace; the result is the platform's answer for that process; the disk becomes the one the process left, or stays when it did not start |
| Host.Machine.constructor | autoupdate/installers.go:51 | the machine starts in the given state on the given platform |
| Host.Machine.Exec | autoupdate/installers.go:51-54 | running a command on the machine equals `Run` on its state |
| Host.FirstTryRunning | autoupdate/installers.go:58-64 | the first "Try running \`X\`" line of stdout, X being its submatch; None iff no line has that form |
| GitBlob.BlobHeaderShape | dependency/dependency_file.go:120 | the header is "blob ", the decimal length and a NUL, which is its only NUL byte |
| GitBlob.BlobInputInjective | dependency/dependency_file.go:119-123 | different contents never give the same digest input |
| GitBlob.Fingerprint | dependency/dependency_file.go:119-125 | the fingerprint is 40 lower-case hex digits |
| GitBlob.SameFingerprintIsCollision | dependency/dependency_file.go:114-126 | equal fingerprints of different contents imply a SHA-1 collision |
| Text.BytesToString | api/v2tov1.go:186 | `string(b)`: one character per byte, same values |
| Text.StringToBytes | api/v2tov1.go:180 | `[]byte(s)`: one byte per character, same values |
| Text.BytesStringBytes | api/v2tov1.go:180-186 | bytes → string → bytes is the identity |
| Text.StringBytesString | api/v2tov1.go:180-186 | string → bytes → string is the identity on byte strings |
| Text.Fields | autoupdate/installers.go:50 | `strings.Fields`: non-empty words without white space |
| Text.FieldsOfJoin | autoupdate/installers.go:50 | splitting words joined by spaces gives the words back |
| Text.FieldsConcat | autoupdate/installers.go:50 | whatever the spacing, the words run together are exactly the line's non-space characters, in order |
| Text.FieldsEmptyIffAllSpace | autoupdate/installers.go:50-51 | a command line has no word iff it is white space only, the case in which `parts[0]` panics |
| Text.Split | config/config.go:87 | `strings.Split` on one character: at least one piece, none containing the separator |
| Text.JoinSplit | config/config.go:87 | joining the pieces with the separator gives the original string |
| Text.SplitJoin | config/config.go:87 | splitting pieces without the separator joined by it gives the pieces back |
| Text.TrimSpace | utils/utils.go:81 | the result has no white space at either end, and the input is the result padded with white space only |
| Text.TrimSpaceIdempotent | utils/utils.go:81 | trimming twice equals trimming once |
| Text.Decimal | dependency/dependency_file.go:120 | `%d`: a non-empty run of digits |
| Text.DecimalRoundTrip | dependency/dependency_file.go:120 | parsing the decimal form gives the number back |
| Text.Hex | dependency/dependency_file.go:125 | `%x`: two lower-case hex digits per byte |
| Text.HexRoundTrip | dependency/dependency_file.go:125 | reading back the hex form gives the bytes |
| Text.HexInjective | dependency/dependency_file.go:125 | different digests print differently |
| Text.PathDir | autoupdate/installers.go:52 | `path.Dir`: "." without a slash; for a relative path with a slash, a non-empty prefix that the path continues with '/' |
| Text.PathDirOfJoin | autoupdate/installers.go:52 | the directory of "dir/name" is "dir" |
| Text.SplitList | dependency/dependency_file.go:162 | `filepath.SplitList`: pieces without ':' that join with ':' back to the path |
| DependencyFiles.GetFileSHA1 | dependency/dependency_file.go:114-126 | Ok iff the file is readable, with the fingerprint of its current bytes; else a read error (the same in dependency_files.go:124-136 and models/dependency_file.go:123-135) |
| DependencyFiles.NewDependencyFile | dependency/dependency_file.go:22-32 | nil iff unreadable; otherwise path = argument, content = disk bytes, sha = their fingerprint |
| DependencyFiles.CheckFileSHA1 | dependency/dependency_file.go:34-44 | nil iff the file is readable and its fingerprint equals the recorded one; otherwise the read error or the "File signature doesn't match" error with expected and actual sums (same in dependency_files.go:44-54, models/dependency_file.go:43-53) |
| DependencyFiles.CheckPassesWhileUnchanged | dependency/dependency_file.go:22-44 | a fresh snapshot passes the check while the file keeps its bytes |
| DependencyFiles.PassingCheckMeansSameBytes | dependency/dependency_file.go:34-44 | a passing check on a consistent record means the disk holds the recorded bytes, barring a SHA-1 collision |
| DependencyFiles.ShaRefreshed | dependency/dependency_file.go:46-53 | `UpdateSHA`: path and content kept; sha = fingerprint of the file now; an unreadable file leaves the record unchanged |
| DependencyFiles.Refreshed | dependency/dependency_file.go:55-67 | `Update`: content = disk bytes and sha = their fingerprint; an unreadable file leaves the record unchanged |
| DependencyFiles.RefreshedIdempotent | dependency/dependency_file.go:55-67 | refreshing twice from the same disk equals refreshing once |
| DependencyFiles.PatchSpec | dependency/dependency_file.go:71-110 | no `patch` on $PATH: error, nothing run; otherwise exactly one `patch <path>` started with the patch on stdin, and the machine is the one it left; a process that did not start gives the start error, a non-zero exit gives "exit status <code>"; success iff it exited 0 and the file is still readable; on error the record is untouched; after exit 0 the record is refreshed from the new disk, holding the new bytes and their fingerprint |
| DependencyFiles.PatchChangesFingerprint | dependency/dependency_file.go:71-110 | a successful patch that changed the bytes changes the fingerprint, barring a collision |
| DependencyFiles.DependencyFile.constructor | dependency_files.go:24-28 | the object holds the given path, sha and content |
| DependencyFiles.DependencyFile.UpdateSHA | dependency_files.go:56-63 | the object becomes `ShaRefreshed` of its old value; the error is the read error |
| DependencyFiles.DependencyFile.Update | dependency_files.go:65-77 | the object becomes `Refreshed` of its old value; the error is the read error (models/dependency_file.go:64-76 alike) |
| DependencyFiles.DependencyFile.Patch | dependency_files.go:81-120 | object, machine and error are exactly `PatchSpec` of the old state (models/dependency_file.go:80-119 alike) |
| DependencyFiles.LookupDependencyFiles | dependency/dependency_file.go:269-292 | with paths: snapshots in order, stopping with "Unable to read file: <path>" at the first unreadable path; without paths: the scan's result or error |
| DependencyFiles.LookupDependencyFilesNilTolerant | models/dependency_file.go:227-243 | with paths: one entry per path in order, nil for unreadable, never an error; without paths: the scan's entries |
| DependencyFiles.ListSlugGuard | dependency_files.go:138-141 | an error iff the slug is empty, with the message "[projectSlug] can't be empty" |
| Scans.EndsWithAny | dependency_files.go:22 | true iff the name ends with one of the suffixes |
| Scans.SupportedUnderAnyPrefix | dependency_files.go:22 | the pattern is anchored only at the end: any prefix keeps a supported name supported |
| Scans.ExcludedAsWrittenWholePath | dependency/dependency_file.go:162-166 | as written, a relative path without ':' is pruned iff the whole path is an excluded name |
| Scans.ExcludedAsWrittenMissesNested | dependency/dependency_file.go:162-166 | "parent/node_modules" is not pruned as written but is by the corrected rule |
| Scans.ExcludedIffSomeElement | dependency/dependency_file.go:162-166 | corrected: a path is pruned iff one of its elements is node_modules, .bundle, vendor or .git |
| Scans.IgnoreVisit | dependency/dependency_file.go:168-184 | the walk continues iff every pattern is well formed and matches neither the base name nor the relative path; it prunes iff the first pattern that is not clear matched; a malformed pattern stops the walk |
| Scans.ScanVisit | dependency/dependency_file.go:154-198 | with the excluded-directory test as written (`ExcludedAsWritten`) or corrected (`Excluded`): excluded paths and ignored entries are pruned; otherwise the ignore patterns' verdict is the visit's, so a malformed pattern stops the walk; Continue iff the entry is neither excluded, ignored nor recognised; a recognised readable file is recorded under its relative path, with its bytes and fingerprint; a recognised unreadable one crashes |
| Scans.ScanVisitNestedExcluded | dependency/dependency_file.go:162-166 | a visit of "parent/node_modules" that no pattern ignores continues as written and is pruned corrected |
| Scans.LegacyScanVisit | dependency_files.go:190-211 | prunes exactly a `.git` directory; records a readable supported name under its base name with sha "sha"; an unreadable one stops the walk |
| Scans.ModelsIgnoredAsWrittenPrunesEverything | models/dependency_file.go:164-168 | as written, configured ignored paths with the variable unset ignore every name, given that the empty regular expression matches every string |
| Scans.ModelsScanVisit | models/dependency_file.go:157-180 | prunes exactly `.git` and the names the ignore rule matches: as written the GEMNASIUM_IGNORED_PATHS pattern once ignored paths are configured, corrected any configured pattern; records the snapshot, possibly nil, of every other supported name |
| Scans.ModelsScanAsWrittenPrunesRoot | models/dependency_file.go:164-168 | as written, configured ignored paths with the variable unset prune every entry, the root included |
| Scans.ModelsScanVisitsUnmatched | models/dependency_file.go:164-168 | corrected: an entry no configured pattern matches is not pruned, whatever the variable holds |
| AutoUpdate.FileList.constructor | autoupdate/installers.go:39 | the list holds the given files |
| AutoUpdate.FileList.Append | autoupdate/installers.go:94 | `*list = append(*list, f)`: the old list followed by f |
| AutoUpdate.NewRequirementsInstaller | autoupdate/installers.go:28-37 | Ok iff the type is "Rubygem"; otherwise the error "Can't find installer for package type: <type>\n" |
| AutoUpdate.NewUpdater | autoupdate/updaters.go:33-42 | Ok iff "Rubygem"; otherwise "Can't find updater for package type: <type>\n" |
| AutoUpdate.NewUpdaterLegacy | updaters.go:27-33 | the updater for "Rubygem"; nil, and no error, for any other type |
| AutoUpdate.PatchFileSpec | autoupdate/installers.go:86-102 | a failing check returns its error with lists and machine unchanged; otherwise the refreshed original is appended before patching, the machine is the one the patch left, `patch` runs once when on $PATH, the outcome is Done iff the patch succeeded, a patch failure returns its error and leaves the updated list unchanged, and success appends the patch's file for the same path, holding the disk's new bytes |
| AutoUpdate.PatchFileSpecConsistent | autoupdate/installers.go:93-100 | the updated entry carries the fingerprint of its bytes |
| AutoUpdate.PatchFile | autoupdate/installers.go:86-102 | machine, both lists and outcome are exactly `PatchFileSpec` of the old state |
| AutoUpdate.Diagnose | autoupdate/installers.go:58-78 | Retry iff some line is "Try running \`X\`", with X from the first such line; otherwise Incompatible iff some line starts with the compatible-versions message |
| AutoUpdate.InstallCommandLine | autoupdate/installers.go:46-49 | GEMNASIUM_BUNDLE_INSTALL_CMD when non-empty, else "bundle install" |
| AutoUpdate.DefaultInstallArgv | autoupdate/installers.go:46-51 | without the override the command is `bundle` `install` |
| AutoUpdate.InstallDirAsWritten | autoupdate/installers.go:52 | as written the install directory is always "." |
| AutoUpdate.InstallDirIsFileDirectory | autoupdate/installers.go:52 | corrected: the directory of "dir/name" is dir, which differs from the as-written "." whenever dir is not "." |
| AutoUpdate.WorkDir | autoupdate/installers.go:52-67 | the directory of the install and of the retry: "." as written (`path.Dir("f.Path")` at :52 and :67), the file's directory corrected |
| AutoUpdate.Reinstall | autoupdate/installers.go:50-79 | the lists are untouched; the install command runs in "." as written (installers.go:52) or in the file's directory corrected, then at most one more command; an empty command line panics |
| AutoUpdate.InstallOne | autoupdate/installers.go:41-79 | a failed `PatchFile` ends the iteration as it is; after a successful one the install command is the next process, in "." as written or the file's directory corrected |
| AutoUpdate.InstallRequirement | autoupdate/installers.go:41-79 | the loop body on the machine and the two lists is exactly `InstallOne` of the old state |
| AutoUpdate.RunInstall | autoupdate/installers.go:50-79 | the install and its retry on the machine are exactly `Reinstall` of the old state, the lists untouched |
| AutoUpdate.InstallSpecStep | autoupdate/installers.go:40-44 | the installer from the i-th update on is that update's iteration, then, only if it succeeded, the rest |
| AutoUpdate.Chain | autoupdate/installers.go:40-44 | an empty list of requirement updates succeeds and starts no command |
| AutoUpdate.RubygemsInstaller | autoupdate/installers.go:39-83 | machine, both lists and outcome are exactly `InstallSpec` for the chosen working directory: the updates in order, stopping at the first that does not succeed |
| AutoUpdate.InstallRetriesOnce | autoupdate/installers.go:54-78 | after a patch, success continues with one process; a Try-running line makes exactly that command run once more, in the same directory, and its result decides (else "Can't install requirements"), or panics when it has no word; a compatible-versions line gives that error with no further command; anything else gives the process error |
| AutoUpdate.InstallRunsInWorkDir | autoupdate/installers.go:52 | after patching "dir/name", the install command runs in "." as written and in dir corrected |
| AutoUpdate.InstallOneLists | autoupdate/installers.go:86-101 | one iteration appends at most one original entry (path and sha as sent) and at most one updated entry for the same path, exactly one of each on success; the trace only grows |
| AutoUpdate.InstallOneConsistent | autoupdate/installers.go:93-100 | the updated entry an iteration adds is consistent with its bytes |
| AutoUpdate.InstallSpecGrows | autoupdate/installers.go:39-83 | the installer only appends to both lists and the trace; at most one update has an original entry and no updated one; on success each list grew by one per update |
| AutoUpdate.InstallSpecOriginals | autoupdate/installers.go:87-94 | the k-th original entry added is the k-th update's file with the path and fingerprint the server sent |
| AutoUpdate.InstallSpecUpdated | autoupdate/installers.go:96-100 | the k-th updated entry added is the k-th update's file |
| AutoUpdate.InstallSpecUpdatedConsistent | autoupdate/installers.go:93-100 | every updated entry added carries the fingerprint of its bytes |
| AutoUpdate.UpdateCommandLine | autoupdate/updaters.go:49-52 | GEMNASIUM_BUNDLE_UPDATE_CMD when non-empty, else "bundle update" (updaters.go:40-43 alike) |
| AutoUpdate.PackageNames | autoupdate/updaters.go:54-57 | the package names, one per update, in order |
| AutoUpdate.UpdateArgv | autoupdate/updaters.go:53-57 | the command line's fields followed by each package name in input order |
| AutoUpdate.DefaultUpdateArgv | autoupdate/updaters.go:49-57 | without the override: `bundle` `update` and the names |
| AutoUpdate.UpdateCommand | autoupdate/updaters.go:53-57 | the loop builds exactly `UpdateArgv` (updaters.go:44-48 alike) |
| AutoUpdate.AppendNames | autoupdate/updaters.go:54-57 | the loop appends each package name in order |
| AutoUpdate.UpdaterSpec | autoupdate/updaters.go:44-74 | Gemfile.lock is snapshotted into the original list before any command, even with no updates (a missing lock panics; an empty argv, i.e. no command words and no updates, panics with nothing run); otherwise one update command runs, and the machine is the one it left; Done iff it succeeded; a compatible-versions line gives "Can't update versions", exactly when it appears in the output of a failed run, and any other failure the raw process error; any failure leaves the updated list unchanged; success appends the lock refreshed from the disk the command left (updaters.go:35-65 alike) |
| AutoUpdate.RubygemsUpdater | autoupdate/updaters.go:44-74 | machine, both lists and outcome are exactly `UpdaterSpec` (updaters.go:35-65 alike) |
| AutoUpdate.UpdaterAppendsLock | autoupdate/updaters.go:46-47 | a successful updater grew each list by exactly one entry, Gemfile.lock, keeping the old entries |
| AutoUpdate.ApplyUpdateSet | autoupdate/auto_update_test.go:98-126 | inferred driver, with either installer directory: an unknown package type fails the lookup with empty lists |
| AutoUpdate.ApplyUpdateSetDone | autoupdate/auto_update_test.go:126-129 | a successful update set means a Rubygem type, a successful installer with one entry per update in each list, and the updater run on those lists |
| AutoUpdate.InstallerFilesBeforeUpdaterFiles | autoupdate/auto_update_test.go:130-143 | after a successful update set both lists hold the installer's files in update order, then Gemfile.lock |
| AutoUpdate.UpdateSetOriginals | autoupdate/updaters.go:25-31 | the original entries of the installer's files carry the fingerprints the server sent: the rollback set |
| AutoUpdate.UpdateSetFingerprints | autoupdate/updaters.go:25-31 | every updated entry reported carries the fingerprint of its contents |
| Api.V2ProjectToV1 | api/v2tov1.go:157-166 | the v1 record agrees with the v2 project on name, slug, description, origin, private and color, is monitored, takes the latest commit's SHA, and keeps the receiver's unmonitored reason |
| Api.V1ProjectToV2 | api/v2tov1.go:167-175 | the v2 record agrees with the v1 project on the six shared fields, its latest commit carries only the commit SHA (no branch), and basename, manageable, syncable and team stay the receiver's |
| Api.V2DependencyFileToV1 | api/v2tov1.go:177-181 | same path and sha; the content is the string's bytes, so converting it back gives the string |
| Api.V1DependencyFileToV2 | api/v2tov1.go:183-187 | same path and sha; the content is the bytes as a string, so converting it back gives the bytes |
| Api.ProjectRoundTrip | api/v2tov1.go:157-175 | v1 → v2 → v1 keeps name, slug, description, origin, private, color and commit SHA, forces monitored, and keeps the receiver's unmonitored reason |
| Api.V2ProjectRoundTrip | api/v2tov1.go:157-175 | v2 → v1 → v2 keeps every shared field but the commit's branch |
| Api.DependencyFileRoundTrip | api/v2tov1.go:177-187 | a dependency file survives v1 → v2 → v1: path, sha and bytes |
| Api.V2DependencyFileRoundTrip | api/v2tov1.go:177-187 | and v2 → v1 → v2 |
| Api.MakeBasename | api/v2tov1.go:189-195 | the result holds only `[a-zA-Z0-9_-]` and keeps every such character of the name, with the same counts |
| Api.MakeBasenameAppend | api/v2tov1.go:189-195 | the filter distributes over concatenation, so it keeps the order |
| Api.MakeBasenameKeeps | api/v2tov1.go:189-195 | a name of kept characters is unchanged |
| Api.MakeBasenameIdempotent | api/v2tov1.go:189-195 | applying it twice equals applying it once |
| Api.GroupOfAbsent | api/v2tov1.go:72-87 | an owner with no project has an empty group |
| Api.ProjectPlacedOnce | api/v2tov1.go:73-87 | every listed project sits in its owner's group ("owned" for the current user) at the position given by its predecessors in that group: placed once, listing order kept |
| Api.ProjectList | api/v2tov1.go:61-89 | an error of either call is returned before grouping; otherwise the keys are exactly the owners and each group is `GroupOf` |
| Api.AdaptUpdateAsWritten | api/v2tov1.go:95-98 | as written: a body whose "desc" is "" is unchanged; any other body loses "desc" and gains "description" holding its value, nil when it was absent, every other entry kept |
| Api.AdaptUpdateAsWrittenClearsDescription | api/v2tov1.go:95-98 | as written, a body without "desc" gains "description": nil |
| Api.AdaptUpdate | api/v2tov1.go:95-98 | corrected: a non-empty "desc" moves to "description", every other entry kept; any other body is unchanged |
| Api.AdaptUpdateAgreesWithDesc | api/v2tov1.go:95-98 | the corrected and as-written renames agree whenever "desc" is present |
| Api.AdaptUpdateIdempotent | api/v2tov1.go:95-98 | renaming twice equals renaming once |
| Api.UpdateBody.constructor | api/v2tov1.go:90 | the body holds the given entries |
| Api.ProjectUpdate | api/v2tov1.go:90-102 | the caller's map is renamed in place, by `AdaptUpdateAsWritten` as written or `AdaptUpdate` corrected; the converted project and that map are sent, and the server's error is returned unchanged |
| Api.ProjectCreate | api/v2tov1.go:103-118 | no teams gives "Current user has no team !"; otherwise the first team's slug, basename = `makeBasename(name)`, and a project that converts back to the caller's with monitored set |
| Projects.LastNonEmpty | project/project.go:195-201 | the last non-empty argument, None iff all are empty |
| Projects.GetProject | project/project.go:195-206 | an error iff the configured slug and all arguments are empty ("[project slug] can't be empty"); otherwise a project with only the slug set: the last non-empty argument, else the configured slug (models/project.go:241-252 alike) |
| Projects.ArgumentBeatsConfig | models/project.go:241-247 | the last non-empty argument wins over the configured slug |
| Projects.FlagBeatsConfiguredSlug | models/project.go:241-247 | a non-empty `-p` flag beats the configured slug |
| Projects.UpdateBodyOf | project/project.go:92-101 | the keys are exactly "name", "desc" and "monitored" for the arguments given, each holding its value |
| Projects.BuildUpdate | project/project.go:88-101 | all arguments absent gives the "Please specify at least one thing to update…" error; otherwise the non-empty body (models/project.go:104-117 alike) |
| Projects.ProjectUpdate | project/project.go:87-109 | without arguments no request is made; otherwise the body is sent and the API's error is returned unchanged |
| Projects.Update | models/project.go:103-130 | the same, as a PATCH of "/projects/<slug>" |
| Projects.UpdateWithoutDescClearsDescriptionAsWritten | project/project.go:92-102 | through the adapter as written, an update without a description asks the server to clear it |
| Projects.UpdateThroughAdapter | project/project.go:92-102 | through the corrected adapter a body without description is sent unchanged, and a non-empty description arrives as "description" |
| Projects.ShownOf | project/project.go:36-49 | the shown projects are at most the group |
| Projects.ShownOfFilters | project/project.go:36-40 | exactly the projects that are monitored, and private when only private ones are asked for, are shown |
| Projects.ShownAndHiddenPartition | project/project.go:48-51 | shown and hidden projects partition the group (as a multiset), so the printed hidden count is the number the filter dropped |
| Projects.PartitionMultiset | project/project.go:36-49 | each project of a group is shown or hidden, once |
| Projects.RowsOf | project/project.go:41-47 | one row per shown project: name, slug, "private" or "" |
| Projects.ShownRows | project/project.go:36-49 | the inner loop builds exactly the rows and count of the shown projects |
| Projects.ListGroup | project/project.go:30-51 | an owner's report: the "Shared by" header unless "owned", the rows, the shown count and the hidden count |
| Projects.ListProjects | project/project.go:22-54 | a listing error is returned; otherwise every owner gets its report (models/project.go:46-71 alike) |
| Config.GetEnvOrElse | config/config.go:45-51 | the variable's value when non-empty, else the default |
| Config.MissingConfigFileChangesNothing | config/config.go:54-57 | an unreadable config file changes nothing |
| Config.ConfigAppendsIgnoredPaths | config/config.go:75-79 | the file's ignored_paths come after the existing ones, in order; raw format untouched |
| Config.EnvOverridesFile | config/config.go:40-43 | after start-up a non-empty endpoint/token/slug variable wins over the file, an empty one keeps the file's value |
| Config.DefaultsWithoutFileOrEnv | config/config.go:12-19 | with neither file nor variables the settings are the declared defaults |
| Config.IgnoredPathsFromEnv | config/config.go:86-88 | a non-empty GEMNASIUM_IGNORED_PATHS becomes its untrimmed comma-separated pieces |
| Config.RawFormatNeverCleared | config/config.go:89-91 | raw format ends true iff it was true or the variable is non-empty: never switched off |
| Config.EnvAppliedIdempotent | config/config.go:82-92 | applying the environment twice equals applying it once |
| Config.Settings.constructor | config/config.go:12-19 | the variables start at their declared values |
| Config.Settings.LoadConfig | config/config.go:53-80 | the outcome is `ConfigApplied`: a missing file changes nothing, an undecodable one exits with status 1, a value of the wrong type panics; string keys override and ignored_paths is appended |
| Config.Settings.AppendIgnoredPaths | config/config.go:75-79 | appends every entry in order iff all are strings; nothing else changes |
| Config.Settings.LoadEnv | config/config.go:82-92 | the settings become `EnvApplied` of the old ones |
| Config.Settings.Init | config/config.go:40-43 | the file, then the environment: the outcome is `Startup` |
| Auth.GetCreds | util.go:75-98 | no netrc gives empty credentials; an unparsable URL or a missing host is fatal with its message; user info in the URL wins over the netrc; an unknown host gives ("","") |
| Auth.UserInfoBeatsNetrc | auth/auth.go:201-204 | with user info in the endpoint the netrc content does not matter |
| Auth.NoMachineNoCreds | auth/auth.go:206-209 | no matching machine and no user info give ("","") |
| Auth.ConfiguredKeySkipsNetrc | util.go:142-145 | a non-empty configured key is kept and netrc and URL are never consulted |
| Auth.EmptyKeyTakesNetrcPassword | util.go:143-145 | an empty key becomes the netrc password when no token is given |
| Auth.TokenOverrides | util.go:146-150 | a non-empty token is the final key |
| Auth.EmptyKeyRefused | util.go:151-155 | refused iff key, token and netrc password are all empty: the command-line copy returns ErrEmptyToken, the `auth` copy (auth/auth.go:125-128) exits with its text |
| Auth.CopiesAgree | auth/auth.go:115-129 | both copies compute the same key and log in on the same inputs |
| Auth.ClientConfig.constructor | util.go:141 | the configuration holds the given endpoint and key |
| Auth.AttemptLoginWithConfig | util.go:141-156 | the configuration's key and the outcome are exactly `LoginSpec` with return-on-empty; the endpoint is kept |
| Auth.AttemptLogin | auth/auth.go:115-129 | only the package-level key changes, as `LoginSpec` with exit-on-empty says |
| Utils.Light | utils/utils.go:49-55 | the dots line: three circles with the given colour codes and the caption in parentheses |
| Utils.StatusDots | utils/utils.go:45-58 | red, yellow and green light their own dot in their colour and print their name; every other status gives three dark dots and "(none)" |
| Utils.StatusDotsDistinct | utils/utils.go:45-58 | two statuses give the same dots iff they have the same label |
| Utils.Git | utils/utils.go:77 | no git on $PATH: nothing runs and the call fails; otherwise one git process, which succeeds iff it exits 0 |
| Utils.GetCurrentRevision | utils/utils.go:73-82 | a non-empty REVISION is returned without running git; otherwise the trimmed git output, or "" on failure |
| Utils.GetCurrentBranch | utils/utils.go:86-95 | a non-empty BRANCH is returned without running git; otherwise the trimmed output, or "master" on failure |
| Utils.RequestHeadersWithoutGit | utils/utils.go:73-89 | with both variables set no process is started |
| Utils.RequestHeadersRunGitTwice | utils/utils.go:77-90 | without them, exactly `rev-parse --verify HEAD` then `rev-parse --abbrev-ref HEAD` run |

## Left out

- Directory traversal: `filepath.Walk` (its order, and how SkipDir on a file skips the rest of its directory), `filepath.Rel`, `filepath.Match`, `depfile.Find` and `regexp.MatchString` on user patterns. Only each copy's visit decision is modelled; the library calls are inputs.
- Regular expressions in general. The two bundler patterns are line predicates, and `makeBasename`'s pattern is a character filter.
- SHA-1 itself (a parameter), base64, and YAML decoding (the decoded document is an input).
- netrc parsing and `loadNetrc`: the parsed netrc, or its absence, is an input. A missing netrc file is still fatal as written (util.go:31-42, auth/auth.go:144-155); the model does not decide that case.
- `saveCreds`, `removeCreds` and `netrcPath`: file writes through the netrc library.
- `url.Parse`: an input function.
- HTTP and the server: `PushDependencyFiles`, the bodies of `ListDependencyFiles`, `ProjectShow`, `ProjectSync`, `ProjectFetch`, `ProjectGetDependencyFiles`, `CreateProject`'s prompt and `ProjectConfigure`. The server's answers are inputs; only the requests and the checks before them are modelled.
- Api.ProjectCreate: the team list is an input, and the `UserTeams` error, which the source ignores, is not modelled.
- Printing: colours, tables, `fmt.Println`, `log.Fatal` formatting and the `color.Printf` summary.
- The order owners are printed in by ListProjects (Go map iteration order).
- Subprocess I/O: stdout is captured as lines, and stdin piping and pipe errors are not modelled.
- `exec.LookPath("git")`: modelled as whether "git" is on $PATH.
- The auto-update orchestrator (`Run`, `applyUpdateSet`, `restoreDepFiles`, the test-suite run, pushing results): it is not part of this model. AutoUpdate.ApplyUpdateSet is a thin driver inferred from the package test.
- `DisplayEnvVars` and `init`'s calls are not modelled beyond their ordering, which Config.Settings.Init captures.
- Text.PathDir: only relative paths are described; `path.Clean`'s handling of "..", repeated slashes and rooted paths is not modelled; dependency-file paths are relative to the project root.
- Scans.ScanVisit: the `filepath.Rel` error branches are left out, and the relative path is an input.
- DependencyFiles.PatchCommand: the program is recorded as "patch", not as the absolute path `exec.LookPath` returns (dependency/dependency_file.go:72-77); the model has no resolution of names to paths, so the trace entry differs only in its first word.
- DependencyFiles.PatchSpec: a `patch` that was found on $PATH but failed to start returns an operating-system error whose text the model does not know; it is given the "executable file not found" wording of `StartFailed`, which is exact only for the commands started without a lookup (`bundle`, `git`).

## Findings

| source | as written | input that shows it | evidently intended | confidence | as-written member | corrected member |
|---|---|---|---|---|---|---|
| autoupdate/installers.go:52 | `cmd.Dir = path.Dir("f.Path")` takes the directory of a string literal, which is always "." | a requirement update for "web/Gemfile": bundle runs in "." instead of "web" | the directory of the patched file, `path.Dir(f.Path)` | high; not executed | AutoUpdate.InstallRunsInWorkDir | AutoUpdate.InstallDirIsFileDirectory |
| dependency/dependency_file.go:162 | the relative path is split with `filepath.SplitList`, which splits on ':' and not on '/' | "web/node_modules" is not pruned | prune a path any of whose elements is an excluded directory | high; not executed | Scans.ScanVisitNestedExcluded | Scans.ExcludedIffSomeElement |
| api/v2tov1.go:95-98 | `update["desc"] != ""` is also true when "desc" is absent (the nil interface is not ""), so "description": nil is added | an update with only a new name: the description is cleared | rename only when a non-empty "desc" is present | medium; not executed | Api.AdaptUpdateAsWrittenClearsDescription | Api.AdaptUpdate |
| models/dependency_file.go:164-166 | when ignored paths are configured, the GEMNASIUM_IGNORED_PATHS variable is used as the regex, and the empty regex matches everything | ignored_paths set in .gemnasium.yml, the variable unset: the root itself is pruned and nothing is scanned | skip an entry when one of the configured patterns matches it | medium; not executed | Scans.ModelsScanAsWrittenPrunesRoot | Scans.ModelsScanVisitsUnmatched |
