/**
 * Failure values shared by the client's operations, and the text each one
 * prints as (Go's `err.Error()`).
 */
module Errors {
  import opened Text

  datatype Option<+T> = None | Some(value: T)

  datatype Result<+T, +E> = Ok(value: T) | Err(error: E)

  datatype Error =
    | ReadFailed(path: string)          // ioutil.ReadFile failed: the file is missing or unreadable
    | SignatureMismatch(path: string, expected: string, got: string)
    | PatchNotFound                     // exec.LookPath("patch") failed
    | StartFailed(program: string)      // a subprocess could not be started
    | ExitStatus(code: nat)             // a subprocess exited with a non-zero status
    | CantInstallRequirements
    | CantUpdateVersions
    | NoInstaller(packageType: string)
    | NoUpdater(packageType: string)
    | UnableToRead(path: string)
    | BadPattern                        // filepath.Match was given a malformed pattern
    | EmptyProjectSlug                  // from GetProject
    | EmptyListSlug                     // from the older ListDependencyFiles
    | NothingToUpdate
    | NoTeam
    | EmptyToken
    | Api(detail: string)               // returned by the remote API, passed through unchanged

  /** The error text; the first four wordings are those of Go's os and os/exec packages. */
  function Message(e: Error): string {
    match e
    case ReadFailed(p) => "open " + p + ": no such file or directory"
    case SignatureMismatch(p, exp, got) =>
      p + ": File signature doesn't match (expected: " + exp + ", got: " + got + ")"
    case PatchNotFound => "exec: \"patch\": executable file not found in $PATH"
    case StartFailed(prog) => "exec: \"" + prog + "\": executable file not found in $PATH"
    case ExitStatus(code) => "exit status " + Decimal(code)
    case CantInstallRequirements => "Can't install requirements"
    case CantUpdateVersions => "Can't update versions"
    case NoInstaller(t) => "Can't find installer for package type: " + t + "\n"
    case NoUpdater(t) => "Can't find updater for package type: " + t + "\n"
    case UnableToRead(p) => "Unable to read file: " + p
    case BadPattern => "syntax error in pattern"
    case EmptyProjectSlug => "[project slug] can't be empty"
    case EmptyListSlug => "[projectSlug] can't be empty"
    case NothingToUpdate => "Please specify at least one thing to update (name, desc, or monitored"
    case NoTeam => "Current user has no team !"
    case EmptyToken =>
      "auth: You must be logged in. Please use `gemnasium login` first, or pass your api token with --token."
    case Api(d) => d
  }
}
