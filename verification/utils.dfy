/**
 * Small helpers shared by the commands: the coloured status dots and the
 * revision and branch sent with every API request, read from the
 * environment or asked of git.
 */
module Utils {
  import opened Text
  import opened Errors
  import opened Host
  import Config

  /** The three-dot traffic light: `@k` is a dark dot, the filled one takes the status colour. */
  const BigCircle := '\U{2B24}'

  /** The label closing a status line: the status itself when known, "none" otherwise. */
  function StatusLabel(status: string): string {
    if status in ["red", "yellow", "green"] then status else "none"
  }

  /**
   * The dots line: three coloured circles (colour codes `g`, `y`, `r` for a
   * lit dot, `k` for a dark one), then the colour-reset marker and the
   * label in parentheses.
   */
  function Light(first: char, second: char, third: char, caption: string): (r: string)
    ensures |r| == 18 + |caption| + 1
    ensures r[0] == '@' && r[4] == '@' && r[8] == '@'
    ensures r[2] == BigCircle && r[6] == BigCircle && r[10] == BigCircle
    ensures r[1] == first && r[5] == second && r[9] == third
    ensures HasSuffix(r, "(" + caption + ")")
  {
    var head := ['@', first, BigCircle, ' ', '@', second, BigCircle, ' ', '@', third, BigCircle, ' ', ' ', '@', '{', '|', '}'];
    assert (head + ("(" + caption + ")"))[|head|..] == "(" + caption + ")";
    head + ("(" + caption + ")")
  }

  /** `StatusDots`. */
  function StatusDots(status: string): (r: string)
    ensures |r| == 18 + |StatusLabel(status)| + 1
    ensures r[0] == '@' && r[4] == '@' && r[8] == '@'
    ensures r[2] == BigCircle && r[6] == BigCircle && r[10] == BigCircle
    ensures r[1] == (if status == "green" then 'g' else 'k')
    ensures r[5] == (if status == "yellow" then 'y' else 'k')
    ensures r[9] == (if status == "red" then 'r' else 'k')
    ensures HasSuffix(r, "(" + StatusLabel(status) + ")")
  {
    match status
    case "red" => Light('k', 'k', 'r', "red")
    case "yellow" => Light('k', 'y', 'k', "yellow")
    case "green" => Light('g', 'k', 'k', "green")
    case _ => Light('k', 'k', 'k', "none")
  }

  /** Each known status has its own dots; every other input shares the "(none)" dots. */
  lemma StatusDotsDistinct(s: string, t: string)
    ensures StatusDots(s) == StatusDots(t) <==> StatusLabel(s) == StatusLabel(t)
  {
    var a, b := StatusDots(s), StatusDots(t);
    if a == b {
      assert a[1] == b[1] && a[5] == b[5] && a[9] == b[9];
    }
  }

  /** What `exec.Command(GitPath(), args...).Output()` gave: the world after it, and stdout when it succeeded. */
  datatype GitRun = GitRun(w: World, out: Option<string>)

  function GitCommand(args: seq<string>): Command {
    Command(".", ["git"] + args, "")
  }

  /**
   * Running git: when `git` is not on $PATH nothing starts and the call
   * fails; otherwise the command is started, and it succeeds only when it
   * exits with status 0, its stdout being the output.
   */
  function Git(p: Platform, w: World, args: seq<string>): (r: GitRun)
    ensures "git" !in p.onPath ==> r == GitRun(w, None)
    ensures "git" in p.onPath ==> r.w == Run(p, w, GitCommand(args)).w
    ensures "git" in p.onPath ==>
      (r.out.Some? <==> p.respond(|w.trace|).Exited? && p.respond(|w.trace|).code == 0)
    ensures r.out.Some? ==> r.out.value == Join(p.respond(|w.trace|).stdout, "\n")
  {
    if "git" !in p.onPath then GitRun(w, None)
    else
      var ran := Run(p, w, GitCommand(args));
      match ran.result
      case NotStarted => GitRun(ran.w, None)
      case Exited(code, stdout, _) =>
        if code != 0 then GitRun(ran.w, None) else GitRun(ran.w, Some(Join(stdout, "\n")))
  }

  /** A string together with the world after computing it. */
  datatype Answer = Answer(value: string, w: World)

  /** `GetCurrentRevision`. */
  function GetCurrentRevision(p: Platform, w: World): (r: Answer)
    ensures Getenv(p.env, Config.EnvRevision) != "" ==> r == Answer(p.env[Config.EnvRevision], w)
    ensures Getenv(p.env, Config.EnvRevision) == "" ==>
      var g := Git(p, w, ["rev-parse", "--verify", "HEAD"]);
      r.w == g.w
      && (g.out.None? ==> r.value == "")
      && (g.out.Some? ==> SpacePadded(g.out.value, r.value))
    ensures Getenv(p.env, Config.EnvRevision) == "" ==> r.value == [] || (!IsSpace(r.value[0]) && !IsSpace(r.value[|r.value| - 1]))
  {
    var env := Getenv(p.env, Config.EnvRevision);
    if env != "" then Answer(env, w)
    else
      var g := Git(p, w, ["rev-parse", "--verify", "HEAD"]);
      match g.out
      case None => Answer("", g.w)
      case Some(out) => Answer(TrimSpace(out), g.w)
  }

  /** `GetCurrentBranch`. */
  function GetCurrentBranch(p: Platform, w: World): (r: Answer)
    ensures Getenv(p.env, Config.EnvBranch) != "" ==> r == Answer(p.env[Config.EnvBranch], w)
    ensures Getenv(p.env, Config.EnvBranch) == "" ==>
      var g := Git(p, w, ["rev-parse", "--abbrev-ref", "HEAD"]);
      r.w == g.w
      && (g.out.None? ==> r.value == "master")
      && (g.out.Some? ==> SpacePadded(g.out.value, r.value))
    ensures Getenv(p.env, Config.EnvBranch) == "" ==> r.value == [] || (!IsSpace(r.value[0]) && !IsSpace(r.value[|r.value| - 1]))
  {
    var env := Getenv(p.env, Config.EnvBranch);
    if env != "" then Answer(env, w)
    else
      var g := Git(p, w, ["rev-parse", "--abbrev-ref", "HEAD"]);
      match g.out
      case None => Answer("master", g.w)
      case Some(out) => Answer(TrimSpace(out), g.w)
  }

  /** The environment variables are consulted first: when both are set, git is never started. */
  lemma RequestHeadersWithoutGit(p: Platform, w: World)
    requires Getenv(p.env, Config.EnvRevision) != "" && Getenv(p.env, Config.EnvBranch) != ""
    ensures GetCurrentBranch(p, GetCurrentRevision(p, w).w).w.trace == w.trace
  {
  }

  /** Without the variables, the revision and then the branch each start one git process. */
  lemma RequestHeadersRunGitTwice(p: Platform, w: World)
    requires Getenv(p.env, Config.EnvRevision) == "" && Getenv(p.env, Config.EnvBranch) == ""
    requires "git" in p.onPath
    ensures var w1 := GetCurrentRevision(p, w).w;
      var w2 := GetCurrentBranch(p, w1).w;
      w2.trace == w.trace + [GitCommand(["rev-parse", "--verify", "HEAD"]), GitCommand(["rev-parse", "--abbrev-ref", "HEAD"])]
  {
  }
}
