/**
 * The v1 and v2 wire records, and the adapter that serves the v1 client
 * interface on top of the v2 API: field-by-field conversions, the project
 * basename sanitiser, grouping of the project listing by owner, the
 * `desc` -> `description` rename of an update body, and the choice of the
 * team a new project is created in.
 *
 * The v2 server is an oracle: each call's answer is a parameter.
 */
module Api {
  import opened Text
  import opened Errors
  import opened DependencyFiles
  import opened Readings

  // ---------------------------------------------------------------------
  // Records

  /** A v1 project. */
  datatype Project = Project(
    name: string,
    slug: string,
    description: string,
    origin: string,
    private: bool,
    color: string,
    monitored: bool,
    unmonitoredReason: string,
    commitSHA: string)

  /** The zero value `Project{}`. */
  const EmptyProject := Project("", "", "", "", false, "", false, "", "")

  datatype V2Commit = V2Commit(branch: string, commitSHA: string)

  datatype V2User = V2User(name: string, email: string, apiKey: string, provider: string, timeZone: string)

  datatype V2Team = V2Team(slug: string, owner: V2User)

  datatype V2Project = V2Project(
    basename: string,
    color: string,
    latestCommit: V2Commit,
    description: string,
    manageable: bool,
    name: string,
    origin: string,
    private: bool,
    slug: string,
    syncable: bool,
    team: V2Team)

  /** The zero value `V2Project{}`. */
  const EmptyV2Project := V2Project("", "", V2Commit("", ""), "", false, "", "", false, "", false,
                                    V2Team("", V2User("", "", "", "", "")))

  /** A v2 dependency file: its content is a Go string, a sequence of bytes. */
  datatype V2DependencyFile = V2DependencyFile(path: string, sha: string, content: ByteString)

  // ---------------------------------------------------------------------
  // Conversions: each writes the fields it knows into the record `into`.

  /** A v1 and a v2 project agree on the six fields both versions carry. */
  predicate SharedFields(p: Project, v: V2Project) {
    p.name == v.name && p.slug == v.slug && p.description == v.description && p.origin == v.origin
    && p.private == v.private && p.color == v.color
  }

  /**
   * `V2ProjectToV1`: every v2 project is reported as monitored; the
   * unmonitored reason is not carried by v2 and stays the receiver's.
   */
  function V2ProjectToV1(v2p: V2Project, into: Project): (r: Project)
    ensures SharedFields(r, v2p)
    ensures r.monitored && r.commitSHA == v2p.latestCommit.commitSHA
    ensures r.unmonitoredReason == into.unmonitoredReason
  {
    into.(name := v2p.name, slug := v2p.slug, description := v2p.description, origin := v2p.origin,
          private := v2p.private, color := v2p.color, monitored := true,
          commitSHA := v2p.latestCommit.commitSHA)
  }

  /**
   * `V1ProjectToV2`: the latest commit is replaced by one carrying only the
   * commit SHA; the fields v1 does not carry stay the receiver's.
   */
  function V1ProjectToV2(v1p: Project, into: V2Project): (r: V2Project)
    ensures SharedFields(v1p, r)
    ensures r.latestCommit == V2Commit("", v1p.commitSHA)
    ensures r.basename == into.basename && r.manageable == into.manageable
      && r.syncable == into.syncable && r.team == into.team
  {
    into.(name := v1p.name, slug := v1p.slug, description := v1p.description, origin := v1p.origin,
          private := v1p.private, color := v1p.color, latestCommit := V2Commit("", v1p.commitSHA))
  }

  /**
   * v1 -> v2 -> v1 keeps every field the two versions share; the project
   * comes back monitored, and the unmonitored reason is whatever the
   * receiving record held.
   */
  lemma ProjectRoundTrip(p: Project, via: V2Project, into: Project)
    ensures V2ProjectToV1(V1ProjectToV2(p, via), into)
      == p.(monitored := true, unmonitoredReason := into.unmonitoredReason)
    ensures V2ProjectToV1(V1ProjectToV2(p, via), p) == p.(monitored := true)
  {
  }

  /**
   * v2 -> v1 -> v2 keeps every shared field except the branch of the
   * latest commit, which v1 does not carry.
   */
  lemma V2ProjectRoundTrip(v2p: V2Project, via: Project)
    ensures V1ProjectToV2(V2ProjectToV1(v2p, via), v2p)
      == v2p.(latestCommit := V2Commit("", v2p.latestCommit.commitSHA))
  {
  }

  /** `V2DependencyFileToV1`: the same path and sha, and the string's bytes as content. */
  function V2DependencyFileToV1(v2df: V2DependencyFile, into: DepFile): (r: DepFile)
    ensures r.path == v2df.path && r.sha == v2df.sha
    ensures BytesToString(r.content) == v2df.content
  {
    StringBytesString(v2df.content);
    into.(path := v2df.path, sha := v2df.sha, content := StringToBytes(v2df.content))
  }

  /** `V1DependencyFileToV2`: the same path and sha, and the bytes as a string. */
  function V1DependencyFileToV2(v1df: DepFile, into: V2DependencyFile): (r: V2DependencyFile)
    ensures r.path == v1df.path && r.sha == v1df.sha
    ensures StringToBytes(r.content) == v1df.content
  {
    BytesStringBytes(v1df.content);
    into.(path := v1df.path, sha := v1df.sha, content := BytesToString(v1df.content))
  }

  /** A dependency file survives v1 -> v2 -> v1 unchanged, bytes included. */
  lemma DependencyFileRoundTrip(df: DepFile, via: V2DependencyFile, into: DepFile)
    ensures V2DependencyFileToV1(V1DependencyFileToV2(df, via), into) == df
  {
    BytesStringBytes(df.content);
  }

  /** And a v2 file survives v2 -> v1 -> v2. */
  lemma V2DependencyFileRoundTrip(df: V2DependencyFile, via: DepFile, into: V2DependencyFile)
    ensures V1DependencyFileToV2(V2DependencyFileToV1(df, via), into) == df
  {
    StringBytesString(df.content);
  }

  // ---------------------------------------------------------------------
  // makeBasename

  /** The characters the pattern `[^a-zA-Z0-9_-]+` does not remove. */
  predicate BasenameChar(c: char) {
    ('a' <= c <= 'z') || ('A' <= c <= 'Z') || ('0' <= c <= '9') || c == '_' || c == '-'
  }

  /** `makeBasename`: the name with every run of other characters removed. */
  function MakeBasename(name: string): (r: string)
    ensures |r| <= |name|
    ensures forall i :: 0 <= i < |r| ==> BasenameChar(r[i])
    ensures forall c :: BasenameChar(c) ==> multiset(r)[c] == multiset(name)[c]
  {
    if name == [] then []
    else
      var rest := MakeBasename(name[1..]);
      assert name == [name[0]] + name[1..];
      if BasenameChar(name[0]) then [name[0]] + rest else rest
  }

  /** The filter works character by character, so it keeps the order of what it keeps. */
  lemma {:induction false} MakeBasenameAppend(a: string, b: string)
    ensures MakeBasename(a + b) == MakeBasename(a) + MakeBasename(b)
    decreases |a|
  {
    if a == [] {
      assert a + b == b;
    } else {
      assert (a + b)[0] == a[0] && (a + b)[1..] == a[1..] + b;
      MakeBasenameAppend(a[1..], b);
    }
  }

  /** A name made only of kept characters is its own basename. */
  lemma {:induction false} MakeBasenameKeeps(name: string)
    requires forall i :: 0 <= i < |name| ==> BasenameChar(name[i])
    ensures MakeBasename(name) == name
    decreases |name|
  {
    if name != [] {
      MakeBasenameKeeps(name[1..]);
    }
  }

  lemma MakeBasenameIdempotent(name: string)
    ensures MakeBasename(MakeBasename(name)) == MakeBasename(name)
  {
    MakeBasenameKeeps(MakeBasename(name));
  }

  // ---------------------------------------------------------------------
  // ProjectList

  /** The key a listed project is grouped under: "owned" for the current user's own projects. */
  function OwnerKey(v2p: V2Project, currentUser: string): string {
    if v2p.team.owner.name == currentUser then "owned" else v2p.team.owner.name
  }

  /** Every key some listed project is grouped under. */
  function Owners(projects: seq<V2Project>, currentUser: string): set<string> {
    set i | 0 <= i < |projects| :: OwnerKey(projects[i], currentUser)
  }

  /** The v1 form of the listed projects grouped under `key`, in listing order. */
  function GroupOf(projects: seq<V2Project>, currentUser: string, key: string): seq<Project>
    decreases |projects|
  {
    if projects == [] then []
    else
      var last := projects[|projects| - 1];
      GroupOf(projects[..|projects| - 1], currentUser, key)
        + (if OwnerKey(last, currentUser) == key then [V2ProjectToV1(last, EmptyProject)] else [])
  }

  /** A key no project is grouped under has an empty group. */
  lemma {:induction false} GroupOfAbsent(projects: seq<V2Project>, currentUser: string, key: string)
    requires key !in Owners(projects, currentUser)
    ensures GroupOf(projects, currentUser, key) == []
    decreases |projects|
  {
    if projects != [] {
      var init := projects[..|projects| - 1];
      assert Owners(init, currentUser) <= Owners(projects, currentUser) by {
        forall k | k in Owners(init, currentUser) ensures k in Owners(projects, currentUser) {
          var i :| 0 <= i < |init| && OwnerKey(init[i], currentUser) == k;
          assert projects[i] == init[i];
        }
      }
      GroupOfAbsent(init, currentUser, key);
    }
  }

  /** The groups of a prefix of the listing are prefixes of the groups of the listing. */
  lemma {:induction false} GroupOfPrefix(projects: seq<V2Project>, currentUser: string, key: string, n: nat)
    requires n <= |projects|
    ensures GroupOf(projects[..n], currentUser, key) <= GroupOf(projects, currentUser, key)
    decreases |projects|
  {
    if n < |projects| {
      var init := projects[..|projects| - 1];
      assert projects[..n] == init[..n];
      GroupOfPrefix(init, currentUser, key, n);
    } else {
      assert projects[..n] == projects;
    }
  }

  /**
   * Every listed project appears in its owner's group, at the position
   * given by how many projects of that group came before it: each project
   * is placed exactly once, and a group keeps the listing's order.
   */
  lemma ProjectPlacedOnce(projects: seq<V2Project>, currentUser: string, i: nat)
    requires i < |projects|
    ensures var key := OwnerKey(projects[i], currentUser);
      var before := |GroupOf(projects[..i], currentUser, key)|;
      before < |GroupOf(projects, currentUser, key)|
      && GroupOf(projects, currentUser, key)[before] == V2ProjectToV1(projects[i], EmptyProject)
  {
    var key := OwnerKey(projects[i], currentUser);
    assert projects[..i + 1][..i] == projects[..i];
    assert GroupOf(projects[..i + 1], currentUser, key)
      == GroupOf(projects[..i], currentUser, key) + [V2ProjectToV1(projects[i], EmptyProject)];
    GroupOfPrefix(projects, currentUser, key, i + 1);
  }

  /** One more project adds its key to the keys seen so far. */
  lemma OwnersStep(projects: seq<V2Project>, currentUser: string, i: nat)
    requires i < |projects|
    ensures Owners(projects[..i + 1], currentUser)
      == Owners(projects[..i], currentUser) + {OwnerKey(projects[i], currentUser)}
  {
    var next := projects[..i + 1];
    assert next[i] == projects[i];
    forall k | k in Owners(projects[..i], currentUser) ensures k in Owners(next, currentUser) {
      var j :| 0 <= j < i && OwnerKey(projects[..i][j], currentUser) == k;
      assert next[j] == projects[..i][j];
    }
    forall k | k in Owners(next, currentUser)
      ensures k in Owners(projects[..i], currentUser) + {OwnerKey(projects[i], currentUser)}
    {
      var j :| 0 <= j <= i && OwnerKey(next[j], currentUser) == k;
      if j < i {
        assert next[j] == projects[..i][j];
      }
    }
  }

  /** One more project joins its own group and no other. */
  lemma GroupOfStep(projects: seq<V2Project>, currentUser: string, i: nat)
    requires i < |projects|
    ensures forall key :: (GroupOf(projects[..i + 1], currentUser, key)
      == GroupOf(projects[..i], currentUser, key)
         + (if OwnerKey(projects[i], currentUser) == key then [V2ProjectToV1(projects[i], EmptyProject)] else []))
  {
    assert projects[..i + 1][..i] == projects[..i];
  }

  /** `groups` holds exactly the owners of `projects`, each with its group. */
  predicate Grouped(groups: map<string, seq<Project>>, projects: seq<V2Project>, currentUser: string) {
    groups.Keys == Owners(projects, currentUser)
    && forall key :: key in groups ==> groups[key] == GroupOf(projects, currentUser, key)
  }

  /** Adding the i-th project to its owner's group keeps the grouping exact. */
  lemma GroupedStep(groups: map<string, seq<Project>>, projects: seq<V2Project>, currentUser: string, i: nat)
    requires i < |projects| && Grouped(groups, projects[..i], currentUser)
    ensures var key := OwnerKey(projects[i], currentUser);
      var p := V2ProjectToV1(projects[i], EmptyProject);
      Grouped(if key in groups then groups[key := groups[key] + [p]] else groups[key := [p]], projects[..i + 1], currentUser)
  {
    var key := OwnerKey(projects[i], currentUser);
    OwnersStep(projects, currentUser, i);
    GroupOfStep(projects, currentUser, i);
    if key !in groups {
      GroupOfAbsent(projects[..i], currentUser, key);
    }
  }

  /**
   * `ProjectList`: group the v2 listing by owner. An error of the listing
   * or of the current-user lookup is returned before any grouping.
   */
  method ProjectList(listing: Result<seq<V2Project>, Error>, user: Result<V2User, Error>)
    returns (owner2Project: map<string, seq<Project>>, err: Option<Error>)
    ensures listing.Err? ==> owner2Project == map[] && err == Some(listing.error)
    ensures listing.Ok? && user.Err? ==> owner2Project == map[] && err == Some(user.error)
    ensures listing.Ok? && user.Ok? ==> (err.None?
      && owner2Project.Keys == Owners(listing.value, user.value.name)
      && forall key :: key in owner2Project ==> owner2Project[key] == GroupOf(listing.value, user.value.name, key))
  {
    if listing.Err? {
      return map[], Some(listing.error);
    }
    if user.Err? {
      return map[], Some(user.error);
    }
    var projects := listing.value;
    var name := user.value.name;
    owner2Project := map[];
    for i := 0 to |projects|
      invariant Grouped(owner2Project, projects[..i], name)
    {
      var owner := projects[i].team.owner.name;
      if owner == name {
        owner := "owned";
      }
      var p := V2ProjectToV1(projects[i], EmptyProject);
      GroupedStep(owner2Project, projects, name, i);
      if owner in owner2Project {
        owner2Project := owner2Project[owner := owner2Project[owner] + [p]];
      } else {
        owner2Project := owner2Project[owner := [p]];
      }
    }
    assert projects[..|projects|] == projects;
    return owner2Project, None;
  }

  // ---------------------------------------------------------------------
  // ProjectUpdate

  /** A value of an update body: the dynamic values the callers put there. */
  datatype Value = Str(s: string) | Bool(b: bool) | Nil

  type UpdateMap = map<string, Value>

  /**
   * As written, the rename applies whenever `update["desc"] != ""`. A
   * missing key reads as a nil interface value, which is not "", so an
   * update without a description gains `description: nil`.
   */
  function AdaptUpdateAsWritten(update: UpdateMap): (r: UpdateMap)
    ensures "desc" in update && update["desc"] == Str("") ==> r == update
    ensures !("desc" in update && update["desc"] == Str("")) ==>
      "desc" !in r && r.Keys == update.Keys - {"desc"} + {"description"}
      && r["description"] == (if "desc" in update then update["desc"] else Nil)
      && forall k :: k in update && k != "desc" && k != "description" ==> r[k] == update[k]
  {
    if "desc" in update && update["desc"] == Str("") then update
    else (update - {"desc"})["description" := if "desc" in update then update["desc"] else Nil]
  }

  /** An update that does not mention the description asks, as written, to clear it. */
  lemma AdaptUpdateAsWrittenClearsDescription(update: UpdateMap)
    requires "desc" !in update
    ensures "description" in AdaptUpdateAsWritten(update) && AdaptUpdateAsWritten(update)["description"] == Nil
    ensures AdaptUpdateAsWritten(update).Keys == update.Keys + {"description"}
  {
  }

  /** Whether the body carries a description to rename. */
  predicate HasDesc(update: UpdateMap) {
    "desc" in update && update["desc"] != Str("")
  }

  /**
   * Corrected rename: a non-empty `desc` entry moves to `description`; any
   * other body is sent as it is.
   */
  function AdaptUpdate(update: UpdateMap): (r: UpdateMap)
    ensures !HasDesc(update) ==> r == update
    ensures HasDesc(update) ==> ("desc" !in r && r.Keys == update.Keys - {"desc"} + {"description"}
      && r["description"] == update["desc"]
      && forall k :: k in update && k != "desc" && k != "description" ==> r[k] == update[k])
  {
    if HasDesc(update) then (update - {"desc"})["description" := update["desc"]] else update
  }

  /** The two agree on every body that carries a `desc` entry. */
  lemma AdaptUpdateAgreesWithDesc(update: UpdateMap)
    requires "desc" in update
    ensures AdaptUpdate(update) == AdaptUpdateAsWritten(update)
  {
  }

  /** Renaming twice is renaming once: the renamed body has no `desc` left. */
  lemma AdaptUpdateIdempotent(update: UpdateMap)
    ensures AdaptUpdate(AdaptUpdate(update)) == AdaptUpdate(update)
  {
  }

  /** The update body the caller handed over, edited in place. */
  class UpdateBody {
    var entries: UpdateMap

    constructor (entries: UpdateMap)
      ensures this.entries == entries
    {
      this.entries := entries;
    }
  }

  /** What the v2 server received for an update, and its answer. */
  datatype UpdateCall = UpdateCall(project: V2Project, body: UpdateMap)

  /** The rename, as written or corrected. */
  function Adapt(rd: Reading, update: UpdateMap): UpdateMap {
    match rd
    case AsWritten => AdaptUpdateAsWritten(update)
    case Corrected => AdaptUpdate(update)
  }

  /**
   * `ProjectUpdate` of the adapter: convert the project, rename the
   * description key in the caller's map by the rule `rd` selects, and
   * return the server's answer to that request unchanged.
   */
  method ProjectUpdate(rd: Reading, p: Project, update: UpdateBody, server: UpdateCall -> Option<Error>)
    returns (sent: UpdateCall, err: Option<Error>)
    modifies update
    ensures update.entries == Adapt(rd, old(update.entries))
    ensures sent == UpdateCall(V1ProjectToV2(p, EmptyV2Project), update.entries)
    ensures err == server(sent)
  {
    var v2p := V1ProjectToV2(p, EmptyV2Project);
    match rd {
      case AsWritten =>
        var desc := if "desc" in update.entries then update.entries["desc"] else Nil;
        if desc != Str("") {
          update.entries := (update.entries - {"desc"})["description" := desc];
        }
      case Corrected =>
        if "desc" in update.entries && update.entries["desc"] != Str("") {
          update.entries := (update.entries - {"desc"})["description" := update.entries["desc"]];
        }
    }
    sent := UpdateCall(v2p, update.entries);
    err := server(sent);
  }

  // ---------------------------------------------------------------------
  // ProjectCreate

  /** The creation request sent to the v2 server: the team to create in, and the project. */
  datatype CreateRequest = CreateRequest(teamSlug: string, project: V2Project)

  /**
   * `ProjectCreate`: the project is created in the first of the current
   * user's teams, with its basename derived from its name; a user without
   * a team gets an error and no request is made.
   */
  function ProjectCreate(p: Project, teams: seq<V2Team>): (r: Result<CreateRequest, Error>)
    ensures r.Err? <==> teams == []
    ensures r.Err? ==> r.error == NoTeam && Message(r.error) == "Current user has no team !"
    ensures r.Ok? ==> (r.value.teamSlug == teams[0].slug
      && r.value.project.basename == MakeBasename(p.name)
      && (forall i :: 0 <= i < |r.value.project.basename| ==> BasenameChar(r.value.project.basename[i]))
      && V2ProjectToV1(r.value.project, p) == p.(monitored := true))
  {
    if teams == [] then Err(NoTeam)
    else
      var v2p := V1ProjectToV2(p, EmptyV2Project).(basename := MakeBasename(p.name));
      Ok(CreateRequest(teams[0].slug, v2p))
  }
}
