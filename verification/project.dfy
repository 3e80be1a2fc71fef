/**
 * Project commands of the client (two copies with the same rules): which
 * project slug a command works on, the update body built from the
 * optional name / description / monitored arguments, and the listing's
 * visibility filter and per-owner counts.
 *
 * The server is an oracle: its answers are parameters.
 */
module Projects {
  import opened Errors
  import opened Api

  // ---------------------------------------------------------------------
  // GetProject

  /** The last non-empty string of `slugs`, if there is one. */
  function LastNonEmpty(slugs: seq<string>): (r: Option<string>)
    ensures r.None? <==> forall i :: 0 <= i < |slugs| ==> slugs[i] == ""
    ensures r.Some? ==> exists i :: (0 <= i < |slugs| && slugs[i] == r.value && r.value != ""
      && forall j :: i < j < |slugs| ==> slugs[j] == "")
    decreases |slugs|
  {
    if slugs == [] then None
    else if slugs[|slugs| - 1] != "" then Some(slugs[|slugs| - 1])
    else
      var init := slugs[..|slugs| - 1];
      var r := LastNonEmpty(init);
      assert forall i :: 0 <= i < |init| ==> init[i] == slugs[i];
      if r.Some? then
        var i :| 0 <= i < |init| && init[i] == r.value && r.value != ""
          && forall j :: i < j < |init| ==> init[j] == "";
        assert slugs[i] == r.value && forall j :: i < j < |slugs| ==> slugs[j] == "";
        r
      else
        r
  }

  /** The slug a command works on: the last non-empty argument, else the configured slug. */
  function ResolvedSlug(configSlug: string, slugs: seq<string>): string {
    match LastNonEmpty(slugs)
    case None => configSlug
    case Some(s) => s
  }

  /**
   * `GetProject`: the arguments are tried in order, each non-empty one
   * replacing the slug so far, starting from the configured slug.
   */
  method GetProject(configSlug: string, slugs: seq<string>) returns (r: Result<Project, Error>)
    ensures r.Err? <==> configSlug == "" && forall i :: 0 <= i < |slugs| ==> slugs[i] == ""
    ensures r.Err? ==> r.error == EmptyProjectSlug && Message(r.error) == "[project slug] can't be empty"
    ensures r.Ok? ==> r.value == EmptyProject.(slug := ResolvedSlug(configSlug, slugs)) && r.value.slug != ""
  {
    var slug := configSlug;
    for i := 0 to |slugs|
      invariant slug == ResolvedSlug(configSlug, slugs[..i])
    {
      assert slugs[..i + 1][..i] == slugs[..i];
      if slugs[i] != "" {
        slug := slugs[i];
      }
    }
    assert slugs[..|slugs|] == slugs;
    if slug == "" {
      return Err(EmptyProjectSlug);
    }
    return Ok(EmptyProject.(slug := slug));
  }

  /** Any non-empty argument beats the configured slug: the last such argument is used. */
  lemma ArgumentBeatsConfig(configSlug: string, slugs: seq<string>, i: nat)
    requires i < |slugs| && slugs[i] != ""
    requires forall j :: i < j < |slugs| ==> slugs[j] == ""
    ensures ResolvedSlug(configSlug, slugs) == slugs[i]
  {
    var r := LastNonEmpty(slugs);
    var k :| 0 <= k < |slugs| && slugs[k] == r.value && r.value != ""
      && forall j :: k < j < |slugs| ==> slugs[j] == "";
    assert k == i;
  }

  /** The `-p` flag passed as the only argument beats the configured slug. */
  lemma FlagBeatsConfiguredSlug(configSlug: string, flag: string)
    requires flag != ""
    ensures ResolvedSlug(configSlug, [flag]) == flag
  {
    ArgumentBeatsConfig(configSlug, [flag], 0);
  }

  // ---------------------------------------------------------------------
  // ProjectUpdate / Project.Update

  /** The update body for the arguments given: one entry per argument present, holding its value. */
  function UpdateBodyOf(name: Option<string>, desc: Option<string>, monitored: Option<bool>): (body: UpdateMap)
    ensures body.Keys <= {"name", "desc", "monitored"}
    ensures ("name" in body <==> name.Some?) && ("desc" in body <==> desc.Some?)
      && ("monitored" in body <==> monitored.Some?)
    ensures name.Some? ==> body["name"] == Str(name.value)
    ensures desc.Some? ==> body["desc"] == Str(desc.value)
    ensures monitored.Some? ==> body["monitored"] == Bool(monitored.value)
  {
    var b1: UpdateMap := if name.Some? then map["name" := Str(name.value)] else map[];
    var b2 := if desc.Some? then b1["desc" := Str(desc.value)] else b1;
    if monitored.Some? then b2["monitored" := Bool(monitored.value)] else b2
  }

  /** Filling the update map: nothing to update is an error. */
  method BuildUpdate(name: Option<string>, desc: Option<string>, monitored: Option<bool>)
    returns (r: Result<UpdateMap, Error>)
    ensures r.Err? <==> name.None? && desc.None? && monitored.None?
    ensures r.Err? ==> (r.error == NothingToUpdate
      && Message(r.error) == "Please specify at least one thing to update (name, desc, or monitored")
    ensures r.Ok? ==> r.value == UpdateBodyOf(name, desc, monitored) && r.value != map[]
  {
    if name.None? && desc.None? && monitored.None? {
      return Err(NothingToUpdate);
    }
    var update: UpdateMap := map[];
    if name.Some? {
      update := update["name" := Str(name.value)];
    }
    if desc.Some? {
      update := update["desc" := Str(desc.value)];
    }
    if monitored.Some? {
      update := update["monitored" := Bool(monitored.value)];
    }
    assert "name" in update || "desc" in update || "monitored" in update;
    return Ok(update);
  }

  /**
   * `ProjectUpdate`: without any argument no request is made; otherwise
   * the body is sent through the API and its error returned unchanged.
   */
  method ProjectUpdate(p: Project, name: Option<string>, desc: Option<string>, monitored: Option<bool>,
                       server: (Project, UpdateMap) -> Option<Error>)
    returns (sent: Option<UpdateMap>, err: Option<Error>)
    ensures name.None? && desc.None? && monitored.None? ==> sent.None? && err == Some(NothingToUpdate)
    ensures !(name.None? && desc.None? && monitored.None?) ==>
      sent == Some(UpdateBodyOf(name, desc, monitored)) && err == server(p, sent.value)
  {
    var body := BuildUpdate(name, desc, monitored);
    if body.Err? {
      return None, Some(body.error);
    }
    sent := Some(body.value);
    err := server(p, body.value);
  }

  /** The request the `models` copy sends: a PATCH of the project's own URI. */
  datatype Request = Request(verb: string, uri: string, body: UpdateMap)

  method Update(p: Project, name: Option<string>, desc: Option<string>, monitored: Option<bool>,
                server: Request -> Option<Error>)
    returns (sent: Option<Request>, err: Option<Error>)
    ensures name.None? && desc.None? && monitored.None? ==> sent.None? && err == Some(NothingToUpdate)
    ensures !(name.None? && desc.None? && monitored.None?) ==>
      sent == Some(Request("PATCH", "/projects/" + p.slug, UpdateBodyOf(name, desc, monitored)))
      && err == server(sent.value)
  {
    var body := BuildUpdate(name, desc, monitored);
    if body.Err? {
      return None, Some(body.error);
    }
    sent := Some(Request("PATCH", "/projects/" + p.slug, body.value));
    err := server(sent.value);
  }

  /**
   * Through the v2 adapter as written, an update that leaves the
   * description out (a new name only, say) asks the server to set the
   * description to nil.
   */
  lemma UpdateWithoutDescClearsDescriptionAsWritten(name: Option<string>, monitored: Option<bool>)
    ensures var sent := AdaptUpdateAsWritten(UpdateBodyOf(name, None, monitored));
      "description" in sent && sent["description"] == Nil
  {
    AdaptUpdateAsWrittenClearsDescription(UpdateBodyOf(name, None, monitored));
  }

  /**
   * With the corrected rename, a body without a description goes through
   * unchanged, and a non-empty description arrives under "description".
   */
  lemma UpdateThroughAdapter(name: Option<string>, desc: Option<string>, monitored: Option<bool>)
    ensures desc.None? ==> AdaptUpdate(UpdateBodyOf(name, desc, monitored)) == UpdateBodyOf(name, desc, monitored)
    ensures desc.Some? && desc.value != "" ==>
      var sent := AdaptUpdate(UpdateBodyOf(name, desc, monitored));
      "desc" !in sent && sent["description"] == Str(desc.value)
  {
  }

  // ---------------------------------------------------------------------
  // ListProjects

  /** A project is listed when it is monitored, and private if only private projects are asked for. */
  predicate Visible(p: Project, privateOnly: bool) {
    p.monitored && (p.private || !privateOnly)
  }

  /** The projects of a group that are listed, in order. */
  function ShownOf(projects: seq<Project>, privateOnly: bool): (r: seq<Project>)
    ensures |r| <= |projects|
    decreases |projects|
  {
    if projects == [] then []
    else
      var last := projects[|projects| - 1];
      ShownOf(projects[..|projects| - 1], privateOnly) + (if Visible(last, privateOnly) then [last] else [])
  }

  /** Exactly the visible projects are listed. */
  lemma {:induction false} ShownOfFilters(projects: seq<Project>, privateOnly: bool)
    ensures forall i :: 0 <= i < |ShownOf(projects, privateOnly)| ==> Visible(ShownOf(projects, privateOnly)[i], privateOnly)
    ensures forall i :: 0 <= i < |projects| && Visible(projects[i], privateOnly) ==> projects[i] in ShownOf(projects, privateOnly)
    decreases |projects|
  {
    if projects != [] {
      var init := projects[..|projects| - 1];
      ShownOfFilters(init, privateOnly);
      assert forall i :: 0 <= i < |init| ==> init[i] == projects[i];
    }
  }

  /** The projects of a group that are not listed. */
  function HiddenOf(projects: seq<Project>, privateOnly: bool): seq<Project>
    decreases |projects|
  {
    if projects == [] then []
    else
      var last := projects[|projects| - 1];
      HiddenOf(projects[..|projects| - 1], privateOnly) + (if Visible(last, privateOnly) then [] else [last])
  }

  /** The printed hidden count is the number of projects the filter dropped. */
  lemma ShownAndHiddenPartition(projects: seq<Project>, privateOnly: bool)
    ensures |ShownOf(projects, privateOnly)| + |HiddenOf(projects, privateOnly)| == |projects|
    ensures multiset(ShownOf(projects, privateOnly)) + multiset(HiddenOf(projects, privateOnly)) == multiset(projects)
  {
    PartitionMultiset(projects, privateOnly);
    var shown, hidden := ShownOf(projects, privateOnly), HiddenOf(projects, privateOnly);
    assert |multiset(shown)| + |multiset(hidden)| == |multiset(projects)|;
  }

  /** Every project of a group is either listed or hidden, and only once. */
  lemma {:induction false} PartitionMultiset(projects: seq<Project>, privateOnly: bool)
    ensures multiset(ShownOf(projects, privateOnly)) + multiset(HiddenOf(projects, privateOnly)) == multiset(projects)
    decreases |projects|
  {
    if projects != [] {
      var init := projects[..|projects| - 1];
      var last := projects[|projects| - 1];
      PartitionMultiset(init, privateOnly);
      assert projects == init + [last];
      var shown, hidden := ShownOf(init, privateOnly), HiddenOf(init, privateOnly);
      if Visible(last, privateOnly) {
        assert ShownOf(projects, privateOnly) == shown + [last];
        assert HiddenOf(projects, privateOnly) == hidden;
      } else {
        assert ShownOf(projects, privateOnly) == shown;
        assert HiddenOf(projects, privateOnly) == hidden + [last];
      }
    }
  }

  /** One table row: name, slug, and "private" or "". */
  datatype Row = Row(name: string, slug: string, private: string)

  function RowOf(p: Project): Row {
    Row(p.name, p.slug, if p.private then "private" else "")
  }

  function RowsOf(projects: seq<Project>): (rows: seq<Row>)
    ensures |rows| == |projects|
    ensures forall i :: 0 <= i < |projects| ==> rows[i] == RowOf(projects[i])
  {
    seq(|projects|, i requires 0 <= i < |projects| => RowOf(projects[i]))
  }

  /** What is printed for one owner: the "Shared by" header unless the group is "owned", the rows, the counts. */
  datatype GroupReport = GroupReport(sharedBy: Option<string>, rows: seq<Row>, shown: nat, hidden: int)

  function ReportOf(owner: string, projects: seq<Project>, privateOnly: bool): GroupReport {
    var shown := ShownOf(projects, privateOnly);
    GroupReport(if owner == "owned" then None else Some(owner), RowsOf(shown), |shown|, |projects| - |shown|)
  }

  lemma ShownOfStep(projects: seq<Project>, privateOnly: bool, i: nat)
    requires i < |projects|
    ensures var shown := ShownOf(projects[..i], privateOnly);
      ShownOf(projects[..i + 1], privateOnly)
        == shown + (if Visible(projects[i], privateOnly) then [projects[i]] else [])
      && RowsOf(ShownOf(projects[..i + 1], privateOnly))
        == RowsOf(shown) + (if Visible(projects[i], privateOnly) then [RowOf(projects[i])] else [])
  {
    assert projects[..i + 1][..i] == projects[..i];
  }

  /** The inner loop of `ListProjects`: one owner's table and counts. */
  method ListGroup(owner: string, projects: seq<Project>, privateOnly: bool) returns (report: GroupReport)
    ensures report == ReportOf(owner, projects, privateOnly)
    ensures report.hidden == |HiddenOf(projects, privateOnly)| >= 0
  {
    var rows, count := ShownRows(projects, privateOnly);
    ShownAndHiddenPartition(projects, privateOnly);
    report := GroupReport(if owner == "owned" then None else Some(owner), rows, count, |projects| - count);
  }

  /** The rows printed for a group and how many there are. */
  method ShownRows(projects: seq<Project>, privateOnly: bool) returns (rows: seq<Row>, count: nat)
    ensures rows == RowsOf(ShownOf(projects, privateOnly)) && count == |ShownOf(projects, privateOnly)|
  {
    rows, count := [], 0;
    for i := 0 to |projects|
      invariant rows == RowsOf(ShownOf(projects[..i], privateOnly))
      invariant count == |ShownOf(projects[..i], privateOnly)|
    {
      ShownOfStep(projects, privateOnly, i);
      var project := projects[i];
      if !project.monitored || (!project.private && privateOnly) {
        continue;
      }
      var privateLabel := if project.private then "private" else "";
      rows := rows + [Row(project.name, project.slug, privateLabel)];
      count := count + 1;
    }
    assert projects[..|projects|] == projects;
  }

  /**
   * `ListProjects`: an error of the listing is returned; otherwise each
   * owner's group is reported, owners taken in an unspecified order.
   */
  method ListProjects(listing: Result<map<string, seq<Project>>, Error>, privateOnly: bool)
    returns (reports: map<string, GroupReport>, err: Option<Error>)
    ensures listing.Err? ==> reports == map[] && err == Some(listing.error)
    ensures listing.Ok? ==> (err.None? && reports.Keys == listing.value.Keys
      && forall owner :: owner in reports ==> reports[owner] == ReportOf(owner, listing.value[owner], privateOnly))
  {
    if listing.Err? {
      return map[], Some(listing.error);
    }
    var projects := listing.value;
    reports := map[];
    var todo := projects.Keys;
    while todo != {}
      invariant todo <= projects.Keys
      invariant reports.Keys == projects.Keys - todo
      invariant forall owner :: owner in reports ==> reports[owner] == ReportOf(owner, projects[owner], privateOnly)
      decreases todo
    {
      var owner :| owner in todo;
      var report := ListGroup(owner, projects[owner], privateOnly);
      reports := reports[owner := report];
      todo := todo - {owner};
    }
    return reports, None;
  }
}
