/** jiratools/make_linked.py: `cli_make_linked`, which creates an issue
    from the command-line arguments, links it to an existing issue and adds
    watchers to it. */
module MakeLinked {
  import opened Outcomes
  import opened Client
  import Utils
  import Helpers

  /** The parsed command line; `user` is "" when `--user` is not given. */
  datatype Args = Args(
    jiraId: string,
    project: string,
    summary: string,
    description: string,
    issueType: string,
    assign: bool,
    user: string,
    labels: seq<string>,
    components: seq<string>,
    watchers: seq<string>)

  /** `str.format` of the summary template with the existing issue's key and
      summary: `fmt(template, dev_jira_id, dev_jira_summary)`. */
  type SummaryFormat = (string, string, string) -> string

  /** `{"id": id}`, a reference to a component. */
  function IdRef(id: string): Json {
    Obj(map["id" := Str(id)])
  }

  /** `{"name": name}`. */
  function NameRef(name: string): Json {
    Obj(map["name" := Str(name)])
  }

  /** A list of strings as a JSON list. */
  function Strs(items: seq<string>): Json {
    Arr(seq(|items|, k requires 0 <= k < |items| => Str(items[k])))
  }

  /** `[{"id": component_id_from_name(project_components, x)} for x in names]`:
      one reference per name, in the order of the names; the first name
      that does not pick out exactly one component ends the process. */
  function ComponentRefs(components: seq<Component>, names: seq<string>): (r: Result<seq<Json>>)
    ensures r.Ok? <==> forall k :: 0 <= k < |names| ==> Helpers.UniquelyNamed(components, names[k])
    ensures r.Ok? ==> |r.value| == |names|
    ensures r.Ok? ==> forall k, i :: 0 <= k < |names| && Helpers.OnlyNamed(components, names[k], i)
                                     ==> r.value[k] == IdRef(components[i].id)
    ensures r.Err? ==> exists k :: && 0 <= k < |names|
                                   && !Helpers.UniquelyNamed(components, names[k])
                                   && (forall j :: 0 <= j < k ==> Helpers.UniquelyNamed(components, names[j]))
                                   && r.error == SystemExit(1, Helpers.NotUniqueMessage(names[k]))
  {
    if names == [] then Ok([])
    else
      var tail := names[1..];
      assert forall k :: 1 <= k < |names| ==> names[k] == tail[k - 1];
      match Helpers.ComponentIdFromName(components, names[0])
      case Err(e) => Err(e)
      case Ok(id) =>
        match ComponentRefs(components, tail)
        case Err(e) =>
          ghost var k :| && 0 <= k < |tail|
                         && !Helpers.UniquelyNamed(components, tail[k])
                         && (forall j :: 0 <= j < k ==> Helpers.UniquelyNamed(components, tail[j]))
                         && e == SystemExit(1, Helpers.NotUniqueMessage(tail[k]));
          assert !Helpers.UniquelyNamed(components, names[k + 1]);
          Err(e)
        case Ok(refs) =>
          var r := [IdRef(id)] + refs;
          assert forall k :: 1 <= k < |names| ==> r[k] == refs[k - 1];
          Ok(r)
  }

  /** The `issue_data` that `cli_make_linked` passes to `create_issue`, for
      the existing issue `dev`; asking for components of a project the
      server does not know, or by a name that does not pick out exactly one
      component, fails instead. */
  function IssueData(args: Args, dev: Issue, currentUser: string,
                     projectComponents: map<string, seq<Component>>, fmt: SummaryFormat)
    : Result<map<Field, Json>>
  {
    var base := map[Project := Str(args.project),
                    Summary := Str(fmt(args.summary, dev.key, dev.summary)),
                    Description := Str(args.description),
                    IssueType := NameRef(args.issueType)];
    var withAssignee := if args.assign
                        then base[Assignee := NameRef(if args.user != "" then args.user else currentUser)]
                        else base;
    var withLabels := if args.labels != [] then withAssignee[Labels := Strs(args.labels)] else withAssignee;
    if args.components == [] then Ok(withLabels)
    else if args.project !in projectComponents then Err(JiraError)
    else match ComponentRefs(projectComponents[args.project], args.components)
         case Err(e) => Err(e)
         case Ok(refs) => Ok(withLabels[Components := Arr(refs)])
  }

  /** The payload can only fail when components are asked for: with
      `JIRAError` for an unknown project, else with the exit of the first
      name that does not pick out exactly one component. */
  lemma IssueDataFails(args: Args, dev: Issue, currentUser: string,
                       projectComponents: map<string, seq<Component>>, fmt: SummaryFormat)
    ensures var r := IssueData(args, dev, currentUser, projectComponents, fmt);
            && (r.Err? <==> (args.components != [] &&
                             (args.project !in projectComponents ||
                              ComponentRefs(projectComponents[args.project], args.components).Err?)))
            && (r.Err? && args.project !in projectComponents ==> r.error == JiraError)
            && (r.Err? && args.project in projectComponents ==>
                  r.error == ComponentRefs(projectComponents[args.project], args.components).error)
  {
  }

  /** The fields present: the four fixed ones, an assignee exactly when
      asked for, labels and components exactly when some are given, and
      nothing else. */
  lemma IssueDataKeys(args: Args, dev: Issue, currentUser: string,
                      projectComponents: map<string, seq<Component>>, fmt: SummaryFormat)
    ensures var r := IssueData(args, dev, currentUser, projectComponents, fmt);
            r.Ok? ==> r.value.Keys == {Project, Summary, Description, IssueType}
                                      + (if args.assign then {Assignee} else {})
                                      + (if args.labels != [] then {Labels} else {})
                                      + (if args.components != [] then {Components} else {})
  {
  }

  /** The four fixed fields: the project, the summary formatted with the
      existing issue's key and summary, the description, and the issue
      type by name. */
  lemma IssueDataFixed(args: Args, dev: Issue, currentUser: string,
                       projectComponents: map<string, seq<Component>>, fmt: SummaryFormat)
    ensures var r := IssueData(args, dev, currentUser, projectComponents, fmt);
            r.Ok? ==> && Project in r.value && r.value[Project] == Str(args.project)
                      && Summary in r.value && r.value[Summary] == Str(fmt(args.summary, dev.key, dev.summary))
                      && Description in r.value && r.value[Description] == Str(args.description)
                      && IssueType in r.value && r.value[IssueType] == NameRef(args.issueType)
  {
  }

  /** The optional fields: the assignee is the given user, else the caller;
      the labels are the given ones in order; the components are one
      reference per requested name, in order. */
  lemma IssueDataOptional(args: Args, dev: Issue, currentUser: string,
                          projectComponents: map<string, seq<Component>>, fmt: SummaryFormat)
    ensures var r := IssueData(args, dev, currentUser, projectComponents, fmt);
            && (r.Ok? ==> (Assignee in r.value <==> args.assign))
            && (r.Ok? && args.assign ==>
                  r.value[Assignee] == NameRef(if args.user != "" then args.user else currentUser))
            && (r.Ok? ==> (Labels in r.value <==> args.labels != []))
            && (r.Ok? && args.labels != [] ==> r.value[Labels] == Strs(args.labels))
            && (r.Ok? ==> (Components in r.value <==> args.components != []))
            && (r.Ok? && args.components != [] ==>
                  r.value[Components] == Arr(ComponentRefs(projectComponents[args.project], args.components).value))
  {
  }

  /** The watcher requests for `key`, one per user, in order. */
  function WatchRequests(key: string, users: seq<string>): (r: seq<Request>)
    ensures |r| == |users|
    ensures forall k :: 0 <= k < |users| ==> r[k] == AddWatcher(key, users[k])
  {
    if users == [] then []
    else WatchRequests(key, users[..|users| - 1]) + [AddWatcher(key, users[|users| - 1])]
  }

  /** The loop over `args.watchers`: one `add_watcher` per user, in order. */
  method AddWatchers(client: JiraClient, key: string, watchers: seq<string>)
    modifies client`log
    ensures client.log == old(client.log) + WatchRequests(key, watchers)
  {
    var i := 0;
    while i < |watchers|
      invariant 0 <= i <= |watchers|
      invariant client.log == old(client.log) + WatchRequests(key, watchers[..i])
    {
      assert watchers[..i + 1][..i] == watchers[..i];
      client.Watch(key, watchers[i]);
      i := i + 1;
    }
    assert watchers[..i] == watchers;
  }

  /** Builds `issue_data` the way `cli_make_linked` does: the four fixed
      fields first, then one `update` per optional field. */
  method BuildIssueData(args: Args, dev: Issue, client: JiraClient, fmt: SummaryFormat)
      returns (r: Result<map<Field, Json>>)
    ensures r == IssueData(args, dev, client.currentUser, client.projectComponents, fmt)
  {
    var issueData := map[Project := Str(args.project),
                         Summary := Str(fmt(args.summary, dev.key, dev.summary)),
                         Description := Str(args.description),
                         IssueType := NameRef(args.issueType)];
    if args.assign {
      issueData := issueData[Assignee := NameRef(if args.user != "" then args.user else client.currentUser)];
    }
    if args.labels != [] {
      issueData := issueData[Labels := Strs(args.labels)];
    }
    if args.components != [] {
      if args.project !in client.projectComponents {
        return Err(JiraError);
      }
      var projectComponents := client.projectComponents[args.project];
      var refs := ComponentRefs(projectComponents, args.components);
      if refs.Err? {
        return Err(refs.error);
      }
      issueData := issueData[Components := Arr(refs.value)];
    }
    return Ok(issueData);
  }

  /** The part of `cli_make_linked` after the existing issue `dev` is found:
      build the payload, create the new issue, link it to `dev` ("relates
      to", new issue first), then add the watchers. Nothing is sent when
      the payload cannot be built. */
  method CreateLinked(client: JiraClient, dev: Issue, args: Args, fmt: SummaryFormat)
      returns (r: Result<string>)
    modifies client`log
    ensures var data := IssueData(args, dev, client.currentUser, client.projectComponents, fmt);
            && (data.Err? ==> r == Err(data.error) && client.log == old(client.log))
            && (data.Ok? ==> && r == Ok(client.nextKey)
                             && client.log == old(client.log)
                                + [CreateIssue(data.value),
                                   CreateIssueLink(Utils.DefaultLinkType, client.nextKey, dev.key)]
                                + WatchRequests(client.nextKey, args.watchers))
  {
    var issueData := BuildIssueData(args, dev, client, fmt);
    if issueData.Err? {
      return Err(issueData.error);
    }
    var testJira := client.NewIssue(issueData.value);
    Helpers.LinkJiras(client, testJira, dev.key);
    AddWatchers(client, testJira, args.watchers);
    return Ok(testJira);
  }

  /** `cli_make_linked(args)`: connect (loading the configuration), fetch
      the existing issue, then create and link the new one. The result is
      the new issue's key; on any failure nothing has been sent. */
  method CliMakeLinked(cache: Utils.ConfigCache, file: Utils.ConfigFile, client: JiraClient,
                       args: Args, fmt: SummaryFormat)
      returns (r: Result<string>)
    requires cache.Valid()
    modifies cache, client`log
    ensures cache.Valid()
    ensures old(cache.config).Some? ==> cache.config == old(cache.config)
    ensures old(cache.config).None? && Utils.Validate(file).Ok? ==> cache.config == Some(Utils.Validate(file).value)
    ensures old(cache.config).None? && Utils.Validate(file).Err? ==> cache.config == None
    ensures r.Err? ==> client.log == old(client.log)
    ensures old(cache.config).None? && Utils.Validate(file).Err? ==> r == Err(Utils.Validate(file).error)
    ensures (old(cache.config).Some? || Utils.Validate(file).Ok?) && args.jiraId !in client.issues
            ==> r == Err(SystemExit(1, ""))
    ensures (old(cache.config).Some? || Utils.Validate(file).Ok?) && args.jiraId in client.issues ==>
              var data := IssueData(args, client.issues[args.jiraId], client.currentUser,
                                    client.projectComponents, fmt);
              && (data.Err? ==> r == Err(data.error))
              && (data.Ok? ==> && r == Ok(client.nextKey)
                               && client.log == old(client.log)
                                  + [CreateIssue(data.value),
                                     CreateIssueLink(Utils.DefaultLinkType, client.nextKey,
                                                     client.issues[args.jiraId].key)]
                                  + WatchRequests(client.nextKey, args.watchers))
  {
    var connection := cache.GetClient(file);
    if connection.Err? {
      return Err(connection.error);
    }
    var devJira := Helpers.FindJiraHelper(cache, file, client, args.jiraId);
    if devJira.Err? {
      return Err(devJira.error);
    }
    r := CreateLinked(client, devJira.value, args, fmt);
  }
}
