/** The third-party JIRA client, reduced to what the tools see of it: the
    answers its read calls give, held as fields, and the write requests sent
    through it, recorded in order. Nothing about HTTP, authentication or the
    server's own behaviour is modelled. */
module Client {

  /** The JSON-like values of an issue payload: strings, lists and objects. */
  datatype Json = Str(s: string) | Arr(items: seq<Json>) | Obj(fields: map<string, Json>)

  /** The keyword arguments of `create_issue` that the tools pass:
      `project`, `summary`, `description`, `issuetype`, `assignee`, `labels`
      and `components`. */
  datatype Field = Project | Summary | Description | IssueType | Assignee | Labels | Components

  /** An existing issue: its key and summary. */
  datatype Issue = Issue(key: string, summary: string)

  /** A component of a project. */
  datatype Component = Component(id: string, name: string)

  /** A write request sent to the server. */
  datatype Request =
    | AddComment(issue: string, body: string)                        // `add_comment(issue, body)`
    | CreateIssue(fields: map<Field, Json>)                           // `create_issue(**fields)`
    | CreateIssueLink(linkType: string, inward: string, outward: string) // `create_issue_link(type, inward, outward)`
    | AddWatcher(issue: string, user: string)                         // `add_watcher(issue, user)`

  class JiraClient {
    /** Issues `issue(key)` finds; any other key raises `JIRAError`. */
    var issues: map<string, Issue>
    /** What `current_user()` answers. */
    var currentUser: string
    /** What `project_components(project)` answers; an unknown project raises `JIRAError`. */
    var projectComponents: map<string, seq<Component>>
    /** The key the server gives the next issue created. */
    var nextKey: string
    /** The write requests sent so far, oldest first. */
    var log: seq<Request>

    constructor (issues: map<string, Issue>, currentUser: string,
                 projectComponents: map<string, seq<Component>>, nextKey: string)
      ensures this.issues == issues && this.currentUser == currentUser
      ensures this.projectComponents == projectComponents && this.nextKey == nextKey
      ensures log == []
    {
      this.issues := issues;
      this.currentUser := currentUser;
      this.projectComponents := projectComponents;
      this.nextKey := nextKey;
      log := [];
    }

    method PostComment(issue: string, body: string)
      modifies this`log
      ensures log == old(log) + [AddComment(issue, body)]
    {
      log := log + [AddComment(issue, body)];
    }

    method NewIssue(fields: map<Field, Json>) returns (key: string)
      modifies this`log
      ensures key == nextKey
      ensures log == old(log) + [CreateIssue(fields)]
    {
      log := log + [CreateIssue(fields)];
      key := nextKey;
    }

    method LinkIssues(linkType: string, inward: string, outward: string)
      modifies this`log
      ensures log == old(log) + [CreateIssueLink(linkType, inward, outward)]
    {
      log := log + [CreateIssueLink(linkType, inward, outward)];
    }

    method Watch(issue: string, user: string)
      modifies this`log
      ensures log == old(log) + [AddWatcher(issue, user)]
    {
      log := log + [AddWatcher(issue, user)];
    }
  }
}
