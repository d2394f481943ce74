# jiratools in Dafny

A Dafny model of the logic in jiratools, a set of command-line tools and
API helpers around a JIRA client. The model covers:

- **JIRA wiki markup.** It covers the "Automated JIRA Update" message with its optional `h2.` heading and build source. It also covers the `{code:java}` block and the `||`/`|` table.
- **Configuration.** It covers the two set-once `CONFIG` globals (`utils.py` and `__init__.py`), the required-keys check and the comma-separated list settings. It also covers the search tool's default result count.
- **Lookups.** It covers the component-by-name lookup and finding an issue.
- **`update_jira_for_errors`.** This matches known issues against observed errors and posts one comment per match.
- **`cli_make_linked`.** This builds the `issue_data` payload, creates and links the new issue, and adds its watchers.

Files:

- `outcomes.dfy`: results and failures, Python truthiness, and `error_if`.
  `sys.exit(code)` becomes the failure `SystemExit(code, message)`, where `message` is what went to standard error first.
- `strings.dfy`: the Python string built-ins the core relies on. These are `str.split`, `str.join`, `str.strip` (with the full `str.isspace` set), `in`, `str(int)` and `int(str)`.
- `client.dfy`: the JIRA client as an object.
  Its read calls answer from fields. Its write calls append a request to `log`, so every property of a tool is a statement about the requests it sends, in order.
- `formatting.dfy`, `utils.dfy`, `helpers.dfy`, `jiratools.dfy` (for `jiratools/__init__.py`), `error_logger.dfy` and `make_linked.dfy`: one module per source file.
  The module-global `CONFIG` of a source file becomes a `ConfigCache` object. Its methods update the stored section in place.

## Model

| member | source | states |
|---|---|---|
| Outcomes.ErrorIf | jiratools/__init__.py:49-66 | The process ends exactly when `check` is truthy, with the filled-in message. The status is `status` when given and non-zero, else the status `sys.exit` makes of `check`. It is never 0. |
| Outcomes.ExitStatus | jiratools/__init__.py:65-66 | `sys.exit` of a truthy value never gives status 0. `True` and a list give 1; an integer gives itself. |
| Formatting.AutoupdateMsgLayout | jiratools/formatting.py:10-36 | Without a non-empty header, the message starts with the banner `"\n\nAutomated JIRA Update:\n\n"`. With one, it starts with `"h2. " + header` followed directly by the banner. After the banner comes the build source, then `"\n\n"` and the body, which ends the message. Each part sits at a position given by the lengths of those before it. The build source is `BUILD_URL` when it is set, else `"Manual run by " + user`. |
| Formatting.FormatAsJiraTable | jiratools/formatting.py:39-56 | The table always starts with the header line `"||" + join("||", headers) + "||"`. With no rows, it is exactly that line. |
| Formatting.TableLines | jiratools/formatting.py:53-56 | When no header or text cell holds a line break, the table splits on `"\n"` into exactly `len(rows) + 1` lines: the header line, then row `i`'s line at position `i + 1`. |
| Formatting.RowCells | jiratools/formatting.py:55 | A row line is `"|" + join("|", str(cells)) + "|"`. For a row with at least one cell, splitting its inside on `|` gives back each cell's `str`, provided no cell holds a bar. |
| Strings.Strip | jiratools/helpers.py:44 | `str.strip()` never lengthens a string. A non-empty result has no white space at either end. The result is empty exactly when the string is all white space. |
| Strings.StripAround | jiratools/helpers.py:44 | Stripping white space wrapped around a string with non-blank ends gives back that string. |
| Strings.StripIdempotent | jiratools/helpers.py:44 | Stripping twice gives the same as stripping once. |
| Strings.Split | jiratools/helpers.py:44 | `str.split(c)` always returns at least one piece. |
| Strings.SplitJoin | jiratools/formatting.py:54-56 | Joining pieces without the separator, then splitting on it, gives back the pieces. |
| Strings.JoinSplit | jiratools/helpers.py:44 | Splitting on a character, then joining with it, gives back the string. |
| Strings.SplitAllBlank | jiratools/helpers.py:44 | Every piece of `s.split(c)` is blank exactly when `s` holds nothing but `c` and white space. |
| Strings.IntToString | jiratools/formatting.py:55 | `str(n)` is non-empty decimal digits, with at most a leading `-`, and ends in a digit. |
| Strings.NatToStringValue | jiratools/formatting.py:55 | The digits of a natural number have that number as their value. |
| Strings.ParseIntToString | jiratools/__init__.py:301 | `int(str(n)) == n` for every integer `n`. |
| Utils.MissingFrom | jiratools/utils.py:63 | The keys of a list missing from a section are exactly those absent from it, in the list's order. |
| Utils.MissingKeys | jiratools/utils.py:63 | `missing_keys` holds exactly the `REQUIRED_KEYS` absent from the section, in `REQUIRED_KEYS` order. It is empty exactly when the section is complete. |
| Utils.Validate | jiratools/utils.py:54-67 | A first load succeeds exactly when the file exists, has a `jira` section and that section holds every required key; the result is then that section. A missing file gives the "not found" exit, and a missing section the "missing section" exit. Every failure is an exit with status 1. |
| Utils.ConfigCache.constructor | jiratools/utils.py:10 | `CONFIG` starts as `None`. |
| Utils.ConfigCache.LoadConfig | jiratools/utils.py:43-69 | Once `CONFIG` is set, it is returned unchanged with no further checks. Otherwise the outcome is the file's validation: on success, `CONFIG` and the return value are the `jira` section; on failure, `CONFIG` stays `None`. |
| Utils.ConfigCache.GetClient | jiratools/utils.py:26-40 | Load the configuration, then connect with its URL, user name and password. On a first load of a valid file, `CONFIG` becomes that file's `jira` section, so the connection uses that section's settings. `ConfigNotFoundException` can never be raised, because a loaded section holds the required keys. A load failure is passed on with `CONFIG` still `None`. |
| Helpers.StrippedNonEmpty | jiratools/helpers.py:44 | Every item kept is non-empty and is its own strip. There are never more items than pieces. |
| Helpers.CommaList | jiratools/helpers.py:44 | Every item of the comma list is non-empty and is its own strip. |
| Helpers.StripEach | jiratools/helpers.py:44 | `[x.strip() for x in pieces]`: one stripped piece per piece, in order. |
| Helpers.StrippedNonEmptyOrder | jiratools/helpers.py:44 | The kept items are a sub-sequence of the stripped pieces. |
| Helpers.StrippedNonEmptyKeepsAll | jiratools/helpers.py:44 | No non-blank piece is dropped. As a multiset, the kept items are the stripped pieces with every empty one removed, duplicates included. |
| Helpers.CommaListOrder | jiratools/helpers.py:44 | The items come out in their order in the value. |
| Helpers.CommaListComplete | jiratools/helpers.py:44 | Every non-blank item of the value is in the list, stripped, as often as it occurs. The list is as long as the number of non-blank items. With `CommaListOrder`, this fixes the list item by item. |
| Helpers.StrippedNonEmptyKeeps | jiratools/helpers.py:44 | Pieces that are already non-empty and stripped are all kept, unchanged. |
| Helpers.CommaListRoundTrip | jiratools/helpers.py:44 | Reading back `",".join(items)`, for stripped, non-empty items without commas, gives the items. |
| Helpers.StrippedNonEmptyEmpty | jiratools/helpers.py:44 | Nothing is kept exactly when every piece is blank. |
| Helpers.CommaListEmpty | jiratools/helpers.py:44 | The list is empty exactly when the value holds only commas and white space, which includes the empty value of an absent key. |
| Helpers.ListFromConfig | jiratools/helpers.py:32-44 | It fails exactly when this is the first load and the file does not validate. Otherwise the result is the comma list of the key's value, or `[]` for an absent key. `CONFIG` is the loaded section. |
| Helpers.MatchingIds | jiratools/helpers.py:61 | There are never more matches than components. |
| Helpers.MatchingIdsNone | jiratools/helpers.py:61 | There are no matches exactly when no component has the name. |
| Helpers.MatchingIdsSingle | jiratools/helpers.py:61 | There is one match exactly when one component has the name, and it is that component's id. |
| Helpers.ComponentIdFromName | jiratools/helpers.py:47-64 | An id comes back exactly when one component has the name, and it is that component's id. Otherwise the process exits with status 1 and the "More than one component" message, including when there are no matches. |
| Helpers.FindJiraHelper | jiratools/helpers.py:12-29 | It connects first, passing on a configuration failure. On a first load of a valid file, `CONFIG` becomes its `jira` section; on a failed first load it stays `None`. An issue comes back exactly when the configuration loads and the id is known; it is that issue. An unknown id exits with status 1. |
| Helpers.LinkJiras | jiratools/helpers.py:67-86 | It sends one link request: the relation first (by default `"relates to"`), then the issue linked from, then the issue linked to. |
| Jiratools.FormatAsCodeBlock | jiratools/__init__.py:114-125 | The block is 17 characters longer than the text. It starts with `{code:java}` and ends with `{code}`, and the text sits between the two. |
| Jiratools.ConfigCache.constructor | jiratools/__init__.py:27 | `CONFIG` starts as `None`. |
| Jiratools.ConfigCache.LoadConfig | jiratools/__init__.py:69-94 | Once `CONFIG` is set, nothing changes. Otherwise it fails exactly when the file does not validate, leaving `CONFIG` as `None`. On success, `CONFIG` becomes the `jira` section. |
| Jiratools.ConfigCache.ListFromConfig | jiratools/__init__.py:176-180 | It fails only on a first load of a file that does not validate, and then with that file's validation exit (status 1), leaving `CONFIG` as `None`. It never fails with `ConfigNotFoundException`. On a first load of a valid file, `CONFIG` becomes that file's `jira` section. The result is the comma list of the key in `CONFIG`, or `[]` for an absent key. |
| Jiratools.DefaultMaxResults | jiratools/__init__.py:301-302 | An absent key gives 10. A value the model's `int()` cannot read gives `ValueError`, and only such a value does. -1 gives "no limit", and only -1 does. A limit is never 0 or -1. |
| Jiratools.DefaultMaxResultsOf | jiratools/__init__.py:301-302 | For any value `int()` reads as `n` (with a sign, leading zeros or surrounding white space), the default is 10 for 0, "no limit" for -1, and `n` otherwise. |
| Jiratools.DefaultMaxResultsOfString | jiratools/__init__.py:301-302 | In particular, a value written as `str(n)` gives that default. |
| ErrorLogger.ErrorCommentLayout | jiratools/error_logger.py:20-23 | The error comment starts with the heading and banner, and ends with `"\n\n"` and the error in a `{code:java}` block. |
| ErrorLogger.AddJiraErrorComment | jiratools/error_logger.py:6-24 | It posts exactly one comment, on `jira_id`, with the error comment as its body. It returns `jira_id` unchanged. |
| ErrorLogger.TableCommentLayout | jiratools/error_logger.py:48-53 | The table comment starts with the heading and banner, and ends with `"\n\n"`, the prefix and the table. |
| ErrorLogger.AddJiraCommentWithTable | jiratools/error_logger.py:27-54 | It posts exactly one comment, on `jira_id`, with the table comment as its body. It returns `jira_id` unchanged. |
| ErrorLogger.RowHitsOrdered | jiratools/error_logger.py:79 | One known issue's hits are in error order, and each is for that issue. |
| ErrorLogger.HitsOrdered | jiratools/error_logger.py:78-79 | All hits are ordered by known issue first, then by error. |
| ErrorLogger.RowHitsSound | jiratools/error_logger.py:80 | Every hit in one known issue's row is a triggering pair. |
| ErrorLogger.HitsSound | jiratools/error_logger.py:78-80 | Every hit is a pair whose fragment is non-empty and occurs in the error, with that issue's id and that error's text. |
| ErrorLogger.RowHitsComplete | jiratools/error_logger.py:80 | Every triggering pair in one known issue's row is a hit. |
| ErrorLogger.HitsComplete | jiratools/error_logger.py:78-80 | Every triggering pair is a hit. |
| ErrorLogger.HitIds | jiratools/error_logger.py:81-83 | There is one id per hit. |
| ErrorLogger.HitIdsAt | jiratools/error_logger.py:81-83 | The n-th id is the n-th hit's issue id. |
| ErrorLogger.HitComments | jiratools/error_logger.py:81-83 | There is one comment per hit. |
| ErrorLogger.HitCommentsAt | jiratools/error_logger.py:81-83 | The n-th comment is the n-th hit's error, posted on its issue. |
| ErrorLogger.ExtendHits | jiratools/error_logger.py:81-83 | One more hit appends its id and its comment. |
| ErrorLogger.InnerStep | jiratools/error_logger.py:79-80 | One step of the inner loop adds the pair's hit exactly when it triggers. |
| ErrorLogger.CommentedIdsMembers | jiratools/error_logger.py:77-84 | An id is reported exactly when some known issue with that id has a non-empty fragment that occurs in some error. An issue whose fragment is `None` or empty is never reported. |
| ErrorLogger.CommentIfTriggers | jiratools/error_logger.py:80-83 | A triggering pair posts its comment and appends its id, each after those already there. A pair that does not trigger sends nothing. |
| ErrorLogger.CommentOnErrors | jiratools/error_logger.py:79-83 | The inner loop extends the ids and the comments with exactly this known issue's hits, in error order. |
| ErrorLogger.UpdateJiraForErrors | jiratools/error_logger.py:57-84 | The result holds one id per triggering pair, ordered by known issue then by error, so an id repeats once per matching error. Exactly one comment is posted per entry, in the same order. |
| MakeLinked.ComponentRefs | jiratools/make_linked.py:26-31 | It succeeds exactly when every requested name picks out one component. It then gives one `{"id": ...}` per name, in order, holding that component's id. Otherwise it fails with the exit of the first name that does not. |
| MakeLinked.IssueDataFails | jiratools/make_linked.py:24-31 | The payload fails only when components are asked for. An unknown project gives `JIRAError`; otherwise the component lookup's exit is passed on. |
| MakeLinked.IssueDataKeys | jiratools/make_linked.py:12-31 | The payload's keys are `project`, `summary`, `description` and `issuetype`, plus `assignee` exactly when asked for, and `labels` and `components` exactly when some are given. There are no other keys. |
| MakeLinked.IssueDataFixed | jiratools/make_linked.py:12-19 | The project, the summary (formatted with the existing issue's key and summary), the description, and `{"name": issue_type}`. |
| MakeLinked.IssueDataOptional | jiratools/make_linked.py:20-31 | `assignee` is the given user, or the current user when none is given. `labels` are the given labels. `components` are the references for the requested names. Each is present exactly under its condition. |
| MakeLinked.WatchRequests | jiratools/make_linked.py:34-35 | There is one watcher request per user, for the new issue, in the users' order. |
| MakeLinked.AddWatchers | jiratools/make_linked.py:34-35 | The loop sends exactly those watcher requests, in order. |
| MakeLinked.BuildIssueData | jiratools/make_linked.py:12-31 | The dictionary built up by the in-place `update` calls is the payload described above. |
| MakeLinked.CreateLinked | jiratools/make_linked.py:24-35 | If the payload cannot be built, nothing is sent. Otherwise it sends the issue creation, then the link ("relates to", new issue first), then the watcher requests, and returns the new key. |
| MakeLinked.CliMakeLinked | jiratools/make_linked.py:8-36 | On a first load of a valid file, `CONFIG` becomes its `jira` section; on a failed first load it stays `None`. A configuration failure, an unknown issue id or a failed payload sends nothing and returns that failure. Otherwise the requests above are sent, in that order, and the result is the new issue's key. |
| Client.JiraClient.PostComment | jiratools/__init__.py:140 | `add_comment` sends exactly one comment request. |
| Client.JiraClient.NewIssue | jiratools/make_linked.py:32 | `create_issue` sends exactly one creation request with the payload, and the server's next key comes back. |
| Client.JiraClient.LinkIssues | jiratools/helpers.py:86 | `create_issue_link` sends exactly one link request, with its arguments in order. |
| Client.JiraClient.Watch | jiratools/make_linked.py:35 | `add_watcher` sends exactly one watcher request. |

## Left out

- Reading the configuration file. `ConfigParser` is modelled as a map from section names to sections, each a map from keys to values. The model has no key lowercasing, no `DEFAULT` section and no `%` interpolation, and the file's existence is part of the input.
- `jgt_common` is not part of this model. `utils.py` and `helpers.py` call its `error_if` and `exit`; the model assumes they behave like the `error_if` and `_exit` of `__init__.py`.
- Outcomes.ExitStatus: exit statuses are unbounded integers; the operating system's truncation to 8 bits is not modelled.
- Strings.ParseIntToString: `int()` also accepts underscores between digits and non-ASCII decimal digits; the model reads only ASCII digits, with an optional sign and surrounding white space.
- Jiratools.DefaultMaxResults: `int()` also reads `"1_000"` and non-ASCII decimal digits. The model gives `ValueError` for these, where the source gets a count.
- Helpers.ComponentIdFromName: the component name is assumed to hold no `{` or `}`. `error_if` formats its message once more with the check (__init__.py:66), after the name has been pasted in. So a name holding braces makes the source raise `KeyError` or `ValueError`, or puts `True` in the message, instead of the stated exit.
- MakeLinked.ComponentRefs: the same assumption about component names, for the same reason.
- Utils.Validate: the configuration path is assumed to hold no `{` or `}`. It is pasted into a message that is formatted again (utils.py:55-56), so a path with braces would make every load raise instead of giving the stated exit.
- Jiratools.ConfigCache.LoadConfig: the same assumption about the path (__init__.py:81-82).
- `repr` of the missing-keys list is modelled only for keys without quotes or backslashes (they are always the fixed `REQUIRED_KEYS`).
- Python `str.format` of the summary template is the function parameter `fmt`.
- `args.user` is a string, where "" stands for both `None` and an empty `--user`; both are falsy in the source.
- The environment read by `_build_source` (`BUILD_URL`, `getpass.getuser()`) is the parameter `env`.
- ErrorLogger.AddJiraErrorComment: `add_comment` in `__init__.py` connects through `get_client` on every call, which may load the configuration and exit. The model posts through a given client, so configuration failures during `update_jira_for_errors` are not modelled.
- ErrorLogger.AddJiraCommentWithTable: the same applies to its call of `add_comment`.
- Network failures of write requests, and anything else the server does (permalinks, assignment rules, validation of the payload), are not modelled. Two server errors are modelled. `project_components` of an unknown project is `JiraError`. `client.issue` of an unknown id is the status-1 exit of `find_jira_helper`.
- `print` output, `argparse` wiring and the argument defaults of `_test_story_args` are not modelled: they are I/O and library configuration.
- `_create_test_jira_from`, `_find_jira_helper`, `_component_id_from_name` and `_link_jiras` in `__init__.py` duplicate `cli_make_linked`, `find_jira_helper`, `component_id_from_name` and `link_jiras`. Each is modelled once, through the latter.
- The other tools are not modelled: `cli_jira_link`, `_cli_add_comment`, `_cli_search` (apart from its default count), `_change_jira_assignee`, `_check_for_valid_user`, `_example_config_install`, and `add_comment` and `check_for_valid_user` in `helpers.py`. Each is a single client call plus printing.
- The inner loop of `update_jira_for_errors` is its own method, `CommentOnErrors`, and its body is `CommentIfTriggers`. The running list is handed from one call to the next, which is what the nested `for` loops do.
