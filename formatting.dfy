/** JIRA wiki-markup builders of jiratools/formatting.py: the "Automated
    JIRA Update" banner around a comment body, and `||`/`|` tables. */
module Formatting {
  import opened Outcomes
  import opened Strings

  /** What `_build_source` reads from the process environment: the
      `BUILD_URL` variable, if set, and the login name of the current user. */
  datatype Env = Env(buildUrl: Option<string>, user: string)

  /** A table cell: the rows of `format_as_jira_table` hold strings and integers. */
  datatype Cell = Text(s: string) | Number(n: int)

  const Banner: string := "\n\nAutomated JIRA Update:\n\n"

  /** `_build_source()`: the build URL when one is set (even an empty one),
      otherwise a note naming the user who ran the tool. */
  function BuildSource(env: Env): string {
    match env.buildUrl
    case Some(url) => url
    case None => "Manual run by " + env.user
  }

  /** The `h2.` heading the message opens with; absent for `None` and for "". */
  function Heading(headerBody: Option<string>): string {
    if headerBody.Some? && headerBody.value != "" then "h2. " + headerBody.value else ""
  }

  /** `format_autoupdate_jira_msg(message_body, header_body)`: an optional
      `h2.` heading, the banner, the build source, a blank line, the body. */
  function FormatAutoupdateJiraMsg(messageBody: string, headerBody: Option<string>, env: Env): string {
    Heading(headerBody) + Banner + BuildSource(env) + "\n\n" + messageBody
  }

  /** The layout of an automated update: heading (if any), banner, build
      source, blank line, body - each recoverable from its position. */
  lemma AutoupdateMsgLayout(messageBody: string, headerBody: Option<string>, env: Env)
    ensures var r := FormatAutoupdateJiraMsg(messageBody, headerBody, env);
            // without a (non-empty) header the message starts with the banner ...
            && (headerBody.None? || headerBody == Some("") ==> Banner <= r)
            // ... and with one it starts with the heading, straight followed by the banner
            && (headerBody.Some? && headerBody.value != "" ==> "h2. " + headerBody.value + Banner <= r)
            && Heading(headerBody) + Banner <= r
            // the build source is the build URL when set, else the user's note
            && (env.buildUrl.Some? ==> BuildSource(env) == env.buildUrl.value)
            && (env.buildUrl.None? ==> BuildSource(env) == "Manual run by " + env.user)
            // the build source sits between the banner and the body, which ends the message
            && var start := |Heading(headerBody)| + |Banner|;
               && |r| == start + |BuildSource(env)| + 2 + |messageBody|
               && r[start..start + |BuildSource(env)|] == BuildSource(env)
               && r[start + |BuildSource(env)|..] == "\n\n" + messageBody
  {
    var r := FormatAutoupdateJiraMsg(messageBody, headerBody, env);
    assert r == (Heading(headerBody) + Banner) + BuildSource(env) + ("\n\n" + messageBody);
  }

  /** `str(cell)`. */
  function CellText(c: Cell): string {
    match c
    case Text(s) => s
    case Number(n) => IntToString(n)
  }

  /** `map(str, row)`. */
  function CellTexts(row: seq<Cell>): seq<string> {
    seq(|row|, k requires 0 <= k < |row| => CellText(row[k]))
  }

  /** The header line `||h1||h2||`. */
  function HeaderLine(headers: seq<string>): string {
    "||" + Join("||", headers) + "||"
  }

  /** The line for one data row: `|c1|c2|`. */
  function RowLine(row: seq<Cell>): string {
    "|" + Join("|", CellTexts(row)) + "|"
  }

  /** `format_as_jira_table(headers, data_array)`: the header line and one
      line per row, in row order, joined with newlines. */
  function FormatAsJiraTable(headers: seq<string>, rows: seq<seq<Cell>>): (r: string)
    ensures rows == [] ==> r == HeaderLine(headers)
    ensures HeaderLine(headers) <= r
  {
    var lines := [HeaderLine(headers)] + seq(|rows|, k requires 0 <= k < |rows| => RowLine(rows[k]));
    assert lines[0] == HeaderLine(headers);
    assert |lines| > 1 ==> Join("\n", lines) == HeaderLine(headers) + "\n" + Join("\n", lines[1..]);
    Join("\n", lines)
  }

  /** No header and no text cell holds a line break. */
  predicate SingleLine(headers: seq<string>, rows: seq<seq<Cell>>) {
    && (forall k :: 0 <= k < |headers| ==> '\n' !in headers[k])
    && (forall i, j :: 0 <= i < |rows| && 0 <= j < |rows[i]| && rows[i][j].Text? ==> '\n' !in rows[i][j].s)
  }

  /** Numbers print without line breaks or bars. */
  lemma CellTextAvoids(c: Cell, x: char)
    requires x == '\n' || x == '|'
    requires c.Text? ==> x !in c.s
    ensures x !in CellText(c)
  {
    if c.Number? {
      var s := IntToString(c.n);
      assert forall k :: 0 <= k < |s| ==> s[k] != x;
    }
  }

  /** When no header or cell holds a line break, the table splits into
      exactly the header line followed by one line per row, in row order. */
  lemma TableLines(headers: seq<string>, rows: seq<seq<Cell>>)
    requires SingleLine(headers, rows)
    ensures var lines := Split(FormatAsJiraTable(headers, rows), '\n');
            && |lines| == |rows| + 1
            && lines[0] == HeaderLine(headers)
            && forall i :: 0 <= i < |rows| ==> lines[i + 1] == RowLine(rows[i])
  {
    var lines := [HeaderLine(headers)] + seq(|rows|, k requires 0 <= k < |rows| => RowLine(rows[k]));
    JoinAvoids("||", headers, '\n');
    assert '\n' !in HeaderLine(headers);
    forall i | 0 <= i < |rows| ensures '\n' !in RowLine(rows[i]) {
      var texts := CellTexts(rows[i]);
      forall j | 0 <= j < |texts| ensures '\n' !in texts[j] {
        CellTextAvoids(rows[i][j], '\n');
      }
      JoinAvoids("|", texts, '\n');
    }
    assert forall k :: 0 <= k < |lines| ==> '\n' !in lines[k] by {
      forall k | 0 <= k < |lines| ensures '\n' !in lines[k] {
        if k > 0 { assert lines[k] == RowLine(rows[k - 1]); }
      }
    }
    SplitJoin(lines, '\n');
  }

  /** A row line is recoverable: between its outer bars, splitting on `|`
      gives back the text of each cell, as long as no text cell holds a bar. */
  lemma RowCells(row: seq<Cell>)
    requires |row| >= 1
    requires forall j :: 0 <= j < |row| && row[j].Text? ==> '|' !in row[j].s
    ensures var line := RowLine(row);
            Split(line[1..|line| - 1], '|') == CellTexts(row)
  {
    var texts := CellTexts(row);
    var line := RowLine(row);
    assert line[1..|line| - 1] == Join("|", texts);
    forall j | 0 <= j < |texts| ensures '|' !in texts[j] {
      CellTextAvoids(row[j], '|');
    }
    SplitJoin(texts, '|');
  }
}
