/** jiratools/error_logger.py: comments that report an error or a table on
    an issue, and the matching of known issues against observed errors. */
module ErrorLogger {
  import opened Outcomes
  import opened Strings
  import opened Client
  import opened Formatting
  import Jiratools

  /** One entry of `jiras`: an issue and the error-message fragment that
      identifies it (`None` or "" matches nothing). */
  datatype KnownJira = KnownJira(jiraId: string, errorMessage: Option<string>)

  /** The body `add_jira_error_comment` posts: the error in a code block,
      under the automated-update banner. */
  function ErrorCommentBody(errorMsg: string, headerBody: Option<string>, env: Env): string {
    FormatAutoupdateJiraMsg(Jiratools.FormatAsCodeBlock(errorMsg), headerBody, env)
  }

  /** An error comment opens with the heading and banner and ends with the
      error in a `{code:java}` block, from which it can be cut back out. */
  lemma ErrorCommentLayout(errorMsg: string, headerBody: Option<string>, env: Env)
    ensures var body := ErrorCommentBody(errorMsg, headerBody, env);
            && Heading(headerBody) + Banner <= body
            && var tail := "\n\n" + Jiratools.FormatAsCodeBlock(errorMsg);
               |body| >= |tail| && body[|body| - |tail|..] == tail
  {
    AutoupdateMsgLayout(Jiratools.FormatAsCodeBlock(errorMsg), headerBody, env);
  }

  /** `add_jira_error_comment(jira_id, error_msg, header_body=...)`: posts
      one comment and hands back the id it was given. */
  method AddJiraErrorComment(client: JiraClient, jiraId: string, errorMsg: string,
                             headerBody: Option<string>, env: Env)
      returns (id: string)
    modifies client`log
    ensures id == jiraId
    ensures client.log == old(client.log) + [AddComment(jiraId, ErrorCommentBody(errorMsg, headerBody, env))]
  {
    client.PostComment(jiraId, FormatAutoupdateJiraMsg(Jiratools.FormatAsCodeBlock(errorMsg), headerBody, env));
    id := jiraId;
  }

  /** The body `add_jira_comment_with_table` posts: the prefix and the
      table, under the automated-update banner. */
  function TableCommentBody(headers: seq<string>, rows: seq<seq<Cell>>, msgPrefix: string,
                            headerBody: Option<string>, env: Env): string {
    FormatAutoupdateJiraMsg(msgPrefix + FormatAsJiraTable(headers, rows), headerBody, env)
  }

  /** A table comment opens with the heading and banner and ends with the
      prefix followed by the table. */
  lemma TableCommentLayout(headers: seq<string>, rows: seq<seq<Cell>>, msgPrefix: string,
                           headerBody: Option<string>, env: Env)
    ensures var body := TableCommentBody(headers, rows, msgPrefix, headerBody, env);
            && Heading(headerBody) + Banner <= body
            && var tail := "\n\n" + msgPrefix + FormatAsJiraTable(headers, rows);
               |body| >= |tail| && body[|body| - |tail|..] == tail
  {
    var table := msgPrefix + FormatAsJiraTable(headers, rows);
    AutoupdateMsgLayout(table, headerBody, env);
    assert "\n\n" + msgPrefix + FormatAsJiraTable(headers, rows) == "\n\n" + table;
  }

  /** `add_jira_comment_with_table(jira_id, data_headers, data_array,
      msg_prefix, header_body=...)`: posts one comment and hands back the id. */
  method AddJiraCommentWithTable(client: JiraClient, jiraId: string, headers: seq<string>,
                                 rows: seq<seq<Cell>>, msgPrefix: string,
                                 headerBody: Option<string>, env: Env)
      returns (id: string)
    modifies client`log
    ensures id == jiraId
    ensures client.log == old(client.log) + [AddComment(jiraId, TableCommentBody(headers, rows, msgPrefix, headerBody, env))]
  {
    var messageWithTable := msgPrefix + FormatAsJiraTable(headers, rows);
    client.PostComment(jiraId, FormatAutoupdateJiraMsg(messageWithTable, headerBody, env));
    id := jiraId;
  }

  // ---------------------------------------------------------------------
  // Matching known issues against errors

  /** `jira.error_message and jira.error_message in error`. */
  predicate Triggers(jira: KnownJira, error: string) {
    jira.errorMessage.Some? && jira.errorMessage.value != "" && Contains(error, jira.errorMessage.value)
  }

  /** A matching pair: the positions of a known issue and of an error,
      with the issue's id and the error's text. */
  datatype Hit = Hit(jira: nat, error: nat, jiraId: string, message: string)

  /** The hit for known issue `i` and error `e`. */
  function HitAt(jiras: seq<KnownJira>, errors: seq<string>, i: nat, e: nat): Hit
    requires i < |jiras| && e < |errors|
  {
    Hit(i, e, jiras[i].jiraId, errors[e])
  }

  /** The hits of known issue `i` among the first `k` errors, in error order. */
  function RowHits(jiras: seq<KnownJira>, errors: seq<string>, i: nat, k: nat): (r: seq<Hit>)
    requires i < |jiras| && k <= |errors|
  {
    if k == 0 then []
    else RowHits(jiras, errors, i, k - 1) + (if Triggers(jiras[i], errors[k - 1]) then [HitAt(jiras, errors, i, k - 1)] else [])
  }

  /** The hits of the first `i` known issues, issue by issue. */
  function HitsBefore(jiras: seq<KnownJira>, errors: seq<string>, i: nat): (r: seq<Hit>)
    requires i <= |jiras|
  {
    if i == 0 then []
    else HitsBefore(jiras, errors, i - 1) + RowHits(jiras, errors, i - 1, |errors|)
  }

  /** Every (known issue, error) pair that triggers, in the order of the
      nested loops: by known issue first, then by error. */
  function Hits(jiras: seq<KnownJira>, errors: seq<string>): seq<Hit> {
    HitsBefore(jiras, errors, |jiras|)
  }

  /** Strictly increasing by known issue, then by error. */
  predicate Before(a: Hit, b: Hit) {
    a.jira < b.jira || (a.jira == b.jira && a.error < b.error)
  }

  predicate Ordered(hits: seq<Hit>) {
    forall m, n :: 0 <= m < n < |hits| ==> Before(hits[m], hits[n])
  }

  lemma {:induction false} RowHitsOrdered(jiras: seq<KnownJira>, errors: seq<string>, i: nat, k: nat)
    requires i < |jiras| && k <= |errors|
    ensures Ordered(RowHits(jiras, errors, i, k))
    ensures forall h :: h in RowHits(jiras, errors, i, k) ==> h.jira == i && h.error < k
  {
    if k > 0 {
      RowHitsOrdered(jiras, errors, i, k - 1);
    }
  }

  /** The hits run by known issue first, then by error, each pair once. */
  lemma {:induction false} HitsOrdered(jiras: seq<KnownJira>, errors: seq<string>, i: nat)
    requires i <= |jiras|
    ensures Ordered(HitsBefore(jiras, errors, i))
    ensures forall h :: h in HitsBefore(jiras, errors, i) ==> h.jira < i
  {
    if i > 0 {
      var a := HitsBefore(jiras, errors, i - 1);
      var b := RowHits(jiras, errors, i - 1, |errors|);
      HitsOrdered(jiras, errors, i - 1);
      RowHitsOrdered(jiras, errors, i - 1, |errors|);
      assert HitsBefore(jiras, errors, i) == a + b;
      forall m, n | 0 <= m < n < |a + b| ensures Before((a + b)[m], (a + b)[n]) {
        if n < |a| {
          assert (a + b)[m] == a[m] && (a + b)[n] == a[n];
        } else if m < |a| {
          assert (a + b)[m] == a[m] && a[m] in a;
          assert (a + b)[n] == b[n - |a|] && b[n - |a|] in b;
        } else {
          assert (a + b)[m] == b[m - |a|] && (a + b)[n] == b[n - |a|];
        }
      }
      forall h | h in a + b ensures h.jira < i {
        if h !in a {
          assert h in b;
        }
      }
    }
  }

  lemma {:induction false} RowHitsSound(jiras: seq<KnownJira>, errors: seq<string>, i: nat, k: nat)
    requires i < |jiras| && k <= |errors|
    ensures forall h :: h in RowHits(jiras, errors, i, k) ==>
              h.error < |errors| && h == HitAt(jiras, errors, i, h.error) && Triggers(jiras[i], errors[h.error])
  {
    if k > 0 {
      RowHitsSound(jiras, errors, i, k - 1);
    }
  }

  /** Every hit is a triggering pair, and carries that pair's id and error. */
  lemma {:induction false} HitsSound(jiras: seq<KnownJira>, errors: seq<string>, i: nat)
    requires i <= |jiras|
    ensures forall h :: h in HitsBefore(jiras, errors, i) ==>
              && h.jira < |jiras| && h.error < |errors|
              && h == HitAt(jiras, errors, h.jira, h.error)
              && Triggers(jiras[h.jira], errors[h.error])
  {
    if i > 0 {
      var a := HitsBefore(jiras, errors, i - 1);
      var b := RowHits(jiras, errors, i - 1, |errors|);
      HitsSound(jiras, errors, i - 1);
      RowHitsSound(jiras, errors, i - 1, |errors|);
      assert HitsBefore(jiras, errors, i) == a + b;
      forall h: Hit | h in a + b
        ensures && h.jira < |jiras| && h.error < |errors|
                && h == HitAt(jiras, errors, h.jira, h.error)
                && Triggers(jiras[h.jira], errors[h.error])
      {
        if h !in a {
          assert h in b;
        }
      }
    }
  }

  lemma {:induction false} RowHitsComplete(jiras: seq<KnownJira>, errors: seq<string>, i: nat, k: nat)
    requires i < |jiras| && k <= |errors|
    ensures forall e :: 0 <= e < k && Triggers(jiras[i], errors[e]) ==>
              HitAt(jiras, errors, i, e) in RowHits(jiras, errors, i, k)
  {
    if k > 0 {
      RowHitsComplete(jiras, errors, i, k - 1);
    }
  }

  /** Every triggering pair is a hit. */
  lemma {:induction false} HitsComplete(jiras: seq<KnownJira>, errors: seq<string>, i: nat)
    requires i <= |jiras|
    ensures forall j, e :: 0 <= j < i && 0 <= e < |errors| && Triggers(jiras[j], errors[e]) ==>
              HitAt(jiras, errors, j, e) in HitsBefore(jiras, errors, i)
  {
    if i > 0 {
      var a := HitsBefore(jiras, errors, i - 1);
      var b := RowHits(jiras, errors, i - 1, |errors|);
      HitsComplete(jiras, errors, i - 1);
      RowHitsComplete(jiras, errors, i - 1, |errors|);
      assert HitsBefore(jiras, errors, i) == a + b;
      forall j, e | 0 <= j < i && 0 <= e < |errors| && Triggers(jiras[j], errors[e])
        ensures HitAt(jiras, errors, j, e) in a + b
      {
        if j < i - 1 {
          assert HitAt(jiras, errors, j, e) in a;
        } else {
          assert HitAt(jiras, errors, j, e) in b;
        }
      }
    }
  }

  /** The ids of the hits, in hit order. */
  function HitIds(hits: seq<Hit>): (r: seq<string>)
    ensures |r| == |hits|
  {
    if hits == [] then []
    else HitIds(hits[..|hits| - 1]) + [hits[|hits| - 1].jiraId]
  }

  /** The n-th id is the n-th hit's. */
  lemma {:induction false} HitIdsAt(hits: seq<Hit>, n: nat)
    requires n < |hits|
    ensures HitIds(hits)[n] == hits[n].jiraId
  {
    if n < |hits| - 1 {
      HitIdsAt(hits[..|hits| - 1], n);
    }
  }

  /** The comment posted for one hit. */
  function HitComment(h: Hit, headerBody: Option<string>, env: Env): Request {
    AddComment(h.jiraId, ErrorCommentBody(h.message, headerBody, env))
  }

  /** The comments posted for the hits, in hit order. */
  function HitComments(hits: seq<Hit>, headerBody: Option<string>, env: Env): (r: seq<Request>)
    ensures |r| == |hits|
  {
    if hits == [] then []
    else HitComments(hits[..|hits| - 1], headerBody, env) + [HitComment(hits[|hits| - 1], headerBody, env)]
  }

  /** The n-th comment is the n-th hit's error, posted on its issue. */
  lemma {:induction false} HitCommentsAt(hits: seq<Hit>, headerBody: Option<string>, env: Env, n: nat)
    requires n < |hits|
    ensures HitComments(hits, headerBody, env)[n] == AddComment(hits[n].jiraId, ErrorCommentBody(hits[n].message, headerBody, env))
  {
    if n < |hits| - 1 {
      HitCommentsAt(hits[..|hits| - 1], headerBody, env, n);
    }
  }

  /** One more hit adds its id and its comment at the end. */
  lemma ExtendHits(hits: seq<Hit>, h: Hit, headerBody: Option<string>, env: Env)
    ensures HitIds(hits + [h]) == HitIds(hits) + [h.jiraId]
    ensures HitComments(hits + [h], headerBody, env) == HitComments(hits, headerBody, env) + [HitComment(h, headerBody, env)]
  {
    assert (hits + [h])[..|hits|] == hits;
  }

  /** What one step of the inner loop does to the hits found so far. */
  lemma InnerStep(jiras: seq<KnownJira>, errors: seq<string>, i: nat, k: nat)
    requires i < |jiras| && k < |errors|
    ensures var done := HitsBefore(jiras, errors, i) + RowHits(jiras, errors, i, k);
            var next := HitsBefore(jiras, errors, i) + RowHits(jiras, errors, i, k + 1);
            && (Triggers(jiras[i], errors[k]) ==> next == done + [HitAt(jiras, errors, i, k)])
            && (!Triggers(jiras[i], errors[k]) ==> next == done)
  {
    var hb := HitsBefore(jiras, errors, i);
    var before := RowHits(jiras, errors, i, k);
    if Triggers(jiras[i], errors[k]) {
      AppendAssoc(hb, before, HitAt(jiras, errors, i, k));
    } else {
      assert before + [] == before;
    }
  }

  lemma AppendAssoc<T>(a: seq<T>, b: seq<T>, x: T)
    ensures (a + b) + [x] == a + (b + [x])
  {
  }

  /** The ids `update_jira_for_errors` reports: one per triggering pair, so
      an issue appears once for every error it matches. */
  function CommentedIds(jiras: seq<KnownJira>, errors: seq<string>): seq<string> {
    HitIds(Hits(jiras, errors))
  }

  /** An id is reported exactly when some known issue with that id triggers
      on some error; an issue whose fragment is `None` or "" contributes
      nothing. */
  lemma CommentedIdsMembers(jiras: seq<KnownJira>, errors: seq<string>, id: string)
    ensures id in CommentedIds(jiras, errors) <==>
            exists j, e :: 0 <= j < |jiras| && 0 <= e < |errors| && jiras[j].jiraId == id && Triggers(jiras[j], errors[e])
  {
    var hits := Hits(jiras, errors);
    var ids := CommentedIds(jiras, errors);
    HitsSound(jiras, errors, |jiras|);
    HitsComplete(jiras, errors, |jiras|);
    if id in ids {
      var n :| 0 <= n < |ids| && ids[n] == id;
      HitIdsAt(hits, n);
      assert hits[n] in hits;
    }
    if exists j, e :: 0 <= j < |jiras| && 0 <= e < |errors| && jiras[j].jiraId == id && Triggers(jiras[j], errors[e]) {
      var j, e :| 0 <= j < |jiras| && 0 <= e < |errors| && jiras[j].jiraId == id && Triggers(jiras[j], errors[e]);
      var n :| 0 <= n < |hits| && hits[n] == HitAt(jiras, errors, j, e);
      HitIdsAt(hits, n);
    }
  }

  /** The body of the inner loop of `update_jira_for_errors`: known issue
      `i` against error `k`, commenting and recording the id when the
      issue's fragment occurs in the error. */
  method CommentIfTriggers(client: JiraClient, jiras: seq<KnownJira>, errors: seq<string>, i: nat, k: nat,
                           headerBody: Option<string>, env: Env, ghost log0: seq<Request>,
                           ghost done: seq<Hit>, commented: seq<string>)
      returns (next: seq<string>, ghost doneNext: seq<Hit>)
    requires i < |jiras| && k < |errors|
    requires commented == HitIds(done)
    requires client.log == log0 + HitComments(done, headerBody, env)
    modifies client`log
    ensures doneNext == done + (if Triggers(jiras[i], errors[k]) then [HitAt(jiras, errors, i, k)] else [])
    ensures next == HitIds(doneNext)
    ensures client.log == log0 + HitComments(doneNext, headerBody, env)
  {
    var jira := jiras[i];
    var error := errors[k];
    next, doneNext := commented, done;
    if Triggers(jira, error) {
      ghost var hit := HitAt(jiras, errors, i, k);
      ghost var posted := HitComments(done, headerBody, env);
      var id := AddJiraErrorComment(client, jira.jiraId, error, headerBody, env);
      next := next + [id];
      ExtendHits(done, hit, headerBody, env);
      AppendAssoc(log0, posted, HitComment(hit, headerBody, env));
      doneNext := done + [hit];
    } else {
      assert done + [] == done;
    }
  }

  /** One pass of the inner loop of `update_jira_for_errors`: known issue
      `i` against every error, in order, appending to the ids commented on
      so far. */
  method CommentOnErrors(client: JiraClient, jiras: seq<KnownJira>, errors: seq<string>, i: nat,
                         headerBody: Option<string>, env: Env, ghost log0: seq<Request>,
                         commentedBefore: seq<string>)
      returns (commented: seq<string>)
    requires i < |jiras|
    requires commentedBefore == HitIds(HitsBefore(jiras, errors, i))
    requires client.log == log0 + HitComments(HitsBefore(jiras, errors, i), headerBody, env)
    modifies client`log
    ensures commented == HitIds(HitsBefore(jiras, errors, i + 1))
    ensures client.log == log0 + HitComments(HitsBefore(jiras, errors, i + 1), headerBody, env)
  {
    commented := commentedBefore;
    ghost var done := HitsBefore(jiras, errors, i);
    assert done + [] == done;
    var k := 0;
    while k < |errors|
      invariant 0 <= k <= |errors|
      invariant done == HitsBefore(jiras, errors, i) + RowHits(jiras, errors, i, k)
      invariant commented == HitIds(done)
      invariant client.log == log0 + HitComments(done, headerBody, env)
    {
      InnerStep(jiras, errors, i, k);
      commented, done := CommentIfTriggers(client, jiras, errors, i, k, headerBody, env, log0, done, commented);
      k := k + 1;
    }
  }

  /** `update_jira_for_errors(jiras, *errors, header_body=...)`: for each
      known issue, for each error, post the error on the issue when its
      fragment occurs in the error; report the ids commented on, in order. */
  method UpdateJiraForErrors(client: JiraClient, jiras: seq<KnownJira>, errors: seq<string>,
                             headerBody: Option<string>, env: Env)
      returns (jirasCommented: seq<string>)
    modifies client`log
    ensures jirasCommented == CommentedIds(jiras, errors)
    ensures client.log == old(client.log) + HitComments(Hits(jiras, errors), headerBody, env)
  {
    jirasCommented := [];
    var i := 0;
    while i < |jiras|
      invariant 0 <= i <= |jiras|
      invariant jirasCommented == HitIds(HitsBefore(jiras, errors, i))
      invariant client.log == old(client.log) + HitComments(HitsBefore(jiras, errors, i), headerBody, env)
    {
      jirasCommented := CommentOnErrors(client, jiras, errors, i, headerBody, env, old(client.log), jirasCommented);
      i := i + 1;
    }
  }
}
