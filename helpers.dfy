/** jiratools/helpers.py: comma-separated configuration lists, looking up a
    component by name, finding an issue, and linking two issues. */
module Helpers {
  import opened Outcomes
  import opened Strings
  import opened Client
  import Utils

  // ---------------------------------------------------------------------
  // Comma-separated lists

  /** The stripped pieces that are not empty, in their order. */
  function StrippedNonEmpty(pieces: seq<string>): (r: seq<string>)
    ensures forall x :: x in r ==> x != "" && Strip(x) == x
    ensures |r| <= |pieces|
  {
    if pieces == [] then []
    else
      var item := Strip(pieces[0]);
      var rest := StrippedNonEmpty(pieces[1..]);
      if item == "" then rest
      else
        StripIdempotent(pieces[0]);
        [item] + rest
  }

  /** `list(filter(None, [x.strip() for x in value.split(",")]))`. */
  function CommaList(value: string): (r: seq<string>)
    // every item is non-empty and has no white space around it
    ensures forall x :: x in r ==> x != "" && Strip(x) == x
  {
    StrippedNonEmpty(Split(value, ','))
  }

  /** `[x.strip() for x in pieces]`. */
  function StripEach(pieces: seq<string>): (r: seq<string>)
    ensures |r| == |pieces| && forall k :: 0 <= k < |pieces| ==> r[k] == Strip(pieces[k])
  {
    if pieces == [] then []
    else
      var rest := StripEach(pieces[1..]);
      assert forall k :: 1 <= k < |pieces| ==> ([Strip(pieces[0])] + rest)[k] == rest[k - 1];
      [Strip(pieces[0])] + rest
  }

  /** `StrippedNonEmpty` keeps the stripped pieces in their order. */
  lemma {:induction false} StrippedNonEmptyOrder(pieces: seq<string>)
    ensures IsSubsequence(StrippedNonEmpty(pieces), StripEach(pieces))
  {
    if pieces != [] {
      var rest := StrippedNonEmpty(pieces[1..]);
      var stripped := StripEach(pieces);
      StrippedNonEmptyOrder(pieces[1..]);
      assert stripped[1..] == StripEach(pieces[1..]);
      if Strip(pieces[0]) == "" {
        SubsequenceSkip(rest, stripped);
      } else {
        assert ([Strip(pieces[0])] + rest)[1..] == rest;
      }
    }
  }

  /** A sub-sequence of a sequence's tail is one of the sequence. */
  lemma {:induction false} SubsequenceSkip<T>(a: seq<T>, b: seq<T>)
    requires b != [] && IsSubsequence(a, b[1..])
    ensures IsSubsequence(a, b)
    decreases |b|, 0
  {
    if a != [] && a[0] == b[0] {
      SubsequenceTail(a, b[1..]);
    }
  }

  /** Dropping the first element of a sub-sequence leaves a sub-sequence. */
  lemma {:induction false} SubsequenceTail<T>(a: seq<T>, c: seq<T>)
    requires a != [] && IsSubsequence(a, c)
    ensures IsSubsequence(a[1..], c)
    decreases |c|, 1
  {
    if a[0] == c[0] {
      if a[1..] != [] {
        SubsequenceSkip(a[1..], c);
      }
    } else {
      SubsequenceTail(a, c[1..]);
      if a[1..] != [] {
        SubsequenceSkip(a[1..], c);
      }
    }
  }

  /** The items come out of the value in their original order. */
  lemma CommaListOrder(value: string)
    ensures IsSubsequence(CommaList(value), StripEach(Split(value, ',')))
  {
    StrippedNonEmptyOrder(Split(value, ','));
  }

  /** Nothing non-blank is dropped: the kept items are the stripped pieces
      with every empty one taken out, duplicates included. With
      `StrippedNonEmptyOrder` this fixes the list item by item. */
  lemma {:induction false} StrippedNonEmptyKeepsAll(pieces: seq<string>)
    ensures multiset(StrippedNonEmpty(pieces)) == multiset(StripEach(pieces))["" := 0]
  {
    if pieces != [] {
      var item := Strip(pieces[0]);
      var stripped := StripEach(pieces);
      var rest := StripEach(pieces[1..]);
      StrippedNonEmptyKeepsAll(pieces[1..]);
      assert stripped == [item] + rest;
      assert multiset(stripped) == multiset{item} + multiset(rest);
    }
  }

  /** Every item of the value that is not blank is in the list, stripped,
      as often as it occurs; blank items are not. */
  lemma CommaListComplete(value: string)
    ensures multiset(CommaList(value)) == multiset(StripEach(Split(value, ',')))["" := 0]
    ensures |CommaList(value)| == |StripEach(Split(value, ','))| - multiset(StripEach(Split(value, ',')))[""]
  {
    var stripped := StripEach(Split(value, ','));
    StrippedNonEmptyKeepsAll(Split(value, ','));
    MultisetWithout(stripped, "");
  }

  /** Taking every copy of `x` out of a sequence's multiset leaves as many
      elements as the sequence has, less the copies of `x`. */
  lemma {:induction false} MultisetWithout<T>(s: seq<T>, x: T)
    ensures |multiset(s)[x := 0]| == |s| - multiset(s)[x]
  {
    if s != [] {
      MultisetWithout(s[1..], x);
      assert s == [s[0]] + s[1..];
      assert multiset(s) == multiset{s[0]} + multiset(s[1..]);
      if s[0] == x {
        assert multiset(s)[x := 0] == multiset(s[1..])[x := 0];
      } else {
        assert multiset(s)[x := 0] == multiset{s[0]} + multiset(s[1..])[x := 0];
      }
    }
  }

  /** Stripped, non-empty pieces pass through unchanged. */
  lemma {:induction false} StrippedNonEmptyKeeps(items: seq<string>)
    requires forall k :: 0 <= k < |items| ==> items[k] != "" && Strip(items[k]) == items[k]
    ensures StrippedNonEmpty(items) == items
  {
    if items != [] {
      StrippedNonEmptyKeeps(items[1..]);
    }
  }

  /** Writing non-empty, stripped items without commas as `a,b,c` and
      reading them back gives the same list; for no items the value is "". */
  lemma CommaListRoundTrip(items: seq<string>)
    requires forall k :: 0 <= k < |items| ==> items[k] != "" && Strip(items[k]) == items[k] && ',' !in items[k]
    ensures CommaList(Join(",", items)) == items
  {
    if items != [] {
      SplitJoin(items, ',');
      StrippedNonEmptyKeeps(items);
    }
  }

  /** `StrippedNonEmpty` drops everything exactly when every piece is blank. */
  lemma {:induction false} StrippedNonEmptyEmpty(pieces: seq<string>)
    ensures StrippedNonEmpty(pieces) == [] <==> AllBlank(pieces)
  {
    if pieces != [] {
      StrippedNonEmptyEmpty(pieces[1..]);
      assert pieces == [pieces[0]] + pieces[1..];
      AllBlankCons(pieces[0], pieces[1..]);
    }
  }

  /** The list is empty exactly when the value holds nothing but commas and
      white space (the empty value included). */
  lemma CommaListEmpty(value: string)
    ensures CommaList(value) == [] <==> OnlySeparatorsAndSpace(value, ',')
  {
    StrippedNonEmptyEmpty(Split(value, ','));
    SplitAllBlank(value, ',');
  }

  /** `list_from_config(key_name)`: load the configuration (which may end
      the process), then read the key, taking "" when it is absent, as a
      comma-separated list. */
  method ListFromConfig(cache: Utils.ConfigCache, file: Utils.ConfigFile, keyName: string)
      returns (r: Result<seq<string>>)
    requires cache.Valid()
    modifies cache
    ensures cache.Valid()
    ensures r.Err? <==> old(cache.config).None? && Utils.Validate(file).Err?
    ensures r.Err? ==> r.error == Utils.Validate(file).error && cache.config == None
    ensures r.Ok? ==> cache.config.Some? && cache.config == (if old(cache.config).Some? then old(cache.config) else Some(Utils.Validate(file).value))
    ensures r.Ok? && keyName in cache.config.value ==> r.value == CommaList(cache.config.value[keyName])
    ensures r.Ok? && keyName !in cache.config.value ==> r.value == []
  {
    var config := cache.LoadConfig(file);
    if config.Err? {
      return Err(config.error);
    }
    var value := if keyName in config.value then config.value[keyName] else "";
    return Ok(CommaList(value));
  }

  // ---------------------------------------------------------------------
  // Components

  /** `[x.id for x in project_components if x.name == component_name]`. */
  function MatchingIds(components: seq<Component>, name: string): (r: seq<string>)
    ensures |r| <= |components|
  {
    if components == [] then []
    else (if components[0].name == name then [components[0].id] else [])
         + MatchingIds(components[1..], name)
  }

  /** No component has the name. */
  predicate NoneNamed(components: seq<Component>, name: string) {
    forall j :: 0 <= j < |components| ==> components[j].name != name
  }

  /** Component `i` is the only one with the name. */
  predicate OnlyNamed(components: seq<Component>, name: string, i: int) {
    && 0 <= i < |components| && components[i].name == name
    && forall j :: 0 <= j < |components| && components[j].name == name ==> j == i
  }

  /** Exactly one component has the name. */
  ghost predicate UniquelyNamed(components: seq<Component>, name: string) {
    exists i :: OnlyNamed(components, name, i)
  }

  lemma {:induction false} MatchingIdsNone(components: seq<Component>, name: string)
    ensures MatchingIds(components, name) == [] <==> NoneNamed(components, name)
  {
    if components != [] {
      MatchingIdsNone(components[1..], name);
      assert forall j :: 1 <= j < |components| ==> components[j] == components[1..][j - 1];
    }
  }

  /** There is a single match exactly when a single component has the name,
      and the match is that component's id. */
  lemma {:induction false} MatchingIdsSingle(components: seq<Component>, name: string)
    ensures |MatchingIds(components, name)| == 1 <==> UniquelyNamed(components, name)
    ensures forall i :: OnlyNamed(components, name, i) ==> MatchingIds(components, name) == [components[i].id]
  {
    if components != [] {
      var tail := components[1..];
      MatchingIdsSingle(tail, name);
      MatchingIdsNone(tail, name);
      assert forall j :: 1 <= j < |components| ==> components[j] == tail[j - 1];
      if components[0].name == name {
        if NoneNamed(tail, name) {
          assert OnlyNamed(components, name, 0);
        }
        forall i | OnlyNamed(components, name, i) ensures NoneNamed(tail, name) {
          assert i == 0;
        }
      } else {
        forall i | OnlyNamed(tail, name, i) ensures OnlyNamed(components, name, i + 1) {
        }
        forall i | OnlyNamed(components, name, i) ensures OnlyNamed(tail, name, i - 1) {
        }
      }
    }
  }

  function NotUniqueMessage(name: string): string {
    "More than one component in project with name: " + name
  }

  /** `component_id_from_name(project_components, component_name)`: the id of
      the one component with that name; when there is not exactly one, the
      process ends with status 1 - for no match too, with the same "More
      than one" message. */
  function ComponentIdFromName(components: seq<Component>, name: string): (r: Result<string>)
    ensures r.Ok? <==> UniquelyNamed(components, name)
    ensures forall i :: OnlyNamed(components, name, i) ==> r == Ok(components[i].id)
    ensures r.Err? ==> r.error == SystemExit(1, NotUniqueMessage(name))
  {
    MatchingIdsSingle(components, name);
    var matches := MatchingIds(components, name);
    var failed := ErrorIf(Flag(|matches| != 1), None, NotUniqueMessage(name));
    if failed.Some? then Err(failed.value) else Ok(matches[0])
  }

  // ---------------------------------------------------------------------
  // Client calls

  /** `find_jira_helper(jira_id)`: connect (loading the configuration), then
      fetch the issue; an unknown id prints a note and ends the process
      with status 1. */
  method FindJiraHelper(cache: Utils.ConfigCache, file: Utils.ConfigFile, client: JiraClient, jiraId: string)
      returns (r: Result<Issue>)
    requires cache.Valid()
    modifies cache
    ensures cache.Valid()
    ensures old(cache.config).Some? ==> cache.config == old(cache.config)
    ensures old(cache.config).None? && Utils.Validate(file).Ok? ==> cache.config == Some(Utils.Validate(file).value)
    ensures old(cache.config).None? && Utils.Validate(file).Err? ==> cache.config == None
    ensures r.Err? && old(cache.config).None? && Utils.Validate(file).Err? ==> r.error == Utils.Validate(file).error
    ensures r.Ok? <==> (old(cache.config).Some? || Utils.Validate(file).Ok?) && jiraId in client.issues
    ensures r.Ok? ==> cache.config.Some? && r.value == client.issues[jiraId]
    ensures r.Err? && (old(cache.config).Some? || Utils.Validate(file).Ok?) ==> r.error == SystemExit(1, "")
  {
    var connection := cache.GetClient(file);
    if connection.Err? {
      return Err(connection.error);
    }
    if jiraId !in client.issues {
      return Err(SystemExit(1, ""));
    }
    return Ok(client.issues[jiraId]);
  }

  /** `link_jiras(client, from_jira, to_jira, relation_type)`: one link
      request, the relation first, then the issue linked from, then the one
      linked to; the relation is "relates to" unless another is given. */
  method LinkJiras(client: JiraClient, fromJira: string, toJira: string,
                   relationType: string := Utils.DefaultLinkType)
    modifies client`log
    ensures client.log == old(client.log) + [CreateIssueLink(relationType, fromJira, toJira)]
  {
    client.LinkIssues(relationType, fromJira, toJira);
  }
}
