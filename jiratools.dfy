/** jiratools/__init__.py: the package's own set-once `CONFIG`, its
    comma-separated configuration lists, the `{code:java}` block, and the
    default result count of the search tool. */
module Jiratools {
  import opened Outcomes
  import opened Strings
  import Utils
  import Helpers

  /** `format_as_code_block(text_to_wrap)`: the text between `{code:java}`
      and `{code}`, recoverable from the block by cutting both tags off. */
  function FormatAsCodeBlock(textToWrap: string): (r: string)
    ensures |r| == |textToWrap| + 17
    ensures r[..11] == "{code:java}" && r[|r| - 6..] == "{code}"
    ensures r[11..|r| - 6] == textToWrap
  {
    "{code:java}" + textToWrap + "{code}"
  }

  /** The module-global `CONFIG` of __init__.py, separate from the one in
      utils.py but loaded from the same file by the same checks. */
  class ConfigCache {
    var config: Option<Utils.Section>

    ghost predicate Valid()
      reads this
    {
      config.Some? ==> Utils.Complete(config.value)
    }

    constructor ()
      ensures Valid() && config == None
    {
      config := None;
    }

    /** `_load_config()`: nothing happens once `CONFIG` is set; otherwise a
        missing file, a missing `jira` section or missing required keys end
        the process with status 1, and a complete section becomes `CONFIG`. */
    method LoadConfig(file: Utils.ConfigFile) returns (r: Result<()>)
      requires Valid()
      modifies this
      ensures Valid()
      ensures old(config).Some? ==> config == old(config) && r == Ok(())
      ensures old(config).None? ==> (r.Ok? <==> Utils.Validate(file).Ok?)
      ensures old(config).None? && r.Err? ==> r.error == Utils.Validate(file).error && config == None
      ensures old(config).None? && r.Ok? ==> config == Some(Utils.Validate(file).value)
    {
      if config.Some? {
        return Ok(());
      }
      var notFound := ErrorIf(Flag(file.sections.None?), None, Utils.NotFoundMessage(file.path));
      if notFound.Some? {
        return Err(notFound.value);
      }
      var sections := file.sections.value;
      var noSection := ErrorIf(Flag(Utils.SectionName !in sections), None, Utils.NoSectionMessage(file.path));
      if noSection.Some? {
        return Err(noSection.value);
      }
      var missing := Utils.MissingKeys(sections[Utils.SectionName]);
      var incomplete := ErrorIf(Items(|missing|), Some(1), Utils.MissingKeysMessage(file.path, missing));
      if incomplete.Some? {
        return Err(incomplete.value);
      }
      config := Some(sections[Utils.SectionName]);
      return Ok(());
    }

    /** `_list_from_config(key_name)`: load the configuration, then read the
        key (absent meaning "") as a comma-separated list. The
        `ConfigNotFoundException` branch cannot be taken. */
    method ListFromConfig(file: Utils.ConfigFile, keyName: string) returns (r: Result<seq<string>>)
      requires Valid()
      modifies this
      ensures Valid()
      ensures r != Err(ConfigNotFound)
      ensures r.Err? <==> old(config).None? && Utils.Validate(file).Err?
      ensures r.Ok? ==> config.Some? && (old(config).Some? ==> config == old(config))
      ensures old(config).None? && Utils.Validate(file).Ok? ==> config == Some(Utils.Validate(file).value)
      ensures r.Err? ==> r.error == Utils.Validate(file).error && config == None
      ensures r.Ok? && keyName in config.value ==> r.value == Helpers.CommaList(config.value[keyName])
      ensures r.Ok? && keyName !in config.value ==> r.value == []
    {
      var loaded := LoadConfig(file);
      if loaded.Err? {
        return Err(loaded.error);
      }
      var section := config.value;
      assert "JIRA_URL" in section;
      if section == map[] {
        assert false;
        return Err(ConfigNotFound);
      }
      var value := if keyName in section then section[keyName] else "";
      return Ok(Helpers.CommaList(value));
    }
  }

  /** The default `--max-results` of the search tool: `False` asks the
      client for every match. */
  datatype MaxResults = NoLimit | AtMost(count: int)

  const MaxResultCountKey: string := "MAX_RESULT_COUNT"

  /** `int(CONFIG.get("MAX_RESULT_COUNT", "0")) or 10`, with -1 turned into
      `False`; a value `int` cannot read raises `ValueError`. */
  function DefaultMaxResults(section: Utils.Section): (r: Result<MaxResults>)
    ensures MaxResultCountKey !in section ==> r == Ok(AtMost(10))
    ensures MaxResultCountKey in section ==>
              (r == Err(ValueError) <==> ParseInt(section[MaxResultCountKey]).None?)
    ensures r.Err? ==> r == Err(ValueError)
    // a limit is never 0 and never the -1 that stands for "no limit"
    ensures r.Ok? && r.value.AtMost? ==> r.value.count != 0 && r.value.count != -1
    ensures r == Ok(NoLimit) <==> MaxResultCountKey in section && ParseInt(section[MaxResultCountKey]) == Some(-1)
  {
    var raw := if MaxResultCountKey in section then section[MaxResultCountKey] else "0";
    ParseIntToString(0);
    match ParseInt(raw)
    case None => Err(ValueError)
    case Some(n) =>
      var count := if n == 0 then 10 else n;
      Ok(if count == -1 then NoLimit else AtMost(count))
  }

  /** A value `int` reads as `n` (spelled `str(n)`, or with a sign, leading
      zeros or white space around it) gives: 10 for 0, "no limit" for -1,
      and `n` itself otherwise. */
  lemma DefaultMaxResultsOf(section: Utils.Section, n: int)
    requires MaxResultCountKey in section && ParseInt(section[MaxResultCountKey]) == Some(n)
    ensures DefaultMaxResults(section) == Ok(if n == 0 then AtMost(10) else if n == -1 then NoLimit else AtMost(n))
  {
    ParseIntToString(0);
  }

  /** In particular, a count written the way Python prints it. */
  lemma DefaultMaxResultsOfString(section: Utils.Section, n: int)
    requires MaxResultCountKey in section && section[MaxResultCountKey] == IntToString(n)
    ensures DefaultMaxResults(section) == Ok(if n == 0 then AtMost(10) else if n == -1 then NoLimit else AtMost(n))
  {
    ParseIntToString(n);
    DefaultMaxResultsOf(section, n);
  }
}
