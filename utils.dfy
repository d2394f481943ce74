/** jiratools/utils.py: the required configuration keys, the set-once
    `CONFIG` loaded from the user's `jira.config`, and `get_client`. */
module Utils {
  import opened Outcomes
  import opened Strings

  /** One section of an INI file, as `ConfigParser` exposes it. */
  type Section = map<string, string>

  /** The configuration file: where it is, and its sections if it exists. */
  datatype ConfigFile = ConfigFile(path: string, sections: Option<map<string, Section>>)

  /** What `jira.JIRA(...)` is built from. */
  datatype Connection = Connection(url: string, username: string, password: string)

  const RequiredKeys: seq<string> := ["JIRA_URL", "USERNAME", "PASSWORD", "DEFAULT_ASSIGNEE", "TEST_PROJECT"]
  const DefaultLinkType: string := "relates to"
  const SectionName: string := "jira"

  /** The keys of `keys` that `section` lacks, in the order of `keys`. */
  function MissingFrom(keys: seq<string>, section: Section): (r: seq<string>)
    ensures forall k :: k in r <==> k in keys && k !in section
    ensures IsSubsequence(r, keys)
  {
    if keys == [] then []
    else
      var rest := MissingFrom(keys[1..], section);
      assert forall k :: k in keys <==> k == keys[0] || k in keys[1..];
      if keys[0] in section then rest else [keys[0]] + rest
  }

  /** `missing_keys`: the required keys the section lacks, in `REQUIRED_KEYS` order. */
  function MissingKeys(section: Section): (r: seq<string>)
    ensures forall k :: k in r <==> k in RequiredKeys && k !in section
    ensures IsSubsequence(r, RequiredKeys)
    ensures r == [] <==> Complete(section)
  {
    var r := MissingFrom(RequiredKeys, section);
    assert r != [] ==> r[0] in RequiredKeys && r[0] !in section;
    assert !Complete(section) ==> r != [] by {
      if !Complete(section) {
        var k :| k in RequiredKeys && k !in section;
        assert k in r;
      }
    }
    r
  }

  /** The section holds every required key. */
  predicate Complete(section: Section) {
    forall k :: k in RequiredKeys ==> k in section
  }

  function NotFoundMessage(path: string): string {
    "Config file \"" + path + "\" not found"
  }

  function NoSectionMessage(path: string): string {
    "Config file \"" + path + "\" missing \"" + SectionName + "\" section"
  }

  function MissingKeysMessage(path: string, missing: seq<string>): string {
    "Config file \"" + path + "\" section \"" + SectionName + "\" missing keys: " + ListRepr(missing)
  }

  /** What loading `file` from scratch yields: its `jira` section, or the
      exit for a missing file, a missing section or missing required keys. */
  function Validate(file: ConfigFile): (r: Result<Section>)
    ensures r.Ok? <==> file.sections.Some? && SectionName in file.sections.value
                       && Complete(file.sections.value[SectionName])
    ensures r.Ok? ==> r.value == file.sections.value[SectionName]
    ensures file.sections.None? ==> r == Err(SystemExit(1, NotFoundMessage(file.path)))
    ensures file.sections.Some? && SectionName !in file.sections.value
            ==> r == Err(SystemExit(1, NoSectionMessage(file.path)))
    ensures r.Err? ==> r.error.SystemExit? && r.error.code == 1
  {
    match file.sections
    case None => Err(SystemExit(1, NotFoundMessage(file.path)))
    case Some(sections) =>
      if SectionName !in sections then Err(SystemExit(1, NoSectionMessage(file.path)))
      else
        var missing := MissingKeys(sections[SectionName]);
        if missing != [] then Err(SystemExit(1, MissingKeysMessage(file.path, missing)))
        else Ok(sections[SectionName])
  }

  /** The connection settings of a complete section. */
  function ConnectionOf(section: Section): (c: Connection)
    requires Complete(section)
  {
    Connection(section["JIRA_URL"], section["USERNAME"], section["PASSWORD"])
  }

  /** The module-global `CONFIG` of utils.py: `None` until loaded, then the
      validated `jira` section for the rest of the process. */
  class ConfigCache {
    var config: Option<Section>

    /** Only a section that passed validation is ever stored. */
    ghost predicate Valid()
      reads this
    {
      config.Some? ==> Complete(config.value)
    }

    constructor ()
      ensures Valid() && config == None
    {
      config := None;
    }

    /** `load_config()`: a stored section is returned as it is, with no
        further checks; otherwise the file is checked and, if it passes,
        its `jira` section is stored and returned. */
    method LoadConfig(file: ConfigFile) returns (r: Result<Section>)
      requires Valid()
      modifies this
      ensures Valid()
      ensures old(config).Some? ==> config == old(config) && r == Ok(config.value)
      ensures old(config).None? ==> r == Validate(file)
      ensures old(config).None? ==> config == (if r.Ok? then Some(r.value) else None)
    {
      if config.Some? {
        return Ok(config.value);
      }
      var notFound := ErrorIf(Flag(file.sections.None?), None, NotFoundMessage(file.path));
      if notFound.Some? {
        return Err(notFound.value);
      }
      var sections := file.sections.value;
      var noSection := ErrorIf(Flag(SectionName !in sections), None, NoSectionMessage(file.path));
      if noSection.Some? {
        return Err(noSection.value);
      }
      var missing := MissingKeys(sections[SectionName]);
      var incomplete := ErrorIf(Items(|missing|), None, MissingKeysMessage(file.path, missing));
      if incomplete.Some? {
        return Err(incomplete.value);
      }
      config := Some(sections[SectionName]);
      return Ok(sections[SectionName]);
    }

    /** `get_client()`: load the configuration, then connect with its URL,
        user name and password. The `ConfigNotFoundException` branch cannot
        be taken: a loaded section holds every required key, so it is never
        empty. */
    method GetClient(file: ConfigFile) returns (r: Result<Connection>)
      requires Valid()
      modifies this
      ensures Valid()
      ensures r != Err(ConfigNotFound)
      ensures old(config).Some? ==> config == old(config) && r == Ok(ConnectionOf(config.value))
      ensures old(config).None? ==> (r.Ok? <==> Validate(file).Ok?)
      ensures old(config).None? && r.Err? ==> config == None && r == Err(Validate(file).error)
      ensures r.Ok? ==> config.Some? && r == Ok(ConnectionOf(config.value))
      ensures old(config).None? && Validate(file).Ok? ==> config == Some(Validate(file).value)
    {
      var loaded := LoadConfig(file);
      if loaded.Err? {
        return Err(loaded.error);
      }
      var section := config.value;
      assert "JIRA_URL" in section;
      if section == map[] {
        assert false;
        return Err(ConfigNotFound);
      }
      return Ok(ConnectionOf(section));
    }
  }
}
