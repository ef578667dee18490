/**
 * Settings and the layout of the data directory. The settings file is read by the
 * caller; here it arrives as absent, unreadable, or its text already parsed (or
 * not). The environment variable, the existence of a local settings file and the
 * user's home directory are parameters.
 */
module Config {
  import opened Wrappers
  import opened Text
  import opened Types
  import Skills

  // ----- settings -----

  datatype ProviderModelConfig = ProviderModelConfig(model: Option<string>)

  /** The legacy single-agent section: the provider and one section per provider. */
  datatype ModelsConfig = ModelsConfig(
    provider: Option<string>,
    anthropic: Option<ProviderModelConfig>,
    openai: Option<ProviderModelConfig>,
    opencode: Option<ProviderModelConfig>)

  datatype WorkspaceConfig = WorkspaceConfig(path: Option<string>, name: Option<string>)

  /** The parts of settings.json the core reads; the channel and monitoring sections are not modelled. */
  datatype Settings = Settings(
    workspace: Option<WorkspaceConfig>,
    models: Option<ModelsConfig>,
    agents: Option<Agents>,
    teams: Option<Teams>,
    skills: Option<map<string, Skills.SkillOverride>>)

  /** `Settings::default()`: every section absent. */
  const EmptySettings := Settings(None, None, None, None, None)

  /** settings.json as the loader finds it: missing, failing to read, or read and parsed (None when the JSON is invalid). */
  datatype SettingsFile = Missing | ReadFailed | Read(parsed: Option<Settings>)

  /** The provider `get_settings` fills in when none is set: the first section present among openai, opencode, anthropic. */
  function DetectedProvider(m: ModelsConfig): Option<string> {
    if m.openai.Some? then Some("openai")
    else if m.opencode.Some? then Some("opencode")
    else if m.anthropic.Some? then Some("anthropic")
    else None
  }

  /** The settings with the provider auto-detected. */
  function WithProvider(s: Settings): Settings {
    match s.models
    case Some(m) => if m.provider.None? then s.(models := Some(m.(provider := DetectedProvider(m)))) else s
    case None => s
  }

  /** `get_settings`: a missing file or invalid JSON gives the empty settings; a read failure is an error. */
  function LoadSettings(file: SettingsFile): Result<Settings, string> {
    match file
    case Missing => Ok(EmptySettings)
    case ReadFailed => Err("Failed to read settings.json")
    case Read(None) => Ok(EmptySettings)
    case Read(Some(s)) => Ok(WithProvider(s))
  }

  /** `get_settings`, which sets the provider on the parsed value in place. */
  method GetSettings(file: SettingsFile) returns (r: Result<Settings, string>)
    ensures r == LoadSettings(file)
  {
    match file {
      case Missing => return Ok(EmptySettings);
      case ReadFailed => return Err("Failed to read settings.json");
      case Read(parsed) =>
        if parsed.None? {
          return Ok(EmptySettings);
        }
        var settings := parsed.value;
        if settings.models.Some? {
          var models := settings.models.value;
          if models.provider.None? {
            if models.openai.Some? {
              models := models.(provider := Some("openai"));
            } else if models.opencode.Some? {
              models := models.(provider := Some("opencode"));
            } else if models.anthropic.Some? {
              models := models.(provider := Some("anthropic"));
            }
          }
          settings := settings.(models := Some(models));
        }
        return Ok(settings);
    }
  }

  /**
   * Loading fails only when the file exists but cannot be read. A missing file or invalid
   * JSON gives the empty settings. Otherwise only the provider may change: an explicit one
   * is kept, and a missing one becomes the first section present among openai, opencode
   * and anthropic, or stays unset when none is present.
   */
  lemma LoadSettingsProperties(file: SettingsFile)
    ensures LoadSettings(file).Err? <==> file == ReadFailed
    ensures file == Missing || file == Read(None) ==> LoadSettings(file) == Ok(EmptySettings)
    ensures file.Read? && file.parsed.Some? ==>
      var s := file.parsed.value;
      var r := LoadSettings(file).value;
      && r.(models := s.models) == s
      && (r.models.Some? <==> s.models.Some?)
      && (s.models.Some? ==>
            var m := s.models.value;
            var p := r.models.value.provider;
            && r.models.value.(provider := m.provider) == m
            && (m.provider.Some? ==> p == m.provider)
            && (m.provider.None? ==>
                  && (p == Some("openai") <==> m.openai.Some?)
                  && (p == Some("opencode") <==> m.openai.None? && m.opencode.Some?)
                  && (p == Some("anthropic") <==> m.openai.None? && m.opencode.None? && m.anthropic.Some?)
                  && (p.None? <==> m.openai.None? && m.opencode.None? && m.anthropic.None?)))
  {
  }

  /** Loading what was loaded detects nothing new. */
  lemma WithProviderIdempotent(s: Settings)
    ensures WithProvider(WithProvider(s)) == WithProvider(s)
  {
  }

  // ----- agents and teams -----

  const DefaultProvider := "anthropic"
  const DefaultOpenAiModel := "gpt-5.3-codex"
  const DefaultModel := "sonnet"

  /** A provider section's model, if the section and its model are both set. */
  function SectionModel(section: Option<ProviderModelConfig>): Option<string> {
    if section.Some? then section.value.model else None
  }

  /** `get_workspace_path`: the configured path, else rustyclaw-workspace under the user's home directory. */
  function WorkspacePath(settings: Settings, userHome: string): string {
    if settings.workspace.Some? && settings.workspace.value.path.Some? then settings.workspace.value.path.value
    else JoinPath(userHome, "rustyclaw-workspace")
  }

  /** `get_default_agent_from_models`. */
  function DefaultAgentFromModels(settings: Settings, userHome: string): AgentConfig {
    var m := settings.models;
    var provider := if m.Some? && m.value.provider.Some? then m.value.provider.value else DefaultProvider;
    var model :=
      if provider == "openai" then (if m.Some? then SectionModel(m.value.openai) else None).UnwrapOr(DefaultOpenAiModel)
      else if provider == "opencode" then (if m.Some? then SectionModel(m.value.opencode) else None).UnwrapOr(DefaultModel)
      else (if m.Some? then SectionModel(m.value.anthropic) else None).UnwrapOr(DefaultModel);
    AgentConfig("Default", provider, model, JoinPath(WorkspacePath(settings, userHome), "default"),
                "", None, None, None, None, true, None, 0)
  }

  /** `get_agents`: the configured agents when there are any, else the one default agent. */
  function GetAgents(settings: Settings, userHome: string): Agents {
    if settings.agents.Some? && settings.agents.value != [] then settings.agents.value
    else [("default", DefaultAgentFromModels(settings, userHome))]
  }

  /** `get_teams`: the configured teams, or none. */
  function GetTeams(settings: Settings): Teams {
    settings.teams.UnwrapOr([])
  }

  /**
   * The default agent takes the legacy section's provider, else anthropic; its model is that
   * provider's configured model, else gpt-5.3-codex for openai and sonnet for any other
   * provider; it works in `default` under the workspace and may hand off across teams.
   */
  lemma DefaultAgentProperties(settings: Settings, userHome: string)
    ensures var a := DefaultAgentFromModels(settings, userHome);
      var m := settings.models;
      && a.name == "Default"
      && (m.None? || m.value.provider.None? ==> a.provider == "anthropic")
      && (m.Some? && m.value.provider.Some? ==> a.provider == m.value.provider.value)
      && (a.provider == "openai" ==>
            a.model == (if SectionModel(m.value.openai).Some? then SectionModel(m.value.openai).value else "gpt-5.3-codex"))
      && (a.provider == "opencode" ==>
            a.model == (if SectionModel(m.value.opencode).Some? then SectionModel(m.value.opencode).value else "sonnet"))
      && (a.provider != "openai" && a.provider != "opencode" ==>
            a.model == (if m.Some? && SectionModel(m.value.anthropic).Some? then SectionModel(m.value.anthropic).value else "sonnet"))
      && a.workingDirectory == JoinPath(WorkspacePath(settings, userHome), "default")
      && EndsWith(a.workingDirectory, "default")
      && a.crossTeamHandoffs && a.resetPolicy == "" && a.routePatterns.None? && a.fallbacks.None?
  {
  }

  /** Empty settings give one agent, `default`, on anthropic's sonnet. */
  lemma EmptySettingsAgent(userHome: string)
    ensures var agents := GetAgents(EmptySettings, userHome);
      && |agents| == 1 && agents[0].0 == "default"
      && agents[0].1.provider == "anthropic" && agents[0].1.model == "sonnet"
    ensures GetTeams(EmptySettings) == []
  {
  }

  /**
   * There is always an agent. Configured agents are returned as they are; with none
   * configured the only agent is `default`, built from the legacy section.
   */
  lemma GetAgentsProperties(settings: Settings, userHome: string)
    ensures var r := GetAgents(settings, userHome);
      && r != []
      && (settings.agents.Some? && settings.agents.value != [] ==> r == settings.agents.value)
      && (settings.agents.None? || settings.agents.value == [] ==>
            && |r| == 1 && HasAgent(r, "default")
            && GetAgent(r, "default") == Some(DefaultAgentFromModels(settings, userHome)))
  {
    var r := GetAgents(settings, userHome);
    if settings.agents.None? || settings.agents.value == [] {
      assert r[0].0 == "default";
    }
  }

  // ----- the data directory -----

  /** `Paths`: the data directory and everything laid out under it. */
  datatype Paths = Paths(
    scriptDir: string,
    home: string,
    queueIncoming: string,
    queueOutgoing: string,
    queueProcessing: string,
    logFile: string,
    settingsFile: string,
    eventsDir: string,
    chatsDir: string,
    filesDir: string,
    pairingFile: string)

  /** The data directory: RUSTYCLAW_HOME when set, else .rustyclaw beside the install when it holds settings.json, else ~/.rustyclaw. */
  function DataHome(scriptDir: string, envHome: Option<string>, localSettingsExists: bool, userHome: string): string {
    if envHome.Some? then envHome.value
    else if localSettingsExists then JoinPath(scriptDir, ".rustyclaw")
    else JoinPath(userHome, ".rustyclaw")
  }

  /** The path `queue/<leaf>` under the data directory. */
  function QueuePath(home: string, leaf: string): string {
    JoinPath(home, "queue/" + leaf)
  }

  /** `Paths::resolve`. */
  function ResolvePaths(scriptDir: string, envHome: Option<string>, localSettingsExists: bool, userHome: string): Paths {
    var home := DataHome(scriptDir, envHome, localSettingsExists, userHome);
    Paths(scriptDir, home,
          QueuePath(home, "incoming"),
          QueuePath(home, "outgoing"),
          QueuePath(home, "processing"),
          JoinPath(home, "logs/queue.log"),
          JoinPath(home, "settings.json"),
          JoinPath(home, "events"),
          JoinPath(home, "chats"),
          JoinPath(home, "files"),
          JoinPath(home, "pairing.json"))
  }

  /** Joining `dir/leaf` is joining `dir`, then `leaf`, when neither is absolute and `dir` does not end in a separator. */
  lemma JoinTwice(base: string, dir: string, leaf: string)
    requires |dir| > 0 && dir[|dir| - 1] != '/' && !IsAbsolute(dir) && !IsAbsolute(leaf)
    ensures JoinPath(base, dir + "/" + leaf) == JoinPath(JoinPath(base, dir), leaf)
  {
    var path := dir + "/" + leaf;
    assert path[0] == dir[0];
    Reassociate(dir, "/", leaf);
    var j := JoinPath(base, dir);
    if |base| > 0 && base[|base| - 1] != '/' {
      assert j == base + "/" + dir;
      assert JoinPath(base, path) == base + "/" + path;
      assert j[|j| - 1] == dir[|dir| - 1];
      assert JoinPath(j, leaf) == j + "/" + leaf;
      Reassociate(base + "/", dir, "/" + leaf);
      Reassociate(base + "/" + dir, "/", leaf);
    } else if |base| > 0 {
      assert j == base + dir;
      assert JoinPath(base, path) == base + path;
      assert j[|j| - 1] == dir[|dir| - 1];
      assert JoinPath(j, leaf) == j + "/" + leaf;
      Reassociate(base, dir, "/" + leaf);
      Reassociate(base + dir, "/", leaf);
    } else {
      assert j == dir;
      assert JoinPath(j, leaf) == dir + "/" + leaf;
    }
  }

  /** A queue directory is the entry `leaf` of the data directory's `queue` directory. */
  lemma QueueDirUnderQueue(home: string, leaf: string)
    requires !IsAbsolute(leaf)
    ensures QueuePath(home, leaf) == JoinPath(JoinPath(home, "queue"), leaf)
  {
    assert "queue/" + leaf == "queue" + "/" + leaf;
    JoinTwice(home, "queue", leaf);
  }

  /**
   * The data directory follows the precedence environment, local, home; the three queue
   * directories are the incoming, outgoing and processing entries of its `queue`
   * directory, and the settings file is its settings.json.
   */
  lemma PathsLayout(scriptDir: string, envHome: Option<string>, localSettingsExists: bool, userHome: string)
    ensures var p := ResolvePaths(scriptDir, envHome, localSettingsExists, userHome);
      var queue := JoinPath(p.home, "queue");
      && (envHome.Some? ==> p.home == envHome.value)
      && (envHome.None? && localSettingsExists ==> p.home == JoinPath(scriptDir, ".rustyclaw"))
      && (envHome.None? && !localSettingsExists ==> p.home == JoinPath(userHome, ".rustyclaw"))
      && p.queueIncoming == JoinPath(queue, "incoming")
      && p.queueOutgoing == JoinPath(queue, "outgoing")
      && p.queueProcessing == JoinPath(queue, "processing")
      && p.settingsFile == JoinPath(p.home, "settings.json")
  {
    var home := DataHome(scriptDir, envHome, localSettingsExists, userHome);
    QueueDirUnderQueue(home, "incoming");
    QueueDirUnderQueue(home, "outgoing");
    QueueDirUnderQueue(home, "processing");
  }
}
