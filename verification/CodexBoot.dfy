/** Codex bootstrap across boots (`src/backend.rs`, `src/model_state.rs`): what one boot does to
    the persisted `ModelState` on the host and to `~/.codex` in the guest, with a failure possible
    at every external step, and what holds over any number of boots. */
module CodexBoot {
  import opened Wrappers
  import opened TomlValue
  import RepoSlug

  // ---------------------------------------------------------------- persisted state

  datatype AuthMode = ApiKey | ChatGpt

  datatype ModelMode = Remote | Local

  datatype Endpoint = Endpoint(hostUrl: string, model: string)

  datatype ModelState = ModelState(
    mode: ModelMode,
    claudeEndpoint: Option<Endpoint>,
    codexEndpoint: Option<Endpoint>,
    codexMaterialized: bool,
    keyringMaterialized: bool)
  {
    predicate IsDefault() {
      && mode == Remote && claudeEndpoint == None && codexEndpoint == None
      && !codexMaterialized && !keyringMaterialized
    }
  }

  const DEFAULT_STATE := ModelState(Remote, None, None, false, false)

  /** `model.json`; a missing file means the default. */
  type Disk = Option<ModelState>

  function LoadOrDefault(disk: Disk): ModelState {
    if disk.Some? then disk.value else DEFAULT_STATE
  }

  /** `ModelState::save`. A failure to write is an error; a failure to remove the file of a state
      that became the default is not. */
  function Save(disk: Disk, state: ModelState, writes: bool, removes: bool): Option<Disk> {
    if state.IsDefault() then Some(if removes then None else disk)
    else if writes then Some(Some(state))
    else None
  }

  /** A file in the guest. A copy that broke off leaves a torn version of what was copied. */
  datatype GuestFile = Missing | Torn(of: Doc) | Config(doc: Doc)

  datatype Guest = Guest(config: GuestFile, authJson: bool)

  datatype World = World(disk: Disk, guest: Guest)

  // ---------------------------------------------------------------- one boot's inputs

  datatype SourceConfig = NoConfig | BadConfig | HostConfig(doc: Doc)

  /** The host's Codex configuration directory. */
  datatype Source = Source(config: SourceConfig, authJson: bool, agentsFile: bool, promptsDir: bool)

  datatype CopyOutcome =
    | Copied
    | Broken(configProgress: Progress, authCopied: bool)

  datatype Progress = Untouched | Half | Full

  /** Configuration and environment of one boot, and the outcome of every external step. */
  datatype Inputs = Inputs(
    auth: AuthMode,
    source: Option<Source>,
    mcpServers: Option<Toml>,          // `None` when none are configured
    hasPlugins: bool,
    configuredEndpoint: Option<Endpoint>,
    hasUpstream: bool,                 // an OpenAI proxy upstream is in effect for this VM
    firstBoot: bool,
    // external steps
    stateReadable: bool,
    upstreamReadable: bool,
    proxyUrl: Option<string>,          // `None`: the proxy does not start
    guestUrl: Option<string>,          // the endpoint's URL as the guest sees it
    materializedSaved: bool,
    accountSupported: bool,
    cliInstalled: bool,
    proxyAuthRemoved: bool,
    guestReadable: bool,
    secretsResolved: bool,
    stagingWorks: bool,
    copy: CopyOutcome,
    keyringSaved: bool,
    stateFileRemoved: bool,
    accountAuthRemoved: bool,
    installedTables: Doc,              // what the plugin install leaves in the guest-owned tables
    installWorks: bool)

  // ---------------------------------------------------------------- what the file should hold

  const CREDENTIALS_STORE := "cli_auth_credentials_store"
  const COOP_LOCAL := "coop_local"

  predicate IsGuestOwned(key: string) {
    key == "marketplaces" || key == "plugins" || key == "projects"
  }

  function Provider(name: string, baseUrl: string): Toml {
    Table(map["name" := Text(name), "base_url" := Text(baseUrl),
              "wire_api" := Text("responses"), "env_key" := Text("COOP_LOCAL_API_KEY")])
  }

  function CodexLocalConfig(baseUrl: string, model: string): Doc {
    map["model" := Text(model),
        "model_provider" := Text(COOP_LOCAL),
        "model_providers" := Table(map[COOP_LOCAL := Provider("coop local model", baseUrl)])]
  }

  /** The proxy pins no model; its URL gets the path that the provider's own has. */
  function CodexProxyConfig(baseUrl: string): Doc {
    map["model_provider" := Text(COOP_LOCAL),
        "model_providers" := Table(map[COOP_LOCAL := Provider("coop credential proxy", RepoSlug.TrimSlashes(baseUrl) + "/v1")])]
  }

  /** Some part of the provider block is there. */
  predicate HasTrace(doc: Doc) {
    || ("model_provider" in doc && doc["model_provider"] == Text(COOP_LOCAL))
    || ("model_providers" in doc && doc["model_providers"].Table? && COOP_LOCAL in doc["model_providers"].table)
  }

  /** The provider block is there, and selected. */
  predicate HasBlock(doc: Doc) {
    && "model_provider" in doc && doc["model_provider"] == Text(COOP_LOCAL)
    && "model_providers" in doc && doc["model_providers"].Table? && COOP_LOCAL in doc["model_providers"].table
  }

  predicate HasKeyringKey(doc: Doc) {
    CREDENTIALS_STORE in doc
  }

  function ResolvedEndpoint(state: ModelState, i: Inputs): Option<Endpoint> {
    if i.configuredEndpoint.Some? then i.configuredEndpoint else state.codexEndpoint
  }

  /** `local_endpoint` */
  function LocalEndpoint(state: ModelState, i: Inputs): Option<Endpoint> {
    if state.mode.Local? then ResolvedEndpoint(state, i) else None
  }

  predicate ProxyActive(state: ModelState, i: Inputs) {
    state.mode.Remote? && i.hasUpstream
  }

  /** A local endpoint or the proxy is in effect. */
  predicate RoutesThroughCoop(state: ModelState, i: Inputs) {
    LocalEndpoint(state, i).Some? || ProxyActive(state, i)
  }

  /** `codex_provider_table`, once the URLs are known. */
  function ProviderTable(state: ModelState, i: Inputs): Option<Doc> {
    if LocalEndpoint(state, i).Some? then
      if i.guestUrl.Some? then Some(CodexLocalConfig(i.guestUrl.value, LocalEndpoint(state, i).value.model)) else None
    else if ProxyActive(state, i) then
      if i.proxyUrl.Some? then Some(CodexProxyConfig(i.proxyUrl.value)) else None
    else None
  }

  predicate ManagesLocal(state: ModelState, i: Inputs, provider: Option<Doc>) {
    provider.Some? || ResolvedEndpoint(state, i).Some? || state.codexMaterialized
  }

  predicate SourceHasContent(source: Option<Source>) {
    source.Some? && (source.value.agentsFile || source.value.authJson || !source.value.config.NoConfig? || source.value.promptsDir)
  }

  /** `codex_bootstrap_needed`, and the conditions `bootstrap_codex` adds to it. */
  predicate BootstrapNeeded(state: ModelState, i: Inputs, provider: Option<Doc>) {
    || SourceHasContent(i.source) || i.mcpServers.Some? || i.hasPlugins || i.auth.ChatGpt?
    || ManagesLocal(state, i, provider)
    || state.keyringMaterialized
  }

  /** `codex_config_needs_rewrite` */
  predicate NeedsRewrite(state: ModelState, i: Inputs, provider: Option<Doc>) {
    || (i.source.Some? && !i.source.value.config.NoConfig?)
    || i.mcpServers.Some?
    || provider.Some?
    || ManagesLocal(state, i, provider)
    || i.auth.ChatGpt?
    || state.keyringMaterialized
  }

  function BaseDoc(source: Option<Source>): Doc {
    if source.Some? && source.value.config.HostConfig? then source.value.config.doc else map[]
  }

  /** Which writer decides a key of the staged file: the guest for its own tables, the
      authentication mode for the credential store, then the provider block, the managed servers
      and the host's file. */
  function StagedValue(i: Inputs, provider: Option<Doc>, preserved: Doc, key: string): Option<Toml> {
    if IsGuestOwned(key) then Lookup(preserved, key)
    else if key == CREDENTIALS_STORE then (if i.auth.ChatGpt? then Some(Text("keyring")) else None)
    else if provider.Some? && key in provider.value then Some(provider.value[key])
    else if key == "mcp_servers" && i.mcpServers.Some? then i.mcpServers
    else Lookup(BaseDoc(i.source), key)
  }

  function StagedKeys(i: Inputs, provider: Option<Doc>, preserved: Doc): set<string> {
    preserved.Keys + BaseDoc(i.source).Keys + (if provider.Some? then provider.value.Keys else {})
      + {CREDENTIALS_STORE, "mcp_servers"}
  }

  function StagedDoc(i: Inputs, provider: Option<Doc>, preserved: Doc): Doc {
    map key | key in StagedKeys(i, provider, preserved) && StagedValue(i, provider, preserved, key).Some?
      :: StagedValue(i, provider, preserved, key).value
  }

  /** `extract_codex_plugin_state`, with nothing for a file that cannot be parsed. */
  function GuestOwnedTables(file: GuestFile): Doc {
    match file
    case Config(doc) => map key | key in doc && IsGuestOwned(key) :: doc[key]
    case _ => map[]
  }

  /** What staging yields: the rewritten file if there is to be one, and whether `auth.json` goes
      with it. */
  datatype Staged = Staged(config: Option<Doc>, authJson: bool)

  function Stage(state: ModelState, i: Inputs, provider: Option<Doc>, preserved: Doc, proxyActive: bool): Option<Staged> {
    if (i.source.Some? && i.source.value.config.BadConfig?) || (i.mcpServers.Some? && !i.secretsResolved) || !i.stagingWorks
    then None
    else Some(Staged(
      if NeedsRewrite(state, i, provider) then Some(StagedDoc(i, provider, preserved)) else None,
      i.source.Some? && i.source.value.authJson && !proxyActive && !i.auth.ChatGpt?))
  }

  function CopiedFile(before: GuestFile, staged: Option<Doc>, progress: Progress): GuestFile {
    if staged.None? then before
    else
      match progress
      case Untouched => before
      case Half => Torn(staged.value)
      case Full => Config(staged.value)
  }

  /** `copy_staged_to_guest`, which adds files and removes none. */
  function CopyStaged(guest: Guest, staged: Staged, copy: CopyOutcome): Guest {
    match copy
    case Copied => Guest(CopiedFile(guest.config, staged.config, Full), guest.authJson || staged.authJson)
    case Broken(progress, authCopied) =>
      Guest(CopiedFile(guest.config, staged.config, progress), guest.authJson || (staged.authJson && authCopied))
  }

  /** `copy_codex_config` */
  function CopyConfig(guest: Guest, state: ModelState, i: Inputs, provider: Option<Doc>): (Guest, bool) {
    var proxyActive := ProxyActive(state, i);
    if proxyActive && !i.proxyAuthRemoved then (guest, false)
    else
      var cleared := if proxyActive then guest.(authJson := false) else guest;
      var preserved := if NeedsRewrite(state, i, provider) && i.guestReadable then GuestOwnedTables(guest.config) else map[];
      match Stage(state, i, provider, preserved, proxyActive)
      case None => (cleared, false)
      case Some(staged) => (CopyStaged(cleared, staged, i.copy), i.copy.Copied?)
  }

  /** Plugin installation writes guest-owned tables only. */
  function Installed(file: GuestFile, tables: Doc): GuestFile {
    match file
    case Missing => if tables == map[] then Missing else Config(map key | key in tables && IsGuestOwned(key) :: tables[key])
    case Torn(_) => file
    case Config(doc) => Config(doc + map key | key in tables && IsGuestOwned(key) :: tables[key])
  }

  // ---------------------------------------------------------------- one boot

  /** Everything up to the point where the guest's files are touched. */
  datatype Preparation = Abort(disk: Disk) | Done | Proceed(disk: Disk, state: ModelState, provider: Option<Doc>)

  function Prepare(disk: Disk, i: Inputs): Preparation {
    var state := LoadOrDefault(disk);
    if !i.stateReadable then Abort(disk)
    else if state.mode.Remote? && !i.upstreamReadable then Abort(disk)
    else if i.auth.ChatGpt? && ProxyActive(state, i) then Abort(disk)
    else if ProxyActive(state, i) && i.proxyUrl.None? then Abort(disk)
    else if LocalEndpoint(state, i).Some? && i.guestUrl.None? then Abort(disk)
    else
      var provider := ProviderTable(state, i);
      var next := if provider.Some? then state.(codexMaterialized := true) else state;
      var saved := if next == state then Some(disk) else Save(disk, next, i.materializedSaved, i.stateFileRemoved);
      if saved.None? then Abort(disk)
      else if !BootstrapNeeded(next, i, provider) then Done
      else if i.auth.ChatGpt? && !i.accountSupported then Abort(saved.value)
      else if !i.cliInstalled then Abort(saved.value)
      else Proceed(saved.value, next, provider)
  }

  /** What `bootstrap_codex` does to the world, and whether it succeeds. */
  function Boot(w: World, i: Inputs): (World, bool) {
    match Prepare(w.disk, i)
    case Abort(disk) => (World(disk, w.guest), false)
    case Done => (w, true)
    case Proceed(disk, state, provider) =>
      var (guest, copied) := CopyConfig(w.guest, state, i, provider);
      if !copied then (World(disk, guest), false)
      else
        var wants := i.auth.ChatGpt?;
        var saved :=
          if wants == state.keyringMaterialized then Some(disk)
          else Save(disk, state.(keyringMaterialized := wants), i.keyringSaved, i.stateFileRemoved);
        if saved.None? then (World(disk, guest), false)
        else
          var kept := if wants && i.accountAuthRemoved then guest.(authJson := false) else guest;
          var end := if i.firstBoot then kept.(config := Installed(kept.config, i.installedTables)) else kept;
          (World(saved.value, end), !i.firstBoot || i.installWorks)
  }

  /** The host and guest of one instance, changed in place by a boot. */
  class Instance {
    var disk: Disk
    var guest: Guest

    constructor (disk: Disk, guest: Guest)
      ensures this.disk == disk && this.guest == guest
    {
      this.disk, this.guest := disk, guest;
    }

    /** `bootstrap_codex`, up to the point where the guest's files are touched. */
    method PrepareBoot(i: Inputs) returns (r: Preparation)
      modifies this`disk
      ensures r == Prepare(old(disk), i)
      ensures disk == if r.Done? then old(disk) else r.disk
    {
      hide BootstrapNeeded, ProviderTable;
      if !i.stateReadable {
        return Abort(disk);
      }
      var state := LoadOrDefault(disk);
      if state.mode.Remote? && !i.upstreamReadable {
        return Abort(disk);
      }
      if i.auth.ChatGpt? && ProxyActive(state, i) {
        return Abort(disk);
      }
      if ProxyActive(state, i) && i.proxyUrl.None? {
        return Abort(disk);
      }
      if LocalEndpoint(state, i).Some? && i.guestUrl.None? {
        return Abort(disk);
      }
      var provider := ProviderTable(state, i);
      if provider.Some? && !state.codexMaterialized {
        state := state.(codexMaterialized := true);
        var saved := Save(disk, state, i.materializedSaved, i.stateFileRemoved);
        if saved.None? {
          return Abort(disk);
        }
        disk := saved.value;
      }
      if !BootstrapNeeded(state, i, provider) {
        NotNeeded(state, i, provider);
        return Done;
      }
      if i.auth.ChatGpt? && !i.accountSupported {
        return Abort(disk);
      }
      if !i.cliInstalled {
        return Abort(disk);
      }
      return Proceed(disk, state, provider);
    }

    /** `bootstrap_codex` */
    method BootstrapCodex(i: Inputs) returns (ok: bool)
      modifies this
      ensures (World(disk, guest), ok) == Boot(World(old(disk), old(guest)), i)
    {
      hide Prepare, CopyConfig, Installed;
      var prepared := PrepareBoot(i);
      if prepared.Abort? {
        return false;
      }
      if prepared.Done? {
        return true;
      }
      var Proceed(_, state, provider) := prepared;
      ok := CopyCodexConfig(state, i, provider);
      if !ok {
        return;
      }
      var wantsKeyring := i.auth.ChatGpt?;
      if wantsKeyring != state.keyringMaterialized {
        state := state.(keyringMaterialized := wantsKeyring);
        var saved := Save(disk, state, i.keyringSaved, i.stateFileRemoved);
        if saved.None? {
          return false;
        }
        disk := saved.value;
      }
      if wantsKeyring && i.accountAuthRemoved {
        guest := guest.(authJson := false);
      }
      if i.firstBoot {
        guest := guest.(config := Installed(guest.config, i.installedTables));
        return i.installWorks;
      }
      return true;
    }

    /** `copy_codex_config` */
    method CopyCodexConfig(state: ModelState, i: Inputs, provider: Option<Doc>) returns (ok: bool)
      modifies this`guest
      ensures (guest, ok) == CopyConfig(old(guest), state, i, provider)
    {
      hide StagedDoc, NeedsRewrite;
      var proxyActive := ProxyActive(state, i);
      if proxyActive {
        if !i.proxyAuthRemoved {
          return false;
        }
        guest := guest.(authJson := false);
      }
      var preserved := if NeedsRewrite(state, i, provider) && i.guestReadable then GuestOwnedTables(guest.config) else map[];
      var staged := StageCodexFiles(state, i, provider, preserved, proxyActive);
      if staged.None? {
        return false;
      }
      guest := CopyStaged(guest, staged.value, i.copy);
      return i.copy.Copied?;
    }
  }

  lemma NotNeeded(state: ModelState, i: Inputs, provider: Option<Doc>)
    requires !BootstrapNeeded(state, i, provider)
    ensures provider.None? && !state.codexMaterialized && !state.keyringMaterialized && i.auth.ApiKey?
    ensures !NeedsRewrite(state, i, provider)
  {
  }

  lemma MapByLookup(root: Doc, i: Inputs, provider: Option<Doc>, preserved: Doc)
    requires forall key :: Lookup(root, key) == StagedValue(i, provider, preserved, key)
    ensures root == StagedDoc(i, provider, preserved)
  {
    var staged := StagedDoc(i, provider, preserved);
    forall key ensures key in root <==> key in staged {
      assert Lookup(root, key) == StagedValue(i, provider, preserved, key);
    }
    forall key | key in root ensures root[key] == staged[key] {
      assert Lookup(root, key) == StagedValue(i, provider, preserved, key);
    }
  }

  /** `stage_codex_files`: the writers of the file, one after the other, each overwriting what the
      earlier ones left. */
  method StageCodexFiles(state: ModelState, i: Inputs, provider: Option<Doc>, preserved: Doc, proxyActive: bool)
    returns (r: Option<Staged>)
    requires forall key | key in preserved :: IsGuestOwned(key)
    ensures r == Stage(state, i, provider, preserved, proxyActive)
  {
    hide StagedDoc, NeedsRewrite;
    if i.source.Some? && i.source.value.config.BadConfig? {
      return None;
    }
    if i.mcpServers.Some? && !i.secretsResolved {
      return None;
    }
    if !i.stagingWorks {
      return None;
    }
    var root := BaseDoc(i.source);
    if i.mcpServers.Some? {
      root := root["mcp_servers" := i.mcpServers.value];
    }
    if provider.Some? {
      root := root + provider.value;
    }
    if i.auth.ChatGpt? {
      root := root[CREDENTIALS_STORE := Text("keyring")];
    } else {
      root := root - {CREDENTIALS_STORE};
    }
    root := root - {"marketplaces"};
    root := root - {"plugins"};
    root := root - {"projects"};
    root := root + preserved;
    forall key ensures Lookup(root, key) == StagedValue(i, provider, preserved, key) { }
    MapByLookup(root, i, provider, preserved);
    var allowed := !proxyActive && !i.auth.ChatGpt?;
    return Some(Staged(
      if NeedsRewrite(state, i, provider) then Some(root) else None,
      i.source.Some? && i.source.value.authJson && allowed));
  }
}
