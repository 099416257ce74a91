/** What a successful Codex boot leaves in the guest, key by key and in the values the host gave,
    and exactly when a boot succeeds. */
module CodexContents {
  import opened Wrappers
  import opened TomlValue
  import opened CodexBoot
  import opened CodexRuns
  import RepoSlug

  /** The endpoint Codex would use: the configured one, else the one stored for the instance. */
  function ChosenEndpoint(w: World, i: Inputs): Option<Endpoint> {
    if i.configuredEndpoint.Some? then i.configuredEndpoint else LoadOrDefault(w.disk).codexEndpoint
  }

  predicate InLocalMode(w: World) {
    LoadOrDefault(w.disk).mode.Local?
  }

  predicate UsesProxy(w: World, i: Inputs) {
    !InLocalMode(w) && i.hasUpstream
  }

  predicate UsesLocalModel(w: World, i: Inputs) {
    InLocalMode(w) && ChosenEndpoint(w, i).Some?
  }

  /** The host's own `config.toml`, if there is one. */
  function HostDoc(i: Inputs): Doc {
    match i.source
    case Some(Source(HostConfig(doc), _, _, _)) => doc
    case _ => map[]
  }

  predicate HasHostConfig(i: Inputs) {
    i.source.Some? && !i.source.value.config.NoConfig?
  }

  /** A provider block that names one provider only. */
  ghost predicate RoutesTo(doc: Doc, name: string, url: string) {
    && Lookup(doc, "model_provider") == Some(Text("coop_local"))
    && Lookup(doc, "model_providers") == Some(Table(map["coop_local" := Table(map[
         "name" := Text(name), "base_url" := Text(url),
         "wire_api" := Text("responses"), "env_key" := Text("COOP_LOCAL_API_KEY")])]))
  }

  /** Something gives the boot a reason to write the guest's `config.toml`. */
  predicate WritesConfig(w: World, i: Inputs) {
    var state := LoadOrDefault(w.disk);
    || HasHostConfig(i) || i.mcpServers.Some? || i.auth.ChatGpt?
    || UsesProxy(w, i) || ChosenEndpoint(w, i).Some?
    || state.codexMaterialized || state.keyringMaterialized
  }

  // ---------------------------------------------------------------- where the staged file comes from

  lemma PreparedProvider(w: World, i: Inputs)
    ensures
      var p := Prepare(w.disk, i);
      && (p.Done? ==> !WritesConfig(w, i))
      && (p.Proceed? ==>
            && (NeedsRewrite(p.state, i, p.provider) <==> WritesConfig(w, i))
            && (UsesLocalModel(w, i) ==>
                  && i.guestUrl.Some?
                  && p.provider == Some(CodexLocalConfig(i.guestUrl.value, ChosenEndpoint(w, i).value.model)))
            && (UsesProxy(w, i) ==>
                  && i.proxyUrl.Some?
                  && p.provider == Some(CodexProxyConfig(i.proxyUrl.value)))
            && (!UsesLocalModel(w, i) && !UsesProxy(w, i) ==> p.provider == None)
            && ProxyActive(p.state, i) == UsesProxy(w, i))
  {
    hide CodexLocalConfig, CodexProxyConfig;
  }

  lemma FileAfterSuccess(w: World, i: Inputs, key: string)
    requires Boot(w, i).1 && !IsGuestOwned(key)
    ensures
      var p, after := Prepare(w.disk, i), Boot(w, i).0.guest.config;
      if WritesConfig(w, i)
      then p.Proceed? && after.Config? && Lookup(after.doc, key) == StagedValue(i, p.provider, map[], key)
      else Lookup(Written(after), key) == Lookup(Written(w.guest.config), key)
  {
    hide Prepare, CopyConfig, Installed, StagedDoc, StagedValue, NeedsRewrite, WritesConfig;
    PreparedProvider(w, i);
    var p := Prepare(w.disk, i);
    if p.Proceed? {
      var preserved := if i.guestReadable then GuestOwnedTables(w.guest.config) else map[];
      CopyFacts(w.guest, p.state, i, p.provider);
      StagedLookup(i, p.provider, preserved, key);
      SameStagedValue(i, p.provider, preserved, key);
      InstalledElsewhere(CopyConfig(w.guest, p.state, i, p.provider).0.config, i.installedTables, key);
    }
  }

  lemma SameStagedValue(i: Inputs, provider: Option<Doc>, preserved: Doc, key: string)
    requires !IsGuestOwned(key)
    ensures StagedValue(i, provider, preserved, key) == StagedValue(i, provider, map[], key)
  {
  }

  lemma InstalledElsewhere(file: GuestFile, tables: Doc, key: string)
    requires !IsGuestOwned(key)
    ensures Lookup(Written(Installed(file, tables)), key) == Lookup(Written(file), key)
    ensures file.Config? ==> Installed(file, tables).Config?
  {
  }

  // ---------------------------------------------------------------- the contents

  /** In local mode the guest's file routes Codex to the endpoint: its model, and its URL as the
      guest sees it. */
  lemma LocalModelAfterBoot(w: World, i: Inputs)
    requires Boot(w, i).1 && UsesLocalModel(w, i)
    ensures
      var after := Boot(w, i).0.guest.config;
      && after.Config? && i.guestUrl.Some?
      && RoutesTo(after.doc, "coop local model", i.guestUrl.value)
      && Lookup(after.doc, "model") == Some(Text(ChosenEndpoint(w, i).value.model))
  {
    hide Boot, Prepare;
    PreparedProvider(w, i);
    assert !IsGuestOwned("model") && !IsGuestOwned("model_provider") && !IsGuestOwned("model_providers");
    FileAfterSuccess(w, i, "model");
    FileAfterSuccess(w, i, "model_provider");
    FileAfterSuccess(w, i, "model_providers");
  }

  /** In proxy mode it routes Codex to the proxy, and the model stays what the host's file says. */
  lemma ProxyAfterBoot(w: World, i: Inputs)
    requires Boot(w, i).1 && UsesProxy(w, i)
    ensures
      var after := Boot(w, i).0.guest.config;
      && after.Config? && i.proxyUrl.Some?
      && RoutesTo(after.doc, "coop credential proxy", RepoSlug.TrimSlashes(i.proxyUrl.value) + "/v1")
      && Lookup(after.doc, "model") == Lookup(HostDoc(i), "model")
  {
    hide Boot, Prepare;
    PreparedProvider(w, i);
    assert !IsGuestOwned("model") && !IsGuestOwned("model_provider") && !IsGuestOwned("model_providers");
    FileAfterSuccess(w, i, "model");
    FileAfterSuccess(w, i, "model_provider");
    FileAfterSuccess(w, i, "model_providers");
  }

  /** Every other key of a file that is written comes from the managed servers, the authentication
      mode, or the host's file; without a reason to write, none changes. */
  lemma OtherKeysAfterBoot(w: World, i: Inputs, key: string)
    requires Boot(w, i).1
    requires key != "marketplaces" && key != "plugins" && key != "projects"
    requires UsesLocalModel(w, i) ==> key != "model" && key != "model_provider" && key != "model_providers"
    requires UsesProxy(w, i) ==> key != "model_provider" && key != "model_providers"
    ensures
      var after := Boot(w, i).0.guest.config;
      if !WritesConfig(w, i) then Lookup(Written(after), key) == Lookup(Written(w.guest.config), key)
      else
        && after.Config?
        && Lookup(after.doc, key) ==
             if key == "cli_auth_credentials_store" then (if i.auth.ChatGpt? then Some(Text("keyring")) else None)
             else if key == "mcp_servers" && i.mcpServers.Some? then i.mcpServers
             else Lookup(HostDoc(i), key)
  {
    hide Boot, Prepare;
    PreparedProvider(w, i);
    FileAfterSuccess(w, i, key);
  }

  /** The tables that belong to the guest survive every later boot that succeeds and could read them,
      and the host's file has no say in them. */
  lemma OwnTablesAfterBoot(w: World, i: Inputs, key: string)
    requires Boot(w, i).1 && !i.firstBoot && key in ["marketplaces", "plugins", "projects"]
    requires WritesConfig(w, i) ==> i.guestReadable
    requires w.guest.config.Config?
    ensures
      var after := Boot(w, i).0.guest.config;
      after.Config? && Lookup(after.doc, key) == Lookup(w.guest.config.doc, key)
  {
    assert IsGuestOwned(key);
    hide Prepare, CopyConfig, Installed, StagedDoc, StagedValue, NeedsRewrite, WritesConfig;
    PreparedProvider(w, i);
    var p := Prepare(w.disk, i);
    if p.Proceed? {
      var preserved := if i.guestReadable then GuestOwnedTables(w.guest.config) else map[];
      CopyFacts(w.guest, p.state, i, p.provider);
      StagedLookup(i, p.provider, preserved, key);
      OwnTableStaged(i, p.provider, preserved, key);
    }
  }

  lemma OwnTableStaged(i: Inputs, provider: Option<Doc>, preserved: Doc, key: string)
    requires IsGuestOwned(key)
    ensures StagedValue(i, provider, preserved, key) == Lookup(preserved, key)
  {
  }

  /** The host's `auth.json` reaches the guest with an API key and no proxy only. */
  lemma AuthFileAfterBoot(w: World, i: Inputs)
    requires Boot(w, i).1
    ensures Boot(w, i).0.guest.authJson ==
      if UsesProxy(w, i) then false
      else if i.auth.ChatGpt? then w.guest.authJson && !i.accountAuthRemoved
      else w.guest.authJson || (i.source.Some? && i.source.value.authJson)
  {
    hide NeedsRewrite, StagedDoc, GuestOwnedTables, Installed, ProviderTable, Prepare;
    PreparedProvider(w, i);
    WhatPrepareSkips(w, i);
  }

  predicate HasHostFiles(i: Inputs) {
    i.source.Some? &&
    (i.source.value.agentsFile || i.source.value.authJson || i.source.value.promptsDir || !i.source.value.config.NoConfig?)
  }

  /** The boot has anything to do in the guest. */
  predicate HasWork(w: World, i: Inputs) {
    WritesConfig(w, i) || HasHostFiles(i) || i.hasPlugins
  }

  lemma WhatPrepareSkips(w: World, i: Inputs)
    ensures
      var p := Prepare(w.disk, i);
      && (p.Done? ==> !HasWork(w, i) && i.auth.ApiKey?)
      && (p.Proceed? ==> (UsesProxy(w, i) ==> i.auth.ApiKey?))
  {
    hide CodexLocalConfig, CodexProxyConfig;
  }

  // ---------------------------------------------------------------- when a boot succeeds

  /** Everything before the guest's files are touched works. */
  predicate CanPrepare(w: World, i: Inputs) {
    var state := LoadOrDefault(w.disk);
    && i.stateReadable
    && (state.mode.Remote? ==> i.upstreamReadable)
    && (UsesProxy(w, i) ==> i.auth.ApiKey? && i.proxyUrl.Some?)
    && (UsesLocalModel(w, i) ==> i.guestUrl.Some?)
    && ((UsesProxy(w, i) || UsesLocalModel(w, i)) && !state.codexMaterialized ==> i.materializedSaved)
    && (HasWork(w, i) ==> i.cliInstalled && (i.auth.ChatGpt? ==> i.accountSupported))
  }

  /** The copy into the guest works. */
  predicate CanCopy(w: World, i: Inputs) {
    && (UsesProxy(w, i) ==> i.proxyAuthRemoved)
    && (i.source.Some? ==> !i.source.value.config.BadConfig?)
    && (i.mcpServers.Some? ==> i.secretsResolved)
    && i.stagingWorks && i.copy.Copied?
  }

  /** The keyring flag is right already, or can be saved. A state in which nothing is left to say
      needs no write. */
  predicate CanFinish(w: World, i: Inputs) {
    var state := LoadOrDefault(w.disk);
    var routed := UsesProxy(w, i) || UsesLocalModel(w, i);
    var nothingLeft :=
      && i.auth.ApiKey? && state.mode.Remote? && state.claudeEndpoint.None? && state.codexEndpoint.None?
      && !state.codexMaterialized && !routed;
    && (i.auth.ChatGpt? == state.keyringMaterialized || i.keyringSaved || nothingLeft)
    && (i.firstBoot ==> i.installWorks)
  }

  lemma PreparesExactly(w: World, i: Inputs)
    ensures
      var p := Prepare(w.disk, i);
      && (CanPrepare(w, i) <==> !p.Abort?)
      && (p.Proceed? ==> HasWork(w, i)) && (p.Done? ==> !HasWork(w, i))
      && (p.Proceed? ==>
            && ProxyActive(p.state, i) == UsesProxy(w, i)
            && p.state == LoadOrDefault(w.disk).(codexMaterialized :=
                 LoadOrDefault(w.disk).codexMaterialized || UsesProxy(w, i) || UsesLocalModel(w, i)))
  {
    hide CodexLocalConfig, CodexProxyConfig;
  }

  /** A boot succeeds if and only if every step it needs works, and nothing it does not need can
      make it fail. */
  lemma SucceedsExactly(w: World, i: Inputs)
    ensures Boot(w, i).1 <==>
      CanPrepare(w, i) && (HasWork(w, i) ==> CanCopy(w, i) && CanFinish(w, i))
  {
    hide Prepare, NeedsRewrite, StagedDoc, GuestOwnedTables, Installed, CanPrepare, HasWork;
    PreparesExactly(w, i);
  }

  // ---------------------------------------------------------------- the persisted state

  /** A saved state loads again. Only the removal of the file of a state with nothing in it can
      fail unnoticed, and then the older state stays. */
  lemma SavedStateLoads(disk: Disk, state: ModelState, writes: bool, removes: bool)
    ensures
      var (empty, saved) := (ModelState(Remote, None, None, false, false), Save(disk, state, writes, removes));
      && (saved.Some? <==> writes || state == empty)
      && (saved.Some? ==>
            if state == empty && !removes then saved.value == disk else LoadOrDefault(saved.value) == state)
  {
  }

  /** A successful boot changes the two flags of the persisted state and nothing else. */
  lemma StateAfterBoot(w: World, i: Inputs)
    requires Boot(w, i).1 && i.stateFileRemoved
    ensures
      var before := LoadOrDefault(w.disk);
      LoadOrDefault(Boot(w, i).0.disk) == before.(
        codexMaterialized := before.codexMaterialized || UsesProxy(w, i) || UsesLocalModel(w, i),
        keyringMaterialized := i.auth.ChatGpt?)
  {
    hide Prepare, NeedsRewrite, StagedDoc, GuestOwnedTables, Installed, CopyConfig, HasWork, CanPrepare, Save;
    PreparesExactly(w, i);
    PrepareFacts(w.disk, i);
    var p := Prepare(w.disk, i);
    if p.Proceed? {
      SavedStateLoads(p.disk, p.state.(keyringMaterialized := i.auth.ChatGpt?), i.keyringSaved, i.stateFileRemoved);
    }
  }
}
