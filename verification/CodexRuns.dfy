/** What holds over any number of Codex boots, guest edits and host commands. */
module CodexRuns {
  import opened Wrappers
  import opened TomlValue
  import opened CodexBoot

  // ---------------------------------------------------------------- files

  function Written(file: GuestFile): Doc {
    match file
    case Missing => map[]
    case Torn(doc) => doc
    case Config(doc) => doc
  }

  /** Some part of the provider block may be in the file. */
  predicate FileHasTrace(file: GuestFile) {
    HasTrace(Written(file))
  }

  predicate FileHasKey(file: GuestFile) {
    HasKeyringKey(Written(file))
  }

  /** The host's own configuration does not define the provider that coop manages. */
  predicate CleanSource(i: Inputs) {
    !HasTrace(BaseDoc(i.source))
  }

  /** The boot rewrites the guest's `config.toml`. */
  predicate RewritesConfig(w: World, i: Inputs) {
    var p := Prepare(w.disk, i);
    p.Proceed? && NeedsRewrite(p.state, i, p.provider)
  }

  // ---------------------------------------------------------------- one boot, step by step

  lemma StagedBlock(i: Inputs, provider: Option<Doc>, preserved: Doc)
    requires CleanSource(i) || provider.Some?
    requires provider.Some? ==>
      || (exists url, model :: provider == Some(CodexLocalConfig(url, model)))
      || (exists url :: provider == Some(CodexProxyConfig(url)))
    ensures
      var doc := StagedDoc(i, provider, preserved);
      && (provider.Some? ==> HasBlock(doc))
      && (provider.None? ==> !HasTrace(doc))
  {
    StagedLookup(i, provider, preserved, "model_provider");
    StagedLookup(i, provider, preserved, "model_providers");
    assert !IsGuestOwned("model_provider") && !IsGuestOwned("model_providers");
  }

  lemma StagedKey(i: Inputs, provider: Option<Doc>, preserved: Doc)
    ensures Lookup(StagedDoc(i, provider, preserved), CREDENTIALS_STORE) ==
      if i.auth.ChatGpt? then Some(Text("keyring")) else None
  {
    StagedLookup(i, provider, preserved, CREDENTIALS_STORE);
    assert !IsGuestOwned(CREDENTIALS_STORE);
  }

  lemma StagedLookup(i: Inputs, provider: Option<Doc>, preserved: Doc, key: string)
    ensures Lookup(StagedDoc(i, provider, preserved), key) == StagedValue(i, provider, preserved, key)
  {
  }

  lemma StagedGuestTables(i: Inputs, provider: Option<Doc>, preserved: Doc)
    requires forall key | key in preserved :: IsGuestOwned(key)
    ensures GuestOwnedTables(Config(StagedDoc(i, provider, preserved))) == preserved
  {
    var doc := StagedDoc(i, provider, preserved);
    var tables := GuestOwnedTables(Config(doc));
    forall key ensures Lookup(tables, key) == Lookup(preserved, key) {
      StagedLookup(i, provider, preserved, key);
    }
    forall key ensures key in tables <==> key in preserved {
      assert Lookup(tables, key) == Lookup(preserved, key);
    }
    forall key | key in tables ensures tables[key] == preserved[key] {
      assert Lookup(tables, key) == Lookup(preserved, key);
    }
  }

  /** The disk that preparation leaves agrees with the state the boot goes on with, and the flag is
      on the disk before anything reaches the guest. */
  lemma PrepareFacts(disk: Disk, i: Inputs)
    ensures
      var p, before := Prepare(disk, i), LoadOrDefault(disk);
      && (p.Done? ==> !RoutesThroughCoop(before, i) && !before.codexMaterialized && !before.keyringMaterialized && i.auth.ApiKey?)
      && (p.Abort? ==>
            && (before.codexMaterialized ==> LoadOrDefault(p.disk).codexMaterialized)
            && LoadOrDefault(p.disk).keyringMaterialized == before.keyringMaterialized)
      && (p.Proceed? ==>
            && LoadOrDefault(p.disk) == p.state
            && p.state.keyringMaterialized == before.keyringMaterialized
            && p.state.codexMaterialized == (before.codexMaterialized || p.provider.Some?)
            && ProxyActive(p.state, i) == ProxyActive(before, i)
            && (p.provider.Some? <==> RoutesThroughCoop(before, i))
            && (ProxyActive(before, i) ==> i.auth.ApiKey?)
            && (p.provider.Some? ==>
                  || (exists url, model :: p.provider == Some(CodexLocalConfig(url, model)))
                  || (exists url :: p.provider == Some(CodexProxyConfig(url)))))
  {
    hide CodexLocalConfig, CodexProxyConfig;
  }

  /** What a copy can leave in the guest's file. */
  lemma CopyFacts(guest: Guest, state: ModelState, i: Inputs, provider: Option<Doc>)
    ensures
      var ((after, ok), rewrites) := (CopyConfig(guest, state, i, provider), NeedsRewrite(state, i, provider));
      var preserved := if i.guestReadable then GuestOwnedTables(guest.config) else map[];
      && (after.config == guest.config
          || (rewrites && Written(after.config) == StagedDoc(i, provider, preserved)))
      && (ok && rewrites ==> after.config == Config(StagedDoc(i, provider, preserved)))
      && (ok && !rewrites ==> after.config == guest.config)
      && (ok && ProxyActive(state, i) ==> !after.authJson)
      && (ok ==> i.copy.Copied?)
      && (!ok && i.copy.Copied? ==> after.config == guest.config)
      && (i.copy.Broken? && i.copy.configProgress.Untouched? ==> after.config == guest.config)
  {
    hide StagedDoc, NeedsRewrite;
  }

  lemma InstalledFacts(file: GuestFile, tables: Doc)
    ensures FileHasTrace(Installed(file, tables)) <==> FileHasTrace(file)
    ensures FileHasKey(Installed(file, tables)) <==> FileHasKey(file)
    ensures file.Config? ==> Installed(file, tables).Config?
    ensures file.Config? && HasBlock(file.doc) ==> HasBlock(Installed(file, tables).doc)
    ensures Lookup(Written(Installed(file, tables)), CREDENTIALS_STORE) == Lookup(Written(file), CREDENTIALS_STORE)
  {
  }

  lemma GuestTablesAreGuestOwned(file: GuestFile)
    ensures forall key | key in GuestOwnedTables(file) :: IsGuestOwned(key)
  {
  }

  // ---------------------------------------------------------------- the provider block

  /** A provider block in the guest was written by coop, and coop remembers having written it. */
  ghost predicate BlockIsRemembered(w: World) {
    FileHasTrace(w.guest.config) ==> LoadOrDefault(w.disk).codexMaterialized
  }

  /** The flag is saved before the copy, so a failure at any point keeps the invariant; after a
      successful boot the block is there exactly when a local endpoint or the proxy is in effect. */
  lemma BootKeepsBlock(w: World, i: Inputs)
    requires BlockIsRemembered(w) && CleanSource(i)
    ensures
      var (after, ok) := Boot(w, i);
      && BlockIsRemembered(after)
      && (ok && RoutesThroughCoop(LoadOrDefault(w.disk), i) ==> after.guest.config.Config? && HasBlock(after.guest.config.doc))
      && (ok && !RoutesThroughCoop(LoadOrDefault(w.disk), i) ==> !FileHasTrace(after.guest.config))
  {
    hide Prepare, RoutesThroughCoop, CopyConfig, Installed, StagedDoc, GuestOwnedTables, HasTrace, HasBlock;
    PrepareFacts(w.disk, i);
    var p := Prepare(w.disk, i);
    if p.Proceed? {
      CopyFacts(w.guest, p.state, i, p.provider);
      StagedBlock(i, p.provider, if i.guestReadable then GuestOwnedTables(w.guest.config) else map[]);
      BlockImpliesTrace(CopyConfig(w.guest, p.state, i, p.provider).0.config);
      InstalledFacts(CopyConfig(w.guest, p.state, i, p.provider).0.config, i.installedTables);
    }
  }

  lemma BlockImpliesTrace(file: GuestFile)
    ensures HasBlock(Written(file)) ==> FileHasTrace(file)
  {
  }

  // ---------------------------------------------------------------- the keyring key

  ghost predicate KeyIsRemembered(w: World) {
    FileHasKey(w.guest.config) <==> LoadOrDefault(w.disk).keyringMaterialized
  }

  /** The copy of the file and the save of the flag succeed or fail together. */
  predicate CopyAndSaveAreAtomic(i: Inputs) {
    match i.copy
    case Copied => i.keyringSaved && i.stateFileRemoved
    case Broken(progress, _) => progress.Untouched?
  }

  /** With copy and save atomic, the flag mirrors the guest, and after a successful boot both say
      whether the account mode is on. */
  lemma BootKeepsKey(w: World, i: Inputs)
    requires KeyIsRemembered(w) && CopyAndSaveAreAtomic(i)
    ensures
      var (after, ok) := Boot(w, i);
      && KeyIsRemembered(after)
      && (ok ==> (LoadOrDefault(after.disk).keyringMaterialized <==> i.auth.ChatGpt?))
      && (ok && i.auth.ChatGpt? ==> Lookup(Written(after.guest.config), CREDENTIALS_STORE) == Some(Text("keyring")))
  {
    hide Prepare, RoutesThroughCoop, CopyConfig, Installed, StagedDoc, GuestOwnedTables;
    PrepareFacts(w.disk, i);
    var p := Prepare(w.disk, i);
    if p.Proceed? {
      CopyFacts(w.guest, p.state, i, p.provider);
      StagedKey(i, p.provider, if i.guestReadable then GuestOwnedTables(w.guest.config) else map[]);
      InstalledFacts(CopyConfig(w.guest, p.state, i, p.provider).0.config, i.installedTables);
    }
  }

  /** Without that assumption, a successful boot brings the guest in line with the account mode
      exactly when it rewrites the file or the key was not there before. */
  lemma KeyAfterBoot(w: World, i: Inputs)
    requires Boot(w, i).1
    ensures
      (FileHasKey(Boot(w, i).0.guest.config) <==> i.auth.ChatGpt?) <==>
      (RewritesConfig(w, i) || !FileHasKey(w.guest.config))
  {
    hide Prepare, RoutesThroughCoop, CopyConfig, Installed, StagedDoc, GuestOwnedTables;
    PrepareFacts(w.disk, i);
    var p := Prepare(w.disk, i);
    if p.Proceed? {
      CopyFacts(w.guest, p.state, i, p.provider);
      StagedKey(i, p.provider, if i.guestReadable then GuestOwnedTables(w.guest.config) else map[]);
      InstalledFacts(CopyConfig(w.guest, p.state, i, p.provider).0.config, i.installedTables);
    }
  }

  const PLAIN := Inputs(
    ApiKey, None, None, false, None, false, false,
    true, true, None, None, true, true, true, true, true, true, true, Copied, true, true, true, map[], true)

  /** The assumption is needed: a boot in account mode that copies the file but cannot save the
      flag, and then a successful boot in key mode, leave the key in the guest. */
  lemma LostFlagLeavesKey()
    ensures
      var start := World(None, Guest(Missing, false));
      var (middle, first) := Boot(start, PLAIN.(auth := ChatGpt, keyringSaved := false));
      var (end, second) := Boot(middle, PLAIN);
      !first && second && FileHasKey(end.guest.config)
  {
    var i := PLAIN.(auth := ChatGpt, keyringSaved := false);
    var start := World(None, Guest(Missing, false));
    var state := DEFAULT_STATE;
    assert Prepare(None, i) == Proceed(None, state, None);
    StagedKey(i, None, map[]);
    assert CopyConfig(start.guest, state, i, None) == (Guest(Config(StagedDoc(i, None, map[])), false), true);
    assert Prepare(None, PLAIN) == Done;
  }

  /** In proxy mode a successful boot leaves no `auth.json` in the guest. */
  lemma ProxyLeavesNoAuthFile(w: World, i: Inputs)
    requires Boot(w, i).1 && ProxyActive(LoadOrDefault(w.disk), i)
    ensures !Boot(w, i).0.guest.authJson
  {
    hide CopyConfig, Installed, StagedDoc, Prepare;
    PrepareFacts(w.disk, i);
    var p := Prepare(w.disk, i);
    assert p.Proceed?;
    CopyFacts(w.guest, p.state, i, p.provider);
  }

  // ---------------------------------------------------------------- the guest's own tables

  /** The copy gets as far as writing into the guest's `config.toml`. */
  predicate TouchesConfig(w: World, i: Inputs) {
    && RewritesConfig(w, i)
    && (ProxyActive(LoadOrDefault(w.disk), i) ==> i.proxyAuthRemoved)
    && !(i.source.Some? && i.source.value.config.BadConfig?)
    && (i.mcpServers.Some? ==> i.secretsResolved)
    && i.stagingWorks
    && !(i.copy.Broken? && i.copy.configProgress.Untouched?)
  }

  /** The copy breaks off in the middle of that file. */
  predicate Tears(i: Inputs) {
    i.copy.Broken? && i.copy.configProgress.Half?
  }

  /** The boot does not write the file, or could read it and writes it whole. */
  predicate CarriesTables(w: World, i: Inputs) {
    !TouchesConfig(w, i) || (i.guestReadable && !Tears(i))
  }

  /** The guest's file as the config refresh leaves it. */
  function Refreshed(w: World, i: Inputs): GuestFile {
    var p := Prepare(w.disk, i);
    if p.Proceed? then CopyConfig(w.guest, p.state, i, p.provider).0.config else w.guest.config
  }

  /** The boot gets as far as the plugin installation. */
  predicate Installs(w: World, i: Inputs) {
    var p := Prepare(w.disk, i);
    && p.Proceed? && i.firstBoot && CopyConfig(w.guest, p.state, i, p.provider).1
    && (i.auth.ChatGpt? == p.state.keyringMaterialized
        || Save(p.disk, p.state.(keyringMaterialized := i.auth.ChatGpt?), i.keyringSaved, i.stateFileRemoved).Some?)
  }

  /** What the plugin installation leaves in the guest's own tables. */
  function InstalledTables(w: World, i: Inputs): Doc {
    if Installs(w, i) && !Refreshed(w, i).Torn?
    then map key | key in i.installedTables && IsGuestOwned(key) :: i.installedTables[key]
    else map[]
  }

  lemma RefreshedTables(w: World, i: Inputs)
    ensures GuestOwnedTables(Refreshed(w, i)) ==
      if CarriesTables(w, i) then GuestOwnedTables(w.guest.config) else map[]
  {
    hide Prepare, StagedDoc, GuestOwnedTables, NeedsRewrite;
    PrepareFacts(w.disk, i);
    var p := Prepare(w.disk, i);
    GuestTablesAreGuestOwned(w.guest.config);
    GuestTablesAreGuestOwned(Missing);
    NoTables();
    if p.Proceed? {
      StagedGuestTables(i, p.provider, if i.guestReadable then GuestOwnedTables(w.guest.config) else map[]);
    }
  }

  lemma NoTables()
    ensures forall doc :: GuestOwnedTables(Torn(doc)) == map[]
  {
  }

  lemma ConfigAfterBoot(w: World, i: Inputs)
    ensures Boot(w, i).0.guest.config ==
      if Installs(w, i) then Installed(Refreshed(w, i), i.installedTables) else Refreshed(w, i)
  {
    hide Prepare, CopyConfig, Installed;
  }

  lemma TablesOfInstalled(file: GuestFile, tables: Doc)
    ensures GuestOwnedTables(Installed(file, tables)) ==
      if file.Torn? then map[]
      else GuestOwnedTables(file) + map key | key in tables && IsGuestOwned(key) :: tables[key]
  {
  }

  /** The guest's own tables after any boot, successful or not: those it had, if the refresh
      carries them, under those of the plugin installation, if the boot gets that far. */
  lemma TablesAfterBoot(w: World, i: Inputs)
    ensures GuestOwnedTables(Boot(w, i).0.guest.config) ==
      (if CarriesTables(w, i) then GuestOwnedTables(w.guest.config) else map[]) + InstalledTables(w, i)
  {
    hide Boot, Installs, Refreshed, Installed, CarriesTables, GuestOwnedTables;
    ConfigAfterBoot(w, i);
    RefreshedTables(w, i);
    TablesOfInstalled(Refreshed(w, i), i.installedTables);
    if Refreshed(w, i).Torn? { NoTables(); }
  }

  /** Any boot leaves the guest's own tables exactly as they were if and only if the refresh
      carries them, or the installation restores every one, and it installs nothing else. */
  lemma TablesKeptExactly(w: World, i: Inputs)
    ensures
      var before, installed := GuestOwnedTables(w.guest.config), InstalledTables(w, i);
      GuestOwnedTables(Boot(w, i).0.guest.config) == before <==>
        && (CarriesTables(w, i) || before.Keys <= installed.Keys)
        && forall key | key in installed :: Lookup(before, key) == Some(installed[key])
  {
    hide Boot, CarriesTables, GuestOwnedTables, InstalledTables;
    TablesAfterBoot(w, i);
    var before, installed := GuestOwnedTables(w.guest.config), InstalledTables(w, i);
    var after := GuestOwnedTables(Boot(w, i).0.guest.config);
    if after == before {
      forall key | key in installed ensures Lookup(before, key) == Some(installed[key]) {
        assert Lookup(after, key) == Some(installed[key]);
      }
      if !CarriesTables(w, i) { assert after.Keys == installed.Keys; }
    }
  }

  /** A table outside those that a first boot installs leaves every boot as it entered it, if the
      guest's file could be read and its copy did not break off half-way. */
  lemma TableKept(w: World, i: Inputs, key: string)
    requires CarriesTables(w, i) && (i.firstBoot ==> key !in i.installedTables)
    ensures Lookup(GuestOwnedTables(Boot(w, i).0.guest.config), key) == Lookup(GuestOwnedTables(w.guest.config), key)
  {
    hide Boot, CarriesTables, GuestOwnedTables;
    TablesAfterBoot(w, i);
  }

  /** A restart that rewrites the file but cannot read it loses the tables. */
  lemma UnreadGuestLosesTables()
    ensures
      var i := PLAIN.(mcpServers := Some(Table(map["docs" := Table(map["command" := Text("docs")])])), guestReadable := false);
      var start := World(None, Guest(Config(map["plugins" := Table(map[])]), false));
      var (end, ok) := Boot(start, i);
      ok && !i.firstBoot && GuestOwnedTables(start.guest.config) != map[] && GuestOwnedTables(end.guest.config) == map[]
  {
    var i := PLAIN.(mcpServers := Some(Table(map["docs" := Table(map["command" := Text("docs")])])), guestReadable := false);
    var start := World(None, Guest(Config(map["plugins" := Table(map[])]), false));
    assert Prepare(None, i) == Proceed(None, DEFAULT_STATE, None);
    TablesAfterBoot(start, i);
    assert !CarriesTables(start, i);
    assert "plugins" in GuestOwnedTables(start.guest.config);
  }

  /** No boot, successful or not, brings a host table of those names into the guest: what the file
      holds under them was in the guest's file before, or was put there by the plugin install. */
  lemma NoHostTables(w: World, i: Inputs, key: string)
    requires IsGuestOwned(key)
    ensures
      var after := Written(Boot(w, i).0.guest.config);
      key in after ==> Lookup(after, key) == Lookup(Written(w.guest.config), key) || Lookup(after, key) == Lookup(i.installedTables, key)
  {
    hide Prepare, CopyConfig, StagedDoc;
    PrepareFacts(w.disk, i);
    var p := Prepare(w.disk, i);
    if p.Proceed? {
      var preserved := if i.guestReadable then GuestOwnedTables(w.guest.config) else map[];
      CopyFacts(w.guest, p.state, i, p.provider);
      StagedLookup(i, p.provider, preserved, key);
    }
  }

  // ---------------------------------------------------------------- runs

  datatype Event =
    | BootEvent(i: Inputs)
    | GuestEdit(config: GuestFile, authJson: bool)                // by the user or by Codex itself
    | HostCommand(state: ModelState, writes: bool, removes: bool) // `coop model` and the like

  ghost predicate Happens(w: World, e: Event, after: World) {
    match e
    case BootEvent(i) => after == Boot(w, i).0
    case GuestEdit(config, authJson) => after == World(w.disk, Guest(config, authJson))
    case HostCommand(state, writes, removes) =>
      after == World(if Save(w.disk, state, writes, removes).Some? then Save(w.disk, state, writes, removes).value else w.disk, w.guest)
  }

  ghost predicate IsTrace(worlds: seq<World>, events: seq<Event>) {
    && |worlds| == |events| + 1
    && forall k | 0 <= k < |events| :: Happens(worlds[k], events[k], worlds[k + 1])
  }

  /** From a new instance on. */
  ghost predicate IsRun(worlds: seq<World>, events: seq<Event>) {
    IsTrace(worlds, events) && worlds[0] == World(None, Guest(Missing, false))
  }

  /** Nobody but coop adds the provider block, and other commands do not clear the flag for it. */
  ghost predicate LeavesBlockAlone(w: World, e: Event) {
    match e
    case BootEvent(i) => CleanSource(i)
    case GuestEdit(config, _) => FileHasTrace(config) ==> FileHasTrace(w.guest.config)
    case HostCommand(state, _, _) => LoadOrDefault(w.disk).codexMaterialized ==> state.codexMaterialized
  }

  /** Nobody but coop adds or removes the credential store key, other commands keep the flag for
      it, and in every boot copy and save are atomic. */
  ghost predicate LeavesKeyAlone(w: World, e: Event) {
    match e
    case BootEvent(i) => CopyAndSaveAreAtomic(i)
    case GuestEdit(config, _) => FileHasKey(config) <==> FileHasKey(w.guest.config)
    case HostCommand(state, _, _) => state.keyringMaterialized == LoadOrDefault(w.disk).keyringMaterialized
  }

  /** `set_local` of `coop model`, with the endpoints of the configuration and the answers to its
      prompts; `None` is its error. A prompt is shown only for a tool without an endpoint. */
  function SetLocal(state: ModelState, claude: Option<Endpoint>, codex: Option<Endpoint>,
      claudeAnswer: Option<Endpoint>, codexAnswer: Option<Endpoint>): Option<ModelState>
  {
    var answered := state.(
      mode := Local,
      claudeEndpoint := if claude.None? && state.claudeEndpoint.None? then claudeAnswer else state.claudeEndpoint,
      codexEndpoint := if codex.None? && state.codexEndpoint.None? then codexAnswer else state.codexEndpoint);
    var resolvesCodex := codex.Some? || answered.codexEndpoint.Some?;
    if claude.None? && answered.claudeEndpoint.None? && !resolvesCodex then None
    else Some(if resolvesCodex then answered.(codexMaterialized := true) else answered)
  }

  /** `set_remote` */
  function SetRemote(state: ModelState): ModelState {
    state.(mode := Remote)
  }

  /** The commands that write the state satisfy what the runs below ask of them, and a switch to
      local that routes Codex sets the flag before any boot could write the block. */
  lemma ModelCommandsLeaveAlone(w: World, claude: Option<Endpoint>, codex: Option<Endpoint>,
      claudeAnswer: Option<Endpoint>, codexAnswer: Option<Endpoint>, writes: bool, removes: bool)
    ensures
      var before := LoadOrDefault(w.disk);
      var (local, remote) := (SetLocal(before, claude, codex, claudeAnswer, codexAnswer), SetRemote(before));
      && LeavesBlockAlone(w, HostCommand(remote, writes, removes))
      && LeavesKeyAlone(w, HostCommand(remote, writes, removes))
      && (local.Some? ==>
            && LeavesBlockAlone(w, HostCommand(local.value, writes, removes))
            && LeavesKeyAlone(w, HostCommand(local.value, writes, removes))
            && (local.value.codexEndpoint.Some? || codex.Some? ==> local.value.codexMaterialized))
  {
  }

  /** The switch to local fails exactly when no tool has an endpoint from anywhere; it keeps what is
      stored, and an answer counts for a tool only that has none. Switching back keeps all but the
      mode, so that the next switch asks nothing. */
  lemma SwitchExactly(state: ModelState, claude: Option<Endpoint>, codex: Option<Endpoint>,
      claudeAnswer: Option<Endpoint>, codexAnswer: Option<Endpoint>)
    ensures
      var local := SetLocal(state, claude, codex, claudeAnswer, codexAnswer);
      && (local == None <==>
            forall e | e in [claude, codex, state.claudeEndpoint, state.codexEndpoint, claudeAnswer, codexAnswer] :: e == None)
      && (local.Some? ==>
            var s := local.value;
            && s.mode == Local && s.keyringMaterialized == state.keyringMaterialized
            && (state.claudeEndpoint.Some? || claude.Some? ==> s.claudeEndpoint == state.claudeEndpoint)
            && (state.codexEndpoint.Some? || codex.Some? ==> s.codexEndpoint == state.codexEndpoint)
            && (state.claudeEndpoint.None? && claude.None? ==> s.claudeEndpoint == claudeAnswer)
            && (state.codexEndpoint.None? && codex.None? ==> s.codexEndpoint == codexAnswer)
            && SetRemote(s) == ModelState(Remote, s.claudeEndpoint, s.codexEndpoint, s.codexMaterialized, s.keyringMaterialized)
            && SetLocal(SetRemote(s), claude, codex, None, None) == local)
  {
    var all := [claude, codex, state.claudeEndpoint, state.codexEndpoint, claudeAnswer, codexAnswer];
    assert forall i | 0 <= i < 6 :: all[i] in all;
    assert all[0] == claude && all[1] == codex && all[2] == state.claudeEndpoint && all[3] == state.codexEndpoint
      && all[4] == claudeAnswer && all[5] == codexAnswer;
  }

  ghost predicate BlockLeftAlone(worlds: seq<World>, events: seq<Event>, k: nat) {
    forall j | 0 <= j < k && j < |events| && j < |worlds| :: LeavesBlockAlone(worlds[j], events[j])
  }

  ghost predicate KeyLeftAlone(worlds: seq<World>, events: seq<Event>, k: nat) {
    forall j | 0 <= j < k && j < |events| && j < |worlds| :: LeavesKeyAlone(worlds[j], events[j])
  }

  lemma {:induction false} BlockOverRuns(worlds: seq<World>, events: seq<Event>, k: nat)
    requires IsRun(worlds, events) && k < |worlds| && BlockLeftAlone(worlds, events, k)
    ensures BlockIsRemembered(worlds[k])
  {
    hide Boot;
    if k == 0 {
      assert !FileHasTrace(Missing);
    } else {
      BlockOverRuns(worlds, events, k - 1);
      var w, e := worlds[k - 1], events[k - 1];
      assert Happens(w, e, worlds[k]) && LeavesBlockAlone(w, e);
      if e.BootEvent? { BootKeepsBlock(w, e.i); }
    }
  }

  /** Over every run, with failures allowed at any point of any boot: the guest holds the provider
      block after a successful boot exactly when it is in effect. */
  lemma BlockAfterEveryBoot(worlds: seq<World>, events: seq<Event>, k: nat)
    requires IsRun(worlds, events) && k < |events| && BlockLeftAlone(worlds, events, k + 1)
    requires events[k].BootEvent? && Boot(worlds[k], events[k].i).1
    ensures
      var routes, file := RoutesThroughCoop(LoadOrDefault(worlds[k].disk), events[k].i), worlds[k + 1].guest.config;
      && (routes ==> file.Config? && HasBlock(file.doc))
      && (!routes ==> !FileHasTrace(file))
  {
    BlockOverRuns(worlds, events, k);
    assert Happens(worlds[k], events[k], worlds[k + 1]) && LeavesBlockAlone(worlds[k], events[k]);
    BootKeepsBlock(worlds[k], events[k].i);
  }

  /** Over every run in which copy and save are atomic. */
  lemma {:induction false} KeyOverRuns(worlds: seq<World>, events: seq<Event>, k: nat)
    requires IsRun(worlds, events) && k < |worlds| && KeyLeftAlone(worlds, events, k)
    ensures KeyIsRemembered(worlds[k])
    ensures k > 0 && events[k - 1].BootEvent? && Boot(worlds[k - 1], events[k - 1].i).1 ==>
      (FileHasKey(worlds[k].guest.config) <==> events[k - 1].i.auth.ChatGpt?)
  {
    hide Boot;
    if k > 0 {
      KeyOverRuns(worlds, events, k - 1);
      var w, e := worlds[k - 1], events[k - 1];
      assert Happens(w, e, worlds[k]) && LeavesKeyAlone(w, e);
      if e.BootEvent? { BootKeepsKey(w, e.i); }
    }
  }

  /** A boot carries the tables and does not install this one, and a guest edit keeps it. */
  ghost predicate LeavesTableAlone(w: World, e: Event, key: string) {
    match e
    case BootEvent(i) => CarriesTables(w, i) && (i.firstBoot ==> key !in i.installedTables)
    case GuestEdit(config, _) => Lookup(GuestOwnedTables(config), key) == Lookup(GuestOwnedTables(w.guest.config), key)
    case HostCommand(_, _, _) => true
  }

  /** Across any number of boots, successful or not, first or later, with any host commands in
      between: a table that the guest itself does not change, and no first boot installs, stays as
      it was as long as every boot that rewrites the file can read it and is not torn. */
  lemma {:induction false} TableOverRuns(worlds: seq<World>, events: seq<Event>, j: nat, k: nat, key: string)
    requires IsTrace(worlds, events) && j <= k < |worlds|
    requires forall n | j <= n < k :: LeavesTableAlone(worlds[n], events[n], key)
    ensures Lookup(GuestOwnedTables(worlds[k].guest.config), key) == Lookup(GuestOwnedTables(worlds[j].guest.config), key)
    decreases k - j
  {
    hide Boot, GuestOwnedTables, CarriesTables;
    if j < k {
      TableOverRuns(worlds, events, j, k - 1, key);
      var w, e := worlds[k - 1], events[k - 1];
      assert Happens(w, e, worlds[k]) && LeavesTableAlone(w, e, key);
      if e.BootEvent? { TableKept(w, e.i, key); }
    }
  }

  /** Without first boots, all of them together. */
  lemma TablesOverRestarts(worlds: seq<World>, events: seq<Event>, j: nat, k: nat)
    requires IsTrace(worlds, events) && j <= k < |worlds|
    requires forall n | j <= n < k ::
      events[n].HostCommand? || (events[n].BootEvent? && CarriesTables(worlds[n], events[n].i) && !events[n].i.firstBoot)
    ensures GuestOwnedTables(worlds[k].guest.config) == GuestOwnedTables(worlds[j].guest.config)
  {
    hide CarriesTables, GuestOwnedTables;
    var a, b := GuestOwnedTables(worlds[j].guest.config), GuestOwnedTables(worlds[k].guest.config);
    forall key ensures Lookup(a, key) == Lookup(b, key) {
      TableOverRuns(worlds, events, j, k, key);
    }
    assert forall key :: key in a <==> Lookup(a, key).Some?;
    assert forall key :: key in b <==> Lookup(b, key).Some?;
    assert forall key | key in a :: a[key] == Lookup(a, key).value;
  }
}
