/** The environment forwarded into the guest over SSH (`prepare_env_forwarding` in
    `src/backend.rs`). */
module EnvForwarding {
  import opened Wrappers
  import opened RepoSlug
  import opened PatReload

  const ANTHROPIC := "ANTHROPIC_API_KEY"
  const OPENAI := "OPENAI_API_KEY"
  const GITHUB := "GITHUB_TOKEN"

  const PROXY_ENV_NAMES: set<string> :=
    {"HTTP_PROXY", "HTTPS_PROXY", "ALL_PROXY", "NO_PROXY", "http_proxy", "https_proxy", "all_proxy", "no_proxy"}

  /** The parts of the configuration that are read. */
  datatype Config = Config(
    claudeKey: Option<string>,
    codexKey: Option<string>,
    chatGptAccount: bool,
    claudeForward: seq<string>,
    codexForward: seq<string>,
    guestEnv: map<string, string>,
    privateEgress: bool,
    timezone: Option<string>,
    github: Option<GitHubAuth>)

  /** The host: the process environment, and what it makes of commands, which inherit that
      environment: the token of the `gh` tool, and what a secret command prints when it succeeds. */
  datatype Host = Host(
    env: map<string, string>,
    gh: map<string, string> -> Option<string>,
    run: (string, map<string, string>) -> Option<string>)

  datatype Request = Request(repo: Option<string>, suppressAnthropic: bool, suppressOpenAi: bool)

  // ---------------------------------------------------------------- credentials

  function Get(vars: map<string, string>, name: string): Option<string> {
    if name in vars then Some(vars[name]) else None
  }

  function CommandOf(value: string): string
    requires "cmd:" <= value
  {
    Trim(value[4..])
  }

  /** `resolve_cmd_value`; `None` is an error. */
  function ResolveCmd(value: string, host: Host): Option<string> {
    if !("cmd:" <= value) then Some(value)
    else if CommandOf(value) == "" then None
    else
      match host.run(CommandOf(value), host.env)
      case None => None
      case Some(stdout) => if Trim(stdout) == "" then None else Some(Trim(stdout))
  }

  /** A configured key, or else the host's variable of that name. */
  function ProviderKey(configured: Option<string>, name: string, host: Host): Result<Option<string>, ()> {
    match configured
    case None => Ok(Get(host.env, name))
    case Some(value) =>
      match ResolveCmd(value, host)
      case None => Err(())
      case Some(key) => Ok(Some(key))
  }

  function HostToken(host: Host): Option<string> {
    match Get(host.env, GITHUB)
    case Some(token) => if token == "" then None else Some(token)
    case None => None
  }

  /** `resolve_github_token` */
  function GitHubToken(github: Option<GitHubAuth>, repo: Option<string>, host: Host): Result<Option<string>, ()> {
    match github
    case None => Ok(None)
    case Some(Off) => Ok(None)
    case Some(Auto) => Ok(if HostToken(host).Some? then HostToken(host) else host.gh(host.env))
    case Some(Env) => Ok(HostToken(host))
    case Some(Pat(entries, skip)) =>
      if repo.None? || repo.value !in entries then Ok(None)
      else
        match ResolveCmd(entries[repo.value], host)
        case None => Err(())
        case Some(token) => Ok(Some(token))
  }

  function Suppressed(cfg: Config, req: Request): set<string> {
    (if req.suppressAnthropic then {ANTHROPIC} else {})
    + (if req.suppressOpenAi || cfg.chatGptAccount then {OPENAI} else {})
    + (if cfg.privateEgress then PROXY_ENV_NAMES else {})
  }

  /** The credential of that name, if the name is one of the three and is not suppressed. */
  function Credential(cfg: Config, host: Host, req: Request, name: string): Result<Option<string>, ()> {
    if name == ANTHROPIC then
      if req.suppressAnthropic then Ok(None) else ProviderKey(cfg.claudeKey, ANTHROPIC, host)
    else if name == OPENAI then
      if req.suppressOpenAi || cfg.chatGptAccount then Ok(None) else ProviderKey(cfg.codexKey, OPENAI, host)
    else if name == GITHUB then GitHubToken(cfg.github, req.repo, host)
    else Ok(None)
  }

  predicate Resolvable(cfg: Config, host: Host, req: Request) {
    Credential(cfg, host, req, ANTHROPIC).Ok? && Credential(cfg, host, req, OPENAI).Ok?
    && Credential(cfg, host, req, GITHUB).Ok?
  }

  // ---------------------------------------------------------------- the priority lookup

  /** The value of one variable in the guest, sources in order of priority. */
  function Expected(cfg: Config, host: Host, req: Request, name: string): Option<string>
    requires Resolvable(cfg, host, req)
  {
    if name == "TZ" && cfg.timezone.Some? then cfg.timezone
    else if name in Suppressed(cfg, req) then None
    else if name in cfg.guestEnv then Some(cfg.guestEnv[name])
    else if Credential(cfg, host, req, name).value.Some? then Credential(cfg, host, req, name).value
    else if name in cfg.claudeForward || name in cfg.codexForward then Get(host.env, name)
    else None
  }

  lemma CredentialsByName(cfg: Config, host: Host, req: Request)
    ensures forall name | name in Suppressed(cfg, req) ::
      name != "TZ" && Credential(cfg, host, req, name) == Ok(None)
    ensures Resolvable(cfg, host, req) ==> forall name :: Credential(cfg, host, req, name).Ok?
  {
    hide ProviderKey, GitHubToken;
  }

  // ---------------------------------------------------------------- the sequence of writes

  function AfterForwarding(before: map<string, string>, names: seq<string>, suppressed: set<string>,
      hostEnv: map<string, string>, name: string): Option<string>
  {
    if name in before || name in suppressed || name !in names then Get(before, name) else Get(hostEnv, name)
  }

  function AfterLiterals(before: map<string, string>, literals: map<string, string>, suppressed: set<string>,
      pending: set<string>, name: string): Option<string>
  {
    if name in literals && name !in suppressed && name !in pending then Some(literals[name]) else Get(before, name)
  }

  class EnvForward {
    var vars: map<string, string>

    constructor ()
      ensures vars == map[]
    {
      vars := map[];
    }

    method Set(name: string, value: string)
      modifies this
      ensures vars == old(vars)[name := value]
    {
      vars := vars[name := value];
    }

    /** The provider keys and the GitHub token, written in this order. */
    method SetCredentials(cfg: Config, host: Host, req: Request) returns (ok: bool)
      requires vars == map[]
      modifies this
      ensures ok <==> Resolvable(cfg, host, req)
      ensures ok ==> forall name :: Get(vars, name) == Credential(cfg, host, req, name).value
    {
      hide ResolveCmd, HostToken;
      ok := false;
      if !req.suppressAnthropic {
        match ProviderKey(cfg.claudeKey, ANTHROPIC, host) {
          case Err(_) => return;
          case Ok(Some(key)) => Set(ANTHROPIC, key);
          case Ok(None) =>
        }
      }
      if !(req.suppressOpenAi || cfg.chatGptAccount) {
        match ProviderKey(cfg.codexKey, OPENAI, host) {
          case Err(_) => return;
          case Ok(Some(key)) => Set(OPENAI, key);
          case Ok(None) =>
        }
      }
      match GitHubToken(cfg.github, req.repo, host) {
        case Err(_) => return;
        case Ok(Some(token)) => Set(GITHUB, token);
        case Ok(None) =>
      }
      ok := true;
    }

    /** `env_forward`: an earlier value stays. */
    method ForwardNames(names: seq<string>, suppressed: set<string>, host: Host)
      modifies this
      ensures forall name :: Get(vars, name) == AfterForwarding(old(vars), names, suppressed, host.env, name)
    {
      for i := 0 to |names|
        invariant forall name ::
          Get(vars, name) == AfterForwarding(old(vars), names[..i], suppressed, host.env, name)
      {
        var name := names[i];
        assert names[..i + 1] == names[..i] + [name];
        ghost var was := vars;
        if name !in suppressed && name !in vars && name in host.env {
          Set(name, host.env[name]);
        }
        forall n ensures Get(vars, n) == AfterForwarding(old(vars), names[..i + 1], suppressed, host.env, n) {
          assert Get(was, n) == AfterForwarding(old(vars), names[..i], suppressed, host.env, n);
        }
      }
      assert names[..|names|] == names;
    }

    /** `guest_env`: an earlier value is replaced. */
    method SetLiterals(literals: map<string, string>, suppressed: set<string>)
      modifies this
      ensures forall name :: Get(vars, name) == AfterLiterals(old(vars), literals, suppressed, {}, name)
    {
      var pending := literals.Keys;
      while pending != {}
        invariant pending <= literals.Keys
        invariant forall name ::
          Get(vars, name) == AfterLiterals(old(vars), literals, suppressed, pending, name)
      {
        var name :| name in pending;
        ghost var was := vars;
        if name !in suppressed {
          Set(name, literals[name]);
        }
        forall n ensures Get(vars, n) == AfterLiterals(old(vars), literals, suppressed, pending - {name}, n) {
          assert Get(was, n) == AfterLiterals(old(vars), literals, suppressed, pending, n);
        }
        pending := pending - {name};
      }
    }
  }

  /** `prepare_env_forwarding`: it fails exactly when a credential that is not suppressed cannot be
      resolved, and otherwise writes what the priority lookup says, for every name. No configuration
      and no host environment brings a suppressed name into the guest. */
  method PrepareEnvForwarding(cfg: Config, host: Host, req: Request) returns (r: Option<EnvForward>)
    ensures r.Some? <==> Resolvable(cfg, host, req)
    ensures r.Some? ==> fresh(r.value)
    ensures r.Some? ==> forall name :: Get(r.value.vars, name) == Expected(cfg, host, req, name)
    ensures r.Some? ==> forall name | name in Suppressed(cfg, req) :: name !in r.value.vars
  {
    hide Credential, Suppressed;
    var env := new EnvForward();
    var ok := env.SetCredentials(cfg, host, req);
    if !ok {
      return None;
    }
    var suppressed := Suppressed(cfg, req);
    CredentialsByName(cfg, host, req);
    ghost var credentials := env.vars;
    env.ForwardNames(cfg.claudeForward + cfg.codexForward, suppressed, host);
    ghost var forwarded := env.vars;
    env.SetLiterals(cfg.guestEnv, suppressed);
    ghost var literals := env.vars;
    if cfg.timezone.Some? {
      env.Set("TZ", cfg.timezone.value);
    }
    forall name ensures Get(env.vars, name) == Expected(cfg, host, req, name) {
      assert Get(credentials, name) == Credential(cfg, host, req, name).value;
      assert Get(forwarded, name) ==
        AfterForwarding(credentials, cfg.claudeForward + cfg.codexForward, suppressed, host.env, name);
      assert Get(literals, name) == AfterLiterals(forwarded, cfg.guestEnv, suppressed, {}, name);
    }
    forall name | name in suppressed ensures name !in env.vars {
      assert Get(env.vars, name) == Expected(cfg, host, req, name) == None;
    }
    return Some(env);
  }

  // ---------------------------------------------------------------- which value each name gets

  /** What a configured secret stands for: itself, or behind `cmd:` what a command prints. */
  predicate StandsFor(secret: string, host: Host, value: string) {
    if |secret| >= 4 && secret[..4] == "cmd:" then
      var command := Trim(secret[4..]);
      && command != "" && value != ""
      && host.run(command, host.env).Some? && value == Trim(host.run(command, host.env).value)
    else value == secret
  }

  ghost predicate Usable(secret: string, host: Host) {
    exists value :: StandsFor(secret, host, value)
  }

  lemma SecretExactly(secret: string, host: Host)
    ensures ResolveCmd(secret, host).Some? <==> Usable(secret, host)
    ensures forall value :: StandsFor(secret, host, value) <==> ResolveCmd(secret, host) == Some(value)
  {
    hide Trim;
    assert "cmd:" <= secret <==> |secret| >= 4 && secret[..4] == "cmd:";
    if ResolveCmd(secret, host).Some? {
      assert StandsFor(secret, host, ResolveCmd(secret, host).value);
    }
  }

  /** Forwarding succeeds if and only if every secret in use stands for something. */
  lemma ForwardsExactly(cfg: Config, host: Host, req: Request)
    ensures Resolvable(cfg, host, req) <==>
      && (req.suppressAnthropic || cfg.claudeKey.None? || Usable(cfg.claudeKey.value, host))
      && (req.suppressOpenAi || cfg.chatGptAccount || cfg.codexKey.None? || Usable(cfg.codexKey.value, host))
      && (match cfg.github
          case Some(Pat(entries, _)) =>
            req.repo.Some? && req.repo.value in entries ==> Usable(entries[req.repo.value], host)
          case _ => true)
  {
    if cfg.claudeKey.Some? { SecretExactly(cfg.claudeKey.value, host); }
    if cfg.codexKey.Some? { SecretExactly(cfg.codexKey.value, host); }
    if cfg.github.Some? && cfg.github.value.Pat? && req.repo.Some? && req.repo.value in cfg.github.value.entries {
      SecretExactly(cfg.github.value.entries[req.repo.value], host);
    }
    hide ResolveCmd, Usable, HostToken;
  }

  /** Where a provider's key comes from, unless it is suppressed or a literal of its name overrides it:
      the configured one, and the host's variable only when none is configured. */
  ghost predicate KeyArrives(key: Option<string>, host: Host, name: string, arrived: Option<string>) {
    match key
    case Some(secret) => arrived.Some? && StandsFor(secret, host, arrived.value)
    case None => if name in host.env then arrived == Some(host.env[name]) else arrived == None
  }

  lemma ProviderKeysArrive(cfg: Config, host: Host, req: Request)
    requires Resolvable(cfg, host, req)
    ensures !req.suppressAnthropic && "ANTHROPIC_API_KEY" !in cfg.guestEnv ==>
      KeyArrives(cfg.claudeKey, host, "ANTHROPIC_API_KEY", Expected(cfg, host, req, "ANTHROPIC_API_KEY"))
    ensures !req.suppressOpenAi && !cfg.chatGptAccount && "OPENAI_API_KEY" !in cfg.guestEnv ==>
      KeyArrives(cfg.codexKey, host, "OPENAI_API_KEY", Expected(cfg, host, req, "OPENAI_API_KEY"))
  {
    if cfg.claudeKey.Some? { SecretExactly(cfg.claudeKey.value, host); }
    if cfg.codexKey.Some? { SecretExactly(cfg.codexKey.value, host); }
    hide ResolveCmd, StandsFor, GitHubToken;
  }

  /** The host's `GITHUB_TOKEN`, where an empty one counts as none. */
  predicate HostHasToken(host: Host) {
    "GITHUB_TOKEN" in host.env && host.env["GITHUB_TOKEN"] != ""
  }

  /** The token that a mode chooses: none by default and in mode `off`, the host's in modes `env` and
      `auto`, where `auto` falls back to `gh`, and the repository's own entry in mode `pat`. */
  ghost predicate TokenChosen(cfg: Config, host: Host, req: Request, token: Option<string>) {
    match cfg.github
    case None => token == None
    case Some(Off) => token == None
    case Some(Env) => token == if HostHasToken(host) then Some(host.env["GITHUB_TOKEN"]) else None
    case Some(Auto) => token == if HostHasToken(host) then Some(host.env["GITHUB_TOKEN"]) else host.gh(host.env)
    case Some(Pat(entries, _)) =>
      if req.repo.Some? && req.repo.value in entries
      then token.Some? && StandsFor(entries[req.repo.value], host, token.value)
      else token == None
  }

  function TokenOrForwarded(cfg: Config, host: Host, token: Option<string>): Option<string> {
    if token.Some? then token
    else if "GITHUB_TOKEN" in cfg.claudeForward + cfg.codexForward && "GITHUB_TOKEN" in host.env
    then Some(host.env["GITHUB_TOKEN"])
    else None
  }

  /** In the guest it is that token, unless a literal overrides it; without one it can only be the
      host's variable, when a forwarding list asks for it. */
  lemma TokenArrives(cfg: Config, host: Host, req: Request)
    requires Resolvable(cfg, host, req) && "GITHUB_TOKEN" !in cfg.guestEnv
    ensures exists token ::
      TokenChosen(cfg, host, req, token) && Expected(cfg, host, req, "GITHUB_TOKEN") == TokenOrForwarded(cfg, host, token)
  {
    if cfg.github.Some? && cfg.github.value.Pat? && req.repo.Some? && req.repo.value in cfg.github.value.entries {
      SecretExactly(cfg.github.value.entries[req.repo.value], host);
    }
    hide ResolveCmd, StandsFor, ProviderKey;
    assert TokenChosen(cfg, host, req, GitHubToken(cfg.github, req.repo, host).value);
  }

  /** The other names: the managed time zone comes first, proxy variables stay out in private egress,
      a literal comes next, and a host variable arrives exactly when a list names it. */
  lemma OtherNamesArrive(cfg: Config, host: Host, req: Request, name: string)
    requires Resolvable(cfg, host, req)
    requires name != "ANTHROPIC_API_KEY" && name != "OPENAI_API_KEY" && name != "GITHUB_TOKEN"
    ensures Expected(cfg, host, req, name) ==
      if name == "TZ" && cfg.timezone.Some? then cfg.timezone
      else if cfg.privateEgress && name in ["HTTP_PROXY", "HTTPS_PROXY", "ALL_PROXY", "NO_PROXY",
                                            "http_proxy", "https_proxy", "all_proxy", "no_proxy"] then None
      else if name in cfg.guestEnv then Some(cfg.guestEnv[name])
      else if name in cfg.claudeForward + cfg.codexForward && name in host.env then Some(host.env[name])
      else None
  {
    hide ProviderKey, GitHubToken;
  }

  /** And the three credentials under a literal or a suppression. */
  lemma LiteralsAndSuppression(cfg: Config, host: Host, req: Request)
    requires Resolvable(cfg, host, req)
    ensures req.suppressAnthropic ==> Expected(cfg, host, req, "ANTHROPIC_API_KEY") == None
    ensures req.suppressOpenAi || cfg.chatGptAccount ==> Expected(cfg, host, req, "OPENAI_API_KEY") == None
    ensures !req.suppressAnthropic && "ANTHROPIC_API_KEY" in cfg.guestEnv ==>
      Expected(cfg, host, req, "ANTHROPIC_API_KEY") == Some(cfg.guestEnv["ANTHROPIC_API_KEY"])
    ensures !req.suppressOpenAi && !cfg.chatGptAccount && "OPENAI_API_KEY" in cfg.guestEnv ==>
      Expected(cfg, host, req, "OPENAI_API_KEY") == Some(cfg.guestEnv["OPENAI_API_KEY"])
    ensures "GITHUB_TOKEN" in cfg.guestEnv ==>
      Expected(cfg, host, req, "GITHUB_TOKEN") == Some(cfg.guestEnv["GITHUB_TOKEN"])
  {
    hide ProviderKey, GitHubToken;
  }

  // ---------------------------------------------------------------- what the order guarantees

  predicate SameBut(a: map<string, string>, b: map<string, string>, name: string) {
    a - {name} == b - {name}
  }

  lemma SameElsewhere(a: map<string, string>, b: map<string, string>, but: string, name: string)
    requires SameBut(a, b, but) && name != but
    ensures Get(a, name) == Get(b, name)
  {
    assert name in a <==> name in a - {but};
    assert name in b <==> name in b - {but};
    if name in a { assert (a - {but})[name] == a[name] && (b - {but})[name] == b[name]; }
  }

  function CommandsIn(value: Option<string>): set<string> {
    if value.Some? && "cmd:" <= value.value then {CommandOf(value.value)} else {}
  }

  /** The commands that are run to resolve credentials, except `gh`. */
  function SecretCommands(cfg: Config, req: Request): set<string> {
    (if req.suppressAnthropic then {} else CommandsIn(cfg.claudeKey))
    + (if req.suppressOpenAi || cfg.chatGptAccount then {} else CommandsIn(cfg.codexKey))
    + (match cfg.github
       case Some(Pat(entries, _)) =>
         if req.repo.Some? && req.repo.value in entries then CommandsIn(Some(entries[req.repo.value])) else {}
       case _ => {})
  }

  /** None of the commands that are run behaves differently in the other environment. This is so
      when no secret is a command and the GitHub mode is not `auto`, whatever the environment. */
  ghost predicate CommandsAgree(cfg: Config, host: Host, req: Request, hostEnv: map<string, string>) {
    && (cfg.github == Some(Auto) ==> host.gh(host.env) == host.gh(hostEnv))
    && forall c | c in SecretCommands(cfg, req) :: host.run(c, host.env) == host.run(c, hostEnv)
  }

  lemma ResolvesAlike(value: string, host: Host, hostEnv: map<string, string>)
    requires forall c | c in CommandsIn(Some(value)) :: host.run(c, host.env) == host.run(c, hostEnv)
    ensures ResolveCmd(value, host) == ResolveCmd(value, host.(env := hostEnv))
  {
    hide Trim;
    if "cmd:" <= value { assert CommandOf(value) in CommandsIn(Some(value)); }
  }

  /** The credentials depend on commands and on the variables of their own names only. */
  lemma CredentialsAlike(cfg: Config, host: Host, req: Request, hostEnv: map<string, string>, name: string)
    requires CommandsAgree(cfg, host, req, hostEnv)
    requires ANTHROPIC !in Suppressed(cfg, req) ==> Get(host.env, ANTHROPIC) == Get(hostEnv, ANTHROPIC)
    requires OPENAI !in Suppressed(cfg, req) ==> Get(host.env, OPENAI) == Get(hostEnv, OPENAI)
    requires Get(host.env, GITHUB) == Get(hostEnv, GITHUB)
    ensures Credential(cfg, host, req, name) == Credential(cfg, host.(env := hostEnv), req, name)
  {
    hide ResolveCmd, CommandsIn;
    var (keys, commands) := (Suppressed(cfg, req), SecretCommands(cfg, req));
    if name == ANTHROPIC && !req.suppressAnthropic && cfg.claudeKey.Some? {
      assert CommandsIn(cfg.claudeKey) <= commands;
      ResolvesAlike(cfg.claudeKey.value, host, hostEnv);
    } else if name == OPENAI && !(req.suppressOpenAi || cfg.chatGptAccount) && cfg.codexKey.Some? {
      assert CommandsIn(cfg.codexKey) <= commands;
      ResolvesAlike(cfg.codexKey.value, host, hostEnv);
    } else if name == GITHUB && cfg.github.Some? && cfg.github.value.Pat? {
      if req.repo.Some? && req.repo.value in cfg.github.value.entries {
        var value := cfg.github.value.entries[req.repo.value];
        assert CommandsIn(Some(value)) <= commands;
        ResolvesAlike(value, host, hostEnv);
      }
    }
  }

  lemma SameCredentialsSameResult(cfg: Config, host: Host, req: Request,
      other: Config, otherHost: Host, but: string)
    requires Suppressed(other, req) == Suppressed(cfg, req) && other.timezone == cfg.timezone
    requires other.claudeForward == cfg.claudeForward && other.codexForward == cfg.codexForward
    requires forall n :: Credential(cfg, host, req, n) == Credential(other, otherHost, req, n)
    requires SameBut(host.env, otherHost.env, but) && SameBut(cfg.guestEnv, other.guestEnv, but)
    requires but in Suppressed(cfg, req) ||
      (but !in cfg.claudeForward && but !in cfg.codexForward && other.guestEnv == cfg.guestEnv)
    ensures Resolvable(cfg, host, req) <==> Resolvable(other, otherHost, req)
    ensures Resolvable(cfg, host, req) ==>
      forall n :: Expected(cfg, host, req, n) == Expected(other, otherHost, req, n)
  {
    CredentialsByName(cfg, host, req);
    hide Credential, Suppressed, SameBut;
    if Resolvable(cfg, host, req) {
      forall n ensures Expected(cfg, host, req, n) == Expected(other, otherHost, req, n) {
        if n != but {
          SameElsewhere(host.env, otherHost.env, but, n);
          SameElsewhere(cfg.guestEnv, other.guestEnv, but, n);
        }
      }
    }
  }

  /** When the Anthropic key is suppressed, neither the configured key, nor a literal of that name,
      nor the variable of that name on the host has any influence on what the guest sees or on
      whether forwarding succeeds, except through a command that reads the variable. */
  lemma AnthropicKeyHasNoInfluence(cfg: Config, host: Host, req: Request,
      key: Option<string>, hostEnv: map<string, string>, guestEnv: map<string, string>)
    requires req.suppressAnthropic && CommandsAgree(cfg, host, req, hostEnv)
    requires SameBut(host.env, hostEnv, ANTHROPIC) && SameBut(cfg.guestEnv, guestEnv, ANTHROPIC)
    ensures
      var other, otherHost := cfg.(claudeKey := key, guestEnv := guestEnv), host.(env := hostEnv);
      && (Resolvable(cfg, host, req) <==> Resolvable(other, otherHost, req))
      && (Resolvable(cfg, host, req) ==>
           forall name :: Expected(cfg, host, req, name) == Expected(other, otherHost, req, name))
  {
    var other, otherHost := cfg.(claudeKey := key, guestEnv := guestEnv), host.(env := hostEnv);
    assert Suppressed(other, req) == Suppressed(cfg, req);
    SameElsewhere(host.env, hostEnv, ANTHROPIC, OPENAI);
    SameElsewhere(host.env, hostEnv, ANTHROPIC, GITHUB);
    hide ProviderKey, GitHubToken, SameBut, CommandsAgree;
    forall name ensures Credential(cfg, host, req, name) == Credential(other, otherHost, req, name) {
      CredentialsAlike(cfg, host, req, hostEnv, name);
    }
    SameCredentialsSameResult(cfg, host, req, other, otherHost, ANTHROPIC);
  }

  /** The same for the OpenAI key, which account login suppresses as well. */
  lemma OpenAiKeyHasNoInfluence(cfg: Config, host: Host, req: Request,
      key: Option<string>, hostEnv: map<string, string>, guestEnv: map<string, string>)
    requires (req.suppressOpenAi || cfg.chatGptAccount) && CommandsAgree(cfg, host, req, hostEnv)
    requires SameBut(host.env, hostEnv, OPENAI) && SameBut(cfg.guestEnv, guestEnv, OPENAI)
    ensures
      var other, otherHost := cfg.(codexKey := key, guestEnv := guestEnv), host.(env := hostEnv);
      && (Resolvable(cfg, host, req) <==> Resolvable(other, otherHost, req))
      && (Resolvable(cfg, host, req) ==>
           forall name :: Expected(cfg, host, req, name) == Expected(other, otherHost, req, name))
  {
    var other, otherHost := cfg.(codexKey := key, guestEnv := guestEnv), host.(env := hostEnv);
    assert Suppressed(other, req) == Suppressed(cfg, req);
    SameElsewhere(host.env, hostEnv, OPENAI, ANTHROPIC);
    SameElsewhere(host.env, hostEnv, OPENAI, GITHUB);
    hide ProviderKey, GitHubToken, SameBut, CommandsAgree;
    forall name ensures Credential(cfg, host, req, name) == Credential(other, otherHost, req, name) {
      CredentialsAlike(cfg, host, req, hostEnv, name);
    }
    SameCredentialsSameResult(cfg, host, req, other, otherHost, OPENAI);
  }

  /** A host variable that is none of the credentials' reaches the guest only if it is named, or
      through a command that reads it. */
  lemma OnlyNamedHostVariables(cfg: Config, host: Host, req: Request, name: string, hostEnv: map<string, string>)
    requires SameBut(host.env, hostEnv, name) && name !in {ANTHROPIC, OPENAI, GITHUB}
    requires name !in cfg.claudeForward && name !in cfg.codexForward
    requires CommandsAgree(cfg, host, req, hostEnv)
    ensures
      var otherHost := host.(env := hostEnv);
      && (Resolvable(cfg, host, req) <==> Resolvable(cfg, otherHost, req))
      && (Resolvable(cfg, host, req) ==>
           forall n :: Expected(cfg, host, req, n) == Expected(cfg, otherHost, req, n))
  {
    var otherHost := host.(env := hostEnv);
    SameElsewhere(host.env, hostEnv, name, ANTHROPIC);
    SameElsewhere(host.env, hostEnv, name, OPENAI);
    SameElsewhere(host.env, hostEnv, name, GITHUB);
    hide ProviderKey, GitHubToken, SameBut, CommandsAgree;
    forall n ensures Credential(cfg, host, req, n) == Credential(cfg, otherHost, req, n) {
      CredentialsAlike(cfg, host, req, hostEnv, n);
    }
    assert SameBut(cfg.guestEnv, cfg.guestEnv, name) by { SameAsItself(cfg.guestEnv, name); }
    SameCredentialsSameResult(cfg, host, req, cfg, otherHost, name);
  }

  lemma SameAsItself(a: map<string, string>, name: string)
    ensures SameBut(a, a, name)
  {
  }

  /** The command is such a way: with the key `cmd:f`, where `f` prints a variable that nothing
      names, the value of that variable is the guest's API key. */
  lemma CommandsReadHostVariables(value: string)
    requires Trim(value) == value != ""
    ensures
      var cfg := Config(Some("cmd:f"), None, false, [], [], map[], false, None, None);
      var host := Host(map["FOO" := value], env => None, (c, env) => Get(env, "FOO"));
      var req := Request(None, false, false);
      Resolvable(cfg, host, req) && Expected(cfg, host, req, ANTHROPIC) == Some(value)
  {
    assert "cmd:f"[4..] == "f" && "f"[..0] == "";
    assert Trim("f") == "f" by { assert TrimStart("f") == "f" && TrimEnd("f") == "f"; }
    assert CommandOf("cmd:f") == "f";
  }
}
