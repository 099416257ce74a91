/** Translation of a `devcontainer.json` (`src/devcontainer.rs`): the environment, the port
    forwards and the remote user. */
module Devcontainer {
  import opened Wrappers
  import opened Forwards
  import opened RepoSlug

  datatype Stage = Setup | Start

  datatype Status = Applied | Overridden | Unsupported | Invalid

  datatype Row = Row(key: string, status: Status)

  /** The keys of the file that matter here. An entry of `forwardPorts` that does not parse is
      `None`. */
  datatype File = File(
    containerEnv: Option<map<string, string>>,
    forwardPorts: Option<seq<Option<PortForward>>>,
    remoteUser: Option<string>)

  datatype Inputs = Inputs(
    cliEnvKeys: set<string>,
    cliForwards: seq<PortForward>,
    cliUser: Option<string>,
    persistedUser: Option<string>)

  const DEFAULT_USER := "ubuntu"

  /** `EnvVarName::new` accepts the name. */
  predicate IsEnvVarName(name: string) {
    && name != ""
    && (IsLetter(name[0]) || name[0] == '_')
    && forall c | c in name :: IsLetter(c) || '0' <= c <= '9' || c == '_'
  }

  predicate IsLetter(c: char) {
    'a' <= c <= 'z' || 'A' <= c <= 'Z'
  }

  /** `GuestUser::new` accepts the name. */
  predicate IsGuestUser(name: string) {
    && 1 <= |name| <= 32 && name != "root"
    && ('a' <= name[0] <= 'z' || name[0] == '_')
    && forall c | c in name :: 'a' <= c <= 'z' || '0' <= c <= '9' || c == '_' || c == '-'
  }

  /** `remote_user_mismatch` */
  predicate RemoteUserMismatch(file: File, inputs: Inputs) {
    match file.remoteUser
    case None => false
    case Some(user) =>
      IsGuestUser(user) && user != (if inputs.persistedUser.Some? then inputs.persistedUser.value else DEFAULT_USER)
  }

  /** What of `containerEnv` is forwarded when nothing forbids it. */
  function ForwardedEnv(env: map<string, string>, cliKeys: set<string>): map<string, string> {
    map k | k in env && IsEnvVarName(k) && k !in cliKeys :: env[k]
  }

  function Parsed(ports: seq<Option<PortForward>>): seq<PortForward> {
    if ports == [] then []
    else
      var last := ports[|ports| - 1];
      Parsed(ports[..|ports| - 1]) + (if last.Some? then [last.value] else [])
  }

  function WithRow(report: seq<Row>, condition: bool, row: Row): seq<Row> {
    if condition then report + [row] else report
  }

  function AppliedKeys(env: map<string, string>, cliKeys: set<string>): set<string> {
    set k | k in env && IsEnvVarName(k) && k !in cliKeys
  }

  function OverriddenKeys(env: map<string, string>, cliKeys: set<string>): set<string> {
    set k | k in env && IsEnvVarName(k) && k in cliKeys
  }

  function InvalidKeys(env: map<string, string>): set<string> {
    set k | k in env && !IsEnvVarName(k)
  }

  function EnvReport(report: seq<Row>, env: map<string, string>, cliKeys: set<string>): seq<Row> {
    var applied := WithRow(report, AppliedKeys(env, cliKeys) != {}, Row("containerEnv", Applied));
    var overridden := WithRow(applied, OverriddenKeys(env, cliKeys) != {}, Row("containerEnv", Overridden));
    WithRow(overridden, InvalidKeys(env) != {}, Row("containerEnv", Invalid))
  }

  /** One row for every entry that does not parse. */
  function InvalidPorts(report: seq<Row>, ports: seq<Option<PortForward>>): seq<Row> {
    if ports == [] then report
    else
      WithRow(InvalidPorts(report, ports[..|ports| - 1]), ports[|ports| - 1].None?, Row("forwardPorts", Invalid))
  }

  function PortReport(report: seq<Row>, ports: seq<Option<PortForward>>, cli: set<nat>): seq<Row> {
    var kept, parsed := |NotNamed(Parsed(ports), cli)|, |Parsed(ports)|;
    var applied := WithRow(InvalidPorts(report, ports), kept != 0, Row("forwardPorts", Applied));
    WithRow(applied, kept != parsed, Row("forwardPorts", Overridden))
  }

  /** The row about `remoteUser`. */
  function UserRow(user: string, inputs: Inputs, stage: Stage): Row {
    Row("remoteUser",
      if !IsGuestUser(user) then Invalid
      else
        match stage
        case Setup => if inputs.cliUser.Some? then Overridden else Applied
        case Start =>
          match inputs.persistedUser
          case Some(persisted) => if persisted == user then Applied else Unsupported
          case None => if user == DEFAULT_USER then Applied else Unsupported)
  }

  /** The values to push into the configuration, and the report. */
  class Translation {
    var guestEnv: map<string, string>
    var forwardPorts: seq<PortForward>
    var guestUser: Option<string>
    var report: seq<Row>

    constructor ()
      ensures guestEnv == map[] && forwardPorts == [] && guestUser == None && report == []
    {
      guestEnv, forwardPorts, guestUser, report := map[], [], None, [];
    }

    /** `translate_container_env` */
    method TranslateContainerEnv(env: map<string, string>, inputs: Inputs, stage: Stage)
      modifies this`guestEnv, this`report
      ensures guestEnv == old(guestEnv) + (if stage.Setup? then map[] else ForwardedEnv(env, inputs.cliEnvKeys))
      ensures report ==
        if env == map[] then old(report)
        else if stage.Setup? then old(report) + [Row("containerEnv", Applied)]
        else EnvReport(old(report), env, inputs.cliEnvKeys)
    {
      if env == map[] {
        return;
      }
      if stage.Setup? {
        report := report + [Row("containerEnv", Applied)];
        return;
      }
      var cliKeys := inputs.cliEnvKeys;
      var applied, overridden, invalid := {}, {}, {};
      ghost var done: map<string, string> := map[];
      var pending := env.Keys;
      while pending != {}
        invariant pending <= env.Keys && done == env - pending
        invariant guestEnv == old(guestEnv) + ForwardedEnv(done, cliKeys)
        invariant applied == AppliedKeys(done, cliKeys)
        invariant overridden == OverriddenKeys(done, cliKeys)
        invariant invalid == InvalidKeys(done)
        invariant report == old(report)
      {
        var k :| k in pending;
        EnvOneMore(done, cliKeys, k, env[k]);
        if !IsEnvVarName(k) {
          invalid := invalid + {k};
        } else if k in cliKeys {
          overridden := overridden + {k};
        } else {
          MapOneMore(old(guestEnv), ForwardedEnv(done, cliKeys), k, env[k]);
          guestEnv := guestEnv[k := env[k]];
          applied := applied + {k};
        }
        pending := pending - {k};
        done := done[k := env[k]];
      }
      assert env - {} == env;
      if applied != {} {
        report := report + [Row("containerEnv", Applied)];
      }
      if overridden != {} {
        report := report + [Row("containerEnv", Overridden)];
      }
      if invalid != {} {
        report := report + [Row("containerEnv", Invalid)];
      }
    }

    /** `translate_forward_ports` */
    method TranslateForwardPorts(ports: seq<Option<PortForward>>, inputs: Inputs, stage: Stage)
      modifies this`forwardPorts, this`report
      ensures forwardPorts == old(forwardPorts)
        + (if stage.Setup? then [] else NotNamed(Parsed(ports), Guests(inputs.cliForwards)))
      ensures report ==
        if ports == [] then old(report)
        else if stage.Setup? then old(report) + [Row("forwardPorts", Applied)]
        else PortReport(old(report), ports, Guests(inputs.cliForwards))
    {
      if ports == [] {
        return;
      }
      if stage.Setup? {
        report := report + [Row("forwardPorts", Applied)];
        return;
      }
      hide NotNamed, Parsed, InvalidPorts, Guests;
      NoPorts(report, Guests(inputs.cliForwards));
      var cli := Guests(inputs.cliForwards);
      var applied, overridden := 0, 0;
      for i := 0 to |ports|
        invariant forwardPorts == old(forwardPorts) + NotNamed(Parsed(ports[..i]), cli)
        invariant applied == |NotNamed(Parsed(ports[..i]), cli)|
        invariant applied + overridden == |Parsed(ports[..i])|
        invariant report == InvalidPorts(old(report), ports[..i])
      {
        PortsOneMore(old(report), ports[..i], ports[i], cli);
        assert ports[..i + 1] == ports[..i] + [ports[i]];
        if ports[i].Some? {
          var pf := ports[i].value;
          if pf.guest in cli {
            overridden := overridden + 1;
          } else {
            AppendOne(old(forwardPorts), NotNamed(Parsed(ports[..i]), cli), pf);
            applied := applied + 1;
            forwardPorts := forwardPorts + [pf];
          }
        } else {
          report := report + [Row("forwardPorts", Invalid)];
        }
      }
      assert ports[..|ports|] == ports;
      if applied != 0 {
        report := report + [Row("forwardPorts", Applied)];
      }
      if overridden != 0 {
        report := report + [Row("forwardPorts", Overridden)];
      }
    }

    /** `translate_remote_user` */
    method TranslateRemoteUser(user: string, inputs: Inputs, stage: Stage)
      modifies this`guestUser, this`report
      ensures guestUser ==
        if IsGuestUser(user) && stage.Setup? && inputs.cliUser.None? then Some(user) else old(guestUser)
      ensures report == old(report) + [UserRow(user, inputs, stage)]
    {
      if !IsGuestUser(user) {
        report := report + [Row("remoteUser", Invalid)];
        return;
      }
      match stage {
        case Setup =>
          if inputs.cliUser.Some? {
            report := report + [Row("remoteUser", Overridden)];
          } else {
            guestUser := Some(user);
            report := report + [Row("remoteUser", Applied)];
          }
        case Start =>
          match inputs.persistedUser {
            case Some(persisted) =>
              report := report + [Row("remoteUser", if persisted == user then Applied else Unsupported)];
            case None =>
              report := report + [Row("remoteUser", if user == DEFAULT_USER then Applied else Unsupported)];
          }
      }
    }

    /** `translate`. The two places that judge the remote user agree: at start, `containerEnv` is
        reported as skipped exactly when `remoteUser` is reported as unsupported, and then none of
        it is forwarded. Nothing reaches the session at setup, and no user is chosen at start. */
    method Translate(file: File, inputs: Inputs, stage: Stage)
      requires guestEnv == map[] && forwardPorts == [] && guestUser == None && report == []
      modifies this
      ensures stage.Setup? ==> guestEnv == map[] && forwardPorts == []
      ensures guestUser ==
        if stage.Setup? && file.remoteUser.Some? && IsGuestUser(file.remoteUser.value) && inputs.cliUser.None?
        then file.remoteUser
        else None
      ensures stage.Start? && file.containerEnv.Some? ==>
        (Row("containerEnv", Unsupported) in report <==> Row("remoteUser", Unsupported) in report)
      ensures Row("remoteUser", Unsupported) in report <==>
        && stage.Start? && file.remoteUser.Some? && IsGuestUser(file.remoteUser.value)
        && file.remoteUser != (if inputs.persistedUser == None then Some("ubuntu") else inputs.persistedUser)
      ensures stage.Start? && Row("remoteUser", Unsupported) in report ==> guestEnv == map[]
      ensures stage.Start? && Row("remoteUser", Unsupported) !in report ==>
        guestEnv == if file.containerEnv.Some? then ForwardedEnv(file.containerEnv.value, inputs.cliEnvKeys) else map[]
      ensures stage.Start? ==> forwardPorts == NotNamed(EntriesOf(file), Guests(inputs.cliForwards))
    {
      hide NotNamed, Parsed, IsGuestUser, ForwardedEnv, EnvReport, PortReport;
      if file.containerEnv.Some? {
        if stage.Start? && RemoteUserMismatch(file, inputs) {
          report := report + [Row("containerEnv", Unsupported)];
        } else {
          TranslateContainerEnv(file.containerEnv.value, inputs, stage);
          EnvReportMembers([], file.containerEnv.value, inputs.cliEnvKeys);
        }
      }
      ghost var afterEnv := report;
      NoPorts(report, Guests(inputs.cliForwards));
      if file.forwardPorts.Some? {
        TranslateForwardPorts(file.forwardPorts.value, inputs, stage);
        PortReportMembers(afterEnv, file.forwardPorts.value, Guests(inputs.cliForwards));
      }
      if file.remoteUser.Some? {
        TranslateRemoteUser(file.remoteUser.value, inputs, stage);
      }
    }
  }

  /** The `forwardPorts` entries that parse, if there are any. */
  function EntriesOf(file: File): seq<PortForward> {
    if file.forwardPorts.Some? then Parsed(file.forwardPorts.value) else []
  }

  lemma EnvOneMore(env: map<string, string>, cliKeys: set<string>, k: string, value: string)
    requires k !in env
    ensures
      var more := env[k := value];
      var valid := IsEnvVarName(k);
      && ForwardedEnv(more, cliKeys) ==
           (if valid && k !in cliKeys then ForwardedEnv(env, cliKeys)[k := value] else ForwardedEnv(env, cliKeys))
      && AppliedKeys(more, cliKeys) == AppliedKeys(env, cliKeys) + (if valid && k !in cliKeys then {k} else {})
      && OverriddenKeys(more, cliKeys) == OverriddenKeys(env, cliKeys) + (if valid && k in cliKeys then {k} else {})
      && InvalidKeys(more) == InvalidKeys(env) + (if valid then {} else {k})
  {
    hide IsEnvVarName;
  }

  lemma MapOneMore(a: map<string, string>, b: map<string, string>, k: string, value: string)
    ensures (a + b)[k := value] == a + b[k := value]
  {
  }

  lemma AppendOne(a: seq<PortForward>, b: seq<PortForward>, f: PortForward)
    ensures (a + b) + [f] == a + (b + [f])
  {
  }

  lemma NoPorts(report: seq<Row>, cli: set<nat>)
    ensures InvalidPorts(report, []) == report && Parsed([]) == [] && NotNamed([], cli) == []
  {
  }

  lemma PortsOneMore(report: seq<Row>, ports: seq<Option<PortForward>>, entry: Option<PortForward>, cli: set<nat>)
    ensures
      var more := ports + [entry];
      && InvalidPorts(report, more) == WithRow(InvalidPorts(report, ports), entry.None?, Row("forwardPorts", Invalid))
      && Parsed(more) == Parsed(ports) + (if entry.Some? then [entry.value] else [])
      && NotNamed(Parsed(more), cli) == NotNamed(Parsed(ports), cli)
           + (if entry.Some? && entry.value.guest !in cli then [entry.value] else [])
  {
    assert (ports + [entry])[..|ports|] == ports;
    if entry.Some? {
      NotNamedOneMore(Parsed(ports), entry.value, cli);
    } else {
      assert Parsed(ports) + [] == Parsed(ports);
    }
  }

  /** Nothing is reported as unsupported here. */
  lemma EnvReportMembers(report: seq<Row>, env: map<string, string>, cliKeys: set<string>)
    ensures forall row: Row | row.status == Unsupported :: row in EnvReport(report, env, cliKeys) <==> row in report
  {
    hide AppliedKeys, OverriddenKeys, InvalidKeys;
  }

  /** Nor here. */
  lemma PortReportMembers(report: seq<Row>, ports: seq<Option<PortForward>>, cli: set<nat>)
    ensures forall row: Row | row.status == Unsupported :: row in PortReport(report, ports, cli) <==> row in report
  {
    hide NotNamed, Parsed;
    InvalidPortsMembers(report, ports);
  }

  lemma {:induction false} InvalidPortsMembers(report: seq<Row>, ports: seq<Option<PortForward>>)
    ensures forall row: Row | row.status == Unsupported :: row in InvalidPorts(report, ports) <==> row in report
  {
    if ports != [] { InvalidPortsMembers(report, ports[..|ports| - 1]); }
  }

  /** Leaving out the variables the CLI sets, before the tiers are laid over one another, changes
      neither the persisted set nor the resulting environment. */
  lemma DroppingOverriddenEnv(config: map<string, string>, env: map<string, string>, cli: map<string, string>)
    ensures
      var dropped, whole := ForwardedEnv(env, cli.Keys), ForwardedEnv(env, {});
      dropped + cli == whole + cli && (config + dropped) + (dropped + cli) == (config + whole) + (whole + cli)
  {
  }

  // ---------------------------------------------------------------- what is accepted, and what is reported

  lemma LetterExactly(c: char)
    ensures IsLetter(c) <==> c in LOWER || c in UPPER
  {
    LettersBetween(c);
  }

  /** Variable names are letters, digits and underscores, and do not start with a digit. */
  lemma EnvVarNameExactly(name: string)
    ensures IsEnvVarName(name) <==>
      && name != "" && name[0] !in "0123456789"
      && forall c | c in name :: c in LOWER || c in UPPER || c in "0123456789" || c == '_'
  {
    forall c: char
      ensures IsLetter(c) <==> c in LOWER || c in UPPER
      ensures '0' <= c <= '9' <==> c in "0123456789"
      ensures !(c in LOWER && '0' <= c <= '9') && !(c in UPPER && '0' <= c <= '9')
    {
      LettersBetween(c);
      DigitsBetween(c);
    }
    if name != "" { assert name[0] in name; }
    hide LOWER, UPPER, IsLetter;
  }

  /** User names are at most 32 lower-case letters, digits, underscores and dashes, start with a
      letter or an underscore, and are not `root`. */
  lemma GuestUserExactly(name: string)
    ensures IsGuestUser(name) <==>
      && 1 <= |name| <= 32 && name != "root"
      && name[0] !in "0123456789-"
      && forall c | c in name :: c in LOWER || c in "0123456789" || c == '_' || c == '-'
  {
    forall c: char
      ensures 'a' <= c <= 'z' <==> c in LOWER
      ensures '0' <= c <= '9' <==> c in "0123456789"
      ensures c in "0123456789-" <==> c in "0123456789" || c == '-'
    {
      LettersBetween(c);
      DigitsBetween(c);
      if c in "0123456789" {
        var i :| 0 <= i < 10 && "0123456789"[i] == c;
        assert "0123456789-"[i] == c;
      }
    }
    if name != "" { assert name[0] in name; }
    hide LOWER;
  }

  /** A variable is forwarded exactly when its name is valid and the CLI does not set it, with its
      value; the report has a row for each kind of variable that occurs, and no other. */
  lemma EnvRows(env: map<string, string>, cliKeys: set<string>)
    ensures forall k :: k in ForwardedEnv(env, cliKeys) <==> k in env && IsEnvVarName(k) && k !in cliKeys
    ensures forall k | k in ForwardedEnv(env, cliKeys) :: ForwardedEnv(env, cliKeys)[k] == env[k]
    ensures Row("containerEnv", Applied) in EnvReport([], env, cliKeys) <==>
      exists k :: k in env && IsEnvVarName(k) && k !in cliKeys
    ensures Row("containerEnv", Overridden) in EnvReport([], env, cliKeys) <==>
      exists k :: k in env && IsEnvVarName(k) && k in cliKeys
    ensures Row("containerEnv", Invalid) in EnvReport([], env, cliKeys) <==>
      exists k :: k in env && !IsEnvVarName(k)
    ensures forall row | row in EnvReport([], env, cliKeys) :: row.key == "containerEnv" && row.status != Unsupported
  {
    hide IsEnvVarName;
    if k :| k in env && IsEnvVarName(k) && k !in cliKeys { assert k in AppliedKeys(env, cliKeys); }
    if k :| k in env && IsEnvVarName(k) && k in cliKeys { assert k in OverriddenKeys(env, cliKeys); }
    if k :| k in env && !IsEnvVarName(k) { assert k in InvalidKeys(env); }
    if AppliedKeys(env, cliKeys) != {} { var k :| k in AppliedKeys(env, cliKeys); }
    if OverriddenKeys(env, cliKeys) != {} { var k :| k in OverriddenKeys(env, cliKeys); }
    if InvalidKeys(env) != {} { var k :| k in InvalidKeys(env); }
  }

  /** The same for the ports. */
  lemma PortRows(ports: seq<Option<PortForward>>, cli: set<nat>)
    ensures forall f :: f in NotNamed(Parsed(ports), cli) <==> Some(f) in ports && f.guest !in cli
    ensures Row("forwardPorts", Applied) in PortReport([], ports, cli) <==>
      exists f :: Some(f) in ports && f.guest !in cli
    ensures Row("forwardPorts", Overridden) in PortReport([], ports, cli) <==>
      exists f :: Some(f) in ports && f.guest in cli
    ensures Row("forwardPorts", Invalid) in PortReport([], ports, cli) <==> None in ports
  {
    PortsKept(ports, cli);
    InvalidPortRows(ports);
    hide NotNamed, Parsed, InvalidPorts;
    var kept := NotNamed(Parsed(ports), cli);
    if kept != [] { assert Some(kept[0]) in ports by { assert kept[0] in kept; } }
  }

  lemma {:induction false} PortsKept(ports: seq<Option<PortForward>>, cli: set<nat>)
    ensures forall f :: f in NotNamed(Parsed(ports), cli) <==> Some(f) in ports && f.guest !in cli
    ensures |NotNamed(Parsed(ports), cli)| != |Parsed(ports)| <==> exists f :: Some(f) in ports && f.guest in cli
    ensures |NotNamed(Parsed(ports), cli)| <= |Parsed(ports)|
  {
    if ports == [] {
      NoPorts([], cli);
    } else {
      var (front, last) := (ports[..|ports| - 1], ports[|ports| - 1]);
      PortsKept(front, cli);
      PortsOneMore([], front, last, cli);
      assert ports == front + [last];
      hide NotNamed, Parsed;
    }
  }

  lemma {:induction false} InvalidPortRows(ports: seq<Option<PortForward>>)
    ensures Row("forwardPorts", Invalid) in InvalidPorts([], ports) <==> None in ports
    ensures forall row | row in InvalidPorts([], ports) :: row == Row("forwardPorts", Invalid)
  {
    if ports != [] {
      InvalidPortRows(ports[..|ports| - 1]);
      assert ports == ports[..|ports| - 1] + [ports[|ports| - 1]];
    }
  }

  /** At start a valid user is reported as applied exactly when it is the user of the template, or
      `ubuntu` when none is recorded; at setup, exactly when the CLI names none. */
  lemma UserRows(user: string, inputs: Inputs)
    ensures UserRow(user, inputs, Start) == Row("remoteUser", Applied) <==>
      IsGuestUser(user) && (inputs.persistedUser == Some(user) || (inputs.persistedUser == None && user == "ubuntu"))
    ensures UserRow(user, inputs, Setup) == Row("remoteUser", Applied) <==> IsGuestUser(user) && inputs.cliUser == None
    ensures forall stage :: UserRow(user, inputs, stage) == Row("remoteUser", Invalid) <==> !IsGuestUser(user)
    ensures UserRow(user, inputs, Setup).status != Unsupported && UserRow(user, inputs, Start).status != Overridden
  {
    hide IsGuestUser;
  }
}
