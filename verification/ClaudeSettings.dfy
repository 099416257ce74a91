/** The managed part of the guest's `~/.claude/settings.json` (`src/backend.rs`). */
module ClaudeSettings {
  import opened Wrappers

  datatype Json =
    | Null
    | Bool(value: bool)
    | Number(repr: string)
    | Str(text: string)
    | Array(items: seq<Json>)
    | Object(fields: map<string, Json>)

  /** What a read of the file yields. An absent file reads as blank. */
  datatype Body = Blank | Malformed | Document(root: Json)

  function Get(fields: map<string, Json>, key: string): Option<Json> {
    if key in fields then Some(fields[key]) else None
  }

  /** A body that can be merged into, rather than replaced. */
  predicate Usable(body: Body) {
    match body
    case Blank => true
    case Malformed => false
    case Document(root) => root.Object? && ("permissions" in root.fields ==> root.fields["permissions"].Object?)
  }

  function FieldsOf(body: Body): map<string, Json> {
    if body.Document? && body.root.Object? then body.root.fields else map[]
  }

  function PermissionsOf(fields: map<string, Json>): map<string, Json> {
    if "permissions" in fields && fields["permissions"].Object? then fields["permissions"].fields else map[]
  }

  function EnvBlock(env: map<string, string>): Json {
    Object(map name | name in env :: Str(env[name]))
  }

  const DEFAULT_MODE := "defaultMode"
  const SKIP_PROMPT := "skipDangerousModePermissionPrompt"

  // ---------------------------------------------------------------- what a merge is

  ghost predicate UnmanagedAgree(before: map<string, Json>, after: map<string, Json>) {
    forall key | key != "permissions" && key != "env" :: Get(after, key) == Get(before, key)
  }

  ghost predicate PermissionsMerged(before: map<string, Json>, after: map<string, Json>) {
    && Get(after, DEFAULT_MODE) == Some(Str("bypassPermissions"))
    && Get(after, SKIP_PROMPT) == Some(Bool(true))
    && forall key | key != DEFAULT_MODE && key != SKIP_PROMPT :: Get(after, key) == Get(before, key)
  }

  /** Only the two permission keys and the `env` block are coop's; `env` is exactly the given
      block, and absent when that is empty. */
  ghost predicate IsMergeOf(before: map<string, Json>, env: map<string, string>, after: map<string, Json>) {
    && UnmanagedAgree(before, after)
    && "permissions" in after && after["permissions"].Object?
    && PermissionsMerged(PermissionsOf(before), PermissionsOf(after))
    && Get(after, "env") == if env == map[] then None else Some(EnvBlock(env))
  }

  /** `merge_managed_claude_settings`, editing the parsed tree; `None` is an error. */
  method MergeManaged(existing: Body, env: map<string, string>) returns (r: Option<Json>)
    ensures r.Some? <==> Usable(existing)
    ensures r.Some? ==> r.value.Object? && IsMergeOf(FieldsOf(existing), env, r.value.fields)
  {
    var root: Json;
    match existing {
      case Blank => root := Object(map[]);
      case Malformed => return None;
      case Document(parsed) => root := parsed;
    }
    if !root.Object? {
      return None;
    }
    if "permissions" !in root.fields {
      root := Object(root.fields["permissions" := Object(map[])]);
    }
    var permissions := root.fields["permissions"];
    if !permissions.Object? {
      return None;
    }
    permissions := Object(permissions.fields[DEFAULT_MODE := Str("bypassPermissions")]);
    permissions := Object(permissions.fields[SKIP_PROMPT := Bool(true)]);
    root := Object(root.fields["permissions" := permissions]);
    if env == map[] {
      root := Object(root.fields - {"env"});
    } else {
      root := Object(root.fields["env" := EnvBlock(env)]);
    }
    return Some(root);
  }

  /** The specification leaves no choice. */
  lemma MergeIsUnique(before: map<string, Json>, env: map<string, string>, a: map<string, Json>, b: map<string, Json>)
    requires IsMergeOf(before, env, a) && IsMergeOf(before, env, b)
    ensures a == b
  {
    SameEntries(PermissionsOf(a), PermissionsOf(b));
    SameEntries(a, b);
  }

  lemma SameEntries(a: map<string, Json>, b: map<string, Json>)
    requires forall key :: Get(a, key) == Get(b, key)
    ensures a == b
  {
    assert forall key :: (key in a <==> Get(a, key).Some?) && (key in b <==> Get(b, key).Some?);
    assert forall key | key in a :: a[key] == Get(a, key).value;
  }

  /** A later merge absorbs an earlier one: only its `env` block is left. */
  lemma MergeAbsorbs(a: map<string, Json>, env: map<string, string>, b: map<string, Json>,
      later: map<string, string>, c: map<string, Json>)
    requires IsMergeOf(a, env, b) && IsMergeOf(b, later, c)
    ensures IsMergeOf(a, later, c)
  {
  }

  // ---------------------------------------------------------------- one boot

  datatype Boot = Boot(env: map<string, string>, readOk: bool, writeOk: bool)

  /** `managed_claude_settings_json` */
  function ManagedDefaults(env: map<string, string>): Json {
    var permissions := Object(map[DEFAULT_MODE := Str("bypassPermissions"), SKIP_PROMPT := Bool(true)]);
    var settings := map["permissions" := permissions];
    Object(if env == map[] then settings else settings["env" := EnvBlock(env)])
  }

  lemma DefaultsAreAMerge(env: map<string, string>)
    ensures IsMergeOf(map[], env, ManagedDefaults(env).fields)
  {
    assert PermissionsOf(map[]) == map[];
  }

  /** The fields that a boot starts from: those of the file, or none when it cannot be used. */
  function Kept(before: Body, boot: Boot): map<string, Json> {
    if boot.readOk && Usable(before) then FieldsOf(before) else map[]
  }

  ghost predicate Step(before: Body, boot: Boot, after: Body) {
    if boot.writeOk
    then after.Document? && after.root.Object? && IsMergeOf(Kept(before, boot), boot.env, after.root.fields)
    else after == before
  }

  /** `write_managed_claude_settings`: the guest's file afterwards. */
  method WriteManagedSettings(before: Body, boot: Boot) returns (after: Body)
    ensures Step(before, boot, after)
  {
    var merged: Option<Json> := None;
    if boot.readOk {
      merged := MergeManaged(before, boot.env);
    }
    if merged.None? {
      DefaultsAreAMerge(boot.env);
      merged := Some(ManagedDefaults(boot.env));
    }
    if !boot.writeOk {
      return before;
    }
    return Document(merged.value);
  }

  /** A successful boot keeps the unmanaged keys exactly when the file could be read and used, or
      had none. */
  lemma KeepsUnmanaged(before: Body, boot: Boot, after: Body)
    requires boot.writeOk && Step(before, boot, after)
    ensures UnmanagedAgree(FieldsOf(before), FieldsOf(after)) <==>
      (boot.readOk && Usable(before)) || UnmanagedAgree(FieldsOf(before), map[])
  {
    if !(boot.readOk && Usable(before)) {
      assert forall key | key != "permissions" && key != "env" :: Get(FieldsOf(after), key) == None;
    }
  }

  /** A failed read loses the list of plugins of a file that could have been used. */
  lemma FailedReadLosesPlugins(after: Body)
    requires Step(Document(Object(map["enabledPlugins" := Bool(true)])), Boot(map[], false, true), after)
    ensures Usable(Document(Object(map["enabledPlugins" := Bool(true)])))
    ensures Get(FieldsOf(after), "enabledPlugins") == None
  {
    assert UnmanagedAgree(map[], FieldsOf(after));
  }

  // ---------------------------------------------------------------- any number of boots

  ghost predicate IsRun(trace: seq<Body>, boots: seq<Boot>) {
    && |trace| == |boots| + 1
    && forall i | 0 <= i < |boots| :: Step(trace[i], boots[i], trace[i + 1])
  }

  /** Over any number of boots whose reads succeed, the file is what a single merge into the first
      one would have written with the last environment. */
  lemma {:induction false} RunIsOneMerge(trace: seq<Body>, boots: seq<Boot>)
    requires IsRun(trace, boots) && boots != [] && Usable(trace[0])
    requires forall boot | boot in boots :: boot.readOk && boot.writeOk
    ensures Usable(trace[|boots|]) && trace[|boots|].Document?
    ensures IsMergeOf(FieldsOf(trace[0]), boots[|boots| - 1].env, FieldsOf(trace[|boots|]))
  {
    var n := |boots| - 1;
    assert boots[n] in boots;
    if n > 0 {
      RunIsOneMerge(trace[..n + 1], boots[..n]);
      MergeAbsorbs(FieldsOf(trace[0]), boots[n - 1].env, FieldsOf(trace[n]), boots[n].env, FieldsOf(trace[n + 1]));
    }
  }

  /** Whatever failed before, after a successful write the managed keys are coop's. */
  lemma {:induction false} ManagedAfterRun(trace: seq<Body>, boots: seq<Boot>, last: nat)
    requires IsRun(trace, boots) && last < |boots| && boots[last].writeOk
    requires forall i | last < i < |boots| :: !boots[i].writeOk
    ensures Usable(trace[|boots|])
    ensures
      var fields := FieldsOf(trace[|boots|]);
      && Get(PermissionsOf(fields), "defaultMode") == Some(Str("bypassPermissions"))
      && Get(PermissionsOf(fields), "skipDangerousModePermissionPrompt") == Some(Bool(true))
      && (boots[last].env == map[] ==> "env" !in fields)
      && (boots[last].env != map[] ==>
            && "env" in fields && fields["env"].Object?
            && fields["env"].fields.Keys == boots[last].env.Keys
            && forall name | name in boots[last].env :: fields["env"].fields[name] == Str(boots[last].env[name]))
  {
    var n := |boots| - 1;
    if last < n {
      assert trace[n + 1] == trace[n];
      ManagedAfterRun(trace[..n + 1], boots[..n], last);
    }
  }
}
