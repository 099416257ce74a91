/** What edits of the `[github]` table mean: a refinement of operations on an entry map and a skip
    set, what the deserializer makes of the result, and whether the user is asked again. */
module PatReload {
  import opened Wrappers
  import opened RepoSlug
  import opened TomlValue
  import opened PatConfig

  // ---------------------------------------------------------------- the abstract state

  /** Taken from the raw document, whatever `mode` says: entries hidden under another mode come
      back when an edit sets `mode = "pat"`. */
  datatype Abstract = Abstract(entries: map<string, Toml>, skips: set<string>)

  function Texts(items: seq<Toml>): set<string> {
    set item | item in items && item.Text? :: item.text
  }

  function Abs(doc: Doc): Abstract {
    var github := TableOf(doc, "github");
    Abstract(TableOf(github, "pat"), Texts(ItemsOf(github, "skip")))
  }

  function AbsEdited(a: Abstract, edit: Edit): Abstract {
    match edit
    case Upsert(repo, token) => Abstract(a.entries[repo := Entry(token)], a.skips - {repo})
    case Remove(repo) => Abstract(a.entries - {repo}, a.skips)
    case AddSkip(repo) => Abstract(a.entries, a.skips + {repo})
  }

  function AbsEditedAll(a: Abstract, edits: seq<Edit>): Abstract {
    if edits == [] then a else AbsEdited(AbsEditedAll(a, edits[..|edits| - 1]), edits[|edits| - 1])
  }

  lemma {:induction false} TextsWithout(items: seq<Toml>, repo: string)
    ensures Texts(Without(items, repo)) == Texts(items) - {repo}
    ensures forall item :: item in Without(items, repo) <==> item in items && item != Text(repo)
  {
    if items != [] {
      TextsWithout(items[1..], repo);
      assert items == [items[0]] + items[1..];
    }
  }

  /** The edits of the tree refine the operations on the abstract state. */
  lemma EditRefines(doc: Doc, edit: Edit)
    ensures Abs(Edited(doc, edit)) == AbsEdited(Abs(doc), edit)
  {
    var github := TableOf(doc, "github");
    match edit
    case Upsert(repo, token) =>
      TextsWithout(ItemsOf(github, "skip"), repo);
      assert Texts(ItemsOf(TableOf(Upserted(doc, repo, token), "github"), "skip")) == Texts(ItemsOf(github, "skip")) - {repo};
    case Remove(repo) =>
    case AddSkip(repo) =>
      var items := ItemsOf(github, "skip");
      if Text(repo) in items {
        assert repo in Texts(items);
        assert Texts(items) == Texts(items) + {repo};
      } else {
        assert Text(repo) in items + [Text(repo)];
        assert Texts(items + [Text(repo)]) == Texts(items) + {repo};
      }
  }

  function OtherItems(items: seq<Toml>): seq<Toml> {
    if items == [] then []
    else (if items[0].Text? then [] else [items[0]]) + OtherItems(items[1..])
  }

  lemma {:induction false} OtherItemsWithout(items: seq<Toml>, repo: string)
    ensures OtherItems(Without(items, repo)) == OtherItems(items)
  {
    if items != [] {
      OtherItemsWithout(items[1..], repo);
      if items[0] != Text(repo) {
        assert Without(items, repo)[1..] == Without(items[1..], repo);
      } else {
        assert Without(items, repo) == Without(items[1..], repo);
      }
    }
  }

  lemma {:induction false} OtherItemsAppend(items: seq<Toml>, repo: string)
    ensures OtherItems(items + [Text(repo)]) == OtherItems(items)
  {
    if items == [] {
      assert [] + [Text(repo)] == [Text(repo)];
    } else {
      OtherItemsAppend(items[1..], repo);
      assert (items + [Text(repo)])[1..] == items[1..] + [Text(repo)];
    }
  }

  /** What edits leave alone: every other root key, every other key of the table, and what the
      skip list holds besides repositories; a removal also leaves the mode and the skip list. */
  lemma EditFrame(doc: Doc, edit: Edit)
    ensures Edited(doc, edit) - {"github"} == doc - {"github"}
    ensures
      var before, after := TableOf(doc, "github"), TableOf(Edited(doc, edit), "github");
      && after - {"mode", "pat", "skip"} == before - {"mode", "pat", "skip"}
      && OtherItems(ItemsOf(after, "skip")) == OtherItems(ItemsOf(before, "skip"))
      && (edit.Remove? ==> after - {"pat"} == before - {"pat"})
      && (!edit.Remove? ==> "mode" in after && after["mode"] == Text("pat"))
  {
    var before, after := TableOf(doc, "github"), TableOf(Edited(doc, edit), "github");
    var items := ItemsOf(before, "skip");
    match edit
    case Upsert(repo, _) =>
      OtherItemsWithout(items, repo);
      assert after - {"mode", "pat", "skip"} == before - {"mode", "pat", "skip"};
    case Remove(repo) =>
      assert after - {"pat"} == before - {"pat"};
      assert after - {"mode", "pat", "skip"} == before - {"mode", "pat", "skip"};
    case AddSkip(repo) =>
      OtherItemsAppend(items, repo);
      assert after - {"mode", "pat", "skip"} == before - {"mode", "pat", "skip"};
  }

  /** The same over any number of edits of a file. */
  lemma {:induction false} RunRefines(file: File, edits: seq<Edit>)
    requires DocOf(file).Some?
    ensures
      var end := AppliedAll(file, edits);
      && DocOf(end).Some?
      && Abs(DocOf(end).value) == AbsEditedAll(Abs(DocOf(file).value), edits)
      && DocOf(end).value - {"github"} == DocOf(file).value - {"github"}
  {
    if edits != [] {
      var before, edit := AppliedAll(file, edits[..|edits| - 1]), edits[|edits| - 1];
      RunRefines(file, edits[..|edits| - 1]);
      var doc := DocOf(before).value;
      EditRefines(doc, edit);
      EditFrame(doc, edit);
      if !Rewrites(before, edit) && edit.Remove? {
        assert Abs(doc).entries - {edit.repo} == Abs(doc).entries;
      }
    }
  }

  // ---------------------------------------------------------------- permissions

  /** Over any number of edits the bits of an existing file only shrink. */
  lemma {:induction false} ModeNeverGrows(file: File, edits: seq<Edit>)
    requires file.Present?
    ensures
      var end := AppliedAll(file, edits);
      end.Present? && GrantsNoMoreThan(end.mode, file.mode)
  {
    if edits != [] {
      ModeNeverGrows(file, edits[..|edits| - 1]);
    }
  }

  lemma LiteralTokensStayPrivate(file: File, edit: Edit)
    ensures Rewrites(file, edit) ==> KeepsTokensPrivate(Applied(file, edit))
    ensures KeepsTokensPrivate(file) ==> KeepsTokensPrivate(Applied(file, edit))
  {
    if Rewrites(file, edit) {
      var after := Edited(DocOf(file).value, edit);
      if ContainsLiteralToken(after) {
        assert ModeAfterWrite(file, MODE_0600) & GROUP_AND_OTHERS == 0;
      }
    }
  }

  /** Over any number of edits the file either stays as it was or keeps its tokens private. */
  lemma {:induction false} UntouchedOrPrivate(file: File, edits: seq<Edit>)
    ensures AppliedAll(file, edits) == file || KeepsTokensPrivate(AppliedAll(file, edits))
  {
    if edits != [] {
      hide Applied, Rewrites, KeepsTokensPrivate;
      var before, edit := AppliedAll(file, edits[..|edits| - 1]), edits[|edits| - 1];
      UntouchedOrPrivate(file, edits[..|edits| - 1]);
      LiteralTokensStayPrivate(before, edit);
      AppliedOrSame(before, edit);
    }
  }

  lemma AppliedOrSame(file: File, edit: Edit)
    ensures !Rewrites(file, edit) ==> Applied(file, edit) == file
  {
    hide Rewrites;
  }

  // ---------------------------------------------------------------- the deserializer

  datatype GitHubAuth = Auto | Env | Off | Pat(entries: map<string, string>, skip: seq<string>)

  predicate IsEntry(entry: Toml) {
    entry.Table? && "token" in entry.table && entry.table["token"].Text?
  }

  ghost predicate GoodEntries(entries: map<string, Toml>) {
    forall repo | repo in entries :: IsSlug(repo) && IsEntry(entries[repo])
  }

  predicate IsSlugText(item: Toml) {
    item.Text? && IsSlug(item.text)
  }

  predicate AllSlugTexts(items: seq<Toml>) {
    forall i | 0 <= i < |items| :: IsSlugText(items[i])
  }

  function LoadEntries(value: Toml): Option<map<string, string>> {
    if !value.Table? then None
    else if forall repo | repo in value.table :: IsSlug(repo) && IsEntry(value.table[repo])
      then Some(map repo | repo in value.table :: value.table[repo].table["token"].text)
    else None
  }

  function LoadSkip(value: Toml): Option<seq<string>> {
    if value.Items? && AllSlugTexts(value.items)
    then Some(seq(|value.items|, i requires 0 <= i < |value.items| => value.items[i].text))
    else None
  }

  function LoadMode(mode: string, entries: map<string, string>, skip: seq<string>): Option<GitHubAuth> {
    if mode == "auto" then Some(Auto)
    else if mode == "env" then Some(Env)
    else if mode == "off" then Some(Off)
    else if mode == "pat" then Some(Pat(entries, skip))
    else None
  }

  /** The `GitHubAuth` deserializer; `None` is an error. */
  function LoadAuth(value: Toml): Option<GitHubAuth> {
    match value
    case Text(mode) => LoadMode(mode, map[], [])
    case Table(t) =>
      var entries := if "pat" in t then LoadEntries(t["pat"]) else Some(map[]);
      var skip := if "skip" in t then LoadSkip(t["skip"]) else Some([]);
      if entries.None? || skip.None? || ("mode" in t && !t["mode"].Text?) then None
      else
        var mode :=
          if "mode" in t then t["mode"].text
          else if |entries.value| > 0 || "skip" in t then "pat"
          else "off";
        LoadMode(mode, entries.value, skip.value)
    case _ => None
  }

  /** The `github` field of the configuration: absent, or what the deserializer yields. */
  function LoadGithub(doc: Doc): Result<Option<GitHubAuth>, ()> {
    if "github" !in doc then Ok(None)
    else
      match LoadAuth(doc["github"])
      case None => Err(())
      case Some(auth) => Ok(Some(auth))
  }

  /** The abstract state as the deserializer's value. */
  ghost predicate Represents(auth: GitHubAuth, a: Abstract) {
    && auth.Pat?
    && auth.entries.Keys == a.entries.Keys
    && (forall repo | repo in a.entries :: IsEntry(a.entries[repo]) && auth.entries[repo] == a.entries[repo].table["token"].text)
    && (set repo | repo in auth.skip) == a.skips
  }

  // ---------------------------------------------------------------- the prompt decision

  datatype Decision = Skip | Prompt

  datatype PromptContext = PromptContext(isTty: bool, isCi: bool, noPromptFlag: bool, promptForPat: bool)

  /** `Decision::resolve` */
  function Resolve(github: Option<GitHubAuth>, repo: Option<string>, ctx: PromptContext): Decision {
    if repo.None? then Skip
    else if ctx.noPromptFlag || ctx.isCi || !ctx.isTty || !ctx.promptForPat then Skip
    else
      match github
      case None => Prompt
      case Some(Off) => Prompt
      case Some(Pat(entries, skip)) =>
        if repo.value in skip then Skip
        else if repo.value in entries then Skip
        else Prompt
      case Some(_) => Skip
  }

  // ---------------------------------------------------------------- reloading an edited document

  lemma LoadSkipTexts(items: seq<Toml>)
    requires AllSlugTexts(items)
    ensures LoadSkip(Items(items)).Some?
    ensures (set repo | repo in LoadSkip(Items(items)).value) == Texts(items)
  {
    var skip := LoadSkip(Items(items)).value;
    forall repo | repo in Texts(items) ensures repo in skip {
      var i :| 0 <= i < |items| && items[i] == Text(repo);
      assert skip[i] == repo;
    }
    forall repo | repo in skip ensures repo in Texts(items) {
      var i :| 0 <= i < |skip| && skip[i] == repo;
      assert items[i] in items;
    }
  }

  /** A table in pat mode loads exactly when its entries and its skip list are well formed, and
      then it loads as what the document says. */
  lemma LoadPatTable(t: Doc)
    requires "mode" in t && t["mode"] == Text("pat")
    requires "pat" in t ==> t["pat"].Table?
    requires "skip" in t ==> t["skip"].Items?
    ensures LoadAuth(Table(t)).Some? <==> GoodEntries(TableOf(t, "pat")) && AllSlugTexts(ItemsOf(t, "skip"))
    ensures LoadAuth(Table(t)).Some? ==>
      Represents(LoadAuth(Table(t)).value, Abstract(TableOf(t, "pat"), Texts(ItemsOf(t, "skip"))))
  {
    if AllSlugTexts(ItemsOf(t, "skip")) { LoadSkipTexts(ItemsOf(t, "skip")); }
  }

  /** After an upsert the configuration loads exactly when every other entry, and the rest of the
      skip list, were well formed; it then loads as the abstract state, and the user is not asked
      about the repository again. */
  lemma ReloadAfterUpsert(doc: Doc, repo: string, token: string, ctx: PromptContext)
    requires IsSlug(repo)
    ensures
      var github, loaded := TableOf(doc, "github"), LoadGithub(Upserted(doc, repo, token));
      && (loaded.Ok? <==>
            && GoodEntries(TableOf(github, "pat") - {repo})
            && ("skip" in github ==> github["skip"].Items?)
            && AllSlugTexts(ItemsOf(github, "skip")))
      && (loaded.Ok? ==>
            && loaded.value.Some?
            && Represents(loaded.value.value, AbsEdited(Abs(doc), Upsert(repo, token)))
            && repo in loaded.value.value.entries && loaded.value.value.entries[repo] == token
            && repo !in loaded.value.value.skip
            && Resolve(loaded.value, Some(repo), ctx) == Skip)
  {
    var before, after := TableOf(doc, "github"), TableOf(Upserted(doc, repo, token), "github");
    EditRefines(doc, Upsert(repo, token));
    TextsWithout(ItemsOf(before, "skip"), repo);
    WithoutSlugTexts(ItemsOf(before, "skip"), repo);
    assert TableOf(after, "pat") == TableOf(before, "pat")[repo := Entry(token)];
    GoodEntriesUpsert(TableOf(before, "pat"), repo, token);
    if "skip" in before ==> before["skip"].Items? {
      LoadPatTable(after);
    } else {
      assert after["skip"] == before["skip"];
    }
  }

  lemma GoodEntriesUpsert(entries: map<string, Toml>, repo: string, token: string)
    requires IsSlug(repo)
    ensures GoodEntries(entries[repo := Entry(token)]) <==> GoodEntries(entries - {repo})
  {
    var after := entries[repo := Entry(token)];
    if GoodEntries(after) {
      forall r | r in entries - {repo} ensures IsSlug(r) && IsEntry((entries - {repo})[r]) {
        assert r in after;
      }
    }
  }

  lemma WithoutSlugTexts(items: seq<Toml>, repo: string)
    requires IsSlug(repo)
    ensures AllSlugTexts(Without(items, repo)) <==> AllSlugTexts(items)
  {
    var kept := Without(items, repo);
    TextsWithout(items, repo);
    if AllSlugTexts(kept) {
      forall i | 0 <= i < |items| ensures IsSlugText(items[i]) {
        if items[i] != Text(repo) { assert items[i] in kept; }
      }
    }
    if AllSlugTexts(items) {
      forall i | 0 <= i < |kept| ensures IsSlugText(kept[i]) { assert kept[i] in items; }
    }
  }

  lemma AppendedSlugTexts(items: seq<Toml>, repo: string)
    requires IsSlug(repo)
    ensures AllSlugTexts(items + [Text(repo)]) <==> AllSlugTexts(items)
  {
    hide IsSlug;
    var kept := items + [Text(repo)];
    if AllSlugTexts(kept) {
      forall i | 0 <= i < |items| ensures IsSlugText(items[i]) { assert items[i] == kept[i]; }
    }
  }

  /** The same after a skip marker, which repairs a skip list of the wrong type but not the
      entries. */
  lemma ReloadAfterSkip(doc: Doc, repo: string, ctx: PromptContext)
    requires IsSlug(repo)
    ensures
      var github, loaded := TableOf(doc, "github"), LoadGithub(Skipped(doc, repo));
      && (loaded.Ok? <==>
            && ("pat" in github ==> github["pat"].Table?)
            && GoodEntries(TableOf(github, "pat"))
            && AllSlugTexts(ItemsOf(github, "skip")))
      && (loaded.Ok? ==>
            && loaded.value.Some?
            && Represents(loaded.value.value, AbsEdited(Abs(doc), AddSkip(repo)))
            && repo in loaded.value.value.skip
            && Resolve(loaded.value, Some(repo), ctx) == Skip)
  {
    var before, after := TableOf(doc, "github"), TableOf(Skipped(doc, repo), "github");
    EditRefines(doc, AddSkip(repo));
    var items := ItemsOf(before, "skip");
    var kept := ItemsOf(after, "skip");
    assert kept == items || kept == items + [Text(repo)];
    AppendedSlugTexts(items, repo);
    hide GoodEntries, AllSlugTexts, IsSlug, LoadEntries, LoadSkip;
    assert TableOf(after, "pat") == TableOf(before, "pat");
    if "pat" in before ==> before["pat"].Table? {
      LoadPatTable(after);
      if LoadAuth(Table(after)).Some? {
        assert repo in Abs(Skipped(doc, repo)).skips;
      }
    } else {
      assert after["pat"] == before["pat"];
    }
  }

  /** A skip marker recorded while no token is forwarded is said to change nothing about token
      forwarding. That holds exactly when the document hides no entries: `mode = "off"` with
      entries below it starts to forward them. */
  lemma SkipMarkerRevealsEntries(doc: Doc, repo: string)
    requires IsSlug(repo)
    requires LoadGithub(doc) == Ok(None) || LoadGithub(doc) == Ok(Some(Off))
    requires LoadGithub(Skipped(doc, repo)).Ok?
    ensures
      var after := LoadGithub(Skipped(doc, repo)).value.value;
      after.entries == map[] <==> Abs(doc).entries == map[]
  {
    ReloadAfterSkip(doc, repo, PromptContext(true, false, false, true));
    var after := LoadGithub(Skipped(doc, repo)).value.value;
    assert after.entries.Keys == Abs(doc).entries.Keys;
    assert Abs(doc).entries == map[] <==> Abs(doc).entries.Keys == {};
    assert after.entries == map[] <==> after.entries.Keys == {};
  }

  /** With an entry below `mode = "off"`, a skip marker for another repository starts to forward
      that entry's token. */
  lemma SkipMarkerForwardsToken()
    ensures
      var doc: Doc := map["github" := Table(map["mode" := Text("off"), "pat" := Table(map["o/r" := Entry("cmd:t")])])];
      && LoadGithub(doc) == Ok(Some(Off))
      && LoadGithub(Skipped(doc, "p/q")).Ok?
      && LoadGithub(Skipped(doc, "p/q")).value == Some(Pat(map["o/r" := "cmd:t"], ["p/q"]))
  {
    var entries: Doc := map["o/r" := Entry("cmd:t")];
    var github: Doc := map["mode" := Text("off"), "pat" := Table(entries)];
    var doc: Doc := map["github" := Table(github)];
    TwoSlugs();
    hide IsSlug, LoadEntries, LoadSkip;
    LoadsOneEntry("o/r", "cmd:t");
    assert ItemsOf(github["mode" := Text("pat")], "skip") == [];
    assert [] + [Text("p/q")] == [Text("p/q")];
    var after := github["mode" := Text("pat")]["skip" := Items([Text("p/q")])];
    assert Skipped(doc, "p/q") == doc["github" := Table(after)];
    LoadsOneSkip("p/q");
  }

  lemma TwoSlugs()
    ensures IsSlug("o/r") && IsSlug("p/q")
  {
    assert IsSlugOf("o/r", "o", "r") && IsSlugOf("p/q", "p", "q");
    SlugExactly("o/r", "o", "r");
    SlugExactly("p/q", "p", "q");
  }

  lemma LoadsOneEntry(repo: string, token: string)
    requires IsSlug(repo)
    ensures LoadEntries(Table(map[repo := Entry(token)])) == Some(map[repo := token])
  {
    hide IsSlug;
    var entries: Doc := map[repo := Entry(token)];
    assert IsEntry(entries[repo]);
    assert LoadEntries(Table(entries)).value == map[repo := token];
  }

  lemma LoadsOneSkip(repo: string)
    requires IsSlug(repo)
    ensures LoadSkip(Items([Text(repo)])) == Some([repo])
  {
    hide IsSlug;
    var items := [Text(repo)];
    assert IsSlugText(items[0]) && AllSlugTexts(items);
    assert LoadSkip(Items(items)).value == [repo];
  }

  // ---------------------------------------------------------------- when the user is asked

  /** Nothing keeps the program from asking. */
  predicate MayAsk(ctx: PromptContext) {
    ctx.isTty && !ctx.isCi && !ctx.noPromptFlag && ctx.promptForPat
  }

  /** The user is asked about a repository exactly when nothing forbids it and the configuration
      neither names another way to get tokens nor says anything about the repository. */
  lemma AsksExactly(github: Option<GitHubAuth>, repo: Option<string>, ctx: PromptContext)
    ensures Resolve(github, repo, ctx) == Prompt <==>
      && repo.Some? && MayAsk(ctx)
      && github != Some(Auto) && github != Some(Env)
      && (github.Some? && github.value.Pat? ==>
            repo.value !in github.value.entries && repo.value !in github.value.skip)
  {
  }

  /** Removing the entry of a repository that is not skipped makes the program ask again. */
  lemma RemovalAsksAgain(doc: Doc, repo: string, ctx: PromptContext)
    requires MayAsk(ctx) && LoadGithub(doc).Ok? && LoadGithub(doc).value.Some?
    requires LoadGithub(doc).value.value.Pat? && repo !in LoadGithub(doc).value.value.skip
    ensures
      var loaded := LoadGithub(Removed(doc, repo));
      loaded.Ok? && Resolve(loaded.value, Some(repo), ctx) == Prompt
  {
    if doc["github"].Table? {
      var github := doc["github"].table;
      if "pat" in github && github["pat"].Table? {
        RemovedLoads(github, repo);
      } else {
        NoEntries(github);
      }
    }
    hide LoadAuth, IsSlug;
  }

  lemma NoEntries(t: Doc)
    requires LoadAuth(Table(t)).Some? && LoadAuth(Table(t)).value.Pat? && !("pat" in t && t["pat"].Table?)
    ensures LoadAuth(Table(t)).value.entries == map[]
  {
    hide LoadSkip;
  }

  lemma RemovedLoads(t: Doc, repo: string)
    requires LoadAuth(Table(t)).Some? && LoadAuth(Table(t)).value.Pat? && "pat" in t && t["pat"].Table?
    ensures
      var after := LoadAuth(Table(t["pat" := Table(t["pat"].table - {repo})]));
      && after.Some?
      && (after.value.Off?
          || (after.value.Pat? && after.value.skip == LoadAuth(Table(t)).value.skip && repo !in after.value.entries))
  {
    RemovedEntries(t["pat"].table, repo);
    var next := t["pat" := Table(t["pat"].table - {repo})];
    var entries := LoadEntries(next["pat"]).value;
    var skip := LoadAuth(Table(t)).value.skip;
    PartsOf(t);
    hide LoadSkip, LoadEntries, LoadAuth;
    assert ("skip" in next <==> "skip" in t) && ("mode" in next <==> "mode" in t);
    assert ("skip" in t ==> next["skip"] == t["skip"]) && ("mode" in t ==> next["mode"] == t["mode"]);
    FromParts(next, entries, skip);
  }

  /** What a table that loads in pat mode is made of. */
  lemma PartsOf(t: Doc)
    requires LoadAuth(Table(t)).Some? && LoadAuth(Table(t)).value.Pat?
    ensures "skip" in t ==> LoadSkip(t["skip"]) == Some(LoadAuth(Table(t)).value.skip)
    ensures "skip" !in t ==> LoadAuth(Table(t)).value.skip == []
    ensures "mode" in t ==> t["mode"] == Text("pat")
  {
    hide LoadSkip, LoadEntries;
  }

  lemma FromParts(t: Doc, entries: map<string, string>, skip: seq<string>)
    requires "pat" in t && LoadEntries(t["pat"]) == Some(entries)
    requires "skip" in t ==> LoadSkip(t["skip"]) == Some(skip)
    requires "skip" !in t ==> skip == []
    requires "mode" in t ==> t["mode"] == Text("pat")
    ensures LoadAuth(Table(t)) == Some(Pat(entries, skip)) || LoadAuth(Table(t)) == Some(Off)
  {
    hide LoadSkip, LoadEntries;
  }

  lemma RemovedEntries(entries: Doc, repo: string)
    requires LoadEntries(Table(entries)).Some?
    ensures LoadEntries(Table(entries - {repo})).Some? && repo !in LoadEntries(Table(entries - {repo})).value
  {
    hide IsSlug;
    assert forall r | r in entries - {repo} :: r in entries && (entries - {repo})[r] == entries[r];
  }

  // ---------------------------------------------------------------- printing and reading back

  /** `GitHubAuth`'s serializer. */
  function Printed(auth: GitHubAuth): Toml {
    match auth
    case Auto => Text("auto")
    case Env => Text("env")
    case Off => Text("off")
    case Pat(entries, skip) =>
      var mode: Doc := map["mode" := Text("pat")];
      var withEntries := if entries == map[] then mode
        else mode["pat" := Table(map repo | repo in entries :: Table(map["token" := Text(entries[repo])]))];
      Table(if skip == [] then withEntries else withEntries["skip" := Items(seq(|skip|, i requires 0 <= i < |skip| => Text(skip[i])))])
  }

  /** Whatever is printed loads again as itself, when its repositories are slugs. */
  lemma PrintedLoads(auth: GitHubAuth)
    requires auth.Pat? ==> (forall repo | repo in auth.entries :: IsSlug(repo)) && forall repo | repo in auth.skip :: IsSlug(repo)
    ensures LoadAuth(Printed(auth)) == Some(auth)
  {
    hide IsSlug;
    if auth.Pat? {
      var entries: Doc := map repo | repo in auth.entries :: Table(map["token" := Text(auth.entries[repo])]);
      var items := seq(|auth.skip|, i requires 0 <= i < |auth.skip| => Text(auth.skip[i]));
      assert forall repo | repo in entries :: IsEntry(entries[repo]);
      assert LoadEntries(Table(entries)).value == auth.entries;
      forall i | 0 <= i < |items| ensures IsSlugText(items[i]) { assert auth.skip[i] in auth.skip; }
      assert AllSlugTexts(items);
      assert LoadSkip(Items(items)).value == auth.skip;
      var t := Printed(auth).table;
      assert "pat" in t <==> auth.entries != map[];
      assert "skip" in t <==> auth.skip != [];
      assert t["mode"] == Text("pat");
    }
  }

  // ---------------------------------------------------------------- tokens in clear

  /** A written document in which any entry holds a token that is no command is closed to group
      and others; one without such an entry is readable to them as before. */
  lemma ClearTokensArePrivate(file: File, doc: Doc, repo: string, token: string)
    requires "github" in doc && doc["github"].Table? && "pat" in doc["github"].table
    requires doc["github"].table["pat"].Table? && repo in doc["github"].table["pat"].table
    requires var entry := doc["github"].table["pat"].table[repo];
      entry.Table? && "token" in entry.table && entry.table["token"] == Text(token)
    requires !("cmd:" <= token)
    ensures Written(file, doc).mode & 0x3F == 0
  {
    assert TableOf(TableOf(doc, "github"), "pat") == doc["github"].table["pat"].table;
    assert IsLiteralTokenEntry(doc["github"].table["pat"].table[repo]);
    assert ContainsLiteralToken(doc);
  }
}
