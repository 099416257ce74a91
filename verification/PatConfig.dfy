/** Edits of the `[github]` table in `config.toml` (`src/github_pat.rs`) and what an atomic write
    does to the file's mode (`src/fs_util.rs`). */
module PatConfig {
  import opened Wrappers
  import opened TomlValue

  datatype Content = Whole(doc: Doc) | Unparseable

  datatype File = Absent | Present(content: Content, mode: bv16)

  datatype Edit =
    | Upsert(repo: string, token: string)
    | Remove(repo: string)
    | AddSkip(repo: string)

  const MODE_0600: bv16 := 0x180
  const MODE_0644: bv16 := 0x1A4
  const GROUP_AND_OTHERS: bv16 := 0x3F

  // ---------------------------------------------------------------- the document after an edit

  function TableOf(t: Doc, key: string): Doc {
    if key in t && t[key].Table? then t[key].table else map[]
  }

  function ItemsOf(t: Doc, key: string): seq<Toml> {
    if key in t && t[key].Items? then t[key].items else []
  }

  function Without(items: seq<Toml>, repo: string): seq<Toml> {
    if items == [] then []
    else (if items[0] == Text(repo) then [] else [items[0]]) + Without(items[1..], repo)
  }

  function Entry(token: string): Toml {
    Table(map["token" := Text(token)])
  }

  function Upserted(doc: Doc, repo: string, token: string): Doc {
    var github := TableOf(doc, "github")["mode" := Text("pat")];
    var withEntry := github["pat" := Table(TableOf(github, "pat")[repo := Entry(token)])];
    doc["github" := Table(
      if "skip" in withEntry && withEntry["skip"].Items?
      then withEntry["skip" := Items(Without(withEntry["skip"].items, repo))]
      else withEntry)]
  }

  function Removed(doc: Doc, repo: string): Doc {
    var github := TableOf(doc, "github");
    if "pat" in github && github["pat"].Table?
    then doc["github" := Table(github["pat" := Table(github["pat"].table - {repo})])]
    else doc
  }

  function Skipped(doc: Doc, repo: string): Doc {
    var github := TableOf(doc, "github")["mode" := Text("pat")];
    var items := ItemsOf(github, "skip");
    doc["github" := Table(github["skip" := Items(if Text(repo) in items then items else items + [Text(repo)])])]
  }

  function Edited(doc: Doc, edit: Edit): Doc {
    match edit
    case Upsert(repo, token) => Upserted(doc, repo, token)
    case Remove(repo) => Removed(doc, repo)
    case AddSkip(repo) => Skipped(doc, repo)
  }

  // ---------------------------------------------------------------- the file after an edit

  predicate IsLiteralTokenEntry(entry: Toml) {
    entry.Table? && "token" in entry.table && entry.table["token"].Text? && !("cmd:" <= entry.table["token"].text)
  }

  predicate ContainsLiteralToken(doc: Doc) {
    exists repo | repo in TableOf(TableOf(doc, "github"), "pat") ::
      IsLiteralTokenEntry(TableOf(TableOf(doc, "github"), "pat")[repo])
  }

  function WriteMode(doc: Doc): bv16 {
    if ContainsLiteralToken(doc) then MODE_0600 else MODE_0644
  }

  /** `atomic_write_with_mode`: an existing file keeps no bit that the new mode lacks, and gains
      none. */
  function ModeAfterWrite(file: File, mode: bv16): bv16 {
    if file.Present? then file.mode & mode else mode
  }

  function Written(file: File, doc: Doc): File {
    Present(Whole(doc), ModeAfterWrite(file, WriteMode(doc)))
  }

  ghost predicate GrantsNoMoreThan(a: bv16, b: bv16) {
    a & b == a
  }

  /** A literal token is stored where only the owner can read it. */
  ghost predicate KeepsTokensPrivate(file: File) {
    file.Present? && file.content.Whole? && ContainsLiteralToken(file.content.doc) ==>
      file.mode & GROUP_AND_OTHERS == 0
  }

  /** `read_or_init_doc` */
  function DocOf(file: File): Option<Doc> {
    match file
    case Absent => Some(map[])
    case Present(Whole(doc), _) => Some(doc)
    case Present(Unparseable, _) => None
  }

  /** Whether the edit rewrites the file at all. */
  predicate Rewrites(file: File, edit: Edit) {
    && DocOf(file).Some?
    && (edit.Remove? ==> file.Present?)
    && (edit.Upsert? ==> Edited(DocOf(file).value, edit) != DocOf(file).value)
  }

  function Applied(file: File, edit: Edit): File {
    if Rewrites(file, edit) then Written(file, Edited(DocOf(file).value, edit)) else file
  }

  function AppliedAll(file: File, edits: seq<Edit>): File {
    if edits == [] then file else Applied(AppliedAll(file, edits[..|edits| - 1]), edits[|edits| - 1])
  }

  /** The configuration file of one process, edited in place. */
  class ConfigFile {
    var file: File

    constructor (file: File)
      ensures this.file == file
    {
      this.file := file;
    }

    /** `write_doc`: the document reads back; an existing file grants no more than before, a literal
        token nothing to group and others; the owner keeps reading and writing, and without a
        literal token group and others keep reading. */
    method WriteDoc(doc: Doc)
      modifies this
      ensures file == Written(old(file), doc)
      ensures DocOf(file) == Some(doc)
      ensures old(file).Present? ==> GrantsNoMoreThan(file.mode, old(file).mode)
      ensures GrantsNoMoreThan(file.mode, MODE_0644) && KeepsTokensPrivate(file)
      ensures GrantsNoMoreThan(if old(file).Present? then old(file).mode & 0x180 else 0x180, file.mode)
      ensures !ContainsLiteralToken(doc) ==>
        GrantsNoMoreThan(if old(file).Present? then old(file).mode & 0x1A4 else 0x1A4, file.mode)
    {
      var literal := ContainsLiteralToken(doc);
      var mode := if literal then MODE_0600 else MODE_0644;
      var perms := if file.Present? then file.mode & mode else mode;
      file := Present(Whole(doc), perms);
    }

    /** `upsert_pat_entry` */
    method UpsertPatEntry(repo: string, tokenCmd: string) returns (ok: bool)
      modifies this
      ensures ok <==> DocOf(old(file)).Some?
      ensures file == Applied(old(file), Upsert(repo, tokenCmd))
    {
      var read := DocOf(file);
      if read.None? {
        return false;
      }
      var original := read.value;
      var doc := original;
      if "github" !in doc || !doc["github"].Table? {
        doc := doc["github" := Table(map[])];
      }
      var github := doc["github"].table;
      github := github["mode" := Text("pat")];
      ghost var github0 := TableOf(original, "github")["mode" := Text("pat")];
      assert github == github0;
      if "pat" !in github || !github["pat"].Table? {
        github := github["pat" := Table(map[])];
      }
      var pat := github["pat"].table;
      pat := pat[repo := Entry(tokenCmd)];
      github := github["pat" := Table(pat)];
      assert github == github0["pat" := Table(TableOf(github0, "pat")[repo := Entry(tokenCmd)])];
      if "skip" in github && github["skip"].Items? {
        var kept := Retain(github["skip"].items, repo);
        github := github["skip" := Items(kept)];
      }
      doc := doc["github" := Table(github)];
      assert doc == original["github" := Table(github)] == Upserted(original, repo, tokenCmd);
      ok := true;
      if doc == original {
        return;
      }
      WriteDoc(doc);
    }

    /** `remove_pat_entry` */
    method RemovePatEntry(repo: string) returns (ok: bool)
      modifies this
      ensures ok <==> DocOf(old(file)).Some?
      ensures file == Applied(old(file), Remove(repo))
    {
      if file.Absent? {
        return true;
      }
      var read := DocOf(file);
      if read.None? {
        return false;
      }
      var doc := read.value;
      if "github" in doc && doc["github"].Table? {
        var github := doc["github"].table;
        if "pat" in github && github["pat"].Table? {
          var pat := github["pat"].table - {repo};
          doc := doc["github" := Table(github["pat" := Table(pat)])];
        }
      }
      assert doc == Removed(read.value, repo);
      WriteDoc(doc);
      ok := true;
    }

    /** `add_skip_marker` */
    method AddSkipMarker(repo: string) returns (ok: bool)
      modifies this
      ensures ok <==> DocOf(old(file)).Some?
      ensures file == Applied(old(file), AddSkip(repo))
    {
      var read := DocOf(file);
      if read.None? {
        return false;
      }
      var doc := read.value;
      if "github" !in doc || !doc["github"].Table? {
        doc := doc["github" := Table(map[])];
      }
      var github := doc["github"].table;
      github := github["mode" := Text("pat")];
      ghost var github0 := TableOf(read.value, "github")["mode" := Text("pat")];
      assert github == github0;
      if "skip" !in github || !github["skip"].Items? {
        github := github["skip" := Items([])];
      }
      var items := github["skip"].items;
      if Text(repo) !in items {
        items := items + [Text(repo)];
      }
      github := github["skip" := Items(items)];
      assert github == github0["skip" := Items(items)];
      doc := doc["github" := Table(github)];
      assert doc == read.value["github" := Table(github)] == Skipped(read.value, repo);
      WriteDoc(doc);
      ok := true;
    }
  }

  /** `Vec::retain` on the skip list. */
  method Retain(items: seq<Toml>, repo: string) returns (kept: seq<Toml>)
    ensures kept == Without(items, repo)
  {
    kept := [];
    var i := 0;
    assert items[0..] == items;
    while i < |items|
      invariant 0 <= i <= |items|
      invariant kept + Without(items[i..], repo) == Without(items, repo)
    {
      assert items[i..][1..] == items[i + 1..];
      if items[i] != Text(repo) {
        kept := kept + [items[i]];
      }
      i := i + 1;
    }
    assert items[i..] == [];
  }
}
