/** The shell snippet that `compose_install_snippet` of `src/devcontainer_oci.rs` writes, and the
    parts of a POSIX shell that read it back: here-documents with a quoted delimiter (section
    2.7.4 of POSIX.1-2017 XCU) and word quoting (sections 2.2.1 and 2.2.2). */
module FeatureSnippet {
  import opened Wrappers
  import opened Base64
  import RepoSlug

  datatype Feature = Feature(
    reference: string,
    scriptHash: string,             // the 64 lowercase hexadecimal digits of a SHA-256
    archive: seq<bv8>,
    options: seq<(string, string)>) // in key order
  {
    predicate Valid() {
      |scriptHash| == 64 && forall i | 0 <= i < 64 :: IsHexDigit(scriptHash[i])
    }
  }

  predicate IsHexDigit(c: char) {
    '0' <= c <= '9' || 'a' <= c <= 'f'
  }

  // ---------------------------------------------------------------- writing

  function OptionEnvChar(c: char): char {
    if 'a' <= c <= 'z' then (c as int - 'a' as int + 'A' as int) as char
    else if 'A' <= c <= 'Z' || '0' <= c <= '9' then c
    else '_'
  }

  function OptionEnvName(key: string): string {
    seq(|key|, i requires 0 <= i < |key| => OptionEnvChar(key[i]))
  }

  /** Letters become capitals, digits stay, and anything else becomes an underscore. */
  lemma OptionNames(key: string)
    ensures |OptionEnvName(key)| == |key|
    ensures |RepoSlug.LOWER| == |RepoSlug.UPPER| == 26
    ensures forall i, v: nat | 0 <= i < |key| && v < 26 && (key[i] == RepoSlug.LOWER[v] || key[i] == RepoSlug.UPPER[v]) ::
      OptionEnvName(key)[i] == RepoSlug.UPPER[v]
    ensures forall i | 0 <= i < |key| && key[i] !in RepoSlug.LOWER && key[i] !in RepoSlug.UPPER ::
      OptionEnvName(key)[i] == if key[i] in "0123456789" then key[i] else '_'
  {
    RepoSlug.LetterCodes();
    forall i | 0 <= i < |key| && key[i] !in RepoSlug.LOWER && key[i] !in RepoSlug.UPPER
      ensures OptionEnvName(key)[i] == if key[i] in "0123456789" then key[i] else '_'
    {
      RepoSlug.LettersBetween(key[i]);
      RepoSlug.DigitsBetween(key[i]);
    }
    hide RepoSlug.LOWER, RepoSlug.UPPER;
  }

  /** `value.replace('\'', r"'\''")` */
  function EscapeQuotes(value: string): string {
    if value == "" then ""
    else (if value[0] == '\'' then "'\\''" else [value[0]]) + EscapeQuotes(value[1..])
  }

  function ShellSingleQuote(value: string): string {
    "'" + EscapeQuotes(value) + "'"
  }

  const DELIMITER_PREFIX := "COOP_FEATURE_ARCHIVE_"

  function Delimiter(feature: Feature): string
    requires feature.Valid()
  {
    DELIMITER_PREFIX + feature.scriptHash[..16]
  }

  function ExportLine(key: string, value: string): string {
    "export " + (OptionEnvName(key) + ("=" + (ShellSingleQuote(value) + "\n")))
  }

  function ExportLines(options: seq<(string, string)>): string {
    if options == [] then ""
    else ExportLine(options[0].0, options[0].1) + ExportLines(options[1..])
  }

  function Preamble(reference: string): string {
    "\necho '  [guest] Installing devcontainer Feature " + ShellSingleQuote(reference) + "'\n" +
    "(\n" +
    "feature_dir=$(mktemp -d)\n" +
    "trap 'rm -rf \"$feature_dir\"' EXIT\n" +
    "archive=\"$feature_dir/feature.tgz\"\n"
  }

  function HereDocOperator(delimiter: string): string {
    "base64 -d > \"$archive\" <<'" + delimiter + "'\n"
  }

  const UNPACK :=
    "tar -xzf \"$archive\" -C \"$feature_dir\"\n" +
    "chmod +x \"$feature_dir/install.sh\"\n" +
    "export _REMOTE_USER=\"$GUEST_USER\"\n" +
    "export _REMOTE_USER_HOME=\"/home/$GUEST_USER\"\n"

  const RUN := "cd " + "\"$feature_dir\"\n./install.sh\n)\n"

  /** What follows the line of the here-document operator. */
  function HereDocument(payload: string, delimiter: string, rest: string): string {
    payload + ("\n" + (delimiter + ("\n" + rest)))
  }

  /** The lines end with a subshell that names a directory, removes it on exit, and names the
      archive in it. */
  predicate SetsUp(opening: string) {
    var lines :=
      "\n(\nfeature_dir=$(mktemp -d)\n" + ("trap 'rm -rf \"$feature_dir\"' EXIT\n" + "archive=\"$feature_dir/feature.tgz\"\n");
    |lines| <= |opening| && opening[|opening| - |lines|..] == lines
  }

  lemma OpeningSetsUp(reference: string)
    ensures SetsUp(Preamble(reference))
  {
    var echo := "\necho '  [guest] Installing devcontainer Feature " + ShellSingleQuote(reference);
    var (dir, trap, archive) :=
      ("feature_dir=$(mktemp -d)\n", "trap 'rm -rf \"$feature_dir\"' EXIT\n", "archive=\"$feature_dir/feature.tgz\"\n");
    assert "\n(\nfeature_dir=$(mktemp -d)\n" == "\n" + ("(\n" + dir);
    assert "'\n" == "'" + "\n";
    LastLines(echo, "'", "\n", "(\n", dir, trap, archive);
  }

  lemma LastLines(a: string, q: string, n: string, b: string, c: string, d: string, e: string)
    ensures
      var (text, lines) := (a + (q + n) + b + c + d + e, (n + (b + c)) + (d + e));
      |lines| <= |text| && text[|text| - |lines|..] == lines
  {
    assert a + (q + n) + b + c + d + e == (a + q) + ((n + (b + c)) + (d + e));
  }

  /** `compose_install_snippet`. */
  method ComposeInstallSnippet(feature: Feature) returns (out: string)
    requires feature.Valid()
    ensures
      out ==
        (Preamble(feature.reference) + HereDocOperator(Delimiter(feature))) +
        HereDocument(Encode(Octets(feature.archive)), Delimiter(feature),
                     UNPACK + (ExportLines(feature.options) + RUN))
    ensures
      var opening := Preamble(feature.reference);
      opening <= out && SetsUp(opening) && RunsAs(feature, out[|opening|..])
  {
    OpeningSetsUp(feature.reference);
    hide RunsAs, HereDocument, SetsUp;
    hide Preamble, HereDocOperator, Delimiter, Encode, Octets, ExportLines, OptionEnvName, ShellSingleQuote;
    out := Preamble(feature.reference);
    var archiveDelimiter := Delimiter(feature);
    out := out + HereDocOperator(archiveDelimiter);
    ghost var operator := out;
    var payload := Base64Encode(feature.archive);
    out := out + payload;
    out := out + "\n";
    out := out + archiveDelimiter;
    out := out + "\n";
    out := out + UNPACK;
    ghost var start := out;
    var i := 0;
    ExportsAtEnds(feature.options);
    assert start + ExportLines(feature.options) == out + ExportLines(feature.options[0..]);
    while i < |feature.options|
      invariant 0 <= i <= |feature.options|
      invariant start + ExportLines(feature.options) == out + ExportLines(feature.options[i..])
    {
      ghost var before := out;
      var (key, value) := feature.options[i];
      out := out + "export ";
      out := out + OptionEnvName(key);
      out := out + "=";
      out := out + ShellSingleQuote(value);
      out := out + "\n";
      ExportStep(feature.options, i, before);
      i := i + 1;
    }
    assert out + "" == out;
    out := out + RUN;
    Regroup(operator, payload, archiveDelimiter, UNPACK, ExportLines(feature.options), RUN);
    ScriptRuns(feature, Preamble(feature.reference), out);
  }

  lemma ExportsAtEnds(options: seq<(string, string)>)
    ensures ExportLines(options[0..]) == ExportLines(options)
    ensures ExportLines(options[|options|..]) == ""
  {
    assert options[0..] == options;
  }

  lemma ExportStep(options: seq<(string, string)>, i: nat, before: string)
    requires i < |options|
    ensures
      var (key, value) := options[i];
      before + ExportLines(options[i..]) ==
      before + "export " + OptionEnvName(key) + "=" + ShellSingleQuote(value) + "\n" + ExportLines(options[i + 1..])
  {
    hide OptionEnvName, ShellSingleQuote;
    var (key, value) := options[i];
    assert options[i..][1..] == options[i + 1..];
    assert ExportLines(options[i..]) == ExportLine(key, value) + ExportLines(options[i + 1..]);
    Concat5("export ", OptionEnvName(key), "=", ShellSingleQuote(value), "\n", before, ExportLines(options[i + 1..]));
  }

  lemma Concat5(a: string, b: string, c: string, d: string, e: string, before: string, after: string)
    ensures before + (a + (b + (c + (d + e))) + after) == before + a + b + c + d + e + after
  {
    assert a + (b + (c + (d + e))) == a + b + c + d + e;
    assert before + (a + b + c + d + e) == before + a + b + c + d + e;
    assert before + ((a + b + c + d + e) + after) == (before + (a + b + c + d + e)) + after;
  }

  lemma Regroup(a: string, b: string, c: string, d: string, e: string, f: string)
    ensures a + b + "\n" + c + "\n" + d + e + f == a + HereDocument(b, c, d + (e + f))
  {
    assert d + (e + f) == d + e + f;
    assert b + ("\n" + (c + ("\n" + (d + e + f)))) == b + "\n" + c + "\n" + (d + e + f);
    assert a + (b + "\n" + c + "\n" + (d + e + f)) == a + b + "\n" + c + "\n" + (d + e + f);
    assert a + b + "\n" + c + "\n" + (d + e + f) == a + b + "\n" + c + "\n" + d + e + f;
  }

  // ---------------------------------------------------------------- reading: here-documents

  /** The first line without its newline, and what follows it. */
  function SplitLine(text: string): (r: (string, string))
    ensures text != "" ==> |r.1| < |text|
  {
    if text == "" then ("", "")
    else if text[0] == '\n' then ("", text[1..])
    else
      var (line, rest) := SplitLine(text[1..]);
      ([text[0]] + line, rest)
  }

  /** The lines up to the first one that is the delimiter, and what follows that line. */
  function ReadHereDoc(text: string, delimiter: string): Option<(string, string)>
    decreases |text|
  {
    if text == "" then None
    else
      var (line, next) := SplitLine(text);
      if line == delimiter then Some(("", next))
      else
        match ReadHereDoc(next, delimiter)
        case None => None
        case Some((body, rest)) => Some((line + "\n" + body, rest))
  }

  lemma {:induction false} SplitLineOf(line: string, rest: string)
    requires '\n' !in line
    ensures SplitLine(line + ("\n" + rest)) == (line, rest)
  {
    if line == "" {
      assert "" + ("\n" + rest) == "\n" + rest;
    } else {
      SplitLineOf(line[1..], rest);
      assert (line + ("\n" + rest))[1..] == line[1..] + ("\n" + rest);
      assert line == [line[0]] + line[1..];
    }
  }

  function WithoutNewlines(text: string): string {
    if text == "" then ""
    else (if text[0] == '\n' then "" else [text[0]]) + WithoutNewlines(text[1..])
  }

  lemma {:induction false} NoNewlines(line: string)
    requires '\n' !in line
    ensures WithoutNewlines(line + "\n") == line
  {
    if line == "" {
      assert "" + "\n" == "\n";
    } else {
      NoNewlines(line[1..]);
      assert (line + "\n")[1..] == line[1..] + "\n";
      assert line == [line[0]] + line[1..];
    }
  }

  /** The payload is one line, and never the delimiter line. */
  lemma PayloadLine(feature: Feature)
    requires feature.Valid()
    ensures
      var payload := Encode(Octets(feature.archive));
      '\n' !in payload && '_' !in payload && '\n' !in Delimiter(feature) && payload != Delimiter(feature)
  {
    hide Encode, Octets;
    var payload, delimiter := Encode(Octets(feature.archive)), Delimiter(feature);
    EncodeShape(Octets(feature.archive));
    assert forall i | 0 <= i < |payload| :: IsSymbol(payload[i]) || payload[i] == '=';
    DelimiterPrefixFacts();
    assert delimiter[4] == DELIMITER_PREFIX[4];
  }

  lemma DelimiterPrefixFacts()
    ensures |DELIMITER_PREFIX| == 21 && DELIMITER_PREFIX[4] == '_' && '\n' !in DELIMITER_PREFIX
  {
  }

  /** The here-document that the shell collects is the encoded archive on a line of its own, for
      every archive: `base64 -d` gets the archive back. The script goes on right behind it. */
  lemma ArchiveReadsBack(feature: Feature, rest: string)
    requires feature.Valid()
    ensures
      var payload := Encode(Octets(feature.archive));
      && ReadHereDoc(HereDocument(payload, Delimiter(feature), rest), Delimiter(feature)) == Some((payload + "\n", rest))
      && Decode(WithoutNewlines(payload + "\n")) == Some(Octets(feature.archive))
  {
    hide Encode, Octets, Delimiter, Decode;
    var payload, delimiter := Encode(Octets(feature.archive)), Delimiter(feature);
    PayloadLine(feature);
    SplitLineOf(payload, delimiter + ("\n" + rest));
    SplitLineOf(delimiter, rest);
    assert payload + "\n" + "" == payload + "\n";
    NoNewlines(payload);
    DecodeEncode(Octets(feature.archive));
  }

  // ---------------------------------------------------------------- reading: words

  predicate EndsWord(c: char) {
    c in " \t\n;&|<>()"
  }

  function Prepend(c: char, r: Option<(string, string)>): Option<(string, string)> {
    match r
    case None => None
    case Some((word, rest)) => Some(([c] + word, rest))
  }

  /** One word after quote removal, and what follows it. Words with expansions or double quotes
      are outside this reader: it gives up on them. */
  function ReadWord(text: string, quoted: bool): (r: Option<(string, string)>)
    ensures r.Some? ==> |r.value.1| <= |text|
    decreases |text|
  {
    if text == "" then (if quoted then None else Some(("", "")))
    else if quoted then
      if text[0] == '\'' then ReadWord(text[1..], false)
      else Prepend(text[0], ReadWord(text[1..], true))
    else if text[0] == '\'' then ReadWord(text[1..], true)
    else if text[0] == '\\' then
      if |text| == 1 then None
      else if text[1] == '\n' then ReadWord(text[2..], false)
      else Prepend(text[1], ReadWord(text[2..], false))
    else if EndsWord(text[0]) then Some(("", text))
    else if text[0] in "\"$`" then None
    else Prepend(text[0], ReadWord(text[1..], false))
  }

  lemma {:induction false} ReadEscaped(value: string, rest: string)
    requires rest != "" && EndsWord(rest[0])
    ensures ReadWord(EscapeQuotes(value) + ("'" + rest), true) == Some((value, rest))
  {
    var text := EscapeQuotes(value) + ("'" + rest);
    if value == "" {
      assert text == "'" + rest && text[1..] == rest;
    } else {
      var tail := EscapeQuotes(value[1..]) + ("'" + rest);
      ReadEscaped(value[1..], rest);
      assert value == [value[0]] + value[1..];
      if value[0] == '\'' {
        assert text == ['\'', '\\', '\'', '\''] + tail;
        var close, open := text[1..], text[3..];
        assert close[2..] == open && open[1..] == tail;
        assert ReadWord(text, true) == ReadWord(close, false) == Prepend('\'', ReadWord(open, false));
        assert ReadWord(open, false) == ReadWord(tail, true);
      } else {
        assert text == [value[0]] + tail && text[1..] == tail;
      }
    }
  }

  /** A quoted value is one word, equal to the value, whatever characters it holds. */
  lemma QuotedIsOneWord(value: string, rest: string)
    requires rest != "" && EndsWord(rest[0])
    ensures ReadWord(ShellSingleQuote(value) + rest, false) == Some((value, rest))
  {
    var text := ShellSingleQuote(value) + rest;
    assert text[1..] == EscapeQuotes(value) + ("'" + rest);
    ReadEscaped(value, rest);
  }

  // ---------------------------------------------------------------- reading: exports

  predicate IsNameChar(c: char) {
    'A' <= c <= 'Z' || 'a' <= c <= 'z' || '0' <= c <= '9' || c == '_'
  }

  function NamePrefix(text: string): (name: string)
    ensures name <= text
  {
    if text == "" || !IsNameChar(text[0]) then "" else [text[0]] + NamePrefix(text[1..])
  }

  /** Section 3.235 of POSIX.1-2017 XBD: a name does not start with a digit. */
  predicate IsName(name: string) {
    name != "" && !('0' <= name[0] <= '9')
  }

  /** The assignments of the `export NAME=word` lines that `text` starts with, and what follows
      them; `None` when one of them is not an assignment. */
  function ReadExports(text: string): Option<(seq<(string, string)>, string)>
    decreases |text|
  {
    if !("export " <= text) then Some(([], text))
    else
      var body := text[7..];
      var name := NamePrefix(body);
      var after := body[|name|..];
      if !IsName(name) || after == "" || after[0] != '=' then None
      else
        match ReadWord(after[1..], false)
        case None => None
        case Some((value, rest)) =>
          if rest == "" || rest[0] != '\n' then None
          else
            match ReadExports(rest[1..])
            case None => None
            case Some((more, end)) => Some(([(name, value)] + more, end))
  }

  /** Option keys whose variable the shell accepts. */
  predicate Exportable(key: string) {
    IsName(key)
  }

  ghost predicate AllExportable(options: seq<(string, string)>) {
    forall i | 0 <= i < |options| :: Exportable(options[i].0)
  }

  function Assignments(options: seq<(string, string)>): seq<(string, string)> {
    seq(|options|, i requires 0 <= i < |options| => (OptionEnvName(options[i].0), options[i].1))
  }

  lemma {:induction false} NamePrefixOf(name: string, rest: string)
    requires forall i | 0 <= i < |name| :: IsNameChar(name[i])
    ensures NamePrefix(name + ("=" + rest)) == name
  {
    if name == "" {
      assert "" + ("=" + rest) == "=" + rest;
    } else {
      NamePrefixOf(name[1..], rest);
      assert (name + ("=" + rest))[1..] == name[1..] + ("=" + rest);
      assert name == [name[0]] + name[1..];
    }
  }

  /** The export lines assign every option its own value, in order, exactly when every key gives a
      valid variable name: one that is empty or starts with a digit makes its line an error. */
  lemma {:induction false} ExportsReadBack(options: seq<(string, string)>)
    ensures
      ReadExports(ExportLines(options) + RUN) ==
        if AllExportable(options) then Some((Assignments(options), RUN)) else None
  {
    hide RUN, OptionEnvName, ExportLine, ReadExports, Exportable, AllExportable, Assignments;
    if options == [] {
      RunIsNoExport();
      NoOptions();
      assert ExportLines(options) + RUN == RUN;
    } else {
      var (key, value) := options[0];
      var more := ExportLines(options[1..]) + RUN;
      var text := ExportLines(options) + RUN;
      ExportsReadBack(options[1..]);
      ExportLineReadsBack(key, value, more);
      assert text == ExportLine(key, value) + more;
      FirstExport(options);
    }
  }

  lemma NoOptions()
    ensures AllExportable([]) && Assignments([]) == []
  {
  }

  lemma FirstExport(options: seq<(string, string)>)
    requires options != []
    ensures AllExportable(options) <==> Exportable(options[0].0) && AllExportable(options[1..])
    ensures Assignments(options) == [(OptionEnvName(options[0].0), options[0].1)] + Assignments(options[1..])
  {
    assert options == [options[0]] + options[1..];
  }

  lemma RunIsNoExport()
    ensures ReadExports(RUN) == Some(([], RUN))
  {
    assert RUN[0] == 'c';
  }

  lemma ExportLineReadsBack(key: string, value: string, more: string)
    ensures
      ReadExports(ExportLine(key, value) + more) ==
        if !Exportable(key) then None
        else
          match ReadExports(more)
          case None => None
          case Some((rest, end)) => Some(([(OptionEnvName(key), value)] + rest, end))
  {
    var name := OptionEnvName(key);
    var text, body := ExportLine(key, value) + more, name + ("=" + (ShellSingleQuote(value) + ("\n" + more)));
    assert text[..7] == "export " && text[7..] == body;
    NamePrefixOf(name, ShellSingleQuote(value) + ("\n" + more));
    assert body[|name|..][1..] == ShellSingleQuote(value) + ("\n" + more);
    QuotedIsOneWord(value, "\n" + more);
    assert ("\n" + more)[1..] == more;
  }

  /** The line for an option `1a` is no assignment. */
  lemma DigitKeyIsNoName()
    ensures ReadExports(ExportLines([("1a", "x")]) + RUN) == None
  {
    var options := [("1a", "x")];
    assert !Exportable(options[0].0);
    ExportsReadBack(options);
  }

  // ---------------------------------------------------------------- the environment of the feature

  /** The variables after the assignments: the last one of a name wins. */
  function Environment(assignments: seq<(string, string)>): map<string, string> {
    if assignments == [] then map[]
    else
      var n := |assignments| - 1;
      Environment(assignments[..n])[assignments[n].0 := assignments[n].1]
  }

  /** An assignment that no later one of the same name contradicts decides its variable. */
  lemma {:induction false} LastWins(assignments: seq<(string, string)>, i: nat)
    requires i < |assignments|
    requires forall j | i < j < |assignments| :: assignments[j].0 == assignments[i].0 ==> assignments[j].1 == assignments[i].1
    ensures assignments[i].0 in Environment(assignments)
    ensures Environment(assignments)[assignments[i].0] == assignments[i].1
  {
    var n := |assignments| - 1;
    if i < n {
      LastWins(assignments[..n], i);
    }
  }

  /** Every option reaches the feature: its line is an assignment, and its variable holds its value
      when the feature starts. */
  ghost predicate OptionsArrive(options: seq<(string, string)>) {
    match ReadExports(ExportLines(options) + RUN)
    case None => false
    case Some((assignments, _)) =>
      forall i | 0 <= i < |options| ::
        var name := OptionEnvName(options[i].0);
        name in Environment(assignments) && Environment(assignments)[name] == options[i].1
  }

  /** Two options of different values whose keys give the same variable name. */
  ghost predicate Clash(options: seq<(string, string)>, i: int, j: int)
    requires 0 <= i < |options| && 0 <= j < |options|
  {
    OptionEnvName(options[i].0) == OptionEnvName(options[j].0) && options[i].1 != options[j].1
  }

  /** Every option arrives with its own value if and only if every key gives a valid variable name
      and no two options of different values share one. */
  lemma OptionsArriveExactly(options: seq<(string, string)>)
    ensures OptionsArrive(options) <==>
      AllExportable(options) && forall i, j | 0 <= i < j < |options| :: !Clash(options, i, j)
  {
    hide ReadExports, ExportLines, RUN, OptionEnvName;
    ExportsReadBack(options);
    if AllExportable(options) {
      var assignments := Assignments(options);
      if forall i, j | 0 <= i < j < |options| :: !Clash(options, i, j) {
        forall i | 0 <= i < |options|
          ensures
            var name := OptionEnvName(options[i].0);
            name in Environment(assignments) && Environment(assignments)[name] == options[i].1
        {
          forall j | i < j < |assignments|
            ensures assignments[j].0 == assignments[i].0 ==> assignments[j].1 == assignments[i].1
          {
            assert !Clash(options, i, j);
          }
          LastWins(assignments, i);
        }
      }
    }
  }

  /** Of the options `a-b` and `a_b`, both accepted, only the second keeps its value. */
  lemma DashAndUnderscoreClash()
    ensures
      var options := [("a-b", "1"), ("a_b", "2")];
      && AllExportable(options) && !OptionsArrive(options)
      && Environment(Assignments(options)) == map["A_B" := "2"]
  {
    var options := [("a-b", "1"), ("a_b", "2")];
    assert OptionEnvName("a-b") == "A_B" == OptionEnvName("a_b");
    assert Clash(options, 0, 1);
    OptionsArriveExactly(options);
    var assignments := Assignments(options);
    assert assignments == [("A_B", "1"), ("A_B", "2")];
    var first := [("A_B", "1")];
    assert first[..0] == [] && assignments[..1] == first;
    assert Environment(first) == map["A_B" := "1"];
  }

  // ---------------------------------------------------------------- reading: the script

  /** What the shell gets out of the script behind the line with the here-document operator, given
      the delimiter that the operator names: the archive, the commands that unpack it, an assignment
      for each option, and the installation. */
  ghost predicate ReadsBack(feature: Feature, text: string, delimiter: string) {
    match ReadHereDoc(text, delimiter)
    case None => false
    case Some((body, rest)) =>
      var unpack :=
        "tar -xzf \"$archive\" -C \"$feature_dir\"\n" +
        "chmod +x \"$feature_dir/install.sh\"\n" +
        "export _REMOTE_USER=\"$GUEST_USER\"\n" +
        "export _REMOTE_USER_HOME=\"/home/$GUEST_USER\"\n";
      && Decode(WithoutNewlines(body)) == Some(Octets(feature.archive))
      && unpack <= rest
      && ReadExports(rest[|unpack|..]) ==
           if AllExportable(feature.options)
           then Some((Assignments(feature.options), "cd " + "\"$feature_dir\"\n./install.sh\n)\n"))
           else None
  }

  /** The text in front of the first `<<`, and behind it. */
  function SplitRedirection(text: string): Option<(string, string)> {
    if |text| < 2 then None
    else if text[0] == '<' && text[1] == '<' then Some(("", text[2..]))
    else
      match SplitRedirection(text[1..])
      case None => None
      case Some((before, behind)) => Some(([text[0]] + before, behind))
  }

  /** The script behind its opening lines: a command that reads a here-document, whose quoted
      delimiter is the next word, and what the shell gets out of the following lines with it. */
  ghost predicate RunsAs(feature: Feature, text: string) {
    match SplitRedirection(text)
    case None => false
    case Some((command, behind)) =>
      && command == "base64 -d > \"$archive\" "
      && behind != "" && behind[0] == '\''
      && match ReadWord(behind, false)
         case None => false
         case Some((delimiter, line)) =>
           line != "" && line[0] == '\n' && ReadsBack(feature, line[1..], delimiter)
  }

  lemma {:induction false} RedirectionBehind(a: string, x: string)
    requires '<' !in a
    ensures SplitRedirection(a + ("<<" + x)) == Some((a, x))
  {
    var text := a + ("<<" + x);
    if a == "" {
      assert text == "<<" + x && text[2..] == x;
    } else {
      RedirectionBehind(a[1..], x);
      assert text[1..] == a[1..] + ("<<" + x);
      assert a == [a[0]] + a[1..];
    }
  }

  lemma {:induction false} NothingToEscape(value: string)
    requires '\'' !in value
    ensures EscapeQuotes(value) == value
  {
    if value != "" {
      NothingToEscape(value[1..]);
      assert value == [value[0]] + value[1..];
    }
  }

  lemma DelimiterHasNoQuote(feature: Feature)
    requires feature.Valid()
    ensures '\'' !in Delimiter(feature)
  {
    DelimiterPrefixFacts();
    assert forall i | 0 <= i < 16 :: IsHexDigit(feature.scriptHash[..16][i]);
  }

  /** For every archive and every option map. */
  lemma SnippetReadsBack(feature: Feature)
    requires feature.Valid()
    ensures ReadsBack(feature,
      HereDocument(Encode(Octets(feature.archive)), Delimiter(feature), UNPACK + (ExportLines(feature.options) + RUN)),
      Delimiter(feature))
  {
    hide Encode, Octets, Decode, WithoutNewlines, Delimiter, HereDocument, ReadHereDoc, ReadExports, ExportLines,
      AllExportable, Assignments;
    var exports := ExportLines(feature.options) + RUN;
    ArchiveReadsBack(feature, UNPACK + exports);
    ExportsReadBack(feature.options);
    assert (UNPACK + exports)[|UNPACK|..] == exports;
  }

  /** The delimiter that the shell takes from the operator line is the one that ends the
      document. */
  lemma ScriptRuns(feature: Feature, opening: string, out: string)
    requires feature.Valid()
    requires out == (opening + HereDocOperator(Delimiter(feature))) +
      HereDocument(Encode(Octets(feature.archive)), Delimiter(feature), UNPACK + (ExportLines(feature.options) + RUN))
    ensures opening <= out && RunsAs(feature, out[|opening|..])
  {
    SnippetReadsBack(feature);
    DelimiterHasNoQuote(feature);
    hide Encode, Octets, Delimiter, HereDocument, ReadsBack, RunsAs, ExportLines, UNPACK, RUN, HereDocOperator;
    var document :=
      HereDocument(Encode(Octets(feature.archive)), Delimiter(feature), UNPACK + (ExportLines(feature.options) + RUN));
    LineRuns(feature, Delimiter(feature), document);
    BehindOpening(opening, HereDocOperator(Delimiter(feature)), document);
  }

  lemma BehindOpening(a: string, b: string, c: string)
    ensures a <= (a + b) + c && ((a + b) + c)[|a|..] == b + c
  {
  }

  lemma LineRuns(feature: Feature, delimiter: string, document: string)
    requires feature.Valid() && '\'' !in delimiter && ReadsBack(feature, document, delimiter)
    ensures RunsAs(feature, HereDocOperator(delimiter) + document)
  {
    OperatorLine(delimiter, document);
    hide ReadsBack, ReadWord, SplitRedirection, HereDocOperator;
  }

  lemma OperatorLine(delimiter: string, document: string)
    requires '\'' !in delimiter
    ensures
      var quoted := "'" + (delimiter + ("'" + ("\n" + document)));
      && SplitRedirection(HereDocOperator(delimiter) + document) == Some(("base64 -d > \"$archive\" ", quoted))
      && ReadWord(quoted, false) == Some((delimiter, "\n" + document))
      && ("\n" + document)[1..] == document
  {
    var command := "base64 -d > \"$archive\" ";
    var quoted := "'" + (delimiter + ("'" + ("\n" + document)));
    assert HereDocOperator(delimiter) + document == command + ("<<" + quoted);
    RedirectionBehind(command, quoted);
    NothingToEscape(delimiter);
    QuotedIsOneWord(delimiter, "\n" + document);
    assert ShellSingleQuote(delimiter) + ("\n" + document) == quoted;
  }
}
