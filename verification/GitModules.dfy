/** Reading the URLs out of a `.gitmodules` file (`extract_urls` in `src/github_submodules.rs`). */
module GitModules {
  import opened Wrappers
  import opened RepoSlug

  // ---------------------------------------------------------------- lines

  function WithoutCr(line: string): string {
    if line != "" && line[|line| - 1] == '\r' then line[..|line| - 1] else line
  }

  /** `str::lines` */
  function Lines(text: string): seq<string>
    decreases |text|
  {
    if text == "" then []
    else
      match SplitOnce(text, '\n')
      case None => [text]
      case Some((line, rest)) => [WithoutCr(line)] + Lines(rest)
  }

  // ---------------------------------------------------------------- one line

  predicate IsUrlKey(key: string) {
    |key| == 3 && (key[0] == 'u' || key[0] == 'U') && (key[1] == 'r' || key[1] == 'R') && (key[2] == 'l' || key[2] == 'L')
  }

  /** The key is `url` in any case. */
  lemma KeyInAnyCase(key: string)
    ensures IsUrlKey(key) <==> key in ["url", "urL", "uRl", "uRL", "Url", "UrL", "URl", "URL"]
  {
    if |key| == 3 { assert key == [key[0], key[1], key[2]]; }
  }

  function TrimQuotesStart(s: string): string {
    if s != "" && s[0] == '"' then TrimQuotesStart(s[1..]) else s
  }

  function TrimQuotesEnd(s: string): string {
    if s != "" && s[|s| - 1] == '"' then TrimQuotesEnd(s[..|s| - 1]) else s
  }

  /** The value behind the equals sign; `None` when nothing is left of it. */
  function ValueOf(text: string): Option<string> {
    var value := TrimQuotesEnd(TrimQuotesStart(Trim(text)));
    if value == "" then None else Some(value)
  }

  function UrlOfLine(raw: string): Option<string> {
    var line := Trim(raw);
    if line == "" || line[0] == '#' || line[0] == ';' then None
    else
      match SplitOnce(line, '=')
      case None => None
      case Some((key, value)) => if IsUrlKey(Trim(key)) then ValueOf(value) else None
  }

  function Single(url: Option<string>): seq<string> {
    if url.Some? then [url.value] else []
  }

  function UrlsOf(lines: seq<string>): seq<string> {
    if lines == [] then [] else Single(UrlOfLine(lines[0])) + UrlsOf(lines[1..])
  }

  /** `extract_urls` */
  method ExtractUrls(gitmodules: string) returns (out: seq<string>)
    ensures out == UrlsOf(Lines(gitmodules))
  {
    hide UrlOfLine, ValueOf, Trim, Lines;
    out := [];
    var lines := Lines(gitmodules);
    for i := 0 to |lines|
      invariant out + UrlsOf(lines[i..]) == UrlsOf(lines)
    {
      assert lines[i..][0] == lines[i] && lines[i..][1..] == lines[i + 1..];
      var url := ExtractUrl(lines[i]);
      Reassociate(out, Single(url), UrlsOf(lines[i + 1..]));
      if url.Some? {
        out := out + [url.value];
      }
    }
  }

  /** The body of the loop. */
  method ExtractUrl(raw: string) returns (url: Option<string>)
    ensures url == UrlOfLine(raw)
  {
    var line := Trim(raw);
    if line == "" || line[0] == '#' || line[0] == ';' {
      return None;
    }
    var parts := SplitOnce(line, '=');
    if parts.None? {
      return None;
    }
    var (key, rest) := parts.value;
    if !IsUrlKey(Trim(key)) {
      return None;
    }
    var value := TrimQuotesEnd(TrimQuotesStart(Trim(rest)));
    if value != "" {
      return Some(value);
    }
    return None;
  }

  lemma Reassociate(a: seq<string>, b: seq<string>, c: seq<string>)
    ensures a + (b + c) == (a + b) + c
  {
  }

  // ---------------------------------------------------------------- what git writes

  datatype Entry = Entry(name: string, path: string, url: string)

  predicate IsEscaped(c: char) {
    c == '"' || c == '\\' || c == '\t' || c == '\n'
  }

  function EscapedChar(c: char): string {
    if c == '\n' then "\\n"
    else if c == '\t' then "\\t"
    else if c == '"' || c == '\\' then ['\\', c]
    else [c]
  }

  function Escaped(value: string): string {
    if value == "" then "" else EscapedChar(value[0]) + Escaped(value[1..])
  }

  /** Git puts a value between quotes when it would otherwise lose a space at an end, or take a
      part of it for a comment or a line ending. */
  predicate NeedsQuotes(value: string) {
    && value != ""
    && (value[0] == ' ' || value[|value| - 1] == ' ' || exists c | c in value :: c == ';' || c == '#' || c == '\r')
  }

  /** A value as `git config` writes it, by the syntax of git-config(1). */
  function GitValue(value: string): string {
    if NeedsQuotes(value) then "\"" + (Escaped(value) + "\"") else Escaped(value)
  }

  /** The subsection name between its quotes; it has no newline. */
  function GitName(name: string): string {
    if name == "" then ""
    else (if name[0] == '"' || name[0] == '\\' then ['\\', name[0]] else [name[0]]) + GitName(name[1..])
  }

  function HeaderLine(name: string): string {
    "[submodule \"" + name + "\"]"
  }

  function KeyLine(key: string, value: string): string {
    "\t" + (key + (" = " + value))
  }

  /** The sections that `git submodule add` writes. */
  function Rendered(entries: seq<Entry>): string {
    if entries == [] then ""
    else
      HeaderLine(GitName(entries[0].name)) + "\n"
      + (KeyLine("path", GitValue(entries[0].path)) + "\n"
         + (KeyLine("url", GitValue(entries[0].url)) + "\n" + Rendered(entries[1..])))
  }

  function UrlsIn(entries: seq<Entry>): seq<string> {
    if entries == [] then [] else [entries[0].url] + UrlsIn(entries[1..])
  }

  /** Git escapes nothing in the URL, and whitespace at an end is a space, which git quotes. */
  predicate Survives(url: string) {
    && url != ""
    && (forall c | c in url :: !IsEscaped(c))
    && (NeedsQuotes(url) || (!IsUnicodeWhitespace(url[0]) && !IsUnicodeWhitespace(url[|url| - 1])))
  }

  // ---------------------------------------------------------------- trimming

  lemma {:induction false} TrimEndOfConcat(a: string, u: string)
    ensures TrimEnd(a + u) == if TrimEnd(u) == "" then TrimEnd(a) else a + TrimEnd(u)
  {
    if u == "" {
      assert a + u == a;
    } else if IsUnicodeWhitespace(u[|u| - 1]) {
      assert (a + u)[..|a + u| - 1] == a + u[..|u| - 1];
      TrimEndOfConcat(a, u[..|u| - 1]);
    }
  }

  lemma {:induction false} TrimsCommute(u: string)
    ensures TrimStart(TrimEnd(u)) == TrimEnd(TrimStart(u))
  {
    if u != "" {
      if IsUnicodeWhitespace(u[0]) {
        TrimsCommute(u[1..]);
        assert u == [u[0]] + u[1..];
        TrimEndOfConcat([u[0]], u[1..]);
        assert TrimEnd([u[0]]) == "" by { assert [u[0]][..0] == ""; }
        if TrimEnd(u[1..]) != "" {
          assert ([u[0]] + TrimEnd(u[1..]))[1..] == TrimEnd(u[1..]);
        }
      } else {
        TrimEndKeepsHead(u);
      }
    }
  }

  lemma {:induction false} TrimEndKeepsHead(u: string)
    requires u != "" && !IsUnicodeWhitespace(u[0])
    ensures TrimEnd(u) != "" && TrimEnd(u)[0] == u[0]
  {
    if IsUnicodeWhitespace(u[|u| - 1]) { TrimEndKeepsHead(u[..|u| - 1]); }
  }

  lemma {:induction false} TrimEndTwice(u: string)
    ensures TrimEnd(TrimEnd(u)) == TrimEnd(u)
  {
    if u != "" && IsUnicodeWhitespace(u[|u| - 1]) { TrimEndTwice(u[..|u| - 1]); }
  }

  lemma TrimWithoutCr(line: string)
    ensures Trim(WithoutCr(line)) == Trim(line)
  {
    TrimsCommute(line);
    TrimsCommute(WithoutCr(line));
  }

  // ---------------------------------------------------------------- the three lines of an entry

  lemma HeaderHasNoUrl(name: string)
    ensures UrlOfLine(HeaderLine(name)) == None
  {
    var line := HeaderLine(name);
    assert line[0] == '[' && line[|line| - 1] == ']';
    assert Trim(line) == line;
    match SplitOnce(line, '=')
    case None =>
    case Some((key, value)) =>
      assert key != "" && key[0] == '[';
      TrimEndKeepsHead(key);
  }

  predicate IsWord(key: string) {
    key != "" && forall c | c in key :: 'a' <= c <= 'z'
  }

  lemma {:induction false} WordIsTrimmed(key: string, tail: string)
    requires IsWord(key)
    ensures TrimStart(key + tail) == key + tail && Trim(key) == key && Trim(key + " ") == key
  {
    assert key[0] in key && key[|key| - 1] in key;
    assert (key + tail)[0] == key[0];
    assert (key + " ")[0] == key[0] && (key + " ")[..|key|] == key;
  }

  lemma TrimmedKeyLine(key: string, value: string)
    requires IsWord(key)
    ensures Trim(KeyLine(key, value)) ==
      (key + " ") + ['='] + (if TrimEnd(value) == "" then "" else " " + TrimEnd(value))
  {
    AfterTab(key, value);
    SpellAround(key, value);
    TrimEndOfConcat(key + " = ", value);
    EqualsAtEnd(key);
    SpellKey(key, TrimEnd(value));
    hide TrimStart, TrimEnd, IsWord, KeyLine;
  }

  lemma AfterTab(key: string, value: string)
    requires IsWord(key)
    ensures TrimStart(KeyLine(key, value)) == key + (" = " + value)
  {
    assert KeyLine(key, value)[1..] == key + (" = " + value);
    WordIsTrimmed(key, " = " + value);
  }

  lemma EqualsAtEnd(key: string)
    ensures TrimEnd(key + " = ") == key + " ="
  {
    assert (key + " = ")[..|key| + 2] == key + " =";
  }

  lemma SpellAround(key: string, value: string)
    ensures key + (" = " + value) == (key + " = ") + value
  {
  }

  lemma SpellKey(key: string, rest: string)
    ensures (key + " = ") + rest == (key + " ") + ['='] + (" " + rest)
    ensures key + " =" == (key + " ") + ['='] + ""
  {
  }

  lemma KeyLineValue(key: string, value: string)
    requires IsWord(key)
    ensures UrlOfLine(KeyLine(key, value)) == if IsUrlKey(key) then ValueOf(value) else None
  {
    TrimmedKeyLine(key, value);
    WordIsTrimmed(key, "");
    SpacedValue(value);
    var rest := if TrimEnd(value) == "" then "" else " " + TrimEnd(value);
    SplitKey(key, rest);
    hide Trim, TrimEnd, IsWord, IsUrlKey, SplitOnce, KeyLine;
  }

  lemma SpacedValue(value: string)
    ensures Trim(if TrimEnd(value) == "" then "" else " " + TrimEnd(value)) == Trim(value)
  {
    TrimsCommute(value);
    if TrimEnd(value) != "" {
      var rest := TrimEnd(value);
      assert (" " + rest)[1..] == rest;
      TrimEndTwice(value);
      TrimsCommute(rest);
    }
  }

  lemma SplitKey(key: string, rest: string)
    requires IsWord(key)
    ensures
      var line := (key + " ") + ['='] + rest;
      && line != "" && line[0] != '#' && line[0] != ';'
      && SplitOnce(line, '=') == Some((key + " ", rest))
  {
    assert ((key + " ") + ['='] + rest)[0] == key[0] && key[0] in key;
    SplitOnceOf(key + " ", '=', rest);
  }

  // ---------------------------------------------------------------- the whole file

  lemma LinesStep(line: string, rest: string)
    requires '\n' !in line
    ensures UrlsOf(Lines(line + "\n" + rest)) == Single(UrlOfLine(line)) + UrlsOf(Lines(rest))
  {
    hide Trim, ValueOf, IsUrlKey;
    var text := line + "\n" + rest;
    SplitOnceOf(line, '\n', rest);
    TrimWithoutCr(line);
    assert text != "";
    assert Lines(text) == [WithoutCr(line)] + Lines(rest);
    assert ([WithoutCr(line)] + Lines(rest))[1..] == Lines(rest);
  }

  function Values(urls: seq<string>): seq<string> {
    if urls == [] then [] else Single(ValueOf(GitValue(urls[0]))) + Values(urls[1..])
  }

  lemma {:induction false} EscapedIsOneLine(value: string)
    ensures '\n' !in Escaped(value) && '\n' !in GitValue(value)
  {
    if value != "" { EscapedIsOneLine(value[1..]); }
  }

  lemma {:induction false} NameIsOneLine(name: string)
    requires '\n' !in name
    ensures '\n' !in GitName(name)
  {
    if name != "" {
      assert name == [name[0]] + name[1..];
      NameIsOneLine(name[1..]);
    }
  }

  lemma EntryLines(name: string, path: string, url: string, rest: string)
    requires '\n' !in name && '\n' !in path && '\n' !in url
    ensures
      UrlsOf(Lines(HeaderLine(name) + "\n" + (KeyLine("path", path) + "\n" + (KeyLine("url", url) + "\n" + rest)))) ==
        Single(ValueOf(url)) + UrlsOf(Lines(rest))
  {
    hide UrlOfLine, ValueOf, UrlsOf, Lines;
    var last := KeyLine("url", url) + "\n" + rest;
    LinesStep(KeyLine("url", url), rest);
    LinesStep(KeyLine("path", path), last);
    LinesStep(HeaderLine(name), KeyLine("path", path) + "\n" + last);
    HeaderHasNoUrl(name);
    KeyLineValue("path", path);
    KeyLineValue("url", url);
  }

  lemma {:induction false} ExtractRendered(entries: seq<Entry>)
    requires forall e | e in entries :: '\n' !in e.name
    ensures UrlsOf(Lines(Rendered(entries))) == Values(UrlsIn(entries))
  {
    hide UrlOfLine, ValueOf, UrlsOf, Lines, GitValue, GitName, HeaderLine, KeyLine;
    if entries == [] {
      NoLines();
    } else {
      var e := entries[0];
      assert e in entries;
      ExtractRendered(entries[1..]);
      NameIsOneLine(e.name);
      EscapedIsOneLine(e.path);
      EscapedIsOneLine(e.url);
      EntryLines(GitName(e.name), GitValue(e.path), GitValue(e.url), Rendered(entries[1..]));
      assert UrlsIn(entries)[1..] == UrlsIn(entries[1..]);
    }
  }

  lemma NoLines()
    ensures UrlsOf(Lines("")) == []
  {
  }

  function Backslashes(s: string): nat {
    if s == "" then 0 else Backslashes(s[1..]) + (if s[0] == '\\' then 1 else 0)
  }

  lemma {:induction false} BackslashesConcat(a: string, b: string)
    ensures Backslashes(a + b) == Backslashes(a) + Backslashes(b)
  {
    if a == "" {
      assert a + b == b;
    } else {
      BackslashesConcat(a[1..], b);
      assert (a + b)[1..] == a[1..] + b;
    }
  }

  /** Escaping adds a backslash for every character it touches. */
  lemma {:induction false} EscapedBackslashes(value: string)
    ensures Backslashes(Escaped(value)) >= Backslashes(value)
    ensures Backslashes(Escaped(value)) == Backslashes(value) <==> forall c | c in value :: !IsEscaped(c)
    ensures (forall c | c in value :: !IsEscaped(c)) ==> Escaped(value) == value
  {
    if value != "" {
      assert value == [value[0]] + value[1..];
      EscapedBackslashes(value[1..]);
      BackslashesConcat(EscapedChar(value[0]), Escaped(value[1..]));
      CharBackslashes(value[0]);
    }
  }

  lemma CharBackslashes(c: char)
    ensures Backslashes(EscapedChar(c)) == (if c == '\\' then 1 else 0) + (if IsEscaped(c) then 1 else 0)
  {
    var e := EscapedChar(c);
    if |e| == 2 { BackslashesConcat([e[0]], [e[1]]); }
    assert forall d: char :: Backslashes([d]) == if d == '\\' then 1 else 0 by {
      assert forall d: char :: [d][1..] == "";
    }
    assert |e| == 2 ==> e == [e[0]] + [e[1]];
  }

  /** Trimming takes no backslash away. */
  lemma {:induction false} StartKeepsBackslashes(s: string)
    ensures Backslashes(TrimStart(s)) == Backslashes(s) && Backslashes(TrimQuotesStart(s)) == Backslashes(s)
  {
    if s != "" { StartKeepsBackslashes(s[1..]); }
  }

  lemma {:induction false} EndKeepsBackslashes(s: string)
    ensures Backslashes(TrimEnd(s)) == Backslashes(s) && Backslashes(TrimQuotesEnd(s)) == Backslashes(s)
  {
    if s != "" {
      var n := |s| - 1;
      EndKeepsBackslashes(s[..n]);
      assert s == s[..n] + [s[n]];
      BackslashesConcat(s[..n], [s[n]]);
      assert [s[n]][1..] == "";
    }
  }

  lemma ValueKeepsBackslashes(text: string)
    ensures ValueOf(text).Some? ==> Backslashes(ValueOf(text).value) == Backslashes(text)
  {
    StartKeepsBackslashes(text);
    EndKeepsBackslashes(TrimStart(text));
    StartKeepsBackslashes(Trim(text));
    EndKeepsBackslashes(TrimQuotesStart(Trim(text)));
  }

  /** What is read of a value that git quotes but does not escape is the value. */
  lemma QuotedValue(url: string)
    requires url != "" && forall c | c in url :: !IsEscaped(c)
    ensures ValueOf("\"" + (url + "\"")) == Some(url)
  {
    var text := "\"" + (url + "\"");
    assert Trim(text) == text;
    assert text[1..] == url + "\"";
    assert url[0] in url && url[|url| - 1] in url;
    var rest := url + "\"";
    assert rest[0] == url[0] && rest[|rest| - 1] == '"' && rest[..|rest| - 1] == url;
    assert TrimQuotesStart(text) == TrimQuotesStart(rest) == rest;
    assert TrimQuotesEnd(rest) == TrimQuotesEnd(url) == url;
  }

  lemma ValueSurvives(url: string)
    ensures ValueOf(GitValue(url)) == Some(url) <==> Survives(url)
  {
    hide TrimStart, TrimEnd, TrimQuotesStart, TrimQuotesEnd, NeedsQuotes;
    var text := GitValue(url);
    EscapedBackslashes(url);
    if exists c | c in url :: IsEscaped(c) {
      ValueKeepsBackslashes(text);
      BackslashesConcat("\"", Escaped(url) + "\"");
      BackslashesConcat(Escaped(url), "\"");
    } else if NeedsQuotes(url) {
      assert url != "" by { QuotedIsNonEmpty(url); }
      QuotedValue(url);
    } else {
      UnquotedValue(url);
    }
  }

  lemma QuotedIsNonEmpty(url: string)
    ensures NeedsQuotes(url) ==> url != ""
  {
  }

  lemma UnquotedValue(url: string)
    requires forall c | c in url :: !IsEscaped(c)
    ensures ValueOf(url) == Some(url) <==>
      url != "" && !IsUnicodeWhitespace(url[0]) && !IsUnicodeWhitespace(url[|url| - 1])
  {
    StartShrinks(url);
    EndShrinks(TrimStart(url));
    QuotesStartShrinks(Trim(url));
    QuotesEndShrinks(TrimQuotesStart(Trim(url)));
    if url != "" { assert url[0] in url && url[|url| - 1] in url; }
  }

  lemma {:induction false} StartShrinks(s: string)
    ensures |TrimStart(s)| <= |s|
    ensures s != "" && IsUnicodeWhitespace(s[0]) ==> |TrimStart(s)| < |s|
  {
    if s != "" && IsUnicodeWhitespace(s[0]) { StartShrinks(s[1..]); }
  }

  lemma {:induction false} EndShrinks(s: string)
    ensures |TrimEnd(s)| <= |s|
    ensures s != "" && IsUnicodeWhitespace(s[|s| - 1]) ==> |TrimEnd(s)| < |s|
  {
    if s != "" && IsUnicodeWhitespace(s[|s| - 1]) { EndShrinks(s[..|s| - 1]); }
  }

  lemma {:induction false} QuotesStartShrinks(s: string)
    ensures |TrimQuotesStart(s)| <= |s|
    ensures s != "" && s[0] == '"' ==> |TrimQuotesStart(s)| < |s|
  {
    if s != "" && s[0] == '"' { QuotesStartShrinks(s[1..]); }
  }

  lemma {:induction false} QuotesEndShrinks(s: string)
    ensures |TrimQuotesEnd(s)| <= |s|
    ensures s != "" && s[|s| - 1] == '"' ==> |TrimQuotesEnd(s)| < |s|
  {
    if s != "" && s[|s| - 1] == '"' { QuotesEndShrinks(s[..|s| - 1]); }
  }

  lemma {:induction false} ValuesExactly(urls: seq<string>)
    ensures |Values(urls)| <= |urls|
    ensures Values(urls) == urls <==> forall u | u in urls :: Survives(u)
  {
    hide ValueOf, Survives, GitValue;
    if urls != [] {
      assert urls == [urls[0]] + urls[1..];
      ValueSurvives(urls[0]);
      ValuesExactly(urls[1..]);
      if ValueOf(GitValue(urls[0])).Some? {
        assert Values(urls)[0] == ValueOf(GitValue(urls[0])).value && Values(urls)[1..] == Values(urls[1..]);
      }
    }
  }

  // ---------------------------------------------------------------- no URL spans lines

  predicate Within(s: string, t: string) {
    forall c | c in s :: c in t
  }

  lemma {:induction false} TrimEndWithin(s: string)
    ensures Within(TrimEnd(s), s)
  {
    if s != "" && IsUnicodeWhitespace(s[|s| - 1]) { TrimEndWithin(s[..|s| - 1]); }
  }

  lemma {:induction false} TrimStartWithin(s: string)
    ensures Within(TrimStart(s), s)
  {
    if s != "" && IsUnicodeWhitespace(s[0]) { TrimStartWithin(s[1..]); }
  }

  lemma {:induction false} TrimQuotesWithin(s: string)
    ensures Within(TrimQuotesStart(s), s) && Within(TrimQuotesEnd(s), s)
  {
    if s != "" && s[0] == '"' { TrimQuotesWithin(s[1..]); }
    if s != "" && s[|s| - 1] == '"' { TrimQuotesWithin(s[..|s| - 1]); }
  }

  lemma TrimWithin(s: string)
    ensures Within(Trim(s), s)
  {
    TrimStartWithin(s);
    TrimEndWithin(TrimStart(s));
  }

  lemma UrlWithinLine(raw: string)
    ensures UrlOfLine(raw).Some? ==> Within(UrlOfLine(raw).value, raw)
  {
    hide Trim, TrimQuotesStart, TrimQuotesEnd, IsUrlKey;
    var line := Trim(raw);
    TrimWithin(raw);
    match SplitOnce(line, '=')
    case None =>
    case Some((key, value)) =>
      assert Within(value, line);
      TrimWithin(value);
      TrimQuotesWithin(Trim(value));
      TrimQuotesWithin(TrimQuotesStart(Trim(value)));
  }

  lemma {:induction false} UrlsStayOnLines(text: string)
    ensures forall u | u in UrlsOf(Lines(text)) :: '\n' !in u
    decreases |text|
  {
    hide UrlOfLine;
    if text != "" {
      match SplitOnce(text, '\n')
      case None =>
        UrlWithinLine(text);
        assert [text][1..] == [];
      case Some((line, rest)) =>
        UrlsStayOnLines(rest);
        UrlWithinLine(WithoutCr(line));
        assert Lines(text)[1..] == Lines(rest);
    }
  }

  lemma {:induction false} UrlsInMembers(entries: seq<Entry>)
    ensures |UrlsIn(entries)| == |entries|
    ensures forall e | e in entries :: e.url in UrlsIn(entries)
    ensures forall u | u in UrlsIn(entries) :: exists e :: e in entries && e.url == u
  {
    if entries != [] {
      UrlsInMembers(entries[1..]);
      assert entries == [entries[0]] + entries[1..];
      forall u | u in UrlsIn(entries) ensures exists e :: e in entries && e.url == u {
        if u != entries[0].url {
          var e :| e in entries[1..] && e.url == u;
          assert e in entries;
        } else {
          assert entries[0] in entries;
        }
      }
    }
  }

  /** What git wrote for a list of submodules yields exactly their URLs, in order, if and only if no
      URL holds a character that git escapes, is empty, or has whitespace other than spaces at an
      end that no quotes protect. */
  lemma ExtractExactly(entries: seq<Entry>)
    requires forall e | e in entries :: '\n' !in e.name
    ensures UrlsOf(Lines(Rendered(entries))) == UrlsIn(entries) <==> forall e | e in entries :: Survives(e.url)
  {
    hide Rendered, UrlsOf, Lines, Survives;
    UrlsInMembers(entries);
    ExtractRendered(entries);
    ValuesExactly(UrlsIn(entries));
  }

  /** Escapes are not undone: a backslash comes back doubled. */
  lemma BackslashDoubles()
    ensures ValueOf(GitValue("C:\\r")) == Some("C:\\\\r")
  {
    var url, text := "C:\\r", "C:\\\\r";
    assert url[1..] == ":\\r" && ":\\r"[1..] == "\\r" && "\\r"[1..] == "r" && "r"[1..] == "";
    assert Escaped("r") == "r" && Escaped("\\r") == "\\\\r" && Escaped(":\\r") == ":\\\\r";
    assert Escaped(url) == text && !NeedsQuotes(url);
    assert Trim(text) == text;
  }
}
