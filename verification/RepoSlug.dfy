/** GitHub `owner/repo` slugs and the URL parser of `src/github_repo.rs`. */
module RepoSlug {
  import opened Wrappers

  predicate IsSafeNameChar(c: char) {
    'a' <= c <= 'z' || 'A' <= c <= 'Z' || '0' <= c <= '9' || c == '-' || c == '_' || c == '.'
  }

  predicate IsValidSegment(s: string) {
    forall i | 0 <= i < |s| :: IsSafeNameChar(s[i])
  }

  /** `str::split_once` at the first occurrence of `c`. */
  function SplitOnce(s: string, c: char): (r: Option<(string, string)>)
    ensures r.None? ==> c !in s
    ensures r.Some? ==> s == r.value.0 + [c] + r.value.1 && c !in r.value.0
  {
    if s == "" then None
    else if s[0] == c then Some(("", s[1..]))
    else
      match SplitOnce(s[1..], c)
      case None => None
      case Some((a, b)) => Some(([s[0]] + a, b))
  }

  /** `RepoSlug::new`; a slug is represented by its text. */
  function NewSlug(s: string): Option<string> {
    match SplitOnce(s, '/')
    case None => None
    case Some((owner, repo)) =>
      if owner == "" || repo == "" then None
      else if '/' in repo then None
      else if !IsValidSegment(owner) || !IsValidSegment(repo) then None
      else Some(s)
  }

  /** What a slug is: two non-empty segments of safe characters around the only slash. */
  ghost predicate IsSlugOf(s: string, owner: string, repo: string) {
    && s == owner + "/" + repo
    && owner != "" && repo != ""
    && IsValidSegment(owner) && IsValidSegment(repo)
  }

  predicate IsSlug(s: string) {
    NewSlug(s).Some?
  }

  function Owner(slug: string): string
    requires IsSlug(slug)
  {
    SplitOnce(slug, '/').value.0
  }

  function Repo(slug: string): string
    requires IsSlug(slug)
  {
    SplitOnce(slug, '/').value.1
  }

  lemma {:induction false} SplitOnceOf(a: string, c: char, b: string)
    requires c !in a
    ensures SplitOnce(a + [c] + b, c) == Some((a, b))
  {
    var s := a + [c] + b;
    if a == "" {
      assert s[1..] == b;
    } else {
      SplitOnceOf(a[1..], c, b);
      assert s[1..] == a[1..] + [c] + b;
      assert a == [a[0]] + a[1..];
    }
  }

  /** The constructor accepts exactly the slugs, and a slug has one owner and one repository. */
  lemma SlugExactly(s: string, owner: string, repo: string)
    ensures IsSlugOf(s, owner, repo) <==> IsSlug(s) && Owner(s) == owner && Repo(s) == repo
    ensures IsSlug(s) ==> IsSlugOf(s, Owner(s), Repo(s))
  {
    if IsSlugOf(s, owner, repo) {
      assert '/' !in owner && '/' !in repo;
      SplitOnceOf(owner, '/', repo);
    }
  }

  // ---------------------------------------------------------------- URLs

  /** Unicode `White_Space`, which `str::trim` strips. */
  predicate IsUnicodeWhitespace(c: char) {
    var n := c as int;
    9 <= n <= 13 || n == 0x20 || n == 0x85 || n == 0xA0 || n == 0x1680 || 0x2000 <= n <= 0x200A ||
    n == 0x2028 || n == 0x2029 || n == 0x202F || n == 0x205F || n == 0x3000
  }

  function TrimStart(s: string): string {
    if s != "" && IsUnicodeWhitespace(s[0]) then TrimStart(s[1..]) else s
  }

  function TrimEnd(s: string): string {
    if s != "" && IsUnicodeWhitespace(s[|s| - 1]) then TrimEnd(s[..|s| - 1]) else s
  }

  function Trim(s: string): string {
    TrimEnd(TrimStart(s))
  }

  const PREFIXES: seq<string> :=
    ["https://github.com/", "http://github.com/", "ssh://git@github.com/", "git@github.com:"]

  /** `trim_end_matches('/')` */
  function TrimSlashes(s: string): string {
    if s != "" && s[|s| - 1] == '/' then TrimSlashes(s[..|s| - 1]) else s
  }

  predicate EndsWithGit(s: string) {
    |s| >= 4 && s[|s| - 4..] == ".git"
  }

  function Canonicalize(path: string): Option<string> {
    var trimmed := TrimSlashes(path);
    NewSlug(if EndsWithGit(trimmed) then trimmed[..|trimmed| - 4] else trimmed)
  }

  /** The first prefix that matches decides. */
  function ParseAfter(trimmed: string, prefixes: seq<string>): Option<string> {
    if prefixes == [] then None
    else if prefixes[0] <= trimmed then Canonicalize(trimmed[|prefixes[0]|..])
    else ParseAfter(trimmed, prefixes[1..])
  }

  /** `parse_repo_slug_from_url` */
  function ParseUrl(url: string): Option<string> {
    ParseAfter(Trim(url), PREFIXES)
  }

  // ---------------------------------------------------------------- the exact inverse

  function Slashes(n: nat): string {
    seq(n, _ => '/')
  }

  /** `path` spells `slug`: the slug, then `.git` or (if the slug does not itself end in `.git`)
      nothing, then slashes. */
  ghost predicate Spells(path: string, slug: string) {
    exists n: nat ::
      || path == slug + ".git" + Slashes(n)
      || (path == slug + Slashes(n) && !EndsWithGit(slug))
  }

  lemma {:induction false} TrimSlashesOf(s: string) returns (n: nat)
    ensures s == TrimSlashes(s) + Slashes(n)
    ensures TrimSlashes(s) == "" || TrimSlashes(s)[|TrimSlashes(s)| - 1] != '/'
  {
    if s != "" && s[|s| - 1] == '/' {
      var m := TrimSlashesOf(s[..|s| - 1]);
      n := m + 1;
      assert Slashes(n) == Slashes(m) + "/";
    } else {
      n := 0;
    }
  }

  lemma {:induction false} TrimSlashesBack(s: string, n: nat)
    requires s == "" || s[|s| - 1] != '/'
    ensures TrimSlashes(s + Slashes(n)) == s
  {
    var t := s + Slashes(n);
    if n == 0 {
      assert t == s;
    } else {
      TrimSlashesBack(s, n - 1);
      assert t[..|t| - 1] == s + Slashes(n - 1);
    }
  }

  lemma SlugHasNoSlashAtEnd(s: string)
    requires IsSlug(s)
    ensures s != "" && s[|s| - 1] != '/' && !IsUnicodeWhitespace(s[|s| - 1])
  {
    SlugExactly(s, Owner(s), Repo(s));
  }

  lemma CanonicalizeExactly(path: string, slug: string)
    ensures Canonicalize(path) == Some(slug) <==> IsSlug(slug) && Spells(path, slug)
  {
    if Canonicalize(path) == Some(slug) {
      var n := TrimSlashesOf(path);
      var trimmed := TrimSlashes(path);
      if EndsWithGit(trimmed) {
        assert slug == trimmed[..|trimmed| - 4] && trimmed == slug + ".git";
      } else {
        assert path == slug + Slashes(n);
      }
    }
    if IsSlug(slug) && Spells(path, slug) {
      SlugHasNoSlashAtEnd(slug);
      var n: nat :| path == slug + ".git" + Slashes(n) || (path == slug + Slashes(n) && !EndsWithGit(slug));
      if path == slug + ".git" + Slashes(n) {
        TrimSlashesBack(slug + ".git", n);
        assert (slug + ".git")[..|slug|] == slug;
      } else {
        TrimSlashesBack(slug, n);
      }
    }
  }

  /** No prefix starts another one, so at most one of them matches a text. */
  lemma OnePrefix(s: string, i: nat, j: nat)
    requires i < 4 && j < 4 && PREFIXES[i] <= s && PREFIXES[j] <= s
    ensures i == j
  {
    assert PREFIXES[0][0] == PREFIXES[1][0] == 'h' && PREFIXES[2][0] == 's' && PREFIXES[3][0] == 'g';
    assert PREFIXES[0][4] == 's' && PREFIXES[1][4] == ':';
    assert s[0] == PREFIXES[i][0] == PREFIXES[j][0] && s[4] == PREFIXES[i][4] == PREFIXES[j][4];
  }

  lemma {:induction false} ParseAfterExactly(s: string, k: nat, slug: string)
    requires k <= 4
    ensures ParseAfter(s, PREFIXES[k..]) == Some(slug) <==>
            exists i | k <= i < 4 :: PREFIXES[i] <= s && Canonicalize(s[|PREFIXES[i]|..]) == Some(slug)
    decreases 4 - k
  {
    if k < 4 {
      ParseAfterExactly(s, k + 1, slug);
      assert PREFIXES[k..][1..] == PREFIXES[k + 1..];
      if PREFIXES[k] <= s {
        forall i | k <= i < 4 && PREFIXES[i] <= s ensures i == k { OnePrefix(s, i, k); }
      }
    }
  }

  /** The parser yields a slug exactly when the trimmed URL is a known prefix followed by a
      spelling of that slug. */
  lemma ParseUrlExactly(url: string, slug: string)
    ensures ParseUrl(url) == Some(slug) <==>
            IsSlug(slug) &&
            exists i | 0 <= i < 4 :: PREFIXES[i] <= Trim(url) && Spells(Trim(url)[|PREFIXES[i]|..], slug)
  {
    assert PREFIXES[0..] == PREFIXES;
    ParseAfterExactly(Trim(url), 0, slug);
    forall i | 0 <= i < 4 && PREFIXES[i] <= Trim(url) {
      CanonicalizeExactly(Trim(url)[|PREFIXES[i]|..], slug);
    }
  }

  lemma TrimmedAlready(s: string)
    requires s != "" && !IsUnicodeWhitespace(s[0]) && !IsUnicodeWhitespace(s[|s| - 1])
    ensures Trim(s) == s
  {
  }

  lemma PrefixFacts(i: nat)
    requires i < 4
    ensures |PREFIXES[i]| > 4 && PREFIXES[i][0] in "hsg"
  {
  }

  lemma ParseBehindPrefix(path: string, i: nat)
    requires i < 4 && path != "" && !IsUnicodeWhitespace(path[|path| - 1])
    ensures ParseUrl(PREFIXES[i] + path) == Canonicalize(path)
  {
    PrefixFacts(i);
    var url := PREFIXES[i] + path;
    hide PREFIXES, Canonicalize;
    assert url[0] == PREFIXES[i][0] && url[|url| - 1] == path[|path| - 1] && url[|PREFIXES[i]|..] == path;
    TrimmedAlready(url);
    OnlyMatch(url, 0, i);
    assert PREFIXES[0..] == PREFIXES;
  }

  lemma {:induction false} OnlyMatch(s: string, k: nat, i: nat)
    requires k <= i < 4 && PREFIXES[i] <= s
    ensures ParseAfter(s, PREFIXES[k..]) == Canonicalize(s[|PREFIXES[i]|..])
    decreases 4 - k
  {
    if k < i {
      if PREFIXES[k] <= s { OnePrefix(s, i, k); }
      OnlyMatch(s, k + 1, i);
      assert PREFIXES[k..][1..] == PREFIXES[k + 1..];
    }
  }

  /** Printing a slug behind any prefix and parsing it gives the slug back: always with `.git`
      appended, and without it exactly when the slug does not end in `.git` itself. */
  lemma PrintThenParse(slug: string, i: nat)
    requires IsSlug(slug) && i < 4
    ensures ParseUrl(PREFIXES[i] + (slug + ".git")) == Some(slug)
    ensures ParseUrl(PREFIXES[i] + slug) == Some(slug) <==> !EndsWithGit(slug)
  {
    SlugHasNoSlashAtEnd(slug);
    ParseBehindPrefix(slug + ".git", i);
    ParseBehindPrefix(slug, i);
    assert slug + ".git" + Slashes(0) == slug + ".git";
    CanonicalizeExactly(slug + ".git", slug);
    CanonicalizeExactly(slug, slug);
    SpellsItself(slug);
  }

  lemma SpellsItself(slug: string)
    ensures Spells(slug, slug) <==> !EndsWithGit(slug)
  {
    if Spells(slug, slug) {
      var n: nat :| slug == slug + ".git" + Slashes(n) || (slug == slug + Slashes(n) && !EndsWithGit(slug));
      assert |slug + ".git" + Slashes(n)| > |slug|;
    }
    assert slug + Slashes(0) == slug;
  }

  // ---------------------------------------------------------------- spelled out

  /** A GitHub URL of a repository: one of four prefixes, and a spelling of the slug. */
  ghost predicate IsUrlOf(text: string, slug: string) {
    || ("https://github.com/" <= text && Spells(text[19..], slug))
    || ("http://github.com/" <= text && Spells(text[18..], slug))
    || ("ssh://git@github.com/" <= text && Spells(text[21..], slug))
    || ("git@github.com:" <= text && Spells(text[15..], slug))
  }

  lemma ParsesUrlsOf(url: string, slug: string)
    ensures ParseUrl(url) == Some(slug) <==> IsSlug(slug) && IsUrlOf(Trim(url), slug)
  {
    ParseUrlExactly(url, slug);
    hide Spells, Trim, IsSlug;
    var text := Trim(url);
    if IsUrlOf(text, slug) {
      if "https://github.com/" <= text && Spells(text[19..], slug) {
        assert PREFIXES[0] <= text && Spells(text[|PREFIXES[0]|..], slug);
      } else if "http://github.com/" <= text && Spells(text[18..], slug) {
        assert PREFIXES[1] <= text && Spells(text[|PREFIXES[1]|..], slug);
      } else if "ssh://git@github.com/" <= text && Spells(text[21..], slug) {
        assert PREFIXES[2] <= text && Spells(text[|PREFIXES[2]|..], slug);
      } else {
        assert PREFIXES[3] <= text && Spells(text[|PREFIXES[3]|..], slug);
      }
    }
  }

  const LOWER := "abcdefghijklmnopqrstuvwxyz"
  const UPPER := "ABCDEFGHIJKLMNOPQRSTUVWXYZ"

  /** The characters of owners and repositories. */
  lemma SafeCharacters(c: char)
    ensures IsSafeNameChar(c) <==> c in LOWER || c in UPPER || c in "0123456789" || c in "-_."
  {
    LettersBetween(c);
    DigitsBetween(c);
  }

  lemma DigitsBetween(c: char)
    ensures c in "0123456789" <==> '0' <= c <= '9'
  {
    if '0' <= c <= '9' { assert "0123456789"[c as int - '0' as int] == c; }
  }

  lemma LetterCodes()
    ensures |LOWER| == |UPPER| == 26
    ensures forall v: nat | v < 26 :: LOWER[v] as int == 'a' as int + v
    ensures forall v: nat | v < 26 :: UPPER[v] as int == 'A' as int + v
  {
  }

  lemma LettersBetween(c: char)
    ensures c in LOWER <==> 'a' <= c <= 'z'
    ensures c in UPPER <==> 'A' <= c <= 'Z'
  {
    LetterCodes();
    hide LOWER, UPPER;
    if 'a' <= c <= 'z' { assert LOWER[c as int - 'a' as int] == c; }
    if 'A' <= c <= 'Z' { assert UPPER[c as int - 'A' as int] == c; }
  }

  /** The code points of Unicode `White_Space`. */
  const WHITE_SPACE: set<int> :=
    {9, 10, 11, 12, 13, 32, 133, 160, 5760,
     8192, 8193, 8194, 8195, 8196, 8197, 8198, 8199, 8200, 8201, 8202, 8232, 8233, 8239, 8287, 12288}

  /** Trimming takes whitespace off both ends, all of it and nothing else. */
  lemma TrimExactly(s: string) returns (a: string, b: string)
    ensures s == (a + Trim(s)) + b
    ensures forall c | c in a || c in b :: c as int in WHITE_SPACE
    ensures Trim(s) != "" ==> Trim(s)[0] as int !in WHITE_SPACE && Trim(s)[|Trim(s)| - 1] as int !in WHITE_SPACE
  {
    a := StartTrimmed(s);
    b := EndTrimmed(TrimStart(s));
    assert s == a + TrimStart(s) == a + (Trim(s) + b);
    assert a + (Trim(s) + b) == (a + Trim(s)) + b;
    if Trim(s) != "" { assert TrimStart(s)[0] == (Trim(s) + b)[0] == Trim(s)[0]; }
  }

  lemma {:induction false} StartTrimmed(s: string) returns (a: string)
    ensures s == a + TrimStart(s) && forall c | c in a :: IsUnicodeWhitespace(c) && c as int in WHITE_SPACE
    ensures TrimStart(s) != "" ==> !IsUnicodeWhitespace(TrimStart(s)[0]) && TrimStart(s)[0] as int !in WHITE_SPACE
  {
    if s != "" && IsUnicodeWhitespace(s[0]) {
      a := StartTrimmed(s[1..]);
      a := [s[0]] + a;
    } else {
      a := "";
    }
  }

  lemma {:induction false} EndTrimmed(s: string) returns (b: string)
    ensures s == TrimEnd(s) + b && forall c | c in b :: IsUnicodeWhitespace(c) && c as int in WHITE_SPACE
    ensures TrimEnd(s) != "" ==>
      !IsUnicodeWhitespace(TrimEnd(s)[|TrimEnd(s)| - 1]) && TrimEnd(s)[|TrimEnd(s)| - 1] as int !in WHITE_SPACE
  {
    if s != "" && IsUnicodeWhitespace(s[|s| - 1]) {
      b := EndTrimmed(s[..|s| - 1]);
      b := b + [s[|s| - 1]];
    } else {
      b := "";
    }
  }

  lemma TrimTwice(s: string)
    ensures Trim(Trim(s)) == Trim(s)
  {
    var a, b := TrimExactly(s);
    if Trim(s) != "" {
      assert Trim(s)[0] as int !in WHITE_SPACE && Trim(s)[|Trim(s)| - 1] as int !in WHITE_SPACE;
      TrimmedAlready(Trim(s));
    }
  }
}
