/** Classification of submodule URLs (`src/github_submodules.rs`). */
module Submodules {
  import opened Wrappers
  import opened RepoSlug
  import opened SortedStrings

  const HTTPS := "https://github.com/"

  // ---------------------------------------------------------------- one URL

  /** What a relative URL stands for: one `../` leaves the owner, two leave the host, three or
      more leave nothing. */
  function ResolvedUrl(parent: string, raw: string): Option<string>
    requires IsSlug(parent)
  {
    if raw == "" then None
    else if "./" <= raw then Some(HTTPS + parent + "/" + raw[2..])
    else if !("../" <= raw) then Some(raw)
    else if "../../../" <= raw then None
    else if "../../" <= raw then
      if raw[6..] == "" then None else Some(HTTPS + raw[6..])
    else if raw[3..] == "" then Some(HTTPS + Owner(parent))
    else Some(HTTPS + Owner(parent) + "/" + raw[3..])
  }

  predicate StepAt(raw: string, k: nat) {
    3 * k + 3 <= |raw| && raw[3 * k] == '.' && raw[3 * k + 1] == '.' && raw[3 * k + 2] == '/'
  }

  lemma StepsUp(raw: string)
    ensures "../" <= raw <==> StepAt(raw, 0)
    ensures "../../" <= raw <==> StepAt(raw, 0) && StepAt(raw, 1)
    ensures "../../../" <= raw <==> StepAt(raw, 0) && StepAt(raw, 1) && StepAt(raw, 2)
    ensures "./" <= raw ==> !StepAt(raw, 0)
  {
    if StepAt(raw, 0) && StepAt(raw, 1) { assert raw[..6] == "../../"; }
    if StepAt(raw, 0) && StepAt(raw, 1) && StepAt(raw, 2) { assert raw[..9] == "../../../"; }
  }

  lemma StepMoves(raw: string, k: nat)
    requires 3 * k <= |raw|
    ensures StepAt(raw, k) <==> StepAt(raw[3 * k..], 0)
  {
  }

  /** The loop: it gives up at the ninth step. */
  method StripSteps(raw: string) returns (up: nat, rest: string)
    ensures 3 * up <= |raw| && rest == raw[3 * up..] && forall k | 0 <= k < up :: StepAt(raw, k)
    ensures up <= 8 ==> !StepAt(raw, up)
  {
    up, rest := 0, raw;
    while "../" <= rest
      invariant up <= 8 && 3 * up <= |raw| && rest == raw[3 * up..]
      invariant forall k | 0 <= k < up :: StepAt(raw, k)
      decreases |rest|
    {
      StepsUp(rest);
      StepMoves(raw, up);
      up := up + 1;
      rest := rest[3..];
      if up > 8 {
        return;
      }
    }
    StepsUp(rest);
    StepMoves(raw, up);
  }

  /** `resolve_url`, which strips one `../` at a time. */
  method ResolveUrl(parent: string, raw: string) returns (r: Option<string>)
    requires IsSlug(parent)
    ensures r == ResolvedUrl(parent, raw)
  {
    if raw == "" {
      return None;
    }
    if "./" <= raw {
      return Some(HTTPS + parent + "/" + raw[2..]);
    }
    if !("../" <= raw) {
      return Some(raw);
    }
    StepsUp(raw);
    var up, rest := StripSteps(raw);
    if up > 8 {
      return None;
    }
    if up > 2 {
      return None;
    }
    var kept := [Owner(parent), Repo(parent)][..2 - up];
    if rest != "" {
      kept := kept + [rest];
    }
    if kept == [] {
      return None;
    }
    LastSteps(parent, raw, up, rest);
    return Some(HTTPS + Join(kept));
  }

  lemma LastSteps(parent: string, raw: string, up: nat, rest: string)
    requires IsSlug(parent) && 1 <= up <= 2 && 3 * up <= |raw| && rest == raw[3 * up..]
    requires (forall k | 0 <= k < up :: StepAt(raw, k)) && !StepAt(raw, up)
    requires up == 1 || rest != ""
    ensures
      var kept := [Owner(parent), Repo(parent)][..2 - up] + if rest == "" then [] else [rest];
      kept != [] && ResolvedUrl(parent, raw) == Some(HTTPS + Join(kept))
  {
    StepsUp(raw);
    if up == 1 {
      var owner := Owner(parent);
      assert [owner, Repo(parent)][..1] == [owner];
      if rest != "" {
        assert Join([owner, rest]) == owner + "/" + rest;
        assert HTTPS + (owner + "/" + rest) == HTTPS + owner + "/" + rest;
      }
    } else {
      assert [Owner(parent), Repo(parent)][..0] + [rest] == [rest];
    }
  }

  /** `join("/")` */
  function Join(parts: seq<string>): string {
    if parts == [] then ""
    else if |parts| == 1 then parts[0]
    else parts[0] + "/" + Join(parts[1..])
  }

  predicate IsRelative(url: string) {
    "./" <= url || "../" <= url
  }

  /** Where one URL goes. */
  datatype Target =
    | Dropped
    | SameOwner(slug: string)
    | CrossOwner(slug: string)
    | NonGitHub(url: string)

  function TargetOf(parent: string, raw: string): Target
    requires IsSlug(parent)
  {
    var trimmed := Trim(raw);
    if trimmed == "" then Dropped
    else
      match ResolvedUrl(parent, trimmed)
      case None => Dropped
      case Some(resolved) =>
        match ParseUrl(resolved)
        case Some(slug) =>
          if slug == parent then Dropped
          else if IsSlug(slug) && Owner(slug) == Owner(parent) then SameOwner(slug)
          else CrossOwner(slug)
        case None => if IsRelative(trimmed) then Dropped else NonGitHub(resolved)
  }

  lemma TargetsAreSlugs(parent: string, raw: string)
    requires IsSlug(parent)
    ensures
      var t := TargetOf(parent, raw);
      && (t.SameOwner? ==> IsSlug(t.slug) && t.slug != parent && Owner(t.slug) == Owner(parent))
      && (t.CrossOwner? ==> IsSlug(t.slug) && Owner(t.slug) != Owner(parent))
      && (t.NonGitHub? ==> ParseUrl(t.url) == None && t.url == Trim(raw) && !IsRelative(t.url))
  {
    var trimmed := Trim(raw);
    if trimmed != "" && ResolvedUrl(parent, trimmed).Some? {
      var resolved := ResolvedUrl(parent, trimmed).value;
      if ParseUrl(resolved).Some? { ParseUrlExactly(resolved, ParseUrl(resolved).value); }
    }
  }

  /** Three or more steps up are dropped, and so is every relative URL that resolves to nothing:
      a relative URL never counts as non-GitHub. */
  lemma RelativeTargets(parent: string, raw: string)
    requires IsSlug(parent)
    ensures "../../../" <= Trim(raw) ==> TargetOf(parent, raw) == Dropped
    ensures IsRelative(Trim(raw)) ==> !TargetOf(parent, raw).NonGitHub?
  {
    StepsUp(Trim(raw));
  }

  // ---------------------------------------------------------------- `./` URLs

  predicate AllSlashes(s: string) {
    forall i | 0 <= i < |s| :: s[i] == '/'
  }

  lemma {:induction false} TrimAllSlashes(s: string, tail: string)
    requires AllSlashes(tail) && (s == "" || s[|s| - 1] != '/')
    ensures TrimSlashes(s + tail) == s
  {
    assert tail == Slashes(|tail|);
    TrimSlashesBack(s, |tail|);
  }

  /** A path below a repository is never a slug. */
  lemma DeepPathIsNoSlug(parent: string, tail: string)
    requires IsSlug(parent)
    ensures NewSlug(parent + "/" + tail) == None
  {
    var s := parent + "/" + tail;
    SlugExactly(parent, Owner(parent), Repo(parent));
    assert s[|Owner(parent)|] == '/' && s[|parent|] == '/';
    if IsSlug(s) { SlugExactly(s, Owner(s), Repo(s)); }
  }

  lemma CanonicalizeBelow(parent: string, rest: string)
    requires IsSlug(parent)
    ensures Canonicalize(parent + "/" + rest) ==
      if !AllSlashes(rest) then None
      else if EndsWithGit(parent) then NewSlug(parent[..|parent| - 4])
      else Some(parent)
  {
    SlugHasNoSlashAtEnd(parent);
    var path := parent + "/" + rest;
    if AllSlashes(rest) {
      assert path == parent + ("/" + rest) && AllSlashes("/" + rest);
      TrimAllSlashes(parent, "/" + rest);
    } else {
      var n := TrimSlashesOf(path);
      TrimmedBelow(parent, rest, TrimSlashes(path), n);
      CanonicalizeDeep(parent, path);
    }
  }

  lemma CanonicalizeDeep(parent: string, path: string)
    requires IsSlug(parent)
    requires var t := TrimSlashes(path); |t| > |parent| + 1 && t[..|parent| + 1] == parent + "/" && t[|t| - 1] != '/'
    ensures Canonicalize(path) == None
  {
    hide NewSlug, TrimSlashes, IsSlug;
    var t := TrimSlashes(path);
    var tail := t[|parent| + 1..];
    assert t == parent + "/" + tail;
    DeepPathIsNoSlug(parent, tail);
    if EndsWithGit(t) {
      assert forall k | |t| - 4 <= k < |t| :: t[k] == ".git"[k - (|t| - 4)];
      assert t[|parent|] == '/';
      assert |tail| >= 4;
      assert t[..|t| - 4] == parent + "/" + tail[..|tail| - 4];
      DeepPathIsNoSlug(parent, tail[..|tail| - 4]);
    }
  }

  lemma TrimmedBelow(parent: string, rest: string, trimmed: string, n: nat)
    requires parent + "/" + rest == trimmed + Slashes(n) && !AllSlashes(rest)
    ensures |trimmed| > |parent| + 1 && trimmed[..|parent| + 1] == parent + "/"
  {
    var path := parent + "/" + rest;
    var i :| 0 <= i < |rest| && rest[i] != '/';
    assert path[|parent| + 1 + i] == rest[i];
    assert forall k | |trimmed| <= k < |path| :: path[k] == '/';
    assert path[..|parent| + 1] == parent + "/";
    assert (trimmed + Slashes(n))[..|parent| + 1] == trimmed[..|parent| + 1];
  }

  /** A `./` URL is meant to lead nowhere: it lies inside the parent. It reaches a bucket all the
      same exactly when the parent's own slug ends in `.git` and nothing but slashes follows; then
      the parent without that suffix is taken for a sibling. */
  lemma DotSlashTarget(parent: string, raw: string)
    requires IsSlug(parent) && "./" <= Trim(raw)
    ensures TargetOf(parent, raw) ==
      if EndsWithGit(parent) && IsSlug(parent[..|parent| - 4]) && AllSlashes(Trim(raw)[2..])
      then SameOwner(parent[..|parent| - 4])
      else Dropped
  {
    var trimmed := Trim(raw);
    var rest := trimmed[2..];
    var path := parent + "/" + rest;
    TrimEndsInText(TrimStart(raw));
    assert path[|path| - 1] == if rest == "" then '/' else trimmed[|trimmed| - 1];
    assert HTTPS + parent + "/" + rest == PREFIXES[0] + path;
    ParseBehindPrefix(path, 0);
    CanonicalizeBelow(parent, rest);
    if EndsWithGit(parent) { WithoutGit(parent); }
  }

  /** With parent `o/r.git`, the URL `./` is reported as the sibling `o/r`. */
  lemma DotSlashLeaks()
    ensures IsSlug("o/r.git") && TargetOf("o/r.git", "./") == SameOwner("o/r")
  {
    SlugsOfLeak();
    TrimOfDotSlash();
    hide IsSlug, TargetOf, Trim;
    assert "o/r.git"[..|"o/r.git"| - 4] == "o/r";
    DotSlashTarget("o/r.git", "./");
  }

  lemma SlugsOfLeak()
    ensures IsSlug("o/r.git") && IsSlug("o/r")
  {
    hide IsSlug;
    assert IsSlugOf("o/r.git", "o", "r.git");
    SlugExactly("o/r.git", "o", "r.git");
    assert IsSlugOf("o/r", "o", "r");
    SlugExactly("o/r", "o", "r");
  }

  lemma TrimOfDotSlash()
    ensures Trim("./") == "./"
  {
    assert TrimStart("./") == "./" && TrimEnd("./") == "./";
  }

  lemma {:induction false} TrimEndsInText(s: string)
    ensures TrimEnd(s) == "" || !IsUnicodeWhitespace(TrimEnd(s)[|TrimEnd(s)| - 1])
  {
    if s != "" && IsUnicodeWhitespace(s[|s| - 1]) { TrimEndsInText(s[..|s| - 1]); }
  }

  lemma WithoutGit(parent: string)
    requires IsSlug(parent) && EndsWithGit(parent)
    ensures
      var short := parent[..|parent| - 4];
      short != parent && (IsSlug(short) ==> Owner(short) == Owner(parent))
  {
    var short := parent[..|parent| - 4];
    if IsSlug(short) {
      SlugExactly(short, Owner(short), Repo(short));
      assert parent == short + ".git";
      assert parent == Owner(short) + "/" + (Repo(short) + ".git");
      assert IsValidSegment(".git");
      assert IsSlugOf(parent, Owner(short), Repo(short) + ".git");
      SlugExactly(parent, Owner(short), Repo(short) + ".git");
    }
  }

  // ---------------------------------------------------------------- what a URL denotes

  /** The repository a submodule URL stands for, in a parent's terms: a GitHub URL by itself, a
      relative one by the path that the steps leave. */
  ghost predicate Denotes(parent: string, raw: string, slug: string)
    requires IsSlug(parent)
  {
    var url := Trim(raw);
    && IsSlug(slug)
    && (|| IsUrlOf(url, slug)
        || ("./" <= url && Spells(parent + "/" + url[2..], slug))
        || ("../" <= url && !("../../" <= url) && Spells(Owner(parent) + "/" + url[3..], slug))
        || ("../../" <= url && !("../../../" <= url) && Spells(url[6..], slug)))
  }

  /** A URL that is not for GitHub: neither relative nor the URL of any repository. */
  ghost predicate IsForeign(url: string) {
    url != "" && !("./" <= url) && !("../" <= url) && forall slug :: IsSlug(slug) ==> !IsUrlOf(url, slug)
  }

  lemma ParsesPath(path: string, slug: string)
    requires path != "" && !IsUnicodeWhitespace(path[|path| - 1])
    ensures ParseUrl(HTTPS + path) == Some(slug) <==> IsSlug(slug) && Spells(path, slug)
  {
    assert HTTPS + path == PREFIXES[0] + path;
    ParseBehindPrefix(path, 0);
    CanonicalizeExactly(path, slug);
  }

  /** The end of a trimmed text is no whitespace. */
  lemma TrimmedEnd(raw: string, k: nat)
    requires k < |Trim(raw)|
    ensures var rest := Trim(raw)[k..]; rest != "" && !IsUnicodeWhitespace(rest[|rest| - 1])
  {
    TrimEndsInText(TrimStart(raw));
  }

  lemma OwnerPathHasSlash(parent: string, slug: string)
    requires IsSlug(parent)
    ensures !(IsSlug(slug) && Spells(Owner(parent), slug)) && !(IsSlug(slug) && Spells(Owner(parent) + "/", slug))
  {
    SlugExactly(parent, Owner(parent), Repo(parent));
    CanonicalizeExactly(Owner(parent), slug);
    CanonicalizeExactly(Owner(parent) + "/", slug);
    OwnerAlone(parent);
  }

  lemma OwnerAlone(parent: string)
    requires IsSlug(parent)
    ensures Canonicalize(Owner(parent)) == None && Canonicalize(Owner(parent) + "/") == None
  {
    SlugExactly(parent, Owner(parent), Repo(parent));
    var owner := Owner(parent);
    assert '/' !in owner && owner[|owner| - 1] != '/';
    assert TrimSlashes(owner) == owner;
    assert (owner + "/")[..|owner|] == owner;
    NoSlashNoSlug(owner);
    if EndsWithGit(owner) { NoSlashNoSlug(owner[..|owner| - 4]); }
  }

  lemma SplitFound(s: string)
    ensures SplitOnce(s, '/').Some? ==> '/' in s
  {
    if SplitOnce(s, '/').Some? { assert s[|SplitOnce(s, '/').value.0|] == '/'; }
  }

  lemma NoSlashNoSlug(s: string)
    requires '/' !in s
    ensures NewSlug(s) == None
  {
    SplitFound(s);
  }

  lemma BelowParent(parent: string, raw: string, slug: string)
    requires IsSlug(parent) && "./" <= Trim(raw)
    ensures ParseUrl(HTTPS + parent + "/" + Trim(raw)[2..]) == Some(slug) <==> Denotes(parent, raw, slug)
  {
    var url := Trim(raw);
    var path := parent + "/" + url[2..];
    if |url| > 2 { TrimmedEnd(raw, 2); }
    assert HTTPS + parent + "/" + url[2..] == HTTPS + path;
    assert path[|path| - 1] == if |url| == 2 then '/' else url[|url| - 1];
    ParsesPath(path, slug);
    hide Spells, ParseUrl, Trim, IsSlug;
    StartsWithDot(url, slug);
    StepsUp(url);
  }

  lemma StartsWithDot(url: string, slug: string)
    requires url != "" && url[0] == '.'
    ensures !IsUrlOf(url, slug)
  {
    hide Spells;
  }

  lemma OneStepUp(parent: string, raw: string, slug: string)
    requires IsSlug(parent) && "../" <= Trim(raw) && !("../../" <= Trim(raw))
    ensures
      var rest := Trim(raw)[3..];
      ParseUrl(if rest == "" then HTTPS + Owner(parent) else HTTPS + Owner(parent) + "/" + rest) == Some(slug) <==>
      Denotes(parent, raw, slug)
  {
    var url := Trim(raw);
    if url[3..] == "" {
      ToOwner(parent, slug);
      assert Owner(parent) + "/" + url[3..] == Owner(parent) + "/";
    } else {
      TrimmedEnd(raw, 3);
      ToSibling(parent, url[3..], slug);
    }
    hide Spells, ParseUrl, Trim, IsSlug;
    StartsWithDot(url, slug);
    StepsUp(url);
  }

  lemma ToOwner(parent: string, slug: string)
    requires IsSlug(parent)
    ensures ParseUrl(HTTPS + Owner(parent)) != Some(slug)
    ensures !(IsSlug(slug) && Spells(Owner(parent) + "/", slug))
  {
    OwnerPathHasSlash(parent, slug);
    OwnerEndsInText(parent);
    ParsesPath(Owner(parent), slug);
  }

  lemma ToSibling(parent: string, rest: string, slug: string)
    requires IsSlug(parent) && rest != "" && !IsUnicodeWhitespace(rest[|rest| - 1])
    ensures ParseUrl(HTTPS + Owner(parent) + "/" + rest) == Some(slug) <==>
      IsSlug(slug) && Spells(Owner(parent) + "/" + rest, slug)
  {
    var path := Owner(parent) + "/" + rest;
    assert HTTPS + Owner(parent) + "/" + rest == HTTPS + path;
    assert path[|path| - 1] == rest[|rest| - 1];
    ParsesPath(path, slug);
  }

  lemma OwnerEndsInText(parent: string)
    requires IsSlug(parent)
    ensures var owner := Owner(parent); owner != "" && !IsUnicodeWhitespace(owner[|owner| - 1])
  {
    SlugExactly(parent, Owner(parent), Repo(parent));
    assert IsSafeNameChar(Owner(parent)[|Owner(parent)| - 1]);
  }

  lemma TwoStepsUp(parent: string, raw: string, slug: string)
    requires IsSlug(parent) && "../../" <= Trim(raw) && !("../../../" <= Trim(raw))
    ensures
      var rest := Trim(raw)[6..];
      (rest != "" && ParseUrl(HTTPS + rest) == Some(slug)) <==> Denotes(parent, raw, slug)
  {
    var url := Trim(raw);
    var rest := url[6..];
    if rest == "" {
      EmptySpellsNothing(slug);
    } else {
      TrimmedEnd(raw, 6);
      ParsesPath(rest, slug);
    }
    hide Spells, ParseUrl, Trim, IsSlug;
    StartsWithDot(url, slug);
    StepsUp(url);
    assert "../" <= url by { assert url[..6][..3] == "../"; }
  }

  lemma EmptySpellsNothing(slug: string)
    ensures !(IsSlug(slug) && Spells("", slug))
  {
    CanonicalizeExactly("", slug);
  }

  lemma AbsoluteUrl(parent: string, raw: string, slug: string)
    requires IsSlug(parent) && !IsRelative(Trim(raw))
    ensures ParseUrl(Trim(raw)) == Some(slug) <==> Denotes(parent, raw, slug)
  {
    TrimTwice(raw);
    ParsesUrlsOf(Trim(raw), slug);
    hide Spells, ParseUrl, Trim, IsSlug, IsUrlOf;
    var url := Trim(raw);
    assert "../../" <= url ==> "../" <= url by { StepsUp(url); }
  }

  /** Resolving and parsing a URL yields exactly the repository it denotes. */
  lemma ResolvesToDenoted(parent: string, raw: string, slug: string)
    requires IsSlug(parent)
    ensures
      var resolved := ResolvedUrl(parent, Trim(raw));
      (resolved.Some? && ParseUrl(resolved.value) == Some(slug)) <==> Denotes(parent, raw, slug)
  {
    hide ParseUrl, Trim, IsSlug, Denotes;
    var url := Trim(raw);
    StepsUp(url);
    if url == "" {
      DenotesNothing(parent, raw, slug);
    } else if "./" <= url {
      BelowParent(parent, raw, slug);
    } else if !("../" <= url) {
      AbsoluteUrl(parent, raw, slug);
    } else if "../../../" <= url {
      DenotesNothing(parent, raw, slug);
    } else if "../../" <= url {
      TwoStepsUp(parent, raw, slug);
    } else {
      OneStepUp(parent, raw, slug);
    }
  }

  lemma DenotesNothing(parent: string, raw: string, slug: string)
    requires IsSlug(parent) && (Trim(raw) == "" || "../../../" <= Trim(raw))
    ensures !Denotes(parent, raw, slug)
  {
    hide Spells, Trim, IsSlug;
    var url := Trim(raw);
    StepsUp(url);
    if url != "" { StartsWithDot(url, slug); }
  }

  /** The usual relative URLs: a sibling of the parent, and a repository of any owner. */
  lemma RelativeReach(parent: string, owner: string, repo: string)
    requires IsSlug(parent) && IsSlugOf(owner + "/" + repo, owner, repo)
    ensures IsSlug(Owner(parent) + "/" + repo)
    ensures Denotes(parent, "../" + (repo + ".git"), Owner(parent) + "/" + repo)
    ensures owner != ".." ==> Denotes(parent, "../../" + (owner + "/" + repo + ".git"), owner + "/" + repo)
  {
    SlugExactly(parent, Owner(parent), Repo(parent));
    var sibling := Owner(parent) + "/" + repo;
    assert IsSlugOf(sibling, Owner(parent), repo);
    SlugExactly(sibling, Owner(parent), repo);
    SlugExactly(owner + "/" + repo, owner, repo);
    SiblingDenoted(parent, repo);
    if owner != ".." { OtherDenoted(parent, owner, repo); }
  }

  lemma SiblingDenoted(parent: string, repo: string)
    requires IsSlug(parent) && IsSlug(Owner(parent) + "/" + repo) && IsValidSegment(repo) && repo != ""
    ensures Denotes(parent, "../" + (repo + ".git"), Owner(parent) + "/" + repo)
  {
    var raw := "../" + (repo + ".git");
    TrimmedAlready(raw);
    assert raw[3..] == repo + ".git";
    assert Owner(parent) + "/" + (repo + ".git") == (Owner(parent) + "/" + repo) + ".git" + Slashes(0);
    StepsUp(raw);
    assert !StepAt(raw, 1) by { NoSlashInside(repo); }
  }

  lemma NoSlashInside(repo: string)
    requires IsValidSegment(repo)
    ensures forall i | 0 <= i < |repo + ".git"| :: (repo + ".git")[i] != '/'
  {
  }

  lemma TwoDots(owner: string)
    ensures |owner| == 2 && owner[0] == '.' && owner[1] == '.' ==> owner == ".."
  {
  }

  lemma OtherDenoted(parent: string, owner: string, repo: string)
    requires IsSlug(parent) && IsSlug(owner + "/" + repo) && owner != ".."
    requires IsSlugOf(owner + "/" + repo, owner, repo)
    ensures Denotes(parent, "../../" + (owner + "/" + repo + ".git"), owner + "/" + repo)
  {
    var raw := "../../" + (owner + "/" + repo + ".git");
    TrimmedAlready(raw);
    assert raw[6..] == owner + "/" + repo + ".git";
    assert owner + "/" + repo + ".git" == (owner + "/" + repo) + ".git" + Slashes(0);
    StepsUp(raw);
    assert forall i | 0 <= i < |owner| :: raw[6 + i] == owner[i] && owner[i] != '/';
    assert raw[6 + |owner|] == '/';
    TwoDots(owner);
  }

  /** Where a URL goes, by what it denotes. */
  lemma TargetDenoted(parent: string, raw: string, target: Target)
    requires IsSlug(parent)
    ensures target.SameOwner? ==>
      (TargetOf(parent, raw) == target <==>
        Denotes(parent, raw, target.slug) && target.slug != parent && Owner(target.slug) == Owner(parent))
    ensures target.CrossOwner? ==>
      (TargetOf(parent, raw) == target <==>
        Denotes(parent, raw, target.slug) && Owner(target.slug) != Owner(parent))
    ensures target.NonGitHub? ==>
      (TargetOf(parent, raw) == target <==> Trim(raw) == target.url && IsForeign(target.url))
  {
    var url := Trim(raw);
    TargetsAreSlugs(parent, raw);
    hide Trim, ParseUrl, IsUrlOf, Spells;
    if target.SameOwner? || target.CrossOwner? {
      ResolvesToDenoted(parent, raw, target.slug);
      if url == "" { DenotesNothing(parent, raw, target.slug); }
    } else if target.NonGitHub? {
      ForeignTarget(parent, raw, target.url);
    }
  }

  lemma ForeignTarget(parent: string, raw: string, u: string)
    requires IsSlug(parent)
    ensures TargetOf(parent, raw) == NonGitHub(u) <==> Trim(raw) == u && IsForeign(u)
  {
    TrimTwice(raw);
    var url := Trim(raw);
    hide Trim, ParseUrl, IsUrlOf, Spells, IsSlug;
    if url != "" && !IsRelative(url) {
      if ParseUrl(url).Some? {
        ParsesUrlsOf(url, ParseUrl(url).value);
        assert !IsForeign(url);
      } else {
        forall slug ensures IsSlug(slug) ==> !IsUrlOf(url, slug) { ParsesUrlsOf(url, slug); }
        assert IsForeign(url);
      }
    } else {
      RelativeTargets(parent, raw);
    }
  }

  // ---------------------------------------------------------------- all URLs

  datatype Discovery = Discovery(
    sameOwner: seq<string>,
    crossOwner: map<string, seq<string>>,
    nonGitHubUrls: seq<string>)

  function UrlSet(urls: seq<string>): set<string> {
    set raw | raw in urls
  }

  ghost predicate Hits(parent: string, urls: set<string>, target: Target)
    requires IsSlug(parent)
  {
    exists raw | raw in urls :: TargetOf(parent, raw) == target
  }

  /** Groups are non-empty, sorted, and filed under the right owner. */
  ghost predicate GoodGroups(groups: map<string, seq<string>>) {
    forall owner | owner in groups ::
      groups[owner] != [] && StrictlySorted(groups[owner])
      && forall s | s in groups[owner] :: IsSlug(s) && Owner(s) == owner
  }

  predicate InGroup(groups: map<string, seq<string>>, s: string) {
    IsSlug(s) && Owner(s) in groups && s in groups[Owner(s)]
  }

  /** What a classification of a set of URLs is. */
  ghost predicate Classifies(parent: string, urls: set<string>, d: Discovery)
    requires IsSlug(parent)
  {
    && StrictlySorted(d.sameOwner)
    && SameOwnerHits(parent, urls, d.sameOwner)
    && StrictlySorted(d.nonGitHubUrls)
    && NonGitHubHits(parent, urls, d.nonGitHubUrls)
    && GoodGroups(d.crossOwner)
    && CrossOwnerHits(parent, urls, d.crossOwner)
  }

  ghost predicate SameOwnerHits(parent: string, urls: set<string>, list: seq<string>)
    requires IsSlug(parent)
  {
    forall s :: s in list <==> Hits(parent, urls, SameOwner(s))
  }

  ghost predicate NonGitHubHits(parent: string, urls: set<string>, list: seq<string>)
    requires IsSlug(parent)
  {
    forall u :: u in list <==> Hits(parent, urls, NonGitHub(u))
  }

  ghost predicate CrossOwnerHits(parent: string, urls: set<string>, groups: map<string, seq<string>>)
    requires IsSlug(parent)
  {
    forall s :: InGroup(groups, s) <==> Hits(parent, urls, CrossOwner(s))
  }

  /** `classify_urls` */
  method ClassifyUrls(parent: string, urls: seq<string>) returns (d: Discovery)
    requires IsSlug(parent)
    ensures Classifies(parent, UrlSet(urls), d)
    ensures ListsDenoted(parent, UrlSet(urls), d)
  {
    hide TargetOf, ResolvedUrl, StrictlySorted, Insert, ParseUrl, Trim, ListsDenoted;
    d := Discovery([], map[], []);
    EmptyClassifies(parent);
    for i := 0 to |urls|
      invariant Classifies(parent, UrlSet(urls[..i]), d)
    {
      ghost var before := UrlSet(urls[..i]);
      assert UrlSet(urls[..i + 1]) == before + {urls[i]} by {
        assert urls[..i + 1] == urls[..i] + [urls[i]];
      }
      var target := TargetOfUrl(parent, urls[i]);
      var next := d;
      match target {
        case Dropped =>
        case SameOwner(slug) =>
          next := d.(sameOwner := Insert(slug, d.sameOwner));
        case CrossOwner(slug) =>
          TargetsAreSlugs(parent, urls[i]);
          var group := if Owner(slug) in d.crossOwner then d.crossOwner[Owner(slug)] else [];
          next := d.(crossOwner := d.crossOwner[Owner(slug) := Insert(slug, group)]);
        case NonGitHub(url) =>
          next := d.(nonGitHubUrls := Insert(url, d.nonGitHubUrls));
      }
      ClassifiesOneMore(parent, before, urls[i], d, next);
      d := next;
    }
    assert urls[..|urls|] == urls;
    ClassifiesDenoted(parent, UrlSet(urls), d);
  }

  /** The body of the loop up to the choice of a bucket. */
  method TargetOfUrl(parent: string, raw: string) returns (t: Target)
    requires IsSlug(parent)
    ensures t == TargetOf(parent, raw)
  {
    var trimmed := Trim(raw);
    if trimmed == "" {
      return Dropped;
    }
    var wasRelative := IsRelative(trimmed);
    var resolved := ResolveUrl(parent, trimmed);
    if resolved.None? {
      return Dropped;
    }
    match ParseUrl(resolved.value) {
      case Some(slug) =>
        if slug == parent {
          return Dropped;
        }
        if IsSlug(slug) && Owner(slug) == Owner(parent) {
          return SameOwner(slug);
        }
        return CrossOwner(slug);
      case None =>
        return if wasRelative then Dropped else NonGitHub(resolved.value);
    }
  }

  function Extended(d: Discovery, target: Target): Discovery {
    match target
    case Dropped => d
    case SameOwner(slug) => d.(sameOwner := Insert(slug, d.sameOwner))
    case CrossOwner(slug) =>
      if !IsSlug(slug) then d
      else
        var group := if Owner(slug) in d.crossOwner then d.crossOwner[Owner(slug)] else [];
        d.(crossOwner := d.crossOwner[Owner(slug) := Insert(slug, group)])
    case NonGitHub(url) => d.(nonGitHubUrls := Insert(url, d.nonGitHubUrls))
  }

  lemma EmptyClassifies(parent: string)
    requires IsSlug(parent)
    ensures Classifies(parent, UrlSet([]), Discovery([], map[], []))
  {
  }

  lemma HitsOneMore(parent: string, urls: set<string>, raw: string)
    requires IsSlug(parent)
    ensures forall t :: Hits(parent, urls + {raw}, t) <==> Hits(parent, urls, t) || TargetOf(parent, raw) == t
  {
    hide TargetOf;
    forall t ensures Hits(parent, urls + {raw}, t) <==> Hits(parent, urls, t) || TargetOf(parent, raw) == t {
      if Hits(parent, urls, t) {
        var r :| r in urls && TargetOf(parent, r) == t;
        assert r in urls + {raw};
      }
      if TargetOf(parent, raw) == t { assert raw in urls + {raw}; }
    }
  }

  lemma ClassifiesOneMore(parent: string, urls: set<string>, raw: string, d: Discovery, next: Discovery)
    requires IsSlug(parent) && Classifies(parent, urls, d)
    requires next == Extended(d, TargetOf(parent, raw))
    ensures Classifies(parent, urls + {raw}, next)
  {
    TargetsAreSlugs(parent, raw);
    SameOwnerOneMore(parent, urls, raw, d, next);
    NonGitHubOneMore(parent, urls, raw, d, next);
    CrossOwnerOneMore(parent, urls, raw, d, next);
  }

  lemma SameOwnerOneMore(parent: string, urls: set<string>, raw: string, d: Discovery, next: Discovery)
    requires IsSlug(parent) && StrictlySorted(d.sameOwner) && SameOwnerHits(parent, urls, d.sameOwner)
    requires next == Extended(d, TargetOf(parent, raw))
    ensures StrictlySorted(next.sameOwner) && SameOwnerHits(parent, urls + {raw}, next.sameOwner)
  {
    HitsOneMore(parent, urls, raw);
    hide TargetOf, Hits, Insert, StrictlySorted;
    var target := TargetOf(parent, raw);
    if target.SameOwner? { InsertKeepsSorted(target.slug, d.sameOwner); }
  }

  lemma NonGitHubOneMore(parent: string, urls: set<string>, raw: string, d: Discovery, next: Discovery)
    requires IsSlug(parent) && StrictlySorted(d.nonGitHubUrls) && NonGitHubHits(parent, urls, d.nonGitHubUrls)
    requires next == Extended(d, TargetOf(parent, raw))
    ensures StrictlySorted(next.nonGitHubUrls) && NonGitHubHits(parent, urls + {raw}, next.nonGitHubUrls)
  {
    HitsOneMore(parent, urls, raw);
    hide TargetOf, Hits, Insert, StrictlySorted;
    var target := TargetOf(parent, raw);
    if target.NonGitHub? { InsertKeepsSorted(target.url, d.nonGitHubUrls); }
  }

  lemma CrossOwnerOneMore(parent: string, urls: set<string>, raw: string, d: Discovery, next: Discovery)
    requires IsSlug(parent) && GoodGroups(d.crossOwner) && CrossOwnerHits(parent, urls, d.crossOwner)
    requires next == Extended(d, TargetOf(parent, raw))
    requires TargetOf(parent, raw).CrossOwner? ==> IsSlug(TargetOf(parent, raw).slug)
    ensures GoodGroups(next.crossOwner) && CrossOwnerHits(parent, urls + {raw}, next.crossOwner)
  {
    HitsOneMore(parent, urls, raw);
    hide TargetOf, Hits, Insert, StrictlySorted, GoodGroups, InGroup;
    var target := TargetOf(parent, raw);
    if target.CrossOwner? { GroupGrows(d.crossOwner, target.slug); }
  }

  lemma GroupGrows(groups: map<string, seq<string>>, slug: string)
    requires IsSlug(slug) && GoodGroups(groups)
    ensures
      var group := if Owner(slug) in groups then groups[Owner(slug)] else [];
      var next := groups[Owner(slug) := Insert(slug, group)];
      GoodGroups(next) && forall s :: InGroup(next, s) <==> s == slug || InGroup(groups, s)
  {
    var group := if Owner(slug) in groups then groups[Owner(slug)] else [];
    InsertKeepsSorted(slug, group);
    var next := groups[Owner(slug) := Insert(slug, group)];
    forall s ensures InGroup(next, s) <==> s == slug || InGroup(groups, s) {
      if IsSlug(s) && Owner(s) == Owner(slug) {
        assert s in group <==> InGroup(groups, s);
      }
    }
  }

  ghost predicate SomeDenotes(parent: string, urls: set<string>, slug: string)
    requires IsSlug(parent)
  {
    exists raw | raw in urls :: Denotes(parent, raw, slug)
  }

  ghost predicate SomeForeign(urls: set<string>, url: string) {
    IsForeign(url) && exists raw | raw in urls :: Trim(raw) == url
  }

  /** The buckets hold exactly what the URLs denote: the repositories of the parent's owner, those
      of others, and the foreign URLs. */
  ghost predicate ListsDenoted(parent: string, urls: set<string>, d: Discovery)
    requires IsSlug(parent)
  {
    && (forall s :: s in d.sameOwner <==>
          IsSlug(s) && SomeDenotes(parent, urls, s) && s != parent && Owner(s) == Owner(parent))
    && (forall s :: InGroup(d.crossOwner, s) <==>
          IsSlug(s) && SomeDenotes(parent, urls, s) && Owner(s) != Owner(parent))
    && (forall u :: u in d.nonGitHubUrls <==> SomeForeign(urls, u))
  }

  lemma ClassifiesDenoted(parent: string, urls: set<string>, d: Discovery)
    requires IsSlug(parent) && Classifies(parent, urls, d)
    ensures ListsDenoted(parent, urls, d)
  {
    hide TargetOf, Denotes, IsForeign, StrictlySorted, IsSlug, Trim;
    forall s ensures s in d.sameOwner <==>
      IsSlug(s) && SomeDenotes(parent, urls, s) && s != parent && Owner(s) == Owner(parent)
    {
      HitsDenoted(parent, urls, SameOwner(s));
    }
    forall s ensures InGroup(d.crossOwner, s) <==>
      IsSlug(s) && SomeDenotes(parent, urls, s) && Owner(s) != Owner(parent)
    {
      HitsDenoted(parent, urls, CrossOwner(s));
    }
    forall u ensures u in d.nonGitHubUrls <==> SomeForeign(urls, u) {
      HitsDenoted(parent, urls, NonGitHub(u));
    }
  }

  lemma HitsDenoted(parent: string, urls: set<string>, target: Target)
    requires IsSlug(parent)
    ensures target.SameOwner? ==>
      (Hits(parent, urls, target) <==>
        && IsSlug(target.slug) && SomeDenotes(parent, urls, target.slug)
        && target.slug != parent && Owner(target.slug) == Owner(parent))
    ensures target.CrossOwner? ==>
      (Hits(parent, urls, target) <==>
        IsSlug(target.slug) && SomeDenotes(parent, urls, target.slug) && Owner(target.slug) != Owner(parent))
    ensures target.NonGitHub? ==> (Hits(parent, urls, target) <==> SomeForeign(urls, target.url))
  {
    forall raw | raw in urls ensures
      && (target.SameOwner? || target.CrossOwner? ==> Denotes(parent, raw, target.slug) ==> IsSlug(target.slug))
    {
    }
    hide TargetOf, IsForeign, IsSlug, Trim, IsUrlOf, Spells;
    forall raw | raw in urls
      ensures target.SameOwner? && IsSlug(target.slug) ==>
        (TargetOf(parent, raw) == target <==>
          Denotes(parent, raw, target.slug) && target.slug != parent && Owner(target.slug) == Owner(parent))
      ensures target.CrossOwner? && IsSlug(target.slug) ==>
        (TargetOf(parent, raw) == target <==> Denotes(parent, raw, target.slug) && Owner(target.slug) != Owner(parent))
      ensures target.NonGitHub? ==>
        (TargetOf(parent, raw) == target <==> Trim(raw) == target.url && IsForeign(target.url))
      ensures TargetOf(parent, raw) == target && (target.SameOwner? || target.CrossOwner?) ==> IsSlug(target.slug)
    {
      TargetDenoted(parent, raw, target);
      TargetsAreSlugs(parent, raw);
    }
  }

  /** The result depends on the set of URLs only: not on their order, and not on repetitions. */
  lemma ClassificationIsUnique(parent: string, urls: set<string>, a: Discovery, b: Discovery)
    requires IsSlug(parent) && Classifies(parent, urls, a) && Classifies(parent, urls, b)
    ensures a == b
  {
    hide StrictlySorted, Hits;
    SortedIsUnique(a.sameOwner, b.sameOwner);
    SortedIsUnique(a.nonGitHubUrls, b.nonGitHubUrls);
    OwnersIncluded(parent, urls, a, b);
    OwnersIncluded(parent, urls, b, a);
    forall owner | owner in a.crossOwner ensures a.crossOwner[owner] == b.crossOwner[owner] {
      SortedIsUnique(a.crossOwner[owner], b.crossOwner[owner]);
    }
  }

  lemma OwnersIncluded(parent: string, urls: set<string>, a: Discovery, b: Discovery)
    requires IsSlug(parent) && Classifies(parent, urls, a) && Classifies(parent, urls, b)
    ensures forall owner | owner in a.crossOwner ::
      owner in b.crossOwner && forall s | s in a.crossOwner[owner] :: s in b.crossOwner[owner]
  {
    hide StrictlySorted, Hits;
    forall owner | owner in a.crossOwner
      ensures owner in b.crossOwner && forall s | s in a.crossOwner[owner] :: s in b.crossOwner[owner]
    {
      forall s | s in a.crossOwner[owner] ensures owner in b.crossOwner && s in b.crossOwner[owner] {
        assert InGroup(a.crossOwner, s);
      }
      assert a.crossOwner[owner][0] in a.crossOwner[owner];
    }
  }

  /** The buckets share nothing, and the parent is in none of them. */
  lemma BucketsAreDisjoint(parent: string, urls: set<string>, d: Discovery)
    requires IsSlug(parent) && Classifies(parent, urls, d)
    ensures parent !in d.sameOwner && Owner(parent) !in d.crossOwner
    ensures forall s | s in d.sameOwner :: IsSlug(s) && Owner(s) == Owner(parent)
    ensures forall u | u in d.nonGitHubUrls :: ParseUrl(u) == None
  {
    hide StrictlySorted, TargetOf;
    forall s | s in d.sameOwner ensures s != parent && IsSlug(s) && Owner(s) == Owner(parent) {
      var raw :| raw in urls && TargetOf(parent, raw) == SameOwner(s);
      TargetsAreSlugs(parent, raw);
    }
    forall u | u in d.nonGitHubUrls ensures ParseUrl(u) == None {
      var raw :| raw in urls && TargetOf(parent, raw) == NonGitHub(u);
      TargetsAreSlugs(parent, raw);
    }
    if Owner(parent) in d.crossOwner {
      var s := d.crossOwner[Owner(parent)][0];
      assert InGroup(d.crossOwner, s);
      var raw :| raw in urls && TargetOf(parent, raw) == CrossOwner(s);
      TargetsAreSlugs(parent, raw);
    }
  }

  // ---------------------------------------------------------------- public repositories

  ghost predicate Separate(sameOwner: seq<string>, crossOwner: map<string, seq<string>>) {
    && StrictlySorted(sameOwner)
    && (forall s | s in sameOwner :: IsSlug(s) && Owner(s) !in crossOwner)
    && GoodGroups(crossOwner)
  }

  function Private(isPublic: string -> bool): string -> bool {
    s => !isPublic(s)
  }

  /** `retain` with a closure that also pushes what it removes. */
  method Retain(list: seq<string>, isPublic: string -> bool, dropped: seq<string>)
    returns (kept: seq<string>, more: seq<string>)
    ensures kept == Filter(list, Private(isPublic))
    ensures more == dropped + Filter(list, isPublic)
  {
    kept, more := [], dropped;
    for i := 0 to |list|
      invariant kept + Filter(list[i..], Private(isPublic)) == Filter(list, Private(isPublic))
      invariant more + Filter(list[i..], isPublic) == dropped + Filter(list, isPublic)
    {
      ghost var rest := list[i..];
      assert rest[0] == list[i] && rest[1..] == list[i + 1..];
      if isPublic(list[i]) {
        Reassociate(more, [list[i]], Filter(rest[1..], isPublic));
        more := more + [list[i]];
      } else {
        Reassociate(kept, [list[i]], Filter(rest[1..], Private(isPublic)));
        kept := kept + [list[i]];
      }
    }
  }

  lemma Reassociate(a: seq<string>, b: seq<string>, c: seq<string>)
    ensures a + (b + c) == (a + b) + c
  {
  }

  /** What has been pushed once the groups outside `pending` are done. */
  ghost predicate Pushed(d: Discovery, pending: set<string>, isPublic: string -> bool, dropped: seq<string>) {
    && Distinct(dropped)
    && forall s :: s in dropped <==>
         isPublic(s) && (s in d.sameOwner || (InGroup(d.crossOwner, s) && Owner(s) !in pending))
  }

  lemma PushedSameOwner(d: Discovery, isPublic: string -> bool)
    requires Separate(d.sameOwner, d.crossOwner)
    ensures Pushed(d, d.crossOwner.Keys, isPublic, Filter(d.sameOwner, isPublic))
  {
    FilterMembers(d.sameOwner, isPublic);
    FilterKeepsSorted(d.sameOwner, isPublic);
    SortedIsDistinct(Filter(d.sameOwner, isPublic));
  }

  lemma PushedGroup(d: Discovery, pending: set<string>, owner: string, isPublic: string -> bool,
      dropped: seq<string>)
    requires Separate(d.sameOwner, d.crossOwner) && pending <= d.crossOwner.Keys && owner in pending
    requires Pushed(d, pending, isPublic, dropped)
    ensures Pushed(d, pending - {owner}, isPublic, dropped + Filter(d.crossOwner[owner], isPublic))
  {
    hide StrictlySorted, Filter, IsSlug;
    var group := d.crossOwner[owner];
    FilterMembers(group, isPublic);
    FilterKeepsSorted(group, isPublic);
    SortedIsDistinct(Filter(group, isPublic));
    assert forall s | s in group :: IsSlug(s) && Owner(s) == owner;
    DistinctConcat(dropped, Filter(group, isPublic));
  }

  /** A classification, edited in place. */
  class SubmoduleDiscovery {
    var sameOwner: seq<string>
    var crossOwner: map<string, seq<string>>
    var nonGitHubUrls: seq<string>

    ghost predicate Valid()
      reads this
    {
      Separate(sameOwner, crossOwner)
    }

    constructor (parent: string, ghost urls: set<string>, d: Discovery)
      requires IsSlug(parent) && Classifies(parent, urls, d)
      ensures Valid() && sameOwner == d.sameOwner && crossOwner == d.crossOwner
      ensures nonGitHubUrls == d.nonGitHubUrls
    {
      BucketsAreDisjoint(parent, urls, d);
      sameOwner, crossOwner, nonGitHubUrls := d.sameOwner, d.crossOwner, d.nonGitHubUrls;
    }

    predicate Lists(s: string)
      reads this
    {
      s in sameOwner || InGroup(crossOwner, s)
    }

    /** `drop_public`: every slug is reported when it is public, and otherwise kept where it was;
        none is reported twice, and the groups that became empty are gone. */
    method DropPublic(isPublic: string -> bool) returns (dropped: seq<string>)
      requires Valid()
      modifies this`sameOwner, this`crossOwner
      ensures Valid()
      ensures StrictlySorted(dropped)
      ensures forall s :: s in dropped <==> old(Lists(s)) && isPublic(s)
      ensures forall s :: Lists(s) <==> old(Lists(s)) && !isPublic(s)
      ensures sameOwner == Filter(old(sameOwner), Private(isPublic))
      ensures forall owner :: owner in crossOwner <==>
        owner in old(crossOwner) && Filter(old(crossOwner)[owner], Private(isPublic)) != []
      ensures forall owner | owner in crossOwner ::
        owner in old(crossOwner) && crossOwner[owner] == Filter(old(crossOwner)[owner], Private(isPublic))
    {
      hide StrictlySorted, Filter, IsSlug;
      var d := Discovery(sameOwner, crossOwner, nonGitHubUrls);
      var pushed: seq<string>;
      sameOwner, pushed := Retain(sameOwner, isPublic, []);
      assert pushed == Filter(d.sameOwner, isPublic);
      PushedSameOwner(d, isPublic);
      var pending := crossOwner.Keys;
      while pending != {}
        invariant pending <= d.crossOwner.Keys == crossOwner.Keys
        invariant sameOwner == Filter(d.sameOwner, Private(isPublic))
        invariant forall o | o in crossOwner ::
          crossOwner[o] == (if o in pending then d.crossOwner[o] else Filter(d.crossOwner[o], Private(isPublic)))
        invariant Pushed(d, pending, isPublic, pushed)
      {
        var owner :| owner in pending;
        PushedGroup(d, pending, owner, isPublic, pushed);
        var kept: seq<string>;
        kept, pushed := Retain(crossOwner[owner], isPublic, pushed);
        crossOwner := crossOwner[owner := kept];
        pending := pending - {owner};
      }
      crossOwner := map o | o in crossOwner && crossOwner[o] != [] :: crossOwner[o];
      dropped := Sorted(pushed);
      SortedOrders(pushed);
      StaysSeparate(d, isPublic, sameOwner, crossOwner);
    }
  }

  lemma StaysSeparate(d: Discovery, isPublic: string -> bool, sameOwner: seq<string>,
      crossOwner: map<string, seq<string>>)
    requires Separate(d.sameOwner, d.crossOwner)
    requires sameOwner == Filter(d.sameOwner, Private(isPublic))
    requires forall owner :: owner in crossOwner <==>
      owner in d.crossOwner && Filter(d.crossOwner[owner], Private(isPublic)) != []
    requires forall owner | owner in crossOwner ::
      crossOwner[owner] == Filter(d.crossOwner[owner], Private(isPublic))
    ensures Separate(sameOwner, crossOwner)
    ensures forall s :: s in sameOwner || InGroup(crossOwner, s) <==>
      (s in d.sameOwner || InGroup(d.crossOwner, s)) && !isPublic(s)
  {
    hide StrictlySorted, Filter, IsSlug;
    var keep := Private(isPublic);
    FilterMembers(d.sameOwner, keep);
    FilterKeepsSorted(d.sameOwner, keep);
    forall owner | owner in d.crossOwner
      ensures StrictlySorted(Filter(d.crossOwner[owner], keep))
      ensures forall s :: s in Filter(d.crossOwner[owner], keep) <==> s in d.crossOwner[owner] && keep(s)
    {
      FilterMembers(d.crossOwner[owner], keep);
      FilterKeepsSorted(d.crossOwner[owner], keep);
    }
  }
}
