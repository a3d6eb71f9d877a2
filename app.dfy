/**
 * The current version of the registrar: `parse_github_url`, which strips a
 * `.git` suffix, and the name and record policy of `add_project`, which
 * falls back on parts of the URL when the user gives no name.
 */
module App {
  import opened Wrappers
  import opened PyStr
  import opened GithubUrl
  import opened GithubApi
  import opened Records

  const GitSuffix: string := ".git"
  const UntitledName: string := "Untitled Project"

  // ---------------------------------------------------------------------------
  // parse_github_url

  /** `s[:-4] if s.endswith(".git") else s`: at most one exact, case-sensitive suffix goes. */
  function StripGitSuffix(s: string): (r: string)
    ensures EndsWith(s, GitSuffix) ==> r + GitSuffix == s
    ensures !EndsWith(s, GitSuffix) ==> r == s
  {
    if EndsWith(s, GitSuffix) then s[..|s| - 4] else s
  }

  /**
   * `parse_github_url`: the two groups of the shared pattern, the
   * repository with its `.git` suffix stripped; None for `(None, None)`.
   */
  function ParseGithubUrl(url: string): (r: Option<(string, string)>)
    ensures r.Some? <==> MatchGroups(url).Some?
    ensures r.Some? ==>
      r.value.0 == MatchGroups(url).value.0 &&
      (r.value.1 == MatchGroups(url).value.1 || r.value.1 + GitSuffix == MatchGroups(url).value.1)
  {
    match MatchGroups(url)
    case None => None
    case Some((owner, repoWithGit)) => Some((owner, StripGitSuffix(repoWithGit)))
  }

  /** A URL of the reference shape gives its owner and its stripped repository. */
  lemma ParseGithubUrlMatch(url: string, prefix: string, owner: string, repo: string)
    requires MatchesAs(url, prefix, owner, repo)
    ensures ParseGithubUrl(url) == Some((owner, StripGitSuffix(repo)))
  {
    MatchGroupsComplete(url, prefix, owner, repo);
  }

  /** `(None, None)` comes back exactly for the URLs with no decomposition of the reference shape. */
  lemma ParseGithubUrlNone(url: string)
    ensures ParseGithubUrl(url).None? <==> forall prefix, owner, repo :: !MatchesAs(url, prefix, owner, repo)
  {
    if MatchGroups(url).None? {
      NoMatchMeansNoShape(url);
    } else {
      MatchGroupsSound(url);
    }
  }

  /** The owner is never empty; the repository is empty exactly when the segment was `.git`. */
  lemma ParseGithubUrlParts(url: string)
    requires ParseGithubUrl(url).Some?
    ensures ParseGithubUrl(url).value.0 != ""
    ensures ParseGithubUrl(url).value.1 == "" <==> MatchGroups(url).value.1 == GitSuffix
  {
    MatchGroupsAreSegments(url);
    var repo := MatchGroups(url).value.1;
    if StripGitSuffix(repo) == "" && EndsWith(repo, GitSuffix) {
      assert repo == "" + GitSuffix;
    }
  }

  /** Only one exact lower-case suffix is removed. */
  lemma StripGitSuffixExamples()
    ensures StripGitSuffix("bar.git") == "bar"
    ensures StripGitSuffix("b.git.git") == "b.git"
    ensures StripGitSuffix("b.GIT") == "b.GIT"
    ensures StripGitSuffix(".git") == ""
    ensures StripGitSuffix("git") == "git"
  {
    assert EndsWith("b.git.git", GitSuffix) && "b.git.git"[..5] == "b.git";
    assert !EndsWith("b.GIT", GitSuffix) by { assert "b.GIT"[1..] != GitSuffix; }
  }

  // ---------------------------------------------------------------------------
  // add_project

  /** `if owner and repo:`, the guard under which the metadata is fetched. */
  predicate Fetches(url: string): (b: bool)
    ensures b <==> MatchGroups(url).Some? && MatchGroups(url).value.1 != GitSuffix
  {
    match ParseGithubUrl(url)
    case None => false
    case Some((owner, repo)) =>
      ParseGithubUrlParts(url);
      owner != "" && repo != ""
  }

  /** The fallback of a GitHub URL whose fetch failed: `url.split('/')[-1].replace('.git', '')`. */
  function FailedFetchName(url: string): (r: string)
    ensures '/' !in r && |r| <= |LastSegment(url)|
  {
    var tail := LastSegment(url);
    assert '/' !in tail by { var parts := Split(url, '/'); assert '/' !in parts[|parts| - 1]; }
    assert '/' !in RemoveAll(tail, GitSuffix) by {
      if '/' in RemoveAll(tail, GitSuffix) { RemoveAllKeepsOnlyChars(tail, GitSuffix, '/'); }
    }
    RemoveAll(tail, GitSuffix)
  }

  /**
   * The fallback of any other URL:
   * `url.split('/')[-1] or url.split('/')[-2] or "Untitled Project"`, with
   * an `IndexError` also giving "Untitled Project".
   */
  function UnmatchedName(url: string): (r: string)
    ensures r != ""
  {
    var parts := Split(url, '/');
    match PyIndex(parts, -1)
    case None => UntitledName
    case Some(last) =>
      if last != "" then last
      else
        match PyIndex(parts, -2)
        case None => UntitledName
        case Some(secondLast) => if secondLast != "" then secondLast else UntitledName
  }

  /** `project_name_to_save` after the if/elif chain. */
  function NameToSave(name: Option<string>, url: string, fetched: Option<Metadata>): (r: Option<string>)
    ensures r.Some?
    ensures r != name ==> IsBlank(name)
    ensures IsBlank(name) && !Fetches(url) ==> r.value != ""
  {
    if Fetches(url) then
      if fetched.Some? then
        (if IsBlank(name) then Some(ParseGithubUrl(url).value.1) else name)
      else
        (if IsBlank(name) then Some(FailedFetchName(url)) else name)
    else if IsBlank(name) then Some(UnmatchedName(url))
    else name
  }

  /**
   * The document `add_project` inserts, given what `fetch_github_metadata`
   * returned (consulted only when the guard holds).
   */
  function AssembleRecord(name: Option<string>, url: string, notes: Option<string>, fetched: Option<Metadata>): (rec: ProjectRecord)
    ensures rec.url == url && rec.notes == notes && HasFixedFields(rec)
    ensures rec.metadata == (if Fetches(url) then fetched else None)
    ensures !IsBlank(name) ==> rec.name == name
    ensures rec.name.Some?
  {
    NewRecord(NameToSave(name, url, fetched), url, notes, if Fetches(url) then fetched else None)
  }

  /**
   * `add_project` once the store is up: fetch when the guard holds, then
   * assemble; an `AttributeError` from the fetch escapes and nothing is
   * inserted. The route only calls it with a URL that is not blank.
   */
  function AddProject(name: Option<string>, url: string, notes: Option<string>, outcome: HttpOutcome): (r: Result<ProjectRecord, PyError>)
    requires Strip(url) != ""
    ensures r.Failure? <==> Fetches(url) && FetchGithubMetadata(outcome).Failure?
    ensures r.Success? ==> r.value.url == url && r.value.notes == notes && HasFixedFields(r.value) && r.value.name.Some?
    ensures r.Success? ==>
      r.value == AssembleRecord(name, url, notes, if Fetches(url) then FetchGithubMetadata(outcome).value else None)
  {
    if !Fetches(url) then Success(AssembleRecord(name, url, notes, None))
    else
      match FetchGithubMetadata(outcome)
      case Failure(e) => Failure(e)
      case Success(fetched) => Success(AssembleRecord(name, url, notes, fetched))
  }

  /** The request `add_project` causes, if any. */
  function RequestSent(url: string, token: Option<string>): (req: Option<Request>)
    ensures req.Some? <==> Fetches(url)
    ensures req.Some? ==>
      req.value == BuildRequest(ParseGithubUrl(url).value.0, ParseGithubUrl(url).value.1, token)
  {
    if Fetches(url) then
      var (owner, repo) := ParseGithubUrl(url).value;
      Some(BuildRequest(owner, repo, token))
    else None
  }

  // ---------------------------------------------------------------------------
  // Properties of the name and record policy

  /** The request goes to the endpoint of the parsed pair, which can be read back from it. */
  lemma RequestTargetsParsedRepo(url: string, token: Option<string>)
    requires Fetches(url)
    ensures SplitApiUrl(RequestSent(url, token).value.url) == ParseGithubUrl(url)
  {
    MatchGroupsAreSegments(url);
    var (owner, repo) := ParseGithubUrl(url).value;
    SplitApiUrlInverts(owner, repo);
  }

  /** A URL that does not pass the guard sends nothing, and the response cannot matter. */
  lemma NoFetchWithoutMatch(name: Option<string>, url: string, notes: Option<string>, o1: HttpOutcome, o2: HttpOutcome)
    requires Strip(url) != "" && !Fetches(url)
    ensures AddProject(name, url, notes, o1) == AddProject(name, url, notes, o2)
    ensures AddProject(name, url, notes, o1).Success?
    ensures AddProject(name, url, notes, o1).value.metadata == None
    ensures RequestSent(url, None) == None
  {
  }

  /**
   * An HTTP error after a match is not fatal: the write succeeds with `{}`
   * metadata, and a blank name takes the failed-fetch fallback.
   */
  lemma ErrorStatusAfterMatch(name: Option<string>, url: string, notes: Option<string>, status: int, body: Option<Json>)
    requires Strip(url) != "" && Fetches(url) && IsErrorStatus(status)
    ensures AddProject(name, url, notes, Received(status, body)).Success?
    ensures AddProject(name, url, notes, Received(status, body)).value.metadata == None
    ensures AddProject(name, url, notes, Received(status, body)).value.name ==
      if IsBlank(name) then Some(FailedFetchName(url)) else name
  {
  }

  /** Blank name and a URL that fails the guard: the name is the URL-based fallback, never empty. */
  lemma BlankNameUnmatchedUsesUrl(name: Option<string>, url: string, notes: Option<string>, fetched: Option<Metadata>)
    requires IsBlank(name) && !Fetches(url)
    ensures AssembleRecord(name, url, notes, fetched).name == Some(UnmatchedName(url))
    ensures UnmatchedName(url) != ""
  {
  }

  /** Blank name, a match and a successful fetch: the name is the stripped repository. */
  lemma BlankNameFetchedUsesRepo(name: Option<string>, url: string, notes: Option<string>, m: Metadata)
    requires IsBlank(name) && Fetches(url)
    ensures AssembleRecord(name, url, notes, Some(m)).name == Some(ParseGithubUrl(url).value.1)
    ensures AssembleRecord(name, url, notes, Some(m)).metadata == Some(m)
  {
  }

  /**
   * Blank name, a match and a failed fetch: the name is the part of the URL
   * after its last '/', with every `.git` removed; it is empty when the URL
   * ends in '/'.
   */
  lemma BlankNameFailedFetchUsesLastSegment(name: Option<string>, url: string, notes: Option<string>)
    requires IsBlank(name) && Fetches(url)
    ensures var rec := AssembleRecord(name, url, notes, None);
      var tail := LastSegment(url);
      rec.name == Some(RemoveAll(tail, GitSuffix)) && rec.metadata == None &&
      |tail| <= |url| && url[|url| - |tail|..] == tail && '/' !in tail && (|tail| < |url| ==> url[|url| - |tail| - 1] == '/')
  {
    LastSegmentIsTail(url);
  }

  /**
   * The `IndexError` branch is taken only for the empty URL, which the
   * route never passes: a URL without '/' is its own last segment.
   */
  lemma IndexErrorOnlyForEmptyUrl(url: string)
    ensures (LastSegment(url) == "" && PyIndex(Split(url, '/'), -2).None?) <==> url == ""
  {
    var parts := Split(url, '/');
    if |parts| == 1 {
      JoinSplit(url, '/');
      assert LastSegment(url) == url;
    }
  }

  /**
   * The whole chain on the fallback name outside a match: the last
   * segment when it is not empty, else the one before it when there is one
   * and it is not empty, else "Untitled Project".
   */
  lemma UnmatchedNameCases(url: string)
    ensures var parts := Split(url, '/');
      var n := |parts|;
      UnmatchedName(url) ==
        if parts[n - 1] != "" then parts[n - 1]
        else if n >= 2 && parts[n - 2] != "" then parts[n - 2]
        else UntitledName
  {
  }

  /**
   * A repository segment of exactly `.git` strips to "", the guard fails,
   * no request is sent and a blank name takes the fallback for unmatched
   * URLs, whatever the response would have been.
   */
  lemma DotGitRepoFallsThrough(name: Option<string>, url: string, notes: Option<string>, fetched: Option<Metadata>)
    requires MatchGroups(url).Some? && MatchGroups(url).value.1 == GitSuffix
    ensures ParseGithubUrl(url) == Some((MatchGroups(url).value.0, ""))
    ensures !Fetches(url)
    ensures AssembleRecord(name, url, notes, fetched) == AssembleRecord(name, url, notes, None)
    ensures IsBlank(name) ==> AssembleRecord(name, url, notes, fetched).name == Some(UnmatchedName(url))
  {
    ParseGithubUrlParts(url);
  }

  // ---------------------------------------------------------------------------
  // Worked examples

  lemma ParseExampleGitSuffix()
    ensures ParseGithubUrl("https://github.com/foo/bar.git") == Some(("foo", "bar"))
  {
    var u := "https://github.com/foo/bar.git";
    assert u == HttpsPrefix + "foo" + "/" + "bar.git";
    assert MatchesAs(u, HttpsPrefix, "foo", "bar.git");
    ParseGithubUrlMatch(u, HttpsPrefix, "foo", "bar.git");
    StripGitSuffixExamples();
  }

  lemma ParseExampleIgnoresRest()
    ensures ParseGithubUrl("http://github.com/foo/bar/tree") == Some(("foo", "bar"))
  {
    var u := "http://github.com/foo/bar/tree";
    assert u == HttpPrefix + "foo" + "/" + "bar" + "/tree";
    assert MatchesAs(u, HttpPrefix, "foo", "bar");
    ParseGithubUrlMatch(u, HttpPrefix, "foo", "bar");
    assert !EndsWith("bar", GitSuffix);
  }

  lemma ParseExampleEmptyRepo()
    ensures ParseGithubUrl("https://github.com/foo/.git") == Some(("foo", ""))
  {
    var u := "https://github.com/foo/.git";
    assert u == HttpsPrefix + "foo" + "/" + ".git";
    assert MatchesAs(u, HttpsPrefix, "foo", ".git");
    ParseGithubUrlMatch(u, HttpsPrefix, "foo", ".git");
    StripGitSuffixExamples();
  }

  lemma ParseExampleOtherHost()
    ensures ParseGithubUrl("https://example.com/foo/bar") == None
  {
    var u := "https://example.com/foo/bar";
    assert !(HttpsPrefix <= u) by { assert u[8] != HttpsPrefix[8]; }
    assert !(HttpPrefix <= u) by { assert u[4] != HttpPrefix[4]; }
  }

  /** The failed-fetch fallback only looks past the last '/'. */
  lemma FailedFetchNameOfTail(a: string, b: string)
    requires '/' !in b
    ensures FailedFetchName(a + "/" + b) == RemoveAll(b, GitSuffix)
  {
    SplitAppend(a, '/', b);
  }

  /** `replace` deletes every `.git`, not only a trailing one. */
  lemma RemoveEveryGitExample()
    ensures RemoveAll("x.gitlab.git", GitSuffix) == "xlab"
  {
    var t := "x.gitlab.git";
    assert RemoveAll(t[12..], GitSuffix) == "";
    assert GitSuffix <= t[8..];
    assert RemoveAll(t[8..], GitSuffix) == "";
    assert !(GitSuffix <= t[7..]) && RemoveAll(t[7..], GitSuffix) == "b";
    assert !(GitSuffix <= t[6..]) && RemoveAll(t[6..], GitSuffix) == "ab";
    assert !(GitSuffix <= t[5..]) && RemoveAll(t[5..], GitSuffix) == "lab";
    assert GitSuffix <= t[1..];
    assert RemoveAll(t[1..], GitSuffix) == "lab";
  }

  /**
   * Unlike the suffix strip, the failed-fetch fallback deletes every `.git`
   * of the last segment, whatever URL precedes it.
   */
  lemma FailedFetchNameEveryGit(a: string)
    ensures FailedFetchName(a + "/x.gitlab.git") == "xlab"
  {
    var b := "x.gitlab.git";
    assert '/' !in b;
    FailedFetchNameOfTail(a, b);
    assert a + "/" + b == a + "/x.gitlab.git";
    RemoveEveryGitExample();
  }

  /** A trailing '/' leaves the failed-fetch fallback empty. */
  lemma FailedFetchNameTrailingSlash()
    ensures FailedFetchName("https://github.com/a/b/") == ""
  {
    FailedFetchNameOfTail("https://github.com/a/b", "");
    assert "https://github.com/a/b" + "/" + "" == "https://github.com/a/b/";
  }

  /** After a trailing slash the fallback takes the segment before it. */
  lemma UnmatchedNameTrailingSlash(a: string, b: string)
    requires '/' !in b && b != ""
    ensures UnmatchedName(a + "/" + b + "/") == b
  {
    SplitAppend(a, '/', b);
    SplitAppend(a + "/" + b, '/', "");
    assert a + "/" + b + "/" == a + "/" + b + "/" + "";
    var parts := Split(a + "/" + b + "/", '/');
    assert parts == Split(a, '/') + [b] + [""];
    assert parts[|parts| - 2] == b;
  }

  lemma UnmatchedNameExample()
    ensures UnmatchedName("https://x.com/a/b/") == "b"
  {
    UnmatchedNameTrailingSlash("https://x.com/a", "b");
    assert "https://x.com/a" + "/" + "b" + "/" == "https://x.com/a/b/";
  }

  lemma UnmatchedNameTwoSlashes()
    ensures UnmatchedName("a//") == UntitledName
  {
    SplitAppend("a/", '/', "");
    SplitAppend("a", '/', "");
    SplitNoSeparator("a", '/');
    assert "a" + "/" + "" == "a/";
    assert "a/" + "/" + "" == "a//";
  }
}
