/**
 * Version 1.5 of the registrar: `parse_github_url` returns the two groups
 * of the pattern unchanged, and `add_project` replaces the name by the
 * repository only after a successful fetch, with no URL-based fallback.
 */
module AppV15 {
  import opened Wrappers
  import opened PyStr
  import opened GithubUrl
  import opened GithubApi
  import opened Records
  import App

  /** `parse_github_url`: `match.groups()`, or None for `(None, None)`. */
  function ParseGithubUrl(url: string): (r: Option<(string, string)>)
    ensures r.Some? ==> IsSegment(r.value.0) && IsSegment(r.value.1)
    ensures r.None? <==> forall prefix, owner, repo :: !MatchesAs(url, prefix, owner, repo)
  {
    if MatchGroups(url).Some? then
      MatchGroupsAreSegments(url);
      MatchGroupsSound(url);
      MatchGroups(url)
    else
      NoMatchMeansNoShape(url);
      None
  }

  /** A URL of the reference shape gives its owner and repository, `.git` and all. */
  lemma ParseGithubUrlMatch(url: string, prefix: string, owner: string, repo: string)
    requires MatchesAs(url, prefix, owner, repo)
    ensures ParseGithubUrl(url) == Some((owner, repo))
  {
    MatchGroupsComplete(url, prefix, owner, repo);
  }

  lemma ParseExampleKeepsGitSuffix()
    ensures ParseGithubUrl("https://github.com/foo/bar.git") == Some(("foo", "bar.git"))
  {
    var u := "https://github.com/foo/bar.git";
    assert u == HttpsPrefix + "foo" + "/" + "bar.git";
    assert MatchesAs(u, HttpsPrefix, "foo", "bar.git");
    ParseGithubUrlMatch(u, HttpsPrefix, "foo", "bar.git");
  }

  /** `if owner and repo:` */
  predicate Fetches(url: string): (b: bool)
    ensures b <==> ParseGithubUrl(url).Some?
  {
    match ParseGithubUrl(url)
    case None => false
    case Some((owner, repo)) => owner != "" && repo != ""
  }

  /** `project_name` after the branches: only a falsy name after a successful fetch is replaced. */
  function NameToSave(name: Option<string>, url: string, fetched: Option<Metadata>): (r: Option<string>)
    ensures r != name ==> r.Some? && IsSegment(r.value) && fetched.Some? && IsFalsy(name)
    ensures fetched.None? ==> r == name
  {
    if Fetches(url) && fetched.Some? && IsFalsy(name) then Some(ParseGithubUrl(url).value.1) else name
  }

  /** The document `add_project` inserts, given what `fetch_github_metadata` returned. */
  function AssembleRecord(name: Option<string>, url: string, notes: Option<string>, fetched: Option<Metadata>): (rec: ProjectRecord)
    ensures rec.url == url && rec.notes == notes && HasFixedFields(rec)
    ensures rec.metadata == (if Fetches(url) then fetched else None)
    ensures rec.name != name ==> Fetches(url) && fetched.Some? && IsFalsy(name)
  {
    NewRecord(NameToSave(name, url, fetched), url, notes, if Fetches(url) then fetched else None)
  }

  /**
   * `add_project` once the store is up; the route calls it only with a
   * non-empty URL. An `AttributeError` from the fetch escapes.
   */
  function AddProject(name: Option<string>, url: string, notes: Option<string>, outcome: HttpOutcome): (r: Result<ProjectRecord, PyError>)
    requires url != ""
    ensures r.Failure? <==> Fetches(url) && FetchGithubMetadata(outcome).Failure?
    ensures r.Success? ==> r.value.url == url && r.value.notes == notes && HasFixedFields(r.value)
    ensures r.Success? ==>
      r.value == AssembleRecord(name, url, notes, if Fetches(url) then FetchGithubMetadata(outcome).value else None)
  {
    if !Fetches(url) then Success(AssembleRecord(name, url, notes, None))
    else
      match FetchGithubMetadata(outcome)
      case Failure(e) => Failure(e)
      case Success(fetched) => Success(AssembleRecord(name, url, notes, fetched))
  }

  /** The request `add_project` causes, if any. */
  function RequestSent(url: string, token: Option<string>): (req: Option<Request>)
    ensures req.Some? <==> ParseGithubUrl(url).Some?
    ensures req.Some? ==> req.value.url == ApiBase + ParseGithubUrl(url).value.0 + "/" + ParseGithubUrl(url).value.1
    ensures req.Some? ==>
      req.value == BuildRequest(ParseGithubUrl(url).value.0, ParseGithubUrl(url).value.1, token)
  {
    if Fetches(url) then
      var (owner, repo) := ParseGithubUrl(url).value;
      Some(BuildRequest(owner, repo, token))
    else None
  }

  /** A falsy name after a successful fetch becomes the repository, `.git` suffix included. */
  lemma FalsyNameFetchedUsesRepo(name: Option<string>, url: string, notes: Option<string>, m: Metadata)
    requires IsFalsy(name) && ParseGithubUrl(url).Some?
    ensures AssembleRecord(name, url, notes, Some(m)).name == Some(ParseGithubUrl(url).value.1)
    ensures AssembleRecord(name, url, notes, Some(m)).metadata == Some(m)
  {
  }

  /** A whitespace-only name is truthy here and is kept as it is, although the current version would replace it. */
  lemma WhitespaceNameKept(name: Option<string>, url: string, notes: Option<string>, fetched: Option<Metadata>)
    requires name.Some? && name.value != "" && AllSpace(name.value)
    ensures AssembleRecord(name, url, notes, fetched).name == name
    ensures IsBlank(name)
  {
  }

  /** Without a match, or after a failed fetch, the name is stored as given, None and "" included. */
  lemma NameKeptWithoutFetch(name: Option<string>, url: string, notes: Option<string>)
    ensures AssembleRecord(name, url, notes, None).name == name
    ensures AssembleRecord(name, url, notes, None).metadata == None
  {
  }

  /** A URL that does not match sends nothing, and the response cannot matter. */
  lemma NoFetchWithoutMatch(name: Option<string>, url: string, notes: Option<string>, o1: HttpOutcome, o2: HttpOutcome)
    requires url != "" && ParseGithubUrl(url).None?
    ensures AddProject(name, url, notes, o1) == AddProject(name, url, notes, o2)
    ensures AddProject(name, url, notes, o1) == Success(NewRecord(name, url, notes, None))
    ensures RequestSent(url, None) == None
  {
  }

  // ---------------------------------------------------------------------------
  // The two versions side by side

  /**
   * The current version's classifier is this one followed by the suffix
   * strip, and both send the request for the same URLs unless the
   * repository segment is exactly `.git`.
   */
  lemma ClassifiersAgree(url: string)
    ensures App.ParseGithubUrl(url) ==
      match ParseGithubUrl(url)
      case None => None
      case Some((owner, repo)) => Some((owner, App.StripGitSuffix(repo)))
    ensures ParseGithubUrl(url).Some? && ParseGithubUrl(url).value.1 != App.GitSuffix ==>
      App.Fetches(url) == Fetches(url)
  {
    if ParseGithubUrl(url).Some? {
      App.ParseGithubUrlParts(url);
    }
  }

  /**
   * With a name that is not blank and a repository segment other than
   * `.git`, both versions insert the same document for the same fetch
   * result. The fetch results need not be the same: for a repository
   * ending in `.git` the two versions query different endpoints
   * (`EndpointsDifferForGitSuffix`), and only without that suffix do they
   * send the same request (`SameRequestWithoutGitSuffix`).
   */
  lemma VersionsAgreeOnNamedProjects(name: Option<string>, url: string, notes: Option<string>, fetched: Option<Metadata>)
    requires !IsBlank(name)
    requires ParseGithubUrl(url).None? || ParseGithubUrl(url).value.1 != App.GitSuffix
    ensures App.AssembleRecord(name, url, notes, fetched) == AssembleRecord(name, url, notes, fetched)
  {
    ClassifiersAgree(url);
  }

  /** Without a `.git` suffix on the repository segment, both versions send the same request. */
  lemma SameRequestWithoutGitSuffix(url: string, token: Option<string>)
    requires ParseGithubUrl(url).None? || !EndsWith(ParseGithubUrl(url).value.1, App.GitSuffix)
    ensures App.RequestSent(url, token) == RequestSent(url, token)
  {
    ClassifiersAgree(url);
    if ParseGithubUrl(url).Some? {
      var (owner, repo) := ParseGithubUrl(url).value;
      assert repo != App.GitSuffix by {
        if repo == App.GitSuffix {
          assert EndsWith(repo, App.GitSuffix);
        }
      }
    }
  }

  /**
   * A repository segment that ends in `.git` without being `.git` makes the
   * two versions query different endpoints: the current one drops the suffix.
   */
  lemma EndpointsDifferForGitSuffix(url: string, token: Option<string>)
    requires ParseGithubUrl(url).Some?
    requires EndsWith(ParseGithubUrl(url).value.1, App.GitSuffix) && ParseGithubUrl(url).value.1 != App.GitSuffix
    ensures App.RequestSent(url, token).Some? && RequestSent(url, token).Some?
    ensures App.RequestSent(url, token).value.url + App.GitSuffix == RequestSent(url, token).value.url
  {
    ClassifiersAgree(url);
    var (owner, repo) := ParseGithubUrl(url).value;
    var stripped := App.StripGitSuffix(repo);
    assert ApiBase + owner + "/" + stripped + App.GitSuffix == ApiBase + owner + "/" + repo;
  }
}
