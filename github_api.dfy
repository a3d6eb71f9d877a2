/**
 * `fetch_github_metadata`: the request it sends and the dictionary it
 * builds from the decoded response. Both versions of the application carry
 * the same code, apart from their `print` calls and the `api_call_url` local
 * of the current version. The network call itself is
 * not modelled: its outcome is an input.
 */
module GithubApi {
  import opened Wrappers

  // ---------------------------------------------------------------------------
  // Decoded JSON, as Python sees it after `response.json()`

  datatype Json =
    | Null
    | Bool(b: bool)
    | Int(i: int)
    | Str(s: string)
    | Array(items: seq<Json>)
    | Object(fields: map<string, Json>)

  /** Python truthiness: None, False, 0, "", [] and {} are false. */
  predicate Truthy(v: Json) {
    match v
    case Null => false
    case Bool(b) => b
    case Int(i) => i != 0
    case Str(s) => s != ""
    case Array(items) => items != []
    case Object(fields) => fields != map[]
  }

  /** `d.get(key, default)` on a dict. */
  function DictGet(d: map<string, Json>, key: string, default: Json): (r: Json)
    ensures key in d ==> r == d[key]
    ensures key !in d ==> r == default
  {
    if key in d then d[key] else default
  }

  /** Storing a key and reading it back gives the stored value; other keys are untouched. */
  lemma DictGetAfterStore(d: map<string, Json>, k: string, v: Json, k2: string, default: Json)
    ensures DictGet(d[k := v], k, default) == v
    ensures k2 != k ==> DictGet(d[k := v], k2, default) == DictGet(d, k2, default)
    ensures DictGet(map[], k, default) == default
  {
  }

  /** The one exception of the modelled code that nothing catches. */
  datatype PyError = AttributeError

  /** `v.get(key)`: a value that is not a dict has no `get` method. */
  function Get(v: Json, key: string): Result<Json, PyError> {
    match v
    case Object(fields) => Success(DictGet(fields, key, Null))
    case _ => Failure(AttributeError)
  }

  // ---------------------------------------------------------------------------
  // The request

  const ApiBase: string := "https://api.github.com/repos/"
  const AcceptMediaType: string := "application/vnd.github.v3+json"

  datatype Request = Request(url: string, headers: map<string, string>)

  /** `if not GITHUB_TOKEN`: an unset and an empty environment value both count as absent. */
  predicate HasToken(token: Option<string>) {
    token.Some? && token.value != ""
  }

  /** The endpoint `GITHUB_API_URL + owner + "/" + repo`. */
  function ApiUrl(owner: string, repo: string): string {
    ApiBase + owner + "/" + repo
  }

  /** The URL and the header set `fetch_github_metadata` passes to `requests.get`. */
  function BuildRequest(owner: string, repo: string, token: Option<string>): (req: Request)
    ensures req.url == ApiUrl(owner, repo)
    ensures "Accept" in req.headers && req.headers["Accept"] == AcceptMediaType
    ensures "Authorization" in req.headers <==> HasToken(token)
    ensures HasToken(token) ==> req.headers["Authorization"] == "token " + token.value
    ensures req.headers.Keys <= {"Accept", "Authorization"}
  {
    var headers :=
      if !HasToken(token) then map["Accept" := AcceptMediaType]
      else map["Authorization" := "token " + token.value, "Accept" := AcceptMediaType];
    Request(ApiUrl(owner, repo), headers)
  }

  /** The position of the first `c` in `s`, if any. */
  function IndexOf(s: string, c: char): (r: Option<nat>)
    ensures r.Some? ==> r.value < |s| && s[r.value] == c && c !in s[..r.value]
    ensures r.None? ==> c !in s
  {
    if s == [] then None
    else if s[0] == c then Some(0)
    else match IndexOf(s[1..], c)
      case None => None
      case Some(k) =>
        assert s[..k + 1] == [s[0]] + s[1..][..k];
        Some(k + 1)
  }

  /** Reads owner and repository back out of an endpoint URL. */
  function SplitApiUrl(url: string): Option<(string, string)> {
    if !(ApiBase <= url) then None
    else
      var path := url[|ApiBase|..];
      match IndexOf(path, '/')
      case None => None
      case Some(k) => Some((path[..k], path[k + 1..]))
  }

  /**
   * The endpoint URL determines the pair it was built from, for an owner
   * without '/', which is every owner the URL pattern accepts.
   */
  lemma SplitApiUrlInverts(owner: string, repo: string)
    requires '/' !in owner
    ensures SplitApiUrl(ApiUrl(owner, repo)) == Some((owner, repo))
  {
    var url := ApiUrl(owner, repo);
    assert url[..|ApiBase|] == ApiBase;
    var path := url[|ApiBase|..];
    assert path == owner + "/" + repo;
    assert path[|owner|] == '/';
    assert path[..|owner|] == owner;
    var k := IndexOf(path, '/');
    assert k.Some?;
    assert path[|owner| + 1..] == repo;
  }

  // ---------------------------------------------------------------------------
  // The response and the metadata dictionary

  /** The seven keys of the metadata dictionary, in the source's order. */
  datatype Metadata = Metadata(
    description: Json,
    stars: Json,
    forks: Json,
    language: Json,
    openIssues: Json,
    license: Json,
    ownerAvatar: Json)

  /**
   * The outcome of `requests.get`: the connection failed (any
   * `RequestException` raised by `get` itself), or a status code and the
   * body, None when it is not valid JSON.
   */
  datatype HttpOutcome = ConnectionFailed | Received(status: int, body: Option<Json>)

  /** `raise_for_status()` raises for 4xx and 5xx codes only. */
  predicate IsErrorStatus(status: int) {
    400 <= status < 600
  }

  /** The `license` entry: `data.get('license', {}).get('name') if data.get('license') else 'No license'`. */
  function LicenseOf(data: map<string, Json>): (r: Result<Json, PyError>)
    ensures r.Failure? <==> "license" in data && Truthy(data["license"]) && !data["license"].Object?
  {
    if Truthy(DictGet(data, "license", Null)) then Get(DictGet(data, "license", Object(map[])), "name")
    else Success(Str("No license"))
  }

  /** The `owner_avatar` entry: `data.get('owner', {}).get('avatar_url')`. */
  function OwnerAvatarOf(data: map<string, Json>): (r: Result<Json, PyError>)
    ensures r.Failure? <==> "owner" in data && !data["owner"].Object?
    ensures "owner" !in data ==> r == Success(Null)
  {
    Get(DictGet(data, "owner", Object(map[])), "avatar_url")
  }

  /** The dictionary built from the decoded payload `data`; `data.get` fails unless it is an object. */
  function ExtractMetadata(data: Json): (r: Result<Metadata, PyError>)
    ensures r.Success? <==>
      data.Object? &&
      ("license" !in data.fields || !Truthy(data.fields["license"]) || data.fields["license"].Object?) &&
      ("owner" !in data.fields || data.fields["owner"].Object?)
  {
    match data
    case Object(d) =>
      (match (LicenseOf(d), OwnerAvatarOf(d))
       case (Success(license), Success(avatar)) =>
         Success(Metadata(
           DictGet(d, "description", Null),
           DictGet(d, "stargazers_count", Null),
           DictGet(d, "forks_count", Null),
           DictGet(d, "language", Null),
           DictGet(d, "open_issues_count", Null),
           license,
           avatar))
       case _ => Failure(AttributeError))
    case _ => Failure(AttributeError)
  }

  /**
   * `fetch_github_metadata` after the call: None for a failed connection,
   * an error status or an undecodable body (all `RequestException`s,
   * caught); otherwise the extracted dictionary, or the `AttributeError`
   * that escapes it.
   */
  function FetchGithubMetadata(outcome: HttpOutcome): (r: Result<Option<Metadata>, PyError>)
    ensures r != Success(None) ==>
      outcome.Received? && !IsErrorStatus(outcome.status) && outcome.body.Some?
    ensures r.Success? && r.value.Some? ==>
      ExtractMetadata(outcome.body.value) == Success(r.value.value)
    ensures r.Failure? ==> ExtractMetadata(outcome.body.value) == Failure(r.error)
    ensures outcome.Received? && !IsErrorStatus(outcome.status) && outcome.body.Some? ==>
      r == (match ExtractMetadata(outcome.body.value)
            case Success(m) => Success(Some(m))
            case Failure(e) => Failure(e))
  {
    match outcome
    case ConnectionFailed => Success(None)
    case Received(status, body) =>
      if IsErrorStatus(status) || body.None? then Success(None)
      else
        match ExtractMetadata(body.value)
        case Success(m) => Success(Some(m))
        case Failure(e) => Failure(e)
  }

  /** No metadata comes back from a failed call or an error status, and nothing is raised. */
  lemma FailedCallGivesNoMetadata(outcome: HttpOutcome)
    requires outcome.ConnectionFailed? || IsErrorStatus(outcome.status) || outcome.body.None?
    ensures FetchGithubMetadata(outcome) == Success(None)
  {
  }

  /**
   * The license entry is "No license" exactly when the payload's `license`
   * is absent or falsy; otherwise it is that object's `name` (None when it
   * has none), and a truthy license that is not an object raises.
   */
  lemma LicenseDefault(data: map<string, Json>)
    ensures !Truthy(DictGet(data, "license", Null)) ==> LicenseOf(data) == Success(Str("No license"))
    ensures "license" in data && data["license"].Object? && data["license"].fields != map[] ==>
      LicenseOf(data) == Success(DictGet(data["license"].fields, "name", Null))
    ensures "license" in data && Truthy(data["license"]) && !data["license"].Object? ==>
      LicenseOf(data) == Failure(AttributeError)
  {
  }

  /**
   * For a payload object with a dict (or no) `license` and `owner`, every
   * entry is the payload's value for its key, None when the key is absent.
   */
  lemma ExtractMetadataFields(d: map<string, Json>)
    requires "owner" !in d || d["owner"].Object?
    requires "license" !in d || d["license"].Object? || !Truthy(d["license"])
    ensures ExtractMetadata(Object(d)).Success?
    ensures var m := ExtractMetadata(Object(d)).value;
      m.description == DictGet(d, "description", Null) &&
      m.stars == DictGet(d, "stargazers_count", Null) &&
      m.forks == DictGet(d, "forks_count", Null) &&
      m.language == DictGet(d, "language", Null) &&
      m.openIssues == DictGet(d, "open_issues_count", Null) &&
      m.ownerAvatar == (if "owner" in d then DictGet(d["owner"].fields, "avatar_url", Null) else Null)
    ensures ExtractMetadata(Object(d)).value.license == LicenseOf(d).value
  {
  }

  /** An `owner` entry that is present but not a dict (JSON null included) raises. */
  lemma NonObjectOwnerRaises(d: map<string, Json>)
    requires "owner" in d && !d["owner"].Object?
    ensures ExtractMetadata(Object(d)) == Failure(AttributeError)
  {
  }
}
