# repo-reg: the GitHub URL classifier, metadata fetcher and record policy

repo-reg is a small Flask application that registers software projects in a
MongoDB collection. When the submitted URL names a GitHub repository, it fetches
the repository's metadata from the GitHub REST API. This project models the
pure logic of two versions of it: the current `app.py` and the earlier
`backup/app-ver1.5.py`. The logic has three parts:

- **the URL classifier** `parse_github_url`. It anchors the regular expression
  `https?://github\.com/([\w\-\.]+)/([\w\-\.]+)` at the start of the URL. The
  current version strips one `.git` suffix from the repository group. Version
  1.5 returns the groups unchanged.
- **the fetcher** `fetch_github_metadata`. It builds the endpoint URL and
  chooses the header set by whether a token is configured. It then turns the
  decoded payload into a dictionary of seven fields.
- **the record policy** of `add_project`. It decides the saved name and the
  `metadata` field, and fills in the fixed fields of the inserted document.

Modules:

| module | file | models |
|---|---|---|
| `Wrappers` | wrappers.dfy | `Option` (Python's `None`) and `Result` (an exception nobody catches) |
| `PyStr` | pystr.dfy | the Python built-ins the code relies on: `split('/')`, negative indexing, `replace('.git', '')`, `strip()`, `endswith`, and the tests `not s` and `not s or s.strip() == ""` |
| `GithubUrl` | github_url.dfy | the shared pattern, written as a scanner; `MatchesAs` is an independent reference definition of a match |
| `GithubApi` | github_api.dfy | the decoded JSON, the request, and the metadata dictionary; the network outcome is an input |
| `Records` | records.dfy | the inserted document and its fixed fields |
| `App` | app.dfy | `app.py`: `parse_github_url` with `.git` stripping, and the `add_project` name fallbacks |
| `AppV15` | app_v15.dfy | `backup/app-ver1.5.py`: `parse_github_url` without stripping, the simpler name policy, and lemmas that compare the two versions |

The two versions' `fetch_github_metadata` bodies are identical apart from
their `print` calls and the `api_call_url` local of `app.py:60`. So are their
dict literals (`app.py:69-77` and
`backup/app-ver1.5.py:58-66`), their endpoint URLs (`app.py:60` and
`backup/app-ver1.5.py:53`) and their header choices (`app.py:53-58` and
`backup/app-ver1.5.py:45-50`). `GithubApi` models that code once, and both
versions use it.

Python's `(None, None)` result of the classifier is `None`. A matched pair is
`Some((owner, repo))`. A `metadata` of `{}` is `None`. The fetched dictionary
is `Some(m)`, and it is always truthy because it has seven keys.

Behaviour worth noting:

- The code does not trim a user-supplied name. A name that survives the
  blank test is stored verbatim.
- After a failed fetch, the fallback name is `url.split('/')[-1].replace('.git', '')`.
  This removes every `.git`, not only a trailing one. It is also empty when the
  URL ends in `/`. So a saved name can be empty.
- In the current version a repository segment of exactly `.git` matches the
  pattern but strips to `""`. The `owner and repo` guard then fails.
- Neither version validates tags, category, status or priority. Both store
  `tags = []`, `category = ""`, `status = "To Do"` and `priority = "Medium"`.

## Model

| member | source | states |
|---|---|---|
| `PyStr.Split` | app.py:112 | `split('/')` gives one more piece than there are separators, and no piece contains a separator |
| `PyStr.JoinSplit` | app.py:112 | joining the pieces of a split with the separator gives the original string back |
| `PyStr.SplitAppend` | app.py:116 | a separator followed by a separator-free tail adds that tail as the final piece |
| `PyStr.LastSegmentIsTail` | app.py:112 | `split('/')[-1]` is the suffix after the last `/`, or the whole string when it has no `/` |
| `PyStr.NegativeIndexAgrees` | app.py:116 | Python list indexing: `xs[i - len(xs)]` names the same element as `xs[i]`, and every index below `-len` or at `len` or above is an `IndexError`, on the empty list too |
| `PyStr.RemoveAll` | app.py:112 | `replace(pat, '')` never lengthens a string |
| `PyStr.RemoveAllKeepsOnlyChars` | app.py:112 | `replace(pat, '')` only deletes: every character of the result occurs in the input |
| `PyStr.RemoveAllNoOccurrence` | app.py:112 | `replace('.git', '')` leaves a string with no occurrence of the pattern unchanged |
| `PyStr.RemoveAllShrinks` | app.py:112 | an occurrence of the pattern anywhere in the string makes `replace` strictly shorten it |
| `PyStr.RemoveAllUnchangedIff` | app.py:112 | `replace(pat, '')` returns the string unchanged exactly when the pattern does not occur in it |
| `PyStr.StripEmptyIff` | app.py:105 | `s.strip() == ""` holds exactly when every character of `s` is Python whitespace |
| `PyStr.Strip` | app.py:105 | `strip()` never lengthens a string, and a non-empty result starts and ends with a non-whitespace character |
| `PyStr.IsBlank` | app.py:105 | the blank test `not s or s.strip() == ""` holds exactly for None and for strings that are all whitespace (the empty string included) |
| `GithubUrl.SpanSegment` | app.py:39 | the greedy `[\w\-\.]+` scan stops at the first character outside the class, and everything it passed is in the class |
| `GithubUrl.SpanSegmentExact` | app.py:39 | any run of segment characters that cannot be extended is the one the greedy scan finds |
| `GithubUrl.MatchGroups` | app.py:39-40 | a match starts with one of the two literal prefixes, and both groups are non-empty runs of `[\w\-\.]`; `MatchGroupsSound`, `MatchGroupsComplete` and `NoMatchMeansNoShape` pin it to the reference shape |
| `GithubUrl.MatchGroupsSound` | app.py:39-42 | every match starts with `http://github.com/` or `https://github.com/`, then a non-empty owner run, `/`, and a non-empty repository run that the next character cannot extend |
| `GithubUrl.MatchGroupsComplete` | app.py:39-42 | every URL of that shape matches, with exactly that owner and repository and whatever follows ignored |
| `GithubUrl.NoMatchMeansNoShape` | app.py:39-49 | a URL the pattern rejects has no decomposition of that shape |
| `GithubUrl.MatchGroupsAreSegments` | app.py:42 | both captured groups are non-empty runs of `[\w\-\.]` and contain no `/` |
| `GithubApi.BuildRequest` | app.py:53-60 | the request goes to `https://api.github.com/repos/` + owner + `/` + repo; `Accept` is always `application/vnd.github.v3+json`; `Authorization: token <t>` is present exactly when the token is set and non-empty; there are no other headers |
| `GithubApi.DictGetAfterStore` | app.py:70-74 | `d.get(key, default)` reads back a stored value, is unaffected by storing another key, and gives the default on an empty dict |
| `GithubApi.SplitApiUrlInverts` | app.py:60 | the endpoint URL determines the owner and repository it was built from, for any owner without `/` |
| `GithubApi.FetchGithubMetadata` | app.py:63-81 | anything but None needs a received, non-4xx/5xx, decodable body; for such a body the result is exactly the extracted dictionary, or the `AttributeError` extracting it raises |
| `GithubApi.ExtractMetadata` | app.py:69-77 | the dictionary is built exactly when the payload is an object whose `license` is absent, falsy or an object and whose `owner` is absent or an object; otherwise `AttributeError` |
| `GithubApi.LicenseOf` | app.py:75 | the `license` entry raises exactly when the payload's `license` is truthy and not an object |
| `GithubApi.OwnerAvatarOf` | app.py:76 | the `owner_avatar` entry raises exactly when `owner` is present and not an object, and is None when `owner` is absent |
| `GithubApi.FailedCallGivesNoMetadata` | app.py:63-81 | a connection failure, an error status or an undecodable body gives None and raises nothing |
| `GithubApi.LicenseDefault` | app.py:75 | `license` is "No license" when the payload's `license` is absent or falsy, and that object's `name` otherwise (None without one); a truthy non-object license raises `AttributeError` |
| `GithubApi.ExtractMetadataFields` | app.py:69-77 | each of the six fields other than `license` is the payload's value under its key, and None when the key is absent; the `license` field is the value `LicenseDefault` describes |
| `GithubApi.NonObjectOwnerRaises` | app.py:76 | an `owner` value that is present but not an object (JSON null included) makes `.get('avatar_url')` raise |
| `App.StripGitSuffix` | app.py:44-47 | a repository ending in `.git` loses exactly those four characters; any other is unchanged |
| `App.StripGitSuffixExamples` | app.py:44-47 | `b.git.git` becomes `b.git`, `b.GIT` and `git` are unchanged, and `.git` becomes `""` |
| `App.ParseGithubUrl` | app.py:35-49 | matches exactly when the shared pattern does, with the same owner and with the repository either unchanged or stripped of one `.git` |
| `App.ParseGithubUrlMatch` | app.py:39-48 | a URL of the reference shape gives its owner and its stripped repository |
| `App.ParseGithubUrlNone` | app.py:39-49 | `(None, None)` comes back exactly for URLs with no decomposition of the reference shape |
| `App.ParseGithubUrlParts` | app.py:42-47 | the owner is never empty, and the repository is empty exactly when the captured segment was `.git` |
| `App.Fetches` | app.py:99 | the `owner and repo` guard holds exactly when the pattern matched and the repository segment is not exactly `.git` |
| `App.FailedFetchName` | app.py:112 | the failed-fetch fallback contains no `/` and is no longer than the URL's last segment |
| `App.UnmatchedName` | app.py:113-118 | the fallback name for an unmatched URL is never empty |
| `App.NameToSave` | app.py:96-118 | a name is always saved; it differs from the user's name only when that was blank; for a blank name and a URL that fails the guard it is non-empty |
| `App.ParseExampleGitSuffix` | app.py:39-48 | `https://github.com/foo/bar.git` gives `("foo", "bar")` |
| `App.ParseExampleIgnoresRest` | app.py:39-40 | `http://github.com/foo/bar/tree` gives `("foo", "bar")`: the match is a prefix match |
| `App.ParseExampleEmptyRepo` | app.py:44-45 | `https://github.com/foo/.git` gives `("foo", "")` |
| `App.ParseExampleOtherHost` | app.py:49 | `https://example.com/foo/bar` gives `(None, None)` |
| `App.AssembleRecord` | app.py:95-130 | the document keeps `url` and `notes` as given, has the fixed fields, has metadata only when the guard held and the fetch returned a value, keeps a non-blank name verbatim, and always has a name |
| `App.AddProject` | app.py:89-130 | it raises exactly when the guard holds and the fetch raises; otherwise the inserted document is `AssembleRecord` of the inputs and of the fetch result under the guard (`{}` metadata without it), so every name and metadata lemma about `AssembleRecord` applies to it |
| `App.ErrorStatusAfterMatch` | app.py:101-112 | a 4xx/5xx response under the guard still writes the project, with `{}` metadata and, for a blank name, the failed-fetch fallback |
| `App.RequestSent` | app.py:53-60 | a request is sent exactly when `owner and repo` holds, and it is the request `BuildRequest` makes for the parsed owner and stripped repository, so its endpoint and header rules apply |
| `App.RequestTargetsParsedRepo` | app.py:60 | the request's endpoint reads back to the parsed owner and stripped repository |
| `App.NoFetchWithoutMatch` | app.py:98-99 | without the guard no request is sent, the response cannot affect the result, nothing is raised, and metadata is `{}` |
| `App.BlankNameFetchedUsesRepo` | app.py:102-106 | blank name, a match and a successful fetch: the saved name is the stripped repository and the metadata is the fetched dictionary |
| `App.BlankNameFailedFetchUsesLastSegment` | app.py:108-112 | blank name, a match and a failed fetch: the saved name is the text after the URL's last `/` with every `.git` removed, and the metadata is `{}` |
| `App.BlankNameUnmatchedUsesUrl` | app.py:113-118 | blank name and a URL that fails the guard: the saved name is the unmatched-URL fallback, which is never empty |
| `App.FailedFetchNameOfTail` | app.py:112 | the failed-fetch fallback depends only on the text after the last `/` |
| `App.RemoveEveryGitExample` | app.py:112 | `"x.gitlab.git".replace('.git', '')` is `"xlab"` |
| `App.FailedFetchNameEveryGit` | app.py:112 | the failed-fetch fallback for any URL ending in `/x.gitlab.git` is `xlab`, where the suffix strip would give `x.gitlab` |
| `App.FailedFetchNameTrailingSlash` | app.py:112 | the failed-fetch fallback for `https://github.com/a/b/` is the empty string |
| `App.UnmatchedNameCases` | app.py:116 | that fallback is the last segment if it is non-empty, else the second-to-last if it exists and is non-empty, else "Untitled Project" |
| `App.IndexErrorOnlyForEmptyUrl` | app.py:115-118 | the `IndexError` branch is reached exactly for the empty URL, which the route at line 158 never passes |
| `App.UnmatchedNameTrailingSlash` | app.py:116 | a URL ending in `/b/`, where `b` is non-empty and has no `/`, falls back on `b` |
| `App.UnmatchedNameExample` | app.py:116 | `https://x.com/a/b/` falls back on `b` |
| `App.UnmatchedNameTwoSlashes` | app.py:116 | `a//` falls back on "Untitled Project" |
| `App.DotGitRepoFallsThrough` | app.py:44-118 | a repository segment of exactly `.git` gives `repo == ""`, so the guard fails, the fetch result is ignored and a blank name takes the unmatched-URL fallback |
| `Records.NewRecord` | app.py:121-130 | the document literal has `tags = []`, `category = ""`, `status = "To Do"` and `priority = "Medium"` |
| `Records.NewRecordCharacterised` | app.py:121-130 | the documents the literal can build are exactly those with the fixed fields, and each is determined by its name, url, notes and metadata |
| `AppV15.ParseGithubUrl` | backup/app-ver1.5.py:35-41 | on a match both groups are non-empty `[\w\-\.]` runs; `(None, None)` comes back exactly for URLs with no decomposition of the reference shape |
| `AppV15.ParseGithubUrlMatch` | backup/app-ver1.5.py:37-40 | a URL of the reference shape gives its owner and repository unchanged |
| `AppV15.ParseExampleKeepsGitSuffix` | backup/app-ver1.5.py:37-40 | `https://github.com/foo/bar.git` gives `("foo", "bar.git")` |
| `AppV15.Fetches` | backup/app-ver1.5.py:86-87 | the `owner and repo` guard holds exactly when the URL matched |
| `AppV15.NameToSave` | backup/app-ver1.5.py:84-94 | the saved name differs from the given one only when that was None or `""` and a fetch returned metadata, and then it is a non-empty segment; without metadata it is the given name |
| `AppV15.AssembleRecord` | backup/app-ver1.5.py:83-108 | the document keeps `url` and `notes`, has the fixed fields, has metadata only after a fetch under the guard, and differs in name from the input only for a falsy name after a successful fetch |
| `AppV15.AddProject` | backup/app-ver1.5.py:78-110 | it raises exactly when the guard holds and the fetch raises; otherwise the inserted document is `AssembleRecord` of the inputs and of the fetch result under the guard (`{}` metadata without it) |
| `AppV15.RequestSent` | backup/app-ver1.5.py:45-53 | a request is sent exactly for a matched URL, to `https://api.github.com/repos/` + owner + `/` + repo, and it is the request `BuildRequest` makes for that pair, with its header rule |
| `AppV15.FalsyNameFetchedUsesRepo` | backup/app-ver1.5.py:90-94 | a None or empty name after a successful fetch becomes the repository, `.git` included |
| `AppV15.WhitespaceNameKept` | backup/app-ver1.5.py:93 | every non-empty whitespace-only name is truthy and is kept, although the current version's blank test holds for it |
| `AppV15.NameKeptWithoutFetch` | backup/app-ver1.5.py:84-100 | with no metadata the name is stored as given (None and `""` included) and the metadata is `{}` |
| `AppV15.NoFetchWithoutMatch` | backup/app-ver1.5.py:86-87 | without a match no request is sent and the document is the given fields with `{}` metadata, whatever the response |
| `AppV15.ClassifiersAgree` | app.py:35-49 | the current classifier is the version 1.5 classifier followed by the suffix strip, and both versions fetch for the same URLs unless the repository segment is `.git` |
| `AppV15.VersionsAgreeOnNamedProjects` | backup/app-ver1.5.py:83-108 | with a non-blank name and a repository segment other than `.git`, both versions insert the same document for the same fetch result; the fetch results themselves can differ, because the endpoints differ for `.git` repositories |
| `AppV15.SameRequestWithoutGitSuffix` | backup/app-ver1.5.py:37-53 | when the repository segment does not end in `.git`, or nothing matched, both versions send the same request, so they see the same fetch result |
| `AppV15.EndpointsDifferForGitSuffix` | backup/app-ver1.5.py:37-53 | for a repository segment ending in `.git` (other than `.git` itself), both versions send a request, and version 1.5's endpoint is the current one's followed by `.git` |

## Left out

- Flask routes, `render_template`, `flash` and `redirect` are user-interface plumbing. The route's one condition, a non-blank URL (app.py:158), or a non-empty one in version 1.5, is the `requires` of `AddProject`.
- The MongoDB connection, `insert_one`, `get_all_projects`, `delete_project_by_id` and their `projects_collection is None` and insert-failure branches are calls into a database driver this model cannot see. `AddProject` models `add_project` from line 95 on (line 83 in version 1.5), once the store is known to be up.
- `requests.get`, `raise_for_status` and `.json()` are network I/O. Their outcome is the `HttpOutcome` input. An undecodable body counts as a caught `RequestException`, which holds for `requests` 2.27 and later.
- `os.getenv('GITHUB_TOKEN')` is environment access, so the token is a parameter of `BuildRequest` and `RequestSent`. `os.urandom` and the `print` logging are left out.
- backup/app-ver.01.py is not part of this model. It holds only CRUD over the collection.
- PyStr.IsWordChar covers only the ASCII word characters `[A-Za-z0-9_]`. Python's `\w` on `str` also matches non-ASCII letters and digits. Unicode character classes are not modelled. Where the code matches such a character, the model's greedy scan stops before it. So a URL whose owner contains one, or whose repository starts with one, does not match here. A repository that contains one later is cut short before it: for `https://github.com/foo/bär` the model gives `("foo", "b")` where Python gives `("foo", "bär")`. The model then requests `/repos/foo/b`, and a blank name becomes `b`.
- GithubApi.Json has integers but no floating-point numbers. None of the extracted fields needs them.
- Flash messages, and which of them is shown, are not modelled.
