/**
 * The pattern both versions of `parse_github_url` hand to `re.match`:
 *
 *     https?://github\.com/([\w\-\.]+)/([\w\-\.]+)
 *
 * written as a scanner over the characters of the URL. `re.match` anchors
 * at the start of the string and does not need to reach its end. Each
 * `[\w\-\.]+` is greedy; the owner run must be followed by '/', which is not
 * a segment character, so backtracking never yields a shorter owner, and the
 * repository run is simply the longest one.
 */
module GithubUrl {
  import opened Wrappers
  import opened PyStr

  /** One character of `[\w\-\.]`. */
  predicate IsSegmentChar(c: char) {
    IsWordChar(c) || c == '-' || c == '.'
  }

  /** A string that `[\w\-\.]+` matches in full. */
  predicate IsSegment(s: string) {
    s != [] && forall k :: 0 <= k < |s| ==> IsSegmentChar(s[k])
  }

  /** The literal part `https?://github\.com/` of the pattern, with and without the `s`. */
  const HttpsPrefix: string := "https://github.com/"
  const HttpPrefix: string := "http://github.com/"

  predicate IsPrefixLiteral(s: string) {
    s == HttpPrefix || s == HttpsPrefix
  }

  /** Where the literal part ends, if the URL starts with it. */
  function PrefixEnd(url: string): Option<nat> {
    if HttpsPrefix <= url then Some(|HttpsPrefix|)
    else if HttpPrefix <= url then Some(|HttpPrefix|)
    else None
  }

  /** The end of the longest run of segment characters starting at `i`. */
  function SpanSegment(s: string, i: nat): (j: nat)
    requires i <= |s|
    ensures i <= j <= |s|
    ensures forall k :: i <= k < j ==> IsSegmentChar(s[k])
    ensures j == |s| || !IsSegmentChar(s[j])
    decreases |s| - i
  {
    if i < |s| && IsSegmentChar(s[i]) then SpanSegment(s, i + 1) else i
  }

  /** The longest run is unique: any run that cannot be extended is it. */
  lemma {:induction false} SpanSegmentExact(s: string, i: nat, j: nat)
    requires i <= j <= |s|
    requires forall k :: i <= k < j ==> IsSegmentChar(s[k])
    requires j == |s| || !IsSegmentChar(s[j])
    ensures SpanSegment(s, i) == j
    decreases j - i
  {
    if i < j {
      SpanSegmentExact(s, i + 1, j);
    }
  }

  /**
   * `re.match(pattern, url).groups()`: the owner and repository groups, or
   * None when the pattern does not match at the start of `url`.
   */
  function MatchGroups(url: string): (r: Option<(string, string)>)
    ensures r.Some? ==> PrefixEnd(url).Some? && IsSegment(r.value.0) && IsSegment(r.value.1)
  {
    match PrefixEnd(url)
    case None => None
    case Some(p) =>
      var ownerEnd := SpanSegment(url, p);
      if ownerEnd == p || ownerEnd == |url| || url[ownerEnd] != '/' then None
      else
        var repoEnd := SpanSegment(url, ownerEnd + 1);
        if repoEnd == ownerEnd + 1 then None
        else Some((url[p..ownerEnd], url[ownerEnd + 1..repoEnd]))
  }

  /**
   * The reference meaning of a match: `url` starts with `prefix` (one of the
   * two literals), then an owner segment, then '/', then a repository
   * segment that the next character, if any, cannot extend. Whatever
   * follows is ignored.
   */
  predicate MatchesAs(url: string, prefix: string, owner: string, repo: string) {
    IsPrefixLiteral(prefix) && IsSegment(owner) && IsSegment(repo) &&
    var ownerEnd := |prefix| + |owner|;
    var repoEnd := ownerEnd + 1 + |repo|;
    repoEnd <= |url| && url[..|prefix|] == prefix && url[|prefix|..ownerEnd] == owner &&
    url[ownerEnd] == '/' && url[ownerEnd + 1..repoEnd] == repo &&
    (repoEnd == |url| || !IsSegmentChar(url[repoEnd]))
  }

  /** Every match the scanner reports has the reference shape. */
  lemma MatchGroupsSound(url: string)
    requires MatchGroups(url).Some?
    ensures var (owner, repo) := MatchGroups(url).value;
      MatchesAs(url, HttpPrefix, owner, repo) || MatchesAs(url, HttpsPrefix, owner, repo)
  {
    var p := PrefixEnd(url).value;
    var prefix := if HttpsPrefix <= url then HttpsPrefix else HttpPrefix;
    assert url[..p] == prefix;
    var ownerEnd := SpanSegment(url, p);
    var repoEnd := SpanSegment(url, ownerEnd + 1);
    var owner, repo := url[p..ownerEnd], url[ownerEnd + 1..repoEnd];
    assert MatchGroups(url).value == (owner, repo);
    assert IsSegment(owner) && IsSegment(repo);
    assert MatchesAs(url, prefix, owner, repo);
  }

  /** Every URL of the reference shape is matched, with exactly its owner and repository. */
  lemma MatchGroupsComplete(url: string, prefix: string, owner: string, repo: string)
    requires MatchesAs(url, prefix, owner, repo)
    ensures MatchGroups(url) == Some((owner, repo))
  {
    var p := |prefix|;
    var ownerEnd := p + |owner|;
    var repoEnd := ownerEnd + 1 + |repo|;
    if prefix == HttpPrefix {
      assert url[4] == url[..p][4] == ':';
      assert !(HttpsPrefix <= url);
    }
    assert PrefixEnd(url) == Some(p);
    assert forall k :: p <= k < ownerEnd ==> url[k] == owner[k - p];
    SpanSegmentExact(url, p, ownerEnd);
    assert forall k :: ownerEnd + 1 <= k < repoEnd ==> url[k] == repo[k - ownerEnd - 1];
    SpanSegmentExact(url, ownerEnd + 1, repoEnd);
  }

  /** A URL the scanner rejects has no decomposition of the reference shape at all. */
  lemma NoMatchMeansNoShape(url: string)
    requires MatchGroups(url).None?
    ensures forall scheme, owner, repo :: !MatchesAs(url, scheme, owner, repo)
  {
    forall scheme, owner, repo ensures !MatchesAs(url, scheme, owner, repo) {
      if MatchesAs(url, scheme, owner, repo) {
        MatchGroupsComplete(url, scheme, owner, repo);
      }
    }
  }

  /** Both groups of a match are non-empty runs of segment characters, so neither holds '/'. */
  lemma MatchGroupsAreSegments(url: string)
    requires MatchGroups(url).Some?
    ensures IsSegment(MatchGroups(url).value.0) && IsSegment(MatchGroups(url).value.1)
    ensures '/' !in MatchGroups(url).value.0 && '/' !in MatchGroups(url).value.1
  {
    assert !IsSegmentChar('/');
  }
}
