/** Finding the repository name in a URL path, although a name may itself contain reserved segments. */
module RepoPath {

  const V2_SUFFIXES := ["/manifests/", "/blobs/", "/tags/list"]
  const PULL_SUFFIXES := ["/manifests/", "/blobs/"]
  const API_SUFFIXES := ["/tags", "/manifests/", "/blobs/", "/stats", "/tag-policy", "/init",
                         "/manifests/batch-delete", "/retention-preview", "/retention-run"]

  predicate OccursAt(path: string, marker: string, i: nat) {
    i <= |path| && marker <= path[i..]
  }

  /** Where the marker begins for the last time, or -1. */
  function LastIndex(path: string, marker: string): (i: int)
    ensures -1 <= i <= |path|
    ensures i >= 0 ==> OccursAt(path, marker, i)
    ensures forall j: nat :: OccursAt(path, marker, j) ==> j <= i
  {
    LastBefore(path, marker, |path| + 1)
  }

  function LastBefore(path: string, marker: string, n: nat): (i: int)
    requires n <= |path| + 1
    ensures -1 <= i < n
    ensures i >= 0 ==> OccursAt(path, marker, i)
    ensures forall j: nat :: j < n && OccursAt(path, marker, j) ==> j <= i
  {
    if n == 0 then -1 else if OccursAt(path, marker, n - 1) then n - 1 else LastBefore(path, marker, n - 1)
  }

  /** Some marker begins at `i`. */
  ghost predicate AnyAt(path: string, markers: seq<string>, i: nat) {
    exists m :: m in markers && OccursAt(path, m, i)
  }

  /** The last place where any marker begins, or -1. */
  ghost predicate IsBest(path: string, markers: seq<string>, best: int) {
    && -1 <= best <= |path|
    && (best >= 0 ==> AnyAt(path, markers, best))
    && (forall j: nat :: AnyAt(path, markers, j) ==> j <= best)
  }

  /** `repo` is what precedes the last marker; it is empty exactly if no marker has anything before it. */
  ghost predicate Located(path: string, markers: seq<string>, repo: string) {
    && repo <= path && (repo != "" ==> AnyAt(path, markers, |repo|))
    && forall j: nat :: j > |repo| ==> !AnyAt(path, markers, j)
  }

  lemma LocatedIsUnique(path: string, markers: seq<string>, a: string, b: string)
    requires Located(path, markers, a) && Located(path, markers, b)
    ensures a == b
  {
    assert |a| == |b|;
    assert a == path[..|a|] && b == path[..|b|];
  }

  method RepoBeforeLastSuffix(path: string, markers: seq<string>) returns (repo: string)
    ensures Located(path, markers, repo) && repo == Before(path, markers)
  {
    var best := -1;
    for i := 0 to |markers|
      invariant IsBest(path, markers[..i], best)
    {
      var idx := LastIndex(path, markers[i]);
      OneMoreMarker(path, markers, i, best);
      if idx > best {
        best := idx;
      }
    }
    assert markers[..|markers|] == markers;
    assert best == Best(path, markers);
    repo := if best <= 0 then "" else path[..best];
  }

  lemma AnyOfMore(path: string, markers: seq<string>, m: string, j: nat)
    ensures AnyAt(path, markers + [m], j) <==> AnyAt(path, markers, j) || OccursAt(path, m, j)
  {}

  lemma OneMoreMarker(path: string, markers: seq<string>, i: nat, best: int)
    requires i < |markers| && IsBest(path, markers[..i], best)
    ensures IsBest(path, markers[..i + 1],
                   if LastIndex(path, markers[i]) > best then LastIndex(path, markers[i]) else best)
  {
    assert markers[..i + 1] == markers[..i] + [markers[i]];
    var next := if LastIndex(path, markers[i]) > best then LastIndex(path, markers[i]) else best;
    var more := markers[..i + 1];
    forall j: nat | AnyAt(path, more, j)
      ensures j <= next
    {
      AnyOfMore(path, markers[..i], markers[i], j);
    }
    if next >= 0 {
      AnyOfMore(path, markers[..i], markers[i], next);
    }
  }

  function Best(path: string, markers: seq<string>): (best: int)
    ensures IsBest(path, markers, best)
  {
    if markers == [] then -1 else
      var last := |markers| - 1;
      var best := Best(path, markers[..last]);
      OneMoreMarker(path, markers, last, best);
      assert markers[..last + 1] == markers;
      if LastIndex(path, markers[last]) > best then LastIndex(path, markers[last]) else best
  }

  function Before(path: string, markers: seq<string>): string {
    if Best(path, markers) <= 0 then "" else path[..Best(path, markers)]
  }

  function TrimPrefix(s: string, prefix: string): string {
    if prefix <= s then s[|prefix|..] else s
  }

  // ---- The three parsers ----

  /** For anonymous pulls: the repository of a manifest or blob path. */
  method PullResourceRepoPath(path: string) returns (repo: string)
    ensures if "/v2/" <= path then Located(path[4..], PULL_SUFFIXES, repo) else repo == ""
    ensures repo == PullRepo(path)
  {
    var rest := TrimPrefix(path, "/v2/");
    if rest == "" || rest == path {
      return "";
    }
    repo := RepoBeforeLastSuffix(rest, PULL_SUFFIXES);
  }

  /** For authorization: the repository of any path under /v2/. */
  method ExtractV2RepoPath(path: string) returns (repo: string)
    ensures repo == "" <==> !("/v2/" <= path) || path[4..] in {"", "_catalog"} || "_catalog/" <= path[4..]
    ensures repo != "" ==>
              Located(path[4..], V2_SUFFIXES, repo) || (repo == path[4..] && Located(path[4..], V2_SUFFIXES, ""))
    ensures repo == V2Repo(path)
  {
    if !("/v2/" <= path) {
      return "";
    }
    var rest := TrimPrefix(path, "/v2/");
    if rest == "" || rest == "_catalog" || "_catalog/" <= rest {
      return "";
    }
    repo := RepoBeforeLastSuffix(rest, V2_SUFFIXES);
    if repo == "" {
      repo := rest;
    }
  }

  method ExtractRepoNameFromPath(path: string) returns (repo: string)
    ensures Located(path, API_SUFFIXES, repo)
    ensures repo == ApiRepo(path)
  {
    repo := RepoBeforeLastSuffix(path, API_SUFFIXES);
  }

  function PullRepo(path: string): string {
    var rest := TrimPrefix(path, "/v2/");
    if rest == "" || rest == path then "" else Before(rest, PULL_SUFFIXES)
  }

  function V2Repo(path: string): string {
    if !("/v2/" <= path) then "" else
      var rest := TrimPrefix(path, "/v2/");
      if rest == "" || rest == "_catalog" || "_catalog/" <= rest then ""
      else if Before(rest, V2_SUFFIXES) != "" then Before(rest, V2_SUFFIXES) else rest
  }

  function ApiRepo(path: string): string {
    Before(path, API_SUFFIXES)
  }

  // ---- Round trips ----

  /** A path is split exactly where a marker begins if and only if no marker begins after it. */
  lemma SplitsIff(repo: string, tail: string, markers: seq<string>)
    requires repo != "" && AnyAt(repo + tail, markers, |repo|)
    ensures Before(repo + tail, markers) == repo <==> forall j: nat :: j > |repo| ==> !AnyAt(repo + tail, markers, j)
  {}

  ghost predicate Slashed(markers: seq<string>) {
    forall m :: m in markers ==> m != "" && m[0] == '/'
  }

  /** Every marker begins with a slash; if `q` is the only slash further on, that is where the next one could begin. */
  lemma NextMarkerIff(repo: string, tail: string, markers: seq<string>, q: nat)
    requires Slashed(markers) && 0 < q < |tail| && forall k :: 0 < k < |tail| && tail[k] == '/' ==> k == q
    ensures (forall j: nat :: j > |repo| ==> !AnyAt(repo + tail, markers, j)) <==>
              (forall m :: m in markers ==> !(m <= tail[q..]))
  {
    var path := repo + tail;
    assert path[|repo| + q..] == tail[q..];
    forall j: nat, m | j > |repo| && m in markers && OccursAt(path, m, j)
      ensures j == |repo| + q
    {
      assert path[j..][0] == '/' && path[j] == tail[j - |repo|];
    }
    if m :| m in markers && m <= tail[q..] {
      assert OccursAt(path, m, |repo| + q) && AnyAt(path, markers, |repo| + q);
    }
  }

  /** A marker with two slashes does not fit into a reference. */
  lemma NoRoomForTwo(m: string, reference: string, k: nat)
    requires '/' !in reference && 0 < k < |m| && m[k] == '/'
    ensures !(m <= "/" + reference)
  {}

  /** The path of a manifest or a blob under a marker. */
  function ContentPath(repo: string, marker: string, reference: string): string {
    repo + (marker + reference)
  }

  lemma ContentTail(marker: string, reference: string)
    requires marker in PULL_SUFFIXES && '/' !in reference
    ensures |marker| > 1 && (marker + reference)[|marker| - 1..] == "/" + reference
    ensures forall k :: 0 < k < |marker + reference| && (marker + reference)[k] == '/' ==> k == |marker| - 1
  {}

  lemma TwoSlashesEach(markers: seq<string>, reference: string)
    requires (markers == V2_SUFFIXES || markers == PULL_SUFFIXES) && '/' !in reference
    ensures Slashed(markers) && forall m :: m in markers ==> !(m <= "/" + reference)
  {
    NoRoomForTwo("/manifests/", reference, 10);
    NoRoomForTwo("/blobs/", reference, 6);
    NoRoomForTwo("/tags/list", reference, 5);
  }

  /** Content paths are split right by any list of markers that all have a second slash. */
  lemma ContentSplits(repo: string, marker: string, reference: string, markers: seq<string>)
    requires repo != "" && '/' !in reference && marker in PULL_SUFFIXES && marker in markers
    requires markers == V2_SUFFIXES || markers == PULL_SUFFIXES
    ensures Before(ContentPath(repo, marker, reference), markers) == repo
  {
    ContentTail(marker, reference);
    TwoSlashesEach(markers, reference);
    assert ContentPath(repo, marker, reference)[|repo|..] == marker + reference;
    assert OccursAt(ContentPath(repo, marker, reference), marker, |repo|);
    NextMarkerIff(repo, marker + reference, markers, |marker| - 1);
    SplitsIff(repo, marker + reference, markers);
  }

  /** The authorization parser finds a repository of any name, reserved segments and all, except below `_catalog`. */
  lemma AuthorizationRoundTripIff(repo: string, marker: string, reference: string)
    requires repo != "" && '/' !in reference && marker in PULL_SUFFIXES
    ensures V2Repo("/v2/" + ContentPath(repo, marker, reference)) == repo <==>
              repo != "_catalog" && !("_catalog/" <= repo)
  {
    var rest := ContentPath(repo, marker, reference);
    assert ("/v2/" + rest)[4..] == rest;
    ContentSplits(repo, marker, reference, V2_SUFFIXES);
    CatalogIff(repo, marker + reference);
  }

  lemma CatalogIff(repo: string, tail: string)
    requires tail != "" && tail[0] == '/'
    ensures "_catalog/" <= repo + tail <==> repo == "_catalog" || "_catalog/" <= repo
  {
    var rest, c := repo + tail, "_catalog/";
    if c <= rest && |repo| < 9 {
      assert rest[|repo|] == '/' && c[|repo|] == '/';
      assert |repo| == 8 && repo == c[..8];
    } else if c <= rest {
      assert c == rest[..9] == repo[..9];
    }
    assert repo == "_catalog" ==> rest[..9] == repo + "/";
  }

  /** The pull parser finds a repository of any name. */
  lemma PullRoundTrip(repo: string, marker: string, reference: string)
    requires repo != "" && '/' !in reference && marker in PULL_SUFFIXES
    ensures PullRepo("/v2/" + ContentPath(repo, marker, reference)) == repo
  {
    var rest := ContentPath(repo, marker, reference);
    assert ("/v2/" + rest)[4..] == rest;
    ContentSplits(repo, marker, reference, PULL_SUFFIXES);
  }

  lemma TagListRoundTripIff(repo: string)
    requires repo != ""
    ensures V2Repo("/v2/" + (repo + "/tags/list")) == repo <==> repo != "_catalog" && !("_catalog/" <= repo)
  {
    var tail := "/tags/list";
    var rest := repo + tail;
    assert ("/v2/" + rest)[4..] == rest && rest[|repo|..] == tail;
    assert tail[5..] == "/list";
    assert OccursAt(rest, tail, |repo|);
    NextMarkerIff(repo, tail, V2_SUFFIXES, 5);
    SplitsIff(repo, tail, V2_SUFFIXES);
    CatalogIff(repo, tail);
  }

  /**
   * The two /v2/ parsers agree on a path with a pull repository exactly if it is not below `_catalog`
   * and no tag-list marker follows the last content marker.
   */
  lemma ParsersAgreeIff(path: string)
    requires PullRepo(path) != ""
    ensures "/v2/" <= path
    ensures V2Repo(path) == PullRepo(path) <==>
              !("_catalog/" <= path[4..]) && LastIndex(path[4..], "/tags/list") <= |PullRepo(path)|
  {
    var rest := TrimPrefix(path, "/v2/");
    var pull, both := Best(rest, PULL_SUFFIXES), Best(rest, V2_SUFFIXES);
    var tags := LastIndex(rest, "/tags/list");
    assert PullRepo(path) == rest[..pull] && |rest[..pull]| == pull;
    assert V2_SUFFIXES == PULL_SUFFIXES + ["/tags/list"] && V2_SUFFIXES[..2] == PULL_SUFFIXES;
    OneMoreMarker(rest, V2_SUFFIXES, 2, pull);
    assert V2_SUFFIXES[..3] == V2_SUFFIXES;
    assert |rest[..both]| == both;
    NotTheCatalog(rest);
  }

  /** `_catalog` on its own has no marker. */
  lemma NotTheCatalog(rest: string)
    requires Before(rest, PULL_SUFFIXES) != ""
    ensures rest != "_catalog"
  {
    var i := Best(rest, PULL_SUFFIXES);
    var m :| m in PULL_SUFFIXES && OccursAt(rest, m, i);
    assert rest[i..][0] == '/' && rest[i] == '/';
    assert '/' !in "_catalog";
  }

  /**
   * The UI parser finds the repository of a manifest path exactly if the reference does not begin like
   * one of the other sub-paths: a tag such as "init" is taken for the sub-path of the same name.
   */
  lemma ApiManifestRoundTripIff(repo: string, reference: string)
    requires repo != "" && '/' !in reference
    ensures ApiRepo(ContentPath(repo, "/manifests/", reference)) == repo <==>
              forall m :: m in API_SUFFIXES ==> !(m <= "/" + reference)
  {
    var marker := "/manifests/";
    var tail := marker + reference;
    assert tail[10..] == "/" + reference;
    assert ContentPath(repo, marker, reference)[|repo|..] == tail;
    assert marker in API_SUFFIXES && OccursAt(ContentPath(repo, marker, reference), marker, |repo|);
    NextMarkerIff(repo, tail, API_SUFFIXES, 10);
    SplitsIff(repo, tail, API_SUFFIXES);
  }

  /** No UI sub-path begins inside another one. */
  lemma ApiMarkersApart(suffix: string, q: nat)
    requires (suffix == "/manifests/" && q == 10) || (suffix == "/blobs/" && q == 6) ||
              (suffix == "/manifests/batch-delete" && q == 10)
    ensures forall k :: 0 < k < |suffix| && suffix[k] == '/' ==> k == q
    ensures forall m :: m in API_SUFFIXES ==> !(m <= suffix[q..])
  {
    assert suffix[q..] == "/" || (suffix[q..][1] == 'b' && suffix[q..][2] == 'a');
  }

  lemma OneSlash(suffix: string)
    requires suffix in ["/tags", "/stats", "/tag-policy", "/init", "/retention-preview", "/retention-run"]
    ensures forall k :: 0 < k < |suffix| ==> suffix[k] != '/'
  {}

  lemma Slashes()
    ensures Slashed(API_SUFFIXES)
  {}

  /** Paths that end with a sub-path are always split right. */
  lemma ApiSubPathRoundTrip(repo: string, suffix: string)
    requires repo != "" && suffix in API_SUFFIXES
    ensures ApiRepo(repo + suffix) == repo
  {
    assert (repo + suffix)[|repo|..] == suffix && OccursAt(repo + suffix, suffix, |repo|);
    SplitsIff(repo, suffix, API_SUFFIXES);
    Slashes();
    if suffix == "/manifests/" || suffix == "/blobs/" || suffix == "/manifests/batch-delete" {
      var q := if suffix == "/blobs/" then 6 else 10;
      ApiMarkersApart(suffix, q);
      NextMarkerIff(repo, suffix, API_SUFFIXES, q);
    } else {
      OneSlash(suffix);
    }
  }

  /** The manifest of a tag called "init" is filed under another repository name. */
  lemma TagNamedInit()
    ensures ApiRepo(ContentPath("library/nginx", "/manifests/", "init")) != "library/nginx"
  {
    ApiManifestRoundTripIff("library/nginx", "init");
    assert API_SUFFIXES[5] == "/init" && "/init" in API_SUFFIXES;
    assert "/" + "init" == "/init";
  }
}
