/** What the hook behind a push takes from its path, and under which names it therefore files the push. */
module PushHook {
  import opened Prelude
  import opened Registry
  import opened RepoPath

  // ---- Reading the path ----

  const MANIFESTS := "/manifests/"

  /** Where the marker begins for the first time, or -1. */
  function FirstIndex(path: string, marker: string): (i: int)
    ensures -1 <= i <= |path|
    ensures i >= 0 ==> OccursAt(path, marker, i)
    ensures forall j: nat :: OccursAt(path, marker, j) ==> 0 <= i <= j
  {
    FirstFrom(path, marker, 0)
  }

  function FirstFrom(path: string, marker: string, n: nat): (i: int)
    requires n <= |path| + 1
    ensures i == -1 || n <= i <= |path|
    ensures i >= 0 ==> OccursAt(path, marker, i)
    ensures forall j: nat :: n <= j && OccursAt(path, marker, j) ==> 0 <= i <= j
    decreases |path| + 1 - n
  {
    if n > |path| then -1 else if OccursAt(path, marker, n) then n else FirstFrom(path, marker, n + 1)
  }

  /** The parts of a path between the markers, found from the left. */
  function Split(path: string, marker: string): seq<string>
    requires marker != ""
    decreases |path|
  {
    var i := FirstIndex(path, marker);
    if i < 0 then [path] else [path[..i]] + Split(path[i + |marker|..], marker)
  }

  predicate IsSpace(c: char) {
    || c in {'\t', '\n', '\U{0B}', '\U{0C}', '\r', ' ', '\U{85}', '\U{A0}', '\U{1680}'}
    || '\U{2000}' <= c <= '\U{200A}'
    || c in {'\U{2028}', '\U{2029}', '\U{202F}', '\U{205F}', '\U{3000}'}
  }

  function TrimRight(s: string): string {
    if s != "" && IsSpace(s[|s| - 1]) then TrimRight(s[..|s| - 1]) else s
  }

  function TrimLeft(s: string): string {
    if s != "" && IsSpace(s[0]) then TrimLeft(s[1..]) else s
  }

  function TrimSpace(s: string): string {
    TrimRight(TrimLeft(s))
  }

  /** Of the ASCII characters, exactly those with codes 9 to 13, and 32, are blanks. */
  lemma AsciiBlanks(c: char)
    requires c as int < 128
    ensures IsSpace(c) <==> 9 <= c as int <= 13 || c as int == 32
  {}

  predicate Blank(s: string) {
    forall i :: 0 <= i < |s| ==> IsSpace(s[i])
  }

  lemma {:induction false} TrimLeftMeans(s: string) returns (before: string)
    ensures s == before + TrimLeft(s) && Blank(before)
    ensures TrimLeft(s) != "" ==> !IsSpace(TrimLeft(s)[0])
  {
    before := "";
    if s != "" && IsSpace(s[0]) {
      var rest := TrimLeftMeans(s[1..]);
      before := [s[0]] + rest;
    }
  }

  lemma {:induction false} TrimRightMeans(s: string) returns (after: string)
    ensures s == TrimRight(s) + after && Blank(after)
    ensures TrimRight(s) != "" ==> !IsSpace(TrimRight(s)[|TrimRight(s)| - 1])
  {
    after := "";
    if s != "" && IsSpace(s[|s| - 1]) {
      var rest := TrimRightMeans(s[..|s| - 1]);
      after := rest + [s[|s| - 1]];
    }
  }

  /** Only blanks are trimmed, at either end, and none is left there. */
  lemma TrimSpaceMeans(s: string) returns (before: string, after: string)
    ensures s == before + TrimSpace(s) + after && Blank(before) && Blank(after)
    ensures var t := TrimSpace(s); t != "" ==> !IsSpace(t[0]) && !IsSpace(t[|t| - 1])
  {
    before := TrimLeftMeans(s);
    after := TrimRightMeans(TrimLeft(s));
  }

  /** The repository and reference the hook behind a push takes from its path, if it takes any. */
  function HookRead(path: string): Option<(string, string)> {
    var parts := Split(path, MANIFESTS);
    if |parts| == 2 then Some((TrimPrefix(parts[0], "/v2/"), TrimSpace(parts[1]))) else None
  }

  /** The path that `reference` of repository `repo` is pushed to. */
  function PushPath(repo: string, reference: string): string {
    "/v2/" + ContentPath(repo, MANIFESTS, reference)
  }

  function Enclosed(repo: string): string {
    "/" + repo + "/"
  }

  /** One of the segments of the name is "manifests". */
  predicate HasReserved(repo: string) {
    FirstIndex(Enclosed(repo), MANIFESTS) >= 0
  }

  /** The only such segment is the last one. */
  predicate EndsReserved(repo: string) {
    FirstIndex(Enclosed(repo), MANIFESTS) + |MANIFESTS| == |Enclosed(repo)|
  }

  lemma PathAround(repo: string, reference: string)
    ensures PushPath(repo, reference) == "/v2" + (Enclosed(repo) + ("manifests/" + reference))
    ensures |Enclosed(repo)| == |repo| + 2
  {
    assert MANIFESTS == "/" + "manifests/";
  }

  /** A marker has a slash at either end only, so one that begins in a segment ends in one. */
  lemma SlashesOfMarker(path: string, i: nat, k: nat)
    requires OccursAt(path, MANIFESTS, i) && k < |MANIFESTS|
    ensures i + k < |path| && path[i + k] == MANIFESTS[k]
    ensures path[i + k] == '/' <==> k == 0 || k == 10
  {
    assert path[i..][k] == path[i + k];
  }

  /** Where a marker can begin in an enclosed name: at its first slash, around the whole first segment, or later. */
  lemma FirstSegment(head: string, tail: string, i: nat)
    requires '/' !in head && tail != "" && tail[0] == '/'
    ensures OccursAt("/" + head + tail, MANIFESTS, i) <==>
            (i == 0 && head == "manifests") || (i > |head| && OccursAt(tail, MANIFESTS, i - |head| - 1))
  {
    var q := "/" + head + tail;
    assert forall k :: 0 < k <= |head| ==> q[k] == head[k - 1] != '/';
    assert q[|head| + 1] == '/';
    assert q[|head| + 1..] == tail;
    if i > |head| {
      assert i <= |q| ==> q[i..] == tail[i - |head| - 1..];
    } else if OccursAt(q, MANIFESTS, i) {
      SlashesOfMarker(q, i, 0);
      SlashesOfMarker(q, i, 10);
      if |head| + 1 < 10 {
        SlashesOfMarker(q, i, |head| + 1);
      }
      assert q[0..][1..10] == MANIFESTS[1..10] == "manifests";
      assert q[1..10] == head;
    }
  }

  lemma ReservedFirst(head: string, rest: string)
    requires '/' !in head
    ensures HasReserved(head) <==> head == "manifests"
    ensures HasReserved(head + "/" + rest) <==> head == "manifests" || HasReserved(rest)
  {
    OneSlashOnly(head);
    var all := head + "/" + rest;
    assert Enclosed(all) == "/" + head + Enclosed(rest);
    var i, j := FirstIndex(Enclosed(all), MANIFESTS), FirstIndex(Enclosed(rest), MANIFESTS);
    if i >= 0 {
      FirstSegment(head, Enclosed(rest), i);
    }
    FirstSegment(head, Enclosed(rest), 0);
    if j >= 0 {
      FirstSegment(head, Enclosed(rest), j + |head| + 1);
    }
  }

  lemma OneSlashOnly(head: string)
    requires '/' !in head
    ensures HasReserved(head) <==> head == "manifests"
  {
    assert Enclosed(head) == "/" + head + "/";
    var i := FirstIndex(Enclosed(head), MANIFESTS);
    FirstSegment(head, "/", 0);
    if i >= 0 {
      FirstSegment(head, "/", i);
    }
  }

  /** Reserved is a name with "manifests" among the segments it is split into at its slashes. */
  lemma {:induction false} ReservedIsSegment(repo: string)
    ensures HasReserved(repo) <==> "manifests" in Split(repo, "/")
    decreases |repo|
  {
    var i := FirstIndex(repo, "/");
    if i < 0 {
      NoSlash(repo, |repo|);
      OneSlashOnly(repo);
    } else {
      NoSlash(repo, i);
      assert repo == repo[..i] + "/" + repo[i + 1..] by {
        assert repo[i..][..1] == "/";
      }
      ReservedFirst(repo[..i], repo[i + 1..]);
      ReservedIsSegment(repo[i + 1..]);
    }
  }

  lemma NoSlash(repo: string, n: nat)
    requires n <= |repo| && (FirstIndex(repo, "/") < 0 || n <= FirstIndex(repo, "/"))
    ensures '/' !in repo[..n]
  {
    forall k | 0 <= k < n
      ensures repo[k] != '/'
    {
      assert OccursAt(repo, "/", k) <==> repo[k..][0] == '/';
    }
  }

  /** The markers in the path of a push are those around the reserved segments of the name, and the one after it. */
  lemma MarkersInPath(repo: string, reference: string, i: nat)
    requires '/' !in reference
    ensures OccursAt(PushPath(repo, reference), MANIFESTS, i) <==>
            i == 4 + |repo| || (3 <= i && OccursAt(Enclosed(repo), MANIFESTS, i - 3))
  {
    var path, q := PushPath(repo, reference), Enclosed(repo);
    PathAround(repo, reference);
    assert path[4 + |repo|..] == MANIFESTS + reference;
    if 3 <= i && OccursAt(q, MANIFESTS, i - 3) {
      assert |q[i - 3..]| >= 11 && path[i..][..11] == q[i - 3..][..11];
    } else if OccursAt(path, MANIFESTS, i) && i != 4 + |repo| {
      EarlyMarker(repo, reference, i);
    }
  }

  lemma EarlyMarker(repo: string, reference: string, i: nat)
    requires '/' !in reference && i != 4 + |repo| && OccursAt(PushPath(repo, reference), MANIFESTS, i)
    ensures 3 <= i && OccursAt(Enclosed(repo), MANIFESTS, i - 3)
  {
    var path, q := PushPath(repo, reference), Enclosed(repo);
    PathAround(repo, reference);
    SlashesOfMarker(path, i, 0);
    SlashesOfMarker(path, i, 1);
    SlashesOfMarker(path, i, 10);
    assert path[0] == '/' && path[1] == 'v' && path[2] == '2' && path[4 + |repo|] == '/';
    if i < 4 + |repo| < i + 10 {
      SlashesOfMarker(path, i, 4 + |repo| - i);
    }
    assert i + 11 <= 3 + |q|;
    assert path[i..i + 11] == q[i - 3..i - 3 + 11];
    assert path[i..i + 11] == path[i..][..11] == MANIFESTS;
    assert q[i - 3..][..11] == q[i - 3..i - 3 + 11];
  }

  lemma SplitOnce(path: string, i: nat)
    requires FirstIndex(path, MANIFESTS) == i
    ensures i + 11 <= |path|
    ensures |Split(path, MANIFESTS)| == 2 <==> FirstIndex(path[i + 11..], MANIFESTS) < 0
    ensures FirstIndex(path[i + 11..], MANIFESTS) < 0 ==> Split(path, MANIFESTS) == [path[..i], path[i + 11..]]
  {
    assert |path[i..]| >= 11;
    var rest := path[i + 11..];
    assert |Split(rest, MANIFESTS)| >= 1;
    assert Split(path, MANIFESTS) == [path[..i]] + Split(rest, MANIFESTS);
  }

  /** What the hook reads, in each of the three cases. */
  lemma HookCases(repo: string, reference: string)
    requires '/' !in reference
    ensures HookRead(PushPath(repo, reference)) ==
            if !HasReserved(repo) then Some((repo, TrimSpace(reference)))
            else if EndsReserved(repo) then Some((BeforeReserved(repo), TrimSpace("manifests/" + reference)))
            else None
  {
    var path, i := PushPath(repo, reference), FirstIndex(Enclosed(repo), MANIFESTS);
    PathAround(repo, reference);
    if i < 0 {
      FirstInPath(repo, reference, 4 + |repo|);
      assert path[4 + |repo| + 11..] == reference;
      NoMarkerIn(reference, 0);
      SplitOnce(path, 4 + |repo|);
      assert path[..4 + |repo|] == "/v2/" + repo && ("/v2/" + repo)[4..] == repo;
    } else {
      MarkersInPath(repo, reference, 3 + i);
      FirstInPath(repo, reference, 3 + i);
      SplitOnce(path, 3 + i);
      RestOfPath(repo, reference, i);
      StartOfPath(repo, reference, i);
    }
  }

  /** The repository the hook takes when the name ends with the reserved segment. */
  function BeforeReserved(repo: string): string
    requires HasReserved(repo)
  {
    var i := FirstIndex(Enclosed(repo), MANIFESTS);
    if i == 0 then "/v2" else Enclosed(repo)[1..i]
  }

  lemma FirstInPath(repo: string, reference: string, i: nat)
    requires '/' !in reference
    requires i == if HasReserved(repo) then 3 + FirstIndex(Enclosed(repo), MANIFESTS) else 4 + |repo|
    ensures FirstIndex(PushPath(repo, reference), MANIFESTS) == i
  {
    MarkersInPath(repo, reference, i);
    var j := FirstIndex(PushPath(repo, reference), MANIFESTS);
    MarkersInPath(repo, reference, j);
  }

  lemma NoMarkerIn(s: string, n: nat)
    requires n <= |s| && forall k :: n <= k < |s| ==> s[k] != '/'
    requires forall k :: 0 <= k < n - 1 ==> s[k] != '/'
    ensures FirstIndex(s, MANIFESTS) < 0
  {
    var i := FirstIndex(s, MANIFESTS);
    if i >= 0 {
      SlashesOfMarker(s, i, 0);
      SlashesOfMarker(s, i, 10);
    }
  }

  /** What follows the first reserved segment of the name has another marker exactly if that segment is not the last. */
  lemma RestOfPath(repo: string, reference: string, i: nat)
    requires '/' !in reference && i == FirstIndex(Enclosed(repo), MANIFESTS)
    ensures 3 + i + 11 <= |PushPath(repo, reference)|
    ensures FirstIndex(PushPath(repo, reference)[3 + i + 11..], MANIFESTS) < 0 <==> EndsReserved(repo)
    ensures EndsReserved(repo) ==> PushPath(repo, reference)[3 + i + 11..] == "manifests/" + reference
  {
    var path, q := PushPath(repo, reference), Enclosed(repo);
    PathAround(repo, reference);
    assert |q[i..]| >= 11;
    var rest := path[3 + i + 11..];
    if EndsReserved(repo) {
      assert rest == "manifests/" + reference;
      NoMarkerIn(rest, 10);
    } else {
      var j := |q| - i - 11 - 1;
      assert rest[j..] == path[4 + |repo|..] == MANIFESTS + reference;
      assert OccursAt(rest, MANIFESTS, j);
    }
  }

  lemma StartOfPath(repo: string, reference: string, i: nat)
    requires i == FirstIndex(Enclosed(repo), MANIFESTS)
    ensures 3 + i <= |PushPath(repo, reference)|
    ensures TrimPrefix(PushPath(repo, reference)[..3 + i], "/v2/") == BeforeReserved(repo)
  {
    var path, q := PushPath(repo, reference), Enclosed(repo);
    PathAround(repo, reference);
    assert |q[i..]| >= 11;
    if i == 0 {
      assert path[..3] == "/v2";
    } else {
      assert path[..3 + i] == "/v2/" + q[1..i];
      assert ("/v2/" + q[1..i])[4..] == q[1..i];
    }
  }

  /**
   * The hook reads the repository and the reference of a push back from its path exactly if no segment of
   * the name is "manifests" and the reference has no blanks around it.
   */
  lemma HookReadsBackIff(repo: string, reference: string)
    requires '/' !in reference
    ensures HookRead(PushPath(repo, reference)) == Some((repo, reference)) <==>
            !HasReserved(repo) && TrimSpace(reference) == reference
  {
    HookCases(repo, reference);
    if HasReserved(repo) {
      ShorterBefore(repo);
    }
  }

  lemma ShorterBefore(repo: string)
    requires HasReserved(repo)
    ensures BeforeReserved(repo) != repo
  {
    var q, i := Enclosed(repo), FirstIndex(Enclosed(repo), MANIFESTS);
    assert |q[i..]| >= 11;
    if i == 0 {
      assert q[1] == 'm' && repo[0] == q[1];
    }
  }

  /** A legal name, and the path /v2/team/manifests/app/manifests/v1: the hook takes nothing from it. */
  lemma SkippedName()
    ensures HasReserved("team/manifests/app") && !EndsReserved("team/manifests/app")
    ensures HookRead(PushPath("team/manifests/app", "v1")) == None
    ensures PullRepo(PushPath("team/manifests/app", "v1")) == "team/manifests/app"
  {
    var repo := "team/manifests/app";
    assert Enclosed(repo) == "/" + "team" + (MANIFESTS + "app/");
    ReservedAt("team", "app/", repo);
    HookCases(repo, "v1");
    PullRoundTrip(repo, MANIFESTS, "v1");
  }

  /** And the path /v2/a/manifests/manifests/v1: it takes a tag of another repository from it. */
  lemma MisfiledName()
    ensures HookRead(PushPath("a/manifests", "v1")) == Some(("a", "manifests/v1"))
    ensures PullRepo(PushPath("a/manifests", "v1")) == "a/manifests"
  {
    var repo, reference := "a/manifests", "v1";
    assert "manifests/" + reference == "manifests/v1";
    NoBlanks("manifests/v1");
    LastReserved("a", repo);
    HookCases(repo, reference);
    PullRoundTrip(repo, MANIFESTS, reference);
  }

  lemma LastReserved(before: string, repo: string)
    requires '/' !in before && 0 < |before| < 9 && repo == before + "/manifests"
    ensures HasReserved(repo) && EndsReserved(repo) && BeforeReserved(repo) == before
  {
    assert Enclosed(repo) == "/" + before + (MANIFESTS + "");
    ReservedAt(before, "", repo);
    assert Enclosed(repo)[1..|before| + 1] == before;
  }

  lemma NoBlanks(s: string)
    requires s != "" && !IsSpace(s[0]) && !IsSpace(s[|s| - 1])
    ensures TrimSpace(s) == s
  {}

  lemma ReservedAt(before: string, rest: string, repo: string)
    requires '/' !in before && 0 < |before| < 9 && Enclosed(repo) == "/" + before + (MANIFESTS + rest)
    ensures FirstIndex(Enclosed(repo), MANIFESTS) == |before| + 1
  {
    var q, i := Enclosed(repo), FirstIndex(Enclosed(repo), MANIFESTS);
    assert q[|before| + 1..] == MANIFESTS + rest;
    assert OccursAt(q, MANIFESTS, |before| + 1);
    SlashesOfMarker(q, i, 0);
    SlashesOfMarker(q, i, 10);
    assert forall k :: 1 <= k <= |before| ==> q[k] == before[k - 1];
    assert q[10] == (MANIFESTS + rest)[9 - |before|] == MANIFESTS[9 - |before|];
  }

  // ---- Filing a push ----

  predicate IsHex(c: char) {
    '0' <= c <= '9' || 'a' <= c <= 'f'
  }

  function HexDigit(n: nat): (c: char)
    requires n < 16
    ensures IsHex(c)
  {
    if n < 10 then '0' + n as char else 'a' + (n - 10) as char
  }

  function HexDigits(n: nat, width: nat): (text: string)
    ensures forall c :: c in text ==> IsHex(c)
  {
    if width == 0 then "" else HexDigits(n / 16, width - 1) + [HexDigit(n % 16)]
  }

  function HexText(content: string): (text: string)
    ensures forall c :: c in text ==> IsHex(c)
  {
    if content == "" then "" else HexDigits(content[0] as int, 6) + HexText(content[1..])
  }

  /** How a reference is written in a path. A digest is modelled by what it was computed from, in hexadecimal. */
  function Text(reference: Ref): string {
    match reference
    case Named(t) => t
    case ByDigest(d) => "sha256:" + if d.Sha256? then HexText(d.content) else ""
  }

  /** Where the hook files a push. */
  datatype Filing = Filing(repo: Name, reference: Ref)

  function FiledUnder(name: Name, reference: Ref): Option<Filing> {
    match HookRead(PushPath(name, Text(reference)))
    case None => None
    case Some((repo, text)) => Some(Filing(repo, if text == Text(reference) then reference else Named(text)))
  }

  /** Repositories are stored by namespace and name, so a slash in front of a name without a namespace is lost. */
  function RowName(repo: Name): Name {
    if repo != "" && repo[0] == '/' && '/' !in repo[1..] then repo[1..] else repo
  }

  /** The namespace and the name a repository is stored by: what precedes its first slash, and what follows it. */
  function StoredBy(repo: Name): (string, string) {
    var i := FirstIndex(repo, "/");
    if i < 0 then ("", repo) else (repo[..i], repo[i + 1..])
  }

  /** Two names share a row exactly if they are stored by the same namespace and name. */
  lemma SameRowIff(a: Name, b: Name)
    ensures RowName(a) == RowName(b) <==> StoredBy(a) == StoredBy(b)
  {
    StoredAsIs(a);
    StoredAsIs(b);
  }

  lemma StoredAsIs(repo: Name)
    ensures repo == if '/' in repo then StoredBy(repo).0 + "/" + StoredBy(repo).1 else StoredBy(repo).1
    ensures '/' !in StoredBy(repo).0 && ('/' !in repo ==> StoredBy(repo).0 == "")
  {
    var i := FirstIndex(repo, "/");
    if i < 0 {
      NoSlash(repo, |repo|);
      assert repo[..|repo|] == repo;
    } else {
      NoSlash(repo, i);
      SlashAt(repo, i);
    }
  }

  lemma SlashAt(repo: Name, i: nat)
    requires OccursAt(repo, "/", i)
    ensures i < |repo| && repo[i] == '/' && repo == repo[..i] + "/" + repo[i + 1..]
  {
    assert repo[i..][..1] == "/" && repo[i..][0] == repo[i];
  }

  /** The images row of the push is that of the repository and reference the registry puts it under. */
  predicate FiledRight(name: Name, reference: Ref) {
    var filed := FiledUnder(name, reference);
    filed.Some? && RowName(filed.value.repo) == name && filed.value.reference == reference
  }

  /** Letters, digits, underscores, dots and dashes, as the registry demands of tags. */
  predicate LegalTag(t: Tag) {
    t != "" && forall c :: c in t ==> 'a' <= c <= 'z' || 'A' <= c <= 'Z' || '0' <= c <= '9' || c in {'_', '.', '-'}
  }

  lemma PlainText(reference: Ref)
    requires reference.Named? ==> LegalTag(reference.tag)
    ensures '/' !in Text(reference) && TrimSpace(Text(reference)) == Text(reference)
    ensures TrimSpace("manifests/" + Text(reference)) == "manifests/" + Text(reference)
  {
    if reference.ByDigest? {
      var hex := if reference.digest.Sha256? then HexText(reference.digest.content) else "";
      var text := "sha256:" + hex;
      assert text[0] == 's' && (if hex == "" then text[|text| - 1] == ':' else text[|text| - 1] == hex[|hex| - 1]);
      assert hex != "" ==> hex[|hex| - 1] in hex;
      NoBlanks(text);
      NoBlanks("manifests/" + text);
    } else {
      var t := reference.tag;
      assert t[0] in t && t[|t| - 1] in t;
      NoBlanks(t);
      NoBlanks("manifests/" + t);
    }
  }

  /**
   * Where the hook files a push under a reference the registry takes: right, unless a segment of the name
   * is "manifests"; if only the last one is, under what precedes it and a made-up tag; otherwise nowhere.
   */
  lemma FilingCases(name: Name, reference: Ref)
    requires reference.Named? ==> LegalTag(reference.tag)
    ensures FiledUnder(name, reference) ==
            if !HasReserved(name) then Some(Filing(name, reference))
            else if EndsReserved(name) then Some(Filing(BeforeReserved(name), Named("manifests/" + Text(reference))))
            else None
  {
    var text := Text(reference);
    PlainText(reference);
    HookCases(name, text);
    assert |"manifests/" + text| > |text|;
  }

  /** For references the registry takes, that is so exactly if no segment of the name is "manifests". */
  lemma FiledRightIff(name: Name, reference: Ref)
    requires name != "" && name[0] != '/' && (reference.Named? ==> LegalTag(reference.tag))
    ensures FiledRight(name, reference) <==> "manifests" !in Split(name, "/")
  {
    FilingCases(name, reference);
    ReservedIsSegment(name);
    assert |"manifests/" + Text(reference)| > |Text(reference)|;
  }

  lemma SkippedFiling()
    ensures FiledUnder("team/manifests/app", Named("v1")) == None
  {
    SkippedName();
  }

  lemma MisfiledFiling()
    ensures FiledUnder("a/manifests", Named("v1")) == Some(Filing("a", Named("manifests/v1")))
    ensures RowName("a") == "a"
  {
    MisfiledName();
  }
}
