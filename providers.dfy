/** The version providers main can select (get_tag.py:53-299), each a
    decomposition of its reference, one or two fetches through `_urlopen`,
    and a normalisation of the decoded body. URLs are replaced by the
    endpoint they address. */
module Providers {
  import opened Wrappers
  import opened Json
  import opened Reference
  import opened Listing
  import opened Pypi
  import Fetcher

  /** The resource each f-string URL of the tool addresses. */
  datatype Endpoint =
    | PypiProject(package: string)
    | NpmPackage(package: string)
    | GoLatest(modulePath: string)
    | GhCommits(query: CommitQuery)
    | GhTags(base: string, repository: string)
    | GhReleases(base: string, repository: string)
    | GhLatestRelease(base: string, repository: string)
    | GhDeployments(base: string, repository: string)
    | GlProject(base: string, path: string)
    | GlCommits(base: string, project: int, branch: string)
    | GlTags(base: string, project: int)
    | DockerTags(repository: string)

  /** The network: what the k-th attempt (from 0) at an endpoint gets. */
  type Network = (Endpoint, nat) -> Fetcher.Attempt<Json>

  /** `json.loads(_urlopen(url).read())`: the body of the first successful
      attempt, or FetchFailed once the retries are spent. */
  function Fetch(net: Network, endpoint: Endpoint): (r: Result<Json>)
    ensures r.Ok? <==> exists k :: 0 <= k <= Fetcher.Retries && Fetcher.Succeeded(net(endpoint, k))
    ensures r.Ok? ==> exists k :: 0 <= k <= Fetcher.Retries && Fetcher.Succeeded(net(endpoint, k)) &&
                                  r.value == net(endpoint, k).body &&
                                  forall j :: 0 <= j < k ==> !Fetcher.Succeeded(net(endpoint, j))
    ensures r.Err? ==> r.error == FetchFailed
  {
    var outcomes := seq(Fetcher.Retries + 1, k requires 0 <= k => net(endpoint, k));
    Fetcher.OpenOutcome(endpoint, outcomes, Fetcher.Retries);
    assert forall k :: 0 <= k <= Fetcher.Retries ==> outcomes[k] == net(endpoint, k);
    var t := Fetcher.Open(endpoint, outcomes, Fetcher.Retries);
    assert t.result.Ok? ==> var k := t.attempts - 1;
      0 <= k <= Fetcher.Retries && Fetcher.Succeeded(net(endpoint, k)) && t.result.value == net(endpoint, k).body &&
      forall j :: 0 <= j < k ==> !Fetcher.Succeeded(net(endpoint, j));
    t.result
  }

  /** `get_pip_version`: the last of the sorted, filtered releases, one that
      no other kept release was uploaded after. */
  function PipVersion(package: string, net: Network): (r: Result<string>)
    ensures Fetch(net, PypiProject(package)).Err? ==> r == Err(FetchFailed)
    ensures Fetch(net, PypiProject(package)).Ok? ==>
              var versions := PipVersions(Fetch(net, PypiProject(package)).value);
              (versions.Err? ==> r == Err(Malformed)) && (versions.Ok? ==> r == Latest(versions.value))
    ensures r.Ok? ==> exists body, releases :: Fetch(net, PypiProject(package)) == Ok(body) &&
                        Member(body, "releases") == Ok(Obj(releases)) && Kept(releases).Ok? &&
                        exists u :: u in Kept(releases).value && u.version == r.value &&
                                    forall w :: w in Kept(releases).value ==> !StrLess(u.time, w.time)
  {
    var body :- Fetch(net, PypiProject(package));
    var versions :- PipVersions(body);
    if Member(body, "releases").value.Obj? then
      PipVersionIsNewest(body, Member(body, "releases").value.fields);
      Latest(versions)
    else
      Latest(versions)
  }

  /** `get_npm_version`: the registry's `dist-tags.latest`. */
  function NpmVersion(package: string, net: Network): (r: Result<string>)
    ensures Fetch(net, NpmPackage(package)).Err? ==> r == Err(FetchFailed)
    ensures Fetch(net, NpmPackage(package)).Ok? ==>
              var body := Fetch(net, NpmPackage(package)).value;
              && (Member(body, "dist-tags").Err? ==> r == Err(Malformed))
              && (Member(body, "dist-tags").Ok? ==> r == Text(Member(body, "dist-tags").value, "latest"))
    ensures r.Ok? ==> exists body :: Fetch(net, NpmPackage(package)) == Ok(body) &&
                        Member(body, "dist-tags").Ok? && Text(Member(body, "dist-tags").value, "latest") == r
  {
    var body :- Fetch(net, NpmPackage(package));
    var distTags :- Member(body, "dist-tags");
    Text(distTags, "latest")
  }

  /** `get_go_version`: the proxy's `@latest` answer. */
  function GoVersion(modulePath: string, net: Network): (r: Result<string>)
    ensures Fetch(net, GoLatest(modulePath)).Err? ==> r == Err(FetchFailed)
    ensures Fetch(net, GoLatest(modulePath)).Ok? ==> r == Text(Fetch(net, GoLatest(modulePath)).value, "Version")
    ensures r.Ok? ==> exists body :: Fetch(net, GoLatest(modulePath)) == Ok(body) && Text(body, "Version") == r
  {
    var body :- Fetch(net, GoLatest(modulePath));
    Text(body, "Version")
  }

  /** The newest commit of the listing a commit query gets. */
  function NewestCommit(query: CommitQuery, net: Network): (r: Result<string>)
    ensures Fetch(net, GhCommits(query)).Err? ==> r == Err(FetchFailed)
    ensures Fetch(net, GhCommits(query)).Ok? ==> r == NewestOf(Fetch(net, GhCommits(query)).value, "sha")
    ensures r.Ok? ==> exists items :: Fetch(net, GhCommits(query)) == Ok(Arr(items)) && items != [] &&
                                      Text(items[0], "sha") == r
  {
    var body :- Fetch(net, GhCommits(query));
    NewestOf(body, "sha")
  }

  /** `get_gh_commit`: the newest commit on the branch touching the path. A
      reference without '/' fails before anything is fetched. */
  function GhCommit(reference: string, net: Network): (r: Result<string>)
    ensures GhCommitQuery(reference).Err? ==> r == Err(BadReference)
    ensures GhCommitQuery(reference).Ok? ==> r == NewestCommit(GhCommitQuery(reference).value, net)
  {
    var query :- GhCommitQuery(reference);
    NewestCommit(query, net)
  }

  /** `get_gh_tag`: the first tag of the listing. */
  function GhTag(reference: string, net: Network): (r: Result<string>)
    ensures var (repository, base) := SplitBase(reference, DefaultGhBase);
              && (Fetch(net, GhTags(base, repository)).Err? ==> r == Err(FetchFailed))
              && (Fetch(net, GhTags(base, repository)).Ok? ==> r == NewestOf(Fetch(net, GhTags(base, repository)).value, "name"))
    ensures r.Ok? ==> var (repository, base) := SplitBase(reference, DefaultGhBase);
              exists body :: Fetch(net, GhTags(base, repository)) == Ok(body) &&
                body.Arr? && body.items != [] && Text(body.items[0], "name") == r
  {
    var (repository, base) := SplitBase(reference, DefaultGhBase);
    var body :- Fetch(net, GhTags(base, repository));
    NewestOf(body, "name")
  }

  /** `get_gh_release_1`: the latest published release of the listing. */
  function GhReleaseFromList(reference: string, net: Network): (r: Result<string>)
    ensures var (repository, base) := SplitBase(reference, DefaultGhBase);
              && (Fetch(net, GhReleases(base, repository)).Err? ==> r == Err(FetchFailed))
              && (Fetch(net, GhReleases(base, repository)).Ok? ==>
                    var body := Fetch(net, GhReleases(base, repository)).value;
                    body.Arr? && (forall i :: 0 <= i < |body.items| ==> ReleaseTag(body.items[i]).Ok?) ==>
                      && (r.Ok? <==> exists i :: 0 <= i < |body.items| && ReleaseTag(body.items[i]).value.Some?)
                      && (r.Err? ==> r.error == NoVersion))
              && (Fetch(net, GhReleases(base, repository)).Ok? ==>
                    var body := Fetch(net, GhReleases(base, repository)).value;
                    body.Arr? && (exists i :: 0 <= i < |body.items| && ReleaseTag(body.items[i]).Err?) ==>
                      r == Err(Malformed))
    ensures r.Ok? ==> var (repository, base) := SplitBase(reference, DefaultGhBase);
              exists items :: Fetch(net, GhReleases(base, repository)) == Ok(Arr(items)) &&
                              FirstPublished(items, r.value)
  {
    var (repository, base) := SplitBase(reference, DefaultGhBase);
    var body :- Fetch(net, GhReleases(base, repository));
    var tags :- ReleaseTags(body);
    if body.Arr? then
      ReleaseTagsLatest(body.items);
      Latest(tags)
    else
      Latest(tags)
  }

  /** `get_gh_release` (strategy 2): the `tag_name` of `/releases/latest`. */
  function GhRelease(reference: string, net: Network): (r: Result<string>)
    ensures var (repository, base) := SplitBase(reference, DefaultGhBase);
              && (Fetch(net, GhLatestRelease(base, repository)).Err? ==> r == Err(FetchFailed))
              && (Fetch(net, GhLatestRelease(base, repository)).Ok? ==>
                    r == Text(Fetch(net, GhLatestRelease(base, repository)).value, "tag_name"))
    ensures r.Ok? ==> var (repository, base) := SplitBase(reference, DefaultGhBase);
              exists body :: Fetch(net, GhLatestRelease(base, repository)) == Ok(body) &&
                Text(body, "tag_name") == r
  {
    var (repository, base) := SplitBase(reference, DefaultGhBase);
    var body :- Fetch(net, GhLatestRelease(base, repository));
    Text(body, "tag_name")
  }

  /** `get_gh_deployment`: the commit of the first deployment listed. */
  function GhDeployment(reference: string, net: Network): (r: Result<string>)
    ensures var (repository, base) := SplitBase(reference, DefaultGhBase);
              && (Fetch(net, GhDeployments(base, repository)).Err? ==> r == Err(FetchFailed))
              && (Fetch(net, GhDeployments(base, repository)).Ok? ==> r == NewestOf(Fetch(net, GhDeployments(base, repository)).value, "sha"))
    ensures r.Ok? ==> var (repository, base) := SplitBase(reference, DefaultGhBase);
              exists body :: Fetch(net, GhDeployments(base, repository)) == Ok(body) &&
                body.Arr? && body.items != [] && Text(body.items[0], "sha") == r
  {
    var (repository, base) := SplitBase(reference, DefaultGhBase);
    var body :- Fetch(net, GhDeployments(base, repository));
    NewestOf(body, "sha")
  }

  /** `str.isdigit()` restricted to ASCII digits. */
  predicate IsDigits(s: string) {
    s != [] && forall i :: 0 <= i < |s| ==> '0' <= s[i] <= '9'
  }

  /** `int(s)` for a string of decimal digits. */
  function DigitsValue(s: string): nat
    requires forall i :: 0 <= i < |s| ==> '0' <= s[i] <= '9'
  {
    if s == [] then 0 else 10 * DigitsValue(s[..|s| - 1]) + (s[|s| - 1] - '0') as nat
  }

  /** The decimal spelling of a project id, as the forge writes it. */
  function Decimal(n: nat): (s: string)
    ensures IsDigits(s)
  {
    if n < 10 then [(n + '0' as int) as char]
    else Decimal(n / 10) + [(n % 10 + '0' as int) as char]
  }

  /** Reading back the decimal spelling of an id gives the id. */
  lemma {:induction false} DecimalRoundTrip(n: nat)
    ensures DigitsValue(Decimal(n)) == n
  {
    var s := Decimal(n);
    if n >= 10 {
      DecimalRoundTrip(n / 10);
      assert s[..|s| - 1] == Decimal(n / 10);
    }
  }

  /** `_get_gl_repository`: a reference that is all digits is the project id
      itself and nothing is fetched; any other is looked up by path. */
  function GlProjectId(repository: string, base: string, net: Network): (r: Result<int>)
    ensures IsDigits(repository) ==> r == Ok(DigitsValue(repository))
    ensures !IsDigits(repository) && Fetch(net, GlProject(base, repository)).Err? ==> r == Err(FetchFailed)
    ensures !IsDigits(repository) && Fetch(net, GlProject(base, repository)).Ok? ==>
              var body := Fetch(net, GlProject(base, repository)).value;
              && (Member(body, "id").Ok? && Member(body, "id").value.Num? ==> r == Ok(Member(body, "id").value.n))
              && (Member(body, "id").Err? || !Member(body, "id").value.Num? ==> r == Err(Malformed))
    ensures !IsDigits(repository) && r.Ok? ==>
              exists body :: Fetch(net, GlProject(base, repository)) == Ok(body) &&
                             Member(body, "id") == Ok(Num(r.value))
  {
    if IsDigits(repository) then Ok(DigitsValue(repository))
    else
      var body :- Fetch(net, GlProject(base, repository));
      var id :- Member(body, "id");
      if id.Num? then Ok(id.n) else Err(Malformed)
  }

  /** `get_gl_commit`: the newest commit on the branch. */
  function GlCommit(reference: string, net: Network): (r: Result<string>)
    ensures var query := GlCommitQuery(reference);
              var id := GlProjectId(query.repository, query.base, net);
              && (id.Err? ==> r == Err(id.error))
              && (id.Ok? && Fetch(net, GlCommits(query.base, id.value, query.branch)).Err? ==> r == Err(FetchFailed))
              && (id.Ok? && Fetch(net, GlCommits(query.base, id.value, query.branch)).Ok? ==>
                    r == NewestOf(Fetch(net, GlCommits(query.base, id.value, query.branch)).value, "id"))
    ensures r.Ok? ==> var query := GlCommitQuery(reference);
              exists id, body :: GlProjectId(query.repository, query.base, net) == Ok(id) &&
                Fetch(net, GlCommits(query.base, id, query.branch)) == Ok(body) &&
                body.Arr? && body.items != [] && Text(body.items[0], "id") == r
  {
    var query := GlCommitQuery(reference);
    var id :- GlProjectId(query.repository, query.base, net);
    var body :- Fetch(net, GlCommits(query.base, id, query.branch));
    NewestOf(body, "id")
  }

  /** `get_gl_tag`: the first tag of the version-ordered listing. */
  function GlTag(reference: string, net: Network): (r: Result<string>)
    ensures var (repository, base) := SplitBase(reference, DefaultGlBase);
              var id := GlProjectId(repository, base, net);
              && (id.Err? ==> r == Err(id.error))
              && (id.Ok? && Fetch(net, GlTags(base, id.value)).Err? ==> r == Err(FetchFailed))
              && (id.Ok? && Fetch(net, GlTags(base, id.value)).Ok? ==>
                    r == NewestOf(Fetch(net, GlTags(base, id.value)).value, "name"))
    ensures r.Ok? ==> var (repository, base) := SplitBase(reference, DefaultGlBase);
              exists id, body :: GlProjectId(repository, base, net) == Ok(id) &&
                Fetch(net, GlTags(base, id)) == Ok(body) &&
                body.Arr? && body.items != [] && Text(body.items[0], "name") == r
  {
    var (repository, base) := SplitBase(reference, DefaultGlBase);
    var id :- GlProjectId(repository, base, net);
    var body :- Fetch(net, GlTags(base, id));
    NewestOf(body, "name")
  }
}
