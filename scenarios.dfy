/** Worked examples (proved): what the tool does on fixed upstream answers. */
module Scenarios {
  import opened Wrappers
  import opened Json
  import opened Listing
  import opened Pypi
  import opened Providers
  import opened Selector
  import Fetcher

  /** One uploaded file of a PyPI release. */
  function FileAt(time: string, yanked: bool): Json {
    Obj([("yanked", Bool(yanked)), ("upload_time_iso_8601", Str(time))])
  }

  lemma FileAtFields(time: string, yanked: bool)
    ensures Member(FileAt(time, yanked), "yanked") == Ok(Bool(yanked))
    ensures Text(FileAt(time, yanked), "upload_time_iso_8601") == Ok(time)
  {
    var f := FileAt(time, yanked).fields;
    assert f[..1] == [("yanked", Bool(yanked))];
    assert Lookup(f, "yanked") == Some(Bool(yanked));
  }

  /** Two kept entries come out in order. */
  lemma CollectTwo<T, U>(entries: seq<T>, step: T -> Result<Option<U>>, a: U, b: U)
    requires |entries| == 2 && step(entries[0]) == Ok(Some(a)) && step(entries[1]) == Ok(Some(b))
    ensures Collect(entries, step) == Ok([a, b])
  {
    var one := entries[..1];
    assert one[..0] == [];
    assert Collect(one[..0], step) == Ok([]);
    assert one[|one| - 1] == entries[0];
    assert [] + [a] == [a];
    assert Collect(one, step) == Ok([a]);
    assert entries[..1] == one;
    assert Collect(entries, step) == Ok([a] + [b]);
    assert [a] + [b] == [a, b];
  }

  /** The `releases` object of a PyPI answer: `v1`, then `v2`, each with one
      file that is not yanked. */
  function TwoReleaseFiles(v1: string, t1: string, v2: string, t2: string): seq<(string, Json)> {
    [(v1, Arr([FileAt(t1, false)])), (v2, Arr([FileAt(t2, false)]))]
  }

  /** A PyPI answer listing `v1` and then `v2`. */
  function TwoReleases(v1: string, t1: string, v2: string, t2: string): Json {
    Obj([("releases", Obj(TwoReleaseFiles(v1, t1, v2, t2)))])
  }

  /** A release whose only file is not yanked is kept with that file's time. */
  lemma FileCandidate(version: string, time: string)
    ensures Candidate(version, Arr([FileAt(time, false)])) == Ok(Some(Upload(version, time)))
  {
    FileAtFields(time, false);
  }

  lemma TwoReleaseLookups(v1: string, t1: string, v2: string, t2: string)
    requires v1 != v2
    ensures Keys(TwoReleaseFiles(v1, t1, v2, t2)) == [v1, v2]
    ensures Lookup(TwoReleaseFiles(v1, t1, v2, t2), v1) == Some(Arr([FileAt(t1, false)]))
    ensures Lookup(TwoReleaseFiles(v1, t1, v2, t2), v2) == Some(Arr([FileAt(t2, false)]))
  {
    var releases := TwoReleaseFiles(v1, t1, v2, t2);
    assert releases[..1] == [releases[0]];
    assert releases[..1][..0] == [];
    assert Keys(releases[..1]) == [v1];
    assert !HasKey(releases[..1], v2);
  }

  lemma TwoReleasesKept(v1: string, t1: string, v2: string, t2: string)
    requires v1 != v2
    ensures Kept(TwoReleaseFiles(v1, t1, v2, t2)) == Ok([Upload(v1, t1), Upload(v2, t2)])
  {
    var releases := TwoReleaseFiles(v1, t1, v2, t2);
    TwoReleaseLookups(v1, t1, v2, t2);
    FileCandidate(v1, t1);
    FileCandidate(v2, t2);
    var step := (version: string) => CandidateOf(releases, version);
    CollectTwo(Keys(releases), step, Upload(v1, t1), Upload(v2, t2));
  }

  /** Two uploads are swapped exactly when the second is strictly earlier. */
  lemma TwoUploadsSorted(u1: Upload, u2: Upload)
    ensures SortByTime([u1, u2]) == if StrLess(u2.time, u1.time) then [u2, u1] else [u1, u2]
  {
    var us := [u1, u2];
    assert us[..1] == [u1];
    assert [u1][..0] == [];
    assert SortByTime([u1]) == [u1];
    assert [u1][..0] == [];
  }

  /** The versions of a PyPI answer are its kept releases, sorted. */
  lemma PipVersionsOfKept(body: Json, releases: seq<(string, Json)>, kept: seq<Upload>)
    requires Member(body, "releases") == Ok(Obj(releases)) && Kept(releases) == Ok(kept)
    ensures PipVersions(body) == Ok(VersionsOf(SortByTime(kept)))
  {
  }

  lemma TwoVersions(a: Upload, b: Upload)
    ensures VersionsOf([a, b]) == [a.version, b.version]
  {
    assert [a, b][1..] == [b];
    assert [b][1..] == [];
  }

  /** PyPI's key order does not matter: the versions come out by upload time,
      and a release uploaded earlier than one listed before it moves ahead. */
  lemma TwoReleasesSorted(v1: string, t1: string, v2: string, t2: string)
    requires v1 != v2
    ensures PipVersions(TwoReleases(v1, t1, v2, t2)) ==
            Ok(if StrLess(t2, t1) then [v2, v1] else [v1, v2])
  {
    var body := TwoReleases(v1, t1, v2, t2);
    var u1, u2 := Upload(v1, t1), Upload(v2, t2);
    assert body.fields[..0] == [];
    assert Member(body, "releases") == Ok(Obj(TwoReleaseFiles(v1, t1, v2, t2)));
    TwoReleasesKept(v1, t1, v2, t2);
    PipVersionsOfKept(body, TwoReleaseFiles(v1, t1, v2, t2), [u1, u2]);
    TwoUploadsSorted(u1, u2);
    if StrLess(t2, t1) {
      TwoVersions(u2, u1);
    } else {
      TwoVersions(u1, u2);
    }
  }

  /** An upstream that answers `endpoint` with `body` at once and refuses
      everything else. */
  function Serve(endpoint: Endpoint, body: Json): Network {
    (e: Endpoint, k: nat) => if e == endpoint then Fetcher.Response(200, body) else Fetcher.Raised
  }

  function PipArgs(dockerTag: string, package: string): Args {
    Args(dockerTag, Some(package), None, None, None, None, None, None, None, None, None)
  }

  /** Answering at once, the upstream's body is what `Fetch` returns. */
  lemma ServeFetch(endpoint: Endpoint, body: Json)
    ensures Fetch(Serve(endpoint, body), endpoint) == Ok(body)
  {
    var net := Serve(endpoint, body);
    assert Fetcher.Succeeded(net(endpoint, 0));
  }

  /** The pip provider resolves to the last version PyPI's answer yields. */
  lemma PipResolvesLast(package: string, net: Network, body: Json, versions: seq<string>, render: string -> string)
    requires Fetch(net, PypiProject(package)) == Ok(body)
    requires PipVersions(body) == Ok(versions) && versions != []
    ensures Resolve(PipOption(package), net, render) == Ok(versions[|versions| - 1])
  {
  }

  /** Nothing is published yet: main announces the newest release of
      whatever PyPI answers. */
  lemma PipAnnouncesNewest(package: string, net: Network, body: Json, versions: seq<string>, render: string -> string)
    requires package != ""
    requires Fetch(net, PypiProject(package)) == Ok(body)
    requires PipVersions(body) == Ok(versions) && versions != []
    ensures Main(PipArgs("", package), net, render) == Ok(Some("tag=" + versions[|versions| - 1]))
  {
    var args := PipArgs("", package);
    PipResolvesLast(package, net, body, versions, render);
    assert Select(args) == Ok(PipOption(package));
    MainAnnouncesNovelTag(args, net, render, "tag=" + versions[|versions| - 1]);
  }

  /** The newest version is already published: main prints nothing. */
  lemma PipAlreadyPublished(dockerTag: string, package: string, net: Network, body: Json,
                            versions: seq<string>, tags: seq<string>, render: string -> string)
    requires package != ""
    requires PublishedTags(dockerTag, net) == Ok(tags)
    requires Fetch(net, PypiProject(package)) == Ok(body)
    requires PipVersions(body) == Ok(versions) && versions != [] && versions[|versions| - 1] in tags
    ensures Main(PipArgs(dockerTag, package), net, render) == Ok(None)
  {
    PipResolvesLast(package, net, body, versions, render);
    assert Select(PipArgs(dockerTag, package)) == Ok(PipOption(package));
  }

  /** Two releases uploaded in key order, nothing published yet: main
      prints the second. */
  lemma TwoReleasesAnnounceSecond(package: string, net: Network, v1: string, t1: string, v2: string, t2: string,
                                  render: string -> string)
    requires package != "" && v1 != v2 && !StrLess(t2, t1)
    requires Fetch(net, PypiProject(package)) == Ok(TwoReleases(v1, t1, v2, t2))
    ensures Main(PipArgs("", package), net, render) == Ok(Announce(v2, []))
  {
    TwoReleasesSorted(v1, t1, v2, t2);
    PipAnnouncesNewest(package, net, TwoReleases(v1, t1, v2, t2), [v1, v2], render);
  }

  /** PyPI lists `1.0.0` and `1.1.0`, uploaded in that order, and nothing is
      published yet: main prints the line announcing `1.1.0`. */
  lemma TwoReleasesAnnounced(package: string, net: Network, t1: string, t2: string, render: string -> string)
    requires package != "" && !StrLess(t2, t1)
    requires Fetch(net, PypiProject(package)) == Ok(TwoReleases("1.0.0", t1, "1.1.0", t2))
    ensures Main(PipArgs("", package), net, render) == Ok(Announce("1.1.0", []))
  {
    assert "1.0.0"[2] != "1.1.0"[2];
    TwoReleasesAnnounceSecond(package, net, "1.0.0", t1, "1.1.0", t2, render);
  }

  /** A release entry of the GitHub listing, not a draft. */
  function ReleaseEntry(tag: string, prerelease: bool): Json {
    Obj([("tag_name", Str(tag)), ("draft", Bool(false)), ("prerelease", Bool(prerelease))])
  }

  lemma ReleaseEntryFields(tag: string, prerelease: bool)
    ensures ReleaseTag(ReleaseEntry(tag, prerelease)) == if prerelease then Ok(None) else Ok(Some(tag))
  {
    var f := ReleaseEntry(tag, prerelease).fields;
    assert f[..2] == [("tag_name", Str(tag)), ("draft", Bool(false))];
    assert f[..2][..1] == [("tag_name", Str(tag))];
    assert "prerelease"[0] != "draft"[0] && "prerelease"[0] != "tag_name"[0] && "draft"[0] != "tag_name"[0];
    assert Lookup(f[..2][..1], "tag_name") == Some(Str(tag));
    assert Lookup(f[..2], "tag_name") == Some(Str(tag));
    assert Lookup(f, "tag_name") == Some(Str(tag));
    assert Lookup(f[..2], "draft") == Some(Bool(false));
    assert Lookup(f, "draft") == Some(Bool(false));
    assert Lookup(f, "prerelease") == Some(Bool(prerelease));
  }

  /** A skipped entry followed by a kept one leaves just the kept value. */
  lemma CollectSkipThenKeep<T, U>(entries: seq<T>, step: T -> Result<Option<U>>, a: U)
    requires |entries| == 2 && step(entries[0]) == Ok(None) && step(entries[1]) == Ok(Some(a))
    ensures Collect(entries, step) == Ok([a])
  {
    var one := entries[..1];
    assert one[..0] == [];
    assert Collect(one[..0], step) == Ok([]);
    assert one[|one| - 1] == entries[0];
    assert Collect(one, step) == Ok([]);
    assert entries[..1] == one;
    assert [] + [a] == [a];
  }

  /** Newest first, `newer` published and `older` a prerelease: only `newer`
      is listed, so it is the latest release. */
  lemma PrereleaseSkipped(newer: string, older: string)
    ensures ReleaseTags(Arr([ReleaseEntry(newer, false), ReleaseEntry(older, true)])) == Ok([newer])
    ensures Latest(ReleaseTags(Arr([ReleaseEntry(newer, false), ReleaseEntry(older, true)])).value) == Ok(newer)
  {
    var items := [ReleaseEntry(newer, false), ReleaseEntry(older, true)];
    ReleaseEntryFields(newer, false);
    ReleaseEntryFields(older, true);
    var reversed := Reverse(items);
    assert reversed == [items[1], items[0]];
    CollectSkipThenKeep(reversed, ReleaseTag, newer);
  }
}
