/** `get_pip_versions_2` (get_tag.py:53-63): the releases of a PyPI project,
    without releases that have no files or whose first file is yanked,
    sorted by the first file's `upload_time_iso_8601`. */
module Pypi {
  import opened Wrappers
  import opened Json
  import opened Listing

  /** Python's `a < b` on `str`: lexicographic by code point. */
  predicate StrLess(a: string, b: string) {
    if a == [] then b != []
    else if b == [] then false
    else if a[0] != b[0] then a[0] < b[0]
    else StrLess(a[1..], b[1..])
  }

  lemma {:induction false} StrLessIrreflexive(a: string)
    ensures !StrLess(a, a)
  {
    if a != [] { StrLessIrreflexive(a[1..]); }
  }

  lemma {:induction false} StrLessAsymmetric(a: string, b: string)
    ensures StrLess(a, b) ==> !StrLess(b, a)
  {
    if a != [] && b != [] && a[0] == b[0] { StrLessAsymmetric(a[1..], b[1..]); }
  }

  lemma {:induction false} StrLessTransitive(a: string, b: string, c: string)
    requires StrLess(a, b) && StrLess(b, c)
    ensures StrLess(a, c)
  {
    if a != [] && b != [] && c != [] && a[0] == b[0] == c[0] {
      StrLessTransitive(a[1..], b[1..], c[1..]);
    }
  }

  lemma {:induction false} StrLessTotal(a: string, b: string)
    ensures a == b || StrLess(a, b) || StrLess(b, a)
  {
    if a != [] && b != [] && a[0] == b[0] {
      StrLessTotal(a[1..], b[1..]);
      if a[1..] == b[1..] {
        assert a == [a[0]] + a[1..] && b == [b[0]] + b[1..];
      }
    }
  }

  /** A kept release: its name and the upload time of its first file. */
  datatype Upload = Upload(version: string, time: string)

  /** No upload is listed before one that `sorted` would put ahead of it. */
  ghost predicate SortedByTime(us: seq<Upload>) {
    forall i, j :: 0 <= i < j < |us| ==> !StrLess(us[j].time, us[i].time)
  }

  /** An upload no later than some upload can be appended after it. */
  lemma SortedAppend(us: seq<Upload>, u: Upload)
    requires SortedByTime(us)
    requires forall i :: 0 <= i < |us| ==> !StrLess(u.time, us[i].time)
    ensures SortedByTime(us + [u])
  {
  }

  /** Every upload of a sorted list is no later than its last one, and so
      no later than anything the last one is no later than. */
  lemma SortedBelowLast(us: seq<Upload>, u: Upload)
    requires SortedByTime(us) && us != [] && !StrLess(u.time, us[|us| - 1].time)
    ensures forall i :: 0 <= i < |us| ==> !StrLess(u.time, us[i].time)
  {
    var last := us[|us| - 1];
    forall i | 0 <= i < |us|
      ensures !StrLess(u.time, us[i].time)
    {
      if StrLess(u.time, us[i].time) {
        StrLessTotal(us[i].time, last.time);
        if StrLess(us[i].time, last.time) {
          StrLessTransitive(u.time, us[i].time, last.time);
        }
      }
    }
  }

  /** After inserting an upload earlier than `last` into the rest, `last`
      still comes after everything. */
  lemma InsertedBelowLast(init: seq<Upload>, last: Upload, u: Upload, front: seq<Upload>)
    requires SortedByTime(init + [last]) && StrLess(u.time, last.time)
    requires multiset(front) == multiset(init) + multiset{u}
    ensures forall i :: 0 <= i < |front| ==> !StrLess(last.time, front[i].time)
  {
    var us := init + [last];
    forall i | 0 <= i < |front|
      ensures !StrLess(last.time, front[i].time)
    {
      assert front[i] in multiset(front);
      if front[i] == u {
        StrLessAsymmetric(u.time, last.time);
      } else {
        assert front[i] in multiset(init);
        var k :| 0 <= k < |init| && init[k] == front[i];
        assert us[k] == init[k] && us[|us| - 1] == last;
      }
    }
  }

  /** Places `u` after every upload whose time is not greater, as a stable
      sort does for an element that came last. */
  function Insert(u: Upload, us: seq<Upload>): (r: seq<Upload>)
    requires SortedByTime(us)
    ensures SortedByTime(r)
    ensures multiset(r) == multiset(us) + multiset{u}
  {
    if us == [] then [u]
    else
      var init := us[..|us| - 1];
      var last := us[|us| - 1];
      assert us == init + [last];
      if StrLess(u.time, last.time) then
        var front := Insert(u, init);
        InsertedBelowLast(init, last, u, front);
        SortedAppend(front, last);
        front + [last]
      else
        SortedBelowLast(us, u);
        SortedAppend(us, u);
        us + [u]
  }

  /** `sorted(uploads, key=time)`: a stable insertion sort. */
  function SortByTime(us: seq<Upload>): (r: seq<Upload>)
    ensures SortedByTime(r)
    ensures multiset(r) == multiset(us)
  {
    if us == [] then []
    else
      assert us == us[..|us| - 1] + [us[|us| - 1]];
      Insert(us[|us| - 1], SortByTime(us[..|us| - 1]))
  }

  /** What the filter lambda and the sort key make of `releases[version]`:
      nothing for an empty file list or a yanked first file, otherwise the
      version with its first file's upload time. */
  function Candidate(version: string, files: Json): (r: Result<Option<Upload>>)
    ensures r == Ok(None) <==>
              !Truthy(files) ||
              (First(files).Ok? && Member(First(files).value, "yanked").Ok? &&
               Truthy(Member(First(files).value, "yanked").value))
    ensures r.Ok? && r.value.Some? ==>
              && r.value.value.version == version
              && files.Arr? && files.items != []
              && Member(files.items[0], "yanked").Ok? && !Truthy(Member(files.items[0], "yanked").value)
              && Text(files.items[0], "upload_time_iso_8601") == Ok(r.value.value.time)
    ensures Truthy(files) && First(files).Ok? && Member(First(files).value, "yanked").Ok? &&
            !Truthy(Member(First(files).value, "yanked").value) &&
            Text(First(files).value, "upload_time_iso_8601").Ok? ==>
              r == Ok(Some(Upload(version, Text(First(files).value, "upload_time_iso_8601").value)))
    ensures r.Err? <==>
              Truthy(files) &&
              (First(files).Err? || Member(First(files).value, "yanked").Err? ||
               (!Truthy(Member(First(files).value, "yanked").value) &&
                Text(First(files).value, "upload_time_iso_8601").Err?))
    ensures r.Err? ==> r.error == Malformed
  {
    if !Truthy(files) then Ok(None)
    else
      var first :- First(files);
      var yanked :- Member(first, "yanked");
      if Truthy(yanked) then Ok(None)
      else
        var time :- Text(first, "upload_time_iso_8601");
        Ok(Some(Upload(version, time)))
  }

  /** The candidate made of the release a dict key names. */
  function CandidateOf(releases: seq<(string, Json)>, version: string): (r: Result<Option<Upload>>)
    ensures r.Err? ==> r.error == Malformed
  {
    match Lookup(releases, version)
    case None => Err(Malformed)
    case Some(files) => Candidate(version, files)
  }

  /** The kept releases in the order of the dict's keys. The filter fails
      exactly when some release's files cannot be read. */
  function Kept(releases: seq<(string, Json)>): (r: Result<seq<Upload>>)
    ensures r.Ok? <==> forall i :: 0 <= i < |Keys(releases)| ==>
                         CandidateOf(releases, Keys(releases)[i]).Ok?
    ensures r.Err? ==> r.error == Malformed
  {
    var keys := Keys(releases);
    var step := (version: string) => CandidateOf(releases, version);
    CollectFailsWith(keys, step, Malformed);
    Collect(keys, step)
  }

  /** `get_pip_versions_2` up to the final projection: the kept releases
      sorted by upload time, a permutation of those the filter keeps. An
      empty list or string under `releases` has nothing to iterate, so
      nothing is kept. */
  function PipReleases(body: Json): (r: Result<seq<Upload>>)
    ensures r.Ok? ==> SortedByTime(r.value)
    ensures r.Ok? ==> Member(body, "releases").Ok?
    ensures Member(body, "releases") == Ok(Arr([])) || Member(body, "releases") == Ok(Str([])) ==> r == Ok([])
    ensures r.Ok? && !Member(body, "releases").value.Obj? ==> r.value == []
    ensures Member(body, "releases").Ok? && !Member(body, "releases").value.Obj? &&
            Member(body, "releases").value != Arr([]) && Member(body, "releases").value != Str([]) ==>
              r == Err(Malformed)
    ensures Member(body, "releases").Ok? && Member(body, "releases").value.Obj? ==>
              var releases := Member(body, "releases").value.fields;
              && (r.Ok? <==> Kept(releases).Ok?)
              && (r.Ok? ==> multiset(r.value) == multiset(Kept(releases).value))
    ensures r.Err? ==> r.error == Malformed
  {
    var releases :- Member(body, "releases");
    if releases == Arr([]) || releases == Str([]) then Ok([])
    else if !releases.Obj? then Err(Malformed)
    else
      var uploads :- Kept(releases.fields);
      Ok(SortByTime(uploads))
  }

  function VersionsOf(us: seq<Upload>): (r: seq<string>)
    ensures |r| == |us| && forall i :: 0 <= i < |us| ==> r[i] == us[i].version
  {
    if us == [] then [] else [us[0].version] + VersionsOf(us[1..])
  }

  /** `get_pip_versions_2`: the names of the sorted kept releases, in order. */
  function PipVersions(body: Json): (r: Result<seq<string>>)
    ensures r.Ok? <==> PipReleases(body).Ok?
    ensures r.Ok? ==> |r.value| == |PipReleases(body).value| &&
                      forall i :: 0 <= i < |r.value| ==> r.value[i] == PipReleases(body).value[i].version
    ensures r.Err? ==> r.error == Malformed
  {
    var uploads :- PipReleases(body);
    Ok(VersionsOf(uploads))
  }

  /** Exactly the releases with files whose first file is not yanked are
      listed, each with its own upload time. */
  lemma KeptMembers(releases: seq<(string, Json)>, u: Upload)
    requires Kept(releases).Ok?
    ensures u in Kept(releases).value <==>
              HasKey(releases, u.version) && Candidate(u.version, Lookup(releases, u.version).value) == Ok(Some(u))
  {
    var keys := Keys(releases);
    var step := (version: string) => CandidateOf(releases, version);
    CollectMembers(keys, step, u);
    if u in Kept(releases).value {
      var i :| 0 <= i < |keys| && step(keys[i]) == Ok(Some(u));
      assert keys[i] in keys;
    } else if HasKey(releases, u.version) {
      assert u.version in keys;
      var i :| 0 <= i < |keys| && keys[i] == u.version;
    }
  }

  /** The last upload of a sorted sequence is no earlier than any other. */
  lemma LastIsNewest(sorted: seq<Upload>)
    requires SortedByTime(sorted) && sorted != []
    ensures forall w :: w in sorted ==> !StrLess(sorted[|sorted| - 1].time, w.time)
  {
    var u := sorted[|sorted| - 1];
    forall w | w in sorted ensures !StrLess(u.time, w.time) {
      var i :| 0 <= i < |sorted| && sorted[i] == w;
      if i == |sorted| - 1 {
        StrLessIrreflexive(u.time);
      }
    }
  }

  /** `get_pip_version`: the last version after sorting was uploaded no
      earlier than any other listed release, and it is itself a listed
      release with a non-yanked first file. */
  lemma PipVersionIsNewest(body: Json, releases: seq<(string, Json)>)
    requires Member(body, "releases") == Ok(Obj(releases))
    requires PipVersions(body).Ok?
    ensures var latest := Latest(PipVersions(body).value);
      && (latest.Err? <==> Kept(releases).value == [])
      && (latest.Ok? ==>
            exists u: Upload :: u.version == latest.value && u in Kept(releases).value &&
                        forall w :: w in Kept(releases).value ==> !StrLess(u.time, w.time))
  {
    var sorted := PipReleases(body).value;
    var kept := Kept(releases).value;
    assert multiset(sorted) == multiset(kept);
    if sorted == [] {
      assert |multiset(kept)| == 0;
    } else {
      var u := sorted[|sorted| - 1];
      assert u in multiset(kept);
      LastIsNewest(sorted);
      forall w | w in kept ensures !StrLess(u.time, w.time) {
        assert w in multiset(sorted);
      }
    }
  }
}
