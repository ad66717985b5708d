/** Normalisation of newest-first listings returned by the git forges:
    `[entry[key] for entry in reversed(listing)]` (get_tag.py:211, 222, 259,
    284, 295), the release filter (get_tag.py:233-237) and the `[-1]`
    getters that pick the latest identifier. */
module Listing {
  import opened Wrappers
  import opened Json

  function Reverse<T>(xs: seq<T>): (r: seq<T>)
    ensures |r| == |xs|
    ensures forall i :: 0 <= i < |xs| ==> r[i] == xs[|xs| - 1 - i]
  {
    if xs == [] then [] else [xs[|xs| - 1]] + Reverse(xs[..|xs| - 1])
  }

  /** What iterating a decoded value yields: the items of an array, the keys
      of an object, the characters of a string; anything else is a TypeError. */
  function Elements(j: Json): (r: Result<seq<Json>>)
    ensures r.Ok? <==> j.Arr? || j.Obj? || j.Str?
    ensures j.Arr? ==> r == Ok(j.items)
    ensures j.Obj? ==> r.Ok? && |r.value| == |Keys(j.fields)| &&
                       forall i :: 0 <= i < |r.value| ==> r.value[i] == Str(Keys(j.fields)[i])
    ensures j.Str? ==> r.Ok? && |r.value| == |j.s| &&
                       forall i :: 0 <= i < |r.value| ==> r.value[i] == Str([j.s[i]])
    ensures r.Ok? && !j.Arr? ==> forall i :: 0 <= i < |r.value| ==> r.value[i].Str?
    ensures r.Ok? && !j.Arr? ==> (r.value == [] <==> j == Obj([]) || j == Str([]))
    ensures r.Err? ==> r.error == Malformed
  {
    match j
    case Arr(items) => Ok(items)
    case Obj(fields) =>
      var keys := Keys(fields);
      assert fields != [] ==> fields[0].0 in keys by {
        if fields != [] { assert HasKey(fields, fields[0].0); }
      }
      Ok(seq(|keys|, i requires 0 <= i < |keys| => Str(keys[i])))
    case Str(s) => Ok(seq(|s|, i requires 0 <= i < |s| => Str([s[i]])))
    case _ => Err(Malformed)
  }

  /** `[entry[key] for entry in entries]`, each value read as an identifier. */
  function Project(entries: seq<Json>, key: string): (r: Result<seq<string>>)
    ensures r.Ok? <==> forall i :: 0 <= i < |entries| ==> Text(entries[i], key).Ok?
    ensures r.Ok? ==> |r.value| == |entries| &&
                      forall i :: 0 <= i < |entries| ==> Text(entries[i], key) == Ok(r.value[i])
    ensures r.Err? ==> r.error == Malformed
  {
    if entries == [] then Ok([])
    else
      var head :- Text(entries[0], key);
      var tail :- Project(entries[1..], key);
      assert forall i :: 1 <= i < |entries| ==> entries[1..][i - 1] == entries[i];
      Ok([head] + tail)
  }

  /** The newest-first listing turned oldest-first: the field `key` of every
      entry, in reverse order. */
  function NewestFirst(listing: Json, key: string): (r: Result<seq<string>>)
    ensures listing.Arr? ==> (r.Ok? <==> forall i :: 0 <= i < |listing.items| ==> Text(listing.items[i], key).Ok?)
    ensures listing.Arr? && r.Ok? ==>
              |r.value| == |listing.items| &&
              forall i :: 0 <= i < |r.value| ==>
                Text(listing.items[|listing.items| - 1 - i], key) == Ok(r.value[i])
    ensures !listing.Arr? ==> (r.Ok? <==> listing == Obj([]) || listing == Str([]))
    ensures !listing.Arr? && r.Ok? ==> r.value == []
    ensures r.Err? ==> r.error == Malformed
  {
    var entries :- Elements(listing);
    var reversed := Reverse(entries);
    assert !listing.Arr? && entries != [] ==> Text(reversed[0], key).Err?;
    assert listing.Arr? ==> forall i :: 0 <= i < |entries| ==> entries[i] == reversed[|entries| - 1 - i];
    Project(reversed, key)
  }

  /** `versions[-1]`: the latest identifier, an IndexError when there is none. */
  function Latest(versions: seq<string>): (r: Result<string>)
    ensures r.Ok? <==> versions != []
    ensures r.Ok? ==> r.value == versions[|versions| - 1]
    ensures r.Err? ==> r.error == NoVersion
  {
    if versions == [] then Err(NoVersion) else Ok(versions[|versions| - 1])
  }

  /** The latest identifier of a newest-first listing is the field of its
      FIRST entry; an empty listing has none. The whole comprehension is
      built first, so an entry further down without the field fails too. */
  function NewestOf(listing: Json, key: string): (r: Result<string>)
    ensures listing.Arr? ==>
              (r.Ok? <==> listing.items != [] &&
                          forall i :: 0 <= i < |listing.items| ==> Text(listing.items[i], key).Ok?)
    ensures listing.Arr? && r.Ok? ==> Text(listing.items[0], key) == r
    ensures listing.Arr? && listing.items == [] ==> r == Err(NoVersion)
    ensures listing.Arr? && listing.items != [] && r.Err? ==> r.error == Malformed
    ensures !listing.Arr? ==>
              r == if listing == Obj([]) || listing == Str([]) then Err(NoVersion) else Err(Malformed)
  {
    var versions :- NewestFirst(listing, key);
    Latest(versions)
  }

  /** A release entry that is neither a draft nor a prerelease by Python's
      truthiness of those members. */
  predicate IsPublished(entry: Json)
    requires entry.Obj?
  {
    && HasKey(entry.fields, "draft") && !Truthy(Lookup(entry.fields, "draft").value)
    && HasKey(entry.fields, "prerelease") && !Truthy(Lookup(entry.fields, "prerelease").value)
  }

  /** What the release comprehension makes of one entry: nothing for a draft
      or a prerelease, its `tag_name` otherwise. `prerelease` is read only when
      `draft` is falsy, and `tag_name` only for a kept entry. */
  function ReleaseTag(entry: Json): (r: Result<Option<string>>)
    ensures r.Ok? && r.value.Some? <==> entry.Obj? && IsPublished(entry) && Text(entry, "tag_name").Ok?
    ensures r.Ok? && r.value.Some? ==> Text(entry, "tag_name") == Ok(r.value.value)
    ensures r == Ok(None) <==>
              entry.Obj? && HasKey(entry.fields, "draft") &&
              (Truthy(Lookup(entry.fields, "draft").value) ||
               (HasKey(entry.fields, "prerelease") && Truthy(Lookup(entry.fields, "prerelease").value)))
    ensures r.Err? ==> r.error == Malformed
  {
    var draft :- Member(entry, "draft");
    if Truthy(draft) then Ok(None)
    else
      var prerelease :- Member(entry, "prerelease");
      if Truthy(prerelease) then Ok(None)
      else
        var tag :- Text(entry, "tag_name");
        Ok(Some(tag))
  }

  /** The values `step` keeps from `entries`, in order; the first error
      `step` reports stops the whole comprehension. */
  function Collect<T, U>(entries: seq<T>, step: T -> Result<Option<U>>): (r: Result<seq<U>>)
    ensures r.Ok? <==> forall i :: 0 <= i < |entries| ==> step(entries[i]).Ok?
    ensures r.Err? ==> exists i :: 0 <= i < |entries| && step(entries[i]) == Err(r.error)
  {
    if entries == [] then Ok([])
    else
      var init := entries[..|entries| - 1];
      assert forall i :: 0 <= i < |init| ==> init[i] == entries[i];
      var kept :- Collect(init, step);
      var last :- step(entries[|entries| - 1]);
      if last.Some? then Ok(kept + [last.value]) else Ok(kept)
  }

  /** A comprehension whose steps can only fail with `e` fails with `e`. */
  lemma CollectFailsWith<T, U>(entries: seq<T>, step: T -> Result<Option<U>>, e: Error)
    requires forall x :: step(x).Err? ==> step(x).error == e
    ensures Collect(entries, step).Err? ==> Collect(entries, step).error == e
  {
  }

  lemma CollectStep<T, U>(entries: seq<T>, step: T -> Result<Option<U>>)
    requires entries != [] && Collect(entries, step).Ok?
    ensures var init := entries[..|entries| - 1];
            var last := step(entries[|entries| - 1]).value;
      && Collect(init, step).Ok?
      && Collect(entries, step).value ==
           if last.Some? then Collect(init, step).value + [last.value] else Collect(init, step).value
  {
    var init := entries[..|entries| - 1];
    assert forall i :: 0 <= i < |init| ==> init[i] == entries[i];
  }

  /** Exactly the values of the kept entries come out. */
  lemma {:induction false} CollectMembers<T, U>(entries: seq<T>, step: T -> Result<Option<U>>, t: U)
    requires Collect(entries, step).Ok?
    ensures t in Collect(entries, step).value <==>
              exists i :: 0 <= i < |entries| && step(entries[i]) == Ok(Some(t))
  {
    if entries != [] {
      var n := |entries|;
      var init := entries[..n - 1];
      CollectStep(entries, step);
      CollectMembers(init, step, t);
      assert forall i :: 0 <= i < n - 1 ==> init[i] == entries[i];
    }
  }

  /** Nothing comes out exactly when every entry is skipped. */
  lemma {:induction false} CollectEmpty<T, U>(entries: seq<T>, step: T -> Result<Option<U>>)
    requires Collect(entries, step).Ok?
    ensures Collect(entries, step).value == [] <==>
              forall i :: 0 <= i < |entries| ==> step(entries[i]) == Ok(None)
  {
    if entries != [] {
      var n := |entries|;
      var init := entries[..n - 1];
      CollectStep(entries, step);
      CollectEmpty(init, step);
      assert forall i :: 0 <= i < n - 1 ==> init[i] == entries[i];
    }
  }

  /** The last value out is that of the last kept entry. */
  lemma {:induction false} CollectLast<T, U>(entries: seq<T>, step: T -> Result<Option<U>>)
    requires Collect(entries, step).Ok? && Collect(entries, step).value != []
    ensures var out := Collect(entries, step).value;
      exists i :: 0 <= i < |entries| && step(entries[i]) == Ok(Some(out[|out| - 1])) &&
                  forall j :: i < j < |entries| ==> step(entries[j]) == Ok(None)
  {
    var n := |entries|;
    var init := entries[..n - 1];
    var out := Collect(entries, step).value;
    CollectStep(entries, step);
    if step(entries[n - 1]).value.None? {
      CollectLast(init, step);
      assert Collect(init, step).value == out;
      var i :| 0 <= i < n - 1 && step(init[i]) == Ok(Some(out[|out| - 1])) &&
               forall j :: i < j < n - 1 ==> step(init[j]) == Ok(None);
      assert step(entries[i]) == Ok(Some(out[|out| - 1]));
      forall j | i < j < n ensures step(entries[j]) == Ok(None) {
        if j < n - 1 {
          assert init[j] == entries[j];
        }
      }
    } else {
      assert out[|out| - 1] == step(entries[n - 1]).value.value;
      assert step(entries[n - 1]) == Ok(Some(out[|out| - 1]));
    }
  }

  /** `reversed` holds the elements of `items` in reverse order. */
  ghost predicate Reverses<T>(reversed: seq<T>, items: seq<T>) {
    |reversed| == |items| && forall i :: 0 <= i < |items| ==> reversed[i] == items[|items| - 1 - i]
  }

  /** Collecting a reversed sequence keeps the same values. */
  lemma CollectReversedMembers<T, U>(items: seq<T>, reversed: seq<T>, step: T -> Result<Option<U>>, t: U)
    requires Reverses(reversed, items) && Collect(reversed, step).Ok?
    ensures t in Collect(reversed, step).value <==> exists i :: 0 <= i < |items| && step(items[i]) == Ok(Some(t))
  {
    CollectMembers(reversed, step, t);
    if exists i :: 0 <= i < |items| && step(items[i]) == Ok(Some(t)) {
      var i :| 0 <= i < |items| && step(items[i]) == Ok(Some(t));
      assert reversed[|items| - 1 - i] == items[i];
    }
    if exists k :: 0 <= k < |reversed| && step(reversed[k]) == Ok(Some(t)) {
      var k :| 0 <= k < |reversed| && step(reversed[k]) == Ok(Some(t));
      assert reversed[k] == items[|items| - 1 - k];
    }
  }

  /** Collecting a reversed sequence yields nothing exactly when every entry
      is skipped. */
  lemma CollectReversedEmpty<T, U>(items: seq<T>, reversed: seq<T>, step: T -> Result<Option<U>>)
    requires Reverses(reversed, items) && Collect(reversed, step).Ok?
    ensures Collect(reversed, step).value == [] <==>
              forall i :: 0 <= i < |items| ==> step(items[i]) == Ok(None)
  {
    var n := |items|;
    CollectEmpty(reversed, step);
    if forall i :: 0 <= i < n ==> step(items[i]) == Ok(None) {
      forall k | 0 <= k < n ensures step(reversed[k]) == Ok(None) {
        assert reversed[k] == items[n - 1 - k];
      }
    }
    if Collect(reversed, step).value == [] {
      forall i | 0 <= i < n ensures step(items[i]) == Ok(None) {
        assert reversed[n - 1 - i] == items[i];
      }
    }
  }

  /** The last value out of a reversed sequence is that of the FIRST kept
      entry of the original order. */
  lemma CollectReversedLast<T, U>(items: seq<T>, reversed: seq<T>, step: T -> Result<Option<U>>)
    requires Reverses(reversed, items)
    requires Collect(reversed, step).Ok? && Collect(reversed, step).value != []
    ensures var out := Collect(reversed, step).value;
      exists i :: 0 <= i < |items| && step(items[i]) == Ok(Some(out[|out| - 1])) &&
                  forall j :: 0 <= j < i ==> step(items[j]) == Ok(None)
  {
    var n := |items|;
    var out := Collect(reversed, step).value;
    CollectLast(reversed, step);
    var k :| 0 <= k < n && step(reversed[k]) == Ok(Some(out[|out| - 1])) &&
             forall j :: k < j < n ==> step(reversed[j]) == Ok(None);
    var i := n - 1 - k;
    assert items[i] == reversed[k];
    forall j | 0 <= j < i ensures step(items[j]) == Ok(None) {
      assert reversed[n - 1 - j] == items[j];
    }
  }

  /** `get_gh_releases_1`'s comprehension: the tags of published releases,
      oldest first. */
  function ReleaseTags(listing: Json): (r: Result<seq<string>>)
    ensures listing.Arr? ==> (r.Ok? <==> forall i :: 0 <= i < |listing.items| ==> ReleaseTag(listing.items[i]).Ok?)
    ensures !listing.Arr? ==>
              r == if listing == Obj([]) || listing == Str([]) then Ok([]) else Err(Malformed)
    ensures r.Err? ==> r.error == Malformed
  {
    var entries :- Elements(listing);
    var reversed := Reverse(entries);
    assert forall i :: 0 <= i < |entries| ==> reversed[|entries| - 1 - i] == entries[i];
    CollectFailsWith(reversed, ReleaseTag, Malformed);
    if !listing.Arr? && entries != [] then
      // The keys of an object and the characters of a string are strings,
      // and `"..."["draft"]` is a TypeError.
      assert ReleaseTag(reversed[0]).Err?;
      Collect(reversed, ReleaseTag)
    else
      Collect(reversed, ReleaseTag)
  }

  /** What one step keeps, as a sequence of zero or one values. */
  function Kept1<U>(o: Option<U>): seq<U> {
    if o.Some? then [o.value] else []
  }

  /** Collecting `[a] + entries` puts what `a` keeps in front. */
  lemma {:induction false} CollectPrepend<T, U>(a: T, entries: seq<T>, step: T -> Result<Option<U>>)
    requires step(a).Ok? && Collect(entries, step).Ok?
    ensures Collect([a] + entries, step) == Ok(Kept1(step(a).value) + Collect(entries, step).value)
    decreases |entries|
  {
    var all := [a] + entries;
    if entries == [] {
      assert all[..0] == [] && all[0] == a;
      assert Collect(all[..0], step) == Ok([]);
      assert Kept1(step(a).value) + [] == Kept1(step(a).value) == [] + Kept1(step(a).value);
    } else {
      var n := |entries|;
      var init := entries[..n - 1];
      CollectStep(entries, step);
      CollectPrepend(a, init, step);
      assert all[..|all| - 1] == [a] + init;
      assert all[|all| - 1] == entries[n - 1];
      var front := Kept1(step(a).value);
      var last := Kept1(step(entries[n - 1]).value);
      assert Collect(entries, step).value == Collect(init, step).value + last;
      assert Collect(all, step).value == Collect([a] + init, step).value + last;
      Regroup(front, Collect(init, step).value, last);
    }
  }

  /** Reversing what is appended to a sequence puts it in front. */
  lemma ReverseSnoc<T>(xs: seq<T>, x: T)
    ensures Reverse(xs + [x]) == [x] + Reverse(xs)
  {
    assert (xs + [x])[..|xs|] == xs;
  }

  /** Reversing a concatenation swaps and reverses the parts. */
  lemma ReverseAppend<T>(xs: seq<T>, ys: seq<T>)
    ensures Reverse(xs + ys) == Reverse(ys) + Reverse(xs)
  {
    var r, s := Reverse(xs + ys), Reverse(ys) + Reverse(xs);
    forall i | 0 <= i < |r| ensures r[i] == s[i] {
      if i < |ys| {
        assert s[i] == Reverse(ys)[i];
      } else {
        assert s[i] == Reverse(xs)[i - |ys|];
      }
    }
  }

  /** A comprehension over the reversed entries keeps the same values, in
      reverse order and with the same multiplicity. */
  lemma {:induction false} CollectReverse<T, U>(entries: seq<T>, step: T -> Result<Option<U>>)
    requires Collect(entries, step).Ok?
    ensures Collect(Reverse(entries), step) == Ok(Reverse(Collect(entries, step).value))
    decreases |entries|
  {
    if entries != [] {
      var n := |entries|;
      var init := entries[..n - 1];
      var x := entries[n - 1];
      CollectStep(entries, step);
      CollectReverse(init, step);
      var kept := Kept1(step(x).value);
      assert Collect(init, step).value + [] == Collect(init, step).value;
      assert Collect(entries, step).value == Collect(init, step).value + kept;
      assert entries == init + [x];
      ReverseSnoc(init, x);
      assert Reverse(entries) == [x] + Reverse(init);
      CollectPrepend(x, Reverse(init), step);
      ReverseAppend(Collect(init, step).value, Kept1(step(x).value));
      assert Reverse(Kept1(step(x).value)) == Kept1(step(x).value);
    }
  }

  /** The tags listed are those some entry's ReleaseTag keeps. */
  lemma ReleaseTagsKept(items: seq<Json>, t: string)
    requires ReleaseTags(Arr(items)).Ok?
    ensures t in ReleaseTags(Arr(items)).value <==> exists i :: 0 <= i < |items| && ReleaseTag(items[i]) == Ok(Some(t))
  {
    CollectReversedMembers(items, Reverse(items), ReleaseTag, t);
  }

  /** The release list is the in-order filter of the listing, reversed: the
      kept `tag_name`s, oldest first, each as often as it is listed. */
  lemma ReleaseTagsInOrder(items: seq<Json>)
    requires ReleaseTags(Arr(items)).Ok?
    ensures Collect(items, ReleaseTag).Ok?
    ensures ReleaseTags(Arr(items)).value == Reverse(Collect(items, ReleaseTag).value)
  {
    CollectReverse(items, ReleaseTag);
  }

  /** No draft and no prerelease is ever listed, and every published release
      of an array listing is. */
  lemma ReleaseTagsMembers(items: seq<Json>, t: string)
    requires ReleaseTags(Arr(items)).Ok?
    ensures t in ReleaseTags(Arr(items)).value <==>
              exists i :: 0 <= i < |items| && items[i].Obj? && IsPublished(items[i]) &&
                          Text(items[i], "tag_name") == Ok(t)
  {
    ReleaseTagsKept(items, t);
    if exists i :: 0 <= i < |items| && items[i].Obj? && IsPublished(items[i]) && Text(items[i], "tag_name") == Ok(t) {
      var i :| 0 <= i < |items| && items[i].Obj? && IsPublished(items[i]) && Text(items[i], "tag_name") == Ok(t);
      assert ReleaseTag(items[i]) == Ok(Some(t));
    }
  }

  /** `tag` is the tag of the first published entry of `items`: every entry
      before it is a draft or a prerelease. */
  ghost predicate FirstPublished(items: seq<Json>, tag: string) {
    exists i :: 0 <= i < |items| && ReleaseTag(items[i]) == Ok(Some(tag)) &&
                forall j :: 0 <= j < i ==> ReleaseTag(items[j]) == Ok(None)
  }

  /** `get_gh_release_1`: the latest release of a newest-first listing is its
      FIRST published entry (by ReleaseTag's contract, neither a draft nor a
      prerelease); a listing with no published entry has none. */
  lemma ReleaseTagsLatest(items: seq<Json>)
    requires ReleaseTags(Arr(items)).Ok?
    ensures var latest := Latest(ReleaseTags(Arr(items)).value);
      && (latest.Err? <==> forall i :: 0 <= i < |items| ==> ReleaseTag(items[i]) == Ok(None))
      && (latest.Ok? ==> FirstPublished(items, latest.value))
  {
    CollectReversedEmpty(items, Reverse(items), ReleaseTag);
    if ReleaseTags(Arr(items)).value != [] {
      CollectReversedLast(items, Reverse(items), ReleaseTag);
    }
  }
}
