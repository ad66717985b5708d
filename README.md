# get_tag — a verified model of the tag decision

`get_tag.py` works out the latest upstream version of something and prints
`tag=<version>` when that version is not yet among the tags of a Docker Hub
repository. The upstream can be:

- a PyPI package, an npm package or a Go module;
- a GitHub commit, tag, release or deployment;
- a GitLab commit or tag;
- the calendar.

This project models the decision layer of that tool in Dafny and proves what
it promises:

- **Repository references.** References are written
  `owner/repo[/path][:branch][@base]` and split at the first `@`, then the
  first `:`, then the first two `/` (module `Reference`).
- **The retry schedule of `_urlopen`.** At most four attempts, with pauses of
  30, 60 and 90 seconds between them. This is stated as the recursive function
  `Open` and implemented as the loop method `UrlOpen` (module `Fetcher`).
- **Response normalisation.** Newest-first listings are reversed and one field
  is projected. Releases are filtered for drafts and prereleases. PyPI
  releases are filtered for empty and yanked ones and sorted by upload time.
  Also covered: the GitLab numeric project id shortcut and the `[-1]` getters
  (modules `Json`, `Listing`, `Pypi`, `Providers`).
- **`main`.** It fetches the published tags, picks the first provider option
  that is given, resolves the version, and decides whether it is new
  (module `Selector`).
- **Worked examples (proved).** What the tool does on fixed upstream answers (module `Scenarios`).

The model replaces the outside world as follows:

- **Network.** A `Network` is a function from an `Endpoint` and an attempt
  number to what that attempt gets: a response with a status and a decoded
  body, or an exception.
- **Decoded JSON.** It is the `Json` datatype. An object keeps its members in
  document order, so Python's dict behaviour is modelled exactly: the last
  value wins, and keys are iterated in first-occurrence order.
- **The clock and `strftime`.** Together they become a `render` parameter.
- **Sleeps and stderr lines.** They are recorded in a trace rather than
  performed.
- **Exceptions.** Each exception family that escapes `main` is an `Error`:
  - `FetchFailed`: urllib errors or a non-200 status on the last attempt;
  - `Malformed`: KeyError or TypeError on a response;
  - `NoVersion`: IndexError from `[-1]`;
  - `BadReference`: a ValueError from unpacking a reference without `/`;
  - `UnknownKeyword`: a KeyError on the calendar table;
  - `NoProvider`: NotImplementedError.

Behaviour of the code worth knowing:

- **The published-tags fetch runs first.** `main` fetches the published tags
  (get_tag.py:330) before its option chain. So a missing provider option is
  reported only after that fetch, not before any network call.
- **Multiple options are not rejected.** Options set through environment
  variables bypass argparse's mutual exclusion, so the first given option in
  main's order wins.
- **Calendar keywords from the environment are not checked.** A keyword that
  comes from an environment variable bypasses argparse's `choices`. An unknown
  one is therefore a KeyError in `get_cron_tag`, after the tags are fetched.
- **Tags are a list, not a set.** The published tags are a list. Novelty is
  membership in it.

## Model

| member | source | states |
|---|---|---|
| Reference.Count | get_tag.py:195 | the count of `c` is at most the length, and zero exactly when `c` does not occur |
| Reference.CountOccurrences | get_tag.py:195 | `s.count(c)` is the number of occurrences of `c` in `s` (its multiplicity in the multiset of characters) |
| Reference.SplitOnce | get_tag.py:185 | `split(sep, 1)` gives a head with no separator that reassembles the input with `sep` and the tail |
| Reference.SplitOnceUnique | get_tag.py:182-185 | splitting `head + sep + tail`, where `head` has no separator, gives back exactly `(head, tail)` |
| Reference.SplitBase | get_tag.py:182-185 | without `@` the result is the reference with the default base; otherwise the repository has no `@` and `repo + "@" + base` is the input |
| Reference.SplitBranch | get_tag.py:188-191 | without `:` the branch is the empty default; otherwise the repository has no `:` and `repo + ":" + branch` is the input |
| Reference.SplitPath | get_tag.py:194-198 | no `/` fails with BadReference; exactly one `/` gives `(input, "")`; two or more give an `owner/repo` with exactly one `/` that reassembles the input with the path |
| Reference.SplitTwice | get_tag.py:197-198 | `split("/", 2)` rejoined: the first part holds exactly one `/` and `first + "/" + path` is the input |
| Reference.GhCommitQuery | get_tag.py:205-208 | the GitHub commit decomposition fails exactly when no `/` is left after the base and the branch are taken off |
| Reference.GlCommitQuery | get_tag.py:279-281 | a reference with neither `@` nor `:` is the project on gitlab.com at the default branch |
| Reference.RepositoryPathSplit | get_tag.py:194-198 | `owner/name/path` splits into `owner/name` and `path`, whatever `/`s the path holds |
| Reference.SplitPathUnique | get_tag.py:194-198 | a path split is determined by its parts: `repo + "/" + path` with one `/` in `repo` splits back into them |
| Reference.GhCommitQueryRoundTrip | get_tag.py:205-208 | a fully written `owner/name/path:branch@base` decomposes into exactly its base, repository, branch and path |
| Reference.GhCommitQueryDefaults | get_tag.py:205-208 | a bare `owner/name` takes the api.github.com base, the empty branch and the empty path |
| Reference.GlCommitQueryRoundTrip | get_tag.py:279-281 | a fully written `project:branch@base` decomposes into exactly its base, project and branch |
| Json.Lookup | get_tag.py:56 | `d[key]` on a decoded object: absent exactly when no member has the key, otherwise the value of the LAST member with that key |
| Json.Keys | get_tag.py:57-60 | iterating a dict yields each key once, exactly the keys present |
| Json.KeysInOrder | get_tag.py:57-60 | keys come in first-occurrence order: the keys of any prefix of the members are a prefix of the keys |
| Json.Member | get_tag.py:56 | `j[key]` succeeds exactly on an object holding the key, with Lookup's value; otherwise Malformed |
| Json.First | get_tag.py:58 | `j[0]` succeeds exactly on a non-empty array and gives its first item |
| Json.Text | get_tag.py:211 | reading `record[key]` as an identifier succeeds exactly when the member exists and is a string |
| Fetcher.Open | get_tag.py:30-43 | a call with `retries` left makes between 1 and `retries + 1` attempts with one pause fewer than attempts, and can only fail with FetchFailed |
| Fetcher.OpenPauses | get_tag.py:38-42 | between 1 and `retries + 1` attempts, one pause fewer than attempts, the k-th pause 30 times its overall attempt number (`Backoff`, get_tag.py:39) |
| Fetcher.OpenLog | get_tag.py:31-32 | the stderr lines are the URL (from the outermost call only), then one `sleep=` line per pause, in order |
| Fetcher.OpenOutcome | get_tag.py:33-43 | attempts stop at the first success (`Succeeded`: a response with status 200, get_tag.py:35), whose body is returned; the call fails with FetchFailed exactly when every attempt up to the last retry failed, and in that case it has run all `retries + 1` attempts |
| Fetcher.UrlOpenSchedule | get_tag.py:30-43 | a top-level call makes at most 4 attempts, sleeps 30, 60, 90 in that order as needed, succeeds exactly when some attempt does, and logs the URL once before the pauses |
| Fetcher.UrlOpen | get_tag.py:30-43 | the loop that counts the retries down produces exactly the trace of the recursive call |
| Fetcher.RetryLaw | get_tag.py:30-43 | fail, fail, succeed returns the third body after sleeps [30, 60], with the log `url`, `sleep=30`, `sleep=60` |
| Listing.Reverse | get_tag.py:211 | `reversed`: same length, element i is element `n-1-i` of the input |
| Listing.Elements | get_tag.py:211 | iterating a decoded value: the items of an array; the keys of an object, each once in the order of `Keys` (see KeysInOrder); the characters of a string, one by one; anything else is Malformed |
| Listing.Project | get_tag.py:211 | the comprehension succeeds exactly when every entry has a string `key`, giving those values in order |
| Listing.NewestFirst | get_tag.py:222 | for an array listing, the projected field of every entry in reverse order, same length; fails exactly when some entry lacks it |
| Listing.Latest | get_tag.py:215 | `[-1]` is the last element and fails with NoVersion exactly on the empty list |
| Listing.NewestOf | get_tag.py:225-226 | on an array it succeeds exactly when the listing is non-empty and EVERY entry has a string field, and then gives the field of its FIRST entry; an empty listing gives NoVersion, a missing field anywhere Malformed; a non-array is NoVersion when empty and Malformed otherwise |
| Listing.ReleaseTag | get_tag.py:234-236 | an entry is kept with its `tag_name` exactly when it is neither a draft nor a prerelease; it is skipped exactly when `draft` is truthy, or `draft` is falsy and `prerelease` truthy (`Truthy` is Python's truth value of a decoded value) |
| Listing.Collect | get_tag.py:233-237 | a filtering comprehension succeeds exactly when every step does, and otherwise fails with some step's error |
| Listing.CollectMembers | get_tag.py:233-237 | exactly the values some entry keeps come out |
| Listing.CollectEmpty | get_tag.py:233-237 | nothing comes out exactly when every entry is skipped |
| Listing.CollectLast | get_tag.py:233-237 | the last value out belongs to an entry after which every entry is skipped |
| Listing.ReleaseTags | get_tag.py:229-237 | on an array listing the release list succeeds exactly when every entry's filter does; an empty object or string gives `[]` and any other non-array Malformed; errors are Malformed |
| Listing.ReleaseTagsKept | get_tag.py:233-237 | a tag is listed exactly when some entry's filter keeps it |
| Listing.ReleaseTagsMembers | get_tag.py:233-237 | a tag is listed exactly when it is the `tag_name` of an entry that is neither a draft nor a prerelease |
| Listing.CollectReverse | get_tag.py:233-237 | a comprehension over the reversed entries keeps the same values with the same multiplicity, in reverse order |
| Listing.ReleaseTagsInOrder | get_tag.py:229-237 | the release list is the reverse of what the filter keeps from the newest-first listing, i.e. oldest first, each published release once |
| Listing.ReleaseTagsLatest | get_tag.py:240-241 | there is no latest release exactly when every entry is skipped; otherwise it is the tag of the first published entry of the newest-first listing |
| Pypi.StrLessTotal | get_tag.py:61-63 | Python's `str <` (`StrLess`, code-point order) is total: two different strings are ordered one way or the other |
| Pypi.Insert | get_tag.py:61-63 | inserting into a time-sorted list keeps it sorted and adds exactly that upload |
| Pypi.SortByTime | get_tag.py:61-63 | `sorted(key=upload time)` is ordered by time and a permutation of its input |
| Pypi.Candidate | get_tag.py:57-62 | a release is dropped exactly when its file list is falsy or its first file's `yanked` is truthy; a readable non-yanked release is KEPT with its name and its first file's upload time; it fails, with Malformed, exactly when a truthy file list has no readable first file, `yanked` or string upload time |
| Pypi.CandidateOf | get_tag.py:57-58 | reading a release's files by its key can only fail with Malformed |
| Pypi.Kept | get_tag.py:57-60 | the filter succeeds exactly when the files of every key can be read; otherwise Malformed |
| Pypi.KeptMembers | get_tag.py:57-60 | an upload is kept exactly when its version is a key of `releases` whose files make that candidate |
| Pypi.PipReleases | get_tag.py:53-63 | needs a `releases` member; an empty list or string there gives `[]`, any other non-object Malformed; for an object it succeeds exactly when the filter does, and is sorted by upload time and a permutation of the releases the filter keeps; errors are Malformed |
| Pypi.PipVersions | get_tag.py:53-63 | the version list succeeds exactly when the sorted releases do and holds their versions in the same order |
| Pypi.LastIsNewest | get_tag.py:61-63 | the last upload of a time-sorted list is no earlier than any other |
| Pypi.PipVersionIsNewest | get_tag.py:81-82 | there is no latest version exactly when nothing is kept; otherwise it is a kept release that no other kept release was uploaded after |
| Providers.Fetch | get_tag.py:30-43 | a fetch succeeds exactly when one of attempts 0..3 succeeds, with the body of the first success; otherwise FetchFailed |
| Providers.PipVersion | get_tag.py:99-100 | a failed fetch gives FetchFailed, unreadable releases Malformed; otherwise the last of the sorted versions (NoVersion when none is kept), a kept release uploaded no earlier than any other kept one |
| Providers.NpmVersion | get_tag.py:124-127 | a failed fetch gives FetchFailed; otherwise the result is reading `dist-tags`, then its string `latest`, from the body |
| Providers.GoVersion | get_tag.py:168-171 | a failed fetch gives FetchFailed; otherwise the result is reading the string `Version` of the `@latest` body |
| Providers.NewestCommit | get_tag.py:209-215 | a failed fetch gives FetchFailed; otherwise the result is NewestOf the listing on `sha`, so a listing with any entry lacking `sha` fails |
| Providers.GhCommit | get_tag.py:205-215 | a reference without a path separator fails with BadReference before anything is fetched; otherwise the newest commit of its query |
| Providers.GhTag | get_tag.py:218-226 | a failed fetch gives FetchFailed; otherwise the result is NewestOf the tag listing on `name` |
| Providers.GhReleaseFromList | get_tag.py:229-241 | a failed fetch gives FetchFailed; on an array listing any unreadable entry gives Malformed; on a readable one it succeeds exactly when some entry is published, with the tag of the first published entry, and otherwise fails with NoVersion |
| Providers.GhRelease | get_tag.py:244-252 | a failed fetch gives FetchFailed; otherwise the result is reading the string `tag_name` of the `/releases/latest` body |
| Providers.GhDeployment | get_tag.py:255-263 | a failed fetch gives FetchFailed; otherwise the result is NewestOf the deployment listing on `sha` |
| Providers.DecimalRoundTrip | get_tag.py:271-272 | `int()` (`DigitsValue`) of the decimal spelling of a project id is the id; the spelling itself (`Decimal`) passes `isdigit()` (`IsDigits`) |
| Providers.GlProjectId | get_tag.py:270-276 | an all-digit reference is its own id with no fetch; for any other a failed fetch gives FetchFailed, an integer `id` is the result, anything else Malformed |
| Providers.GlCommit | get_tag.py:279-288 | an unresolved project id fails with its error before the listing is fetched; a failed fetch gives FetchFailed; otherwise the result is NewestOf the commit listing on `id` |
| Providers.GlTag | get_tag.py:291-299 | an unresolved project id fails with its error before the listing is fetched; a failed fetch gives FetchFailed; otherwise the result is NewestOf the tag listing on `name` |
| Selector.CronTag | get_tag.py:302-304 | defined exactly for the six keywords; `hourly` renders `%Y-%m-%dT%H`, `daily` `%Y-%m-%d`, `weekly` `%Y-W%V`, `monthly` `%Y-%m`, `yearly` and `annually` `%Y`; any other keyword is UnknownKeyword |
| Selector.YearlyIsAnnually | get_tag.py:27 | `yearly` and `annually` give the same tag at the same instant |
| Selector.PublishedTags | get_tag.py:307-312 | the empty repository has no tags; for any other a failed fetch gives FetchFailed, a missing or non-iterable `results` Malformed, and otherwise the `name`s of the entries under `results`, in order |
| Selector.EmptyRepositoryNeedsNoFetch | get_tag.py:308-309 | the tags of the empty repository are `[]` whatever the network does |
| Selector.Select | get_tag.py:331-352 | the chain fails only with NoProvider |
| Selector.SelectFirstGiven | get_tag.py:331-352 | the chain picks the first option in main's order that is `Given` (present and non-empty, Python's truth value of the option), and fails exactly when none is given |
| Selector.Resolve | get_tag.py:331-350 | each of the ten options reaches its own provider with the option's value: `--pip` PipVersion, `--npm` NpmVersion, `--go` GoVersion, `--gh-commit` GhCommit (BadReference without `/`), `--gh-tag` GhTag, `--gh-release` GhRelease, `--gh-deployment` GhDeployment, `--gl-commit` GlCommit, `--gl-tag` GlTag, `--cr` the calendar table |
| Selector.Main | get_tag.py:315-354 | a failed tag fetch is main's error; with the tags fetched and no option, NotImplementedError; a failing provider's error escapes main unchanged; main succeeds only when a provider is chosen and resolves |
| Selector.Announce | get_tag.py:353-354 | a line is printed exactly when the tag is not published, and it is `tag=` followed by the tag |
| Selector.MainAnnouncesNovelTag | get_tag.py:330-354 | main prints `tag=t` exactly when the tags are fetched, a provider is chosen, it resolves `t`, and `t` is not published |
| Selector.MainSilentOnPublishedTag | get_tag.py:353-354 | main prints nothing exactly when the tags are fetched, a provider is chosen, it resolves `t`, and `t` is already published |
| Selector.MainWithoutProvider | get_tag.py:330-352 | with no option given main fails, with NotImplementedError once the tags are fetched |
| Scenarios.FileCandidate | get_tag.py:57-62 | a release whose only file is not yanked is kept with that file's upload time |
| Scenarios.TwoReleasesKept | get_tag.py:57-60 | two releases with one non-yanked file each are both kept, in key order |
| Scenarios.TwoUploadsSorted | get_tag.py:61-63 | two uploads are swapped exactly when the second was uploaded strictly earlier |
| Scenarios.TwoReleasesSorted | get_tag.py:53-63 | PyPI's two releases come out by upload time, not by key order |
| Scenarios.ServeFetch | get_tag.py:30-36 | an upstream that answers 200 at once is fetched on the first attempt |
| Scenarios.PipResolvesLast | get_tag.py:99-100 | the pip provider resolves to the last of the sorted versions |
| Scenarios.PipAnnouncesNewest | get_tag.py:330-354 | with nothing published, `--pip` prints the newest version |
| Scenarios.PipAlreadyPublished | get_tag.py:353-354 | when the newest version is already published, `--pip` prints nothing |
| Scenarios.TwoReleasesAnnounceSecond | get_tag.py:330-354 | two releases uploaded in key order and nothing published: main announces the second |
| Scenarios.TwoReleasesAnnounced | get_tag.py:330-354 | PyPI lists `1.0.0` then `1.1.0`, uploaded in that order, and nothing is published: main announces `1.1.0` |
| Scenarios.ReleaseEntryFields | get_tag.py:234-236 | a non-draft entry is kept with its tag exactly when it is not a prerelease |
| Scenarios.PrereleaseSkipped | get_tag.py:233-241 | for a published `v2` listed before a prerelease `v1`, only `v2` is listed, and it is the latest |

## Left out

- The subprocess strategies are not part of this model: `get_pip_versions_1/3`, `get_pip_version_1/3/4`, `get_npm_versions_2`, `get_npm_version_2`, `get_go_versions_2` and `get_go_version_2`. They parse the output of external tools, and `main` does not reach them.
- `get_go_versions_1` is not modelled: it always raises NotImplementedError.
- `get_pip_versions`, `get_npm_versions`, `get_npm_versions_1` and `get_go_versions` are not modelled: `main` never reaches them. `get_pip_versions_2` is modelled as `Pypi.PipVersions`.
- URLs are replaced by the `Endpoint` each f-string addresses. String building and the `%2F` escaping of GitLab paths are not modelled.
- HTTP and `json.loads` are not modelled. A response is a status and an already-decoded `Json` value. JSON numbers are integers here; floats are not modelled.
- `time.sleep` and the stderr prints are recorded in the trace as durations and lines, not performed.
- `datetime.now(UTC).strftime` is the `render` parameter. No formatting of the current instant is modelled.
- argparse and `os.environ` are not modelled. `main` takes an already-parsed `Args` record in which every option is absent or a string, possibly empty. argparse's `choices` on `--cr` is not enforced, which matches what happens to values taken from the environment.
- Text: a field read as an identifier must be a string. Python would return a number or an object unchanged; the model reports Malformed.
- GlProjectId: a non-integer `id` is reported as Malformed. Python would interpolate whatever it got into the next URL. `isdigit` is restricted to ASCII digits, while Python also accepts other Unicode digits.
- SortByTime: the contract states sorted and permutation only. The stability of Python's `sorted` is built into `Insert` but not stated. Only releases with equal upload times depend on it.
- Pypi.Candidate: the sort key must be a string, compared by code point as Python's `str <` does. A non-string key is reported as Malformed.
- The `/releases/latest` endpoint and the filtered `/releases` listing are modelled separately. Nothing relates them, because they are different upstream answers.
- Python's `assert 200 == response.status` is modelled as a failed attempt. Running under `python -O` would disable it; that case is not modelled.
- PipReleases: an empty list or string under `releases` gives no versions, as iterating it in Python does. Any other non-object there is reported as Malformed. For null, a boolean, a number, a non-empty string or a list of non-integers Python also fails with a TypeError. A non-empty list of integers would be indexed by its own items; that case is not modelled.
- PipVersionIsNewest: when several kept releases share the latest upload time, the contract says only that the result is one of them. Python's stable sort makes it the last of them in key order; that tie-break is not stated.
- PipVersion: the same tie-break is not stated. Among releases with equal upload times, the contract picks no particular one.
