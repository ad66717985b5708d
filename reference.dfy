/** Decomposition of repository references of the form
    `owner/repo[/path][:branch][@base]` (get_tag.py:182-198). Each splitter
    cuts at the FIRST occurrence of its separator, so the base suffix is
    taken off first, then the branch, then the path. */
module Reference {
  import opened Wrappers

  const SepBranch: char := ':'
  const SepBase: char := '@'
  const SepPath: char := '/'
  const DefaultBranch: string := ""
  const DefaultGhBase: string := "https://api.github.com"
  const DefaultGlBase: string := "https://gitlab.com"

  /** `s.count(c)` */
  function Count(s: string, c: char): (n: nat)
    ensures n <= |s|
    ensures n == 0 <==> c !in s
  {
    if s == [] then 0 else (if s[0] == c then 1 else 0) + Count(s[1..], c)
  }

  /** `s.count(c)` is the number of occurrences of `c` in `s`. */
  lemma {:induction false} CountOccurrences(s: string, c: char)
    ensures Count(s, c) == multiset(s)[c]
  {
    if s != [] {
      assert s == [s[0]] + s[1..];
      CountOccurrences(s[1..], c);
    }
  }

  lemma {:induction false} CountAppend(a: string, b: string, c: char)
    ensures Count(a + b, c) == Count(a, c) + Count(b, c)
  {
    if a == [] {
      assert a + b == b;
    } else {
      assert (a + b)[1..] == a[1..] + b;
      CountAppend(a[1..], b, c);
    }
  }

  /** `s.split(sep, 1)` when `sep` occurs in `s`: the part before the first
      `sep` and everything after it. */
  function SplitOnce(s: string, sep: char): (r: (string, string))
    requires sep in s
    ensures sep !in r.0 && r.0 + [sep] + r.1 == s
  {
    if s[0] == sep then ([], s[1..])
    else
      var (head, tail) := SplitOnce(s[1..], sep);
      ([s[0]] + head, tail)
  }

  /** Cutting at the first separator is the only way to write `s` as
      `head + [sep] + tail` with no separator in `head`. */
  lemma {:induction false} SplitOnceUnique(head: string, tail: string, sep: char)
    requires sep !in head
    ensures SplitOnce(head + [sep] + tail, sep) == (head, tail)
  {
    var s := head + [sep] + tail;
    if head != [] {
      assert s[0] == head[0] != sep && s[1..] == head[1..] + [sep] + tail;
      SplitOnceUnique(head[1..], tail, sep);
      assert head == [head[0]] + head[1..];
    } else {
      assert s[1..] == tail;
    }
  }

  /** `_get_repository_base`: the reference and its API base, the default
      base when the reference names none. */
  function SplitBase(repository: string, defaultBase: string): (r: (string, string))
    ensures SepBase !in repository ==> r == (repository, defaultBase)
    ensures SepBase in repository ==> SepBase !in r.0 && r.0 + [SepBase] + r.1 == repository
  {
    var s := if SepBase !in repository then repository + [SepBase] + defaultBase else repository;
    assert SepBase !in repository ==> SplitOnce(s, SepBase) == (repository, defaultBase) by {
      if SepBase !in repository { SplitOnceUnique(repository, defaultBase, SepBase); }
    }
    SplitOnce(s, SepBase)
  }

  /** `_get_repository_branch`: the reference and its branch, the empty
      default branch when the reference names none. */
  function SplitBranch(repository: string): (r: (string, string))
    ensures SepBranch !in repository ==> r == (repository, DefaultBranch)
    ensures SepBranch in repository ==> SepBranch !in r.0 && r.0 + [SepBranch] + r.1 == repository
  {
    var s := if SepBranch !in repository then repository + [SepBranch] + DefaultBranch else repository;
    assert SepBranch !in repository ==> SplitOnce(s, SepBranch) == (repository, DefaultBranch) by {
      if SepBranch !in repository { SplitOnceUnique(repository, DefaultBranch, SepBranch); }
    }
    SplitOnce(s, SepBranch)
  }

  /** `_get_repository_path`: `owner/repo` and the path below it. A reference
      with no '/' fails to unpack (ValueError); one '/' means an empty path. */
  function SplitPath(repository: string): (r: Result<(string, string)>)
    ensures r.Err? <==> SepPath !in repository
    ensures r.Err? ==> r.error == BadReference
    ensures Count(repository, SepPath) == 1 ==> r == Ok((repository, ""))
    ensures Count(repository, SepPath) >= 2 ==>
              r.Ok? && Count(r.value.0, SepPath) == 1 && r.value.0 + [SepPath] + r.value.1 == repository
  {
    var s := if Count(repository, SepPath) == 1 then repository + [SepPath] else repository;
    if SepPath !in repository then Err(BadReference)
    else
      assert Count(s, SepPath) >= 2 by {
        if Count(repository, SepPath) == 1 { CountAppend(repository, [SepPath], SepPath); }
      }
      var (repo, path) := SplitTwice(s);
      assert Count(repository, SepPath) == 1 ==> repo == repository && path == [] by {
        if Count(repository, SepPath) == 1 {
          OneSeparatorSplit(repo, path, repository, []);
        }
      }
      Ok((repo, path))
  }

  /** `s.split("/", 2)` unpacked into three parts, the first two joined again. */
  function SplitTwice(s: string): (r: (string, string))
    requires Count(s, SepPath) >= 2
    ensures Count(r.0, SepPath) == 1 && r.0 + [SepPath] + r.1 == s
  {
    var (owner, rest) := SplitOnce(s, SepPath);
    assert SepPath in rest by {
      CountAppend(owner + [SepPath], rest, SepPath);
      CountAppend(owner, [SepPath], SepPath);
    }
    var (name, path) := SplitOnce(rest, SepPath);
    assert Count(owner + [SepPath] + name, SepPath) == 1 by {
      CountAppend(owner, [SepPath], SepPath);
      CountAppend(owner + [SepPath], name, SepPath);
    }
    (owner + [SepPath] + name, path)
  }

  /** What a GitHub commit listing is asked for. */
  datatype CommitQuery = CommitQuery(base: string, repository: string, branch: string, path: string)

  /** The decomposition `get_gh_commits` applies: base, then branch, then path. */
  function GhCommitQuery(reference: string): (r: Result<CommitQuery>)
    ensures r.Err? <==> SepPath !in SplitBranch(SplitBase(reference, DefaultGhBase).0).0
  {
    var (repository, base) := SplitBase(reference, DefaultGhBase);
    var (repository', branch) := SplitBranch(repository);
    var (repository'', path) :- SplitPath(repository');
    Ok(CommitQuery(base, repository'', branch, path))
  }

  /** What a GitLab commit listing is asked for: no path split. */
  datatype RefQuery = RefQuery(base: string, repository: string, branch: string)

  /** The decomposition `get_gl_commits` applies: base, then branch. */
  function GlCommitQuery(reference: string): (r: RefQuery)
    ensures SepBase !in reference && SepBranch !in reference ==>
              r == RefQuery(DefaultGlBase, reference, DefaultBranch)
  {
    var (repository, base) := SplitBase(reference, DefaultGlBase);
    var (repository', branch) := SplitBranch(repository);
    RefQuery(base, repository', branch)
  }

  /** `owner/name/path` splits into the repository and the path. */
  lemma RepositoryPathSplit(owner: string, name: string, path: string)
    requires SepPath !in owner && SepPath !in name
    ensures SplitPath(owner + [SepPath] + name + [SepPath] + path) == Ok((owner + [SepPath] + name, path))
  {
    var repo := owner + [SepPath] + name;
    CountAppend(owner + [SepPath], name, SepPath);
    CountAppend(owner, [SepPath], SepPath);
    assert Count(repo + [SepPath] + path, SepPath) >= 2 by {
      CountAppend(repo + [SepPath], path, SepPath);
      CountAppend(repo, [SepPath], SepPath);
    }
    SplitPathUnique(repo, path);
  }

  /** A fully written GitHub commit reference decomposes into its parts. */
  lemma GhCommitQueryRoundTrip(owner: string, name: string, path: string, branch: string, base: string)
    requires SepPath !in owner && SepPath !in name
    requires SepBranch !in owner + name + path && SepBase !in owner + name + path + branch
    ensures GhCommitQuery(owner + [SepPath] + name + [SepPath] + path + [SepBranch] + branch + [SepBase] + base)
            == Ok(CommitQuery(base, owner + [SepPath] + name, branch, path))
  {
    var repo := owner + [SepPath] + name;
    var full := repo + [SepPath] + path;
    assert SepBase !in full + [SepBranch] + branch by {
      assert forall c :: c in full + [SepBranch] + branch ==> c in owner + name + path + branch || c == SepPath || c == SepBranch;
    }
    assert SepBranch !in full by {
      assert forall c :: c in full ==> c in owner + name + path || c == SepPath;
    }
    SplitOnceUnique(full + [SepBranch] + branch, base, SepBase);
    SplitOnceUnique(full, branch, SepBranch);
    RepositoryPathSplit(owner, name, path);
  }

  /** A bare `owner/name` takes the default base, the default branch and the
      repository root. */
  lemma GhCommitQueryDefaults(owner: string, name: string)
    requires SepPath !in owner && SepPath !in name
    requires SepBranch !in owner + name && SepBase !in owner + name
    ensures GhCommitQuery(owner + [SepPath] + name)
            == Ok(CommitQuery(DefaultGhBase, owner + [SepPath] + name, DefaultBranch, ""))
  {
    var repo := owner + [SepPath] + name;
    assert forall c :: c in repo ==> c in owner + name || c == SepPath;
    CountAppend(owner + [SepPath], name, SepPath);
    CountAppend(owner, [SepPath], SepPath);
  }

  /** A fully written GitLab commit reference decomposes into its parts. */
  lemma GlCommitQueryRoundTrip(project: string, branch: string, base: string)
    requires SepBranch !in project && SepBase !in project + branch
    ensures GlCommitQuery(project + [SepBranch] + branch + [SepBase] + base)
            == RefQuery(base, project, branch)
  {
    assert SepBase !in project + [SepBranch] + branch by {
      assert forall c :: c in project + [SepBranch] + branch ==> c in project + branch || c == SepBranch;
    }
    SplitOnceUnique(project + [SepBranch] + branch, base, SepBase);
    SplitOnceUnique(project, branch, SepBranch);
  }

  /** A path split is determined by its parts. */
  lemma SplitPathUnique(repo: string, path: string)
    requires Count(repo, SepPath) == 1
    ensures SplitPath(repo + [SepPath] + path) == Ok((repo, path))
  {
    var s := repo + [SepPath] + path;
    CountAppend(repo + [SepPath], path, SepPath);
    CountAppend(repo, [SepPath], SepPath);
    var r := SplitPath(s);
    assert r.Ok? && Count(r.value.0, SepPath) == 1 && r.value.0 + [SepPath] + r.value.1 == s;
    OneSeparatorSplit(r.value.0, r.value.1, repo, path);
  }

  lemma {:induction false} OneSeparatorSplit(a: string, b: string, c: string, d: string)
    requires Count(a, SepPath) == 1 && Count(c, SepPath) == 1
    requires a + [SepPath] + b == c + [SepPath] + d
    ensures a == c && b == d
  {
    var s := a + [SepPath] + b;
    assert a != [] && c != [];
    assert a[0] == s[0] == c[0];
    assert s[1..] == a[1..] + [SepPath] + b;
    assert s[1..] == c[1..] + [SepPath] + d;
    if a[0] == SepPath {
      ZeroSeparatorSplit(a[1..], b, c[1..], d);
    } else {
      OneSeparatorSplit(a[1..], b, c[1..], d);
    }
    assert a == [a[0]] + a[1..] && c == [c[0]] + c[1..];
  }

  lemma {:induction false} ZeroSeparatorSplit(a: string, b: string, c: string, d: string)
    requires SepPath !in a && SepPath !in c
    requires a + [SepPath] + b == c + [SepPath] + d
    ensures a == c && b == d
  {
    SplitOnceUnique(a, b, SepPath);
    SplitOnceUnique(c, d, SepPath);
  }
}
