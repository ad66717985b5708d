/** `main` (get_tag.py:315-354) with its parsed arguments as a record: the
    published tags of the target image, the first provider option given, the
    version it resolves, and the line printed when that version is new. */
module Selector {
  import opened Wrappers
  import opened Json
  import opened Listing
  import opened Providers
  import Reference

  /** `_CR_COICES` before the alias (get_tag.py:20-26): keyword to
      `strftime` format. */
  const BaseFormats: map<string, string> := map[
    "hourly" := "%Y-%m-%dT%H",
    "daily" := "%Y-%m-%d",
    "weekly" := "%Y-W%V",
    "monthly" := "%Y-%m",
    "yearly" := "%Y"
  ]

  /** `_CR_COICES` with `annually` added as a copy of `yearly`
      (get_tag.py:27). */
  const CalendarFormats: map<string, string> := BaseFormats["annually" := BaseFormats["yearly"]]

  /** `get_cron_tag`: the current UTC time rendered with the keyword's
      format; `render` stands for `datetime.now(UTC).strftime`. An unknown
      keyword is a KeyError. */
  function CronTag(keyword: string, render: string -> string): (r: Result<string>)
    ensures r.Ok? <==> keyword in {"hourly", "daily", "weekly", "monthly", "yearly", "annually"}
    ensures keyword == "hourly" ==> r == Ok(render("%Y-%m-%dT%H"))
    ensures keyword == "daily" ==> r == Ok(render("%Y-%m-%d"))
    ensures keyword == "weekly" ==> r == Ok(render("%Y-W%V"))
    ensures keyword == "monthly" ==> r == Ok(render("%Y-%m"))
    ensures keyword in {"yearly", "annually"} ==> r == Ok(render("%Y"))
    ensures r.Err? ==> r.error == UnknownKeyword
  {
    if keyword in CalendarFormats then Ok(render(CalendarFormats[keyword])) else Err(UnknownKeyword)
  }

  /** `yearly` and `annually` render the same string at the same instant. */
  lemma YearlyIsAnnually(render: string -> string)
    ensures CronTag("yearly", render) == CronTag("annually", render)
  {
  }

  /** `get_docker_tags`: the names listed under `results`, in order. An empty
      repository means nothing is published yet, and nothing is fetched. */
  function PublishedTags(repository: string, net: Network): (r: Result<seq<string>>)
    ensures repository == "" ==> r == Ok([])
    ensures repository != "" && Fetch(net, DockerTags(repository)).Err? ==> r == Err(FetchFailed)
    ensures repository != "" && Fetch(net, DockerTags(repository)).Ok? ==>
              var results := Member(Fetch(net, DockerTags(repository)).value, "results");
              && (results.Err? ==> r == Err(Malformed))
              && (results.Ok? && Elements(results.value).Err? ==> r == Err(Malformed))
              && (results.Ok? && Elements(results.value).Ok? ==> r == Project(Elements(results.value).value, "name"))
    ensures repository != "" && r.Ok? ==>
              exists body, results :: Fetch(net, DockerTags(repository)) == Ok(body) &&
                Member(body, "results") == Ok(results) && Elements(results).Ok? &&
                Project(Elements(results).value, "name") == r
  {
    if repository == "" then Ok([])
    else
      var body :- Fetch(net, DockerTags(repository));
      var results :- Member(body, "results");
      var entries :- Elements(results);
      Project(entries, "name")
  }

  /** The published tags of the empty repository do not depend on the
      network at all. */
  lemma EmptyRepositoryNeedsNoFetch(net1: Network, net2: Network)
    ensures PublishedTags("", net1) == PublishedTags("", net2) == Ok([])
  {
  }

  /** The parsed command line: the positional image repository and the ten
      mutually exclusive options (absent, or a string that may be empty). */
  datatype Args = Args(
    dockerTag: string,
    pip: Option<string>,
    npm: Option<string>,
    go: Option<string>,
    ghCommit: Option<string>,
    ghTag: Option<string>,
    ghRelease: Option<string>,
    ghDeployment: Option<string>,
    glCommit: Option<string>,
    glTag: Option<string>,
    cr: Option<string>)

  /** `if args.x:` — an option counts only when present and non-empty. */
  predicate Given(option: Option<string>) {
    option.Some? && option.value != ""
  }

  /** The provider main calls, with its argument. */
  datatype Choice =
    | PipOption(package: string)
    | NpmOption(package: string)
    | GoOption(modulePath: string)
    | GhCommitOption(reference: string)
    | GhTagOption(reference: string)
    | GhReleaseOption(reference: string)
    | GhDeploymentOption(reference: string)
    | GlCommitOption(reference: string)
    | GlTagOption(reference: string)
    | CronOption(keyword: string)

  /** The options in the order main tests them. */
  function Options(args: Args): seq<Option<string>> {
    [args.pip, args.npm, args.go, args.ghCommit, args.ghTag, args.ghRelease,
     args.ghDeployment, args.glCommit, args.glTag, args.cr]
  }

  /** The provider the i-th option selects. */
  function ChoiceAt(i: nat, value: string): Choice
    requires i < 10
  {
    [PipOption(value), NpmOption(value), GoOption(value), GhCommitOption(value), GhTagOption(value),
     GhReleaseOption(value), GhDeploymentOption(value), GlCommitOption(value), GlTagOption(value),
     CronOption(value)][i]
  }

  /** main's if/elif chain (get_tag.py:331-352). */
  function Select(args: Args): (r: Result<Choice>)
    ensures r.Err? ==> r.error == NoProvider
  {
    if Given(args.pip) then Ok(PipOption(args.pip.value))
    else if Given(args.npm) then Ok(NpmOption(args.npm.value))
    else if Given(args.go) then Ok(GoOption(args.go.value))
    else if Given(args.ghCommit) then Ok(GhCommitOption(args.ghCommit.value))
    else if Given(args.ghTag) then Ok(GhTagOption(args.ghTag.value))
    else if Given(args.ghRelease) then Ok(GhReleaseOption(args.ghRelease.value))
    else if Given(args.ghDeployment) then Ok(GhDeploymentOption(args.ghDeployment.value))
    else if Given(args.glCommit) then Ok(GlCommitOption(args.glCommit.value))
    else if Given(args.glTag) then Ok(GlTagOption(args.glTag.value))
    else if Given(args.cr) then Ok(CronOption(args.cr.value))
    else Err(NoProvider)
  }

  /** The chain picks the FIRST given option in main's order, and fails with
      NotImplementedError exactly when none is given. */
  lemma SelectFirstGiven(args: Args)
    ensures var options := Options(args);
      && (Select(args).Err? <==> forall i :: 0 <= i < 10 ==> !Given(options[i]))
      && (Select(args).Ok? ==>
            exists i :: 0 <= i < 10 && Given(options[i]) &&
                        Select(args).value == ChoiceAt(i, options[i].value) &&
                        forall j :: 0 <= j < i ==> !Given(options[j]))
  {
    var options := Options(args);
    if Select(args).Ok? {
      var i := if Given(args.pip) then 0 else if Given(args.npm) then 1 else if Given(args.go) then 2
        else if Given(args.ghCommit) then 3 else if Given(args.ghTag) then 4
        else if Given(args.ghRelease) then 5 else if Given(args.ghDeployment) then 6
        else if Given(args.glCommit) then 7 else if Given(args.glTag) then 8 else 9;
      assert Given(options[i]) && Select(args).value == ChoiceAt(i, options[i].value);
      assert forall j :: 0 <= j < i ==> !Given(options[j]);
    }
  }

  /** The version the chosen provider resolves: each option reaches its own
      provider, with the option's value as the argument. */
  function Resolve(choice: Choice, net: Network, render: string -> string): (r: Result<string>)
    ensures choice.PipOption? ==> r == PipVersion(choice.package, net)
    ensures choice.NpmOption? ==> r == NpmVersion(choice.package, net)
    ensures choice.GoOption? ==> r == GoVersion(choice.modulePath, net)
    ensures choice.GhCommitOption? ==> r == GhCommit(choice.reference, net)
    ensures choice.GhCommitOption? && Reference.GhCommitQuery(choice.reference).Err? ==> r == Err(BadReference)
    ensures choice.GhTagOption? ==> r == GhTag(choice.reference, net)
    ensures choice.GhReleaseOption? ==> r == GhRelease(choice.reference, net)
    ensures choice.GhDeploymentOption? ==> r == GhDeployment(choice.reference, net)
    ensures choice.GlCommitOption? ==> r == GlCommit(choice.reference, net)
    ensures choice.GlTagOption? ==> r == GlTag(choice.reference, net)
    ensures choice.CronOption? ==> r == CronTag(choice.keyword, render)
  {
    match choice
    case PipOption(package) => PipVersion(package, net)
    case NpmOption(package) => NpmVersion(package, net)
    case GoOption(modulePath) => GoVersion(modulePath, net)
    case GhCommitOption(reference) => GhCommit(reference, net)
    case GhTagOption(reference) => GhTag(reference, net)
    case GhReleaseOption(reference) => GhRelease(reference, net)
    case GhDeploymentOption(reference) => GhDeployment(reference, net)
    case GlCommitOption(reference) => GlCommit(reference, net)
    case GlTagOption(reference) => GlTag(reference, net)
    case CronOption(keyword) => CronTag(keyword, render)
  }

  /** The line main prints: `tag=<t>` when `t` is not published yet,
      nothing otherwise. */
  function Announce(tag: string, tags: seq<string>): (line: Option<string>)
    ensures line.Some? <==> tag !in tags
    ensures line.Some? ==> |line.value| == 4 + |tag| && line.value[..4] == "tag=" && line.value[4..] == tag
  {
    if tag !in tags then Some("tag=" + tag) else None
  }

  /** `main`: the published tags are fetched FIRST, so a failure there wins
      over a missing option; then the chain, the provider and the decision. */
  function Main(args: Args, net: Network, render: string -> string): (r: Result<Option<string>>)
    ensures PublishedTags(args.dockerTag, net).Err? ==> r == Err(PublishedTags(args.dockerTag, net).error)
    ensures PublishedTags(args.dockerTag, net).Ok? && Select(args).Err? ==> r == Err(NoProvider)
    ensures r.Ok? ==> Select(args).Ok? && Resolve(Select(args).value, net, render).Ok?
    ensures PublishedTags(args.dockerTag, net).Ok? && Select(args).Ok? &&
            Resolve(Select(args).value, net, render).Err? ==>
              r == Err(Resolve(Select(args).value, net, render).error)
  {
    var tags :- PublishedTags(args.dockerTag, net);
    var choice :- Select(args);
    var tag :- Resolve(choice, net, render);
    Ok(Announce(tag, tags))
  }

  /** main prints `tag=<t>` exactly when the selected provider resolves `t`
      and `t` is not among the published tags. */
  lemma MainAnnouncesNovelTag(args: Args, net: Network, render: string -> string, line: string)
    ensures Main(args, net, render) == Ok(Some(line)) <==>
              exists tags, choice, tag ::
                && PublishedTags(args.dockerTag, net) == Ok(tags)
                && Select(args) == Ok(choice)
                && Resolve(choice, net, render) == Ok(tag)
                && tag !in tags && line == "tag=" + tag
  {
    if Main(args, net, render) == Ok(Some(line)) {
      var tags := PublishedTags(args.dockerTag, net).value;
      var choice := Select(args).value;
      var tag := Resolve(choice, net, render).value;
      assert PublishedTags(args.dockerTag, net) == Ok(tags) && Select(args) == Ok(choice)
          && Resolve(choice, net, render) == Ok(tag) && tag !in tags && line == "tag=" + tag;
    }
  }

  /** main prints nothing exactly when the selected provider resolves a tag
      that is already published. */
  lemma MainSilentOnPublishedTag(args: Args, net: Network, render: string -> string)
    ensures Main(args, net, render) == Ok(None) <==>
              exists tags, choice, tag ::
                && PublishedTags(args.dockerTag, net) == Ok(tags)
                && Select(args) == Ok(choice)
                && Resolve(choice, net, render) == Ok(tag)
                && tag in tags
  {
    if Main(args, net, render) == Ok(None) {
      var tags := PublishedTags(args.dockerTag, net).value;
      var choice := Select(args).value;
      var tag := Resolve(choice, net, render).value;
      assert PublishedTags(args.dockerTag, net) == Ok(tags) && Select(args) == Ok(choice)
          && Resolve(choice, net, render) == Ok(tag) && tag in tags;
    }
  }

  /** Without any provider option main fails: with NotImplementedError once
      the published tags are fetched, with the fetch's error otherwise. */
  lemma MainWithoutProvider(args: Args, net: Network, render: string -> string)
    requires forall i :: 0 <= i < 10 ==> !Given(Options(args)[i])
    ensures Main(args, net, render).Err?
    ensures PublishedTags(args.dockerTag, net).Ok? ==> Main(args, net, render) == Err(NoProvider)
  {
    SelectFirstGiven(args);
  }
}
