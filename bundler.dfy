/** `ZzapBundler.setupBuild` and `ZzapBundler.build`: the phases of a build.
    `build` runs the build hooks, takes the requested paths (or every path
    of the site), resolves the pages and the sitemap, and runs the render
    hooks with them. Any hook error ends the build; so does a YAML error
    while resolving. */
module Bundler {
  import opened Wrappers
  import opened Strings
  import opened Pages
  import opened PageStore
  import opened PathEnumeration
  import opened Resolver
  import opened Plugins

  /** The setup phase's callback: a plugin with `onSetup` runs it. */
  function SetupHook(plugin: Plugin): Result<HookOutcome, Exception>
  {
    match plugin.onSetup
    case None => Success(Skipped)
    case Some(Failure(e)) => Failure(e)
    case Some(Success(_)) => Success(Ran(None))
  }

  /** The build phase's callback: a plugin with `onBuild` runs it, and a
      truthy result is handed on as the plugin's contribution. */
  function BuildHook(plugin: Plugin): Result<HookOutcome, Exception>
  {
    match plugin.onBuild
    case None => Success(Skipped)
    case Some(Failure(e)) => Failure(e)
    case Some(Success(contribution)) => Success(Ran(contribution))
  }

  /** The render phase's callback: a plugin with `onRender` runs it on the
      collected heads and scripts, the pages and the sitemap. */
  function RenderHook(input: RenderInput, plugin: Plugin): Result<HookOutcome, Exception>
  {
    match plugin.onRender
    case None => Success(Skipped)
    case Some(render) =>
      match render(input)
      case Failure(e) => Failure(e)
      case Success(_) => Success(Ran(None))
  }

  /** `props.paths.split(",").map((path) => path.trim())`. */
  function RequestedPaths(paths: string): (r: seq<string>)
    ensures |r| == |Split(paths, ',')|
    ensures forall i :: 0 <= i < |r| ==> ',' !in r[i]
    ensures forall i :: 0 <= i < |r| && r[i] != [] ==> !IsJsWhitespace(r[i][0]) && !IsJsWhitespace(r[i][|r[i]| - 1])
    ensures forall i :: 0 <= i < |r| ==> r[i] == Trim(Split(paths, ',')[i])
  {
    var parts := Split(paths, ',');
    seq(|parts|, i requires 0 <= i < |parts| => Trim(parts[i]))
  }

  /** The paths a build resolves: the requested ones when there are any,
      otherwise every path of the site. */
  function BuildPaths(site: Site, requested: Option<string>, markdownFiles: seq<string>): seq<string>
  {
    match requested
    case Some(paths) => RequestedPaths(paths)
    case None => AllPaths(site.routes, site.routesDir, markdownFiles, site.webJoin)
  }

  /** What a finished build leaves: the logs of its two phases, the pages
      and sitemap it rendered, and the page count it reports. */
  datatype BuildReport = BuildReport(
    buildLog: seq<string>,
    renderLog: seq<string>,
    pages: Store,
    sitemap: seq<SitemapItem>,
    rendered: nat)

  /** The outcome of `setupBuild`: the log of the setup phase or the error
      of a setup hook. */
  function Setup(core: seq<Plugin>, user: seq<Plugin>): Result<seq<string>, Exception>
  {
    match Phase(AllPlugins(core, user), SetupHook)
    case Failure(e) => Failure(e)
    case Success(report) => Success(report.log)
  }

  /** The render phase: every plugin's `onRender` hook on the same input. */
  function RenderPhase(plugins: seq<Plugin>, input: RenderInput): Result<PhaseReport, Exception>
  {
    Phase(plugins, p => RenderHook(input, p))
  }

  /** The outcome of `build`. */
  function BuildOutcome(core: seq<Plugin>, user: seq<Plugin>, site: Site, requested: Option<string>,
                        markdownFiles: seq<string>): Result<BuildReport, Exception>
  {
    var plugins := AllPlugins(core, user);
    match Phase(plugins, BuildHook)
    case Failure(e) => Failure(e)
    case Success(built) =>
      match Resolve(site, BuildPaths(site, requested, markdownFiles))
      case Failure(e) => Failure(e)
      case Success(resolved) =>
        var input := RenderInput(built.heads, built.scripts, Values(resolved.pages), resolved.sitemap);
        match RenderPhase(plugins, input)
        case Failure(e) => Failure(e)
        case Success(rendered) =>
          Success(BuildReport(built.log, rendered.log, resolved.pages, resolved.sitemap, |resolved.pages.keys|))
  }

  /** `ZzapBundler.setupBuild`. */
  method SetupBuild(core: seq<Plugin>, user: seq<Plugin>) returns (r: Result<seq<string>, Exception>)
    ensures r == Setup(core, user)
  {
    var phase := RunPluginsWithLifecycle(core, user, SetupHook);
    if phase.Failure? {
      return Failure(phase.error);
    }
    return Success(phase.value.log);
  }

  /** `ZzapBundler.build`; the scans of the routes directory are given as
      `markdownFiles`. */
  method Build(core: seq<Plugin>, user: seq<Plugin>, site: Site, requested: Option<string>, markdownFiles: seq<string>)
    returns (r: Result<BuildReport, Exception>)
    ensures r == BuildOutcome(core, user, site, requested, markdownFiles)
  {
    var built := RunPluginsWithLifecycle(core, user, BuildHook);
    if built.Failure? {
      return Failure(built.error);
    }
    var heads := built.value.heads;
    var scripts := built.value.scripts;
    var paths: seq<string>;
    if requested.Some? {
      paths := RequestedPaths(requested.value);
    } else {
      paths := GetPaths(site.routes, site.routesDir, markdownFiles, site.webJoin);
    }
    var resolved := GetPagesAndSitemap(site, paths);
    if resolved.Failure? {
      return Failure(resolved.error);
    }
    var pages := resolved.value.pages;
    var input := RenderInput(heads, scripts, Values(pages), resolved.value.sitemap);
    var rendered := RunPluginsWithLifecycle(core, user, p => RenderHook(input, p));
    if rendered.Failure? {
      return Failure(rendered.error);
    }
    return Success(BuildReport(built.value.log, rendered.value.log, pages, resolved.value.sitemap, |pages.keys|));
  }

  // ---------------------------------------------------------------------
  // Properties

  /** A build hook error ends the build with that error before any page is
      resolved: the outcome does not depend on the site or the files. */
  lemma BuildHookErrorEndsBuild(core: seq<Plugin>, user: seq<Plugin>, site: Site, other: Site,
                                requested: Option<string>, markdownFiles: seq<string>, otherFiles: seq<string>)
    requires Phase(AllPlugins(core, user), BuildHook).Failure?
    ensures BuildOutcome(core, user, site, requested, markdownFiles)
      == BuildOutcome(core, user, other, requested, otherFiles)
      == Failure(Phase(AllPlugins(core, user), BuildHook).error)
  {
  }

  /** Once the build hooks have run, a YAML error while resolving ends the
      build with the error of the first path that has one. */
  lemma MarkdownErrorEndsBuild(core: seq<Plugin>, user: seq<Plugin>, site: Site, requested: Option<string>,
                               markdownFiles: seq<string>, i: nat)
    requires Phase(AllPlugins(core, user), BuildHook).Success?
    requires var paths := BuildPaths(site, requested, markdownFiles);
      i < |paths| && MarkdownWrites(site, paths[i]).Failure?
      && forall j :: 0 <= j < i ==> MarkdownWrites(site, paths[j]).Success?
    ensures BuildOutcome(core, user, site, requested, markdownFiles)
      == Failure(MarkdownWrites(site, BuildPaths(site, requested, markdownFiles)[i]).error)
  {
    FailsExactlyOnMarkdownError(site, BuildPaths(site, requested, markdownFiles));
  }

  /** Without a hook error or a YAML error the build succeeds: route
      handlers that throw never end it. */
  lemma BuildSucceedsWithoutErrors(core: seq<Plugin>, user: seq<Plugin>, site: Site, requested: Option<string>,
                                   markdownFiles: seq<string>)
    requires forall p :: p in core + user ==> p.onBuild.None? || p.onBuild.value.Success?
    requires forall p, input :: p in core + user && p.onRender.Some? ==> p.onRender.value(input).Success?
    requires var paths := BuildPaths(site, requested, markdownFiles);
      forall i :: 0 <= i < |paths| ==> MarkdownWrites(site, paths[i]).Success?
    ensures BuildOutcome(core, user, site, requested, markdownFiles).Success?
  {
    var plugins := AllPlugins(core, user);
    var paths := BuildPaths(site, requested, markdownFiles);
    assert forall i :: 0 <= i < |plugins| ==> BuildHook(plugins[i]).Success? by {
      forall i | 0 <= i < |plugins| ensures BuildHook(plugins[i]).Success? {
        assert plugins[i] in core + user;
      }
    }
    PhaseFailsExactlyOnHookError(plugins, BuildHook);
    assert Phase(plugins, BuildHook).Success?;
    FailsExactlyOnMarkdownError(site, paths);
    assert Resolve(site, paths).Success?;
    var resolved := Resolve(site, paths).value;
    var built := Phase(plugins, BuildHook).value;
    var input := RenderInput(built.heads, built.scripts, Values(resolved.pages), resolved.sitemap);
    RenderPhaseSucceeds(plugins, input);
  }

  lemma RenderPhaseSucceeds(plugins: seq<Plugin>, input: RenderInput)
    requires forall p, given :: p in plugins && p.onRender.Some? ==> p.onRender.value(given).Success?
    ensures RenderPhase(plugins, input).Success?
  {
    var onRun := p => RenderHook(input, p);
    forall i | 0 <= i < |plugins| ensures onRun(plugins[i]).Success? {
      assert plugins[i] in plugins;
    }
    PhaseFailsExactlyOnHookError(plugins, onRun);
  }

  /** With paths requested, the build resolves exactly those, trimmed, and
      the markdown files of the site are not scanned. */
  lemma RequestedPathsOnly(core: seq<Plugin>, user: seq<Plugin>, site: Site, paths: string,
                           markdownFiles: seq<string>, otherFiles: seq<string>)
    ensures BuildOutcome(core, user, site, Some(paths), markdownFiles)
      == BuildOutcome(core, user, site, Some(paths), otherFiles)
  {
  }

  /** A successful build renders the pages resolved for its paths, with
      their sitemap, on top of the heads and scripts of the build hooks,
      and reports the logs of both phases and one page per stored path. */
  lemma BuildRendersResolvedPages(core: seq<Plugin>, user: seq<Plugin>, site: Site, requested: Option<string>, markdownFiles: seq<string>)
    requires BuildOutcome(core, user, site, requested, markdownFiles).Success?
    ensures var report := BuildOutcome(core, user, site, requested, markdownFiles).value;
      var store := ResolveAll(site, BuildPaths(site, requested, markdownFiles));
      store.Success? && report.pages == store.value && report.sitemap == Sitemap(store.value)
      && report.rendered == |report.pages.keys|
    ensures var report := BuildOutcome(core, user, site, requested, markdownFiles).value;
      var plugins := AllPlugins(core, user);
      var built := Phase(plugins, BuildHook);
      var store := ResolveAll(site, BuildPaths(site, requested, markdownFiles));
      built.Success? && store.Success? && report.buildLog == built.value.log
      && var rendered := RenderPhase(plugins, RenderInput(built.value.heads, built.value.scripts, Values(store.value), Sitemap(store.value)));
         rendered.Success? && report.renderLog == rendered.value.log
  {
  }

  /** Once the build hooks have run and the pages are resolved, an error of
      a render hook ends the build with that error. */
  lemma RenderHookErrorEndsBuild(core: seq<Plugin>, user: seq<Plugin>, site: Site, requested: Option<string>,
                                 markdownFiles: seq<string>)
    requires Phase(AllPlugins(core, user), BuildHook).Success?
    requires ResolveAll(site, BuildPaths(site, requested, markdownFiles)).Success?
    requires var built := Phase(AllPlugins(core, user), BuildHook).value;
      var store := ResolveAll(site, BuildPaths(site, requested, markdownFiles)).value;
      RenderPhase(AllPlugins(core, user), RenderInput(built.heads, built.scripts, Values(store), Sitemap(store))).Failure?
    ensures var built := Phase(AllPlugins(core, user), BuildHook).value;
      var store := ResolveAll(site, BuildPaths(site, requested, markdownFiles)).value;
      BuildOutcome(core, user, site, requested, markdownFiles)
      == Failure(RenderPhase(AllPlugins(core, user), RenderInput(built.heads, built.scripts, Values(store), Sitemap(store))).error)
  {
  }

  /** The render hooks receive the heads and scripts of the build hooks in
      registration order: the core plugins' first, then the others'. */
  lemma HeadsInRegistrationOrder(core: seq<Plugin>, user: seq<Plugin>)
    requires Outcomes(core, BuildHook).Success? && Outcomes(user, BuildHook).Success?
    ensures Outcomes(AllPlugins(core, user), BuildHook).Success?
    ensures Collected(Outcomes(AllPlugins(core, user), BuildHook).value, true)
      == Collected(Outcomes(core, BuildHook).value, true) + Collected(Outcomes(user, BuildHook).value, true)
  {
    OutcomesConcat(core, user, BuildHook);
    CollectedConcat(Outcomes(core, BuildHook).value, Outcomes(user, BuildHook).value, true);
  }

  /** A setup hook error ends `setupBuild` with that error; otherwise the
      log holds the names of the plugins that have a setup hook. */
  lemma SetupFailsExactlyOnHookError(core: seq<Plugin>, user: seq<Plugin>)
    ensures Setup(core, user).Failure? <==>
      exists i :: 0 <= i < |core + user| && (core + user)[i].onSetup.Some? && (core + user)[i].onSetup.value.Failure?
    ensures Setup(core, user).Success? ==> forall n :: n in Setup(core, user).value <==>
      exists i :: 0 <= i < |core + user| && (core + user)[i].onSetup.Some? && (core + user)[i].name == n
  {
    PhaseFailsExactlyOnHookError(core + user, SetupHook);
    if Setup(core, user).Success? {
      SetupLogNames(core + user);
    }
  }

  /** The names in a setup log are those of the plugins with a setup hook. */
  lemma SetupLogNames(plugins: seq<Plugin>)
    requires Phase(plugins, SetupHook).Success?
    ensures forall n :: n in Phase(plugins, SetupHook).value.log <==>
      exists i :: 0 <= i < |plugins| && plugins[i].onSetup.Some? && plugins[i].name == n
  {
    LogIsRanNames(plugins, SetupHook);
    OutcomesAreOwn(plugins, SetupHook);
    var outcomes := Outcomes(plugins, SetupHook).value;
    var log := Phase(plugins, SetupHook).value.log;
    assert forall i :: 0 <= i < |plugins| ==> (outcomes[i].Ran? <==> plugins[i].onSetup.Some?) by {
      forall i | 0 <= i < |plugins| ensures outcomes[i].Ran? <==> plugins[i].onSetup.Some? {
        assert SetupHook(plugins[i]) == Success(outcomes[i]);
      }
    }
    forall n
      ensures n in log <==> exists i :: 0 <= i < |plugins| && plugins[i].onSetup.Some? && plugins[i].name == n
    {
      assert n in log <==> n in multiset(log);
      assert n in RanNames(plugins, outcomes) <==> n in multiset(RanNames(plugins, outcomes));
      RanNamesExactly(plugins, outcomes, n);
    }
  }
}
