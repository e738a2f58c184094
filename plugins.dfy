/** `runPluginsWithLifecycle`: one phase of the plugin pipeline. The core
    plugins come first, then the configuration's plugins; each plugin's
    hook for the phase runs if the plugin has one, an error from a hook
    ends the phase, and the names of the plugins whose hook ran are logged
    core-first, each group in name order. */
module Plugins {
  import opened Wrappers
  import opened Strings
  import opened Pages
  import opened StableSort
  import opened Sequences
  import opened Resolver

  /** A head or script element, kept as its markup. */
  datatype Fragment = Fragment(markup: string)

  /** What an `onBuild` hook may give back: head and script elements, each
      list possibly missing. */
  datatype Contribution = Contribution(heads: Option<seq<Fragment>>, scripts: Option<seq<Fragment>>)

  /** What `onRender` receives besides the shared handles. */
  datatype RenderInput = RenderInput(
    heads: seq<Fragment>,
    scripts: seq<Fragment>,
    pages: seq<Page>,
    sitemap: seq<SitemapItem>)

  /** A plugin: a name and up to three hooks. A setup or build hook is
      given by what it does (it gets the configuration and the handles
      only); a render hook depends on the pages it receives. */
  datatype Plugin = Plugin(
    name: string,
    onSetup: Option<Result<(), Exception>>,
    onBuild: Option<Result<Option<Contribution>, Exception>>,
    onRender: Option<RenderInput -> Result<(), Exception>>)

  /** What the phase's `onRun` callback does with one plugin: the plugin
      has no hook for the phase, or the hook ran (a build hook possibly
      contributing elements). */
  datatype HookOutcome = Skipped | Ran(contribution: Option<Contribution>)

  /** The callback type: the outcome for a plugin, or the error its hook
      throws. */
  type OnRun = Plugin -> Result<HookOutcome, Exception>

  /** `[...corePlugins, ...config.plugins]`: the seven core plugins in
      their fixed order, then the configuration's plugins. */
  function AllPlugins(core: seq<Plugin>, user: seq<Plugin>): seq<Plugin>
  {
    core + user
  }

  predicate IsCore(name: string)
  {
    StartsWith(name, "core-")
  }

  /** The log comparator: `core-` names first, and names of the same
      group by `localeCompare`. */
  predicate LogBefore(a: string, b: string)
  {
    if IsCore(a) && IsCore(b) then LexLess(a, b)
    else if IsCore(a) then true
    else if IsCore(b) then false
    else LexLess(a, b)
  }

  /** The outcomes of the plugins in registration order, or the error of
      the first hook that throws. */
  function Outcomes(plugins: seq<Plugin>, onRun: OnRun): (r: Result<seq<HookOutcome>, Exception>)
    ensures r.Success? ==> |r.value| == |plugins|
  {
    if plugins == [] then Success([])
    else
      match Outcomes(plugins[..|plugins| - 1], onRun)
      case Failure(e) => Failure(e)
      case Success(outcomes) =>
        match onRun(plugins[|plugins| - 1])
        case Failure(e) => Failure(e)
        case Success(outcome) => Success(outcomes + [outcome])
  }

  /** The names of the plugins whose hook ran, in registration order. */
  function RanNames(plugins: seq<Plugin>, outcomes: seq<HookOutcome>): seq<string>
    requires |outcomes| == |plugins|
  {
    if plugins == [] then []
    else
      var k := |plugins| - 1;
      RanNames(plugins[..k], outcomes[..k]) + (if outcomes[k].Ran? then [plugins[k].name] else [])
  }

  /** The elements the hooks contributed, in registration order; a missing
      list counts as empty. */
  function Collected(outcomes: seq<HookOutcome>, heads: bool): seq<Fragment>
  {
    if outcomes == [] then []
    else
      var last := outcomes[|outcomes| - 1];
      Collected(outcomes[..|outcomes| - 1], heads)
        + (if last.Ran? && last.contribution.Some? then
             (if heads then last.contribution.value.heads else last.contribution.value.scripts).GetOr([])
           else [])
  }

  /** What a phase leaves behind: the logged names in log order and the
      collected heads and scripts. */
  datatype PhaseReport = PhaseReport(log: seq<string>, heads: seq<Fragment>, scripts: seq<Fragment>)

  /** The result of running one phase over the given plugins. */
  function Phase(plugins: seq<Plugin>, onRun: OnRun): Result<PhaseReport, Exception>
  {
    match Outcomes(plugins, onRun)
    case Failure(e) => Failure(e)
    case Success(outcomes) =>
      Success(PhaseReport(
        SortBy(RanNames(plugins, outcomes), LogBefore),
        Collected(outcomes, true),
        Collected(outcomes, false)))
  }

  /** `runPluginsWithLifecycle` with the phase's `onRun`: every plugin in
      turn; a plugin whose hook ran is pushed on the log, and what its
      build hook gives is pushed on the heads and scripts; the log is
      sorted at the end. */
  method RunPluginsWithLifecycle(core: seq<Plugin>, user: seq<Plugin>, onRun: OnRun)
    returns (r: Result<PhaseReport, Exception>)
    ensures r == Phase(AllPlugins(core, user), onRun)
  {
    var allPlugins := core + user;
    var pluginDoneLogs: seq<string> := [];
    var heads: seq<Fragment> := [];
    var scripts: seq<Fragment> := [];
    ghost var outcomes: seq<HookOutcome> := [];
    for i := 0 to |allPlugins|
      invariant Outcomes(allPlugins[..i], onRun) == Success(outcomes)
      invariant |outcomes| == i
      invariant pluginDoneLogs == RanNames(allPlugins[..i], outcomes)
      invariant heads == Collected(outcomes, true)
      invariant scripts == Collected(outcomes, false)
    {
      var plugin := allPlugins[i];
      TakeOneMore(allPlugins, i);
      assert allPlugins[..i + 1][..i] == allPlugins[..i];
      var ran := onRun(plugin);
      if ran.Failure? {
        FirstHookErrorDecides(allPlugins, onRun, i + 1);
        return Failure(ran.error);
      }
      var outcome := ran.value;
      ghost var next := outcomes + [outcome];
      assert next[..i] == outcomes;
      if outcome.Ran? {
        pluginDoneLogs := pluginDoneLogs + [plugin.name];
        if outcome.contribution.Some? {
          heads := heads + outcome.contribution.value.heads.GetOr([]);
          scripts := scripts + outcome.contribution.value.scripts.GetOr([]);
        }
      }
      outcomes := next;
    }
    TakeAll(allPlugins);
    var log := SortBy(pluginDoneLogs, LogBefore);
    return Success(PhaseReport(log, heads, scripts));
  }

  // ---------------------------------------------------------------------
  // Properties

  /** Once a hook throws, the phase fails with that error. */
  lemma {:induction false} FirstHookErrorDecides(plugins: seq<Plugin>, onRun: OnRun, n: nat)
    requires n <= |plugins|
    requires Outcomes(plugins[..n], onRun).Failure?
    ensures Outcomes(plugins, onRun) == Outcomes(plugins[..n], onRun)
    decreases |plugins| - n
  {
    if n == |plugins| {
      TakeAll(plugins);
    } else {
      var front := plugins[..|plugins| - 1];
      assert front[..n] == plugins[..n];
      FirstHookErrorDecides(front, onRun, n);
    }
  }

  /** A phase fails exactly when some plugin's hook throws, and then with
      the error of the first such plugin in registration order. */
  lemma {:induction false} PhaseFailsExactlyOnHookError(plugins: seq<Plugin>, onRun: OnRun)
    ensures Outcomes(plugins, onRun).Failure? <==> exists i :: 0 <= i < |plugins| && onRun(plugins[i]).Failure?
    ensures forall i | 0 <= i < |plugins| && onRun(plugins[i]).Failure?
        && (forall j :: 0 <= j < i ==> onRun(plugins[j]).Success?) ::
      Outcomes(plugins, onRun) == Failure(onRun(plugins[i]).error)
    decreases |plugins|
  {
    if plugins != [] {
      var front := plugins[..|plugins| - 1];
      PhaseFailsExactlyOnHookError(front, onRun);
      assert forall i :: 0 <= i < |front| ==> front[i] == plugins[i];
      if Outcomes(front, onRun).Success? {
        assert forall i :: 0 <= i < |front| ==> onRun(plugins[i]).Success?;
      }
    }
  }

  /** On success, each outcome is the plugin's own, in order. */
  lemma {:induction false} OutcomesAreOwn(plugins: seq<Plugin>, onRun: OnRun)
    requires Outcomes(plugins, onRun).Success?
    ensures var outcomes := Outcomes(plugins, onRun).value;
      |outcomes| == |plugins|
      && forall i :: 0 <= i < |plugins| ==> onRun(plugins[i]) == Success(outcomes[i])
    decreases |plugins|
  {
    if plugins != [] {
      var front := plugins[..|plugins| - 1];
      OutcomesAreOwn(front, onRun);
      assert forall i :: 0 <= i < |front| ==> front[i] == plugins[i];
    }
  }

  /** The outcomes of the core plugins and the configuration's plugins are
      those of each group, in order; a failure in either fails the whole. */
  lemma {:induction false} OutcomesConcat(first: seq<Plugin>, second: seq<Plugin>, onRun: OnRun)
    ensures Outcomes(first + second, onRun).Success?
      <==> Outcomes(first, onRun).Success? && Outcomes(second, onRun).Success?
    ensures Outcomes(first + second, onRun).Success? ==>
      Outcomes(first + second, onRun).value == Outcomes(first, onRun).value + Outcomes(second, onRun).value
    decreases |second|
  {
    if second == [] {
      assert first + second == first;
    } else {
      var init, last := second[..|second| - 1], second[|second| - 1];
      OutcomesConcat(first, init, onRun);
      SnocSplit(first, second);
      assert (first + second)[..|first + second| - 1] == first + init;
      if Outcomes(first, onRun).Success? && Outcomes(init, onRun).Success? && onRun(last).Success? {
        Regroup(Outcomes(first, onRun).value, Outcomes(init, onRun).value, [onRun(last).value]);
      }
    }
  }

  /** The ran names are the names of exactly the plugins whose hook ran. */
  lemma {:induction false} RanNamesExactly(plugins: seq<Plugin>, outcomes: seq<HookOutcome>, name: string)
    requires |outcomes| == |plugins|
    ensures name in RanNames(plugins, outcomes) <==>
      exists i :: 0 <= i < |plugins| && outcomes[i].Ran? && plugins[i].name == name
    decreases |plugins|
  {
    if plugins != [] {
      var k := |plugins| - 1;
      RanNamesExactly(plugins[..k], outcomes[..k], name);
      if exists i :: 0 <= i < |plugins| && outcomes[i].Ran? && plugins[i].name == name {
        var i :| 0 <= i < |plugins| && outcomes[i].Ran? && plugins[i].name == name;
        if i < k {
          assert plugins[..k][i] == plugins[i] && outcomes[..k][i] == outcomes[i];
        }
      }
      if name in RanNames(plugins[..k], outcomes[..k]) {
        var i :| 0 <= i < k && outcomes[..k][i].Ran? && plugins[..k][i].name == name;
        assert plugins[..k][i] == plugins[i] && outcomes[..k][i] == outcomes[i];
      }
    }
  }

  lemma LogBeforeOrder()
    ensures StrictWeakOrder(LogBefore)
  {
    forall a ensures !LogBefore(a, a) {
      LexLessIrreflexive(a);
    }
    forall a, b, c | LogBefore(a, b) && LogBefore(b, c) ensures LogBefore(a, c) {
      if LexLess(a, b) && LexLess(b, c) {
        LexLessTransitive(a, b, c);
      }
    }
    forall a, b, c | LogBefore(a, c) ensures LogBefore(a, b) || LogBefore(b, c) {
      if a != b {
        LexLessTotal(a, b);
      }
      if b != c {
        LexLessTotal(b, c);
      }
      if !LogBefore(a, b) && !LogBefore(b, c) {
        if LexLess(b, a) && LexLess(c, b) {
          LexLessTransitive(c, b, a);
        }
        if a == b {
          LexLessIrreflexive(a);
        }
        if LexLess(a, c) && LexLess(c, a) {
          LexLessTransitive(a, c, a);
          LexLessIrreflexive(a);
        }
      }
    }
  }

  /** The log lists exactly the ran names, each as often as it ran. */
  lemma LogIsRanNames(plugins: seq<Plugin>, onRun: OnRun)
    requires Phase(plugins, onRun).Success?
    ensures var outcomes := Outcomes(plugins, onRun).value;
      |outcomes| == |plugins|
      && multiset(Phase(plugins, onRun).value.log) == multiset(RanNames(plugins, outcomes))
  {
    SortByPermutes(RanNames(plugins, Outcomes(plugins, onRun).value), LogBefore);
  }

  /** In the log every `core-` name comes before every other name, and the
      names of each group are in `localeCompare` order. */
  lemma LogIsCoreFirst(plugins: seq<Plugin>, onRun: OnRun)
    requires Phase(plugins, onRun).Success?
    ensures var log := Phase(plugins, onRun).value.log;
      forall i, j :: 0 <= i < j < |log| ==>
        (IsCore(log[j]) ==> IsCore(log[i]))
        && (IsCore(log[i]) == IsCore(log[j]) ==> !LexLess(log[j], log[i]))
  {
    var outcomes := Outcomes(plugins, onRun).value;
    LogBeforeOrder();
    SortByOrdered(RanNames(plugins, outcomes), LogBefore);
  }

  /** The heads collected from the core plugins and the configuration's
      plugins are those of the core plugins followed by the others. */
  lemma {:induction false} CollectedConcat(first: seq<HookOutcome>, second: seq<HookOutcome>, heads: bool)
    ensures Collected(first + second, heads) == Collected(first, heads) + Collected(second, heads)
    decreases |second|
  {
    if second == [] {
      assert first + second == first;
    } else {
      var init := second[..|second| - 1];
      CollectedConcat(first, init, heads);
      SnocSplit(first, second);
      var last := second[|second| - 1];
      var tail := if last.Ran? && last.contribution.Some? then
             (if heads then last.contribution.value.heads else last.contribution.value.scripts).GetOr([])
           else [];
      assert (first + second)[..|first + second| - 1] == first + init;
      Regroup(Collected(first, heads), Collected(init, heads), tail);
    }
  }

  /** Steps of the log-order example: each is one insertion. */
  lemma LogOrderSteps(zeta: string, coreB: string, coreA: string, alpha: string)
    requires LogBefore(coreB, zeta) && LogBefore(coreA, coreB) && LogBefore(coreA, zeta)
    requires !LogBefore(alpha, coreA) && !LogBefore(alpha, coreB) && LogBefore(alpha, zeta)
    ensures SortBy([zeta, coreB, coreA, alpha], LogBefore) == [coreA, coreB, alpha, zeta]
  {
    SortFourThirdLast(zeta, coreB, coreA, alpha, LogBefore);
  }

  lemma LogOrderFacts()
    ensures LogBefore("core-b", "zeta") && LogBefore("core-a", "core-b") && LogBefore("core-a", "zeta")
    ensures !LogBefore("alpha", "core-a") && !LogBefore("alpha", "core-b") && LogBefore("alpha", "zeta")
  {
    assert IsCore("core-a") && IsCore("core-b");
    assert !IsCore("zeta");
    assert !IsCore("alpha") by {
      assert "alpha"[..5][0] == 'a';
    }
    assert LexLess("core-a", "core-b") by {
      assert "core-a"[1..] == "ore-a" && "core-b"[1..] == "ore-b";
      assert "ore-a"[1..] == "re-a" && "ore-b"[1..] == "re-b";
      assert "re-a"[1..] == "e-a" && "re-b"[1..] == "e-b";
      assert "e-a"[1..] == "-a" && "e-b"[1..] == "-b";
      assert "-a"[1..] == "a" && "-b"[1..] == "b";
    }
    assert LexLess("alpha", "zeta");
  }

  /** Plugins named `zeta`, `core-b`, `core-a`, `alpha`, in that order,
      whose hooks all ran are logged as `core-a`, `core-b`, `alpha`,
      `zeta`. */
  lemma LogOrderExample()
    ensures SortBy(["zeta", "core-b", "core-a", "alpha"], LogBefore) == ["core-a", "core-b", "alpha", "zeta"]
  {
    LogOrderFacts();
    LogOrderSteps("zeta", "core-b", "core-a", "alpha");
  }
}
