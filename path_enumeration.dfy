/** `getPaths`: every web path of a full build. Each route contributes the
    paths its parameters give, and each markdown file under the routes
    directory contributes its cleaned-up file path. `WebPath.join` is a
    parameter. */
module PathEnumeration {
  import opened Wrappers
  import opened Strings
  import opened Pages
  import opened Routes
  import opened Sequences

  /** `pattern.replace("$" + key, value)` for each entry in turn: only the
      first occurrence of each placeholder is replaced, and `$` patterns in
      the value are expanded as `replace` does. */
  function Substitute(pattern: string, params: seq<(string, string)>): string
    decreases |params|
  {
    if params == [] then pattern
    else Substitute(ReplaceFirst(pattern, "$" + params[0].0, params[0].1), params[1..])
  }

  /** The paths of one route's params entries, up to the first entry whose
      params cannot be listed: that one throws and ends the route. */
  function EntryPaths(routePath: string, entries: seq<ParamsEntry>, webJoin: string -> string): seq<string>
    decreases |entries|
  {
    if entries == [] || entries[0].Unlisted? then []
    else [webJoin(Substitute(routePath, entries[0].params))] + EntryPaths(routePath, entries[1..], webJoin)
  }

  /** The paths one route contributes. */
  function RoutePaths(route: Route, webJoin: string -> string): seq<string>
  {
    match route.pathParams
    case NoPathParams => [webJoin(route.path)]
    case ParamsThrow(_) => []
    case ParamsList(entries) => EntryPaths(route.path, entries, webJoin)
  }

  /** `s.replace(/suffix$/, "")`. */
  function StripSuffix(s: string, suffix: string): (r: string)
    ensures EndsWith(s, suffix) ==> s == r + suffix
    ensures !EndsWith(s, suffix) ==> r == s
  {
    if EndsWith(s, suffix) then s[..|s| - |suffix|] else s
  }

  /** The web path of a markdown file: the first occurrence of the routes
      directory cut out, then a final `.md` or `.mdx` (`/\.mdx?$/`), then a
      final `.md` or `.m` (`/\.md?$/`), then a final `/index`. */
  function CleanMarkdownPath(filePath: string, routesDir: string): string
  {
    var withoutDir := ReplaceFirst(filePath, routesDir, "");
    var withoutMdx := if EndsWith(withoutDir, ".mdx") then StripSuffix(withoutDir, ".mdx") else StripSuffix(withoutDir, ".md");
    var withoutMd := if EndsWith(withoutMdx, ".md") then StripSuffix(withoutMdx, ".md") else StripSuffix(withoutMdx, ".m");
    StripSuffix(withoutMd, "/index")
  }

  /** All paths of a full build: the routes' paths in route order, then one
      per markdown file in the order the scans list them. */
  function AllPaths(routes: seq<Route>, routesDir: string, markdownFiles: seq<string>, webJoin: string -> string): seq<string>
  {
    RoutesPaths(routes, webJoin) + MarkdownPaths(routesDir, markdownFiles, webJoin)
  }

  /** One path per markdown file, in the order the scans list them. */
  function MarkdownPaths(routesDir: string, markdownFiles: seq<string>, webJoin: string -> string): (paths: seq<string>)
    ensures |paths| == |markdownFiles|
    ensures forall i :: 0 <= i < |markdownFiles| ==> paths[i] == webJoin(CleanMarkdownPath(markdownFiles[i], routesDir))
  {
    seq(|markdownFiles|, i requires 0 <= i < |markdownFiles| => webJoin(CleanMarkdownPath(markdownFiles[i], routesDir)))
  }

  function RoutesPaths(routes: seq<Route>, webJoin: string -> string): seq<string>
  {
    if routes == [] then []
    else RoutesPaths(routes[..|routes| - 1], webJoin) + RoutePaths(routes[|routes| - 1], webJoin)
  }

  /** The placeholder loop of one params entry. */
  method SubstituteParams(pattern: string, params: seq<(string, string)>) returns (pathToAdd: string)
    ensures pathToAdd == Substitute(pattern, params)
  {
    pathToAdd := pattern;
    for i := 0 to |params|
      invariant Substitute(pathToAdd, params[i..]) == Substitute(pattern, params)
    {
      var (key, value) := params[i];
      assert params[i..][1..] == params[i + 1..];
      pathToAdd := ReplaceFirst(pathToAdd, "$" + key, value);
    }
  }

  /** The `try` block of one route: the params entries in turn, until one
      cannot be listed. */
  method PathsOfRoute(route: Route, webJoin: string -> string) returns (added: seq<string>)
    ensures added == RoutePaths(route, webJoin)
  {
    added := [];
    match route.pathParams {
      case NoPathParams =>
        added := [webJoin(route.path)];
      case ParamsThrow(_) =>
      case ParamsList(entries) =>
        var k := 0;
        while k < |entries| && entries[k].Entry?
          invariant 0 <= k <= |entries|
          invariant EntryPaths(route.path, entries, webJoin) == added + EntryPaths(route.path, entries[k..], webJoin)
        {
          var pathToAdd := SubstituteParams(route.path, entries[k].params);
          assert entries[k..][1..] == entries[k + 1..];
          added := added + [webJoin(pathToAdd)];
          k := k + 1;
        }
    }
  }

  /** `getPaths`, with the two glob scans given as one list of file paths.
      A route's throw is caught: the paths it added before the throw stay. */
  method GetPaths(routes: seq<Route>, routesDir: string, markdownFiles: seq<string>, webJoin: string -> string)
    returns (paths: seq<string>)
    ensures paths == AllPaths(routes, routesDir, markdownFiles, webJoin)
  {
    paths := [];
    for r := 0 to |routes|
      invariant paths == RoutesPaths(routes[..r], webJoin)
    {
      var added := PathsOfRoute(routes[r], webJoin);
      TakeOneMore(routes, r);
      RoutesPathsSnoc(routes[..r], routes[r], webJoin);
      paths := paths + added;
    }
    TakeAll(routes);
    ghost var routePaths := paths;
    ghost var expected := MarkdownPaths(routesDir, markdownFiles, webJoin);
    for i := 0 to |markdownFiles|
      invariant paths == routePaths + expected[..i]
    {
      var cleanedFilePath := CleanMarkdownPath(markdownFiles[i], routesDir);
      TakeOneMore(expected, i);
      Regroup(routePaths, expected[..i], [expected[i]]);
      paths := paths + [webJoin(cleanedFilePath)];
    }
    TakeAll(expected);
  }

  /** Each route's paths do not depend on the other routes: a route that
      throws contributes nothing and the others contribute all of theirs. */
  lemma {:induction false} RoutesIsolated(routes: seq<Route>, more: seq<Route>, webJoin: string -> string)
    ensures RoutesPaths(routes + more, webJoin) == RoutesPaths(routes, webJoin) + RoutesPaths(more, webJoin)
    decreases |more|
  {
    if more == [] {
      assert routes + more == routes;
    } else {
      var init, last := more[..|more| - 1], more[|more| - 1];
      RoutesIsolated(routes, init, webJoin);
      SnocSplit(routes, more);
      RoutesPathsSnoc(routes + init, last, webJoin);
      RoutesPathsSnoc(init, last, webJoin);
      Regroup(RoutesPaths(routes, webJoin), RoutesPaths(init, webJoin), RoutePaths(last, webJoin));
    }
  }

  lemma RoutesPathsSnoc(routes: seq<Route>, route: Route, webJoin: string -> string)
    ensures RoutesPaths(routes + [route], webJoin) == RoutesPaths(routes, webJoin) + RoutePaths(route, webJoin)
  {
    assert (routes + [route])[..|routes|] == routes;
  }

  /** A route whose `getPathParams` throws adds no path. */
  lemma ThrowingRouteAddsNothing(routes: seq<Route>, route: Route, more: seq<Route>, webJoin: string -> string)
    requires route.pathParams.ParamsThrow?
    ensures RoutesPaths(routes + [route] + more, webJoin) == RoutesPaths(routes + more, webJoin)
  {
    RoutesIsolated(routes + [route], more, webJoin);
    RoutesIsolated(routes, more, webJoin);
    RoutesPathsSnoc(routes, route, webJoin);
    AppendNothing(RoutesPaths(routes, webJoin));
  }

  /** Entries before the first unlisted one each give one path, in order;
      none after it does. An empty list gives no path. */
  lemma {:induction false} EntryPathsPrefix(routePath: string, entries: seq<ParamsEntry>, webJoin: string -> string, k: nat)
    requires k <= |entries| && forall m :: 0 <= m < k ==> entries[m].Entry?
    requires k < |entries| ==> entries[k].Unlisted?
    ensures EntryPaths(routePath, entries, webJoin)
      == seq(k, m requires 0 <= m < k => webJoin(Substitute(routePath, entries[m].params)))
    decreases k
  {
    if k > 0 {
      EntryPathsPrefix(routePath, entries[1..], webJoin, k - 1);
    }
  }

  /** What one route contributes: its own path, once, without params (or
      with a falsy result); one path per params entry when every entry can
      be listed, none for an empty list; nothing when the call throws. */
  lemma RouteContributions(route: Route, webJoin: string -> string)
    ensures route.pathParams.NoPathParams? ==> RoutePaths(route, webJoin) == [webJoin(route.path)]
    ensures route.pathParams.ParamsThrow? ==> RoutePaths(route, webJoin) == []
    ensures route.pathParams.ParamsList? && route.pathParams.entries == [] ==> RoutePaths(route, webJoin) == []
    ensures route.pathParams.ParamsList? && (forall m :: 0 <= m < |route.pathParams.entries| ==> route.pathParams.entries[m].Entry?) ==>
      var entries := route.pathParams.entries;
      |RoutePaths(route, webJoin)| == |entries|
      && forall m :: 0 <= m < |entries| ==> RoutePaths(route, webJoin)[m] == webJoin(Substitute(route.path, entries[m].params))
  {
    if route.pathParams.ParamsList? && (forall m :: 0 <= m < |route.pathParams.entries| ==> route.pathParams.entries[m].Entry?) {
      var entries := route.pathParams.entries;
      EntryPathsPrefix(route.path, entries, webJoin, |entries|);
    }
  }

  /** With a value free of `$` and a placeholder that occurs once, the
      placeholder is replaced by the value. */
  lemma SubstituteOne(before: string, key: string, value: string, after: string)
    requires '$' !in value
    requires IndexOf(before + "$" + key + after, "$" + key, 0) == Some(|before|)
    ensures Substitute(before + "$" + key + after, [(key, value)]) == before + value + after
  {
    var s := before + "$" + key + after;
    ReplaceFirstPlain(s, "$" + key, value);
    assert s[..|before|] == before;
    assert s[|before| + |"$" + key|..] == after;
  }

  /** Only the first occurrence of a placeholder is replaced: `/$a/$a` with
      `a` = `x` gives `/x/$a`. */
  lemma FirstOccurrenceOnly()
    ensures Substitute("/$a/$a", [("a", "x")]) == "/x/$a"
  {
    var s := "/$a/$a";
    assert OccursAt(s, "$a", 1);
    assert !OccursAt(s, "$a", 0) by {
      assert s[0..2][0] == '/';
    }
    assert IndexOf(s, "$a", 0) == Some(1);
    ReplaceFirstPlain(s, "$a", "x");
    assert "$" + "a" == "$a";
  }

  /** A page file `<routesDir><page>.md` gives `<page>`, when `page` has
      no extension-like or `/index` ending of its own. */
  lemma CleanPageFile(routesDir: string, page: string)
    requires !EndsWith(page, ".md") && !EndsWith(page, ".m") && !EndsWith(page, "/index")
    ensures CleanMarkdownPath(routesDir + page + ".md", routesDir) == page
  {
    var file := routesDir + page + ".md";
    assert StartsWith(file, routesDir);
    ReplacePrefixWithNothing(file, routesDir);
    var withoutDir := page + ".md";
    assert file[|routesDir|..] == withoutDir;
    assert withoutDir[|withoutDir| - 1] == 'd';
    assert !EndsWith(withoutDir, ".mdx");
    assert withoutDir[..|withoutDir| - 3] == page;
  }

  /** An index file `<routesDir><dir>/index.mdx` gives `<dir>`. */
  lemma CleanIndexFile(routesDir: string, dir: string)
    requires !EndsWith(dir, "/index")
    ensures CleanMarkdownPath(routesDir + dir + "/index.mdx", routesDir) == dir
  {
    var stem := dir + "/index";
    assert routesDir + dir + "/index.mdx" == routesDir + (stem + ".mdx");
    CleanAfterDir(routesDir, stem + ".mdx");
    MdxSuffix(stem);
    assert stem[|stem| - 1] == 'x';
    assert !EndsWith(stem, ".md") && !EndsWith(stem, ".m");
    assert StripSuffix(stem, ".m") == stem;
    IndexSuffix(dir);
  }

  /** An exploded file `<routesDir><dir>/!index.md` keeps its `!index`:
      it gives `<dir>/!index`. */
  lemma CleanExplodedFile(routesDir: string, dir: string)
    ensures CleanMarkdownPath(routesDir + dir + "/!index.md", routesDir) == dir + "/!index"
  {
    var file := routesDir + dir + "/!index.md";
    var stem := dir + "/!index";
    var withoutDir := stem + ".md";
    assert file == routesDir + withoutDir;
    CleanAfterDir(routesDir, withoutDir);
    MdSuffix(stem);
    assert stem[|stem| - 1] == 'x';
    assert !EndsWith(stem, ".md") && !EndsWith(stem, ".m");
    BangIndex(dir);
    assert StripSuffix(stem, ".m") == stem;
    assert StripSuffix(stem, "/index") == stem;
  }

  /** A file ending in `.md.md` loses both extensions. */
  lemma DoubleExtension(routesDir: string, stem: string)
    requires !EndsWith(stem, "/index")
    ensures CleanMarkdownPath(routesDir + stem + ".md.md", routesDir) == stem
  {
    var file := routesDir + stem + ".md.md";
    var once := stem + ".md";
    assert file == routesDir + (once + ".md");
    CleanAfterDir(routesDir, once + ".md");
    MdSuffix(once);
    MdSuffix(stem);
    assert StripSuffix(once, ".md") == stem;
  }

  lemma BangIndex(dir: string)
    ensures !EndsWith(dir + "/!index", "/index")
  {
    var stem := dir + "/!index";
    assert stem[|stem| - 6..][0] == '!';
  }

  /** Cutting out the routes directory leaves the rest of the file path. */
  lemma CleanAfterDir(routesDir: string, rest: string)
    ensures CleanMarkdownPath(routesDir + rest, routesDir)
      == var withoutMdx := if EndsWith(rest, ".mdx") then StripSuffix(rest, ".mdx") else StripSuffix(rest, ".md");
         var withoutMd := if EndsWith(withoutMdx, ".md") then StripSuffix(withoutMdx, ".md") else StripSuffix(withoutMdx, ".m");
         StripSuffix(withoutMd, "/index")
  {
    var file := routesDir + rest;
    assert StartsWith(file, routesDir);
    ReplacePrefixWithNothing(file, routesDir);
    assert file[|routesDir|..] == rest;
  }

  /** `<s>.md` ends in `.md` and not in `.mdx`; stripping `.md` gives `s`. */
  lemma MdSuffix(s: string)
    ensures EndsWith(s + ".md", ".md") && !EndsWith(s + ".md", ".mdx")
    ensures StripSuffix(s + ".md", ".md") == s
  {
    var t := s + ".md";
    assert t[|t| - 3..] == ".md";
    assert t[|t| - 1] == 'd';
    assert t[..|t| - 3] == s;
  }

  /** `<s>.mdx` ends in `.mdx`; stripping it gives `s`. */
  lemma MdxSuffix(s: string)
    ensures EndsWith(s + ".mdx", ".mdx") && StripSuffix(s + ".mdx", ".mdx") == s
  {
    var t := s + ".mdx";
    assert t[|t| - 4..] == ".mdx";
    assert t[..|t| - 4] == s;
  }

  /** `<dir>/index` ends in `/index`; stripping it gives `dir`. */
  lemma IndexSuffix(dir: string)
    ensures StripSuffix(dir + "/index", "/index") == dir
  {
    var t := dir + "/index";
    assert t[|t| - 6..] == "/index";
    assert t[..|t| - 6] == dir;
  }
}
