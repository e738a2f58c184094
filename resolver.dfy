/** `getPagesAndSitemap`: the pages of a list of web paths and the sitemap
    built from them. For each path, every matching route may give a page,
    and then one markdown file, looked up in three places, gives pages of
    its own. Pages go into a `Map` keyed by path, so a later write to the
    same path wins. The file system, `path.join` and `WebPath.join` are
    parameters. */
module Resolver {
  import opened Wrappers
  import opened Strings
  import opened Pages
  import opened Routes
  import opened PageBuilder
  import opened PageStore
  import opened StableSort
  import opened Sequences

  /** What the build reads: the routes directory and routes of the
      configuration, the markdown files under it (path to text), node's
      `path.join`, `WebPath.join` and the page builder's libraries. */
  datatype Site = Site(
    routesDir: string,
    routes: seq<Route>,
    files: map<string, string>,
    pathJoin: seq<string> -> string,
    webJoin: string -> string,
    libs: Libraries)

  /** A key and the page set under it. */
  type Write = (string, Page)

  // ---------------------------------------------------------------------
  // Dynamic routes

  /** What one route writes for a web path: nothing when it does not
      match; otherwise the page its handler gives, at the path with the
      parameters put in and with its `path` set to that key. A handler that
      gives nothing or throws writes nothing (the error is logged). */
  function RouteWrite(route: Route, webPath: string, webJoin: string -> string): (w: seq<Write>)
    ensures |w| <= 1
    ensures w != [] ==> Matches(route.path, webPath) && w[0].1.path == w[0].0
  {
    var routeSegments, pathSegments := Split(route.path, '/'), Split(webPath, '/');
    if |routeSegments| != |pathSegments| || !Every(routeSegments, pathSegments) then []
    else
      var key := webJoin(Join(InjectedSegments(routeSegments, pathSegments), '/'));
      match route.getPage(BoundParams(routeSegments, pathSegments), key)
      case Success(Some(page)) => [(key, page.(path := key))]
      case _ => []
  }

  /** The writes of all routes for one web path, in route order. */
  function RouteWrites(routes: seq<Route>, webPath: string, webJoin: string -> string): seq<Write>
  {
    if routes == [] then []
    else RouteWrites(routes[..|routes| - 1], webPath, webJoin) + RouteWrite(routes[|routes| - 1], webPath, webJoin)
  }

  // ---------------------------------------------------------------------
  // Markdown

  /** `routesDir/webPath/index.md`. */
  function IndexFile(site: Site, webPath: string): string
  {
    site.pathJoin([site.routesDir, webPath, "index.md"])
  }

  /** `routesDir/webPath` followed by `.md`. */
  function PageFile(site: Site, webPath: string): string
  {
    site.pathJoin([site.routesDir, webPath]) + ".md"
  }

  /** `routesDir/<webPath without its last segment>/!index.md`. */
  function ExplodedFile(site: Site, webPath: string): string
  {
    site.pathJoin([site.routesDir, Parent(webPath), "!index.md"])
  }

  /** The markdown file of a web path: the first of the three candidates
      that exists. */
  function MarkdownFile(site: Site, webPath: string): (file: Option<string>)
    ensures file.Some? ==> file.value in site.files
    ensures file.None? <==>
      IndexFile(site, webPath) !in site.files
      && PageFile(site, webPath) !in site.files
      && ExplodedFile(site, webPath) !in site.files
    ensures file.Some? ==> file.value in {IndexFile(site, webPath), PageFile(site, webPath), ExplodedFile(site, webPath)}
    ensures IndexFile(site, webPath) in site.files ==> file == Some(IndexFile(site, webPath))
    ensures IndexFile(site, webPath) !in site.files && PageFile(site, webPath) in site.files ==> file == Some(PageFile(site, webPath))
  {
    if IndexFile(site, webPath) in site.files then Some(IndexFile(site, webPath))
    else if PageFile(site, webPath) in site.files then Some(PageFile(site, webPath))
    else if ExplodedFile(site, webPath) in site.files then Some(ExplodedFile(site, webPath))
    else None
  }

  /** A file is exploded when its name is `!index.md`. */
  predicate ShouldExplode(file: string)
  {
    LastSegment(file) == "!index.md"
  }

  /** Each page under its own path. */
  function KeyedByPath(pages: seq<Page>): (w: seq<Write>)
    ensures |w| == |pages|
    ensures forall k :: 0 <= k < |w| ==> w[k] == (pages[k].path, pages[k])
  {
    seq(|pages|, k requires 0 <= k < |pages| => (pages[k].path, pages[k]))
  }

  /** What the markdown of a web path writes: nothing without a file, the
      pages of the file under their own paths, or the YAML error, which is
      not caught. */
  function MarkdownWrites(site: Site, webPath: string): Result<seq<Write>, Exception>
  {
    match MarkdownFile(site, webPath)
    case None => Success([])
    case Some(file) =>
      match MarkdownPages(site.libs, webPath, site.files[file], ShouldExplode(file))
      case Failure(e) => Failure(e)
      case Success(pages) => Success(KeyedByPath(pages))
  }

  /** All writes of one web path: the routes' first, then the markdown's. */
  function PathWrites(site: Site, webPath: string): (r: Result<seq<Write>, Exception>)
    ensures r.Failure? <==> MarkdownWrites(site, webPath).Failure?
    ensures r.Failure? ==> r.error == MarkdownWrites(site, webPath).error
    ensures r.Success? ==> r.value == RouteWrites(site.routes, webPath, site.webJoin) + MarkdownWrites(site, webPath).value
  {
    match MarkdownWrites(site, webPath)
    case Failure(e) => Failure(e)
    case Success(markdown) => Success(RouteWrites(site.routes, webPath, site.webJoin) + markdown)
  }

  /** The store after the writes of every path in turn, or the first error.
      The paths are taken one after the other, in list order. */
  function ApplyPaths(writesOf: string -> Result<seq<Write>, Exception>, paths: seq<string>): (r: Result<Store, Exception>)
    ensures r.Success? ==> WellFormed(r.value)
  {
    if paths == [] then Success(Empty)
    else
      match ApplyPaths(writesOf, paths[..|paths| - 1])
      case Failure(e) => Failure(e)
      case Success(store) =>
        match writesOf(paths[|paths| - 1])
        case Failure(e) => Failure(e)
        case Success(writes) => Success(PutAll(store, writes))
  }

  /** The store of a site's paths. */
  function ResolveAll(site: Site, paths: seq<string>): (r: Result<Store, Exception>)
    ensures r.Success? ==> WellFormed(r.value)
  {
    ApplyPaths(p => PathWrites(site, p), paths)
  }

  // ---------------------------------------------------------------------
  // Sitemap

  /** One sitemap entry: a page's path and title. */
  datatype SitemapItem = SitemapItem(path: string, title: Value)

  /** The number of `/`-separated pieces of a path. */
  function Depth(item: SitemapItem): nat
  {
    |Split(item.path, '/')|
  }

  /** The comparator: an entry sorts before another with more pieces. */
  predicate Shallower(a: SitemapItem, b: SitemapItem)
  {
    Depth(a) < Depth(b)
  }

  /** The entries of the stored pages, in the map's key order. */
  function Entries(pages: seq<Page>): (items: seq<SitemapItem>)
    ensures |items| == |pages|
    ensures forall k :: 0 <= k < |items| ==> items[k] == SitemapItem(pages[k].path, pages[k].title)
  {
    seq(|pages|, k requires 0 <= k < |pages| => SitemapItem(pages[k].path, pages[k].title))
  }

  /** The sitemap of a store. */
  function Sitemap(store: Store): seq<SitemapItem>
    requires WellFormed(store)
  {
    SortBy(Entries(Values(store)), Shallower)
  }

  /** What `getPagesAndSitemap` gives back. */
  datatype Resolved = Resolved(pages: Store, sitemap: seq<SitemapItem>)

  /** The result of `getPagesAndSitemap`. */
  function Resolve(site: Site, paths: seq<string>): (r: Result<Resolved, Exception>)
    ensures r.Success? ==> WellFormed(r.value.pages) && r.value.sitemap == Sitemap(r.value.pages)
    ensures r.Success? <==> ResolveAll(site, paths).Success?
  {
    match ResolveAll(site, paths)
    case Failure(e) => Failure(e)
    case Success(store) => Success(Resolved(store, Sitemap(store)))
  }

  // ---------------------------------------------------------------------
  // The method

  /** The route loop of one web path, writing into the map. */
  method ApplyRoutes(site: Site, webPath: string, pages: PageMap)
    requires pages.Valid()
    modifies pages
    ensures pages.Valid()
    ensures pages.State() == PutAll(old(pages.State()), RouteWrites(site.routes, webPath, site.webJoin))
  {
    ghost var start := pages.State();
    for j := 0 to |site.routes|
      invariant pages.Valid()
      invariant pages.State() == PutAll(start, RouteWrites(site.routes[..j], webPath, site.webJoin))
    {
      TakeOneMore(site.routes, j);
      RouteWritesSnoc(site.routes[..j], site.routes[j], webPath, site.webJoin);
      PutAllConcat(start, RouteWrites(site.routes[..j], webPath, site.webJoin), RouteWrite(site.routes[j], webPath, site.webJoin));
      ApplyRoute(site, webPath, site.routes[j], pages);
    }
    TakeAll(site.routes);
  }

  /** One pass of the route loop: a route whose segments match the web path
      and whose `getPage` gives a page sets it under the path with the
      parameters injected. */
  method ApplyRoute(site: Site, webPath: string, route: Route, pages: PageMap)
    requires pages.Valid()
    modifies pages
    ensures pages.Valid()
    ensures pages.State() == PutAll(old(pages.State()), RouteWrite(route, webPath, site.webJoin))
  {
    PutAllNothing(pages.State());
    var pathSegments := Split(webPath, '/');
    var routeSegments := Split(route.path, '/');
    if |pathSegments| != |routeSegments| {
      return;
    }
    var matched := Every(routeSegments, pathSegments);
    if matched {
      var params, injected := BindParams(routeSegments, pathSegments);
      var pathWithInjectedParams := site.webJoin(Join(injected, '/'));
      var routePage := route.getPage(params, pathWithInjectedParams);
      if routePage.Success? && routePage.value.Some? {
        var written := routePage.value.value.(path := pathWithInjectedParams);
        PutAllOne(pages.State(), pathWithInjectedParams, written);
        pages.Set(pathWithInjectedParams, written);
      }
    }
  }

  /** The markdown part of one web path: the three lookups, the page
      builder, and a `set` per page under the page's own path. A YAML error
      is handed back instead. */
  method ApplyMarkdown(site: Site, webPath: string, pages: PageMap) returns (error: Option<Exception>)
    requires pages.Valid()
    modifies pages
    ensures pages.Valid()
    ensures MarkdownWrites(site, webPath).Failure? ==>
      error == Some(MarkdownWrites(site, webPath).error) && pages.State() == old(pages.State())
    ensures MarkdownWrites(site, webPath).Success? ==>
      error == None && pages.State() == PutAll(old(pages.State()), MarkdownWrites(site, webPath).value)
  {
    var filePath := site.pathJoin([site.routesDir, webPath, "index.md"]);
    var found := filePath in site.files;
    if !found {
      filePath := site.pathJoin([site.routesDir, webPath]) + ".md";
      found := filePath in site.files;
    }
    if !found {
      var segments := Split(webPath, '/');
      var pathForExploded := Join(segments[..|segments| - 1], '/');
      filePath := site.pathJoin([site.routesDir, pathForExploded, "!index.md"]);
      found := filePath in site.files;
    }
    if !found {
      assert PutAll(pages.State(), []) == pages.State();
      return None;
    }
    assert MarkdownFile(site, webPath) == Some(filePath);
    var pageMarkdown := site.files[filePath];
    var shouldExplode := LastSegment(filePath) == "!index.md";
    var markdownPages := FromMarkdown(site.libs, webPath, pageMarkdown, shouldExplode);
    if markdownPages.Failure? {
      return Some(markdownPages.error);
    }
    var list := markdownPages.value;
    ghost var writes := KeyedByPath(list);
    ghost var start := pages.State();
    for k := 0 to |list|
      invariant pages.Valid()
      invariant pages.State() == PutAll(start, writes[..k])
    {
      TakeOneMore(writes, k);
      PutAllConcat(start, writes[..k], [writes[k]]);
      ghost var current := pages.State();
      pages.Set(list[k].path, list[k]);
      assert PutAll(current, [(list[k].path, list[k])]) == pages.State();
    }
    TakeAll(writes);
    error := None;
  }

  /** `getPagesAndSitemap`: each web path in turn writes its route pages
      and then its markdown pages into the map; the sitemap is made from
      the map once every path is done. */
  method GetPagesAndSitemap(site: Site, paths: seq<string>) returns (r: Result<Resolved, Exception>)
    ensures r == Resolve(site, paths)
  {
    var pages := new PageMap();
    for i := 0 to |paths|
      invariant pages.Valid()
      invariant ResolveAll(site, paths[..i]) == Success(pages.State())
    {
      var webPath := paths[i];
      assert paths[..i + 1][..i] == paths[..i];
      assert paths[..i + 1][i] == webPath;
      ghost var start := pages.State();
      ApplyRoutes(site, webPath, pages);
      var error := ApplyMarkdown(site, webPath, pages);
      if error.Some? {
        FirstFailureDecides(p => PathWrites(site, p), paths, i + 1);
        return Failure(error.value);
      }
      PutAllConcat(start, RouteWrites(site.routes, webPath, site.webJoin), MarkdownWrites(site, webPath).value);
    }
    assert paths[..|paths|] == paths;
    var store := pages.State();
    var sitemap := SortBy(Entries(Values(store)), Shallower);
    return Success(Resolved(store, sitemap));
  }

  // ---------------------------------------------------------------------
  // Properties

  /** Once the paths up to some point fail, the whole call fails with that
      error: the first failing path decides what `Promise.all` rejects
      with. */
  lemma {:induction false} FirstFailureDecides(writesOf: string -> Result<seq<Write>, Exception>, paths: seq<string>, n: nat)
    requires n <= |paths|
    requires ApplyPaths(writesOf, paths[..n]).Failure?
    ensures ApplyPaths(writesOf, paths) == ApplyPaths(writesOf, paths[..n])
    decreases |paths| - n
  {
    if n == |paths| {
      assert paths[..n] == paths;
    } else {
      var front := paths[..|paths| - 1];
      assert front[..n] == paths[..n];
      FirstFailureDecides(writesOf, front, n);
    }
  }

  /** Applying the paths fails exactly when some path's writes fail, and
      then with the error of the first such path. */
  lemma {:induction false} FailsExactlyOnPathError(writesOf: string -> Result<seq<Write>, Exception>, paths: seq<string>)
    ensures ApplyPaths(writesOf, paths).Failure? <==>
      exists i :: 0 <= i < |paths| && writesOf(paths[i]).Failure?
    ensures forall i | 0 <= i < |paths| && writesOf(paths[i]).Failure?
        && (forall j :: 0 <= j < i ==> writesOf(paths[j]).Success?) ::
      ApplyPaths(writesOf, paths) == Failure(writesOf(paths[i]).error)
    decreases |paths|
  {
    if paths != [] {
      var front, last := paths[..|paths| - 1], paths[|paths| - 1];
      FailsExactlyOnPathError(writesOf, front);
      assert forall i :: 0 <= i < |front| ==> front[i] == paths[i];
      if ApplyPaths(writesOf, front).Success? {
        assert forall i :: 0 <= i < |front| ==> writesOf(paths[i]).Success?;
      }
    }
  }

  /** `getPagesAndSitemap` fails exactly when the markdown of some path
      fails (a YAML error), and then with the error of the first such path;
      route errors never make it fail. */
  lemma FailsExactlyOnMarkdownError(site: Site, paths: seq<string>)
    ensures ResolveAll(site, paths).Failure? <==>
      exists i :: 0 <= i < |paths| && MarkdownWrites(site, paths[i]).Failure?
    ensures forall i | 0 <= i < |paths| && MarkdownWrites(site, paths[i]).Failure?
        && (forall j :: 0 <= j < i ==> MarkdownWrites(site, paths[j]).Success?) ::
      ResolveAll(site, paths) == Failure(MarkdownWrites(site, paths[i]).error)
  {
    var writesOf := p => PathWrites(site, p);
    FailsExactlyOnPathError(writesOf, paths);
    assert forall p :: writesOf(p) == PathWrites(site, p);
  }

  /** The writes of two lists of routes are those of each, in order. */
  lemma {:induction false} RouteWritesConcat(routes: seq<Route>, more: seq<Route>, webPath: string, webJoin: string -> string)
    ensures RouteWrites(routes + more, webPath, webJoin)
      == RouteWrites(routes, webPath, webJoin) + RouteWrites(more, webPath, webJoin)
    decreases |more|
  {
    if more == [] {
      assert routes + more == routes;
    } else {
      var init, last := more[..|more| - 1], more[|more| - 1];
      RouteWritesConcat(routes, init, webPath, webJoin);
      SnocSplit(routes, more);
      RouteWritesSnoc(routes + init, last, webPath, webJoin);
      RouteWritesSnoc(init, last, webPath, webJoin);
      Regroup(RouteWrites(routes, webPath, webJoin), RouteWrites(init, webPath, webJoin), RouteWrite(last, webPath, webJoin));
    }
  }

  lemma RouteWritesSnoc(routes: seq<Route>, route: Route, webPath: string, webJoin: string -> string)
    ensures RouteWrites(routes + [route], webPath, webJoin)
      == RouteWrites(routes, webPath, webJoin) + RouteWrite(route, webPath, webJoin)
  {
    assert (routes + [route])[..|routes|] == routes;
  }

  /** A route whose handler throws (or gives nothing) for a path writes
      what a configuration without it writes: the error is caught and the
      other routes still run. */
  lemma FailingRouteIsAbsent(before: seq<Route>, route: Route, after: seq<Route>, webPath: string, webJoin: string -> string)
    requires forall params, path :: !route.getPage(params, path).Success? || route.getPage(params, path).value.None?
    ensures RouteWrites(before + [route] + after, webPath, webJoin) == RouteWrites(before + after, webPath, webJoin)
  {
    RouteWritesConcat(before + [route], after, webPath, webJoin);
    RouteWritesSnoc(before, route, webPath, webJoin);
    RouteWritesConcat(before, after, webPath, webJoin);
    FailingRouteWritesNothing(route, webPath, webJoin);
    AppendNothing(RouteWrites(before, webPath, webJoin));
  }

  lemma FailingRouteWritesNothing(route: Route, webPath: string, webJoin: string -> string)
    requires forall params, path :: !route.getPage(params, path).Success? || route.getPage(params, path).value.None?
    ensures RouteWrite(route, webPath, webJoin) == []
  {
  }

  /** Every write puts a page under its own path. */
  predicate SelfKeyed(writes: seq<Write>)
  {
    forall k :: 0 <= k < |writes| ==> writes[k].1.path == writes[k].0
  }

  lemma {:induction false} RouteWritesSelfKeyed(routes: seq<Route>, webPath: string, webJoin: string -> string)
    ensures SelfKeyed(RouteWrites(routes, webPath, webJoin))
    decreases |routes|
  {
    if routes != [] {
      RouteWritesSelfKeyed(routes[..|routes| - 1], webPath, webJoin);
    }
  }

  /** Every write of a path puts a page under its own path. */
  lemma PathWritesSelfKeyed(site: Site, webPath: string)
    requires PathWrites(site, webPath).Success?
    ensures SelfKeyed(PathWrites(site, webPath).value)
  {
    RouteWritesSelfKeyed(site.routes, webPath, site.webJoin);
  }

  lemma {:induction false} ApplyPathsSelfKeyed(writesOf: string -> Result<seq<Write>, Exception>, paths: seq<string>)
    requires forall p :: writesOf(p).Success? ==> SelfKeyed(writesOf(p).value)
    requires ApplyPaths(writesOf, paths).Success?
    ensures var store := ApplyPaths(writesOf, paths).value;
      forall key :: key in store.pages ==> store.pages[key].path == key
    decreases |paths|
  {
    if paths != [] {
      var front := paths[..|paths| - 1];
      ApplyPathsSelfKeyed(writesOf, front);
      PutAllSelfKeyed(ApplyPaths(writesOf, front).value, writesOf(paths[|paths| - 1]).value);
    }
  }

  /** Every page of the result is stored under its own path, whether a
      route or a markdown file wrote it. */
  lemma PagesUnderOwnPath(site: Site, paths: seq<string>)
    requires ResolveAll(site, paths).Success?
    ensures var store := ResolveAll(site, paths).value;
      forall key :: key in store.pages ==> store.pages[key].path == key
  {
    var writesOf := p => PathWrites(site, p);
    forall p | writesOf(p).Success? ensures SelfKeyed(writesOf(p).value) {
      PathWritesSelfKeyed(site, p);
    }
    ApplyPathsSelfKeyed(writesOf, paths);
  }

  /** A later write wins: when a web path's markdown writes a key after
      any route of that path does, the markdown page is the one kept. */
  lemma MarkdownWinsOverRoutes(site: Site, store: Store, webPath: string, i: nat)
    requires WellFormed(store)
    requires MarkdownWrites(site, webPath).Success?
    requires var m := MarkdownWrites(site, webPath).value;
      i < |m| && forall j :: i < j < |m| ==> m[j].0 != m[i].0
    ensures var m := MarkdownWrites(site, webPath).value;
      var stored := PutAll(store, PathWrites(site, webPath).value).pages;
      m[i].0 in stored && stored[m[i].0] == m[i].1
  {
    LaterBatchWins(store, RouteWrites(site.routes, webPath, site.webJoin), MarkdownWrites(site, webPath).value, i);
  }

  /** A later path wins too: what the last path writes under a key is what
      the result holds there. */
  lemma LastPathWins(site: Site, paths: seq<string>, i: nat)
    requires paths != [] && ResolveAll(site, paths).Success?
    requires var w := PathWrites(site, paths[|paths| - 1]);
      w.Success? && i < |w.value| && forall j :: i < j < |w.value| ==> w.value[j].0 != w.value[i].0
    ensures var w := PathWrites(site, paths[|paths| - 1]).value;
      w[i].0 in ResolveAll(site, paths).value.pages && ResolveAll(site, paths).value.pages[w[i].0] == w[i].1
  {
    var w := PathWrites(site, paths[|paths| - 1]).value;
    var before := ResolveAll(site, paths[..|paths| - 1]).value;
    assert ResolveAll(site, paths).value == PutAll(before, w);
    LaterBatchWins(before, [], w, i);
    assert [] + w == w;
  }

  /** Without any of the three files a path writes only its route pages. */
  lemma NoFileOnlyRoutes(site: Site, webPath: string)
    requires IndexFile(site, webPath) !in site.files
    requires PageFile(site, webPath) !in site.files
    requires ExplodedFile(site, webPath) !in site.files
    ensures PathWrites(site, webPath) == Success(RouteWrites(site.routes, webPath, site.webJoin))
  {
    assert RouteWrites(site.routes, webPath, site.webJoin) + [] == RouteWrites(site.routes, webPath, site.webJoin);
  }

  // ---------------------------------------------------------------------
  // Sitemap properties

  lemma ShallowerOrder()
    ensures StrictWeakOrder(Shallower)
  {
  }

  /** The sitemap lists the stored pages shallowest first: no entry has
      more pieces than one after it. */
  lemma SitemapByDepth(store: Store)
    requires WellFormed(store)
    ensures forall i, j :: 0 <= i < j < |Sitemap(store)| ==> Depth(Sitemap(store)[i]) <= Depth(Sitemap(store)[j])
  {
    ShallowerOrder();
    SortByOrdered(Entries(Values(store)), Shallower);
  }

  /** The sitemap holds exactly one entry per stored page, path and title. */
  lemma SitemapIsPermutation(store: Store)
    requires WellFormed(store)
    ensures multiset(Sitemap(store)) == multiset(Entries(Values(store)))
    ensures |Sitemap(store)| == |store.keys|
  {
    SortByPermutes(Entries(Values(store)), Shallower);
  }

  /** Entries of equal depth keep the order of the map's keys. */
  lemma SitemapKeepsMapOrder(store: Store, y: SitemapItem)
    requires WellFormed(store)
    ensures TiedWith(Sitemap(store), y, Shallower) == TiedWith(Entries(Values(store)), y, Shallower)
  {
    ShallowerOrder();
    SortByStable(Entries(Values(store)), y, Shallower);
  }

  /** On a result, the sitemap's paths are exactly the keys of the map. */
  lemma SitemapPaths(site: Site, paths: seq<string>)
    requires ResolveAll(site, paths).Success?
    ensures var store := ResolveAll(site, paths).value;
      forall key :: key in store.pages <==> exists item :: item in Sitemap(store) && item.path == key
  {
    var store := ResolveAll(site, paths).value;
    PagesUnderOwnPath(site, paths);
    var entries := Entries(Values(store));
    SitemapIsPermutation(store);
    forall key ensures key in store.pages <==> exists item :: item in Sitemap(store) && item.path == key {
      if key in store.pages {
        var k :| 0 <= k < |store.keys| && store.keys[k] == key;
        assert entries[k] in multiset(Sitemap(store));
        assert entries[k].path == key;
      }
      if exists item :: item in Sitemap(store) && item.path == key {
        var item :| item in Sitemap(store) && item.path == key;
        assert item in multiset(entries);
        var k :| 0 <= k < |entries| && entries[k] == item;
        assert store.keys[k] in store.pages;
      }
    }
  }

  /** Three pages stored at depths 3, 2 and 4 (say `/a/b`, `/a`, `/a/b/c`)
      are listed as the second, the first, the third. */
  lemma SitemapExample(x: SitemapItem, y: SitemapItem, z: SitemapItem)
    requires Depth(x) == 3 && Depth(y) == 2 && Depth(z) == 4
    ensures SortBy([x, y, z], Shallower) == [y, x, z]
  {
    SortTwo(x, y);
    assert [x, y, z][..2] == [x, y];
    assert SortBy([x, y, z], Shallower) == Insert(z, [y, x], Shallower);
    InsertDeepest(z, y, x);
  }

  lemma SortTwo(x: SitemapItem, y: SitemapItem)
    requires Depth(y) < Depth(x)
    ensures SortBy([x, y], Shallower) == [y, x]
  {
    assert [x, y][..1] == [x];
    assert SortBy([x], Shallower) == [x];
  }

  lemma InsertDeepest(z: SitemapItem, a: SitemapItem, b: SitemapItem)
    requires Depth(a) < Depth(z) && Depth(b) < Depth(z)
    ensures Insert(z, [a, b], Shallower) == [a, b, z]
  {
    assert [a, b][1..] == [b];
    assert Insert(z, [b], Shallower) == [b, z];
  }
}
