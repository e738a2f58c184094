# zzap build orchestration in Dafny

A model of how the `zzap` static-site generator turns a site into pages.
It covers four parts:

- **The markdown page builder** (`PageBuilder.fromMarkdown`). It splits off
  the first `---` front-matter block and loads it as YAML. In explode mode it
  scans the body line by line, starts a document at each `# ` heading and
  gives it a slug that a per-call counter makes distinct. Each document is
  rendered and given a title, description and layout by fallback.
- **The path resolver** (`getPagesAndSitemap`). Every web path is offered
  to every declared route: `$name` segments match anything and bind
  parameters. A route's error is isolated, so it adds nothing. Then the
  path's markdown file is looked up in three places. All pages go into a
  `Map` keyed by path, and the sitemap lists the stored pages sorted stably
  by depth.
- **Path enumeration** (`getPaths`). Each route contributes its own path,
  or one path per params entry with `$key` placeholders substituted. Each
  markdown file under the routes directory contributes its cleaned-up path.
- **The plugin phase runner** (`runPluginsWithLifecycle`) and the phases of
  `ZzapBundler.setupBuild` and `ZzapBundler.build`. Core plugins come before
  user plugins. A hook error ends the phase, and only plugins whose hook ran
  are logged. The log is sorted with `core-` names first. The heads and
  scripts from the build hooks are collected for the render hooks.

The library calls are parameters of the model: `yaml.load`, lodash
`kebabCase`, markdown-it `render` (the `Libraries` record), and
`WebPath.join` and `path.join` (fields of `Site`). The file system is a map
from file path to text. The glob scans are a list of file paths given as
input. Route handlers and plugin hooks are function-valued fields whose
results are `Result`/`Option` values.

Each imperative part of the source is a `method` with loop invariants,
proved equal to a function that states what it computes:

- the explode line scan (`PageBuilder.ExplodeLines`)
- the render and push loops over the documents (`PageBuilder.RenderDocuments`)
- parameter binding (`Routes.BindParams`)
- placeholder substitution and path collection (`PathEnumeration.SubstituteParams`, `PathsOfRoute`, `GetPaths`)
- the page store, a class over a key sequence and a map (`PageStore.PageMap`)
- the per-path route and markdown writes (`Resolver.ApplyRoutes` with one pass `Resolver.ApplyRoute`, `Resolver.ApplyMarkdown`)
- the phase runner (`Plugins.RunPluginsWithLifecycle`)
- the two build entry points (`Bundler.SetupBuild`, `Bundler.Build`)

The properties are lemmas about those functions.

Modules, in dependency order:

- `Wrappers`: `Option` and `Result`.
- `Sequences`: small generic sequence facts.
- `Strings`: the JavaScript string operations used, namely:
  - `split`, `join`, `indexOf`
  - `replace` with a string pattern, including `$` pattern expansion
  - `trim`
  - number-to-string
  - the code-point order that stands in for `localeCompare`
- `Patterns`: the lazy `(.*?)` first-match regexes.
- `StableSort`: a stable sort, proved ordered, a permutation and stable.
- `Pages`: JavaScript values, truthiness, `||`, and page records.
- `PageBuilder`
- `Routes`
- `PathEnumeration`
- `PageStore`
- `Resolver`
- `Plugins`
- `Bundler`

## Model

| member | source | states |
|---|---|---|
| PageBuilder.FailsExactlyOnYamlError | packages/zzap/src/domains/page/ZzapPageBuilder.tsx:19-25 | the builder fails exactly when loading the front matter fails, and with that error |
| PageBuilder.FrontMatterAnywhere | packages/zzap/src/domains/page/ZzapPageBuilder.tsx:19-32 | the first `---\n…\n---` block is taken wherever it sits, and only it is cut from the body |
| PageBuilder.NoFrontMatter | packages/zzap/src/domains/page/ZzapPageBuilder.tsx:19-25 | without a block the body is the whole text, YAML is loaded from `""`, and a load to nothing gives no data |
| PageBuilder.CustomFieldsOnEveryPage | packages/zzap/src/domains/page/ZzapPageBuilder.tsx:107-117 | every page carries exactly the front-matter keys other than the builder's own field names, with their values |
| PageBuilder.SinglePage | packages/zzap/src/domains/page/ZzapPageBuilder.tsx:37-41 | without explode there is exactly one page, at the input path, whose HTML is the render of the whole body |
| PageBuilder.HeadingIndices | packages/zzap/src/domains/page/ZzapPageBuilder.tsx:48-49 | the positions of the lines starting with `# `: all of them, ascending |
| PageBuilder.ExplodedDocuments | packages/zzap/src/domains/page/ZzapPageBuilder.tsx:43-84 | one document per heading line |
| PageBuilder.ExplodeLines | packages/zzap/src/domains/page/ZzapPageBuilder.tsx:43-84 | the line loop, with its counter map and current document, builds exactly the exploded documents |
| PageBuilder.ExplodedPages | packages/zzap/src/domains/page/ZzapPageBuilder.tsx:43-84 | in explode mode the k-th page belongs to the k-th heading. Its path is the parent of the input path, then `/`, then the slug. Its HTML renders the heading line, then each later line up to the next heading, each followed by a newline |
| PageBuilder.HeadingStep | packages/zzap/src/domains/page/ZzapPageBuilder.tsx:49-72 | a heading line closes the current document and opens one under the slug counted so far |
| PageBuilder.NextHeading | packages/zzap/src/domains/page/ZzapPageBuilder.tsx:49-72 | a heading adds one document and raises its id's count by one |
| PageBuilder.PlainStep | packages/zzap/src/domains/page/ZzapPageBuilder.tsx:73-78 | any other line goes onto the current document with a newline, and is dropped before the first heading |
| PageBuilder.LastDocumentGrows | packages/zzap/src/domains/page/ZzapPageBuilder.tsx:74-77 | appending a plain line extends only the last document's markdown |
| PageBuilder.HeadingIndicesStep | packages/zzap/src/domains/page/ZzapPageBuilder.tsx:48-49 | one more line adds its position exactly when it is a heading |
| PageBuilder.CountStep | packages/zzap/src/domains/page/ZzapPageBuilder.tsx:56-58 | the counter of an id goes up by one per heading with that id, and no other counter changes |
| PageBuilder.NoHeadingNoDocuments | packages/zzap/src/domains/page/ZzapPageBuilder.tsx:47-84 | a body with no heading gives no document |
| PageBuilder.PreambleDropped | packages/zzap/src/domains/page/ZzapPageBuilder.tsx:73-78 | lines before the first heading change neither the documents nor their slugs |
| PageBuilder.IdCountAfterPreamble | packages/zzap/src/domains/page/ZzapPageBuilder.tsx:56-58 | lines without headings leave every count as it is |
| PageBuilder.IdCountWithoutHeadings | packages/zzap/src/domains/page/ZzapPageBuilder.tsx:45 | the counter starts empty on every call, so with no heading every count is 0 |
| PageBuilder.IdCountGrows | packages/zzap/src/domains/page/ZzapPageBuilder.tsx:56-58 | after a heading its id's count is strictly larger |
| PageBuilder.SlugInjective | packages/zzap/src/domains/page/ZzapPageBuilder.tsx:60-62 | the suffixed slug of an id determines the count |
| PageBuilder.SameIdDistinctPaths | packages/zzap/src/domains/page/ZzapPageBuilder.tsx:54-68 | two headings with the same id never get the same path |
| PageBuilder.FirstHeadingKeepsId | packages/zzap/src/domains/page/ZzapPageBuilder.tsx:45-68 | the first heading of an id gets the id itself as slug, with no suffix |
| PageBuilder.IdCountBeforeFirst | packages/zzap/src/domains/page/ZzapPageBuilder.tsx:56-58 | before the first heading of an id its count is 0 |
| PageBuilder.HeadingText | packages/zzap/src/domains/page/ZzapPageBuilder.tsx:54 | the title is the heading line without its leading `# ` |
| PageBuilder.ParentOfXPage | packages/zzap/src/domains/page/ZzapPageBuilder.tsx:64-67 | dropping the last segment of `/x/page` gives `/x` |
| PageBuilder.ExplodeExample | packages/zzap/src/domains/page/ZzapPageBuilder.tsx:54-68 | `# A`, `# A`, `# B` under a path whose parent is `/x` give `/x/a`, `/x/a-1`, `/x/b` |
| PageBuilder.SlugCollision | packages/zzap/src/domains/page/ZzapPageBuilder.tsx:55-62 | `# A`, `# A`, `# A 1` give two pages at `/x/a-1`, so exploded paths are not unique |
| PageBuilder.TwoHeadingsSameId | packages/zzap/src/domains/page/ZzapPageBuilder.tsx:45-72 | two headings with one id give the id and the id with `-1`, and count nothing else |
| PageBuilder.ThreeHeadings | packages/zzap/src/domains/page/ZzapPageBuilder.tsx:45-72 | a repeat gets the suffix `-1`, and a new id after it gets no suffix |
| PageBuilder.OneHeading | packages/zzap/src/domains/page/ZzapPageBuilder.tsx:49-72 | a lone heading gives one document under its id and counts that id once |
| PageBuilder.HeadingThenLine | packages/zzap/src/domains/page/ZzapPageBuilder.tsx:69-77 | a heading and then a plain line give one document: the heading line, the plain line and a newline |
| PageBuilder.HeadingJoinsNextLine | packages/zzap/src/domains/page/ZzapPageBuilder.tsx:69-76 | the heading line gets no newline, so `# A` then `Hello` gives the markdown `# AHello\n` |
| PageBuilder.ReadCount | packages/zzap/src/domains/page/ZzapPageBuilder.tsx:45-56 | reading the plain-object counter gives the stored count, and for a missing id a value only when the id is the inherited `constructor` |
| PageBuilder.SlugAsWritten | packages/zzap/src/domains/page/ZzapPageBuilder.tsx:56-62 | with a numeric count the slug as written is the corrected slug |
| PageBuilder.RunAgreesWithCorrected | packages/zzap/src/domains/page/ZzapPageBuilder.tsx:45-84 | while no heading has the id `constructor`, the loop as written keeps every count as the number of headings of that id, never stores `constructor`, and holds the exploded documents |
| PageBuilder.AsWrittenAgrees | packages/zzap/src/domains/page/ZzapPageBuilder.tsx:45-84 | on every body in which no heading has the id `constructor`, the documents as written are exactly the exploded documents of the corrected model |
| PageBuilder.ConstructorSlugAsWritten | packages/zzap/src/domains/page/ZzapPageBuilder.tsx:45-62 | as written, a first heading `# Constructor` gets the path `<parent>/constructor-` followed by the runtime's source text of `Object` (`ObjectSource`, the multi-line JavaScriptCore text under Bun), where the corrected model gives `<parent>/constructor` |
| PageBuilder.SecondConstructorAsWritten | packages/zzap/src/domains/page/ZzapPageBuilder.tsx:45-62 | as written, a second `# Constructor` reads the string the first one stored and gets that string followed by `1` as suffix |
| PageBuilder.Fallback | packages/zzap/src/domains/page/ZzapPageBuilder.tsx:94-95 | a truthy front-matter field is used as is; otherwise the fallback text is, `""` included |
| PageBuilder.RenderedPages | packages/zzap/src/domains/page/ZzapPageBuilder.tsx:87-120 | one page per document, in document order, each the page of its own document |
| PageBuilder.RenderDocuments | packages/zzap/src/domains/page/ZzapPageBuilder.tsx:87-120 | the render and push loops give exactly those pages |
| PageBuilder.FrontMatterFieldsWin | packages/zzap/src/domains/page/ZzapPageBuilder.tsx:94-102 | a truthy front-matter title, description or layout is used as is, and the layout defaults to `"default"` |
| PageBuilder.TitleFromFirstHeading | packages/zzap/src/domains/page/ZzapPageBuilder.tsx:91-94 | without a truthy front-matter title, the title is the text of the first one-line `<h1>` of the HTML |
| PageBuilder.DescriptionDefaultsToEmpty | packages/zzap/src/domains/page/ZzapPageBuilder.tsx:92-95 | without a truthy front-matter description or any one-line `<p>`, the description is `""` |
| PageBuilder.FromMarkdown | packages/zzap/src/domains/page/ZzapPageBuilder.tsx:13-123 | the builder, with its document and page loops, gives exactly the pages the lemmas above describe |
| Patterns.MatchOfDelimited | packages/zzap/src/domains/page/ZzapPageBuilder.tsx:19-20 | the lazy `open(.*?)close` regex captures the text between the first opening and the first closing after it, and `replace` cuts out that match |
| Patterns.CaptureIsShortest | packages/zzap/src/domains/page/ZzapPageBuilder.tsx:91-92 | the captured text never contains the closing delimiter |
| Patterns.FirstMatch | packages/zzap/src/domains/page/ZzapPageBuilder.tsx:91-92 | the regex match found is the leftmost one and the shortest at its start |
| Strings.ReplaceFirstPlain | packages/zzap/src/domains/bundler/ZzapBundler.tsx:282 | `replace` with a string pattern replaces only the first occurrence |
| Strings.Split | packages/zzap/src/domains/bundler/ZzapBundler.tsx:134-135 | `split` gives at least one part, none containing the separator, and joining the parts gives the text back |
| Strings.SplitOfJoin | packages/zzap/src/domains/bundler/ZzapBundler.tsx:134-135 | splitting parts joined with a separator they do not contain gives the parts back |
| Strings.DecimalRoundTrip | packages/zzap/src/domains/page/ZzapPageBuilder.tsx:61 | the decimal text of a count reads back as that count |
| Strings.LexLessTotal | packages/zzap/src/domains/bundler/ZzapBundler.tsx:362 | two distinct names are always ordered one way or the other |
| Routes.Every | packages/zzap/src/domains/bundler/ZzapBundler.tsx:141-144 | true exactly when each pattern segment is a placeholder or equals the path segment at its place |
| Routes.MatchesExactly | packages/zzap/src/domains/bundler/ZzapBundler.tsx:134-144 | a route matches exactly when the segment counts are equal and every segment not starting with `$` is equal |
| Routes.BlogExample | packages/zzap/src/domains/bundler/ZzapBundler.tsx:134-144 | `/blog/$slug` matches `/blog/my-post`, and `/blog/$slug/$id` does not |
| Routes.FirstIndex | packages/zzap/src/domains/bundler/ZzapBundler.tsx:153 | `indexOf` gives the first place of the segment |
| Routes.BindParams | packages/zzap/src/domains/bundler/ZzapBundler.tsx:147-160 | the binding loop gives each placeholder's name, without `$`, bound to the path segment at the first place of that placeholder, and the pattern with the values put in |
| Routes.PlaceholderName | packages/zzap/src/domains/bundler/ZzapBundler.tsx:152 | a name is bound exactly when `$` plus the name is a segment of the pattern |
| Routes.ParamsOfPlaceholders | packages/zzap/src/domains/bundler/ZzapBundler.tsx:150-155 | each placeholder's name is bound to the value at the placeholder's first place |
| Routes.InjectedIsPath | packages/zzap/src/domains/bundler/ZzapBundler.tsx:147-165 | on a match without a repeated placeholder, putting the values in gives the path's own segments |
| Routes.RepeatedPlaceholder | packages/zzap/src/domains/bundler/ZzapBundler.tsx:153 | `/$a/$a` on `/x/y` binds `a` to `x` and gives `/x/x` |
| PathEnumeration.GetPaths | packages/zzap/src/domains/bundler/ZzapBundler.tsx:253-320 | gives the routes' paths in route order, then one cleaned path per markdown file in scan order |
| PathEnumeration.PathsOfRoute | packages/zzap/src/domains/bundler/ZzapBundler.tsx:272-293 | the paths of one route, stopping at the entry that throws |
| PathEnumeration.SubstituteParams | packages/zzap/src/domains/bundler/ZzapBundler.tsx:279-283 | the placeholder loop replaces each key's first `$key` in turn |
| PathEnumeration.RouteContributions | packages/zzap/src/domains/bundler/ZzapBundler.tsx:273-287 | without params or with a falsy result a route gives its own path once. With params it gives one path per entry, and none for an empty list. A throw gives nothing |
| PathEnumeration.EntryPathsPrefix | packages/zzap/src/domains/bundler/ZzapBundler.tsx:278-289 | entries before one that throws keep their paths, in order, and none after it does |
| PathEnumeration.RoutesIsolated | packages/zzap/src/domains/bundler/ZzapBundler.tsx:271-295 | each route's paths do not depend on the other routes |
| PathEnumeration.RoutesPathsSnoc | packages/zzap/src/domains/bundler/ZzapBundler.tsx:271-295 | one more route appends its own paths |
| PathEnumeration.ThrowingRouteAddsNothing | packages/zzap/src/domains/bundler/ZzapBundler.tsx:289-293 | a route whose `getPathParams` throws adds no path and leaves the others' paths as they are |
| PathEnumeration.SubstituteOne | packages/zzap/src/domains/bundler/ZzapBundler.tsx:282 | a placeholder that occurs once is replaced by a value free of `$` |
| PathEnumeration.FirstOccurrenceOnly | packages/zzap/src/domains/bundler/ZzapBundler.tsx:282 | `/$a/$a` with `a` = `x` gives `/x/$a` |
| PathEnumeration.StripSuffix | packages/zzap/src/domains/bundler/ZzapBundler.tsx:309-311 | an anchored suffix regex removes the suffix when it is there and changes nothing otherwise |
| PathEnumeration.CleanPageFile | packages/zzap/src/domains/bundler/ZzapBundler.tsx:307-311 | `<routesDir><page>.md` cleans to `<page>` |
| PathEnumeration.CleanIndexFile | packages/zzap/src/domains/bundler/ZzapBundler.tsx:307-311 | `<routesDir><dir>/index.mdx` cleans to `<dir>` |
| PathEnumeration.CleanExplodedFile | packages/zzap/src/domains/bundler/ZzapBundler.tsx:307-311 | `<routesDir><dir>/!index.md` cleans to `<dir>/!index`: the `!index` segment stays |
| PathEnumeration.DoubleExtension | packages/zzap/src/domains/bundler/ZzapBundler.tsx:309-310 | `.md.md` loses both extensions, one per `replace` |
| PageStore.PageMap.constructor | packages/zzap/src/domains/bundler/ZzapBundler.tsx:114 | a new store is empty |
| PageStore.PageMap.Set | packages/zzap/src/domains/bundler/ZzapBundler.tsx:172-175 | `set` stores the page under the key, and the new state is `Put` of the old one |
| PageStore.PageMap.Size | packages/zzap/src/domains/bundler/ZzapBundler.tsx:105 | `size` is the number of keys |
| PageStore.Values | packages/zzap/src/domains/bundler/ZzapBundler.tsx:96 | one value per key, in key order: the i-th value is the page stored under the i-th key |
| PageStore.PutLookup | packages/zzap/src/domains/bundler/ZzapBundler.tsx:228 | after `set` the key holds the page and every other key is unchanged |
| PageStore.PutKeepsPosition | packages/zzap/src/domains/bundler/ZzapBundler.tsx:228 | a key already present keeps its insertion position, and a new key goes last |
| PageStore.LastWriteWins | packages/zzap/src/domains/bundler/ZzapBundler.tsx:228 | a second `set` of a key replaces the first |
| PageStore.PutAllLookup | packages/zzap/src/domains/bundler/ZzapBundler.tsx:227-229 | after a batch of writes, a key is present exactly when it was before or was written, and it holds its last write |
| PageStore.PutAllConcat | packages/zzap/src/domains/bundler/ZzapBundler.tsx:227-229 | writing two batches in turn is writing their concatenation |
| PageStore.LaterBatchWins | packages/zzap/src/domains/bundler/ZzapBundler.tsx:227-229 | the last write of a key in a later batch wins over anything before it |
| PageStore.PutAllSelfKeyed | packages/zzap/src/domains/bundler/ZzapBundler.tsx:227-229 | writes of pages under their own paths keep every page under its own path |
| Resolver.RouteWrite | packages/zzap/src/domains/bundler/ZzapBundler.tsx:162-176 | a route writes at most one page, only when it matches, and under the page's own overwritten path |
| Resolver.ApplyRoutes | packages/zzap/src/domains/bundler/ZzapBundler.tsx:133-183 | the route loop of one path leaves the store with the route writes applied in route order |
| Resolver.ApplyRoute | packages/zzap/src/domains/bundler/ZzapBundler.tsx:134-182 | one pass of that loop sets a matching route's page under the path with its parameters injected, and otherwise changes nothing |
| Resolver.FailingRouteIsAbsent | packages/zzap/src/domains/bundler/ZzapBundler.tsx:162-181 | a route whose `getPage` throws or gives nothing writes as if it were not declared |
| Resolver.RouteWritesConcat | packages/zzap/src/domains/bundler/ZzapBundler.tsx:133-183 | the writes of two route lists are those of each list, in order |
| Resolver.MarkdownFile | packages/zzap/src/domains/bundler/ZzapBundler.tsx:186-213 | `index.md` is taken first, then `<webPath>.md`, then the parent's `!index.md`. The result is nothing exactly when none of them exists |
| Resolver.KeyedByPath | packages/zzap/src/domains/bundler/ZzapBundler.tsx:227-229 | every markdown page is written under its own path, in order |
| Resolver.NoFileOnlyRoutes | packages/zzap/src/domains/bundler/ZzapBundler.tsx:211-213 | with no markdown file a path gives only its route pages, and no error |
| Resolver.ApplyMarkdown | packages/zzap/src/domains/bundler/ZzapBundler.tsx:185-229 | the markdown step reports the YAML error and leaves the store unchanged, or applies the markdown pages to the store |
| Resolver.PathWrites | packages/zzap/src/domains/bundler/ZzapBundler.tsx:131-229 | a path fails exactly when its markdown fails. Otherwise its route writes come first, then its markdown writes |
| Resolver.MarkdownWinsOverRoutes | packages/zzap/src/domains/bundler/ZzapBundler.tsx:185-229 | a markdown page overwrites a route page with the same key, since the markdown lookup always runs after the routes |
| Resolver.LastPathWins | packages/zzap/src/domains/bundler/ZzapBundler.tsx:131-231 | the last path's last write of a key is what the store holds |
| Resolver.PagesUnderOwnPath | packages/zzap/src/domains/bundler/ZzapBundler.tsx:172-228 | every stored page's `path` is its key |
| Resolver.FailsExactlyOnMarkdownError | packages/zzap/src/domains/bundler/ZzapBundler.tsx:131-231 | resolving fails exactly when some path's markdown fails, with the first such error in path order; route errors never end it |
| Resolver.FirstFailureDecides | packages/zzap/src/domains/bundler/ZzapBundler.tsx:231 | once a path has failed, later paths do not change the outcome |
| Resolver.FailsExactlyOnPathError | packages/zzap/src/domains/bundler/ZzapBundler.tsx:231 | the paths together fail exactly when one fails, with the first error |
| Resolver.GetPagesAndSitemap | packages/zzap/src/domains/bundler/ZzapBundler.tsx:110-251 | the resolver, with its store object, gives exactly the resolved store and its sitemap |
| Resolver.Resolve | packages/zzap/src/domains/bundler/ZzapBundler.tsx:110-251 | on success the sitemap is that of the store, and it succeeds exactly when the store can be built |
| Resolver.Entries | packages/zzap/src/domains/bundler/ZzapBundler.tsx:233-239 | one `{path, title}` item per page, in map order |
| Resolver.ShallowerOrder | packages/zzap/src/domains/bundler/ZzapBundler.tsx:240-248 | the depth comparator is a strict weak order |
| Resolver.SitemapByDepth | packages/zzap/src/domains/bundler/ZzapBundler.tsx:240-248 | sitemap items are in ascending `split("/")` length |
| Resolver.SitemapIsPermutation | packages/zzap/src/domains/bundler/ZzapBundler.tsx:233-248 | the sitemap holds exactly the store's items, one per entry |
| Resolver.SitemapKeepsMapOrder | packages/zzap/src/domains/bundler/ZzapBundler.tsx:240-248 | items of equal depth keep the store's insertion order |
| Resolver.SitemapPaths | packages/zzap/src/domains/bundler/ZzapBundler.tsx:233-248 | a path is stored exactly when the sitemap lists it |
| Resolver.SitemapExample | packages/zzap/src/domains/bundler/ZzapBundler.tsx:240-248 | items of depths 3, 2, 4, such as `/a/b`, `/a`, `/a/b/c`, are listed as `/a`, `/a/b`, `/a/b/c` |
| StableSort.SortByPermutes | packages/zzap/src/domains/bundler/ZzapBundler.tsx:240 | `sort` gives a permutation of its input |
| StableSort.InsertPermutes | packages/zzap/src/domains/bundler/ZzapBundler.tsx:240 | one insertion step adds the element and keeps every other one |
| StableSort.SortByOrdered | packages/zzap/src/domains/bundler/ZzapBundler.tsx:240 | with a strict weak order, the sorted list is ordered |
| StableSort.SortByStable | packages/zzap/src/domains/bundler/ZzapBundler.tsx:240 | items the comparator ties keep their relative order |
| Plugins.RunPluginsWithLifecycle | packages/zzap/src/domains/bundler/ZzapBundler.tsx:322-372 | the phase runs the core plugins, then the user's. It gives the sorted log of those that ran and the collected heads and scripts, or the first hook error |
| Plugins.Outcomes | packages/zzap/src/domains/bundler/ZzapBundler.tsx:342-358 | on success there is one outcome per plugin |
| Plugins.OutcomesAreOwn | packages/zzap/src/domains/bundler/ZzapBundler.tsx:342-358 | each plugin's outcome is what its own hook gave |
| Plugins.PhaseFailsExactlyOnHookError | packages/zzap/src/domains/bundler/ZzapBundler.tsx:342-358 | a phase fails exactly when some hook fails, with the first error in plugin order |
| Plugins.FirstHookErrorDecides | packages/zzap/src/domains/bundler/ZzapBundler.tsx:358 | later plugins do not change a failed phase |
| Plugins.OutcomesConcat | packages/zzap/src/domains/bundler/ZzapBundler.tsx:330-339 | the core and user lists run as one list, in order |
| Plugins.RanNamesExactly | packages/zzap/src/domains/bundler/ZzapBundler.tsx:346-355 | a name is logged exactly when that plugin's hook ran |
| Plugins.LogIsRanNames | packages/zzap/src/domains/bundler/ZzapBundler.tsx:346-367 | the log is a permutation of the names of the plugins that ran |
| Plugins.LogBeforeOrder | packages/zzap/src/domains/bundler/ZzapBundler.tsx:360-367 | the log comparator is a strict weak order |
| Plugins.LogIsCoreFirst | packages/zzap/src/domains/bundler/ZzapBundler.tsx:360-367 | `core-` names come first. Within each group the names are in ascending order |
| Plugins.LogOrderExample | packages/zzap/src/domains/bundler/ZzapBundler.tsx:360-367 | `zeta`, `core-b`, `core-a`, `alpha` are logged as `core-a`, `core-b`, `alpha`, `zeta` |
| Plugins.CollectedConcat | packages/zzap/src/domains/bundler/ZzapBundler.tsx:64-67 | the heads and scripts of two runs are collected one after the other |
| Bundler.RequestedPaths | packages/zzap/src/domains/bundler/ZzapBundler.tsx:43 | one requested path per comma-separated part, each the trimmed part at its position. No path contains a comma, and none starts or ends with whitespace |
| Bundler.SetupBuild | packages/zzap/src/domains/bundler/ZzapBundler.tsx:24-40 | setup runs the setup hooks, logs those that have one, and fails with the first hook error |
| Bundler.SetupFailsExactlyOnHookError | packages/zzap/src/domains/bundler/ZzapBundler.tsx:24-40 | setup fails exactly when some plugin's setup hook fails; otherwise a name is in the log exactly when a plugin of that name has a setup hook |
| Bundler.SetupLogNames | packages/zzap/src/domains/bundler/ZzapBundler.tsx:24-40 | the names in a successful setup log are exactly those of the plugins with a setup hook |
| Bundler.Build | packages/zzap/src/domains/bundler/ZzapBundler.tsx:41-107 | the build runs the build hooks, takes the paths, resolves pages and sitemap, and runs the render hooks |
| Bundler.BuildHookErrorEndsBuild | packages/zzap/src/domains/bundler/ZzapBundler.tsx:53-71 | a build hook error ends the build before any page is resolved, whatever the site |
| Bundler.MarkdownErrorEndsBuild | packages/zzap/src/domains/bundler/ZzapBundler.tsx:79-82 | a YAML error ends the build with the first such error in path order |
| Bundler.BuildSucceedsWithoutErrors | packages/zzap/src/domains/bundler/ZzapBundler.tsx:41-107 | without hook or YAML errors the build succeeds, whatever the route handlers throw |
| Bundler.RequestedPathsOnly | packages/zzap/src/domains/bundler/ZzapBundler.tsx:73-77 | with paths requested, the markdown files of the site are not scanned |
| Bundler.BuildRendersResolvedPages | packages/zzap/src/domains/bundler/ZzapBundler.tsx:84-106 | the render hooks get the heads and scripts of the build hooks, the values of the resolved store and its sitemap; the report holds both phases' logs, that store and sitemap, and the number of stored paths as page count |
| Bundler.RenderHookErrorEndsBuild | packages/zzap/src/domains/bundler/ZzapBundler.tsx:84-104 | after the build hooks and the resolution succeed, an error of a render hook ends the build with that error |
| Bundler.HeadsInRegistrationOrder | packages/zzap/src/domains/bundler/ZzapBundler.tsx:50-67 | the heads reach the render hooks in registration order, the core plugins' first |

## Left out

- Concurrency. The `Promise.all` fan-outs (the page store writes, the `paths` pushes, the hook runs) are taken one after the other in list order. Real write order depends on timing, and the first failure in list order stands in for the first rejection. The source starts every hook and every path's lookup before any of them rejects, so hooks after a failing one still run, with their effects; the model stops at the first failure.
- `Date.now`, logging, and the `$`, `Bun` and `logger` handles given to hooks are not modelled. Neither are the `markdownToPage` helper in the route context and the `config` object, beyond the routes directory, routes and plugins.
- The file system is a map from path to text. `Bun.file().exists()` is membership and `.text()` is lookup. The two glob scans are the input list `markdownFiles`, in the order they list files.
- The seven core plugins' hook bodies are not part of this model: the core plugins are the parameter `core`. Neither are `WebPath.join`, `path.join`, `yaml.load`, `kebabCase` and markdown-it, which are parameters.
- The config schema, the legacy `zzapBundler.tsx` `generate()`, the site configuration and `client.tsx` are not part of this model.
- `yaml.load` giving a non-object top-level value (a number or a string) is not modelled. The result is a map of fields, or nothing.
- Strings are sequences of code points, not UTF-16 units.
- Numbers are unbounded integers.
- `localeCompare` is the plain code-point order.
- Plugins.LogBefore: `localeCompare` is modelled as code-point order, so the log order is proved for that order, not for a locale's collation.
- Resolver.SitemapExample: stated for items of the given depths rather than for the literal paths, whose depths follow from `Strings.Split`.
- PageBuilder.ExplodeExample: stated for any path whose parent is `/x`; `PageBuilder.ParentOfXPage` shows `/x/page` is one.
- PageBuilder.SlugCollision: stated for any path whose parent is `/x`, as `ExplodeExample` is.
- Routes.BlogExample: stated for patterns and paths with the given segments; `Routes.SplitBlogSlug`, `Routes.SplitBlogSlugId` and `Routes.SplitBlogPost` give those segments.
- Plugins.Phase: a log entry is the plugin's name only. The source's entries also carry a closure that logs the plugin's timing, which is what tells apart entries the comparator ties; with names only, the stability of the log sort says nothing, so it is not stated.
- PageBuilder.ExplodeLines, PageBuilder.ExplodedDocuments and PageBuilder.FromMarkdown use the corrected counter: a heading whose id is `constructor` gets the slug `constructor` (then `constructor-1`, ...), where the source gives `constructor-` followed by the text of the function `Object` (then that text followed by `1`). `PageBuilder.AsWrittenAgrees` shows the two agree on every other body; `Resolver.GetPagesAndSitemap`, `Bundler.BuildOutcome` and `Bundler.Build` inherit the same difference.
- PageBuilder.ReadCount: of the names a plain object inherits, only `constructor` is modelled, because `kebabCase` gives lower-case words joined by `-` and no other inherited name has that form.
- Duplicated paths in a full build are not removed, by the source either. A path is resolved once per occurrence.

Where the code and the intuitive reading of the design differ, the model follows the code:

- A YAML error in a markdown file is not caught, so it ends `getPagesAndSitemap` and the build. Only route handler errors are isolated.
- The markdown lookup runs for every path, also after a route matched, and its pages are written after the route pages.
- The heads and scripts are collected in the order the build hooks run, which here is registration order. They are not in the sorted log order.
- The sitemap depth is the number of parts `split("/")` gives, empty ones included.
- A heading line gets no newline, so it is joined to the line after it in the rendered markdown.

## Findings

| source | as written | input that shows it | evidently intended | confidence | as-written member | corrected member |
|---|---|---|---|---|---|---|
| packages/zzap/src/domains/page/ZzapPageBuilder.tsx:45-62 | the duplicate counter is a plain object, so `idCounter["constructor"]` reads the inherited `Object` function. That function is truthy, so it is taken as a count, and the slug becomes `constructor-` followed by the function's source text | an exploded file whose first heading is `# Constructor` | the first heading of any id, `constructor` included, gets the id itself as slug | not executed | PageBuilder.ConstructorSlugAsWritten | PageBuilder.FirstHeadingKeepsId |
