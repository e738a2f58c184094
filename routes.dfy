/** Declared routes: a path pattern whose `$name` segments stand for any
    value, the page handler, and what `getPathParams` gives. Matching and
    parameter binding split both paths on `/`. */
module Routes {
  import opened Wrappers
  import opened Strings
  import opened Pages

  /** One params object of `getPathParams`: `Object.entries(params)` in
      order, or a value whose `params` cannot be listed, so that
      `Object.entries` throws. */
  datatype ParamsEntry =
    | Entry(params: seq<(string, string)>)
    | Unlisted

  /** What `route.getPathParams?.(ctx)` gives: nothing or a falsy value
      (also when the route has no `getPathParams`), a thrown error, or a
      list of params objects. */
  datatype PathParams =
    | NoPathParams
    | ParamsThrow(error: Exception)
    | ParamsList(entries: seq<ParamsEntry>)

  /** A declared route. `getPage` receives the bound parameters and the
      path with the parameters put in; it returns a page, nothing, or the
      error it throws. */
  datatype Route = Route(
    path: string,
    getPage: (map<string, string>, string) -> Result<Option<Page>, Exception>,
    pathParams: PathParams)

  predicate IsPlaceholder(segment: string)
  {
    StartsWith(segment, "$")
  }

  /** `routeSegments.every(...)`: each route segment is a placeholder or
      equals the path segment at the same place. */
  function Every(routeSegments: seq<string>, pathSegments: seq<string>): (b: bool)
    requires |routeSegments| == |pathSegments|
    ensures b <==> forall i :: 0 <= i < |routeSegments| ==>
      IsPlaceholder(routeSegments[i]) || routeSegments[i] == pathSegments[i]
  {
    if routeSegments == [] then true
    else
      && (IsPlaceholder(routeSegments[0]) || routeSegments[0] == pathSegments[0])
      && Every(routeSegments[1..], pathSegments[1..])
  }

  /** A route pattern matches a web path when both have as many segments
      and the `every` test holds. */
  predicate Matches(routePath: string, webPath: string)
  {
    var routeSegments, pathSegments := Split(routePath, '/'), Split(webPath, '/');
    |routeSegments| == |pathSegments| && Every(routeSegments, pathSegments)
  }

  /** `s.indexOf(x)` for an element that is present. */
  function FirstIndex(s: seq<string>, x: string): (i: nat)
    requires x in s
    ensures i < |s| && s[i] == x
    ensures forall j :: 0 <= j < i ==> s[j] != x
  {
    if s[0] == x then 0 else 1 + FirstIndex(s[1..], x)
  }

  /** The value a placeholder segment binds: the path segment at the first
      place the same segment occurs in the pattern. */
  function BoundValue(routeSegments: seq<string>, pathSegments: seq<string>, segment: string): string
    requires |routeSegments| == |pathSegments| && segment in routeSegments
  {
    pathSegments[FirstIndex(routeSegments, segment)]
  }

  /** The parameters of a match: each placeholder's name, without its `$`,
      bound to its value. */
  function BoundParams(routeSegments: seq<string>, pathSegments: seq<string>): map<string, string>
    requires |routeSegments| == |pathSegments|
  {
    map name | name in PlaceholderNames(routeSegments) && "$" + name in routeSegments
      :: BoundValue(routeSegments, pathSegments, "$" + name)
  }

  /** The names of the pattern's placeholders. */
  function PlaceholderNames(routeSegments: seq<string>): set<string>
  {
    set segment | segment in routeSegments && IsPlaceholder(segment) :: segment[1..]
  }

  lemma PlaceholderName(routeSegments: seq<string>, name: string)
    ensures name in PlaceholderNames(routeSegments) <==> "$" + name in routeSegments
  {
    if "$" + name in routeSegments {
      assert IsPlaceholder("$" + name) && ("$" + name)[1..] == name;
    }
    if name in PlaceholderNames(routeSegments) {
      var segment :| segment in routeSegments && IsPlaceholder(segment) && segment[1..] == name;
      assert segment == "$" + name;
    }
  }

  /** The pattern's segments with each placeholder replaced by its value. */
  function InjectedSegments(routeSegments: seq<string>, pathSegments: seq<string>): (r: seq<string>)
    requires |routeSegments| == |pathSegments|
    ensures |r| == |routeSegments|
  {
    seq(|routeSegments|, i requires 0 <= i < |routeSegments| =>
      if IsPlaceholder(routeSegments[i]) then BoundValue(routeSegments, pathSegments, routeSegments[i])
      else routeSegments[i])
  }

  /** The binding loop: `params[key] = value` and the injected segments,
      one route segment at a time. */
  method BindParams(routeSegments: seq<string>, pathSegments: seq<string>)
    returns (params: map<string, string>, segments: seq<string>)
    requires |routeSegments| == |pathSegments|
    ensures params == BoundParams(routeSegments, pathSegments)
    ensures segments == InjectedSegments(routeSegments, pathSegments)
  {
    params := map[];
    segments := [];
    for i := 0 to |routeSegments|
      invariant |segments| == i
      invariant forall m :: 0 <= m < i ==> segments[m] == InjectedSegments(routeSegments, pathSegments)[m]
      invariant forall name :: name in params <==> "$" + name in routeSegments[..i]
      invariant forall name :: name in params ==> params[name] == BoundValue(routeSegments, pathSegments, "$" + name)
    {
      var segment := routeSegments[i];
      assert routeSegments[..i + 1] == routeSegments[..i] + [segment];
      if IsPlaceholder(segment) {
        var key := ReplaceFirst(segment, "$", "");
        ReplacePrefixWithNothing(segment, "$");
        assert "$" + key == segment;
        var value := pathSegments[FirstIndex(routeSegments, segment)];
        params := params[key := value];
        segments := segments + [value];
      } else {
        forall name ensures "$" + name != segment {
          assert ("$" + name)[..1] == "$";
        }
        segments := segments + [segment];
      }
    }
    assert routeSegments[..|routeSegments|] == routeSegments;
    forall name ensures name in params <==> name in BoundParams(routeSegments, pathSegments) {
      PlaceholderName(routeSegments, name);
    }
  }

  /** A route matches a path of as many segments exactly when every segment
      that is not a placeholder is equal. */
  lemma MatchesExactly(routePath: string, webPath: string)
    ensures Matches(routePath, webPath) <==>
      var r, p := Split(routePath, '/'), Split(webPath, '/');
      |r| == |p| && forall i :: 0 <= i < |r| && !IsPlaceholder(r[i]) ==> r[i] == p[i]
  {
  }

  /** On a match without a repeated placeholder, putting the parameters
      back gives the path itself. */
  lemma InjectedIsPath(routeSegments: seq<string>, pathSegments: seq<string>)
    requires |routeSegments| == |pathSegments|
    requires Every(routeSegments, pathSegments)
    requires forall i, j :: 0 <= i < j < |routeSegments| && IsPlaceholder(routeSegments[i]) ==> routeSegments[i] != routeSegments[j]
    ensures InjectedSegments(routeSegments, pathSegments) == pathSegments
  {
    forall i | 0 <= i < |routeSegments|
      ensures InjectedSegments(routeSegments, pathSegments)[i] == pathSegments[i]
    {
      if IsPlaceholder(routeSegments[i]) {
        var f := FirstIndex(routeSegments, routeSegments[i]);
        assert f == i;
      }
    }
  }

  /** Each placeholder of a match binds its name; nothing else is bound. */
  lemma ParamsOfPlaceholders(routeSegments: seq<string>, pathSegments: seq<string>, i: nat)
    requires |routeSegments| == |pathSegments| && i < |routeSegments|
    requires IsPlaceholder(routeSegments[i])
    ensures var name := routeSegments[i][1..];
      name in BoundParams(routeSegments, pathSegments)
      && BoundParams(routeSegments, pathSegments)[name] == BoundValue(routeSegments, pathSegments, routeSegments[i])
  {
    var segment := routeSegments[i];
    assert "$" + segment[1..] == segment;
  }

  /** A placeholder used twice binds the value at its first place, for
      both places: `/$a/$a` on `/x/y` gives `a` = `x` and the path `/x/x`. */
  lemma RepeatedPlaceholder()
    ensures var r, p := ["", "$a", "$a"], ["", "x", "y"];
      BoundParams(r, p) == map["a" := "x"] && InjectedSegments(r, p) == ["", "x", "x"]
  {
    var r, p := ["", "$a", "$a"], ["", "x", "y"];
    assert FirstIndex(r, "$a") == 1;
    assert IsPlaceholder("$a");
    assert !IsPlaceholder("");
    assert "$" + "a" == "$a";
    forall name | "$" + name in r ensures name == "a" {
      assert ("$" + name)[1..] == name;
    }
    assert BoundParams(r, p) == map["a" := "x"];
  }

  lemma SplitBlogSlug()
    ensures Split("/blog/$slug", '/') == ["", "blog", "$slug"]
  {
    var parts: seq<string> := ["", "blog", "$slug"];
    assert Join(parts[1..], '/') == "blog/$slug";
    SplitOfJoin(parts, '/');
  }

  lemma SplitBlogSlugId()
    ensures Split("/blog/$slug/$id", '/') == ["", "blog", "$slug", "$id"]
  {
    var parts: seq<string> := ["", "blog", "$slug", "$id"];
    assert Join(parts[2..], '/') == "$slug/$id";
    assert Join(parts[1..], '/') == "blog/$slug/$id";
    SplitOfJoin(parts, '/');
  }

  lemma SplitBlogPost()
    ensures Split("/blog/my-post", '/') == ["", "blog", "my-post"]
  {
    var parts: seq<string> := ["", "blog", "my-post"];
    assert Join(parts[1..], '/') == "blog/my-post";
    SplitOfJoin(parts, '/');
  }

  /** `/blog/$slug` matches `/blog/my-post`; `/blog/$slug/$id` does not
      (the segments are those of `SplitBlogSlug`, `SplitBlogSlugId` and
      `SplitBlogPost`). */
  lemma BlogExample(oneParam: string, twoParams: string, webPath: string)
    requires Split(oneParam, '/') == ["", "blog", "$slug"]
    requires Split(twoParams, '/') == ["", "blog", "$slug", "$id"]
    requires Split(webPath, '/') == ["", "blog", "my-post"]
    ensures Matches(oneParam, webPath)
    ensures !Matches(twoParams, webPath)
  {
    assert IsPlaceholder("$slug");
  }
}
