/**
 * The page-context helpers the site's own views render through: the
 * breadcrumb trail built from the request path, the default template
 * context (site origin, site version, breadcrumbs), its merge with a view's
 * own context, and the plain redirect. The login page takes only the
 * default context; the admin site and the sitemap use none of them.
 *
 * A request is reduced to what these helpers read from it: its path and the
 * host it was addressed to. The DEBUG setting is a parameter.
 */
module General {
  import opened PyStr

  datatype Option<T> = None | Some(value: T)

  /** The part of an HTTP request the helpers read: `request.path` and
      `request.get_host()`. */
  datatype Request = Request(path: string, host: string)

  /** One breadcrumb: the label shown and the address it links to. */
  datatype Crumb = Crumb(name: string, path: string)

  /** The label of the first breadcrumb, which links to the bare host. */
  const RootName: string := "root"

  // ---------------------------------------------------------------------
  // Breadcrumbs
  // ---------------------------------------------------------------------

  /** `path.strip("/").split("/")`: the raw components of a request path. */
  function Components(path: string): seq<string>
  {
    Split(Strip(path, {'/'}), '/')
  }

  /** `component.strip() == ""`: the component is empty or only whitespace. */
  predicate IsBlank(component: string)
  {
    forall k :: 0 <= k < |component| ==> component[k] in Whitespace
  }

  /** The components that survive the blank test, in their original order. */
  function Kept(cs: seq<string>): (r: seq<string>)
    ensures |r| <= |cs|
    ensures forall k :: 0 <= k < |r| ==> !IsBlank(r[k])
    decreases |cs|
  {
    if cs == [] then []
    else (if IsBlank(cs[0]) then [] else [cs[0]]) + Kept(cs[1..])
  }

  /** The breadcrumb trail for a host and a list of names: the root crumb
      links to the host, and the crumb for the k-th name links to the host
      followed by a slash and the first k names joined with slashes. */
  function Trail(host: string, names: seq<string>): seq<Crumb>
  {
    [Crumb(RootName, host)] +
    seq(|names|, k requires 0 <= k < |names| => Crumb(names[k], host + "/" + Join(names[..k + 1], '/')))
  }

  /** What `_get_parent_paths(request)` returns. */
  function ParentPaths(request: Request): seq<Crumb>
  {
    Trail(request.host, Kept(Components(request.path)))
  }

  /** `_get_parent_paths`: walks the path components, skipping blank ones,
      and appends one crumb per kept component whose address is the running
      path extended by a slash and the component. */
  method GetParentPaths(request: Request) returns (output: seq<Crumb>)
    ensures output == ParentPaths(request)
  {
    var pathComponents := Components(request.path);
    var cumulativePath := request.host;
    output := [Crumb(RootName, cumulativePath)];
    for i := 0 to |pathComponents|
      invariant output == Trail(request.host, Kept(pathComponents[..i]))
      invariant cumulativePath == output[|output| - 1].path
    {
      var component := pathComponents[i];
      WalkStep(request.host, pathComponents, i, output, cumulativePath);
      if Strip(component, Whitespace) == [] {
        continue;
      }
      cumulativePath := cumulativePath + "/" + component;
      output := output + [Crumb(component, cumulativePath)];
    }
    assert pathComponents[..|pathComponents|] == pathComponents;
  }

  /** One step of the walk over the components: a blank component leaves
      the trail as it is, any other adds one crumb whose address extends
      the last one by a slash and the component. */
  lemma TrailStep(host: string, cs: seq<string>, i: nat)
    requires i < |cs|
    ensures var t := Trail(host, Kept(cs[..i]));
      Trail(host, Kept(cs[..i + 1])) ==
        if IsBlank(cs[i]) then t else t + [Crumb(cs[i], t[|t| - 1].path + "/" + cs[i])]
  {
    var names := Kept(cs[..i]);
    assert cs[..i + 1] == cs[..i] + [cs[i]];
    KeptAppend(cs[..i], [cs[i]]);
    KeptSingle(cs[i]);
    if IsBlank(cs[i]) {
      assert names + [] == names;
    } else {
      TrailShape(host, names);
      TrailExtend(host, names, cs[i]);
    }
  }

  /** `TrailStep` in the terms of the walk: the trail so far and the address
      of its last crumb. */
  lemma WalkStep(host: string, cs: seq<string>, i: nat, output: seq<Crumb>, cumulative: string)
    requires i < |cs| && |output| >= 1
    requires output == Trail(host, Kept(cs[..i]))
    requires cumulative == output[|output| - 1].path
    ensures Strip(cs[i], Whitespace) == [] ==> Trail(host, Kept(cs[..i + 1])) == output
    ensures Strip(cs[i], Whitespace) != [] ==>
      Trail(host, Kept(cs[..i + 1])) == output + [Crumb(cs[i], cumulative + "/" + cs[i])]
  {
    TrailStep(host, cs, i);
    StripEmpty(cs[i], Whitespace);
  }

  /** A single component is kept exactly when it is not blank. */
  lemma KeptSingle(c: string)
    ensures Kept([c]) == if IsBlank(c) then [] else [c]
  {
    assert [c][1..] == [];
  }

  /** Filtering distributes over concatenation: order is preserved. */
  lemma {:induction false} KeptAppend(a: seq<string>, b: seq<string>)
    ensures Kept(a + b) == Kept(a) + Kept(b)
    decreases |a|
  {
    if a == [] {
      assert a + b == b;
    } else {
      KeptAppend(a[1..], b);
      assert (a + b)[0] == a[0];
      assert (a + b)[1..] == a[1..] + b;
    }
  }

  /** A non-blank component is kept, in place. */
  lemma KeptKeepsNonBlank(a: seq<string>, c: string, b: seq<string>)
    requires !IsBlank(c)
    ensures Kept(a + [c] + b) == Kept(a) + [c] + Kept(b)
  {
    KeptAppend(a + [c], b);
    KeptAppend(a, [c]);
    KeptSingle(c);
  }

  /** A blank component is dropped without disturbing the others. */
  lemma KeptDropsBlank(a: seq<string>, c: string, b: seq<string>)
    requires IsBlank(c)
    ensures Kept(a + [c] + b) == Kept(a) + Kept(b)
  {
    KeptAppend(a + [c], b);
    KeptAppend(a, [c]);
    KeptSingle(c);
    assert Kept(a) + [] == Kept(a);
  }

  /** Every kept name is one of the components. */
  lemma {:induction false} KeptFrom(cs: seq<string>, k: nat)
    requires k < |Kept(cs)|
    ensures Kept(cs)[k] in cs
    decreases |cs|
  {
    if !IsBlank(cs[0]) && k == 0 {
    } else {
      var j := if IsBlank(cs[0]) then k else k - 1;
      KeptFrom(cs[1..], j);
    }
  }

  /** The address of the crumb for the first k names. */
  lemma TrailPath(host: string, names: seq<string>, k: nat)
    requires k <= |names|
    ensures Trail(host, names)[k].path == if k == 0 then host else host + "/" + Join(names[..k], '/')
  {
  }

  /** Adding a name to the list adds one crumb to the trail, linking to the
      previous crumb's address extended by a slash and the name. */
  lemma TrailExtend(host: string, names: seq<string>, name: string)
    ensures Trail(host, names + [name]) ==
            Trail(host, names) + [Crumb(name, Trail(host, names)[|names|].path + "/" + name)]
  {
    var t, t' := Trail(host, names), Trail(host, names + [name]);
    var ns := names + [name];
    var last := Crumb(name, t[|names|].path + "/" + name);
    assert ns[..|names| + 1] == ns;
    assert Join([name], '/') == name;
    TrailPath(host, names, |names|);
    if names != [] {
      JoinAppend(names, [name], '/');
      assert names[..|names|] == names;
    }
    assert t'[|names| + 1] == last;
    forall k | 0 <= k <= |names|
      ensures t'[k] == t[k]
    {
      if k > 0 {
        assert ns[..k] == names[..k];
      }
    }
    assert t' == t + [last];
  }

  /** Each crumb after the root links to the previous crumb's address
      extended by a slash and its own name. */
  lemma TrailChain(host: string, names: seq<string>)
    ensures forall k :: 1 <= k < |Trail(host, names)| ==>
              Trail(host, names)[k].path == Trail(host, names)[k - 1].path + "/" + Trail(host, names)[k].name
  {
    var t := Trail(host, names);
    forall k | 1 <= k < |t|
      ensures t[k].path == t[k - 1].path + "/" + t[k].name
    {
      if k > 1 {
        assert names[..k] == names[..k - 1] + [names[k - 1]];
        JoinAppend(names[..k - 1], [names[k - 1]], '/');
      }
    }
  }

  /** Every crumb's address starts with the host, and each address is a
      strict prefix of every later one. */
  lemma TrailPrefixes(host: string, names: seq<string>)
    ensures forall k :: 0 <= k < |Trail(host, names)| ==> host <= Trail(host, names)[k].path
    ensures forall j, k :: 0 <= j < k < |Trail(host, names)| ==>
              Trail(host, names)[j].path < Trail(host, names)[k].path
  {
    var t := Trail(host, names);
    forall j, k | 0 <= j < k < |t|
      ensures t[j].path < t[k].path
    {
      var tail := names[j..k];
      assert names[..k] == names[..j] + tail;
      if j > 0 {
        JoinAppend(names[..j], tail, '/');
      }
    }
  }

  /** A trail has the root crumb first and then one crumb per name, in order. */
  lemma TrailShape(host: string, names: seq<string>)
    ensures |Trail(host, names)| == 1 + |names|
    ensures Trail(host, names)[0] == Crumb(RootName, host)
    ensures forall k :: 1 <= k < |Trail(host, names)| ==> Trail(host, names)[k].name == names[k - 1]
  {
  }

  /** Filtering keeps the slash-free components slash-free. */
  lemma KeptNoSlash(cs: seq<string>)
    requires forall k :: 0 <= k < |cs| ==> '/' !in cs[k]
    ensures forall k :: 0 <= k < |Kept(cs)| ==> '/' !in Kept(cs)[k]
  {
    forall k | 0 <= k < |Kept(cs)|
      ensures '/' !in Kept(cs)[k]
    {
      KeptFrom(cs, k);
    }
  }

  /** The shape `_get_parent_paths` promises for any request: a root crumb
      linking to the host, then one crumb per non-blank component, in order,
      named by that component verbatim (never blank, never holding a slash). */
  lemma ParentPathsShape(request: Request)
    ensures |ParentPaths(request)| == 1 + |Kept(Components(request.path))|
    ensures ParentPaths(request)[0] == Crumb(RootName, request.host)
    ensures forall k :: 1 <= k < |ParentPaths(request)| ==>
              ParentPaths(request)[k].name == Kept(Components(request.path))[k - 1]
    ensures forall k :: 1 <= k < |ParentPaths(request)| ==>
              !IsBlank(ParentPaths(request)[k].name) && '/' !in ParentPaths(request)[k].name
  {
    var cs := Components(request.path);
    TrailShape(request.host, Kept(cs));
    SplitPieces(Strip(request.path, {'/'}), '/');
    KeptNoSlash(cs);
  }

  // ---------------------------------------------------------------------
  // Slashes: only the non-blank pieces between slashes matter
  // ---------------------------------------------------------------------

  /** An empty piece is blank, so it is never kept. */
  lemma KeptSkipsEmpty(x: seq<string>, y: seq<string>)
    ensures Kept(x + [[]] + y) == Kept(x + y)
  {
    KeptAppend(x + [[]], y);
    KeptAppend(x, [[]]);
    KeptAppend(x, y);
  }

  /** A leading slash only adds an empty first piece. */
  lemma KeptSplitLeadingSlash(x: string)
    ensures Kept(Split(['/'] + x, '/')) == Kept(Split(x, '/'))
  {
    SplitLeadingSeparator('/', x);
    KeptSkipsEmpty([], Split(x, '/'));
    assert [] + [[]] + Split(x, '/') == [[]] + Split(x, '/');
    assert [] + Split(x, '/') == Split(x, '/');
  }

  /** A trailing slash only adds an empty last piece. */
  lemma KeptSplitTrailingSlash(x: string)
    ensures Kept(Split(x + ['/'], '/')) == Kept(Split(x, '/'))
  {
    assert x + ['/'] == x + ['/'] + [];
    SplitAppend(x, '/', []);
    KeptSkipsEmpty(Split(x, '/'), []);
    assert Split(x, '/') + [[]] + [] == Split(x, '/') + Split([], '/');
    assert Split(x, '/') + [] == Split(x, '/');
  }

  /** Dropping leading slashes before splitting only drops empty pieces. */
  lemma {:induction false} KeptSplitTrimLeft(s: string)
    ensures Kept(Split(TrimLeft(s, {'/'}), '/')) == Kept(Split(s, '/'))
    decreases |s|
  {
    if s != [] && s[0] == '/' {
      KeptSplitTrimLeft(s[1..]);
      KeptSplitLeadingSlash(s[1..]);
      assert s == ['/'] + s[1..];
    }
  }

  /** A run of trailing slashes only adds empty last pieces. */
  lemma {:induction false} KeptSplitTrailingSlashes(x: string, slashes: string)
    requires forall k :: 0 <= k < |slashes| ==> slashes[k] == '/'
    ensures Kept(Split(x + slashes, '/')) == Kept(Split(x, '/'))
    decreases |slashes|
  {
    if slashes == [] {
      assert x + slashes == x;
    } else {
      KeptSplitTrailingSlashes(x + ['/'], slashes[1..]);
      assert x + slashes == (x + ['/']) + slashes[1..];
      KeptSplitTrailingSlash(x);
    }
  }

  /** Dropping trailing slashes before splitting only drops empty pieces. */
  lemma KeptSplitTrimRight(s: string)
    ensures Kept(Split(TrimRight(s, {'/'}), '/')) == Kept(Split(s, '/'))
  {
    var r := TrimRight(s, {'/'});
    TrimRightCut(s, {'/'});
    KeptSplitTrailingSlashes(r, s[|r|..]);
    assert s == r + s[|r|..];
  }

  /** `strip("/")` before splitting does not change which components are
      kept: the trail depends on the path only through the non-blank pieces
      between its slashes. */
  lemma KeptComponents(path: string)
    ensures Kept(Components(path)) == Kept(Split(path, '/'))
  {
    KeptSplitTrimLeft(path);
    KeptSplitTrimRight(TrimLeft(path, {'/'}));
  }

  /** Two paths with the same non-blank pieces between slashes have the
      same breadcrumbs. */
  lemma SameSegmentsSameTrail(p1: string, p2: string, host: string)
    requires Kept(Split(p1, '/')) == Kept(Split(p2, '/'))
    ensures ParentPaths(Request(p1, host)) == ParentPaths(Request(p2, host))
  {
    KeptComponents(p1);
    KeptComponents(p2);
  }

  /** A leading or a trailing slash does not change the breadcrumbs. */
  lemma OuterSlashIgnored(path: string, host: string)
    ensures ParentPaths(Request("/" + path, host)) == ParentPaths(Request(path, host))
    ensures ParentPaths(Request(path + "/", host)) == ParentPaths(Request(path, host))
  {
    KeptSplitLeadingSlash(path);
    SameSegmentsSameTrail("/" + path, path, host);
    KeptSplitTrailingSlash(path);
    SameSegmentsSameTrail(path + "/", path, host);
  }

  /** The kept pieces around a slash are those of either side. */
  lemma KeptSplitAround(a: string, b: string)
    ensures Kept(Split(a + ['/'] + b, '/')) == Kept(Split(a, '/')) + Kept(Split(b, '/'))
  {
    SplitAppend(a, '/', b);
    KeptAppend(Split(a, '/'), Split(b, '/'));
  }

  /** Splitting at a doubled slash only adds an empty piece in between. */
  lemma KeptSplitDoubleSlash(a: string, b: string)
    ensures Kept(Split(a + ['/'] + (['/'] + b), '/')) == Kept(Split(a + ['/'] + b, '/'))
  {
    KeptSplitAround(a, ['/'] + b);
    KeptSplitLeadingSlash(b);
    KeptSplitAround(a, b);
  }

  /** A doubled slash inside the path counts as one. */
  lemma RepeatedSlashIgnored(a: string, b: string, host: string)
    ensures ParentPaths(Request(a + "//" + b, host)) == ParentPaths(Request(a + "/" + b, host))
  {
    KeptSplitDoubleSlash(a, b);
    assert a + "//" + b == a + ['/'] + (['/'] + b);
    assert a + "/" + b == a + ['/'] + b;
    SameSegmentsSameTrail(a + "//" + b, a + "/" + b, host);
  }

  /** The root page, with or without its slash, has only the root crumb. */
  lemma RootPathHasOnlyRootCrumb(host: string)
    ensures ParentPaths(Request("/", host)) == [Crumb(RootName, host)]
    ensures ParentPaths(Request("", host)) == [Crumb(RootName, host)]
  {
    assert Strip("/", {'/'}) == [];
    assert Components("/") == [[]];
    assert Components("") == [[]];
    KeptSingle([]);
  }

  // ---------------------------------------------------------------------
  // Template context
  // ---------------------------------------------------------------------

  /** The values the helpers and their callers put into a template context. */
  datatype Value = Text(text: string) | Flag(flag: bool) | Crumbs(crumbs: seq<Crumb>)

  const SchostKey: string := "schost"
  const VersionKey: string := "website_version"
  const ParentPathsKey: string := "parent_paths"

  /** The origin used when DEBUG is set or there is no request. */
  const CanonicalOrigin: string := "https://guenthner.xyz"
  const WebsiteVersion: string := "2025.9.4"

  /** `get_default_context(request)`: the site origin (the canonical one
      under DEBUG or without a request, otherwise the requested host over
      https), the site version, and the breadcrumbs exactly when there is a
      request. */
  function DefaultContext(request: Option<Request>, debug: bool): (ctx: map<string, Value>)
    ensures ctx.Keys == {SchostKey, VersionKey} + (if request.Some? then {ParentPathsKey} else {})
    ensures ctx[VersionKey] == Text(WebsiteVersion)
    ensures debug || request.None? ==> ctx[SchostKey] == Text(CanonicalOrigin)
    ensures !debug && request.Some? ==> ctx[SchostKey] == Text("https://" + request.value.host)
    ensures request.Some? ==> ctx[ParentPathsKey] == Crumbs(ParentPaths(request.value))
  {
    var schost := if debug || request.None? then CanonicalOrigin else "https://" + request.value.host;
    var response := map[SchostKey := Text(schost), VersionKey := Text(WebsiteVersion)];
    if request.Some? then response[ParentPathsKey := Crumbs(ParentPaths(request.value))] else response
  }

  /** Outside DEBUG, the site origin is `https://` followed by the address
      of the root breadcrumb, so the two always name the same host. */
  lemma SchostMatchesRootCrumb(request: Request)
    ensures var ctx := DefaultContext(Some(request), false);
      ctx[SchostKey].Text? && ctx[ParentPathsKey].Crumbs? && |ctx[ParentPathsKey].crumbs| >= 1 &&
      ctx[SchostKey].text == "https://" + ctx[ParentPathsKey].crumbs[0].path
  {
    ParentPathsShape(request);
  }

  /** The context `default_render` hands to the template: the default
      context overlaid with the view's own, whose keys win. */
  function RenderContext(request: Option<Request>, debug: bool, context: map<string, Value>): (r: map<string, Value>)
    ensures r.Keys == DefaultContext(request, debug).Keys + context.Keys
    ensures forall key :: key in context ==> r[key] == context[key]
    ensures forall key :: key in DefaultContext(request, debug) && key !in context ==>
              r[key] == DefaultContext(request, debug)[key]
  {
    DefaultContext(request, debug) + context
  }

  // ---------------------------------------------------------------------
  // Redirects
  // ---------------------------------------------------------------------

  /** A redirect response: its HTTP status and its Location. */
  datatype Redirect = Redirect(status: nat, location: string)

  /** The statuses of Django's permanent and ordinary redirect responses. */
  const MovedPermanently: nat := 301
  const Found: nat := 302

  /** `plain_redirect(to, permanent)`: a redirect to `to` as given, permanent
      (301) exactly when asked for and otherwise temporary (302). */
  function PlainRedirect(to: string, permanent: bool := false): (r: Redirect)
    ensures r.location == to
    ensures r.status == MovedPermanently <==> permanent
    ensures r.status == Found <==> !permanent
  {
    if permanent then Redirect(MovedPermanently, to) else Redirect(Found, to)
  }
}
