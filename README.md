# guenthner.xyz page-context helpers in Dafny

The site's own views (root, dev, private and the 404 page) render through
the helpers in `general/__init__.py`. The login page takes only their
default context. The admin site and the sitemap use none of them. The
helpers do four things:

- They build the breadcrumb trail ("parent paths") from the request path.
  The first crumb is `root` and links to the bare host. Each non-blank
  component between slashes adds one crumb. That crumb links to the previous
  crumb's address plus a slash and the component.
- They assemble the default template context. It holds the site origin
  (`schost`), the site version, and the breadcrumbs when there is a request.
- They overlay a view's own context on that default.
- They issue plain redirects, permanent or temporary.

The project has three modules:

- `PyStr` (`pystr.dfy`) models the Python string operations the trail
  builder uses: `strip("/")`, `strip()` with Python's whitespace set,
  `split("/")` and its inverse `"/".join`. The splitting laws are proved
  there.
- `General` (`general.dfy`) holds the helpers themselves.
  - `ParentPaths` is the specification of the breadcrumb trail, written in
    closed form.
  - `GetParentPaths` is the loop of `_get_parent_paths`, proved equal to
    `ParentPaths`.
  - The remaining lemmas say what the trail looks like and which path
    spellings give the same trail.
  - `DefaultContext`, `RenderContext` and `PlainRedirect` model the other
    three helpers.
- `GeneralExamples` (`general_examples.dfy`) works out trails for concrete
  paths.

A request is reduced to the two things the helpers read from it: its path and
its host. `settings.DEBUG` is a parameter, and a missing request (`None`) is
`Option.None`.

## Model

| member | source | states |
|---|---|---|
| General.GetParentPaths | general/__init__.py:17-30 | The loop over the components, skipping those whose `strip()` is empty and extending the running path, returns exactly the trail `ParentPaths` of the request. |
| General.ParentPathsShape | general/__init__.py:17-30 | The trail starts with crumb `root` linking to the host. Then it has one crumb per non-blank component of `path.strip("/").split("/")`, in order, named by the component verbatim. Every such name is non-blank and has no slash. |
| General.TrailStep | general/__init__.py:24-28 | One iteration: a blank component leaves the trail unchanged. Any other component appends one crumb whose address is the last address plus `/` plus the component. |
| General.TrailExtend | general/__init__.py:26-28 | Appending a name to the kept names appends exactly one crumb: that name, at the previous last address plus `/` plus the name. |
| General.TrailShape | general/__init__.py:21-28 | The trail has one crumb more than there are kept names. The first crumb is the root crumb at the host, and crumb k is named by the k-th kept name. |
| General.TrailChain | general/__init__.py:26-28 | Every crumb after the root links to the previous crumb's address followed by `/` and its own name. |
| General.TrailPrefixes | general/__init__.py:20-28 | Every crumb's address starts with the host, and each address is a strict prefix of every later one. |
| General.Kept | general/__init__.py:24-25 | The skip test never keeps more components than there are, and no kept component is empty or all whitespace. |
| General.KeptAppend | general/__init__.py:24-25 | Skipping blank components works piece by piece and preserves order: filtering `a + b` gives the filtered `a` followed by the filtered `b`. |
| General.KeptSingle | general/__init__.py:25 | A single component is kept exactly when its `strip()` would not be empty. |
| General.KeptKeepsNonBlank | general/__init__.py:24-28 | A non-blank component is kept, in its place between the kept components before it and those after it. |
| General.KeptDropsBlank | general/__init__.py:24-25 | A blank component is dropped, and the components around it are kept as they would be without it. |
| General.KeptComponents | general/__init__.py:18-25 | Stripping outer slashes before splitting never changes which components survive the blank test. |
| General.SameSegmentsSameTrail | general/__init__.py:17-30 | Two paths whose non-blank pieces between slashes agree give the same trail. |
| General.OuterSlashIgnored | general/__init__.py:18 | Adding a leading slash or a trailing slash to a path leaves the trail unchanged. |
| General.RepeatedSlashIgnored | general/__init__.py:18-25 | A doubled slash inside a path gives the same trail as a single one. |
| General.RootPathHasOnlyRootCrumb | general/__init__.py:18-22 | For the path `/` and for the empty path, the trail is the root crumb alone. |
| General.DefaultContext | general/__init__.py:33-42 | The context has exactly the keys `schost` and `website_version`, plus `parent_paths` when there is a request. The version is `2025.9.4`. `schost` is `https://guenthner.xyz` under DEBUG or without a request, and otherwise `https://` plus the request's host. `parent_paths` is the request's trail. |
| General.SchostMatchesRootCrumb | general/__init__.py:34-40 | Outside DEBUG, `schost` is `https://` followed by the address of the root crumb, so both name the same host. |
| General.RenderContext | general/__init__.py:6-7 | The merged context has the keys of both. A view's own value wins for a key it sets, and every other default is kept. |
| General.PlainRedirect | general/__init__.py:10-14 | The redirect goes to `to` as given, before Django's IRI-to-URI encoding of the Location. It is permanent (301) exactly when `permanent` is set, and temporary (302), the default, exactly when it is not. |
| PyStr.Strip | general/__init__.py:18 | `strip(chars)` leaves a result that neither starts nor ends with one of `chars` and is no longer than its input. |
| PyStr.StripEmpty | general/__init__.py:25 | `strip(chars)` is empty exactly when every character is one of `chars`. This is the blank test, when applied to the whitespace set. |
| PyStr.StripCut | general/__init__.py:18 | `strip(chars)` returns a contiguous middle part of `s`. Everything cut before it and after it is a character of `chars`. |
| PyStr.StripKeeps | general/__init__.py:18 | A string that neither starts nor ends with one of `chars` comes back from `strip(chars)` unchanged. |
| PyStr.StripDropsLeading | general/__init__.py:18 | A leading character of `chars` makes no difference to `strip(chars)`. |
| PyStr.StripDropsTrailing | general/__init__.py:18 | A trailing character of `chars` makes no difference to `strip(chars)`. |
| PyStr.TrimLeftAppend | general/__init__.py:18 | `lstrip` of `s + t` cuts only inside `s` when `s` has a character outside `chars`, and otherwise is `lstrip` of `t`. |
| PyStr.TrimLeftCut | general/__init__.py:18 | `lstrip` keeps a suffix and removes only characters from the set. |
| PyStr.TrimRightCut | general/__init__.py:18 | `rstrip` keeps a prefix and removes only characters from the set. |
| PyStr.Split | general/__init__.py:18 | `split(sep)` always yields at least one piece. |
| PyStr.SplitPieces | general/__init__.py:18 | `split(sep)` yields one piece more than there are separators. No piece contains the separator, and joining the pieces with it restores the string. |
| PyStr.SplitJoin | general/__init__.py:18 | Splitting a join of separator-free parts returns those parts, so `split` inverts `join`. |
| PyStr.SplitAppend | general/__init__.py:18 | Splitting `a + sep + b` gives the pieces of `a` followed by the pieces of `b`. |
| PyStr.JoinAppend | general/__init__.py:26 | Joining two non-empty lists puts one separator between their joins, which is how the running path grows. |
| GeneralExamples.ExtraSlashesExample | general/__init__.py:17-30 | `/a//b/` and `a/b` give the same trail: root at the host, `a` at host`/a`, `b` at host`/a/b`. |
| GeneralExamples.VerbatimNamesExample | general/__init__.py:17-30 | For `/ a /  /b`, the all-space component is skipped. ` a ` is kept with its spaces in both its name and its address. |

## Left out

- Template rendering and the response objects (`render`, `HttpResponse`)
  are not modelled. `RenderContext` stops at the context dictionary handed
  to the template.
- `HttpResponsePermanentRedirect` and `HttpResponseRedirect` are reduced to
  their status code and Location. Django's own checks on the redirect target
  (for example, refusing unsafe schemes) are not part of this model.
- PlainRedirect: the Location is the target exactly as given. Django
  encodes it from an IRI to a URI (`iri_to_uri`) before setting the
  header, so a target holding a space or a non-ASCII character would be
  percent-encoded there. `plain_redirect` is only called with the plain
  ASCII paths `/` and `/images/site/icon.png` (`guenthner_xyz/urls.py:9`,
  `:33`), and for those the encoding changes nothing.
- `request.get_host()` is taken as a plain string, `Request.host`. Django's
  host validation, and the error it raises for a disallowed host, are not
  modelled.
- `settings.DEBUG` is read from configuration at run time. Here it is the
  `debug` parameter.
- Context values are modelled only in the forms the site passes: text, a
  flag (`suppress_navbar` on the login page), and the breadcrumb list. Other
  Python values are not represented.
- `MySitemap`, which `guenthner_xyz/urls.py` imports from `general`, is not
  part of this model, because `general/__init__.py` does not define it.
- The other modules are not part of this model: views, URL routing,
  models, admin, template tags, icons and cowsay. They are callers of the
  helpers or unrelated to them.
