# Virtual-hosts dispatcher

This project models the virtual-host dispatch layer of a reverse proxy, `VirtualHostsHandler<H>` in `virtual-hosts-module/src/handler.rs`, and proves properties of that model. The layer has two halves:

- **Configuration compiler.** `try_from` turns a list of virtual hosts into an ordered sequence of `push(host, path, value, fallback)` calls on a routing-table builder:
  - Each host is registered under a sorted set of names. The empty default name goes only to the first host marked `default`, and empty user-supplied names are dropped.
  - Each name gets a root entry.
  - The host's sub-path rules follow, after a stable sort that puts prefix rules before exact rules.
  - A failed handler-configuration conversion aborts the whole compilation with that error.
- **Request phases.** `request_filter` looks up host and path once. On a hit it records the match index both in the per-request context and in the session, rewrites the path when the matched value carries a strip marker (the query is kept), and delegates to the matched handler. `upstream_peer`, `response_filter` and `logging` only dereference the recorded index. `response_filter` prefers the context's index and falls back to the session's copy.

Modules:
- `Wrappers`: `Option` and `Result`.
- `Router`: the routing table as the dispatcher sees it.
  - `RouterBuilder` is a class whose `Push` appends an entry, so an entry's index is its push position.
  - The built `Router` retrieves by index. Its lookup delegates to a matching algorithm passed in as a value.
- `Uris`: a URI as a path plus an optional query, and `set_uri_path`.
- `OrderedNames`: `BTreeSet<String>` as a strictly sorted sequence, with `insert` and `extend`.
- `Configuration`: the deserialized configuration tree.
- `Handler`: the context, the session and the four request phases.
- `Compiler`: `try_from`.
  - `Compiled` is a reference definition of the pushes the loop makes.
  - The method `TryFrom` builds the table step by step and is proved equal to `Compile`.
  - Lemmas state the ordering, default-host, fallback and error rules of `Compiled`.

## Model

| member | source | states |
|---|---|---|
| Uris.SetUriPath | virtual-hosts-module/src/handler.rs:27-40 | three outcomes: when the reassembled text parses and the parts reassemble, the result renders as the new path with the old query re-attached (exactly that path and query when the path holds no `?`); when the text does not parse but the parts still reassemble, the result is an empty path without a query; when reassembly fails, the original URI is kept |
| Uris.ParsePathAndQuery | virtual-hosts-module/src/handler.rs:38 | parsing path-and-query text splits at the first `?`: the path holds no `?` and rendering the parts gives the text back |
| Uris.ParseRendered | virtual-hosts-module/src/handler.rs:34-38 | rendering a path and query and parsing the text again gives the same path and query |
| Uris.SubdirRewriteKeepsQuery | virtual-hosts-module/src/handler.rs:450-461 | rewriting `/subdir/xyz?abc` to path `/xyz` yields `/xyz?abc` |
| Router.Router.Retrieve | virtual-hosts-module/src/handler.rs:80 | an index is retrievable iff it is below the number of pushes, and it yields the value pushed at that position |
| Router.Router.Lookup | virtual-hosts-module/src/handler.rs:113-115 | a hit names a retrievable entry and returns its value or its fallback value; when fallbacks equal values, retrieving the hit's index gives the matched value; a miss occurs exactly when the matcher reports nothing usable |
| Router.RouterBuilder.constructor | virtual-hosts-module/src/handler.rs:181 | a new builder holds no entries |
| Router.RouterBuilder.Push | virtual-hosts-module/src/handler.rs:211-216 | one push appends exactly one entry with the given host, path, value and fallback |
| Router.RouterBuilder.Build | virtual-hosts-module/src/handler.rs:247 | the built table keeps every entry at its push position and retrieves its value there |
| Handler.VirtualHostsCtx.constructor | virtual-hosts-module/src/handler.rs:98-103 | a new context records no index and holds the inner handler's context |
| Handler.VirtualHostsHandler.Recover | virtual-hosts-module/src/handler.rs:80 | a recorded index gives a handler iff it is present and retrievable, and that handler is the one stored at the index |
| Handler.VirtualHostsHandler.AsInner | virtual-hosts-module/src/handler.rs:74-81 | no handler when the context has no index or the index is out of range, otherwise the handler stored at the index, with no lookup |
| Handler.VirtualHostsHandler.Select | virtual-hosts-module/src/handler.rs:110-116 | a selection exists iff the lookup hits; its index and handler are the lookup's match index and matched handler; the index is retrievable and, when fallbacks equal values, recovers the selected handler; a new path is produced iff the matched value carries a strip marker, and it is that marker's path removed from the request path |
| Handler.VirtualHostsHandler.SelectionEffect | virtual-hosts-module/src/handler.rs:113-129 | a miss leaves index, token and URI unchanged; a hit sets the context index and the session token to the lookup's match index; the URI changes only when a new path was produced; it becomes the new path with the old query when the new text parses and reassembles, and an empty path without a query when it does not parse but reassembles |
| Handler.VirtualHostsHandler.RequestFilter | virtual-hosts-module/src/handler.rs:105-130 | the new context index, session token and URI are the selection effect; a miss returns `Unhandled`; a hit returns the selected handler's own result; host and inner context are untouched |
| Handler.VirtualHostsHandler.UpstreamPeer | virtual-hosts-module/src/handler.rs:132-142 | no peer when no handler is recovered from the context, otherwise the recovered handler's answer |
| Handler.VirtualHostsHandler.ResponseIndex | virtual-hosts-module/src/handler.rs:150-153 | the context's index when a context is given and holds one, otherwise the session token |
| Handler.VirtualHostsHandler.ResponseFilter | virtual-hosts-module/src/handler.rs:144-159 | delegates to the handler stored at the recovered index, and does nothing when that index is absent or out of range |
| Handler.VirtualHostsHandler.Logging | virtual-hosts-module/src/handler.rs:161-170 | delegates to the handler recovered from the context, and does nothing when none is recovered |
| Handler.VirtualHostsHandler.SelectionRecovered | virtual-hosts-module/src/handler.rs:118-121 | after a hit, both the context index and the session token recover the handler the selection delegated to |
| OrderedNames.LessIrreflexive | virtual-hosts-module/src/handler.rs:186 | the name order is irreflexive |
| OrderedNames.LessTransitive | virtual-hosts-module/src/handler.rs:186 | the name order is transitive |
| OrderedNames.LessTotal | virtual-hosts-module/src/handler.rs:186 | any two distinct names are ordered one way or the other |
| OrderedNames.SortedDistinct | virtual-hosts-module/src/handler.rs:210 | iterating the name set visits each name once |
| OrderedNames.InsertMembers | virtual-hosts-module/src/handler.rs:196 | inserting adds exactly the new name to the set |
| OrderedNames.InsertSorted | virtual-hosts-module/src/handler.rs:196 | inserting keeps the set sorted and free of duplicates |
| OrderedNames.InsertAllSpec | virtual-hosts-module/src/handler.rs:208 | extending the set keeps it sorted and adds exactly the given names |
| Compiler.AnyDefaultMeans | virtual-hosts-module/src/handler.rs:182-198 | the `default` slot is taken after the first `k` hosts iff one of them is marked default |
| Compiler.DefaultSeen | virtual-hosts-module/src/handler.rs:187-196 | once a host marked default is seen, the slot stays taken for every later host |
| Compiler.FirstDefaultExists | virtual-hosts-module/src/handler.rs:187-197 | if any host up to `k` is marked default, one of them takes the default slot |
| Compiler.FirstDefaultUnique | virtual-hosts-module/src/handler.rs:187-197 | at most one host takes the default slot |
| Compiler.Retain | virtual-hosts-module/src/handler.rs:200-207 | retaining keeps exactly the non-empty host names |
| OrderedNames.Insert | virtual-hosts-module/src/handler.rs:196 | the inserted name is in the result, which grows by at most one name |
| OrderedNames.InsertAll | virtual-hosts-module/src/handler.rs:208 | extending grows the set by at most the number of names given |
| Compiler.HostNames | virtual-hosts-module/src/handler.rs:186-208 | a host has at most one name more than it lists (the default name) |
| Compiler.HostNamesSpec | virtual-hosts-module/src/handler.rs:186-208 | a host's names form a sorted set of its non-empty names, plus `""` exactly when it took the default slot |
| Compiler.RetainNonEmpty | virtual-hosts-module/src/handler.rs:200-207 | the in-place filter leaves the retained names |
| Compiler.Extend | virtual-hosts-module/src/handler.rs:208 | extending the set inserts the names one by one |
| Compiler.CollectNames | virtual-hosts-module/src/handler.rs:186-208 | the loop body's name set is the host's names |
| Compiler.OnlyExactMembers | virtual-hosts-module/src/handler.rs:224 | filtering by kind keeps only sub-paths of that kind from the configuration |
| Compiler.SortByExactIsStableSort | virtual-hosts-module/src/handler.rs:219-224 | the sort by `exact` is a permutation, puts every prefix rule before every exact rule, and keeps configuration order within each kind |
| Compiler.SortByExactMembers | virtual-hosts-module/src/handler.rs:224 | the sort neither adds nor drops a sub-path |
| Compiler.SortByExact | virtual-hosts-module/src/handler.rs:219-224 | the sort by `exact` is a permutation of the sub-paths |
| Compiler.RootRoute | virtual-hosts-module/src/handler.rs:210-217 | a root push has the empty path, the host handler, no strip marker and a fallback equal to its value |
| Compiler.StripMarker | virtual-hosts-module/src/handler.rs:228-232 | a strip marker is present iff `strip_prefix` is set, and it holds the rule path |
| Compiler.RuleRoute | virtual-hosts-module/src/handler.rs:226-243 | a sub-path push has the rule's path and converted handler, a strip marker `Path(rule.path)` iff `strip_prefix`, and a fallback iff the rule is not exact, equal to the value |
| Compiler.ForEachName | virtual-hosts-module/src/handler.rs:210-217 | one push per name |
| Compiler.ForEachNameFallbacks | virtual-hosts-module/src/handler.rs:210-244 | every push of a per-name loop carries the route's fallback |
| Compiler.ProjectForEachName | virtual-hosts-module/src/handler.rs:210-217 | a per-name loop over a set of distinct names registers the route exactly once for each name in the set and never for another name |
| Compiler.ProjectSnoc | virtual-hosts-module/src/handler.rs:211 | one more push adds a route for its own host name and for no other |
| Compiler.PairwiseDistinct | virtual-hosts-module/src/handler.rs:210 | names that differ pairwise are distinct from every earlier name at each step of the per-name loop |
| Compiler.ProjectNameSet | virtual-hosts-module/src/handler.rs:210-217 | a per-name loop over a name set registers the route once for each member of the set and never for another name |
| Compiler.SubEntries | virtual-hosts-module/src/handler.rs:226-245 | when the first sub-path configuration fails to convert, the sub-path loop fails with that error |
| Compiler.HostEntries | virtual-hosts-module/src/handler.rs:183-245 | when the host configuration fails to convert, the host fails with that error before any sub-path |
| Compiler.SubEntriesPerName | virtual-hosts-module/src/handler.rs:226-245 | every name of the host receives the same sub-path routes, in push order; other names receive none |
| Compiler.HostEntriesPerName | virtual-hosts-module/src/handler.rs:210-245 | for a host's plan, each of its names gets one root route with the host handler followed by its sub-path routes, and other names get nothing |
| Compiler.PlannedRoutes | virtual-hosts-module/src/handler.rs:186-245 | a name receives routes from host `i` iff it is one of its non-empty names, or it is `""` and host `i` took the default slot; those routes are one root route, then the sorted sub-path routes |
| Compiler.Plans | virtual-hosts-module/src/handler.rs:183 | one plan per configured host |
| Compiler.PlansAt | virtual-hosts-module/src/handler.rs:183 | the plan at position `i` is host `i`'s names, configuration and sorted sub-paths |
| Compiler.SubEntriesExactLast | virtual-hosts-module/src/handler.rs:221-244 | given rules sorted by kind, no push with a fallback follows a push without one among a host's sub-path pushes |
| Compiler.ExactLastAfterFallbacks | virtual-hosts-module/src/handler.rs:210-245 | root pushes, which all carry a fallback, keep that order when put in front |
| Compiler.HostEntriesExactLast | virtual-hosts-module/src/handler.rs:210-245 | within a host, every exact-rule push (no fallback) comes after every root and prefix-rule push |
| Compiler.ForEachNameFallbacksAgree | virtual-hosts-module/src/handler.rs:210-217 | a per-name loop whose fallback equals its value pushes only entries whose fallback equals their value |
| Compiler.SubEntriesFallbacksAgree | virtual-hosts-module/src/handler.rs:233-243 | every sub-path push's fallback, when present, equals its value |
| Compiler.CompiledFallbacksAgree | virtual-hosts-module/src/handler.rs:210-244 | in the whole compiled table, every fallback equals its entry's value |
| Compiler.ProjectAppend | virtual-hosts-module/src/handler.rs:211 | the routes of a name across two push sequences are the routes of each, in order |
| Compiler.ProjectCompiledStep | virtual-hosts-module/src/handler.rs:183-245 | a name's routes after `k` hosts are its routes after `k - 1` hosts followed by host `k`'s routes for it |
| Compiler.NoDefaultNoRoutes | virtual-hosts-module/src/handler.rs:187-196 | when no plan holds `""`, the table has no routes for the empty name |
| Compiler.DefaultRoutesOf | virtual-hosts-module/src/handler.rs:187-196 | when only plan `i` holds `""`, the table's routes for the empty name are exactly host `i`'s |
| Compiler.PlansDefaultOnlyAt | virtual-hosts-module/src/handler.rs:187-197 | only the host that took the default slot has `""` among its names |
| Compiler.DefaultRoutes | virtual-hosts-module/src/handler.rs:182-198 | without a default host, nothing is registered under `""`; otherwise everything under `""` comes from the first host marked default |
| Compiler.SubEntriesErrSticks | virtual-hosts-module/src/handler.rs:227 | a failed sub-path conversion is the result of the whole sub-path loop |
| Compiler.CompiledErrSticks | virtual-hosts-module/src/handler.rs:184 | a failed host ends compilation with that host's error |
| Compiler.SubEntriesResult | virtual-hosts-module/src/handler.rs:226-227 | the sub-path loop succeeds iff every sub-path configuration converts, and its error is one of theirs |
| Compiler.HostEntriesResult | virtual-hosts-module/src/handler.rs:184-227 | a host's pushes succeed iff its own configuration and every sub-path configuration convert, and otherwise fail with one of those errors |
| Compiler.CompiledResult | virtual-hosts-module/src/handler.rs:183-246 | compilation succeeds iff every host's pushes succeed, and otherwise fails with one host's error |
| Compiler.Compiled | virtual-hosts-module/src/handler.rs:183-246 | when the first host fails to convert, compilation fails with its error |
| Compiler.CompiledOk | virtual-hosts-module/src/handler.rs:183-246 | compilation succeeds iff every host's pushes succeed |
| Compiler.CompiledErr | virtual-hosts-module/src/handler.rs:183-246 | a failed compilation carries the error of one host |
| Compiler.CompileResult | virtual-hosts-module/src/handler.rs:180-250 | `try_from` succeeds iff every host and sub-path configuration converts, and otherwise returns the error of one of those conversions |
| Compiler.Compile | virtual-hosts-module/src/handler.rs:180-250 | a compiled table keeps the configured matching algorithm, and every fallback in it equals its entry's value |
| Compiler.PushForEachName | virtual-hosts-module/src/handler.rs:210-217 | the loop appends one push per name, in set order |
| Compiler.PushSubpaths | virtual-hosts-module/src/handler.rs:226-245 | the sub-path loop appends the pushes of the reference definition or stops with the first conversion error |
| Compiler.PushHost | virtual-hosts-module/src/handler.rs:210-245 | one host's pushes are appended as the reference definition says, or its error is reported |
| Compiler.PushNextHost | virtual-hosts-module/src/handler.rs:186-245 | the loop body for host `k` appends the pushes of host `k`'s plan, or reports its error |
| Compiler.TryFrom | virtual-hosts-module/src/handler.rs:180-250 | the imperative loop returns exactly the reference compilation: the built table of all pushes, or the first conversion error |
| Compiler.CompiledSelectionRecovered | virtual-hosts-module/src/handler.rs:113-121 | for a table built by `try_from`, after a hit every later phase recovers the handler the selection delegated to, through the context or the session token |

## Left out

- The routing table's matching (segment matching, host and exact-over-prefix precedence, merging of an exact rule into a prefix rule) lives in a library that is not part of this model. It is the `MatchAlgorithm` parameter, so the test outcomes that depend on it are not stated.
- Router.Router.Lookup: does not assume the library's contract that a hit is well formed; a hit with an out-of-range index, or on the fallback of an entry without one, is treated as a miss.
- The model assumes the library assigns each entry its zero-based push position as its index.
- `Path::new` normalization and `remove_prefix_from` are not modelled: a strip marker holds the rule's path unchanged, and prefix removal is a parameter.
- URI parsing is not modelled: whether a reassembled path-and-query text parses, and whether `http::Uri` accepts the reassembled parts, are parameters. `from_utf8_lossy` is not modelled either, and paths are strings.
- Uris.SetUriPath: states the exact path and query only when the new path has no `?`; a path containing `?` moves text into the query, as the code does. When the text does not parse but the parts reassemble, the query is lost: an absent path-and-query is rendered as an empty path without a query.
- Delegated handlers' phases are values of the `Delegates` parameter. Their effects on the session and the context are not modelled.
- Handler.VirtualHostsHandler.ResponseFilter and Logging return the handler they delegate to rather than calling it; the response header and the logged error are not modelled.
- Async execution, `Deref`/`DerefMut` forwarding to the inner context, and the session-extension map are not modelled. The extension map is reduced to the one `IndexEntry` token.
- `warn!` diagnostics for an ignored second default host and for empty host names are not modelled.
- `subpaths.sort_by_key` is modelled on sequence values as a stable partition, not as an in-place sort.
- YAML deserialization, the configuration merge macros (module-utils-macros/src/lib.rs) and `configuration.rs` are not part of this model.
- The strip marker is set whenever `strip_prefix` is on, for exact rules too. This follows the code (handler.rs:228-232).
