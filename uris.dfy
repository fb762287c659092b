/**
 * Request URIs reduced to what the dispatcher touches: a path and an optional query.
 * `set_uri_path` (virtual-hosts-module/src/handler.rs) glues a new path to the old
 * query, re-parses the text and keeps the old URI if reassembly fails.
 */
module Uris {
  import opened Wrappers

  datatype Uri = Uri(path: string, query: Option<string>)

  /** The path-and-query text: the path, then `?` and the query when there is one. */
  function PathAndQuery(u: Uri): string
  {
    match u.query
    case None => u.path
    case Some(q) => u.path + "?" + q
  }

  /** Parsing path-and-query text: the query starts after the first `?`. */
  function ParsePathAndQuery(text: string): (u: Uri)
    ensures '?' !in u.path
    ensures PathAndQuery(u) == text
  {
    if text == [] then Uri([], None)
    else if text[0] == '?' then Uri([], Some(text[1..]))
    else
      var rest := ParsePathAndQuery(text[1..]);
      assert text == [text[0]] + text[1..];
      assert PathAndQuery(Uri([text[0]] + rest.path, rest.query)) == [text[0]] + PathAndQuery(rest);
      Uri([text[0]] + rest.path, rest.query)
  }

  /** Rendering a URI whose path has no `?` and parsing it back gives the same URI. */
  lemma {:induction false} ParseRendered(u: Uri)
    requires '?' !in u.path
    ensures ParsePathAndQuery(PathAndQuery(u)) == u
    decreases |u.path|
  {
    if u.path != [] {
      var tail := Uri(u.path[1..], u.query);
      assert '?' !in tail.path;
      ParseRendered(tail);
      assert PathAndQuery(u) == [u.path[0]] + PathAndQuery(tail);
      assert u.path == [u.path[0]] + tail.path;
    }
  }

  /**
   * `set_uri_path(uri, path)`: glues the new path to the old query and parses the text.
   * `parses` says whether that text is a valid path-and-query; when it is not, the
   * URI's parts are reassembled with no path-and-query at all, rendered here as an
   * empty path without a query. `reassembles` says whether the URI's other parts
   * (scheme, authority) reassemble with (`true`) or without (`false`) a path-and-query;
   * when they do not, the original URI is returned.
   */
  function SetUriPath(uri: Uri, path: string, parses: string -> bool, reassembles: bool -> bool): (r: Uri)
    ensures parses(PathAndQuery(Uri(path, uri.query))) && reassembles(true) ==> PathAndQuery(r) == PathAndQuery(Uri(path, uri.query))
    ensures '?' !in path && parses(PathAndQuery(Uri(path, uri.query))) && reassembles(true) ==> r == Uri(path, uri.query)
    ensures !parses(PathAndQuery(Uri(path, uri.query))) && reassembles(false) ==> r == Uri([], None)
    ensures !reassembles(parses(PathAndQuery(Uri(path, uri.query)))) ==> r == uri
  {
    var text := PathAndQuery(Uri(path, uri.query));
    var present := parses(text);
    if !reassembles(present) then uri
    else if !present then Uri([], None)
    else if '?' !in path then ParseRendered(Uri(path, uri.query)); ParsePathAndQuery(text)
    else ParsePathAndQuery(text)
  }

  /** The rewrite exercised by the `subdir_match_with_suffix` test: `/subdir/xyz?abc` to `/xyz?abc`. */
  lemma SubdirRewriteKeepsQuery()
    ensures PathAndQuery(SetUriPath(Uri("/subdir/xyz", Some("abc")), "/xyz", _ => true, _ => true)) == "/xyz?abc"
  {
  }
}
