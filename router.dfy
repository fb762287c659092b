/**
 * The routing table the dispatcher is built on. Its matching algorithm lives in a
 * library that is not part of this model; here it is a value of type `MatchAlgorithm`
 * that sees only the keys of the pushed entries. What the dispatcher relies on is
 * stated as contracts: entries keep the index of their push, `Retrieve` dereferences
 * an index, and a hit of `Lookup` names an existing entry and one of its two values.
 */
module Router {
  import opened Wrappers

  /** A strip marker built from a sub-path rule (`Path::new(rule.path)`). */
  datatype Path = Path(raw: string)

  /** One `push(host, path, value, fallback)` call. */
  datatype Entry<V> = Entry(host: string, path: string, value: V, fallback: Option<V>)

  /** What the matching algorithm can see of an entry. */
  datatype Key = Key(host: string, path: string, hasFallback: bool)

  /** A hit reported by the matching algorithm: an entry index and which of its values applies. */
  datatype Hit = Hit(index: nat, useFallback: bool)

  /** The library's matcher: given the pushed keys, a host and a path, the winning entry. */
  type MatchAlgorithm = (seq<Key>, string, string) -> Option<Hit>

  /** A successful lookup: the matched value and the index it was pushed under. */
  datatype Match<V> = Match(index: nat, value: V)

  function Keys<V>(entries: seq<Entry<V>>): seq<Key>
  {
    seq(|entries|, i requires 0 <= i < |entries| =>
      Key(entries[i].host, entries[i].path, entries[i].fallback.Some?))
  }

  /** Every entry's fallback value, when present, is the entry's own value. */
  ghost predicate FallbacksAgree<V>(entries: seq<Entry<V>>)
  {
    forall i :: 0 <= i < |entries| ==> entries[i].fallback.None? || entries[i].fallback == Some(entries[i].value)
  }

  /** The built, immutable table. */
  datatype Router<V> = Router(entries: seq<Entry<V>>, algorithm: MatchAlgorithm) {

    /** Direct index dereference, the only access later request phases make. */
    function Retrieve(index: nat): (r: Option<V>)
      ensures r.Some? <==> index < |entries|
      ensures r.Some? ==> r.value == entries[index].value
    {
      if index < |entries| then Some(entries[index].value) else None
    }

    /** Host + path lookup; a hit always names a retrievable entry. */
    function Lookup(host: string, path: string): (r: Option<Match<V>>)
      ensures r.Some? ==> Retrieve(r.value.index).Some?
      ensures r.Some? ==> r.value.value == entries[r.value.index].value
                          || entries[r.value.index].fallback == Some(r.value.value)
      ensures r.Some? && FallbacksAgree(entries) ==> Retrieve(r.value.index) == Some(r.value.value)
      ensures r.None? <==> match algorithm(Keys(entries), host, path)
                           case None => true
                           case Some(hit) => hit.index >= |entries|
                                             || (hit.useFallback && entries[hit.index].fallback.None?)
    {
      match algorithm(Keys(entries), host, path)
      case None => None
      case Some(hit) =>
        if hit.index >= |entries| then None
        else
          var e := entries[hit.index];
          if !hit.useFallback then Some(Match(hit.index, e.value))
          else if e.fallback.Some? then Some(Match(hit.index, e.fallback.value))
          else None
    }
  }

  /** `Router::builder()`: collects pushes in call order. */
  class RouterBuilder<V> {
    var entries: seq<Entry<V>>

    constructor ()
      ensures entries == []
    {
      entries := [];
    }

    method Push(host: string, path: string, value: V, fallback: Option<V>)
      modifies this
      ensures entries == old(entries) + [Entry(host, path, value, fallback)]
    {
      entries := entries + [Entry(host, path, value, fallback)];
    }

    /** `build()`: every entry stays retrievable under its zero-based push position. */
    function Build(algorithm: MatchAlgorithm): (r: Router<V>)
      reads this
      ensures |r.entries| == |entries|
      ensures forall i :: 0 <= i < |entries| ==> r.Retrieve(i) == Some(entries[i].value)
      ensures forall i :: 0 <= i < |entries| ==> r.entries[i] == entries[i]
    {
      Router(entries, algorithm)
    }
  }
}
