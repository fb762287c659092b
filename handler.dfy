/**
 * The request-time half of the virtual-hosts handler: the selection phase that looks
 * up host and path once, records the match index in the context and in the session,
 * and rewrites the path; and the later phases that only dereference that index.
 */
module Handler {
  import opened Wrappers
  import opened Router
  import opened Uris

  /** Outcome of a request-filter phase. */
  datatype RequestFilterResult = ResponseSent | Handled | Unhandled

  /** A pipeline error, carrying its own description. */
  datatype Error = Error(description: string)

  /** The upstream peer chosen by a handler. */
  datatype HttpPeer = HttpPeer(address: string)

  /** What the table stores per entry: an optional strip marker and the handler. */
  datatype Target<H> = Target(strip: Option<Path>, handler: H)

  /** The delegated handlers' own phases, whose results this model does not look into. */
  datatype Delegates<-H> = Delegates(
    requestFilter: H -> Result<RequestFilterResult, Error>,
    upstreamPeer: H -> Result<Option<HttpPeer>, Error>)

  /** The part of a request session the dispatcher reads and writes. */
  class Session {
    /** `host()`: Host header, else URI authority. */
    var host: Option<string>
    var uri: Uri
    /** The `IndexEntry` extension, when present. */
    var token: Option<nat>

    constructor (host: Option<string>, uri: Uri)
      ensures this.host == host && this.uri == uri && token == None
    {
      this.host := host;
      this.uri := uri;
      token := None;
    }
  }

  /** `VirtualHostsCtx`: the recorded match index and the inner handler's context. */
  class VirtualHostsCtx<C> {
    var index: Option<nat>
    var handler: C

    /** `new_ctx`: nothing selected yet. */
    constructor (inner: C)
      ensures index == None && handler == inner
    {
      index := None;
      handler := inner;
    }
  }

  /** The outcome of a successful lookup: match index, handler and rewritten path if any. */
  datatype Selection<H> = Selection(index: nat, handler: H, newPath: Option<string>)

  /** The handler's per-request state as one value, for stating what a phase changes. */
  datatype RequestState = RequestState(index: Option<nat>, token: Option<nat>, uri: Uri)

  datatype VirtualHostsHandler<H> = VirtualHostsHandler(handlers: Router<Target<H>>) {

    /** The handler stored under a recorded index, if that index is retrievable. */
    function Recover(index: Option<nat>): (r: Option<H>)
      ensures r.Some? <==> index.Some? && handlers.Retrieve(index.value).Some?
      ensures r.Some? ==> r.value == handlers.entries[index.value].value.handler
    {
      match index
      case None => None
      case Some(i) =>
        match handlers.Retrieve(i)
        case None => None
        case Some(target) => Some(target.handler)
    }

    /** `as_inner`: the handler selected for this context, without a new lookup. */
    function AsInner<C>(ctx: VirtualHostsCtx<C>): (r: Option<H>)
      reads ctx
      ensures r.None? <==> ctx.index.None? || ctx.index.value >= |handlers.entries|
      ensures r.Some? ==> r.value == handlers.entries[ctx.index.value].value.handler
    {
      Recover(ctx.index)
    }

    /**
     * The decision `request_filter` makes: the lookup's index and handler, and the
     * remainder of the path when the matched value carries a strip marker.
     */
    function Select(host: string, path: string, removePrefix: (Path, string) -> Option<string>): (r: Option<Selection<H>>)
      ensures r.None? <==> handlers.Lookup(host, path).None?
      ensures r.Some? ==> handlers.Retrieve(r.value.index).Some?
      ensures r.Some? && FallbacksAgree(handlers.entries) ==> Recover(Some(r.value.index)) == Some(r.value.handler)
      ensures r.Some? ==> r.value.index == handlers.Lookup(host, path).value.index
                          && r.value.handler == handlers.Lookup(host, path).value.value.handler
      ensures r.Some? && handlers.Lookup(host, path).value.value.strip.None? ==> r.value.newPath.None?
      ensures r.Some? && handlers.Lookup(host, path).value.value.strip.Some? ==>
                r.value.newPath == removePrefix(handlers.Lookup(host, path).value.value.strip.value, path)
    {
      match handlers.Lookup(host, path)
      case None => None
      case Some(m) =>
        var newPath := match m.value.strip
          case None => None
          case Some(p) => removePrefix(p, path);
        Some(Selection(m.index, m.value.handler, newPath))
    }

    /**
     * The state `request_filter` leaves behind: unchanged on a miss; on a hit, the
     * lookup's match index in the context and in the session, and the path rewritten
     * only when the strip marker yields a new one, with the query kept when the new
     * text parses and reassembles.
     */
    function SelectionEffect(host: string, before: RequestState, removePrefix: (Path, string) -> Option<string>,
                             parses: string -> bool, reassembles: bool -> bool): (after: RequestState)
      ensures Select(host, before.uri.path, removePrefix).None? ==> after == before
      ensures Select(host, before.uri.path, removePrefix).Some? ==>
                after.index.Some? && after.index == after.token
                && after.index.value == handlers.Lookup(host, before.uri.path).value.index
      ensures after.uri != before.uri ==> Select(host, before.uri.path, removePrefix).Some?
                                          && Select(host, before.uri.path, removePrefix).value.newPath.Some?
      ensures var sel := Select(host, before.uri.path, removePrefix);
              sel.Some? && sel.value.newPath.None? ==> after.uri == before.uri
      ensures var sel := Select(host, before.uri.path, removePrefix);
              sel.Some? && sel.value.newPath.Some? && '?' !in sel.value.newPath.value
              && parses(PathAndQuery(Uri(sel.value.newPath.value, before.uri.query))) && reassembles(true)
              ==> after.uri == Uri(sel.value.newPath.value, before.uri.query)
      ensures var sel := Select(host, before.uri.path, removePrefix);
              sel.Some? && sel.value.newPath.Some?
              && !parses(PathAndQuery(Uri(sel.value.newPath.value, before.uri.query))) && reassembles(false)
              ==> after.uri == Uri([], None)
    {
      match Select(host, before.uri.path, removePrefix)
      case None => before
      case Some(sel) =>
        var uri := match sel.newPath
          case None => before.uri
          case Some(p) => SetUriPath(before.uri, p, parses, reassembles);
        RequestState(Some(sel.index), Some(sel.index), uri)
    }

    /** `request_filter`: select, record the index twice, rewrite the path, delegate. */
    method RequestFilter<C>(session: Session, ctx: VirtualHostsCtx<C>, removePrefix: (Path, string) -> Option<string>,
                            parses: string -> bool, reassembles: bool -> bool, delegates: Delegates<H>)
      returns (r: Result<RequestFilterResult, Error>)
      modifies session, ctx
      ensures var host := match old(session.host) case None => "" case Some(h) => h;
              var sel := Select(host, old(session.uri.path), removePrefix);
              && RequestState(ctx.index, session.token, session.uri)
                 == SelectionEffect(host, RequestState(old(ctx.index), old(session.token), old(session.uri)), removePrefix,
                                   parses, reassembles)
              && (sel.None? ==> r == Ok(Unhandled))
              && (sel.Some? ==> r == delegates.requestFilter(sel.value.handler))
      ensures session.host == old(session.host) && ctx.handler == old(ctx.handler)
    {
      var path := session.uri.path;
      var host := match session.host case None => "" case Some(h) => h;
      var selected := Select(host, path, removePrefix);
      match selected {
        case None =>
          r := Ok(Unhandled);
        case Some(sel) =>
          ctx.index := Some(sel.index);
          // The session keeps a copy: response_filter can run without this context.
          session.token := Some(sel.index);
          if sel.newPath.Some? {
            session.uri := SetUriPath(session.uri, sel.newPath.value, parses, reassembles);
          }
          r := delegates.requestFilter(sel.handler);
      }
    }

    /** `upstream_peer`: delegate to the recorded handler, or choose no peer. */
    function UpstreamPeer<C>(ctx: VirtualHostsCtx<C>, delegates: Delegates<H>): (r: Result<Option<HttpPeer>, Error>)
      reads ctx
      ensures AsInner(ctx).None? ==> r == Ok(None)
      ensures AsInner(ctx).Some? ==> r == delegates.upstreamPeer(AsInner(ctx).value)
    {
      match AsInner(ctx)
      case None => Ok(None)
      case Some(h) => delegates.upstreamPeer(h)
    }

    /**
     * The index `response_filter` recovers: the context's when a context is passed and
     * holds one, otherwise the session's token.
     */
    function ResponseIndex<C>(ctx: Option<VirtualHostsCtx<C>>, session: Session): (r: Option<nat>)
      reads if ctx.Some? then {ctx.value} else {}, session
      ensures ctx.Some? && ctx.value.index.Some? ==> r == ctx.value.index
      ensures (ctx.None? || ctx.value.index.None?) ==> r == session.token
    {
      match ctx
      case Some(c) => if c.index.Some? then c.index else session.token
      case None => session.token
    }

    /** `response_filter`: the handler it delegates to, or `None` when it does nothing. */
    function ResponseFilter<C>(ctx: Option<VirtualHostsCtx<C>>, session: Session): (r: Option<H>)
      reads if ctx.Some? then {ctx.value} else {}, session
      ensures r.None? <==> ResponseIndex(ctx, session).None?
                           || ResponseIndex(ctx, session).value >= |handlers.entries|
      ensures r.Some? ==> r.value == handlers.entries[ResponseIndex(ctx, session).value].value.handler
    {
      Recover(ResponseIndex(ctx, session))
    }

    /** `logging`: the handler whose logging phase runs, or `None` when it does nothing. */
    function Logging<C>(ctx: VirtualHostsCtx<C>): (r: Option<H>)
      reads ctx
      ensures r.None? <==> ctx.index.None? || ctx.index.value >= |handlers.entries|
      ensures r.Some? ==> r.value == handlers.entries[ctx.index.value].value.handler
    {
      AsInner(ctx)
    }

    /**
     * After a selection, every later phase recovers the handler the selection delegated
     * to, whether it reads the context or, without one, the session token.
     */
    lemma SelectionRecovered(host: string, before: RequestState, removePrefix: (Path, string) -> Option<string>,
                             parses: string -> bool, reassembles: bool -> bool)
      requires FallbacksAgree(handlers.entries)
      requires Select(host, before.uri.path, removePrefix).Some?
      ensures var sel := Select(host, before.uri.path, removePrefix).value;
              var after := SelectionEffect(host, before, removePrefix, parses, reassembles);
              Recover(after.index) == Some(sel.handler) && Recover(after.token) == Some(sel.handler)
    {
    }
  }
}
