/**
 * `TryFrom<VirtualHostsConf<C>> for VirtualHostsHandler<H>`: flattens the virtual hosts
 * into an ordered sequence of router pushes. `Compiled` is the reference definition of
 * that sequence; `TryFrom` builds it imperatively and is proved to agree with it; the
 * lemmas state the rules the sequence obeys.
 */
module Compiler {
  import opened Wrappers
  import opened Router
  import opened OrderedNames
  import opened Configuration
  import opened Handler

  /* ---------- Host names ---------- */

  /** Some host among the first `k` is marked default. */
  predicate AnyDefault<C>(vhosts: seq<VirtualHost<C>>, k: nat)
    requires k <= |vhosts|
  {
    k > 0 && (vhosts[k - 1].conf.default || AnyDefault(vhosts, k - 1))
  }

  lemma {:induction false} AnyDefaultMeans<C>(vhosts: seq<VirtualHost<C>>, k: nat)
    requires k <= |vhosts|
    ensures AnyDefault(vhosts, k) <==> exists j :: 0 <= j < k && vhosts[j].conf.default
  {
    if k > 0 {
      AnyDefaultMeans(vhosts, k - 1);
      if vhosts[k - 1].conf.default {
        assert 0 <= k - 1 < k && vhosts[k - 1].conf.default;
      }
    }
  }

  /** A host marked default counts for every later prefix. */
  lemma {:induction false} DefaultSeen<C>(vhosts: seq<VirtualHost<C>>, i: nat, k: nat)
    requires i < k <= |vhosts| && vhosts[i].conf.default
    ensures AnyDefault(vhosts, k)
  {
    if i < k - 1 {
      DefaultSeen(vhosts, i, k - 1);
    }
  }

  /** Host `i` takes the default slot: it is marked default and no earlier host is. */
  predicate IsFirstDefault<C>(vhosts: seq<VirtualHost<C>>, i: nat)
    requires i < |vhosts|
  {
    vhosts[i].conf.default && !AnyDefault(vhosts, i)
  }

  /** `hosts.retain(|host| !host.is_empty())`. */
  function Retain(hosts: seq<string>): (r: seq<string>)
    ensures forall h :: h in r <==> h in hosts && h != ""
    ensures |r| <= |hosts|
  {
    if hosts == [] then []
    else
      var last := hosts[|hosts| - 1];
      assert hosts == hosts[..|hosts| - 1] + [last];
      Retain(hosts[..|hosts| - 1]) + (if last == "" then [] else [last])
  }

  /**
   * The names one host is registered under: `""` when it took the default slot,
   * then its non-empty host names, as a sorted set.
   */
  function HostNames(hosts: seq<string>, wonDefault: bool): (r: seq<string>)
    ensures |r| <= |hosts| + 1
  {
    InsertAll(if wonDefault then Insert([], "") else [], Retain(hosts))
  }

  /**
   * A host's names form a sorted set holding its non-empty host names, plus the empty
   * name exactly when it took the default slot.
   */
  lemma HostNamesSpec(hosts: seq<string>, wonDefault: bool)
    ensures StrictlySorted(HostNames(hosts, wonDefault))
    ensures "" in HostNames(hosts, wonDefault) <==> wonDefault
    ensures forall n :: n in HostNames(hosts, wonDefault) <==> (n in hosts && n != "") || (wonDefault && n == "")
  {
    var start := if wonDefault then Insert([], "") else [];
    InsertMembers([], "");
    InsertSorted([], "");
    InsertAllSpec(start, Retain(hosts));
  }

  /** Exactly one host takes the default slot when any host is marked default. */
  lemma {:induction false} FirstDefaultExists<C>(vhosts: seq<VirtualHost<C>>, k: nat)
    requires k < |vhosts| && vhosts[k].conf.default
    ensures exists i :: 0 <= i <= k && IsFirstDefault(vhosts, i)
  {
    if !IsFirstDefault(vhosts, k) {
      AnyDefaultMeans(vhosts, k);
      var j :| 0 <= j < k && vhosts[j].conf.default;
      FirstDefaultExists(vhosts, j);
    }
  }

  lemma FirstDefaultUnique<C>(vhosts: seq<VirtualHost<C>>, i: nat, j: nat)
    requires i < |vhosts| && j < |vhosts|
    requires IsFirstDefault(vhosts, i) && IsFirstDefault(vhosts, j)
    ensures i == j
  {
    if i < j {
      AnyDefaultMeans(vhosts, j);
    } else if j < i {
      AnyDefaultMeans(vhosts, i);
    }
  }

  /* ---------- Sub-path order ---------- */

  /** The sub-paths whose rule has the given exactness, in order. */
  function OnlyExact<C>(subs: seq<SubPath<C>>, exact: bool): seq<SubPath<C>>
  {
    if subs == [] then []
    else
      var last := subs[|subs| - 1];
      OnlyExact(subs[..|subs| - 1], exact) + (if last.rule.exact == exact then [last] else [])
  }

  lemma {:induction false} OnlyExactMembers<C>(subs: seq<SubPath<C>>, exact: bool)
    ensures forall s :: s in OnlyExact(subs, exact) ==> s in subs && s.rule.exact == exact
  {
    if subs != [] {
      OnlyExactMembers(subs[..|subs| - 1], exact);
      assert forall s :: s in subs[..|subs| - 1] ==> s in subs;
    }
  }

  /** `subpaths.sort_by_key(|(rule, _)| rule.exact)`: a stable sort, prefix rules first. */
  function SortByExact<C>(subs: seq<SubPath<C>>): (r: seq<SubPath<C>>)
    ensures multiset(r) == multiset(subs)
  {
    OnlyExactSplit(subs);
    OnlyExact(subs, false) + OnlyExact(subs, true)
  }

  lemma {:induction false} OnlyExactAppend<C>(a: seq<SubPath<C>>, b: seq<SubPath<C>>, exact: bool)
    ensures OnlyExact(a + b, exact) == OnlyExact(a, exact) + OnlyExact(b, exact)
    decreases |b|
  {
    if b != [] {
      assert (a + b)[..|a + b| - 1] == a + b[..|b| - 1];
      OnlyExactAppend(a, b[..|b| - 1], exact);
    } else {
      assert a + b == a;
    }
  }

  lemma {:induction false} OnlyExactOfUniform<C>(subs: seq<SubPath<C>>, exact: bool)
    requires forall s :: s in subs ==> s.rule.exact == exact
    ensures OnlyExact(subs, exact) == subs
    ensures OnlyExact(subs, !exact) == []
  {
    if subs != [] {
      assert subs == subs[..|subs| - 1] + [subs[|subs| - 1]];
      OnlyExactOfUniform(subs[..|subs| - 1], exact);
    }
  }

  lemma {:induction false} OnlyExactSplit<C>(subs: seq<SubPath<C>>)
    ensures multiset(OnlyExact(subs, false)) + multiset(OnlyExact(subs, true)) == multiset(subs)
  {
    if subs != [] {
      assert subs == subs[..|subs| - 1] + [subs[|subs| - 1]];
      OnlyExactSplit(subs[..|subs| - 1]);
    }
  }

  /**
   * The sort is a permutation, puts every prefix rule before every exact rule, and
   * keeps configuration order among rules of the same kind.
   */
  lemma SortByExactIsStableSort<C>(subs: seq<SubPath<C>>)
    ensures multiset(SortByExact(subs)) == multiset(subs)
    ensures forall i, j :: 0 <= i < j < |SortByExact(subs)| && SortByExact(subs)[i].rule.exact
                           ==> SortByExact(subs)[j].rule.exact
    ensures OnlyExact(SortByExact(subs), false) == OnlyExact(subs, false)
    ensures OnlyExact(SortByExact(subs), true) == OnlyExact(subs, true)
  {
    var prefix, exact := OnlyExact(subs, false), OnlyExact(subs, true);
    OnlyExactSplit(subs);
    OnlyExactMembers(subs, false);
    OnlyExactMembers(subs, true);
    var r := SortByExact(subs);
    forall i, j | 0 <= i < j < |r| && r[i].rule.exact
      ensures r[j].rule.exact
    {
      assert r[j] == exact[j - |prefix|];
      assert r[j] in exact;
    }
    OnlyExactAppend(prefix, exact, false);
    OnlyExactAppend(prefix, exact, true);
    OnlyExactOfUniform(prefix, false);
    OnlyExactOfUniform(exact, true);
  }

  lemma SortByExactMembers<C>(subs: seq<SubPath<C>>)
    ensures forall s :: s in SortByExact(subs) <==> s in subs
  {
    SortByExactIsStableSort(subs);
    assert forall s :: s in SortByExact(subs) <==> s in multiset(SortByExact(subs));
    assert forall s :: s in subs <==> s in multiset(subs);
  }

  /* ---------- Pushes ---------- */

  /** What one push registers, apart from the host name. */
  datatype Route<V> = Route(path: string, value: V, fallback: Option<V>)

  /** The root push each name gets: path `""`, no strip marker, fallback present. */
  function RootRoute<H>(h: H): (r: Route<Target<H>>)
    ensures r.path == "" && r.value.handler == h && r.value.strip.None?
    ensures r.fallback == Some(r.value)
  {
    Route("", Target(None, h), Some(Target(None, h)))
  }

  /** The strip marker: the rule's own path when `strip_prefix` is set, whatever the rule's kind. */
  function StripMarker<C>(sub: SubPath<C>): (r: Option<Path>)
    ensures r.Some? <==> sub.conf.stripPrefix
    ensures r.Some? ==> r.value.raw == sub.rule.path
  {
    if sub.conf.stripPrefix then Some(Path(sub.rule.path)) else None
  }

  /** The push for a sub-path rule; only prefix rules carry a fallback. */
  function RuleRoute<C, H>(sub: SubPath<C>, h: H): (r: Route<Target<H>>)
    ensures r.path == sub.rule.path && r.value.handler == h
    ensures r.value.strip.Some? <==> sub.conf.stripPrefix
    ensures r.value.strip.Some? ==> r.value.strip.value == Path(sub.rule.path)
    ensures r.fallback.Some? <==> !sub.rule.exact
    ensures r.fallback.Some? ==> r.fallback.value == r.value
  {
    var t := Target(StripMarker(sub), h);
    Route(sub.rule.path, t, if sub.rule.exact then None else Some(t))
  }

  /** `for host in &names { handlers.push(host, ...) }` over the first `n` names. */
  function ForEachName<V>(names: seq<string>, n: nat, route: Route<V>): (r: seq<Entry<V>>)
    requires n <= |names|
    ensures |r| == n
  {
    if n == 0 then []
    else ForEachName(names, n - 1, route) + [Entry(names[n - 1], route.path, route.value, route.fallback)]
  }

  /** The pushes of the first `n` sub-paths, or the first conversion error among them. */
  function SubEntries<C, H>(names: seq<string>, subs: seq<SubPath<C>>, n: nat, convert: C -> Result<H, Error>)
    : (r: Result<seq<Entry<Target<H>>>, Error>)
    requires n <= |subs|
    ensures n > 0 && convert(subs[0].conf.config).Err? ==> r == Err(convert(subs[0].conf.config).error)
  {
    if n == 0 then Ok([])
    else match SubEntries(names, subs, n - 1, convert)
      case Err(e) => Err(e)
      case Ok(es) =>
        match convert(subs[n - 1].conf.config)
        case Err(e) => Err(e)
        case Ok(h) => Ok(es + ForEachName(names, |names|, RuleRoute(subs[n - 1], h)))
  }

  /**
   * What the loop body derives from one virtual host besides converting its handlers:
   * the name set it registers and its sub-paths in push order. Neither step can fail.
   */
  datatype HostPlan<C> = HostPlan(names: seq<string>, config: C, subpaths: seq<SubPath<C>>)

  /** The plan of host `i`: its names (with `""` if it took the default slot), its sorted sub-paths. */
  function PlanOf<C>(vhosts: seq<VirtualHost<C>>, i: nat): HostPlan<C>
    requires i < |vhosts|
  {
    HostPlan(HostNames(vhosts[i].hosts, IsFirstDefault(vhosts, i)), vhosts[i].conf.config,
             SortByExact(vhosts[i].conf.subpaths))
  }

  /** The plans of the first `n` hosts, in configuration order. */
  function Plans<C>(vhosts: seq<VirtualHost<C>>, n: nat): (r: seq<HostPlan<C>>)
    requires n <= |vhosts|
    ensures |r| == n
  {
    if n == 0 then [] else Plans(vhosts, n - 1) + [PlanOf(vhosts, n - 1)]
  }

  lemma {:induction false} PlansAt<C>(vhosts: seq<VirtualHost<C>>, n: nat, i: nat)
    requires i < n <= |vhosts|
    ensures Plans(vhosts, n)[i] == PlanOf(vhosts, i)
  {
    if i < n - 1 {
      PlansAt(vhosts, n - 1, i);
    }
  }

  /** The pushes of one host: a root push per name, then every sub-path per name. */
  function HostEntries<C, H>(plan: HostPlan<C>, convert: C -> Result<H, Error>): (r: Result<seq<Entry<Target<H>>>, Error>)
    ensures convert(plan.config).Err? ==> r == Err(convert(plan.config).error)
  {
    match convert(plan.config)
    case Err(e) => Err(e)
    case Ok(h) =>
      match SubEntries(plan.names, plan.subpaths, |plan.subpaths|, convert)
      case Err(e) => Err(e)
      case Ok(es) => Ok(ForEachName(plan.names, |plan.names|, RootRoute(h)) + es)
  }

  /** The pushes of the first `k` hosts, or the first conversion error. */
  function Compiled<C, H>(plans: seq<HostPlan<C>>, k: nat, convert: C -> Result<H, Error>)
    : (r: Result<seq<Entry<Target<H>>>, Error>)
    requires k <= |plans|
    ensures k > 0 && convert(plans[0].config).Err? ==> r == Err(convert(plans[0].config).error)
  {
    if k == 0 then Ok([])
    else match Compiled(plans, k - 1, convert)
      case Err(e) => Err(e)
      case Ok(es) =>
        match HostEntries(plans[k - 1], convert)
        case Err(e) => Err(e)
        case Ok(hs) => Ok(es + hs)
  }

  /** The handler `try_from` produces: the compiled pushes, built into a table. */
  function Compile<C, H>(conf: VirtualHostsConf<C>, convert: C -> Result<H, Error>, algorithm: MatchAlgorithm)
    : (r: Result<VirtualHostsHandler<H>, Error>)
    ensures r.Ok? ==> r.value.handlers.algorithm == algorithm && FallbacksAgree(r.value.handlers.entries)
  {
    match Compiled(Plans(conf.vhosts, |conf.vhosts|), |conf.vhosts|, convert)
    case Err(e) => Err(e)
    case Ok(es) =>
      CompiledFallbacksAgree(Plans(conf.vhosts, |conf.vhosts|), |conf.vhosts|, convert);
      Ok(VirtualHostsHandler(Router(es, algorithm)))
  }

  /* ---------- Stickiness of errors (used by TryFrom) ---------- */

  lemma {:induction false} SubEntriesErrSticks<C, H>(names: seq<string>, subs: seq<SubPath<C>>, n: nat,
                                                     convert: C -> Result<H, Error>)
    requires n <= |subs| && SubEntries(names, subs, n, convert).Err?
    ensures SubEntries(names, subs, |subs|, convert) == SubEntries(names, subs, n, convert)
    decreases |subs| - n
  {
    if n < |subs| {
      SubEntriesErrSticks(names, subs, n + 1, convert);
    }
  }

  lemma {:induction false} CompiledErrSticks<C, H>(plans: seq<HostPlan<C>>, k: nat, convert: C -> Result<H, Error>)
    requires k <= |plans| && Compiled(plans, k, convert).Err?
    ensures Compiled(plans, |plans|, convert) == Compiled(plans, k, convert)
    decreases |plans| - k
  {
    if k < |plans| {
      CompiledErrSticks(plans, k + 1, convert);
    }
  }

  /* ---------- Rules the compiled pushes obey ---------- */

  /** Every compiled push's fallback, when present, is its own value. */
  lemma {:induction false} CompiledFallbacksAgree<C, H>(plans: seq<HostPlan<C>>, k: nat, convert: C -> Result<H, Error>)
    requires k <= |plans| && Compiled(plans, k, convert).Ok?
    ensures FallbacksAgree(Compiled(plans, k, convert).value)
  {
    if k > 0 {
      CompiledFallbacksAgree(plans, k - 1, convert);
      var p := plans[k - 1];
      ForEachNameFallbacksAgree(p.names, |p.names|, RootRoute(convert(p.config).value));
      SubEntriesFallbacksAgree(p.names, p.subpaths, |p.subpaths|, convert);
    }
  }

  lemma {:induction false} ForEachNameFallbacksAgree<V>(names: seq<string>, n: nat, route: Route<V>)
    requires n <= |names|
    requires route.fallback.None? || route.fallback == Some(route.value)
    ensures FallbacksAgree(ForEachName(names, n, route))
  {
    if n > 0 {
      ForEachNameFallbacksAgree(names, n - 1, route);
    }
  }

  lemma {:induction false} SubEntriesFallbacksAgree<C, H>(names: seq<string>, subs: seq<SubPath<C>>, n: nat,
                                                          convert: C -> Result<H, Error>)
    requires n <= |subs| && SubEntries(names, subs, n, convert).Ok?
    ensures FallbacksAgree(SubEntries(names, subs, n, convert).value)
  {
    if n > 0 {
      SubEntriesFallbacksAgree(names, subs, n - 1, convert);
      ForEachNameFallbacksAgree(names, |names|, RuleRoute(subs[n - 1], convert(subs[n - 1].conf.config).value));
    }
  }

  /** No push without a fallback (an exact rule) is followed by one with a fallback. */
  ghost predicate ExactLast<V>(es: seq<Entry<V>>)
  {
    forall i, j :: 0 <= i < j < |es| && es[i].fallback.None? ==> es[j].fallback.None?
  }

  lemma {:induction false} ForEachNameFallbacks<V>(names: seq<string>, n: nat, route: Route<V>)
    requires n <= |names|
    ensures forall e :: e in ForEachName(names, n, route) ==> e.fallback == route.fallback
  {
    if n > 0 {
      ForEachNameFallbacks(names, n - 1, route);
    }
  }

  lemma {:induction false} SubEntriesExactLast<C, H>(names: seq<string>, subs: seq<SubPath<C>>, n: nat,
                                                     convert: C -> Result<H, Error>)
    requires n <= |subs| && SubEntries(names, subs, n, convert).Ok?
    requires forall i, j :: 0 <= i < j < |subs| && subs[i].rule.exact ==> subs[j].rule.exact
    ensures ExactLast(SubEntries(names, subs, n, convert).value)
    ensures (n == 0 || !subs[n - 1].rule.exact) ==>
              forall e :: e in SubEntries(names, subs, n, convert).value ==> e.fallback.Some?
  {
    if n > 0 {
      SubEntriesExactLast(names, subs, n - 1, convert);
      var es := SubEntries(names, subs, n - 1, convert).value;
      var route := RuleRoute(subs[n - 1], convert(subs[n - 1].conf.config).value);
      var added := ForEachName(names, |names|, route);
      ForEachNameFallbacks(names, |names|, route);
      assert forall e :: e in added ==> e.fallback == route.fallback;
      var all := es + added;
      if !subs[n - 1].rule.exact {
        assert n - 1 == 0 || !subs[n - 2].rule.exact;
        assert forall e :: e in all ==> e in es || e in added;
      } else {
        forall i, j | 0 <= i < j < |all| && all[i].fallback.None?
          ensures all[j].fallback.None?
        {
          if j >= |es| {
            assert all[j] in added;
          } else {
            assert all[i] == es[i] && all[j] == es[j];
          }
        }
      }
    }
  }

  lemma ExactLastAfterFallbacks<V>(front: seq<Entry<V>>, back: seq<Entry<V>>)
    requires forall e :: e in front ==> e.fallback.Some?
    requires ExactLast(back)
    ensures ExactLast(front + back)
  {
  }

  /**
   * Within one host's pushes, every push with a fallback (root and prefix rules) comes
   * before every push without one (exact rules): the sort puts exact rules last.
   */
  lemma HostEntriesExactLast<C, H>(vhosts: seq<VirtualHost<C>>, i: nat, convert: C -> Result<H, Error>)
    requires i < |vhosts| && HostEntries(PlanOf(vhosts, i), convert).Ok?
    ensures ExactLast(HostEntries(PlanOf(vhosts, i), convert).value)
  {
    var p := PlanOf(vhosts, i);
    SortByExactIsStableSort(vhosts[i].conf.subpaths);
    SubEntriesExactLast(p.names, p.subpaths, |p.subpaths|, convert);
    var root := RootRoute(convert(p.config).value);
    ForEachNameFallbacks(p.names, |p.names|, root);
    ExactLastAfterFallbacks(ForEachName(p.names, |p.names|, root), SubEntries(p.names, p.subpaths, |p.subpaths|, convert).value);
  }

  /* ---------- Per-host view: every alias gets the same routes ---------- */

  /** The routes pushed for one host name, in push order. */
  function Project<V>(es: seq<Entry<V>>, host: string): seq<Route<V>>
  {
    if es == [] then []
    else
      var last := es[|es| - 1];
      Project(es[..|es| - 1], host) + (if last.host == host then [Route(last.path, last.value, last.fallback)] else [])
  }

  lemma {:induction false} ProjectAppend<V>(a: seq<Entry<V>>, b: seq<Entry<V>>, host: string)
    ensures Project(a + b, host) == Project(a, host) + Project(b, host)
    decreases |b|
  {
    if b == [] {
      assert a + b == a;
    } else {
      assert (a + b)[..|a + b| - 1] == a + b[..|b| - 1];
      ProjectAppend(a, b[..|b| - 1], host);
    }
  }

  /** Appending one push adds its route to the pushed name's routes only. */
  lemma ProjectSnoc<V>(es: seq<Entry<V>>, e: Entry<V>, host: string)
    ensures Project(es + [e], host)
            == Project(es, host) + (if e.host == host then [Route(e.path, e.value, e.fallback)] else [])
  {
    assert (es + [e])[..|es + [e]| - 1] == es;
  }

  /** The first `n` names are pairwise distinct: none occurs before its position. */
  ghost predicate Distinct(names: seq<string>, n: nat)
    requires n <= |names|
  {
    n == 0 || (names[n - 1] !in names[..n - 1] && Distinct(names, n - 1))
  }

  lemma {:induction false} PairwiseDistinct(names: seq<string>, n: nat)
    requires n <= |names|
    requires forall i, j :: 0 <= i < |names| && 0 <= j < |names| && i != j ==> names[i] != names[j]
    ensures Distinct(names, n)
  {
    if n > 0 {
      forall k | 0 <= k < n - 1
        ensures names[k] != names[n - 1]
      {
      }
      assert names[n - 1] !in names[..n - 1];
      PairwiseDistinct(names, n - 1);
    }
  }

  /** With distinct names, a name receives the route once if it is one of them, else never. */
  lemma {:induction false} ProjectForEachName<V>(names: seq<string>, n: nat, route: Route<V>, host: string)
    requires n <= |names| && Distinct(names, n)
    ensures Project(ForEachName(names, n, route), host) == if host in names[..n] then [route] else []
  {
    if n > 0 {
      ProjectForEachName(names, n - 1, route, host);
      ProjectSnoc(ForEachName(names, n - 1, route), Entry(names[n - 1], route.path, route.value, route.fallback), host);
      assert names[..n] == names[..n - 1] + [names[n - 1]];
    }
  }

  /** The routes of the first `n` sub-paths, independent of any host name. */
  function SubRoutes<C, H>(subs: seq<SubPath<C>>, n: nat, convert: C -> Result<H, Error>)
    : Result<seq<Route<Target<H>>>, Error>
    requires n <= |subs|
  {
    if n == 0 then Ok([])
    else match SubRoutes(subs, n - 1, convert)
      case Err(e) => Err(e)
      case Ok(rs) =>
        match convert(subs[n - 1].conf.config)
        case Err(e) => Err(e)
        case Ok(h) => Ok(rs + [RuleRoute(subs[n - 1], h)])
  }

  /** Over a name set, the per-name loop gives each of its names the route once and no other name any. */
  lemma ProjectNameSet<V>(names: seq<string>, route: Route<V>, host: string)
    requires StrictlySorted(names)
    ensures Project(ForEachName(names, |names|, route), host) == if host in names then [route] else []
  {
    SortedDistinct(names);
    PairwiseDistinct(names, |names|);
    ProjectForEachName(names, |names|, route, host);
    assert names[..|names|] == names;
  }

  lemma {:induction false} SubEntriesPerName<C, H>(names: seq<string>, subs: seq<SubPath<C>>, n: nat,
                                                   convert: C -> Result<H, Error>, host: string)
    requires n <= |subs| && StrictlySorted(names)
    requires SubEntries(names, subs, n, convert).Ok?
    ensures SubRoutes(subs, n, convert).Ok?
    ensures Project(SubEntries(names, subs, n, convert).value, host)
            == if host in names then SubRoutes(subs, n, convert).value else []
  {
    if n > 0 {
      SubEntriesPerName(names, subs, n - 1, convert, host);
      var h := convert(subs[n - 1].conf.config).value;
      var es := SubEntries(names, subs, n - 1, convert).value;
      var added := ForEachName(names, |names|, RuleRoute(subs[n - 1], h));
      ProjectAppend(es, added, host);
      ProjectNameSet(names, RuleRoute(subs[n - 1], h), host);
    }
  }

  /**
   * What one host registers for a host name: for each of its names, exactly one root
   * route to its handler followed by the same sub-path routes; for any other name, nothing.
   */
  lemma HostEntriesPerName<C, H>(plan: HostPlan<C>, convert: C -> Result<H, Error>, host: string)
    requires StrictlySorted(plan.names) && HostEntries(plan, convert).Ok?
    ensures SubRoutes(plan.subpaths, |plan.subpaths|, convert).Ok?
    ensures Project(HostEntries(plan, convert).value, host)
            == if host in plan.names
               then [RootRoute(convert(plan.config).value)] + SubRoutes(plan.subpaths, |plan.subpaths|, convert).value
               else []
  {
    var root := RootRoute(convert(plan.config).value);
    var roots := ForEachName(plan.names, |plan.names|, root);
    var es := SubEntries(plan.names, plan.subpaths, |plan.subpaths|, convert).value;
    assert HostEntries(plan, convert).value == roots + es;
    SubEntriesPerName(plan.names, plan.subpaths, |plan.subpaths|, convert, host);
    ProjectAppend(roots, es, host);
    ProjectNameSet(plan.names, root, host);
  }

  /**
   * Host `i`'s non-empty host names each get one root route and its sorted sub-path
   * routes; the empty name gets them only if host `i` took the default slot.
   */
  lemma PlannedRoutes<C, H>(vhosts: seq<VirtualHost<C>>, i: nat, convert: C -> Result<H, Error>, host: string)
    requires i < |vhosts| && HostEntries(PlanOf(vhosts, i), convert).Ok?
    ensures var subs := SortByExact(vhosts[i].conf.subpaths);
            SubRoutes(subs, |subs|, convert).Ok?
            && Project(HostEntries(PlanOf(vhosts, i), convert).value, host)
               == if (host in vhosts[i].hosts && host != "") || (host == "" && IsFirstDefault(vhosts, i))
                  then [RootRoute(convert(vhosts[i].conf.config).value)] + SubRoutes(subs, |subs|, convert).value
                  else []
  {
    HostNamesSpec(vhosts[i].hosts, IsFirstDefault(vhosts, i));
    HostEntriesPerName(PlanOf(vhosts, i), convert, host);
  }

  /** Names are sorted sets, and no plan but the one that took the default slot holds `""`. */
  ghost predicate DefaultOnlyAt<C>(plans: seq<HostPlan<C>>, k: nat, i: int)
    requires k <= |plans|
  {
    forall j :: 0 <= j < k ==> StrictlySorted(plans[j].names) && (j != i ==> "" !in plans[j].names)
  }

  /** The routes a name gets from the first `k` hosts: those of the first `k - 1`, then host `k - 1`'s. */
  lemma ProjectCompiledStep<C, H>(plans: seq<HostPlan<C>>, k: nat, convert: C -> Result<H, Error>, host: string)
    requires 0 < k <= |plans| && Compiled(plans, k, convert).Ok?
    ensures Compiled(plans, k - 1, convert).Ok? && HostEntries(plans[k - 1], convert).Ok?
    ensures Project(Compiled(plans, k, convert).value, host)
            == Project(Compiled(plans, k - 1, convert).value, host) + Project(HostEntries(plans[k - 1], convert).value, host)
  {
    ProjectAppend(Compiled(plans, k - 1, convert).value, HostEntries(plans[k - 1], convert).value, host);
  }

  /** When no plan holds `""`, nothing is registered under the empty name. */
  lemma {:induction false} NoDefaultNoRoutes<C, H>(plans: seq<HostPlan<C>>, k: nat, convert: C -> Result<H, Error>)
    requires k <= |plans| && Compiled(plans, k, convert).Ok? && DefaultOnlyAt(plans, k, -1)
    ensures Project(Compiled(plans, k, convert).value, "") == []
  {
    if k > 0 {
      ProjectCompiledStep(plans, k, convert, "");
      NoDefaultNoRoutes(plans, k - 1, convert);
      HostEntriesPerName(plans[k - 1], convert, "");
    }
  }

  /** When only plan `i` holds `""`, the empty name's routes are exactly plan `i`'s. */
  lemma {:induction false} DefaultRoutesOf<C, H>(plans: seq<HostPlan<C>>, k: nat, convert: C -> Result<H, Error>, i: nat)
    requires k <= |plans| && Compiled(plans, k, convert).Ok?
    requires i < k && DefaultOnlyAt(plans, k, i)
    ensures HostEntries(plans[i], convert).Ok?
    ensures Project(Compiled(plans, k, convert).value, "") == Project(HostEntries(plans[i], convert).value, "")
  {
    ProjectCompiledStep(plans, k, convert, "");
    if i == k - 1 {
      NoDefaultNoRoutes(plans, k - 1, convert);
    } else {
      DefaultRoutesOf(plans, k - 1, convert, i);
      HostEntriesPerName(plans[k - 1], convert, "");
    }
  }

  /** Only the first host marked default holds `""` among its names. */
  lemma PlansDefaultOnlyAt<C>(vhosts: seq<VirtualHost<C>>, i: int)
    requires i == -1 ==> !AnyDefault(vhosts, |vhosts|)
    requires i != -1 ==> 0 <= i < |vhosts| && IsFirstDefault(vhosts, i)
    ensures DefaultOnlyAt(Plans(vhosts, |vhosts|), |vhosts|, i)
  {
    forall j | 0 <= j < |vhosts|
      ensures StrictlySorted(Plans(vhosts, |vhosts|)[j].names) && (j != i ==> "" !in Plans(vhosts, |vhosts|)[j].names)
    {
      PlansAt(vhosts, |vhosts|, j);
      HostNamesSpec(vhosts[j].hosts, IsFirstDefault(vhosts, j));
      if j != i && IsFirstDefault(vhosts, j) {
        if i == -1 {
          DefaultSeen(vhosts, j, |vhosts|);
        } else {
          FirstDefaultUnique(vhosts, i, j);
        }
      }
    }
  }

  /**
   * The default (empty host) routes of a compiled table are exactly those of the first
   * host marked default; without such a host there are none.
   */
  lemma DefaultRoutes<C, H>(conf: VirtualHostsConf<C>, convert: C -> Result<H, Error>)
    requires Compiled(Plans(conf.vhosts, |conf.vhosts|), |conf.vhosts|, convert).Ok?
    ensures !AnyDefault(conf.vhosts, |conf.vhosts|) ==>
              Project(Compiled(Plans(conf.vhosts, |conf.vhosts|), |conf.vhosts|, convert).value, "") == []
    ensures forall i :: 0 <= i < |conf.vhosts| && IsFirstDefault(conf.vhosts, i) ==>
              HostEntries(PlanOf(conf.vhosts, i), convert).Ok?
              && Project(Compiled(Plans(conf.vhosts, |conf.vhosts|), |conf.vhosts|, convert).value, "")
                 == Project(HostEntries(PlanOf(conf.vhosts, i), convert).value, "")
  {
    var vhosts := conf.vhosts;
    if !AnyDefault(vhosts, |vhosts|) {
      PlansDefaultOnlyAt(vhosts, -1);
      NoDefaultNoRoutes(Plans(vhosts, |vhosts|), |vhosts|, convert);
    }
    forall i | 0 <= i < |vhosts| && IsFirstDefault(vhosts, i)
      ensures HostEntries(PlanOf(vhosts, i), convert).Ok?
      ensures Project(Compiled(Plans(vhosts, |vhosts|), |vhosts|, convert).value, "")
              == Project(HostEntries(PlanOf(vhosts, i), convert).value, "")
    {
      PlansDefaultOnlyAt(vhosts, i);
      PlansAt(vhosts, |vhosts|, i);
      DefaultRoutesOf(Plans(vhosts, |vhosts|), |vhosts|, convert, i);
    }
  }

  /* ---------- Errors ---------- */

  /** Every handler configuration of host `v` converts. */
  ghost predicate HostConverts<C, H>(v: VirtualHost<C>, convert: C -> Result<H, Error>)
  {
    convert(v.conf.config).Ok? && forall s :: s in v.conf.subpaths ==> convert(s.conf.config).Ok?
  }

  /** `e` is the error of converting some handler configuration of host `v`. */
  ghost predicate HostFailsWith<C, H>(v: VirtualHost<C>, convert: C -> Result<H, Error>, e: Error)
  {
    convert(v.conf.config) == Err(e) || exists s :: s in v.conf.subpaths && convert(s.conf.config) == Err(e)
  }

  lemma {:induction false} SubEntriesResult<C, H>(names: seq<string>, subs: seq<SubPath<C>>, n: nat,
                                                  convert: C -> Result<H, Error>)
    requires n <= |subs|
    ensures SubEntries(names, subs, n, convert).Ok? <==> forall m :: 0 <= m < n ==> convert(subs[m].conf.config).Ok?
    ensures SubEntries(names, subs, n, convert).Err? ==>
              exists m :: 0 <= m < n && convert(subs[m].conf.config) == Err(SubEntries(names, subs, n, convert).error)
  {
    if n > 0 {
      SubEntriesResult(names, subs, n - 1, convert);
    }
  }

  /** One host's pushes exist exactly when all its conversions succeed, and fail with one of their errors. */
  lemma HostEntriesResult<C, H>(vhosts: seq<VirtualHost<C>>, i: nat, convert: C -> Result<H, Error>)
    requires i < |vhosts|
    ensures HostEntries(PlanOf(vhosts, i), convert).Ok? <==> HostConverts(vhosts[i], convert)
    ensures HostEntries(PlanOf(vhosts, i), convert).Err? ==>
              HostFailsWith(vhosts[i], convert, HostEntries(PlanOf(vhosts, i), convert).error)
  {
    var p := PlanOf(vhosts, i);
    var subpaths := vhosts[i].conf.subpaths;
    SortByExactMembers(subpaths);
    SubEntriesResult(p.names, p.subpaths, |p.subpaths|, convert);
    if convert(p.config).Ok? {
      if SubEntries(p.names, p.subpaths, |p.subpaths|, convert).Err? {
        var m :| 0 <= m < |p.subpaths| && convert(p.subpaths[m].conf.config)
                                          == Err(SubEntries(p.names, p.subpaths, |p.subpaths|, convert).error);
        assert p.subpaths[m] in subpaths;
      } else {
        forall s | s in subpaths
          ensures convert(s.conf.config).Ok?
        {
          assert s in p.subpaths;
          var m :| 0 <= m < |p.subpaths| && p.subpaths[m] == s;
        }
      }
    }
  }

  /** The pushes of the first `k` plans exist exactly when each plan's pushes do; a failure is one plan's. */
  /** Compilation of the first `k` hosts succeeds exactly when each of their pushes does. */
  lemma {:induction false} CompiledOk<C, H>(plans: seq<HostPlan<C>>, k: nat, convert: C -> Result<H, Error>)
    requires k <= |plans|
    ensures Compiled(plans, k, convert).Ok? <==> forall i :: 0 <= i < k ==> HostEntries(plans[i], convert).Ok?
  {
    if k > 0 {
      CompiledOk(plans, k - 1, convert);
      var prev, last := Compiled(plans, k - 1, convert), HostEntries(plans[k - 1], convert);
      if prev.Err? {
        assert Compiled(plans, k, convert).Err?;
        var j :| 0 <= j < k - 1 && !HostEntries(plans[j], convert).Ok?;
      } else if last.Err? {
        assert Compiled(plans, k, convert).Err?;
      } else {
        assert Compiled(plans, k, convert).Ok?;
        forall i | 0 <= i < k
          ensures HostEntries(plans[i], convert).Ok?
        {
          if i < k - 1 {
            assert HostEntries(plans[i], convert).Ok?;
          }
        }
      }
    }
  }

  /** A failed compilation returns the error of one host's pushes. */
  lemma {:induction false} CompiledErr<C, H>(plans: seq<HostPlan<C>>, k: nat, convert: C -> Result<H, Error>)
    requires k <= |plans| && Compiled(plans, k, convert).Err?
    ensures exists i :: 0 <= i < k && HostEntries(plans[i], convert) == Err(Compiled(plans, k, convert).error)
  {
    var prev := Compiled(plans, k - 1, convert);
    if prev.Err? {
      CompiledErr(plans, k - 1, convert);
      var i :| 0 <= i < k - 1 && HostEntries(plans[i], convert) == Err(prev.error);
      assert Compiled(plans, k, convert) == prev;
    } else {
      assert HostEntries(plans[k - 1], convert) == Err(Compiled(plans, k, convert).error);
    }
  }

  lemma CompiledResult<C, H>(plans: seq<HostPlan<C>>, k: nat, convert: C -> Result<H, Error>)
    requires k <= |plans|
    ensures Compiled(plans, k, convert).Ok? <==> forall i :: 0 <= i < k ==> HostEntries(plans[i], convert).Ok?
    ensures Compiled(plans, k, convert).Err? ==>
              exists i :: 0 <= i < k && HostEntries(plans[i], convert) == Err(Compiled(plans, k, convert).error)
  {
    CompiledOk(plans, k, convert);
    if Compiled(plans, k, convert).Err? {
      CompiledErr(plans, k, convert);
    }
  }

  /**
   * Compilation succeeds exactly when every handler configuration converts; when it
   * fails, it returns the error of one of those conversions unchanged.
   */
  lemma CompileResult<C, H>(conf: VirtualHostsConf<C>, convert: C -> Result<H, Error>, algorithm: MatchAlgorithm)
    ensures Compile(conf, convert, algorithm).Ok? <==> forall i :: 0 <= i < |conf.vhosts| ==> HostConverts(conf.vhosts[i], convert)
    ensures Compile(conf, convert, algorithm).Err? ==>
              exists i :: 0 <= i < |conf.vhosts| && HostFailsWith(conf.vhosts[i], convert, Compile(conf, convert, algorithm).error)
  {
    var vhosts := conf.vhosts;
    var plans := Plans(vhosts, |vhosts|);
    CompiledResult(plans, |vhosts|, convert);
    forall i | 0 <= i < |vhosts|
      ensures HostEntries(plans[i], convert).Ok? <==> HostConverts(vhosts[i], convert)
      ensures HostEntries(plans[i], convert).Err? ==> HostFailsWith(vhosts[i], convert, HostEntries(plans[i], convert).error)
    {
      PlansAt(vhosts, |vhosts|, i);
      HostEntriesResult(vhosts, i, convert);
    }
    if Compiled(plans, |vhosts|, convert).Err? {
      var i :| 0 <= i < |vhosts| && HostEntries(plans[i], convert) == Err(Compiled(plans, |vhosts|, convert).error);
      assert HostFailsWith(vhosts[i], convert, Compile(conf, convert, algorithm).error);
    }
  }

  /* ---------- The imperative compiler ---------- */

  /** `hosts.retain(...)`: drops empty host names, keeping the order of the rest. */
  method RetainNonEmpty(hosts: seq<string>) returns (kept: seq<string>)
    ensures kept == Retain(hosts)
  {
    kept := [];
    var j := 0;
    while j < |hosts|
      invariant j <= |hosts|
      invariant kept == Retain(hosts[..j])
    {
      assert hosts[..j + 1][..j] == hosts[..j];
      if hosts[j] != "" {
        kept := kept + [hosts[j]];
      }
      j := j + 1;
    }
    assert hosts[..j] == hosts;
  }

  /** `names.extend(kept)`: inserts the kept names into the sorted set. */
  method Extend(names: seq<string>, kept: seq<string>) returns (r: seq<string>)
    ensures r == InsertAll(names, kept)
  {
    r := names;
    var j := 0;
    while j < |kept|
      invariant j <= |kept|
      invariant r == InsertAll(names, kept[..j])
    {
      assert kept[..j + 1][..j] == kept[..j];
      r := Insert(r, kept[j]);
      j := j + 1;
    }
    assert kept[..j] == kept;
  }

  /**
   * The host's name set: `""` inserted first when it took the default slot, then the
   * non-empty host names.
   */
  method CollectNames(hosts: seq<string>, wonDefault: bool) returns (names: seq<string>)
    ensures names == HostNames(hosts, wonDefault)
  {
    names := [];
    if wonDefault {
      names := Insert(names, "");
    }
    var kept := RetainNonEmpty(hosts);
    names := Extend(names, kept);
  }

  /** Pushes `route` once for every name, in the set's order. */
  method PushForEachName<V>(handlers: RouterBuilder<V>, names: seq<string>, route: Route<V>)
    modifies handlers
    ensures handlers.entries == old(handlers.entries) + ForEachName(names, |names|, route)
  {
    var m := 0;
    while m < |names|
      invariant m <= |names|
      invariant handlers.entries == old(handlers.entries) + ForEachName(names, m, route)
    {
      handlers.Push(names[m], route.path, route.value, route.fallback);
      m := m + 1;
    }
  }

  /**
   * The sub-path loop of one host: converts each rule's handler configuration in order
   * and pushes the rule for every name, stopping at the first conversion error.
   */
  method PushSubpaths<C, H>(handlers: RouterBuilder<Target<H>>, names: seq<string>, subpaths: seq<SubPath<C>>,
                            convert: C -> Result<H, Error>)
    returns (failed: Option<Error>)
    modifies handlers
    ensures match SubEntries(names, subpaths, |subpaths|, convert)
            case Ok(es) => failed.None? && handlers.entries == old(handlers.entries) + es
            case Err(e) => failed == Some(e)
  {
    ghost var done: seq<Entry<Target<H>>> := [];
    var j := 0;
    while j < |subpaths|
      invariant j <= |subpaths|
      invariant SubEntries(names, subpaths, j, convert) == Ok(done)
      invariant handlers.entries == old(handlers.entries) + done
    {
      var sub := subpaths[j];
      var converted := convert(sub.conf.config);
      if converted.Err? {
        SubEntriesErrSticks(names, subpaths, j + 1, convert);
        return Some(converted.error);
      }
      var route := RuleRoute(sub, converted.value);
      PushForEachName(handlers, names, route);
      done := done + ForEachName(names, |names|, route);
      j := j + 1;
    }
    failed := None;
  }

  /** The pushes of one host whose handler converted: root pushes, then its sub-paths in plan order. */
  method PushHost<C, H>(handlers: RouterBuilder<Target<H>>, plan: HostPlan<C>, handler: H, convert: C -> Result<H, Error>)
    returns (failed: Option<Error>)
    requires convert(plan.config) == Ok(handler)
    modifies handlers
    ensures match HostEntries(plan, convert)
            case Ok(hs) => failed.None? && handlers.entries == old(handlers.entries) + hs
            case Err(e) => failed == Some(e)
  {
    PushForEachName(handlers, plan.names, RootRoute(handler));
    ghost var roots := ForEachName(plan.names, |plan.names|, RootRoute(handler));
    failed := PushSubpaths(handlers, plan.names, plan.subpaths, convert);
    if failed.None? {
      assert handlers.entries
             == old(handlers.entries) + (roots + SubEntries(plan.names, plan.subpaths, |plan.subpaths|, convert).value);
    }
  }

  /**
   * The body of the host loop once the host's handler has converted: collects its names,
   * sorts its sub-paths and pushes them.
   */
  method PushNextHost<C, H>(handlers: RouterBuilder<Target<H>>, vhosts: seq<VirtualHost<C>>, k: nat, wonDefault: bool,
                            handler: H, convert: C -> Result<H, Error>)
    returns (failed: Option<Error>)
    requires k < |vhosts| && wonDefault == IsFirstDefault(vhosts, k) && convert(vhosts[k].conf.config) == Ok(handler)
    modifies handlers
    ensures match HostEntries(Plans(vhosts, |vhosts|)[k], convert)
            case Ok(hs) => failed.None? && handlers.entries == old(handlers.entries) + hs
            case Err(e) => failed == Some(e)
  {
    var names := CollectNames(vhosts[k].hosts, wonDefault);
    var subpaths := SortByExact(vhosts[k].conf.subpaths);
    var plan := HostPlan(names, vhosts[k].conf.config, subpaths);
    PlansAt(vhosts, |vhosts|, k);
    failed := PushHost(handlers, plan, handler, convert);
  }

  /** `try_from`: compiles the virtual hosts into the routing table, or fails with a conversion error. */
  method TryFrom<C, H>(conf: VirtualHostsConf<C>, convert: C -> Result<H, Error>, algorithm: MatchAlgorithm)
    returns (r: Result<VirtualHostsHandler<H>, Error>)
    ensures r == Compile(conf, convert, algorithm)
  {
    var vhosts := conf.vhosts;
    ghost var plans := Plans(vhosts, |vhosts|);
    var handlers := new RouterBuilder<Target<H>>();
    var default: Option<seq<string>> := None;
    var k := 0;
    while k < |vhosts|
      invariant k <= |vhosts|
      invariant Compiled(plans, k, convert) == Ok(handlers.entries)
      invariant default.None? <==> !AnyDefault(vhosts, k)
    {
      var hosts, hostConf := vhosts[k].hosts, vhosts[k].conf;
      var converted := convert(hostConf.config);
      if converted.Err? {
        PlansAt(vhosts, |vhosts|, k);
        CompiledErrSticks(plans, k + 1, convert);
        return Err(converted.error);
      }

      var wonDefault := false;
      if hostConf.default {
        if default.Some? {
          // A later default host: ignored (`try_from` only warns).
        } else {
          default := Some(hosts);
          wonDefault := true;
        }
      }

      var failed := PushNextHost(handlers, vhosts, k, wonDefault, converted.value, convert);
      if failed.Some? {
        CompiledErrSticks(plans, k + 1, convert);
        return Err(failed.value);
      }
      k := k + 1;
    }
    r := Ok(VirtualHostsHandler(handlers.Build(algorithm)));
  }

  /**
   * A compiled handler's later phases recover, for any selection, the handler that
   * selection delegated to, from the context or from the session token alike.
   */
  lemma CompiledSelectionRecovered<C, H>(conf: VirtualHostsConf<C>, convert: C -> Result<H, Error>,
                                         algorithm: MatchAlgorithm, host: string, before: RequestState,
                                         removePrefix: (Path, string) -> Option<string>, parses: string -> bool,
                                         reassembles: bool -> bool)
    requires Compile(conf, convert, algorithm).Ok?
    requires Compile(conf, convert, algorithm).value.Select(host, before.uri.path, removePrefix).Some?
    ensures var vh := Compile(conf, convert, algorithm).value;
            var sel := vh.Select(host, before.uri.path, removePrefix).value;
            var after := vh.SelectionEffect(host, before, removePrefix, parses, reassembles);
            vh.Recover(after.index) == Some(sel.handler) && vh.Recover(after.token) == Some(sel.handler)
  {
    CompiledFallbacksAgree(Plans(conf.vhosts, |conf.vhosts|), |conf.vhosts|, convert);
    Compile(conf, convert, algorithm).value.SelectionRecovered(host, before, removePrefix, parses, reassembles);
  }
}
