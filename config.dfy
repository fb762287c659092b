/**
 * The typed virtual-hosts configuration the compiler consumes, as an already
 * deserialized tree. Maps of the configuration appear in their iteration order.
 */
module Configuration {

  /** A sub-path key: the path and whether it must match exactly (the key has no wildcard suffix). */
  datatype SubPathRule = SubPathRule(path: string, exact: bool)

  /** A sub-path override: its handler configuration and whether to strip the prefix. */
  datatype SubPathConf<C> = SubPathConf(config: C, stripPrefix: bool)

  datatype SubPath<C> = SubPath(rule: SubPathRule, conf: SubPathConf<C>)

  /** One virtual host's settings: handler configuration, `default` flag, sub-paths. */
  datatype VirtualHostConf<C> = VirtualHostConf(config: C, default: bool, subpaths: seq<SubPath<C>>)

  /** One virtual host: the host names it is keyed by and its settings. */
  datatype VirtualHost<C> = VirtualHost(hosts: seq<string>, conf: VirtualHostConf<C>)

  datatype VirtualHostsConf<C> = VirtualHostsConf(vhosts: seq<VirtualHost<C>>)
}
