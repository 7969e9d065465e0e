/** The records of the host inventory (core/model.go). */
module Model {

  datatype Option<+T> = None | Some(value: T)

  /** An SSH host key seen on a port. `color` is only used by the diagram. */
  datatype HostKey = HostKey(keyType: string, key: string, fingerprint: string, color: string)

  /** A port of a host. `hostKeys` is `None` for Go's nil slice, which the
      key merge treats differently from a present (possibly empty) list. */
  datatype Port = Port(
    protocol: string,
    number: int,
    serviceName: string,
    serviceVersion: string,
    hostKeys: Option<seq<HostKey>>)

  /** A host identified by its IPv4 address. `hops` 0 means unknown. */
  datatype Host = Host(
    ipv4: string,
    ipv6: string,
    mac: string,
    hostname: string,
    ports: seq<Port>,
    hops: int,
    os: string)

  datatype UnidentifiedHost = UnidentifiedHost(ipv6: string, mac: string)

  datatype Scan = Scan(hosts: seq<Host>, unidentifiedHosts: seq<UnidentifiedHost>)

  /** The keys of a port as Go's `range` sees them: nil iterates nothing. */
  function KeyList(keys: Option<seq<HostKey>>): seq<HostKey>
  {
    match keys
    case None => []
    case Some(ks) => ks
  }

  /** A host that only carries the given IPv6 and MAC addresses. */
  function AddressOnlyHost(ipv6: string, mac: string): Host
  {
    Host("", ipv6, mac, "", [], 0, "")
  }
}
