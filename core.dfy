/** The merge loops of core/core.go. The stored model is an object whose
    host list the two Complement operations update in place; the helpers
    that Go runs through pointers into that list (mergeHost, mergePort,
    mergeKeys) take the element and return its new value, which the caller
    writes back at the same position. */
module Core {
  import opened Model
  import opened Keyed
  import opened Reconcile

  /** findKeyByType: the position of the first key with the incoming key's Type. */
  method FindKeyByType(keys: seq<HostKey>, newKey: HostKey) returns (r: Option<nat>)
    ensures r == FirstIndexOf(Types(keys), newKey.keyType)
  {
    for i := 0 to |keys|
      invariant forall j :: 0 <= j < i ==> keys[j].keyType != newKey.keyType
    {
      if keys[i].keyType == newKey.keyType {
        assert Types(keys)[i] == newKey.keyType;
        return Some(i);
      }
    }
    assert newKey.keyType !in Types(keys);
    return None;
  }

  /** findPortByNumber: the position of the first port with this Number. */
  method FindPortByNumber(host: Host, number: int) returns (r: Option<nat>)
    ensures r == FirstIndexOf(Numbers(host.ports), number)
  {
    for i := 0 to |host.ports|
      invariant forall j :: 0 <= j < i ==> host.ports[j].number != number
    {
      if host.ports[i].number == number {
        assert Numbers(host.ports)[i] == number;
        return Some(i);
      }
    }
    assert number !in Numbers(host.ports);
    return None;
  }

  /** mergeKeys: the port with its key list merged. */
  method MergeKeys(port: Port, newPort: Port) returns (r: Port)
    ensures r == port.(hostKeys := MergedKeys(port.hostKeys, newPort.hostKeys))
  {
    if port.hostKeys.None? {
      return port.(hostKeys := newPort.hostKeys);
    }
    var keys := port.hostKeys.value;
    var incoming := KeyList(newPort.hostKeys);
    for i := 0 to |incoming|
      invariant keys == UpsertAll(port.hostKeys.value, incoming[..i], KeyType, Replace)
    {
      var hostKey := incoming[i];
      assert incoming[..i + 1][..i] == incoming[..i] && incoming[..i + 1][i] == hostKey;
      var existingKey := FindKeyByType(keys, hostKey);
      if existingKey.Some? {
        keys := keys[existingKey.value := hostKey];
      } else {
        keys := keys + [hostKey];
      }
    }
    assert incoming[..|incoming|] == incoming;
    return port.(hostKeys := Some(keys));
  }

  /** mergePort: Protocol, ServiceName and ServiceVersion take the incoming
      value iff it is non-empty; Number never changes; then the keys are merged. */
  method MergePort(port: Port, newPort: Port) returns (r: Port)
    ensures r == MergedPort(port, newPort)
    ensures r.number == port.number
    ensures r.protocol == (if newPort.protocol != "" then newPort.protocol else port.protocol)
    ensures r.serviceName == (if newPort.serviceName != "" then newPort.serviceName else port.serviceName)
    ensures r.serviceVersion == (if newPort.serviceVersion != "" then newPort.serviceVersion else port.serviceVersion)
  {
    r := port;
    if newPort.protocol != "" {
      r := r.(protocol := newPort.protocol);
    }
    if newPort.serviceName != "" {
      r := r.(serviceName := newPort.serviceName);
    }
    if newPort.serviceVersion != "" {
      r := r.(serviceVersion := newPort.serviceVersion);
    }
    r := MergeKeys(r, newPort);
  }

  /** mergeHost: IPv6, MAC and Hostname take the incoming value iff it is
      non-empty; IPv4, Hops and OS never change; existing ports keep their
      positions and Numbers and each new Number is appended once, in order. */
  method MergeHost(host: Host, newHost: Host) returns (r: Host)
    ensures r == MergedHost(host, newHost)
    ensures r.ipv4 == host.ipv4 && r.hops == host.hops && r.os == host.os
    ensures r.ipv6 == (if newHost.ipv6 != "" then newHost.ipv6 else host.ipv6)
    ensures r.mac == (if newHost.mac != "" then newHost.mac else host.mac)
    ensures r.hostname == (if newHost.hostname != "" then newHost.hostname else host.hostname)
    ensures Numbers(r.ports) == Numbers(host.ports) + NewValues(Numbers(host.ports), Numbers(newHost.ports))
  {
    r := host;
    if newHost.ipv6 != "" {
      r := r.(ipv6 := newHost.ipv6);
    }
    if newHost.mac != "" {
      r := r.(mac := newHost.mac);
    }
    if newHost.hostname != "" {
      r := r.(hostname := newHost.hostname);
    }
    ghost var fields := r;
    for i := 0 to |newHost.ports|
      invariant r == fields.(ports := MergedPorts(host.ports, newHost.ports[..i]))
    {
      var newPort := newHost.ports[i];
      assert newHost.ports[..i + 1][..i] == newHost.ports[..i] && newHost.ports[..i + 1][i] == newPort;
      var existingPort := FindPortByNumber(r, newPort.number);
      if existingPort.Some? {
        var merged := MergePort(r.ports[existingPort.value], newPort);
        r := r.(ports := r.ports[existingPort.value := merged]);
      } else {
        r := r.(ports := r.ports + [newPort]);
      }
    }
    assert newHost.ports[..|newHost.ports|] == newHost.ports;
    MergedPortsLayout(host.ports, newHost.ports);
  }

  /** The stored inventory (a Scan) that the merges update in place. */
  class ScanStore {
    var hosts: seq<Host>
    var unidentifiedHosts: seq<UnidentifiedHost>

    constructor (scan: Scan)
      ensures hosts == scan.hosts && unidentifiedHosts == scan.unidentifiedHosts
    {
      hosts := scan.hosts;
      unidentifiedHosts := scan.unidentifiedHosts;
    }

    function Snapshot(): Scan
      reads this
    {
      Scan(hosts, unidentifiedHosts)
    }

    /** findHostByIPv4: the position of the first stored host with this IPv4
        (the empty IPv4 matches the empty IPv4). */
    method FindHostByIPv4(ipv4: string) returns (r: Option<nat>)
      ensures r == FirstIndexOf(IPv4s(hosts), ipv4)
    {
      for i := 0 to |hosts|
        invariant forall j :: 0 <= j < i ==> hosts[j].ipv4 != ipv4
      {
        if hosts[i].ipv4 == ipv4 {
          assert IPv4s(hosts)[i] == ipv4;
          return Some(i);
        }
      }
      assert ipv4 !in IPv4s(hosts);
      return None;
    }

    /** ComplementWithNmap: each incoming host, in order, is merged into the
        first stored host with an equal IPv4 (hosts appended earlier in the
        same call included) or appended at the end. */
    method ComplementWithNmap(newScan: Scan)
      modifies this
      ensures hosts == MergedHosts(old(hosts), newScan.hosts)
      ensures IPv4s(hosts) == IPv4s(old(hosts)) + NewValues(IPv4s(old(hosts)), IPv4s(newScan.hosts))
      ensures unidentifiedHosts == old(unidentifiedHosts)
    {
      var incoming := newScan.hosts;
      for i := 0 to |incoming|
        invariant hosts == MergedHosts(old(hosts), incoming[..i])
        invariant unidentifiedHosts == old(unidentifiedHosts)
      {
        var newHost := incoming[i];
        assert incoming[..i + 1][..i] == incoming[..i] && incoming[..i + 1][i] == newHost;
        var existingHost := FindHostByIPv4(newHost.ipv4);
        if existingHost.Some? {
          var merged := MergeHost(hosts[existingHost.value], newHost);
          hosts := hosts[existingHost.value := merged];
        } else {
          hosts := hosts + [newHost];
        }
      }
      assert incoming[..|incoming|] == incoming;
      MergedHostsLayout(old(hosts), incoming);
    }

    /** One turn of ComplementWithIPv6's outer loop: host i takes the IPv6
        of the last list entry whose MAC equals its own; the MAC compared
        is the one the host had when the turn began. */
    method ComplementHostWithIPv6(i: nat, ipv6Hosts: seq<Host>)
      modifies this
      requires i < |hosts|
      ensures hosts == old(hosts)[i := WithIPv6(old(hosts[i]), ipv6Hosts)]
      ensures unidentifiedHosts == old(unidentifiedHosts)
    {
      var existingHost := hosts[i];
      for j := 0 to |ipv6Hosts|
        invariant hosts == old(hosts)[i := existingHost.(ipv6 := IPv6ForMac(ipv6Hosts[..j], existingHost.mac, existingHost.ipv6))]
        invariant unidentifiedHosts == old(unidentifiedHosts)
      {
        var ipv6Host := ipv6Hosts[j];
        IPv6ForMacStep(ipv6Hosts, j, existingHost.mac, existingHost.ipv6);
        if existingHost.mac == ipv6Host.mac {
          hosts := hosts[i := hosts[i].(ipv6 := ipv6Host.ipv6)];
        }
      }
      assert ipv6Hosts[..|ipv6Hosts|] == ipv6Hosts;
    }

    /** ComplementWithIPv6: every stored host takes the IPv6 of the last
        list entry whose MAC equals its own (the empty MAC included); no
        other field and no host count changes. */
    method ComplementWithIPv6(ipv6Hosts: seq<Host>)
      modifies this
      ensures |hosts| == |old(hosts)|
      ensures forall i :: 0 <= i < |hosts| ==> hosts[i] == WithIPv6(old(hosts[i]), ipv6Hosts)
      ensures unidentifiedHosts == old(unidentifiedHosts)
    {
      for i := 0 to |hosts|
        invariant |hosts| == |old(hosts)|
        invariant forall k :: 0 <= k < i ==> hosts[k] == WithIPv6(old(hosts[k]), ipv6Hosts)
        invariant forall k :: i <= k < |hosts| ==> hosts[k] == old(hosts[k])
        invariant unidentifiedHosts == old(unidentifiedHosts)
      {
        ComplementHostWithIPv6(i, ipv6Hosts);
      }
    }
  }
}
