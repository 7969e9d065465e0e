/** The conversions of parser/parser.go: the text of a scan6 report into
    address-only hosts, and decoded nmap records into inventory records. */
module Parser {
  import opened Model
  import opened Text
  import opened Reconcile
  import Nmap

  /** The header that opens the section of global addresses in a scan6 report. */
  const Scan6Header := "Global addresses:\n"
  /** The separator between the IPv6 address and the MAC on a line. */
  const ColumnSeparator := " @ "

  /** The two ways ParseScan6 panics: no header (index 1 of the split is out
      of range), or a line without the separator (column 1 is out of range). */
  datatype Scan6Error = MissingHeader | MalformedLine(line: nat)

  datatype Result<T> = Ok(value: T) | Err(error: Scan6Error)

  /** The lines of the section after the first header, up to a second header if any. */
  function Scan6Lines(data: string): seq<string>
    requires IndexOf(data, Scan6Header).Some?
  {
    Split(Split(data, Scan6Header)[1], "\n")
  }

  /** A line is usable when it contains the separator. */
  predicate WellFormedLine(line: string)
  {
    IndexOf(line, ColumnSeparator).Some?
  }

  predicate AllWellFormed(lines: seq<string>)
  {
    forall i :: 0 <= i < |lines| ==> WellFormedLine(lines[i])
  }

  /** The host a line describes: IPv6 is the text before the first " @ ",
      MAC the upper-cased field after it (up to a second " @ " if any). */
  function Scan6Host(line: string): (h: Host)
    requires WellFormedLine(line)
    ensures h.ipv6 == line[..IndexOf(line, ColumnSeparator).value]
    ensures h.mac == ToUpper(Split(line, ColumnSeparator)[1])
    ensures h == AddressOnlyHost(h.ipv6, h.mac)
  {
    var cols := Split(line, ColumnSeparator);
    SplitFirst(line, ColumnSeparator);
    AddressOnlyHost(cols[0], ToUpper(cols[1]))
  }

  /** ParseScan6, from the file's text on: one host per line of the section;
      a missing header, or a line without " @ " (the first such line is
      reported), is an error. */
  method ParseScan6(data: string) returns (r: Result<seq<Host>>)
    ensures IndexOf(data, Scan6Header).None? <==> r == Err(MissingHeader)
    ensures IndexOf(data, Scan6Header).Some? ==> (r.Ok? <==> AllWellFormed(Scan6Lines(data)))
    ensures r.Err? && IndexOf(data, Scan6Header).Some? ==> (
      r.error.MalformedLine? && r.error.line < |Scan6Lines(data)| &&
      !WellFormedLine(Scan6Lines(data)[r.error.line]) &&
      AllWellFormed(Scan6Lines(data)[..r.error.line]))
    ensures r.Ok? ==> (IndexOf(data, Scan6Header).Some? &&
      |r.value| == |Scan6Lines(data)| &&
      forall i :: 0 <= i < |r.value| ==> r.value[i] == Scan6Host(Scan6Lines(data)[i]))
  {
    var parts := Split(data, Scan6Header);
    if |parts| < 2 {
      return Err(MissingHeader);
    }
    var lines := Split(parts[1], "\n");
    assert lines == Scan6Lines(data);
    var hosts: seq<Host> := [];
    for i := 0 to |lines|
      invariant |hosts| == i
      invariant AllWellFormed(lines[..i])
      invariant forall k :: 0 <= k < i ==> hosts[k] == Scan6Host(lines[k])
    {
      var cols := Split(lines[i], ColumnSeparator);
      if |cols| < 2 {
        return Err(MalformedLine(i));
      }
      assert lines[..i + 1] == lines[..i] + [lines[i]];
      hosts := hosts + [AddressOnlyHost(cols[0], ToUpper(cols[1]))];
    }
    assert lines[..|lines|] == lines;
    return Ok(hosts);
  }

  /** Splitting on a one-character separator that ends the text leaves an
      empty last piece. */
  lemma {:induction false} SplitTrailingSeparator(s: string, sep: string)
    requires |sep| == 1 && |s| >= 1 && s[|s| - 1..] == sep
    ensures Split(s, sep)[|Split(s, sep)| - 1] == ""
    decreases |s|
  {
    assert OccursAt(s, sep, |s| - 1);
    var i := IndexOf(s, sep).value;
    var rest := s[i + 1..];
    if i + 1 < |s| {
      assert rest[|rest| - 1..] == s[|s| - 1..];
      SplitTrailingSeparator(rest, sep);
    }
  }

  /** A section that ends with a newline has an empty last line, which has
      no separator, so ParseScan6 reports it as malformed. */
  lemma TrailingNewlineIsMalformed(data: string)
    requires IndexOf(data, Scan6Header).Some?
    requires var section := Split(data, Scan6Header)[1]; |section| >= 1 && section[|section| - 1] == '\n'
    ensures var lines := Scan6Lines(data); lines[|lines| - 1] == "" && !WellFormedLine(lines[|lines| - 1])
  {
    var section := Split(data, Scan6Header)[1];
    assert section[|section| - 1..] == "\n";
    SplitTrailingSeparator(section, "\n");
    assert !OccursAt("", ColumnSeparator, 0);
  }

  /** The value of the last address of the given type, or "" when there is
      none (convertHost's address loop: the last one wins). */
  function LastAddressOfType(addresses: seq<Nmap.Address>, t: string): (r: string)
    ensures (forall j :: 0 <= j < |addresses| ==> addresses[j].addrType != t) ==> r == ""
    ensures forall j :: 0 <= j < |addresses| && addresses[j].addrType == t && LastOfType(addresses, t, j) ==>
      r == addresses[j].value
    decreases |addresses|
  {
    if addresses == [] then ""
    else if addresses[|addresses| - 1].addrType == t then addresses[|addresses| - 1].value
    else
      assert forall j :: 0 <= j < |addresses| - 1 && LastOfType(addresses, t, j) ==>
        LastOfType(addresses[..|addresses| - 1], t, j);
      LastAddressOfType(addresses[..|addresses| - 1], t)
  }

  /** One more address: it wins if it has the type, otherwise nothing changes. */
  lemma LastAddressStep(addresses: seq<Nmap.Address>, i: nat, t: string)
    requires i < |addresses|
    ensures LastAddressOfType(addresses[..i + 1], t) ==
      if addresses[i].addrType == t then addresses[i].value else LastAddressOfType(addresses[..i], t)
  {
    assert addresses[..i + 1][..i] == addresses[..i];
  }

  /** No address after position j has type t. */
  predicate LastOfType(addresses: seq<Nmap.Address>, t: string, j: nat)
  {
    forall l :: j < l < |addresses| ==> addresses[l].addrType != t
  }

  /** The last hostname, or "" when there is none. */
  function LastHostname(hostnames: seq<Nmap.Hostname>): (r: string)
    ensures hostnames == [] ==> r == ""
    ensures hostnames != [] ==> r == hostnames[|hostnames| - 1].name
  {
    if hostnames == [] then "" else hostnames[|hostnames| - 1].name
  }

  /** convertPort: ServiceVersion is Product, a space and Version, so it is
      never empty; no host keys are read from the script tables. */
  function ConvertPort(p: Nmap.Port): (r: Port)
    ensures r.number == p.portid && r.protocol == p.protocol && r.serviceName == p.service.name
    ensures r.serviceVersion == p.service.product + " " + p.service.version
    ensures r.serviceVersion != ""
    ensures r.hostKeys == None
  {
    Port(p.protocol, p.portid, p.service.name, p.service.product + " " + p.service.version, None)
  }

  /** What convertHost produces. */
  function ConvertedHost(h: Nmap.Host): Host
  {
    Host(
      LastAddressOfType(h.addresses, "ipv4"),
      LastAddressOfType(h.addresses, "ipv6"),
      LastAddressOfType(h.addresses, "mac"),
      LastHostname(h.hostnames),
      ConvertPorts(h.ports),
      0,
      "")
  }

  /** The ports converted one by one, in order. */
  function ConvertPorts(ports: seq<Nmap.Port>): (r: seq<Port>)
    ensures |r| == |ports|
    ensures forall i :: 0 <= i < |r| ==> r[i] == ConvertPort(ports[i])
  {
    if ports == [] then [] else ConvertPorts(ports[..|ports| - 1]) + [ConvertPort(ports[|ports| - 1])]
  }

  lemma ConvertPortsStep(ports: seq<Nmap.Port>, i: nat)
    requires i < |ports|
    ensures ConvertPorts(ports[..i + 1]) == ConvertPorts(ports[..i]) + [ConvertPort(ports[i])]
  {
    assert ports[..i + 1][..i] == ports[..i];
  }

  /** A converted host: for each of ipv4, ipv6 and mac the last address of
      that type, the last hostname, every port converted in order, Hops and
      OS unset. */
  lemma ConvertedHostFields(h: Nmap.Host)
    ensures ConvertedHost(h).ipv4 == LastAddressOfType(h.addresses, "ipv4")
    ensures ConvertedHost(h).ipv6 == LastAddressOfType(h.addresses, "ipv6")
    ensures ConvertedHost(h).mac == LastAddressOfType(h.addresses, "mac")
    ensures ConvertedHost(h).hostname == LastHostname(h.hostnames)
    ensures |ConvertedHost(h).ports| == |h.ports|
    ensures forall i :: 0 <= i < |h.ports| ==> ConvertedHost(h).ports[i] == ConvertPort(h.ports[i])
    ensures ConvertedHost(h).hops == 0 && ConvertedHost(h).os == ""
  {
  }

  /** convertHost: for each of ipv4, ipv6 and mac the last address of that
      type wins (other types are ignored), the last hostname wins, every port
      is converted in order, Hops and OS stay unset. */
  method ConvertHost(nmapHost: Nmap.Host) returns (host: Host)
    ensures host == ConvertedHost(nmapHost)
  {
    var ipv4, ipv6, mac := "", "", "";
    var addresses := nmapHost.addresses;
    for i := 0 to |addresses|
      invariant ipv4 == LastAddressOfType(addresses[..i], "ipv4")
      invariant ipv6 == LastAddressOfType(addresses[..i], "ipv6")
      invariant mac == LastAddressOfType(addresses[..i], "mac")
    {
      var address := addresses[i];
      LastAddressStep(addresses, i, "ipv4");
      LastAddressStep(addresses, i, "ipv6");
      LastAddressStep(addresses, i, "mac");
      if address.addrType == "ipv4" {
        ipv4 := address.value;
      } else if address.addrType == "ipv6" {
        ipv6 := address.value;
      } else if address.addrType == "mac" {
        mac := address.value;
      }
    }
    assert addresses[..|addresses|] == addresses;
    var hostname := "";
    for i := 0 to |nmapHost.hostnames|
      invariant hostname == LastHostname(nmapHost.hostnames[..i])
    {
      hostname := nmapHost.hostnames[i].name;
    }
    assert nmapHost.hostnames[..|nmapHost.hostnames|] == nmapHost.hostnames;
    var ports: seq<Port> := [];
    for i := 0 to |nmapHost.ports|
      invariant ports == ConvertPorts(nmapHost.ports[..i])
    {
      ConvertPortsStep(nmapHost.ports, i);
      ports := ports + [ConvertPort(nmapHost.ports[i])];
    }
    assert nmapHost.ports[..|nmapHost.ports|] == nmapHost.ports;
    host := Host(ipv4, ipv6, mac, hostname, ports, 0, "");
  }

  /** convertScan: hosts converted one to one, in order; no unidentified hosts. */
  method ConvertScan(scan: Nmap.Scan) returns (r: Scan)
    ensures |r.hosts| == |scan.hosts|
    ensures forall i :: 0 <= i < |r.hosts| ==> r.hosts[i] == ConvertedHost(scan.hosts[i])
    ensures r.unidentifiedHosts == []
  {
    var hosts: seq<Host> := [];
    for i := 0 to |scan.hosts|
      invariant |hosts| == i
      invariant forall k :: 0 <= k < i ==> hosts[k] == ConvertedHost(scan.hosts[k])
    {
      var host := ConvertHost(scan.hosts[i]);
      hosts := hosts + [host];
    }
    return Scan(hosts, []);
  }

  /** A port converted from nmap always overwrites the stored ServiceVersion
      when merged, and never changes the stored host keys. */
  lemma ConvertedPortMerge(existing: Port, p: Nmap.Port)
    ensures MergedPort(existing, ConvertPort(p)).serviceVersion == ConvertPort(p).serviceVersion
    ensures MergedPort(existing, ConvertPort(p)).hostKeys == existing.hostKeys
  {
    var n := ConvertPort(p);
    if existing.hostKeys.Some? {
      assert KeyList(n.hostKeys) == [];
      assert MergedKeys(existing.hostKeys, n.hostKeys) == Some(existing.hostKeys.value);
    }
  }
}
