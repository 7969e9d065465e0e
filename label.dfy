/** The HTML label of a host box (getHostValue in exporter/exporter.go). */
module Label {
  import opened Model
  import opened Text

  const ServiceColor := "#bbb"
  const HeaderFontSize := 16
  const Break := "<br>"

  predicate StartsWith(s: string, prefix: string)
  {
    |prefix| <= |s| && s[..|prefix|] == prefix
  }

  // One function per formatted line of the label.

  function HostnameLine(hostname: string): string
  {
    "<i>" + hostname + "</i><br><br>"
  }

  function IPv4Line(ipv4: string): string
  {
    "<strong style=\"font-size: " + IntToString(HeaderFontSize) + "px\">" + ipv4 + "</strong><br>"
  }

  function IPv6Line(ipv6: string): string
  {
    "IPv6: " + ipv6 + "<br>"
  }

  function MacLine(mac: string): string
  {
    "MAC: " + mac + "<br>"
  }

  function PortLine(p: Port): string
  {
    ":" + IntToString(p.number) + " - " + p.serviceName + "<br>"
  }

  function VersionLine(version: string): string
  {
    "<span style=\"color: " + ServiceColor + "\">(" + version + ")</span><br>"
  }

  /** The line of one host key: only its fingerprint is shown. */
  function KeyLine(k: HostKey): string
  {
    "<span style=\"color: " + ServiceColor + "\">(Key: " + k.fingerprint + ")</span><br>"
  }

  function OsLine(os: string): string
  {
    "OS: " + os + "<br>"
  }

  function HopsLine(hops: int): string
  {
    "Hops: " + IntToString(hops) + "<br>"
  }

  // The sections, each empty when the host lacks what it shows.

  function HostnamePart(h: Host): string
  {
    if h.hostname != "" then HostnameLine(h.hostname) else ""
  }

  function IPv4Part(h: Host): string
  {
    if h.ipv4 != "" then IPv4Line(h.ipv4) else ""
  }

  function IPv6Part(h: Host): string
  {
    if h.ipv6 != "" then IPv6Line(h.ipv6) else ""
  }

  function MacPart(h: Host): string
  {
    if h.mac != "" then MacLine(h.mac) else ""
  }

  /** A blank line before the ports, when there are any. */
  function PortSeparator(h: Host): string
  {
    if |h.ports| > 0 then Break else ""
  }

  function AddressLines(h: Host): string
  {
    HostnamePart(h) + (IPv4Part(h) + (IPv6Part(h) + MacPart(h)))
  }

  function KeyLines(keys: seq<HostKey>): string
  {
    Concat(keys, KeyLine)
  }

  /** ":number - service", the version in grey when known, then the keys. */
  function PortEntry(p: Port): string
  {
    PortLine(p) + (if p.serviceVersion != "" then VersionLine(p.serviceVersion) else "") +
    KeyLines(KeyList(p.hostKeys))
  }

  /** One entry per port, in order. */
  function PortLines(ports: seq<Port>): string
  {
    Concat(ports, PortEntry)
  }

  /** OS and hop count, separated from the rest when either is known. */
  function MiscLines(h: Host): string
  {
    (if h.os != "" || h.hops != 0 then Break else "") +
    (if h.os != "" then OsLine(h.os) else "") +
    (if h.hops != 0 then HopsLine(h.hops) else "")
  }

  /** Everything after the addresses. */
  function AfterAddresses(h: Host): string
  {
    PortSeparator(h) + (PortLines(h.ports) + MiscLines(h))
  }

  /** The whole label. */
  function HostLabel(h: Host): string
  {
    AddressLines(h) + AfterAddresses(h)
  }

  /** getHostValue: the label, built section by section; each helper below
      appends the lines of one section in the order of the source. */
  method HostValue(host: Host) returns (value: string)
    ensures value == HostLabel(host)
  {
    value := AddressValue(host);
    if |host.ports| > 0 {
      value := value + Break;
    }
    ghost var head := value;
    for i := 0 to |host.ports|
      invariant value == head + PortLines(host.ports[..i])
    {
      var entry := PortValue(host.ports[i]);
      ConcatStep(host.ports, i, PortEntry);
      Associative(head, PortLines(host.ports[..i]), entry);
      value := value + entry;
    }
    assert host.ports[..|host.ports|] == host.ports;
    var misc := MiscValue(host);
    value := value + misc;
    Associative(head, PortLines(host.ports), misc);
    Associative(AddressLines(host), PortSeparator(host), PortLines(host.ports) + misc);
  }

  /** The hostname, IPv4, IPv6 and MAC lines of getHostValue. */
  method AddressValue(host: Host) returns (value: string)
    ensures value == AddressLines(host)
  {
    value := "";
    if host.hostname != "" {
      value := value + HostnameLine(host.hostname);
    }
    assert value == HostnamePart(host);
    if host.ipv4 != "" {
      value := value + IPv4Line(host.ipv4);
    }
    assert value == HostnamePart(host) + IPv4Part(host);
    if host.ipv6 != "" {
      value := value + IPv6Line(host.ipv6);
    }
    assert value == HostnamePart(host) + IPv4Part(host) + IPv6Part(host);
    if host.mac != "" {
      value := value + MacLine(host.mac);
    }
    assert value == HostnamePart(host) + IPv4Part(host) + IPv6Part(host) + MacPart(host);
    Associative(HostnamePart(host) + IPv4Part(host), IPv6Part(host), MacPart(host));
    Associative(HostnamePart(host), IPv4Part(host), IPv6Part(host) + MacPart(host));
  }

  /** The lines of one port in getHostValue's port loop. */
  method PortValue(port: Port) returns (value: string)
    ensures value == PortEntry(port)
  {
    value := PortLine(port);
    if port.serviceVersion != "" {
      value := value + VersionLine(port.serviceVersion);
    }
    ghost var header := value;
    var keys := KeyList(port.hostKeys);
    for j := 0 to |keys|
      invariant value == header + KeyLines(keys[..j])
    {
      ConcatStep(keys, j, KeyLine);
      Associative(header, KeyLines(keys[..j]), KeyLine(keys[j]));
      value := value + KeyLine(keys[j]);
    }
    assert keys[..|keys|] == keys;
  }

  /** The OS and hops lines of getHostValue. */
  method MiscValue(host: Host) returns (value: string)
    ensures value == MiscLines(host)
  {
    value := "";
    if host.os != "" || host.hops != 0 {
      value := value + Break;
    }
    assert value == (if host.os != "" || host.hops != 0 then Break else "");
    ghost var part := value;
    if host.os != "" {
      value := value + OsLine(host.os);
    }
    assert value == part + (if host.os != "" then OsLine(host.os) else "");
    part := value;
    if host.hops != 0 {
      value := value + HopsLine(host.hops);
    }
    assert value == part + (if host.hops != 0 then HopsLine(host.hops) else "");
  }

  lemma EmptyLeft(s: string)
    ensures "" + s == s
  {
  }

  lemma Associative(a: string, b: string, c: string)
    ensures (a + b) + c == a + (b + c)
  {
  }

  /** The port section is a homomorphism: the entries of a list of ports are
      the entries of its parts, one after the other. */
  lemma PortLinesAppend(a: seq<Port>, b: seq<Port>)
    ensures PortLines(a + b) == PortLines(a) + PortLines(b)
  {
    ConcatAppend(a, b, PortEntry);
  }

  /** Every port contributes a non-empty entry, so the section starts with
      ':' exactly when there is a port. */
  lemma {:induction false} PortLinesEmpty(ports: seq<Port>)
    ensures PortLines(ports) == "" <==> ports == []
    ensures ports != [] ==> StartsWith(PortLines(ports), ":")
  {
    if ports != [] {
      var pre := ports[..|ports| - 1];
      var last := ports[|ports| - 1];
      PortLinesEmpty(pre);
      assert PortLines(ports) == PortLines(pre) + PortEntry(last);
      if pre == [] {
        assert PortLines(ports) == PortEntry(last);
        assert PortEntry(last)[..1] == PortLine(last)[..1];
      } else {
        assert PortLines(ports)[..1] == PortLines(pre)[..1];
      }
    }
  }

  /** The label is empty exactly for a host with nothing known about it. */
  lemma LabelEmpty(h: Host)
    ensures HostLabel(h) == "" <==>
      h.hostname == "" && h.ipv4 == "" && h.ipv6 == "" && h.mac == "" &&
      h.ports == [] && h.os == "" && h.hops == 0
  {
    PortLinesEmpty(h.ports);
  }

  lemma StartsWithAppend(s: string, t: string)
    ensures StartsWith(s + t, s)
  {
    assert (s + t)[..|s|] == s;
  }

  lemma StartsWithTransitive(a: string, b: string, c: string)
    requires StartsWith(a, b) && StartsWith(b, c)
    ensures StartsWith(a, c)
  {
    assert a[..|c|] == a[..|b|][..|c|];
  }

  /** A text that starts with `line` starts with what `line` starts with. */
  lemma OpensWith(shown: string, line: string, rest: string, opening: string)
    requires shown == line + rest && StartsWith(line, opening)
    ensures StartsWith(shown, opening)
  {
    StartsWithAppend(line, rest);
    StartsWithTransitive(shown, line, opening);
  }

  lemma HostnameLineOpening(hostname: string)
    ensures StartsWith(HostnameLine(hostname), "<i>" + hostname + "</i>")
  {
    StartsWithAppend("<i>" + hostname + "</i>", "<br><br>");
    assert HostnameLine(hostname) == ("<i>" + hostname + "</i>") + "<br><br>";
  }

  lemma IPv4LineOpening(ipv4: string)
    ensures StartsWith(IPv4Line(ipv4), "<st")
  {
    assert IPv4Line(ipv4)[..3] == "<st";
  }

  lemma IPv6LineOpening(ipv6: string)
    ensures StartsWith(IPv6Line(ipv6), "IPv")
  {
    assert IPv6Line(ipv6)[..3] == "IPv";
  }

  lemma MacLineOpening(mac: string)
    ensures StartsWith(MacLine(mac), "MAC")
  {
    assert MacLine(mac)[..3] == "MAC";
  }

  /** After the addresses comes a line break, or nothing at all. */
  lemma AfterAddressesOpening(h: Host)
    ensures AfterAddresses(h) == "" || StartsWith(AfterAddresses(h), "<br")
    ensures AfterAddresses(h) == "" <==> h.ports == [] && h.os == "" && h.hops == 0
  {
    PortLinesEmpty(h.ports);
    var after := AfterAddresses(h);
    if |h.ports| > 0 {
      OpensWith(after, Break, PortLines(h.ports) + MiscLines(h), "<br");
    } else if h.os != "" || h.hops != 0 {
      var misc := MiscLines(h);
      assert after == misc;
      assert misc == Break + misc[4..];
      OpensWith(after, Break, misc[4..], "<br");
    }
  }

  /** The label opens with the italic hostname exactly when the host has
      one; otherwise it opens with the IPv4 in bold, the IPv6, the MAC or a
      line break, whichever comes first, or it is empty. */
  lemma LabelStartsWithHostname(h: Host)
    ensures h.hostname != "" <==> StartsWith(HostLabel(h), "<i>")
    ensures h.hostname != "" ==> StartsWith(HostLabel(h), "<i>" + h.hostname + "</i>")
  {
    var shown := HostLabel(h);
    if h.hostname != "" {
      var opening := "<i>" + h.hostname + "</i>";
      HostnameLineOpening(h.hostname);
      Associative(HostnameLine(h.hostname), IPv4Part(h) + (IPv6Part(h) + MacPart(h)), AfterAddresses(h));
      OpensWith(shown, HostnameLine(h.hostname), (IPv4Part(h) + (IPv6Part(h) + MacPart(h))) + AfterAddresses(h), opening);
      StartsWithTransitive(shown, opening, "<i>");
    } else {
      NoHostnameOpening(h);
    }
  }

  lemma LabelWithoutHostname(h: Host)
    requires h.hostname == ""
    ensures HostLabel(h) == IPv4Part(h) + (IPv6Part(h) + (MacPart(h) + AfterAddresses(h)))
  {
    var after := AfterAddresses(h);
    EmptyLeft(IPv4Part(h) + (IPv6Part(h) + MacPart(h)));
    Associative(IPv4Part(h), IPv6Part(h) + MacPart(h), after);
    Associative(IPv6Part(h), MacPart(h), after);
  }

  lemma NoHostnameOpening(h: Host)
    requires h.hostname == ""
    ensures !StartsWith(HostLabel(h), "<i>")
  {
    var shown := HostLabel(h);
    var after := AfterAddresses(h);
    var fromMac := MacPart(h) + after;
    var fromIPv6 := IPv6Part(h) + fromMac;
    LabelWithoutHostname(h);
    AfterAddressesOpening(h);
    var opening: string;
    if h.ipv4 != "" {
      IPv4LineOpening(h.ipv4);
      OpensWith(shown, IPv4Line(h.ipv4), fromIPv6, "<st");
      opening := "<st";
    } else if h.ipv6 != "" {
      IPv6LineOpening(h.ipv6);
      OpensWith(shown, IPv6Line(h.ipv6), fromMac, "IPv");
      opening := "IPv";
    } else if h.mac != "" {
      MacLineOpening(h.mac);
      OpensWith(shown, MacLine(h.mac), after, "MAC");
      opening := "MAC";
    } else {
      assert shown == after;
      opening := if after == "" then "" else "<br";
    }
    assert opening != "" ==> shown[..3] == opening;
  }
}
