/** What addHostsWithSameFingerprint (exporter/exporter.go) groups and shows:
    every SSH key with a fingerprint, once per port it is seen on, collects
    the host it was seen on into a map that outlives one export; a key gets
    a box when its group holds more than one host. */
module Grouping {
  import opened Model
  import opened Keyed

  /** One sighting of a key on a port of a host. */
  datatype Occurrence = Occurrence(key: HostKey, host: Host)

  /** The keys of one port that have a fingerprint, in order. */
  function KeyOccurrences(keys: seq<HostKey>, host: Host): (r: seq<Occurrence>)
    ensures |r| <= |keys|
    ensures forall o :: o in r ==> o.key in keys && o.key.fingerprint != "" && o.host == host
    ensures forall k :: k in keys && k.fingerprint != "" ==> Occurrence(k, host) in r
  {
    if keys == [] then []
    else
      var k := keys[|keys| - 1];
      KeyOccurrences(keys[..|keys| - 1], host) + (if k.fingerprint != "" then [Occurrence(k, host)] else [])
  }

  /** The sightings on the ports of one host, port by port. */
  function PortOccurrences(ports: seq<Port>, host: Host): (r: seq<Occurrence>)
    ensures forall o :: o in r ==> o.key.fingerprint != "" && o.host == host
  {
    if ports == [] then []
    else PortOccurrences(ports[..|ports| - 1], host) + KeyOccurrences(KeyList(ports[|ports| - 1].hostKeys), host)
  }

  /** All sightings of a scan, host by host. */
  function Occurrences(hosts: seq<Host>): (r: seq<Occurrence>)
    ensures forall o :: o in r ==> o.key.fingerprint != "" && o.host in hosts
  {
    if hosts == [] then []
    else
      var h := hosts[|hosts| - 1];
      Occurrences(hosts[..|hosts| - 1]) + PortOccurrences(h.ports, h)
  }

  /** The hosts of the sightings of key k, in order. */
  function Members(occ: seq<Occurrence>, k: HostKey): (r: seq<Host>)
    ensures |r| <= |occ|
    ensures forall h :: h in r ==> Occurrence(k, h) in occ
  {
    if occ == [] then []
    else
      var o := occ[|occ| - 1];
      Members(occ[..|occ| - 1], k) + (if o.key == k then [o.host] else [])
  }

  /** Reading a Go map at a missing key gives the nil slice. */
  function GroupOf(groups: map<HostKey, seq<Host>>, k: HostKey): seq<Host>
  {
    if k in groups then groups[k] else []
  }

  /** The map after `hostGroups[key] = append(hostGroups[key], host)` for every sighting. */
  function Grouped(groups: map<HostKey, seq<Host>>, occ: seq<Occurrence>): map<HostKey, seq<Host>>
  {
    if occ == [] then groups
    else
      var g := Grouped(groups, occ[..|occ| - 1]);
      var o := occ[|occ| - 1];
      g[o.key := GroupOf(g, o.key) + [o.host]]
  }

  lemma GroupedStep(groups: map<HostKey, seq<Host>>, occ: seq<Occurrence>, i: nat)
    requires i < |occ|
    ensures Grouped(groups, occ[..i + 1]) ==
      Grouped(groups, occ[..i])[occ[i].key := GroupOf(Grouped(groups, occ[..i]), occ[i].key) + [occ[i].host]]
  {
    assert occ[..i + 1][..i] == occ[..i];
  }

  /** One key of a port: appended to its group when it has a fingerprint. */
  lemma GroupKeyStep(groups: map<HostKey, seq<Host>>, keys: seq<HostKey>, l: nat, host: Host)
    requires l < |keys|
    ensures var g := Grouped(groups, KeyOccurrences(keys[..l], host));
      Grouped(groups, KeyOccurrences(keys[..l + 1], host)) ==
        if keys[l].fingerprint != "" then g[keys[l] := GroupOf(g, keys[l]) + [host]] else g
  {
    var before := KeyOccurrences(keys[..l], host);
    assert keys[..l + 1][..l] == keys[..l];
    if keys[l].fingerprint != "" {
      assert KeyOccurrences(keys[..l + 1], host) == before + [Occurrence(keys[l], host)];
      assert (before + [Occurrence(keys[l], host)])[..|before|] == before;
    } else {
      assert KeyOccurrences(keys[..l + 1], host) == before;
    }
  }

  /** One port of a host: its keys are grouped after those of the earlier ports. */
  lemma GroupPortStep(groups: map<HostKey, seq<Host>>, ports: seq<Port>, j: nat, host: Host)
    requires j < |ports|
    ensures Grouped(groups, PortOccurrences(ports[..j + 1], host)) ==
      Grouped(Grouped(groups, PortOccurrences(ports[..j], host)), KeyOccurrences(KeyList(ports[j].hostKeys), host))
  {
    assert ports[..j + 1][..j] == ports[..j];
    GroupedAppend(groups, PortOccurrences(ports[..j], host), KeyOccurrences(KeyList(ports[j].hostKeys), host));
  }

  /** One host of the scan: its sightings are grouped after those of the earlier hosts. */
  lemma GroupHostStep(groups: map<HostKey, seq<Host>>, hosts: seq<Host>, i: nat)
    requires i < |hosts|
    ensures Grouped(groups, Occurrences(hosts[..i + 1])) ==
      Grouped(Grouped(groups, Occurrences(hosts[..i])), PortOccurrences(hosts[i].ports, hosts[i]))
  {
    assert hosts[..i + 1][..i] == hosts[..i];
    GroupedAppend(groups, Occurrences(hosts[..i]), PortOccurrences(hosts[i].ports, hosts[i]));
  }

  /** Grouping two runs of sightings is grouping the first, then the second. */
  lemma {:induction false} GroupedAppend(groups: map<HostKey, seq<Host>>, a: seq<Occurrence>, b: seq<Occurrence>)
    ensures Grouped(groups, a + b) == Grouped(Grouped(groups, a), b)
    decreases |b|
  {
    if b == [] {
      assert a + b == a;
    } else {
      assert (a + b)[..|a + b| - 1] == a + b[..|b| - 1];
      assert (a + b)[|a + b| - 1] == b[|b| - 1];
      GroupedAppend(groups, a, b[..|b| - 1]);
    }
  }

  /** After grouping, the group of k is its old group followed by the hosts
      of k's sightings, and k is a key exactly when it was one or was seen. */
  lemma {:induction false} GroupedLookup(groups: map<HostKey, seq<Host>>, occ: seq<Occurrence>, k: HostKey)
    ensures GroupOf(Grouped(groups, occ), k) == GroupOf(groups, k) + Members(occ, k)
    ensures k in Grouped(groups, occ) <==> k in groups || Members(occ, k) != []
    decreases |occ|
  {
    if occ != [] {
      GroupedLookup(groups, occ[..|occ| - 1], k);
    }
  }

  /** Only keys with a fingerprint ever enter the map. */
  lemma GroupKeysHaveFingerprints(groups: map<HostKey, seq<Host>>, hosts: seq<Host>)
    requires forall k :: k in groups ==> k.fingerprint != ""
    ensures forall k :: k in Grouped(groups, Occurrences(hosts)) ==> k.fingerprint != ""
  {
    forall k | k in Grouped(groups, Occurrences(hosts)) ensures k.fingerprint != "" {
      GroupedLookup(groups, Occurrences(hosts), k);
      if k !in groups {
        var h := Members(Occurrences(hosts), k)[0];
        assert Occurrence(k, h) in Occurrences(hosts);
      }
    }
  }

  /** A host that offers the same key on two ports is entered twice, so
      its key is shown although no other host shares it. */
  lemma SameKeyOnTwoPorts(h: Host, k: HostKey)
    requires k.fingerprint != ""
    requires |h.ports| == 2 && h.ports[0].hostKeys == Some([k]) && h.ports[1].hostKeys == Some([k])
    ensures GroupOf(Grouped(map[], Occurrences([h])), k) == [h, h]
  {
    var one := [Occurrence(k, h)];
    assert KeyOccurrences([k], h) == one by {
      assert [k][..0] == [];
    }
    var first := h.ports[..1];
    assert first[..0] == [] && first[0] == h.ports[0];
    assert PortOccurrences(first, h) == PortOccurrences([], h) + KeyOccurrences([k], h);
    assert PortOccurrences(first, h) == one;
    assert PortOccurrences(h.ports, h) == PortOccurrences(first, h) + KeyOccurrences([k], h);
    assert [h][..0] == [] && [h][0] == h;
    var occ := Occurrences([h]);
    assert occ == Occurrences([]) + PortOccurrences(h.ports, h);
    assert occ == [Occurrence(k, h), Occurrence(k, h)];
    assert occ[..1] == [Occurrence(k, h)] && occ[..1][..0] == [];
    GroupedLookup(map[], occ, k);
  }

  /** The map is never cleared: exporting the same scan a second time
      doubles every group, so every key seen at all gets a box. */
  lemma SecondExportShowsEveryKey(groups: map<HostKey, seq<Host>>, hosts: seq<Host>, k: HostKey)
    requires Members(Occurrences(hosts), k) != []
    ensures |GroupOf(Grouped(Grouped(groups, Occurrences(hosts)), Occurrences(hosts)), k)| >= 2
  {
    GroupedLookup(groups, Occurrences(hosts), k);
    GroupedLookup(Grouped(groups, Occurrences(hosts)), Occurrences(hosts), k);
  }

  /** A key gets a fingerprint box when its group holds more than one host. */
  predicate Shown(groups: map<HostKey, seq<Host>>, k: HostKey)
  {
    k in groups && |groups[k]| > 1
  }

  /** The keys whose boxes are drawn, in iteration order: those with more
      than one host in their group. */
  function Emitted(order: seq<HostKey>, groups: map<HostKey, seq<Host>>): (r: seq<HostKey>)
    ensures |r| <= |order|
  {
    if order == [] then []
    else
      var k := order[|order| - 1];
      Emitted(order[..|order| - 1], groups) + (if Shown(groups, k) then [k] else [])
  }

  lemma EmittedStep(order: seq<HostKey>, groups: map<HostKey, seq<Host>>, p: nat)
    requires p < |order|
    ensures Emitted(order[..p + 1], groups) ==
      Emitted(order[..p], groups) + (if Shown(groups, order[p]) then [order[p]] else [])
  {
    assert order[..p + 1][..p] == order[..p];
  }

  /** A key is drawn exactly when it is iterated and its group holds more
      than one host; each key drawn is drawn once. */
  lemma {:induction false} EmittedMembers(order: seq<HostKey>, groups: map<HostKey, seq<Host>>)
    ensures forall k :: k in Emitted(order, groups) <==> k in order && Shown(groups, k)
    ensures Distinct(order) ==> Distinct(Emitted(order, groups))
    decreases |order|
  {
    if order != [] {
      var init := order[..|order| - 1];
      assert forall k :: k in order <==> k in init || k == order[|order| - 1];
      EmittedMembers(init, groups);
      if Distinct(order) {
        assert Distinct(init);
        assert order[|order| - 1] !in init;
      }
    }
  }

  /** Go's map iteration visits every key once: the visiting order of a
      map is as long as the map. */
  lemma {:induction false} OrderCoversMap<V>(order: seq<HostKey>, groups: map<HostKey, V>)
    requires Distinct(order)
    requires forall k :: k in order <==> k in groups
    ensures |order| == |groups|
    decreases |order|
  {
    if order == [] {
      assert groups == map[];
    } else {
      var k := order[|order| - 1];
      var init := order[..|order| - 1];
      var rest := map x | x in groups && x != k :: groups[x];
      assert forall x :: x in order <==> x in init || x == k;
      assert k !in init;
      OrderCoversMap(init, rest);
      assert groups.Keys == rest.Keys + {k};
      assert |groups.Keys| == |rest.Keys| + 1;
    }
  }

  /** On a fresh map, a key is drawn exactly when it is seen at least
      twice in the scan. */
  lemma ShownIffSeenTwice(hosts: seq<Host>, order: seq<HostKey>, k: HostKey)
    requires forall x :: x in order <==> x in Grouped(map[], Occurrences(hosts))
    ensures k in Emitted(order, Grouped(map[], Occurrences(hosts))) <==> |Members(Occurrences(hosts), k)| >= 2
  {
    var g := Grouped(map[], Occurrences(hosts));
    GroupedLookup(map[], Occurrences(hosts), k);
    EmittedMembers(order, g);
  }
}
