/** What the merge of core/core.go computes, as functions on values, and the
    properties of that merge. The loops of core/core.go are proved against
    these functions in module Core. */
module Reconcile {
  import opened Model
  import opened Keyed

  /** The "non-empty incoming value wins" rule that mergeHost and mergePort
      apply field by field. */
  function Coalesce(existing: string, incoming: string): (r: string)
    ensures r == existing || r == incoming
    ensures incoming != "" ==> r == incoming
    ensures r == "" <==> existing == "" && incoming == ""
  {
    if incoming != "" then incoming else existing
  }

  function HostIPv4(h: Host): string { h.ipv4 }
  function PortNumber(p: Port): int { p.number }
  function KeyType(k: HostKey): string { k.keyType }

  /** `*existingKey = hostKey`: a matched key is overwritten wholesale. */
  function Replace(existing: HostKey, incoming: HostKey): HostKey { incoming }

  function IPv4s(hosts: seq<Host>): (r: seq<string>)
    ensures |r| == |hosts| && forall i :: 0 <= i < |hosts| ==> r[i] == hosts[i].ipv4
  {
    KeysOf(hosts, HostIPv4)
  }

  function Numbers(ports: seq<Port>): (r: seq<int>)
    ensures |r| == |ports| && forall i :: 0 <= i < |ports| ==> r[i] == ports[i].number
  {
    KeysOf(ports, PortNumber)
  }

  function Types(keys: seq<HostKey>): (r: seq<string>)
    ensures |r| == |keys| && forall i :: 0 <= i < |keys| ==> r[i] == keys[i].keyType
  {
    KeysOf(keys, KeyType)
  }

  /** mergeKeys: a nil key list takes the incoming list as it is (nil
      included); otherwise every incoming key overwrites the first key of
      its Type or is appended. */
  function MergedKeys(existing: Option<seq<HostKey>>, incoming: Option<seq<HostKey>>): Option<seq<HostKey>>
  {
    if existing.None? then incoming
    else Some(UpsertAll(existing.value, KeyList(incoming), KeyType, Replace))
  }

  /** mergePort: Number is the identity and is never changed. */
  function MergedPort(p: Port, n: Port): Port
  {
    p.(protocol := Coalesce(p.protocol, n.protocol),
       serviceName := Coalesce(p.serviceName, n.serviceName),
       serviceVersion := Coalesce(p.serviceVersion, n.serviceVersion),
       hostKeys := MergedKeys(p.hostKeys, n.hostKeys))
  }

  /** The port loop of mergeHost. */
  function MergedPorts(ports: seq<Port>, inc: seq<Port>): seq<Port>
  {
    UpsertAll(ports, inc, PortNumber, MergedPort)
  }

  /** mergeHost: IPv4, Hops and OS are never touched. */
  function MergedHost(h: Host, n: Host): Host
  {
    h.(ipv6 := Coalesce(h.ipv6, n.ipv6),
       mac := Coalesce(h.mac, n.mac),
       hostname := Coalesce(h.hostname, n.hostname),
       ports := MergedPorts(h.ports, n.ports))
  }

  /** The host loop of ComplementWithNmap. */
  function MergedHosts(hosts: seq<Host>, inc: seq<Host>): seq<Host>
  {
    UpsertAll(hosts, inc, HostIPv4, MergedHost)
  }

  /** The IPv6 that ComplementWithIPv6 leaves on a host with this MAC: the
      IPv6 of the last list entry with an equal MAC, else the current one. */
  function IPv6ForMac(list: seq<Host>, mac: string, current: string): (r: string)
    ensures (forall j :: 0 <= j < |list| ==> list[j].mac != mac) ==> r == current
    ensures forall j :: 0 <= j < |list| && list[j].mac == mac && LastWithMac(list, mac, j) ==> r == list[j].ipv6
    decreases |list|
  {
    if list == [] then current
    else if list[|list| - 1].mac == mac then list[|list| - 1].ipv6
    else
      assert forall j :: 0 <= j < |list| - 1 && LastWithMac(list, mac, j) ==> LastWithMac(list[..|list| - 1], mac, j);
      IPv6ForMac(list[..|list| - 1], mac, current)
  }

  lemma IPv6ForMacStep(list: seq<Host>, j: nat, mac: string, current: string)
    requires j < |list|
    ensures IPv6ForMac(list[..j + 1], mac, current) ==
      if list[j].mac == mac then list[j].ipv6 else IPv6ForMac(list[..j], mac, current)
  {
    assert list[..j + 1][..j] == list[..j];
  }

  /** No entry after position j has this MAC. */
  predicate LastWithMac(list: seq<Host>, mac: string, j: nat)
  {
    forall l :: j < l < |list| ==> list[l].mac != mac
  }

  function WithIPv6(h: Host, list: seq<Host>): Host
  {
    h.(ipv6 := IPv6ForMac(list, h.mac, h.ipv6))
  }

  /** The last incoming key of the given Type. */
  function LastKeyOfType(inc: seq<HostKey>, t: string): (r: Option<HostKey>)
    ensures r.None? <==> t !in Types(inc)
    ensures r.Some? ==> r.value in inc && r.value.keyType == t
    decreases |inc|
  {
    if inc == [] then None
    else
      var pre, last := inc[..|inc| - 1], inc[|inc| - 1];
      assert inc == pre + [last];
      KeysOfAppend(pre, last, KeyType);
      if last.keyType == t then Some(last) else LastKeyOfType(pre, t)
  }

  // ---------------------------------------------------------------------
  // The three merge functions keep their identity field

  lemma MergesKeepKeys()
    ensures KeepsKey(HostIPv4, MergedHost)
    ensures KeepsKey(PortNumber, MergedPort)
    ensures KeepsKey(KeyType, Replace)
  {
  }

  // ---------------------------------------------------------------------
  // Hosts (ComplementWithNmap)

  /** Existing hosts keep their positions and IPv4s; every incoming IPv4 not
      seen before (in the stored hosts or earlier in the same call) adds
      exactly one host at the end, in order. */
  lemma MergedHostsLayout(hosts: seq<Host>, inc: seq<Host>)
    ensures IPv4s(MergedHosts(hosts, inc)) == IPv4s(hosts) + NewValues(IPv4s(hosts), IPv4s(inc))
    ensures |MergedHosts(hosts, inc)| == |hosts| + |NewValues(IPv4s(hosts), IPv4s(inc))|
    ensures forall a :: a in IPv4s(inc) ==> a in IPv4s(MergedHosts(hosts, inc))
  {
    MergesKeepKeys();
    UpsertAllKeys(hosts, inc, HostIPv4, MergedHost);
    UpsertAllLength(hosts, inc, HostIPv4, MergedHost);
    NewValuesFacts(IPv4s(hosts), IPv4s(inc));
  }

  /** The host a lookup by IPv4 finds afterwards is the host found before
      (or the first incoming host with that IPv4) merged with every later
      incoming host with that IPv4, in order. */
  lemma MergedHostsLookup(hosts: seq<Host>, inc: seq<Host>, a: string)
    ensures Lookup(MergedHosts(hosts, inc), HostIPv4, a) ==
      Accumulate(Lookup(hosts, HostIPv4, a), inc, HostIPv4, a, MergedHost)
  {
    MergesKeepKeys();
    UpsertAllLookup(hosts, inc, HostIPv4, MergedHost, a);
  }

  /** A stored host that no incoming host matches, or that is not the first
      with its IPv4, is left exactly as it was. */
  lemma MergedHostsUntouched(hosts: seq<Host>, inc: seq<Host>, j: nat)
    requires j < |hosts|
    requires hosts[j].ipv4 !in IPv4s(inc) || FirstIndexOf(IPv4s(hosts), hosts[j].ipv4) != Some(j)
    ensures j < |MergedHosts(hosts, inc)| && MergedHosts(hosts, inc)[j] == hosts[j]
  {
    MergesKeepKeys();
    UpsertAllUntouched(hosts, inc, HostIPv4, MergedHost, j);
  }

  /** If stored IPv4s are unique, they stay unique: incoming hosts that share
      an IPv4 collapse into one stored host. */
  lemma MergedHostsUnique(hosts: seq<Host>, inc: seq<Host>)
    requires Distinct(IPv4s(hosts))
    ensures Distinct(IPv4s(MergedHosts(hosts, inc)))
  {
    MergesKeepKeys();
    UpsertAllDistinct(hosts, inc, HostIPv4, MergedHost);
  }

  /** Two incoming hosts with the same new IPv4 become one stored host: the
      second is merged into the one the first appended. */
  lemma SameIPv4Collapses(hosts: seq<Host>, a: Host, b: Host)
    requires a.ipv4 == b.ipv4 && a.ipv4 !in IPv4s(hosts)
    ensures MergedHosts(hosts, [a, b]) == hosts + [MergedHost(a, b)]
  {
    MergesKeepKeys();
    assert [a, b][..1] == [a];
    assert [a][..0] == [];
    FirstIndexOfAppend(IPv4s(hosts), a.ipv4, a.ipv4);
    KeysOfAppend(hosts, a, HostIPv4);
    assert UpsertAll(hosts, [a], HostIPv4, MergedHost) == hosts + [a];
  }

  /** Merging into a scan with no hosts, with pairwise distinct incoming
      IPv4s, stores exactly the incoming hosts in order. */
  lemma MergeIntoEmpty(inc: seq<Host>)
    requires Distinct(IPv4s(inc))
    ensures MergedHosts([], inc) == inc
  {
    MergesKeepKeys();
    UpsertAllFresh([], inc, HostIPv4, MergedHost);
    assert [] + inc == inc;
  }

  /** The fields mergeHost may change, and how. */
  lemma MergedHostFields(h: Host, n: Host)
    ensures var r := MergedHost(h, n);
      r.ipv4 == h.ipv4 && r.hops == h.hops && r.os == h.os &&
      (n.ipv6 != "" ==> r.ipv6 == n.ipv6) && (n.ipv6 == "" ==> r.ipv6 == h.ipv6) &&
      (n.mac != "" ==> r.mac == n.mac) && (n.mac == "" ==> r.mac == h.mac) &&
      (n.hostname != "" ==> r.hostname == n.hostname) && (n.hostname == "" ==> r.hostname == h.hostname)
  {
  }

  // ---------------------------------------------------------------------
  // Ports (the port loop of mergeHost)

  /** Existing ports keep their positions and Numbers; each new Number is
      appended once, in order of first appearance. */
  lemma MergedPortsLayout(ports: seq<Port>, inc: seq<Port>)
    ensures Numbers(MergedPorts(ports, inc)) == Numbers(ports) + NewValues(Numbers(ports), Numbers(inc))
    ensures forall n :: n in Numbers(inc) ==> n in Numbers(MergedPorts(ports, inc))
  {
    MergesKeepKeys();
    UpsertAllKeys(ports, inc, PortNumber, MergedPort);
    NewValuesFacts(Numbers(ports), Numbers(inc));
  }

  /** Incoming ports with pairwise distinct Numbers, none of them stored yet,
      are appended as they are. */
  lemma MergedPortsFresh(ports: seq<Port>, inc: seq<Port>)
    requires Distinct(Numbers(inc))
    requires forall n :: n in Numbers(inc) ==> n !in Numbers(ports)
    ensures MergedPorts(ports, inc) == ports + inc
  {
    MergesKeepKeys();
    UpsertAllFresh(ports, inc, PortNumber, MergedPort);
  }

  /** A port that no incoming port matches, or that is not the first with
      its Number, is left exactly as it was. */
  lemma MergedPortsUntouched(ports: seq<Port>, inc: seq<Port>, j: nat)
    requires j < |ports|
    requires ports[j].number !in Numbers(inc) || FirstIndexOf(Numbers(ports), ports[j].number) != Some(j)
    ensures j < |MergedPorts(ports, inc)| && MergedPorts(ports, inc)[j] == ports[j]
  {
    MergesKeepKeys();
    UpsertAllUntouched(ports, inc, PortNumber, MergedPort, j);
  }

  /** The port found by Number afterwards is the one found before merged with
      every incoming port with that Number, in order. */
  lemma MergedPortsLookup(ports: seq<Port>, inc: seq<Port>, n: int)
    ensures Lookup(MergedPorts(ports, inc), PortNumber, n) ==
      Accumulate(Lookup(ports, PortNumber, n), inc, PortNumber, n, MergedPort)
  {
    MergesKeepKeys();
    UpsertAllLookup(ports, inc, PortNumber, MergedPort, n);
  }

  // ---------------------------------------------------------------------
  // Host keys (mergeKeys)

  lemma {:induction false} AccumulateReplace(base: Option<HostKey>, inc: seq<HostKey>, t: string)
    ensures Accumulate(base, inc, KeyType, t, Replace) ==
      if t in Types(inc) then LastKeyOfType(inc, t) else base
    decreases |inc|
  {
    if inc != [] {
      var pre := inc[..|inc| - 1];
      AccumulateReplace(base, pre, t);
      assert inc == pre + [inc[|inc| - 1]];
      KeysOfAppend(pre, inc[|inc| - 1], KeyType);
    }
  }

  /** mergeKeys: a nil list takes the incoming list wholesale; otherwise
      existing Types keep their positions, new Types are appended once each,
      the key found for a Type is the last incoming key of that Type (or the
      old one when no incoming key has it), and the keys of other Types are
      untouched. */
  lemma MergedKeysSpec(existing: Option<seq<HostKey>>, incoming: Option<seq<HostKey>>, t: string)
    ensures existing.None? ==> MergedKeys(existing, incoming) == incoming
    ensures existing.Some? ==> (
      MergedKeys(existing, incoming).Some? &&
      var ks, inc, r := existing.value, KeyList(incoming), MergedKeys(existing, incoming).value;
      Types(r) == Types(ks) + NewValues(Types(ks), Types(inc)) &&
      Lookup(r, KeyType, t) == (if t in Types(inc) then LastKeyOfType(inc, t) else Lookup(ks, KeyType, t)) &&
      forall j :: 0 <= j < |ks| && ks[j].keyType !in Types(inc) ==> r[j] == ks[j])
  {
    if existing.Some? {
      MergesKeepKeys();
      var ks, inc := existing.value, KeyList(incoming);
      UpsertAllKeys(ks, inc, KeyType, Replace);
      UpsertAllLookup(ks, inc, KeyType, Replace, t);
      AccumulateReplace(Lookup(ks, KeyType, t), inc, t);
      forall j | 0 <= j < |ks| && ks[j].keyType !in Types(inc)
        ensures UpsertAll(ks, inc, KeyType, Replace)[j] == ks[j]
      {
        UpsertAllUntouched(ks, inc, KeyType, Replace, j);
      }
    }
  }

  /** If the Types of a key list are unique, merging keeps them unique. */
  lemma MergedKeysUnique(existing: seq<HostKey>, incoming: Option<seq<HostKey>>)
    requires Distinct(Types(existing))
    ensures Distinct(Types(MergedKeys(Some(existing), incoming).value))
  {
    MergesKeepKeys();
    UpsertAllDistinct(existing, KeyList(incoming), KeyType, Replace);
  }

  // ---------------------------------------------------------------------
  // Merging the same scan twice

  /** No two keys of a port share a Type. */
  predicate WellFormedPort(p: Port)
  {
    p.hostKeys.Some? ==> Distinct(Types(p.hostKeys.value))
  }

  /** No two ports of a host share a Number, and its ports are well formed. */
  predicate WellFormedHost(h: Host)
  {
    Distinct(Numbers(h.ports)) && forall p :: p in h.ports ==> WellFormedPort(p)
  }

  function PortProtocol(p: Port): string { p.protocol }
  function PortServiceName(p: Port): string { p.serviceName }
  function PortServiceVersion(p: Port): string { p.serviceVersion }
  function HostIPv6(h: Host): string { h.ipv6 }
  function HostMac(h: Host): string { h.mac }
  function HostName(h: Host): string { h.hostname }

  /** A field after Coalesce with the field of each element of `t` in turn. */
  function CoalesceAll<T>(v: string, t: seq<T>, field: T -> string): string
    decreases |t|
  {
    if t == [] then v else Coalesce(CoalesceAll(v, t[..|t| - 1], field), field(t[|t| - 1]))
  }

  predicate AllBlank<T>(t: seq<T>, field: T -> string)
  {
    forall i :: 0 <= i < |t| ==> field(t[i]) == ""
  }

  /** The starting value survives only when every element's field is empty. */
  lemma {:induction false} CoalesceAllFrom<T>(v: string, t: seq<T>, field: T -> string)
    ensures CoalesceAll(v, t, field) == if AllBlank(t, field) then v else CoalesceAll("", t, field)
    decreases |t|
  {
    if t != [] {
      var pre := t[..|t| - 1];
      CoalesceAllFrom(v, pre, field);
      assert t == pre + [t[|t| - 1]];
    }
  }

  lemma CoalesceAllTwice<T>(v: string, t: seq<T>, field: T -> string)
    ensures CoalesceAll(CoalesceAll(v, t, field), t, field) == CoalesceAll(v, t, field)
  {
    CoalesceAllFrom(v, t, field);
    CoalesceAllFrom(CoalesceAll(v, t, field), t, field);
  }

  /** The keys of the ports of `t`, in order (nil lists contribute nothing). */
  function AllKeys(t: seq<Port>): seq<HostKey>
    decreases |t|
  {
    if t == [] then [] else AllKeys(t[..|t| - 1]) + KeyList(t[|t| - 1].hostKeys)
  }

  /** A key list after mergeKeys with the keys of each port of `t` in turn. */
  function KeysFold(k: Option<seq<HostKey>>, t: seq<Port>): Option<seq<HostKey>>
    decreases |t|
  {
    if t == [] then k else MergedKeys(KeysFold(k, t[..|t| - 1]), t[|t| - 1].hostKeys)
  }

  /** The ports of the hosts of `t`, in order. */
  function AllPorts(t: seq<Host>): seq<Port>
    decreases |t|
  {
    if t == [] then [] else AllPorts(t[..|t| - 1]) + t[|t| - 1].ports
  }

  lemma {:induction false} AllPortsWellFormed(t: seq<Host>)
    requires forall h :: h in t ==> WellFormedHost(h)
    ensures forall p :: p in AllPorts(t) ==> WellFormedPort(p)
    decreases |t|
  {
    if t != [] {
      assert forall h :: h in t[..|t| - 1] ==> h in t;
      AllPortsWellFormed(t[..|t| - 1]);
      assert t[|t| - 1] in t;
    }
  }

  /** mergePort applied with each port of `t` in turn, field by field. */
  lemma {:induction false} PortFold(a: Port, t: seq<Port>)
    ensures Fold(a, t, MergedPort) ==
      a.(protocol := CoalesceAll(a.protocol, t, PortProtocol),
         serviceName := CoalesceAll(a.serviceName, t, PortServiceName),
         serviceVersion := CoalesceAll(a.serviceVersion, t, PortServiceVersion),
         hostKeys := KeysFold(a.hostKeys, t))
    decreases |t|
  {
    if t != [] {
      PortFold(a, t[..|t| - 1]);
    }
  }

  /** mergeHost applied with each host of `t` in turn, field by field. */
  lemma {:induction false} HostFold(a: Host, t: seq<Host>)
    ensures Fold(a, t, MergedHost) ==
      a.(ipv6 := CoalesceAll(a.ipv6, t, HostIPv6),
         mac := CoalesceAll(a.mac, t, HostMac),
         hostname := CoalesceAll(a.hostname, t, HostName),
         ports := MergedPorts(a.ports, AllPorts(t)))
    decreases |t|
  {
    if t != [] {
      var pre := t[..|t| - 1];
      HostFold(a, pre);
      UpsertAllConcat(a.ports, AllPorts(pre), t[|t| - 1].ports, PortNumber, MergedPort);
    }
  }

  /** A present key list after several merges is one UpsertAll of all their keys. */
  lemma {:induction false} KeysFoldSome(ks: seq<HostKey>, t: seq<Port>)
    ensures KeysFold(Some(ks), t) == Some(UpsertAll(ks, AllKeys(t), KeyType, Replace))
    decreases |t|
  {
    if t != [] {
      var pre := t[..|t| - 1];
      KeysFoldSome(ks, pre);
      UpsertAllConcat(ks, AllKeys(pre), KeyList(t[|t| - 1].hostKeys), KeyType, Replace);
    }
  }

  lemma {:induction false} LastKeyOfTypeAppend(a: seq<HostKey>, b: seq<HostKey>, ty: string)
    ensures LastKeyOfType(a + b, ty) == if ty in Types(b) then LastKeyOfType(b, ty) else LastKeyOfType(a, ty)
    decreases |b|
  {
    if b == [] {
      assert a + b == a;
    } else {
      var pre := b[..|b| - 1];
      LastKeyOfTypeAppend(a, pre, ty);
      assert (a + b)[..|a + b| - 1] == a + pre;
      assert b == pre + [b[|b| - 1]];
      KeysOfAppend(pre, b[|b| - 1], KeyType);
    }
  }

  /** In a list whose Types are distinct, the last key of a Type is the one a lookup finds. */
  lemma {:induction false} LastKeyOfTypeDistinct(q: seq<HostKey>, ty: string)
    requires Distinct(Types(q))
    requires ty in Types(q)
    ensures LastKeyOfType(q, ty) == Lookup(q, KeyType, ty)
    decreases |q|
  {
    var pre, x := q[..|q| - 1], q[|q| - 1];
    assert q == pre + [x];
    KeysOfAppend(pre, x, KeyType);
    FirstIndexOfAppend(Types(pre), x.keyType, ty);
    if x.keyType == ty {
      forall i | 0 <= i < |pre| ensures Types(pre)[i] != ty {
        assert Types(q)[i] != Types(q)[|q| - 1];
      }
    } else {
      assert Distinct(Types(pre)) by {
        forall i, j | 0 <= i < j < |pre| ensures Types(pre)[i] != Types(pre)[j] {
          assert Types(q)[i] != Types(q)[j];
        }
      }
      LastKeyOfTypeDistinct(pre, ty);
    }
  }

  /** A key list with distinct Types merged into itself is unchanged. */
  lemma KeysSelf(q: seq<HostKey>)
    requires Distinct(Types(q))
    ensures UpsertAll(q, q, KeyType, Replace) == q
  {
    MergesKeepKeys();
    forall ty | ty in KeysOf(q, KeyType)
      ensures Accumulate(Lookup(q, KeyType, ty), q, KeyType, ty, Replace) == Lookup(q, KeyType, ty)
    {
      AccumulateReplace(Lookup(q, KeyType, ty), q, ty);
      LastKeyOfTypeDistinct(q, ty);
    }
    UpsertAllAgain(q, q, KeyType, Replace);
  }

  /** After several merges the key list is nil only if it started nil and no
      merged list had keys; otherwise it holds every merged Type, and the key
      found for it is the last merged key of that Type. */
  lemma {:induction false} KeysFoldFacts(k: Option<seq<HostKey>>, t: seq<Port>)
    requires forall p :: p in t ==> WellFormedPort(p)
    ensures KeysFold(k, t).None? ==> k.None? && AllKeys(t) == []
    ensures KeysFold(k, t).Some? ==> forall ty :: ty in Types(AllKeys(t)) ==>
      ty in Types(KeysFold(k, t).value) &&
      Lookup(KeysFold(k, t).value, KeyType, ty) == LastKeyOfType(AllKeys(t), ty)
    decreases |t|
  {
    if t != [] {
      var pre, x := t[..|t| - 1], t[|t| - 1];
      assert forall p :: p in pre ==> p in t;
      assert x in t;
      KeysFoldFacts(k, pre);
      var r' := KeysFold(k, pre);
      var q := KeyList(x.hostKeys);
      var a := AllKeys(pre);
      KeysOfConcat(a, q, KeyType);
      if KeysFold(k, t).Some? {
        forall ty | ty in Types(a + q)
          ensures ty in Types(KeysFold(k, t).value)
          ensures Lookup(KeysFold(k, t).value, KeyType, ty) == LastKeyOfType(a + q, ty)
        {
          LastKeyOfTypeAppend(a, q, ty);
          if r'.None? {
            assert a + q == q;
            LastKeyOfTypeDistinct(q, ty);
          } else {
            MergedKeysSpec(r', x.hostKeys, ty);
            NewValuesFacts(Types(r'.value), Types(q));
          }
        }
      }
    }
  }

  /** Merging the key lists of the same ports a second time changes nothing. */
  lemma KeysFoldTwice(k: Option<seq<HostKey>>, t: seq<Port>)
    requires forall p :: p in t ==> WellFormedPort(p)
    ensures KeysFold(KeysFold(k, t), t) == KeysFold(k, t)
  {
    KeysFoldFacts(k, t);
    var r := KeysFold(k, t);
    if r.Some? {
      var a := AllKeys(t);
      KeysFoldSome(r.value, t);
      MergesKeepKeys();
      forall ty | ty in KeysOf(a, KeyType)
        ensures Accumulate(Lookup(r.value, KeyType, ty), a, KeyType, ty, Replace) == Lookup(r.value, KeyType, ty)
      {
        AccumulateReplace(Lookup(r.value, KeyType, ty), a, ty);
      }
      UpsertAllAgain(r.value, a, KeyType, Replace);
    }
  }

  /** Merging the same key list twice gives what merging it once gives, and a
      list with distinct Types merged into itself is unchanged. */
  lemma MergedKeysTwice(a: Option<seq<HostKey>>, b: Option<seq<HostKey>>)
    requires b.Some? ==> Distinct(Types(b.value))
    ensures MergedKeys(MergedKeys(a, b), b) == MergedKeys(a, b)
    ensures MergedKeys(b, b) == b
  {
    var p := Port("", 0, "", "", b);
    assert [p][..0] == [];
    assert KeysFold(a, [p]) == MergedKeys(a, b);
    KeysFoldTwice(a, [p]);
    if b.Some? {
      KeysSelf(b.value);
    }
  }

  lemma PortsFoldAbsorbing()
    ensures FoldAbsorbing(MergedPort, WellFormedPort)
  {
    forall a: Port, t: seq<Port> | forall x :: x in t ==> WellFormedPort(x)
      ensures Fold(Fold(a, t, MergedPort), t, MergedPort) == Fold(a, t, MergedPort)
    {
      PortFold(a, t);
      PortFold(Fold(a, t, MergedPort), t);
      CoalesceAllTwice(a.protocol, t, PortProtocol);
      CoalesceAllTwice(a.serviceName, t, PortServiceName);
      CoalesceAllTwice(a.serviceVersion, t, PortServiceVersion);
      KeysFoldTwice(a.hostKeys, t);
    }
    forall b | WellFormedPort(b) ensures MergedPort(b, b) == b {
      MergedKeysTwice(b.hostKeys, b.hostKeys);
    }
  }

  /** Merging the same incoming ports twice gives what merging them once
      gives, whatever their Numbers, when no port repeats a key Type. */
  lemma MergedPortsTwice(ports: seq<Port>, inc: seq<Port>)
    requires forall p :: p in inc ==> WellFormedPort(p)
    ensures MergedPorts(MergedPorts(ports, inc), inc) == MergedPorts(ports, inc)
  {
    MergesKeepKeys();
    PortsFoldAbsorbing();
    UpsertAllTwice(ports, inc, PortNumber, MergedPort, WellFormedPort);
  }

  lemma HostsFoldAbsorbing()
    ensures FoldAbsorbing(MergedHost, WellFormedHost)
  {
    forall a: Host, t: seq<Host> | forall x :: x in t ==> WellFormedHost(x)
      ensures Fold(Fold(a, t, MergedHost), t, MergedHost) == Fold(a, t, MergedHost)
    {
      HostFold(a, t);
      HostFold(Fold(a, t, MergedHost), t);
      CoalesceAllTwice(a.ipv6, t, HostIPv6);
      CoalesceAllTwice(a.mac, t, HostMac);
      CoalesceAllTwice(a.hostname, t, HostName);
      AllPortsWellFormed(t);
      MergedPortsTwice(a.ports, AllPorts(t));
    }
    forall b | WellFormedHost(b) ensures MergedHost(b, b) == b {
      MergesKeepKeys();
      PortsFoldAbsorbing();
      UpsertAllSelf(b.ports, PortNumber, MergedPort, WellFormedPort);
    }
  }

  /** Merging the same scan twice gives the model that merging it once gives,
      whatever the incoming IPv4s (repeated or empty ones included), when no
      two ports of an incoming host share a Number and no two keys of an
      incoming port share a Type. */
  lemma MergeTwiceIsMergeOnce(hosts: seq<Host>, inc: seq<Host>)
    requires forall h :: h in inc ==> WellFormedHost(h)
    ensures MergedHosts(MergedHosts(hosts, inc), inc) == MergedHosts(hosts, inc)
  {
    MergesKeepKeys();
    HostsFoldAbsorbing();
    UpsertAllTwice(hosts, inc, HostIPv4, MergedHost, WellFormedHost);
  }

  /** Without the Number condition the second merge differs: a host with a
      new IPv4 is stored as it is, ports sharing a Number included, and the
      second merge folds its later port into its first. */
  lemma SharedPortNumberNotIdempotent(h: Host, p: Port, q: Port)
    requires h.ports == [p, q]
    requires p.number == q.number && q.protocol != "" && p.protocol != q.protocol
    ensures MergedHosts([], [h]) == [h]
    ensures var twice := MergedHosts(MergedHosts([], [h]), [h]);
      |twice| == 1 && |twice[0].ports| == 2 && twice[0].ports[0].protocol == q.protocol
    ensures MergedHosts(MergedHosts([], [h]), [h]) != MergedHosts([], [h])
  {
    MergesKeepKeys();
    assert [h][..0] == [];
    assert UpsertAll([], [h], HostIPv4, MergedHost) == [h];
    assert FirstIndexOf(KeysOf([h], HostIPv4), h.ipv4) == Some(0);
    var ps := [p, q];
    assert ps[..1] == [p];
    assert ps[..1][..0] == [];
    assert FirstIndexOf(KeysOf(ps, PortNumber), p.number) == Some(0);
    var m := ps[0 := MergedPort(p, p)];
    assert UpsertAll(ps, ps[..1], PortNumber, MergedPort) == m;
    assert FirstIndexOf(KeysOf(m, PortNumber), q.number) == Some(0);
    assert MergedPorts(ps, ps) == m[0 := MergedPort(m[0], q)];
    assert UpsertAll([h], [h][..0], HostIPv4, MergedHost) == [h];
    assert Upsert([h], h, HostIPv4, MergedHost) == [h][0 := MergedHost(h, h)];
    assert MergedHosts([h], [h]) == [MergedHost(h, h)];
  }

  /** Without the Type condition the second merge differs: a key list taken
      wholesale into a nil list keeps two keys of one Type, and merging it
      again overwrites the first with the second. */
  lemma SharedKeyTypeNotIdempotent(a: HostKey, b: HostKey)
    requires a.keyType == b.keyType && a != b
    ensures MergedKeys(None, Some([a, b])) == Some([a, b])
    ensures MergedKeys(MergedKeys(None, Some([a, b])), Some([a, b])) == Some([b, b])
  {
    var ks := [a, b];
    assert ks[..1] == [a];
    assert ks[..1][..0] == [];
    assert FirstIndexOf(KeysOf(ks, KeyType), a.keyType) == Some(0);
    assert UpsertAll(ks, ks[..1], KeyType, Replace) == ks;
    assert UpsertAll(ks, ks, KeyType, Replace) == [b, b];
  }
}
