/** The nmap XML records the parser decodes into (parser/nmap.go), without
    their XML bindings. */
module Nmap {

  datatype Scan = Scan(hosts: seq<Host>)

  datatype Host = Host(addresses: seq<Address>, hostnames: seq<Hostname>, ports: seq<Port>)

  /** `addrType` is "ipv4", "ipv6", "mac" or anything else nmap reports. */
  datatype Address = Address(value: string, addrType: string)

  datatype Hostname = Hostname(name: string)

  datatype Port = Port(protocol: string, portid: int, service: Service, tables: seq<Table>)

  datatype Service = Service(name: string, product: string, version: string)

  /** Script output tables; the conversion never reads them. */
  datatype Table = Table(elements: seq<Element>)

  datatype Element = Element(key: string, value: string)
}
