/**
 The kernel objects that rust/porta-client/src/linux/network.rs changes, seen
 as independent cells. Interfaces keep their names and indexes, and nobody
 else edits these objects.
 */
module Kernel {
  import opened Bytes

  type Name = string

  datatype Dns = Dns(servers: string, domains: string, defaultRoute: Option<bool>)

  /** What `resolvectl revert` leaves. */
  const NO_DNS := Dns("", "", None)

  datatype Link = Link(tun: bool, alias: string, mtu: nat, up: bool, addresses: set<string>, dns: Dns)

  datatype Destination = LowHalf | HighHalf | Host(ip: string)

  datatype Route = Route(family: nat, destination: Destination, device: Name, gateway: string, metric: nat,
                         protocol: nat)

  datatype Endpoint = Endpoint(ip: string, port: nat)

  /** Only IPv6 addresses are written with colons. */
  function FamilyOf(ip: string): nat {
    if ':' in ip then 6 else 4
  }

  function RoutesTo(k: Kernel, family: nat, destination: Destination): set<Route> {
    set r | r in k.routes && r.family == family && r.destination == destination
  }

  /** The accepting rules of the guard table; everything else is dropped. */
  datatype Rules = Rules(tunnel: Option<Name>, endpoints: seq<Endpoint>)

  datatype Kernel = Kernel(links: map<Name, Link>, routes: set<Route>, tables: map<string, Rules>)

  /** One independently changeable piece of kernel state outside nftables. */
  datatype Cell =
    | AliasCell(link: Name)
    | LinkCell(link: Name)
    | AddressCell(link: Name, address: string)
    | DnsCell(link: Name)
    | RouteCell(route: Route)

  datatype Value = Text(text: string) | Setting(mtu: nat, up: bool) | Present(present: bool) | Resolver(dns: Dns)

  predicate Exists(k: Kernel, c: Cell) {
    c.RouteCell? || c.link in k.links
  }

  function Read(k: Kernel, c: Cell): Value
    requires Exists(k, c)
  {
    match c
    case AliasCell(i) => Text(k.links[i].alias)
    case LinkCell(i) => Setting(k.links[i].mtu, k.links[i].up)
    case AddressCell(i, a) => Present(a in k.links[i].addresses)
    case DnsCell(i) => Resolver(k.links[i].dns)
    case RouteCell(r) => Present(r in k.routes)
  }

  predicate Fits(c: Cell, v: Value) {
    match c
    case AliasCell(_) => v.Text?
    case LinkCell(_) => v.Setting?
    case AddressCell(_, _) => v.Present?
    case DnsCell(_) => v.Resolver?
    case RouteCell(_) => v.Present?
  }

  function Write(k: Kernel, c: Cell, v: Value): Kernel
    requires Exists(k, c) && Fits(c, v)
  {
    match c
    case AliasCell(i) => k.(links := k.links[i := k.links[i].(alias := v.text)])
    case LinkCell(i) => k.(links := k.links[i := k.links[i].(mtu := v.mtu, up := v.up)])
    case AddressCell(i, a) =>
      var have := k.links[i].addresses;
      k.(links := k.links[i := k.links[i].(addresses := if v.present then have + {a} else have - {a})])
    case DnsCell(i) => k.(links := k.links[i := k.links[i].(dns := v.dns)])
    case RouteCell(r) => k.(routes := if v.present then k.routes + {r} else k.routes - {r})
  }

  /** Same interfaces, of the same kinds. */
  ghost predicate SameShape(k: Kernel, k': Kernel) {
    k'.links.Keys == k.links.Keys && forall i :: i in k.links ==> k'.links[i].tun == k.links[i].tun
  }

  lemma {:induction false} WriteShape(k: Kernel, c: Cell, v: Value)
    requires Exists(k, c) && Fits(c, v)
    ensures SameShape(k, Write(k, c, v)) && Write(k, c, v).tables == k.tables
    ensures Read(Write(k, c, v), c) == v
  {
  }

  /** A write reaches its own cell and no other. */
  lemma {:induction false} WriteElsewhere(k: Kernel, c: Cell, v: Value, d: Cell)
    requires Exists(k, c) && Fits(c, v) && Exists(k, d) && d != c
    ensures Exists(Write(k, c, v), d) && Read(Write(k, c, v), d) == Read(k, d)
  {
  }

  /** Kernels that agree on their shape, tables and every cell are equal. */
  lemma {:induction false} ReadAll(k: Kernel, k': Kernel)
    requires SameShape(k, k') && k'.tables == k.tables
    requires forall c :: Exists(k, c) ==> Read(k', c) == Read(k, c)
    ensures k' == k
  {
    forall i | i in k.links
      ensures k'.links[i] == k.links[i]
    {
      assert Read(k', AliasCell(i)) == Read(k, AliasCell(i));
      assert Read(k', LinkCell(i)) == Read(k, LinkCell(i));
      assert Read(k', DnsCell(i)) == Read(k, DnsCell(i));
      forall a: string
        ensures a in k'.links[i].addresses <==> a in k.links[i].addresses
      {
        assert Read(k', AddressCell(i, a)) == Read(k, AddressCell(i, a));
      }
      assert k'.links[i].addresses == k.links[i].addresses;
    }
    assert k'.links == k.links;
    forall r: Route
      ensures r in k'.routes <==> r in k.routes
    {
      assert Read(k', RouteCell(r)) == Read(k, RouteCell(r));
    }
    assert k'.routes == k.routes;
  }
}
