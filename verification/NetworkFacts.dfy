/**
 What the steps of NetworkManager need to know: how a journal's coverage can
 be read backwards, what each command touches, and the kernel `up` aims for.
 */
module NetworkFacts {
  import opened Bytes
  import opened Kernel
  import opened Journal

  datatype Lease = Lease(address: string, ip: string, dns: Option<string>, mtu: nat)

  /** What the source relies on in the kernel it finds. */
  ghost predicate GoodOrigin(k0: Kernel) {
    forall i :: i in k0.links && k0.links[i].tun ==>
      && 68 <= k0.links[i].mtu
      && (k0.links[i].dns.servers == "" && k0.links[i].dns.domains == "" ==> k0.links[i].dns == NO_DNS)
  }

  /** The journal file lists at least what memory does. */
  ghost predicate NotBehind(memory: Option<State>, disk: Option<State>) {
    memory.Some? ==>
      && disk.Some? && disk.value.table == memory.value.table && disk.value.metric == memory.value.metric
      && Cells(memory.value) <= Cells(disk.value)
  }

  // Facts about cells that a run has established.

  ghost predicate Reads(k: Kernel, c: Cell, v: Value) {
    Exists(k, c) && Read(k, c) == v
  }

  lemma {:induction false} WriteReads(k: Kernel, c: Cell, v: Value)
    requires Exists(k, c) && Fits(c, v)
    ensures Reads(Write(k, c, v), c, v)
  {
    hide Write, Read;
    WriteShape(k, c, v);
  }

  ghost predicate Holds(k: Kernel, goals: map<Cell, Value>) {
    forall c :: c in goals ==> Reads(k, c, goals[c])
  }

  lemma {:induction false} HoldsTouched(k: Kernel, k': Kernel, c: Cell, v: Value, goals: map<Cell, Value>)
    requires Holds(k, goals) && Touches(k, k', c) && Reads(k', c, v)
    ensures Holds(k', goals[c := v])
  {
    hide Read;
    forall d | d in goals && d != c
      ensures Reads(k', d, goals[d])
    {
      assert Reads(k, d, goals[d]);
    }
  }

  // Lemmas that read coverage backwards: what is not listed is original.

  lemma {:induction false} Unlisted(k0: Kernel, k: Kernel, s: State, c: Cell)
    requires Covers(k0, k, s) && Exists(k0, c) && c !in Cells(s)
    ensures Exists(k, c) && Read(k, c) == Read(k0, c)
  {
    hide Read, Cells, Sound, Guarded;
    assert !Changed(k0, k, c);
  }

  lemma {:induction false} ListedBy(s: State, c: Cell) returns (a: Action)
    requires c in Cells(s)
    ensures a in s.undo && CellOf(a, s.metric) == c
  {
    a :| a in s.undo && CellOf(a, s.metric) == c;
  }

  /** An interface that carries the alias has its alias action listed. */
  lemma {:induction false} AliasListed(k0: Kernel, k: Kernel, s: State, i: Name)
    requires Covers(k0, k, s) && AliasOn(k, i, s.table)
    ensures AliasAction(i) in s.undo
  {
    hide Cells, Honest, AliasFirst, Tunnels, Guarded;
    assert Changed(k0, k, AliasCell(i));
    var a := ListedBy(s, AliasCell(i));
  }

  /** Tunnel actions may follow once the alias of their interface is listed. */
  lemma {:induction false} MayAppend(s: State, k0: Kernel, a: Action)
    requires Sound(k0, s)
    requires OnTunnel(a) ==> !a.AliasAction? && AliasAction(a.link) in s.undo
    ensures AliasFirst(Tunnels(s.undo + [a]), s.interface)
  {
    hide Honest;
    TunnelsConcat(s.undo, [a]);
    OneTunnel(a);
    hide Tunnels, AliasFirst;
    if OnTunnel(a) {
      AppendFirst(Tunnels(s.undo), a, s.interface);
    } else {
      assert Tunnels(s.undo) + [] == Tunnels(s.undo);
    }
  }

  lemma {:induction false} AppendFirst(tunnels: seq<Action>, a: Action, interface: Option<Name>)
    requires AliasFirst(tunnels, interface) && !a.AliasAction? && AliasAction(a.link) in tunnels
    ensures AliasFirst(tunnels + [a], interface)
  {
    var p :| 0 <= p < |tunnels| && tunnels[p] == AliasAction(a.link);
    assert p == 0;
  }

  lemma {:induction false} OneTunnel(a: Action)
    ensures Tunnels([a]) == if OnTunnel(a) then [a] else []
  {
    assert [a][..0] == [];
  }

  lemma {:induction false} AliasMayAppend(s: State, i: Name)
    requires Tunnels(s.undo) == [] && (s.interface.None? || s.interface == Some(i))
    ensures AliasFirst(Tunnels(s.undo + [AliasAction(i)]), s.interface)
  {
    TunnelsConcat(s.undo, [AliasAction(i)]);
    OneTunnel(AliasAction(i));
  }

  /** All tunnel actions are on the interface whose alias is listed. */
  lemma {:induction false} OneInterface(k0: Kernel, s: State, i: Name)
    requires Sound(k0, s) && AliasAction(i) in s.undo
    ensures forall a :: a in s.undo && OnTunnel(a) ==> a.link == i
    ensures AliasFirst(Tunnels(s.undo), Some(i))
  {
    hide Honest;
    assert AliasAction(i) in Tunnels(s.undo);
    forall a | a in s.undo && OnTunnel(a)
      ensures a.link == i
    {
      assert a in Tunnels(s.undo);
    }
  }

  /** A destination without routes had none originally. */
  lemma {:induction false} RouteIsNew(k0: Kernel, k: Kernel, s: State, family: nat, destination: Destination)
    requires Covers(k0, k, s) && RoutesTo(k, family, destination) == {}
    ensures RoutesTo(k0, family, destination) == {}
  {
    hide Covers;
    forall r | r in k0.routes
      ensures r in k.routes
    {
      OriginalRouteStays(k0, k, s, r);
    }
    assert RoutesTo(k0, family, destination) <= RoutesTo(k, family, destination);
  }

  lemma {:induction false} OriginalRouteStays(k0: Kernel, k: Kernel, s: State, r: Route)
    requires Covers(k0, k, s)
    ensures r in k0.routes ==> r in k.routes
  {
    hide Cells, AliasFirst, Tunnels, Guarded;
    if RouteCell(r) in Cells(s) {
      var a := ListedBy(s, RouteCell(r));
      assert Honest(k0, a, s.metric);
    } else {
      assert !Changed(k0, k, RouteCell(r));
    }
  }

  lemma {:induction false} AddressIsNew(k0: Kernel, k: Kernel, s: State, i: Name)
    requires Covers(k0, k, s) && i in k.links && k.links[i].addresses == {}
    ensures i in k0.links && k0.links[i].addresses == {}
  {
    hide Cells, AliasFirst, Tunnels, Guarded;
    forall a: string
      ensures a !in k0.links[i].addresses
    {
      if AddressCell(i, a) in Cells(s) {
        var b := ListedBy(s, AddressCell(i, a));
        assert Honest(k0, b, s.metric);
      } else {
        assert !Changed(k0, k, AddressCell(i, a));
      }
    }
  }

  function GuardRules(k: Kernel, s: State): Rules {
    Rules(if s.interface.Some? && AliasOn(k, s.interface.value, s.table) then s.interface else None, s.endpoints)
  }

  /** The kernel with the guard that the journal calls for. */
  function Protected(k: Kernel, s: State): Kernel {
    WithTable(k, s.table, GuardRules(k, s))
  }

  lemma {:induction false} NothingTouched(k: Kernel, c: Cell)
    ensures Touches(k, k, c)
  {
  }

  lemma {:induction false} ChangeIsCovered(k0: Kernel, k: Kernel, s: State, c: Cell, v: Value)
    requires Covers(k0, k, s) && Exists(k, c) && Fits(c, v) && c in Cells(s) && s.table in k.tables
    requires Owner(k0, c).Some? ==> AliasOn(k, Owner(k0, c).value, s.table)
    requires c.AliasCell? ==> v == Text(AliasOf(s.table))
    ensures Covers(k0, Write(k, c, v), s)
  {
    hide Covers, Cells, Touches, Owner;
    WriteTouches(k, c, v);
    ChangeKeeps(k0, k, Write(k, c, v), s, c);
  }

  // Bookkeeping of cleanup_matching.

  ghost predicate AliasWithAll(undo: seq<Action>, wanted: Action -> bool) {
    forall a, b :: a in undo && b in undo && a.AliasAction? && wanted(a) && OnTunnel(b) ==> wanted(b)
  }

  lemma {:induction false} WantedMayUndo(undo: seq<Action>, p: nat, wanted: Action -> bool)
    requires p < |undo| && AliasWithAll(undo, wanted) && wanted(undo[p])
    requires forall q :: p < q < |undo| ==> !wanted(undo[q])
    ensures MayUndo(undo, p)
  {
    if undo[p].AliasAction? {
      forall b | b in undo[p + 1..]
        ensures !OnTunnel(b)
      {
        assert b in undo && undo[p] in undo;
      }
      NoTunnels(undo[p + 1..]);
    }
  }

  lemma {:induction false} NoTunnels(undo: seq<Action>)
    requires forall b :: b in undo ==> !OnTunnel(b)
    ensures Tunnels(undo) == []
  {
    if undo != [] {
      NoTunnels(undo[..|undo| - 1]);
    }
  }

  /** What is left is part of what was there and includes all that was not wanted. */
  ghost predicate Kept(before: seq<Action>, after: seq<Action>, wanted: Action -> bool) {
    && (forall a :: a in after ==> a in before)
    && (forall a :: a in before && !wanted(a) ==> a in after)
  }

  lemma {:induction false} WithoutMembers(undo: seq<Action>, p: nat, wanted: Action -> bool, before: seq<Action>)
    requires p < |undo| && wanted(undo[p]) && AliasWithAll(undo, wanted) && Kept(before, undo, wanted)
    requires forall q :: p < q < |undo| ==> !wanted(undo[q])
    ensures undo[p] in before
    ensures AliasWithAll(Without(undo, p), wanted)
    ensures Kept(before, Without(undo, p), wanted)
    ensures |Without(undo, p)| == |undo| - 1
    ensures forall q :: p <= q < |undo| - 1 ==> !wanted(Without(undo, p)[q])
  {
    var rest := Without(undo, p);
    forall a | a in undo && !wanted(a)
      ensures a in rest
    {
      var q :| 0 <= q < |undo| && undo[q] == a;
      assert a == if q < p then rest[q] else rest[q - 1];
    }
    assert forall a :: a in rest ==> a in undo;
  }

  lemma {:induction false} CleanupStarts(k: Kernel, s: State, wanted: Action -> bool)
    ensures UntouchedBut(k, k, s, wanted) && Kept(s.undo, s.undo, wanted)
  {
  }

  /** Cells that no wanted action restores are as they were. */
  ghost predicate UntouchedBut(k: Kernel, k': Kernel, s: State, wanted: Action -> bool) {
    && SameShape(k, k')
    && forall c ::
      Exists(k, c) && (forall a :: a in s.undo && wanted(a) ==> CellOf(a, s.metric) != c) ==> Read(k', c) == Read(k, c)
  }

  lemma {:induction false} UntouchedStep(k: Kernel, k': Kernel, k'': Kernel, s: State, wanted: Action -> bool,
                                         a: Action)
    requires UntouchedBut(k, k', s, wanted) && a in s.undo && wanted(a) && Touches(k', k'', CellOf(a, s.metric))
    ensures UntouchedBut(k, k'', s, wanted) && k''.tables == k'.tables
  {
    hide Read;
  }

  // Supporting facts for the methods.

  lemma {:induction false} ListedCell(s: State, a: Action)
    requires a in s.undo
    ensures CellOf(a, s.metric) in Cells(s)
    ensures a.RouteAction? ==> RouteCell(RouteOf(a, s.metric)) in Cells(s)
  {
  }

  lemma {:induction false} TouchedTables(k: Kernel, k': Kernel, c: Cell)
    requires Touches(k, k', c)
    ensures k'.tables == k.tables && SameShape(k, k')
  {
  }

  lemma {:induction false} PresentRoute(k: Kernel, a: Action, metric: nat)
    requires a.RouteAction?
    ensures RouteOf(a, metric) in RoutesTo(k, a.family, a.destination)
            <==> Reads(k, RouteCell(RouteOf(a, metric)), Present(true))
  {
  }

  /** What EnsureRoute needs to list and add a route. */
  lemma {:induction false} RouteFacts(k0: Kernel, k: Kernel, s: State, a: Action)
    requires Covers(k0, k, s) && a.RouteAction? && WellShaped(a)
    requires a.link in k0.links && (k0.links[a.link].tun <==> OnTunnel(a))
    requires OnTunnel(a) ==> AliasOn(k, a.link, s.table)
    ensures var c := RouteCell(RouteOf(a, s.metric));
      && c == CellOf(a, s.metric)
      && Exists(k, c) && Fits(c, Present(true))
      && (Owner(k0, c).Some? ==> AliasOn(k, Owner(k0, c).value, s.table))
    ensures RoutesTo(k, a.family, a.destination) == {} ==> Honest(k0, a, s.metric)
    ensures AliasFirst(Tunnels(s.undo + [a]), s.interface)
  {
    hide Cells, Tunnels, AliasFirst, Guarded, Changed, RoutesTo;
    if OnTunnel(a) {
      hide Sound;
      AliasListed(k0, k, s, a.link);
    }
    SoundOf(k0, k, s);
    MayAppend(s, k0, a);
    if RoutesTo(k, a.family, a.destination) == {} {
      RouteIsNew(k0, k, s, a.family, a.destination);
      NoSuchRoute(k0, a, s.metric);
    }
  }

  lemma {:induction false} NoSuchRoute(k0: Kernel, a: Action, metric: nat)
    requires a.RouteAction? && RoutesTo(k0, a.family, a.destination) == {}
    ensures RouteOf(a, metric) !in k0.routes
  {
    assert RouteOf(a, metric) !in RoutesTo(k0, a.family, a.destination);
  }

  lemma {:induction false} SoundOf(k0: Kernel, k: Kernel, s: State)
    requires Covers(k0, k, s)
    ensures Sound(k0, s) && SameShape(k0, k)
  {
  }

  lemma {:induction false} SoundOrder(k0: Kernel, k: Kernel, s: State)
    requires Covers(k0, k, s)
    ensures AliasFirst(Tunnels(s.undo), s.interface) && Bounded(s)
  {
  }

  // Escapes.

  /** The checks of validate_physical_route on the device. */
  predicate Physical(k: Kernel, s: State, device: Name) {
    device in k.links && !k.links[device].tun && s.interface != Some(device)
  }

  /** The physical interface and gateway towards each host. */
  type Paths = map<Destination, (Name, string)>

  /** The hop that an escape uses; none for a host with a route of its own. */
  type Via = Option<(Name, string)>

  /** The hop that the original kernel and these paths call for. */
  function ViaOf(k0: Kernel, paths: Paths, endpoint: Endpoint): Via {
    var destination := Host(endpoint.ip);
    if RoutesTo(k0, FamilyOf(endpoint.ip), destination) != {} || destination !in paths then None
    else Some(paths[destination])
  }

  /** Escapes go where the paths say. */
  predicate OnPath(paths: Paths, a: Action) {
    a.RouteAction? && a.kind == Escape ==> a.destination in paths && paths[a.destination] == (a.link, a.gateway)
  }

  predicate AllOnPath(paths: Paths, undo: seq<Action>) {
    forall a :: a in undo ==> OnPath(paths, a)
  }

  /** A journal, if there is one, has this name and metric, and its escapes follow stable paths. */
  ghost predicate AlignedTo(paths: Paths, stable: bool, name: (string, nat), journal: Option<State>) {
    journal.Some? ==>
      && journal.value.table == name.0 && journal.value.metric == name.1
      && (stable ==> AllOnPath(paths, journal.value.undo))
  }

  lemma {:induction false} NotAnEscape(paths: Paths, a: Action)
    requires a.RouteAction? ==> a.kind != Escape
    ensures OnPath(paths, a)
  {
  }

  /** The escape route that must stand, unless the host had a route of its own. */
  ghost function EscapeGoal(k0: Kernel, via: Via, endpoint: Endpoint, metric: nat): map<Cell, Value> {
    if via.None? || !IsPhysical(k0, via.value.0) then map[]
    else
      var (device, gateway) := via.value;
      var route := Route(FamilyOf(endpoint.ip), Host(endpoint.ip), device, gateway, metric, ROUTE_PROTOCOL);
      map[RouteCell(route) := Present(true)]
  }

  predicate IsPhysical(k: Kernel, device: Name) {
    device in k.links && !k.links[device].tun
  }

  /** A route to the host over a physical interface is original or an escape of this journal. */
  lemma {:induction false} EscapeExists(k0: Kernel, k: Kernel, s: State, endpoint: Endpoint, route: Route, paths: Paths)
    returns (via: Via)
    requires Covers(k0, k, s) && route in RoutesTo(k, FamilyOf(endpoint.ip), Host(endpoint.ip))
    ensures Physical(k, s, route.device) ==> Holds(k, EscapeGoal(k0, via, endpoint, s.metric))
    ensures Physical(k, s, route.device) && AllOnPath(paths, s.undo) ==> via == ViaOf(k0, paths, endpoint)
  {
    hide Cells, Tunnels, AliasFirst, Guarded, Sound;
    via := None;
    if Physical(k, s, route.device) && RoutesTo(k0, FamilyOf(endpoint.ip), Host(endpoint.ip)) == {} {
      assert route !in k0.routes by {
        assert route !in RoutesTo(k0, FamilyOf(endpoint.ip), Host(endpoint.ip));
      }
      assert Changed(k0, k, RouteCell(route));
      var a := ListedBy(s, RouteCell(route));
      HonestOf(k0, s, a);
      via := Some((a.link, a.gateway));
    }
  }

  lemma {:induction false} HonestOf(k0: Kernel, s: State, a: Action)
    requires Sound(k0, s) && a in s.undo
    ensures Honest(k0, a, s.metric)
  {
  }

  lemma {:induction false} EscapeReady(k0: Kernel, k: Kernel, s: State, endpoint: Endpoint, hop: (Name, string),
                                       a: Action)
    requires Covers(k0, k, s) && Physical(k, s, hop.0)
    requires a == RouteAction(Escape, hop.0, FamilyOf(endpoint.ip), Host(endpoint.ip), hop.1)
    ensures a.RouteAction? && WellShaped(a) && !OnTunnel(a)
    ensures a.link in k0.links && !k0.links[a.link].tun
  {
  }

  lemma {:induction false} EscapeAdded(k0: Kernel, k: Kernel, endpoint: Endpoint, a: Action, metric: nat)
    requires a.RouteAction? && a.destination == Host(endpoint.ip) && a.family == FamilyOf(endpoint.ip)
    requires Reads(k, RouteCell(RouteOf(a, metric)), Present(true))
    ensures Holds(k, EscapeGoal(k0, Some((a.link, a.gateway)), endpoint, metric))
  {
  }

  /** A new escape along the paths, for a host that has no route. */
  lemma {:induction false} EscapeVia(k0: Kernel, k: Kernel, s: State, endpoint: Endpoint, paths: Paths, a: Action)
    requires Covers(k0, k, s) && RoutesTo(k, FamilyOf(endpoint.ip), Host(endpoint.ip)) == {}
    requires a.RouteAction? && a.kind == Escape && a.destination == Host(endpoint.ip)
    ensures OnPath(paths, a) ==> ViaOf(k0, paths, endpoint) == Some((a.link, a.gateway))
  {
    hide RoutesTo, Covers;
    RouteIsNew(k0, k, s, FamilyOf(endpoint.ip), Host(endpoint.ip));
  }

  // Journals that start and end.

  /** Neither a table nor an alias has the random name. */
  predicate Unused(k: Kernel, table: string) {
    table !in k.tables && forall i :: i in k.links ==> k.links[i].alias != AliasOf(table)
  }

  /** A random name and metric that fit and are not in use. */
  predicate Drawn(k: Kernel, table: string, metric: nat) {
    GoodName(table, metric) && Unused(k, table)
  }

  lemma {:induction false} UnusedOriginally(k0: Kernel, k: Kernel, table: string)
    requires Pristine(k0, k) && Unused(k, table)
    ensures table !in k0.tables && forall i :: i in k0.links ==> k0.links[i].alias != AliasOf(table)
  {
    PristineIsOriginal(k0, k);
  }

  lemma {:induction false} EverythingWanted(undo: seq<Action>)
    ensures AliasWithAll(undo, _ => true)
  {
  }

  lemma {:induction false} NothingLeft(undo: seq<Action>)
    ensures undo != [] ==> exists a :: a in undo
  {
    if undo != [] {
      assert undo[0] in undo;
    }
  }

  lemma {:induction false} TableIsNew(k0: Kernel, k: Kernel, s: State)
    requires Covers(k0, k, s)
    ensures s.table !in k0.tables
  {
  }

  lemma {:induction false} PristineUnguarded(k0: Kernel, k: Kernel, table: string)
    requires Pristine(k0, k) && table !in k0.tables
    ensures WithoutTable(k, table) == k
  {
    assert k.tables - {table} == k.tables;
  }

  lemma {:induction false} NoTable(k: Kernel, table: string)
    requires table !in k.tables
    ensures WithoutTable(k, table) == k
  {
    assert k.tables - {table} == k.tables;
  }

  // Supporting facts for `up`.

  /** Validity of a lease, as far as this model distinguishes leases. */
  predicate ValidLease(lease: Lease) {
    lease.dns.Some? && lease.dns != Some(lease.ip) && 576 <= lease.mtu <= 9000
  }

  lemma {:induction false} LeaseHasDns(lease: Lease)
    requires ValidLease(lease)
    ensures lease.dns.Some?
  {
  }

  predicate IsTun(k: Kernel, i: Name) {
    i in k.links && k.links[i].tun
  }

  /** The interface of the first alias or link action. */
  function FirstClaim(undo: seq<Action>): (r: Option<Name>)
    ensures r.None? ==> forall a :: a in undo ==> !a.AliasAction? && !a.LinkAction?
  {
    if undo == [] then None
    else if undo[0].AliasAction? || undo[0].LinkAction? then Some(undo[0].link)
    else FirstClaim(undo[1..])
  }

  predicate HasLink(undo: seq<Action>, i: Name) {
    exists a :: a in undo && a.LinkAction? && a.link == i
  }

  /** Cells outside the tunnel interface agree. */
  ghost predicate PhysicalSame(k0: Kernel, k: Kernel, k': Kernel) {
    && SameShape(k, k')
    && forall c :: Exists(k, c) && Owner(k0, c).None? && !c.AliasCell? ==> Read(k', c) == Read(k, c)
  }

  lemma {:induction false} PhysicalItself(k0: Kernel, k: Kernel)
    ensures PhysicalSame(k0, k, k)
  {
  }

  lemma {:induction false} TunStays(k0: Kernel, k: Kernel, i: Name)
    requires SameShape(k0, k)
    ensures IsTun(k, i) <==> i in k0.links && k0.links[i].tun
    ensures IsTun(k, i) <==> i in k.links && k.links[i].tun
  {
  }

  lemma {:induction false} TunHere(k: Kernel, i: Name)
    ensures IsTun(k, i) ==> i in k.links && k.links[i].tun
  {
  }

  lemma {:induction false} NothingClaimed(k0: Kernel, k: Kernel, s: State)
    requires Covers(k0, k, s) && s.interface.None? && FirstClaim(s.undo).None?
    ensures Tunnels(s.undo) == []
  {
    hide Honest, Cells, Guarded;
    assert forall a :: a in Tunnels(s.undo) ==> !a.AliasAction?;
  }

  lemma {:induction false} AllTunnels(undo: seq<Action>)
    ensures AliasWithAll(undo, a => OnTunnel(a))
  {
  }

  lemma {:induction false} NoTunnelsFirst(undo: seq<Action>)
    requires Tunnels(undo) == []
    ensures AliasFirst(Tunnels(undo), None)
  {
  }

  /** Undoing tunnel actions leaves physical cells alone. */
  lemma {:induction false} OnlyTunnelTouched(k0: Kernel, k: Kernel, k': Kernel, s: State)
    requires Sound(k0, s) && UntouchedBut(k, k', s, a => OnTunnel(a))
    ensures PhysicalSame(k0, k, k')
  {
    hide Read, AliasFirst, Tunnels;
    forall c | Exists(k, c) && Owner(k0, c).None? && !c.AliasCell?
      ensures Read(k', c) == Read(k, c)
    {
      forall a | a in s.undo && OnTunnel(a)
        ensures CellOf(a, s.metric) != c
      {
        assert Honest(k0, a, s.metric);
        if !a.AliasAction? {
          HonestOwner(k0, a, s.metric);
        }
      }
    }
  }

  /** What is needed to list the alias of an interface that has none. */
  lemma {:induction false} AliasFacts(k0: Kernel, k: Kernel, s: State, i: Name)
    requires Covers(k0, k, s) && IsTun(k, i) && k.links[i].alias == ""
    requires Tunnels(s.undo) == [] && s.interface.None?
    ensures Honest(k0, AliasAction(i), s.metric)
    ensures AliasFirst(Tunnels(s.undo + [AliasAction(i)]), s.interface)
  {
    hide Cells, Guarded, Tunnels, AliasFirst, Sound;
    AliasMayAppend(s, i);
    assert !Changed(k0, k, AliasCell(i));
  }

  lemma {:induction false} AliasChange(k0: Kernel, k: Kernel, s: State, i: Name)
    requires IsTun(k, i)
    ensures Exists(k, AliasCell(i)) && Fits(AliasCell(i), Text(AliasOf(s.table)))
    ensures Owner(k0, AliasCell(i)).None? && AliasCell(i) == CellOf(AliasAction(i), s.metric)
  {
  }

  lemma {:induction false} AliasTouched(k0: Kernel, k: Kernel, mid: Kernel, k': Kernel, i: Name)
    requires PhysicalSame(k0, k, mid) && Touches(mid, k', AliasCell(i))
    ensures PhysicalSame(k0, k, k') && k'.tables == mid.tables
  {
    hide Read;
  }

  lemma {:induction false} AliasWritten(k: Kernel, i: Name, table: string)
    requires Reads(k, AliasCell(i), Text(AliasOf(table)))
    ensures AliasOn(k, i, table)
  {
  }

  lemma {:induction false} SavedLink(k0: Kernel, k: Kernel, s: State, i: Name)
    requires Covers(k0, k, s) && HasLink(s.undo, i)
    ensures LinkCell(i) in Cells(s) && i in k0.links && k0.links[i].addresses == {}
  {
    hide Guarded, AliasFirst, Tunnels, Changed;
    var a :| a in s.undo && a.LinkAction? && a.link == i;
    assert Honest(k0, a, s.metric) && CellOf(a, s.metric) == LinkCell(i);
  }

  /** Without a link action the interface still has its own MTU and flag. */
  lemma {:induction false} LinkFacts(k0: Kernel, k: Kernel, s: State, i: Name, a: Action)
    requires Covers(k0, k, s) && GoodOrigin(k0) && AliasOn(k, i, s.table) && k.links[i].tun
    requires !HasLink(s.undo, i) && k.links[i].addresses == {} && k.links[i].mtu <= 65535
    requires a == LinkAction(i, k.links[i].mtu, k.links[i].up)
    ensures Honest(k0, a, s.metric) && AliasFirst(Tunnels(s.undo + [a]), s.interface)
    ensures CellOf(a, s.metric) == LinkCell(i)
    ensures i in k0.links && k0.links[i].addresses == {}
  {
    hide Guarded, AliasFirst, Tunnels, Cells, Sound;
    SoundOf(k0, k, s);
    AliasListed(k0, k, s, i);
    MayAppend(s, k0, a);
    AddressIsNew(k0, k, s, i);
    NotListed(s, i);
    assert !Changed(k0, k, LinkCell(i));
  }

  lemma {:induction false} NotListed(s: State, i: Name)
    ensures !HasLink(s.undo, i) ==> LinkCell(i) !in Cells(s)
  {
    if LinkCell(i) in Cells(s) {
      var a := ListedBy(s, LinkCell(i));
    }
  }

  lemma {:induction false} AddressFacts(k0: Kernel, k: Kernel, s: State, i: Name, address: string)
    requires Covers(k0, k, s) && AliasOn(k, i, s.table)
    requires i in k0.links && k0.links[i].tun && k0.links[i].addresses == {}
    ensures var a, c := AddressAction(i, address), AddressCell(i, address);
      && Honest(k0, a, s.metric) && AliasFirst(Tunnels(s.undo + [a]), s.interface)
      && CellOf(a, s.metric) == c && Owner(k0, c) == Some(i) && !c.AliasCell?
      && Exists(k, c) && Fits(c, Present(true)) && i in k.links
      && (address in k.links[i].addresses ==> Reads(k, c, Present(true)))
  {
    hide Guarded, AliasFirst, Tunnels, Cells, Sound;
    SoundOf(k0, k, s);
    AliasListed(k0, k, s, i);
    MayAppend(s, k0, AddressAction(i, address));
  }

  lemma {:induction false} AliasThere(k: Kernel, i: Name, table: string)
    requires AliasOn(k, i, table)
    ensures i in k.links
  {
  }

  /** Without a DNS action the resolver configuration is the original one. */
  lemma {:induction false} DnsFacts(k0: Kernel, k: Kernel, s: State, i: Name)
    requires Covers(k0, k, s) && GoodOrigin(k0) && AliasOn(k, i, s.table) && i in k0.links && k0.links[i].tun
    requires DnsAction(i) !in s.undo && k.links[i].dns.servers == "" && k.links[i].dns.domains == ""
    ensures Honest(k0, DnsAction(i), s.metric) && AliasFirst(Tunnels(s.undo + [DnsAction(i)]), s.interface)
  {
    hide Guarded, AliasFirst, Tunnels, Cells, Sound;
    SoundOf(k0, k, s);
    AliasListed(k0, k, s, i);
    MayAppend(s, k0, DnsAction(i));
    DnsNotListed(s, i);
    assert !Changed(k0, k, DnsCell(i));
  }

  lemma {:induction false} DnsNotListed(s: State, i: Name)
    ensures DnsAction(i) !in s.undo ==> DnsCell(i) !in Cells(s)
  {
    if DnsCell(i) in Cells(s) {
      var a := ListedBy(s, DnsCell(i));
    }
  }

  lemma {:induction false} DnsChange(k0: Kernel, k: Kernel, s: State, i: Name)
    ensures DnsCell(i) == CellOf(DnsAction(i), s.metric)
  {
  }

  lemma {:induction false} DnsCellFacts(k0: Kernel, k: Kernel, i: Name, table: string, dns: Dns)
    requires AliasOn(k, i, table)
    ensures i in k.links && Exists(k, DnsCell(i)) && Fits(DnsCell(i), Resolver(dns)) && Owner(k0, DnsCell(i)) == Some(i)
  {
  }

  lemma {:induction false} DnsTouched(k: Kernel, k': Kernel, i: Name, table: string)
    requires Touches(k, k', DnsCell(i)) && AliasOn(k, i, table)
    ensures forall b :: Touches(b, k, DnsCell(i)) ==> Touches(b, k', DnsCell(i))
    ensures AliasOn(k', i, table) && k'.tables == k.tables && i in k'.links
    ensures Read(k', DnsCell(i)) == Resolver(k'.links[i].dns)
  {
    assert Read(k', AliasCell(i)) == Read(k, AliasCell(i));
    forall b | Touches(b, k, DnsCell(i))
      ensures Touches(b, k', DnsCell(i))
    {
      hide Read;
    }
  }

  lemma {:induction false} DnsRead(k: Kernel, i: Name, dns: Dns)
    ensures Reads(k, DnsCell(i), Resolver(dns)) ==> i in k.links && k.links[i].dns == dns
  {
  }

  lemma {:induction false} DnsWritten(k: Kernel, i: Name)
    requires i in k.links
    ensures Reads(k, DnsCell(i), Resolver(k.links[i].dns))
  {
  }

  lemma {:induction false} LinkChange(k0: Kernel, k: Kernel, i: Name, table: string, mtu: nat)
    requires SameShape(k0, k) && AliasOn(k, i, table) && k.links[i].tun
    ensures Exists(k, LinkCell(i)) && Fits(LinkCell(i), Setting(mtu, true)) && Owner(k0, LinkCell(i)) == Some(i)
    ensures i in k0.links && k0.links[i].tun
  {
  }

  lemma {:induction false} TunnelRoutes(i: Name, dns: string)
    ensures var low := RouteAction(Tunnel, i, 4, LowHalf, ""); low.RouteAction? && WellShaped(low) && OnTunnel(low)
    ensures var high := RouteAction(Tunnel, i, 4, HighHalf, ""); high.RouteAction? && WellShaped(high) && OnTunnel(high)
    ensures var r := RouteAction(DnsRoute, i, 4, Host(dns), ""); r.RouteAction? && WellShaped(r) && OnTunnel(r)
  {
  }

  // The target of `up`.

  /** Everything `up` sets, cell by cell. */
  ghost function Goals(k0: Kernel, via: Via, i: Name, table: string, metric: nat, endpoint: Endpoint,
                       lease: Lease): map<Cell, Value>
    requires lease.dns.Some?
  {
    WithRoutes(EscapeGoal(k0, via, endpoint, metric)
               [AliasCell(i) := Text(AliasOf(table))]
               [LinkCell(i) := Setting(lease.mtu, true)]
               [AddressCell(i, lease.address) := Present(true)], i, lease, metric)
  }

  /** The kernel differs from the original in the goals and the guard, and in nothing else. */
  ghost predicate AtTarget(k0: Kernel, k: Kernel, via: Via, i: Name, table: string, metric: nat, endpoint: Endpoint,
                           lease: Lease)
    requires lease.dns.Some?
  {
    var goals := Goals(k0, via, i, table, metric, endpoint, lease);
    && SameShape(k0, k)
    && k.tables == k0.tables[table := Rules(Some(i), [endpoint])]
    && Holds(k, goals)
    && forall c :: Exists(k0, c) && c !in goals ==> Read(k, c) == Read(k0, c)
  }

  /** There is only one such kernel. */
  lemma {:induction false} TargetIsUnique(k0: Kernel, k: Kernel, k': Kernel, via: Via, i: Name, table: string,
                                          metric: nat,
                                          endpoint: Endpoint, lease: Lease)
    requires lease.dns.Some?
    requires AtTarget(k0, k, via, i, table, metric, endpoint, lease)
    requires AtTarget(k0, k', via, i, table, metric, endpoint, lease)
    ensures k == k'
  {
    hide Goals, Read;
    var goals := Goals(k0, via, i, table, metric, endpoint, lease);
    forall c | Exists(k, c)
      ensures Read(k', c) == Read(k, c)
    {
      assert Exists(k0, c);
      if c in goals {
        assert Read(k, c) == goals[c] && Read(k', c) == goals[c];
      }
    }
    ReadAll(k, k');
  }

  lemma {:induction false} PhysicalHolds(k0: Kernel, k: Kernel, k': Kernel, via: Via, endpoint: Endpoint, metric: nat)
    requires PhysicalSame(k0, k, k') && Holds(k, EscapeGoal(k0, via, endpoint, metric))
    ensures Holds(k', EscapeGoal(k0, via, endpoint, metric))
  {
  }

  ghost predicate OnlyRoutes(goals: map<Cell, Value>) {
    forall c :: c in goals ==> c.RouteCell?
  }

  lemma {:induction false} EscapeIsRoute(k0: Kernel, via: Via, endpoint: Endpoint, metric: nat)
    ensures OnlyRoutes(EscapeGoal(k0, via, endpoint, metric))
  {
  }

  /** The link command, with the alias already there. */
  lemma {:induction false} StepLink(k: Kernel, k': Kernel, i: Name, table: string, goals: map<Cell, Value>, v: Value,
                                    ok: bool)
    requires Holds(k, goals) && OnlyRoutes(goals) && AliasOn(k, i, table) && Touches(k, k', LinkCell(i))
    requires ok ==> Reads(k', LinkCell(i), v)
    ensures AliasOn(k', i, table) && k'.tables == k.tables
    ensures ok ==> Holds(k', goals[AliasCell(i) := Text(AliasOf(table))][LinkCell(i) := v])
  {
    var wider := goals[AliasCell(i) := Text(AliasOf(table))];
    assert Holds(k, wider);
    assert Read(k', AliasCell(i)) == Read(k, AliasCell(i));
    if ok {
      HoldsTouched(k, k', LinkCell(i), v, wider);
    }
  }

  /** Any later command on another cell. */
  lemma {:induction false} StepOn(k: Kernel, k': Kernel, i: Name, table: string, goals: map<Cell, Value>, c: Cell,
                                  v: Value, ok: bool)
    requires Holds(k, goals) && AliasOn(k, i, table) && Touches(k, k', c) && !c.AliasCell?
    requires ok ==> Reads(k', c, v)
    ensures AliasOn(k', i, table) && k'.tables == k.tables
    ensures ok ==> Holds(k', goals[c := v])
  {
    assert Read(k', AliasCell(i)) == Read(k, AliasCell(i));
    if ok {
      HoldsTouched(k, k', c, v, goals);
    }
  }

  lemma {:induction false} GoalsReached(k0: Kernel, k: Kernel, via: Via, i: Name, table: string, metric: nat,
                                        endpoint: Endpoint,
                                        lease: Lease, goals: map<Cell, Value>)
    requires lease.dns.Some? && Holds(k, goals)
    requires goals == WithRoutes(EscapeGoal(k0, via, endpoint, metric)
                                 [AliasCell(i) := Text(AliasOf(table))]
                                 [LinkCell(i) := Setting(lease.mtu, true)]
                                 [AddressCell(i, lease.address) := Present(true)], i, lease, metric)
    ensures Holds(k, Goals(k0, via, i, table, metric, endpoint, lease))
  {
    hide Holds, EscapeGoal;
  }

  /** What a failed UndoAndDrop may leave: the undone kernel, memory as before, and the file already rewritten. */
  ghost predicate FailedDrop(k1: Kernel, memory: State, p: nat, k: Kernel, file: State) {
    && p < |memory.undo| && MayUndo(memory.undo, p)
    && k == Undone(k1, memory.table, memory.metric, memory.undo[p])
    && file == memory.(undo := Without(memory.undo, p))
  }

  /** Actions for an address, resolver or endpoint that is no longer used. */
  predicate Stale(a: Action, endpoint: Endpoint, lease: Lease) {
    || (a.AddressAction? && a.address != lease.address)
    || (a.RouteAction? && a.kind == DnsRoute && Some(a.destination) != HostOf(lease.dns))
    || (a.RouteAction? && a.kind == Escape && a.destination != Host(endpoint.ip))
  }

  function HostOf(ip: Option<string>): Option<Destination> {
    if ip.None? then None else Some(Host(ip.value))
  }

  function StaleFor(endpoint: Endpoint, lease: Lease): Action -> bool {
    a => Stale(a, endpoint, lease)
  }

  lemma {:induction false} StaleIsNotAlias(undo: seq<Action>, endpoint: Endpoint, lease: Lease)
    ensures AliasWithAll(undo, StaleFor(endpoint, lease))
  {
  }

  lemma {:induction false} TablesKeep(k: Kernel, k': Kernel, s: State, i: Name, goals: map<Cell, Value>)
    requires k' == k || k' == Protected(k, s)
    ensures Holds(k, goals) ==> Holds(k', goals)
    ensures AliasOn(k, i, s.table) ==> AliasOn(k', i, s.table)
    ensures s.table in k.tables ==> s.table in k'.tables
  {
    if Holds(k, goals) {
      forall c | c in goals
        ensures Reads(k', c, goals[c])
      {
        assert Reads(k, c, goals[c]);
      }
    }
  }

  lemma {:induction false} GuardInstalled(before: Kernel, k: Kernel, s: State, i: Name, endpoint: Endpoint)
    requires k == Protected(before, s) && s.interface == Some(i)
    requires s.endpoints == [endpoint]
    requires AliasOn(before, i, s.table)
    ensures s.table in k.tables && k.tables[s.table] == Rules(Some(i), [endpoint])
  {
  }

  /** A stale action restores none of the goals. */
  lemma {:induction false} StaleMissesGoals(k0: Kernel, s: State, a: Action, via: Via, i: Name, endpoint: Endpoint,
                                            lease: Lease)
    requires lease.dns.Some? && i in k0.links && k0.links[i].tun
    requires Honest(k0, a, s.metric) && Stale(a, endpoint, lease)
    ensures CellOf(a, s.metric) !in Goals(k0, via, i, s.table, s.metric, endpoint, lease)
  {
    hide Read, RoutesTo;
  }

  /** What is left in the journal restores only goals. */
  lemma {:induction false} LeftIsGoal(k0: Kernel, s: State, a: Action, via: Via, i: Name, endpoint: Endpoint,
                                      lease: Lease)
    requires lease.dns.Some? && Honest(k0, a, s.metric) && !Stale(a, endpoint, lease)
    requires OnTunnel(a) ==> a.link == i
    requires a.RouteAction? && a.kind == Escape ==> via == Some((a.link, a.gateway))
    ensures CellOf(a, s.metric) in Goals(k0, via, i, s.table, s.metric, endpoint, lease)
  {
    hide Read, RoutesTo;
  }

  /** An escape that is left is the one that the paths call for. */
  lemma {:induction false} LeftOnPath(k0: Kernel, s: State, a: Action, endpoint: Endpoint, lease: Lease, paths: Paths)
    requires a in s.undo && Honest(k0, a, s.metric) && !Stale(a, endpoint, lease) && AllOnPath(paths, s.undo)
    ensures a.RouteAction? && a.kind == Escape ==> ViaOf(k0, paths, endpoint) == Some((a.link, a.gateway))
  {
    hide Read;
    assert OnPath(paths, a);
  }

  lemma {:induction false} HoldsCleaned(k0: Kernel, k: Kernel, k': Kernel, s: State, via: Via, i: Name,
                                        endpoint: Endpoint, lease: Lease)
    requires lease.dns.Some? && i in k0.links && k0.links[i].tun && Sound(k0, s)
    requires UntouchedBut(k, k', s, StaleFor(endpoint, lease))
    requires Holds(k, Goals(k0, via, i, s.table, s.metric, endpoint, lease))
    ensures Holds(k', Goals(k0, via, i, s.table, s.metric, endpoint, lease))
  {
    hide Goals, Read, Honest, CellOf, Stale, AliasFirst, Tunnels;
    var goals := Goals(k0, via, i, s.table, s.metric, endpoint, lease);
    forall c | c in goals
      ensures Reads(k', c, goals[c])
    {
      assert Reads(k, c, goals[c]);
      forall a | a in s.undo && StaleFor(endpoint, lease)(a)
        ensures CellOf(a, s.metric) != c
      {
        HonestOf(k0, s, a);
        StaleMissesGoals(k0, s, a, via, i, endpoint, lease);
      }
    }
  }

  lemma {:induction false} Finished(k0: Kernel, k: Kernel, k': Kernel, s: State, s': State, via: Via, i: Name,
                                    endpoint: Endpoint, lease: Lease, paths: Paths)
    requires lease.dns.Some? && i in k0.links && k0.links[i].tun
    requires Covers(k0, k, s) && Covers(k0, k', s') && s' == s.(undo := s'.undo)
    requires UntouchedBut(k, k', s, StaleFor(endpoint, lease)) && k'.tables == k.tables
    requires forall a :: a in s'.undo ==> !StaleFor(endpoint, lease)(a)
    requires Holds(k, Goals(k0, via, i, s.table, s.metric, endpoint, lease))
    requires s.table in k.tables && k.tables[s.table] == Rules(Some(i), [endpoint])
    requires AllOnPath(paths, s'.undo) && via == ViaOf(k0, paths, endpoint)
    ensures AtTarget(k0, k', via, i, s'.table, s'.metric, endpoint, lease)
  {
    hide Goals, Read, Honest, CellOf, Stale, AliasFirst, Tunnels, Cells, Covers, Reads, Sound, UntouchedBut, AliasOn,
      Exists, Holds;
    SoundOf(k0, k, s);
    SoundOf(k0, k', s');
    HoldsCleaned(k0, k, k', s, via, i, endpoint, lease);
    AliasGoal(k0, k', s', via, i, endpoint, lease);
    AliasListed(k0, k', s', i);
    OneInterface(k0, s', i);
    forall c | Exists(k0, c) && c !in Goals(k0, via, i, s.table, s.metric, endpoint, lease)
      ensures Exists(k', c) && Read(k', c) == Read(k0, c)
    {
      if c in Cells(s') {
        var a := ListedBy(s', c);
        HonestOf(k0, s', a);
        LeftOnPath(k0, s', a, endpoint, lease, paths);
        LeftIsGoal(k0, s', a, via, i, endpoint, lease);
      }
      Unlisted(k0, k', s', c);
    }
    TablesOfTarget(k0, k', s');
  }

  lemma {:induction false} AliasGoal(k0: Kernel, k: Kernel, s: State, via: Via, i: Name, endpoint: Endpoint,
                                     lease: Lease)
    requires lease.dns.Some? && Holds(k, Goals(k0, via, i, s.table, s.metric, endpoint, lease))
    ensures AliasOn(k, i, s.table)
  {
    hide EscapeGoal;
    var goals := Goals(k0, via, i, s.table, s.metric, endpoint, lease);
    assert AliasCell(i) in goals && goals[AliasCell(i)] == Text(AliasOf(s.table));
    assert Reads(k, AliasCell(i), goals[AliasCell(i)]);
  }

  lemma {:induction false} TablesOfTarget(k0: Kernel, k: Kernel, s: State)
    requires Covers(k0, k, s) && s.table in k.tables
    ensures k.tables == k0.tables[s.table := k.tables[s.table]]
  {
    hide Changed, Cells, Sound;
    var rest := k0.tables - {s.table};
    forall t: string
      ensures t in k.tables <==> t in k0.tables[s.table := k.tables[s.table]]
      ensures t in k.tables ==> k.tables[t] == k0.tables[s.table := k.tables[s.table]][t]
    {
      if t != s.table {
        assert t in rest <==> t in k0.tables;
        assert t in k.tables - {s.table} <==> t in k.tables;
      }
    }
  }

  // When `up` has no reason to refuse.

  /** The endpoint has no route of its own and is reached over an interface that is not a tunnel. */
  predicate EscapeOpen(k: Kernel, paths: Paths, endpoint: Endpoint) {
    && RoutesTo(k, FamilyOf(endpoint.ip), Host(endpoint.ip)) == {}
    && Host(endpoint.ip) in paths
    && IsPhysical(k, paths[Host(endpoint.ip)].0)
  }

  /**
   What the stages of `up` from `stage` on will look for: no alias, no addresses,
   no competing routes, no resolver.
   */
  predicate Open(k: Kernel, i: Name, lease: Lease, stage: nat) {
    && IsTun(k, i) && lease.dns.Some?
    && (stage <= 0 ==> k.links[i].alias == "")
    && (stage <= 1 ==> k.links[i].addresses == {} && k.links[i].mtu <= 65535)
    && (stage <= 2 ==> RoutesTo(k, 4, LowHalf) == {})
    && (stage <= 3 ==> RoutesTo(k, 4, HighHalf) == {})
    && (stage <= 4 ==> RoutesTo(k, 4, Host(lease.dns.value)) == {})
    && (stage <= 5 ==> k.links[i].dns.servers == "" && k.links[i].dns.domains == "")
  }

  /** Changing this cell does not disturb the stages from `stage` on. */
  predicate Spares(c: Cell, lease: Lease, stage: nat)
    requires lease.dns.Some?
  {
    match c
    case AliasCell(_) => stage >= 1
    case LinkCell(_) => stage >= 2
    case AddressCell(_, _) => stage >= 2
    case DnsCell(_) => stage >= 6
    case RouteCell(r) =>
      match r.destination
      case LowHalf => stage >= 3
      case HighHalf => stage >= 4
      case Host(ip) => stage >= 5 || ip != lease.dns.value
  }

  /** Nothing changed except cells that spare the stages. */
  ghost predicate OnlySpared(k: Kernel, k': Kernel, lease: Lease, stage: nat)
    requires lease.dns.Some?
  {
    SameShape(k, k') && forall c :: Exists(k, c) && !Spares(c, lease, stage) ==> Read(k', c) == Read(k, c)
  }

  lemma {:induction false} RoutesSame(k: Kernel, k': Kernel, d: Destination)
    requires forall r: Route :: r.destination == d ==> Read(k', RouteCell(r)) == Read(k, RouteCell(r))
    ensures RoutesTo(k', 4, d) == RoutesTo(k, 4, d)
  {
    forall r: Route | r.destination == d
      ensures r in k'.routes <==> r in k.routes
    {
      assert Read(k', RouteCell(r)) == Read(k, RouteCell(r));
    }
  }

  lemma {:induction false} AddressesSame(k: Kernel, k': Kernel, i: Name)
    requires i in k.links && i in k'.links
    requires forall a: string :: Read(k', AddressCell(i, a)) == Read(k, AddressCell(i, a))
    ensures k'.links[i].addresses == k.links[i].addresses
  {
    forall a: string
      ensures a in k'.links[i].addresses <==> a in k.links[i].addresses
    {
      assert Read(k', AddressCell(i, a)) == Read(k, AddressCell(i, a));
    }
  }

  lemma {:induction false} OpenRoutes(k: Kernel, k': Kernel, i: Name, lease: Lease, stage: nat)
    requires Open(k, i, lease, stage) && OnlySpared(k, k', lease, stage)
    ensures stage <= 2 ==> RoutesTo(k', 4, LowHalf) == {}
    ensures stage <= 3 ==> RoutesTo(k', 4, HighHalf) == {}
    ensures stage <= 4 ==> RoutesTo(k', 4, Host(lease.dns.value)) == {}
  {
    hide RoutesTo, Read;
    if stage <= 2 {
      RoutesSame(k, k', LowHalf);
    }
    if stage <= 3 {
      RoutesSame(k, k', HighHalf);
    }
    if stage <= 4 {
      RoutesSame(k, k', Host(lease.dns.value));
    }
  }

  lemma {:induction false} OpenStays(k: Kernel, k': Kernel, i: Name, lease: Lease, stage: nat)
    requires Open(k, i, lease, stage) && OnlySpared(k, k', lease, stage)
    ensures Open(k', i, lease, stage)
  {
    OpenRoutes(k, k', i, lease, stage);
    hide RoutesTo;
    if stage <= 1 {
      AddressesSame(k, k', i);
      assert Read(k', LinkCell(i)) == Read(k, LinkCell(i));
    }
    if stage <= 0 {
      assert Read(k', AliasCell(i)) == Read(k, AliasCell(i));
    }
    if stage <= 5 {
      assert Read(k', DnsCell(i)) == Read(k, DnsCell(i));
    }
  }

  /** One step of `up`, on a cell that later stages do not look at. */
  lemma {:induction false} OpenStep(k: Kernel, k': Kernel, c: Cell, i: Name, lease: Lease, stage: nat, next: nat)
    requires Touches(k, k', c) && stage <= next
    ensures Open(k, i, lease, stage) && Spares(c, lease, next) ==> Open(k', i, lease, next)
  {
    if Open(k, i, lease, stage) && Spares(c, lease, next) {
      assert Open(k, i, lease, next);
      hide Open, Spares, Read;
      OpenStays(k, k', i, lease, next);
    }
  }

  /** Nothing changed except routes to one host and the guard. */
  ghost predicate EscapeOnly(k: Kernel, k': Kernel, endpoint: Endpoint) {
    && SameShape(k, k')
    && forall c ::
      Exists(k, c) && !(c.RouteCell? && c.route.destination == Host(endpoint.ip)) ==> Read(k', c) == Read(k, c)
  }

  lemma {:induction false} OpenEscaped(k: Kernel, k': Kernel, endpoint: Endpoint, i: Name, lease: Lease)
    requires EscapeOnly(k, k', endpoint)
    ensures Open(k, i, lease, 0) && lease.dns != Some(endpoint.ip) ==> Open(k', i, lease, 0)
  {
    if Open(k, i, lease, 0) && lease.dns != Some(endpoint.ip) {
      hide Read;
      assert OnlySpared(k, k', lease, 0);
      OpenStays(k, k', i, lease, 0);
    }
  }

  lemma {:induction false} EscapeTouched(k: Kernel, k': Kernel, endpoint: Endpoint, r: Route)
    requires Touches(k, k', RouteCell(r)) && r.destination == Host(endpoint.ip)
    ensures EscapeOnly(k, k', endpoint)
  {
    hide Read;
  }

  lemma {:induction false} EscapeGuarded(k: Kernel, table: string, rules: Rules, k': Kernel, paths: Paths,
                                         endpoint: Endpoint)
    ensures EscapeOnly(k, k, endpoint)
    ensures EscapeOnly(WithTable(k, table, rules), k', endpoint) ==> EscapeOnly(k, k', endpoint)
    ensures EscapeOpen(k, paths, endpoint) <==> EscapeOpen(WithTable(k, table, rules), paths, endpoint)
  {
    var guarded := WithTable(k, table, rules);
    assert forall c :: Exists(k, c) ==> Exists(guarded, c) && Read(guarded, c) == Read(k, c);
    assert guarded.routes == k.routes;
  }

  /** Everything that `up` asks of a kernel that it has not touched. */
  predicate Suitable(k: Kernel, paths: Paths, i: Name, endpoint: Endpoint, lease: Lease) {
    ValidLease(lease) && lease.dns != Some(endpoint.ip) && Open(k, i, lease, 0) && EscapeOpen(k, paths, endpoint)
  }

  lemma {:induction false} EscapeOpenFacts(k: Kernel, s: State, paths: Paths, endpoint: Endpoint)
    ensures EscapeOpen(k, paths, endpoint) && s.interface.None? ==>
      && RoutesTo(k, FamilyOf(endpoint.ip), Host(endpoint.ip)) == {}
      && Host(endpoint.ip) in paths && Physical(k, s, paths[Host(endpoint.ip)].0)
    ensures EscapeOnly(k, k, endpoint)
  {
    EscapeGuarded(k, "", Rules(None, []), k, paths, endpoint);
  }

  lemma {:induction false} EscapeRecorded(k: Kernel, k': Kernel, a: Action, metric: nat, endpoint: Endpoint)
    requires a.RouteAction? && a.destination == Host(endpoint.ip) && Touches(k, k', RouteCell(RouteOf(a, metric)))
    ensures EscapeOnly(k, k', endpoint)
  {
    EscapeTouched(k, k', endpoint, RouteOf(a, metric));
  }

  ghost predicate EscapeLast(before: seq<Action>, after: seq<Action>) {
    |after| == |before| + 1 && after[..|before|] == before && after[|before|].RouteAction?
  }

  lemma {:induction false} EscapeAppended(before: seq<Action>, a: Action)
    requires a.RouteAction?
    ensures EscapeLast(before, before + [a])
  {
  }

  lemma {:induction false} EscapeAlone(after: seq<Action>)
    ensures after == [] || EscapeLast([], after) ==> |after| <= 1 && forall a :: a in after ==> a.RouteAction?
  {
  }

  /** No interface was ever claimed under this journal. */
  predicate Unclaimed(s: State) {
    s.interface.None? && FirstClaim(s.undo).None?
  }

  lemma {:induction false} RoutesClaimNothing(s: State)
    requires s.interface.None? && forall a :: a in s.undo ==> a.RouteAction?
    ensures Unclaimed(s)
  {
    NoClaim(s.undo);
  }

  lemma {:induction false} NoClaim(undo: seq<Action>)
    requires forall a :: a in undo ==> a.RouteAction?
    ensures FirstClaim(undo).None?
  {
    if undo != [] {
      assert undo[0] in undo;
      NoClaim(undo[1..]);
    }
  }

  lemma {:induction false} UnclaimedFacts(s: State)
    ensures Unclaimed(s) <==> s.interface.None? && FirstClaim(s.undo).None?
  {
  }

  lemma {:induction false} SuitableFacts(k: Kernel, paths: Paths, i: Name, endpoint: Endpoint, lease: Lease)
    ensures Suitable(k, paths, i, endpoint, lease) ==>
      ValidLease(lease) && lease.dns != Some(endpoint.ip) && Open(k, i, lease, 0) && EscapeOpen(k, paths, endpoint)
  {
  }

  /** The parts of Open that each stage consumes. */
  lemma {:induction false} OpenFacts(k: Kernel, i: Name, lease: Lease, stage: nat)
    ensures Open(k, i, lease, stage) ==>
      && IsTun(k, i) && i in k.links && lease.dns.Some?
      && (stage <= 0 ==> k.links[i].alias == "")
      && (stage <= 1 ==> k.links[i].addresses == {} && k.links[i].mtu <= 65535)
      && (stage <= 2 ==> RoutesTo(k, 4, LowHalf) == {})
      && (stage <= 3 ==> RoutesTo(k, 4, HighHalf) == {})
      && (stage <= 4 ==> RoutesTo(k, 4, Host(lease.dns.value)) == {})
      && (stage <= 5 ==> k.links[i].dns.servers == "" && k.links[i].dns.domains == "")
  {
  }

  lemma {:induction false} RoomLeft()
    ensures 10 < MAX_ACTIONS && 0 < MAX_ENDPOINTS
  {
  }

  /** Each step of `up` spares the stages after it. */
  lemma {:induction false} SparesUpOnly(i: Name, lease: Lease, metric: nat)
    requires lease.dns.Some?
    ensures Spares(AliasCell(i), lease, 1) && Spares(LinkCell(i), lease, 2)
    ensures Spares(AddressCell(i, lease.address), lease, 2)
    ensures Spares(RouteCell(RouteOf(RouteAction(Tunnel, i, 4, LowHalf, ""), metric)), lease, 3)
    ensures Spares(RouteCell(RouteOf(RouteAction(Tunnel, i, 4, HighHalf, ""), metric)), lease, 4)
    ensures Spares(RouteCell(RouteOf(RouteAction(DnsRoute, i, 4, Host(lease.dns.value), ""), metric)), lease, 5)
  {
  }

  lemma {:induction false} TunnelIsOnPath(paths: Paths, a: Action)
    requires a.RouteAction? && OnTunnel(a)
    ensures OnPath(paths, a)
  {
  }

  lemma {:induction false} OnPathIs(paths: Paths, a: Action)
    requires a.RouteAction? && a.kind == Escape
    ensures OnPath(paths, a) <==> a.destination in paths && paths[a.destination] == (a.link, a.gateway)
  {
  }

  /** The goals that the routes and the resolver add. */
  ghost function WithRoutes(goals: map<Cell, Value>, i: Name, lease: Lease, metric: nat): map<Cell, Value>
    requires lease.dns.Some?
  {
    goals
    [RouteCell(RouteOf(RouteAction(Tunnel, i, 4, LowHalf, ""), metric)) := Present(true)]
    [RouteCell(RouteOf(RouteAction(Tunnel, i, 4, HighHalf, ""), metric)) := Present(true)]
    [RouteCell(RouteOf(RouteAction(DnsRoute, i, 4, Host(lease.dns.value), ""), metric)) := Present(true)]
    [DnsCell(i) := Resolver(Dns(lease.dns.value, "~.", Some(true)))]
  }

  lemma {:induction false} WithRoutesIs(goals: map<Cell, Value>, i: Name, lease: Lease, metric: nat)
    requires lease.dns.Some?
    ensures WithRoutes(goals, i, lease, metric) == goals
      [RouteCell(RouteOf(RouteAction(Tunnel, i, 4, LowHalf, ""), metric)) := Present(true)]
      [RouteCell(RouteOf(RouteAction(Tunnel, i, 4, HighHalf, ""), metric)) := Present(true)]
      [RouteCell(RouteOf(RouteAction(DnsRoute, i, 4, Host(lease.dns.value), ""), metric)) := Present(true)]
      [DnsCell(i) := Resolver(Dns(lease.dns.value, "~.", Some(true)))]
  {
  }
}
