/**
 The undo journal of rust/porta-client/src/linux/network.rs: its actions, what
 undoing one does, and what it means for a journal to cover a kernel.
 */
module Journal {
  import opened Bytes
  import opened Kernel

  const ROUTE_PROTOCOL := 186
  const MAX_ENDPOINTS := 256
  const MAX_ACTIONS := 2048

  datatype RouteKind = Tunnel | DnsRoute | Escape

  datatype Action =
    | AliasAction(link: Name)
    | LinkAction(link: Name, mtu: nat, up: bool)
    | AddressAction(link: Name, address: string)
    | RouteAction(kind: RouteKind, link: Name, family: nat, destination: Destination, gateway: string)
    | DnsAction(link: Name)

  /** The journal's content; the default state of the source is None. */
  datatype State = State(table: string, metric: nat, interface: Option<Name>, endpoints: seq<Endpoint>,
                         undo: seq<Action>)

  function AliasOf(table: string): (r: string)
    ensures r != ""
  {
    "porta:" + table
  }

  function RouteOf(a: Action, metric: nat): Route
    requires a.RouteAction?
  {
    Route(a.family, a.destination, a.link, a.gateway, metric, ROUTE_PROTOCOL)
  }

  /** The cell an action restores. */
  function CellOf(a: Action, metric: nat): Cell {
    match a
    case AliasAction(i) => AliasCell(i)
    case LinkAction(i, _, _) => LinkCell(i)
    case AddressAction(i, address) => AddressCell(i, address)
    case RouteAction(_, _, _, _, _) => RouteCell(RouteOf(a, metric))
    case DnsAction(i) => DnsCell(i)
  }

  /** The value it restores. */
  function Original(a: Action): Value {
    match a
    case AliasAction(_) => Text("")
    case LinkAction(_, mtu, up) => Setting(mtu, up)
    case AddressAction(_, _) => Present(false)
    case RouteAction(_, _, _, _, _) => Present(false)
    case DnsAction(_) => Resolver(NO_DNS)
  }

  lemma {:induction false} OriginalFits(a: Action, metric: nat)
    ensures Fits(CellOf(a, metric), Original(a))
  {
  }

  /** Actions on the tunnel interface; escapes are on a physical one. */
  predicate OnTunnel(a: Action) {
    !(a.RouteAction? && a.kind == Escape)
  }

  predicate AliasOn(k: Kernel, i: Name, table: string) {
    i in k.links && k.links[i].alias == AliasOf(table)
  }

  /**
   The kernel after undoing `a`: the tunnel interface is found by its alias
   and nothing is done when no interface carries it.
   */
  function Undone(k: Kernel, table: string, metric: nat, a: Action): Kernel {
    OriginalFits(a, metric);
    if !Exists(k, CellOf(a, metric)) || (OnTunnel(a) && !AliasOn(k, a.link, table)) then k
    else Write(k, CellOf(a, metric), Original(a))
  }

  ghost function Cells(s: State): set<Cell> {
    set a | a in s.undo :: CellOf(a, s.metric)
  }

  // Coverage.

  /** A cell whose value is no longer the original one. */
  ghost predicate Changed(k0: Kernel, k: Kernel, c: Cell) {
    Exists(k0, c) && Exists(k, c) && Read(k, c) != Read(k0, c)
  }

  ghost predicate Restored(k0: Kernel, k: Kernel) {
    forall c :: !Changed(k0, k, c)
  }

  /** The tunnel interface that must carry the alias for the cell to be undone. */
  function Owner(k0: Kernel, c: Cell): Option<Name> {
    match c
    case AliasCell(_) => None
    case LinkCell(i) => Some(i)
    case AddressCell(i, _) => Some(i)
    case DnsCell(i) => Some(i)
    case RouteCell(r) => if r.device in k0.links && k0.links[r.device].tun then Some(r.device) else None
  }

  /** The checks of validate_action on routes. */
  predicate WellShaped(a: Action) {
    a.RouteAction? ==>
      match a.kind
      case Tunnel => a.destination in {LowHalf, HighHalf} && a.family == 4 && a.gateway == ""
      case DnsRoute => a.destination.Host? && a.family == 4 && a.gateway == ""
      case Escape => a.destination.Host? && a.family == FamilyOf(a.destination.ip)
  }

  /** The action restores the original value of an existing cell. */
  ghost predicate Honest(k0: Kernel, a: Action, metric: nat) {
    && Exists(k0, CellOf(a, metric))
    && a.link in k0.links && (k0.links[a.link].tun <==> OnTunnel(a))
    && Read(k0, CellOf(a, metric)) == Original(a)
    && (a.LinkAction? ==> 68 <= a.mtu <= 65535 && k0.links[a.link].addresses == {})
    && WellShaped(a)
    && (a.RouteAction? ==> RoutesTo(k0, a.family, a.destination) == {})
  }

  function Tunnels(undo: seq<Action>): (r: seq<Action>)
    ensures forall a :: a in r <==> a in undo && OnTunnel(a)
  {
    if undo == [] then []
    else
      var last := undo[|undo| - 1];
      Tunnels(undo[..|undo| - 1]) + if OnTunnel(last) then [last] else []
  }

  /** The tunnel actions are on one interface and start with its alias. */
  ghost predicate AliasFirst(tunnels: seq<Action>, interface: Option<Name>) {
    tunnels != [] ==>
      && tunnels[0].AliasAction?
      && (interface.Some? ==> interface.value == tunnels[0].link)
      && forall p :: 0 < p < |tunnels| ==> !tunnels[p].AliasAction? && tunnels[p].link == tunnels[0].link
  }

  predicate IsHex(c: char) {
    '0' <= c <= '9' || 'a' <= c <= 'f'
  }

  /** The table name and route metric of a journal. */
  predicate GoodName(table: string, metric: nat) {
    && |table| == 22 && table[..6] == "porta_" && (forall i :: 6 <= i < 22 ==> IsHex(table[i]))
    && 40_000 <= metric <= 50_000
  }

  /** The checks of validate_state on the header; Honest carries those on actions. */
  predicate Bounded(s: State) {
    GoodName(s.table, s.metric) && |s.endpoints| <= MAX_ENDPOINTS && |s.undo| <= MAX_ACTIONS
  }

  /** The journal by itself is sound for the original kernel. */
  ghost predicate Sound(k0: Kernel, s: State) {
    && Bounded(s)
    && (forall a :: a in s.undo ==> Honest(k0, a, s.metric))
    && AliasFirst(Tunnels(s.undo), s.interface)
    && s.table !in k0.tables
    && (forall i :: i in k0.links ==> k0.links[i].alias != AliasOf(s.table))
  }

  /** Only the guard table of this journal differs, and it stands while any change does. */
  ghost predicate Guarded(k0: Kernel, k: Kernel, table: string) {
    && k.tables - {table} == k0.tables - {table}
    && (table !in k.tables ==> Restored(k0, k))
  }

  /** Every change is listed, can still be found by its alias, and is guarded. */
  ghost predicate Covers(k0: Kernel, k: Kernel, s: State) {
    && SameShape(k0, k)
    && Sound(k0, s)
    && Guarded(k0, k, s.table)
    && (forall c :: Changed(k0, k, c) ==> c in Cells(s))
    && (forall c :: Changed(k0, k, c) && Owner(k0, c).Some? ==> AliasOn(k, Owner(k0, c).value, s.table))
    && (forall i :: Changed(k0, k, AliasCell(i)) ==> AliasOn(k, i, s.table))
  }

  /** Nothing differs from the original. */
  ghost predicate Pristine(k0: Kernel, k: Kernel) {
    SameShape(k0, k) && Restored(k0, k) && k.tables == k0.tables
  }

  /** A journal, or its absence, suffices to restore the kernel. */
  ghost predicate Recoverable(k0: Kernel, k: Kernel, journal: Option<State>) {
    match journal
    case None => Pristine(k0, k)
    case Some(s) => Covers(k0, k, s)
  }

  lemma {:induction false} PristineIsOriginal(k0: Kernel, k: Kernel)
    requires Pristine(k0, k)
    ensures k == k0
  {
    hide Read;
    forall c | Exists(k0, c)
      ensures Read(k, c) == Read(k0, c)
    {
      assert !Changed(k0, k, c);
    }
    ReadAll(k0, k);
  }

  // One kernel step.

  /** `k'` differs from `k` in cell `c` at most. */
  ghost predicate Touches(k: Kernel, k': Kernel, c: Cell) {
    && SameShape(k, k') && k'.tables == k.tables
    && forall d :: d != c && Exists(k, d) ==> Read(k', d) == Read(k, d)
  }

  lemma {:induction false} WriteTouches(k: Kernel, c: Cell, v: Value)
    requires Exists(k, c) && Fits(c, v)
    ensures Touches(k, Write(k, c, v), c) && Read(Write(k, c, v), c) == v
  {
    hide Write, Read;
    WriteShape(k, c, v);
    forall d | d != c && Exists(k, d)
      ensures Read(Write(k, c, v), d) == Read(k, d)
    {
      WriteElsewhere(k, c, v, d);
    }
  }

  lemma {:induction false} TouchedChanges(k0: Kernel, k: Kernel, k': Kernel, c: Cell, d: Cell)
    requires SameShape(k0, k) && Touches(k, k', c) && d != c
    ensures Changed(k0, k', d) <==> Changed(k0, k, d)
    ensures d.AliasCell? && d.link in k.links ==> d.link in k'.links && k'.links[d.link].alias == k.links[d.link].alias
  {
    if d.AliasCell? && d.link in k.links {
      assert Read(k', d) == Read(k, d);
    } else {
      hide Read;
    }
  }

  lemma {:induction false} AliasSame(k0: Kernel, k: Kernel, k': Kernel, c: Cell, i: Name, table: string)
    requires SameShape(k0, k) && Touches(k, k', c) && c != AliasCell(i)
    ensures AliasOn(k', i, table) <==> AliasOn(k, i, table)
  {
    hide Touches;
    TouchedChanges(k0, k, k', c, AliasCell(i));
    assert i in k.links <==> i in k'.links by { assert Touches(k, k', c); ShapeOf(k, k', c); }
  }

  lemma {:induction false} ShapeOf(k: Kernel, k': Kernel, c: Cell)
    requires Touches(k, k', c)
    ensures SameShape(k, k') && k'.tables == k.tables && k'.links.Keys == k.links.Keys
  {
  }

  lemma {:induction false} ShapeTrans(a: Kernel, b: Kernel, c: Kernel)
    requires SameShape(a, b) && SameShape(b, c)
    ensures SameShape(a, c)
  {
  }

  /** A change that the journal lists, under the guard and the alias, stays covered. */
  lemma {:induction false} ChangeKeeps(k0: Kernel, k: Kernel, k': Kernel, s: State, c: Cell)
    requires Covers(k0, k, s) && Touches(k, k', c) && c in Cells(s) && s.table in k.tables
    requires Owner(k0, c).Some? ==> AliasOn(k, Owner(k0, c).value, s.table)
    requires c.AliasCell? ==> AliasOn(k', c.link, s.table)
    ensures Covers(k0, k', s)
  {
    hide Sound, Read, Cells, Touches, SameShape, AliasOn, Changed;
    ShapeOf(k, k', c);
    ShapeTrans(k0, k, k');
    forall d | Changed(k0, k', d)
      ensures d in Cells(s)
      ensures Owner(k0, d).Some? ==> AliasOn(k', Owner(k0, d).value, s.table)
      ensures d.AliasCell? ==> AliasOn(k', d.link, s.table)
    {
      if d != c {
        TouchedChanges(k0, k, k', c, d);
      }
      if Owner(k0, d).Some? && c != AliasCell(Owner(k0, d).value) {
        AliasSame(k0, k, k', c, Owner(k0, d).value, s.table);
      }
      if d.AliasCell? && d != c {
        assert d == AliasCell(d.link);
        AliasSame(k0, k, k', c, d.link, s.table);
      }
    }
    forall i | Changed(k0, k', AliasCell(i))
      ensures AliasOn(k', i, s.table)
    {
      assert AliasCell(i).link == i;
    }
  }

  /** Putting a cell back never hurts, except the alias while it is still needed. */
  lemma {:induction false} RestoreKeeps(k0: Kernel, k: Kernel, k': Kernel, s: State, c: Cell)
    requires Covers(k0, k, s) && Touches(k, k', c) && !Changed(k0, k', c)
    requires c.AliasCell? ==> forall d :: Changed(k0, k, d) ==> Owner(k0, d) != Some(c.link)
    ensures Covers(k0, k', s)
    ensures forall d :: Changed(k0, k', d) <==> Changed(k0, k, d) && d != c
  {
    hide Sound, Read, Cells, Touches, SameShape, AliasOn, Changed;
    ShapeOf(k, k', c);
    ShapeTrans(k0, k, k');
    forall d
      ensures Changed(k0, k', d) <==> Changed(k0, k, d) && d != c
    {
      if d != c {
        TouchedChanges(k0, k, k', c, d);
      }
    }
    forall d | Changed(k0, k', d)
      ensures Owner(k0, d).Some? ==> AliasOn(k', Owner(k0, d).value, s.table)
    {
      if Owner(k0, d).Some? {
        assert c != AliasCell(Owner(k0, d).value);
        AliasSame(k0, k, k', c, Owner(k0, d).value, s.table);
      }
    }
    forall i | Changed(k0, k', AliasCell(i))
      ensures AliasOn(k', i, s.table)
    {
      AliasSame(k0, k, k', c, i, s.table);
    }
  }

  // Undoing an action.

  /** The cells of honest tunnel actions belong to the tunnel interface. */
  lemma {:induction false} HonestOwner(k0: Kernel, a: Action, metric: nat)
    requires Honest(k0, a, metric) && !a.AliasAction?
    ensures Owner(k0, CellOf(a, metric)) == if OnTunnel(a) then Some(a.link) else None
  {
  }

  /** Undoing a listed action leaves its cell, and no other, with the original value. */
  lemma {:induction false} UndoneRestores(k0: Kernel, k: Kernel, s: State, a: Action)
    requires Covers(k0, k, s) && a in s.undo
    ensures var k' := Undone(k, s.table, s.metric, a);
      && Touches(k, k', CellOf(a, s.metric))
      && !Changed(k0, k', CellOf(a, s.metric))
      && (k' != k ==> Exists(k, CellOf(a, s.metric)))
  {
    hide Write, Read, Cells;
    var c := CellOf(a, s.metric);
    OriginalFits(a, s.metric);
    assert Honest(k0, a, s.metric);
    assert Exists(k, c);
    if OnTunnel(a) && !AliasOn(k, a.link, s.table) {
      if a.AliasAction? {
        assert c == AliasCell(a.link);
      } else {
        HonestOwner(k0, a, s.metric);
      }
    } else {
      WriteTouches(k, c, Original(a));
    }
  }

  lemma {:induction false} TunnelsConcat(x: seq<Action>, y: seq<Action>)
    ensures Tunnels(x + y) == Tunnels(x) + Tunnels(y)
    decreases |y|
  {
    if y == [] {
      assert x + y == x;
    } else {
      var last := |y| - 1;
      assert (x + y)[..|x + y| - 1] == x + y[..last];
      TunnelsConcat(x, y[..last]);
    }
  }

  lemma {:induction false} TunnelsAround(undo: seq<Action>, p: nat)
    requires p < |undo|
    ensures Tunnels(undo)
            == Tunnels(undo[..p]) + (if OnTunnel(undo[p]) then [undo[p]] else []) + Tunnels(undo[p + 1..])
    ensures Tunnels(undo[..p] + undo[p + 1..]) == Tunnels(undo[..p]) + Tunnels(undo[p + 1..])
  {
    assert undo == undo[..p + 1] + undo[p + 1..];
    TunnelsConcat(undo[..p + 1], undo[p + 1..]);
    TunnelsConcat(undo[..p], undo[p + 1..]);
    assert undo[..p + 1][..p] == undo[..p];
  }

  function Without(undo: seq<Action>, p: nat): seq<Action>
    requires p < |undo|
  {
    undo[..p] + undo[p + 1..]
  }

  /** An alias may go once no tunnel action follows it. */
  ghost predicate MayUndo(undo: seq<Action>, p: nat)
    requires p < |undo|
  {
    undo[p].AliasAction? ==> Tunnels(undo[p + 1..]) == []
  }

  lemma {:induction false} LastAlias(s: State, p: nat, k0: Kernel)
    requires Sound(k0, s) && p < |s.undo| && MayUndo(s.undo, p) && s.undo[p].AliasAction?
    ensures Tunnels(s.undo) == [s.undo[p]]
  {
    hide Honest;
    TunnelsAround(s.undo, p);
    assert Tunnels(s.undo)[|Tunnels(s.undo[..p])|] == s.undo[p];
  }

  /** When the alias is undone nothing found through it is still changed. */
  lemma {:induction false} AliasNotNeeded(k0: Kernel, k: Kernel, s: State, p: nat)
    requires Covers(k0, k, s) && p < |s.undo| && MayUndo(s.undo, p) && s.undo[p].AliasAction?
    ensures forall d :: Changed(k0, k, d) ==> Owner(k0, d) != Some(s.undo[p].link)
  {
    hide Changed;
    LastAlias(s, p, k0);
    forall d | Changed(k0, k, d)
      ensures Owner(k0, d) != Some(s.undo[p].link)
    {
      assert d in Cells(s);
      var b :| b in s.undo && CellOf(b, s.metric) == d;
      assert Honest(k0, b, s.metric);
      if OnTunnel(b) {
        assert b in Tunnels(s.undo);
      } else {
        HonestOwner(k0, b, s.metric);
      }
    }
  }

  lemma {:induction false} AliasFirstWithout(undo: seq<Action>, p: nat, interface: Option<Name>)
    requires p < |undo| && AliasFirst(Tunnels(undo), interface) && MayUndo(undo, p)
    ensures AliasFirst(Tunnels(Without(undo, p)), interface)
  {
    TunnelsAround(undo, p);
    hide Tunnels;
    DropKeepsFirst(Tunnels(undo[..p]), undo[p], Tunnels(undo[p + 1..]), interface);
  }

  lemma {:induction false} DropKeepsFirst(x: seq<Action>, a: Action, y: seq<Action>, interface: Option<Name>)
    requires AliasFirst(x + (if OnTunnel(a) then [a] else []) + y, interface)
    requires a.AliasAction? ==> y == []
    ensures AliasFirst(x + y, interface)
  {
    if OnTunnel(a) {
      var all := x + [a] + y;
      assert all[|x|] == a;
      assert forall q :: 0 <= q < |x| ==> all[q] == x[q];
      assert forall q :: 0 <= q < |y| ==> all[|x| + 1 + q] == y[q];
    } else {
      assert x + [] + y == x + y;
    }
  }

  /** A listed cell that has been restored needs its action no more. */
  lemma {:induction false} RemoveKeeps(k0: Kernel, k: Kernel, s: State, p: nat)
    requires Covers(k0, k, s) && p < |s.undo| && MayUndo(s.undo, p)
    requires !Changed(k0, k, CellOf(s.undo[p], s.metric))
    ensures Covers(k0, k, s.(undo := Without(s.undo, p)))
  {
    hide Changed, Honest, AliasFirst, Tunnels, MayUndo, AliasOn;
    var s' := s.(undo := Without(s.undo, p));
    AliasFirstWithout(s.undo, p, s.interface);
    forall a | a in s'.undo
      ensures Honest(k0, a, s.metric)
    {
      assert a in s.undo;
    }
    forall c | Changed(k0, k, c)
      ensures c in Cells(s')
    {
      assert c in Cells(s);
      var a :| a in s.undo && CellOf(a, s.metric) == c;
      var q :| 0 <= q < |s.undo| && s.undo[q] == a;
      assert q != p;
      assert a == if q < p then s'.undo[q] else s'.undo[q - 1];
    }
  }

  lemma {:induction false} AppendKeeps(k0: Kernel, k: Kernel, s: State, a: Action)
    requires Covers(k0, k, s) && Honest(k0, a, s.metric) && |s.undo| < MAX_ACTIONS
    requires AliasFirst(Tunnels(s.undo + [a]), s.interface)
    ensures Covers(k0, k, s.(undo := s.undo + [a]))
    ensures Cells(s.(undo := s.undo + [a])) == Cells(s) + {CellOf(a, s.metric)}
  {
    hide Changed, Honest, AliasFirst, Tunnels, AliasOn;
  }

  lemma {:induction false} HeaderKeeps(k0: Kernel, k: Kernel, s: State, interface: Option<Name>,
                                       endpoints: seq<Endpoint>)
    requires Covers(k0, k, s) && |endpoints| <= MAX_ENDPOINTS && AliasFirst(Tunnels(s.undo), interface)
    ensures Covers(k0, k, s.(interface := interface, endpoints := endpoints))
    ensures Cells(s.(interface := interface, endpoints := endpoints)) == Cells(s)
  {
    hide Changed, Honest, AliasFirst, Tunnels, AliasOn;
  }

  // The guard table.

  function WithTable(k: Kernel, table: string, rules: Rules): Kernel {
    k.(tables := k.tables[table := rules])
  }

  function WithoutTable(k: Kernel, table: string): Kernel {
    k.(tables := k.tables - {table})
  }

  lemma {:induction false} TablesOnly(k0: Kernel, k: Kernel, tables: map<string, Rules>, c: Cell)
    ensures Changed(k0, k.(tables := tables), c) <==> Changed(k0, k, c)
  {
  }

  lemma {:induction false} GuardKeeps(k0: Kernel, k: Kernel, s: State, rules: Rules)
    requires Covers(k0, k, s)
    ensures Covers(k0, WithTable(k, s.table, rules), s)
  {
    hide Changed, Sound, Cells;
    forall c ensures Changed(k0, WithTable(k, s.table, rules), c) <==> Changed(k0, k, c) {
      TablesOnly(k0, k, k.tables[s.table := rules], c);
    }
    assert WithTable(k, s.table, rules).tables - {s.table} == k.tables - {s.table};
  }

  /** With everything restored the guard table of any journal may go. */
  lemma {:induction false} UnguardKeeps(k0: Kernel, k: Kernel, s: State, table: string)
    requires Covers(k0, k, s) && Restored(k0, k) && table !in k0.tables
    ensures Covers(k0, WithoutTable(k, table), s)
  {
    hide Changed, Sound, Cells;
    var k' := WithoutTable(k, table);
    forall c ensures Changed(k0, k', c) <==> Changed(k0, k, c) {
      TablesOnly(k0, k, k.tables - {table}, c);
    }
    assert k'.tables - {s.table} == (k.tables - {s.table}) - {table};
    assert (k0.tables - {s.table}) - {table} == k0.tables - {s.table};
  }

  lemma {:induction false} UnguardedIsPristine(k0: Kernel, k: Kernel, s: State)
    requires Covers(k0, k, s) && Restored(k0, k)
    ensures Pristine(k0, WithoutTable(k, s.table))
  {
    hide Changed, Cells;
    var k' := WithoutTable(k, s.table);
    forall c ensures !Changed(k0, k', c) {
      TablesOnly(k0, k, k.tables - {s.table}, c);
    }
    assert k'.tables == k.tables - {s.table} == k0.tables - {s.table} == k0.tables;
  }

  /** An exhausted journal covers only a restored kernel. */
  lemma {:induction false} EmptyMeansRestored(k0: Kernel, k: Kernel, s: State)
    requires Covers(k0, k, s) && s.undo == []
    ensures Restored(k0, k)
  {
    hide Changed;
    assert Cells(s) == {};
  }

  lemma {:induction false} FreshJournal(k0: Kernel, k: Kernel, table: string, metric: nat)
    requires Pristine(k0, k) && table !in k0.tables && GoodName(table, metric)
    requires forall i :: i in k0.links ==> k0.links[i].alias != AliasOf(table)
    ensures Covers(k0, k, State(table, metric, None, [], []))
  {
    hide Changed;
  }

  // Whole recovery, on values: what `down` does to the kernel when nothing fails.

  /** The kernel after undoing every action, the last first. */
  function UndoneAll(k: Kernel, s: State): Kernel
    decreases |s.undo|
  {
    if s.undo == [] then k
    else
      var last := |s.undo| - 1;
      UndoneAll(Undone(k, s.table, s.metric, s.undo[last]), s.(undo := s.undo[..last]))
  }

  /**
   A journal that covers a kernel restores it: undoing its actions in reverse
   and dropping the guard table gives back the original kernel.
   */
  lemma {:induction false} CoveredIsRestored(k0: Kernel, k: Kernel, s: State)
    requires Covers(k0, k, s)
    ensures WithoutTable(UndoneAll(k, s), s.table) == k0
    decreases |s.undo|
  {
    hide Covers, Undone, Pristine, WithoutTable, Restored, Changed, Owner, MayUndo, Touches;
    if s.undo == [] {
      EmptyMeansRestored(k0, k, s);
      UnguardedIsPristine(k0, k, s);
      PristineIsOriginal(k0, WithoutTable(k, s.table));
    } else {
      var last := |s.undo| - 1;
      var a := s.undo[last];
      LastMayUndo(s.undo);
      UndoAt(k0, k, s, last);
      assert Without(s.undo, last) == s.undo[..last];
      CoveredIsRestored(k0, Undone(k, s.table, s.metric, a), s.(undo := s.undo[..last]));
    }
  }

  lemma {:induction false} LastMayUndo(undo: seq<Action>)
    requires undo != []
    ensures MayUndo(undo, |undo| - 1)
  {
    assert undo[|undo| - 1 + 1..] == [];
  }

  /** One undo step keeps every journal that covers the kernel, and the shortened one too. */
  lemma {:induction false} UndoAt(k0: Kernel, k: Kernel, s: State, p: nat)
    requires Covers(k0, k, s) && p < |s.undo| && MayUndo(s.undo, p)
    ensures var k' := Undone(k, s.table, s.metric, s.undo[p]);
      && Covers(k0, k', s)
      && Covers(k0, k', s.(undo := Without(s.undo, p)))
      && Touches(k, k', CellOf(s.undo[p], s.metric))
  {
    hide Covers, Undone, Changed, Owner, Touches, MayUndo;
    var a := s.undo[p];
    var c := CellOf(a, s.metric);
    var k' := Undone(k, s.table, s.metric, a);
    UndoneRestores(k0, k, s, a);
    if c.AliasCell? {
      AliasNotNeeded(k0, k, s, p);
    }
    RestoreKeeps(k0, k, k', s, c);
    RemoveKeeps(k0, k', s, p);
  }

  lemma {:induction false} UndoKeepsOther(k0: Kernel, k: Kernel, s: State, p: nat, other: State)
    requires Covers(k0, k, s) && p < |s.undo| && MayUndo(s.undo, p) && Covers(k0, k, other)
    ensures Covers(k0, Undone(k, s.table, s.metric, s.undo[p]), other)
  {
    hide Covers, Undone, Changed, Owner, Touches, MayUndo;
    var c := CellOf(s.undo[p], s.metric);
    UndoneRestores(k0, k, s, s.undo[p]);
    if c.AliasCell? {
      AliasNotNeeded(k0, k, s, p);
    }
    RestoreKeeps(k0, k, Undone(k, s.table, s.metric, s.undo[p]), other, c);
  }

  lemma {:induction false} UndoKeepsPristine(k0: Kernel, k: Kernel, s: State, a: Action)
    requires Covers(k0, k, s) && a in s.undo && Pristine(k0, k)
    ensures Undone(k, s.table, s.metric, a) == k
  {
    hide Read, Covers, Undone;
    UndoneRestores(k0, k, s, a);
    var k' := Undone(k, s.table, s.metric, a);
    var c := CellOf(a, s.metric);
    forall d | Exists(k, d)
      ensures Read(k', d) == Read(k, d)
    {
      assert !Changed(k0, k, d) && !Changed(k0, k', c);
    }
    ReadAll(k, k');
  }
}
