/**
 NetworkManager of rust/porta-client/src/linux/network.rs: `prepare`, `up` and
 `down` over a kernel and a journal file. Every command and every write of the
 journal may fail before or after it takes effect. Stopping the process
 between two effects leaves the kernel and the file as a failure of the
 second effect before it takes effect would, so what holds at every exit
 holds at every crash.
 */
module NetworkManager {
  import opened Bytes
  import opened Kernel
  import opened Journal
  import opened NetworkFacts

  /** The machine: a kernel and a journal file, both able to fail either way, unless it is reliable. */
  class Machine {
    const reliable: bool
    /** Whether the path to a host stays what it is in `paths`. */
    const stable: bool
    const paths: Paths
    var kernel: Kernel
    var disk: Option<State>
    ghost var deletions: nat
    ghost const origin: Kernel

    method Query() returns (ok: bool)
      ensures reliable ==> ok
    {
      ok := *;
      ok := ok || reliable;
    }

    /** Asks for the physical hop towards a host, which may be another one each time. */
    method Path(destination: Destination) returns (hop: Via)
      ensures stable ==> hop == if destination in paths then Some(paths[destination]) else None
    {
      hop := *;
      if stable {
        hop := if destination in paths then Some(paths[destination]) else None;
      }
    }

    /** A mutating command whose effect is `next`. */
    method Run(next: Kernel) returns (ok: bool)
      modifies this`kernel
      ensures kernel == old(kernel) || kernel == next
      ensures ok ==> kernel == next
      ensures reliable ==> ok
    {
      ok := *;
      ok := ok || reliable;
      var applied: bool := *;
      if ok || applied {
        kernel := next;
      }
    }

    method DeleteTable(table: string) returns (ok: bool)
      modifies this`kernel, this`deletions
      ensures kernel == old(kernel) || kernel == WithoutTable(old(kernel), table)
      ensures ok ==> kernel == WithoutTable(old(kernel), table)
      ensures reliable ==> ok
    {
      ok := Run(WithoutTable(kernel, table));
      deletions := deletions + 1;
    }

    /** Writes a sibling file and renames it over the journal. */
    method Persist(s: State) returns (ok: bool)
      modifies this`disk
      ensures disk == old(disk) || disk == Some(s)
      ensures ok ==> disk == Some(s)
      ensures reliable ==> ok
    {
      ok := *;
      ok := ok || reliable;
      var renamed: bool := *;
      if ok || renamed {
        disk := Some(s);
      }
    }

    method RemoveJournal() returns (ok: bool)
      modifies this`disk
      ensures disk == old(disk) || disk == None
      ensures ok ==> disk == None
      ensures reliable ==> ok
    {
      ok := *;
      ok := ok || reliable;
      var removed: bool := *;
      if ok || removed {
        disk := None;
      }
    }
  }

  class NetworkManager {
    const machine: Machine
    var state: Option<State>
    /** A name and metric whose survival is observed. */
    ghost const name: (string, nat)

    /** Memory suffices to restore the kernel. This never fails. */
    ghost predicate Valid()
      reads this, machine
    {
      GoodOrigin(machine.origin) && Recoverable(machine.origin, machine.kernel, state)
    }

    /** The journal file suffices to restore the kernel. */
    ghost predicate Safe()
      reads this, machine
    {
      Recoverable(machine.origin, machine.kernel, machine.disk)
    }

    /** Safe, and what memory lists the file lists too. */
    ghost predicate Ready()
      reads this, machine
    {
      Safe() && NotBehind(state, machine.disk)
    }

    /** Memory and file, if present, have the observed name, and their escapes follow stable paths. */
    ghost predicate Aligned()
      reads this`state, machine`disk
    {
      && AlignedTo(machine.paths, machine.stable, name, state)
      && AlignedTo(machine.paths, machine.stable, name, machine.disk)
    }

    /** Opening a journal that this module wrote. */
    constructor (machine: Machine, ghost name: (string, nat))
      requires GoodOrigin(machine.origin) && Recoverable(machine.origin, machine.kernel, machine.disk)
      ensures this.machine == machine && state == machine.disk && this.name == name
      ensures Valid() && Ready()
      ensures Aligned() <==> AlignedTo(machine.paths, machine.stable, name, machine.disk)
    {
      this.machine := machine;
      this.name := name;
      this.state := machine.disk;
    }

    /** Writes memory to the journal file. Success makes the manager ready again. */
    method Persist() returns (ok: bool)
      requires Valid() && state.Some?
      modifies machine`disk
      ensures machine.disk == old(machine.disk) || machine.disk == state
      ensures ok ==> Ready()
      ensures old(Safe()) ==> Safe()
      ensures Valid()
      ensures old(Aligned()) ==> Aligned()
      ensures machine.reliable ==> ok
    {
      ok := machine.Persist(state.value);
    }

    /** Lists an action before it is carried out. */
    method Record(a: Action) returns (ok: bool)
      requires Valid() && state.Some?
      requires Honest(machine.origin, a, state.value.metric)
      requires AliasFirst(Tunnels(state.value.undo + [a]), state.value.interface)
      modifies this`state, machine`disk
      ensures Valid() && state.Some?
      ensures state == if ok then Some(old(state.value).(undo := old(state.value.undo) + [a])) else old(state)
      ensures old(Safe()) ==> Safe()
      ensures old(Ready()) ==> Ready()
      ensures ok ==> Ready() && CellOf(a, state.value.metric) in Cells(state.value)
      ensures old(Aligned()) && (machine.stable ==> OnPath(machine.paths, a)) ==> Aligned()
      ensures machine.reliable && |old(state).value.undo| < MAX_ACTIONS ==> ok
    {
      hide Covers, Tunnels, AliasFirst, Honest, CellOf, Cells;
      if |state.value.undo| >= MAX_ACTIONS {
        return false;
      }
      var before := state;
      AppendKeeps(machine.origin, machine.kernel, state.value, a);
      state := Some(before.value.(undo := before.value.undo + [a]));
      ok := Persist();
      if !ok {
        state := before;
      }
    }

    /** A command that changes one listed cell, under the guard. */
    method Change(c: Cell, v: Value) returns (ok: bool)
      requires Valid() && state.Some? && Exists(machine.kernel, c) && Fits(c, v)
      requires c in Cells(state.value) && state.value.table in machine.kernel.tables
      requires Owner(machine.origin, c).Some? ==>
        AliasOn(machine.kernel, Owner(machine.origin, c).value, state.value.table)
      requires c.AliasCell? ==> v == Text(AliasOf(state.value.table))
      modifies machine`kernel
      ensures Valid()
      ensures machine.kernel == old(machine.kernel) || machine.kernel == Write(old(machine.kernel), c, v)
      ensures ok ==> machine.kernel == Write(old(machine.kernel), c, v)
      ensures Touches(old(machine.kernel), machine.kernel, c)
      ensures ok ==> Reads(machine.kernel, c, v)
      ensures old(Ready()) ==> Ready()
      ensures machine.reliable ==> ok
    {
      hide Covers, Write, Read, Cells, Touches, Fits, Owner, Exists, Pristine, AliasOn;
      var next := Write(machine.kernel, c, v);
      ChangeIsCovered(machine.origin, machine.kernel, state.value, c, v);
      if Ready() {
        ChangeIsCovered(machine.origin, machine.kernel, machine.disk.value, c, v);
      }
      NothingTouched(machine.kernel, c);
      WriteTouches(machine.kernel, c, v);
      WriteReads(machine.kernel, c, v);
      ok := machine.Run(next);
    }

    /** Installs or refreshes the guard table. */
    method Protect() returns (ok: bool)
      requires Valid() && state.Some?
      modifies machine`kernel
      ensures Valid()
      ensures old(Ready()) ==> Ready()
      ensures machine.kernel in {old(machine.kernel), Protected(old(machine.kernel), state.value)}
      ensures ok ==> machine.kernel == Protected(old(machine.kernel), state.value)
      ensures machine.reliable ==> ok
    {
      hide Covers, WithTable, GuardRules;
      ok := machine.Query();
      if !ok {
        return;
      }
      var rules := GuardRules(machine.kernel, state.value);
      GuardKeeps(machine.origin, machine.kernel, state.value, rules);
      if Ready() {
        GuardKeeps(machine.origin, machine.kernel, machine.disk.value, rules);
      }
      ok := machine.Run(WithTable(machine.kernel, state.value.table, rules));
    }

    /** Undoes the action at `p`. */
    method Undo(p: nat) returns (ok: bool)
      requires Valid() && state.Some? && p < |state.value.undo| && MayUndo(state.value.undo, p)
      modifies machine`kernel
      ensures Valid()
      ensures old(Safe()) ==> Safe()
      ensures ok ==>
        machine.kernel == Undone(old(machine.kernel), state.value.table, state.value.metric, state.value.undo[p])
      ensures Touches(old(machine.kernel), machine.kernel, CellOf(state.value.undo[p], state.value.metric))
      ensures machine.reliable ==> ok
    {
      hide Covers, Undone, MayUndo, Touches, CellOf, Pristine;
      ghost var k := machine.kernel;
      var a := state.value.undo[p];
      UndoAt(machine.origin, k, state.value, p);
      NothingTouched(k, CellOf(a, state.value.metric));
      if Safe() {
        if machine.disk.Some? {
          UndoKeepsOther(machine.origin, k, state.value, p, machine.disk.value);
        } else {
          UndoKeepsPristine(machine.origin, k, state.value, a);
        }
      }
      ok := machine.Query();
      if ok {
        ok := machine.Run(Undone(machine.kernel, state.value.table, state.value.metric, a));
      }
    }

    /** Undoes the action at `p`, drops it from memory and rewrites the journal. */
    method UndoAndDrop(p: nat) returns (ok: bool)
      requires Valid() && state.Some? && p < |state.value.undo| && MayUndo(state.value.undo, p)
      modifies this`state, machine`kernel, machine`disk
      ensures Valid() && state.Some?
      ensures state == if ok then Some(old(state.value).(undo := Without(old(state.value.undo), p))) else old(state)
      ensures !ok && machine.disk != old(machine.disk) ==>
        machine.disk.Some? && FailedDrop(old(machine.kernel), state.value, p, machine.kernel, machine.disk.value)
      ensures old(Safe()) ==> Safe()
      ensures ok ==> Ready()
      ensures Touches(old(machine.kernel), machine.kernel, CellOf(old(state).value.undo[p], old(state).value.metric))
      ensures old(Aligned()) ==> Aligned()
      ensures machine.reliable ==> ok
    {
      hide Covers, Undone, MayUndo, Touches, CellOf, Pristine, Cells;
      UndoAt(machine.origin, machine.kernel, state.value, p);
      ok := Undo(p);
      if !ok {
        return;
      }
      var previous := state;
      state := Some(previous.value.(undo := Without(previous.value.undo, p)));
      ok := Persist();
      if !ok {
        state := previous;
      }
    }

    /**
     Undoes and drops the wanted actions, the last first, rewriting the journal
     after each. An alias may be wanted only together with every tunnel action.
     */
    method CleanupMatching(wanted: Action -> bool) returns (ok: bool)
      requires Valid()
      requires state.Some? ==> AliasWithAll(state.value.undo, wanted)
      modifies this`state, machine`kernel, machine`disk
      ensures Valid() && (state.Some? <==> old(state).Some?)
      ensures old(Safe()) ==> Safe()
      ensures ok && old(Ready()) ==> Ready()
      ensures state.Some? ==>
        && state.value == old(state).value.(undo := state.value.undo)
        && Kept(old(state).value.undo, state.value.undo, wanted)
        && (ok ==> forall a :: a in state.value.undo ==> !wanted(a))
        && machine.kernel.tables == old(machine.kernel).tables
        && UntouchedBut(old(machine.kernel), machine.kernel, old(state).value, wanted)
      ensures state.None? ==> ok && machine.kernel == old(machine.kernel) && machine.disk == old(machine.disk)
      ensures old(Aligned()) ==> Aligned()
      ensures machine.reliable ==> ok
    {
      hide *;
      if state.None? {
        return true;
      }
      var index := |state.value.undo|;
      CleanupStarts(machine.kernel, state.value, wanted);
      while index > 0
        invariant state.Some? && 0 <= index <= |state.value.undo|
        invariant Valid() && (old(Safe()) ==> Safe()) && (old(Ready()) ==> Ready())
        invariant state.value == old(state).value.(undo := state.value.undo)
        invariant AliasWithAll(state.value.undo, wanted)
        invariant Kept(old(state).value.undo, state.value.undo, wanted)
        invariant forall q :: index <= q < |state.value.undo| ==> !wanted(state.value.undo[q])
        invariant machine.kernel.tables == old(machine.kernel).tables && (old(Aligned()) ==> Aligned())
        invariant UntouchedBut(old(machine.kernel), machine.kernel, old(state).value, wanted)
      {
        index := index - 1;
        var a := state.value.undo[index];
        if !wanted(a) {
          continue;
        }
        ghost var k, undo := machine.kernel, state.value.undo;
        WantedMayUndo(undo, index, wanted);
        WithoutMembers(undo, index, wanted, old(state).value.undo);
        ok := UndoAndDrop(index);
        UntouchedStep(old(machine.kernel), k, machine.kernel, old(state).value, wanted, a);
        if !ok {
          return;
        }
      }
      return true;
    }

    lemma {:induction false} Known()
      requires Valid()
      ensures GoodOrigin(machine.origin)
      ensures state.Some? ==> Covers(machine.origin, machine.kernel, state.value)
      ensures state.None? ==> Pristine(machine.origin, machine.kernel)
      ensures SameShape(machine.origin, machine.kernel)
    {
    }

    /** Adds a route that did not exist, listing it first; an own route is left alone. */
    method EnsureRoute(a: Action) returns (ok: bool)
      requires Valid() && state.Some? && a.RouteAction? && WellShaped(a)
      requires state.value.table in machine.kernel.tables
      requires a.link in machine.origin.links && (machine.origin.links[a.link].tun <==> OnTunnel(a))
      requires OnTunnel(a) ==> AliasOn(machine.kernel, a.link, state.value.table)
      modifies this`state, machine`kernel, machine`disk
      ensures Valid() && state.Some?
      ensures old(Ready()) ==> Ready()
      ensures state == old(state) || state == Some(old(state).value.(undo := old(state).value.undo + [a]))
      ensures Touches(old(machine.kernel), machine.kernel, RouteCell(RouteOf(a, state.value.metric)))
      ensures ok ==>
        a in state.value.undo && Reads(machine.kernel, RouteCell(RouteOf(a, state.value.metric)), Present(true))
      ensures old(Aligned()) && (machine.stable ==> OnPath(machine.paths, a)) ==> Aligned()
      ensures (machine.reliable && RoutesTo(old(machine.kernel), a.family, a.destination) == {} &&
               |old(state).value.undo| < MAX_ACTIONS) ==> ok
    {
      hide *;
      Known();
      ghost var k0, k, s := machine.origin, machine.kernel, state.value;
      NothingTouched(k, RouteCell(RouteOf(a, s.metric)));
      RouteFacts(k0, k, s, a);
      ok := machine.Query();
      if !ok {
        return;
      }
      var routes := RoutesTo(machine.kernel, a.family, a.destination);
      if |routes| > 1 {
        return false;
      }
      var recorded := a in state.value.undo;
      if routes != {} {
        PresentRoute(k, a, s.metric);
        return recorded && RouteOf(a, state.value.metric) in routes;
      }
      if !recorded {
        ok := Record(a);
        if !ok {
          return;
        }
      }
      ListedCell(state.value, a);
      ok := Change(RouteCell(RouteOf(a, state.value.metric)), Present(true));
    }

    /** Makes sure that the endpoint is reached over a physical interface, and says over which. */
    method EnsureEscape(endpoint: Endpoint) returns (ok: bool, ghost via: Via)
      requires Valid() && state.Some? && state.value.table in machine.kernel.tables
      modifies this`state, machine`kernel, machine`disk
      ensures Valid() && state.Some?
      ensures old(Ready()) ==> Ready()
      ensures old(Aligned()) ==> Aligned()
      ensures state.value == old(state).value.(undo := state.value.undo)
      ensures machine.kernel.tables == old(machine.kernel).tables
      ensures ok ==> Holds(machine.kernel, EscapeGoal(machine.origin, via, endpoint, state.value.metric))
      ensures ok && machine.stable && old(Aligned()) ==> via == ViaOf(machine.origin, machine.paths, endpoint)
      ensures EscapeOnly(old(machine.kernel), machine.kernel, endpoint)
      ensures state == old(state) || EscapeLast(old(state).value.undo, state.value.undo)
      ensures (machine.reliable && machine.stable && EscapeOpen(old(machine.kernel), machine.paths, endpoint) &&
               |old(state).value.undo| < MAX_ACTIONS && old(state).value.interface.None?) ==> ok
    {
      hide *;
      Known();
      ghost var k0, k, s := machine.origin, machine.kernel, state.value;
      EscapeOpenFacts(k, s, machine.paths, endpoint);
      AlignedPaths();
      via := None;
      ok := machine.Query();
      if !ok {
        return;
      }
      var destination := Host(endpoint.ip);
      var routes := RoutesTo(machine.kernel, FamilyOf(endpoint.ip), destination);
      if |routes| > 1 {
        return false, via;
      }
      if routes != {} {
        var route :| route in routes;
        ok := Physical(machine.kernel, state.value, route.device);
        via := EscapeExists(k0, k, s, endpoint, route, machine.paths);
        return;
      }
      ok := machine.Query();
      var hop := machine.Path(destination);
      if !ok || hop.None? || !Physical(machine.kernel, state.value, hop.value.0) {
        return false, via;
      }
      var a := RouteAction(Escape, hop.value.0, FamilyOf(endpoint.ip), destination, hop.value.1);
      EscapeReady(k0, k, s, endpoint, hop.value, a);
      OnPathIs(machine.paths, a);
      EscapeVia(k0, k, s, endpoint, machine.paths, a);
      via := Some(hop.value);
      ok := EnsureRoute(a);
      EscapeRecorded(k, machine.kernel, a, state.value.metric, endpoint);
      EscapeAppended(s.undo, a);
      TouchedTables(k, machine.kernel, RouteCell(RouteOf(a, state.value.metric)));
      if ok {
        EscapeAdded(k0, machine.kernel, endpoint, a, state.value.metric);
      }
    }

    lemma {:induction false} AlignedPaths()
      ensures Aligned() && machine.stable && state.Some? ==> AllOnPath(machine.paths, state.value.undo)
    {
    }

    /** Starts a journal under a random table name that nothing uses. */
    method Initialize(table: string, metric: nat) returns (ok: bool)
      requires Valid() && state.None? && Drawn(machine.kernel, table, metric)
      modifies this`state, machine`disk
      ensures Valid() && (state == None || state == Some(State(table, metric, None, [], [])))
      ensures ok ==> state.Some? && Ready()
      ensures !ok ==> state.None?
      ensures old(Ready()) ==> Ready()
      ensures old(Aligned()) && (table, metric) == name ==> Aligned()
      ensures machine.reliable ==> ok
    {
      hide Covers, Pristine, Cells;
      UnusedOriginally(machine.origin, machine.kernel, table);
      FreshJournal(machine.origin, machine.kernel, table, metric);
      state := Some(State(table, metric, None, [], []));
      ok := Persist();
      if !ok {
        state := None;
      }
    }

    /** Adds the endpoint to the journal before the guard lets it through. */
    method AddEndpoint(endpoint: Endpoint) returns (ok: bool)
      requires Valid() && state.Some?
      modifies this`state, machine`disk
      ensures Valid() && state.Some? && state.value == old(state).value.(endpoints := state.value.endpoints)
      ensures
        || state.value.endpoints == old(state).value.endpoints
        || (ok && state.value.endpoints == old(state).value.endpoints + [endpoint])
      ensures old(Ready()) ==> Ready()
      ensures ok ==> endpoint in state.value.endpoints
      ensures old(Aligned()) ==> Aligned()
      ensures machine.reliable && |old(state).value.endpoints| < MAX_ENDPOINTS ==> ok
    {
      if endpoint in state.value.endpoints {
        return true;
      }
      if |state.value.endpoints| >= MAX_ENDPOINTS {
        return false;
      }
      hide Covers, Cells, Pristine;
      var before := state;
      SoundOrder(machine.origin, machine.kernel, state.value);
      HeaderKeeps(machine.origin, machine.kernel, state.value, state.value.interface,
                  state.value.endpoints + [endpoint]);
      state := Some(before.value.(endpoints := before.value.endpoints + [endpoint]));
      ok := Persist();
      if !ok {
        state := before;
      }
    }

    /** prepare: journal, guard, escape, in this order. A failure keeps the manager ready. */
    method Prepare(endpoint: Endpoint, table: string, metric: nat) returns (ok: bool, ghost via: Via)
      requires Valid() && (state.None? ==> Drawn(machine.kernel, table, metric))
      modifies this`state, machine`kernel, machine`disk
      ensures Valid()
      ensures old(Ready()) ==> Ready()
      ensures ok ==> state.Some? && state.value.table in machine.kernel.tables
      ensures ok ==> endpoint in machine.kernel.tables[state.value.table].endpoints
      ensures ok ==> Holds(machine.kernel, EscapeGoal(machine.origin, via, endpoint, state.value.metric))
      ensures old(Aligned()) && (old(state).None? ==> (table, metric) == name) ==>
        Aligned() && (ok && machine.stable ==> via == ViaOf(machine.origin, machine.paths, endpoint))
      ensures old(state).Some? ==> state.Some? && state.value.table == old(state).value.table
      ensures old(state).Some? && old(state).value.table in old(machine.kernel).tables ==>
        state.value.table in machine.kernel.tables
      ensures EscapeOnly(old(machine.kernel), machine.kernel, endpoint)
      ensures old(state).None? && ok ==>
        state.value.interface.None? && |state.value.undo| <= 1 && forall a :: a in state.value.undo ==> a.RouteAction?
      ensures (machine.reliable && machine.stable && old(state).None? &&
               EscapeOpen(old(machine.kernel), machine.paths, endpoint)) ==> ok
    {
      hide Covers, Pristine, Cells, GoodOrigin, Holds, EscapeGoal, EscapeOnly, EscapeOpen, EscapeLast, AlignedTo, ViaOf;
      ghost var k, paths := machine.kernel, machine.paths;
      EscapeGuarded(k, "", Rules(None, []), k, paths, endpoint);
      via := None;
      ok := machine.Query();
      if !ok {
        return;
      }
      if state.None? {
        ok := Initialize(table, metric);
        if !ok {
          return;
        }
      }
      ok := AddEndpoint(endpoint);
      if !ok {
        return;
      }
      ok := Protect();
      ghost var rules := GuardRules(k, state.value);
      EscapeGuarded(k, state.value.table, rules, WithTable(k, state.value.table, rules), paths, endpoint);
      EscapeGuarded(WithTable(k, state.value.table, rules), "", rules, k, paths, endpoint);
      if !ok {
        return;
      }
      ok, via := EnsureEscape(endpoint);
      EscapeGuarded(k, state.value.table, rules, machine.kernel, paths, endpoint);
      EscapeAlone(state.value.undo);
    }

    /**
     Puts the journal's alias on the interface. Whatever an earlier interface,
     or an earlier life of this one, had configured is undone first.
     */
    method ClaimLink(i: Name) returns (ok: bool)
      requires Valid() && state.Some? && state.value.table in machine.kernel.tables
      modifies this`state, machine`kernel, machine`disk
      ensures Valid() && state.Some?
      ensures state.value == old(state).value.(interface := state.value.interface, undo := state.value.undo)
      ensures machine.kernel.tables == old(machine.kernel).tables
      ensures old(Ready()) ==> Safe()
      ensures ok && old(Ready()) ==> Ready()
      ensures PhysicalSame(machine.origin, old(machine.kernel), machine.kernel)
      ensures ok ==> AliasOn(machine.kernel, i, state.value.table) && machine.kernel.links[i].tun
      ensures old(Aligned()) ==> Aligned()
      ensures old(Unclaimed(state.value)) ==>
        Touches(old(machine.kernel), machine.kernel, AliasCell(i)) && |state.value.undo| <= |old(state).value.undo| + 1
      ensures (machine.reliable && old(Unclaimed(state.value)) && IsTun(old(machine.kernel), i) &&
               old(machine.kernel).links[i].alias == "" && |old(state).value.undo| < MAX_ACTIONS) ==> ok
    {
      hide *;
      ghost var k0 := machine.origin;
      ghost var k := machine.kernel;
      Known();
      ReadyIsSafe();
      PhysicalItself(k0, k);
      NothingTouched(k, AliasCell(i));
      UnclaimedFacts(state.value);
      ok := machine.Query();
      if !ok || !IsTun(machine.kernel, i) {
        return false;
      }
      TunStays(k0, k, i);
      var previous := if state.value.interface.Some? then state.value.interface else FirstClaim(state.value.undo);
      if previous.Some? && (previous.value != i || !AliasOn(machine.kernel, i, state.value.table)) {
        ok := ReleaseLink();
        if !ok {
          return;
        }
        Known();
        TunStays(k0, machine.kernel, i);
      } else if previous.None? {
        NothingClaimed(k0, k, state.value);
      }
      ghost var mid := machine.kernel;
      if !AliasOn(machine.kernel, i, state.value.table) {
        if machine.kernel.links[i].alias != "" {
          return false;
        }
        Known();
        AliasFacts(k0, machine.kernel, state.value, i);
        NotAnEscape(machine.paths, AliasAction(i));
        ok := Record(AliasAction(i));
        ReadyIsSafe();
        if !ok {
          return;
        }
        ListedCell(state.value, AliasAction(i));
        AliasChange(k0, machine.kernel, state.value, i);
        ok := Change(AliasCell(i), Text(AliasOf(state.value.table)));
        ReadyIsSafe();
        AliasTouched(k0, k, mid, machine.kernel, i);
        if ok {
          AliasWritten(machine.kernel, i, state.value.table);
          Known();
          TunStays(k0, machine.kernel, i);
        }
        return;
      }
      TunHere(machine.kernel, i);
      return true;
    }

    /** The first half of re-claiming: undo all but the escapes and forget the interface. */
    method ReleaseLink() returns (ok: bool)
      requires Valid() && state.Some?
      modifies this`state, machine`kernel, machine`disk
      ensures Valid() && state.Some?
      ensures state.value == old(state).value.(interface := state.value.interface, undo := state.value.undo)
      ensures machine.kernel.tables == old(machine.kernel).tables
      ensures old(Ready()) ==> Safe()
      ensures ok ==> Ready() && Tunnels(state.value.undo) == [] && state.value.interface.None?
      ensures old(Aligned()) ==> Aligned()
      ensures PhysicalSame(machine.origin, old(machine.kernel), machine.kernel)
    {
      hide Covers, Pristine, Cells, Kept, UntouchedBut, AliasWithAll, Tunnels, PhysicalSame, AliasFirst, OnTunnel,
        Sound;
      ghost var k0, k, s := machine.origin, machine.kernel, state.value;
      SoundOf(k0, k, s);
      AllTunnels(s.undo);
      ok := CleanupMatching(a => OnTunnel(a));
      OnlyTunnelTouched(k0, k, machine.kernel, s);
      if !ok {
        return;
      }
      NoTunnels(state.value.undo);
      SoundOrder(k0, machine.kernel, state.value);
      NoTunnelsFirst(state.value.undo);
      HeaderKeeps(k0, machine.kernel, state.value, None, state.value.endpoints);
      state := Some(state.value.(interface := None));
      ok := Persist();
    }

    /** Lists the interface's own MTU and flag before they are changed. */
    method SaveLink(i: Name) returns (ok: bool)
      requires Valid() && state.Some? && AliasOn(machine.kernel, i, state.value.table) && machine.kernel.links[i].tun
      modifies this`state, machine`disk
      ensures Valid() && state.Some?
      ensures state.value == old(state).value.(undo := state.value.undo)
      ensures old(Ready()) ==> Ready()
      ensures ok ==> LinkCell(i) in Cells(state.value)
      ensures ok ==> i in machine.origin.links && machine.origin.links[i].addresses == {}
      ensures old(Aligned()) ==> Aligned()
      ensures |state.value.undo| <= |old(state).value.undo| + 1
      ensures (machine.reliable && machine.kernel.links[i].addresses == {} && machine.kernel.links[i].mtu <= 65535 &&
               |old(state).value.undo| < MAX_ACTIONS) ==> ok
    {
      hide *;
      Known();
      ghost var k0, k, s := machine.origin, machine.kernel, state.value;
      if HasLink(state.value.undo, i) {
        SavedLink(k0, k, s, i);
        return true;
      }
      AliasThere(k, i, s.table);
      ok := machine.Query();
      var link := machine.kernel.links[i];
      if !ok || link.addresses != {} || link.mtu > 65535 {
        return false;
      }
      var a := LinkAction(i, link.mtu, link.up);
      LinkFacts(k0, k, s, i, a);
      NotAnEscape(machine.paths, a);
      ok := Record(a);
    }

    /** Remembers the interface in the journal. A failure to write is not taken back. */
    method UseInterface(i: Name) returns (ok: bool)
      requires Valid() && state.Some? && AliasOn(machine.kernel, i, state.value.table)
      modifies this`state, machine`disk
      ensures Valid() && state.Some?
      ensures state.value == old(state).value.(interface := state.value.interface)
      ensures Cells(state.value) == Cells(old(state).value)
      ensures old(Ready()) ==> Ready()
      ensures ok ==> state.value.interface == Some(i)
      ensures old(Aligned()) ==> Aligned()
      ensures machine.reliable ==> ok
    {
      if state.value.interface == Some(i) {
        return true;
      }
      hide Covers, Pristine, Cells, Sound, AliasFirst, Tunnels, AliasOn;
      AliasListed(machine.origin, machine.kernel, state.value, i);
      SoundOf(machine.origin, machine.kernel, state.value);
      SoundOrder(machine.origin, machine.kernel, state.value);
      OneInterface(machine.origin, state.value, i);
      HeaderKeeps(machine.origin, machine.kernel, state.value, Some(i), state.value.endpoints);
      state := Some(state.value.(interface := Some(i)));
      ok := Persist();
    }

    /** Lists and adds the leased address. */
    method AddAddress(i: Name, address: string) returns (ok: bool)
      requires Valid() && state.Some? && AliasOn(machine.kernel, i, state.value.table)
      requires state.value.table in machine.kernel.tables
      requires i in machine.origin.links && machine.origin.links[i].tun && machine.origin.links[i].addresses == {}
      modifies this`state, machine`kernel, machine`disk
      ensures Valid() && state.Some?
      ensures state.value == old(state).value.(undo := state.value.undo)
      ensures old(Ready()) ==> Ready()
      ensures Touches(old(machine.kernel), machine.kernel, AddressCell(i, address))
      ensures ok ==> Reads(machine.kernel, AddressCell(i, address), Present(true))
      ensures old(Aligned()) ==> Aligned()
      ensures |state.value.undo| <= |old(state).value.undo| + 1
      ensures machine.reliable && |old(state).value.undo| < MAX_ACTIONS ==> ok
    {
      hide *;
      Known();
      ghost var k0, k, s := machine.origin, machine.kernel, state.value;
      var c := AddressCell(i, address);
      NothingTouched(k, c);
      AddressFacts(k0, k, s, i, address);
      NotAnEscape(machine.paths, AddressAction(i, address));
      if AddressAction(i, address) !in state.value.undo {
        ok := Record(AddressAction(i, address));
        if !ok {
          return;
        }
      }
      ok := machine.Query();
      if !ok {
        return;
      }
      if address in machine.kernel.links[i].addresses {
        return true;
      }
      ListedCell(state.value, AddressAction(i, address));
      ok := Change(c, Present(true));
    }

    /** Lists and sets the resolver configuration, which must have been empty. */
    method SetDns(i: Name, dns: string) returns (ok: bool)
      requires Valid() && state.Some? && AliasOn(machine.kernel, i, state.value.table)
      requires state.value.table in machine.kernel.tables
      requires i in machine.origin.links && machine.origin.links[i].tun
      modifies this`state, machine`kernel, machine`disk
      ensures Valid() && state.Some?
      ensures state.value == old(state).value.(undo := state.value.undo)
      ensures old(Ready()) ==> Ready()
      ensures Touches(old(machine.kernel), machine.kernel, DnsCell(i))
      ensures ok ==> Reads(machine.kernel, DnsCell(i), Resolver(Dns(dns, "~.", Some(true))))
      ensures old(Aligned()) ==> Aligned()
      ensures (machine.reliable && i in old(machine.kernel).links && old(machine.kernel).links[i].dns.servers == "" &&
               old(machine.kernel).links[i].dns.domains == "" && |old(state).value.undo| < MAX_ACTIONS) ==> ok
    {
      hide *;
      Known();
      ghost var k0, k, s := machine.origin, machine.kernel, state.value;
      NothingTouched(k, DnsCell(i));
      AliasThere(k, i, s.table);
      if DnsAction(i) !in state.value.undo {
        ok := machine.Query();
        var current := machine.kernel.links[i].dns;
        if !ok || current.servers != "" || current.domains != "" {
          return false;
        }
        DnsFacts(k0, k, s, i);
        NotAnEscape(machine.paths, DnsAction(i));
        ok := Record(DnsAction(i));
        if !ok {
          return;
        }
      }
      ListedCell(state.value, DnsAction(i));
      DnsChange(k0, k, state.value, i);
      ok := ChangeDns(i, machine.kernel.links[i].dns.(servers := dns));
      if !ok {
        return;
      }
      ok := ChangeDns(i, machine.kernel.links[i].dns.(domains := "~."));
      if !ok {
        return;
      }
      ok := ChangeDns(i, machine.kernel.links[i].dns.(defaultRoute := Some(true)));
      DnsWritten(machine.kernel, i);
    }

    method ChangeDns(i: Name, dns: Dns) returns (ok: bool)
      requires Valid() && state.Some? && state.value.table in machine.kernel.tables
      requires DnsCell(i) in Cells(state.value) && AliasOn(machine.kernel, i, state.value.table)
      modifies machine`kernel
      ensures Valid() && i in machine.kernel.links
      ensures old(Ready()) ==> Ready()
      ensures forall k :: Touches(k, old(machine.kernel), DnsCell(i)) ==> Touches(k, machine.kernel, DnsCell(i))
      ensures AliasOn(machine.kernel, i, state.value.table) && machine.kernel.tables == old(machine.kernel).tables
      ensures ok ==> machine.kernel.links[i].dns == dns
      ensures machine.reliable ==> ok
    {
      hide *;
      ghost var k := machine.kernel;
      DnsCellFacts(machine.origin, k, i, state.value.table, dns);
      ok := Change(DnsCell(i), Resolver(dns));
      DnsTouched(k, machine.kernel, i, state.value.table);
      DnsRead(machine.kernel, i, dns);
    }

    /** The last step: one endpoint, a fresh guard, and no stale action left. */
    method Finish(i: Name, endpoint: Endpoint, lease: Lease, ghost via: Via) returns (ok: bool)
      requires Valid() && state.Some? && lease.dns.Some? && state.value.interface == Some(i)
      requires AliasOn(machine.kernel, i, state.value.table) && i in machine.origin.links && machine.origin.links[i].tun
      requires Holds(machine.kernel,
                     Goals(machine.origin, via, i, state.value.table, state.value.metric, endpoint, lease))
      modifies this`state, machine`kernel, machine`disk
      ensures Valid() && state.Some?
      ensures state.value.table == old(state).value.table && state.value.metric == old(state).value.metric
      ensures old(Ready()) ==> Safe()
      ensures ok && old(Ready()) ==> Ready()
      ensures old(state).value.table in old(machine.kernel).tables ==> state.value.table in machine.kernel.tables
      ensures old(Aligned()) ==> Aligned()
      ensures ok ==>
        Holds(machine.kernel, Goals(machine.origin, via, i, state.value.table, state.value.metric, endpoint, lease))
      ensures (ok && machine.stable && old(Aligned()) && via == ViaOf(machine.origin, machine.paths, endpoint)) ==>
        AtTarget(machine.origin, machine.kernel, via, i, state.value.table, state.value.metric, endpoint, lease)
      ensures machine.reliable ==> ok
    {
      hide *;
      Known();
      ghost var k0 := machine.origin;
      var previous := state.value.endpoints;
      ok := ReplaceEndpoints(endpoint);
      ReadyIsSafe();
      if !ok {
        return;
      }
      ghost var before := machine.kernel;
      ok := Protect();
      TablesKeep(before, machine.kernel, state.value, i,
                 Goals(k0, via, i, state.value.table, state.value.metric, endpoint, lease));
      ReadyIsSafe();
      if !ok {
        return;
      }
      ghost var k, s := machine.kernel, state.value;
      GuardInstalled(before, k, s, i, endpoint);
      Known();
      StaleIsNotAlias(s.undo, endpoint, lease);
      ok := CleanupMatching(StaleFor(endpoint, lease));
      if ok {
        Known();
        SoundOf(k0, k, s);
        HoldsCleaned(k0, k, machine.kernel, s, via, i, endpoint, lease);
        AlignedPaths();
        if machine.stable && Aligned() && via == ViaOf(k0, machine.paths, endpoint) {
          Finished(k0, k, machine.kernel, s, state.value, via, i, endpoint, lease, machine.paths);
        }
      }
    }

    method ReplaceEndpoints(endpoint: Endpoint) returns (ok: bool)
      requires Valid() && state.Some?
      modifies this`state, machine`disk
      ensures Valid() && state.Some?
      ensures state == if ok then Some(old(state).value.(endpoints := [endpoint])) else old(state)
      ensures old(Aligned()) ==> Aligned()
      ensures old(Ready()) ==> Ready()
      ensures machine.reliable ==> ok
    {
      hide Covers, Pristine, Cells, Sound, AliasFirst, Tunnels;
      var previous := state;
      SoundOrder(machine.origin, machine.kernel, state.value);
      HeaderKeeps(machine.origin, machine.kernel, state.value, state.value.interface, [endpoint]);
      state := Some(previous.value.(endpoints := [endpoint]));
      ok := Persist();
      if !ok {
        state := previous;
      }
    }

    /** Link and address, then routes and resolver, once the interface is claimed. */
    method Configure(i: Name, endpoint: Endpoint, lease: Lease, ghost via: Via) returns (ok: bool)
      requires Valid() && state.Some? && state.value.table in machine.kernel.tables && lease.dns.Some?
      requires AliasOn(machine.kernel, i, state.value.table) && machine.kernel.links[i].tun
      requires Holds(machine.kernel, EscapeGoal(machine.origin, via, endpoint, state.value.metric))
      modifies this`state, machine`kernel, machine`disk
      ensures Valid() && state.Some?
      ensures state.value.table == old(state).value.table && state.value.metric == old(state).value.metric
      ensures old(Ready()) ==> Ready()
      ensures old(Aligned()) ==> Aligned()
      ensures machine.kernel.tables == old(machine.kernel).tables
      ensures ok ==>
        && state.value.interface == Some(i) && AliasOn(machine.kernel, i, state.value.table)
        && i in machine.origin.links && machine.origin.links[i].tun
        && Holds(machine.kernel, Goals(machine.origin, via, i, state.value.table, state.value.metric, endpoint, lease))
      ensures (machine.reliable && Open(old(machine.kernel), i, lease, 1) &&
               |old(state).value.undo| + 8 <= MAX_ACTIONS) ==> ok
    {
      hide *;
      ghost var k0, k, t, m := machine.origin, machine.kernel, state.value.table, state.value.metric;
      ghost var goals := EscapeGoal(k0, via, endpoint, m);
      EscapeIsRoute(k0, via, endpoint, m);
      OpenFacts(k, i, lease, 1);
      SparesUpOnly(i, lease, m);
      ok := SaveLink(i);
      if !ok {
        return;
      }
      ok := UseInterface(i);
      if !ok {
        return;
      }
      Known();
      LinkChange(k0, k, i, t, lease.mtu);
      ok := Change(LinkCell(i), Setting(lease.mtu, true));
      StepLink(k, machine.kernel, i, t, goals, Setting(lease.mtu, true), ok);
      OpenStep(k, machine.kernel, LinkCell(i), i, lease, 1, 2);
      if !ok {
        return;
      }
      goals := goals[AliasCell(i) := Text(AliasOf(t))][LinkCell(i) := Setting(lease.mtu, true)];
      k := machine.kernel;
      ok := AddAddress(i, lease.address);
      StepOn(k, machine.kernel, i, t, goals, AddressCell(i, lease.address), Present(true), ok);
      OpenStep(k, machine.kernel, AddressCell(i, lease.address), i, lease, 2, 2);
      if !ok {
        return;
      }
      goals := goals[AddressCell(i, lease.address) := Present(true)];
      ok, goals := AddRoutes(i, lease, goals);
      if ok {
        GoalsReached(k0, machine.kernel, via, i, t, m, endpoint, lease, goals);
      }
    }

    /** The tunnel's routes and the resolver. */
    method AddRoutes(i: Name, lease: Lease, ghost before: map<Cell, Value>)
      returns (ok: bool, ghost goals: map<Cell, Value>)
      requires Valid() && state.Some? && state.value.table in machine.kernel.tables && lease.dns.Some?
      requires AliasOn(machine.kernel, i, state.value.table) && i in machine.origin.links && machine.origin.links[i].tun
      requires Holds(machine.kernel, before)
      modifies this`state, machine`kernel, machine`disk
      ensures Valid() && state.Some?
      ensures state.value == old(state).value.(undo := state.value.undo)
      ensures old(Ready()) ==> Ready()
      ensures old(Aligned()) ==> Aligned()
      ensures machine.kernel.tables == old(machine.kernel).tables && AliasOn(machine.kernel, i, state.value.table)
      ensures ok ==> goals == WithRoutes(before, i, lease, state.value.metric) && Holds(machine.kernel, goals)
      ensures (machine.reliable && Open(old(machine.kernel), i, lease, 2) &&
               |old(state).value.undo| + 4 <= MAX_ACTIONS) ==> ok
    {
      hide *;
      ghost var t, m := state.value.table, state.value.metric;
      SparesUpOnly(i, lease, m);
      TunnelRoutes(i, lease.dns.value);
      OpenFacts(machine.kernel, i, lease, 2);
      var low := RouteAction(Tunnel, i, 4, LowHalf, "");
      ok, goals := AddRoute(i, low, before);
      OpenStep(old(machine.kernel), machine.kernel, RouteCell(RouteOf(low, m)), i, lease, 2, 3);
      OpenFacts(machine.kernel, i, lease, 3);
      if !ok {
        return;
      }
      ghost var k := machine.kernel;
      var high := RouteAction(Tunnel, i, 4, HighHalf, "");
      ok, goals := AddRoute(i, high, goals);
      OpenStep(k, machine.kernel, RouteCell(RouteOf(high, m)), i, lease, 3, 4);
      OpenFacts(machine.kernel, i, lease, 4);
      if !ok {
        return;
      }
      k := machine.kernel;
      var resolver := RouteAction(DnsRoute, i, 4, Host(lease.dns.value), "");
      ok, goals := AddRoute(i, resolver, goals);
      OpenStep(k, machine.kernel, RouteCell(RouteOf(resolver, m)), i, lease, 4, 5);
      OpenFacts(machine.kernel, i, lease, 5);
      if !ok {
        return;
      }
      k := machine.kernel;
      ok := SetDns(i, lease.dns.value);
      var dns := Resolver(Dns(lease.dns.value, "~.", Some(true)));
      StepOn(k, machine.kernel, i, t, goals, DnsCell(i), dns, ok);
      goals := goals[DnsCell(i) := dns];
      WithRoutesIs(before, i, lease, m);
    }

    /** One route of the tunnel, as the next goal. */
    method AddRoute(i: Name, a: Action, ghost before: map<Cell, Value>)
      returns (ok: bool, ghost goals: map<Cell, Value>)
      requires Valid() && state.Some? && state.value.table in machine.kernel.tables
      requires AliasOn(machine.kernel, i, state.value.table) && i in machine.origin.links && machine.origin.links[i].tun
      requires a.RouteAction? && a.link == i && OnTunnel(a) && WellShaped(a) && Holds(machine.kernel, before)
      modifies this`state, machine`kernel, machine`disk
      ensures Valid() && state.Some?
      ensures state.value == old(state).value.(undo := state.value.undo)
      ensures |state.value.undo| <= |old(state).value.undo| + 1
      ensures old(Ready()) ==> Ready()
      ensures old(Aligned()) ==> Aligned()
      ensures machine.kernel.tables == old(machine.kernel).tables && AliasOn(machine.kernel, i, state.value.table)
      ensures Touches(old(machine.kernel), machine.kernel, RouteCell(RouteOf(a, state.value.metric)))
      ensures goals == before[RouteCell(RouteOf(a, state.value.metric)) := Present(true)]
      ensures ok ==> Holds(machine.kernel, goals)
      ensures (machine.reliable && RoutesTo(old(machine.kernel), a.family, a.destination) == {} &&
               |old(state).value.undo| < MAX_ACTIONS) ==> ok
    {
      hide *;
      ghost var k := machine.kernel;
      TunnelIsOnPath(machine.paths, a);
      ok := EnsureRoute(a);
      ghost var c := RouteCell(RouteOf(a, state.value.metric));
      StepOn(k, machine.kernel, i, state.value.table, before, c, Present(true), ok);
      goals := before[c := Present(true)];
    }

    /**
     up: on success everything it sets is in place, over the hop it returns. If
     the paths are stable the kernel is then the target, which depends on the
     original kernel, the paths, the journal's name and metric and the arguments,
     and on nothing that an earlier, interrupted run did. The guard is never deleted.
     */
    method Up(i: Name, endpoint: Endpoint, lease: Lease, table: string, metric: nat) returns (ok: bool, ghost via: Via)
      requires Valid() && (state.None? ==> Drawn(machine.kernel, table, metric))
      modifies this`state, machine`kernel, machine`disk
      ensures Valid()
      ensures old(Ready()) ==> Safe()
      ensures ok && old(Ready()) ==> Ready()
      ensures ok ==>
        && state.Some? && lease.dns.Some?
        && Holds(machine.kernel, Goals(machine.origin, via, i, state.value.table, state.value.metric, endpoint, lease))
      ensures old(Aligned()) && (old(state).None? ==> (table, metric) == name) ==> Aligned()
      ensures (ok && machine.stable && old(Aligned()) && (old(state).None? ==> (table, metric) == name)) ==>
        && via == ViaOf(machine.origin, machine.paths, endpoint)
        && AtTarget(machine.origin, machine.kernel, via, i, state.value.table, state.value.metric, endpoint, lease)
      ensures old(state).Some? ==> state.Some? && state.value.table == old(state).value.table
      ensures old(state).Some? && old(state).value.table in old(machine.kernel).tables ==>
        state.value.table in machine.kernel.tables
      ensures (machine.reliable && machine.stable && old(state).None? &&
               Suitable(old(machine.kernel), machine.paths, i, endpoint, lease)) ==> ok
    {
      hide *;
      ReadyIsSafe();
      via := None;
      ghost var found := machine.kernel;
      SuitableFacts(found, machine.paths, i, endpoint, lease);
      if !ValidLease(lease) {
        return false, via;
      }
      LeaseHasDns(lease);
      ok, via := Prepare(endpoint, table, metric);
      ReadyIsSafe();
      if !ok {
        return;
      }
      if lease.dns == Some(endpoint.ip) {
        return false, via;
      }
      ghost var k := machine.kernel;
      OpenEscaped(found, k, endpoint, i, lease);
      OpenFacts(k, i, lease, 0);
      if old(state).None? {
        RoutesClaimNothing(state.value);
      }
      RoomLeft();
      ok := ClaimLink(i);
      if !ok {
        return;
      }
      if old(state).None? {
        SparesUpOnly(i, lease, state.value.metric);
        OpenStep(k, machine.kernel, AliasCell(i), i, lease, 0, 1);
      }
      PhysicalHolds(machine.origin, k, machine.kernel, via, endpoint, state.value.metric);
      ok := Configure(i, endpoint, lease, via);
      ReadyIsSafe();
      if !ok {
        return;
      }
      ok := Finish(i, endpoint, lease, via);
    }

    lemma {:induction false} ReadyIsSafe()
      ensures Ready() ==> Safe()
    {
    }

    /** down: undo everything, drop the guard, remove the journal. */
    method Down() returns (ok: bool)
      requires Valid()
      modifies this`state, machine`kernel, machine`disk, machine`deletions
      ensures Valid()
      ensures old(Safe()) ==> Safe()
      ensures ok ==> state == None && machine.disk == None && machine.kernel == machine.origin && Ready()
      ensures machine.reliable ==> ok
    {
      hide Covers, Pristine, Cells, GoodOrigin, WithoutTable, Changed, Kept, UntouchedBut, Sound;
      EverythingWanted(if state.Some? then state.value.undo else []);
      ok := CleanupMatching(_ => true);
      if !ok {
        return;
      }
      ghost var k0, k := machine.origin, machine.kernel;
      if state.Some? {
        NothingLeft(state.value.undo);
        EmptyMeansRestored(k0, k, state.value);
        UnguardedIsPristine(k0, k, state.value);
        TableIsNew(k0, k, state.value);
        UnguardKeeps(k0, k, state.value, state.value.table);
        if Safe() {
          if machine.disk.Some? {
            UnguardKeeps(k0, k, machine.disk.value, state.value.table);
          } else {
            PristineUnguarded(k0, k, state.value.table);
          }
        }
        ok := machine.Query();
        if !ok {
          return;
        }
        if state.value.table in machine.kernel.tables {
          ok := machine.DeleteTable(state.value.table);
          if !ok {
            return;
          }
        } else {
          NoTable(k, state.value.table);
        }
      }
      assert Pristine(k0, machine.kernel);
      ok := machine.RemoveJournal();
      if !ok {
        return;
      }
      state := None;
      PristineIsOriginal(k0, machine.kernel);
    }
  }
}
