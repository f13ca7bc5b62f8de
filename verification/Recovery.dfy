/**
 Whole runs of NetworkManager: arbitrary calls, failures, crashes and reopens,
 then recovery; and exactly where a step would leave the journal file unable
 to restore the kernel.
 */
module Recovery {
  import opened Bytes
  import opened Kernel
  import opened Journal
  import opened NetworkFacts
  import opened NetworkManager

  /** The checks of validate_state and validate_action on names, counts, shapes and MTUs. */
  predicate Accepted(s: State) {
    && Bounded(s)
    && forall a :: a in s.undo ==> WellShaped(a) && (a.LinkAction? ==> 68 <= a.mtu <= 65535)
  }

  /** Reopening never rejects a journal that covers a kernel. */
  lemma {:induction false} CoveringIsAccepted(k0: Kernel, k: Kernel, s: State)
    requires Covers(k0, k, s)
    ensures Accepted(s)
  {
    hide Changed, Cells, AliasFirst, Tunnels, Guarded;
    forall a | a in s.undo
      ensures WellShaped(a) && (a.LinkAction? ==> 68 <= a.mtu <= 65535)
    {
      assert Honest(k0, a, s.metric);
    }
  }

  /**
   Any number of calls with any arguments, each failing anywhere or not, with
   the process stopped and the journal reopened at any point. As in the client,
   `prepare` and `up` are not called on a manager whose last `up` or `down`
   failed. Paths to hosts may change between any two questions. The journal file
   suffices to restore the kernel throughout.
   */
  method AnyRun(machine: Machine)
    requires GoodOrigin(machine.origin) && machine.kernel == machine.origin && machine.disk == None
    modifies machine
    ensures Recoverable(machine.origin, machine.kernel, machine.disk)
  {
    PristineAtFirst(machine.origin);
    hide Recoverable, GoodOrigin, NotBehind;
    var manager := new NetworkManager(machine, ("", 0));
    var settled := true;
    var steps: nat := *;
    while steps > 0
      invariant fresh(manager) && manager.machine == machine && manager.Valid() && manager.Safe()
      invariant settled ==> manager.Ready()
      invariant GoodOrigin(machine.origin)
    {
      steps := steps - 1;
      var choice: int := *;
      var endpoint: Endpoint := *;
      var table: string := *;
      var metric: nat := *;
      if choice == 0 {
        manager := new NetworkManager(machine, ("", 0));
        settled := true;
      } else if choice == 1 && settled && Drawn(machine.kernel, table, metric) {
        var ok, via := manager.Prepare(endpoint, table, metric);
      } else if choice == 2 && settled && Drawn(machine.kernel, table, metric) {
        var interface: Name := *;
        var lease: Lease := *;
        ghost var via;
        settled, via := manager.Up(interface, endpoint, lease, table, metric);
      } else {
        settled := manager.Down();
      }
    }
  }

  lemma {:induction false} PristineAtFirst(k: Kernel)
    ensures Recoverable(k, k, None)
  {
  }

  /**
   Reopening and completing `down` gives back the original kernel; failing loses
   nothing; and it completes unless a command fails.
   */
  method Recover(machine: Machine) returns (ok: bool)
    requires GoodOrigin(machine.origin) && Recoverable(machine.origin, machine.kernel, machine.disk)
    modifies machine
    ensures Recoverable(machine.origin, machine.kernel, machine.disk)
    ensures ok ==> machine.kernel == machine.origin && machine.disk == None
    ensures machine.reliable ==> ok
  {
    hide Recoverable, GoodOrigin, NotBehind;
    var manager := new NetworkManager(machine, ("", 0));
    ok := manager.Down();
  }

  /**
   An `up` stopped anywhere and run again after reopening ends, if it succeeds,
   in the kernel that an undisturbed `up` on an equal machine ends in.
   */
  method Resume(calm: Machine, rough: Machine, i: Name, endpoint: Endpoint, lease: Lease, table: string, metric: nat)
    returns (ok: bool)
    requires calm != rough && calm.origin == rough.origin && GoodOrigin(calm.origin)
    requires calm.kernel == rough.kernel == calm.origin && calm.disk == rough.disk == None
    requires calm.stable && rough.stable && calm.paths == rough.paths
    requires Drawn(calm.origin, table, metric)
    modifies calm, rough
    ensures ok ==> calm.kernel == rough.kernel
    ensures ok ==>
      && lease.dns.Some?
      && AtTarget(calm.origin, rough.kernel, ViaOf(calm.origin, calm.paths, endpoint), i, table, metric, endpoint,
                  lease)
  {
    hide Recoverable, GoodOrigin, NotBehind, AtTarget, Drawn, ViaOf, Holds, AllOnPath;
    PristineAtFirst(calm.origin);
    ghost var via;
    var manager := new NetworkManager(calm, (table, metric));
    ok, via := manager.Up(i, endpoint, lease, table, metric);
    var interrupted := new NetworkManager(rough, (table, metric));
    var finished;
    finished, via := interrupted.Up(i, endpoint, lease, table, metric);
    var reopened := new NetworkManager(rough, (table, metric));
    if !ok {
      return false;
    }
    if reopened.state.None? {
      StillDrawn(rough.origin, rough.kernel, table, metric);
    }
    ok, via := reopened.Up(i, endpoint, lease, table, metric);
    if ok {
      TargetIsUnique(calm.origin, calm.kernel, rough.kernel, via, i, table, metric, endpoint, lease);
    }
  }

  lemma {:induction false} StillDrawn(k0: Kernel, k: Kernel, table: string, metric: nat)
    requires Recoverable(k0, k, None) && Drawn(k0, table, metric)
    ensures Drawn(k, table, metric)
  {
    PristineIsOriginal(k0, k);
  }

  // Where coverage ends.

  /**
   A command on a cell keeps a journal sufficient exactly when the journal lists
   the cell or the command sets the original value.
   */
  lemma {:induction false} ChangeCoveredExactly(k0: Kernel, k: Kernel, s: State, c: Cell, v: Value)
    requires Covers(k0, k, s) && Exists(k, c) && Fits(c, v) && s.table in k.tables && !c.AliasCell?
    requires Owner(k0, c).Some? ==> AliasOn(k, Owner(k0, c).value, s.table)
    ensures Covers(k0, Write(k, c, v), s) <==> c in Cells(s) || v == Read(k0, c)
  {
    hide Read, Write, Cells, Touches, Sound, Guarded, AliasOn;
    WriteTouches(k, c, v);
    ExistsBoth(k0, k, c);
    var k' := Write(k, c, v);
    ExistsTouched(k, k', c);
    if c in Cells(s) {
      hide Covers;
      ChangeKeeps(k0, k, k', s, c);
    } else if v == Read(k0, c) {
      assert !Changed(k0, k', c);
      hide Covers;
      RestoreKeeps(k0, k, k', s, c);
    } else {
      assert Changed(k0, k', c);
    }
  }

  lemma {:induction false} ExistsBoth(k0: Kernel, k: Kernel, c: Cell)
    requires SameShape(k0, k)
    ensures Exists(k0, c) <==> Exists(k, c)
  {
  }

  lemma {:induction false} ExistsTouched(k: Kernel, k': Kernel, c: Cell)
    requires Touches(k, k', c)
    ensures Exists(k, c) <==> Exists(k', c)
  {
  }

  /** From any ready manager with file equal to memory, such an outcome keeps memory and file sufficient. */
  lemma {:induction false} FailedDropIsSafe(k0: Kernel, k1: Kernel, memory: State, p: nat, k: Kernel, file: State)
    requires Covers(k0, k1, memory) && FailedDrop(k1, memory, p, k, file)
    ensures Recoverable(k0, k, Some(memory)) && Recoverable(k0, k, Some(file))
  {
    hide Covers, Undone, MayUndo;
    UndoAt(k0, k1, memory, p);
  }

  /**
   Such a step is reachable. From a kernel with the link configured, and file
   and memory alike, the rewrite after undoing the link action fails only after
   the rename: memory still lists the action and the file does not. An `up` on
   that manager finds it listed, writes nothing, and sets the MTU. The file
   covered the kernel before that command and does not afterwards.
   */
  lemma {:induction false} JournalLeftBehind()
    returns (k0: Kernel, k1: Kernel, k: Kernel, memory: State, file: State)
    ensures GoodOrigin(k0) && Covers(k0, k1, memory) && memory.table in k1.tables
    ensures k1 != k && |memory.undo| == 2 && FailedDrop(k1, memory, 1, k, file)
    ensures Covers(k0, k, memory) && Covers(k0, k, file)
    ensures AliasOn(k, "porta0", memory.table) && HasLink(memory.undo, "porta0") && memory.interface == Some("porta0")
    ensures Exists(k, LinkCell("porta0")) && !Covers(k0, Write(k, LinkCell("porta0"), Setting(1280, true)), file)
  {
    var tun := Link(true, "", 1500, false, {}, NO_DNS);
    k0 := Kernel(map["porta0" := tun], {}, map[]);
    var link := LinkAction("porta0", 1500, false);
    k, file := ExampleAlias(k0);
    memory := file.(undo := file.undo + [link]);
    assert Honest(k0, link, file.metric);
    SoundOf(k0, k, file);
    MayAppend(file, k0, link);
    AppendKeeps(k0, k, file, link);
    assert Without(memory.undo, 1) == file.undo;
    assert link in memory.undo;
    assert Cells(file) == {AliasCell("porta0")};
    k1 := ExampleLink(k0, k, memory);
    LastMayUndo(memory.undo);
    assert memory.undo[1] == link;
    hide Covers;
    ChangeCoveredExactly(k0, k, file, LinkCell("porta0"), Setting(1280, true));
  }

  /** The link command of `up` under that journal, which undoing takes back. */
  lemma {:induction false} ExampleLink(k0: Kernel, k: Kernel, memory: State) returns (k1: Kernel)
    requires Covers(k0, k, memory) && LinkAction("porta0", 1500, false) in memory.undo && memory.table in k.tables
    requires "porta0" in k.links && k.links["porta0"].mtu == 1500 && !k.links["porta0"].up
    requires AliasOn(k, "porta0", memory.table)
    ensures Covers(k0, k1, memory) && k1 != k && memory.table in k1.tables
    ensures Undone(k1, memory.table, memory.metric, LinkAction("porta0", 1500, false)) == k
  {
    var link := LinkAction("porta0", 1500, false);
    k1 := Write(k, LinkCell("porta0"), Setting(1280, true));
    ListedCell(memory, link);
    assert k1.links["porta0"].mtu == 1280;
    hide Covers;
    ChangeIsCovered(k0, k, memory, LinkCell("porta0"), Setting(1280, true));
    assert k1.links["porta0"].(mtu := 1500, up := false) == k.links["porta0"];
    assert k1.links["porta0" := k.links["porta0"]] == k.links;
  }

  const EXAMPLE := "porta_0000000000000000"

  /** A guarded kernel whose interface carries the alias, built by the journal's own steps. */
  lemma {:induction false} ExampleAlias(k0: Kernel) returns (k: Kernel, s: State)
    requires k0 == Kernel(map["porta0" := Link(true, "", 1500, false, {}, NO_DNS)], {}, map[])
    ensures Covers(k0, k, s) && s.undo == [AliasAction("porta0")] && s.interface == Some("porta0")
    ensures AliasOn(k, "porta0", s.table) && s.table in k.tables && |s.endpoints| == 0
    ensures "porta0" in k.links && k.links["porta0"].mtu == 1500 && !k.links["porta0"].up
  {
    var alias := AliasAction("porta0");
    s := State(EXAMPLE, 40_000, None, [], []);
    FreshJournal(k0, k0, EXAMPLE, 40_000);
    k := WithTable(k0, EXAMPLE, Rules(None, []));
    GuardKeeps(k0, k0, s, Rules(None, []));
    HeaderKeeps(k0, k, s, Some("porta0"), []);
    s := s.(interface := Some("porta0"));
    AliasMayAppend(s, "porta0");
    assert Honest(k0, alias, s.metric);
    AppendKeeps(k0, k, s, alias);
    s := s.(undo := s.undo + [alias]);
    assert s.undo == [alias];
    ListedCell(s, alias);
    ChangeIsCovered(k0, k, s, AliasCell("porta0"), Text(AliasOf(EXAMPLE)));
    k := Write(k, AliasCell("porta0"), Text(AliasOf(EXAMPLE)));
  }

  /** Installing the guard is recoverable exactly when the file already names its table. */
  lemma {:induction false} GuardNeedsJournal(k0: Kernel, k: Kernel, file: Option<State>, table: string, rules: Rules)
    requires Recoverable(k0, k, file) && table !in k0.tables && table !in k.tables
    ensures Recoverable(k0, WithTable(k, table, rules), file) <==> file.Some? && file.value.table == table
  {
    hide Changed, Cells, Sound;
    if file.Some? && file.value.table == table {
      hide Covers;
      GuardKeeps(k0, k, file.value, rules);
    } else {
      assert table in WithTable(k, table, rules).tables;
      if file.Some? {
        assert table in WithTable(k, table, rules).tables - {file.value.table};
        assert table !in k0.tables - {file.value.table};
      }
    }
  }

  /**
   `resolvectl revert` restores the original resolver configuration exactly when
   the original had no default-route setting of its own, which `up`, checking
   servers and domains only, does not ask.
   */
  lemma {:induction false} RevertRestoresExactly(k0: Kernel, k: Kernel, table: string, metric: nat, i: Name)
    requires SameShape(k0, k) && AliasOn(k, i, table)
    requires k0.links[i].dns.servers == "" && k0.links[i].dns.domains == ""
    ensures var k' := Undone(k, table, metric, DnsAction(i));
      Exists(k', DnsCell(i)) && (Read(k', DnsCell(i)) == Read(k0, DnsCell(i)) <==> k0.links[i].dns.defaultRoute.None?)
  {
  }
}
