/**
 UploadQueue of rust/porta-client/src/tunnel/h2_queue.rs: the bounded queue in
 front of one HTTP/2 upload lane. Overflow drops datagrams first, then (for an
 incoming control packet) control packets; age drops anything. A ghost log
 gives every accepted packet one fate.
 */
module UploadQueue {
  import opened Bytes
  import opened Classify

  datatype QueueConfig = QueueConfig(maxPackets: nat, maxBytes: nat, tcpMaxAge: nat, datagramMaxAge: nat,
                                     controlMaxAge: nat)

  datatype Queued = Queued(data: seq<byte>, kind: PacketClass, enqueued: int)

  datatype Enqueued = Accepted | Unavailable(packet: seq<byte>) | Full(packet: seq<byte>)

  datatype Taken = Batch(packets: seq<seq<byte>>) | Ended | Waiting

  datatype Fate = Held | Delivered | Evicted | Expired | Cleared

  /** Every packet ever accepted with its fate, and what was handed out, in that order. */
  datatype Log = Log(accepted: seq<Queued>, fates: seq<Fate>, delivered: seq<Queued>)

  function Total(items: seq<Queued>): nat {
    if items == [] then 0 else |items[0].data| + Total(items[1..])
  }

  function Removed(items: seq<Queued>, k: nat): (r: seq<Queued>)
    requires k < |items|
  {
    items[..k] + items[k + 1..]
  }

  function Payloads(items: seq<Queued>): (r: seq<seq<byte>>)
    ensures |r| == |items|
    ensures forall k :: 0 <= k < |items| ==> r[k] == items[k].data
  {
    seq(|items|, k requires 0 <= k < |items| => items[k].data)
  }

  // Age.

  function MaxAge(config: QueueConfig, kind: PacketClass): nat {
    match kind
    case Tcp => config.tcpMaxAge
    case Control => config.controlMaxAge
    case Datagram => config.datagramMaxAge
  }

  /** The age of a packet; zero when the clock is behind its arrival. */
  predicate IsFresh(config: QueueConfig, item: Queued, now: int) {
    Max(0, now - item.enqueued) < MaxAge(config, item.kind)
  }

  function Fresh(config: QueueConfig, items: seq<Queued>, now: int): (r: seq<Queued>)
    ensures forall k :: 0 <= k < |r| ==> IsFresh(config, r[k], now)
    ensures |r| <= |items|
  {
    if items == [] then []
    else (if IsFresh(config, items[0], now) then [items[0]] else []) + Fresh(config, items[1..], now)
  }

  // Overflow.

  predicate Fits(config: QueueConfig, items: seq<Queued>, extra: nat) {
    |items| < config.maxPackets && Total(items) + extra <= config.maxBytes
  }

  predicate Replaceable(item: Queued, incoming: PacketClass) {
    item.kind == Datagram || (item.kind == Control && incoming == Control)
  }

  /** The packets that an incoming packet of this class can never push out. */
  function Protected(items: seq<Queued>, incoming: PacketClass): seq<Queued> {
    if items == [] then []
    else (if Replaceable(items[0], incoming) then [] else [items[0]]) + Protected(items[1..], incoming)
  }

  function Position(items: seq<Queued>, kind: PacketClass): (r: Option<nat>)
    ensures r.Some? ==> r.value < |items| && items[r.value].kind == kind
    ensures forall k :: 0 <= k < (if r.Some? then r.value else |items|) ==> items[k].kind != kind
  {
    if items == [] then None
    else if items[0].kind == kind then Some(0)
    else
      var rest := Position(items[1..], kind);
      if rest.None? then None else Some(rest.value + 1)
  }

  function OldestReplaceable(items: seq<Queued>, incoming: PacketClass): (r: Option<nat>)
    ensures r.Some? ==> r.value < |items| && Replaceable(items[r.value], incoming)
    ensures r.None? ==> forall k :: 0 <= k < |items| ==> !Replaceable(items[k], incoming)
  {
    var datagram := Position(items, Datagram);
    if datagram.None? && incoming == Control then Position(items, Control) else datagram
  }

  /** Without the first `n` packets of a class. */
  function DropFirst(items: seq<Queued>, kind: PacketClass, n: nat): seq<Queued> {
    if items == [] || n == 0 then items
    else if items[0].kind == kind then DropFirst(items[1..], kind, n - 1)
    else [items[0]] + DropFirst(items[1..], kind, n)
  }

  function Count(items: seq<Queued>, kind: PacketClass): nat {
    if items == [] then 0 else (if items[0].kind == kind then 1 else 0) + Count(items[1..], kind)
  }

  /** After `n` evictions: the oldest datagrams go, and only then, for a control packet, the oldest control packets. */
  function Evictions(items: seq<Queued>, incoming: PacketClass, n: nat): seq<Queued> {
    var datagrams := Count(items, Datagram);
    if n <= datagrams || incoming != Control then DropFirst(items, Datagram, n)
    else DropFirst(DropFirst(items, Datagram, datagrams), Control, n - datagrams)
  }

  // Batches.

  /** A batch takes the first `n` packets: one at least, then as many as both limits admit. */
  ghost predicate FullestBatch(items: seq<Queued>, maxPackets: nat, maxBytes: nat, n: nat) {
    && n <= |items| && n <= maxPackets
    && (n == 0 ==> items == [] || maxPackets == 0)
    && (n > 1 ==> Total(items[..n]) <= maxBytes)
    && (0 < n < |items| && n < maxPackets ==> Total(items[..n + 1]) > maxBytes)
  }

  // The log.

  ghost function Select(items: seq<Queued>, fates: seq<Fate>, fate: Fate): (r: seq<Queued>)
    requires |items| == |fates|
  {
    if items == [] then []
    else (if fates[0] == fate then [items[0]] else []) + Select(items[1..], fates[1..], fate)
  }

  ghost function Having(log: Log, fate: Fate): seq<Queued>
    requires |log.accepted| == |log.fates|
  {
    Select(log.accepted, log.fates, fate)
  }

  ghost predicate InTurn(fates: seq<Fate>) {
    forall i, j :: 0 <= i < j < |fates| && fates[i] == Held ==> fates[j] != Delivered
  }

  ghost predicate SparesTcp(log: Log)
    requires |log.accepted| == |log.fates|
  {
    forall i :: 0 <= i < |log.fates| && log.fates[i] == Evicted ==> log.accepted[i].kind != Tcp
  }

  /**
   The queue holds the accepted packets without another fate, in their order;
   what was handed out is in that order too; nothing is handed out before an
   older packet's fate is known; and overflow never took a TCP packet.
   */
  ghost predicate Tracks(log: Log, items: seq<Queued>) {
    && |log.accepted| == |log.fates|
    && items == Having(log, Held)
    && log.delivered == Having(log, Delivered)
    && InTurn(log.fates)
    && SparesTcp(log)
  }

  /** A log only grows, and a fate is final. */
  ghost predicate Extends(before: Log, after: Log) {
    && |before.accepted| == |before.fates| <= |after.accepted| == |after.fates|
    && (forall i :: 0 <= i < |before.accepted| ==> after.accepted[i] == before.accepted[i])
    && (forall i :: 0 <= i < |before.fates| && before.fates[i] != Held ==> after.fates[i] == before.fates[i])
    && |before.delivered| <= |after.delivered| && after.delivered[..|before.delivered|] == before.delivered
  }

  function Settled(log: Log, p: nat, fate: Fate): Log
    requires p < |log.accepted| == |log.fates|
  {
    var delivered := if fate == Delivered then log.delivered + [log.accepted[p]] else log.delivered;
    Log(log.accepted, log.fates[p := fate], delivered)
  }

  function AcceptedMore(log: Log, item: Queued): Log {
    Log(log.accepted + [item], log.fates + [Held], log.delivered)
  }

  function ClearedFates(fates: seq<Fate>): (r: seq<Fate>)
    ensures |r| == |fates|
    ensures forall i :: 0 <= i < |fates| ==> r[i] == if fates[i] == Held then Cleared else fates[i]
  {
    seq(|fates|, i requires 0 <= i < |fates| => if fates[i] == Held then Cleared else fates[i])
  }

  function ClearedLog(log: Log): Log {
    log.(fates := ClearedFates(log.fates))
  }

  lemma {:induction false} SelectHead(items: seq<Queued>, fates: seq<Fate>, fate: Fate)
    requires 0 < |items| == |fates|
    ensures Select(items, fates, fate) ==
      (if fates[0] == fate then [items[0]] else []) + Select(items[1..], fates[1..], fate)
  {
  }

  lemma {:induction false} SelectConcat(a: seq<Queued>, fa: seq<Fate>, b: seq<Queued>, fb: seq<Fate>, fate: Fate)
    requires |a| == |fa| && |b| == |fb|
    ensures Select(a + b, fa + fb, fate) == Select(a, fa, fate) + Select(b, fb, fate)
  {
    if a == [] {
      assert a + b == b && fa + fb == fb;
    } else {
      hide Select;
      SelectConcat(a[1..], fa[1..], b, fb, fate);
      TailOfConcat(a, b);
      TailOfConcat(fa, fb);
      SelectHead(a, fa, fate);
      SelectHead(a + b, fa + fb, fate);
      ConcatAssociates(if fa[0] == fate then [a[0]] else [], Select(a[1..], fa[1..], fate), Select(b, fb, fate));
    }
  }

  lemma {:induction false} SelectAround(items: seq<Queued>, fates: seq<Fate>, p: nat, fate: Fate)
    requires p < |items| == |fates|
    ensures Select(items, fates, fate) ==
      Select(items[..p], fates[..p], fate) + (if fates[p] == fate then [items[p]] else []) +
      Select(items[p + 1..], fates[p + 1..], fate)
  {
    assert items == items[..p] + items[p..] && fates == fates[..p] + fates[p..];
    assert items[p..][1..] == items[p + 1..] && fates[p..][1..] == fates[p + 1..];
    SelectConcat(items[..p], fates[..p], items[p..], fates[p..], fate);
  }

  lemma {:induction false} SelectNone(items: seq<Queued>, fates: seq<Fate>, fate: Fate)
    requires |items| == |fates|
    ensures Select(items, fates, fate) == [] <==> forall i :: 0 <= i < |fates| ==> fates[i] != fate
  {
    if items != [] {
      SelectNone(items[1..], fates[1..], fate);
      assert forall i :: 0 < i < |fates| ==> fates[i] == fates[1..][i - 1];
    }
  }

  lemma {:induction false} FindSelected(items: seq<Queued>, fates: seq<Fate>, fate: Fate, k: nat) returns (p: nat)
    requires |items| == |fates| && k < |Select(items, fates, fate)|
    ensures p < |items| && fates[p] == fate
    ensures |Select(items[..p], fates[..p], fate)| == k
  {
    if fates[0] == fate && k == 0 {
      p := 0;
    } else {
      var q := FindSelected(items[1..], fates[1..], fate, if fates[0] == fate then k - 1 else k);
      p := q + 1;
      hide Select;
      assert items[..p][1..] == items[1..][..q] && fates[..p][1..] == fates[1..][..q];
      SelectHead(items[..p], fates[..p], fate);
    }
  }

  /** Where the selected packet `k` stands. */
  lemma {:induction false} Locate(items: seq<Queued>, fates: seq<Fate>, fate: Fate, k: nat) returns (p: nat)
    requires |items| == |fates| && k < |Select(items, fates, fate)|
    ensures p < |items| && fates[p] == fate && items[p] == Select(items, fates, fate)[k]
    ensures Select(items[..p], fates[..p], fate) == Select(items, fates, fate)[..k]
    ensures Select(items[p + 1..], fates[p + 1..], fate) == Select(items, fates, fate)[k + 1..]
  {
    hide Select;
    p := FindSelected(items, fates, fate, k);
    SelectAround(items, fates, p, fate);
  }

  /** Changing one fate moves one packet from one selection to the other. */
  lemma {:induction false} Reselect(items: seq<Queued>, fates: seq<Fate>, p: nat, next: Fate, fate: Fate)
    requires p < |items| == |fates|
    ensures Select(items, fates[p := next], fate) ==
      Select(items[..p], fates[..p], fate) + (if next == fate then [items[p]] else []) +
      Select(items[p + 1..], fates[p + 1..], fate)
  {
    var changed := fates[p := next];
    assert changed[..p] == fates[..p] && changed[p + 1..] == fates[p + 1..];
    SelectAround(items, changed, p, fate);
  }

  ghost predicate Counted(before: Log, after: Log, fate: Fate, more: nat)
    requires |before.accepted| == |before.fates| && |after.accepted| == |after.fates|
  {
    |Having(after, fate)| == |Having(before, fate)| + more
  }

  /** Settling the fate of the packet at `k` in the queue. */
  lemma {:induction false} Settle(log: Log, items: seq<Queued>, k: nat, fate: Fate) returns (p: nat)
    requires Tracks(log, items) && k < |items| && fate != Held
    requires fate == Delivered ==> k == 0
    requires fate == Evicted ==> items[k].kind != Tcp
    ensures p < |log.accepted| == |log.fates|
    ensures Tracks(Settled(log, p, fate), Removed(items, k)) && Extends(log, Settled(log, p, fate))
    ensures log.accepted[p] == items[k]
    ensures Counted(log, Settled(log, p, fate), Evicted, if fate == Evicted then 1 else 0)
    ensures Counted(log, Settled(log, p, fate), Expired, if fate == Expired then 1 else 0)
  {
    hide Select;
    p := Locate(log.accepted, log.fates, Held, k);
    SettledAt(log, items, k, p, fate);
    SettledCount(log, p, fate, Evicted);
    SettledCount(log, p, fate, Expired);
  }

  lemma {:induction false} SettledCount(log: Log, p: nat, fate: Fate, counted: Fate)
    requires p < |log.accepted| == |log.fates| && log.fates[p] == Held && counted != Held
    ensures Counted(log, Settled(log, p, fate), counted, if fate == counted then 1 else 0)
  {
    hide Select;
    Reselect(log.accepted, log.fates, p, fate, counted);
    SelectAround(log.accepted, log.fates, p, counted);
  }

  lemma {:induction false} StillInTurn(items: seq<Queued>, fates: seq<Fate>, p: nat, fate: Fate)
    requires InTurn(fates) && p < |items| == |fates| && fates[p] == Held && fate != Held
    requires fate == Delivered ==> Select(items[..p], fates[..p], Held) == []
    ensures InTurn(fates[p := fate])
    ensures Select(items[p + 1..], fates[p + 1..], Delivered) == []
  {
    SelectNone(items[..p], fates[..p], Held);
    SelectNone(items[p + 1..], fates[p + 1..], Delivered);
    hide Select;
    assert forall i :: 0 <= i < p ==> fates[i] == fates[..p][i];
  }

  lemma {:induction false} SettledAt(log: Log, items: seq<Queued>, k: nat, p: nat, fate: Fate)
    requires Tracks(log, items) && k < |items| && fate != Held
    requires fate == Delivered ==> k == 0
    requires fate == Evicted ==> items[k].kind != Tcp
    requires p < |log.accepted| && log.fates[p] == Held && log.accepted[p] == items[k]
    requires Select(log.accepted[..p], log.fates[..p], Held) == items[..k]
    requires Select(log.accepted[p + 1..], log.fates[p + 1..], Held) == items[k + 1..]
    ensures Tracks(Settled(log, p, fate), Removed(items, k)) && Extends(log, Settled(log, p, fate))
  {
    hide Select, InTurn;
    Reselect(log.accepted, log.fates, p, fate, Held);
    Reselect(log.accepted, log.fates, p, fate, Delivered);
    SelectAround(log.accepted, log.fates, p, Delivered);
    StillInTurn(log.accepted, log.fates, p, fate);
  }

  lemma {:induction false} AcceptMore(log: Log, items: seq<Queued>, item: Queued)
    requires Tracks(log, items)
    ensures Tracks(AcceptedMore(log, item), items + [item]) && Extends(log, AcceptedMore(log, item))
    ensures Counted(log, AcceptedMore(log, item), Evicted, 0) && Counted(log, AcceptedMore(log, item), Expired, 0)
  {
    SelectConcat(log.accepted, log.fates, [item], [Held], Held);
    SelectConcat(log.accepted, log.fates, [item], [Held], Delivered);
    SelectConcat(log.accepted, log.fates, [item], [Held], Evicted);
    SelectConcat(log.accepted, log.fates, [item], [Held], Expired);
  }

  lemma {:induction false} SelectCleared(items: seq<Queued>, fates: seq<Fate>, fate: Fate)
    requires |items| == |fates| && fate != Cleared
    ensures Select(items, ClearedFates(fates), fate) == if fate == Held then [] else Select(items, fates, fate)
  {
    if items != [] {
      assert ClearedFates(fates)[1..] == ClearedFates(fates[1..]);
      SelectCleared(items[1..], fates[1..], fate);
    }
  }

  lemma {:induction false} ClearAll(log: Log, items: seq<Queued>)
    requires Tracks(log, items)
    ensures Tracks(ClearedLog(log), []) && Extends(log, ClearedLog(log))
    ensures Counted(log, ClearedLog(log), Evicted, 0) && Counted(log, ClearedLog(log), Expired, 0)
  {
    SelectCleared(log.accepted, log.fates, Held);
    SelectCleared(log.accepted, log.fates, Delivered);
    SelectCleared(log.accepted, log.fates, Evicted);
    SelectCleared(log.accepted, log.fates, Expired);
  }

  lemma {:induction false} ExtendsTwice(a: Log, b: Log, c: Log)
    requires Extends(a, b) && Extends(b, c)
    ensures Extends(a, c)
  {
    assert c.delivered[..|a.delivered|] == c.delivered[..|b.delivered|][..|a.delivered|];
  }

  function Kept(item: Queued, yes: bool): multiset<Queued> {
    if yes then multiset{item} else multiset{}
  }

  lemma {:induction false} SelectHeadBag(items: seq<Queued>, fates: seq<Fate>, fate: Fate)
    requires 0 < |items| == |fates|
    ensures multiset(Select(items, fates, fate)) ==
      Kept(items[0], fates[0] == fate) + multiset(Select(items[1..], fates[1..], fate))
  {
  }

  lemma {:induction false} WholeBag(items: seq<Queued>)
    requires items != []
    ensures multiset(items) == Kept(items[0], true) + multiset(items[1..])
  {
    assert items == [items[0]] + items[1..];
  }

  lemma {:induction false} OneOfFive(item: Queued, fate: Fate, h: multiset<Queued>, d: multiset<Queued>,
                                     v: multiset<Queued>,
                                     x: multiset<Queued>, c: multiset<Queued>)
    ensures (Kept(item, fate == Held) + h) + (Kept(item, fate == Delivered) + d) + (Kept(item, fate == Evicted) + v) +
      (Kept(item, fate == Expired) + x) + (Kept(item, fate == Cleared) + c) == Kept(item, true) + (h + d + v + x + c)
  {
  }

  /** Each accepted packet has exactly one of the five fates. */
  lemma {:induction false} Conservation(items: seq<Queued>, fates: seq<Fate>)
    requires |items| == |fates|
    ensures multiset(items) ==
      multiset(Select(items, fates, Held)) + multiset(Select(items, fates, Delivered)) +
      multiset(Select(items, fates, Evicted)) + multiset(Select(items, fates, Expired)) +
      multiset(Select(items, fates, Cleared))
  {
    if items != [] {
      Conservation(items[1..], fates[1..]);
      SelectHeadBag(items, fates, Held);
      SelectHeadBag(items, fates, Delivered);
      SelectHeadBag(items, fates, Evicted);
      SelectHeadBag(items, fates, Expired);
      SelectHeadBag(items, fates, Cleared);
      hide Select, Kept;
      var tail, rest := items[1..], fates[1..];
      OneOfFive(items[0], fates[0], multiset(Select(tail, rest, Held)), multiset(Select(tail, rest, Delivered)),
                multiset(Select(tail, rest, Evicted)), multiset(Select(tail, rest, Expired)),
                multiset(Select(tail, rest, Cleared)));
      WholeBag(items);
    }
  }

  // Sums.

  lemma {:induction false} TotalConcat(a: seq<Queued>, b: seq<Queued>)
    ensures Total(a + b) == Total(a) + Total(b)
  {
    if a == [] {
      assert a + b == b;
    } else {
      assert (a + b)[1..] == a[1..] + b;
      TotalConcat(a[1..], b);
    }
  }

  lemma {:induction false} TotalRemoved(items: seq<Queued>, k: nat)
    requires k < |items|
    ensures Total(items) == Total(Removed(items, k)) + |items[k].data|
  {
    assert items == items[..k] + items[k..];
    TotalConcat(items[..k], items[k..]);
    TotalConcat(items[..k], items[k + 1..]);
    assert items[k..][1..] == items[k + 1..];
  }

  lemma {:induction false} TotalMore(items: seq<Queued>, item: Queued)
    ensures Total(items + [item]) == Total(items) + |item.data|
  {
    TotalConcat(items, [item]);
  }

  // Expiry.

  lemma {:induction false} FreshHead(config: QueueConfig, items: seq<Queued>, now: int)
    requires items != []
    ensures Fresh(config, items, now) ==
      (if IsFresh(config, items[0], now) then [items[0]] else []) + Fresh(config, items[1..], now)
  {
  }

  lemma {:induction false} FreshConcat(config: QueueConfig, a: seq<Queued>, b: seq<Queued>, now: int)
    ensures Fresh(config, a + b, now) == Fresh(config, a, now) + Fresh(config, b, now)
  {
    if a == [] {
      assert a + b == b;
    } else {
      hide Fresh, IsFresh;
      FreshConcat(config, a[1..], b, now);
      TailOfConcat(a, b);
      FreshHead(config, a, now);
      FreshHead(config, a + b, now);
      ConcatAssociates(if IsFresh(config, a[0], now) then [a[0]] else [], Fresh(config, a[1..], now),
                       Fresh(config, b, now));
    }
  }

  /** Removing a stale packet does not change what is fresh. */
  lemma {:induction false} FreshRemoved(config: QueueConfig, items: seq<Queued>, k: nat, now: int)
    requires k < |items| && !IsFresh(config, items[k], now)
    ensures Fresh(config, Removed(items, k), now) == Fresh(config, items, now)
  {
    assert items == items[..k] + items[k..];
    FreshConcat(config, items[..k], items[k..], now);
    FreshConcat(config, items[..k], items[k + 1..], now);
    assert items[k..][1..] == items[k + 1..];
  }

  lemma {:induction false} FreshAll(config: QueueConfig, items: seq<Queued>, now: int)
    requires forall k :: 0 <= k < |items| ==> IsFresh(config, items[k], now)
    ensures Fresh(config, items, now) == items
  {
    if items != [] {
      FreshAll(config, items[1..], now);
    }
  }

  // Eviction.

  lemma {:induction false} DropFirstEnds(items: seq<Queued>, kind: PacketClass, n: nat)
    ensures Position(DropFirst(items, kind, n), kind).None? <==> n >= Count(items, kind)
  {
    if items != [] {
      var rest := if items[0].kind == kind && n > 0 then n - 1 else n;
      DropFirstEnds(items[1..], kind, rest);
      DropFirstZero(items[1..], kind);
      if n > 0 && items[0].kind != kind {
        assert DropFirst(items, kind, n)[1..] == DropFirst(items[1..], kind, n);
      }
    }
  }

  lemma {:induction false} DropFirstHead(items: seq<Queued>, kind: PacketClass, n: nat)
    requires items != []
    ensures items[0].kind == kind && n > 0 ==> DropFirst(items, kind, n) == DropFirst(items[1..], kind, n - 1)
    ensures items[0].kind != kind ==> DropFirst(items, kind, n) == [items[0]] + DropFirst(items[1..], kind, n)
    ensures DropFirst(items, kind, 0) == items
  {
  }

  lemma {:induction false} PositionHead(item: Queued, rest: seq<Queued>, kind: PacketClass)
    ensures item.kind == kind ==> Position([item] + rest, kind) == Some(0)
    ensures item.kind != kind ==>
      Position([item] + rest, kind) == if Position(rest, kind).None? then None else Some(Position(rest, kind).value + 1)
  {
    assert ([item] + rest)[1..] == rest;
  }

  function WithoutFirst(items: seq<Queued>, kind: PacketClass): seq<Queued> {
    if Position(items, kind).None? then items else Removed(items, Position(items, kind).value)
  }

  lemma {:induction false} WithoutFirstHead(item: Queued, rest: seq<Queued>, kind: PacketClass)
    ensures WithoutFirst([item] + rest, kind) == if item.kind == kind then rest else [item] + WithoutFirst(rest, kind)
  {
    hide Position;
    PositionHead(item, rest, kind);
    if item.kind != kind && Position(rest, kind).Some? {
      var k := Position(rest, kind).value;
      assert Removed([item] + rest, k + 1) == [item] + Removed(rest, k);
    } else if item.kind == kind {
      assert Removed([item] + rest, 0) == rest;
    }
  }

  lemma {:induction false} DropFirstNext(items: seq<Queued>, kind: PacketClass, n: nat)
    ensures DropFirst(items, kind, n + 1) == WithoutFirst(DropFirst(items, kind, n), kind)
  {
    if items != [] {
      hide DropFirst, WithoutFirst;
      DropFirstHead(items, kind, n);
      DropFirstHead(items, kind, n + 1);
      DropFirstZero(items[1..], kind);
      assert items == [items[0]] + items[1..];
      if items[0].kind == kind {
        if n > 0 {
          DropFirstNext(items[1..], kind, n - 1);
        } else {
          WithoutFirstHead(items[0], items[1..], kind);
        }
      } else {
        DropFirstNext(items[1..], kind, n);
        WithoutFirstHead(items[0], DropFirst(items[1..], kind, n), kind);
      }
    }
  }

  /** Removing the oldest replaceable packet is the next eviction. */
  lemma {:induction false} NextEviction(items: seq<Queued>, incoming: PacketClass, n: nat)
    ensures var rest, next := Evictions(items, incoming, n), OldestReplaceable(Evictions(items, incoming, n), incoming);
      Evictions(items, incoming, n + 1) == if next.None? then rest else Removed(rest, next.value)
  {
    hide Count, DropFirst, Position;
    var datagrams := Count(items, Datagram);
    DropFirstNext(items, Datagram, n);
    DropFirstEnds(items, Datagram, n);
    if incoming == Control && n >= datagrams {
      var tail := DropFirst(items, Datagram, datagrams);
      DropFirstEnds(items, Datagram, datagrams);
      DropFirstNext(tail, Control, n - datagrams);
      DropFirstZero(tail, Control);
      DropFirstKeeps(tail, Control, n - datagrams, Datagram);
    }
  }

  lemma {:induction false} DropFirstZero(items: seq<Queued>, kind: PacketClass)
    ensures DropFirst(items, kind, 0) == items
  {
  }

  lemma {:induction false} DropFirstKeeps(items: seq<Queued>, kind: PacketClass, n: nat, other: PacketClass)
    requires Position(items, other).None?
    ensures Position(DropFirst(items, kind, n), other).None?
  {
    if items != [] && n > 0 {
      DropFirstKeeps(items[1..], kind, if items[0].kind == kind then n - 1 else n, other);
    }
  }

  lemma {:induction false} ProtectedHead(items: seq<Queued>, incoming: PacketClass)
    requires items != []
    ensures Protected(items, incoming) ==
      (if Replaceable(items[0], incoming) then [] else [items[0]]) + Protected(items[1..], incoming)
  {
  }

  lemma {:induction false} ProtectedConcat(a: seq<Queued>, b: seq<Queued>, incoming: PacketClass)
    ensures Protected(a + b, incoming) == Protected(a, incoming) + Protected(b, incoming)
  {
    if a == [] {
      assert a + b == b;
    } else {
      hide Protected, Replaceable;
      ProtectedConcat(a[1..], b, incoming);
      TailOfConcat(a, b);
      ProtectedHead(a, incoming);
      ProtectedHead(a + b, incoming);
      ConcatAssociates(if Replaceable(a[0], incoming) then [] else [a[0]], Protected(a[1..], incoming),
                       Protected(b, incoming));
    }
  }

  lemma {:induction false} ProtectedRemoved(items: seq<Queued>, k: nat, incoming: PacketClass)
    requires k < |items| && Replaceable(items[k], incoming)
    ensures Protected(Removed(items, k), incoming) == Protected(items, incoming)
  {
    assert items == items[..k] + items[k..];
    ProtectedConcat(items[..k], items[k..], incoming);
    ProtectedConcat(items[..k], items[k + 1..], incoming);
    assert items[k..][1..] == items[k + 1..];
  }

  lemma {:induction false} ProtectedAll(items: seq<Queued>, incoming: PacketClass)
    requires forall k :: 0 <= k < |items| ==> !Replaceable(items[k], incoming)
    ensures Protected(items, incoming) == items
  {
    if items != [] {
      ProtectedAll(items[1..], incoming);
    }
  }

  lemma {:induction false} ProtectedSmaller(items: seq<Queued>, incoming: PacketClass)
    ensures |Protected(items, incoming)| <= |items| && Total(Protected(items, incoming)) <= Total(items)
  {
    if items != [] {
      ProtectedSmaller(items[1..], incoming);
      var rest := Protected(items[1..], incoming);
      assert ([items[0]] + rest)[1..] == rest;
      assert [] + rest == rest;
    }
  }

  /** What an accepted packet leaves: just enough evictions to fit, then the packet. */
  ghost predicate Placed(config: QueueConfig, items: seq<Queued>, item: Queued, n: nat, after: seq<Queued>) {
    && after == Evictions(items, item.kind, n) + [item]
    && Fits(config, Evictions(items, item.kind, n), |item.data|)
    && (n > 0 ==> !Fits(config, Evictions(items, item.kind, n - 1), |item.data|))
  }

  ghost predicate Exhausted(config: QueueConfig, items: seq<Queued>, incoming: PacketClass, extra: nat) {
    extra > config.maxBytes || config.maxPackets == 0 || !Fits(config, Protected(items, incoming), extra)
  }

  class UploadQueue {
    const config: QueueConfig
    var items: seq<Queued>
    var bytes: nat
    var closed: bool
    var active: bool
    var oldestDrops: nat
    var fullDrops: nat
    var tailDrops: nat
    var expiredDrops: nat
    var currentBytes: int
    var highWater: nat
    ghost var log: Log

    /** The log is right, the byte count and both limits hold, and an inactive queue is empty. */
    ghost predicate Valid()
      reads this
    {
      && Tracks(log, items)
      && bytes == currentBytes == Total(items)
      && |items| <= config.maxPackets
      && bytes <= highWater <= config.maxBytes
      && oldestDrops == |Having(log, Evicted)|
      && expiredDrops == |Having(log, Expired)|
      && (closed ==> !active)
      && (!active ==> items == [])
    }

    constructor (config: QueueConfig)
      ensures Valid() && this.config == config && log == Log([], [], []) && active && !closed
    {
      this.config := config;
      items := [];
      bytes := 0;
      closed := false;
      active := true;
      oldestDrops := 0;
      fullDrops := 0;
      tailDrops := 0;
      expiredDrops := 0;
      currentBytes := 0;
      highWater := 0;
      log := Log([], [], []);
    }

    method Activate()
      requires Valid()
      modifies this`active
      ensures Valid() && active == !closed
    {
      if !closed {
        active := true;
      }
    }

    method DeactivateAndClear()
      requires Valid()
      modifies this`active, this`items, this`bytes, this`currentBytes, this`log
      ensures Valid() && !active && items == [] && log == ClearedLog(old(log)) && Extends(old(log), log)
    {
      active := false;
      Clear();
    }

    method Close()
      requires Valid()
      modifies this`closed, this`active, this`items, this`bytes, this`currentBytes, this`log
      ensures Valid() && closed && !active && items == [] && Extends(old(log), log)
      ensures log == if old(closed) then old(log) else ClearedLog(old(log))
    {
      if closed {
        return;
      }
      closed := true;
      active := false;
      Clear();
    }

    method Clear()
      requires Tracks(log, items) && highWater <= config.maxBytes
      modifies this`items, this`bytes, this`currentBytes, this`log
      ensures Tracks(log, items) && bytes == currentBytes == 0 && items == [] && Total(items) == 0
      ensures log == ClearedLog(old(log)) && Extends(old(log), log)
      ensures |Having(log, Evicted)| == |old(Having(log, Evicted))|
      ensures |Having(log, Expired)| == |old(Having(log, Expired))|
    {
      hide Tracks, Extends;
      TrackedLengths(log, items);
      ClearAll(log, items);
      items := [];
      bytes := 0;
      currentBytes := 0;
      log := ClearedLog(log);
    }

    /** Both byte counters move together and stop at zero; the high water mark follows a rise. */
    method AdjustBytes(delta: int)
      requires bytes == currentBytes
      modifies this`bytes, this`currentBytes, this`highWater
      ensures bytes == currentBytes == Max(0, old(bytes) + delta)
      ensures highWater == Max(old(highWater), bytes)
    {
      bytes := Max(0, bytes + delta);
      currentBytes := currentBytes + delta;
      if currentBytes < 0 {
        currentBytes := 0;
        return;
      }
      highWater := Max(highWater, currentBytes);
    }

    /** Takes packet `k` out of the queue for a reason other than delivery. */
    method Discard(k: nat, ghost fate: Fate)
      requires Valid() && k < |items| && fate in {Evicted, Expired}
      requires fate == Evicted ==> items[k].kind != Tcp
      modifies this`items, this`bytes, this`currentBytes, this`highWater, this`log
      ensures items == Removed(old(items), k) && Tracks(log, items) && Extends(old(log), log)
      ensures log.accepted == old(log.accepted) && log.delivered == old(log.delivered)
      ensures bytes == currentBytes == Total(items) && highWater == old(highWater) && bytes <= highWater
      ensures Counted(old(log), log, Evicted, if fate == Evicted then 1 else 0)
      ensures Counted(old(log), log, Expired, if fate == Expired then 1 else 0)
    {
      hide Tracks, Extends, Counted, Total, Having;
      TrackedLengths(log, items);
      ghost var p := Settle(log, items, k, fate);
      TotalRemoved(items, k);
      var removed := items[k];
      items := items[..k] + items[k + 1..];
      log := Settled(log, p, fate);
      AdjustBytes(-|removed.data|);
    }

    /** Drops what is too old, in place. */
    method DropExpired(now: int)
      requires Valid()
      modifies this`items, this`bytes, this`currentBytes, this`highWater, this`log, this`expiredDrops
      ensures Valid() && Extends(old(log), log)
      ensures items == Fresh(config, old(items), now)
      ensures log.accepted == old(log.accepted) && log.delivered == old(log.delivered)
    {
      hide Tracks, Extends, Total, Having, Fresh, IsFresh;
      ValidLengths();
      ExtendsSelf(log, items);
      var index := 0;
      while index < |items|
        invariant Valid() && Extends(old(log), log) && index <= |items|
        invariant forall k :: 0 <= k < index ==> IsFresh(config, items[k], now)
        invariant Fresh(config, items, now) == Fresh(config, old(items), now)
        invariant log.accepted == old(log.accepted) && log.delivered == old(log.delivered)
        decreases |items| - index
      {
        if IsFresh(config, items[index], now) {
          index := index + 1;
          continue;
        }
        FreshRemoved(config, items, index, now);
        ghost var before := log;
        ValidLengths();
        Discard(index, Expired);
        expiredDrops := expiredDrops + 1;
        ExtendsTwice(old(log), before, log);
      }
      FreshAll(config, items, now);
    }

    /**
     An active queue takes the packet unless it can never fit or only packets it
     may not replace stand in its way; nothing else is evicted, and no more than
     needed. A packet refused for want of room has still cost the replaceable ones.
     */
    method Enqueue(packet: seq<byte>, kind: PacketClass, now: int) returns (r: Enqueued)
      requires Valid()
      modifies this`items, this`bytes, this`currentBytes, this`highWater, this`log, this`oldestDrops, this`expiredDrops,
        this`fullDrops, this`tailDrops
      ensures Valid() && Extends(old(log), log) && log.delivered == old(log.delivered)
      ensures r.Unavailable? <==> !old(active)
      ensures r.Unavailable? ==> r.packet == packet && items == old(items) && log == old(log)
      ensures r.Full? <==> old(active) && Exhausted(config, Fresh(config, old(items), now), kind, |packet|)
      ensures r.Full? ==> r.packet == packet && log.accepted == old(log.accepted)
      ensures r.Full? ==>
        && items == (if |packet| > config.maxBytes || config.maxPackets == 0 then Fresh(config, old(items), now)
                     else Protected(Fresh(config, old(items), now), kind))
        && fullDrops + tailDrops == old(fullDrops) + old(tailDrops) + 1 && (tailDrops > old(tailDrops) <==> kind == Tcp)
      ensures !r.Full? ==> fullDrops == old(fullDrops) && tailDrops == old(tailDrops)
      ensures r.Accepted? ==> log.accepted == old(log.accepted) + [Queued(packet, kind, now)]
      ensures r.Accepted? ==>
        exists n :: Placed(config, Fresh(config, old(items), now), Queued(packet, kind, now), n, items)
    {
      hide Tracks, Extends, Total, Having, Fresh, IsFresh, Evictions, Protected, OldestReplaceable, Fits, Exhausted,
        Placed, Removed;
      ValidLengths();
      ExtendsSelf(log, items);
      if closed || !active {
        return Unavailable(packet);
      }
      DropExpired(now);
      ghost var young := items;
      if |packet| > config.maxBytes || config.maxPackets == 0 {
        Hopeless(config, young, kind, |packet|);
        RecordRejected(kind);
        return Full(packet);
      }
      ghost var n := 0;
      NoEvictions(young, kind);
      while !FitsHere(|packet|)
        invariant Valid() && Extends(old(log), log) && active
        invariant log.accepted == old(log.accepted) && log.delivered == old(log.delivered)
        invariant items == Evictions(young, kind, n) && Protected(items, kind) == Protected(young, kind)
        invariant n > 0 ==> !Fits(config, Evictions(young, kind, n - 1), |packet|)
        invariant fullDrops == old(fullDrops) && tailDrops == old(tailDrops)
        decreases |items|
      {
        ValidLengths();
        var victim := OldestReplaceable(items, kind);
        NextEviction(young, kind, n);
        VictimFacts(items, kind);
        if victim.None? {
          StillExhausted(config, items, young, kind, |packet|);
          RecordRejected(kind);
          return Full(packet);
        }
        ghost var before := log;
        EvictStep(victim.value);
        ExtendsTwice(old(log), before, log);
        n := n + 1;
      }
      ghost var before := log;
      ghost var item := Queued(packet, kind, now);
      Roomy(config, items, young, item, n);
      Push(packet, kind, now);
      ExtendsTwice(old(log), before, log);
      return Accepted;
    }

    predicate FitsHere(extra: nat)
      requires Valid()
      reads this
      ensures FitsHere(extra) <==> Fits(config, items, extra)
    {
      |items| < config.maxPackets && bytes + extra <= config.maxBytes
    }

    method EvictStep(victim: nat)
      requires Valid() && active && victim < |items| && items[victim].kind != Tcp
      modifies this`items, this`bytes, this`currentBytes, this`highWater, this`log, this`oldestDrops
      ensures Valid() && items == Removed(old(items), victim) && Extends(old(log), log) && |items| < |old(items)|
      ensures log.accepted == old(log.accepted) && log.delivered == old(log.delivered)
    {
      hide Tracks, Extends, Total, Having;
      ValidLengths();
      Discard(victim, Evicted);
      oldestDrops := oldestDrops + 1;
    }

    method Push(packet: seq<byte>, kind: PacketClass, now: int)
      requires Valid() && active && Fits(config, items, |packet|)
      modifies this`items, this`bytes, this`currentBytes, this`highWater, this`log
      ensures Valid() && items == old(items) + [Queued(packet, kind, now)] && Extends(old(log), log)
      ensures log.accepted == old(log.accepted) + [Queued(packet, kind, now)] && log.delivered == old(log.delivered)
    {
      hide Tracks, Extends, Total, Having;
      ValidLengths();
      ghost var item := Queued(packet, kind, now);
      AcceptMore(log, items, item);
      TotalMore(items, item);
      AdjustBytes(|packet|);
      items := items + [Queued(packet, kind, now)];
      log := AcceptedMore(log, item);
    }

    method RecordRejected(kind: PacketClass)
      modifies this`fullDrops, this`tailDrops
      ensures tailDrops == old(tailDrops) + (if kind == Tcp then 1 else 0)
      ensures fullDrops == old(fullDrops) + (if kind == Tcp then 0 else 1)
    {
      if kind == Tcp {
        tailDrops := tailDrops + 1;
      } else {
        fullDrops := fullDrops + 1;
      }
    }

    /** One turn of the batch loop: Waiting stands for a wait on the ready notification. */
    method TakeBatch(maxPackets: nat, maxBytes: nat, now: int) returns (r: Taken)
      requires Valid()
      modifies this`items, this`bytes, this`currentBytes, this`highWater, this`log, this`expiredDrops
      ensures Valid() && Extends(old(log), log) && log.accepted == old(log.accepted)
      ensures r.Batch? <==> Fresh(config, old(items), now) != []
      ensures !r.Batch? ==> items == [] && log.delivered == old(log.delivered) && (r.Ended? <==> closed)
      ensures r.Batch? ==>
        && |r.packets| <= |Fresh(config, old(items), now)|
        && FullestBatch(Fresh(config, old(items), now), maxPackets, maxBytes, |r.packets|)
        && r.packets == Payloads(Fresh(config, old(items), now)[..|r.packets|])
        && items == Fresh(config, old(items), now)[|r.packets|..]
        && log.delivered == old(log.delivered) + Fresh(config, old(items), now)[..|r.packets|]
    {
      hide *;
      DropExpired(now);
      if items == [] {
        return if closed then Ended else Waiting;
      }
      ghost var start := log;
      var batch := Take(maxPackets, maxBytes);
      ExtendsTwice(old(log), start, log);
      return Batch(batch);
    }

    method Take(maxPackets: nat, maxBytes: nat) returns (batch: seq<seq<byte>>)
      requires Valid() && items != []
      modifies this`items, this`bytes, this`currentBytes, this`highWater, this`log
      ensures Valid() && Extends(old(log), log) && log.accepted == old(log.accepted)
      ensures FullestBatch(old(items), maxPackets, maxBytes, |batch|) && |batch| <= |old(items)|
      ensures batch == Payloads(old(items)[..|batch|]) && items == old(items)[|batch|..]
      ensures log.delivered == old(log.delivered) + old(items)[..|batch|]
    {
      hide Tracks, Extends, Total, Having, Removed, Payloads, Settled, Counted;
      ValidLengths();
      ExtendsSelf(log, items);
      TotalEmpty();
      ghost var n := 0;
      ghost var all := items;
      batch := [];
      var taken := 0;
      assert all[..0] == [] && all[0..] == all;
      while |batch| < maxPackets
        invariant n == |batch| <= |all| && n <= maxPackets
        invariant items == all[n..] && taken == Total(all[..n])
        invariant batch == Payloads(all[..n])
        invariant Tracks(log, items) && Extends(old(log), log) && log.accepted == old(log.accepted)
        invariant log.delivered == old(log.delivered) + all[..n]
        invariant |log.accepted| == |log.fates|
        invariant |Having(log, Evicted)| == oldestDrops && |Having(log, Expired)| == expiredDrops
        invariant n > 1 ==> taken <= maxBytes
        invariant bytes == currentBytes == Total(all) && highWater == old(highWater)
      {
        if items == [] {
          break;
        }
        var next := items[0];
        TotalNext(all, n);
        if batch != [] && taken + |next.data| > maxBytes {
          break;
        }
        Front(log, items);
        ghost var p := Settle(log, items, 0, Delivered);
        items := items[1..];
        ghost var before := log;
        log := Settled(log, p, Delivered);
        DeliveredNext(before, p, all, n);
        ExtendsTwice(old(log), before, log);
        taken := taken + |next.data|;
        batch := batch + [next.data];
        n := n + 1;
      }
      BatchFacts(all, maxPackets, maxBytes, n);
      AdjustBytes(-taken);
    }

    /** Drops what is too old and reports the rest. */
    method QueuedBytes(now: int) returns (r: nat)
      requires Valid()
      modifies this`items, this`bytes, this`currentBytes, this`highWater, this`log, this`expiredDrops
      ensures Valid() && Extends(old(log), log) && items == Fresh(config, old(items), now) && r == Total(items)
      ensures log.accepted == old(log.accepted) && log.delivered == old(log.delivered)
    {
      hide Tracks, Extends, Total, Having, Fresh;
      DropExpired(now);
      return bytes;
    }

    lemma {:induction false} ValidLengths()
      requires Valid()
      ensures |log.accepted| == |log.fates|
      ensures oldestDrops == |Having(log, Evicted)| && expiredDrops == |Having(log, Expired)|
    {
    }
  }

  lemma {:induction false} TrackedLengths(log: Log, items: seq<Queued>)
    requires Tracks(log, items)
    ensures |log.accepted| == |log.fates|
  {
  }

  lemma {:induction false} ExtendsSelf(log: Log, items: seq<Queued>)
    requires Tracks(log, items)
    ensures Extends(log, log)
  {
  }

  lemma {:induction false} Hopeless(config: QueueConfig, items: seq<Queued>, kind: PacketClass, extra: nat)
    requires extra > config.maxBytes || config.maxPackets == 0
    ensures Exhausted(config, items, kind, extra)
  {
  }

  lemma {:induction false} NoEvictions(items: seq<Queued>, kind: PacketClass)
    ensures Evictions(items, kind, 0) == items
  {
    DropFirstZero(items, Datagram);
  }

  lemma {:induction false} VictimFacts(items: seq<Queued>, kind: PacketClass)
    ensures var victim := OldestReplaceable(items, kind);
      && (victim.Some? ==>
            && victim.value < |items| && items[victim.value].kind != Tcp
            && Protected(Removed(items, victim.value), kind) == Protected(items, kind))
      && (victim.None? ==> Protected(items, kind) == items)
  {
    var victim := OldestReplaceable(items, kind);
    if victim.Some? {
      ProtectedRemoved(items, victim.value, kind);
    } else {
      ProtectedAll(items, kind);
    }
  }

  lemma {:induction false} StillExhausted(config: QueueConfig, items: seq<Queued>, young: seq<Queued>,
                                          kind: PacketClass, extra: nat)
    requires items == Protected(items, kind) == Protected(young, kind) && !Fits(config, items, extra)
    ensures Exhausted(config, young, kind, extra)
  {
  }

  lemma {:induction false} Roomy(config: QueueConfig, items: seq<Queued>, young: seq<Queued>, item: Queued, n: nat)
    requires items == Evictions(young, item.kind, n) && Protected(items, item.kind) == Protected(young, item.kind)
    requires Fits(config, items, |item.data|)
    requires n > 0 ==> !Fits(config, Evictions(young, item.kind, n - 1), |item.data|)
    ensures Placed(config, young, item, n, items + [item]) && !Exhausted(config, young, item.kind, |item.data|)
  {
    hide Evictions, Protected, Total;
    ProtectedSmaller(items, item.kind);
  }

  lemma {:induction false} TotalEmpty()
    ensures Total([]) == 0 && Payloads([]) == []
  {
  }

  lemma {:induction false} TotalNext(all: seq<Queued>, n: nat)
    requires n < |all|
    ensures all[..n + 1] == all[..n] + [all[n]] && all[n..][1..] == all[n + 1..] && all[n..][0] == all[n]
    ensures Total(all[..n + 1]) == Total(all[..n]) + |all[n].data|
    ensures Payloads(all[..n + 1]) == Payloads(all[..n]) + [all[n].data]
  {
    TotalMore(all[..n], all[n]);
  }

  lemma {:induction false} Front(log: Log, items: seq<Queued>)
    requires Tracks(log, items) && items != []
    ensures Removed(items, 0) == items[1..]
  {
  }

  lemma {:induction false} DeliveredNext(log: Log, p: nat, all: seq<Queued>, n: nat)
    requires p < |log.accepted| == |log.fates|
    ensures Settled(log, p, Delivered).delivered == log.delivered + [log.accepted[p]]
    ensures Settled(log, p, Delivered).accepted == log.accepted
    ensures |Settled(log, p, Delivered).fates| == |log.fates|
    ensures Counted(log, Settled(log, p, Delivered), Evicted, 0) ==>
      |Having(Settled(log, p, Delivered), Evicted)| == |Having(log, Evicted)|
    ensures Counted(log, Settled(log, p, Delivered), Expired, 0) ==>
      |Having(Settled(log, p, Delivered), Expired)| == |Having(log, Expired)|
  {
  }

  lemma {:induction false} BatchFacts(all: seq<Queued>, maxPackets: nat, maxBytes: nat, n: nat)
    requires n <= |all|
    ensures Total(all) == Total(all[..n]) + Total(all[n..])
  {
    assert all == all[..n] + all[n..];
    TotalConcat(all[..n], all[n..]);
  }

  // Whole runs.

  datatype Operation =
    | EnqueueOp(packet: seq<byte>, kind: PacketClass, now: int)
    | TakeOp(maxPackets: nat, maxBytes: nat, now: int)
    | MeasureOp(now: int)
    | ActivateOp
    | DeactivateOp
    | CloseOp

  /** What was handed out, in order, at increasing places of what was accepted. */
  ghost predicate InOrder(places: seq<nat>, delivered: seq<Queued>, accepted: seq<Queued>) {
    && |places| == |delivered|
    && (forall i :: 0 <= i < |places| ==> places[i] < |accepted| && accepted[places[i]] == delivered[i])
    && (forall i, j :: 0 <= i < j < |places| ==> places[i] < places[j])
  }

  lemma {:induction false} InOrderLength(places: seq<nat>, part: seq<Queued>, whole: seq<Queued>)
    requires InOrder(places, part, whole)
    ensures forall i :: 0 <= i < |places| ==> places[i] < |whole|
  {
  }

  lemma {:induction false} InOrderMore(places: seq<nat>, part: seq<Queued>, whole: seq<Queued>, item: Queued)
    requires InOrder(places, part, whole)
    ensures InOrder(places, part, whole + [item]) && InOrder(places + [|whole|], part + [item], whole + [item])
  {
  }

  lemma {:induction false} SelectLast(items: seq<Queued>, fates: seq<Fate>, fate: Fate)
    requires 0 < |items| == |fates|
    ensures var n := |items| - 1;
      Select(items, fates, fate) == Select(items[..n], fates[..n], fate) + if fates[n] == fate then [items[n]] else []
  {
    var n := |items| - 1;
    SelectNone([], [], fate);
    hide Select;
    SelectAround(items, fates, n, fate);
    assert items[n + 1..] == [] && fates[n + 1..] == [];
  }

  lemma {:induction false} SelectInOrder(items: seq<Queued>, fates: seq<Fate>, fate: Fate) returns (places: seq<nat>)
    requires |items| == |fates|
    ensures InOrder(places, Select(items, fates, fate), items)
    ensures forall i :: 0 <= i < |places| ==> places[i] < |fates| && fates[places[i]] == fate
  {
    if items == [] {
      places := [];
    } else {
      hide Select, InOrder;
      var last := |items| - 1;
      var rest := SelectInOrder(items[..last], fates[..last], fate);
      places := rest + if fates[last] == fate then [last] else [];
      SelectLast(items, fates, fate);
      InOrderMore(rest, Select(items[..last], fates[..last], fate), items[..last], items[last]);
      InOrderLength(rest, Select(items[..last], fates[..last], fate), items[..last]);
      assert items[..last] + [items[last]] == items;
      assert forall i :: 0 <= i < |rest| ==> fates[rest[i]] == fates[..last][rest[i]];
    }
  }

  /**
   After any run of operations at any times: the limits hold, each accepted
   packet has one fate, the packets handed out are in the order they were
   accepted, and the drop counters count the evicted and the expired.
   */
  method AnyRun(config: QueueConfig, ops: seq<Operation>) returns (queue: UploadQueue, out: seq<seq<byte>>)
    ensures queue.Valid() && queue.config == config
    ensures |queue.items| <= config.maxPackets
    ensures Total(queue.items) == queue.bytes == queue.currentBytes <= config.maxBytes
    ensures Payloads(queue.log.delivered) == out
    ensures exists places :: InOrder(places, queue.log.delivered, queue.log.accepted)
    ensures SparesTcp(queue.log)
    ensures multiset(queue.log.accepted) ==
      multiset(queue.items) + multiset(queue.log.delivered) + multiset(Having(queue.log, Evicted)) +
      multiset(Having(queue.log, Expired)) + multiset(Having(queue.log, Cleared))
    ensures |queue.log.accepted| ==
      |queue.items| + |out| + queue.oldestDrops + queue.expiredDrops + |Having(queue.log, Cleared)|
  {
    queue := new UploadQueue(config);
    out := [];
    for i := 0 to |ops|
      invariant fresh(queue) && queue.Valid() && queue.config == config && Payloads(queue.log.delivered) == out
    {
      hide UploadQueue.Valid, Extends, ClearedLog;
      var more := Step(queue, ops[i]);
      PayloadsConcat(queue.log.delivered, |out|);
      out := out + more;
    }
    ghost var log := queue.log;
    ghost var places := SelectInOrder(log.accepted, log.fates, Delivered);
    assert InOrder(places, log.delivered, log.accepted);
    Conservation(log.accepted, log.fates);
    hide Select;
    BagSize(queue.items, log.delivered, Having(log, Evicted), Having(log, Expired), Having(log, Cleared), log.accepted);
  }

  /** One operation of a run and the packets it hands out. */
  method Step(queue: UploadQueue, op: Operation) returns (more: seq<seq<byte>>)
    requires queue.Valid()
    modifies queue
    ensures queue.Valid()
    ensures |old(queue.log.delivered)| <= |queue.log.delivered|
    ensures queue.log.delivered[..|old(queue.log.delivered)|] == old(queue.log.delivered)
    ensures more == Payloads(queue.log.delivered[|old(queue.log.delivered)|..])
    ensures !op.EnqueueOp? ==> queue.log.accepted == old(queue.log.accepted)
  {
    hide UploadQueue.Valid, ClearedFates, Fresh, FullestBatch, Exhausted, Placed;
    ghost var before := queue.log.delivered;
    more := [];
    match op
    case EnqueueOp(packet, kind, now) =>
      var _ := queue.Enqueue(packet, kind, now);
    case TakeOp(maxPackets, maxBytes, now) =>
      var taken := queue.TakeBatch(maxPackets, maxBytes, now);
      if taken.Batch? {
        more := taken.packets;
        ghost var batch := queue.log.delivered[|before|..];
        assert more == Payloads(batch);
      }
    case MeasureOp(now) =>
      var _ := queue.QueuedBytes(now);
    case ActivateOp =>
      queue.Activate();
    case DeactivateOp =>
      queue.DeactivateAndClear();
    case CloseOp =>
      queue.Close();
  }

  lemma {:induction false} PayloadsConcat(items: seq<Queued>, n: nat)
    requires n <= |items|
    ensures Payloads(items) == Payloads(items[..n]) + Payloads(items[n..])
  {
  }

  lemma {:induction false} BagSize(h: seq<Queued>, d: seq<Queued>, v: seq<Queued>, x: seq<Queued>, c: seq<Queued>,
                                   all: seq<Queued>)
    requires multiset(all) == multiset(h) + multiset(d) + multiset(v) + multiset(x) + multiset(c)
    ensures |all| == |h| + |d| + |v| + |x| + |c|
  {
    assert |multiset(all)| == |all|;
  }
}
