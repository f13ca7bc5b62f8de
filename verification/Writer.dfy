/**
 PacketWriter of rust/porta-client/src/tunnel/h3.rs: one outgoing packet is
 sent, cut, retried, answered with ICMP or put in a capsule, while the path
 capacity shrinks between any two steps. The transport is an adversary: every
 answer it gives is arbitrary.
 */
module Writer {
  import opened Bytes
  import opened Ipv4
  import opened Options
  import opened Fragment
  import Icmp
  import opened Feedback

  const DATAGRAM_RACE_RETRIES := 2

  datatype Lease = Lease(address: Icmp.Address, prefixLen: byte, gateway: Option<Icmp.Address>, mtu: nat)

  datatype ClientError =
    | UnusableCapacity
    | CannotFragment(error: MtuError)
    | CannotBuildFeedback(error: MtuError)
    | FeedbackViolatesLimits
    | InboundClosed
    | CapsuleFailed
    | ConnectionLost

  datatype DatagramResult = Sent | TooLarge | NotAvailable | Lost

  /** A packet handed to the peer, and the limit in force at that moment. */
  datatype Emission = AsDatagram(packet: Packet, limit: nat) | AsCapsule(packet: Packet)

  function Packets(es: seq<Emission>): (r: seq<Packet>)
    ensures |r| == |es|
    ensures forall i :: 0 <= i < |es| ==> r[i] == es[i].packet
  {
    seq(|es|, i requires 0 <= i < |es| => es[i].packet)
  }

  /**
   An arbitrary QUIC connection; it only records what it was given. A reliable
   one still shrinks, races and loses datagrams, but does not itself fail.
   */
  class Transport {
    const reliable: bool
    ghost var sent: seq<Emission>
    ghost var inbound: seq<Packet>

    method IpCapacity() returns (capacity: Option<nat>)
      ensures reliable && capacity.Some? ==> capacity.value >= MIN_IPV4_MTU
    {
      capacity := *;
      if reliable && capacity.Some? && capacity.value < MIN_IPV4_MTU {
        capacity := None;
      }
    }

    method Rtt() returns (rtt: nat) {
      rtt := *;
    }

    method SendDatagram(packet: Packet, ghost limit: nat) returns (r: DatagramResult)
      modifies this`sent
      ensures sent == if r == Sent then old(sent) + [AsDatagram(packet, limit)] else old(sent)
      ensures reliable ==> r != Lost
    {
      r := *;
      if reliable && r == Lost {
        r := TooLarge;
      }
      if r == Sent {
        sent := sent + [AsDatagram(packet, limit)];
      }
    }

    /** A failed capsule may or may not have reached the peer. */
    method SendCapsule(packet: Packet) returns (ok: bool)
      modifies this`sent
      ensures ok ==> sent == old(sent) + [AsCapsule(packet)]
      ensures sent == old(sent) || sent == old(sent) + [AsCapsule(packet)]
      ensures reliable ==> ok
    {
      ok := *;
      ok := ok || reliable;
      var reached: bool := *;
      if ok || reached {
        sent := sent + [AsCapsule(packet)];
      }
    }

    method DeliverInbound(packet: Packet) returns (ok: bool)
      modifies this`inbound
      ensures inbound == old(inbound) || inbound == old(inbound) + [packet]
      ensures ok ==> inbound == old(inbound) + [packet]
      ensures reliable ==> ok
    {
      ok := *;
      ok := ok || reliable;
      if ok {
        inbound := inbound + [packet];
      }
    }
  }

  predicate DoNotFragment(p: Packet) {
    |p| >= 20 && DontFragment(p)
  }

  /** The checks of Connection::send. */
  predicate Accepted(lease: Lease, p: Packet) {
    |p| <= lease.mtu && Parse(p).Ok? && Parse(p).value.source == lease.address
  }

  // How far one packet has got.

  /**
   What has been emitted and what is still pending: a DF packet is whole and
   in one place at most; any other is covered, in order, exactly once.
   */
  ghost predicate Progress(packet: Packet, emitted: seq<Packet>, pending: seq<Packet>) {
    && (forall i :: 0 <= i < |emitted| ==> |emitted[i]| <= |packet|)
    && (forall i :: 0 <= i < |pending| ==> |pending[i]| <= |packet|)
    && if DoNotFragment(packet) then
         || (emitted == [] && (pending == [] || pending == [packet]))
         || (emitted == [packet] && pending == [])
       else
         && Join(Views(emitted + pending)) == Some(View(packet))
         && forall i :: 0 <= i < |pending| ==> !DoNotFragment(pending[i])
  }

  lemma {:induction false} ProgressStart(packet: Packet)
    ensures Progress(packet, [], [packet])
  {
    hide View, DoNotFragment;
    assert [] + [packet] == [packet];
  }

  lemma {:induction false} ProgressSend(packet: Packet, emitted: seq<Packet>, pending: seq<Packet>)
    requires Progress(packet, emitted, pending) && |pending| > 0
    ensures Progress(packet, emitted + [pending[0]], pending[1..])
  {
    hide View, Join, DoNotFragment;
    assert emitted + [pending[0]] + pending[1..] == emitted + pending;
  }

  lemma {:induction false} ProgressDrop(packet: Packet, emitted: seq<Packet>, pending: seq<Packet>)
    requires Progress(packet, emitted, pending) && |pending| > 0 && DoNotFragment(packet)
    ensures emitted == [] && pending == [packet] && Progress(packet, emitted, [])
  {
    hide View, Join;
  }

  /** A successful cut means the packet may be cut, and so may its pieces. */
  lemma {:induction false} CutIsAllowed(p: Packet, mtu: nat)
    requires Fragments(p, mtu).Ok? && |p| > mtu
    ensures !DoNotFragment(p)
    ensures forall i :: 0 <= i < |Fragments(p, mtu).value| ==>
      !DoNotFragment(Fragments(p, mtu).value[i]) && |Fragments(p, mtu).value[i]| <= mtu
  {
    CutJob(p, mtu);
    hide Fragments, HeaderVerifies, Parse, Flags, CopiedOptions, CutJob?, ValidJob;
    FragmentsReassemble(p, mtu);
  }

  lemma {:induction false} ReplaceHead(emitted: seq<Packet>, pending: seq<Packet>, fs: seq<Packet>)
    requires |pending| > 0 && Join(Views(fs)) == Some(View(pending[0]))
    ensures Join(Views(emitted + (fs + pending[1..]))) == Join(Views(emitted + pending))
  {
    hide *;
    var whole := emitted + pending;
    SpliceViews(whole, |emitted|, fs);
    assert whole[..|emitted|] == emitted && whole[|emitted| + 1..] == pending[1..];
    assert emitted + (fs + pending[1..]) == emitted + fs + pending[1..];
  }

  lemma {:induction false} ProgressCut(packet: Packet, emitted: seq<Packet>, pending: seq<Packet>, mtu: nat)
    requires Progress(packet, emitted, pending) && |pending| > 0
    requires |pending[0]| > mtu && Fragments(pending[0], mtu).Ok?
    ensures Progress(packet, emitted, Fragments(pending[0], mtu).value + pending[1..])
  {
    hide View, Views, Join, Fragments, DoNotFragment;
    CutIsAllowed(pending[0], mtu);
    hide CutFrom, CopiedOptions, OptionsOf, Parse, HeaderLength;
    FragmentsReassemble(pending[0], mtu);
    ReplaceHead(emitted, pending, Fragments(pending[0], mtu).value);
  }

  /** Only DF packets are refused for being too long. */
  lemma {:induction false} RefusalMeansDf(p: Packet, mtu: nat)
    ensures Fragments(p, mtu) == Err(FragmentationNeeded) ==> DoNotFragment(p) && |p| > mtu
  {
    hide PiecesFrom, HeaderVerifies, HeaderLength, CopiedOptions, Flags;
    if Parse(p).Ok? {
      CopiedOptionsKeepFlagged(OptionsOf(p));
    }
  }

  /** The reply is addressed to the sender and at most 96 bytes long. */
  lemma {:induction false} ReplyFits(packet: Packet, context: Icmp.IcmpContext, mtu: nat, identification: int)
    requires 0 <= identification < 0x10000
    requires Icmp.Reply(packet, context, mtu, identification).Ok?
    ensures var r := Icmp.Reply(packet, context, mtu, identification).value;
      && Parse(packet).Ok? && Parse(r).Ok?
      && Parse(r).value.destination == Parse(packet).value.source
      && |r| == Parse(packet).value.headerLength + 36 <= 96
  {
    hide *;
    Icmp.ReplyVerifies(packet, context, mtu, identification);
  }

  function ContextOf(lease: Lease): Icmp.IcmpContext
    requires lease.gateway.Some?
  {
    Icmp.IcmpContext(lease.gateway.value, lease.address, lease.prefixLen)
  }

  /** What the feedback policy is told about an oversized packet. */
  function EventOf(packet: Packet, limit: nat, ceiling: nat, now: nat, rtt: nat): Event {
    Event(Classify.Classify(packet).flow, |packet|, limit, ceiling, now, rtt)
  }

  lemma {:induction false} EventFields(packet: Packet, limit: nat, ceiling: nat, now: nat, rtt: nat)
    ensures Reports(EventOf(packet, limit, ceiling, now, rtt), packet, limit, ceiling)
  {
  }

  predicate Reports(e: Event, packet: Packet, limit: nat, ceiling: nat) {
    e == EventOf(packet, limit, ceiling, e.now, e.rtt)
  }

  /**
   How a successful answer went: without a gateway a capsule; nothing when ICMP
   is suppressed; else exactly what the policy decided about this packet, with a
   new identification for each reply.
   */
  ghost predicate Answered(lease: Lease, limit: nat, identification: int, packet: Packet, before: seq<Event>,
                           after: seq<Event>,
                           sent: seq<Emission>, delivered: seq<Packet>, next: int)
  {
    0 <= identification < 0x10000 &&
    if lease.gateway.None? then
      sent == [AsCapsule(packet)] && delivered == [] && after == before && next == identification
    else
      var reply := Icmp.Reply(packet, ContextOf(lease), limit, identification);
      if reply == Err(IcmpSuppressed) then sent == [] && delivered == [] && after == before && next == identification
      else
        && reply.Ok? && |after| == |before| + 1 && after[..|before|] == before
        && Reports(after[|before|], packet, limit, lease.mtu)
        && var d := Step(Run(before).0, after[|before|]).1;
           && delivered == (if d.sendIcmp then [reply.value] else [])
           && sent == (if d.useCapsule then [AsCapsule(packet)] else [])
           && next == (if d.sendIcmp then (identification + 1) % 0x10000 else identification)
  }

  /** A reply to this packet would not fit the lease, or would go to another address. */
  predicate TooLongOrForeign(lease: Lease, packet: Packet) {
    Parse(packet).Ok? &&
    (Parse(packet).value.source != lease.address || Parse(packet).value.headerLength + 36 > lease.mtu)
  }

  predicate GoodLease(lease: Lease) {
    lease.mtu >= 96 && lease.prefixLen <= 32
  }

  /** A packet that the cutter can handle, and that Connection::send accepts if it may not be cut. */
  predicate Sendable(lease: Lease, packet: Packet) {
    Cuttable(packet) && (DoNotFragment(packet) ==> Accepted(lease, packet))
  }

  ghost predicate AllSendable(lease: Lease, packets: seq<Packet>) {
    forall i :: 0 <= i < |packets| ==> Sendable(lease, packets[i])
  }

  lemma {:induction false} SendableAlone(lease: Lease, packet: Packet)
    ensures Sendable(lease, packet) ==> AllSendable(lease, [packet])
    ensures AllSendable(lease, [])
  {
  }

  lemma {:induction false} SendableHead(lease: Lease, packets: seq<Packet>)
    requires packets != []
    ensures AllSendable(lease, packets) ==> Sendable(lease, packets[0]) && AllSendable(lease, packets[1..])
  {
  }

  lemma {:induction false} SendableJoin(lease: Lease, a: seq<Packet>, b: seq<Packet>)
    ensures AllSendable(lease, a) && AllSendable(lease, b) ==> AllSendable(lease, a + b)
  {
  }

  /** Cutting a sendable packet works, or its DF bit is set; and the pieces are sendable. */
  lemma {:induction false} SendableCut(lease: Lease, packet: Packet, mtu: nat)
    requires |packet| > mtu && MIN_IPV4_MTU <= mtu <= MAX_U16
    ensures Sendable(lease, packet) ==> Fragments(packet, mtu).Ok? || Fragments(packet, mtu) == Err(FragmentationNeeded)
    ensures Fragments(packet, mtu).Ok? ==> AllSendable(lease, Fragments(packet, mtu).value)
  {
    hide Fragments, Cuttable, DoNotFragment, Accepted;
    CuttableIff(packet);
    assert Cuttable(packet) ==> HandledAt(packet, mtu);
    if Fragments(packet, mtu).Ok? {
      FragmentsCuttable(packet, mtu);
      CutIsAllowed(packet, mtu);
    }
  }

  lemma {:induction false} ReplyOrSuppressed(packet: Packet, context: Icmp.IcmpContext, mtu: nat, identification: int)
    requires 0 <= identification < 0x10000
    ensures Cuttable(packet) && context.prefixLen <= 32 && MIN_IPV4_MTU <= mtu <= MAX_U16 ==>
      || Icmp.Reply(packet, context, mtu, identification).Ok?
      || Icmp.Reply(packet, context, mtu, identification) == Err(IcmpSuppressed)
  {
    hide CanCut, Icmp.Draft, Sealed;
  }

  class PacketWriter {
    const lease: Lease
    var limit: nat
    var identification: int
    var useDatagrams: bool
    /** The last time read. */
    var clock: nat
    const policy: FeedbackPolicy
    /** Every oversized DF packet reported to the policy so far. */
    ghost var events: seq<Event>

    ghost predicate Valid()
      reads this, policy
    {
      && MIN_IPV4_MTU <= limit <= lease.mtu <= MAX_U16
      && 0 <= identification < 0x10000
      && policy.Current() == Run(events).0
      && Ordered(events)
      && forall i :: 0 <= i < |events| ==> limit <= events[i].mtu && events[i].now <= clock
    }

    constructor (lease: Lease, useDatagrams: bool)
      requires MIN_IPV4_MTU <= lease.mtu <= MAX_U16
      ensures Valid() && fresh(policy) && this.lease == lease && limit == lease.mtu
    {
      this.lease := lease;
      this.limit := lease.mtu;
      this.identification := 0;
      this.useDatagrams := useDatagrams;
      this.clock := 0;
      this.policy := new FeedbackPolicy();
      this.events := [];
    }

    /** Follows the live capacity down; it never grows the limit. */
    method Refresh(t: Transport) returns (r: Result<(), ClientError>, ghost answer: Option<nat>)
      requires Valid()
      modifies this`limit, this`useDatagrams
      ensures Valid() && limit <= old(limit)
      ensures useDatagrams <==> old(useDatagrams) && answer.Some?
      ensures r == if useDatagrams && answer.value < MIN_IPV4_MTU then Err(UnusableCapacity) else Ok(())
      ensures limit == if useDatagrams && r.Ok? then Min(old(limit), answer.value) else old(limit)
      ensures t.reliable ==> r.Ok?
    {
      if !useDatagrams {
        return Ok(()), None;
      }
      var capacity := t.IpCapacity();
      answer := capacity;
      if capacity.None? {
        useDatagrams := false;
        return Ok(()), answer;
      }
      if capacity.value < MIN_IPV4_MTU {
        return Err(UnusableCapacity), answer;
      }
      limit := Min(limit, capacity.value);
      return Ok(()), answer;
    }

    /** The policy's verdict on an oversized DF packet, and its history. */
    method Consult(packet: Packet, rtt: nat) returns (d: Decision)
      requires Valid()
      modifies this`clock, this`events, policy
      ensures Valid() && events == old(events) + [EventOf(packet, limit, lease.mtu, clock, rtt)]
      ensures d == Step(Run(old(events)).0, events[|events| - 1]).1
      ensures !(d.sendIcmp && d.useCapsule)
      ensures d.useCapsule ==> CapsuleEarned(Run(old(events)).1, events[|events| - 1])
    {
      hide Run, CapsuleEarned, Step, Ordered, Classify.Classify;
      var now := Now();
      var e := EventOf(packet, limit, lease.mtu, now, rtt);
      ReportedStep(events, e);
      d := policy.OnOversized(e);
      events := events + [e];
    }

    /**
     A DF packet longer than the limit: one ICMP reply, one capsule, or
     nothing; never two of them. The capsule fallback has been earned by
     earlier replies, and the receive-limit error needs a packet that
     Connection::send refuses or a lease of fewer than 96 bytes.
     */
    method OversizedDf(t: Transport, packet: Packet)
      returns (r: Result<(), ClientError>, ghost sent: seq<Emission>, ghost delivered: seq<Packet>)
      requires Valid() && |packet| > limit
      modifies this`identification, this`clock, this`events, policy, t
      ensures Valid()
      ensures t.sent == old(t.sent) + sent && (sent == [] || sent == [AsCapsule(packet)])
      ensures t.inbound == old(t.inbound) + delivered && |delivered| <= 1 && (sent == [] || delivered == [])
      ensures r.Ok? ==>
        Answered(lease, limit, old(identification), packet, old(events), events, sent, delivered, identification)
      ensures sent != [] && lease.gateway.Some? ==>
        |events| > 0 && CapsuleEarned(Run(old(events)).1, events[|events| - 1])
      ensures delivered != [] ==>
        lease.gateway.Some? && Icmp.Reply(packet, ContextOf(lease), limit, old(identification)) == Ok(delivered[0])
      ensures r == Err(FeedbackViolatesLimits) <==>
        && lease.gateway.Some? && Icmp.Reply(packet, ContextOf(lease), limit, old(identification)).Ok?
        && TooLongOrForeign(lease, packet)
      ensures t.reliable && Cuttable(packet) && lease.prefixLen <= 32 ==> r.Ok? || r == Err(FeedbackViolatesLimits)
    {
      hide Icmp.Reply, Parse, HeaderLength, Run, CapsuleEarned, Ordered, Step, Cuttable, EventOf;
      sent, delivered := [], [];
      if lease.gateway.None? {
        r, sent := Capsule(t, packet);
        return;
      }
      var context := ContextOf(lease);
      var reply := Icmp.IcmpFragmentationNeeded(packet, context, limit, identification);
      ReplyOrSuppressed(packet, context, limit, identification);
      if reply == Err(IcmpSuppressed) {
        return Ok(()), sent, delivered;
      }
      if reply.Err? {
        return Err(CannotBuildFeedback(reply.error)), sent, delivered;
      }
      ReplyFits(packet, context, limit, identification);
      if |reply.value| > lease.mtu || Parse(reply.value).value.destination != lease.address {
        return Err(FeedbackViolatesLimits), sent, delivered;
      }
      var rtt := t.Rtt();
      var decision := Consult(packet, rtt);
      EventFields(packet, limit, lease.mtu, clock, rtt);
      if decision.sendIcmp {
        var ok := t.DeliverInbound(reply.value);
        delivered := if t.inbound == old(t.inbound) then [] else [reply.value];
        if !ok {
          return Err(InboundClosed), sent, delivered;
        }
        identification := (identification + 1) % 0x10000;
      }
      if decision.useCapsule {
        r, sent := Capsule(t, packet);
        return;
      }
      return Ok(()), sent, delivered;
    }

    /** Reads a clock that never runs back. */
    method Now() returns (now: nat)
      modifies this`clock
      ensures now == clock >= old(clock)
    {
      now := *;
      if now < clock {
        now := clock;
      }
      clock := now;
    }

    static lemma {:induction false} ReportedStep(events: seq<Event>, e: Event)
      requires Ordered(events)
      requires forall i :: 0 <= i < |events| ==> events[i].now <= e.now && e.mtu <= events[i].mtu
      ensures Ordered(events + [e])
      ensures Run(events + [e]).0 == Step(Run(events).0, e).0
      ensures var d := Step(Run(events).0, e).1;
        !(d.sendIcmp && d.useCapsule) && (d.useCapsule ==> CapsuleEarned(Run(events).1, e))
    {
      hide Step, Inv, CapsuleEarned;
      var all := events + [e];
      assert all[..|all| - 1] == events;
      RunKeeps(events);
      StepKeeps(Run(events).0, Run(events).1, e);
    }

    /** Hands over the packet as a capsule. */
    method Capsule(t: Transport, packet: Packet) returns (r: Result<(), ClientError>, ghost out: seq<Emission>)
      modifies t`sent
      ensures t.sent == old(t.sent) + out
      ensures out == [AsCapsule(packet)] || (out == [] && r == Err(CapsuleFailed))
      ensures r.Ok? || r == Err(CapsuleFailed)
      ensures t.reliable ==> r.Ok?
    {
      var ok := t.SendCapsule(packet);
      out := if t.sent == old(t.sent) then [] else [AsCapsule(packet)];
      r := if ok then Ok(()) else Err(CapsuleFailed);
    }

    /** Answers a DF packet that is too long. */
    method Answer(t: Transport, packet: Packet) returns (r: Result<(), ClientError>, ghost out: seq<Emission>)
      requires Valid() && |packet| > limit
      modifies this`identification, this`clock, this`events, policy, t
      ensures Valid()
      ensures t.sent == old(t.sent) + out && (out == [] || out == [AsCapsule(packet)])
      ensures t.inbound == old(t.inbound) || (out == [] && |t.inbound| == |old(t.inbound)| + 1)
      ensures Accepted(lease, packet) && lease.mtu >= 96 ==> r != Err(FeedbackViolatesLimits)
      ensures t.reliable && Cuttable(packet) && Accepted(lease, packet) && GoodLease(lease) ==> r.Ok?
    {
      hide Icmp.Reply, Run, CapsuleEarned, Ordered, Answered, Cuttable;
      ghost var delivered;
      r, out, delivered := OversizedDf(t, packet);
    }

    /**
     One turn of the send loop for the packet at the head of the queue: what
     it emits, and what takes the packet's place in the queue.
     */
    method Turn(t: Transport, current: Packet, races: nat)
      returns (r: Result<(), ClientError>, next: seq<Packet>, retried: bool, ghost out: seq<Emission>)
      requires Valid() && races <= DATAGRAM_RACE_RETRIES
      modifies this, policy, t
      ensures Valid() && limit <= old(limit)
      ensures t.sent == old(t.sent) + out
      ensures Handled(current, out, next, r.Ok?, retried, limit, old(limit))
      ensures retried ==> races < DATAGRAM_RACE_RETRIES
      ensures t.inbound == old(t.inbound)
        || (DoNotFragment(current) && out == [] && next == [] && |t.inbound| == |old(t.inbound)| + 1)
      ensures r == Err(FeedbackViolatesLimits) ==>
        DoNotFragment(current) && !(Accepted(lease, current) && lease.mtu >= 96)
      ensures t.reliable && GoodLease(lease) && Sendable(lease, current) ==> r.Ok? && AllSendable(lease, next)
    {
      hide Accepted, Fragments, DontFragment, Run, Ordered, Cuttable, AllSendable;
      SendableAlone(lease, current);
      retried, next, out := false, [], [];
      ghost var answer;
      r, answer := Refresh(t);
      if r.Err? {
        return;
      }
      if !useDatagrams {
        r, out := Capsule(t, current);
        return;
      }
      if |current| > limit {
        var cut := FragmentIpv4(current, limit);
        SendableCut(lease, current, limit);
        if cut.Ok? {
          next := cut.value;
        } else if cut.error == FragmentationNeeded {
          RefusalMeansDf(current, limit);
          r, out := Answer(t, current);
        } else {
          r := Err(CannotFragment(cut.error));
        }
        return;
      }
      var outcome := t.SendDatagram(current, limit);
      match outcome
      case Sent =>
        out := [AsDatagram(current, limit)];
      case TooLarge =>
        r, answer := Refresh(t);
        if r.Err? {
          return;
        }
        if races < DATAGRAM_RACE_RETRIES {
          retried, next := true, [current];
        } else if |current| > limit && Flags(current) / 0x4000 % 2 == 1 && useDatagrams {
          DfBit(current);
          r, out := Answer(t, current);
        } else {
          r, out := Capsule(t, current);
        }
      case NotAvailable =>
        useDatagrams := false;
        r, out := Capsule(t, current);
      case Lost =>
        r := Err(ConnectionLost);
    }

    /**
     For every sequence of capacities and send results: a packet that may be
     cut is, on success, carried by what was emitted exactly once, in order and
     without gaps, and on failure a prefix of it is; a DF packet is emitted
     whole at most once, and never beside an ICMP reply. No datagram exceeds
     the limit in force when it was sent, and nothing exceeds the packet.
     The loop ends against every transport.
     */
    method Send(t: Transport, packet: Packet)
      returns (r: Result<(), ClientError>, ghost emitted: seq<Emission>, ghost unsent: seq<Packet>)
      requires Valid()
      modifies this, policy, t
      ensures Valid() && limit <= old(limit)
      ensures t.sent == old(t.sent) + emitted
      ensures Progress(packet, Packets(emitted), unsent)
      ensures r.Ok? ==> unsent == []
      ensures r.Ok? && emitted == [] ==> DoNotFragment(packet) && |packet| > limit
      ensures WithinLimits(emitted, old(limit))
      ensures t.inbound == old(t.inbound)
        || (DoNotFragment(packet) && emitted == [] && |t.inbound| == |old(t.inbound)| + 1)
      ensures Accepted(lease, packet) && lease.mtu >= 96 ==> r != Err(FeedbackViolatesLimits)
      ensures t.reliable && GoodLease(lease) && Sendable(lease, packet) ==> r.Ok?
    {
      hide *;
      SendableAlone(lease, packet);
      var pending := [packet];
      var races := 0;
      emitted := [];
      SendStarts(packet, limit);
      while |pending| > 0
        invariant Valid() && limit <= old(limit) && 0 <= races <= DATAGRAM_RACE_RETRIES
        invariant t.sent == old(t.sent) + emitted
        invariant Progress(packet, Packets(emitted), pending)
        invariant WithinLimits(emitted, old(limit))
        invariant emitted == [] && pending == [] ==> DoNotFragment(packet) && |packet| > limit
        invariant t.inbound == old(t.inbound)
          || (DoNotFragment(packet) && emitted == [] && pending == [] && |t.inbound| == |old(t.inbound)| + 1)
        invariant t.reliable && GoodLease(lease) && Sendable(lease, packet) ==> AllSendable(lease, pending)
        decreases DATAGRAM_RACE_RETRIES - races, TotalPotential(pending)
      {
        var current := pending[0];
        ghost var before := limit;
        var turn, next, retried;
        ghost var out;
        SendableHead(lease, pending);
        turn, next, retried, out := Turn(t, current, races);
        SendableJoin(lease, next, pending[1..]);
        HeadDf(packet, emitted, pending);
        TurnKeeps(packet, emitted, pending, out, next, turn.Ok?, retried, limit, before);
        LimitsKeep(current, emitted, out, next, turn.Ok?, retried, limit, before, old(limit));
        OnlyLongVanish(packet, emitted, pending, out, next, turn.Ok?, retried, limit, before);
        assert t.sent == old(t.sent) + (emitted + out);
        emitted := emitted + out;
        if turn.Err? {
          return turn, emitted, if out == [] then pending else pending[1..];
        }
        if retried {
          races := races + 1;
        }
        pending := next + pending[1..];
      }
      return Ok(()), emitted, [];
    }
  }

  ghost predicate WithinLimits(es: seq<Emission>, ceiling: nat) {
    forall i :: 0 <= i < |es| && es[i].AsDatagram? ==> |es[i].packet| <= es[i].limit <= ceiling
  }

  /** What one turn may do with the packet at the head. */
  ghost predicate Handled(current: Packet, out: seq<Emission>, next: seq<Packet>, ok: bool, retried: bool,
                          limit: nat, before: nat)
  {
    && (|out| == 0 || (|out| == 1 && out[0].packet == current && next == []))
    && (forall i :: 0 <= i < |out| && out[i].AsDatagram? ==> |current| <= out[i].limit <= before)
    && if !ok then next == [] && !retried
       else if retried then out == [] && next == [current]
       else if |out| == 1 then true
       else
         || (next == [] && DoNotFragment(current) && |current| > limit)
         || (|current| > limit && Fragments(current, limit) == Ok(next))
  }

  lemma {:induction false} DfBit(p: Packet)
    requires |p| >= 20 && Flags(p) / 0x4000 % 2 == 1
    ensures DoNotFragment(p)
  {
  }

  lemma {:induction false} SendStarts(packet: Packet, limit: nat)
    ensures Progress(packet, Packets([]), [packet]) && WithinLimits([], limit) && 0 <= DATAGRAM_RACE_RETRIES
  {
    ProgressStart(packet);
    assert Packets([]) == [];
  }

  lemma {:induction false} PotentialOfRest(pending: seq<Packet>)
    requires |pending| > 0
    ensures TotalPotential(pending) == Potential(pending[0]) + TotalPotential(pending[1..])
  {
  }

  lemma {:induction false} EmitPackets(emitted: seq<Emission>, out: seq<Emission>)
    ensures out == [] ==> emitted + out == emitted
    ensures |out| == 1 ==> Packets(emitted + out) == Packets(emitted) + [out[0].packet]
  {
  }

  /** A turn keeps the packet's progress and lowers the measure unless it retries. */
  lemma {:induction false} TurnKeeps(packet: Packet, emitted: seq<Emission>, pending: seq<Packet>, out: seq<Emission>,
                  next: seq<Packet>, ok: bool, retried: bool, limit: nat, before: nat)
    requires Progress(packet, Packets(emitted), pending) && |pending| > 0
    requires Handled(pending[0], out, next, ok, retried, limit, before)
    ensures !ok ==> Progress(packet, Packets(emitted + out), if out == [] then pending else pending[1..])
    ensures ok ==> Progress(packet, Packets(emitted + out), next + pending[1..])
    ensures ok && retried ==> next + pending[1..] == pending
    ensures ok && !retried ==> TotalPotential(next + pending[1..]) < TotalPotential(pending)
  {
    hide Progress, Fragments, DoNotFragment, Packets, TotalPotential, Potential;
    EmitPackets(emitted, out);
    PotentialOfRest(pending);
    assert [pending[0]] + pending[1..] == pending;
    assert [] + pending[1..] == pending[1..];
    if |out| == 1 {
      ProgressSend(packet, Packets(emitted), pending);
    } else if ok && !retried {
      if next == [] && DoNotFragment(pending[0]) {
        ProgressDf(packet, Packets(emitted), pending);
        ProgressDrop(packet, Packets(emitted), pending);
      } else {
        ProgressCut(packet, Packets(emitted), pending, limit);
        FragmentsLowerPotential(pending[0], limit);
        TotalPotentialConcat(next, pending[1..]);
      }
    }
  }

  /** A turn that leaves nothing emitted and nothing pending dropped a DF packet over the limit. */
  lemma {:induction false} OnlyLongVanish(packet: Packet, emitted: seq<Emission>, pending: seq<Packet>,
                                          out: seq<Emission>, next: seq<Packet>, ok: bool, retried: bool,
                                          limit: nat, before: nat)
    requires Progress(packet, Packets(emitted), pending) && |pending| > 0
    requires Handled(pending[0], out, next, ok, retried, limit, before)
    ensures ok && emitted + out == [] && next + pending[1..] == [] ==> DoNotFragment(packet) && |packet| > limit
  {
    hide Progress, DoNotFragment, Fragments;
    HeadDf(packet, emitted, pending);
    if ok && emitted + out == [] && next + pending[1..] == [] {
      assert next == [] && out == [];
      if !retried && |pending[0]| > limit {
        CutIsNotEmpty(pending[0], limit);
      }
    }
  }

  lemma {:induction false} CutIsNotEmpty(p: Packet, mtu: nat)
    requires |p| > mtu
    ensures Fragments(p, mtu) != Ok([])
  {
    hide View, Join;
    if Fragments(p, mtu).Ok? {
      FragmentsReassemble(p, mtu);
      hide Fragments;
      NothingJoins(p);
    }
  }

  lemma {:induction false} NothingJoins(p: Packet)
    ensures Join(Views([])) != Some(View(p))
  {
    assert Views([]) == [];
  }

  lemma {:induction false} HeadDf(packet: Packet, emitted: seq<Emission>, pending: seq<Packet>)
    requires Progress(packet, Packets(emitted), pending) && |pending| > 0
    ensures DoNotFragment(pending[0]) ==> DoNotFragment(packet) && emitted == [] && pending == [packet]
  {
    if DoNotFragment(pending[0]) {
      hide Progress, DoNotFragment;
      ProgressDf(packet, Packets(emitted), pending);
    }
  }

  lemma {:induction false} LimitsKeep(current: Packet, emitted: seq<Emission>, out: seq<Emission>, next: seq<Packet>,
                                      ok: bool,
                   retried: bool, limit: nat, before: nat, ceiling: nat)
    requires WithinLimits(emitted, ceiling) && before <= ceiling
    requires Handled(current, out, next, ok, retried, limit, before)
    ensures WithinLimits(emitted + out, ceiling)
  {
    hide Fragments, DoNotFragment;
  }

  /** A DF packet at the head is the original, alone. */
  lemma {:induction false} ProgressDf(packet: Packet, emitted: seq<Packet>, pending: seq<Packet>)
    requires Progress(packet, emitted, pending) && |pending| > 0 && DoNotFragment(pending[0])
    ensures DoNotFragment(packet) && emitted == [] && pending == [packet]
  {
    hide Join, View;
  }
}
