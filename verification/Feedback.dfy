/**
 FeedbackPolicy of rust/porta-wire/src/mtu.rs: when an oversized DF packet is
 answered with ICMP, sent in a capsule, or dropped. Times are milliseconds.
 */
module Feedback {
  import opened Bytes
  import opened Classify

  const MIN_MTU := 68
  const MAX_FEEDBACK_FLOWS := 128
  const FLOW_IDLE_TIMEOUT := 60_000
  const ICMP_INTERVAL := 100
  const MIN_FEEDBACK_REQUESTS := 3

  datatype Decision = Decision(sendIcmp: bool, useCapsule: bool)

  const DROP := Decision(false, false)
  const SEND_ICMP := Decision(true, false)
  const USE_CAPSULE := Decision(false, true)

  datatype FlowFeedback =
    FlowFeedback(flow: FlowKey, mtu: nat, lastSeen: nat, firstFeedback: Option<nat>, feedbackRequests: nat)

  /** An oversized packet as the policy sees it. */
  datatype Event = Event(flow: FlowKey, length: nat, mtu: nat, ceiling: nat, now: nat, rtt: nat)

  datatype State = State(flows: seq<FlowFeedback>, lastFeedback: Option<nat>)

  function Since(now: nat, then_: nat): nat {
    if now < then_ then 0 else now - then_
  }

  /** Four round trips, but at least two seconds and at most ten. */
  function Grace(rtt: nat): nat {
    Min(10_000, Max(2_000, 4 * rtt))
  }

  function Live(flows: seq<FlowFeedback>, now: nat): (r: seq<FlowFeedback>)
    ensures |r| <= |flows|
    ensures forall i :: 0 <= i < |r| ==> r[i] in flows
  {
    if flows == [] then []
    else (if Since(now, flows[0].lastSeen) < FLOW_IDLE_TIMEOUT then [flows[0]] else []) + Live(flows[1..], now)
  }

  function Position(flows: seq<FlowFeedback>, flow: FlowKey): (i: nat)
    ensures i <= |flows|
    ensures i < |flows| ==> flows[i].flow == flow
    ensures forall k :: 0 <= k < i ==> flows[k].flow != flow
  {
    if flows == [] || flows[0].flow == flow then 0 else 1 + Position(flows[1..], flow)
  }

  /** The first index with the earliest last use. */
  function Oldest(flows: seq<FlowFeedback>): (i: nat)
    requires |flows| > 0
    ensures i < |flows|
    ensures forall k :: 0 <= k < |flows| ==> flows[i].lastSeen <= flows[k].lastSeen
    ensures forall k :: 0 <= k < i ==> flows[i].lastSeen < flows[k].lastSeen
  {
    if |flows| == 1 then 0
    else
      var i := 1 + Oldest(flows[1..]);
      if flows[0].lastSeen <= flows[i].lastSeen then 0 else i
  }

  function Fresh(e: Event): FlowFeedback {
    FlowFeedback(e.flow, e.mtu, e.now, None, 0)
  }

  predicate Considered(e: Event) {
    e.length > e.mtu && e.mtu >= MIN_MTU
  }

  /** The table with a slot for the event's flow. */
  function Admitted(flows: seq<FlowFeedback>, e: Event): (r: seq<FlowFeedback>)
    ensures Position(r, e.flow) < |r|
  {
    var live := Live(flows, e.now);
    if Position(live, e.flow) < |live| then live
    else
      var kept :=
        if |live| == MAX_FEEDBACK_FLOWS then live[..Oldest(live)] + live[Oldest(live) + 1..] else live;
      var r := kept + [Fresh(e)];
      assert r[|kept|].flow == e.flow;
      r
  }

  /** The flow's slot as the decision finds it: restarted by a lower MTU. */
  function Slot(s: FlowFeedback, e: Event): FlowFeedback {
    (if e.mtu < s.mtu then Fresh(e) else s).(lastSeen := e.now)
  }

  function Decide(s: FlowFeedback, lastFeedback: Option<nat>, e: Event): Decision {
    if && e.length <= e.ceiling && s.feedbackRequests >= MIN_FEEDBACK_REQUESTS
       && s.firstFeedback.Some? && Since(e.now, s.firstFeedback.value) >= Grace(e.rtt)
    then USE_CAPSULE
    else if lastFeedback.Some? && Since(e.now, lastFeedback.value) < ICMP_INTERVAL then DROP
    else SEND_ICMP
  }

  function Charged(s: FlowFeedback, now: nat): FlowFeedback {
    s.(firstFeedback := if s.firstFeedback.None? then Some(now) else s.firstFeedback,
       feedbackRequests := Min(s.feedbackRequests + 1, MIN_FEEDBACK_REQUESTS))
  }

  function Step(st: State, e: Event): (State, Decision) {
    if !Considered(e) then (st, DROP)
    else
      var table := Admitted(st.flows, e);
      var i := Position(table, e.flow);
      var slot := Slot(table[i], e);
      var d := Decide(slot, st.lastFeedback, e);
      if d.sendIcmp then (State(table[i := Charged(slot, e.now)], Some(e.now)), d)
      else (State(table[i := slot], st.lastFeedback), d)
  }

  class FeedbackPolicy {
    var flows: seq<FlowFeedback>
    var lastFeedback: Option<nat>

    function Current(): State
      reads this
    {
      State(flows, lastFeedback)
    }

    constructor ()
      ensures Current() == State([], None)
    {
      flows := [];
      lastFeedback := None;
    }

    /** Drops idle flows and finds or makes the event's slot. */
    method Admit(e: Event) returns (index: nat)
      modifies this`flows
      ensures flows == Admitted(old(flows), e) && index == Position(flows, e.flow)
    {
      flows := Live(flows, e.now);
      index := Position(flows, e.flow);
      if index == |flows| {
        if |flows| == MAX_FEEDBACK_FLOWS {
          var oldest := Oldest(flows);
          flows := flows[..oldest] + flows[oldest + 1..];
        }
        flows := flows + [Fresh(e)];
        assert flows[|flows| - 1].flow == e.flow;
        index := Position(flows, e.flow);
      }
    }

    method OnOversized(e: Event) returns (d: Decision)
      modifies this
      ensures (Current(), d) == Step(old(Current()), e)
    {
      hide Admitted, Position, Since, Grace;
      if e.length <= e.mtu || e.mtu < MIN_MTU {
        return DROP;
      }
      var index := Admit(e);
      ghost var table := flows;
      if e.mtu < flows[index].mtu {
        flows := flows[index := Fresh(e)];
      }
      flows := flows[index := flows[index].(lastSeen := e.now)];
      assert flows == table[index := Slot(table[index], e)];
      var state := flows[index];
      if && e.length <= e.ceiling && state.feedbackRequests >= MIN_FEEDBACK_REQUESTS
         && state.firstFeedback.Some? && Since(e.now, state.firstFeedback.value) >= Grace(e.rtt)
      {
        return USE_CAPSULE;
      }
      if lastFeedback.Some? && Since(e.now, lastFeedback.value) < ICMP_INTERVAL {
        return DROP;
      }
      lastFeedback := Some(e.now);
      flows := flows[index := Charged(state, e.now)];
      assert flows == table[index := Charged(Slot(table[index], e), e.now)];
      return SEND_ICMP;
    }
  }

  // Runs.

  datatype Record = Record(event: Event, decision: Decision)

  /** The state after a run of events, and what was decided. */
  function Run(events: seq<Event>): (r: (State, seq<Record>))
    ensures |r.1| == |events|
    ensures forall i :: 0 <= i < |events| ==> r.1[i].event == events[i]
  {
    if events == [] then (State([], None), [])
    else
      var (st, h) := Run(events[..|events| - 1]);
      var e := events[|events| - 1];
      var (next, d) := Step(st, e);
      (next, h + [Record(e, d)])
  }

  /** The clock never runs back and the effective MTU never grows. */
  ghost predicate Ordered(events: seq<Event>) {
    forall i, j :: 0 <= i < j < |events| ==> events[i].now <= events[j].now && events[j].mtu <= events[i].mtu
  }

  ghost predicate Sent(r: Record, flow: FlowKey, mtu: nat) {
    r.decision.sendIcmp && r.event.flow == flow && r.event.mtu == mtu
  }

  /** How often the flow was told of that MTU. */
  ghost function Sends(h: seq<Record>, flow: FlowKey, mtu: nat): (n: nat) {
    if h == [] then 0
    else Sends(h[..|h| - 1], flow, mtu) + if Sent(h[|h| - 1], flow, mtu) then 1 else 0
  }

  /** Some ICMP reply told the flow of that MTU at that time. */
  ghost predicate SentAt(h: seq<Record>, flow: FlowKey, mtu: nat, time: nat) {
    exists i :: 0 <= i < |h| && Sent(h[i], flow, mtu) && h[i].event.now == time
  }

  ghost predicate Distinct(flows: seq<FlowFeedback>) {
    forall i, j :: 0 <= i < j < |flows| ==> flows[i].flow != flows[j].flow
  }

  /** A slot counts only replies that were sent, and remembers a real first one. */
  ghost predicate Honest(s: FlowFeedback, h: seq<Record>) {
    && s.feedbackRequests <= MIN_FEEDBACK_REQUESTS
    && s.feedbackRequests <= Sends(h, s.flow, s.mtu)
    && (s.firstFeedback.Some? ==> SentAt(h, s.flow, s.mtu, s.firstFeedback.value))
    && (|h| > 0 ==> h[|h| - 1].event.mtu <= s.mtu)
  }

  ghost predicate AllHonest(flows: seq<FlowFeedback>, h: seq<Record>) {
    forall i :: 0 <= i < |flows| ==> Honest(flows[i], h)
  }

  /** Every reply is no later than the last one, and all of them are spaced. */
  ghost predicate Spaced(h: seq<Record>, last: Option<nat>) {
    && (forall i :: 0 <= i < |h| && h[i].decision.sendIcmp ==> last.Some? && h[i].event.now <= last.value)
    && (forall i, j :: 0 <= i < j < |h| && h[i].decision.sendIcmp && h[j].decision.sendIcmp
          ==> h[i].event.now + ICMP_INTERVAL <= h[j].event.now)
  }

  ghost predicate Inv(st: State, h: seq<Record>) {
    && |st.flows| <= MAX_FEEDBACK_FLOWS
    && Distinct(st.flows)
    && AllHonest(st.flows, h)
    && Spaced(h, st.lastFeedback)
  }

  lemma {:induction false} LiveKeeps(flows: seq<FlowFeedback>, now: nat)
    requires Distinct(flows)
    ensures Distinct(Live(flows, now))
  {
    if flows != [] {
      LiveKeeps(flows[1..], now);
      forall i | 0 <= i < |Live(flows[1..], now)|
        ensures Live(flows[1..], now)[i].flow != flows[0].flow
      {
        assert Live(flows[1..], now)[i] in flows[1..];
      }
    }
  }

  /** Later records only add to what a slot may claim, if the MTU does not fall below it. */
  lemma {:induction false} HonestLater(s: FlowFeedback, h: seq<Record>, r: Record)
    requires Honest(s, h) && r.event.mtu <= s.mtu
    ensures Honest(s, h + [r])
  {
    assert (h + [r])[..|h|] == h;
    if s.firstFeedback.Some? {
      var i :| 0 <= i < |h| && Sent(h[i], s.flow, s.mtu) && h[i].event.now == s.firstFeedback.value;
      assert Sent((h + [r])[i], s.flow, s.mtu);
    }
  }

  /** What the table holds before the decision. */
  lemma {:induction false} AdmittedKeeps(st: State, h: seq<Record>, e: Event)
    requires Inv(st, h)
    ensures var table := Admitted(st.flows, e);
      && |table| <= MAX_FEEDBACK_FLOWS && Distinct(table)
      && forall i :: 0 <= i < |table| ==> table[i] == Fresh(e) || (table[i] in st.flows && Honest(table[i], h))
  {
    hide Honest, Live, Oldest;
    LiveKeeps(st.flows, e.now);
    var live := Live(st.flows, e.now);
    forall i | 0 <= i < |live|
      ensures live[i] in st.flows && Honest(live[i], h)
    {
      assert live[i] in st.flows;
    }
    hide Inv, AllHonest;
  }

  /** One slot after its decision, seen from the extended history. */
  lemma {:induction false} SlotHonest(s: FlowFeedback, st: State, h: seq<Record>, e: Event)
    requires s.flow == e.flow && (s == Fresh(e) || Honest(s, h))
    requires |h| > 0 ==> e.mtu <= h[|h| - 1].event.mtu
    requires |h| == 0 ==> s == Fresh(e)
    ensures var slot := Slot(s, e);
      var d := Decide(slot, st.lastFeedback, e);
      && slot.mtu == e.mtu
      && Honest(if d.sendIcmp then Charged(slot, e.now) else slot, h + [Record(e, d)])
      && (d.useCapsule ==> CapsuleEarned(h, e))
  {
    var slot := Slot(s, e);
    var d := Decide(slot, st.lastFeedback, e);
    var r := Record(e, d);
    assert (h + [r])[..|h|] == h;
    if slot.firstFeedback.Some? {
      var t := slot.firstFeedback.value;
      assert SentAt(h, e.flow, e.mtu, t);
      var i :| 0 <= i < |h| && Sent(h[i], e.flow, e.mtu) && h[i].event.now == t;
      assert Sent((h + [r])[i], e.flow, e.mtu);
    }
    if d.sendIcmp {
      assert Sent((h + [r])[|h|], e.flow, e.mtu);
    }
  }

  lemma {:induction false} SpacedLater(st: State, h: seq<Record>, e: Event, d: Decision)
    requires Spaced(h, st.lastFeedback)
    requires d.sendIcmp ==> st.lastFeedback.None? || Since(e.now, st.lastFeedback.value) >= ICMP_INTERVAL
    ensures Spaced(h + [Record(e, d)], if d.sendIcmp then Some(e.now) else st.lastFeedback)
  {
  }

  /** What a capsule for `e` needs in the history before it. */
  ghost predicate CapsuleEarned(h: seq<Record>, e: Event) {
    && Sends(h, e.flow, e.mtu) >= MIN_FEEDBACK_REQUESTS
    && exists i :: 0 <= i < |h| && Sent(h[i], e.flow, e.mtu) && Since(e.now, h[i].event.now) >= Grace(e.rtt)
  }

  lemma {:induction false} IdleStepKeeps(st: State, h: seq<Record>, e: Event)
    requires Inv(st, h) && !Considered(e)
    requires |h| > 0 ==> e.mtu <= h[|h| - 1].event.mtu
    requires |h| == 0 ==> st.flows == []
    ensures Inv(st, h + [Record(e, DROP)])
  {
    hide Honest, Distinct;
    forall i | 0 <= i < |st.flows|
      ensures Honest(st.flows[i], h + [Record(e, DROP)])
    {
      LastMtu(st.flows[i], h);
      HonestLater(st.flows[i], h, Record(e, DROP));
    }
    SpacedLater(st, h, e, DROP);
  }

  lemma {:induction false} LastMtu(s: FlowFeedback, h: seq<Record>)
    requires Honest(s, h)
    ensures |h| > 0 ==> h[|h| - 1].event.mtu <= s.mtu
  {
  }

  /** The other slots after a decision for the flow at `at`. */
  lemma {:induction false} OthersHonest(st: State, h: seq<Record>, e: Event, d: Decision, table: seq<FlowFeedback>,
                                        at: nat)
    requires Inv(st, h) && table == Admitted(st.flows, e) && at == Position(table, e.flow)
    requires |h| > 0 ==> e.mtu <= h[|h| - 1].event.mtu
    requires |h| == 0 ==> st.flows == []
    ensures at < |table| <= MAX_FEEDBACK_FLOWS && Distinct(table)
    ensures table[at] == Fresh(e) || Honest(table[at], h)
    ensures |h| == 0 ==> table[at] == Fresh(e)
    ensures forall i :: 0 <= i < |table| && i != at ==> Honest(table[i], h + [Record(e, d)])
  {
    hide Honest, Inv, Admitted;
    AdmittedKeeps(st, h, e);
    forall i | 0 <= i < |table| && i != at
      ensures Honest(table[i], h + [Record(e, d)])
    {
      LastMtu(table[i], h);
      HonestLater(table[i], h, Record(e, d));
    }
  }

  lemma {:induction false} StepKeeps(st: State, h: seq<Record>, e: Event)
    requires Inv(st, h)
    requires |h| > 0 ==> e.mtu <= h[|h| - 1].event.mtu
    requires |h| == 0 ==> st.flows == []
    ensures var (next, d) := Step(st, e);
      && Inv(next, h + [Record(e, d)])
      && (d.useCapsule ==> !d.sendIcmp && CapsuleEarned(h, e))
  {
    var (next, d) := Step(st, e);
    if !Considered(e) {
      IdleStepKeeps(st, h, e);
    } else {
      hide Honest, Admitted, Slot, Decide, Charged, SentAt, Sends, Distinct, Sent, Spaced, AllHonest, CapsuleEarned,
        Position;
      var table := Admitted(st.flows, e);
      var at := Position(table, e.flow);
      OthersHonest(st, h, e, d, table, at);
      SlotHonest(table[at], st, h, e);
      SlotFields(table[at], st, e);
      SpacedLater(st, h, e, d);
      DistinctUpdate(table, at, next.flows[at]);
      AllHonestUpdate(table, at, next.flows[at], h + [Record(e, d)]);
    }
  }

  lemma {:induction false} AllHonestUpdate(table: seq<FlowFeedback>, at: nat, s: FlowFeedback, h: seq<Record>)
    requires at < |table| && Honest(s, h)
    requires forall i :: 0 <= i < |table| && i != at ==> Honest(table[i], h)
    ensures AllHonest(table[at := s], h)
  {
    hide Honest;
  }

  lemma {:induction false} DistinctUpdate(table: seq<FlowFeedback>, at: nat, s: FlowFeedback)
    requires at < |table| && Distinct(table) && s.flow == table[at].flow
    ensures Distinct(table[at := s])
  {
  }

  lemma {:induction false} SlotFields(s: FlowFeedback, st: State, e: Event)
    requires s.flow == e.flow
    ensures var slot := Slot(s, e);
      var d := Decide(slot, st.lastFeedback, e);
      && slot.flow == Charged(slot, e.now).flow == e.flow
      && (d.sendIcmp ==> !d.useCapsule)
      && (d.sendIcmp ==> st.lastFeedback.None? || Since(e.now, st.lastFeedback.value) >= ICMP_INTERVAL)
  {
  }

  lemma {:induction false} RunKeeps(events: seq<Event>)
    requires Ordered(events)
    ensures Inv(Run(events).0, Run(events).1)
    ensures events == [] ==> Run(events).0.flows == []
  {
    if events != [] {
      var before := events[..|events| - 1];
      RunKeeps(before);
      var (st, h) := Run(before);
      StepKeeps(st, h, events[|events| - 1]);
    }
  }

  /**
   In every ordered run: a capsule is used for a flow only after three ICMP
   replies told that flow of that very MTU, the first at least the grace
   period ago; any two replies are a tenth of a second apart; and the table
   holds at most 128 flows, all different.
   */
  lemma {:induction false} FeedbackDiscipline(events: seq<Event>, k: nat)
    requires Ordered(events) && k < |events|
    ensures var (st, h) := Run(events);
      && |st.flows| <= MAX_FEEDBACK_FLOWS && Distinct(st.flows)
      && (forall i, j :: 0 <= i < j < |h| && h[i].decision.sendIcmp && h[j].decision.sendIcmp
            ==> h[i].event.now + ICMP_INTERVAL <= h[j].event.now)
      && (h[k].decision.useCapsule ==> !h[k].decision.sendIcmp && CapsuleEarned(h[..k], events[k]))
  {
    hide Run, Step, CapsuleEarned, AllHonest, Distinct;
    RunKeeps(events);
    RunPrefix(events, k);
    RunKeeps(events[..k]);
    var (st, h) := Run(events[..k]);
    StepKeeps(st, h, events[k]);
  }

  /** A run's records are those of its prefixes. */
  lemma {:induction false} RunPrefix(events: seq<Event>, k: nat)
    requires k < |events|
    ensures Run(events).1[..k] == Run(events[..k]).1
    ensures Run(events).1[k] == Record(events[k], Step(Run(events[..k]).0, events[k]).1)
    decreases |events|
  {
    var before := events[..|events| - 1];
    if k < |before| {
      RunPrefix(before, k);
      assert before[..k] == events[..k];
      assert Run(events).1[..k] == Run(before).1[..k];
    } else {
      assert before == events[..k];
    }
  }
}
