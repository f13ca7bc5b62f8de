/**
 Group::route, control_lane and data_lane of rust/porta-client/src/tunnel/h2.rs:
 the dispatcher that offers each outgoing packet to the queue of an upload lane.
 Other tasks flip the lanes' flags and drain, clear, open and close the queues
 at any moment: what they do is an arbitrary function of time.
 */
module Dispatch {
  import opened Bytes
  import opened Ipv4
  import opened Classify
  import opened FlowTable
  import Q = UploadQueue

  const LANE_COUNT := 4

  datatype Answer = Taken | Refused | Gone

  /** A packet offered to a lane's upload queue, and what the queue answered. */
  datatype Offer = Offer(lane: nat, packet: Packet, answer: Answer)

  datatype Routed = Done | Failed | Closed | NoCapacity

  /**
   The other tasks at each moment: the lane flags, the queue lengths that a read
   finds, what is done to a lane's queue before the next offer, and the clock.
   */
  datatype World = World(activeAt: (nat, nat) -> bool, queuedAt: (nat, nat) -> nat,
                         othersAt: (nat, nat) -> seq<Q.Operation>, nowAt: nat -> int,
                         failedAt: nat -> bool, cancelledAt: nat -> bool)

  function FlowOf(p: Packet): FlowKey {
    Classify.Classify(p).flow
  }

  predicate IsData(p: Packet) {
    Classify.Classify(p).kind != Control
  }

  // Offers keep the order of the routed packets on each lane.

  /** The packets offered to a lane. */
  function OffersTo(offers: seq<Offer>, lane: nat): seq<Packet> {
    if offers == [] then []
    else
      var last := offers[|offers| - 1];
      OffersTo(offers[..|offers| - 1], lane) + if last.lane == lane then [last.packet] else []
  }

  /** In order, without repeating a position. */
  ghost predicate Subsequence(part: seq<Packet>, whole: seq<Packet>) {
    part == [] || (whole != [] &&
      (Subsequence(part, whole[..|whole| - 1]) ||
       (part[|part| - 1] == whole[|whole| - 1] && Subsequence(part[..|part| - 1], whole[..|whole| - 1]))))
  }

  lemma {:induction false} SubsequenceMore(part: seq<Packet>, whole: seq<Packet>, p: Packet)
    requires Subsequence(part, whole)
    ensures Subsequence(part, whole + [p]) && Subsequence(part + [p], whole + [p])
  {
    assert (whole + [p])[..|whole|] == whole && (part + [p])[..|part|] == part;
  }

  lemma {:induction false} OffersMore(offers: seq<Offer>, offer: Offer, lane: nat)
    ensures OffersTo(offers + [offer], lane) ==
      OffersTo(offers, lane) + if offer.lane == lane then [offer.packet] else []
  {
    assert (offers + [offer])[..|offers|] == offers;
  }

  /** A call offers its packet at most twice, and then to different lanes. */
  ghost predicate OffersOnce(offers: seq<Offer>, p: Packet) {
    && |offers| <= 2
    && (forall i :: 0 <= i < |offers| ==> offers[i].packet == p && offers[i].lane < LANE_COUNT)
    && (|offers| == 2 ==> offers[0].lane != offers[1].lane && offers[0].answer != Taken)
  }

  lemma {:induction false} OffersKeepOrder(offers: seq<Offer>, more: seq<Offer>, routed: seq<Packet>, p: Packet,
                                           lane: nat)
    requires Subsequence(OffersTo(offers, lane), routed) && OffersOnce(more, p)
    ensures Subsequence(OffersTo(offers + more, lane), routed + [p])
  {
    hide Subsequence, OffersTo;
    SubsequenceMore(OffersTo(offers, lane), routed, p);
    if |more| == 0 {
      assert offers + more == offers;
    } else if |more| == 1 {
      assert offers + more == offers + [more[0]];
      OffersMore(offers, more[0], lane);
    } else {
      assert offers + more == offers + [more[0]] + [more[1]];
      OffersMore(offers, more[0], lane);
      OffersMore(offers + [more[0]], more[1], lane);
    }
    var was := OffersTo(offers, lane);
    assert was + [] == was && was + [p] + [] == was + [p];
  }

  // Recency: what keeps a flow in the table.

  /** The flow has this lane, and only these flows were used since. */
  ghost predicate Recent(uses: seq<Use>, flow: FlowKey, lane: nat, others: set<FlowKey>, p: nat) {
    && Distinct(uses) && p < |uses| && uses[p] == Use(flow, lane)
    && forall q :: p < q < |uses| ==> uses[q].flow in others
  }

  ghost predicate Keeps(uses: seq<Use>, flow: FlowKey, lane: nat, others: set<FlowKey>) {
    exists p :: Recent(uses, flow, lane, others, p)
  }

  lemma {:induction false} RecentBound(uses: seq<Use>, flow: FlowKey, lane: nat, others: set<FlowKey>, p: nat)
    requires Recent(uses, flow, lane, others, p)
    ensures |uses| - p - 1 <= |others|
    decreases |uses|
  {
    if p + 1 < |uses| {
      var last := uses[|uses| - 1].flow;
      RecentBound(uses[..|uses| - 1], flow, lane, others - {last}, p);
    }
  }

  lemma {:induction false} RemovedKeeps(uses: seq<Use>, flow: FlowKey, lane: nat, others: set<FlowKey>, p: nat, k: nat)
    requires Recent(uses, flow, lane, others, p) && k < |uses| && k != p
    requires Distinct(uses[..k] + uses[k + 1..])
    ensures Keeps(uses[..k] + uses[k + 1..], flow, lane, others - {uses[k].flow})
  {
    var rest, q := uses[..k] + uses[k + 1..], if k < p then p - 1 else p;
    assert rest[q] == uses[p];
    forall j | q < j < |rest|
      ensures rest[j].flow in others - {uses[k].flow}
    {
      assert rest[j] == if j < k then uses[j] else uses[j + 1];
    }
    assert Recent(rest, flow, lane, others - {uses[k].flow}, q);
  }

  /** Forgetting another flow. */
  lemma {:induction false} ForgetKeeps(uses: seq<Use>, flow: FlowKey, lane: nat, others: set<FlowKey>, gone: FlowKey)
    requires Keeps(uses, flow, lane, others) && gone != flow
    ensures Keeps(Forget(uses, gone), flow, lane, others - {gone})
  {
    var p :| Recent(uses, flow, lane, others, p);
    hide Forget, Distinct, Keeps;
    ForgetDistinct(uses, gone);
    if Holds(uses, gone) {
      var k :| 0 <= k < |uses| && uses[k].flow == gone;
      RecentUse(uses, flow, lane, others, p);
      ForgetUse(uses, k);
      hide Recent;
      RemovedKeeps(uses, flow, lane, others, p, k);
    } else {
      ForgetNothing(uses, gone);
      UnheldKeeps(uses, flow, lane, others, p, gone);
    }
  }

  lemma {:induction false} RecentUse(uses: seq<Use>, flow: FlowKey, lane: nat, others: set<FlowKey>, p: nat)
    requires Recent(uses, flow, lane, others, p)
    ensures Distinct(uses) && p < |uses| && uses[p].flow == flow
  {
  }

  lemma {:induction false} UnheldKeeps(uses: seq<Use>, flow: FlowKey, lane: nat, others: set<FlowKey>, p: nat,
                                       gone: FlowKey)
    requires Recent(uses, flow, lane, others, p) && !Holds(uses, gone)
    ensures Keeps(uses, flow, lane, others - {gone})
  {
    hide Distinct;
    assert forall q :: 0 <= q < |uses| ==> uses[q].flow != gone;
    assert Recent(uses, flow, lane, others - {gone}, p);
  }

  /** Using another flow, while fewer than FLOW_LIMIT others were used. */
  lemma {:induction false} AssignedKeeps(uses: seq<Use>, flow: FlowKey, lane: nat, others: set<FlowKey>, used: FlowKey,
                                         at: nat)
    requires Keeps(uses, flow, lane, others) && used != flow && |others + {used}| < FLOW_LIMIT && |uses| <= FLOW_LIMIT
    requires Distinct(uses)
    ensures Keeps(Assigned(uses, used, at), flow, lane, others + {used})
  {
    ForgetKeeps(uses, flow, lane, others, used);
    ForgetDistinct(uses, used);
    var rest := Forget(uses, used);
    hide Forget;
    var p :| Recent(rest, flow, lane, others - {used}, p);
    RecentBound(rest, flow, lane, others - {used}, p);
    assert |others - {used}| + 1 == |others + {used}| by {
      assert (others - {used}) + {used} == others + {used};
    }
    var result := Assigned(uses, used, at);
    LastDistinct(rest, used, at, if |rest| >= FLOW_LIMIT then 1 else 0);
    var q := if |rest| >= FLOW_LIMIT then p - 1 else p;
    assert Recent(result, flow, lane, others + {used}, q);
  }

  lemma {:induction false} LastDistinct(rest: seq<Use>, used: FlowKey, at: nat, from: nat)
    requires Distinct(rest) && !Holds(rest, used) && from <= |rest|
    ensures Distinct(rest[from..] + [Use(used, at)])
  {
    assert forall q :: 0 <= q < |rest| ==> rest[q].flow != used;
  }

  /** Using the flow itself. */
  lemma {:induction false} AssignedSelf(uses: seq<Use>, flow: FlowKey, lane: nat)
    requires Distinct(uses) && |uses| <= FLOW_LIMIT
    ensures Keeps(Assigned(uses, flow, lane), flow, lane, {}) && Distinct(Assigned(uses, flow, lane))
    ensures |Assigned(uses, flow, lane)| <= FLOW_LIMIT
  {
    ForgetDistinct(uses, flow);
    var rest := Forget(uses, flow);
    hide Forget;
    LastDistinct(rest, flow, lane, if |rest| >= FLOW_LIMIT then 1 else 0);
    assert rest[0..] == rest;
    var result := Assigned(uses, flow, lane);
    assert Recent(result, flow, lane, {}, |result| - 1);
  }

  lemma {:induction false} KeepsMore(uses: seq<Use>, flow: FlowKey, lane: nat, few: set<FlowKey>, many: set<FlowKey>)
    requires Keeps(uses, flow, lane, few) && few <= many
    ensures Keeps(uses, flow, lane, many)
  {
    var p :| Recent(uses, flow, lane, few, p);
    assert Recent(uses, flow, lane, many, p);
  }

  lemma {:induction false} KeepsHolds(uses: seq<Use>, flow: FlowKey, lane: nat, others: set<FlowKey>)
    requires Keeps(uses, flow, lane, others)
    ensures Use(flow, lane) in uses
  {
  }

  // What a call saw.

  /** The lane was seen active, or inactive, at some moment of the call. */
  ghost predicate Seen(world: World, lane: nat, up: bool, from: nat, to: nat) {
    exists t: nat :: from <= t < to && world.activeAt(t, lane) == up
  }

  lemma {:induction false} SeenWithin(world: World, from: nat, a: nat, b: nat, to: nat)
    requires from <= a <= b <= to
    ensures forall lane, up :: Seen(world, lane, up, a, b) ==> Seen(world, lane, up, from, to)
  {
  }

  lemma {:induction false} SeenAt(world: World, lane: nat, t: nat)
    ensures Seen(world, lane, world.activeAt(t, lane), t, t + 1)
  {
  }

  /** The lane stayed active and the group unharmed; other lanes may come and go. */
  ghost predicate StaysUp(world: World, lane: nat, from: nat, to: nat) {
    forall t: nat :: from <= t < to ==> UpAt(world, lane, t)
  }

  ghost predicate UpAt(world: World, lane: nat, t: nat) {
    world.activeAt(t, lane) && !world.failedAt(t) && !world.cancelledAt(t)
  }

  /** Every data lane was seen active if listed, and inactive otherwise. */
  ghost predicate Surveyed(world: World, lanes: set<nat>, from: nat, to: nat) {
    && (forall k :: k in lanes ==> 1 <= k < LANE_COUNT)
    && (forall k: nat :: 1 <= k < LANE_COUNT && k in lanes ==> Seen(world, k, true, from, to))
    && (forall k: nat :: 1 <= k < LANE_COUNT && k !in lanes ==> Seen(world, k, false, from, to))
  }

  function Rotated(start: nat, offset: nat, n: nat): (r: nat)
    requires start < n && offset < n
    ensures r == if start + offset < n then start + offset else start + offset - n
  {
    (start + offset) % n
  }

  function Back(start: nat, i: nat, n: nat): (r: nat)
    requires start < n && i < n
    ensures r < n && Rotated(start, r, n) == i
  {
    if i >= start then i - start else i + n - start
  }

  function LaneSet(lanes: seq<nat>): set<nat> {
    set k | k in lanes
  }

  ghost predicate Ascending(lanes: seq<nat>) {
    forall i, j :: 0 <= i < j < |lanes| ==> lanes[i] < lanes[j]
  }

  ghost predicate Least(loads: map<nat, nat>, lane: nat) {
    lane in loads && forall k :: k in loads ==> loads[lane] <= loads[k]
  }

  lemma {:induction false} SurveyWider(world: World, lanes: set<nat>, from: nat, a: nat, b: nat, to: nat)
    requires Surveyed(world, lanes, a, b) && from <= a <= b <= to
    ensures Surveyed(world, lanes, from, to)
  {
    hide Seen;
    SeenWithin(world, from, a, b, to);
  }

  lemma {:induction false} SurveyFacts(world: World, lanes: set<nat>, from: nat, to: nat, lane: nat)
    requires Surveyed(world, lanes, from, to) && lane in lanes
    ensures 1 <= lane < LANE_COUNT && Seen(world, lane, true, from, to)
  {
  }

  /** Every lane was seen inactive. */
  ghost predicate AllDown(world: World, from: nat, to: nat) {
    forall k :: 0 <= k < LANE_COUNT ==> Seen(world, k, false, from, to)
  }

  lemma {:induction false} DataAndControl(world: World, from: nat, to: nat)
    requires Surveyed(world, {}, from, to) && Seen(world, 0, false, from, to)
    ensures AllDown(world, from, to)
  {
    hide Seen;
    forall k: nat | 1 <= k < LANE_COUNT
      ensures Seen(world, k, false, from, to)
    {
      assert k !in {};
    }
  }

  lemma {:induction false} NoLoads(loads: map<nat, nat>)
    ensures loads == map[] ==> loads.Keys == {}
  {
  }

  /**
   The right lane to try first: control packets leave lane 0, and data packets turn
   to it, only for want of others.
   */
  ghost predicate Proper(world: World, packet: Packet, lane: nat, from: nat, to: nat) {
    && (!IsData(packet) && lane != 0 ==> Seen(world, 0, false, from, to))
    && (IsData(packet) && lane == 0 ==> Surveyed(world, {}, from, to))
  }

  /**
   The offers of one call: to lanes seen active, the first one proper, and a second
   only after a refusal that allows it.
   */
  ghost predicate Fair(world: World, packet: Packet, more: seq<Offer>, from: nat, to: nat) {
    && (forall i :: 0 <= i < |more| ==> Seen(world, more[i].lane, true, from, to))
    && (|more| > 0 ==> Proper(world, packet, more[0].lane, from, to))
    && (|more| > 1 ==> more[0].answer == Gone || (more[0].answer == Refused && !IsData(packet)))
  }

  lemma {:induction false} ProperWithin(world: World, packet: Packet, lane: nat, from: nat, a: nat, b: nat, to: nat)
    requires Proper(world, packet, lane, a, b) && from <= a <= b <= to
    ensures Proper(world, packet, lane, from, to)
  {
    hide Seen, Surveyed, IsData;
    SeenWithin(world, from, a, b, to);
    if Surveyed(world, {}, a, b) {
      SurveyWider(world, {}, from, a, b, to);
    }
  }

  lemma {:induction false} DataThenControl(world: World, from: nat, a: nat, to: nat)
    requires from <= a <= to && Surveyed(world, {}, from, a) && Seen(world, 0, false, a, to)
    ensures AllDown(world, from, to)
  {
    hide Seen;
    SeenWithin(world, from, from, a, to);
    SeenWithin(world, from, a, to, to);
    forall k: nat | 1 <= k < LANE_COUNT
      ensures Seen(world, k, false, from, a)
    {
      assert k !in {};
    }
  }

  lemma {:induction false} AllDownWithin(world: World, from: nat, a: nat, b: nat, to: nat)
    requires from <= a <= b <= to
    ensures AllDown(world, a, b) ==> AllDown(world, from, to)
  {
    hide Seen;
    SeenWithin(world, from, a, b, to);
  }

  /** The flow has a data lane that stays up. */
  ghost predicate Affine(world: World, uses: seq<Use>, flow: FlowKey, lane: nat, from: nat, to: nat) {
    1 <= lane < LANE_COUNT && Use(flow, lane) in uses && StaysUp(world, lane, from, to)
  }

  lemma {:induction false} StaysUpWithin(world: World, from: nat, a: nat, b: nat, to: nat)
    requires from <= a <= b <= to
    ensures forall lane :: StaysUp(world, lane, from, to) ==> StaysUp(world, lane, a, b)
  {
  }

  lemma {:induction false} NeverUp(world: World, from: nat, to: nat)
    requires from < to && (world.failedAt(from) || world.cancelledAt(from))
    ensures forall lane :: !StaysUp(world, lane, from, to)
  {
    forall lane: nat
      ensures !StaysUp(world, lane, from, to)
    {
      assert !UpAt(world, lane, from);
    }
  }

  lemma {:induction false} OnlyLane(uses: seq<Use>, flow: FlowKey, lane: nat)
    requires Distinct(uses) && Use(flow, lane) in uses
    ensures forall l :: Use(flow, l) in uses ==> l == lane
    ensures forall k :: 0 <= k < |uses| && uses[k].flow == flow ==> uses[k] == Use(flow, lane)
  {
  }

  lemma {:induction false} NoLane(uses: seq<Use>, flow: FlowKey)
    requires !Holds(uses, flow)
    ensures forall l :: Use(flow, l) !in uses
    ensures Forget(uses, flow) == uses
  {
    ForgetNothing(uses, flow);
    assert forall k :: 0 <= k < |uses| ==> uses[k].flow != flow;
  }

  ghost predicate FirstLeast(loads: map<nat, nat>, lane: nat) {
    Least(loads, lane) && forall k :: k in loads && k < lane ==> loads[k] > loads[lane]
  }

  ghost predicate QueuedSeen(world: World, lane: nat, queued: nat, from: nat, to: nat) {
    exists t: nat :: from <= t < to && world.queuedAt(t, lane) == queued
  }

  /** These are queue lengths read during the call. */
  ghost predicate Measured(world: World, loads: map<nat, nat>, from: nat, to: nat) {
    forall k :: k in loads ==> QueuedSeen(world, k, loads[k], from, to)
  }

  lemma {:induction false} MeasuredNone(world: World, from: nat, to: nat)
    ensures Measured(world, map[], from, to)
  {
  }

  lemma {:induction false} MeasuredWider(world: World, loads: map<nat, nat>, from: nat, at: nat, to: nat)
    requires Measured(world, loads, from, at) && at <= to
    ensures Measured(world, loads, from, to)
  {
    forall k | k in loads
      ensures QueuedSeen(world, k, loads[k], from, to)
    {
      assert QueuedSeen(world, k, loads[k], from, at);
    }
  }

  lemma {:induction false} MeasuredLater(world: World, loads: map<nat, nat>, from: nat, at: nat, to: nat)
    requires Measured(world, loads, at, to) && from <= at
    ensures Measured(world, loads, from, to)
  {
    forall k | k in loads
      ensures QueuedSeen(world, k, loads[k], from, to)
    {
      assert QueuedSeen(world, k, loads[k], at, to);
    }
  }

  /** One more reading, taken at `now`. */
  lemma {:induction false} MeasuredMore(world: World, loads: map<nat, nat>, lane: nat, from: nat, at: nat, now: nat,
                                        to: nat)
    requires Measured(world, loads, from, at) && from <= at <= now < to
    ensures Measured(world, loads[lane := world.queuedAt(now, lane)], from, to)
  {
    var more := loads[lane := world.queuedAt(now, lane)];
    forall k | k in more
      ensures QueuedSeen(world, k, more[k], from, to)
    {
      if k != lane {
        assert QueuedSeen(world, k, loads[k], from, at);
      }
    }
  }

  /** The lanes measured after `offset` steps of the rotation. */
  ghost predicate Scanned(lanes: seq<nat>, start: nat, offset: nat, loads: map<nat, nat>)
    requires start < |lanes|
  {
    && (forall k :: k in loads ==> k in lanes)
    && (forall i :: 0 <= i < |lanes| ==> (lanes[i] in loads <==> Back(start, i, |lanes|) < offset))
  }

  lemma {:induction false} FirstLoad(lanes: seq<nat>, start: nat, queued: nat)
    requires start < |lanes| && Ascending(lanes)
    ensures Scanned(lanes, start, 1, map[lanes[start] := queued]) && Least(map[lanes[start] := queued], lanes[start])
  {
  }

  /** The next lane of the rotation is a new one. */
  lemma {:induction false} NextLoad(lanes: seq<nat>, start: nat, offset: nat, loads: map<nat, nat>, lane: nat,
                                    queued: nat)
    requires start < |lanes| && offset < |lanes| && Ascending(lanes) && Scanned(lanes, start, offset, loads)
    requires Least(loads, lane)
    ensures var next := lanes[Rotated(start, offset, |lanes|)];
      && Scanned(lanes, start, offset + 1, loads[next := queued])
      && next !in loads
      && Least(loads[next := queued], if queued < loads[lane] then next else lane)
  {
    var at := Rotated(start, offset, |lanes|);
    assert Back(start, at, |lanes|) == offset;
  }

  lemma {:induction false} AllScanned(lanes: seq<nat>, start: nat, loads: map<nat, nat>, lane: nat)
    requires start < |lanes| && Scanned(lanes, start, |lanes|, loads) && Least(loads, lane)
    ensures loads.Keys == LaneSet(lanes) && lane in lanes
  {
    assert forall i :: 0 <= i < |lanes| ==> Back(start, i, |lanes|) < |lanes|;
  }

  /** One change to the table: none, forgetting the flow, or using it on a data lane. */
  ghost predicate TableStep(before: seq<Use>, after: seq<Use>, flow: FlowKey) {
    || after == before
    || after == Forget(before, flow)
    || exists lane :: 1 <= lane < LANE_COUNT && after == Assigned(before, flow, lane)
  }

  /** The effect of choosing a lane on the table: none for control, and a flow's lane stays its lane while it is up. */
  ghost predicate Chosen(world: World, before: seq<Use>, after: seq<Use>, packet: Packet, lane: Option<nat>, from: nat,
                         to: nat) {
    && TableStep(before, after, FlowOf(packet))
    && (!IsData(packet) ==> after == before)
    && (IsData(packet) ==> forall l: nat :: Affine(world, before, FlowOf(packet), l, from, to) ==>
          lane == Some(l) && after == Assigned(before, FlowOf(packet), l))
  }

  lemma {:induction false} ChosenControl(world: World, before: seq<Use>, packet: Packet, lane: Option<nat>,
                                         from: nat, to: nat)
    requires !IsData(packet)
    ensures Chosen(world, before, before, packet, lane, from, to)
  {
  }

  /** The flow's own lane was chosen if it stayed up; lane 0 only when no data lane was chosen. */
  lemma {:induction false} ChosenData(world: World, before: seq<Use>, after: seq<Use>, packet: Packet,
                                      first: Option<nat>, lane: Option<nat>, from: nat, a: nat, to: nat)
    requires IsData(packet) && from <= a <= to
    requires first.None? ==> after == Forget(before, FlowOf(packet))
    requires first.Some? ==>
      lane == first && 1 <= first.value < LANE_COUNT && after == Assigned(before, FlowOf(packet), first.value)
    requires forall l: nat :: Affine(world, before, FlowOf(packet), l, from, a) ==> first == Some(l)
    ensures Chosen(world, before, after, packet, lane, from, to)
  {
    hide Assigned, Forget, FlowOf, IsData, StaysUp;
    StaysUpWithin(world, from, from, a, to);
    assert forall l: nat :: Affine(world, before, FlowOf(packet), l, from, to) ==>
      Affine(world, before, FlowOf(packet), l, from, a);
  }

  /**
   A data packet of a flow whose lane stays up, and takes or refuses it, goes to
   that lane only, and the flow keeps it.
   */
  ghost predicate Followed(world: World, before: seq<Use>, after: seq<Use>, packet: Packet, more: seq<Offer>, from: nat,
                           to: nat) {
    forall l: nat :: IsData(packet) && Affine(world, before, FlowOf(packet), l, from, to) && !Spurned(more, l) ==>
      after == Assigned(before, FlowOf(packet), l) && |more| == 1 && more[0].lane == l
  }

  /** The lane's own queue was unavailable to some offer. */
  predicate Spurned(offers: seq<Offer>, lane: nat) {
    exists i :: 0 <= i < |offers| && offers[i].lane == lane && offers[i].answer == Gone
  }

  /** An offer to the chosen lane that was not turned away ends the call. */
  lemma {:induction false} FollowedOnce(world: World, before: seq<Use>, after: seq<Use>, packet: Packet,
                                        lane: Option<nat>, more: seq<Offer>,
                                        from: nat, a: nat, b: nat, to: nat)
    requires from <= a <= b <= to && Chosen(world, before, after, packet, lane, a, b)
    requires lane.Some? ==> |more| == 1 && more[0].lane == lane.value
    ensures Followed(world, before, after, packet, more, from, to)
  {
    hide StaysUp, Assigned, TableStep, IsData, FlowOf;
    StaysUpWithin(world, from, a, b, to);
    forall l: nat | IsData(packet) && Affine(world, before, FlowOf(packet), l, from, to)
      ensures after == Assigned(before, FlowOf(packet), l) && |more| == 1 && more[0].lane == l
    {
      assert Affine(world, before, FlowOf(packet), l, a, b);
    }
  }

  lemma {:induction false} NoneFollows(world: World, before: seq<Use>, after: seq<Use>, packet: Packet,
                                       more: seq<Offer>, from: nat, to: nat)
    requires forall lane: nat :: !StaysUp(world, lane, from, to)
    ensures Followed(world, before, after, packet, more, from, to)
  {
    hide StaysUp, IsData, FlowOf;
  }

  /** A chosen lane whose queue was gone has spurned the packet. */
  lemma {:induction false} GoneFollows(world: World, before: seq<Use>, between: seq<Use>, after: seq<Use>,
                                       packet: Packet, lane: nat, more: seq<Offer>,
                                       from: nat, a: nat, b: nat, to: nat)
    requires from <= a <= b <= to && Chosen(world, before, between, packet, Some(lane), a, b)
    requires |more| > 0 && more[0].lane == lane && more[0].answer == Gone
    ensures Followed(world, before, after, packet, more, from, to)
  {
    hide Assigned, TableStep, IsData, FlowOf, StaysUp;
    StaysUpWithin(world, from, a, b, to);
    forall l: nat | IsData(packet) && Affine(world, before, FlowOf(packet), l, from, to)
      ensures Spurned(more, l)
    {
      assert Affine(world, before, FlowOf(packet), l, a, b);
    }
  }

  lemma {:induction false} NothingOffered(world: World, packet: Packet, from: nat, to: nat)
    ensures Fair(world, packet, [], from, to)
  {
  }

  lemma {:induction false} FairWithin(world: World, packet: Packet, more: seq<Offer>, from: nat, a: nat, to: nat)
    requires Fair(world, packet, more, a, to) && from <= a <= to
    ensures Fair(world, packet, more, from, to)
  {
    hide Seen, Proper, IsData;
    SeenWithin(world, from, a, to, to);
    if |more| > 0 {
      ProperWithin(world, packet, more[0].lane, from, a, to, to);
    }
  }

  lemma {:induction false} FollowedWithin(world: World, before: seq<Use>, after: seq<Use>, packet: Packet,
                                          more: seq<Offer>, from: nat, a: nat, to: nat)
    requires Followed(world, before, after, packet, more, a, to) && from <= a <= to
    ensures Followed(world, before, after, packet, more, from, to)
  {
    hide StaysUp, Assigned, IsData, FlowOf;
    StaysUpWithin(world, from, a, to, to);
    assert forall l: nat :: Affine(world, before, FlowOf(packet), l, from, to) ==>
      Affine(world, before, FlowOf(packet), l, a, to);
  }

  lemma {:induction false} ControlFollows(world: World, before: seq<Use>, after: seq<Use>, packet: Packet,
                                          more: seq<Offer>, from: nat, to: nat)
    requires !IsData(packet)
    ensures Followed(world, before, after, packet, more, from, to)
  {
  }

  ghost predicate Ordered(offers: seq<Offer>, routed: seq<Packet>) {
    forall lane :: 0 <= lane < LANE_COUNT ==> Subsequence(OffersTo(offers, lane), routed)
  }

  lemma {:induction false} OrderedMore(offers: seq<Offer>, more: seq<Offer>, routed: seq<Packet>, p: Packet)
    requires Ordered(offers, routed) && OffersOnce(more, p)
    ensures Ordered(offers + more, routed + [p])
  {
    hide Subsequence, OffersTo, OffersOnce;
    forall lane | 0 <= lane < LANE_COUNT
      ensures Subsequence(OffersTo(offers + more, lane), routed + [p])
    {
      OffersKeepOrder(offers, more, routed, p, lane);
    }
  }

  /** The packets that a lane's queue took. */
  function TakenBy(offers: seq<Offer>, lane: nat): seq<Packet> {
    if offers == [] then []
    else
      var last := offers[|offers| - 1];
      TakenBy(offers[..|offers| - 1], lane) + TakenOf(last, lane)
  }

  function TakenOf(offer: Offer, lane: nat): seq<Packet> {
    if offer.lane == lane && offer.answer == Taken then [offer.packet] else []
  }

  lemma {:induction false} TakenMore(offers: seq<Offer>, offer: Offer)
    ensures forall lane :: TakenBy(offers + [offer], lane) == TakenBy(offers, lane) + TakenOf(offer, lane)
  {
    assert (offers + [offer])[..|offers|] == offers;
  }

  /** A queue that has accepted what it took of the offers, and nothing else. */
  ghost predicate Fed(queue: Q.UploadQueue, offers: seq<Offer>, lane: nat)
    reads queue
  {
    queue.Valid() && Q.Payloads(queue.log.accepted) == TakenBy(offers, lane)
  }

  lemma {:induction false} FedMore(accepted: seq<Q.Queued>, item: Q.Queued)
    ensures Q.Payloads(accepted + [item]) == Q.Payloads(accepted) + [item.data]
    ensures Q.Payloads(accepted) + [] == Q.Payloads(accepted)
  {
  }

  lemma {:induction false} FedAtFirst()
    ensures Ordered([], [])
    ensures forall lane :: TakenBy([], lane) == []
    ensures Q.Payloads([]) == []
  {
  }

  lemma {:induction false} SpurnedMore(a: seq<Offer>, b: seq<Offer>, lane: nat)
    ensures Spurned(a + b, lane) <==> Spurned(a, lane) || Spurned(b, lane)
  {
    if Spurned(b, lane) {
      var i :| 0 <= i < |b| && b[i].lane == lane && b[i].answer == Gone;
      assert (a + b)[|a| + i] == b[i];
    }
    if Spurned(a, lane) {
      var i :| 0 <= i < |a| && a[i].lane == lane && a[i].answer == Gone;
      assert (a + b)[i] == a[i];
    }
  }

  class Dispatcher {
    const world: World
    const flows: FlowTable
    const queues: seq<Q.UploadQueue>
    const hash: Packet -> nat
    var time: nat
    ghost var offers: seq<Offer>
    ghost var routed: seq<Packet>

    /** Each lane has its own queue, which has accepted exactly the offers it took, in order. */
    ghost predicate Queued()
      reads this`offers, queues
    {
      && |queues| == LANE_COUNT && (forall i, j :: 0 <= i < j < LANE_COUNT ==> queues[i] != queues[j])
      && forall lane :: 0 <= lane < LANE_COUNT ==> Fed(queues[lane], offers, lane)
    }

    /** On every lane, the offers follow the order of the routed packets, and the queue follows the offers. */
    ghost predicate Valid()
      reads this, flows, queues
    {
      flows.Valid() && Ordered(offers, routed) && Queued()
    }

    constructor (world: World, hash: Packet -> nat, config: Q.QueueConfig)
      ensures Valid() && fresh(flows) && fresh(queues)
      ensures flows.Contents() == [] && offers == [] && routed == [] && this.world == world
    {
      hide Q.UploadQueue.Valid, FlowTable.Valid, FlowTable.Contents, OffersTo, Subsequence;
      this.world := world;
      this.hash := hash;
      flows := new FlowTable();
      var control := new Q.UploadQueue(config);
      var one := new Q.UploadQueue(config);
      var two := new Q.UploadQueue(config);
      var three := new Q.UploadQueue(config);
      queues := [control, one, two, three];
      time := 0;
      offers := [];
      routed := [];
      FedAtFirst();
    }

    lemma {:induction false} FourQueues()
      requires Queued()
      ensures |queues| == LANE_COUNT
    {
    }

    method IsActive(lane: nat) returns (r: bool)
      modifies this`time
      ensures time == old(time) + 1 && r == world.activeAt(old(time), lane)
      ensures Seen(world, lane, r, old(time), time)
    {
      r := world.activeAt(time, lane);
      SeenAt(world, lane, time);
      time := time + 1;
    }

    method QueuedBytes(lane: nat) returns (r: nat)
      modifies this`time
      ensures time == old(time) + 1 && r == world.queuedAt(old(time), lane)
    {
      r := world.queuedAt(time, lane);
      time := time + 1;
    }

    /** What other tasks do to a lane's queue; only the dispatcher enqueues. */
    method Others(lane: nat, ops: seq<Q.Operation>)
      requires Queued() && lane < LANE_COUNT
      modifies queues[lane]
      ensures Queued()
    {
      var queue := queues[lane];
      for i := 0 to |ops|
        invariant queue.Valid() && queue.log.accepted == old(queue.log.accepted)
      {
        if !ops[i].EnqueueOp? {
          hide Q.UploadQueue.Valid;
          var _ := Q.Step(queue, ops[i]);
        }
      }
      hide Q.UploadQueue.Valid, TakenBy, Q.Payloads;
    }

    /** Offers a packet to a lane's queue, after whatever other tasks did to it. */
    method Enqueue(lane: nat, packet: Packet) returns (r: Answer)
      requires Queued() && lane < LANE_COUNT
      modifies this`time, this`offers, queues
      ensures Queued() && time == old(time) + 1 && offers == old(offers) + [Offer(lane, packet, r)]
      ensures |queues| == LANE_COUNT && (r == Gone <==> !queues[lane].active)
    {
      hide Q.UploadQueue.Valid, TakenBy, Q.Payloads, Classify.Classify;
      Others(lane, world.othersAt(time, lane));
      ghost var accepted := queues[lane].log.accepted;
      var answer := queues[lane].Enqueue(packet, Classify.Classify(packet).kind, world.nowAt(time));
      r := match answer
        case Accepted => Taken
        case Full(_) => Refused
        case Unavailable(_) => Gone;
      time := time + 1;
      offers := offers + [Offer(lane, packet, r)];
      TakenMore(old(offers), Offer(lane, packet, r));
      FedMore(accepted, Q.Queued(packet, Classify.Classify(packet).kind, world.nowAt(old(time))));
    }

    /** The control lane, or else the least loaded active data lane, the first of equals. */
    method ControlLane() returns (lane: Option<nat>, ghost loads: map<nat, nat>)
      modifies this`time
      ensures time > old(time)
      ensures lane.Some? ==> lane.value < LANE_COUNT && Seen(world, lane.value, true, old(time), time)
      ensures lane != Some(0) ==>
        && Seen(world, 0, false, old(time), time) && Surveyed(world, loads.Keys, old(time), time)
        && Measured(world, loads, old(time), time)
        && if lane.None? then loads == map[] else FirstLeast(loads, lane.value)
    {
      hide Seen, Measured;
      loads := map[];
      var control := IsActive(0);
      if control {
        return Some(0), loads;
      }
      lane := None;
      var best := 0;
      MeasuredNone(world, old(time), time);
      for k := 1 to LANE_COUNT
        invariant time > old(time) && Seen(world, 0, false, old(time), time)
        invariant forall j: nat :: 1 <= j < k && j in loads ==> Seen(world, j, true, old(time), time)
        invariant forall j: nat :: 1 <= j < k && j !in loads ==> Seen(world, j, false, old(time), time)
        invariant forall j :: j in loads ==> 1 <= j < k
        invariant Measured(world, loads, old(time), time)
        invariant if lane.None? then loads == map[] else FirstLeast(loads, lane.value) && best == loads[lane.value]
      {
        ghost var at := time;
        var active := IsActive(k);
        ghost var seen := time;
        if active {
          var queued := QueuedBytes(k);
          MeasuredMore(world, loads, k, old(time), at, seen, time);
          loads := loads[k := queued];
          if lane.None? || queued < best {
            lane := Some(k);
            best := queued;
          }
        } else {
          MeasuredWider(world, loads, old(time), at, time);
        }
        SeenWithin(world, old(time), old(time), at, time);
        SeenWithin(world, old(time), at, seen, time);
      }
    }

    /** The data lanes seen active. */
    method Candidates() returns (lanes: seq<nat>)
      modifies this`time
      ensures time >= old(time) && Surveyed(world, LaneSet(lanes), old(time), time) && Ascending(lanes)
    {
      hide Seen;
      lanes := [];
      for k := 1 to LANE_COUNT
        invariant time >= old(time) && Ascending(lanes)
        invariant forall i :: 0 <= i < |lanes| ==> 1 <= lanes[i] < k
        invariant forall j: nat :: 1 <= j < k ==> Seen(world, j, j in lanes, old(time), time)
      {
        ghost var at := time;
        var active := IsActive(k);
        SeenWithin(world, old(time), old(time), at, time);
        SeenWithin(world, old(time), at, time, time);
        if active {
          lanes := lanes + [k];
        }
      }
    }

    /** The shortest queue, scanning from `start`. */
    method LeastLoaded(lanes: seq<nat>, start: nat) returns (lane: nat, ghost loads: map<nat, nat>)
      requires start < |lanes| && Ascending(lanes)
      modifies this`time
      ensures time >= old(time) && loads.Keys == LaneSet(lanes) && Least(loads, lane) && lane in lanes
      ensures Measured(world, loads, old(time), time)
    {
      hide Measured, Least, Scanned, Ascending;
      lane := lanes[start];
      MeasuredNone(world, old(time), time);
      var best := QueuedBytes(lane);
      MeasuredMore(world, map[], lane, old(time), old(time), old(time), time);
      loads := map[lane := best];
      FirstLoad(lanes, start, best);
      for offset := 1 to |lanes|
        invariant time >= old(time) && Least(loads, lane) && lane in loads && loads[lane] == best
        invariant Measured(world, loads, old(time), time)
        invariant Scanned(lanes, start, offset, loads)
      {
        var candidate := lanes[Rotated(start, offset, |lanes|)];
        ghost var at := time;
        var queued := QueuedBytes(candidate);
        MeasuredMore(world, loads, candidate, old(time), at, at, time);
        NextLoad(lanes, start, offset, loads, lane, queued);
        loads := loads[candidate := queued];
        if queued < best {
          lane := candidate;
          best := queued;
        }
      }
      AllScanned(lanes, start, loads, lane);
    }

    /**
     The lane of a flow: the one it has while that is active, else the least
     loaded active data lane, which it then keeps; never the control lane.
     */
    method DataLane(flow: FlowKey, hash: nat) returns (lane: Option<nat>, ghost loads: map<nat, nat>)
      requires flows.Valid()
      modifies this`time, flows
      ensures flows.Valid() && time >= old(time)
      ensures lane.Some? ==> 1 <= lane.value < LANE_COUNT && Seen(world, lane.value, true, old(time), time)
      ensures lane.Some? ==> flows.Contents() == Assigned(old(flows.Contents()), flow, lane.value)
      ensures lane.Some? ==>
        || Use(flow, lane.value) in old(flows.Contents())
        || (&& Surveyed(world, loads.Keys, old(time), time)
            && Measured(world, loads, old(time), time) && Least(loads, lane.value))
      ensures lane.None? ==> flows.Contents() == Forget(old(flows.Contents()), flow)
      ensures lane.None? ==> Surveyed(world, {}, old(time), time)
      ensures forall l: nat :: Affine(world, old(flows.Contents()), flow, l, old(time), time) ==> lane == Some(l)
    {
      hide FlowTable.Valid, FlowTable.Contents, Assigned, Forget, Holds, Seen, Distinct, Surveyed, Measured;
      ghost var before := flows.Contents();
      flows.ContentsFacts();
      loads := map[];
      var found := flows.Assignment(flow);
      if found.Some? {
        var have := found.value.1;
        OnlyLane(before, flow, have);
        ghost var k := flows.Slot(flow);
        if 0 < have < LANE_COUNT {
          var active := IsActive(have);
          if active {
            TouchIsUse(before, k);
            flows.Touch(found.value.0, k);
            return Some(have), loads;
          }
          assert !UpAt(world, have, old(time));
        }
        flows.Remove(flow);
      } else {
        NoLane(before, flow);
      }
      ghost var at := time;
      var lanes := Candidates();
      SurveyWider(world, LaneSet(lanes), old(time), at, time, time);
      if lanes == [] {
        assert LaneSet(lanes) == {};
        return None, loads;
      }
      at := time;
      var selected: nat;
      selected, loads := LeastLoaded(lanes, hash % |lanes|);
      SurveyWider(world, LaneSet(lanes), old(time), old(time), at, time);
      MeasuredLater(world, loads, old(time), at, time);
      SurveyFacts(world, LaneSet(lanes), old(time), time, selected);
      ForgetThenUse(before, flow, selected);
      flows.Assign(flow, selected);
      return Some(selected), loads;
    }

    /** The lane to offer a packet to first. */
    method FirstLane(packet: Packet) returns (lane: Option<nat>)
      requires flows.Valid()
      modifies this`time, flows
      ensures flows.Valid() && time >= old(time)
      ensures lane.Some? ==> lane.value < LANE_COUNT && Seen(world, lane.value, true, old(time), time)
      ensures lane.None? ==> AllDown(world, old(time), time)
      ensures lane.Some? ==> Proper(world, packet, lane.value, old(time), time)
      ensures Chosen(world, old(flows.Contents()), flows.Contents(), packet, lane, old(time), time)
    {
      hide FlowTable.Valid, FlowTable.Contents, Assigned, Forget, Seen, Surveyed, FlowOf, IsData, StaysUp, AllDown,
        Measured, Chosen, Affine;
      ghost var loads, before := map[], flows.Contents();
      if !IsData(packet) {
        lane, loads := ControlLane();
        ChosenControl(world, before, packet, lane, old(time), time);
        if lane.None? {
          NoLoads(loads);
          DataAndControl(world, old(time), time);
        }
        return;
      }
      lane, loads := DataLane(FlowOf(packet), hash(packet));
      ghost var chosen, first := time, lane;
      if lane.None? {
        var control := IsActive(0);
        if control {
          lane := Some(0);
        } else {
          DataThenControl(world, old(time), chosen, time);
        }
        SurveyWider(world, {}, old(time), old(time), chosen, time);
        SeenWithin(world, old(time), chosen, time, time);
      }
      ChosenData(world, before, flows.Contents(), packet, first, lane, old(time), chosen, time);
    }

    /** The second attempt of a packet that its first lane did not keep. */
    method Retry(packet: Packet, first: nat)
      requires flows.Valid() && Queued()
      modifies this`time, this`offers, flows, queues
      ensures flows.Valid() && Queued() && time >= old(time)
      ensures |old(offers)| <= |offers| <= |old(offers)| + 1 && offers[..|old(offers)|] == old(offers)
      ensures |offers| == |old(offers)| + 1 ==>
        && offers[|old(offers)|].packet == packet && offers[|old(offers)|].lane < LANE_COUNT
        && offers[|old(offers)|].lane != first && Seen(world, offers[|old(offers)|].lane, true, old(time), time)
      ensures TableStep(old(flows.Contents()), flows.Contents(), FlowOf(packet))
      ensures !IsData(packet) ==> flows.Contents() == old(flows.Contents())
    {
      hide FlowTable.Valid, FlowTable.Contents, Assigned, Forget, Seen, Surveyed, FlowOf, IsData, StaysUp, Distinct,
        Measured, Queued;
      var second;
      ghost var loads, from;
      from := time;
      if !IsData(packet) {
        second, loads := ControlLane();
      } else {
        flows.ContentsFacts();
        ghost var before := flows.Contents();
        flows.Remove(FlowOf(packet));
        second, loads := DataLane(FlowOf(packet), hash(packet));
        ForgetThenUse(before, FlowOf(packet), if second.Some? then second.value else 0);
        if second.None? {
          from := time;
          second, loads := ControlLane();
        }
      }
      ghost var to := time;
      if second.Some? && second.value != first {
        var _ := Enqueue(second.value, packet);
      }
      SeenWithin(world, old(time), from, to, time);
    }

    /** Offers a packet to a lane, and at most once more to another. */
    method Deliver(packet: Packet) returns (r: Routed, ghost between: seq<Use>, ghost more: seq<Offer>)
      requires flows.Valid() && Queued()
      modifies this`time, this`offers, flows, queues
      ensures flows.Valid() && Queued() && time >= old(time) && offers == old(offers) + more && OffersOnce(more, packet)
      ensures r == if more == [] then NoCapacity else Done
      ensures r == NoCapacity ==> AllDown(world, old(time), time)
      ensures Fair(world, packet, more, old(time), time)
      ensures TableStep(old(flows.Contents()), between, FlowOf(packet))
      ensures TableStep(between, flows.Contents(), FlowOf(packet))
      ensures !IsData(packet) ==> flows.Contents() == between == old(flows.Contents())
      ensures Followed(world, old(flows.Contents()), flows.Contents(), packet, more, old(time), time)
    {
      hide FlowTable.Valid, FlowTable.Contents, Assigned, Forget, Seen, FlowOf, IsData, StaysUp, AllDown, Followed,
        Proper, Queued;
      ghost var before, sent, start := flows.Contents(), offers, time;
      more := [];
      var first := FirstLane(packet);
      between := flows.Contents();
      ghost var chosen := time;
      if first.None? {
        FollowedOnce(world, before, between, packet, first, [], start, start, chosen, time);
        return NoCapacity, between, more;
      }
      var answer := Enqueue(first.value, packet);
      more := [Offer(first.value, packet, answer)];
      if answer == Taken || (answer == Refused && IsData(packet)) {
        SeenWithin(world, start, start, chosen, time);
        ProperWithin(world, packet, first.value, start, start, chosen, time);
        FollowedOnce(world, before, between, packet, first, more, start, start, chosen, time);
        return Done, between, more;
      }
      ghost var once, offered := offers, time;
      Retry(packet, first.value);
      SeenWithin(world, start, start, chosen, time);
      SeenWithin(world, start, offered, time, time);
      ProperWithin(world, packet, first.value, start, start, chosen, time);
      more := more + offers[|once|..];
      assert offers == once + offers[|once|..];
      ConcatAssociates(sent, [Offer(first.value, packet, answer)], offers[|once|..]);
      if IsData(packet) {
        GoneFollows(world, before, between, flows.Contents(), packet, first.value, more, start, start, chosen, time);
      } else {
        ControlFollows(world, before, flows.Contents(), packet, more, start, time);
      }
      return Done, between, more;
    }

    /**
     Routes a packet unless the group has failed or is closing. A data packet
     of a flow whose lane stays up goes to that lane only, even when it is full.
     */
    method Route(packet: Packet) returns (r: Routed, ghost between: seq<Use>)
      requires Valid()
      modifies this`time, this`offers, this`routed, flows, queues
      ensures Valid() && time >= old(time) && routed == old(routed) + [packet]
      ensures |old(offers)| <= |offers| && offers[..|old(offers)|] == old(offers)
      ensures OffersOnce(offers[|old(offers)|..], packet)
      ensures r == Failed <==> world.failedAt(old(time))
      ensures r == Closed <==> !world.failedAt(old(time)) && world.cancelledAt(old(time))
      ensures r == Done <==> |offers| > |old(offers)|
      ensures r == NoCapacity ==> AllDown(world, old(time), time)
      ensures Fair(world, packet, offers[|old(offers)|..], old(time), time)
      ensures TableStep(old(flows.Contents()), between, FlowOf(packet))
      ensures TableStep(between, flows.Contents(), FlowOf(packet))
      ensures !IsData(packet) ==> flows.Contents() == between == old(flows.Contents())
      ensures Followed(world, old(flows.Contents()), flows.Contents(), packet, offers[|old(offers)|..], old(time), time)
    {
      hide FlowTable.Valid, FlowTable.Contents, Assigned, Forget, Seen, FlowOf, IsData, StaysUp, AllDown, Ordered,
        Followed, Proper, Fair, Queued;
      between := flows.Contents();
      ghost var before, sent, start := flows.Contents(), offers, time;
      routed := routed + [packet];
      var failed, cancelled := world.failedAt(time), world.cancelledAt(time);
      time := time + 1;
      if failed || cancelled {
        assert offers == sent + [] && offers[|sent|..] == [];
        OrderedMore(sent, [], old(routed), packet);
        NeverUp(world, start, time);
        NoneFollows(world, before, before, packet, [], start, time);
        NothingOffered(world, packet, start, time);
        return if failed then Failed else Closed, between;
      }
      ghost var more;
      r, between, more := Deliver(packet);
      assert offers[|sent|..] == more;
      OrderedMore(sent, more, old(routed), packet);
      AllDownWithin(world, start, start + 1, time, time);
      FairWithin(world, packet, more, start, start + 1, time);
      FollowedWithin(world, before, flows.Contents(), packet, more, start, start + 1, time);
    }

    /**
     A run over any packets. While a flow's lane stays up, its queue is never
     unavailable to an offer, and fewer than FLOW_LIMIT other flows are used
     between its packets, all its data packets are offered to that lane, each
     once and in order, and none elsewhere.
     */
    method RouteAll(packets: seq<Packet>, ghost flow: FlowKey, ghost lane: nat)
      requires Valid() && 1 <= lane < LANE_COUNT && Keeps(flows.Contents(), flow, lane, {})
      requires forall i :: 0 <= i <= |packets| ==> |Since(packets[..i], flow)| < FLOW_LIMIT
      modifies this`time, this`offers, this`routed, flows, queues
      ensures Valid() && routed == old(routed) + packets
      ensures |old(offers)| <= |offers| && offers[..|old(offers)|] == old(offers)
      ensures StaysUp(world, lane, old(time), time) && !Spurned(offers[|old(offers)|..], lane) ==>
        && Keeps(flows.Contents(), flow, lane, Since(packets, flow))
        && OffersOf(offers[|old(offers)|..], flow) == OnLane(DataOf(packets, flow), lane)
    {
      hide FlowTable.Valid, FlowTable.Contents, Assigned, Forget, FlowOf, IsData, StaysUp, Ordered, Keeps, Since,
        OffersOf, DataOf, OnLane,
        OffersOnce, Followed, TableStep, Distinct, Queued, Spurned;
      ghost var sent, start := offers, time;
      StartFacts(flow, lane);
      assert packets[..0] == [] && sent[|sent|..] == [] && routed + [] == routed;
      for i := 0 to |packets|
        invariant Valid() && routed == old(routed) + packets[..i] && time >= start
        invariant |sent| <= |offers| && offers[..|sent|] == sent
        invariant StaysUp(world, lane, start, time) && !Spurned(offers[|sent|..], lane) ==>
          && Keeps(flows.Contents(), flow, lane, Since(packets[..i], flow))
          && OffersOf(offers[|sent|..], flow) == OnLane(DataOf(packets[..i], flow), lane)
      {
        ghost var before, was, at := flows.Contents(), offers, time;
        flows.ContentsFacts();
        var r, between := Route(packets[i]);
        StaysUpWithin(world, start, start, at, time);
        StaysUpWithin(world, start, at, time, time);
        assert packets[..i + 1] == packets[..i] + [packets[i]];
        assert offers[|sent|..] == was[|sent|..] + offers[|was|..];
        SpurnedMore(was[|sent|..], offers[|was|..], lane);
        if StaysUp(world, lane, start, time) && !Spurned(offers[|sent|..], lane) {
          StepKeepsFlow(world, before, between, flows.Contents(), packets[..i], packets[i], was[|sent|..],
                        offers[|was|..], flow, lane, at, time);
        }
      }
      assert packets[..|packets|] == packets;
    }
  }

  // The packets of one flow.

  predicate IsOf(p: Packet, flow: FlowKey) {
    IsData(p) && FlowOf(p) == flow
  }

  /** The other flows that had a data packet since the last one of this flow. */
  function Since(packets: seq<Packet>, flow: FlowKey): set<FlowKey> {
    if packets == [] then {}
    else
      var before, last := Since(packets[..|packets| - 1], flow), packets[|packets| - 1];
      if !IsData(last) then before else if FlowOf(last) == flow then {} else before + {FlowOf(last)}
  }

  function DataOf(packets: seq<Packet>, flow: FlowKey): seq<Packet> {
    if packets == [] then []
    else
      var last := packets[|packets| - 1];
      DataOf(packets[..|packets| - 1], flow) + if IsOf(last, flow) then [last] else []
  }

  /** The lanes and packets of a flow's offers. */
  function OffersOf(offers: seq<Offer>, flow: FlowKey): seq<(nat, Packet)> {
    if offers == [] then []
    else
      var last := offers[|offers| - 1];
      OffersOf(offers[..|offers| - 1], flow) + if IsOf(last.packet, flow) then [(last.lane, last.packet)] else []
  }

  function OnLane(packets: seq<Packet>, lane: nat): (r: seq<(nat, Packet)>)
    ensures |r| == |packets| && forall i :: 0 <= i < |r| ==> r[i] == (lane, packets[i])
  {
    seq(|packets|, i requires 0 <= i < |packets| => (lane, packets[i]))
  }

  lemma {:induction false} StartFacts(flow: FlowKey, lane: nat)
    ensures Since([], flow) == {} && DataOf([], flow) == [] && OffersOf([], flow) == [] && OnLane([], lane) == []
  {
  }

  lemma {:induction false} OffersOfMore(offers: seq<Offer>, more: seq<Offer>, flow: FlowKey, p: Packet)
    requires OffersOnce(more, p)
    ensures !IsOf(p, flow) ==> OffersOf(offers + more, flow) == OffersOf(offers, flow)
    ensures IsOf(p, flow) && |more| == 1 ==>
      OffersOf(offers + more, flow) == OffersOf(offers, flow) + [(more[0].lane, p)]
  {
    hide IsOf;
    if |more| > 0 {
      assert (offers + more)[..|offers| + |more| - 1] == offers + more[..|more| - 1];
      if |more| > 1 {
        assert (offers + more[..1])[..|offers|] == offers;
      } else {
        assert offers + more[..0] == offers;
      }
    } else {
      assert offers + more == offers;
    }
  }

  lemma {:induction false} DataOfMore(packets: seq<Packet>, p: Packet, flow: FlowKey, lane: nat)
    ensures DataOf(packets + [p], flow) == DataOf(packets, flow) + (if IsOf(p, flow) then [p] else [])
    ensures IsOf(p, flow) ==>
      OnLane(DataOf(packets + [p], flow), lane) == OnLane(DataOf(packets, flow), lane) + [(lane, p)]
    ensures Since(packets + [p], flow) ==
      if !IsData(p) then Since(packets, flow) else if FlowOf(p) == flow then {} else Since(packets, flow) + {FlowOf(p)}
  {
    assert (packets + [p])[..|packets|] == packets;
  }

  lemma {:induction false} StepKeeps(before: seq<Use>, after: seq<Use>, used: FlowKey, flow: FlowKey, lane: nat,
                                     others: set<FlowKey>)
    requires TableStep(before, after, used) && used != flow && Keeps(before, flow, lane, others)
    requires Distinct(before) && |before| <= FLOW_LIMIT && |others + {used}| < FLOW_LIMIT
    ensures Keeps(after, flow, lane, others + {used}) && Distinct(after) && |after| <= FLOW_LIMIT
  {
    hide Assigned, Forget, Keeps;
    if after == before {
      KeepsMore(before, flow, lane, others, others + {used});
    } else if after == Forget(before, used) {
      ForgetKeeps(before, flow, lane, others, used);
      ForgetDistinct(before, used);
      KeepsMore(after, flow, lane, others - {used}, others + {used});
    } else {
      var at :| 1 <= at < LANE_COUNT && after == Assigned(before, used, at);
      AssignedKeeps(before, flow, lane, others, used, at);
      AssignedSelf(before, used, at);
    }
  }

  lemma {:induction false} StepKeepsFlow(world: World, before: seq<Use>, between: seq<Use>, after: seq<Use>,
                                         packets: seq<Packet>, p: Packet,
                                         offers: seq<Offer>, more: seq<Offer>, flow: FlowKey, lane: nat,
                                         from: nat, to: nat)
    requires Distinct(before) && |before| <= FLOW_LIMIT && Keeps(before, flow, lane, Since(packets, flow))
    requires TableStep(before, between, FlowOf(p)) && TableStep(between, after, FlowOf(p))
    requires !IsData(p) ==> after == before
    requires 1 <= lane < LANE_COUNT && StaysUp(world, lane, from, to) && !Spurned(more, lane)
    requires Followed(world, before, after, p, more, from, to) && OffersOnce(more, p)
    requires |Since(packets + [p], flow)| < FLOW_LIMIT
    requires OffersOf(offers, flow) == OnLane(DataOf(packets, flow), lane)
    ensures Keeps(after, flow, lane, Since(packets + [p], flow))
    ensures OffersOf(offers + more, flow) == OnLane(DataOf(packets + [p], flow), lane)
  {
    hide *;
    OffersOfMore(offers, more, flow, p);
    DataOfMore(packets, p, flow, lane);
    IsOfMeans(p, flow);
    if IsData(p) {
      if FlowOf(p) == flow {
        KeepsHolds(before, flow, lane, Since(packets, flow));
        FollowedMeans(world, before, after, p, more, lane, from, to);
        AssignedSelf(before, flow, lane);
      } else {
        var others := Since(packets, flow);
        StepKeeps(before, between, FlowOf(p), flow, lane, others);
        assert others + {FlowOf(p)} + {FlowOf(p)} == others + {FlowOf(p)};
        StepKeeps(between, after, FlowOf(p), flow, lane, others + {FlowOf(p)});
      }
    }
  }

  lemma {:induction false} IsOfMeans(p: Packet, flow: FlowKey)
    ensures IsOf(p, flow) <==> IsData(p) && FlowOf(p) == flow
  {
  }

  lemma {:induction false} FollowedMeans(world: World, before: seq<Use>, after: seq<Use>, p: Packet, more: seq<Offer>,
                                         lane: nat, from: nat,
                                         to: nat)
    requires Followed(world, before, after, p, more, from, to) && IsData(p) && !Spurned(more, lane)
    requires 1 <= lane < LANE_COUNT && Use(FlowOf(p), lane) in before && StaysUp(world, lane, from, to)
    ensures after == Assigned(before, FlowOf(p), lane) && |more| == 1 && more[0].lane == lane
  {
    assert Affine(world, before, FlowOf(p), lane, from, to);
  }
}
