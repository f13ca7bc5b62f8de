/**
 One upload lane end to end: what leaves the lane's queue, in order, against
 what was routed (rust/porta-client/src/tunnel/h2.rs, h2_queue.rs).
 */
module Uploads {
  import opened Ipv4
  import opened Classify
  import opened UploadQueue
  import opened Dispatch

  lemma {:induction false} TakenAreOffered(offers: seq<Offer>, lane: nat)
    ensures Subsequence(TakenBy(offers, lane), OffersTo(offers, lane))
  {
    if offers != [] {
      var rest, last := offers[..|offers| - 1], offers[|offers| - 1];
      TakenAreOffered(rest, lane);
      hide Subsequence;
      SubsequenceMore(TakenBy(rest, lane), OffersTo(rest, lane), last.packet);
      assert TakenBy(rest, lane) + [] == TakenBy(rest, lane) && OffersTo(rest, lane) + [] == OffersTo(rest, lane);
    }
  }

  lemma {:induction false} PartOfPart(a: seq<Packet>, b: seq<Packet>, c: seq<Packet>)
    requires Subsequence(a, b) && Subsequence(b, c)
    ensures Subsequence(a, c)
    decreases |c|
  {
    if a != [] && b != [] {
      var rest := c[..|c| - 1];
      if Subsequence(b, rest) {
        PartOfPart(a, b, rest);
      } else {
        var before := b[..|b| - 1];
        if Subsequence(a, before) {
          PartOfPart(a, before, rest);
        } else {
          PartOfPart(a[..|a| - 1], before, rest);
        }
      }
    }
  }

  /** Increasing places give a subsequence. */
  lemma {:induction false} PlacedIsPart(places: seq<nat>, part: seq<Queued>, whole: seq<Queued>)
    requires InOrder(places, part, whole)
    ensures Subsequence(Payloads(part), Payloads(whole))
    decreases |whole|
  {
    if part != [] {
      var n, m := |whole| - 1, |part| - 1;
      assert places[m] <= n;
      assert Payloads(whole)[..n] == Payloads(whole[..n]) && Payloads(part)[..m] == Payloads(part[..m]);
      if places[m] == n {
        assert InOrder(places[..m], part[..m], whole[..n]);
        PlacedIsPart(places[..m], part[..m], whole[..n]);
      } else {
        assert InOrder(places, part, whole[..n]);
        PlacedIsPart(places, part, whole[..n]);
      }
    }
  }

  /** The packets of one flow within a subsequence are a subsequence of the flow. */
  lemma {:induction false} FlowOfPart(part: seq<Packet>, whole: seq<Packet>, flow: FlowKey)
    requires Subsequence(part, whole)
    ensures Subsequence(DataOf(part, flow), DataOf(whole, flow))
    decreases |whole|
  {
    if part != [] {
      hide IsOf;
      var rest, last := whole[..|whole| - 1], whole[|whole| - 1];
      if Subsequence(part, rest) {
        FlowOfPart(part, rest, flow);
        hide Subsequence;
        assert DataOf(rest, flow) + [] == DataOf(rest, flow);
        SubsequenceMore(DataOf(part, flow), DataOf(rest, flow), last);
      } else {
        var before := part[..|part| - 1];
        FlowOfPart(before, rest, flow);
        hide Subsequence;
        assert DataOf(rest, flow) + [] == DataOf(rest, flow) && DataOf(before, flow) + [] == DataOf(before, flow);
        SubsequenceMore(DataOf(before, flow), DataOf(rest, flow), last);
      }
    }
  }

  /** The upload stream of a lane in terms of the logs of its queue. */
  lemma {:induction false} StreamFollowsRouting(offers: seq<Offer>, routed: seq<Packet>, lane: nat,
                                                accepted: seq<Queued>,
                                                delivered: seq<Queued>, places: seq<nat>, flow: FlowKey)
    requires lane < LANE_COUNT && Ordered(offers, routed)
    requires Payloads(accepted) == TakenBy(offers, lane) && InOrder(places, delivered, accepted)
    ensures Subsequence(Payloads(delivered), routed)
    ensures Subsequence(DataOf(Payloads(delivered), flow), DataOf(routed, flow))
  {
    hide Subsequence, DataOf, TakenBy, OffersTo, InOrder;
    PlacedIsPart(places, delivered, accepted);
    TakenAreOffered(offers, lane);
    PartOfPart(Payloads(delivered), Payloads(accepted), OffersTo(offers, lane));
    PartOfPart(Payloads(delivered), OffersTo(offers, lane), routed);
    FlowOfPart(Payloads(delivered), routed, flow);
  }

  /**
   What the queue of any lane has handed to its upload stream is an in-order
   subsequence of everything routed, and for each flow of that flow's packets.
   */
  lemma {:induction false} UploadsFollowRouting(d: Dispatcher, lane: nat, flow: FlowKey)
    requires d.Valid() && lane < LANE_COUNT && |d.queues| == LANE_COUNT
    ensures Subsequence(Payloads(d.queues[lane].log.delivered), d.routed)
    ensures Subsequence(DataOf(Payloads(d.queues[lane].log.delivered), flow), DataOf(d.routed, flow))
  {
    var log := d.queues[lane].log;
    hide Subsequence, DataOf, TakenBy, Ordered, FlowTable.FlowTable.Valid;
    assert Fed(d.queues[lane], d.offers, lane);
    var places := SelectInOrder(log.accepted, log.fates, Delivered);
    StreamFollowsRouting(d.offers, d.routed, lane, log.accepted, log.delivered, places, flow);
  }

  /** A whole group: any packets routed, any work by the other tasks before, between and after them. */
  method AnyGroupRun(world: World, hash: Packet -> nat, config: QueueConfig, packets: seq<Packet>)
    returns (d: Dispatcher)
    ensures d.Valid() && d.routed == packets && |d.queues| == LANE_COUNT
    ensures forall lane :: 0 <= lane < LANE_COUNT ==> Subsequence(Payloads(d.queues[lane].log.delivered), packets)
    ensures forall lane, flow :: 0 <= lane < LANE_COUNT ==>
      Subsequence(DataOf(Payloads(d.queues[lane].log.delivered), flow), DataOf(packets, flow))
  {
    hide FlowTable.FlowTable.Valid, FlowTable.FlowTable.Contents, Dispatcher.Queued, Ordered, Followed, TableStep, Fair,
      Subsequence, DataOf, OffersOnce, AllDown;
    d := new Dispatcher(world, hash, config);
    for i := 0 to |packets|
      invariant fresh(d) && fresh(d.flows) && fresh(d.queues) && d.Valid() && d.routed == packets[..i]
    {
      var r, between := d.Route(packets[i]);
    }
    for lane := 0 to LANE_COUNT
      invariant fresh(d) && fresh(d.flows) && fresh(d.queues) && d.Valid() && d.routed == packets[..|packets|]
    {
      d.FourQueues();
      d.Others(lane, world.othersAt(d.time, lane));
    }
    assert packets[..|packets|] == packets;
    d.FourQueues();
    forall lane | 0 <= lane < LANE_COUNT
      ensures Subsequence(Payloads(d.queues[lane].log.delivered), packets)
    {
      UploadsFollowRouting(d, lane, NO_FLOW);
    }
    forall lane, flow | 0 <= lane < LANE_COUNT
      ensures Subsequence(DataOf(Payloads(d.queues[lane].log.delivered), flow), DataOf(packets, flow))
    {
      UploadsFollowRouting(d, lane, flow);
    }
  }
}
