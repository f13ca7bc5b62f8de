/**
 take_downstream of rust/porta-client/src/tunnel/h2.rs: the merge of the four
 download lanes. Lane 0 is the control lane, with a burst budget; the data
 lanes take turns.
 */
module Merge {
  import opened Bytes

  const LANE_COUNT := 4
  const CONTROL_BURST := 4

  type Data = seq<byte>

  datatype State = State(lanes: seq<seq<Data>>, budget: nat, next: nat)

  predicate Sane(s: State) {
    |s.lanes| == LANE_COUNT && s.budget <= CONTROL_BURST && 1 <= s.next < LANE_COUNT
  }

  /** The lane scanned at this offset from the cursor. */
  function Scanned(next: nat, offset: nat): (index: nat)
    requires 1 <= next < LANE_COUNT
    ensures 1 <= index < LANE_COUNT
  {
    1 + (next - 1 + offset) % (LANE_COUNT - 1)
  }

  /** How many scan steps away a data lane is. */
  function Distance(next: nat, lane: nat): (d: nat)
    requires 1 <= next < LANE_COUNT && 1 <= lane < LANE_COUNT
    ensures d < LANE_COUNT - 1
    ensures Scanned(next, d) == lane
  {
    if lane >= next then lane - next else lane + LANE_COUNT - 1 - next
  }

  /** The lane to serve: control while the budget lasts, else the nearest data lane, else control. */
  ghost predicate Serves(s: State, lane: nat)
    requires Sane(s)
  {
    && lane < LANE_COUNT && s.lanes[lane] != []
    && if lane == 0 then s.budget > 0 || forall k :: 1 <= k < LANE_COUNT ==> s.lanes[k] == []
       else (s.budget == 0 || s.lanes[0] == [])
            && forall k :: 1 <= k < LANE_COUNT && s.lanes[k] != [] ==> Distance(s.next, lane) <= Distance(s.next, k)
  }

  /** The state after serving a lane. */
  function Served(s: State, lane: nat): (r: State)
    requires Sane(s) && lane < LANE_COUNT && s.lanes[lane] != []
    ensures Sane(r)
  {
    var rest := s.lanes[lane := s.lanes[lane][1..]];
    if lane == 0 then State(rest, Max(0, s.budget - 1), s.next)
    else State(rest, CONTROL_BURST, 1 + lane % (LANE_COUNT - 1))
  }

  ghost predicate Empty(s: State) {
    forall k :: 0 <= k < |s.lanes| ==> s.lanes[k] == []
  }

  /** One call: a packet from the lane it serves, or nothing, and then every lane is empty. */
  ghost predicate Call(s: State, after: State, lane: Option<nat>) {
    && Sane(s)
    && if lane.Some? then Serves(s, lane.value) && after == Served(s, lane.value) else Empty(s) && after == s
  }

  class Merger {
    const receivers: array<seq<Data>>
    var budget: nat
    var next: nat

    ghost predicate Valid()
      reads this
    {
      receivers.Length == LANE_COUNT && budget <= CONTROL_BURST && 1 <= next < LANE_COUNT
    }

    ghost function Current(): (s: State)
      reads this, receivers
      requires Valid()
      ensures Sane(s)
    {
      State(receivers[..], budget, next)
    }

    constructor (receivers: array<seq<Data>>)
      requires receivers.Length == LANE_COUNT
      ensures Valid() && this.receivers == receivers && Current() == State(receivers[..], CONTROL_BURST, 1)
    {
      this.receivers := receivers;
      budget := CONTROL_BURST;
      next := 1;
    }

    method TryReceive(lane: nat) returns (packet: Option<Data>)
      requires Valid() && lane < LANE_COUNT
      modifies receivers
      ensures packet.None? <==> old(receivers[lane]) == []
      ensures packet.None? ==> receivers[..] == old(receivers[..])
      ensures packet.Some? ==>
        && packet.value == old(receivers[lane])[0]
        && receivers[..] == old(receivers[..])[lane := old(receivers[lane])[1..]]
    {
      if receivers[lane] == [] {
        return None;
      }
      packet := Some(receivers[lane][0]);
      receivers[lane] := receivers[lane][1..];
    }

    method TakeDownstream() returns (packet: Option<Data>, ghost lane: Option<nat>)
      requires Valid()
      modifies this, receivers
      ensures Valid() && Call(old(Current()), Current(), lane)
      ensures packet.Some? <==> lane.Some?
      ensures packet.None? <==> Empty(old(Current()))
      ensures packet.Some? ==> packet.value == old(receivers[..])[lane.value][0]
    {
      lane := None;
      ghost var s := Current();
      if budget > 0 {
        packet := TryReceive(0);
        if packet.Some? {
          budget := budget - 1;
          lane := Some(0);
          return;
        }
      }
      for offset := 0 to LANE_COUNT - 1
        invariant Valid() && receivers[..] == s.lanes && budget == s.budget && next == s.next && lane == None
        invariant forall o :: 0 <= o < offset ==> s.lanes[Scanned(next, o)] == []
      {
        var index := Scanned(next, offset);
        packet := TryReceive(index);
        if packet.Some? {
          lane := Some(index);
          forall k | 1 <= k < LANE_COUNT && s.lanes[k] != []
            ensures Distance(s.next, index) <= Distance(s.next, k)
          {
            assert Scanned(s.next, Distance(s.next, k)) == k;
          }
          next := 1 + index % (LANE_COUNT - 1);
          budget := CONTROL_BURST;
          return;
        }
      }
      forall k | 1 <= k < LANE_COUNT
        ensures s.lanes[k] == []
      {
        assert Scanned(s.next, Distance(s.next, k)) == k;
      }
      packet := TryReceive(0);
      if packet.Some? {
        budget := Max(0, budget - 1);
        lane := Some(0);
        return;
      }
      return None, None;
    }
  }

  // Whole runs: packets arrive on any lane between calls.

  ghost predicate Arrives(s: State, after: State) {
    && Sane(s) && Sane(after) && after.budget == s.budget && after.next == s.next
    && forall k :: 0 <= k < LANE_COUNT ==> s.lanes[k] <= after.lanes[k]
  }

  /** Calls `i` start in `before[i]` and serve `served[i]`; packets may arrive between them. */
  ghost predicate Run(before: seq<State>, after: seq<State>, served: seq<Option<nat>>) {
    && |before| == |after| == |served|
    && (forall i :: 0 <= i < |before| ==> Call(before[i], after[i], served[i]))
    && (forall i :: 0 < i < |before| ==> Arrives(after[i - 1], before[i]))
  }

  /** An upper bound on the calls that come before a lane's turn. */
  function Rank(s: State, lane: nat): (r: nat)
    requires Sane(s) && lane < LANE_COUNT
    ensures r <= 14
    ensures lane == 0 ==> r <= 1
  {
    if lane == 0 then if s.budget > 0 then 0 else 1
    else 5 * Distance(s.next, lane) + s.budget
  }

  lemma {:induction false} RankFalls(s: State, after: State, later: State, served: Option<nat>, lane: nat)
    requires Call(s, after, served) && lane < LANE_COUNT && s.lanes[lane] != []
    ensures served.Some? && Sane(after)
    ensures served.value != lane ==> Rank(after, lane) < Rank(s, lane) && after.lanes[lane] == s.lanes[lane]
    ensures Arrives(after, later) && served.value != lane ==>
      later.lanes[lane] != [] && later.lanes[lane][0] == s.lanes[lane][0] && Rank(later, lane) == Rank(after, lane)
  {
  }

  /** Whatever arrives on the other lanes, a waiting packet is served within its rank, at most 15 calls. */
  lemma {:induction false} ServedInTime(before: seq<State>, after: seq<State>, served: seq<Option<nat>>, lane: nat)
    returns (i: nat)
    requires Run(before, after, served) && |before| > 0
    requires lane < LANE_COUNT && before[0].lanes[lane] != [] && |before| > Rank(before[0], lane)
    ensures i <= Rank(before[0], lane) && i < |before|
    ensures served[i] == Some(lane) && before[i].lanes[lane] != []
    ensures before[i].lanes[lane][0] == before[0].lanes[lane][0]
    ensures forall j :: 0 <= j < i ==> served[j].Some? && served[j] != Some(lane)
    decreases Rank(before[0], lane)
  {
    hide Call, Arrives, Rank;
    assert Call(before[0], after[0], served[0]);
    if served[0] == Some(lane) {
      return 0;
    }
    RankFalls(before[0], after[0], after[0], served[0], lane);
    assert Arrives(after[0], before[1]);
    RankFalls(before[0], after[0], before[1], served[0], lane);
    RunTail(before, after, served);
    var rest := ServedInTime(before[1..], after[1..], served[1..], lane);
    i := rest + 1;
    assert forall j :: 0 < j < i ==> served[j] == served[1..][j - 1];
  }

  lemma {:induction false} RunTail(before: seq<State>, after: seq<State>, served: seq<Option<nat>>)
    requires Run(before, after, served) && |before| > 0
    ensures Run(before[1..], after[1..], served[1..])
  {
    hide Call, Arrives;
    forall i | 0 < i < |before| - 1
      ensures Arrives(after[1..][i - 1], before[1..][i])
    {
      assert Arrives(after[i + 1 - 1], before[i + 1]);
    }
  }
}
