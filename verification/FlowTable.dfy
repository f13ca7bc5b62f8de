/**
 FlowTable of rust/porta-client/src/tunnel/h2.rs: which lane a flow uses, kept
 in an array-backed doubly linked list with a free list, least recent first.
 It refines a sequence of at most FLOW_LIMIT (flow, lane) pairs.
 */
module FlowTable {
  import opened Bytes
  import opened Classify

  const FLOW_LIMIT := 4096
  const NO_FLOW_INDEX := 65535

  type Index = i: int | 0 <= i <= NO_FLOW_INDEX

  datatype FlowEntry = FlowEntry(flow: FlowKey, previous: Index, next: Index, lane: nat)

  /** A flow and its lane. */
  datatype Use = Use(flow: FlowKey, lane: nat)

  // The abstract table: least recently used first.

  predicate Holds(uses: seq<Use>, flow: FlowKey) {
    exists p :: 0 <= p < |uses| && uses[p].flow == flow
  }

  ghost predicate Distinct(uses: seq<Use>) {
    forall p, q :: 0 <= p < q < |uses| ==> uses[p].flow != uses[q].flow
  }

  function Forget(uses: seq<Use>, flow: FlowKey): (r: seq<Use>)
    ensures |r| <= |uses|
    ensures forall p :: 0 <= p < |r| ==> r[p] in uses && r[p].flow != flow
  {
    if uses == [] then []
    else (if uses[0].flow == flow then [] else [uses[0]]) + Forget(uses[1..], flow)
  }

  /** Use a flow now: it becomes the most recent, and the least recent goes if the table was full without it. */
  function Assigned(uses: seq<Use>, flow: FlowKey, lane: nat): seq<Use> {
    var rest := Forget(uses, flow);
    (if |rest| >= FLOW_LIMIT then rest[1..] else rest) + [Use(flow, lane)]
  }

  // The linked list, as a relation between entries and their order.

  ghost predicate Unique(order: seq<Index>) {
    forall j, k :: 0 <= j < k < |order| ==> order[j] != order[k]
  }

  /** The links of the entry at position `k` name its neighbours. */
  ghost predicate LinkedAt(entries: seq<FlowEntry>, order: seq<Index>, k: nat) {
    && k < |order| && order[k] < |entries|
    && entries[order[k]].previous == (if k == 0 then NO_FLOW_INDEX else order[k - 1])
    && entries[order[k]].next == (if k + 1 == |order| then NO_FLOW_INDEX else order[k + 1])
  }

  ghost predicate Linked(entries: seq<FlowEntry>, order: seq<Index>, oldest: Index, newest: Index) {
    && Unique(order)
    && (forall k :: 0 <= k < |order| ==> LinkedAt(entries, order, k))
    && oldest == (if order == [] then NO_FLOW_INDEX else order[0])
    && newest == (if order == [] then NO_FLOW_INDEX else order[|order| - 1])
  }

  ghost predicate Within(entries: seq<FlowEntry>, order: seq<Index>) {
    forall k :: 0 <= k < |order| ==> order[k] < |entries|
  }

  /** The entries that the list order visits. */
  ghost function Uses(entries: seq<FlowEntry>, order: seq<Index>): (r: seq<Use>)
    requires Within(entries, order)
    ensures |r| == |order|
    ensures forall k :: 0 <= k < |order| ==> r[k] == Use(entries[order[k]].flow, entries[order[k]].lane)
  {
    seq(|order|, k requires 0 <= k < |order| => Use(entries[order[k]].flow, entries[order[k]].lane))
  }

  /** Every slot is either in use, once, or free, once. */
  ghost predicate Partition(count: nat, order: seq<Index>, free: seq<Index>) {
    && |order| + |free| == count
    && Unique(free)
    && (forall i :: i in free ==> i < count)
    && (forall i :: i in order ==> i < count && i !in free)
  }

  ghost predicate Located(assignments: map<FlowKey, Index>, entries: seq<FlowEntry>, i: Index) {
    i < |entries| && entries[i].flow in assignments && assignments[entries[i].flow] == i
  }

  /** The map finds exactly the listed flows, at their slots. */
  ghost predicate Agrees(assignments: map<FlowKey, Index>, entries: seq<FlowEntry>, order: seq<Index>) {
    && (forall i :: i in order ==> Located(assignments, entries, i))
    && (forall flow :: flow in assignments ==>
          assignments[flow] in order && assignments[flow] < |entries| && entries[assignments[flow]].flow == flow)
    && |assignments| == |order|
  }

  function Drop(order: seq<Index>, k: nat): (r: seq<Index>)
    requires k < |order|
    ensures |r| == |order| - 1
    ensures forall p :: 0 <= p < k ==> r[p] == order[p]
    ensures forall p :: k <= p < |r| ==> r[p] == order[p + 1]
  {
    order[..k] + order[k + 1..]
  }

  lemma {:induction false} DropMembers(order: seq<Index>, k: nat)
    requires k < |order| && Unique(order)
    ensures forall i :: i in Drop(order, k) <==> i in order && i != order[k]
    ensures Unique(Drop(order, k))
  {
    var rest := Drop(order, k);
    forall i | i in order && i != order[k]
      ensures i in rest
    {
      var p :| 0 <= p < |order| && order[p] == i;
      assert i == if p < k then rest[p] else rest[p - 1];
    }
    forall i | i in rest
      ensures i in order && i != order[k]
    {
      var p :| 0 <= p < |rest| && rest[p] == i;
      assert i == if p < k then order[p] else order[p + 1];
    }
  }

  lemma {:induction false} Gone(order: seq<Index>, k: nat)
    requires k < |order| && Unique(order)
    ensures order[k] !in Drop(order, k)
  {
    DropMembers(order, k);
  }

  function Spliced(entries: seq<FlowEntry>, e: FlowEntry): (r: seq<FlowEntry>)
    requires e.previous == NO_FLOW_INDEX || e.previous < |entries|
    requires e.next == NO_FLOW_INDEX || e.next < |entries|
  {
    var es :=
      if e.previous == NO_FLOW_INDEX then entries
      else entries[e.previous := entries[e.previous].(next := e.next)];
    if e.next == NO_FLOW_INDEX then es else es[e.next := es[e.next].(previous := e.previous)]
  }

  /** The neighbours of position `k`. */
  lemma {:induction false} Neighbours(entries: seq<FlowEntry>, order: seq<Index>, oldest: Index, newest: Index, k: nat)
    requires Linked(entries, order, oldest, newest) && k < |order| && |entries| <= FLOW_LIMIT
    ensures order[k] < |entries|
    ensures var e := entries[order[k]];
      && (if k == 0 then e.previous == NO_FLOW_INDEX else e.previous == order[k - 1] < |entries|)
      && (if k + 1 == |order| then e.next == NO_FLOW_INDEX else e.next == order[k + 1] < |entries|)
  {
    assert LinkedAt(entries, order, k);
    if k > 0 {
      assert LinkedAt(entries, order, k - 1);
    }
    if k + 1 < |order| {
      assert LinkedAt(entries, order, k + 1);
    }
  }

  lemma {:induction false} SplicedAt(entries: seq<FlowEntry>, order: seq<Index>, oldest: Index, newest: Index, k: nat,
                                     p: nat)
    requires Linked(entries, order, oldest, newest) && k < |order| && p < |order| - 1
    requires order[k] < |entries| <= FLOW_LIMIT
    requires var e := entries[order[k]];
      && (if k == 0 then e.previous == NO_FLOW_INDEX else e.previous == order[k - 1] < |entries|)
      && (if k + 1 == |order| then e.next == NO_FLOW_INDEX else e.next == order[k + 1] < |entries|)
    ensures LinkedAt(Spliced(entries, entries[order[k]]), Drop(order, k), p)
  {
    hide Drop;
    var q := if p < k then p else p + 1;
    assert LinkedAt(entries, order, q);
  }

  /** Unlinking the entry at position `k` of the order. */
  lemma {:induction false} UnlinkKeeps(entries: seq<FlowEntry>, order: seq<Index>, oldest: Index, newest: Index, k: nat)
    requires Linked(entries, order, oldest, newest) && k < |order| && |entries| <= FLOW_LIMIT
    ensures order[k] < |entries|
    ensures var e := entries[order[k]];
      && (e.previous == NO_FLOW_INDEX || e.previous < |entries|)
      && (e.next == NO_FLOW_INDEX || e.next < |entries|)
      && SameUses(entries, Spliced(entries, e))
      && Linked(Spliced(entries, e), Drop(order, k),
                if e.previous == NO_FLOW_INDEX then e.next else oldest,
                if e.next == NO_FLOW_INDEX then e.previous else newest)
  {
    hide Drop, LinkedAt, Unique;
    Neighbours(entries, order, oldest, newest, k);
    DropMembers(order, k);
    forall p | 0 <= p < |order| - 1
      ensures LinkedAt(Spliced(entries, entries[order[k]]), Drop(order, k), p)
    {
      SplicedAt(entries, order, oldest, newest, k, p);
    }
  }

  function Appended(entries: seq<FlowEntry>, newest: Index, index: Index): (r: seq<FlowEntry>)
    requires index < |entries| && (newest == NO_FLOW_INDEX || newest < |entries|)
  {
    var es := entries[index := entries[index].(previous := newest, next := NO_FLOW_INDEX)];
    if newest == NO_FLOW_INDEX then es else es[newest := es[newest].(next := index)]
  }

  /** Linking an unused slot behind the newest. */
  lemma {:induction false} LinkKeeps(entries: seq<FlowEntry>, order: seq<Index>, oldest: Index, newest: Index,
                                     index: Index)
    requires Linked(entries, order, oldest, newest) && index < |entries| <= FLOW_LIMIT && index !in order
    ensures newest == NO_FLOW_INDEX || newest < |entries|
    ensures SameUses(entries, Appended(entries, newest, index))
    ensures Linked(Appended(entries, newest, index), order + [index],
                   if newest == NO_FLOW_INDEX then index else oldest, index)
  {
    if order != [] {
      assert LinkedAt(entries, order, |order| - 1);
    }
    var es, list := Appended(entries, newest, index), order + [index];
    forall p | 0 <= p < |list|
      ensures LinkedAt(es, list, p)
    {
      if p < |order| {
        assert LinkedAt(entries, order, p) && order[p] in order;
      }
    }
  }

  class FlowTable {
    var assignments: map<FlowKey, Index>
    var entries: seq<FlowEntry>
    var free: seq<Index>
    var oldest: Index
    var newest: Index
    /** The slots in use, least recent first. */
    ghost var order: seq<Index>

    ghost predicate Valid()
      reads this
    {
      && |entries| <= FLOW_LIMIT
      && Linked(entries, order, oldest, newest)
      && Partition(|entries|, order, free)
      && Agrees(assignments, entries, order)
    }

    ghost function Contents(): (r: seq<Use>)
      requires Valid()
      reads this
    {
      InRange(assignments, entries, order);
      Uses(entries, order)
    }

    constructor ()
      ensures Valid() && Contents() == []
    {
      assignments := map[];
      entries := [];
      free := [];
      oldest := NO_FLOW_INDEX;
      newest := NO_FLOW_INDEX;
      order := [];
    }

    /** Takes a slot out of the list; its links go stale. */
    method Unlink(index: Index, ghost k: nat)
      requires |entries| <= FLOW_LIMIT && Linked(entries, order, oldest, newest)
      requires k < |order| && order[k] == index
      modifies this`entries, this`oldest, this`newest, this`order
      ensures order == Drop(old(order), k)
      ensures Linked(entries, order, oldest, newest) && |entries| == |old(entries)|
      ensures SameUses(old(entries), entries)
    {
      hide Linked, Drop, SameUses;
      UnlinkKeeps(entries, order, oldest, newest, k);
      var entry := entries[index];
      if entry.previous == NO_FLOW_INDEX {
        oldest := entry.next;
      } else {
        entries := entries[entry.previous := entries[entry.previous].(next := entry.next)];
      }
      if entry.next == NO_FLOW_INDEX {
        newest := entry.previous;
      } else {
        entries := entries[entry.next := entries[entry.next].(previous := entry.previous)];
      }
      order := Drop(order, k);
    }

    /** Puts an unlisted slot behind the newest. */
    method LinkNewest(index: Index)
      requires |entries| <= FLOW_LIMIT && Linked(entries, order, oldest, newest) && index < |entries|
      requires index !in order
      modifies this`entries, this`oldest, this`newest, this`order
      ensures order == old(order) + [index]
      ensures Linked(entries, order, oldest, newest) && |entries| == |old(entries)|
      ensures SameUses(old(entries), entries)
    {
      hide Linked, SameUses;
      LinkKeeps(entries, order, oldest, newest, index);
      var previous := newest;
      entries := entries[index := entries[index].(previous := previous, next := NO_FLOW_INDEX)];
      if previous == NO_FLOW_INDEX {
        oldest := index;
      } else {
        entries := entries[previous := entries[previous].(next := index)];
      }
      newest := index;
      order := order + [index];
    }

    method Assignment(flow: FlowKey) returns (r: Option<(Index, nat)>)
      requires Valid()
      ensures r.Some? <==> Holds(Contents(), flow)
      ensures r.Some? ==> Use(flow, r.value.1) in Contents() && flow in assignments && assignments[flow] == r.value.0
    {
      hide Linked, Partition;
      TableFacts();
      FoundIff(assignments, entries, order, flow);
      if flow !in assignments {
        return None;
      }
      var index := assignments[flow];
      ghost var k := SlotOf(assignments, entries, order, flow);
      assert Uses(entries, order)[k] == Use(flow, entries[index].lane);
      return Some((index, entries[index].lane));
    }

    /** Moves a listed flow to the newest end. */
    method Touch(index: Index, ghost k: nat)
      requires Valid() && k < |order| && order[k] == index
      modifies this`entries, this`oldest, this`newest, this`order
      ensures Valid() && |order| == |old(order)|
      ensures Contents() == Forget(old(Contents()), old(Contents())[k].flow) + [old(Contents())[k]]
    {
      hide *;
      TableFacts();
      ForgetAt(assignments, entries, order, k);
      MoveKeeps(|entries|, assignments, entries, order, free, k);
      if index != newest {
        MoveNewest(index, k);
      } else {
        MoveLast(order, k);
      }
      ValidParts();
    }

    /** Unlinks a listed slot and links it again as the newest. */
    method MoveNewest(index: Index, ghost k: nat)
      requires Valid() && k < |order| && order[k] == index && Within(entries, order)
      requires Agrees(assignments, entries, Drop(order, k) + [index])
      modifies this`entries, this`oldest, this`newest, this`order
      ensures order == Drop(old(order), k) + [index] && |entries| == |old(entries)| <= FLOW_LIMIT
      ensures Linked(entries, order, oldest, newest)
      ensures Agrees(assignments, entries, order) && Within(old(entries), order) && Within(entries, order)
      ensures Uses(entries, order) == Uses(old(entries), order)
    {
      hide *;
      TableFacts();
      Gone(order, k);
      Listed(assignments, entries, order, k);
      Unlink(index, k);
      ghost var mid := entries;
      LinkNewest(index);
      SameUsesTwice(old(entries), mid, entries);
      AgreesFrame(assignments, old(entries), entries, order);
    }

    /** Drops a flow and frees its slot. */
    method Remove(flow: FlowKey)
      requires Valid()
      modifies this
      ensures Valid() && Contents() == Forget(old(Contents()), flow)
    {
      hide *;
      TableFacts();
      FoundIff(assignments, entries, order, flow);
      if flow in assignments {
        ghost var k := SlotOf(assignments, entries, order, flow);
        Free(flow, k);
      } else {
        ForgetNothing(Uses(entries, order), flow);
        ContentsIs();
      }
    }

    /** The shared end of remove and evict_oldest. */
    method Free(flow: FlowKey, ghost k: nat)
      requires Valid() && k < |order| && order[k] < |entries| && entries[order[k]].flow == flow
      modifies this
      ensures Valid() && |order| == |old(order)| - 1
      ensures Contents() == Forget(old(Contents()), flow)
      ensures |entries| == |old(entries)| && |free| > 0
      ensures flow !in assignments && forall f :: f in assignments ==> f in old(assignments)
      ensures Contents() == old(Contents())[..k] + old(Contents())[k + 1..]
    {
      hide *;
      TableFacts();
      ghost var es, list := entries, order;
      ForgetAt(assignments, es, list, k);
      FreePartition(|es|, list, free, k);
      FreeAgrees(assignments, es, list, k);
      Listed(assignments, es, list, k);
      var index := assignments[flow];
      assignments := assignments - {flow};
      Unlink(index, k);
      free := free + [index];
      AgreesFrame(assignments, es, entries, order);
      ValidParts();
    }

    method EvictOldest()
      requires Valid() && |order| > 0
      modifies this
      ensures Valid() && |order| == |old(order)| - 1
      ensures Contents() == old(Contents())[1..]
      ensures |entries| == |old(entries)| && |free| > 0
      ensures forall f :: f in assignments ==> f in old(assignments)
    {
      hide *;
      TableFacts();
      ghost var before := Contents();
      FirstIn(entries, order);
      var flow := entries[oldest].flow;
      Free(flow, 0);
      assert before[..0] + before[1..] == before[1..];
    }

    /** Records the use of a lane by a flow, evicting the least recent flow of a full table. */
    method Assign(flow: FlowKey, lane: nat)
      requires Valid()
      modifies this
      ensures Valid() && Contents() == Assigned(old(Contents()), flow, lane)
    {
      hide *;
      TableFacts();
      ContentsIs();
      ghost var uses := Uses(entries, order);
      if flow in assignments {
        ghost var k := SlotOf(assignments, entries, order, flow);
        var index := assignments[flow];
        RelabelKeeps(assignments, entries, order, oldest, newest, k, lane);
        entries := entries[index := entries[index].(lane := lane)];
        ValidParts();
        Touch(index, k);
        Reassigned(uses, k, flow, lane);
        return;
      }
      ForgetNothingHere(assignments, entries, order, flow);
      if |assignments| >= FLOW_LIMIT {
        EvictOldest();
      }
      AssignedWithout(uses, flow, lane);
      Insert(flow, lane);
    }

    /** A free slot, or a new one, filled for an unlisted flow and not yet linked. */
    method TakeSlot(flow: FlowKey, lane: nat) returns (index: Index)
      requires Valid() && flow !in assignments && |order| < FLOW_LIMIT
      modifies this`entries, this`free
      ensures |entries| <= FLOW_LIMIT && index < |entries| && index !in order
      ensures Linked(entries, order, oldest, newest)
      ensures Partition(|entries|, order + [index], free)
      ensures Agrees(assignments[flow := index], entries, order + [index])
      ensures Within(old(entries), order) && Within(entries, order + [index])
      ensures Uses(entries, order + [index]) == Uses(old(entries), order) + [Use(flow, lane)]
    {
      hide *;
      TableFacts();
      var entry := FlowEntry(flow, NO_FLOW_INDEX, NO_FLOW_INDEX, lane);
      if |free| > 0 {
        ReuseKeeps(assignments, entries, order, free, oldest, newest, entry);
        index := free[|free| - 1];
        free := free[..|free| - 1];
        entries := entries[index := entry];
      } else {
        GrowKeeps(assignments, entries, order, free, oldest, newest, entry);
        index := |entries|;
        entries := entries + [entry];
      }
    }

    /** Links an unlisted flow in as the newest. */
    method Insert(flow: FlowKey, lane: nat)
      requires Valid() && flow !in assignments && |order| < FLOW_LIMIT
      modifies this
      ensures Valid() && Contents() == old(Contents()) + [Use(flow, lane)]
    {
      hide *;
      ContentsIs();
      var index := TakeSlot(flow, lane);
      assignments := assignments[flow := index];
      LinkFilled(index);
    }

    /** The end of an insertion: the filled slot joins the list. */
    method LinkFilled(index: Index)
      requires |entries| <= FLOW_LIMIT && index < |entries| && index !in order
      requires Linked(entries, order, oldest, newest) && Partition(|entries|, order + [index], free)
      requires Agrees(assignments, entries, order + [index]) && Within(entries, order + [index])
      modifies this`entries, this`oldest, this`newest, this`order
      ensures Valid() && Contents() == Uses(old(entries), old(order) + [index])
    {
      hide *;
      LinkNewest(index);
      AgreesFrame(assignments, old(entries), entries, order);
      ValidParts();
    }

    lemma {:induction false} ContentsFacts()
      requires Valid()
      ensures Distinct(Contents()) && |Contents()| <= FLOW_LIMIT
    {
      hide *;
      TableFacts();
      UsesLength(entries, order);
    }

    lemma {:induction false} Slot(flow: FlowKey) returns (k: nat)
      requires Valid() && flow in assignments
      ensures k < |order| == |Contents()| && order[k] == assignments[flow] && Contents()[k].flow == flow
    {
      hide *;
      TableFacts();
      k := SlotOf(assignments, entries, order, flow);
      UsesAt(entries, order, k);
    }

    lemma {:induction false} TableFacts()
      requires Valid()
      ensures |entries| <= FLOW_LIMIT && Linked(entries, order, oldest, newest)
      ensures Partition(|entries|, order, free) && Agrees(assignments, entries, order) && Unique(order)
      ensures Within(entries, order)
      ensures order != [] ==> newest == order[|order| - 1] && oldest == order[0]
      ensures |assignments| == |order| && Contents() == Uses(entries, order)
      ensures 0 < FLOW_LIMIT && |order| <= FLOW_LIMIT && Distinct(Contents())
    {
      InRange(assignments, entries, order);
      UsesDistinct(assignments, entries, order);
    }

    lemma {:induction false} ContentsIs()
      requires Valid()
      ensures Within(entries, order)
      ensures Contents() == Uses(entries, order)
    {
      InRange(assignments, entries, order);
    }

    lemma {:induction false} ValidParts()
      requires |entries| <= FLOW_LIMIT && Linked(entries, order, oldest, newest)
      requires Partition(|entries|, order, free) && Agrees(assignments, entries, order)
      ensures Valid()
      ensures Within(entries, order)
      ensures Contents() == Uses(entries, order)
    {
      InRange(assignments, entries, order);
    }
  }

  /** Links may differ; flows and lanes do not. */
  ghost predicate SameUses(a: seq<FlowEntry>, b: seq<FlowEntry>) {
    |a| == |b| && forall j :: 0 <= j < |a| ==> b[j].flow == a[j].flow && b[j].lane == a[j].lane
  }

  lemma {:induction false} SameUsesTwice(a: seq<FlowEntry>, b: seq<FlowEntry>, c: seq<FlowEntry>)
    requires SameUses(a, b) && SameUses(b, c)
    ensures SameUses(a, c)
  {
  }

  lemma {:induction false} InRange(assignments: map<FlowKey, Index>, entries: seq<FlowEntry>, order: seq<Index>)
    requires Agrees(assignments, entries, order)
    ensures Within(entries, order)
  {
    forall j | 0 <= j < |order|
      ensures order[j] < |entries|
    {
      assert Located(assignments, entries, order[j]);
    }
  }

  lemma {:induction false} FirstIn(entries: seq<FlowEntry>, order: seq<Index>)
    requires Within(entries, order) && order != []
    ensures order[0] < |entries|
  {
  }

  lemma {:induction false} UsesLength(entries: seq<FlowEntry>, order: seq<Index>)
    requires Within(entries, order)
    ensures |Uses(entries, order)| == |order|
  {
  }

  lemma {:induction false} UsesAt(entries: seq<FlowEntry>, order: seq<Index>, k: nat)
    requires Within(entries, order) && k < |order|
    ensures |Uses(entries, order)| == |order| && order[k] < |entries|
    ensures Uses(entries, order)[k].flow == entries[order[k]].flow
  {
  }

  /** Moving a listed flow to the newest end is using it on its lane. */
  lemma {:induction false} TouchIsUse(uses: seq<Use>, k: nat)
    requires Distinct(uses) && k < |uses| <= FLOW_LIMIT
    ensures Forget(uses, uses[k].flow) + [uses[k]] == Assigned(uses, uses[k].flow, uses[k].lane)
  {
    ForgetUse(uses, k);
  }

  /** Removing a flow first changes nothing about using it. */
  lemma {:induction false} ForgetThenUse(uses: seq<Use>, flow: FlowKey, lane: nat)
    requires Distinct(uses)
    ensures Assigned(Forget(uses, flow), flow, lane) == Assigned(uses, flow, lane)
    ensures Forget(Forget(uses, flow), flow) == Forget(uses, flow)
  {
    ForgetDistinct(uses, flow);
    ForgetNothing(Forget(uses, flow), flow);
  }

  lemma {:induction false} SlotOf(assignments: map<FlowKey, Index>, entries: seq<FlowEntry>, order: seq<Index>,
                                  flow: FlowKey)
    returns (k: nat)
    requires Agrees(assignments, entries, order) && flow in assignments
    ensures k < |order| && order[k] == assignments[flow] < |entries| && entries[order[k]].flow == flow
  {
    k :| 0 <= k < |order| && order[k] == assignments[flow];
  }

  lemma {:induction false} Listed(assignments: map<FlowKey, Index>, entries: seq<FlowEntry>, order: seq<Index>, k: nat)
    requires Agrees(assignments, entries, order) && k < |order|
    ensures order[k] < |entries| && entries[order[k]].flow in assignments
    ensures assignments[entries[order[k]].flow] == order[k]
  {
    assert Located(assignments, entries, order[k]);
  }

  lemma {:induction false} FoundIff(assignments: map<FlowKey, Index>, entries: seq<FlowEntry>, order: seq<Index>,
                                    flow: FlowKey)
    requires Agrees(assignments, entries, order)
    ensures Within(entries, order)
    ensures flow in assignments <==> Holds(Uses(entries, order), flow)
  {
    InRange(assignments, entries, order);
    if flow in assignments {
      var k := SlotOf(assignments, entries, order, flow);
      assert Uses(entries, order)[k].flow == flow;
    } else {
      forall k | 0 <= k < |order|
        ensures Uses(entries, order)[k].flow != flow
      {
        Listed(assignments, entries, order, k);
      }
    }
  }

  /** Distinct slots hold distinct flows. */
  lemma {:induction false} UsesDistinct(assignments: map<FlowKey, Index>, entries: seq<FlowEntry>, order: seq<Index>)
    requires Agrees(assignments, entries, order) && Unique(order)
    ensures Within(entries, order)
    ensures Distinct(Uses(entries, order))
  {
    InRange(assignments, entries, order);
    forall p, q | 0 <= p < q < |order|
      ensures Uses(entries, order)[p].flow != Uses(entries, order)[q].flow
    {
      Listed(assignments, entries, order, p);
      Listed(assignments, entries, order, q);
    }
  }

  lemma {:induction false} AgreesFrame(assignments: map<FlowKey, Index>, a: seq<FlowEntry>, b: seq<FlowEntry>,
                                       order: seq<Index>)
    requires Agrees(assignments, a, order) && SameUses(a, b)
    ensures |a| == |b| && Within(a, order) && Within(b, order)
    ensures Agrees(assignments, b, order) && Uses(b, order) == Uses(a, order)
  {
    InRange(assignments, a, order);
    forall i | i in order
      ensures Located(assignments, b, i)
    {
      assert Located(assignments, a, i);
    }
  }

  /** Forgetting the flow at `k` drops exactly that position. */
  lemma {:induction false} ForgetUse(uses: seq<Use>, k: nat)
    requires k < |uses| && Distinct(uses)
    ensures Forget(uses, uses[k].flow) == uses[..k] + uses[k + 1..]
  {
    ForgetHead(uses, uses[k].flow);
    if k == 0 {
      NotBehindFirst(uses);
      hide Forget, Distinct, Holds;
      ForgetNothing(uses[1..], uses[0].flow);
      assert uses[..0] + uses[1..] == uses[1..];
    } else {
      ForgetUse(uses[1..], k - 1);
      hide Forget, Distinct;
      assert uses[1..][..k - 1] == uses[1..k] && uses[1..][k..] == uses[k + 1..];
      assert uses[..k] == [uses[0]] + uses[1..k];
      ConcatAssociates([uses[0]], uses[1..k], uses[k + 1..]);
    }
  }

  lemma {:induction false} NotBehindFirst(uses: seq<Use>)
    requires uses != [] && Distinct(uses)
    ensures !Holds(uses[1..], uses[0].flow)
  {
    forall p | 0 <= p < |uses[1..]|
      ensures uses[1..][p].flow != uses[0].flow
    {
      assert uses[1..][p] == uses[p + 1];
    }
  }

  lemma {:induction false} ForgetNothing(uses: seq<Use>, flow: FlowKey)
    requires !Holds(uses, flow)
    ensures Forget(uses, flow) == uses
  {
    if uses != [] {
      assert uses[0].flow != flow;
      assert !Holds(uses[1..], flow) by {
        forall p | 0 <= p < |uses[1..]|
          ensures uses[1..][p].flow != flow
        {
          assert uses[1..][p] == uses[p + 1];
        }
      }
      ForgetNothing(uses[1..], flow);
    }
  }

  lemma {:induction false} ForgetNothingHere(assignments: map<FlowKey, Index>, entries: seq<FlowEntry>,
                                             order: seq<Index>, flow: FlowKey)
    requires Agrees(assignments, entries, order) && flow !in assignments
    ensures Within(entries, order)
    ensures Forget(Uses(entries, order), flow) == Uses(entries, order)
  {
    hide Holds, Forget, Uses, Agrees;
    FoundIff(assignments, entries, order, flow);
    ForgetNothing(Uses(entries, order), flow);
  }

  lemma {:induction false} UsesWithout(entries: seq<FlowEntry>, order: seq<Index>, k: nat)
    requires k < |order| && Within(entries, order)
    ensures Within(entries, Drop(order, k))
    ensures Uses(entries, Drop(order, k)) == Uses(entries, order)[..k] + Uses(entries, order)[k + 1..]
  {
  }

  lemma {:induction false} UsesWith(entries: seq<FlowEntry>, order: seq<Index>, index: Index)
    requires index < |entries| && Within(entries, order)
    ensures Within(entries, order + [index])
    ensures Uses(entries, order + [index]) == Uses(entries, order) + [Use(entries[index].flow, entries[index].lane)]
  {
  }

  /** The order without, and with, position `k` at its end. */
  lemma {:induction false} ForgetAt(assignments: map<FlowKey, Index>, entries: seq<FlowEntry>, order: seq<Index>,
                                    k: nat)
    requires Agrees(assignments, entries, order) && k < |order| && Unique(order)
    ensures Within(entries, order) && Within(entries, Drop(order, k)) && Within(entries, Drop(order, k) + [order[k]])
    ensures var uses := Uses(entries, order);
      && Forget(uses, uses[k].flow) == uses[..k] + uses[k + 1..]
      && Uses(entries, Drop(order, k)) == uses[..k] + uses[k + 1..]
      && Uses(entries, Drop(order, k) + [order[k]]) == uses[..k] + uses[k + 1..] + [uses[k]]
  {
    hide Agrees, Forget, Unique, Distinct, Drop, Uses, Within;
    UsesDistinct(assignments, entries, order);
    ForgetUse(Uses(entries, order), k);
    UsesWithout(entries, order, k);
    Listed(assignments, entries, order, k);
    UsesWith(entries, Drop(order, k), order[k]);
  }

  lemma {:induction false} MoveLast(order: seq<Index>, k: nat)
    requires k < |order| && order[|order| - 1] == order[k] && Unique(order)
    ensures Drop(order, k) + [order[k]] == order
  {
  }

  lemma {:induction false} MoveKeeps(count: nat, assignments: map<FlowKey, Index>, entries: seq<FlowEntry>,
                                     order: seq<Index>,
                                     free: seq<Index>, k: nat)
    requires Partition(count, order, free) && Agrees(assignments, entries, order) && Unique(order) && k < |order|
    ensures Partition(count, Drop(order, k) + [order[k]], free)
    ensures Agrees(assignments, entries, Drop(order, k) + [order[k]])
  {
    hide Drop, Located;
    DropMembers(order, k);
    assert forall i :: i in Drop(order, k) + [order[k]] <==> i in order;
  }

  lemma {:induction false} FreePartition(count: nat, order: seq<Index>, free: seq<Index>, k: nat)
    requires Partition(count, order, free) && Unique(order) && k < |order|
    ensures Partition(count, Drop(order, k), free + [order[k]])
  {
    hide Drop;
    DropMembers(order, k);
    assert order[k] in order;
  }

  lemma {:induction false} FreeAgrees(assignments: map<FlowKey, Index>, entries: seq<FlowEntry>, order: seq<Index>,
                                      k: nat)
    requires Agrees(assignments, entries, order) && Unique(order) && k < |order|
    ensures order[k] < |entries|
    ensures Agrees(assignments - {entries[order[k]].flow}, entries, Drop(order, k))
  {
    hide Drop;
    Listed(assignments, entries, order, k);
    DropMembers(order, k);
    hide Unique;
    var gone := entries[order[k]].flow;
    var rest, left := Drop(order, k), assignments - {gone};
    forall i | i in rest
      ensures Located(left, entries, i)
    {
      assert Located(assignments, entries, i);
    }
    assert left.Keys == assignments.Keys - {gone};
    assert |left| == |left.Keys| == |assignments.Keys| - 1;
  }

  lemma {:induction false} RelabelKeeps(assignments: map<FlowKey, Index>, entries: seq<FlowEntry>, order: seq<Index>,
                                        oldest: Index,
                                        newest: Index, k: nat, lane: nat)
    requires Linked(entries, order, oldest, newest) && Agrees(assignments, entries, order) && k < |order|
    ensures Within(entries, order)
    ensures var es := entries[order[k] := entries[order[k]].(lane := lane)];
      && Linked(es, order, oldest, newest) && Agrees(assignments, es, order) && |es| == |entries|
      && Uses(es, order) == Uses(entries, order)[k := Use(entries[order[k]].flow, lane)]
  {
    InRange(assignments, entries, order);
    var es := entries[order[k] := entries[order[k]].(lane := lane)];
    forall i | i in order
      ensures Located(assignments, es, i)
    {
      assert Located(assignments, entries, i);
    }
    forall p | 0 <= p < |order|
      ensures LinkedAt(es, order, p)
    {
      assert LinkedAt(entries, order, p);
    }
  }

  lemma {:induction false} Reassigned(uses: seq<Use>, k: nat, flow: FlowKey, lane: nat)
    requires Distinct(uses) && k < |uses| <= FLOW_LIMIT && uses[k].flow == flow
    ensures Forget(uses[k := Use(flow, lane)], flow) + [Use(flow, lane)] == Assigned(uses, flow, lane)
  {
    var changed := uses[k := Use(flow, lane)];
    ForgetUse(uses, k);
    ForgetUse(changed, k);
    assert changed[..k] == uses[..k] && changed[k + 1..] == uses[k + 1..];
  }

  lemma {:induction false} AssignedWithout(uses: seq<Use>, flow: FlowKey, lane: nat)
    requires Forget(uses, flow) == uses
    ensures Assigned(uses, flow, lane) == (if |uses| >= FLOW_LIMIT then uses[1..] else uses) + [Use(flow, lane)]
  {
  }

  /** Entries outside the list may change. */
  ghost predicate SameElsewhere(a: seq<FlowEntry>, b: seq<FlowEntry>, index: Index) {
    |a| <= |b| && index < |b| && forall i :: 0 <= i < |a| && i != index ==> b[i] == a[i]
  }

  lemma {:induction false} UsesElsewhere(a: seq<FlowEntry>, b: seq<FlowEntry>, order: seq<Index>, index: Index)
    requires SameElsewhere(a, b, index) && Within(a, order) && index !in order
    ensures Within(b, order) && Uses(b, order) == Uses(a, order)
  {
    assert forall p :: 0 <= p < |order| ==> order[p] in order;
  }

  lemma {:induction false} LinkedElsewhere(a: seq<FlowEntry>, b: seq<FlowEntry>, order: seq<Index>, oldest: Index,
                                           newest: Index, index: Index)
    requires SameElsewhere(a, b, index) && Linked(a, order, oldest, newest) && index !in order
    ensures Linked(b, order, oldest, newest)
  {
    forall p | 0 <= p < |order|
      ensures LinkedAt(b, order, p)
    {
      assert LinkedAt(a, order, p) && order[p] in order;
    }
  }

  lemma {:induction false} AgreesWith(assignments: map<FlowKey, Index>, a: seq<FlowEntry>, b: seq<FlowEntry>,
                                      order: seq<Index>,
                                      index: Index)
    requires SameElsewhere(a, b, index) && Agrees(assignments, a, order) && index !in order
    requires b[index].flow !in assignments
    ensures Agrees(assignments[b[index].flow := index], b, order + [index])
  {
    forall i | i in order + [index]
      ensures Located(assignments[b[index].flow := index], b, i)
    {
      if i != index {
        assert i in order && Located(assignments, a, i);
      }
    }
  }

  /** Adding an entry for an unlisted flow at a slot outside the list. */
  lemma {:induction false} InsertKeeps(assignments: map<FlowKey, Index>, a: seq<FlowEntry>, b: seq<FlowEntry>,
                                       order: seq<Index>,
                                       oldest: Index, newest: Index, index: Index)
    requires Linked(a, order, oldest, newest) && Agrees(assignments, a, order)
    requires SameElsewhere(a, b, index) && index !in order && b[index].flow !in assignments
    ensures Within(a, order) && Within(b, order + [index])
    ensures Linked(b, order, oldest, newest)
    ensures Agrees(assignments[b[index].flow := index], b, order + [index])
    ensures Uses(b, order + [index]) == Uses(a, order) + [Use(b[index].flow, b[index].lane)]
  {
    hide Linked, Agrees, Uses, Within;
    InRange(assignments, a, order);
    UsesElsewhere(a, b, order, index);
    UsesWith(b, order, index);
    LinkedElsewhere(a, b, order, oldest, newest, index);
    AgreesWith(assignments, a, b, order, index);
  }

  lemma {:induction false} ReuseKeeps(assignments: map<FlowKey, Index>, entries: seq<FlowEntry>, order: seq<Index>,
                                      free: seq<Index>,
                                      oldest: Index, newest: Index, entry: FlowEntry)
    requires Linked(entries, order, oldest, newest) && Partition(|entries|, order, free)
    requires Agrees(assignments, entries, order)
    requires |free| > 0 && entry.flow !in assignments
    ensures Within(entries, order)
    ensures var index := free[|free| - 1];
      && index < |entries| && index !in order && Within(entries[index := entry], order + [index])
      && var es := entries[index := entry];
         && Linked(es, order, oldest, newest)
         && Partition(|es|, order + [index], free[..|free| - 1])
         && Agrees(assignments[entry.flow := index], es, order + [index])
         && Uses(es, order + [index]) == Uses(entries, order) + [Use(entry.flow, entry.lane)]
  {
    var index, rest := free[|free| - 1], free[..|free| - 1];
    assert index in free;
    assert forall i :: i in rest ==> i in free && i != index;
    hide Linked, Agrees;
    InsertKeeps(assignments, entries, entries[index := entry], order, oldest, newest, index);
  }

  lemma {:induction false} GrowKeeps(assignments: map<FlowKey, Index>, entries: seq<FlowEntry>, order: seq<Index>,
                                     free: seq<Index>,
                                     oldest: Index, newest: Index, entry: FlowEntry)
    requires Linked(entries, order, oldest, newest) && Partition(|entries|, order, free)
    requires Agrees(assignments, entries, order)
    requires free == [] && |order| < FLOW_LIMIT && entry.flow !in assignments
    ensures Within(entries, order)
    ensures var index := |entries|;
      && index < FLOW_LIMIT && index < NO_FLOW_INDEX && index !in order && Within(entries + [entry], order + [index])
      && var es := entries + [entry];
         && Linked(es, order, oldest, newest)
         && Partition(|es|, order + [index], free)
         && Agrees(assignments[entry.flow := index], es, order + [index])
         && Uses(es, order + [index]) == Uses(entries, order) + [Use(entry.flow, entry.lane)]
  {
    hide Linked, Agrees;
    InsertKeeps(assignments, entries, entries + [entry], order, oldest, newest, |entries|);
  }

  // Whole runs.

  datatype Operation = AssignOp(flow: FlowKey, lane: nat) | RemoveOp(flow: FlowKey)

  /** The table after a run, as the class above keeps it. */
  function Bounded(ops: seq<Operation>): seq<Use> {
    if ops == [] then []
    else
      var before := Bounded(ops[..|ops| - 1]);
      match ops[|ops| - 1]
      case AssignOp(flow, lane) => Assigned(before, flow, lane)
      case RemoveOp(flow) => Forget(before, flow)
  }

  /** Every flow ever assigned and not removed since, by last use, without any limit. */
  function Unbounded(ops: seq<Operation>): seq<Use> {
    if ops == [] then []
    else
      var before := Unbounded(ops[..|ops| - 1]);
      match ops[|ops| - 1]
      case AssignOp(flow, lane) => Forget(before, flow) + [Use(flow, lane)]
      case RemoveOp(flow) => Forget(before, flow)
  }

  lemma {:induction false} BoundedNext(ops: seq<Operation>, i: nat)
    requires i < |ops|
    ensures Bounded(ops[..i + 1]) ==
      match ops[i]
      case AssignOp(flow, lane) => Assigned(Bounded(ops[..i]), flow, lane)
      case RemoveOp(flow) => Forget(Bounded(ops[..i]), flow)
  {
    assert ops[..i + 1][..i] == ops[..i];
  }

  /** The table after any run of operations. */
  method Replay(ops: seq<Operation>) returns (table: FlowTable)
    ensures table.Valid() && table.Contents() == Bounded(ops)
  {
    hide FlowTable.Valid, FlowTable.Contents, Assigned, Forget;
    table := new FlowTable();
    for i := 0 to |ops|
      invariant fresh(table) && table.Valid() && table.Contents() == Bounded(ops[..i])
    {
      BoundedNext(ops, i);
      match ops[i]
      case AssignOp(flow, lane) =>
        table.Assign(flow, lane);
      case RemoveOp(flow) =>
        table.Remove(flow);
    }
    assert ops[..|ops|] == ops;
  }

  ghost predicate IsSuffix(short: seq<Use>, long: seq<Use>) {
    |short| <= |long| && long[|long| - |short|..] == short
  }

  lemma {:induction false} ForgetHead(uses: seq<Use>, flow: FlowKey)
    requires uses != []
    ensures Forget(uses, flow) == (if uses[0].flow == flow then [] else [uses[0]]) + Forget(uses[1..], flow)
  {
  }

  lemma {:induction false} ForgetConcat(a: seq<Use>, b: seq<Use>, flow: FlowKey)
    ensures Forget(a + b, flow) == Forget(a, flow) + Forget(b, flow)
  {
    if a == [] {
      assert a + b == b;
    } else {
      hide Forget;
      ForgetConcat(a[1..], b, flow);
      TailOfConcat(a, b);
      ForgetHead(a, flow);
      ForgetHead(a + b, flow);
      ConcatAssociates(if a[0].flow == flow then [] else [a[0]], Forget(a[1..], flow), Forget(b, flow));
    }
  }

  lemma {:induction false} ForgetSuffix(short: seq<Use>, long: seq<Use>, flow: FlowKey)
    requires IsSuffix(short, long)
    ensures IsSuffix(Forget(short, flow), Forget(long, flow))
  {
    var front := long[..|long| - |short|];
    assert long == front + short;
    ForgetConcat(front, short, flow);
  }

  lemma {:induction false} ForgetDistinct(uses: seq<Use>, flow: FlowKey)
    requires Distinct(uses)
    ensures Distinct(Forget(uses, flow)) && !Holds(Forget(uses, flow), flow)
  {
    if uses != [] {
      ForgetDistinct(uses[1..], flow);
      var rest := Forget(uses[1..], flow);
      forall p | 0 <= p < |rest|
        ensures rest[p].flow != uses[0].flow
      {
        assert rest[p] in uses[1..];
      }
    }
  }

  /**
   After any run the table is a suffix of the unlimited recency list, so what
   it has lost is exactly the least recently used; its flows are distinct and
   at most FLOW_LIMIT; and without removals nothing is lost before the limit.
   */
  lemma {:induction false} KeepsMostRecent(ops: seq<Operation>)
    ensures IsSuffix(Bounded(ops), Unbounded(ops))
    ensures |Bounded(ops)| <= FLOW_LIMIT
    ensures Distinct(Unbounded(ops)) && Distinct(Bounded(ops))
    ensures (forall p :: 0 <= p < |ops| ==> ops[p].AssignOp?) ==>
      |Bounded(ops)| == Min(FLOW_LIMIT, |Unbounded(ops)|)
    decreases |ops|
  {
    if ops != [] {
      var earlier, op := ops[..|ops| - 1], ops[|ops| - 1];
      KeepsMostRecent(earlier);
      var b, u := Bounded(earlier), Unbounded(earlier);
      StepKeepsMostRecent(b, u, op);
      if forall p :: 0 <= p < |ops| ==> ops[p].AssignOp? {
        assert forall p :: 0 <= p < |earlier| ==> earlier[p] == ops[p];
      }
    }
  }

  lemma {:induction false} StepKeepsMostRecent(b: seq<Use>, u: seq<Use>, op: Operation)
    requires IsSuffix(b, u) && |b| <= FLOW_LIMIT && Distinct(u) && Distinct(b)
    ensures IsSuffix(Forget(b, op.flow), Forget(u, op.flow)) && Distinct(Forget(u, op.flow))
    ensures Distinct(Forget(b, op.flow))
    ensures op.AssignOp? ==>
      var b', u' := Assigned(b, op.flow, op.lane), Forget(u, op.flow) + [Use(op.flow, op.lane)];
      && IsSuffix(b', u') && |b'| <= FLOW_LIMIT && Distinct(u') && Distinct(b')
      && (|b| == Min(FLOW_LIMIT, |u|) ==> |b'| == Min(FLOW_LIMIT, |u'|))
  {
    hide Assigned, Forget, IsSuffix;
    ForgetSuffix(b, u, op.flow);
    ForgetDistinct(u, op.flow);
    ForgetDistinct(b, op.flow);
    if op.AssignOp? {
      AssignStep(b, u, op.flow, op.lane);
    }
  }

  lemma {:induction false} ForgetOne(uses: seq<Use>, flow: FlowKey)
    requires Distinct(uses)
    ensures |Forget(uses, flow)| == |uses| - if Holds(uses, flow) then 1 else 0
  {
    if Holds(uses, flow) {
      var p :| 0 <= p < |uses| && uses[p].flow == flow;
      ForgetUse(uses, p);
    } else {
      ForgetNothing(uses, flow);
    }
  }

  /** A use behind a list without that flow. */
  lemma {:induction false} UsedLast(uses: seq<Use>, from: nat, flow: FlowKey, lane: nat)
    requires Distinct(uses) && !Holds(uses, flow) && from <= |uses|
    ensures Distinct(uses[from..] + [Use(flow, lane)])
  {
    assert forall k :: 0 <= k < |uses| ==> uses[k].flow != flow;
  }

  lemma {:induction false} SuffixMore(short: seq<Use>, long: seq<Use>, from: nat, use: Use)
    requires IsSuffix(short, long) && from <= |short|
    ensures IsSuffix(short[from..] + [use], long + [use])
  {
    var d := |long| - |short|;
    assert long[d..][from..] == long[d + from..];
    assert (long + [use])[d + from..] == long[d + from..] + [use];
  }

  lemma {:induction false} AssignedIs(uses: seq<Use>, flow: FlowKey, lane: nat)
    ensures var rest := Forget(uses, flow);
      Assigned(uses, flow, lane) == rest[if |rest| >= FLOW_LIMIT then 1 else 0..] + [Use(flow, lane)]
  {
    assert Forget(uses, flow)[0..] == Forget(uses, flow);
  }

  /** A flow that a suffix holds is held by the whole; the two are equal when equally long. */
  lemma {:induction false} SuffixHolds(b: seq<Use>, u: seq<Use>, flow: FlowKey)
    requires IsSuffix(b, u)
    ensures Holds(b, flow) ==> Holds(u, flow)
    ensures |b| == |u| ==> b == u
  {
    if Holds(b, flow) {
      var p :| 0 <= p < |b| && b[p].flow == flow;
      assert u[|u| - |b| + p] == b[p];
    }
  }

  lemma {:induction false} AssignLength(b: seq<Use>, u: seq<Use>, flow: FlowKey, lane: nat)
    requires IsSuffix(b, u) && |b| == Min(FLOW_LIMIT, |u|) && Distinct(u) && Distinct(b)
    ensures |Assigned(b, flow, lane)| == Min(FLOW_LIMIT, |Forget(u, flow)| + 1)
  {
    ForgetOne(u, flow);
    ForgetOne(b, flow);
    SuffixHolds(b, u, flow);
    AssignedIs(b, flow, lane);
    hide Forget, Assigned, IsSuffix, Distinct, Holds;
  }

  lemma {:induction false} AssignStep(b: seq<Use>, u: seq<Use>, flow: FlowKey, lane: nat)
    requires IsSuffix(b, u) && |b| <= FLOW_LIMIT && Distinct(u) && Distinct(b)
    requires IsSuffix(Forget(b, flow), Forget(u, flow)) && Distinct(Forget(u, flow)) && Distinct(Forget(b, flow))
    requires !Holds(Forget(u, flow), flow) && !Holds(Forget(b, flow), flow)
    ensures var b', u' := Assigned(b, flow, lane), Forget(u, flow) + [Use(flow, lane)];
      && IsSuffix(b', u') && |b'| <= FLOW_LIMIT && Distinct(u') && Distinct(b')
      && (|b| == Min(FLOW_LIMIT, |u|) ==> |b'| == Min(FLOW_LIMIT, |u'|))
  {
    hide Forget, IsSuffix, Distinct, Holds, Assigned;
    var rest, all := Forget(b, flow), Forget(u, flow);
    var from := if |rest| >= FLOW_LIMIT then 1 else 0;
    AssignedIs(b, flow, lane);
    SuffixMore(rest, all, from, Use(flow, lane));
    UsedLast(rest, from, flow, lane);
    UsedLast(all, 0, flow, lane);
    assert all[0..] == all;
    if |b| == Min(FLOW_LIMIT, |u|) {
      AssignLength(b, u, flow, lane);
    }
  }
}
