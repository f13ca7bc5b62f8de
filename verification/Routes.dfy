/**
 ROUTE_ADVERTISEMENT, section 4.7.3 of RFC 9484, as
 rust/porta-wire/src/masque.rs codes it. An address is its octets; addresses of
 one family compare as big-endian numbers.
 */
module Routes {
  import opened Bytes
  import opened Streams
  import opened Varint

  datatype Address = V4(octets: Data) | V6(octets: Data)

  datatype Route = Route(start: Address, end: Address, protocol: byte)

  datatype RouteError = MalformedRoute | InvalidVersion | NotOrdered

  function Width(version: byte): nat {
    if version == 4 then 4 else 16
  }

  predicate WellFormed(a: Address) {
    |a.octets| == if a.V4? then 4 else 16
  }

  /** The order of addresses: IPv4 before IPv6, then by value. */
  predicate Below(a: Address, b: Address) {
    if a.V4? != b.V4? then a.V4? else Value(a.octets) < Value(b.octets)
  }

  predicate SameFamily(a: Address, b: Address) {
    a.V4? == b.V4?
  }

  /** compare_routes gives Less. */
  predicate Precedes(first: Route, second: Route) {
    if first.start.V4? != second.start.V4? then first.start.V4?
    else if first.protocol != second.protocol then first.protocol < second.protocol
    else Below(first.end, second.start)
  }

  /** Accepted alone: one family, and a range that is not empty. */
  predicate Acceptable(r: Route) {
    SameFamily(r.start, r.end) && !Below(r.end, r.start)
  }

  predicate AddressesWellFormed(routes: seq<Route>) {
    forall i :: 0 <= i < |routes| ==> WellFormed(routes[i].start) && WellFormed(routes[i].end)
  }

  /** What both directions check: each route alone, and each against the one before. */
  ghost predicate Accepted(routes: seq<Route>) {
    && (forall i :: 0 <= i < |routes| ==> Acceptable(routes[i]))
    && (forall i :: 0 < i < |routes| ==> Precedes(routes[i - 1], routes[i]))
  }

  function RouteBytes(r: Route): Data {
    [if r.start.V4? then 4 else 6] + r.start.octets + r.end.octets + [r.protocol]
  }

  function AllBytes(routes: seq<Route>): Data {
    if routes == [] then [] else RouteBytes(routes[0]) + AllBytes(routes[1..])
  }

  /** The encoder: it accepts exactly the ordered lists. */
  method Encode(routes: seq<Route>) returns (r: Result<Data, RouteError>)
    ensures r.Ok? <==> Accepted(routes)
    ensures r.Ok? ==> r.value == AllBytes(routes)
  {
    hide RouteBytes, Precedes, Below;
    var value: Data := [];
    for i := 0 to |routes|
      invariant forall j :: 0 <= j < i ==> Acceptable(routes[j])
      invariant forall j :: 0 < j < i ==> Precedes(routes[j - 1], routes[j])
      invariant value + AllBytes(routes[i..]) == AllBytes(routes)
    {
      var route := routes[i];
      assert routes[i..][1..] == routes[i + 1..];
      ConcatAssociates(value, RouteBytes(route), AllBytes(routes[i + 1..]));
      if !SameFamily(route.start, route.end) || Below(route.end, route.start) {
        return Err(MalformedRoute);
      }
      if i > 0 && !Precedes(routes[i - 1], route) {
        return Err(NotOrdered);
      }
      value := value + RouteBytes(route);
    }
    return Ok(value);
  }

  /** The route at the front of some bytes. */
  function Front(value: Data): Result<(Route, nat), RouteError>
    requires value != []
  {
    var version := value[0];
    if version != 4 && version != 6 then Err(InvalidVersion)
    else
      var w := Width(version);
      if |value| < 2 * w + 2 then Err(MalformedRoute)
      else
        var start, end := value[1..1 + w], value[1 + w..1 + 2 * w];
        var addresses := if version == 4 then (V4(start), V4(end)) else (V6(start), V6(end));
        Ok((Route(addresses.0, addresses.1, value[1 + 2 * w]), 2 * w + 2))
  }

  lemma {:induction false} FrontOf(r: Route, rest: Data)
    requires WellFormed(r.start) && WellFormed(r.end) && SameFamily(r.start, r.end)
    ensures Front(RouteBytes(r) + rest) == Ok((r, |RouteBytes(r)|))
  {
    var b, w := RouteBytes(r) + rest, |r.start.octets|;
    assert b[1..1 + w] == r.start.octets && b[1 + w..1 + 2 * w] == r.end.octets;
  }

  lemma {:induction false} FrontIs(value: Data)
    requires value != [] && Front(value).Ok?
    ensures var route, n := Front(value).value.0, Front(value).value.1;
      && 0 < n <= |value| && RouteBytes(route) == value[..n]
      && WellFormed(route.start) && WellFormed(route.end) && SameFamily(route.start, route.end)
  {
    var w := Width(value[0]);
    assert value[..2 * w + 2] == [value[0]] + value[1..1 + w] + value[1 + w..1 + 2 * w] + [value[1 + 2 * w]];
  }

  /** The routes of some bytes that follow a route. */
  function Decoded(value: Data, previous: Option<Route>): Result<seq<Route>, RouteError>
    decreases |value|
  {
    if value == [] then Ok([])
    else
      var front := Front(value);
      if front.Err? then Err(front.error)
      else
        var route := front.value.0;
        if Below(route.end, route.start) then Err(MalformedRoute)
        else if previous.Some? && !Precedes(previous.value, route) then Err(NotOrdered)
        else
          var rest := Decoded(value[front.value.1..], Some(route));
          if rest.Err? then rest else Ok([route] + rest.value)
  }

  lemma {:induction false} DecodedStep(value: Data, previous: Option<Route>)
    requires value != []
    ensures Front(value).Err? ==> Decoded(value, previous) == Err(Front(value).error)
    ensures Front(value).Ok? ==>
      var route, n := Front(value).value.0, Front(value).value.1;
      && n <= |value|
      && if Below(route.end, route.start) then Decoded(value, previous) == Err(MalformedRoute)
         else if previous.Some? && !Precedes(previous.value, route) then Decoded(value, previous) == Err(NotOrdered)
         else
           var rest := Decoded(value[n..], Some(route));
           Decoded(value, previous) == if rest.Err? then rest else Ok([route] + rest.value)
  {
    hide Front, Precedes, Below;
    if Front(value).Ok? {
      FrontIs(value);
    }
  }

  method Decode(input: Data) returns (r: Result<seq<Route>, RouteError>)
    ensures r == Decoded(input, None)
  {
    hide *;
    var routes: seq<Route> := [];
    var value := input;
    ghost var whole := Decoded(input, None);
    assert whole.Ok? ==> [] + whole.value == whole.value;
    LastIs(routes);
    while value != []
      invariant var rest := Decoded(value, Last(routes));
        whole == if rest.Err? then rest else Ok(routes + rest.value)
      decreases |value|
    {
      DecodedStep(value, Last(routes));
      LastIs(routes);
      var front := Front(value);
      if front.Err? {
        return Err(front.error);
      }
      FrontIs(value);
      var route := front.value.0;
      if Below(route.end, route.start) {
        return Err(MalformedRoute);
      }
      if routes != [] && !Precedes(routes[|routes| - 1], route) {
        return Err(NotOrdered);
      }
      value := value[front.value.1..];
      ghost var rest := Decoded(value, Some(route));
      if rest.Ok? {
        ConcatAssociates(routes, [route], rest.value);
      }
      routes := routes + [route];
      LastIs(routes);
    }
    DecodedNothing(Last(routes));
    assert routes + [] == routes;
    return Ok(routes);
  }

  ghost function Last(routes: seq<Route>): Option<Route> {
    if routes == [] then None else Some(routes[|routes| - 1])
  }

  lemma {:induction false} LastIs(routes: seq<Route>)
    ensures Last(routes) == if routes == [] then None else Some(routes[|routes| - 1])
  {
  }

  lemma {:induction false} DecodedNothing(previous: Option<Route>)
    ensures Decoded([], previous) == Ok([])
  {
  }

  ghost predicate Follows(previous: Option<Route>, routes: seq<Route>) {
    previous.Some? && routes != [] ==> Precedes(previous.value, routes[0])
  }

  lemma {:induction false} AcceptedTail(routes: seq<Route>)
    requires routes != []
    ensures Accepted(routes) <==>
      Acceptable(routes[0]) && Follows(Some(routes[0]), routes[1..]) && Accepted(routes[1..])
    ensures AddressesWellFormed(routes) <==>
      WellFormed(routes[0].start) && WellFormed(routes[0].end) && AddressesWellFormed(routes[1..])
  {
    hide Acceptable, Precedes, WellFormed;
    var tail := routes[1..];
    assert forall i :: 0 < i < |routes| ==> routes[i] == tail[i - 1];
    assert forall i :: 0 <= i < |tail| ==> tail[i] == routes[i + 1];
  }

  /** Decoding what was encoded gives the routes back. */
  lemma {:induction false} DecodeEncoded(routes: seq<Route>, previous: Option<Route>)
    requires Accepted(routes) && AddressesWellFormed(routes) && Follows(previous, routes)
    ensures Decoded(AllBytes(routes), previous) == Ok(routes)
    decreases |routes|
  {
    if routes != [] {
      AcceptedTail(routes);
      var route, tail := routes[0], routes[1..];
      DecodeEncoded(tail, Some(route));
      FrontOf(route, AllBytes(tail));
      var value := AllBytes(routes);
      assert value == RouteBytes(route) + AllBytes(tail);
      assert value != [] && value[|RouteBytes(route)|..] == AllBytes(tail);
      DecodedStep(value, previous);
      hide Decoded, AllBytes, RouteBytes, Front, Precedes, Below;
      assert [route] + tail == routes;
    }
  }

  /** What decodes is accepted, and encodes to the same bytes. */
  lemma {:induction false} EncodeDecoded(value: Data, previous: Option<Route>)
    requires Decoded(value, previous).Ok?
    ensures var routes := Decoded(value, previous).value;
      Accepted(routes) && AddressesWellFormed(routes) && Follows(previous, routes) && AllBytes(routes) == value
    decreases |value|
  {
    if value != [] {
      hide Decoded, Front, RouteBytes, Below, Precedes, WellFormed, Accepted, AddressesWellFormed, AllBytes;
      DecodedStep(value, previous);
      FrontIs(value);
      var route, n := Front(value).value.0, Front(value).value.1;
      EncodeDecoded(value[n..], Some(route));
      var tail := Decoded(value[n..], Some(route)).value;
      var routes := [route] + tail;
      assert routes[0] == route && routes[1..] == tail;
      AcceptedTail(routes);
      AllBytesHead(routes);
      assert value[..n] + value[n..] == value;
    } else {
      DecodedNothing(previous);
    }
  }

  lemma {:induction false} AllBytesHead(routes: seq<Route>)
    requires routes != []
    ensures AllBytes(routes) == RouteBytes(routes[0]) + AllBytes(routes[1..])
  {
  }

  /** Encode and decode are inverse to each other on what either accepts. */
  lemma {:induction false} Bijection(routes: seq<Route>, value: Data)
    ensures Decoded(value, None) == Ok(routes) <==>
      Accepted(routes) && AddressesWellFormed(routes) && AllBytes(routes) == value
  {
    hide Decoded, AllBytes, Accepted, AddressesWellFormed;
    if Decoded(value, None).Ok? {
      EncodeDecoded(value, None);
    }
    if Accepted(routes) && AddressesWellFormed(routes) {
      DecodeEncoded(routes, None);
    }
  }

  // What the adjacent check means.

  /** An address within a route's range. */
  predicate Covers(r: Route, a: Address) {
    SameFamily(r.start, a) && !Below(a, r.start) && !Below(r.end, a)
  }

  predicate Comparable(a: Route, b: Route) {
    SameFamily(a.start, b.start) && a.protocol == b.protocol
  }

  lemma {:induction false} PrecedesTransitive(a: Route, b: Route, c: Route)
    requires Acceptable(a) && Acceptable(b) && Acceptable(c) && Precedes(a, b) && Precedes(b, c)
    ensures Precedes(a, c)
  {
  }

  /** Adjacent order is global order. */
  lemma {:induction false} AcceptedIsOrdered(routes: seq<Route>, i: nat, j: nat)
    requires Accepted(routes) && i < j < |routes|
    ensures Precedes(routes[i], routes[j])
    decreases j
  {
    hide Precedes, Acceptable;
    assert Precedes(routes[j - 1], routes[j]);
    if i < j - 1 {
      AcceptedIsOrdered(routes, i, j - 1);
      PrecedesTransitive(routes[i], routes[j - 1], routes[j]);
    }
  }

  /** No address is in two routes of one family and protocol, and the earlier route lies wholly below the later. */
  lemma {:induction false} AcceptedIsDisjoint(routes: seq<Route>, i: nat, j: nat, a: Address, b: Address)
    requires Accepted(routes) && i < j < |routes| && Comparable(routes[i], routes[j])
    requires Covers(routes[i], a) && Covers(routes[j], b)
    ensures Below(a, b) && a != b && !Covers(routes[j], a) && !Covers(routes[i], b)
  {
    AcceptedIsOrdered(routes, i, j);
    assert Acceptable(routes[i]) && Acceptable(routes[j]);
  }
}
