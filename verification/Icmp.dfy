/**
 icmp_fragmentation_needed of rust/porta-wire/src/mtu.rs: the ICMP
 "fragmentation needed" reply (RFC 1191, section 4), suppressed where
 RFC 1122, section 3.2.2 forbids an ICMP error.
 */
module Icmp {
  import opened Bytes
  import opened Checksum
  import opened Ipv4
  import opened Options
  import Fragment

  /** A four-byte address. */
  type Address = a: seq<byte> | |a| == 4 witness [0, 0, 0, 0]

  datatype IcmpContext = IcmpContext(gateway: Address, address: Address, prefixLen: byte)

  function Pow2(n: nat): (r: nat)
    ensures r > 0
  {
    if n == 0 then 1 else 2 * Pow2(n - 1)
  }

  function Number(a: Address): nat {
    0x10000 * Word(a[0], a[1]) + Word(a[2], a[3])
  }

  predicate Unicast(a: Address) {
    a[0] != 0 && a[0] != 127 && a[0] < 224
  }

  /** All host bits set within the leased subnet. */
  predicate SubnetBroadcast(a: Address, context: IcmpContext) {
    if context.prefixLen >= 31 then false
    else
      var hosts := Pow2(32 - context.prefixLen);
      Number(a) / hosts == Number(context.address) / hosts && Number(a) % hosts == hosts - 1
  }

  const QUERY_TYPES: set<byte> := {0, 8, 9, 10, 13, 14, 15, 16, 17, 18, 42, 43}

  /** The ICMP message, its checksum field zero. */
  function Body(packet: Packet, mtu: nat, quote: nat): (b: seq<byte>)
    requires quote <= |packet| && mtu <= 65535
    ensures |b| == 8 + quote && b[0] == 3 && b[1] == 4 && Word(b[6], b[7]) == mtu && b[8..] == packet[..quote]
  {
    [3, 4, 0, 0, 0, 0, Hi(mtu), Lo(mtu)] + packet[..quote]
  }

  function SealedBody(body: seq<byte>): (b: seq<byte>)
    requires |body| >= 4
    ensures |b| == |body| && b[..2] == body[..2] && b[4..] == body[4..]
  {
    WithWord(body, 2, InternetChecksum(WithWord(body, 2, 0)))
  }

  function Header(gateway: Address, destination: Address, total: nat, identification: int): (h: seq<byte>)
    requires total <= 65535 && 0 <= identification < 0x10000
    ensures |h| == 20 && h[0] == 0x45 && Word(h[2], h[3]) == total && h[12..16] == gateway && h[16..] == destination
  {
    [0x45, 0, Hi(total), Lo(total), Hi(identification), Lo(identification), 0, 0, 64, 1, 0, 0] + gateway + destination
  }

  /** The reply before its header is sealed. */
  function Draft(packet: Packet, gateway: Address, source: Address, mtu: nat, quote: nat,
                 identification: int): (r: Packet)
    requires quote <= |packet| && quote <= 68 && mtu <= 65535 && 0 <= identification < 0x10000
    ensures HeaderLength(r) == Ok(20) && |r| == 28 + quote
    ensures r[20..] == SealedBody(Body(packet, mtu, quote))
    ensures r[..20] == Header(gateway, source, 28 + quote, identification)
  {
    var h := Header(gateway, source, 28 + quote, identification);
    assert h[0] == 0x45;
    h + SealedBody(Body(packet, mtu, quote))
  }

  /** Why no reply is owed, or None when one is. */
  function Refusal(packet: Packet, context: IcmpContext, mtu: nat): (r: Option<MtuError>)
    ensures r.None? ==> Parse(packet).Ok? && |packet| > mtu >= 68 && mtu <= 65535
  {
    if mtu < Fragment.MIN_IPV4_MTU || mtu > Fragment.MAX_U16 then Some(InvalidMtu)
    else if context.prefixLen > 32 then Some(InvalidPacket)
    else if Parse(packet).Err? || !HeaderVerifies(packet) || Reserved(packet) then Some(InvalidPacket)
    else
      var info := Parse(packet).value;
      if || |packet| <= mtu || Flags(packet) % 0x2000 != 0 || !DontFragment(packet)
         || !Unicast(context.gateway) || !Unicast(info.source) || !Unicast(info.destination)
         || SubnetBroadcast(info.source, context) || SubnetBroadcast(info.destination, context)
      then Some(IcmpSuppressed)
      else if packet[9] == 1 &&
              (|packet| - info.headerLength < 8 || packet[info.headerLength] !in QUERY_TYPES)
      then Some(IcmpSuppressed)
      else None
  }

  function Reply(packet: Packet, context: IcmpContext, mtu: nat, identification: int): (r: Result<Packet, MtuError>)
    requires 0 <= identification < 0x10000
  {
    var refusal := Refusal(packet, context, mtu);
    if refusal.Some? then Err(refusal.value)
    else
      var info := Parse(packet).value;
      Ok(Sealed(Draft(packet, context.gateway, info.source, mtu, Min(|packet|, info.headerLength + 8), identification)))
  }

  /** The writes of icmp_fragmentation_needed into its buffer. */
  method BuildReply(packet: Packet, gateway: Address, source: Address, mtu: nat, quote: nat, identification: int)
    returns (response: array<byte>)
    requires quote <= |packet| && quote <= 68 && mtu <= 65535 && 0 <= identification < 0x10000
    ensures fresh(response)
    ensures response[..] == Sealed(Draft(packet, gateway, source, mtu, quote, identification))
  {
    hide *;
    var body := Body(packet, mtu, quote);
    var total := 28 + quote;
    response := new byte[total](_ => 0);
    forall i | 20 <= i < total { response[i] := body[i - 20]; }
    assert response[20..] == body;
    ZeroField(packet, mtu, quote);
    var c := ComputeChecksum(response[20..]);
    response[22], response[23] := Hi(c), Lo(c);
    SealedBodyIs(body, c);
    assert response[20..] == SealedBody(body);
    var header := Header(gateway, source, total, identification);
    forall i | 0 <= i < 20 { response[i] := header[i]; }
    assert response[..20] == header && response[20..] == SealedBody(body);
    DraftParts(packet, gateway, source, mtu, quote, identification);
    assert response[..] == response[..20] + response[20..];
    var sealed := SetHeaderChecksum(response);
    assert sealed.Ok?;
  }

  lemma {:induction false} ZeroField(packet: Packet, mtu: nat, quote: nat)
    requires quote <= |packet| && mtu <= 65535
    ensures WithWord(Body(packet, mtu, quote), 2, 0) == Body(packet, mtu, quote)
  {
  }

  lemma {:induction false} SealedBodyIs(body: seq<byte>, c: int)
    requires |body| >= 4 && WithWord(body, 2, 0) == body && c == InternetChecksum(body)
    ensures 0 <= c < 0x10000 && SealedBody(body) == body[2 := Hi(c)][3 := Lo(c)]
  {
    hide InternetChecksum;
  }

  lemma {:induction false} DraftParts(packet: Packet, gateway: Address, source: Address, mtu: nat, quote: nat,
                                      identification: int)
    requires quote <= |packet| && quote <= 68 && mtu <= 65535 && 0 <= identification < 0x10000
    ensures Draft(packet, gateway, source, mtu, quote, identification)
            == Header(gateway, source, 28 + quote, identification) + SealedBody(Body(packet, mtu, quote))
  {
    hide Header, SealedBody, Body;
  }

  method IcmpFragmentationNeeded(packet: Packet, context: IcmpContext, mtu: nat, identification: int)
    returns (r: Result<Packet, MtuError>)
    requires 0 <= identification < 0x10000
    ensures r == Reply(packet, context, mtu, identification)
  {
    hide HeaderLength, Draft, Sealed;
    var refusal := Refusal(packet, context, mtu);
    if refusal.Some? {
      return Err(refusal.value);
    }
    var info := Parse(packet).value;
    var response := BuildReply(packet, context.gateway, info.source, mtu,
                               Min(|packet|, info.headerLength + 8), identification);
    return Ok(response[..]);
  }

  /** The message half of a reply verifies to zero and says what it should. */
  lemma {:induction false} BodyVerifies(packet: Packet, mtu: nat, quote: nat)
    requires quote <= |packet| && mtu <= 65535
    ensures var b := SealedBody(Body(packet, mtu, quote));
      && InternetChecksum(b) == 0
      && b[0] == 3 && b[1] == 4 && Word(b[6], b[7]) == mtu && b[8..] == packet[..quote]
  {
    hide InternetChecksum;
    var body := Body(packet, mtu, quote);
    ChecksumVerifies(body, 2);
    var b := SealedBody(body);
    hide Body, SealedBody, Word;
    SameBelow(b, body, 2);
    SliceRest(b, 4, 4);
    SliceRest(body, 4, 4);
    assert b[6] == b[4..][2] && body[6] == body[4..][2] && b[7] == b[4..][3] && body[7] == body[4..][3];
  }

  lemma {:induction false} DraftMeaning(packet: Packet, gateway: Address, source: Address, mtu: nat, quote: nat,
                                        identification: int)
    requires quote <= |packet| && quote <= 68 && mtu <= 65535 && 0 <= identification < 0x10000
    ensures var d := Draft(packet, gateway, source, mtu, quote, identification);
      Parse(d) == Ok(Ipv4Info(gateway, source, 28 + quote, 20))
  {
    var d := Draft(packet, gateway, source, mtu, quote, identification);
    var h := Header(gateway, source, 28 + quote, identification);
    hide Draft, Header, SealedBody, HeaderLength, Word;
    assert forall i :: 0 <= i < 20 ==> d[i] == d[..20][i];
    assert d[12..16] == h[12..16] && d[16..20] == h[16..];
  }

  /**
   Every reply parses, verifies in its IP header and in its ICMP message,
   travels from the gateway to the sender of the packet, names the next-hop
   MTU, and quotes the packet's header and eight bytes.
   */
  lemma {:induction false} ReplyVerifies(packet: Packet, context: IcmpContext, mtu: nat, identification: int)
    requires 0 <= identification < 0x10000
    requires Reply(packet, context, mtu, identification).Ok?
    ensures var r := Reply(packet, context, mtu, identification).value;
      var quote := Parse(packet).value.headerLength + 8;
      && Parse(packet).Ok? && quote <= |packet|
      && Parse(r) == Ok(Ipv4Info(context.gateway, Parse(packet).value.source, 28 + quote, 20))
      && HeaderVerifies(r)
      && InternetChecksum(r[20..]) == 0
      && r[20] == 3 && r[21] == 4 && Word(r[26], r[27]) == mtu
      && r[28..] == packet[..quote]
  {
    var info := Parse(packet).value;
    var quote := info.headerLength + 8;
    hide Refusal, Draft, HeaderLength, Sealed, HeaderVerifies, Parse, SealedBody, Body, InternetChecksum, Word;
    var d := Draft(packet, context.gateway, info.source, mtu, quote, identification);
    BodyVerifies(packet, mtu, quote);
    DraftMeaning(packet, context.gateway, info.source, mtu, quote, identification);
    Fragment.SealedMeaning(d);
    var r := Sealed(d);
    SliceRest(r, 12, 8);
    SliceRest(d, 12, 8);
    SealedParses(d);
    var b := SealedBody(Body(packet, mtu, quote));
    assert r[20..] == b;
    assert r[20] == b[0] && r[21] == b[1] && r[26] == b[6] && r[27] == b[7];
    SliceRest(r, 20, 8);
  }

  /** Sealing changes neither the addresses nor the lengths. */
  lemma {:induction false} SealedParses(d: Packet)
    requires Parse(d).Ok?
    ensures Parse(Sealed(d)) == Parse(d)
  {
    SealedVerifies(d);
    var f := Sealed(d);
    hide Sealed, HeaderVerifies, HeaderLength, Word;
    SameBelow(f, d, 10);
    SliceSlice(f, 12, 0, 4);
    SliceSlice(d, 12, 0, 4);
    SliceSlice(f, 12, 4, 8);
    SliceSlice(d, 12, 4, 8);
  }
}
