/** classify_ipv4 of rust/porta-wire/src/ip.rs: traffic classes and flow keys. */
module Classify {
  import opened Bytes
  import opened Ipv4

  datatype PacketClass = Tcp | Datagram | Control

  datatype FlowKey = FlowKey(source: seq<byte>, destination: seq<byte>, sourcePort: int, destinationPort: int,
                             fragmentId: int, protocol: byte, fragmented: bool)

  datatype Metadata = Metadata(kind: PacketClass, flow: FlowKey)

  const NO_FLOW := FlowKey([0, 0, 0, 0], [0, 0, 0, 0], 0, 0, 0, 0, false)

  /** An acknowledgement without payload, and without FIN, SYN or RST. */
  predicate TcpAckOnly(p: Packet, header: nat) {
    if |p| < header + 20 then false
    else
      var tcp := p[header + 12] / 16 * 4;
      var flags := p[header + 13];
      tcp >= 20 && |p| >= header + tcp && flags / 16 % 2 == 1 && flags % 8 == 0 && |p| == header + tcp
  }

  function Classify(p: Packet): Metadata {
    var header := HeaderLength(p);
    if header.Err? then Metadata(Datagram, NO_FLOW)
    else
      var n := header.value;
      var fragmented := Flags(p) % 0x4000 != 0;
      var hasPorts := !fragmented && (p[9] == 6 || p[9] == 17) && |p| >= n + 4;
      var from := if hasPorts then Word(p[n], p[n + 1]) else 0;
      var to := if hasPorts then Word(p[n + 2], p[n + 3]) else 0;
      var dns := hasPorts && (from == 53 || to == 53);
      var kind :=
        if p[9] == 1 then Control
        else if p[9] == 6 then if dns || (hasPorts && TcpAckOnly(p, n)) then Control else Tcp
        else if p[9] == 17 && hasPorts && (dns || |p| <= 256) then Control
        else Datagram;
      var id := if fragmented then Word(p[4], p[5]) else 0;
      Metadata(kind, FlowKey(p[12..16], p[16..20], from, to, id, p[9], fragmented))
  }
}
