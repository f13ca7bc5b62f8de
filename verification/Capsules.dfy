/**
 Capsules, section 3.2 of RFC 9297: the encoder and one-shot decoder of
 rust/porta-wire/src/masque.rs and the incremental reader of
 rust/porta-client/src/tunnel/h3.rs.
 */
module Capsules {
  import opened Bytes
  import opened Streams
  import opened Varint

  const MAX_CAPSULE_SIZE := 0x10_0000
  const CAPSULE_DATAGRAM := 0

  datatype Capsule = Capsule(kind: nat, value: Data)

  datatype WriteError = CapsuleTooLarge | KindTooLarge

  datatype ReadError = NoKind | NoLength | TooLong | NoValue

  datatype PacketError = BadContext | UnknownContext(id: nat) | EmptyIpDatagram

  /** The bytes of a capsule: kind, length and value. */
  function Write(kind: nat, value: Data): Result<Data, WriteError> {
    if |value| > MAX_CAPSULE_SIZE then Err(CapsuleTooLarge)
    else
      var first, second := EncodeVarint(kind), EncodeVarint(|value|);
      if first.Err? || second.Err? then Err(KindTooLarge) else Ok(first.value + second.value + value)
  }

  /** The specialised form for an IP packet: the context byte is written with the header. */
  function WriteIpPacket(packet: Data): Result<Data, WriteError> {
    if |packet| >= MAX_CAPSULE_SIZE then Err(CapsuleTooLarge)
    else
      var first, second := EncodeVarint(CAPSULE_DATAGRAM), EncodeVarint(|packet| + 1);
      if first.Err? || second.Err? then Err(KindTooLarge) else Ok(first.value + second.value + [0] + packet)
  }

  function EncodeIpPacket(packet: Data): Data {
    [0] + packet
  }

  function DecodeIpPacket(value: Data): Result<Data, PacketError> {
    var context := ParseVarint(value);
    if context.Err? then Err(BadContext)
    else if context.value.0 != 0 then Err(UnknownContext(context.value.0))
    else if |value| == context.value.1 then Err(EmptyIpDatagram)
    else Ok(value[context.value.1..])
  }

  /** The next capsule of a buffer. */
  function TakeCapsule(b: Data): Step<Capsule> {
    var kind := ParseVarint(b);
    if kind.Err? then More
    else
      var length := ParseVarint(b[kind.value.1..]);
      if length.Err? then More
      else if length.value.0 > MAX_CAPSULE_SIZE then Broken
      else
        var header := kind.value.1 + length.value.1;
        if |b| < header + length.value.0 then More
        else Item(Capsule(kind.value.0, b[header..header + length.value.0]), header + length.value.0)
  }

  /** The one-shot decoder over a reader that holds `data`: a capsule and what is left. */
  function Read(data: Data): Result<(Capsule, Data), ReadError> {
    var kind := ReadVarint(data);
    if kind.None? then Err(NoKind)
    else
      var length := ReadVarint(kind.value.1);
      if length.None? then Err(NoLength)
      else if length.value.0 > MAX_CAPSULE_SIZE then Err(TooLong)
      else
        var body := length.value.1;
        if |body| < length.value.0 then Err(NoValue)
        else Ok((Capsule(kind.value.0, body[..length.value.0]), body[length.value.0..]))
  }

  /** The two decoders agree: same capsule and rest, same refusal, and end of input where the other waits. */
  lemma {:induction false} ReadersAgree(b: Data)
    ensures TakeCapsule(b).Item? <==> Read(b).Ok?
    ensures TakeCapsule(b).Item? ==>
      && 0 < TakeCapsule(b).used <= |b|
      && Read(b) == Ok((TakeCapsule(b).value, b[TakeCapsule(b).used..]))
    ensures TakeCapsule(b).Broken? <==> Read(b) == Err(TooLong)
  {
    hide ParseVarint, ReadVarint, TakeCapsule, Read;
    ReadVarintIsParse(b);
    TakeNeedsHeader(b);
    ReadNeedsHeader(b);
    if ParseVarint(b).Ok? {
      var k := ParseVarint(b).value.1;
      var rest := b[k..];
      ReadVarintIsParse(rest);
      if ParseVarint(rest).Ok? {
        var l, n := ParseVarint(rest).value.1, ParseVarint(rest).value.0;
        TakeParts(b, k, ParseVarint(b).value.0, l, n);
        assert rest[l..] == b[k + l..];
        ReadParts(b, ParseVarint(b).value.0, rest, n, b[k + l..]);
        if |b| >= k + l + n {
          assert b[k + l..][..n] == b[k + l..k + l + n] && b[k + l..][n..] == b[k + l + n..];
        }
      }
    }
  }

  lemma {:induction false} ReadNeedsHeader(data: Data)
    ensures Read(data).Ok? || Read(data) == Err(TooLong) ==>
      ReadVarint(data).Some? && ReadVarint(ReadVarint(data).value.1).Some?
  {
    hide ReadVarint;
  }

  lemma {:induction false} ReadParts(data: Data, kind: nat, rest: Data, n: nat, body: Data)
    requires ReadVarint(data) == Some((kind, rest)) && ReadVarint(rest) == Some((n, body))
    ensures n > MAX_CAPSULE_SIZE ==> Read(data) == Err(TooLong)
    ensures n <= MAX_CAPSULE_SIZE && |body| < n ==> Read(data) == Err(NoValue)
    ensures n <= MAX_CAPSULE_SIZE && |body| >= n ==> Read(data) == Ok((Capsule(kind, body[..n]), body[n..]))
  {
    hide ReadVarint;
  }

  /** The specialised writer equals the general one on the encoded packet, refusals included. */
  lemma {:induction false} WriteIpPacketIsWrite(packet: Data)
    ensures WriteIpPacket(packet) == Write(CAPSULE_DATAGRAM, EncodeIpPacket(packet))
  {
    hide EncodeVarint;
    var first, second := EncodeVarint(CAPSULE_DATAGRAM), EncodeVarint(|packet| + 1);
    if first.Ok? && second.Ok? {
      ConcatAssociates(first.value + second.value, [0], packet);
    }
  }

  /** A packet survives the context byte unless it is empty. */
  lemma {:induction false} IpPacketRoundTrip(packet: Data)
    ensures DecodeIpPacket(EncodeIpPacket(packet)) == if packet == [] then Err(EmptyIpDatagram) else Ok(packet)
  {
    var value := EncodeIpPacket(packet);
    assert value[0] == 0 && value[1..1] == [];
    assert [0] + value[1..1] == [0];
    assert Value([0]) == 0 by {
      assert [0][..0] == [];
    }
    assert value[1..] == packet;
  }

  /** Where the parts of a capsule stand. */
  lemma {:induction false} TakeParts(b: Data, i: nat, kind: nat, j: nat, n: nat)
    requires ParseVarint(b) == Ok((kind, i)) && i <= |b| && ParseVarint(b[i..]) == Ok((n, j))
    ensures n > MAX_CAPSULE_SIZE ==> TakeCapsule(b) == Broken
    ensures n <= MAX_CAPSULE_SIZE && |b| < i + j + n ==> TakeCapsule(b) == More
    ensures n <= MAX_CAPSULE_SIZE && |b| >= i + j + n ==>
      TakeCapsule(b) == Item(Capsule(kind, b[i + j..i + j + n]), i + j + n)
  {
    hide ParseVarint;
  }

  lemma {:induction false} TakeNeedsHeader(b: Data)
    ensures !TakeCapsule(b).More? ==> ParseVarint(b).Ok? && ParseVarint(b[ParseVarint(b).value.1..]).Ok?
  {
    hide ParseVarint;
  }

  lemma {:induction false} CapsuleStable(b: Data, more: Data)
    ensures TakeCapsule(b).Item? ==> 0 < TakeCapsule(b).used <= |b|
    ensures !TakeCapsule(b).More? ==> TakeCapsule(b + more) == TakeCapsule(b)
  {
    hide TakeCapsule, ParseVarint;
    TakeNeedsHeader(b);
    if !TakeCapsule(b).More? {
      ParseExtends(b, more);
      var kind, i := ParseVarint(b).value.0, ParseVarint(b).value.1;
      ParseExtends(b[i..], more);
      var n, j := ParseVarint(b[i..]).value.0, ParseVarint(b[i..]).value.1;
      TakeParts(b, i, kind, j, n);
      assert (b + more)[i..] == b[i..] + more;
      TakeParts(b + more, i, kind, j, n);
      if |b| >= i + j + n {
        assert (b + more)[i + j..i + j + n] == b[i + j..i + j + n];
      }
    }
  }

  lemma {:induction false} TakeCapsuleIsStable()
    ensures Stable(TakeCapsule) && TakeCapsule([]).More?
  {
    forall b: Data, more: Data
      ensures TakeCapsule(b).Item? ==> 0 < TakeCapsule(b).used <= |b|
      ensures !TakeCapsule(b).More? ==> TakeCapsule(b + more) == TakeCapsule(b)
    {
      CapsuleStable(b, more);
    }
  }

  // Round trip.

  predicate Writable(c: Capsule) {
    Write(c.kind, c.value).Ok?
  }

  function Encoded(c: Capsule): Data {
    if Writable(c) then Write(c.kind, c.value).value else []
  }

  /** What can be written: a 62-bit kind and a value within the limit. */
  lemma {:induction false} WritableIff(c: Capsule)
    ensures Writable(c) <==> c.kind <= MAX_QUIC_VARINT && |c.value| <= MAX_CAPSULE_SIZE
  {
  }

  lemma {:induction false} TakeWritten(c: Capsule, rest: Data)
    requires Writable(c)
    ensures TakeCapsule(Encoded(c) + rest) == Item(c, |Encoded(c)|)
  {
    var n := |c.value|;
    var kind, length := Tagged(c.kind, TagOf(c.kind)), Tagged(n, TagOf(n));
    assert Encoded(c) == kind + length + c.value;
    var body := c.value + rest;
    ParseTagged(c.kind, TagOf(c.kind), length + body);
    ParseTagged(n, TagOf(n), body);
    hide ParseVarint, Tagged, TagOf, TakeCapsule, Encoded, LengthOf, Writable;
    var b := Encoded(c) + rest;
    ConcatAssociates(kind + length, c.value, rest);
    ConcatAssociates(kind, length, body);
    assert b[|kind|..] == length + body;
    TakeParts(b, |kind|, c.kind, |length|, n);
    assert b[|kind| + |length|..] == body;
    assert b[|kind| + |length|..|kind| + |length| + n] == c.value;
  }

  /** Capsules written one after another and cut anywhere are read back as they were. */
  lemma {:induction false} CapsulesReadBack(xs: seq<Capsule>, chunks: seq<Data>)
    requires forall i :: 0 <= i < |xs| ==> Writable(xs[i])
    requires Joined(chunks) == EncodeAll(Encoded, xs)
    ensures Stable(TakeCapsule) && FeedAll(TakeCapsule, chunks) == Drained(xs, [], false)
  {
    TakeCapsuleIsStable();
    forall c: Capsule, rest: Data | Writable(c)
      ensures TakeCapsule(Encoded(c) + rest) == Item(c, |Encoded(c)|)
    {
      TakeWritten(c, rest);
    }
    hide TakeCapsule, Encoded, Writable;
    assert Inverts(TakeCapsule, Encoded, Writable);
    ReadBack(TakeCapsule, Encoded, Writable, xs, chunks);
  }

  // The reader task.

  class CapsuleReader {
    var buffer: Data
    var broken: bool
    ghost var handed: seq<Capsule>
    ghost var chunks: seq<Data>

    /** What was handed out so far, and what is kept, is a function of the bytes alone. */
    ghost predicate Valid()
      reads this
    {
      && Stable(TakeCapsule)
      && handed == Drain(TakeCapsule, Joined(chunks)).items
      && broken == Drain(TakeCapsule, Joined(chunks)).broken
      && (!broken ==> buffer == Drain(TakeCapsule, Joined(chunks)).rest)
    }

    constructor ()
      ensures Valid() && handed == [] && chunks == []
    {
      buffer := [];
      broken := false;
      handed := [];
      chunks := [];
      new;
      TakeCapsuleIsStable();
      DrainStep(TakeCapsule, []);
    }

    /** Adds a chunk and hands out every capsule that is now complete. */
    method Feed(chunk: Data) returns (out: seq<Capsule>)
      requires Valid() && !broken
      modifies this
      ensures Valid() && chunks == old(chunks) + [chunk] && handed == old(handed) + out
    {
      hide TakeCapsule, Drain, Stable;
      ghost var all := Joined(chunks);
      JoinedMore(chunks, chunk);
      DrainInTwo(TakeCapsule, all, chunk);
      chunks := chunks + [chunk];
      buffer := buffer + chunk;
      out := TakeAll();
      handed := handed + out;
    }

    method TakeAll() returns (out: seq<Capsule>)
      requires Stable(TakeCapsule) && !broken
      modifies this`buffer, this`broken
      ensures Drain(TakeCapsule, old(buffer)) == Drained(out, buffer, broken)
    {
      hide TakeCapsule, Drain, Stable;
      ghost var whole := Drain(TakeCapsule, buffer);
      out := [];
      assert [] + whole.items == whole.items;
      while true
        invariant !broken
        invariant whole.items == out + Drain(TakeCapsule, buffer).items
        invariant whole.rest == Drain(TakeCapsule, buffer).rest && whole.broken == Drain(TakeCapsule, buffer).broken
        decreases |buffer|
      {
        DrainStep(TakeCapsule, buffer);
        match TakeCapsule(buffer)
        case More =>
          return;
        case Broken =>
          broken := true;
          return;
        case Item(value, used) =>
          ConcatAssociates(out, [value], Drain(TakeCapsule, buffer[used..]).items);
          out := out + [value];
          buffer := buffer[used..];
      }
    }
  }

  lemma {:induction false} JoinedMore(chunks: seq<Data>, chunk: Data)
    ensures Joined(chunks + [chunk]) == Joined(chunks) + chunk
  {
    assert (chunks + [chunk])[..|chunks|] == chunks;
  }
}
