/**
 The two-byte length framing of rust/porta-wire/src/frame.rs and of the HTTP/2
 lanes in rust/porta-client/src/tunnel/h2.rs.
 */
module Frames {
  import opened Bytes
  import opened Ipv4
  import opened Streams

  const MAX_PACKET_SIZE := 65535

  datatype FrameError =
    | TooLarge
    | EndOfStream
    | UnexpectedEndOfStream
    | ReadPayloadEndOfStream
    | ReadPayloadUnexpectedEndOfStream
    | ShortWrite
    | Io
    | ReadPayload

  predicate Framable(packet: Packet) {
    |packet| <= MAX_PACKET_SIZE
  }

  function Frame(packet: Packet): Data {
    if Framable(packet) then [Hi(|packet|), Lo(|packet|)] + packet else []
  }

  /** The next frame of a buffer. */
  function TakeFrame(b: Data): Step<Packet> {
    if |b| < 2 then More
    else
      var n := Word(b[0], b[1]);
      if |b| < n + 2 then More else Item(b[2..n + 2], n + 2)
  }

  lemma {:induction false} TakeFrameIsStable()
    ensures Stable(TakeFrame) && TakeFrame([]).More?
  {
    forall b: Data, more: Data | !TakeFrame(b).More?
      ensures TakeFrame(b + more) == TakeFrame(b)
    {
      var n := Word(b[0], b[1]);
      assert (b + more)[2..n + 2] == b[2..n + 2];
    }
  }

  lemma {:induction false} TakeFramed(packet: Packet, rest: Data)
    requires Framable(packet)
    ensures TakeFrame(Frame(packet) + rest) == Item(packet, |Frame(packet)|)
  {
    var b := Frame(packet) + rest;
    assert b[2..|packet| + 2] == packet;
  }

  /** Frames written one after another and cut anywhere are read back as they were. */
  lemma {:induction false} FramesReadBack(packets: seq<Packet>, chunks: seq<Data>)
    requires forall i :: 0 <= i < |packets| ==> Framable(packets[i])
    requires Joined(chunks) == EncodeAll(Frame, packets)
    ensures Stable(TakeFrame) && FeedAll(TakeFrame, chunks) == Drained(packets, [], false)
  {
    TakeFrameIsStable();
    forall packet: Packet, rest: Data | Framable(packet)
      ensures TakeFrame(Frame(packet) + rest) == Item(packet, |Frame(packet)|)
    {
      TakeFramed(packet, rest);
    }
    hide TakeFrame, Frame, Framable;
    assert Inverts(TakeFrame, Frame, Framable);
    ReadBack(TakeFrame, Frame, Framable, packets, chunks);
  }

  lemma {:induction false} EncodeNext(batch: seq<Packet>, i: nat)
    requires i < |batch|
    ensures EncodeAll(Frame, batch[i..]) == Frame(batch[i]) + EncodeAll(Frame, batch[i + 1..])
  {
    assert batch[i..][1..] == batch[i + 1..];
  }

  lemma {:induction false} EncodeEnd(batch: seq<Packet>, framed: Data)
    ensures framed + EncodeAll(Frame, batch[|batch|..]) == framed
  {
  }

  /** upload_lane frames a whole batch, or refuses it for one packet that is too long. */
  method FrameBatch(batch: seq<Packet>) returns (r: Result<Data, FrameError>)
    ensures r.Ok? <==> forall i :: 0 <= i < |batch| ==> Framable(batch[i])
    ensures r.Ok? ==> r.value == EncodeAll(Frame, batch)
  {
    hide EncodeAll;
    var framed: Data := [];
    assert batch[0..] == batch && framed + EncodeAll(Frame, batch) == EncodeAll(Frame, batch);
    for i := 0 to |batch|
      invariant forall j :: 0 <= j < i ==> Framable(batch[j])
      invariant framed + EncodeAll(Frame, batch[i..]) == EncodeAll(Frame, batch)
    {
      var packet := batch[i];
      if |packet| > MAX_PACKET_SIZE {
        return Err(TooLarge);
      }
      EncodeNext(batch, i);
      ConcatAssociates(framed, Frame(packet), EncodeAll(Frame, batch[i + 1..]));
      ConcatAssociates(framed, [Hi(|packet|), Lo(|packet|)], packet);
      framed := framed + [Hi(|packet|), Lo(|packet|)] + packet;
    }
    EncodeEnd(batch, framed);
    return Ok(framed);
  }

  // download_lane.

  /** The packets that download_lane passes on: not empty, within the lease MTU, valid IPv4 and for this client. */
  predicate Wanted(packet: Packet, mtu: nat, address: seq<byte>) {
    packet != [] && |packet| <= mtu && Parse(packet).Ok? && Parse(packet).value.destination == address
  }

  function Sift(packets: seq<Packet>, mtu: nat, address: seq<byte>): (r: seq<Packet>)
    ensures forall i :: 0 <= i < |r| ==> Wanted(r[i], mtu, address)
  {
    if packets == [] then []
    else
      var rest, last := Sift(packets[..|packets| - 1], mtu, address), packets[|packets| - 1];
      rest + if Wanted(last, mtu, address) then [last] else []
  }

  lemma {:induction false} SiftMore(packets: seq<Packet>, packet: Packet, mtu: nat, address: seq<byte>)
    ensures Sift(packets + [packet], mtu, address) ==
      Sift(packets, mtu, address) + if Wanted(packet, mtu, address) then [packet] else []
  {
    assert (packets + [packet])[..|packets|] == packets;
  }

  class LaneReader {
    const mtu: nat
    const address: seq<byte>
    var framed: Data
    ghost var frames: seq<Packet>
    ghost var handed: seq<Packet>
    ghost var chunks: seq<Data>

    /** The wanted packets of all complete frames were handed out, whatever the chunks. */
    ghost predicate Valid()
      reads this
    {
      && Stable(TakeFrame)
      && Drained(frames, framed, false) == Drain(TakeFrame, Joined(chunks))
      && handed == Sift(frames, mtu, address)
    }

    constructor (mtu: nat, address: seq<byte>)
      ensures Valid() && handed == [] && chunks == [] && this.mtu == mtu && this.address == address
    {
      this.mtu := mtu;
      this.address := address;
      framed := [];
      frames := [];
      handed := [];
      chunks := [];
      new;
      TakeFrameIsStable();
      DrainStep(TakeFrame, []);
    }

    method Feed(chunk: Data) returns (out: seq<Packet>)
      requires Valid()
      modifies this
      ensures Valid() && chunks == old(chunks) + [chunk] && handed == old(handed) + out
    {
      hide TakeFrame, Drain, Stable, Sift, Wanted;
      ghost var all := Joined(chunks);
      assert Joined(chunks + [chunk]) == all + chunk by {
        assert (chunks + [chunk])[..|chunks|] == chunks;
      }
      DrainInTwo(TakeFrame, all, chunk);
      chunks := chunks + [chunk];
      framed := framed + chunk;
      ghost var whole := Drain(TakeFrame, framed);
      ghost var before, taken := frames, [];
      out := [];
      assert [] + whole.items == whole.items && before + [] == before;
      while true
        invariant whole.items == taken + Drain(TakeFrame, framed).items
        invariant whole.rest == Drain(TakeFrame, framed).rest && whole.broken == Drain(TakeFrame, framed).broken
        invariant frames == before + taken && handed == old(handed) + out && handed == Sift(frames, mtu, address)
        invariant chunks == old(chunks) + [chunk]
        decreases |framed|
      {
        DrainStep(TakeFrame, framed);
        NeverBroken(framed);
        if TakeFrame(framed).More? {
          break;
        }
        var packet, used := TakeFrame(framed).value, TakeFrame(framed).used;
        ConcatAssociates(taken, [packet], Drain(TakeFrame, framed[used..]).items);
        ConcatAssociates(before, taken, [packet]);
        SiftMore(frames, packet, mtu, address);
        framed := framed[used..];
        taken := taken + [packet];
        frames := frames + [packet];
        if !Wanted(packet, mtu, address) {
          continue;
        }
        ConcatAssociates(old(handed), out, [packet]);
        out := out + [packet];
        handed := handed + [packet];
      }
    }
  }

  lemma {:induction false} NeverBroken(b: Data)
    ensures !TakeFrame(b).Broken?
  {
  }

  lemma {:induction false} Advance(all: Data, i: nat, k: nat)
    requires i + k <= |all|
    ensures all[i..][..k] == all[i..i + k] && all[i..][k..] == all[i + k..] && all[..i + k] == all[..i] + all[i..i + k]
  {
  }

  // The blocking reader and writer, with short reads and writes.

  /** How one read or write call goes: it moves at most so many bytes, is interrupted, or fails. */
  datatype Event = Moves(limit: nat) | Interrupted | Fails

  /** How reading a frame ends when the bytes run out. */
  function EndError(data: Data): FrameError {
    if data == [] then EndOfStream
    else if |data| == 1 then UnexpectedEndOfStream
    else if |data| == 2 then ReadPayloadEndOfStream
    else ReadPayloadUnexpectedEndOfStream
  }

  ghost predicate Unfailing(script: seq<Event>) {
    forall i :: 0 <= i < |script| ==> script[i] != Fails
  }

  /** A byte stream; the script says how its next calls go, and after it each call moves all it can. */
  class Stream {
    var data: Data
    var script: seq<Event>

    constructor (data: Data, script: seq<Event>)
      ensures this.data == data && this.script == script
    {
      this.data := data;
      this.script := script;
    }

    method Next() returns (e: Event)
      modifies this`script
      ensures old(script) == [] ==> script == [] && e.Moves? && e.limit >= MAX_PACKET_SIZE
      ensures old(script) != [] ==> e == old(script)[0] && script == old(script)[1..]
    {
      if script == [] {
        return Moves(MAX_PACKET_SIZE);
      }
      e := script[0];
      script := script[1..];
    }

    /** Reads `n` bytes over as many calls as it takes. */
    method ReadFull(n: nat, none: FrameError, short: FrameError, failure: FrameError)
      returns (r: Result<Data, FrameError>)
      requires n <= MAX_PACKET_SIZE
      modifies this
      ensures r.Ok? ==> n <= |old(data)| && r.value == old(data)[..n] && data == old(data)[n..]
      ensures r.Ok? ==> (Unfailing(old(script)) ==> Unfailing(script))
      ensures Unfailing(old(script)) ==> (r.Ok? <==> n <= |old(data)|)
      ensures Unfailing(old(script)) && r.Err? ==> r.error == if old(data) == [] then none else short
    {
      var got: Data := [];
      ghost var all := data;
      assert all[..0] == [] && all[0..] == all;
      while |got| < n
        invariant |got| <= |all| && |got| <= n && got == all[..|got|] && data == all[|got|..]
        invariant Unfailing(old(script)) ==> Unfailing(script)
        decreases |script|, n - |got|
      {
        ghost var were := script;
        var e := Next();
        if e == Interrupted {
          continue;
        }
        if e == Fails {
          assert !Unfailing(were);
          return Err(failure);
        }
        var k := Min(Max(1, e.limit), Min(n - |got|, |data|));
        if k == 0 {
          return Err(if got == [] then none else short);
        }
        Advance(all, |got|, k);
        got := got + data[..k];
        data := data[k..];
      }
      return Ok(got);
    }

    /** Reads one packet; without an I/O failure it is the next frame, however short the reads. */
    method ReadPacket() returns (r: Result<Packet, FrameError>)
      modifies this
      ensures r.Ok? ==> TakeFrame(old(data)) == Item(r.value, |r.value| + 2) && data == old(data)[|r.value| + 2..]
      ensures Unfailing(old(script)) ==> (r.Ok? <==> TakeFrame(old(data)).Item?)
      ensures Unfailing(old(script)) && r.Err? ==> r.error == EndError(old(data))
    {
      var header := ReadFull(2, EndOfStream, UnexpectedEndOfStream, Io);
      if header.Err? {
        return Err(header.error);
      }
      var size := Word(header.value[0], header.value[1]);
      var payload := ReadFull(size, ReadPayloadEndOfStream, ReadPayloadUnexpectedEndOfStream, ReadPayload);
      if payload.Err? {
        return payload;
      }
      assert old(data)[2..][..size] == old(data)[2..size + 2];
      return payload;
    }

    /** Writes all bytes over as many calls as it takes; a failure leaves a prefix. */
    method WriteAll(bytes: Data) returns (r: Result<(), FrameError>)
      requires |bytes| <= MAX_PACKET_SIZE
      modifies this
      ensures r.Ok? ==> data == old(data) + bytes
      ensures r.Ok? ==> (NoStall(old(script)) ==> NoStall(script))
      ensures NoStall(old(script)) ==> r.Ok?
      ensures exists k :: 0 <= k <= |bytes| && data == old(data) + bytes[..k]
    {
      var rest := bytes;
      ghost var k := 0;
      assert bytes[..0] == [] && data + [] == data;
      while rest != []
        invariant 0 <= k <= |bytes| && rest == bytes[k..] && data == old(data) + bytes[..k]
        invariant NoStall(old(script)) ==> NoStall(script)
        decreases |script|, |rest|
      {
        ghost var were := script;
        var e := Next();
        if e == Interrupted {
          continue;
        }
        if e == Fails || e.limit == 0 {
          assert !NoStall(were);
          return Err(if e == Fails then Io else ShortWrite);
        }
        var n := Min(e.limit, |rest|);
        assert bytes[..k + n] == bytes[..k] + rest[..n];
        ConcatAssociates(old(data), bytes[..k], rest[..n]);
        data := data + rest[..n];
        rest := rest[n..];
        k := k + n;
      }
      assert bytes[..|bytes|] == bytes;
      return Ok(());
    }

    /** Writes one packet; without a failed or stalled write the stream grows by its frame. */
    method WritePacket(packet: Packet) returns (r: Result<(), FrameError>)
      modifies this
      ensures r.Ok? ==> Framable(packet) && data == old(data) + Frame(packet)
      ensures !Framable(packet) ==> r == Err(TooLarge) && data == old(data)
      ensures Framable(packet) && NoStall(old(script)) ==> r.Ok?
      ensures exists k :: 0 <= k <= |Frame(packet)| && data == old(data) + Frame(packet)[..k]
    {
      if |packet| > MAX_PACKET_SIZE {
        assert old(data) + Frame(packet)[..0] == old(data);
        return Err(TooLarge);
      }
      var header := [Hi(|packet|), Lo(|packet|)];
      r := WriteAll(header);
      ghost var k :| 0 <= k <= |header| && data == old(data) + header[..k];
      assert Frame(packet)[..k] == header[..k];
      if r.Ok? {
        r := WriteAll(packet);
        k :| 0 <= k <= |packet| && data == old(data) + header + packet[..k];
        PrefixBehind(old(data), header, packet, k);
        assert packet[..|packet|] == packet;
      }
    }
  }

  lemma {:induction false} PrefixBehind(before: Data, header: Data, packet: Data, k: nat)
    requires k <= |packet|
    ensures before + header + packet[..k] == before + (header + packet)[..|header| + k]
    ensures before + header + packet == before + (header + packet)
  {
    assert (header + packet)[..|header| + k] == header + packet[..k];
  }

  ghost predicate NoStall(script: seq<Event>) {
    forall i :: 0 <= i < |script| ==> script[i] != Fails && script[i] != Moves(0)
  }
}
