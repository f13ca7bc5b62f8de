/** IPv4 header parsing and the header checksum of rust/porta-wire/src/ip.rs. */
module Ipv4 {
  import opened Bytes
  import opened Checksum

  type Packet = seq<byte>

  datatype Ipv4Error = NotIpv4 | ShortHeader | InvalidLength(declared: nat, actual: nat)

  datatype Ipv4Info = Ipv4Info(source: seq<byte>, destination: seq<byte>, totalLength: nat, headerLength: nat)

  function HeaderLength(p: Packet): (r: Result<nat, Ipv4Error>)
    ensures r.Ok? ==> 20 <= r.value <= 60 && r.value <= |p| && r.value % 4 == 0 && p[0] == 0x40 + r.value / 4
  {
    if |p| < 20 then Err(ShortHeader)
    else if p[0] / 16 != 4 then Err(NotIpv4)
    else
      var n := p[0] % 16 * 4;
      if n < 20 || n > |p| then Err(ShortHeader) else Ok(n)
  }

  function Parse(p: Packet): (r: Result<Ipv4Info, Ipv4Error>)
    ensures r.Ok? ==>
      && HeaderLength(p) == Ok(r.value.headerLength)
      && r.value.totalLength == |p| == Word(p[2], p[3])
      && |r.value.source| == |r.value.destination| == 4
  {
    var header := HeaderLength(p);
    if header.Err? then Err(header.error)
    else
      var total := Word(p[2], p[3]);
      if total < header.value || total != |p| then Err(InvalidLength(total, |p|))
      else Ok(Ipv4Info(p[12..16], p[16..20], total, header.value))
  }

  /** Exactly which packets parse, and why the others do not. */
  lemma {:induction false} ParsesIff(p: Packet)
    ensures Parse(p).Ok? <==> HeaderLength(p).Ok? && Word(p[2], p[3]) == |p|
    ensures Parse(p).Ok? ==> Parse(p).value == Ipv4Info(p[12..16], p[16..20], |p|, HeaderLength(p).value)
    ensures HeaderLength(p).Err? ==> Parse(p) == Err(HeaderLength(p).error)
    ensures Parse(p).Err? && HeaderLength(p).Ok? ==> Parse(p) == Err(InvalidLength(Word(p[2], p[3]), |p|))
    ensures HeaderLength(p).Ok? <==> |p| >= 20 && p[0] / 16 == 4 && 20 <= p[0] % 16 * 4 <= |p|
    ensures HeaderLength(p).Err? ==> HeaderLength(p).error == if |p| >= 20 && p[0] / 16 != 4 then NotIpv4 else ShortHeader
  {
    hide Word;
  }

  /** `p` with its header checksum recomputed over a zeroed field. */
  function Sealed(p: Packet): (r: Packet)
    requires HeaderLength(p).Ok?
    ensures |r| == |p| && r[..10] == p[..10] && r[12..] == p[12..]
  {
    WithWord(p, 10, InternetChecksum(WithWord(p, 10, 0)[..HeaderLength(p).value]))
  }

  predicate HeaderVerifies(p: Packet) {
    HeaderLength(p).Ok? && InternetChecksum(p[..HeaderLength(p).value]) == 0
  }

  /** The write of set_ipv4_header_checksum, in place. */
  method SetHeaderChecksum(a: array<byte>) returns (r: Result<(), Ipv4Error>)
    modifies a
    ensures r.Ok? <==> HeaderLength(old(a[..])).Ok?
    ensures r.Ok? ==> a[..] == Sealed(old(a[..]))
    ensures r.Err? ==> a[..] == old(a[..]) && r.error == HeaderLength(a[..]).error
  {
    var header := HeaderLength(a[..]);
    if header.Err? {
      return Err(header.error);
    }
    ghost var p := a[..];
    a[10] := 0;
    a[11] := 0;
    assert a[..] == WithWord(p, 10, 0);
    assert a[..header.value] == a[..][..header.value];
    var c := ComputeChecksum(a[..header.value]);
    a[10] := Hi(c);
    a[11] := Lo(c);
    r := Ok(());
  }

  /** Sealing makes every header verify, whatever the field held before. */
  lemma {:induction false} SealedVerifies(p: Packet)
    requires HeaderLength(p).Ok?
    ensures HeaderLength(Sealed(p)) == HeaderLength(p)
    ensures HeaderVerifies(Sealed(p))
  {
    var n := HeaderLength(p).value;
    var header := p[..n];
    assert WithWord(p, 10, 0)[..n] == WithWord(header, 10, 0);
    var c := InternetChecksum(WithWord(header, 10, 0));
    assert Sealed(p)[..n] == WithWord(header, 10, c);
    ChecksumVerifies(header, 10);
    assert Sealed(p)[0] == Sealed(p)[..10][0] == p[0];
  }

  lemma {:induction false} PositiveSum(data: seq<byte>)
    requires |data| >= 2 && data[0] > 0
    ensures WordSum(data) > 0
  {
  }

  lemma {:induction false} OwnWord(data: seq<byte>, at: nat)
    requires at + 2 <= |data|
    ensures WithWord(data, at, Word(data[at], data[at + 1])) == data
  {
    var c := Word(data[at], data[at + 1]);
    assert Hi(c) == data[at] && Lo(c) == data[at + 1];
  }

  lemma {:induction false} WordOfWord(data: seq<byte>, at: nat, c: int)
    requires at + 2 <= |data| && 0 <= c < 0x10000
    ensures Word(WithWord(data, at, c)[at], WithWord(data, at, c)[at + 1]) == c
  {
    hide WithWord;
  }

  /** The field that sealing writes, seen in the header alone. */
  lemma {:induction false} SealedField(p: Packet)
    requires HeaderLength(p).Ok?
    ensures var header := p[..HeaderLength(p).value];
      && Sealed(p) == WithWord(p, 10, InternetChecksum(WithWord(header, 10, 0)))
      && header[10] == p[10] && header[11] == p[11]
      && WordSum(WithWord(header, 10, 0)) > 0
  {
    hide InternetChecksum, Word;
    var n := HeaderLength(p).value;
    assert WithWord(p, 10, 0)[..n] == WithWord(p[..n], 10, 0);
    assert WithWord(p[..n], 10, 0)[0] == p[0];
    PositiveSum(WithWord(p[..n], 10, 0));
  }

  /** What sealing writes over a verifying field: the same, or zero over 0xffff. */
  lemma {:induction false} SealedOver(p: Packet) returns (c: int)
    requires HeaderVerifies(p)
    ensures |p| >= 20 && 0 <= c < 0x10000 && Sealed(p) == WithWord(p, 10, c)
    ensures c == Word(p[10], p[11]) || Word(p[10], p[11]) == 0xffff
    ensures Word(p[10], p[11]) == 0xffff ==> c == 0
  {
    var header := p[..HeaderLength(p).value];
    SealedField(p);
    OwnWord(header, 10);
    hide *;
    VerifyingFieldIsUnique(header, 10, Word(p[10], p[11]));
    c := InternetChecksum(WithWord(header, 10, 0));
  }

  /** A verifying packet is a fixed point of sealing unless its field is 0xffff. */
  lemma {:induction false} SealingIsExact(p: Packet)
    requires HeaderVerifies(p)
    ensures Sealed(p) == p <==> Word(p[10], p[11]) != 0xffff
  {
    hide *;
    var c := SealedOver(p);
    OwnWord(p, 10);
    WordOfWord(p, 10, c);
  }

  // The fragmentation word of a header (RFC 791, section 3.1).

  function Flags(p: Packet): (w: int)
    requires |p| >= 20
    ensures 0 <= w < 0x10000
  {
    Word(p[6], p[7])
  }

  predicate Reserved(p: Packet)
    requires |p| >= 20
  {
    Flags(p) / 0x8000 % 2 == 1
  }

  predicate DontFragment(p: Packet)
    requires |p| >= 20
  {
    Flags(p) / 0x4000 % 2 == 1
  }

  predicate MoreFragments(p: Packet)
    requires |p| >= 20
  {
    Flags(p) / 0x2000 % 2 == 1
  }

  function Offset(p: Packet): (n: nat)
    requires |p| >= 20
  {
    Flags(p) % 0x2000 * 8
  }

  function Payload(p: Packet): (s: seq<byte>)
    requires HeaderLength(p).Ok?
  {
    p[HeaderLength(p).value..]
  }
}
