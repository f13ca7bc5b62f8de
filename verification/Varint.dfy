/** QUIC variable-length integers, section 16 of RFC 9000, as rust/porta-wire/src/masque.rs codes them. */
module Varint {
  import opened Bytes
  import opened Streams

  const MAX_QUIC_VARINT := 0x3fff_ffff_ffff_ffff

  datatype VarintError = VarIntTooLarge | TruncatedVarInt

  function Power(k: nat): (r: nat)
    ensures r > 0
  {
    if k == 0 then 1 else 256 * Power(k - 1)
  }

  /** The `k` big-endian bytes of a number. */
  function BigEndian(v: nat, k: nat): (r: Data)
    ensures |r| == k
  {
    if k == 0 then [] else BigEndian(v / 256, k - 1) + [v % 256]
  }

  function Value(data: Data): (r: nat)
    ensures r < Power(|data|)
  {
    if data == [] then 0 else 256 * Value(data[..|data| - 1]) + data[|data| - 1]
  }

  lemma {:induction false} ValueOfBigEndian(v: nat, k: nat)
    requires v < Power(k)
    ensures Value(BigEndian(v, k)) == v
  {
    if k > 0 {
      ValueOfBigEndian(v / 256, k - 1);
      assert BigEndian(v, k)[..k - 1] == BigEndian(v / 256, k - 1);
    }
  }

  lemma {:induction false} Digits(v: nat, last: nat)
    requires last < 256
    ensures (256 * v + last) / 256 == v && (256 * v + last) % 256 == last
  {
  }

  lemma {:induction false} BigEndianOfValue(data: Data)
    ensures BigEndian(Value(data), |data|) == data
  {
    if data != [] {
      var front, last := data[..|data| - 1], data[|data| - 1];
      BigEndianOfValue(front);
      Digits(Value(front), last);
      assert front + [last] == data;
    }
  }

  /** The first byte counts in units of the bytes behind it. */
  lemma {:induction false} ValueHead(data: Data)
    requires data != []
    ensures Value(data) == data[0] * Power(|data| - 1) + Value(data[1..])
  {
    var n := |data| - 1;
    if n > 0 {
      ValueHead(data[..n]);
      assert data[1..][..n - 1] == data[..n][1..];
      Regroup(data[0], Power(n - 1), Value(data[..n][1..]), data[n]);
    }
  }

  lemma {:induction false} Regroup(first: int, p: int, rest: int, last: int)
    ensures 256 * (first * p + rest) + last == first * (256 * p) + (256 * rest + last)
  {
  }

  lemma {:induction false} Powers()
    ensures Power(0) == 1 && Power(1) == 0x100 && Power(2) == 0x1_0000 && Power(3) == 0x100_0000
    ensures Power(4) == 0x1_0000_0000 && Power(7) == 0x100_0000_0000_0000 && Power(8) == 0x1_0000_0000_0000_0000
  {
    assert Power(5) == 0x100_0000_0000 && Power(6) == 0x1_0000_0000_0000;
  }

  // The two-bit length tag.

  /** The length announced by a first byte. */
  function LengthOf(tag: nat): (n: nat)
    requires tag < 4
    ensures n in {1, 2, 4, 8}
  {
    if tag == 0 then 1 else if tag == 1 then 2 else if tag == 2 then 4 else 8
  }

  function TagOf(v: nat): (tag: nat)
    requires v <= MAX_QUIC_VARINT
    ensures tag < 4
  {
    if v <= 63 then 0 else if v <= 16_383 then 1 else if v <= 1_073_741_823 then 2 else 3
  }

  /** A number below 64 units of its last bytes leaves the tag bits clear. */
  lemma {:induction false} TagBitsClear(v: nat, tag: nat)
    requires tag < 4
    ensures v < 64 * Power(LengthOf(tag) - 1) ==>
      v < Power(LengthOf(tag)) && BigEndian(v, LengthOf(tag))[0] < 64 && Value(BigEndian(v, LengthOf(tag))) == v
  {
    Powers();
    hide Power;
    var n := LengthOf(tag);
    if v < 64 * Power(n - 1) {
      ValueOfBigEndian(v, n);
      ValueHead(BigEndian(v, n));
    }
  }

  /** Every number has a length that leaves the tag bits clear, and no shorter one does. */
  lemma {:induction false} TagFits(v: nat, tag: nat)
    requires v <= MAX_QUIC_VARINT && tag < 4
    ensures v < 64 * Power(LengthOf(tag) - 1) <==> tag >= TagOf(v)
  {
    Powers();
  }

  function EncodeVarint(v: nat): Result<Data, VarintError> {
    if v > MAX_QUIC_VARINT then Err(VarIntTooLarge) else Ok(Tagged(v, TagOf(v)))
  }

  /** The big-endian bytes with the tag in the two top bits. */
  function Tagged(v: nat, tag: nat): (r: Data)
    requires v <= MAX_QUIC_VARINT && TagOf(v) <= tag < 4
    ensures |r| == LengthOf(tag)
  {
    TagFits(v, tag);
    TagBitsClear(v, tag);
    var data := BigEndian(v, LengthOf(tag));
    data[0 := data[0] + 64 * tag]
  }

  /** A number and how many bytes it took. */
  function ParseVarint(input: Data): (r: Result<(nat, nat), VarintError>)
    ensures r.Ok? ==> 0 < r.value.1 <= |input|
  {
    if input == [] then Err(TruncatedVarInt)
    else
      var n := LengthOf(input[0] / 64);
      if |input| < n then Err(TruncatedVarInt) else Ok((Value([input[0] % 64] + input[1..n]), n))
  }

  /** Clearing the tag bits of a tagged form gives the number's bytes back. */
  lemma {:induction false} Untagged(data: Data, tag: nat, rest: Data)
    requires tag < 4 && |data| == LengthOf(tag) && data[0] < 64
    ensures var input := data[0 := data[0] + 64 * tag] + rest;
      && input[0] / 64 == tag && |input| >= |data|
      && [input[0] % 64] + input[1..|data|] == data
  {
    hide LengthOf;
    var first: int := data[0];
    assert (first + 64 * tag) / 64 == tag && (first + 64 * tag) % 64 == first;
  }

  /** What an encoder wrote is read back, whatever follows; so is every longer form. */
  lemma {:induction false} ParseTagged(v: nat, tag: nat, rest: Data)
    requires v <= MAX_QUIC_VARINT && TagOf(v) <= tag < 4
    ensures ParseVarint(Tagged(v, tag) + rest) == Ok((v, LengthOf(tag)))
  {
    TagFits(v, tag);
    TagBitsClear(v, tag);
    Untagged(BigEndian(v, LengthOf(tag)), tag, rest);
    hide Value, BigEndian, LengthOf, TagOf, Power;
  }

  /**
   What the parser accepts: exactly the tagged forms of the numbers of at most 62
   bits, the shortest being the encoder's.
   */
  lemma {:induction false} ParseIsTagged(input: Data)
    requires ParseVarint(input).Ok?
    ensures var v, n := ParseVarint(input).value.0, ParseVarint(input).value.1;
      && 0 < n <= |input| && v <= MAX_QUIC_VARINT && TagOf(v) <= input[0] / 64 && n == LengthOf(input[0] / 64)
      && input[..n] == Tagged(v, input[0] / 64)
      && (n == LengthOf(TagOf(v)) <==> EncodeVarint(v) == Ok(input[..n]))
  {
    var tag := input[0] / 64;
    var n := LengthOf(tag);
    var data := [input[0] % 64] + input[1..n];
    var v := Value(data);
    BigEndianOfValue(data);
    ClearTagBound(data, tag);
    hide Value, BigEndian, Power;
    TagFits(v, tag);
    assert input[..n] == data[0 := data[0] + 64 * tag];
  }

  lemma {:induction false} ClearTagBound(data: Data, tag: nat)
    requires tag < 4 && |data| == LengthOf(tag) && data[0] < 64
    ensures Value(data) < 64 * Power(LengthOf(tag) - 1) && Value(data) <= MAX_QUIC_VARINT
  {
    ValueHead(data);
    ValueBelow(data[1..]);
    Powers();
    hide Value, Power;
  }

  lemma {:induction false} ValueBelow(data: Data)
    ensures Value(data) < Power(|data|)
  {
  }

  /** Bytes behind a number do not matter, and a strict prefix of one is incomplete. */
  lemma {:induction false} ParseExtends(input: Data, more: Data)
    ensures ParseVarint(input).Ok? ==> ParseVarint(input + more) == ParseVarint(input)
  {
    if ParseVarint(input).Ok? {
      var n := LengthOf(input[0] / 64);
      assert (input + more)[1..n] == input[1..n];
    }
  }

  // The reader of the one-shot decoder: one byte, then the rest of the number.

  function Zeros(k: nat): (r: Data)
    ensures |r| == k && forall i :: 0 <= i < k ==> r[i] == 0
  {
    seq(k, _ => 0)
  }

  /** read_varint on a reader that holds `data`: the value, aligned to eight bytes, and what is left. */
  function ReadVarint(data: Data): Option<(nat, Data)> {
    if |data| < 1 then None
    else
      var n, behind := LengthOf(data[0] / 64), data[1..];
      if |behind| < n - 1 then None
      else
        var encoded := [data[0]] + behind[..n - 1];
        var aligned := Zeros(8 - n) + encoded[0 := encoded[0] % 64];
        Some((Value(aligned), behind[n - 1..]))
  }

  lemma {:induction false} LeadingZeros(k: nat, data: Data)
    ensures Value(Zeros(k) + data) == Value(data)
    decreases |data|, k
  {
    var whole := Zeros(k) + data;
    if data != [] {
      assert whole[..|whole| - 1] == Zeros(k) + data[..|data| - 1];
      LeadingZeros(k, data[..|data| - 1]);
    } else if k > 0 {
      assert whole[..|whole| - 1] == Zeros(k - 1) + [];
      LeadingZeros(k - 1, []);
    } else {
      assert whole == [];
    }
  }

  /** Reading a number off a stream and parsing it in a buffer agree, ends included. */
  lemma {:induction false} ReadVarintIsParse(data: Data)
    ensures ReadVarint(data).None? <==> ParseVarint(data).Err?
    ensures ParseVarint(data).Ok? ==>
      ReadVarint(data) == Some((ParseVarint(data).value.0, data[ParseVarint(data).value.1..]))
  {
    if ParseVarint(data).Ok? {
      var n := LengthOf(data[0] / 64);
      FirstThenRest(data, n);
      LeadingZeros(8 - n, [data[0] % 64] + data[1..n]);
      hide Value, LengthOf;
    }
  }

  lemma {:induction false} FirstThenRest(data: Data, n: nat)
    requires 1 <= n <= |data|
    ensures ([data[0]] + data[1..][..n - 1])[0 := data[0] % 64] == [data[0] % 64] + data[1..n]
    ensures data[1..][n - 1..] == data[n..]
  {
  }
}
