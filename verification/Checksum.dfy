/**
 The Internet checksum of rust/porta-wire/src/ip.rs (RFC 1071): a sum of
 big-endian words, folded to sixteen bits and complemented.
 */
module Checksum {
  import opened Bytes

  /** Sum of the big-endian words; an odd last byte is the high half of a word. */
  function WordSum(data: seq<byte>): (sum: nat)
  {
    if |data| == 0 then 0
    else if |data| == 1 then 256 * data[0]
    else Word(data[0], data[1]) + WordSum(data[2..])
  }

  /** Adds the carries back until the sum fits sixteen bits. */
  function Fold(sum: nat): (r: nat)
    ensures r < 0x10000
    ensures r == 0 <==> sum == 0
    ensures r % 65535 == sum % 65535
    decreases sum
  {
    if sum < 0x10000 then sum
    else
      assert sum == 65535 * (sum / 0x10000) + (sum % 0x10000 + sum / 0x10000);
      Fold(sum % 0x10000 + sum / 0x10000)
  }

  function InternetChecksum(data: seq<byte>): (c: int)
    ensures 0 <= c < 0x10000
  {
    65535 - Fold(WordSum(data))
  }

  /** The loops of internet_checksum. */
  method ComputeChecksum(data: seq<byte>) returns (c: int)
    ensures c == InternetChecksum(data)
  {
    var sum: nat := 0;
    var i := 0;
    while i + 1 < |data|
      invariant 0 <= i <= |data|
      invariant sum + WordSum(data[i..]) == WordSum(data)
    {
      assert data[i..][2..] == data[i + 2..];
      sum := sum + Word(data[i], data[i + 1]);
      i := i + 2;
    }
    if i < |data| {
      sum := sum + Word(data[i], 0);
    }
    assert sum == WordSum(data);
    while sum >= 0x10000
      invariant Fold(sum) == Fold(WordSum(data))
    {
      sum := sum % 0x10000 + sum / 0x10000;
    }
    c := 65535 - sum;
  }

  /** Words before an even cut and words after it add up to the whole. */
  lemma {:induction false} WordSumSplit(a: seq<byte>, b: seq<byte>)
    requires |a| % 2 == 0
    ensures WordSum(a + b) == WordSum(a) + WordSum(b)
  {
    if |a| == 0 {
      assert a + b == b;
    } else {
      WordSumSplit(a[2..], b);
      assert (a + b)[2..] == a[2..] + b;
    }
  }

  /** `data` with the checksum field at the even offset `at` replaced by `c`. */
  function WithWord(data: seq<byte>, at: nat, c: int): (r: seq<byte>)
    requires at + 2 <= |data| && 0 <= c < 0x10000
    ensures |r| == |data| && r[at] == Hi(c) && r[at + 1] == Lo(c)
    ensures r[..at] == data[..at] && r[at + 2..] == data[at + 2..]
  {
    data[at := Hi(c)][at + 1 := Lo(c)]
  }

  /** The word sum is affine in the checksum field. */
  lemma {:induction false} WithWordSum(data: seq<byte>, at: nat, c: int)
    requires at % 2 == 0 && at + 2 <= |data| && 0 <= c < 0x10000
    ensures WordSum(WithWord(data, at, c)) == WordSum(data[..at]) + c + WordSum(data[at + 2..])
  {
    var d := WithWord(data, at, c);
    var tail := [d[at], d[at + 1]] + d[at + 2..];
    assert d == d[..at] + tail;
    WordSumSplit(d[..at], tail);
    assert tail[2..] == d[at + 2..];
  }

  lemma {:induction false} Congruent(a: int, b: int, c: int)
    requires a % 65535 == b % 65535
    ensures (a + c) % 65535 == (b + c) % 65535
  {
    var k := a / 65535 - b / 65535;
    assert a + c == b + c + 65535 * k;
  }

  /**
   Filling a zeroed field with the checksum of the rest makes the whole verify
   to zero, for every data and every even offset: the two sums agree modulo
   65535 and neither folds to zero.
   */
  lemma {:induction false} ChecksumVerifies(data: seq<byte>, at: nat)
    requires at % 2 == 0 && at + 2 <= |data|
    ensures InternetChecksum(WithWord(data, at, InternetChecksum(WithWord(data, at, 0)))) == 0
  {
    var zeroed := WithWord(data, at, 0);
    var s := WordSum(zeroed);
    var c := InternetChecksum(zeroed);
    WithWordSum(data, at, 0);
    WithWordSum(data, at, c);
    Congruent(s, Fold(s), c);
    assert s + c > 0;
  }

  lemma {:induction false} SmallMultiple(n: int)
    requires 0 < n <= 131070 && n % 65535 == 0
    ensures n == 65535 || n == 131070
  {
    assert n == 65535 * (n / 65535);
  }

  /**
   A verifying field is the computed one, except that 0xffff may stand where
   zero is computed.
   */
  lemma {:induction false} VerifyingFieldIsUnique(data: seq<byte>, at: nat, c: int)
    requires at % 2 == 0 && at + 2 <= |data| && 0 <= c < 0x10000
    requires InternetChecksum(WithWord(data, at, c)) == 0
    requires WordSum(WithWord(data, at, 0)) > 0
    ensures c == InternetChecksum(WithWord(data, at, 0)) || c == 0xffff
    ensures c == 0xffff ==> InternetChecksum(WithWord(data, at, 0)) == 0
  {
    var s := WordSum(WithWord(data, at, 0));
    WithWordSum(data, at, 0);
    WithWordSum(data, at, c);
    assert Fold(s + c) == 65535;
    Congruent(s, Fold(s), c);
    SmallMultiple(Fold(s) + c);
  }
}
