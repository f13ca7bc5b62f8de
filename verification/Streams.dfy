/**
 Incremental parsers: a buffer grows by arbitrary chunks and items are taken
 off its front until more bytes are needed. Shared by the capsule and the frame
 readers.
 */
module Streams {
  import opened Bytes

  type Data = seq<byte>

  /** What the front of a buffer holds: an item and its length, too little, or something invalid. */
  datatype Step<+T> = More | Item(value: T, used: nat) | Broken

  datatype Drained<+T> = Drained(items: seq<T>, rest: Data, broken: bool)

  /** An item has a length within the buffer, and bytes behind an item or an error do not matter. */
  ghost predicate Stable<T(!new)>(p: Data -> Step<T>) {
    && (forall b: Data :: p(b).Item? ==> 0 < p(b).used <= |b|)
    && (forall b: Data, more: Data :: !p(b).More? ==> p(b + more) == p(b))
  }

  /** Everything that can be taken off a buffer. */
  ghost function Drain<T(!new)>(p: Data -> Step<T>, b: Data): Drained<T>
    requires Stable(p)
    decreases |b|
  {
    match p(b)
    case More => Drained([], b, false)
    case Broken => Drained([], b, true)
    case Item(value, used) =>
      var rest := Drain(p, b[used..]);
      Drained([value] + rest.items, rest.rest, rest.broken)
  }

  lemma {:induction false} DrainStep<T(!new)>(p: Data -> Step<T>, b: Data)
    requires Stable(p)
    ensures p(b).More? ==> Drain(p, b) == Drained([], b, false)
    ensures p(b).Broken? ==> Drain(p, b) == Drained([], b, true)
    ensures p(b).Item? ==>
      && 0 < p(b).used <= |b|
      && var rest := Drain(p, b[p(b).used..]);
         Drain(p, b) == Drained([p(b).value] + rest.items, rest.rest, rest.broken)
  {
  }

  /** Draining early changes nothing: what is left simply waits for the next bytes. */
  lemma {:induction false} DrainInTwo<T(!new)>(p: Data -> Step<T>, a: Data, b: Data)
    requires Stable(p)
    ensures var first := Drain(p, a);
      if first.broken then Drain(p, a + b).items == first.items && Drain(p, a + b).broken
      else
        var second := Drain(p, first.rest + b);
        Drain(p, a + b) == Drained(first.items + second.items, second.rest, second.broken)
    decreases |a|
  {
    hide Drain;
    DrainStep(p, a);
    DrainStep(p, a + b);
    var step := p(a);
    if step.Item? {
      DrainInTwo(p, a[step.used..], b);
      assert (a + b)[step.used..] == a[step.used..] + b;
      var first := Drain(p, a[step.used..]);
      ConcatAssociates([step.value], first.items, Drain(p, first.rest + b).items);
    } else if step.More? {
      assert [] + Drain(p, a + b).items == Drain(p, a + b).items;
    }
  }

  function Joined(chunks: seq<Data>): Data {
    if chunks == [] then [] else Joined(chunks[..|chunks| - 1]) + chunks[|chunks| - 1]
  }

  /** A reader that drains after every chunk: what it has handed out and what it keeps. */
  ghost function FeedAll<T(!new)>(p: Data -> Step<T>, chunks: seq<Data>): Drained<T>
    requires Stable(p)
  {
    if chunks == [] then Drained([], [], false)
    else
      var before := FeedAll(p, chunks[..|chunks| - 1]);
      if before.broken then before
      else
        var now := Drain(p, before.rest + chunks[|chunks| - 1]);
        Drained(before.items + now.items, now.rest, now.broken)
  }

  /**
   However the bytes are cut into chunks, the reader hands out what the whole
   holds, and fails exactly when the whole does.
   */
  lemma {:induction false} ChunksDoNotMatter<T(!new)>(p: Data -> Step<T>, chunks: seq<Data>)
    requires Stable(p) && p([]).More?
    ensures FeedAll(p, chunks).items == Drain(p, Joined(chunks)).items
    ensures FeedAll(p, chunks).broken == Drain(p, Joined(chunks)).broken
    ensures !FeedAll(p, chunks).broken ==> FeedAll(p, chunks) == Drain(p, Joined(chunks))
    decreases |chunks|
  {
    if chunks == [] {
      DrainStep(p, []);
    } else {
      hide Drain;
      ChunksDoNotMatter(p, chunks[..|chunks| - 1]);
      DrainInTwo(p, Joined(chunks[..|chunks| - 1]), chunks[|chunks| - 1]);
    }
  }

  // Round trips.

  /** The parser takes back an encoded value, whatever follows. */
  ghost predicate Inverts<T(!new)>(p: Data -> Step<T>, encode: T -> Data, valid: T -> bool) {
    forall x: T, rest: Data :: valid(x) ==> p(encode(x) + rest) == Item(x, |encode(x)|)
  }

  function EncodeAll<T>(encode: T -> Data, xs: seq<T>): Data {
    if xs == [] then [] else encode(xs[0]) + EncodeAll(encode, xs[1..])
  }

  ghost predicate AllValid<T(!new)>(valid: T -> bool, xs: seq<T>) {
    forall i :: 0 <= i < |xs| ==> valid(xs[i])
  }

  /** A concatenation of encoded values, and a tail that is not yet an item, drains to exactly those values. */
  lemma {:induction false} DrainEncoded<T(!new)>(p: Data -> Step<T>, encode: T -> Data, valid: T -> bool,
                                                 xs: seq<T>, tail: Data)
    requires Stable(p) && Inverts(p, encode, valid) && AllValid(valid, xs) && p(tail).More?
    ensures Drain(p, EncodeAll(encode, xs) + tail) == Drained(xs, tail, false)
    decreases |xs|
  {
    if xs == [] {
      assert EncodeAll(encode, xs) + tail == tail;
      DrainStep(p, tail);
    } else {
      DrainEncoded(p, encode, valid, xs[1..], tail);
      hide Drain;
      var first, rest := encode(xs[0]), EncodeAll(encode, xs[1..]) + tail;
      var all := EncodeAll(encode, xs) + tail;
      ConcatAssociates(first, EncodeAll(encode, xs[1..]), tail);
      assert all == first + rest;
      DrainStep(p, all);
      assert valid(xs[0]);
      assert p(first + rest) == Item(xs[0], |first|);
      assert all[|first|..] == rest;
      assert [xs[0]] + xs[1..] == xs;
    }
  }

  /** Any cut of an encoded sequence is read back as that sequence. */
  lemma {:induction false} ReadBack<T(!new)>(p: Data -> Step<T>, encode: T -> Data, valid: T -> bool,
                                             xs: seq<T>, chunks: seq<Data>)
    requires Stable(p) && Inverts(p, encode, valid) && AllValid(valid, xs) && p([]).More?
    requires Joined(chunks) == EncodeAll(encode, xs)
    ensures FeedAll(p, chunks) == Drained(xs, [], false)
  {
    hide Drain;
    ChunksDoNotMatter(p, chunks);
    assert EncodeAll(encode, xs) + [] == EncodeAll(encode, xs);
    DrainEncoded(p, encode, valid, xs, []);
  }
}
